/**
 * The timeline's `Array.prototype.sort` with the comparator `(a, b) => a.datetime -
 * b.datetime`, for keys that are all numbers. The sort is stable (ECMA-262 requires it
 * from the 10th edition on, section 22.1.3.27), so its result is determined: the
 * insertion sort below, which moves an element left only past strictly larger keys.
 */
module StableSort {

  /** `s` is non-decreasing in `key`. */
  ghost predicate SortedBy<T>(s: seq<T>, key: T -> int) {
    forall i, j :: 0 <= i < j < |s| ==> key(s[i]) <= key(s[j])
  }

  /** The elements of `s` whose key is `k`, in their order in `s`. */
  function WithKey<T>(s: seq<T>, key: T -> int, k: int): (r: seq<T>)
    ensures |r| <= |s|
  {
    if s == [] then []
    else WithKey(s[..|s| - 1], key, k) + (if key(s[|s| - 1]) == k then [s[|s| - 1]] else [])
  }

  /** `x` placed after the elements of `s` from the right end that have a larger key. */
  function Insert<T>(s: seq<T>, x: T, key: T -> int): (r: seq<T>)
    ensures |r| == |s| + 1
  {
    if s == [] || key(s[|s| - 1]) <= key(x) then s + [x]
    else Insert(s[..|s| - 1], x, key) + [s[|s| - 1]]
  }

  /** The stable sort of `s` by `key`: each element in turn inserted into the sorted prefix. */
  function SortByKey<T>(s: seq<T>, key: T -> int): (r: seq<T>)
    ensures |r| == |s|
  {
    if s == [] then [] else Insert(SortByKey(s[..|s| - 1], key), s[|s| - 1], key)
  }

  lemma {:induction false} InsertSorted<T>(s: seq<T>, x: T, key: T -> int)
    requires SortedBy(s, key)
    ensures SortedBy(Insert(s, x, key), key)
    ensures s != [] && key(s[|s| - 1]) > key(x) ==> Insert(s, x, key)[|s|] == s[|s| - 1]
    ensures forall i :: 0 <= i < |s| + 1 ==> Insert(s, x, key)[i] in s || Insert(s, x, key)[i] == x
  {
    if s != [] && key(s[|s| - 1]) > key(x) {
      var init := s[..|s| - 1];
      InsertSorted(init, x, key);
      var r := Insert(s, x, key);
      assert r == Insert(init, x, key) + [s[|s| - 1]];
      forall i | 0 <= i < |s|
        ensures key(r[i]) <= key(s[|s| - 1])
      {
        if r[i] != x {
          assert r[i] in init;
        }
      }
    }
  }

  lemma {:induction false} InsertPermutes<T>(s: seq<T>, x: T, key: T -> int)
    ensures multiset(Insert(s, x, key)) == multiset(s) + multiset{x}
  {
    if s != [] && key(s[|s| - 1]) > key(x) {
      var init := s[..|s| - 1];
      InsertPermutes(init, x, key);
      assert s == init + [s[|s| - 1]];
    }
  }

  /** Inserting `x` adds it after the elements of its own key and leaves every other key's
      elements as they were: this is where stability comes from. */
  lemma {:induction false} InsertWithKey<T>(s: seq<T>, x: T, key: T -> int, k: int)
    ensures WithKey(Insert(s, x, key), key, k) == WithKey(s, key, k) + (if key(x) == k then [x] else [])
  {
    var fx := if key(x) == k then [x] else [];
    if s == [] || key(s[|s| - 1]) <= key(x) {
      var r := s + [x];
      assert r[..|r| - 1] == s;
    } else {
      var init, last := s[..|s| - 1], s[|s| - 1];
      var fl := if key(last) == k then [last] else [];
      var r := Insert(init, x, key) + [last];
      InsertWithKey(init, x, key, k);
      assert r[..|r| - 1] == Insert(init, x, key);
      assert WithKey(r, key, k) == WithKey(init, key, k) + fx + fl;
      assert fx == [] || fl == [];
      assert WithKey(s, key, k) == WithKey(init, key, k) + fl;
    }
  }

  /** The sorted sequence is non-decreasing in the key. */
  lemma {:induction false} SortByKeySorted<T>(s: seq<T>, key: T -> int)
    ensures SortedBy(SortByKey(s, key), key)
  {
    if s != [] {
      SortByKeySorted(s[..|s| - 1], key);
      InsertSorted(SortByKey(s[..|s| - 1], key), s[|s| - 1], key);
    }
  }

  /** Sorting neither adds nor drops an element. */
  lemma {:induction false} SortByKeyPermutes<T>(s: seq<T>, key: T -> int)
    ensures multiset(SortByKey(s, key)) == multiset(s)
  {
    if s != [] {
      var init := s[..|s| - 1];
      SortByKeyPermutes(init, key);
      InsertPermutes(SortByKey(init, key), s[|s| - 1], key);
      assert s == init + [s[|s| - 1]];
    }
  }

  /** Stability: the elements of any one key come out in their input order. */
  lemma {:induction false} SortByKeyStable<T>(s: seq<T>, key: T -> int, k: int)
    ensures WithKey(SortByKey(s, key), key, k) == WithKey(s, key, k)
  {
    if s != [] {
      var init := s[..|s| - 1];
      SortByKeyStable(init, key, k);
      InsertWithKey(SortByKey(init, key), s[|s| - 1], key, k);
    }
  }

  /** One step of the insertion loop: an element that is larger than `x` moves right. */
  lemma {:induction false} InsertShift<T>(p: seq<T>, x: T, key: T -> int, j: int)
    requires 0 < j <= |p| && key(p[j - 1]) > key(x)
    ensures Insert(p[..j], x, key) + p[j..] == Insert(p[..j - 1], x, key) + p[j - 1..]
  {
    assert p[..j][..j - 1] == p[..j - 1];
    assert p[j - 1..] == [p[j - 1]] + p[j..];
  }

  /** Copying the element left of the gap at `j` into it moves the gap one place left. */
  lemma {:induction false} ShiftGap<T>(q: seq<T>, p: seq<T>, j: int, i: int)
    requires 0 < j <= i < |q| && |p| == i
    requires q[..j] == p[..j] && q[j + 1..i + 1] == p[j..]
    ensures q[j := q[j - 1]][..j - 1] == p[..j - 1]
    ensures q[j := q[j - 1]][j..i + 1] == p[j - 1..]
    ensures q[j := q[j - 1]][i + 1..] == q[i + 1..]
  {
    var r := q[j := q[j - 1]];
    assert r[j..i + 1] == [q[j - 1]] + q[j + 1..i + 1];
    assert p[j - 1..] == [p[j - 1]] + p[j..];
    assert q[j - 1] == q[..j][j - 1];
  }

  /** Writing `x` into the gap at `j` of the prefix `q[..i + 1]` joins the pieces around it. */
  lemma {:induction false} PlaceInGap<T>(q: seq<T>, j: int, i: int, x: T)
    requires 0 <= j <= i < |q|
    ensures q[j := x][..i + 1] == q[..j] + [x] + q[j + 1..i + 1]
  {
  }

  /** One pass of the insertion sort: `a[i]` moves left past the larger keys of the
      sorted prefix `a[..i]`; the elements after `i` stay where they are. */
  method InsertLast<T>(a: array<T>, i: int, key: T -> int)
    requires 0 <= i < a.Length
    modifies a
    ensures a[..i + 1] == Insert(old(a[..i]), old(a[i]), key)
    ensures a[i + 1..] == old(a[i + 1..])
  {
    ghost var p := a[..i];
    ghost var rest := a[i + 1..];
    var x := a[i];
    var j := i;
    while j > 0 && key(a[j - 1]) > key(x)
      invariant 0 <= j <= i
      invariant a[..j] == p[..j]
      invariant a[j + 1..i + 1] == p[j..]
      invariant a[i + 1..] == rest
      invariant Insert(p, x, key) == Insert(p[..j], x, key) + p[j..]
    {
      InsertShift(p, x, key, j);
      ghost var before := a[..];
      a[j] := a[j - 1];
      assert a[..] == before[j := before[j - 1]];
      ShiftGap(before, p, j, i);
      j := j - 1;
    }
    ghost var before := a[..];
    a[j] := x;
    assert a[..] == before[j := x];
    PlaceInGap(before, j, i, x);
    assert p[..j][..j] == p[..j];
  }

  /** The in-place insertion sort: `a` ends up as `SortByKey` of what it held. */
  method SortInPlace<T>(a: array<T>, key: T -> int)
    modifies a
    ensures a[..] == SortByKey(old(a[..]), key)
  {
    ghost var s := a[..];
    var i := 0;
    while i < a.Length
      invariant 0 <= i <= a.Length
      invariant a[..i] == SortByKey(s[..i], key)
      invariant a[i..] == s[i..]
    {
      assert a[i] == s[i];
      InsertLast(a, i, key);
      assert s[..i + 1][..i] == s[..i];
      i := i + 1;
    }
    assert s[..a.Length] == s;
  }
}

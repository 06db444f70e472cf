/**
 * `formatStatus`: a camelCase status key of the timeline becomes a spaced,
 * capitalised label (`notifiedByDispatch` becomes `Notified By Dispatch`).
 * The transform is three steps: a space before every ASCII capital, the first
 * character upper-cased, and the result trimmed.
 */
module StatusFormat {

  import opened Text

  predicate IsAsciiUpper(c: char) {
    'A' <= c <= 'Z'
  }

  predicate IsAsciiLower(c: char) {
    'a' <= c <= 'z'
  }

  /** `toUpperCase` on one character, for the ASCII letters. */
  function ToUpper(c: char): (u: char)
    ensures IsAsciiLower(c) ==> IsAsciiUpper(u) && u as int == c as int - 32
    ensures !IsAsciiLower(c) ==> u == c
  {
    if IsAsciiLower(c) then (c as int - 32) as char else c
  }

  /** The string with every space removed. */
  function RemoveSpaces(s: string): string {
    if s == [] then []
    else (if s[0] == ' ' then [] else [s[0]]) + RemoveSpaces(s[1..])
  }

  lemma {:induction false} RemoveSpacesAppend(a: string, b: string)
    ensures RemoveSpaces(a + b) == RemoveSpaces(a) + RemoveSpaces(b)
  {
    if a != [] {
      assert (a + b)[1..] == a[1..] + b;
      RemoveSpacesAppend(a[1..], b);
    } else {
      assert a + b == b;
    }
  }

  /** What `.replace(/([A-Z])/g, ' $1')` makes of one character. */
  function SpaceCapital(c: char): string {
    if IsAsciiUpper(c) then [' ', c] else [c]
  }

  /** `.replace(/([A-Z])/g, ' $1')`: a space goes before every ASCII capital. */
  function SpaceCapitals(s: string): (r: string)
    ensures s == [] <==> r == []
  {
    if s == [] then [] else SpaceCapital(s[0]) + SpaceCapitals(s[1..])
  }

  /** The replacement works character by character, so it distributes over concatenation. */
  lemma {:induction false} SpaceCapitalsAppend(a: string, b: string)
    ensures SpaceCapitals(a + b) == SpaceCapitals(a) + SpaceCapitals(b)
  {
    if a == [] {
      assert a + b == b;
    } else {
      assert (a + b)[1..] == a[1..] + b;
      SpaceCapitalsAppend(a[1..], b);
    }
  }

  /** Text without capitals is left as it is. */
  lemma {:induction false} SpaceCapitalsNoUpper(s: string)
    requires forall i :: 0 <= i < |s| ==> !IsAsciiUpper(s[i])
    ensures SpaceCapitals(s) == s
  {
    if s != [] {
      SpaceCapitalsNoUpper(s[1..]);
    }
  }

  /** The replacement only inserts spaces: removing spaces before and after agrees. */
  lemma {:induction false} SpaceCapitalsRemoveSpaces(s: string)
    ensures RemoveSpaces(SpaceCapitals(s)) == RemoveSpaces(s)
  {
    if s != [] {
      SpaceCapitalsRemoveSpaces(s[1..]);
      RemoveSpacesAppend(SpaceCapital(s[0]), SpaceCapitals(s[1..]));
      assert s == [s[0]] + s[1..];
      RemoveSpacesAppend([s[0]], s[1..]);
    }
  }

  /** The ends of the result: the last character is kept, and the first is kept unless it
      is a capital, which gets a space before it. */
  lemma {:induction false} SpaceCapitalsEnds(s: string)
    requires s != []
    ensures var r := SpaceCapitals(s);
      && r[|r| - 1] == s[|s| - 1]
      && r[0] == (if IsAsciiUpper(s[0]) then ' ' else s[0])
      && (IsAsciiUpper(s[0]) ==> |r| >= 2 && r[1] == s[0])
  {
    if |s| > 1 {
      SpaceCapitalsEnds(s[1..]);
    }
  }

  // The neighbour properties below quantify over pairs of adjacent positions, so that
  // a fact about one position never produces a term for the next one.

  /** Every capital has a space just before it. */
  predicate CapitalsSpaced(r: string) {
    && (|r| > 0 ==> !IsAsciiUpper(r[0]))
    && forall i, j {:trigger r[i], r[j]} :: 0 <= i && j == i + 1 < |r| && IsAsciiUpper(r[j]) ==> r[i] == ' '
  }

  /** Every space has a capital just after it. */
  predicate SpacesBeforeCapitals(r: string) {
    && (|r| > 0 ==> r[|r| - 1] != ' ')
    && forall i, j {:trigger r[i], r[j]} :: 0 <= i && j == i + 1 < |r| && r[i] == ' ' ==> IsAsciiUpper(r[j])
  }

  /** Every capital of the result has a space just before it. */
  lemma {:induction false} SpaceCapitalsCapitals(s: string)
    ensures CapitalsSpaced(SpaceCapitals(s))
  {
    if s != [] {
      SpaceCapitalsCapitals(s[1..]);
      var head, tail := SpaceCapital(s[0]), SpaceCapitals(s[1..]);
      var r := head + tail;
      assert CapitalsSpaced(tail);
      assert r[0] == head[0];
      forall i, j | 0 <= i && j == i + 1 < |r| && IsAsciiUpper(r[j])
        ensures r[i] == ' '
      {
        if i >= |head| {
          assert r[i] == tail[i - |head|] && r[j] == tail[j - |head|];
        } else if j == 1 {
          assert head == [' ', s[0]];
        }
      }
    }
  }

  /** For text without white space, every space of the result is an inserted one, so a
      capital follows it. */
  lemma {:induction false} SpaceCapitalsSpaces(s: string)
    requires NoWhitespace(s)
    ensures SpacesBeforeCapitals(SpaceCapitals(s))
  {
    if s != [] {
      assert NoWhitespace(s[1..]);
      SpaceCapitalsSpaces(s[1..]);
      var head, tail := SpaceCapital(s[0]), SpaceCapitals(s[1..]);
      var r := head + tail;
      assert SpacesBeforeCapitals(tail);
      assert !IsWhitespace(s[0]);
      assert r[|r| - 1] == if tail == [] then s[0] else tail[|tail| - 1];
      forall i, j | 0 <= i && j == i + 1 < |r| && r[i] == ' '
        ensures IsAsciiUpper(r[j])
      {
        if i >= |head| {
          assert r[i] == tail[i - |head|] && r[j] == tail[j - |head|];
        } else {
          assert i == 0 && head == [' ', s[0]];
        }
      }
    }
  }

  /** `.replace(/^./, str => str.toUpperCase())`: the first character is upper-cased
      unless it is a line terminator, which `.` does not match. */
  function UpperFirst(s: string): (r: string)
    ensures |r| == |s| && (s != [] ==> r[1..] == s[1..])
    ensures s != [] ==> r[0] == if IsLineTerminator(s[0]) then s[0] else ToUpper(s[0])
  {
    if s != [] && !IsLineTerminator(s[0]) then [ToUpper(s[0])] + s[1..] else s
  }

  /** `formatStatus`. */
  function FormatStatus(status: string): string {
    Trim(UpperFirst(SpaceCapitals(status)))
  }

  /** Every capital after the first character has a space just before it. */
  predicate InnerCapitalsSpaced(r: string) {
    forall i, j {:trigger r[i], r[j]} :: 0 <= i && j == i + 1 < |r| && IsAsciiUpper(r[j]) ==> r[i] == ' '
  }

  /** `shown` is `key` with its first letter upper-cased and single spaces inserted:
      removing the spaces gives that back, the label does not start with a space, every
      space is followed by a capital, and every capital but the first is preceded by a space. */
  predicate IsLabelOf(shown: string, key: string) {
    && RemoveSpaces(shown) == UpperFirst(key)
    && (shown == [] || shown[0] != ' ')
    && SpacesBeforeCapitals(shown)
    && InnerCapitalsSpaced(shown)
  }

  /** For a key without white space, `formatStatus` gives its label; a leading capital
      gets no leading space. */
  lemma {:induction false} FormatStatusOfKey(key: string)
    requires NoWhitespace(key)
    ensures IsLabelOf(FormatStatus(key), key)
  {
    if key == [] {
      assert UpperFirst(SpaceCapitals(key)) == [];
      TrimNoWhitespace([]);
    } else if IsAsciiUpper(key[0]) {
      FormatCapitalKey(key);
    } else {
      FormatLowerKey(key);
    }
  }

  /** What inserting the spaces does to a non-empty key without white space. */
  lemma {:induction false} SpacedKey(key: string)
    requires NoWhitespace(key) && key != []
    ensures var t := SpaceCapitals(key);
      && RemoveSpaces(t) == key
      && SpacesBeforeCapitals(t) && CapitalsSpaced(t)
      && !IsWhitespace(key[0]) && !IsWhitespace(key[|key| - 1])
      && t[|t| - 1] == key[|key| - 1]
      && t[0] == (if IsAsciiUpper(key[0]) then ' ' else key[0])
      && (IsAsciiUpper(key[0]) ==> |t| >= 2 && t[1] == key[0])
  {
    var t := SpaceCapitals(key);
    assert RemoveSpaces(t) == key by {
      SpaceCapitalsRemoveSpaces(key);
      NoSpacesKept(key);
    }
    assert SpacesBeforeCapitals(t) && CapitalsSpaced(t) by {
      SpaceCapitalsCapitals(key);
      SpaceCapitalsSpaces(key);
    }
    SpaceCapitalsEnds(key);
  }

  lemma {:induction false} FormatCapitalKey(key: string)
    requires NoWhitespace(key) && key != [] && IsAsciiUpper(key[0])
    ensures IsLabelOf(FormatStatus(key), key)
  {
    SpacedKey(key);
    var t := SpaceCapitals(key);
    LeadingSpaceTrimmed(t);
    LabelOfCapitalKey(key, t);
  }

  lemma {:induction false} FormatLowerKey(key: string)
    requires NoWhitespace(key) && key != [] && !IsAsciiUpper(key[0])
    ensures IsLabelOf(FormatStatus(key), key)
  {
    SpacedKey(key);
    LabelOfLowerKey(key, SpaceCapitals(key));
  }

  /** A key starting with a capital: without the inserted leading space, which trimming
      removes, the spaced key is its label. */
  lemma {:induction false} LabelOfCapitalKey(key: string, t: string)
    requires key != [] && IsAsciiUpper(key[0]) && !IsWhitespace(key[|key| - 1])
    requires |t| >= 2 && t[0] == ' ' && t[1] == key[0] && t[|t| - 1] == key[|key| - 1]
    requires RemoveSpaces(t) == key
    requires SpacesBeforeCapitals(t) && CapitalsSpaced(t)
    ensures IsLabelOf(t[1..], key)
  {
    var shown := t[1..];
    assert RemoveSpaces(shown) == UpperFirst(key) by {
      assert t == [' '] + shown;
      assert UpperFirst(key) == key;
    }
    assert SpacesBeforeCapitals(shown) && InnerCapitalsSpaced(shown) by {
      assert InnerCapitalsSpaced(t);
      NeighboursAfterFirst(t);
    }
    assert shown[0] != ' ';
  }

  /** A leading space before a non-blank character, with a non-blank end, is all that
      upper-casing leaves alone and trimming removes. */
  lemma {:induction false} LeadingSpaceTrimmed(t: string)
    requires |t| >= 2 && t[0] == ' ' && !IsWhitespace(t[1]) && !IsWhitespace(t[|t| - 1])
    ensures Trim(UpperFirst(t)) == t[1..]
  {
    assert UpperFirst(t) == t;
    TrimLeadingBlank(t);
    TrimNoWhitespace(t[1..]);
  }

  /** Dropping the first character keeps the spaces before capitals and the capitals
      after spaces, except at the new first position. */
  lemma {:induction false} NeighboursAfterFirst(t: string)
    requires t != []
    requires SpacesBeforeCapitals(t) && InnerCapitalsSpaced(t)
    ensures SpacesBeforeCapitals(t[1..]) && InnerCapitalsSpaced(t[1..])
  {
    var r := t[1..];
    forall i, j | 0 <= i && j == i + 1 < |r| && r[i] == ' '
      ensures IsAsciiUpper(r[j])
    {
      assert t[i + 1] == r[i] && t[j + 1] == r[j];
    }
    forall i, j | 0 <= i && j == i + 1 < |r| && IsAsciiUpper(r[j])
      ensures r[i] == ' '
    {
      assert t[i + 1] == r[i] && t[j + 1] == r[j];
    }
  }

  /** A key starting with anything but a capital: only its first letter changes, and
      nothing is trimmed. */
  lemma {:induction false} LabelOfLowerKey(key: string, t: string)
    requires key != [] && !IsAsciiUpper(key[0]) && !IsWhitespace(key[0]) && !IsWhitespace(key[|key| - 1])
    requires t != [] && t[0] == key[0] && t[|t| - 1] == key[|key| - 1]
    requires RemoveSpaces(t) == key
    requires SpacesBeforeCapitals(t) && CapitalsSpaced(t)
    ensures IsLabelOf(Trim(UpperFirst(t)), key)
  {
    LowerKeyUntrimmed(key, t);
    LowerKeyLetters(key, t);
    LowerKeyNeighbours(t);
  }

  /** Upper-casing the first character of a lower key leaves nothing to trim. */
  lemma {:induction false} LowerKeyUntrimmed(key: string, t: string)
    requires key != [] && !IsWhitespace(key[0]) && !IsWhitespace(key[|key| - 1])
    requires t != [] && t[0] == key[0] && t[|t| - 1] == key[|key| - 1]
    ensures Trim(UpperFirst(t)) == UpperFirst(t) && UpperFirst(t)[0] != ' '
  {
    var u := UpperFirst(t);
    var c := ToUpper(key[0]);
    assert u == [c] + t[1..];
    assert !IsWhitespace(c);
    assert |u| == 1 || u[|u| - 1] == t[|t| - 1];
    TrimNoWhitespace(u);
  }

  /** Without its spaces the label is the key with its first letter upper-cased. */
  lemma {:induction false} LowerKeyLetters(key: string, t: string)
    requires key != [] && !IsWhitespace(key[0])
    requires t != [] && t[0] == key[0]
    requires RemoveSpaces(t) == key
    ensures RemoveSpaces(UpperFirst(t)) == UpperFirst(key)
  {
    var c := ToUpper(key[0]);
    assert UpperFirst(t) == [c] + t[1..];
    assert t == [key[0]] + t[1..];
    RemoveSpacesCons(c, t[1..]);
    RemoveSpacesCons(key[0], t[1..]);
    assert key == [key[0]] + key[1..];
    assert UpperFirst(key) == [c] + key[1..];
  }

  /** Changing the first character keeps every space before a capital and every capital
      after the first behind a space. */
  lemma {:induction false} LowerKeyNeighbours(t: string)
    requires t != [] && t[0] != ' '
    requires SpacesBeforeCapitals(t) && CapitalsSpaced(t)
    ensures SpacesBeforeCapitals(UpperFirst(t)) && InnerCapitalsSpaced(UpperFirst(t))
  {
    var u := UpperFirst(t);
    assert u[|u| - 1] != ' ' by {
      assert |u| == 1 || u[|u| - 1] == t[|t| - 1];
    }
    forall i, j | 0 <= i && j == i + 1 < |u| && u[i] == ' '
      ensures IsAsciiUpper(u[j])
    {
      assert t[i] == u[i] && t[j] == u[j];
    }
    forall i, j | 0 <= i && j == i + 1 < |u| && IsAsciiUpper(u[j])
      ensures u[i] == ' '
    {
      assert t[j] == u[j];
      assert t[i] == u[i];
    }
  }

  lemma {:induction false} RemoveSpacesCons(c: char, s: string)
    requires c != ' '
    ensures RemoveSpaces([c] + s) == [c] + RemoveSpaces(s)
  {
    assert ([c] + s)[1..] == s;
  }

  /** A string without white space has no space to remove. */
  lemma {:induction false} NoSpacesKept(s: string)
    requires NoWhitespace(s)
    ensures RemoveSpaces(s) == s
  {
    if s != [] {
      assert s[0] != ' ';
      NoSpacesKept(s[1..]);
    }
  }

  /** The label of `enRoute`, a worked instance of the transform. */
  lemma {:induction false} EnRouteExample()
    ensures FormatStatus("enRoute") == "En Route"
  {
    EnRouteSpaced();
    assert UpperFirst("en Route") == "En Route";
    TrimNoWhitespace("En Route");
  }

  lemma {:induction false} EnRouteSpaced()
    ensures SpaceCapitals("enRoute") == "en Route"
  {
    assert "enRoute" == "en" + "Route" && "Route" == "R" + "oute";
    SpaceCapitalsAppend("en", "Route");
    SpaceCapitalsAppend("R", "oute");
    SpaceCapitalsNoUpper("en");
    SpaceCapitalsNoUpper("oute");
    assert SpaceCapitals("R") == " R";
  }

  /** A key of three words, a lower-case one and two capitalised ones: the label is the
      first word with its first letter upper-cased, then each further word after a space. */
  lemma {:induction false} FormatThreeWords(first: string, second: string, third: string)
    requires first != [] && IsAsciiLower(first[0])
    requires forall i :: 0 <= i < |first| ==> !IsAsciiUpper(first[i])
    requires second != [] && IsAsciiUpper(second[0])
    requires forall i :: 1 <= i < |second| ==> !IsAsciiUpper(second[i])
    requires third != [] && IsAsciiUpper(third[0]) && !IsWhitespace(third[|third| - 1])
    requires forall i :: 1 <= i < |third| ==> !IsAsciiUpper(third[i])
    ensures FormatStatus(first + second + third) == UpperFirst(first) + ([' '] + second) + ([' '] + third)
  {
    var b, c := [' '] + second, [' '] + third;
    ThreeWordsSpaced(first, second, third);
    UpperFirstAppend(first + b, c);
    UpperFirstAppend(first, b);
    var shown := UpperFirst(first) + b + c;
    assert shown[0] == ToUpper(first[0]) && shown[|shown| - 1] == third[|third| - 1];
    TrimNoWhitespace(shown);
  }

  /** Spacing a key of three words puts a space before the second and the third. */
  lemma {:induction false} ThreeWordsSpaced(first: string, second: string, third: string)
    requires forall i :: 0 <= i < |first| ==> !IsAsciiUpper(first[i])
    requires second != [] && IsAsciiUpper(second[0])
    requires forall i :: 1 <= i < |second| ==> !IsAsciiUpper(second[i])
    requires third != [] && IsAsciiUpper(third[0])
    requires forall i :: 1 <= i < |third| ==> !IsAsciiUpper(third[i])
    ensures SpaceCapitals(first + second + third) == first + ([' '] + second) + ([' '] + third)
  {
    SpaceCapitalsAppend(first + second, third);
    SpaceCapitalsAppend(first, second);
    SpaceCapitalsNoUpper(first);
    CapitalWord(second);
    CapitalWord(third);
  }

  /** The label of `notifiedByDispatch`, given as its three words. The words are
      parameters fixed by the precondition rather than one string literal: on a literal
      the verifier unfolds the replacement and the capitalisation eagerly, character by
      character, and the proof no longer fits the resource limit; with parameters it goes
      through the general `FormatThreeWords`. */
  lemma {:induction false} NotifiedByDispatchExample(first: string, second: string, third: string)
    requires first == "notified" && second == "By" && third == "Dispatch"
    ensures FormatStatus(first + second + third) == "Notified" + " By" + " Dispatch"
  {
    FormatThreeWords(first, second, third);
    NotifiedCapitalised();
    assert [' '] + second == " By" && [' '] + third == " Dispatch";
  }

  lemma {:induction false} NotifiedCapitalised()
    ensures UpperFirst("notified") == "Notified"
  {
  }

  /** A capital followed by letters that are not capitals gains one space in front. */
  lemma {:induction false} CapitalWord(w: string)
    requires w != [] && IsAsciiUpper(w[0])
    requires forall i :: 1 <= i < |w| ==> !IsAsciiUpper(w[i])
    ensures SpaceCapitals(w) == [' '] + w
  {
    SpaceCapitalsNoUpper(w[1..]);
    assert [w[0]] + w[1..] == w;
  }

  /** Upper-casing the first character only looks at the first piece. */
  lemma {:induction false} UpperFirstAppend(a: string, b: string)
    requires a != []
    ensures UpperFirst(a + b) == UpperFirst(a) + b
  {
    assert (a + b)[0] == a[0];
    assert (a + b)[1..] == a[1..] + b;
  }
}

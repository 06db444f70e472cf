/**
 * Page arithmetic of the incident list: the fixed page size, the number of
 * pages for a total count, the compact list of page buttons with ellipses,
 * the state of the prev/next buttons with the "Showing a-b of n" text, and
 * the zero-based row range the backend is asked for.
 */
module Pagination {

  /** `ITEMS_PER_PAGE`. */
  const PageSize: nat := 20

  /** The most page buttons shown before the list is compacted with ellipses. */
  const MaxVisible: nat := 7

  /** `Math.ceil(totalCount / ITEMS_PER_PAGE)`: the least number of pages that hold `count` rows. */
  function TotalPages(count: nat): (pages: nat)
    ensures (pages - 1) * PageSize < count <= pages * PageSize
  {
    (count + PageSize - 1) / PageSize
  }

  /** The zero-based inclusive row range `[offset, offset + limit - 1]` the gateway
      requests for a page, with `offset = (page - 1) * limit`. */
  function RowRange(page: int, limit: nat): (range: (int, int))
    ensures range.1 - range.0 + 1 == limit
  {
    var offset := (page - 1) * limit;
    (offset, offset + limit - 1)
  }

  /** Consecutive pages request adjacent, non-overlapping row ranges. */
  lemma RowRangesAdjacent(page: int, limit: nat)
    ensures RowRange(page + 1, limit).0 == RowRange(page, limit).1 + 1
    ensures RowRange(1, limit).0 == 0
  {
    assert page * limit == (page - 1) * limit + limit;
  }

  /** One entry of the compact page list: a page number or the `'...'` marker. */
  datatype PageEntry = Number(page: int) | Ellipsis

  // The neighbour properties quantify over adjacent positions as separate variables, so
  // that a fact about one position never produces a term for the next one.

  /** Neighbouring numbers are consecutive pages. */
  predicate Consecutive(pages: seq<PageEntry>) {
    forall i, j {:trigger pages[i], pages[j]} ::
      (0 <= i && j == i + 1 < |pages| && pages[i].Number? && pages[j].Number?) ==>
        pages[j].page == pages[i].page + 1
  }

  /** An ellipsis sits between two numbers with at least one page hidden between them. */
  predicate GapsHidePages(pages: seq<PageEntry>) {
    forall h, i, j {:trigger pages[h], pages[i], pages[j]} ::
      (0 <= h < |pages| && i == h + 1 && j == i + 1 < |pages| && pages[i].Ellipsis?) ==>
        pages[h].Number? && pages[j].Number? && pages[h].page + 1 < pages[j].page
  }

  /** The shape every non-empty page list has for `total` pages: at most seven entries,
      first page 1 and last page `total`, numbers strictly increasing within `[1, total]`,
      neighbouring numbers consecutive, and an ellipsis only between two numbers with
      at least one page hidden between them. */
  predicate WellFormed(pages: seq<PageEntry>, total: int) {
    && 0 < |pages| <= MaxVisible
    && pages[0] == Number(1)
    && pages[|pages| - 1] == Number(total)
    && (forall i :: 0 <= i < |pages| && pages[i].Number? ==> 1 <= pages[i].page <= total)
    && (forall i, j :: 0 <= i < j < |pages| && pages[i].Number? && pages[j].Number? ==>
          pages[i].page < pages[j].page)
    && Consecutive(pages)
    && GapsHidePages(pages)
  }

  function PageNumbers(current: int, total: int): (pages: seq<PageEntry>)
    ensures total <= 1 <==> pages == []
    ensures 1 < total <= MaxVisible ==> |pages| == total && forall i :: 0 <= i < total ==> pages[i] == Number(i + 1)
  {
    if total <= 1 then []
    else if total <= MaxVisible then seq(total, i => Number(i + 1))
    else if current <= 4 then
      [Number(1), Number(2), Number(3), Number(4), Number(5), Ellipsis, Number(total)]
    else if current >= total - 3 then
      [Number(1), Ellipsis, Number(total - 4), Number(total - 3), Number(total - 2), Number(total - 1), Number(total)]
    else
      [Number(1), Ellipsis, Number(current - 1), Number(current), Number(current + 1), Ellipsis, Number(total)]
  }

  /** A list that starts at 1, ends at `total`, keeps its numbers in range, and whose
      neighbours are consecutive or separated by a gap that hides pages, is well formed. */
  lemma {:induction false} WellFormedFromNeighbours(pages: seq<PageEntry>, total: int)
    requires 0 < |pages| <= MaxVisible
    requires pages[0] == Number(1) && pages[|pages| - 1] == Number(total)
    requires forall i :: 0 <= i < |pages| && pages[i].Number? ==> 1 <= pages[i].page <= total
    requires Consecutive(pages) && GapsHidePages(pages)
    ensures WellFormed(pages, total)
  {
    forall i, j | 0 <= i < j < |pages| && pages[i].Number? && pages[j].Number?
      ensures pages[i].page < pages[j].page
    {
      Climb(pages, i, j);
    }
  }

  /** Numbers climb across a list whose neighbouring numbers are consecutive and whose
      ellipses hide pages. */
  lemma {:induction false} Climb(pages: seq<PageEntry>, i: int, j: int)
    requires 0 <= i < j < |pages| && pages[i].Number? && pages[j].Number?
    requires Consecutive(pages) && GapsHidePages(pages)
    ensures pages[i].page < pages[j].page
    decreases j - i
  {
    var next := pages[i + 1];
    if next.Number? {
      if i + 1 < j {
        Climb(pages, i + 1, j);
      }
    } else {
      var after := pages[i + 2];
      if i + 2 < j {
        Climb(pages, i + 2, j);
      }
    }
  }

  /** Up to seven pages: every page number, in order. */
  lemma {:induction false} AllPagesShape(current: int, total: int)
    requires 1 < total <= MaxVisible
    ensures WellFormed(PageNumbers(current, total), total)
  {
    var pages := PageNumbers(current, total);
    assert forall i :: 0 <= i < total ==> pages[i] == Number(i + 1);
    WellFormedFromNeighbours(pages, total);
  }

  /** The window for a current page among the first four. */
  lemma {:induction false} FirstWindow(total: int)
    requires MaxVisible < total
    ensures WellFormed([Number(1), Number(2), Number(3), Number(4), Number(5), Ellipsis, Number(total)], total)
  {
    var pages := [Number(1), Number(2), Number(3), Number(4), Number(5), Ellipsis, Number(total)];
    WellFormedFromNeighbours(pages, total);
  }

  /** The window for a current page among the last four. */
  lemma {:induction false} LastWindow(total: int)
    requires MaxVisible < total
    ensures WellFormed([Number(1), Ellipsis, Number(total - 4), Number(total - 3), Number(total - 2),
                        Number(total - 1), Number(total)], total)
  {
    var pages := [Number(1), Ellipsis, Number(total - 4), Number(total - 3), Number(total - 2),
                  Number(total - 1), Number(total)];
    WellFormedFromNeighbours(pages, total);
  }

  /** The window around a current page in the middle. */
  lemma {:induction false} MiddleWindow(current: int, total: int)
    requires MaxVisible < total && 4 < current < total - 3
    ensures WellFormed([Number(1), Ellipsis, Number(current - 1), Number(current), Number(current + 1),
                        Ellipsis, Number(total)], total)
  {
    var pages := [Number(1), Ellipsis, Number(current - 1), Number(current), Number(current + 1),
                  Ellipsis, Number(total)];
    WellFormedFromNeighbours(pages, total);
  }

  /** For more than one page, the list has the well-formed shape, and it shows the
      current page whenever that page exists. */
  lemma {:induction false} PageNumbersShape(current: int, total: int)
    requires 1 < total
    ensures WellFormed(PageNumbers(current, total), total)
    ensures 1 <= current <= total ==> Number(current) in PageNumbers(current, total)
  {
    var pages := PageNumbers(current, total);
    if total <= MaxVisible {
      assert 1 <= current <= total ==> pages[current - 1] == Number(current);
      AllPagesShape(current, total);
    } else if current <= 4 {
      FirstWindow(total);
      assert 1 <= current ==> pages[current - 1] == Number(current);
    } else if current >= total - 3 {
      LastWindow(total);
      assert current <= total ==> pages[current - total + 6] == Number(current);
    } else {
      MiddleWindow(current, total);
      assert pages[3] == Number(current);
    }
  }

  /** The loop of `generatePageNumbers`: all pages when there are at most seven, a fixed
      window around the current page otherwise. */
  method GeneratePageNumbers(current: int, total: int) returns (pages: seq<PageEntry>)
    ensures pages == PageNumbers(current, total)
  {
    if total <= 1 {
      return [];
    }
    pages := [];
    if total <= MaxVisible {
      for i := 1 to total + 1
        invariant |pages| == i - 1
        invariant forall k :: 0 <= k < i - 1 ==> pages[k] == Number(k + 1)
      {
        pages := pages + [Number(i)];
      }
    } else if current <= 4 {
      pages := [Number(1), Number(2), Number(3), Number(4), Number(5), Ellipsis, Number(total)];
    } else if current >= total - 3 {
      pages := [Number(1), Ellipsis, Number(total - 4), Number(total - 3), Number(total - 2), Number(total - 1), Number(total)];
    } else {
      pages := [Number(1), Ellipsis, Number(current - 1), Number(current), Number(current + 1), Ellipsis, Number(total)];
    }
  }

  /** The page lists for page 1 of 5, 1 of 10, 10 of 10 and 5 of 10. */
  lemma PageNumbersExamples()
    ensures PageNumbers(1, 5) == [Number(1), Number(2), Number(3), Number(4), Number(5)]
    ensures PageNumbers(1, 10) == [Number(1), Number(2), Number(3), Number(4), Number(5), Ellipsis, Number(10)]
    ensures PageNumbers(10, 10) == [Number(1), Ellipsis, Number(6), Number(7), Number(8), Number(9), Number(10)]
    ensures PageNumbers(5, 10) == [Number(1), Ellipsis, Number(4), Number(5), Number(6), Ellipsis, Number(10)]
  {
  }

  /** A rendered page entry: a button (marked active or not) or the inert `...` span. */
  datatype PageButton = Button(page: int, active: bool) | Gap

  /** Marks the button of the current page active, as the HTML template does. */
  function MarkActive(pages: seq<PageEntry>, current: int): (buttons: seq<PageButton>)
    ensures |buttons| == |pages|
    ensures forall i :: 0 <= i < |pages| ==> (buttons[i].Gap? <==> pages[i].Ellipsis?)
    ensures forall i :: 0 <= i < |pages| && pages[i].Number? ==>
              buttons[i].page == pages[i].page && (buttons[i].active <==> pages[i].page == current)
  {
    seq(|pages|, i requires 0 <= i < |pages| =>
      match pages[i]
      case Number(p) => Button(p, p == current)
      case Ellipsis => Gap)
  }

  function PageButtons(current: int, total: int): seq<PageButton> {
    MarkActive(PageNumbers(current, total), current)
  }

  /** With more than one page and the current page in range, exactly one button is
      marked active and it is the current page's. */
  lemma {:induction false} OneActiveButton(current: int, total: int)
    requires 1 < total && 1 <= current <= total
    ensures exists i :: 0 <= i < |PageButtons(current, total)| && PageButtons(current, total)[i] == Button(current, true)
    ensures forall i, j :: 0 <= i < j < |PageButtons(current, total)| ==>
              !(PageButtons(current, total)[i].Button? && PageButtons(current, total)[i].active &&
                PageButtons(current, total)[j].Button? && PageButtons(current, total)[j].active)
  {
    var pages := PageNumbers(current, total);
    var buttons := PageButtons(current, total);
    PageNumbersShape(current, total);
    var i :| 0 <= i < |pages| && pages[i] == Number(current);
    assert buttons[i] == Button(current, true);
    forall a, b | 0 <= a < b < |buttons|
      ensures !(buttons[a].Button? && buttons[a].active && buttons[b].Button? && buttons[b].active)
    {
      if buttons[a].Button? && buttons[b].Button? {
        assert pages[a].Number? && pages[b].Number? && pages[a].page < pages[b].page;
      }
    }
  }

  /** The "Showing a-b of n" text, or "No results". */
  datatype Info = NoResults | Showing(first: int, last: int, of: nat)

  /** What `updatePagination` puts on the page. */
  datatype Controls = Controls(prevDisabled: bool, nextDisabled: bool, buttons: seq<PageButton>, info: Info)

  function Min(a: int, b: int): int {
    if a <= b then a else b
  }

  function ControlsFor(page: int, count: nat): (c: Controls)
    ensures c.info.NoResults? <==> count == 0
    ensures c.buttons == PageButtons(page, TotalPages(count))
    ensures c.info.Showing? ==> c.info.of == count
  {
    var totalPages := TotalPages(count);
    Controls(
      page == 1,
      page >= totalPages || totalPages == 0,
      PageButtons(page, totalPages),
      if count == 0 then NoResults
      else Showing((page - 1) * PageSize + 1, Min(page * PageSize, count), count))
  }

  /** `updatePagination`: the button states, the page buttons built by the loop, and the info text. */
  method UpdatePagination(page: int, count: nat) returns (c: Controls)
    ensures c == ControlsFor(page, count)
  {
    var totalPages := TotalPages(count);
    var pages := GeneratePageNumbers(page, totalPages);
    var info := if count == 0 then NoResults
      else Showing((page - 1) * PageSize + 1, Min(page * PageSize, count), count);
    c := Controls(page == 1, page >= totalPages || totalPages == 0, MarkActive(pages, page), info);
  }

  /** For a page of at least 1, prev is enabled exactly when the prev handler would move,
      and next exactly when the next handler would. */
  lemma ButtonsMatchHandlers(page: int, count: nat)
    requires 1 <= page
    ensures !ControlsFor(page, count).prevDisabled <==> page > 1
    ensures !ControlsFor(page, count).nextDisabled <==> page < TotalPages(count)
  {
  }

  /** On an existing page, the info text names a non-empty range of at most one page of
      rows within the count: a full page before the last, up to the count on the last. */
  lemma {:induction false} InfoWithinCount(page: int, count: nat)
    requires count > 0 && 1 <= page <= TotalPages(count)
    ensures ControlsFor(page, count).info.Showing?
    ensures var info := ControlsFor(page, count).info;
      && 1 <= info.first <= info.last <= count
      && info.last - info.first < PageSize
      && (page < TotalPages(count) ==> info.last - info.first + 1 == PageSize)
      && (page == TotalPages(count) ==> info.last == count)
  {
    var n := TotalPages(count);
    assert (n - 1) * PageSize < count;
    assert page * PageSize <= n * PageSize;
  }

  /** The info range is the gateway's zero-based row range, shifted to one-based and cut at the count. */
  lemma InfoMatchesRowRange(page: int, count: nat)
    requires count > 0
    ensures var info := ControlsFor(page, count).info;
      var range := RowRange(page, PageSize);
      info == Showing(range.0 + 1, Min(range.1 + 1, count), count)
  {
  }

  /** The page is not clamped when the count shrinks: past the last page the text
      names an empty range whose start exceeds its end. */
  lemma InfoPastLastPage(page: int, count: nat)
    requires count > 0 && page > TotalPages(count)
    ensures ControlsFor(page, count).info.first > ControlsFor(page, count).info.last
  {
  }

  /** Every row `1..count` is shown on exactly one of the pages `1..TotalPages(count)`. */
  lemma {:induction false} RowOnOnePage(count: nat, row: int)
    requires 1 <= row <= count
    ensures var p := (row - 1) / PageSize + 1;
      && 1 <= p <= TotalPages(count)
      && ControlsFor(p, count).info.first <= row <= ControlsFor(p, count).info.last
    ensures forall q :: 1 <= q && q != (row - 1) / PageSize + 1 ==>
      !(ControlsFor(q, count).info.first <= row <= ControlsFor(q, count).info.last)
  {
    var p := (row - 1) / PageSize + 1;
    var n := TotalPages(count);
    assert (p - 1) * PageSize <= row - 1 < p * PageSize;
    assert (n - 1) * PageSize < count <= n * PageSize;
    forall q | 1 <= q && q != p
      ensures !(ControlsFor(q, count).info.first <= row <= ControlsFor(q, count).info.last)
    {
      if q < p {
        assert q * PageSize <= (p - 1) * PageSize;
      } else {
        assert (q - 1) * PageSize >= p * PageSize;
      }
    }
  }
}

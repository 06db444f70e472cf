/**
 * The incident list view: the filter chosen from the two search inputs, the
 * current page and the total count, the query each load dispatches to the
 * backend, and how the answer updates the count, the table and the
 * pagination controls. The backend call is awaited inside each handler; its
 * answer is a parameter of the handler here.
 */
module IncidentList {

  import opened Wrappers
  import opened Text
  import opened Records
  import opened Pagination

  /** The value an incident-number search carries: `parseInt` of a digit string, or
      text whose `parseInt` (a partial parse or NaN) is outside the model. */
  datatype IncidentValue = Parsed(n: nat) | Unparsed(text: string)

  function ParseIncidentNumber(text: string): (v: IncidentValue)
    ensures v.Parsed? <==> text != [] && AllDigits(text)
    ensures v.Unparsed? ==> v.text == text
  {
    if text != [] && AllDigits(text) then Parsed(DigitsValue(text)) else Unparsed(text)
  }

  /** Typing in the incident number the table shows searches for that very number. */
  lemma ParseShownNumber(n: nat)
    ensures ParseIncidentNumber(ShowNat(n)) == Parsed(n)
  {
    ShowNatRoundTrip(n);
  }

  /** `currentFilter`: `null`, `{type: 'date'}` or `{type: 'incident'}`. */
  datatype Filter = NoFilter | ByDate(date: string) | ByIncident(number: IncidentValue)

  /** The choice `handleSearch` makes from the two inputs. */
  function ChooseFilter(numberText: string, dateText: string): Filter {
    var number := Trim(numberText);
    if number != [] then ByIncident(ParseIncidentNumber(number))
    else if dateText != [] then ByDate(dateText)
    else NoFilter
  }

  /** A non-blank incident number wins whatever the date says, and its trimmed text is
      what is parsed; otherwise a non-empty date (not trimmed) filters by date; otherwise
      there is no filter. */
  lemma FilterChoice(numberText: string, dateText: string)
    ensures var f := ChooseFilter(numberText, dateText);
      && (f.ByIncident? <==> !AllWhitespace(numberText))
      && (f.ByIncident? ==> f.number == ParseIncidentNumber(Trim(numberText)) && f.number != Unparsed([]))
      && (f.ByDate? <==> AllWhitespace(numberText) && dateText != [])
      && (f.ByDate? ==> f.date == dateText)
      && (f.NoFilter? <==> AllWhitespace(numberText) && dateText == [])
  {
    TrimSpec(numberText);
  }

  /** The three gateway reads: the recent window and the date window are paged and counted,
      the incident-number read returns every unit of that incident. */
  datatype Query =
    | RecentQuery(page: int, limit: nat)
    | DateQuery(date: string, page: int, limit: nat)
    | NumberQuery(number: IncidentValue)

  /** The gateway's `{data, count, error}`. */
  datatype Response = Response(data: Option<seq<Incident>>, count: Option<nat>, failed: bool)

  /** What a load leaves on the page: the error message in the table (the pagination
      controls are not refreshed), or the rows with refreshed controls. */
  datatype Display = ErrorShown | TableShown(rows: seq<Incident>, controls: Controls)

  /** What a handler did: nothing, or one load with the query it sent and what it showed. */
  datatype Effect = NoLoad | Loaded(query: Query, display: Display)

  function QueryFor(filter: Filter, page: int): Query {
    match filter
    case ByIncident(n) => NumberQuery(n)
    case ByDate(d) => DateQuery(d, page, PageSize)
    case NoFilter => RecentQuery(page, PageSize)
  }

  /** The total a load records: the number of returned rows under the incident filter,
      the reported count otherwise, 0 when either is missing. */
  function CountAfter(filter: Filter, answer: Response): nat {
    if filter.ByIncident? then |answer.data.GetOr([])| else answer.count.GetOr(0)
  }

  function DisplayAfter(page: int, count: nat, answer: Response): Display {
    if answer.failed then ErrorShown else TableShown(answer.data.GetOr([]), ControlsFor(page, count))
  }

  function Max(a: int, b: int): int {
    if a >= b then a else b
  }

  /** The module state of the list page, with the two search inputs it reads and clears. */
  class ListController {
    var currentPage: int
    var totalCount: nat
    var currentFilter: Filter
    var numberInput: string
    var dateInput: string

    /** The page lies between 1 and the last page (1 when there are no rows). */
    ghost predicate PageInRange()
      reads this
    {
      1 <= currentPage <= Max(1, TotalPages(totalCount))
    }

    /** The state after one load answered by `answer`, and the effect that load had. */
    ghost predicate LoadedWith(effect: Effect, answer: Response)
      reads this
    {
      && totalCount == CountAfter(currentFilter, answer)
      && effect == Loaded(QueryFor(currentFilter, currentPage), DisplayAfter(currentPage, totalCount, answer))
    }

    constructor ()
      ensures currentPage == 1 && totalCount == 0 && currentFilter == NoFilter
      ensures numberInput == [] && dateInput == []
      ensures PageInRange()
    {
      currentPage, totalCount, currentFilter := 1, 0, NoFilter;
      numberInput, dateInput := [], [];
    }

    /** The user edits the two search inputs. */
    method EditInputs(numberText: string, dateText: string)
      modifies this`numberInput, this`dateInput
      ensures numberInput == numberText && dateInput == dateText
    {
      numberInput, dateInput := numberText, dateText;
    }

    /** `loadIncidents`: dispatch on the filter, record the total (before the error check,
      so a failed answer overwrites it too), then show the error or the rows and controls. */
    method LoadIncidents(answer: Response) returns (effect: Effect)
      modifies this`totalCount
      ensures LoadedWith(effect, answer)
      ensures effect.Loaded? && (effect.display.ErrorShown? <==> answer.failed)
    {
      var query;
      match currentFilter {
        case ByIncident(n) =>
          query := NumberQuery(n);
          totalCount := if answer.data.Some? then |answer.data.value| else 0;
        case ByDate(d) =>
          query := DateQuery(d, currentPage, PageSize);
          totalCount := if answer.count.Some? then answer.count.value else 0;
        case NoFilter =>
          query := RecentQuery(currentPage, PageSize);
          totalCount := if answer.count.Some? then answer.count.value else 0;
      }
      if answer.failed {
        effect := Loaded(query, ErrorShown);
      } else {
        var rows := if answer.data.Some? then answer.data.value else [];
        var controls := UpdatePagination(currentPage, totalCount);
        effect := Loaded(query, TableShown(rows, controls));
      }
    }

    /** `handleSearch`: choose the filter from the inputs, go back to page 1, load. */
    method Search(answer: Response) returns (effect: Effect)
      modifies this`currentFilter, this`currentPage, this`totalCount
      ensures currentFilter == ChooseFilter(numberInput, dateInput)
      ensures currentPage == 1
      ensures LoadedWith(effect, answer)
    {
      currentFilter := ChooseFilter(numberInput, dateInput);
      currentPage := 1;
      effect := LoadIncidents(answer);
    }

    /** The clear button: empty both inputs, drop the filter, go back to page 1, load. */
    method Clear(answer: Response) returns (effect: Effect)
      modifies this
      ensures numberInput == [] && dateInput == []
      ensures currentFilter == NoFilter && currentPage == 1
      ensures LoadedWith(effect, answer)
    {
      dateInput := [];
      numberInput := [];
      currentFilter := NoFilter;
      currentPage := 1;
      effect := LoadIncidents(answer);
    }

    /** The prev button: step back and load only when not on page 1. The step keeps the
      page within the pages of the count it saw; if the load reports the same count,
      the page is still in range afterwards. */
    method Prev(answer: Response) returns (effect: Effect)
      modifies this`currentPage, this`totalCount
      ensures old(currentPage) > 1 ==> currentPage == old(currentPage) - 1 && LoadedWith(effect, answer)
      ensures old(currentPage) <= 1 ==> currentPage == old(currentPage) && totalCount == old(totalCount) && effect == NoLoad
      ensures old(PageInRange()) ==> 1 <= currentPage <= Max(1, TotalPages(old(totalCount)))
      ensures old(PageInRange()) && totalCount == old(totalCount) ==> PageInRange()
    {
      if currentPage > 1 {
        currentPage := currentPage - 1;
        effect := LoadIncidents(answer);
      } else {
        effect := NoLoad;
      }
    }

    /** The next button: step forward and load only when before the last page. */
    method Next(answer: Response) returns (effect: Effect)
      modifies this`currentPage, this`totalCount
      ensures old(currentPage) < TotalPages(old(totalCount)) ==>
        currentPage == old(currentPage) + 1 && LoadedWith(effect, answer)
      ensures old(currentPage) >= TotalPages(old(totalCount)) ==>
        currentPage == old(currentPage) && totalCount == old(totalCount) && effect == NoLoad
      ensures old(PageInRange()) ==> 1 <= currentPage <= Max(1, TotalPages(old(totalCount)))
      ensures old(PageInRange()) && totalCount == old(totalCount) ==> PageInRange()
    {
      var totalPages := TotalPages(totalCount);
      if currentPage < totalPages {
        currentPage := currentPage + 1;
        effect := LoadIncidents(answer);
      } else {
        effect := NoLoad;
      }
    }

    /** A page button: jump to that page (not clamped) and load. */
    method GoToPage(page: int, answer: Response) returns (effect: Effect)
      modifies this`currentPage, this`totalCount
      ensures currentPage == page
      ensures LoadedWith(effect, answer)
    {
      currentPage := page;
      effect := LoadIncidents(answer);
    }
  }
}

/**
 * The incident details view: the timeline built from the `incidentTimes.times` object of
 * a record's `content` document, the record the page keeps as `currentIncident`, and the
 * select button that hands the document to the browser extension's key/value store.
 * `JSON.parse` is not part of this model: the parsed document is an input (or, for a
 * record being loaded, a parsing function passed in).
 */
module IncidentDetails {

  import opened Wrappers
  import opened Text
  import opened Records
  import opened StatusFormat
  import opened DateKey
  import opened StableSort

  /** A value of the `times` object as the timeline reads it: its `date` and `time` when
      they are strings, `None` otherwise (missing, `null`, a number; also every field of a
      value that is not an object). `split` on a non-string throws. */
  datatype TimeValue = TimeValue(date: Option<string>, time: Option<string>)

  /** One property of `times`, in the order `Object.entries` lists them. */
  datatype TimesEntry = TimesEntry(key: string, value: TimeValue)

  /** The outcome of `JSON.parse(contentJson)`: a syntax error, the document `null` (whose
      `incidentTimes` cannot be read), or any other value, with the `times` of its
      `incidentTimes` when both are present (`None` when either is missing or falsy). */
  datatype ParsedContent =
    | Unparseable
    | NullDocument
    | Document(times: Option<seq<TimesEntry>>)

  /** `{status, date, time, datetime}`; `datetime` is `None` when the sort key is NaN or
      outside the model. */
  datatype TimelineEntry = TimelineEntry(status: string, date: string, time: string, datetime: Option<int>)

  /** One table row: the formatted status and the `date time` text. */
  datatype Row = Row(status: string, when: string)

  /** What the timeline table shows: the "No timeline data available." row, the "Error
      loading timeline data." row, or the entries' rows in sorted order. When some key is
      NaN the comparator is inconsistent and the order is implementation-defined; when a
      field is numeric text other than a digit string the order is determined but not
      modelled. In both cases only which rows are shown is given. */
  datatype TimelineView =
    | NoTimelineData
    | TimelineError
    | TimelineRows(rows: seq<Row>)
    | RowsOrderNotModelled(shown: multiset<Row>)

  /** Every value carries a string date and a string time, so building the entries does not throw. */
  predicate AllStrings(ts: seq<TimesEntry>) {
    forall i :: 0 <= i < |ts| ==> ts[i].value.date.Some? && ts[i].value.time.Some?
  }

  /** The entry the `map` builds from one property with a string date and time. */
  function EntryOf(t: TimesEntry): TimelineEntry
    requires t.value.date.Some? && t.value.time.Some?
  {
    var date, time := t.value.date.value, t.value.time.value;
    TimelineEntry(t.key, date, time, ParseDateTimeForSort(date, time))
  }

  /** The `map` over `Object.entries(times)`: one entry per property, its key as status,
      its date and time as they are and the parsed sort key; `None` where it throws. */
  function Entries(ts: seq<TimesEntry>): (r: Option<seq<TimelineEntry>>)
    ensures r.Some? <==> AllStrings(ts)
    ensures r.Some? ==> |r.value| == |ts|
    ensures r.Some? ==> forall i :: 0 <= i < |ts| ==>
      && r.value[i].status == ts[i].key
      && Some(r.value[i].date) == ts[i].value.date
      && Some(r.value[i].time) == ts[i].value.time
      && r.value[i].datetime == ParseDateTimeForSort(r.value[i].date, r.value[i].time)
  {
    if AllStrings(ts) then Some(seq(|ts|, i requires 0 <= i < |ts| => EntryOf(ts[i]))) else None
  }

  /** Every entry has a numeric sort key. */
  predicate AllKeyed(es: seq<TimelineEntry>) {
    forall i :: 0 <= i < |es| ==> es[i].datetime.Some?
  }

  /** The key the comparator `a.datetime - b.datetime` orders by, for keyed entries. */
  function EntryKey(e: TimelineEntry): int {
    e.datetime.GetOr(0)
  }

  function RenderEntry(e: TimelineEntry): Row {
    Row(FormatStatus(e.status), e.date + " " + e.time)
  }

  /** The rows of the table, one per entry and in the same order. */
  function RenderAll(es: seq<TimelineEntry>): (rows: seq<Row>)
    ensures |rows| == |es|
    ensures forall i :: 0 <= i < |es| ==> rows[i] == Row(FormatStatus(es[i].status), es[i].date + " " + es[i].time)
  {
    seq(|es|, i requires 0 <= i < |es| => RenderEntry(es[i]))
  }

  /** `displayTimeline` on a parsed document. */
  function TimelineOf(content: ParsedContent): TimelineView {
    match content
    case Unparseable => TimelineError
    case NullDocument => TimelineError
    case Document(None) => NoTimelineData
    case Document(Some(ts)) =>
      if ts == [] then NoTimelineData
      else
        match Entries(ts)
        case None => TimelineError
        case Some(es) =>
          if AllKeyed(es) then TimelineRows(RenderAll(SortByKey(es, EntryKey)))
          else RowsOrderNotModelled(multiset(RenderAll(es)))
  }

  /** `displayTimeline`: build the entries, sort them in place, render them. */
  method DisplayTimeline(content: ParsedContent) returns (view: TimelineView)
    ensures view == TimelineOf(content)
  {
    if content.Unparseable? || content.NullDocument? {
      return TimelineError;
    }
    if content.times.None? || content.times.value == [] {
      return NoTimelineData;
    }
    var entries := Entries(content.times.value);
    if entries.None? {
      return TimelineError;
    }
    var es := entries.value;
    if !AllKeyed(es) {
      return RowsOrderNotModelled(multiset(RenderAll(es)));
    }
    var a := new TimelineEntry[|es|](i requires 0 <= i < |es| => es[i]);
    assert a[..] == es;
    SortInPlace(a, EntryKey);
    view := TimelineRows(RenderAll(a[..]));
  }

  /** The three outcomes apart from rows, each exactly when it happens: no timeline data
      when `times` is missing or has no keys, the error row when the document does not
      parse, is `null`, or has a value whose date or time is not a string; rows otherwise. */
  lemma {:induction false} TimelineOutcome(content: ParsedContent)
    ensures TimelineOf(content).NoTimelineData? <==>
      content.Document? && (content.times.None? || content.times.value == [])
    ensures TimelineOf(content).TimelineError? <==>
      || content.Unparseable? || content.NullDocument?
      || (content.Document? && content.times.Some? && !AllStrings(content.times.value))
    ensures TimelineOf(content).TimelineRows? || TimelineOf(content).RowsOrderNotModelled? <==>
      content.Document? && content.times.Some? && content.times.value != [] && AllStrings(content.times.value)
  {
    if content.Document? && content.times.Some? && content.times.value == [] {
      assert AllStrings(content.times.value);
    }
  }

  /** When every key is a number the table holds one row per property of `times`, in the
      stable order of the keys: the sorted entries are a permutation of the unsorted ones,
      non-decreasing in the key, and those with equal keys keep their `times` order. */
  lemma {:induction false} TimelineRowsOrdered(ts: seq<TimesEntry>)
    requires ts != [] && AllStrings(ts) && AllKeyed(Entries(ts).value)
    ensures var es := Entries(ts).value;
      var sorted := SortByKey(es, EntryKey);
      && TimelineOf(Document(Some(ts))) == TimelineRows(RenderAll(sorted))
      && |RenderAll(sorted)| == |ts|
      && multiset(sorted) == multiset(es)
      && SortedBy(sorted, EntryKey)
      && forall k :: WithKey(sorted, EntryKey, k) == WithKey(es, EntryKey, k)
  {
    var es := Entries(ts).value;
    assert TimelineOf(Document(Some(ts))) == TimelineRows(RenderAll(SortByKey(es, EntryKey)));
    SortByKeySorted(es, EntryKey);
    SortByKeyPermutes(es, EntryKey);
    forall k
      ensures WithKey(SortByKey(es, EntryKey), EntryKey, k) == WithKey(es, EntryKey, k)
    {
      SortByKeyStable(es, EntryKey, k);
    }
  }

  /** `incident.location || 'N/A'`: an absent or empty text shows as `N/A`. */
  function OrNotAvailable(text: Option<string>): (shown: string)
    ensures text.Some? && text.value != [] ==> shown == text.value
    ensures text.None? || text.value == [] ==> shown == "N/A"
  {
    if text.Some? && text.value != [] then text.value else "N/A"
  }

  /** What `displayIncidentDetails` fills in. */
  datatype Details = Details(number: int, unitId: string, address: string, incidentType: string, timeline: TimelineView)

  function DetailsOf(incident: Incident, parse: string -> ParsedContent): Details {
    Details(incident.incidentNumber, incident.unitId, OrNotAvailable(incident.location),
      OrNotAvailable(incident.incidentType), TimelineOf(parse(incident.content)))
  }

  /** The gateway's answer to `getIncident`. */
  datatype Fetch = Fetch(data: Option<Incident>, failed: bool)

  /** A load either shows the record or alerts and sends the user back to the list. */
  datatype LoadOutcome = Shown(details: Details) | BackToList

  /** The select button: the "No incident data available." alert, the "Tampermonkey is not
      detected" alert, or the document saved and the browser sent to the target site. */
  datatype SelectOutcome = NoIncidentAlert | NoStorageAlert | SavedAndNavigated

  /** The storage key the extension reads. */
  const IncidentJsonKey := "incident_json"

  /** The page state: the record on show, the extension's key/value store and whether its
      `GM_setValue` exists. */
  class DetailsPage {
    var currentIncident: Option<Incident>
    var storage: map<string, string>
    const hasStorage: bool

    constructor (hasStorage: bool, storage: map<string, string>)
      ensures currentIncident == None
      ensures this.hasStorage == hasStorage && this.storage == storage
    {
      this.hasStorage := hasStorage;
      this.storage := storage;
      currentIncident := None;
    }

    /** `loadIncidentDetails`: a record is kept and shown only when the fetch has no error
        and returns data; otherwise `currentIncident` stays as it was. */
    method LoadIncidentDetails(fetch: Fetch, parse: string -> ParsedContent) returns (outcome: LoadOutcome)
      modifies this`currentIncident
      ensures !fetch.failed && fetch.data.Some? ==>
        currentIncident == fetch.data && outcome == Shown(DetailsOf(fetch.data.value, parse))
      ensures fetch.failed || fetch.data.None? ==>
        currentIncident == old(currentIncident) && outcome == BackToList
    {
      if fetch.failed {
        return BackToList;
      }
      if fetch.data.None? {
        return BackToList;
      }
      currentIncident := fetch.data;
      outcome := Shown(DetailsOf(fetch.data.value, parse));
    }

    /** The select button: with a record and the store present, the record's `content`
        is written under `incident_json` and nothing else changes; otherwise nothing is
        written. */
    method Select() returns (outcome: SelectOutcome)
      modifies this`storage
      ensures currentIncident.None? ==> outcome == NoIncidentAlert && storage == old(storage)
      ensures currentIncident.Some? && !hasStorage ==> outcome == NoStorageAlert && storage == old(storage)
      ensures currentIncident.Some? && hasStorage ==>
        && outcome == SavedAndNavigated
        && storage == old(storage)[IncidentJsonKey := currentIncident.value.content]
        && storage.Keys == old(storage).Keys + {IncidentJsonKey}
        && storage[IncidentJsonKey] == currentIncident.value.content
    {
      if currentIncident.None? {
        return NoIncidentAlert;
      }
      if !hasStorage {
        return NoStorageAlert;
      }
      storage := storage[IncidentJsonKey := currentIncident.value.content];
      outcome := SavedAndNavigated;
    }
  }
}

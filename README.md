# EMS incident viewer: list controller and timeline, in Dafny

A model of the two pieces of sequential logic in the browser viewer for EMS incident
records.

- **The incident list page** (`js/incident-list.js`):
  - the module state `currentPage`, `totalCount` and `currentFilter`;
  - the search, clear, prev, next and page-button handlers;
  - `loadIncidents`, which picks the backend query and derives `totalCount`;
  - `generatePageNumbers`, the compact page list with ellipses;
  - `updatePagination`, which sets the button states and the "Showing a-b of n" text.
- **The incident details page** (`js/incident-details.js`):
  - `formatStatus`;
  - `parseDateTimeForSort`, with the Date constructor's arithmetic written out;
  - `displayTimeline`: it builds the entries, sorts them stably in place, and tells apart "no timeline data", the error row and the rows;
  - `loadIncidentDetails`, which decides when `currentIncident` is set;
  - the select button, which writes the record's document into the extension's key/value store.

Module layout:

| file | module | contents |
|---|---|---|
| `wrappers.dfy` | `Wrappers` | `Option` |
| `text.dfy` | `Text` | `trim` (ECMA-262 white space), one-character `split`, digit-string `Number`/`parseInt`, decimal rendering |
| `pagination.dfy` | `Pagination` | page size, page count, page list function and its loop method, controls, the gateway's row range |
| `incident_list.dfy` | `IncidentList` | filter choice, queries and answers, class `ListController` with the handlers |
| `status_format.dfy` | `StatusFormat` | `formatStatus` and its label property |
| `date_key.dfy` | `DateKey` | `parseDateTimeForSort`: split, field parsing, MakeDay/MakeTime/MakeDate/TimeClip (section 21.4.1 of ECMA-262), order of keys |
| `stable_sort.dfy` | `StableSort` | the stable sort as a function, its properties, and the in-place insertion sort on an array |
| `records.dfy` | `Records` | the incident record |
| `incident_details.dfy` | `IncidentDetails` | timeline entries, outcomes and rows, class `DetailsPage` with load and select |

Modelling conventions:

- **Backend calls.** Each awaited call is an input of the handler: `Response` for the list, `Fetch` for the details.
- **Effects.** A handler returns what it did: the query sent and what was shown, or nothing.
- **`JSON.parse`.** Its result is an input: `ParsedContent`, or a parsing function for a record being loaded.
- **The extension's `GM_setValue` store.** It is the map field `DetailsPage.storage`. Whether the function exists is the constant `hasStorage`.

Two behaviours of the code are worth stating outright:

- **No clamp.** The code never clamps `currentPage` to the page range when `totalCount` changes: a load that reports a smaller count leaves the page as it was, and `goToPage` sets any value. `ListController.Prev` and `ListController.Next` therefore promise the page range only for the count they saw. `Pagination.InfoPastLastPage` shows what a page beyond the last one displays.
- **Next under the incident filter.** Next is not disabled under the incident-number filter: `totalCount` under that filter is the number of returned rows, so next is enabled whenever more than 20 rows come back.

## Model

| member | source | states |
|---|---|---|
| Text.TrimSpec | js/incident-list.js:94 | `trim` removes exactly the white space at both ends: the result is a piece of the input with only white space around it, empty exactly when the input is all white space, otherwise neither starting nor ending with white space |
| Text.ParseNumber | js/incident-details.js:157 | digit strings read as their value; any other text is `None`, outside the model |
| Text.ShowNatRoundTrip | js/incident-list.js:171 | reading back the decimal text of a number gives the number |
| Text.Split | js/incident-details.js:154-155 | `split` yields at least one piece, no piece contains the separator, and joining the pieces with it gives the input back |
| Text.SplitJoin | js/incident-details.js:154-155 | splitting the join of separator-free pieces gives the pieces back (the other round trip) |
| Pagination.TotalPages | js/incident-list.js:184 | `Math.ceil(count / 20)` is the least page count that holds `count` rows |
| Pagination.RowRange | js/supabase-client.js:79-88 | the inclusive row range requested for a page holds exactly `limit` rows |
| Pagination.RowRangesAdjacent | js/supabase-client.js:79-88 | page 1 starts at row 0 and consecutive pages request adjacent ranges |
| Pagination.PageNumbers | js/incident-list.js:214-223 | no list when there is at most one page; exactly the pages `1..total` in order when there are two to seven |
| Pagination.AllPagesShape | js/incident-list.js:219-223 | with two to seven pages the list is well formed (see `PageNumbersShape`) |
| Pagination.FirstWindow | js/incident-list.js:226-227 | the window `1 2 3 4 5 … total` is well formed for more than seven pages |
| Pagination.LastWindow | js/incident-list.js:228-229 | the window `1 … total-4 … total` is well formed for more than seven pages |
| Pagination.MiddleWindow | js/incident-list.js:230-231 | the window `1 … current-1 current current+1 … total` is well formed when the current page is in the middle |
| Pagination.PageNumbersShape | js/incident-list.js:213-233 | for more than one page the list has at most seven entries, starts at 1, ends at `total`, has numbers strictly increasing within `[1, total]`, neighbouring numbers consecutive and an ellipsis only where pages are hidden; and it contains the current page whenever that page exists |
| Pagination.WellFormedFromNeighbours | js/incident-list.js:213-233 | a list whose neighbours are consecutive or separated by a gap that hides pages, and that runs from 1 to `total`, is strictly increasing |
| Pagination.GeneratePageNumbers | js/incident-list.js:213-233 | the loop that pushes the pages builds exactly `PageNumbers` |
| Pagination.PageNumbersExamples | js/incident-list.js:226-232 | the lists for pages 1 of 5, 1 of 10, 10 of 10 and 5 of 10 |
| Pagination.OneActiveButton | js/incident-list.js:235-241 | with more than one page and the current page in range, exactly one button is active and it is the current page's |
| Pagination.ControlsFor | js/incident-list.js:183-205 | "No results" exactly when the count is 0, the buttons are those of the page list, and the info names the count |
| Pagination.UpdatePagination | js/incident-list.js:183-205 | the method, with its loop-built page list, computes exactly `ControlsFor` |
| Pagination.ButtonsMatchHandlers | js/incident-list.js:191-192 | prev is enabled exactly when the prev handler would move, next exactly when the next handler would |
| Pagination.InfoWithinCount | js/incident-list.js:198-204 | on an existing page the range is `1 <= start <= end <= count`: a full page of 20 before the last page, and up to the count on the last |
| Pagination.InfoMatchesRowRange | js/incident-list.js:201-202 | the info range is the gateway's zero-based row range shifted to one-based, cut at the count |
| Pagination.InfoPastLastPage | js/incident-list.js:201-203 | past the last page (no clamp), the info start exceeds its end |
| Pagination.RowOnOnePage | js/incident-list.js:201-202 | every row `1..count` is shown on exactly one page, which is among the pages `1..TotalPages(count)` |
| IncidentList.ParseIncidentNumber | js/incident-list.js:98 | `parseInt` gives a number exactly for a non-empty digit string; other text is kept as it is |
| IncidentList.ParseShownNumber | js/incident-list.js:98 | searching for the number the table shows parses to that very number |
| IncidentList.ChooseFilter | js/incident-list.js:94-109 | the filter `handleSearch` chooses; characterised by `FilterChoice` |
| IncidentList.FilterChoice | js/incident-list.js:94-109 | the incident filter exactly when the number text is not blank, with its trimmed text parsed, whatever the date says; otherwise the date filter exactly when the (untrimmed) date text is non-empty; otherwise none |
| IncidentList.ListController.constructor | js/incident-list.js:5-7 | page 1, count 0, no filter |
| IncidentList.ListController.EditInputs | js/incident-list.js:90-91 | the two inputs hold the typed texts |
| IncidentList.ListController.LoadIncidents | js/incident-list.js:118-149 | the query follows the filter; the count is the number of rows under the incident filter and the reported count otherwise, 0 when missing, and it is recorded even on failure; a failed answer shows the error, otherwise the rows with refreshed controls |
| IncidentList.ListController.Search | js/incident-list.js:89-113 | the filter is the one chosen from the inputs, the page is 1, and one load follows |
| IncidentList.ListController.Clear | js/incident-list.js:52-58 | both inputs emptied, no filter, page 1, one load |
| IncidentList.ListController.Prev | js/incident-list.js:61-66 | moves back and loads exactly when past page 1, otherwise changes nothing and loads nothing; keeps the page within `[1, max(1, pages)]` |
| IncidentList.ListController.Next | js/incident-list.js:68-74 | moves forward and loads exactly when before the last page, otherwise changes nothing and loads nothing; keeps the page within `[1, max(1, pages)]` |
| IncidentList.ListController.GoToPage | js/incident-list.js:248-251 | sets the page as given (no clamp) and loads |
| StatusFormat.FormatStatus | js/incident-details.js:138-144 | `formatStatus`; its label is characterised by `FormatStatusOfKey` and worked out by `FormatThreeWords` |
| StatusFormat.SpaceCapitals | js/incident-details.js:141 | the replacement leaves the empty string alone and makes nothing else empty; what it inserts is stated by `SpaceCapitalsRemoveSpaces` and `FormatStatusOfKey` |
| StatusFormat.SpaceCapitalsRemoveSpaces | js/incident-details.js:141 | the replacement only inserts spaces |
| StatusFormat.FormatStatusOfKey | js/incident-details.js:138-144 | for a key without white space, the label without its spaces is the key with its first letter upper-cased; the label does not start with a space, every space is followed by a capital, and every capital but the first has a space before it |
| StatusFormat.EnRouteExample | js/incident-details.js:138-144 | `enRoute` is shown as `En Route` |
| StatusFormat.FormatThreeWords | js/incident-details.js:140-143 | a lower-case word followed by two capitalised words, with no other capitals, is shown as the three words spaced with the first capitalised |
| StatusFormat.NotifiedByDispatchExample | js/incident-details.js:138-144 | `notifiedByDispatch` is shown as `Notified By Dispatch` |
| DateKey.DaysInMonth | js/incident-details.js:157 | 28 to 31 days; February has 29 exactly in a leap year |
| DateKey.MonthTable | js/incident-details.js:157 | the month offsets agree with the month lengths, and the twelve months fill the year |
| DateKey.DayFromYearStep | js/incident-details.js:157 | the closed form for the first day of a year advances by the length of the year: 366 days exactly in a leap year, 365 otherwise |
| DateKey.DayFromYearMonotone | js/incident-details.js:157 | a later year starts after the whole of an earlier one |
| DateKey.FieldNumber | js/incident-details.js:157 | a blank field reads as 0; a field reads as a number exactly when its trimmed text is a digit string |
| DateKey.ReadStamp | js/incident-details.js:154-155 | a date or time with fewer than three parts gives no key |
| DateKey.ReadShownStamp | js/incident-details.js:152-157 | reading the `M/D/Y` and `H:M:S` texts of a stamp gives the stamp back |
| DateKey.StampDayOrder | js/incident-details.js:157 | day numbers follow the order of (year, month, day) for valid dates |
| DateKey.StampKeyClipped | js/incident-details.js:157 | the time value of a valid stamp with a year from 100 to 9999 is never clipped |
| DateKey.ParseShownStamp | js/incident-details.js:152-158 | the texts of a valid stamp parse to its key |
| DateKey.ParseDateTimeForSort | js/incident-details.js:152-158 | `parseDateTimeForSort`; its keys are given by `ReadKey` and `ParseShownStamp`, their order by `ReadKeysOrder` and `SortKeyOrder` |
| DateKey.ReadKey | js/incident-details.js:152-158 | any texts whose fields read as a valid stamp, zero-padded or not, parse to that stamp's key |
| DateKey.ReadKeysOrder | js/incident-details.js:152-158 | for any two pairs of texts that read as valid stamps, a smaller key exactly for an earlier stamp, an equal key exactly for the same stamp |
| DateKey.SortKeyOrder | js/incident-details.js:152-158 | for valid stamps both texts parse to a key; a smaller key exactly for an earlier (year, month, day, hour, minute, second), an equal key exactly for the same stamp |
| StableSort.SortByKey | js/incident-details.js:111 | the stable sort keeps the length; it is sorted, a permutation and stable by `SortByKeySorted`, `SortByKeyPermutes` and `SortByKeyStable` |
| StableSort.InsertSorted | js/incident-details.js:111 | inserting into a sorted sequence keeps it sorted |
| StableSort.InsertPermutes | js/incident-details.js:111 | inserting adds exactly the one element |
| StableSort.InsertWithKey | js/incident-details.js:111 | an inserted element goes after those of its own key and leaves the order of every key unchanged |
| StableSort.SortByKeySorted | js/incident-details.js:111 | the sort is non-decreasing in the key |
| StableSort.SortByKeyPermutes | js/incident-details.js:111 | the sort is a permutation of its input |
| StableSort.SortByKeyStable | js/incident-details.js:111 | elements with equal keys keep their input order |
| StableSort.InsertLast | js/incident-details.js:111 | one pass moves the next element left past the larger keys of the sorted prefix and leaves the rest of the array alone |
| StableSort.SortInPlace | js/incident-details.js:111 | the in-place sort leaves the array holding the stable sort of what it held |
| IncidentDetails.Entries | js/incident-details.js:103-108 | one entry per property of `times`, in order, with the key as status, the date and time as they are and their parsed key; no entries exactly when some date or time is not a string |
| IncidentDetails.RenderAll | js/incident-details.js:114-119 | one row per entry in the same order, pairing the formatted status with `date time` |
| IncidentDetails.DisplayTimeline | js/incident-details.js:84-131 | building, sorting in place and rendering gives exactly the timeline of the parsed document |
| IncidentDetails.TimelineOf | js/incident-details.js:87-130 | `displayTimeline` on a parsed document; its outcome is given by `TimelineOutcome` and its rows by `TimelineRowsOrdered` |
| IncidentDetails.TimelineOutcome | js/incident-details.js:87-130 | "no timeline data" exactly when `times` is missing or has no keys; the error row exactly when the document does not parse, is `null`, or has a non-string date or time; rows otherwise |
| IncidentDetails.TimelineRowsOrdered | js/incident-details.js:103-119 | with numeric keys the table has one row per property of `times`, the entries sorted form a permutation of the unsorted ones, non-decreasing in the key, with equal keys in `times` order |
| IncidentDetails.DetailsPage.constructor | js/incident-details.js:5 | no record on show; the store as given |
| IncidentDetails.DetailsPage.LoadIncidentDetails | js/incident-details.js:42-61 | the record is kept and shown exactly when the fetch has no error and returns data; otherwise the kept record is unchanged and the user is sent back to the list |
| IncidentDetails.DetailsPage.Select | js/incident-details.js:166-189 | with no record: the no-incident alert and nothing written; with no store: the extension alert and nothing written; otherwise exactly the record's `content` written under `incident_json` |

## Left out

- **DOM rendering and the page lifecycle.** Out of scope:
  - the `innerHTML` templates and the loading and error text;
  - the `DOMContentLoaded` bootstraps, authentication and redirects;
  - the `sessionStorage` hand-off between the pages (`viewIncidentDetails`);
  - `formatDateTime` in the table, which depends on the locale and time zone.
  The login page, the configuration and the browser-extension userscript are not part of this model.
- **Backend glue.** The gateway functions are not modelled beyond the row range they request. This includes the "past seven days" window, which depends on the clock.
- **Concurrency.** Overlapping loads are not modelled: each handler's awaited call is answered before the handler ends.
- **Diagnostics.** Console logging and the text of the alerts are left out.
- **`JSON.parse`.** It is an input to the model.
- **Property order of `times`.** The order in which `Object.entries` lists the properties, with integer-like keys first, is part of that input.
- **Non-object `times` values.** A string value, whose characters `Object.entries` would list, or an array value is outside the model. The model covers a missing, `null` or falsy value, a number, and an object.
- **The select handler's `try`/`catch`.** A `GM_setValue` that throws is not modelled.
- IncidentList.ParseIncidentNumber: only digit strings are parsed. A partial parse such as `12ab` becoming 12, a sign, and NaN are kept as unparsed text, and the backend's handling of them is not modelled. `parseInt` returns a double, so a digit string above 2^53 is rounded (`9007199254740993` gives 9007199254740992); the model keeps the exact value.
- Text.ParseNumber: only digit strings are read. `Number` also gives values for signs, decimals, exponents and hexadecimal (`-3`, `1.5`, `1e3`, `0x1F`); the model gives `None` for them.
- DateKey.FieldNumber: `Number` is modelled only for digit strings with white space around them. Signs, decimals, exponents, hexadecimal and NaN give `None`, which the timeline treats as a key outside the model.
- DateKey.DateValue: local time is read as UTC, so time zones and daylight saving are not modelled. The integer arithmetic leaves out MakeDay's range check on huge years and the floating-point rounding of the Date constructor.
- IncidentDetails.TimelineOf: when some key is NaN, the comparator `a.datetime - b.datetime` is inconsistent and the order is implementation-defined; when a field is numeric text other than a digit string, the order is determined but not modelled. In both cases the model gives only the multiset of rows shown (`RowsOrderNotModelled`).
- StatusFormat.ToUpper: `toUpperCase` is modelled for ASCII letters only. Other characters are left as they are: no Unicode case mapping.
- IncidentList.ListController.Prev and IncidentList.ListController.Next: they keep the page range only for the count they saw. A load that reports a different count may leave the page outside the new range, because the code has no clamp.

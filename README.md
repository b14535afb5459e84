# Sealog server core in Dafny

Sealog is an event-logging server for oceanographic research. Scientists
log events during a cruise (a ship expedition) and its lowerings (the dives
of a vehicle). This project models the parts of the Sealog server that
compute something. The routes that only carry data between HTTP and
MongoDB are reduced to that computation.

- **Event export** (`routes/api/v1/json_util.js`). Nested event records
  are flattened into rows. Option columns are named `event_option.<name>`.
  Aux-data columns are named `<source>.<name>[_k][ (uom)]`. The rows are
  also grouped by event value, then rendered as CSV. The rendering:
  - collects the headers in first-seen order;
  - orders them by navigation prefix;
  - quotes every cell with `JSON.stringify`;
  - renames `ts` to `Date/Time (UTC)`;
  - moves `id` to the end;
  - drops the position columns of the navigation source that was not
    chosen.
  Modules `EventFlatten`, `CsvExport` and `CsvExamples` (the unit tests
  of `test/routes.api.v1.json_util.test.js`, restated as lemmas).
- **Visibility.** Cruises and lowerings can be hidden and carry an access
  list of user ids.
  - `lib/access_control.js` states the canonical rule twice: as the store
    filter for listings (`initializeQuery`) and as a check on a fetched
    record (`checkEntityAccess`).
  - The route files implement the rule again inline, with their own
    branches. Each inline rule is its own member here, and lemmas say
    where each one agrees with the canonical check and where it departs
    from it.
  - Modules `AccessControl`, `Visibility`, `Listings` and `EventExports`.
- **Query builders.**
  - The event filter of the export routes: author, value include/exclude
    lists from `!`-prefixed terms, free text, and a time window clamped to
    the parent's window. Modules `EventExports` and `TimeWindow`.
  - The listing filters of GET /cruises, GET /lowerings and
    GET /lowerings/bycruise. Module `Listings`.
  - The CSV form of cruise and lowering records (`_flattenJSON`,
    `_buildCSVHeaders`). Module `MetaExport`.
- **Writes** to the cruise and lowering collections: POST (defaults,
  date check, access-list check), PATCH (date check, `$set`, the cascade
  to the cruise's lowerings) and PATCH `/permissions` (`$pull` then
  `$push`, on the record and, for a cruise, on its lowerings).
  - Module `Records` holds their specification as functions over records.
  - Module `Store` holds class `Database`, whose fields are the
    collections. Its methods perform the handlers' steps in order and are
    proved against the `Records` functions.
- **Random strings** (`lib/utils.js`). The random bytes are an input.
  Module `Utils`.

Shared modules: `Json` (JavaScript values and objects as ordered member
lists, `JSON.stringify`), `Filter` (MongoDB filters as data, with a
matching predicate), `Seqs` and `Text` (the array and string built-ins the
code relies on) and `Wrappers` (`Option`, `Result` and the handlers' error
answers).

Conventions:
- Dates are integers, read through `Env.time`. A value that is not a
  Date reads as `None`.
- Regular-expression search is `Env.search`, an uninterpreted parameter.
  Whether a text compiles as a regular expression is the parameter
  `compiles` of the event-filter builders.
- `new Date(v).toISOString()` on a value that is not a Date is the
  parameter `toIso` of the event flattening (`EventFlatten.DateConversion`).

Every handler is modelled as the code is written. Where the code
evidently departs from its intent, a second member states the intended
behaviour (see "## Findings").

## Model

| member | source | states |
|---|---|---|
| EventFlatten.CountNames | routes/api/v1/json_util.js:55-66 | the counting pass gives every name of the group a counter holding its number of occurrences, position 1 |
| EventFlatten.LabelField | routes/api/v1/json_util.js:68-79 | the label built for field j is `AuxLabel` of that field, and the counters move to the state after j + 1 fields |
| EventFlatten.AddAuxGroup | routes/api/v1/json_util.js:53-82 | one aux group writes exactly the members `AuxWrites` lists, in order, onto the copy |
| EventFlatten.FlattenEvent | routes/api/v1/json_util.js:34-86 | one event's flattened copy is `FlattenSpec` of it (ISO timestamp, option members, aux labels, nested members deleted) |
| EventFlatten.FlattenEventJson | routes/api/v1/json_util.js:30-90 | one row per event, in order, each the event's `FlattenSpec`. The grouping is `GroupIndex` of the rows. The call fails exactly when some event's `new Date(ts).toISOString()` raises, with that error |
| EventFlatten.IsoText | routes/api/v1/json_util.js:43 | a Date gives its own ISO text, a missing timestamp is an invalid date, any other value is the supplied conversion's |
| EventFlatten.TimestampDecides | routes/api/v1/json_util.js:43 | flattening an event fails exactly when its timestamp does not convert, with a RangeError; a stored Date always converts |
| EventFlatten.GroupIndexAppend | routes/api/v1/json_util.js:36-40 | appending a row to its group, or starting the group with it, keeps the group index in step with the rows |
| EventFlatten.GroupIndexKeys | routes/api/v1/json_util.js:36-40 | `events_by_type` has a group for v exactly when some row has event_value v |
| EventFlatten.GroupIndexValues | routes/api/v1/json_util.js:36-40 | `events_by_type[v]` is exactly the rows whose event_value is v, in input order (`Group(rows, v)`); a value without a group has no rows |
| EventFlatten.GroupIndexGroups | routes/api/v1/json_util.js:36-40 | both together: a group exists iff some row has that event_value, and it holds exactly those rows, in input order |
| EventFlatten.GroupKeyPreserved | routes/api/v1/json_util.js:36-40 | the flattened row keeps its event's event_value, so it is grouped under the same key |
| EventFlatten.FlattenKeys | routes/api/v1/json_util.js:33-83 | a flattened row's keys are the event's own members, one `event_option.<name>` per option and one label per aux field |
| EventFlatten.FlattenDropsNested | routes/api/v1/json_util.js:49 | a flattened row has no event_options or aux_data member and no key twice |
| EventFlatten.FlattenOptionValue | routes/api/v1/json_util.js:46-48 | an option's value is held under `event_option.<name>` when it is the last option of that name and no aux label repeats the key |
| EventFlatten.FlattenTimestamp | routes/api/v1/json_util.js:43 | the row's `ts` is the string holding the converted ISO text of the event's timestamp |
| EventFlatten.FirstRepeatedLabel | routes/api/v1/json_util.js:72-75 | the first of several fields with one name is labelled with suffix `_1`, not left bare |
| EventFlatten.RepeatedNameLabels | routes/api/v1/json_util.js:72-75 | two fields of one name in a group get different labels, each `<source>.<name>_<k>` with k one more than the earlier fields of that name, so the first is `_1` |
| EventFlatten.AuxLabelRepeated | routes/api/v1/json_util.js:56-75 | a field whose name occurs more than once in its group is labelled `<source>.<name>_<k>[ (uom)]`, k one more than the fields of that name before it |
| EventFlatten.SuffixDistinct | routes/api/v1/json_util.js:71-79 | different occurrence numbers give different labels, whatever units follow |
| EventFlatten.LabelsPerGroup | routes/api/v1/json_util.js:53-82 | counting starts afresh in every aux group: the member an event writes for field j of a group has the label and value computed from that group alone, whatever groups come before or after it |
| EventFlatten.TestEventFlattens | test/routes.api.v1.json_util.test.js:6-27 | the unit-test event flattens to the row the test expects |
| CsvExport.GetHeaders | routes/api/v1/json_util.js:92-101 | the headers are the first-seen de-duplication of all keys of all rows, row by row |
| CsvExport.HeadersExact | routes/api/v1/json_util.js:92-101 | the headers hold every key of every row, each exactly once |
| Seqs.DedupFirstSeenOrder | routes/api/v1/json_util.js:94-100 | reading a Set back keeps first-seen order: an element listed earlier was seen first earlier |
| CsvExport.OrderHeaders | routes/api/v1/json_util.js:103-116 | the loop computes `OrderSpec`: the headers of each prefix in prefix order, unmatched headers last |
| CsvExport.OrderPermutation | routes/api/v1/json_util.js:103-116 | orderHeaders returns a permutation of its input |
| CsvExport.OrderNoDup | routes/api/v1/json_util.js:103-116 | reordering keeps distinct headers distinct |
| CsvExport.OrderGrouped | routes/api/v1/json_util.js:103-116 | the result is grouped by the first prefix each header starts with, groups in prefix order, input order inside each group, unmatched headers last |
| CsvExport.QuoteCells | routes/api/v1/json_util.js:121 | one line of cells per row, one per header; no cell holds a line break, a string value reads back from its cell, and a falsy or missing value is `""` |
| CsvExport.RenameTsHeader | routes/api/v1/json_util.js:123-127 | the header line shows `ts` as `Date/Time (UTC)` and the cells stay as they were |
| CsvExport.MoveIdColumn | routes/api/v1/json_util.js:129-134 | header line and every row get the `id` column moved last together |
| CsvExport.DropPrefixColumn | routes/api/v1/json_util.js:141-145 | the first column starting with the prefix leaves the header line and every row |
| CsvExport.DropNavColumns | routes/api/v1/json_util.js:136-146 | for each position property, the first column of the left-out navigation source leaves the header line and every row |
| CsvExport.ConvertToCsv | routes/api/v1/json_util.js:118-149 | the in-place steps produce `RenderCsv`: the header line of the shown columns, then one line of quoted cells per row |
| CsvExport.IdLast | routes/api/v1/json_util.js:129-134 | `id`, when some row has it, is the last header and the last cell of every row |
| CsvExport.TsColumn | routes/api/v1/json_util.js:123-127 | `ts`, when present, is shown as `Date/Time (UTC)` over unchanged cell data, and no header reads `ts` |
| CsvExport.ColumnKept | routes/api/v1/json_util.js:136-146 | a key outside the left-out navigation source is never lost: it is a column of the export |
| CsvExport.ColumnsDistinct | routes/api/v1/json_util.js:118-146 | each column is a key of some row, and no column appears twice |
| CsvExport.ColumnCells | routes/api/v1/json_util.js:118-148 | a shown key has exactly one column, headed by its displayed name, and every row's cell there is that row's quoted value for the key; every row is as wide as the header line |
| CsvExport.NavDroppedOnce | routes/api/v1/json_util.js:137-146 | per position property, exactly one column of the left-out source is dropped when there is one |
| CsvExport.CsvLines | routes/api/v1/json_util.js:148 | when no key holds a line break, splitting the text at line breaks gives the header line, then one line per row |
| Json.StringifyNoNewline | routes/api/v1/json_util.js:121 | JSON.stringify never emits a raw line break: line breaks inside strings come out escaped |
| Json.UnquoteQuote | routes/api/v1/json_util.js:121 | JSON.stringify of a string can be read back by JSON.parse's string reader: the quoting loses nothing |
| Json.EscapePlain | routes/api/v1/json_util.js:121 | a string with no quote, backslash or control character is written as it is inside the quotes |
| CsvExamples.GetHeadersExample | test/routes.api.v1.json_util.test.js:48-66 | the headers of the getHeaders unit test |
| CsvExamples.ConvertTwoRows | test/routes.api.v1.json_util.test.js:29-46 | for any plain string values, the two-row export names both keys on its header line and writes each row's values quoted |
| CsvExamples.ConvertExample | test/routes.api.v1.json_util.test.js:29-46 | the exact CSV text the convertToCSV unit test expects |
| AccessControl.GetAuthzFlags | lib/access_control.js:6-10 | a TypeError exactly when the caller is authenticated and the token has no scope; otherwise authenticated iff the credentials carry a non-empty id, admin iff authenticated and `admin` is in the scope |
| AccessControl.NoIdNoAdmin | lib/access_control.js:6-10 | a caller without an id is neither authenticated nor an administrator, whatever the scope says, and never raises |
| AccessControl.InitializeQuery | lib/access_control.js:12-32 | the listing filter: a TypeError exactly when getAuthzFlags raises, and only the not-hidden filter for an anonymous caller; its three shapes are stated by `InitializeQueryShapes`, its agreement with the check by `QueryAgreesWithCheck` |
| AccessControl.ScopelessRaises | lib/access_control.js:6-48 | a signed-in caller whose token has no scope makes both initializeQuery and checkEntityAccess raise a TypeError, whatever the record |
| AccessControl.InitializeQueryShapes | lib/access_control.js:12-32 | a TypeError when the flags raise; otherwise the admin filter is empty, an authenticated non-admin under access control gets `$or[hidden false, id on list]`, and everyone else `{hidden: false}` |
| AccessControl.AdminQueryUnconstrained | lib/access_control.js:19-22 | an administrator's filter has neither a hidden constraint nor `$or` |
| AccessControl.Includes | lib/access_control.js:44-46 | `includes` is membership on an array, a substring test on a string, and a TypeError on anything else |
| AccessControl.CheckEntityAccess | lib/access_control.js:34-48 | the record check: it raises, always with a TypeError, whenever the flags raise; a record that is not hidden passes; a hidden one passes only for an administrator or under access control. The rest is stated by `HiddenPassesIffListed` and `QueryAgreesWithCheck` |
| AccessControl.VisibleOrAdminPasses | lib/access_control.js:39 | when the flags do not raise, a record that is not hidden, or any administrator, passes the check |
| AccessControl.UnauthenticatedHiddenFails | lib/access_control.js:41 | an unauthenticated caller never passes for a hidden record |
| AccessControl.HiddenPassesIffListed | lib/access_control.js:43-47 | a hidden record and an authenticated non-admin pass iff access control is on and the id is on the list; a missing list counts as empty |
| AccessControl.MalformedListRaises | lib/access_control.js:44-46 | a truthy list that is neither array nor string makes the check raise a TypeError |
| AccessControl.QueryAgreesWithCheck | lib/access_control.js:12-48 | with a boolean hidden field and an array or falsy list, initializeQuery raises iff checkEntityAccess does, and otherwise a record matches its filter iff checkEntityAccess passes it |
| AccessControl.MissingHiddenDiverges | lib/access_control.js:12-48 | a record without a hidden field is left out of a non-admin's listing but passes the check |
| AccessControl.StringListDiverges | lib/access_control.js:12-48 | an access list stored as a string passes the check by substring, while the filter asks for equality |
| Visibility.FetchOne | routes/api/v1/cruises.js:570-585 | a missing record gives the route's not-found answer, a refusal 401, an exception inside the `try` 503, and otherwise the record |
| Visibility.RecordDenied | routes/api/v1/cruises.js:576 | the inline denial test of the single-record handlers (also cruises.js:864, lowerings.js:601 and 884): a token without a scope raises a TypeError; a refusal needs a hidden record, a non-admin caller and access control on. Stated in full by `DeniedIff` and `DeniedAgreesWithCheck` |
| Visibility.DeniedIff | routes/api/v1/cruises.js:576 | with a missing or array list, a token without a scope raises; otherwise the record is refused iff the caller is no admin, it is hidden, access control is on, the list is present and the id is not on it |
| Visibility.NullListUnavailable | routes/api/v1/lowerings.js:601 | a stored null list reaches `includes` and the handler answers 503 |
| Visibility.HiddenServedWithoutAcl | routes/api/v1/cruises.js:658 | with access control off, a hidden record goes to any caller, although checkEntityAccess refuses it to an authenticated non-admin |
| Visibility.HiddenServedWithoutList | routes/api/v1/lowerings.js:684 | with access control on, a hidden record without an access list goes to any caller, although checkEntityAccess treats the list as empty |
| Visibility.DeniedAgreesWithCheck | routes/api/v1/cruises.js:864 | for an array list, access control on and a caller with an id, the inline test raises exactly when checkEntityAccess does and otherwise refuses exactly what checkEntityAccess refuses |
| Visibility.ListingHiddenFilter | routes/api/v1/cruises.js:213-237 | a non-admin asking for hidden records is refused with 401; otherwise the filter is `HiddenPart`, which is initializeQuery's filter when no `hidden` parameter is given and the caller has an id and a scope |
| Visibility.HiddenPartIsInitializeQuery | routes/api/v1/lowerings.js:194-218 | without a `hidden` parameter and for a caller with an id and a scope, the listing builds initializeQuery's filter |
| Visibility.ListingHidesWhatFetchServes | routes/api/v1/cruises.js:576 | with access control off, a non-admin's listing leaves out a hidden record that the single-record GET returns |
| Visibility.ParentQuery | routes/api/v1/cruises.js:379-390 | the bylowering and byevent parent filter, built step by step, is `ParentFilterAsWritten` |
| Visibility.ParentMissesVisible | routes/api/v1/cruises.js:383 | as written, a non-admin under access control does not find a visible parent unless the caller is on its list, although checkEntityAccess passes it |
| Visibility.ParentFilterIsInitializeQuery | routes/api/v1/lowerings.js:505-514 | with the intended `$or`, the parent filter is initializeQuery's filter plus the covering window, for every record |
| TimeWindow.ClampWithin | routes/api/v1/lowerings.js:393-409 | the lower bound never falls before the window's start, the upper never after its stop, and for a proper window both lie inside it |
| TimeWindow.ClampIdempotent | routes/api/v1/event_exports.js:89-106 | a clamped bound, requested again, is kept |
| Listings.ListingQuery | routes/api/v1/cruises.js:203-285 | hidden part, then the id alone or location, tags and time entries. A non-admin with `hidden=true` gets 401. The PI/vessel filters without an id raise a TypeError |
| Listings.IdExcludesOtherFilters | routes/api/v1/lowerings.js:220-223 | given an id, the listing filters on nothing else |
| Listings.ListingKeysDistinct | routes/api/v1/lowerings.js:220-257 | the field names of one listing differ from each other |
| Listings.OverlappingMatches | routes/api/v1/lowerings.js:242-257 | the time entries keep exactly the records whose interval overlaps the requested one |
| Listings.ListingMatches | routes/api/v1/cruises.js:271-285 | a listed record satisfies the hidden part, and the time part when times were requested |
| Listings.ByCruiseHidden | routes/api/v1/lowerings.js:353-370 | a non-admin with `hidden=true` is refused; otherwise the hidden part comes only from the parameter, with `$or` under access control |
| Listings.AddClampedTimes | routes/api/v1/lowerings.js:393-409 | `start_ts >=` the clamped start and `stop_ts <=` the clamped stop |
| Listings.ByCruiseQuery | routes/api/v1/lowerings.js:350-409 | the whole bycruise filter: hidden part, then id, location and tags as given, then the clamped window |
| Listings.ByCruiseWindow | routes/api/v1/lowerings.js:393-409 | the bycruise time entries keep only lowerings inside the clamped bounds, and so inside the cruise window when it is proper |
| Listings.ByCruiseListsHidden | routes/api/v1/lowerings.js:353-364 | as written, without a `hidden` parameter and with access control off, a non-admin's bycruise listing admits a hidden lowering that GET /lowerings leaves out |
| Listings.ByCruiseIntendedHides | routes/api/v1/lowerings.js:195-218 | with the intended hidden part, a non-admin's bycruise filter admits a lowering only when it is not hidden or, under access control, lists the caller |
| EventExports.ExportParent | routes/api/v1/event_exports.js:189-204 | a missing parent is 404; a hidden parent needs credentials and, for a non-admin under access control, the id on its list |
| EventExports.VisibleParentServed | routes/api/v1/event_exports.js:194 | a parent that is not hidden is served to anyone, signed in or not |
| EventExports.HiddenParentNeedsCredentials | routes/api/v1/event_exports.js:196-198 | a hidden parent and no credentials, or credentials without a scope: unauthorized, whatever the id and the access list |
| EventExports.AdminParentServed | routes/api/v1/event_exports.js:200-203 | an administrator is never rejected |
| EventExports.HiddenParentIffListed | routes/api/v1/event_exports.js:332-335 | a hidden parent and a caller whose scope lacks `admin`: rejected iff access control is on and the id is not on the list, a missing list counting as empty |
| EventExports.ExportServesHiddenWithoutAcl | routes/api/v1/event_exports.js:200-201 | with access control off, a signed-in non-admin gets the events of a hidden parent that checkEntityAccess refuses |
| EventExports.ExportAgreesWithCheckUnderAcl | routes/api/v1/event_exports.js:194-203 | under access control and for a caller with an id and a scope, the export check passes exactly when checkEntityAccess does; without a scope checkEntityAccess raises while the export serves exactly the parents that are not hidden |
| EventExports.SplitTerms | routes/api/v1/event_exports.js:55-65 | the for-of loop yields the include list and the exclude list, or a SyntaxError exactly when some term, stripped of its `!`, does not compile |
| EventExports.TermsCount | routes/api/v1/event_exports.js:55-65 | every term lands in exactly one list: a `!` term stripped in the exclude list, any other in the include list |
| EventExports.IncludeSound | routes/api/v1/event_exports.js:55-65 | nothing but the terms' patterns enters the two lists |
| EventExports.ValueListShape | routes/api/v1/event_exports.js:66-72 | `$in` present iff some term lacks `!`; `$nin` present iff some term has one or none lacks it |
| EventExports.ValueListMeaning | routes/api/v1/event_exports.js:55-72 | an event matches an array value filter iff its value matches some include term (if any) and no exclude term |
| EventExports.SingleValueMeaning | routes/api/v1/event_exports.js:75-82 | a single value matches a string the search of the value finds, or, after a leading `!`, one the search of the text `^(?!.*rest)` finds, the remainder unbracketed inside it |
| EventExports.BuildValueClause | routes/api/v1/event_exports.js:49-83 | the value clause built step by step is `ValueClause`, or a SyntaxError exactly when one of the value's texts does not compile |
| EventExports.BuildAuthorClause | routes/api/v1/event_exports.js:34-47 | `$in` of the authors' patterns for an array, the author's pattern otherwise, or a SyntaxError exactly when an author does not compile |
| EventExports.BuildFieldFilters | routes/api/v1/event_exports.js:34-87 | the author, value and free-text entries, in the handler's order, or a SyntaxError exactly when one of the texts it compiles is invalid |
| EventExports.SplitCompiles | routes/api/v1/event_exports.js:55-62 | the include and exclude patterns all compile exactly when every array term, stripped of its `!`, does |
| EventExports.ValueCompilesIff | routes/api/v1/event_exports.js:49-83 | the value clause's patterns compile exactly when the value's texts do |
| EventExports.FilterTextsCompile | routes/api/v1/event_exports.js:34-87 | the texts the handler compiles all compile exactly when every pattern of the built filter does |
| EventExports.BuildEventsQuery | routes/api/v1/event_exports.js:31-110 | the event filter is `EventsQuery`, the parent's missing bounds defaulting to the epoch and the request time; a SyntaxError exactly when one of its patterns does not compile |
| EventExports.RequestedBoundsUsed | routes/api/v1/event_exports.js:89-106 | the filter ends with the `ts` range; each bound is the requested time exactly when that time lies inside the parent's window, else the window's bound |
| EventExports.EventsInsideWindow | routes/api/v1/event_exports.js:89-106 | every event the filter keeps lies inside the clamped bounds, and so inside the parent's window when it is proper |
| EventExports.KeepListedAppend | routes/api/v1/event_exports.js:263-268 | the datasource filter commutes with concatenation, so kept events stay in order |
| EventExports.KeepListedAll | routes/api/v1/event_exports.js:395-400 | when every event is listed, none is dropped |
| EventExports.RenameAndClearFields | routes/api/v1/event_exports.js:17-29 | the in-place rename computes `Renamed`, recursing into `aux_data` |
| EventExports.RenamedFields | routes/api/v1/event_exports.js:17-29 | `id` holds the old `_id`, neither `_id` nor `event_id` is left, every other field but `aux_data` is unchanged |
| EventExports.RenamedAux | routes/api/v1/event_exports.js:24-26 | every object of a non-empty `aux_data` is renamed in turn, in place |
| EventExports.ExportEvents | routes/api/v1/event_exports.js:236-285 | no events is 404; otherwise the events whose id is in the aux-data id set (when a datasource is asked for), in order, each renamed |
| MetaExport.RenameAndClearFields | routes/api/v1/cruises.js:74-85 | `id` is the old `_id`, `_id` is gone, the access list is dropped without access control and kept with it, every other field unchanged |
| MetaExport.FlattenRecord | routes/api/v1/cruises.js:29-57 | the step-by-step copy is `FlattenSpec`: meta keys lifted, four fields deleted, times, id and tags converted |
| MetaExport.FlattenSpec | routes/api/v1/cruises.js:29-57 | what _flattenJSON makes of one record: its only error is a TypeError, which a record without meta always raises. Its fields are stated by `FlattenDropsInternal`, `FlattenLiftsMeta`, `FlattenKeepsOthers` and `FlattenConversions` |
| MetaExport.FlattenJson | routes/api/v1/lowerings.js:29-57 | the list is flattened record by record, stopping at the first record that raises |
| MetaExport.FlattenAllErr | routes/api/v1/cruises.js:29-57 | the only error the flattening raises is a TypeError |
| MetaExport.FlattenAllOk | routes/api/v1/cruises.js:29-57 | the list flattens exactly when every record does |
| MetaExport.FlattenAllRow | routes/api/v1/cruises.js:29-57 | row i of a flattened list is record i flattened |
| MetaExport.FlattenDropsInternal | routes/api/v1/cruises.js:44-47 | no flattened record holds the meta object, hidden flag, access list or file list, even when a meta key carried one of those names up |
| MetaExport.FlattenLiftsMeta | routes/api/v1/cruises.js:36-42 | every meta key other than the internal and converted names is lifted to the top level, an array joined with `,` |
| MetaExport.FlattenKeepsOthers | routes/api/v1/lowerings.js:29-57 | a field no meta key shadows keeps its value, apart from the internal fields (gone) and the converted ones |
| MetaExport.FlattenConversions | routes/api/v1/cruises.js:49-54 | without shadowing meta keys, a record flattens iff its meta is present, its times are Dates, its id an ObjectId and its tags an array; then those fields hold the converted texts |
| MetaExport.BuildCSVHeaders | routes/api/v1/cruises.js:59-72 | the fixed six columns, then the sorted rest of the reduced headers |
| MetaExport.ReduceIsDedup | routes/api/v1/cruises.js:62-68 | the reduce is the first-seen union of the start list and all keys |
| MetaExport.ReducedHeaders | routes/api/v1/lowerings.js:59-72 | the reduce keeps the six fixed columns first and adds every other key once |
| MetaExport.CSVHeadersShape | routes/api/v1/cruises.js:59-72 | the columns are the fixed six first, then every other key of every row exactly once, sorted |
| Text.SortStringsCorrect | routes/api/v1/cruises.js:71 | `sort()` orders strings lexicographically and returns a permutation of them |
| Text.SortedUnique | routes/api/v1/cruises.js:71 | a sorted permutation is unique, so any correct sort agrees with this one |
| Records.FindById | routes/api/v1/cruises.js:858 | `findOne({_id})`: the first record with that id, or -1 exactly when no record has it |
| Records.CheckListAsWritten | routes/api/v1/cruises.js:884-906 | as written, any non-empty access list fails with 503, because `toArray` is called on the collection object |
| Records.Drafted | routes/api/v1/cruises.js:694-770 | the record POST prepares (lowerings.js:720-790 alike): a non-string id is 400, and every refusal is a 400 or a 503. Its fields are stated by `CreateHiddenDefault`, `CreateListDefault` and `CreateRejectsUnordered` |
| Records.CreateSpec | routes/api/v1/cruises.js:694-800 | the record POST stores: its id is new to the collection, and every refusal is a 400 or a 503. Its id is stated by `CreateId`, its effect on the store by `Store.Database.Create` |
| Records.CreateRejectsUnordered | routes/api/v1/cruises.js:726-731 | a start not before the stop is refused with 400, whatever else the payload holds |
| Records.CreateWithoutStop | routes/api/v1/lowerings.js:742-752 | a lowering created without a stop time never fails the date test |
| Records.CreateHiddenDefault | routes/api/v1/cruises.js:733-735 | the created record's hidden flag is false unless the payload set one |
| Records.CreateListDefault | routes/api/v1/lowerings.js:759-762 | the access list is [] under access control when the payload has none, the payload's list otherwise; a non-empty list never gets this far |
| Records.CreateId | routes/api/v1/cruises.js:704-723 | the created id is the payload's, or the generated one, and is new to the collection |
| Records.CreateListUnavailable | routes/api/v1/cruises.js:741-762 | as written, a create with a non-empty access list never succeeds, whichever users it names |
| Records.ListCheckFinding | routes/api/v1/lowerings.js:762-783 | the written check refuses a list naming one existing user, and the intended check accepts it |
| Records.CheckListMeaning | routes/api/v1/cruises.js:1056-1093 | the intended check on an array accepts iff every entry is a user id, and refuses with 400 otherwise |
| Records.PatchRejectsMovedWindow | routes/api/v1/cruises.js:868-877 | as written, moving a window stored as [0, 10] to [20, 30] is refused: the new start is compared with the old stop |
| Records.MergedImpliesAsWritten | routes/api/v1/lowerings.js:887-896 | when the payload moves a date, whatever the intended test refuses the written one refuses too |
| Records.OneDateAgrees | routes/api/v1/cruises.js:872-877 | the two tests agree on a payload that moves one date only |
| Records.SetAllGet | routes/api/v1/cruises.js:924 | after `$set`, a field holds the payload's value if the payload has one, the stored value otherwise |
| Records.MergedIsStoredWindow | routes/api/v1/cruises.js:868-924 | with the payload's dates given as Dates, the intended test refuses exactly the updates that would store a start not before its stop |
| Records.FilesClearedMeta | routes/api/v1/lowerings.js:929-942 | the cruise route stores the meta object without its file list; the lowering route stores the meta object as sent, file list included |
| Records.FilesClearedGet | routes/api/v1/cruises.js:909-921 | clearing the files touches only the meta object and the file list |
| Records.PatchSpec | routes/api/v1/cruises.js:857-924 | the record PATCH stores: a missing cruise is 404 and a missing lowering 400, a success needs a record the caller is not refused, and every error is 400, 401, 404 or 503. What it stores is stated by `PatchStores`, the date refusal by `PatchRefusesDates` |
| Records.PatchStores | routes/api/v1/cruises.js:857-924 | a PATCH that passes its tests stores the payload's fields over the record's and keeps the rest |
| Records.PatchRefusesDates | routes/api/v1/lowerings.js:887-896 | a PATCH whose dates the written test refuses answers 400 once the record is found and may be edited |
| Records.Minus | routes/api/v1/cruises.js:952-953 | an item is kept iff it is not in the other list, in order |
| Records.ApplyUpdate | routes/api/v1/cruises.js:1097-1113 | one `$set`, `$pull` or `$push` on one record: an assignment stores the value. The list updates are stated by `ApplyUpdateFields` and `ApplyUpdateList` |
| Records.ApplyUpdateFields | routes/api/v1/cruises.js:1097-1113 | a successful `$pull`/`$push` changes its field only; it fails exactly on a present value that is no array |
| Records.ApplyUpdateList | routes/api/v1/lowerings.js:1073-1089 | a pull leaves the stored entries not pulled, in order; a push appends the pushed ones |
| Records.PullThenPush | routes/api/v1/cruises.js:1097-1113 | the permission update of one record: with neither part it leaves the record unchanged, and its only error is a 503. The resulting list is stated by `PullThenPushList` |
| Records.PullThenPushList | routes/api/v1/cruises.js:1097-1113 | after the permission update the list is the stored members not removed, in order, then every added one |
| Records.ApplyAllEach | routes/api/v1/cruises.js:1116-1134 | a successful `updateMany` steps every record in place |
| Records.ApplyAllFails | routes/api/v1/cruises.js:1118-1124 | `updateMany` fails exactly when some record it must update cannot be updated |
| Records.LoweringsWithinMeaning | routes/api/v1/cruises.js:1116 | a lowering is selected iff it starts at or after the cruise start and stops before the cruise stop |
| Records.CascadeAsWrittenIsEmpty | routes/api/v1/cruises.js:930-972 | as written, the cascade compares the payload with the record just updated from it, so it sends no update at all |
| Records.CascadeAgainst | routes/api/v1/cruises.js:930-955 | what the cruise PATCH sends to its lowerings: a hidden flag only when it is the payload's; nothing to remove or add without an array list; every removed member is stored and not in the payload, every added one is in the payload and not stored. Stated against the two records by `CascadeAsWrittenIsEmpty` and `CascadeIntended` |
| Records.CascadeIntended | routes/api/v1/cruises.js:951-971 | against the record as it was, pulling `remove` and pushing `add` turns a lowering list holding the old members into one holding the new members |
| Records.WithinStable | routes/api/v1/cruises.js:939 | an update of a field the lowering window does not read keeps a lowering in or out of the window |
| Records.PermitLowerings | routes/api/v1/cruises.js:1116-1134 | the two `updateMany` calls give each lowering in the window the record's pull-then-push update and leave the others alone |
| Store.Database.UpdateMany | routes/api/v1/cruises.js:1120 | the loop leaves the lowerings at `ApplyAll` of the old ones when that succeeds, and answers 503 exactly when it fails |
| Store.Database.UpdateManyInTurn | routes/api/v1/cruises.js:1118-1134 | the awaited `updateMany` calls leave the lowerings at `ApplyMany` of the old ones, or answer 503 |
| Store.Database.Create | routes/api/v1/cruises.js:694-800 | the collection gains `CreateSpec`'s record and its id is returned; on any refusal the handler's answer and no change |
| Store.Database.Patch | routes/api/v1/cruises.js:824-1000 | the record found is replaced by `PatchSpec`'s, or the handler answers and nothing changes; the other collection and the users are untouched |
| Store.Database.CruiseCascade | routes/api/v1/cruises.js:930-972 | the cascade as written succeeds and leaves every collection as it was |
| Store.Database.Permissions | routes/api/v1/cruises.js:1021-1134 | 404 for a missing record, 400 for an unknown user, then the record's pull and push and, for a cruise, the lowerings of its window; a lowering route touches no cruise |
| Utils.RandomString | lib/utils.js:4-26 | an empty alphabet is an error, one above 256 characters another, otherwise the picked characters |
| Utils.PicksFromAlphabet | lib/utils.js:22 | every character of the result is drawn from `chars` |
| Utils.PicksAt | lib/utils.js:19-23 | character i is `chars[(bytes[0] + ... + bytes[i]) mod \|chars\|]` |
| Utils.PicksPrefix | lib/utils.js:19-23 | the first n characters depend on the first n bytes only |
| Utils.RandomAsciiString | lib/utils.js:28-32 | `length` characters, each a letter or a digit of the 62-character alphabet |

## Left out

- MongoDB itself is not modelled.
  - A collection is a sequence of records, and `find` is `Filter.Find`
    over it.
  - Sorting, `skip` and `limit`, `aggregate` with `$lookup`, and database
    exceptions other than the write errors `$pull`/`$push` raise on a
    non-array are not modelled.
- Regular-expression matching and `Date` parsing and comparison are the
  `Env` parameters `search` and `time`.
- ISO formatting of a Date is its carried text. ObjectId parsing (the
  400 for a malformed id) is not modelled; an id is its hex text.
- `Date` parsing of a timestamp that is not a Date (a string, a number of
  milliseconds, null) is the parameter `toIso` of
  `EventFlatten.FlattenEventJson`; only a missing timestamp is fixed as
  invalid.
- The regular-expression syntax is not modelled: which texts compile is
  the parameter `compiles` of `EventExports.BuildEventsQuery`. Its
  SyntaxError escapes the handler (event_exports.js:206, 338), and the
  500 answer hapi makes of it is not modelled.
- `EventExports.SingleValueMeaning` states the negated single value as
  the look-ahead text the handler builds. It does not claim that the
  text means "the remainder is not found": that reading holds only for
  a remainder without a top-level `|` and a value on one line, since the
  remainder is not bracketed and `.` stops at a line break.
- `Json.Num` carries integers only. Fractional numbers (an aux
  `data_value` of 12.5), NaN and Infinity (which `JSON.stringify` writes
  as `null`) and the exponent form of `String(1e21)` are not
  representable, so `CsvExport.Cell` and `Json.ToText` are modelled on
  integers.
- `Json.ToText` of a Date is its ISO text. JavaScript's `String(date)` is
  the `toString()` form, which a joined meta array holding Dates would
  show.
- hapi route registration, Joi validation, Boom responses (an `Error`
  datatype instead), `server.publish` notifications and `json2csv`'s
  `parseAsync` are not modelled.
- The file handling is not modelled: `Fs.readdirSync` annotation,
  `Fs.mkdirSync`, `mvFilesToDir`, `rmDir` and the 503 when moving uploads
  fails. Only the deletion of the file list from the payload is kept.
- `Crypto.randomBytes` is not modelled: the bytes are a parameter of
  `Utils.RandomString`.
- GET /cruises/{id}, the bump routes, bylowering and byevent are
  modelled through the filters and denial tests they build
  (`Visibility.FetchOne`, `Visibility.ParentQuery`). Their CSV and file
  annotation tails are not modelled.
- The DELETE routes are not modelled: they only delete, with the same
  denial test.
- The find for the parent record that precedes the bycruise and export
  filters is not modelled. `Listings.ByCruiseQuery` and
  `EventExports.BuildEventsQuery` start from the parent's window, so the
  400 (lowerings.js:339-341) or 404 for a missing parent lies outside
  them.
- The lines after an insert or an update that only read and publish are
  not modelled. That includes the 503 when such a read fails after the
  record was stored: after POST (cruises.js:783-797, lowerings.js:804-815)
  and after PATCH (cruises.js:975-990, lowerings.js:952-970), where
  `Records.PatchSpec` answers Ok.
- Integer-like keys are not ordered first the way JavaScript orders
  object keys. `sort()` compares characters rather than UTF-16 code
  units.
- `EventFlatten.FlattenEventJson`: every event carries an event_options
  array. A record without one, which makes `forEach` raise, is outside
  `Event`.
- `EventFlatten.FlattenEventJson` groups and counts every name as its own
  key. In JavaScript `eventsByType` and `colDict` are plain objects that
  inherit `Object.prototype`. An event_value such as `constructor`,
  `toString` or `__proto__` finds an inherited value at
  json_util.js:37, and the `.push` at line 40 raises a TypeError. A
  data_name `constructor` that occurs twice gets a NaN count at line 59,
  so neither occurrence is suffixed. These prototype names are not
  modelled.
- `Utils.RandomString`: `length` is taken to equal the number of bytes
  supplied.
- Concurrency and the interleaving of the multi-step cascades are not
  modelled.
- `Store.Database.UpdateMany`: on a write error it promises only the 503
  answer. The lowerings updated before the failing one are not described.
- `Store.Database.Permissions`: when the record's pull or push fails, it
  promises only the 503 answer and does not describe the records already
  stored.
- `Store.Database.Patch` requires `UniqueKeys(payload)` and a boolean or
  absent hidden flag. The Joi payload schema guarantees both.
- A cruise whose stored dates are not Dates updates no lowerings, in
  permissions and in the cascade. The driver would send such a window to
  MongoDB as given.
- A PATCH payload access list that is not an array is excluded by the
  Joi update schema (cruises.js:184) and is not modelled. In the handler
  its `.filter` at cruises.js:951 would raise a TypeError outside any
  `try`, after the record was stored; `Records.CascadeAgainst` sends
  nothing for it.
- `Visibility.ScopeAdmin`: every cruise and lowering route declares a
  route scope (cruises.js:333, lowerings.js:305 and the other route
  configs), so hapi answers a token without a scope 403 before the
  handler runs. That answer is not modelled. `ScopeAdmin` reads such a
  token as no administrator's, a case that never reaches the listing,
  bycruise, bylowering and byevent handlers. `Visibility.RecordDenied`
  keeps the TypeError the inline `includes` would raise. The export
  routes declare no route scope (event_exports.js:288-291, 419-422), so
  there a token without a scope does arrive and, for a hidden parent, is
  refused with 401
  (`EventExports.HiddenParentNeedsCredentials`); `AccessControl.GetAuthzFlags`
  raises for it.
- `AccessControl.Credentials`: a scope is an array of roles or absent, as
  the login route signs it (users.js:492). A scope given as a single
  string, on which `includes` is a substring test, is not modelled.
- The lowering listings never receive a `hidden` parameter: the
  `loweringQuery` schema (lowerings.js:141-153) has no `hidden` key, and
  GET /lowerings and GET /lowerings/bycruise validate with it
  (lowerings.js:309, 461), so Joi answers `?hidden=` with 400. The
  handlers' `hidden` branches (lowerings.js:195-210, 353-364) are modelled
  as written but are unreachable for lowerings; the 401 that
  `Listings.ByCruiseHidden` and `Visibility.ListingHiddenFilter` give a
  non-admin asking for hidden lowerings never happens. Only GET /cruises
  accepts the parameter (cruises.js:134).
- `MetaExport.MetaKeys` treats a meta value that is not an object as
  having no keys.
- The `Boom.notFound()` without `return` in both permission routes
  (cruises.js:1026-1028) has no effect and is not modelled.
- The PATCH code that calls `Date(payload.startTS)` (cruises.js:843-855,
  lowerings.js:862-873) is not modelled. Neither update payload schema
  (cruises.js:177-186, lowerings.js:128-138) has a `startTS` key.
- `MetaExport.FlattenRecord` reads every meta key from the original meta
  object. At cruises.js:36-42 a meta key named `cruise_additional_meta`
  replaces that object, and the keys after it are read from the new
  value.
- routes/api/v1/users.js, custom_vars.js, routes/default.js, the
  plugins and the Python utilities are not part of this model.

## Findings

| source | as written | input that shows it | evidently intended | confidence | as-written member | corrected member |
|---|---|---|---|---|---|---|
| routes/api/v1/cruises.js:383 | the bylowering and byevent parent filter builds `$or` from `query.cruise_hidden`, which nothing has assigned yet, so it reads `{ cruise_hidden: undefined }` (the same at cruises.js:481 and lowerings.js:507) | a non-admin under access control, a parent with `cruise_hidden: false` and an empty access list | `$or[{hidden: false}, {access_list: id}]`, as initializeQuery builds it | not executed | Visibility.ParentMissesVisible | Visibility.ParentFilterIsInitializeQuery |
| routes/api/v1/lowerings.js:353-364 | bycruise adds no hidden constraint without a `hidden` parameter, and `loweringQuery` (lowerings.js:141-153) has no `hidden` key, so the parameter is always absent and bycruise never hides a lowering from a non-admin outside access control | a non-admin, access control off, a lowering with `lowering_hidden: true` | the GET /lowerings rule, `lowering_hidden: false` for non-admins by default | not executed | Listings.ByCruiseListsHidden | Listings.ByCruiseIntendedHides |
| routes/api/v1/cruises.js:887 | the access-list check calls `db.collection(usersTable).toArray()`, which the collection object lacks; the TypeError is caught and answered with 503 (also cruises.js:743, lowerings.js:764 and 907) | a POST or PATCH whose access list names one existing user | read the users with `find().toArray()` and compare the ids as text, `user._id.toString()`, as the permission routes do (cruises.js:1058-1059); fixing only the read would refuse every listed id with 400, since the `map` at cruises.js:743 and 888 keeps ObjectIds | not executed | Records.ListCheckFinding | Records.CheckListMeaning |
| routes/api/v1/cruises.js:872 | PATCH compares the new start with the stored stop even when the payload also moves the stop (also lowerings.js:891) | stored window [0, 10], payload start 20 and stop 30 | check the window the record will have after the update | not executed | Records.PatchRejectsMovedWindow | Records.MergedIsStoredWindow |
| routes/api/v1/cruises.js:934 | the cascade re-reads the cruise after `$set` and compares the payload with it, so the hidden flag never differs and `add`/`remove` are always empty | any PATCH that changes `cruise_hidden` or `cruise_access_list` | compare with the record as it was before the update | not executed | Records.CascadeAsWrittenIsEmpty | Records.CascadeIntended |

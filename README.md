# Nyss data collectors and localised strings — a verified model

This project models two parts of the Nyss system.

- **The data-collector service.** Data collectors are the volunteers and
  collection points that send SMS reports. The service keeps their register:
  - creates, edits, deletes or anonymises collectors;
  - switches them in and out of training mode;
  - replaces their supervisor and tells them so by SMS.

  It also computes the reporting views: the ordered list, the per-week
  performance table, the reporting-status filters, and the map overview with
  its per-location details.
- **The client's localised-string table.** This is a mutable map from string
  keys to texts, plus a "show keys" mode.

The database becomes an in-memory store. The class
`DataCollectors.DataCollectorService` holds the collector table as a sequence
and the tables it refers to as maps. Dates are whole day numbers. A location
is an opaque key. The read-only queries are functions of the collector
sequence. An exception the source would raise is modelled as the outcome
`Raised`, for example a `SingleAsync` that finds no row or a member access on
a missing row.

Files:

- `common.dfy`: `Option`, .NET's `IsNullOrEmpty`, and an order-preserving subsequence.
- `domain.dfy`: the entities (collector, raw report, project, supervisor) and anonymisation.
- `reporting.dfy`:
  - the reporting window and weekly buckets;
  - the status of a week and days since the last report;
  - the performance table.
- `reporting_filters.dfy`: the three-flag filter type and filtering by reporting status.
- `map_overview.dfy`: the per-location counts of the map overview, and the detail rows.
- `collector_order.dfy`: the list of a project's collectors, ordered by name and then display name.
- `replace_supervisor_sms.dfy`: placeholder substitution and the choice of SMS channel.
- `data_collector_service.dfy`: the store and its state-changing operations.
- `strings.dfy`: the string table.

## Model

| member | source | states |
|---|---|---|
| `Domain.AnonymizedReport` | src/RX.Nyss.Web/Features/DataCollectors/DataCollectorService.cs:648-656 | the sender and the processed report's phone number become the anonymisation text; receipt day, training flag and validity are kept |
| `Domain.AnonymizedReports` | src/RX.Nyss.Web/Features/DataCollectors/DataCollectorService.cs:648-650 | every raw report of the collector is anonymised, in order, none added or dropped |
| `Domain.Anonymized` | src/RX.Nyss.Web/Features/DataCollectors/DataCollectorService.cs:637-657 | name, display name, phone and additional phone become the anonymisation text and DeletedAt is set; id, project, type, training mode, creation, location, supervisor, birth decade, sex, village and zone are kept |
| `Reporting.ReportsInTimeRange` | src/RX.Nyss.Web/Features/DataCollectors/DataCollectorService.cs:519-525 | exactly the non-training reports received in [from, to+1) are kept, each as (valid, day) |
| `Reporting.ReportsInTimeRangeCount` | src/RX.Nyss.Web/Features/DataCollectors/DataCollectorService.cs:519-525 | the window holds one entry per qualifying raw report, duplicates included |
| `Reporting.ReportsInTimeRangeEmpty` | src/RX.Nyss.Web/Features/DataCollectors/DataCollectorService.cs:519-520 | the window is empty iff no raw report is non-training and inside it |
| `Reporting.AnonymizedReportsInTimeRange` | src/RX.Nyss.Web/Features/DataCollectors/DataCollectorService.cs:648-650 | anonymising a collector's reports does not change its window data |
| `Reporting.Status` | src/RX.Nyss.Web/Features/DataCollectors/DataCollectorService.cs:680-682 | NotReporting iff no reports; ReportingCorrectly iff some and all valid; ReportingWithErrors iff some report is invalid |
| `Reporting.WeekOf` | src/RX.Nyss.Web/Features/DataCollectors/DataCollectorService.cs:531 | the bucket w of a report satisfies 7w <= days since receipt < 7w+7 |
| `Reporting.WeekOfUnique` | src/RX.Nyss.Web/Features/DataCollectors/DataCollectorService.cs:531 | a report lies in bucket w exactly when 7w <= days since receipt < 7w+7 |
| `Reporting.Bucket` | src/RX.Nyss.Web/Features/DataCollectors/DataCollectorService.cs:678 | a week's bucket holds exactly the window reports of that week |
| `Reporting.WeekStatus` | src/RX.Nyss.Web/Features/DataCollectors/DataCollectorService.cs:677-683 | a week is NotReporting iff no window report falls in it, ReportingWithErrors iff an invalid one does, ReportingCorrectly iff some do and all are valid |
| `Reporting.LatestDay` | src/RX.Nyss.Web/Features/DataCollectors/DataCollectorService.cs:537 | the latest receipt day is attained by a report and no report is later |
| `Reporting.DaysSinceLastReport` | src/RX.Nyss.Web/Features/DataCollectors/DataCollectorService.cs:536-538 | -1 iff there is no report in the window, otherwise the non-negative distance to the most recent report |
| `Reporting.WeeklyStatus` | src/RX.Nyss.Web/Features/DataCollectors/DataCollectorService.cs:539-546 | eight statuses, the w-th being the status of bucket w |
| `Reporting.PerformanceOf` | src/RX.Nyss.Web/Features/DataCollectors/DataCollectorService.cs:528-547 | a performance row carries the collector's name and eight weekly statuses |
| `Reporting.NotDeleted` | src/RX.Nyss.Web/Features/DataCollectors/DataCollectorService.cs:514 | exactly the collectors without DeletedAt, each as often as in the input, in their original order |
| `Reporting.Performance` | src/RX.Nyss.Web/Features/DataCollectors/DataCollectorService.cs:507-547 | one row per collector not deleted, in order, each its performance row |
| `Reporting.PerformanceWeekNotReporting` | src/RX.Nyss.Web/Features/DataCollectors/DataCollectorService.cs:519-546 | week w of a row is NotReporting iff no non-training report in the window is w weeks old |
| `Reporting.PerformanceWeekWithErrors` | src/RX.Nyss.Web/Features/DataCollectors/DataCollectorService.cs:519-546 | week w of a row is ReportingWithErrors iff an invalid non-training report in the window is w weeks old |
| `Reporting.PerformanceWeekCorrectly` | src/RX.Nyss.Web/Features/DataCollectors/DataCollectorService.cs:519-546 | week w of a row is ReportingCorrectly iff some non-training report in the window is w weeks old and all such are valid |
| `Reporting.PerformanceDaysSinceLastReport` | src/RX.Nyss.Web/Features/DataCollectors/DataCollectorService.cs:536-538 | DaysSinceLastReport is -1 iff the collector has no report in the window, and never below -1 |
| `Reporting.WeeklyStatusIgnoresOlder` | src/RX.Nyss.Web/Features/DataCollectors/DataCollectorService.cs:539-546 | a report older than eight weeks changes no weekly status |
| `Reporting.OlderReportsIgnored` | src/RX.Nyss.Web/Features/DataCollectors/DataCollectorService.cs:531-546 | adding a raw report older than eight weeks to a collector leaves its weekly statuses unchanged |
| `Reporting.AnonymizedPerformance` | src/RX.Nyss.Web/Features/DataCollectors/DataCollectorService.cs:637-657 | an anonymised collector keeps its days since last report and weekly statuses |
| `ReportingFilters.MapToReportingStatusFilterType` | src/RX.Nyss.Web/Features/DataCollectors/DataCollectorService.cs:685-723 | All iff all three flags; None iff no flag; the filter's flags are the input flags |
| `ReportingFilters.MapToReportingStatusFilterTypeInjective` | src/RX.Nyss.Web/Features/DataCollectors/DataCollectorService.cs:685-723 | different flag triples give different filter types |
| `ReportingFilters.MapToReportingStatusFilterTypeBijective` | src/RX.Nyss.Web/Features/DataCollectors/DataCollectorService.cs:685-723 | every filter type is reached, from its own flags |
| `ReportingFilters.Where` | src/RX.Nyss.Web/Features/DataCollectors/DataCollectorService.cs:595-601 | the result holds every input collector the filter keeps, as often as in the input, and no other, as an order-preserving subsequence |
| `ReportingFilters.FilterByReportingStatus` | src/RX.Nyss.Web/Features/DataCollectors/DataCollectorService.cs:592-604 | All returns the input, None returns nothing, and every filter returns each kept collector as often as in the input and no other, in order |
| `ReportingFilters.KeepsByFlags` | src/RX.Nyss.Web/Features/DataCollectors/DataCollectorService.cs:592-604 | the filter chosen by three flags keeps a collector iff a chosen flag describes it (has a valid report, has an invalid one, has none) |
| `ReportingFilters.KeepsAgreesWithStatus` | src/RX.Nyss.Web/Features/DataCollectors/DataCollectorService.cs:599-601 | NotReporting keeps exactly the collectors whose status is NotReporting; Error keeps exactly those ReportingWithErrors |
| `MapOverview.CountReports` | src/RX.Nyss.Web/Features/DataCollectors/DataCollectorService.cs:421-426 | the count equals the number of raw reports that are non-training, inside the window and of the asked validity; it is positive iff such a report exists |
| `MapOverview.GroupByLocationLookup` | src/RX.Nyss.Web/Features/DataCollectors/DataCollectorService.cs:432-446 | the grouped counts at a location are the sums of the rows at that location |
| `MapOverview.GroupByLocationKeys` | src/RX.Nyss.Web/Features/DataCollectors/DataCollectorService.cs:432-446 | the grouping has a location exactly when some row is at that location |
| `MapOverview.Distinct` | src/RX.Nyss.Web/Features/DataCollectors/DataCollectorService.cs:430-431 | the set union keeps each distinct row once and no other |
| `MapOverview.NoReportEntriesSum` | src/RX.Nyss.Web/Features/DataCollectors/DataCollectorService.cs:399-410 | the "not reporting" rows at a location sum to the number of counted collectors there without a window report |
| `MapOverview.WithReportEntriesSum` | src/RX.Nyss.Web/Features/DataCollectors/DataCollectorService.cs:412-427 | the "reporting" rows at a location sum to the valid and invalid window reports of the reporting collectors there |
| `MapOverview.MapOverviewAsWritten` | src/RX.Nyss.Web/Features/DataCollectors/DataCollectorService.cs:394-448 | the overview as written (set union of the two row kinds, then grouping) shows exactly the locations of the collectors that give a row |
| `MapOverview.MapOverview` | src/RX.Nyss.Web/Features/DataCollectors/DataCollectorService.cs:394-448 | the corrected overview (Concat for Union) shows exactly the locations of the collectors that give a row |
| `MapOverview.MapOverviewCounts` | src/RX.Nyss.Web/Features/DataCollectors/DataCollectorService.cs:394-446 | the corrected overview (Concat for Union) shows at each location its valid reports, invalid reports and not-reporting collectors, counted per collector |
| `MapOverview.EachCollectorOneRow` | src/RX.Nyss.Web/Features/DataCollectors/DataCollectorService.cs:399-427 | a counted, non-anonymised collector of the project gives exactly one row; an uncounted one gives none |
| `MapOverview.MapOverviewUnionCollapsesRows` | src/RX.Nyss.Web/Features/DataCollectors/DataCollectorService.cs:430-431 | two idle collectors at one location are counted as one by the set union, as two by the corrected overview |
| `MapOverview.DetailDisplayName` | src/RX.Nyss.Web/Features/DataCollectors/DataCollectorService.cs:479-481 | a human is shown by display name, a collection point by name, each followed by ": " and the phone number |
| `MapOverview.MapOverviewDetails` | src/RX.Nyss.Web/Features/DataCollectors/DataCollectorService.cs:466-491 | one row per collector at the location that is not deleted (the count of such collectors), each such collector's row present with its name rule and window status, and no other row |
| `MapOverview.DetailStatusAgreesWithOverview` | src/RX.Nyss.Web/Features/DataCollectors/DataCollectorService.cs:482-484 | the detail status is NotReporting iff no window report, WithErrors iff an invalid one, Correctly iff only valid ones |
| `CollectorOrder.StrLeqTotal` | src/RX.Nyss.Web/Features/DataCollectors/DataCollectorService.cs:230-231 | the ordinal string order relates any two strings |
| `CollectorOrder.StrLeqTransitive` | src/RX.Nyss.Web/Features/DataCollectors/DataCollectorService.cs:230-231 | the ordinal string order is transitive |
| `CollectorOrder.StrLeqAntisymmetric` | src/RX.Nyss.Web/Features/DataCollectors/DataCollectorService.cs:230-231 | strings ordered both ways are equal |
| `CollectorOrder.KeyLeqTransitive` | src/RX.Nyss.Web/Features/DataCollectors/DataCollectorService.cs:230-231 | the (name, display name) order is transitive |
| `CollectorOrder.Sort` | src/RX.Nyss.Web/Features/DataCollectors/DataCollectorService.cs:230-231 | the result is ordered by name then display name and is a permutation of the input |
| `CollectorOrder.ListedRows` | src/RX.Nyss.Web/Features/DataCollectors/DataCollectorService.cs:208-229 | a row is listed iff it is the response of a collector of the project without DeletedAt, one row per such collector |
| `CollectorOrder.List` | src/RX.Nyss.Web/Features/DataCollectors/DataCollectorService.cs:206-235 | the list is sorted, is a permutation of the listed rows, and holds exactly the project's collectors not deleted |
| `ReplaceSupervisorSms.Replace` | src/RX.Nyss.Web/Features/DataCollectors/DataCollectorService.cs:742-743 | ordinal replacement of every occurrence: each character of the result comes from the text or the replacement, and a replacement as long as the pattern keeps the length |
| `ReplaceSupervisorSms.ReplaceKeepsHead` | src/RX.Nyss.Web/Features/DataCollectors/DataCollectorService.cs:742-743 | the scan is left to right: a prefix at none of whose positions the pattern starts is kept as it is |
| `ReplaceSupervisorSms.ReplaceAtStart` | src/RX.Nyss.Web/Features/DataCollectors/DataCollectorService.cs:742-743 | an occurrence at the start is replaced and the scan resumes after it, so occurrences do not overlap |
| `ReplaceSupervisorSms.ReplaceSupervisorMessage` | src/RX.Nyss.Web/Features/DataCollectors/DataCollectorService.cs:742-743 | the name is substituted first, then the phone number; every character of the message comes from the template, the name or the phone, and a template without placeholders is sent as it is |
| `ReplaceSupervisorSms.ReplaceWithoutPattern` | src/RX.Nyss.Web/Features/DataCollectors/DataCollectorService.cs:742-743 | a text without the placeholder is left unchanged |
| `ReplaceSupervisorSms.ReplaceLeavesNoOccurrence` | src/RX.Nyss.Web/Features/DataCollectors/DataCollectorService.cs:742-743 | after replacing a placeholder, it no longer occurs, provided the replacement shares no character with it |
| `ReplaceSupervisorSms.MessageHasNoPlaceholders` | src/RX.Nyss.Web/Features/DataCollectors/DataCollectorService.cs:742-743 | when every '{' of the template opens a placeholder and neither name nor phone holds a '{', the message is the template with each placeholder filled by its value and contains neither {{supervisorName}} nor {{phoneNumber}} |
| `ReplaceSupervisorSms.ReplaceNameInPieces` | src/RX.Nyss.Web/Features/DataCollectors/DataCollectorService.cs:742-743 | substituting the name in a template whose literal text holds no '{' replaces exactly its name placeholders by the name |
| `ReplaceSupervisorSms.ReplacePhoneInPieces` | src/RX.Nyss.Web/Features/DataCollectors/DataCollectorService.cs:742-743 | substituting the phone number in such a template replaces exactly its phone placeholders by the number |
| `ReplaceSupervisorSms.DisjointValuesLeaveNoPlaceholders` | src/RX.Nyss.Web/Features/DataCollectors/DataCollectorService.cs:742-743 | the message contains neither placeholder, for any template, when name and phone are non-empty and share no character with the placeholders they could recreate; this rules out nearly every real name, which MessageHasNoPlaceholders covers |
| `ReplaceSupervisorSms.ReplaceCanRecreatePlaceholder` | src/RX.Nyss.Web/Features/DataCollectors/DataCollectorService.cs:742 | replacing {{supervisorName}} by "visor" in "{{super{{supervisorName}}Name}}" yields {{supervisorName}} again, so a brace-free template outside the placeholders is needed |
| `ReplaceSupervisorSms.SendReplaceSupervisorSms` | src/RX.Nyss.Web/Features/DataCollectors/DataCollectorService.cs:737-753 | the message is the template with name then phone substituted, sent to the given numbers by e-mail-to-SMS iff the device name is null or empty, else by the IoT hub to that device |
| `DataCollectors.IndexOf` | src/RX.Nyss.Web/Features/DataCollectors/DataCollectorService.cs:296 | the position of the collector with the id, or none iff no collector has it |
| `DataCollectors.NewCollector` | src/RX.Nyss.Web/Features/DataCollectors/DataCollectorService.cs:263-279 | a new collector takes the form's type, names, phones, birth decade, sex, location, village, zone, supervisor and project, and is in training mode, without reports, not deleted |
| `DataCollectors.Edited` | src/RX.Nyss.Web/Features/DataCollectors/DataCollectorService.cs:318-327 | an edit takes the form's fields and keeps type, training mode, creation time, project, reports and deletion |
| `DataCollectors.AnonymizeProject` | src/RX.Nyss.Web/Features/DataCollectors/DataCollectorService.cs:374-391 | collectors of the project with reports are anonymised; every other collector is unchanged |
| `DataCollectors.FirstGateway` | src/RX.Nyss.Web/Features/DataCollectors/DataCollectorService.cs:575-578 | the first gateway of the national society, or none iff it has no gateway |
| `DataCollectors.Listed` | src/RX.Nyss.Web/Features/DataCollectors/DataCollectorService.cs:563-565 | the collectors whose id is in the request, each as often as in the store and in store order |
| `DataCollectors.PhoneNumbers` | src/RX.Nyss.Web/Features/DataCollectors/DataCollectorService.cs:739 | the phone numbers of the listed collectors, one per collector, in store order |
| `DataCollectors.DataCollectorService.Create` | src/RX.Nyss.Web/Features/DataCollectors/DataCollectorService.cs:237-284 | a closed project gives ProjectIsClosed and a missing project, supervisor, village or zone raises, with the store unchanged; otherwise one new collector in training mode is appended |
| `DataCollectors.DataCollectorService.Edit` | src/RX.Nyss.Web/Features/DataCollectors/DataCollectorService.cs:286-331 | a missing collector raises; a closed project gives ProjectIsClosed; an open project with a missing supervisor, village or zone raises, store unchanged in each; the edit succeeds iff the collector exists, its project is open and the references exist, and then only the edited collector changes |
| `DataCollectors.DataCollectorService.Delete` | src/RX.Nyss.Web/Features/DataCollectors/DataCollectorService.cs:333-370 | an unknown id gives DataCollectorNotFound before the project check; a closed project gives ProjectIsClosed; a collector with reports is anonymised in place, one without is removed |
| `DataCollectors.RemovedCollectorGone` | src/RX.Nyss.Web/Features/DataCollectors/DataCollectorService.cs:362 | after removal exactly the collectors with another id remain |
| `DataCollectors.DataCollectorService.AnonymizeDataCollectorsWithReports` | src/RX.Nyss.Web/Features/DataCollectors/DataCollectorService.cs:372-392 | the store becomes the project-wide anonymisation of the old store |
| `DataCollectors.DataCollectorService.SetTrainingState` | src/RX.Nyss.Web/Features/DataCollectors/DataCollectorService.cs:493-505 | exactly the listed collectors get the training flag, all others unchanged; the message key follows the flag |
| `DataCollectors.DataCollectorService.ReplaceSupervisor` | src/RX.Nyss.Web/Features/DataCollectors/DataCollectorService.cs:561-590 | a user id absent from the user table raises with nothing changed; otherwise every listed collector gets that user as supervisor and, when the user's society has a gateway, the SMS goes to their phone numbers (by e-mail-to-SMS through that gateway, or by the IoT hub to its device), else it raises after the change |
| `DataCollectors.SupervisorChangeKeepsPhones` | src/RX.Nyss.Web/Features/DataCollectors/DataCollectorService.cs:580-589 | changing supervisors leaves the listed collectors' phone numbers as they were |
| `Strings.ResolveMeaning` | src/RX.Nyss.Web/ClientApp/src/strings.js:66-69 | the stored text when keys are hidden and the key has one; otherwise the key |
| `Strings.ResolveAfterMerge` | src/RX.Nyss.Web/ClientApp/src/strings.js:66-73 | after a merge a supplied key resolves to its new text and every other key as before |
| `Strings.MergeIdempotent` | src/RX.Nyss.Web/ClientApp/src/strings.js:71-73 | merging the same entries twice equals merging them once |
| `Strings.DefaultLookups` | src/RX.Nyss.Web/ClientApp/src/strings.js:1-29 | the default table resolves "login.password" to "Password" and has no "login.signIn", which resolves to its key |
| `Strings.StringTable.constructor` | src/RX.Nyss.Web/ClientApp/src/strings.js:1-30 | the table starts with the default entries and keys hidden |
| `Strings.StringTable.Strings` | src/RX.Nyss.Web/ClientApp/src/strings.js:66-69 | the stored text when keys are hidden and the key is present; otherwise the key itself |
| `Strings.StringTable.AreStringKeysDisplayed` | src/RX.Nyss.Web/ClientApp/src/strings.js:32 | the current show-keys mode, reading only the state |
| `Strings.StringTable.UpdateStrings` | src/RX.Nyss.Web/ClientApp/src/strings.js:71-73 | every key of the argument takes its text; every other entry stays as it was; with keys hidden the new texts are looked up |
| `Strings.StringTable.ToggleStringsMode` | src/RX.Nyss.Web/ClientApp/src/strings.js:75-77 | the mode is negated and the table untouched |
| `Strings.ToggleTwice` | src/RX.Nyss.Web/ClientApp/src/strings.js:75-77 | toggling twice restores the mode, the table and every lookup |

## Left out

- `Reporting.NotDeleted` models `FilterOnlyNotDeleted` (DataCollectorService.cs:514) as "DeletedAt is null". That extension method's body is not in the repository files modelled here.
- Per-user visibility. `GetDataCollectorsForCurrentUserInProject` depends on roles and organisations held by services outside this model. The queries take the project's collectors directly: `List` keeps the project filter and leaves out the supervisor and organisation filters.
- The `FilterByArea`, `FilterBySupervisor`, `FilterBySex`, `FilterByTrainingMode`, `FilterByStatus…` and `FilterByProject` extension methods are not part of this model. Their bodies are not in the repository files modelled here.
- `Get`, `GetFormData`, `GetFiltersData`, `GetSupervisors` and `GetCountryLocationFromProject` are read-only form and lookup queries over the structure, geolocation and authorisation services. They are left out.
- Floating point is left out: coordinates, `CreatePoint`, the default coordinates and the averaged centre location. A location is an opaque key compared for equality, which is how the source groups and matches locations.
- `DateTime` arithmetic is left out. Days are whole numbers, "now" and the window are parameters, and the two-month window start of `Performance` is a parameter `fromDay`.
- The anonymisation text comes from a class outside the modelled files. It is the constant `AnonymizationText`, and only its equality with collector names matters.
- The SMS text generator is an external service. Its template for the gateway's language is a parameter of `ReplaceSupervisor`. The e-mail-to-SMS and IoT-hub services are modelled as the returned `OutgoingSms` value.
- Sex is a number. Village, district and region names in the list rows are replaced by the village id.
- String order is ordinal, by character code. The database collation used by `OrderBy` on strings is not modelled, and neither is which of two rows with equal keys comes first.
- Async execution, `SaveChangesAsync`, `TransactionScope` and the batch updates are one atomic step each. A failure inside the database and its rollback are not modelled.
- `AnonymizeDataCollectorsWithReports` anonymises the processed reports held in the collectors' raw reports. In the database it selects them through the project's health risks, which the model does not hold.
- `ReplaceSupervisor`: a user that is not a supervisor, or that belongs to several national societies, is not modelled: the source's cast and `Single()` would throw for them. The service keeps every supervisor user in its own table `users`, available or not, because the source looks the new supervisor up among all users; the table `supervisors` holds the available ones that `Create` and `Edit` check.
- `Strings.StringTable.Strings`: JavaScript's prototype keys such as `"constructor"` and entries whose value is `undefined` are not modelled. The table is a plain map from strings to strings.
- `ReplaceSupervisorSms.MessageHasNoPlaceholders` holds for templates whose every `{` opens a placeholder and for a name and phone number without `{`. Otherwise a substitution can rebuild a placeholder from the surrounding text: replacing `{{supervisorName}}` in `{{super{{supervisorName}}Name}}` by `visor` yields `{{supervisorName}}`. A name containing `{{phoneNumber}}` is also rewritten by the second substitution. The source guards against neither.

## Findings

| source | as written | input that shows it | evidently intended | confidence | as-written member | corrected member |
|---|---|---|---|---|---|---|
| src/RX.Nyss.Web/Features/DataCollectors/DataCollectorService.cs:430-431 | the per-collector rows of `MapOverview` are combined with `Union`, which is a set union: identical rows (same location and same counts) are merged before grouping | two collectors at the same location that sent no report in the window give two identical rows (location, 0, 0, 1); the union keeps one, so the location shows 1 collector not reporting instead of 2 (likewise two reporting collectors with the same counts) | every collector contributes its own row (`Concat`), so each location counts all its collectors | high, not executed | `MapOverview.MapOverviewUnionCollapsesRows` (on `MapOverview.MapOverviewAsWritten`) | `MapOverview.MapOverviewCounts` (on `MapOverview.MapOverview`) |

# City Seva: a Dafny model of the report pipeline and its screens

City Seva is a civic issue tracker. Citizens put reports on a map of Indian
cities. Administrators sign in, filter and sort the reports in a table, and
advance each report's status (`pending` → `in_progress` → `completed`, with
`rejected` reopened to `pending`).

This project models the logic behind those screens as pure Dafny functions
over immutable values, and proves what the code promises.

- `report.dfy` (`ReportModel`): the document-to-report adapter
  `mapDocToReport`. It covers every falsy default, the category key
  normalisation and the timestamp handling.
- `text.dfy` (`Text`): the JavaScript string operations the components
  rely on, restricted to ASCII. These are `\s`, `trim`, `toLowerCase`,
  `includes`, `replace(/\s+/g, '_')`, `replace('_', ' ')` and decimal
  `toString`. Each comes with an independent reading or a round trip.
- `seqs.dfy` (`Seqs`): `Array.prototype.filter` and an order-preserving
  subsequence relation.
- `dashboard.dfy` (`Dashboard`): the admin dashboard state. It covers
  filtering, the optimistic single-status update with rollback, the bulk
  update, and the counters.
- `table.dfy` (`Table`): the reports table.
  - Sorting is modelled as a stable sort under the component's comparator.
    The model proves that the output is a permutation, that it is ordered,
    and that rows with equal keys stay in input order.
  - Selection, the header checkbox and the status-advance buttons.
- `toolbar.dfy` (`Toolbar`) and `bulkbar.dfy` (`BulkBar`): the filter
  toolbar and the bulk action bar.
- `metrics.dfy` (`Metrics`): the status tallies and the `Math.round`
  completion rate, in exact integer arithmetic.
- `mapfilter.dfy`, `searchbar.dfy`, `reportform.dfy`: the home map's
  report filter, its search box with suggestions, and the citizen report
  form.
- `login.dfy` (`Login`): the admin sign-in form.
  - The e-mail pattern `\S+@\S+\.\S+` is decided by a loop-based matcher,
    which is proved equal to a declarative description of a match.
  - Validation and the outcome of a submission.
- `related.dfy` (`Related`) and `actions.dfy` (`Actions`): the report
  details page's related-reports panel, its relative dates, and its action
  panel.
- `wrappers.dfy`: `Option`.

Inputs the code takes from the environment are parameters of the model:

- the clock (`now`, in milliseconds);
- whether the backend call succeeded;
- whether a listener prop is attached;
- the chosen file's size and data URL;
- the outcome of the sign-in call and of the admin lookup.

Where the documented behaviour and the code disagree, the model follows
the code:

- The city, category and status filters compare with case-sensitive
  equality.
- Any stored status string is kept, lower-cased. It is not checked against
  the four known statuses.
- The bulk status update changes local state only. No backend write is
  made.

## Model

| member | source | states |
|---|---|---|
| ReportModel.MapDocToReport | src/lib/data.js:8-24 | The report keeps the document id, and exposes the document data as raw data, which is an empty record when the document has none |
| ReportModel.AdapterTitleAndDescription | src/lib/data.js:12-13 | A present non-empty title or description is kept verbatim. A missing or empty one becomes "Untitled report" or "", so a title is never empty |
| ReportModel.AdapterCategory | src/lib/data.js:14 | The category key has no whitespace and no upper-case letter. It is a fixed point of its own normalisation, and is "" when missing |
| ReportModel.CollapseKeepsNoUpper | src/lib/data.js:14 | Collapsing whitespace runs to `_` introduces no upper-case letter |
| ReportModel.NormalizeCategoryIdempotent | src/lib/data.js:14 | Lower-casing and collapsing an already normalised category changes nothing |
| ReportModel.StreetLightsExample | src/lib/data.js:14 | "Street Lights" becomes "street_lights" |
| ReportModel.AdapterCity | src/lib/data.js:15 | The city is only lower-cased: same length, each character lower-cased in place, whitespace kept |
| ReportModel.AdapterCoordinates | src/lib/data.js:16 | `??` defaults: only a missing coordinate becomes 0, and a stored value, 0 included, is kept |
| ReportModel.AdapterStatus | src/lib/data.js:18 | A missing or empty status becomes pending. Any other status is lower-cased with no vocabulary check, so the result has no upper-case letter |
| ReportModel.UnknownStatusKept | src/lib/data.js:18 | A stored status "Bogus" comes out as "bogus", not as a known status |
| ReportModel.AdapterTimestamps | src/lib/data.js:19-20 | A timestamp becomes null exactly when it is missing or 0 (falsy). Otherwise it is kept |
| ReportModel.AdapterBareDocument | src/lib/data.js:9-23 | A document without data yields the fully defaulted report |
| Text.ContainsIffOccurs | src/pages/admin-dashboard/index.jsx:44-46 | `includes` holds exactly when the term equals some window of the text |
| Text.TrimSlice | src/pages/home-map-view/components/ReportIssueModal.jsx:84-90 | `trim` keeps a contiguous slice, removing only a whitespace prefix and a whitespace suffix |
| Text.TrimEnds | src/pages/home-map-view/components/SearchBar.jsx:67-68 | What `trim` keeps neither starts nor ends with whitespace |
| Text.TrimEmptyIffAllSpace | src/pages/home-map-view/components/ReportIssueModal.jsx:84-90 | `trim` yields "" exactly for an all-whitespace string: the "required" checks reject exactly the blank fields |
| Text.TrimIdempotent | src/pages/home-map-view/components/SearchBar.jsx:67-68 | Trimming twice equals trimming once |
| Text.CollapseRun | src/lib/data.js:14 | One maximal whitespace run between two non-space boundaries becomes exactly one `_` |
| Text.CollapseNoSpace | src/lib/data.js:14 | A string without whitespace is unchanged by the collapse |
| Text.CollapseIdempotent | src/lib/data.js:14 | Collapsing twice equals collapsing once |
| Text.LowerNoUpper | src/lib/data.js:14-15 | `toLowerCase` leaves a string with no upper-case letter unchanged |
| Text.IndexOf | src/pages/admin-dashboard/index.jsx:78 | The position of the first occurrence, or the length when the character does not occur |
| Text.ReplaceFirst | src/pages/admin-dashboard/index.jsx:78 | `replace('_', ' ')` changes only the first `_`, keeps the length, and changes nothing when there is no `_` |
| Text.NatToStringRoundTrip | src/pages/home-map-view/components/ReportIssueModal.jsx:119 | Reading back the decimal rendering of n gives n |
| Dashboard.Loaded | src/pages/admin-dashboard/index.jsx:28-30 | After loading, both the full and the visible list are the fetched rows |
| Dashboard.ApplyFiltersIsMatches | src/pages/admin-dashboard/index.jsx:37-63 | The four successive guarded filters equal one filter of the full list by the conjunction of the four clauses |
| Dashboard.ApplyFiltersSpec | src/pages/admin-dashboard/index.jsx:37-65 | The filtered list is an order-preserving subsequence of the full list and holds exactly the matching reports |
| Dashboard.ApplyFiltersUnset | src/pages/admin-dashboard/index.jsx:41-63 | With an empty search and every select empty or "all", the full list comes back unchanged |
| Dashboard.CityFilterIsCaseSensitive | src/pages/admin-dashboard/index.jsx:51-53 | The city criterion "Mumbai" does not match a report whose city is "mumbai" |
| Dashboard.HandleFilterChange | src/pages/admin-dashboard/index.jsx:37-67 | A filter change keeps the full list, makes the visible list exactly the matching reports in order, and clears the selection |
| Dashboard.MarkTargets | src/pages/admin-dashboard/index.jsx:89-93 | The map keeps the length. It restatuses exactly the entries whose id is targeted and leaves the others untouched |
| Dashboard.BeginStatusUpdate | src/pages/admin-dashboard/index.jsx:69-74 | It snapshots both lists. In both it changes only status and timestamp, and only on entries with the target id |
| Dashboard.HandleStatusUpdate | src/pages/admin-dashboard/index.jsx:69-86 | The selection is kept. The success toast shows exactly when the backend call succeeds. On failure both lists are as before. On success the lengths are kept and every entry with the target id has the new status and timestamp |
| Dashboard.SettleStatusUpdate | src/pages/admin-dashboard/index.jsx:76-85 | On success the optimistic lists stay and the success toast shows. On failure both snapshots are restored and the failure toast shows |
| Dashboard.StatusUpdateRollback | src/pages/admin-dashboard/index.jsx:69-85 | A failed update leaves the state exactly as before, apart from the failure toast |
| Dashboard.StatusUpdateCommit | src/pages/admin-dashboard/index.jsx:69-78 | A confirmed update changes, in place, exactly the entries with the target id, and only their status and timestamp |
| Dashboard.HandleBulkStatusUpdate | src/pages/admin-dashboard/index.jsx:88-102 | It restatuses exactly the selected reports. The visible list becomes the updated reports whose id was visible, in order. The selection is cleared and the count toast shows |
| Dashboard.ProjectByIds | src/pages/admin-dashboard/index.jsx:96-98 | With distinct ids, filtering by membership in a subsequence of the ids gives back exactly that subsequence |
| Dashboard.BulkKeepsVisibleRows | src/pages/admin-dashboard/index.jsx:96-98 | With distinct ids, the bulk update shows exactly the rows that were visible, in the same order |
| Dashboard.MarkTargetsSubseq | src/pages/admin-dashboard/index.jsx:73-74 | Restatusing both lists alike keeps the visible list a subsequence of the full list |
| Dashboard.TransitionsKeepConsistent | src/pages/admin-dashboard/index.jsx:28-102 | Load, filter change, single update (either outcome) and bulk update all keep the visible list a subsequence of the full list |
| Dashboard.DashboardCounts | src/pages/admin-dashboard/index.jsx:113-116 | The total is the list length. Each counter is the length of the list filtered by its status, and the three counters sum to at most the total |
| Metrics.TallyPartition | src/pages/home-map-view/components/MapStats.jsx:7-10 | Pending, in-progress and completed counts plus the uncounted reports add up to the total |
| Metrics.RoundedPercent | src/pages/admin-dashboard/components/MetricsCards.jsx:44 | The rate is 0 for no reports. Otherwise it lies within half a point of 100·part/total, ties rounding up, and stays within 0..100 |
| Metrics.RoundedPercentUnique | src/pages/admin-dashboard/components/MetricsCards.jsx:44 | The half-up rounding condition determines the rate uniquely |
| Metrics.RoundedPercentEnds | src/pages/admin-dashboard/components/MetricsCards.jsx:44 | All completed gives 100 and none completed gives 0 |
| Metrics.RoundedPercentExamples | src/pages/admin-dashboard/components/MetricsCards.jsx:44 | 2/4 gives 50, 1/8 gives 13, 1/3 gives 33 and 2/3 gives 67 |
| Metrics.RoundedPercentMonotone | src/pages/admin-dashboard/components/MetricsCards.jsx:44 | More completed reports never lower the rate |
| Metrics.MetricsCards | src/pages/admin-dashboard/components/MetricsCards.jsx:44-73 | The card's label rate and bar width agree. The rate is the rounded completion percentage, within 0..100 |
| Metrics.MapStats | src/pages/home-map-view/components/MapStats.jsx:4-77 | Nothing renders when hidden. Otherwise it shows the tallies and the rounded resolution rate, within 0..100 |
| Table.LexIsStrictTotalOrder | src/pages/admin-dashboard/components/ReportsTable.jsx:31-36 | String `<` is irreflexive, total on distinct strings and transitive |
| Table.HandleSort | src/pages/admin-dashboard/components/ReportsTable.jsx:13-19 | A click sets the key. The direction becomes descending exactly when that key was already ascending |
| Table.SortClicksAlternate | src/pages/admin-dashboard/components/ReportsTable.jsx:13-19 | Repeated clicks on one column alternate the direction |
| Table.CompareConsistent | src/pages/admin-dashboard/components/ReportsTable.jsx:24-38 | The comparator is antisymmetric, is 0 exactly on equal keys, and is transitive |
| Table.SortRowsSorted | src/pages/admin-dashboard/components/ReportsTable.jsx:21-41 | The sorted rows are ordered by the comparator |
| Table.SortRowsStable | src/pages/admin-dashboard/components/ReportsTable.jsx:21-41 | Rows with equal keys keep their input order |
| Table.SortedReports | src/pages/admin-dashboard/components/ReportsTable.jsx:21-41 | The sorted copy is a permutation, ordered per key and direction, and stable |
| Table.HandleSelectAll | src/pages/admin-dashboard/components/ReportsTable.jsx:43-49 | Checking selects the id of every entry of the `reports` input, in that input's order, not the sorted display order. Unchecking selects nothing |
| Table.HandleSelectReport | src/pages/admin-dashboard/components/ReportsTable.jsx:51-57 | Checking appends the id. Unchecking removes every occurrence of it and keeps the other ids in order |
| Table.DeselectKeepsOthers | src/pages/admin-dashboard/components/ReportsTable.jsx:55 | Unchecking keeps every other id exactly as often as before |
| Table.HeaderCheckboxStates | src/pages/admin-dashboard/components/ReportsTable.jsx:109-110 | The header is never both checked and indeterminate, and is checked only over a non-empty table |
| Table.NextStatusConverges | src/pages/admin-dashboard/components/ReportsTable.jsx:89-97 | Completed is the only fixed point of the status advance, and three advances from any status reach it |
| Table.AdvanceGuardMeansProgress | src/pages/admin-dashboard/components/ReportsTable.jsx:238-242 | The advance button shows exactly when advancing changes the status, and exactly when its label is not "Completed" |
| Toolbar.HandleChange | src/pages/admin-dashboard/components/FilterToolbar.jsx:48-73 | A change sets its own field, keeps the other three, and emits the whole new record exactly when a listener is attached |
| Toolbar.ClearAll | src/pages/admin-dashboard/components/FilterToolbar.jsx:75-81 | Clearing resets all four fields and emits the reset record when a listener is attached |
| Toolbar.ActiveIffNotInitial | src/pages/admin-dashboard/components/FilterToolbar.jsx:75-83 | Filters are active exactly when the toolbar differs from its initial state, so never right after a clear |
| Toolbar.InactiveShowsEverything | src/pages/admin-dashboard/components/FilterToolbar.jsx:75-83 | With no active filter, and after clearing, the dashboard shows the full list |
| Toolbar.ChangesCommute | src/pages/admin-dashboard/components/FilterToolbar.jsx:48-67 | Only the last change to a field matters, and changes to different fields commute |
| BulkBar.Apply | src/pages/admin-dashboard/components/BulkActionsBar.jsx:18-22 | The confirmation opens only when an action is chosen |
| BulkBar.Confirm | src/pages/admin-dashboard/components/BulkActionsBar.jsx:24-30 | With a handler and an action, the action is emitted and the bar resets. Otherwise nothing changes |
| BulkBar.Cancel | src/pages/admin-dashboard/components/BulkActionsBar.jsx:32-34 | Cancelling closes the dialog and keeps the chosen action |
| BulkBar.TransitionsKeepReady | src/pages/admin-dashboard/components/BulkActionsBar.jsx:10-34 | While the dialog is open, one of the four statuses is chosen |
| BulkBar.ConfirmFiresOnce | src/pages/admin-dashboard/components/BulkActionsBar.jsx:24-30 | After a confirm that emits, a second confirm emits nothing |
| BulkBar.ApplyCancel | src/pages/admin-dashboard/components/BulkActionsBar.jsx:18-34 | Apply followed by cancel only closes the dialog |
| BulkBar.ActionOptionsAreStatuses | src/pages/admin-dashboard/components/BulkActionsBar.jsx:10-16 | The select offers the placeholder and exactly the four statuses |
| MapFilter.MapReports | src/pages/home-map-view/components/MapContainer.jsx:76-83 | Every report gets a marker for an empty query. Otherwise exactly the reports whose title, description, city or category contains the query, case-insensitively, in order |
| MapFilter.MapHitIgnoresId | src/pages/home-map-view/components/MapContainer.jsx:79-82 | The map search does not look at the id |
| MapFilter.MapReportsIgnoreCase | src/pages/home-map-view/components/MapContainer.jsx:78 | Lower-casing the query selects the same reports |
| MapFilter.TitleMatchShows | src/pages/home-map-view/components/MapContainer.jsx:79 | A lower-case title containing the lower-cased query keeps its marker |
| SearchBar.SuggestFrom | src/pages/home-map-view/components/SearchBar.jsx:23-33 | It shows nothing while blurred or for a blank query. Otherwise it shows a prefix, at most 5 long, of the matching texts in order |
| SearchBar.Settle | src/pages/home-map-view/components/SearchBar.jsx:23-33 | The effect makes the list agree with the query and the focus |
| SearchBar.InputChange | src/pages/home-map-view/components/SearchBar.jsx:35-41 | The raw value is stored, and forwarded when `onSearch` is given |
| SearchBar.Focus | src/pages/home-map-view/components/SearchBar.jsx:109 | Focusing keeps the query and recomputes the list |
| SearchBar.Blur | src/pages/home-map-view/components/SearchBar.jsx:110-112 | After the blur delay the list is empty |
| SearchBar.SuggestionClick | src/pages/home-map-view/components/SearchBar.jsx:43-50 | The text becomes the query, the list closes, focus is lost, and the text is searched |
| SearchBar.Clear | src/pages/home-map-view/components/SearchBar.jsx:52-61 | The query and list are emptied, `onClear` fires when given, and "" is searched when `onSearch` is given |
| SearchBar.Submit | src/pages/home-map-view/components/SearchBar.jsx:63-70 | It searches for the trimmed query exactly when the query is not blank. The list closes and focus is lost |
| SearchBar.SubmitTwice | src/pages/home-map-view/components/SearchBar.jsx:63-70 | Submitting the submitted text again searches for the same text |
| SearchBar.HandlersSettle | src/pages/home-map-view/components/SearchBar.jsx:23-70 | Every handler leaves the suggestion list in agreement with the query and focus |
| SearchBar.BlankQuerySuggestsNothing | src/pages/home-map-view/components/SearchBar.jsx:24 | A whitespace-only query never produces suggestions |
| ReportForm.InputChange | src/pages/home-map-view/components/ReportIssueModal.jsx:44-57 | It sets one text field and keeps the rest, or, for the photo (the remove button's `null`), removes the photo. That field's error is blanked, not removed, and other errors are kept |
| ReportForm.RemovePhotoClearsError | src/pages/home-map-view/components/ReportIssueModal.jsx:283 | Removing the photo only drops the photo and blanks a shown photo error. The text fields and their validation are unchanged |
| ReportForm.FileChange | src/pages/home-map-view/components/ReportIssueModal.jsx:59-79 | A file over 5 MB only records the size error. A smaller one sets the photo. No file changes nothing |
| ReportForm.Validate | src/pages/home-map-view/components/ReportIssueModal.jsx:81-102 | There is an error for title or description exactly when it is blank, and for category or city exactly when it is empty, each with its message |
| ReportForm.ValidIff | src/pages/home-map-view/components/ReportIssueModal.jsx:81-102 | The form is valid exactly when all four checks pass |
| ReportForm.InitialFormInvalid | src/pages/home-map-view/components/ReportIssueModal.jsx:8-15 | The fresh form fails on exactly the four text fields |
| ReportForm.EditFixesField | src/pages/home-map-view/components/ReportIssueModal.jsx:44-102 | Typing a non-blank value clears that field's validation error and leaves the other fields' outcome alone |
| ReportForm.PhotoUrl | src/pages/home-map-view/components/ReportIssueModal.jsx:122 | A chosen photo is used. Otherwise the placeholder URL carries the clock |
| ReportForm.Submit | src/pages/home-map-view/components/ReportIssueModal.jsx:104-145 | An invalid form only shows its errors. A valid one is handed over with status pending. Its id reads back to the first clock read, its creation time is the second, and a placeholder photo URL carries the third. The form then resets and closes, unless `onSubmit` throws, in which case it stays filled in and open |
| ReportForm.SubmissionWellFormed | src/pages/home-map-view/components/ReportIssueModal.jsx:104-127 | A handed-over report has a photo URL, a non-blank title and description, and a category and city |
| ReportForm.OversizedPhotoRejected | src/pages/home-map-view/components/ReportIssueModal.jsx:62-68 | An oversized file never replaces the photo and always records the size error |
| Login.HasDotAfter | src/pages/admin-login/components/LoginForm.jsx:34 | The scan finds a completing `.` after an `@` exactly when one exists |
| Login.MatchesEmailPattern | src/pages/admin-login/components/LoginForm.jsx:34 | The matcher accepts exactly the strings holding a match of `\S+@\S+\.\S+` |
| Login.EmailShapeNeeds | src/pages/admin-login/components/LoginForm.jsx:34 | An accepted e-mail has at least 5 characters and an `@` before a `.` |
| Login.EmailShapeUnanchored | src/pages/admin-login/components/LoginForm.jsx:34 | Text around an accepted address is still accepted |
| Login.EmailShapeExample | src/pages/admin-login/components/LoginForm.jsx:34 | "a@b.in" is accepted |
| Login.ValidateLogin | src/pages/admin-login/components/LoginForm.jsx:31-39 | There is one message per failing field, with the format and length checks only on non-empty values. No errors exactly when the e-mail matches and the password has at least 6 characters |
| Login.InputChange | src/pages/admin-login/components/LoginForm.jsx:21-29 | It sets the edited field, blanks its error and clears the sign-in error |
| Login.FailureMessage | src/pages/admin-login/components/LoginForm.jsx:67 | With neither code nor message, the text is "auth/error: Login failed" |
| Login.Submit | src/pages/admin-login/components/LoginForm.jsx:41-72 | It calls sign-in (e-mail trimmed) exactly when valid. It navigates and stores the session exactly for an admin, and sets the matching sign-in error otherwise |
| Login.PaddedEmailAccepted | src/pages/admin-login/components/LoginForm.jsx:34-49 | A blank-padded address passes validation and is sent without the padding |
| Related.ExcludeCurrent | src/pages/report-details/components/RelatedReports.jsx:11-48 | It keeps, in order, exactly the entries whose id differs from the current one |
| Related.ExcludeDropsOnlyThatId | src/pages/report-details/components/RelatedReports.jsx:48 | The entries dropped are exactly those carrying the current id |
| Related.MockPanelAlwaysRenders | src/pages/report-details/components/RelatedReports.jsx:11-107 | At least two built-in entries always remain, so the panel always renders |
| Related.FormatDate | src/pages/report-details/components/RelatedReports.jsx:84-94 | "Today" below one day, "Yesterday" below two, "n days ago" below seven, otherwise the absolute date |
| Related.FormatDateSymmetric | src/pages/report-details/components/RelatedReports.jsx:87-92 | Past and future dates at the same distance get the same relative label |
| Actions.ContactDepartment | src/pages/report-details/components/ReportActions.jsx:42-51 | It dials when there is a phone, otherwise mails (subject naming the report) when there is an e-mail, otherwise shows the notice |
| Actions.ContactNeedsInfo | src/pages/report-details/components/ReportActions.jsx:42-54 | The notice shows exactly when the report has no usable contact details |
| Actions.StatusMessage | src/pages/report-details/components/ReportActions.jsx:143-157 | A status note is shown exactly for completed, in-progress and pending reports: the resolved, in-progress and pending-review note respectively |
| Actions.StatusMessageDistinguishes | src/pages/report-details/components/ReportActions.jsx:143-157 | The three notes differ: two statuses showing the same note are the same status |
| Actions.CompletedReportPanel | src/pages/report-details/components/ReportActions.jsx:53-157 | A completed report shows the resolved note and no "report similar". A rejected one keeps the action and shows no note |

## Left out

- Backend calls are not modelled: Firestore reads and writes, Firebase sign-in and the admin lookup. Their outcomes are inputs. `fetchReports`' ordering and 100-row limit, `fetchReportById` and `updateReportStatus` belong to the backend.
- Asynchrony is not modelled. Each handler is a single step, and the single-status update is split into its optimistic and settling halves. The toast's auto-dismiss timer, the blur's 200 ms delay and the form's simulated 2 s submit delay are left out.
- Browser APIs are not modelled: `localStorage` gates and session flags, `FileReader` (its result is an input), geolocation (`handleGetLocation`), `navigator.share`, the clipboard, `window.open` (modelled as the URL it would open) and navigation.
- Timestamps are integer milliseconds. Stored timestamps and ISO strings are not parsed. A missing timestamp sorts as the epoch, as `new Date(null)` does. `formatDate`'s absolute label and the table's date and time columns are locale formatting and are not modelled.
- Text is ASCII only. `\s`, `trim` and `toLowerCase` ignore Unicode whitespace and letters outside ASCII. String `<` compares code points, not UTF-16 code units.
- `getNextStatus` and `getStatusActionLabel` look keys up in object literals. A status such as "constructor" would hit an inherited property; the model treats every status outside the table as unknown.
- Dashboard.HandleStatusUpdate: both `new Date()` calls in the optimistic update are taken to return the same instant.
- Metrics.MetricsCards: the rate is computed exactly in integers. The floating-point rounding of `(completed / total) * 100` near a .5 boundary is not modelled.
- Metrics.MapStats: the progress bar's unrounded floating-point width is not modelled.
- The presentational parts of every component are not modelled: icons, colours, category icon tables and layout.
- The contact details that `ReportActions` reads are not produced by the adapter. The panel's input is modelled as its own record.
- ReportForm.Submit: the clock reads are independent inputs, but `created_at` is kept as milliseconds, not as its ISO string. Only an exception thrown by `onSubmit` is modelled on the `catch` path; it is taken to be thrown after the report was handed over.
- Stored document fields are assumed to be strings (or missing). The adapter's `.toString()` on a non-string category, city or status, and a non-string title passed through by `||`, are not modelled.
- Login.FailureMessage: states only the all-defaults case. The other cases are the template itself.

# Sales recovery dashboard — a verified model of its front-end logic

The sales recovery dashboard is a single-page React application. A user
uploads a CSV of sales and chooses an inactivity threshold in days. The
backend ranks the clients who stopped buying, and the page shows the result
in four places:

- a feedback banner;
- a top-10 bar chart;
- a sortable, paginated client table;
- a ten-bar purchase timeline in each table row.

This project models, in Dafny, the logic behind those views:

- **Upload workflow (`App`, app.dfy).** The page state is a class with one
  field per piece of React state. There is one method per handler:
  - choosing a file;
  - typing a threshold;
  - submitting, split into the pre-flight checks and the handling of the
    request's outcome;
  - removing the file;
  - dismissing the banner.

  Two predicates decide whether the Analyze button is disabled and whether
  the dashboard is shown. The threshold checks and the `.csv` name check
  are pure functions.
- **Feedback banner (`StatusFeedback`, status_feedback.dfy).** It extracts
  the detail of an error and translates it by substring rules tried in a
  fixed order. It also chooses between error, success and no banner.
- **Client table.** Each part has its own module:
  - `TableSort` (table_sort.dfy): the column comparator; the header-click
    toggle; and the sort of a copy of the client list, modelled as a stable
    in-place insertion sort over an array. Stability is what
    `Array.prototype.sort` guarantees.
  - `TablePaging` (table_paging.dfy): the page count, the rows of one page,
    and the page-button row with its ellipses.
  - `TableTimeline` (table_timeline.dfy): the ten-bar timeline of a row.
  - `TableView` (table_view.dfy): the table's own state (page, rows per
    page, sort) as a class with its handlers, and the rows it derives.
    `TableView.TableShown` states when the table renders at all: while
    loading, or with at least one client.
- **Top-10 chart (`RecoveryFocusChart`, recovery_focus_chart.dfy).** The
  first ten clients, the scale's maximum floored at 1, each bar's height as a
  percentage, the highlighted first bar, and the bars hidden on small
  screens.

`Records` (records.dfy) holds the backend response as the page consumes it.
`JsBuiltins` (js_builtins.dfy) holds the JavaScript built-ins the code relies
on:

- `slice`, with negative and clamped bounds;
- `includes`;
- `Math.max` and `Math.min`;
- `Option`, for absent values.

Two behaviours of the code are easy to miss, and the model keeps both:

- A failed analysis keeps the results of an earlier success, and a new
  upload does not clear them before the request (src/App.jsx:84-117).
- The timeline removes history entries equal to the last purchase date *as
  displayed* (formatted for pt-BR), not the date as received
  (src/components/RecoveryTable.jsx:145-151). See "## Findings".

## Model

| member | source | states |
|---|---|---|
| JsBuiltins.SliceBound | src/components/RecoveryTable.jsx:171 | A `slice` bound counts back from the end when negative and is clamped to [0, length]. |
| JsBuiltins.Slice | src/components/RecoveryTable.jsx:27 | `slice(start, end)` has `max(0, end' - start')` elements, taken in order from the resolved start. For non-negative bounds it is the clamped sub-sequence. |
| JsBuiltins.IncludesTransitive | src/components/StatusFeedback.jsx:15-21 | An occurrence of an occurrence is an occurrence, for `includes`. |
| JsBuiltins.IncludesAt | src/components/StatusFeedback.jsx:15-21 | A needle found at some offset makes `includes` true. |
| TableSort.StrLessIrreflexive | src/components/RecoveryTable.jsx:17-18 | JavaScript string `<` never holds between a string and itself. |
| TableSort.StrLessTrichotomy | src/components/RecoveryTable.jsx:17-18 | For two strings, exactly one holds: they are equal, the first is less, or the second is less. |
| TableSort.StrLessTransitive | src/components/RecoveryTable.jsx:17-18 | String `<` is transitive. |
| TableSort.KeyTrichotomy | src/components/RecoveryTable.jsx:17-19 | On any sortable column, exactly one holds: the first client's value is less, greater, or equal. |
| TableSort.KeyLessTransitive | src/components/RecoveryTable.jsx:17-18 | "Less on a column" is transitive. |
| TableSort.Compare | src/components/RecoveryTable.jsx:16-20 | The comparator returns -1, 0 or 1. It is non-positive exactly when `a` may stand before `b` in the configured direction, and zero exactly when the keys are equal. |
| TableSort.CompareAntisymmetric | src/components/RecoveryTable.jsx:16-20 | Swapping the arguments negates the comparator's result, so the comparator is consistent. |
| TableSort.PrecedesTotal | src/components/RecoveryTable.jsx:16-20 | Of any two clients, one may stand before the other. Both may exactly when their keys tie. |
| TableSort.PrecedesTransitive | src/components/RecoveryTable.jsx:16-20 | The comparator's order is transitive. If the outer pair ties, so do both inner pairs. |
| TableSort.RankedTransitive | src/components/RecoveryTable.jsx:16-20 | The stable order (key order, then input position among ties) is transitive. |
| TableSort.SwapKeepsRanked | src/components/RecoveryTable.jsx:16-20 | Swapping an inserted row with an earlier row that sorts after it keeps the rest of the prefix in stable order. |
| TableSort.SwapKeepsTracks | src/components/RecoveryTable.jsx:14 | Swapping two neighbouring rows keeps each row equal to the input row recorded as its origin. |
| TableSort.SwapKeepsOrigins | src/components/RecoveryTable.jsx:14 | The origin bookkeeping survives a swap: rows past `i` are untouched, and the inserted row is the only one from position `i`. |
| TableSort.InsertedRowSettles | src/components/RecoveryTable.jsx:16-20 | Once the inserted row no longer sorts after its predecessor, the whole prefix is in stable order. |
| TableSort.SwapWithPrevious | src/components/RecoveryTable.jsx:16 | Exchanges two neighbouring array cells and nothing else. The contents stay a permutation. |
| TableSort.InsertRow | src/components/RecoveryTable.jsx:16-20 | One insertion step: the first `i + 1` rows become a stable sort of their input rows, and the array stays a permutation. |
| TableSort.RankedRowsAreStable | src/components/RecoveryTable.jsx:13-23 | Tracked rows in stable order with distinct origins are a stable sort of the input. |
| TableSort.SortClients | src/components/RecoveryTable.jsx:13-23 | The sorted copy is a permutation of the clients, ordered by the configured column and direction. Clients whose keys tie keep their input order. |
| TableSort.SortedAdjacentRows | src/components/RecoveryTable.jsx:16-20 | In the sorted table the key never increases from row to row under descending order, and never decreases under ascending order. |
| TableSort.RequestSort | src/components/RecoveryTable.jsx:29-33 | A header click sorts by the clicked column. The direction is ascending exactly when that column was already sorted descending. |
| TableSort.RequestSortToggles | src/components/RecoveryTable.jsx:29-33 | Two clicks on the active column restore its direction, and one click flips it. A new column always starts descending. |
| TablePaging.TotalPages | src/components/RecoveryTable.jsx:26 | The page count is the ceiling of rows over rows-per-page. The pages cover every row, the last page is not empty, and there are no pages exactly when there are no rows. |
| TablePaging.PageRows | src/components/RecoveryTable.jsx:27 | Page `p` shows at most rows-per-page rows: the sorted rows from `(p-1)*n` up to `p*n`, cut at the end. |
| TablePaging.PageBeyondLastIsEmpty | src/components/RecoveryTable.jsx:26-27 | A page past the last page shows no rows. |
| TablePaging.PageSpan | src/components/RecoveryTable.jsx:27 | Page `k` is the stretch of sorted rows that starts at `(k-1)*n` and is `n` rows long, cut at the end. |
| TablePaging.PrefixThenStretch | src/components/RecoveryTable.jsx:27 | A prefix followed by the stretch right after it is the longer prefix. |
| TablePaging.PagesUpToIsPrefix | src/components/RecoveryTable.jsx:26-27 | Pages 1 to `k`, laid end to end, are the first `k*n` rows. |
| TablePaging.AllPagesReassemble | src/components/RecoveryTable.jsx:26-27 | Reading pages 1 to the page count in order gives back every sorted row exactly once, in order. |
| TablePaging.PageRun | src/components/RecoveryTable.jsx:214 | The run of page buttons from `lo` to `hi` holds exactly those pages, in order. |
| TablePaging.AssembledEntries | src/components/RecoveryTable.jsx:216-224 | Gives, for each position of the pager (page 1, `...`, window, `...`, last page), the entry found there. |
| TablePaging.EntriesIncrease | src/components/RecoveryTable.jsx:216-224 | In such a pager, page numbers strictly increase. |
| TablePaging.EntriesConsecutive | src/components/RecoveryTable.jsx:216-224 | Neighbouring page buttons are consecutive pages. |
| TablePaging.EntriesMarkGaps | src/components/RecoveryTable.jsx:216-224 | A `...` stands between two page buttons and only where page numbers are skipped. |
| TablePaging.EntriesAbbreviate | src/components/RecoveryTable.jsx:216-224 | Such a pager starts at page 1, ends at the last page, increases, and marks exactly its gaps. |
| TablePaging.AssembledAbbreviates | src/components/RecoveryTable.jsx:216-224 | A pager whose `...` marks follow the window's gaps abbreviates the pages. |
| TablePaging.WindowAbbreviates | src/components/RecoveryTable.jsx:215-225 | With more than seven pages, the window and the ellipsis conditions give a correct abbreviation. It has at most seven entries and shows the current page and both its neighbours. |
| TablePaging.PushRun | src/components/RecoveryTable.jsx:214 | The push loop appends the run of pages `lo..hi` to what was there. |
| TablePaging.PageNumbers | src/components/RecoveryTable.jsx:211-227 | With at most seven pages, every page gets a button, in order. Otherwise the buttons abbreviate the pages in at most seven entries, including the current page and its neighbours. |
| TableTimeline.WithoutDate | src/components/RecoveryTable.jsx:151 | The filter drops every entry equal to the date and keeps the count of every other date. It never grows. |
| TableTimeline.WithoutDateDistributes | src/components/RecoveryTable.jsx:151 | Filtering keeps order: filtering a concatenation concatenates the filtered parts. |
| TableTimeline.EmptyCount | src/components/RecoveryTable.jsx:153-155 | With a history of at most nine dates, the padding and the dates together make exactly nine bars. A longer history gets no padding. |
| TableTimeline.LastTenBars | src/components/RecoveryTable.jsx:153-171 | Cutting the laid-out bars to the last ten gives exactly ten bars. The tenth and only last-purchase bar carries the last date, and empty bars come first. The other nine are the right number of empty bars followed by the most recent history dates, in order. |
| TableTimeline.AbsentDateNotShown | src/components/RecoveryTable.jsx:163-171 | A date missing from the filtered history is carried by none of the first nine bars. |
| TableTimeline.Timeline | src/components/RecoveryTable.jsx:143-172 | The timeline of a row, as written, has the ten-bar shape for the history filtered against the displayed date. No bar but the last carries the displayed date. |
| TableTimeline.LastPurchaseDrawnTwice | src/components/RecoveryTable.jsx:145-151 | With a history holding only the last purchase date as received, and a displayed form that differs, the ninth bar repeats the last purchase that the tenth bar shows. |
| TableTimeline.TimelineWithoutRepeat | src/components/RecoveryTable.jsx:143-172 | Filtering against the date as received gives the ten-bar shape, and no earlier bar repeats the last purchase, whatever its display form. |
| TableTimeline.LayOutBars | src/components/RecoveryTable.jsx:155-168 | The padding loop, the history loop and the final push lay out the empty bars, one bar per history date, and the last-purchase bar. |
| TableView.PreviousPageOf | src/components/RecoveryTable.jsx:250 | "Previous" goes one page back, never below page 1. |
| TableView.NextPageOf | src/components/RecoveryTable.jsx:258 | "Next" goes one page forward, never past the last page. |
| TableView.PreviousDisabled | src/components/RecoveryTable.jsx:250 | Defined as "on page 1" (no ensures). `EnabledStepsMove` uses it: while the button is enabled, it goes back exactly one page. |
| TableView.NextDisabled | src/components/RecoveryTable.jsx:258 | Defined as "on the last page" (no ensures). `EnabledStepsMove` uses it: while the button is enabled, it goes forward exactly one page. |
| TableView.TableShown | src/components/RecoveryTable.jsx:35 | Defined as "loading, or at least one client" (no ensures). `FirstPageShowsTable` ties it to the rows shown. |
| TableView.FirstPageShowsTable | src/components/RecoveryTable.jsx:26-35 | Outside loading, the table is drawn exactly when its first page has rows. That page holds `min(rowsPerPage, clients)` rows. |
| TableView.StepsStayInRange | src/components/RecoveryTable.jsx:250-258 | From a page in range, previous and next stay in range, and they surround the current page. |
| TableView.EnabledStepsMove | src/components/RecoveryTable.jsx:250-258 | An enabled previous or next button moves exactly one page. |
| TableView.RecoveryTableState.constructor | src/components/RecoveryTable.jsx:8-10 | The table starts on page 1 with ten rows per page, sorted by total revenue, highest first. |
| TableView.RecoveryTableState.RequestSortOn | src/components/RecoveryTable.jsx:58-62 | A header click applies `requestSort` and keeps the page and the rows per page. |
| TableView.RecoveryTableState.PreviousPage | src/components/RecoveryTable.jsx:250 | Moves to the previous page and changes nothing else. |
| TableView.RecoveryTableState.NextPage | src/components/RecoveryTable.jsx:258 | Moves to the next page, bounded by the page count, and changes nothing else. |
| TableView.RecoveryTableState.GoToPage | src/components/RecoveryTable.jsx:252-256 | A page button selects its page and changes nothing else. |
| TableView.RecoveryTableState.ChangeRowsPerPage | src/components/RecoveryTable.jsx:240-246 | A new choice among 10, 15 and 30 sets the rows per page and returns to page 1. |
| TableView.RecoveryTableState.Derive | src/components/RecoveryTable.jsx:13-27 | The table shows a stable sort of the clients. The page count and the current page's rows match the state, with at most rows-per-page rows, and none past the last page. |
| StatusFeedback.Detail | src/components/StatusFeedback.jsx:13 | The detail is `response.data.detail` when non-empty, else the error's message when non-empty, else empty. It is empty exactly when both are missing or empty. |
| StatusFeedback.ServiceError | src/services/api_service.js:19-21 | A failed response becomes an error without a response. Its message, which is what the banner reads as the detail, is the backend's `detail` when non-empty, else the fixed analysis-error text. |
| StatusFeedback.ErrorMessage | src/components/StatusFeedback.jsx:11-25 | The first matching rule wins: "No columns to parse", then "encoding", then "column" or "not found". Otherwise the detail is shown itself, or the generic message when it is empty. The message is never empty. |
| StatusFeedback.NoColumnsWinsOverColumnRule | src/components/StatusFeedback.jsx:15-23 | Every "No columns to parse" detail also matches the "column" rule, yet it is reported as an empty or malformed file. |
| StatusFeedback.Describe | src/components/StatusFeedback.jsx:9-28 | No banner without an error or a success. An error wins and is translated. A success alone shows the fixed success text. |
| StatusFeedback.BannerIsNeverBlank | src/components/StatusFeedback.jsx:9-28 | A banner that is shown always has non-empty text. |
| StatusFeedback.EmptyUploadExample | src/components/StatusFeedback.jsx:13-16 | The pandas detail for an empty upload, thrown by the request function as an error message, is shown as the empty-file message. |
| RecoveryFocusChart.ChartData | src/components/RecoveryFocusChart.jsx:5 | The chart takes the first ten clients (fewer if there are fewer), in the order received. |
| RecoveryFocusChart.MaxRevenue | src/components/RecoveryFocusChart.jsx:6 | The scale's maximum is at least 1 and bounds every revenue shown. It is either 1 or one of those revenues. |
| RecoveryFocusChart.Percentage | src/components/RecoveryFocusChart.jsx:32 | A revenue between 0 and the maximum gets a height between 0 and 100. The height is 100 when the revenue equals the maximum, and below 100 when it is less. |
| RecoveryFocusChart.Bars | src/components/RecoveryFocusChart.jsx:31-64 | There is one bar per charted client, in order, with its name, revenue and percentage height. Only the first is highlighted, and the bars from the sixth on are hidden on small screens. |
| RecoveryFocusChart.BarsFit | src/components/RecoveryFocusChart.jsx:32-50 | With non-negative revenues, every bar's height lies in [0, 100]. |
| RecoveryFocusChart.SomeBarIsFull | src/components/RecoveryFocusChart.jsx:6-32 | If a charted client earns at least 1, some bar is full height. |
| RecoveryFocusChart.FullBarEarnsOne | src/components/RecoveryFocusChart.jsx:6-32 | A full-height bar belongs to a client earning at least 1. |
| RecoveryFocusChart.TallestBarIsFull | src/components/RecoveryFocusChart.jsx:6-32 | Some bar is full height if and only if some charted client earns at least 1. |
| App.IsEmptyThreshold | src/App.jsx:94 | `!threshold \|\| threshold === ""`: the number 0 or the empty text (no ensures). `Validate` and `TypedThresholdChecks` state its effect. |
| App.IsBelowMinimum | src/App.jsx:99 | `parseInt(threshold) < 60`, where NaN is below nothing (no ensures). `Validate` and `TypedThresholdChecks` state its effect. |
| App.Validate | src/App.jsx:89-102 | The pre-flight checks run in order: no file, then an empty threshold, then a threshold below 60. The first failure's message is returned. There is no message exactly when all three pass. |
| App.TypedThresholdChecks | src/App.jsx:94-102 | Typed text passes exactly when it is non-empty and `parseInt` reads either nothing or at least 60. The text "0" is rejected as below 60, not as empty. |
| App.RejectionsAreDistinct | src/App.jsx:89-102 | The three rejection messages differ from each other. |
| App.Lowercase | src/App.jsx:129 | `toLowerCase` keeps the length and lowers each ASCII letter. |
| App.IsCsvName | src/App.jsx:129 | `name.toLowerCase().endsWith('.csv')` (no ensures). `CsvNameByLetters` characterizes it by the name's last four characters, and `OnFileChange` uses it. |
| App.CsvNameByLetters | src/App.jsx:129 | A file name passes exactly when it ends in a dot followed by c, s and v, each in either case. |
| App.SalesRecoveryApp.AnalyzeDisabled | src/App.jsx:243 | Defined as "no file chosen, or a request running" (no ensures). The constructor, `SubmitAnalysis` and `HandleSalesFileUpload` state its value: disabled at start and while loading, enabled once the request has ended. |
| App.SalesRecoveryApp.DashboardVisible | src/App.jsx:259 | Defined as "started, or results present" (no ensures). The constructor and `HandleRemoveFile` state that it is hidden. `SubmitAnalysis` shows it. After `HandleSalesFileUpload`, a failure keeps it only when there were earlier results. |
| App.SalesRecoveryApp.Banner | src/App.jsx:146-150 | The feedback area for the page's error and success flag, through `Describe` (no ensures). The constructor, `HandleRemoveFile` and `Dismiss` state that it is hidden; `HandleSalesFileUpload` states which banner each outcome shows. |
| App.SalesRecoveryApp.SuccessShowsDashboard | src/App.jsx:109-110 | Under the page invariant, a success banner is only shown with results, and so with the dashboard. The invariant holds because success is set only right after the results are stored. |
| App.SalesRecoveryApp.constructor | src/App.jsx:19-27 | The page starts with no results, file or error; not loading, started or successful; and a threshold of 60. The dashboard and banner are hidden, and Analyze is disabled. |
| App.SalesRecoveryApp.SetThreshold | src/App.jsx:229-235 | Typing stores the text as the threshold and changes nothing else. |
| App.SalesRecoveryApp.OnFileChange | src/App.jsx:123-137 | Choosing a file clears the error and the success flag. A non-CSV name is refused with its message, and the selection is cleared. A CSV file becomes the selection. No file leaves the selection alone. |
| App.SalesRecoveryApp.SubmitAnalysis | src/App.jsx:84-108 | A rejected submission sets the first failing check's message and sends nothing. An accepted one sets loading and started, which shows the dashboard and disables Analyze, and sends the chosen file with the threshold. |
| App.SalesRecoveryApp.ReceiveOutcome | src/App.jsx:107-117 | Success stores the results and sets the success flag. Failure un-starts the analysis, stores the error and keeps the earlier results. Loading ends either way. |
| App.SalesRecoveryApp.HandleSalesFileUpload | src/App.jsx:84-118 | A rejected click only shows its message and leaves the dashboard as it was. An accepted one shows the dashboard with the new results and the success banner on success. On failure it shows the translated error and keeps the earlier results, so the dashboard stays only if there were any. Either way, Analyze is enabled again. |
| App.SalesRecoveryApp.HandleRemoveFile | src/App.jsx:69-79 | Removing the file clears the selection, results, started flag, error and success flag. The dashboard and the banner are then hidden. |
| App.SalesRecoveryApp.Dismiss | src/App.jsx:149 | Dismissing clears the error and the success flag, so the banner is hidden, and changes nothing else. |

## Left out

- The HTTP call to the analysis service (`src/services/api_service.js`) is not part of this model. Its outcome, a result or an error, is a parameter of `ReceiveOutcome` and `HandleSalesFileUpload`. Only how a failed response becomes an error (api_service.js:19-21) is modelled, by `ServiceError`. Network errors are not modelled.
- The sample-file handlers (`handleDownloadSampleFile`, `handleUseSampleFile`, App.jsx:34-64) are left out because they only fetch or download through the browser.
- The strategic header's backend polling, the KPI cards, the operational goal card, the step-by-step guide, the footer and the loading skeletons are left out because they only present data.
- React's rendering, hooks and asynchrony are left out. `HandleSalesFileUpload` assumes nothing happens while the request runs. If the file is removed during loading, the loading flag stays on and a later success shows results again; that interleaving is not modelled.
- Date parsing and `toLocaleDateString('pt-BR')` are left out. The displayed last date is a parameter of `TableTimeline.Timeline`.
- The ordering of mixed-type or missing column values, and of NaN revenues, is left out. The model gives every client all four fields with well-defined values.
- String order compares characters, while JavaScript compares UTF-16 code units. The two agree for text without surrogate pairs.
- App.Lowercase: lowers only the ASCII letters. Non-ASCII case mapping does not affect the `.csv` check.
- Numbers are mathematical reals. IEEE-754 rounding in the percentage height is not modelled.
- `parseInt` is not modelled. The number it reads from the typed text is given alongside the text (`None` for NaN). No fact about it is relied on: the empty text is rejected before the number is looked at.
- The table row's name fallback `client.Cliente \|\| client.Client` (RecoveryTable.jsx:177) is left out. The row's name is the `cliente` field. The chart has no fallback: it shows `Cliente` alone (RecoveryFocusChart.jsx:64), as `Bars` does.
- A list-valued FastAPI `detail` (validation errors) is left out. Through `new Error(list)` it would reach the banner as a string such as "[object Object],…". The model takes the detail as a string or absent.
- The table row key fallback (RecoveryTable.jsx:70) is left out because it only matters for React's reconciliation.
- The current page is not reset when the client list changes. The model keeps that behaviour, and `PageBeyondLastIsEmpty` shows that such a page is empty.

## Findings

| source | as written | input that shows it | evidently intended | confidence | as-written member | corrected member |
|---|---|---|---|---|---|---|
| src/components/RecoveryTable.jsx:145-151 | The history is filtered against the last purchase date after it is formatted for pt-BR, while the history holds dates as received. | `last_purchase_date` "2024-03-01" with `purchase_history` ["2024-03-01"], displayed as "01/03/2024": the ninth bar and the tenth bar both show the last purchase | Filter the history against `last_purchase_date` as received, so the last purchase appears only in the last bar | medium, not executed | TableTimeline.LastPurchaseDrawnTwice | TableTimeline.TimelineWithoutRepeat |

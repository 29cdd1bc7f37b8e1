# Report progress dashboard — a Dafny model of its data logic

The dashboard tracks a multi-section written report in the browser. The user
types a completion percentage for each section of a fixed, weighted catalog.
The page shows a weighted overall score and a day-by-day chart of that
score, kept in a history log. It also keeps a task list per section and
counts down to a deadline. All of it lives in `script.js`.

This project models the data behind the page. The DOM, storage and chart
calls are removed.

- `progress.dfy` (module `Progress`): the section catalog `SECTIONS`, the
  clamp the input handler applies, and `calculateOverallProgress`.
  - Weights are multiples of 0.5, so the model stores them doubled as
    integers: 1, 7, 10, 10, 1, 7, 4, total 40.
  - `Math.round(S / W)` becomes `(2S + W) / (2W)` with floor division.
    With these weights the floating-point quotient is never close enough to
    a half to round differently, so no floating point is needed.
- `history.dfy` (module `History`): the history log and the chart series.
  - The log is upserted by `saveProgressToLocalStorage`.
  - The chart series comes from `generateDateLabels` and
    `prepareProgressData`.
  - Dates are integer day numbers; day `d` starts at instant `d · 86400000` ms (UTC).
  - "Now" is a millisecond parameter. A label is in the future iff
    `d · 86400000 > now`.
- `countdown.dfy` (module `Countdown`): the floor/modulus arithmetic of
  `updateCountdown` on the millisecond difference.
- `tasks.dfy` (module `Tasks`): covers several pieces of the task list.
  - Tasks are values.
  - `String.prototype.trim`, with the ECMAScript whitespace and
    line-terminator set.
  - `Array.prototype.filter`, and the per-section counts built on it.
  - The selection by filter name, and the comparator of `renderTodos`.
  - The sort is modelled as a stable insertion sort. JavaScript's `sort` is
    stable, and for a consistent comparator every stable sort gives the same
    result as this one.
- `dashboard.dfy` (module `Dashboard`): class `AppState` holds the page's
  globals (`progressData`, `progressHistory`, `todos`, `currentFilter`).
  Its methods are the handlers that change them.
  - Startup load.
  - Section input change.
  - Save with history upsert.
  - Render.
  - Filter click.
  - Add.
  - Toggle.
  - Delete.
- `wrappers.dfy` (module `Wrappers`): `Option`, for a missing saved value and
  for the chart's `null` points.

Behaviour the model makes explicit:

- **Aliasing in `renderTodos`.** With any filter other than `"active"` or
  `"completed"`, `filteredTodos` is `todos` itself, so the sort at
  script.js:361 reorders the stored list. `renderTodos` also runs at
  startup, after an add and after a delete. So with the filter `"all"`, all
  three leave `todos` in display order (`AppState.Init`, `AppState.AddTodo`,
  `AppState.DeleteTodo`). `DisplaySortKeepsOrdered` shows that a second
  render does not reorder again. `CountsIgnoreOrder` shows that the
  reordering never changes a section's counts.
- **Fill-forward is limited to the label range.** `lastProgress` starts at 0
  and is only updated at label dates. A history entry dated before the first
  label is therefore never carried into the chart (`FillForward`,
  `FillForwardNothingRecorded`).
- **First match written, last match read.** The upsert overwrites the FIRST
  entry for today, but the chart's map keeps the LAST entry for a date. In a
  log that already holds two entries for one day, a new value for that day
  never reaches the chart (`UpsertShadowedByLaterDuplicate`). Logs the page
  writes itself never hold duplicates, because the upsert preserves
  uniqueness (`UpsertKeepsDatesUnique`), and then the recorded value is the
  one shown (`UpsertIsShown`).
- **In two places the code behaves differently from what one might expect of the page; the model follows the code.**
  - Saved data that is present but malformed is not treated as absent: the
    unguarded `JSON.parse` calls (script.js:68, 79, 91) would throw. Only a
    missing or empty saved value falls back to its default.
  - A task toggle acts on the task object the handler captured, not on an id
    lookup.

## Model

| member | source | states |
|---|---|---|
| `Progress.Clamp` | script.js:182-191 | NaN or a negative input stores 0, above 100 stores 100, a value in [0,100] is stored unchanged (and only then); the stored value is always in [0,100] |
| `Progress.CatalogWeight` | script.js:2-10 | the doubled catalog weights sum to 40 (the weights sum to 20) |
| `Progress.RoundHalfUp` | script.js:140 | the result r is the `Math.round` of num/den: r − ½ ≤ num/den < r + ½ |
| `Progress.CalculateOverallProgress` | script.js:131-141 | the loop's result equals round(Σ p·w / Σ w) over the catalog, with a missing entry counted as 0 |
| `Progress.DefaultProgress` | script.js:71-73 | the default progress map has exactly the ids of the sections it loops over as keys, each mapped to 0 |
| `Progress.OverallInRange` | script.js:131-141 | if every stored percentage is in [0,100], the overall score is in [0,100] |
| `Progress.OverallAllZero` | script.js:131-141 | every section at 0 (or missing) gives an overall score of 0 |
| `Progress.OverallAllComplete` | script.js:131-141 | every section at 100 gives an overall score of 100 |
| `Progress.OverallMonotone` | script.js:131-141 | raising any section's percentage never lowers the overall score |
| `Progress.AbstractAloneRoundsUp` | script.js:137-140 | only the abstract at 100 is 2.5 points, and it is rounded half up to 3 |
| `History.FindDate` | script.js:109 | `findIndex` returns −1 iff no entry has the date; otherwise it returns the first index with that date |
| `History.Upsert` | script.js:109-115 | if today is absent, exactly one entry (today, overall) is appended after the untouched entries; if present, the length is unchanged and only the first entry for today changes, to (today, overall) |
| `History.UpsertKeepsDatesUnique` | script.js:109-115 | a log with no duplicate dates keeps none after the upsert, and today is recorded |
| `History.UpsertTwice` | script.js:109-115 | recording twice on the same day equals recording the second value once (overwrite, never a duplicate) |
| `History.UpsertIsShown` | script.js:109-115 | with unique dates, the chart's lookup for today yields the value just recorded |
| `History.UpsertShadowedByLaterDuplicate` | script.js:109-112 | in the log [(5,10), (5,20)], recording 70 for day 5 overwrites the first entry while the chart still reads 20 |
| `History.LatestProgress` | script.js:589-592 | the date→progress map has an entry for d iff some log entry is dated d |
| `History.LastEntryWins` | script.js:589-592 | with duplicate dates, the map holds the progress of the last entry for that date in the log |
| `History.BuildProgressMap` | script.js:589-592 | the loop builds a map whose keys are exactly the logged dates, each mapped to the progress of the last entry for that date |
| `History.GenerateDateLabels` | script.js:574-585 | for start ≤ end the labels are start, start+1, …, end (length end − start + 1, strictly increasing); for start > end they are empty |
| `History.IsFuture` | script.js:604-606 | a label is in the future exactly when its UTC midnight is after "now", that is, exactly when its day number exceeds the day that contains "now" |
| `History.PrepareProgressData` | script.js:587-614 | the series has one point per label; a point is `null` iff its label is in the future, and otherwise it is the carried-forward value |
| `History.CarriedFromLastRecordedLabel` | script.js:596-601 | after n labels, the carried value is the latest progress of the last label among them that has an entry |
| `History.CarriedZeroBeforeAnyRecord` | script.js:596 | while no visited label has an entry, the carried value is the initial 0 |
| `History.FillForward` | script.js:587-614 | over the consecutive days from start, a non-future day shows the latest progress of the most recent recorded day d with start ≤ d ≤ that day |
| `History.FillForwardNothingRecorded` | script.js:587-614 | a non-future day with no recorded day between start and it shows 0 |
| `History.SeriesExample` | script.js:587-614 | entries (1,20) and (3,60), days 1..4 and now at the start of day 3 give [20, 20, 60, null] |
| `Countdown.Countdown` | script.js:415-432 | diff ≤ 0 gives four zeros and the passed message; otherwise hours < 24, minutes < 60, seconds < 60 and days·86400000 + hours·3600000 + minutes·60000 + seconds·1000 + diff mod 1000 = diff |
| `Countdown.CountdownUnique` | script.js:429-432 | any days, hours, minutes, seconds and leftover milliseconds within those bounds that add up to a positive diff are exactly the ones shown |
| `Countdown.AtDeadline` | script.js:417-425 | at the deadline instant the countdown shows zeros and reports that the deadline has passed |
| `Countdown.OneSecondBefore` | script.js:429-432 | one second before the deadline it shows 0 d 0 h 0 min 1 s and the deadline has not passed |
| `Tasks.Trim` | script.js:322 | the trimmed text is empty iff the input is all whitespace; otherwise it starts and ends with a non-whitespace character, and it is the input minus a whitespace prefix and a whitespace suffix |
| `Tasks.FilterContents` | script.js:355-357 | `filter` keeps each element that passes the test as often as it occurs, and drops every other |
| `Tasks.FilterIsSubsequence` | script.js:389 | `filter` keeps the surviving elements in their original order |
| `Tasks.WithoutId` | script.js:389 | delete removes exactly the tasks with the given id and keeps every other task, with its multiplicity and in order |
| `Tasks.CountTotal` | script.js:290-292 | the number of tasks whose section is the given name (the length of that filter), never more than the whole list |
| `Tasks.CountCompleted` | script.js:294-296 | the number of completed tasks whose section is the given name, never more than the whole list (and never more than the section total, `CompletedAtMostTotal`) |
| `Tasks.CompletedAtMostTotal` | script.js:290-296 | a section's completed count never exceeds its total count |
| `Tasks.CountsIgnoreOrder` | script.js:290-296 | the per-section counts depend only on which tasks are stored, not on their order |
| `Tasks.CountsAfterAppend` | script.js:290-296 | appending a task adds one to its own section's total and to no other; completed counts move only for a completed task |
| `Tasks.ViewSelection` | script.js:353-358 | "active" keeps exactly the incomplete tasks, "completed" exactly the completed ones, and any other filter keeps all tasks |
| `Tasks.ShownBefore` | script.js:361-366 | the comparator is negative: an active task before a completed one, else the later creation time first. It never puts a completed task before an active one, and never orders two tasks with the same completion state and creation time |
| `Tasks.DisplaySortPermutes` | script.js:361-366 | the sort is a permutation of its input |
| `Tasks.DisplaySortInDisplayOrder` | script.js:360-366 | after the sort every incomplete task precedes every completed one, and createdAt is non-increasing within each group |
| `Tasks.DisplaySortStable` | script.js:361-366 | tasks with the same completion state and creation time keep their input order (the sort is stable) |
| `Tasks.DisplaySortKeepsOrdered` | script.js:361-366 | a list already in display order is left unchanged, so rendering again does not reorder it |
| `Tasks.SortForDisplay` | script.js:361-366 | the insertion loop returns the stable display sort, a permutation of its input in display order |
| `Dashboard.LoadDataFromLocalStorage` | script.js:64-99 | saved progress, tasks and history are taken as given. Missing progress becomes exactly the catalog ids, each at 0. Missing tasks become an empty list. A missing history becomes exactly one entry: today, with the overall score of the loaded progress |
| `Dashboard.AppState.Init` | script.js:44-50 | the state after startup holds the loaded progress and history, the filter is "all", and the loaded tasks are in display order, as the first `renderTodos` with the filter "all" leaves them |
| `Dashboard.AppState.SaveProgress` | script.js:104-115 | the history becomes the upsert of today's overall score, and unique dates stay unique |
| `Dashboard.AppState.OnProgressInput` | script.js:181-196 | the section's entry becomes the clamped input and nothing else in the map changes. The history is upserted with the new overall score. In-range maps stay in range, unique dates stay unique |
| `Dashboard.AppState.RenderTodos` | script.js:349-366 | the shown list is the display sort of the filter's selection. The stored list is replaced by it when the filter aliases `todos`, and is otherwise unchanged |
| `Dashboard.AppState.SelectFilter` | script.js:308-317 | the filter is set, then the list is rendered with it |
| `Dashboard.AppState.AddTodo` | script.js:321-346 | without trimmed text or a section, nothing changes. Otherwise one active task (id, trimmed text, section, createdAt) is appended, then the list is rendered. The task's section total grows by one, no other count changes |
| `Dashboard.AppState.SetCompleted` | script.js:380-385 | the captured task's completed flag becomes the checkbox state, and every other task is unchanged |
| `Dashboard.AppState.DeleteTodo` | script.js:388-393 | every task with the id is removed, the rest are kept in order, and then the list is rendered |

## Left out

- DOM rendering: section markup, progress bars and segments, the legend,
  emoji headings, empty-list messages and the input's displayed value. These
  are presentation only.
- `localStorage`, `JSON.parse` and `JSON.stringify`. A saved value is an
  `Option` given to `AppState.Init`, and writes are not modelled. A throwing
  `JSON.parse` or an unavailable store, which would stop the page's code, is
  not modelled either.
- `parseInt`. The input handler receives its result as a `ParsedInt` (NaN or
  an integer).
- The notes text area, a pure passthrough to storage.
- Chart.js construction and updates, the ideal target line and the mouse
  tooltip. These are foreign library calls and floating-point percentages.
  Segment widths (script.js:256) are left out for the same reason.
- `setInterval` scheduling and the urgency colours of the countdown. Both are
  timer or UI concerns.
- `DEADLINE` and `START_DATE`, which are local-time dates and depend on the
  timezone. They are parameters (deadline in ms, start and end as day
  numbers).
- `toISOString`, `toLocaleDateString` and `setDate` with their UTC, local-time
  and DST behaviour. Dates are integer day numbers throughout.
- Id and creation time generation with `Date.now()` and `new Date()`. Both
  are parameters of `AppState.AddTodo`.
- Invalid `createdAt` strings are out of scope. `createdAt` is an integer
  instant, and the comparator compares those instants.
- PrepareProgressData: "now" is read once. The source calls `new Date()`
  again for each label, so a clock tick inside the loop is not modelled.
- Dashboard.AppState.Init: the first `renderTodos` is modelled by the sort it
  performs under the filter "all" (`SortForDisplay` on the loaded list), not
  by a call of `RenderTodos`. The resulting state is the same.
- Dashboard.AppState.RenderTodos: the in-place array sort is modelled as a
  reassignment of the `todos` sequence, not as an update in place. The
  result is the same list.

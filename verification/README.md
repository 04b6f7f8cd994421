# Smart task management front end — a Dafny model

This project models the decision logic of a React task-management front end. The centre is the task list's completion and deletion rules:

- how a task or subtask's completion is read;
- how a subtask listing is unwrapped from the server's envelopes;
- downward propagation: completing a task completes its incomplete subtasks;
- upward propagation: completing the last subtask completes its parent;
- the deletion guard that refuses to delete a task whose subtasks are not all complete;
- search, deadline sort and the expanded-rows set.

The remote API is modelled as an oracle `Net`. It holds the calls it rejects, with their error bodies, and the subtask listing it returns per task. Each handler returns the calls it issued, in order, and the alert it raised. An abstract `Store` of completion flags replays the accepted calls, so "what the server ends up holding" can be stated.

The smaller pure pieces around that engine are modelled as well:

- the task-creation form;
- the dashboard aggregation: counts, rounded percentages, the 7-day productivity series, the creation streak and the three most recent tasks;
- the analytics page's series zipping and sums;
- the calendar's month arithmetic, per-day grouping and day grid;
- the settings page's notification switches, password form and labels;
- the reset-password submit;
- `getImageUrl`;
- the zod login and registration schemas;
- the two sidebar reducers.

JavaScript semantics are modelled explicitly where the code relies on them:

- JSON values are `Json`. `undefined` is `None` of `Val = Option<Json>`.
- Truthiness, `??`, `||` and `?.` are modelled.
- `String(v)` is modelled, and so is `Number(v)`, with NaN as `None`.
- `Math.round(c / t * 100)` is exact round-half-up of the rational value.
- `.length` counts UTF-16 code units.
- A TypeError thrown by reading a property of `null` is an explicit outcome (`Eval.Threw`, or the engine's alert).
- `new Date(y, m, d)` reads years 0..99 as 1900..1999.

The following are parameters:

- the clock: `now` and `today`;
- date-string parsing: `parse`;
- the local-day projection: `dayOf`;
- the random part of attachment ids: `idFor`;
- `VITE_API_URL`;
- the window origin;
- the server's answers.

Module per source file:

| module | source |
|---|---|
| `TasksList`, `CompletionEngine` | src/features/tasks.list.jsx |
| `AddTaskMenu` | src/features/add.task.menu.jsx |
| `Dashboard` | src/pages/dashboard.page.jsx |
| `Analytics` | src/pages/analytics.page.jsx |
| `Calendar` | src/features/calendar.jsx |
| `Settings` | src/pages/settings.jsx |
| `ResetPassword` | src/pages/reset-password.page.jsx |
| `ImageUrl` | src/lib/utils.js |
| `LoginSchema` | src/lib/schemas/login.schema.js |
| `UiSlice`, `UiSlide` (sharing `UiState`) | src/store/ui.slice.js, src/store/ui.slide.js |
| `Wrappers`, `Json`, `Text`, `Numeric`, `Seqs`, `Sorting` | shared JavaScript semantics |

Points where the model states what the code does rather than what its comments or text say:

- The reset-password page lists "Minimum 8 characters" in its requirements panel (src/pages/reset-password.page.jsx:92). The submit handler enforces 6 (line 27), and the model follows the handler. `ResetPassword.SixCharactersAccepted` exhibits a six-character password being sent.
- The deletion guard reads a subtask as done with `st.completionStatus || st.completed`, not with the completion helper. A subtask with `completionStatus: false` and `completed: true` therefore counts as incomplete for propagation but as done for deletion. `CompletionEngine.GuardReadingIsWeaker` shows that object.
- The dashboard's three distribution slices can sum to 101: two rounded percentages plus a Pending slice clamped at 0. `Dashboard.DistributionCanSumTo101` gives the input.
- Month navigation goes through `new Date(year, month, 1)`. From January of year 100, one month back then one month forward lands in January 2000 (`Calendar.TwoDigitYearJump`). The navigation lemmas are therefore stated for years outside 0..99.

## Model

| member | source | states |
|---|---|---|
| TasksList.CompletionReading | src/features/tasks.list.jsx:41-43 | A record is complete iff `completionStatus` is present and truthy, or, when it is null or undefined, `completed` is truthy. |
| TasksList.ExtractSubtasksPrecedence | src/features/tasks.list.jsx:45-61 | The subtask array is the first array among the response, `.data`, `.data.subtasks`, `.data.data` and `.subtasks`, and empty when none is an array. |
| TasksList.FirstArrayCons | src/features/tasks.list.jsx:45-61 | The first-array search takes the head candidate when it is an array and otherwise looks further. |
| TasksList.NormalizeTask | src/features/tasks.list.jsx:79-98 | A `null` task element throws. Otherwise the completion is the completion reading, the id is `_id \|\| id`, and the title (`taskName`, `title`, ""), description, priority ("Medium"), subtask count and attachments take the first truthy source or their default. The deadline is none, an Invalid Date, or a time. |
| TasksList.DeadlineOf | src/features/tasks.list.jsx:89 | A falsy deadline gives none. A truthy one gives a time exactly when the Date constructor can read it, and an Invalid Date otherwise. |
| TasksList.NormalizeAll | src/features/tasks.list.jsx:79-98 | The mapping succeeds iff no element is `null`, and then normalises each element in place. |
| TasksList.NormalizeTasks | src/features/tasks.list.jsx:64-99 | A falsy response gives no tasks. Otherwise the array is the first array among the response, its `.data` and its `.tasks`. The mapping throws iff that array holds a `null`, and otherwise gives one normalised task per element, in order. |
| TasksList.FindTask | src/features/tasks.list.jsx:179 | `find` returns a listed task with the given id, and returns nothing only when no task has that id. |
| TasksList.KeepMatching | src/features/tasks.list.jsx:107-109 | A task is kept iff its lowercased title contains the lowercased query. |
| TasksList.KeepMatchingAppend | src/features/tasks.list.jsx:107-109 | The filter distributes over concatenation, so the kept tasks stay in their original order. |
| TasksList.SearchFilter | src/features/tasks.list.jsx:106-110 | A blank query keeps every task. Otherwise the result is exactly the matching tasks in their original order, and a non-string title throws. |
| TasksList.SearchKeepsOrder | src/features/tasks.list.jsx:106-110 | Splitting the list anywhere splits the search result at the same place, and a task is shown iff it is listed and matches. |
| TasksList.SortByDeadline | src/features/tasks.list.jsx:115-131 | The result is a permutation. Without Invalid Dates, no task comes after a task with a later deadline, and undated tasks come after all dated ones. With an Invalid Date and one shared deadline among the others, every pair compares equal and the list is kept as it is. |
| TasksList.CompareDeadlines | src/features/tasks.list.jsx:115-131 | The comparator reads 0 whenever an Invalid Date is involved. Otherwise it puts `a` first exactly when `a` has the later deadline or `b` has none. |
| TasksList.DeadlineSortFollowsComparator | src/features/tasks.list.jsx:115-131 | With a consistent comparator, the comparator never asks for a later task of the result to come before an earlier one. |
| TasksList.InvalidDateStaysPut | src/features/tasks.list.jsx:115-131 | A task with an Invalid Date before a dated task compares equal to it, and the two keep their order. |
| TasksList.UndatedKeepOrder | src/features/tasks.list.jsx:115-131 | The deadline sort is stable, so tasks without a deadline keep their relative order. |
| TasksList.SortByName | src/features/tasks.list.jsx:113-114 | Under a collation rank, the name sort is a permutation ordered by rank. It succeeds whenever every title is a string. Fewer than two tasks are returned unchanged, and a throw needs a non-string title. |
| TasksList.FilterAndSort | src/features/tasks.list.jsx:102-135 | Search then sort. The result holds exactly the searched tasks, each as often as found. Another sort key keeps the search order. The result is rank-ordered under "name-asc" and deadline-ordered under "date-desc" when no deadline is an Invalid Date. |
| TasksList.FilterAndSortShowsMatching | src/features/tasks.list.jsx:102-135 | With a query and string titles, the list shows exactly the matching tasks, whichever sort is chosen. |
| TasksList.ToggleExpansion | src/features/tasks.list.jsx:159-169 | The id is in the new set iff it was not in the old one. Every other id keeps its membership. |
| TasksList.ToggleExpansionTwice | src/features/tasks.list.jsx:159-169 | Toggling a row twice restores the set. |
| TasksList.DownloadUrl | src/features/tasks.list.jsx:442-468 | An absolute http(s) url is returned as is, and a relative one is joined to the origin. Without a usable url, a truthy `fileId` gives `${baseUrl}/files/${fileId}`, and otherwise the result is null. |
| TasksList.AttachmentIcon | src/features/tasks.list.jsx:511-518 | The image icon is chosen iff the lowercased type is "image" or the format is png, jpg or jpeg. The video icon is chosen iff the image test fails and the type is "video" or the format is mp4, mkv or mov. A missing attachment gets the file icon. |
| CompletionEngine.FirstRejection | src/features/tasks.list.jsx:196-206 | No rejection is reported iff no call of the batch is rejected. |
| CompletionEngine.CompleteEach | src/features/tasks.list.jsx:196-206 | The fan-out issues `completionStatus: true` for each pending subtask, in order, with parent `taskId`. It stops exactly at the first `null` subtask. |
| CompletionEngine.ToggleTask | src/features/tasks.list.jsx:177-216 | An unknown task issues nothing. The first call is the task update with the negated flag. Every later call is the subtask fetch or a subtask completion. A rejected first call ends the handler with its error as the alert. |
| CompletionEngine.ToggleTaskCompletesExactlyIncomplete | src/features/tasks.list.jsx:190-206 | Completing a task with subtasks issues exactly one `true` update per incomplete subtask and none for complete ones. The i-th call after the task update and the fetch completes the i-th incomplete subtask of the listing. |
| CompletionEngine.FanoutInListingOrder | src/features/tasks.list.jsx:196-206 | After the two leading calls, the fan-out completes the incomplete subtasks one by one, in listing order. |
| CompletionEngine.ToggleTaskNoPropagation | src/features/tasks.list.jsx:181-190 | Un-completing a task, or completing one without subtasks, issues only the task update. |
| CompletionEngine.ToggleTaskNullSubtask | src/features/tasks.list.jsx:196-215 | A `null` subtask in the listing stops the fan-out with the TypeError's message as the alert. |
| CompletionEngine.ToggleSubtask | src/features/tasks.list.jsx:217-262 | A null or undefined current flag issues no call. Otherwise the first call sends the negated flag. A second call is always the parent fetch, and a third is the one parent completion. A rejected subtask update ends the handler with its alert. An alert is raised iff some call is rejected, and it reports the last call. |
| CompletionEngine.ToggleSubtaskCompletesParentIff | src/features/tasks.list.jsx:235-252 | The parent gets its update iff it is listed with subtasks and not complete, the fetched list is non-empty, and every fetched subtask is complete. |
| CompletionEngine.ToggleSubtaskNeverUncompletesParent | src/features/tasks.list.jsx:246-251 | Every task update a subtask toggle issues sets `completionStatus: true`, and an incomplete fetched subtask prevents it. |
| CompletionEngine.GuardScanMeaning | src/features/tasks.list.jsx:274-276 | The scan clears iff every subtask is non-null and done by `completionStatus \|\| completed`. It blocks iff an incomplete subtask precedes any `null`. |
| CompletionEngine.Delete | src/features/tasks.list.jsx:265-297 | An unknown task, or one without subtasks, is deleted without a fetch. Calls are only the fetch and the delete, and the delete, if any, is the single last call. |
| CompletionEngine.DeleteGuard | src/features/tasks.list.jsx:268-287 | A task with subtasks is deleted iff the fetch succeeds and the scan clears. A blocked deletion raises the block message and issues no delete. |
| CompletionEngine.DeleteWithoutSubtasks | src/features/tasks.list.jsx:271-287 | A task with `subtaskCount` 0 gets exactly one delete call and no fetch. It alerts iff that call is rejected. |
| CompletionEngine.GuardReadingIsWeaker | src/features/tasks.list.jsx:274-276 | A subtask complete by the helper's reading passes the guard, but `{completionStatus: false, completed: true}` passes the guard while being incomplete for the helper. |
| CompletionEngine.ApplyCompletions | src/features/tasks.list.jsx:196-206 | Replaying accepted subtask completions leaves tasks alone and marks exactly the updated subtasks complete. |
| CompletionEngine.SuccessfulCompletionTrace | src/features/tasks.list.jsx:183-206 | A fully successful completion's trace is the task update, the fetch and the fan-out, all accepted. |
| CompletionEngine.ToggleTaskCompletesStore | src/features/tasks.list.jsx:183-206 | After a successful completion the store holds the task complete and every listed subtask complete. |
| CompletionEngine.UncompleteLeavesSubtasks | src/features/tasks.list.jsx:181-190 | Un-completing a task changes no subtask in the store. |
| CompletionEngine.BlockedDeleteLeavesStore | src/features/tasks.list.jsx:278-284 | A deletion blocked by an incomplete subtask leaves the store unchanged. |
| AddTaskMenu.AddSubtask | src/features/add.task.menu.jsx:23-25 | Exactly one untitled, incomplete row is appended. The existing rows and the other fields are unchanged. |
| AddTaskMenu.ChangeSubtask | src/features/add.task.menu.jsx:27-31 | Only rows with the id are retitled. Length, order, ids and flags are kept. |
| AddTaskMenu.ToggleSubtask | src/features/add.task.menu.jsx:33-39 | Only rows with the id flip `completed`. Length, order, ids and titles are kept. |
| AddTaskMenu.ToggleSubtaskTwice | src/features/add.task.menu.jsx:33-39 | Toggling the same row twice restores the form. |
| AddTaskMenu.RemoveSubtask | src/features/add.task.menu.jsx:41-43 | A row remains iff it was there and does not have the id. The remaining rows are the filter of the old ones, in order. |
| AddTaskMenu.RemoveSubtaskKeepsOrder | src/features/add.task.menu.jsx:41-43 | Splitting the rows anywhere splits the remaining rows at the same place. |
| AddTaskMenu.RemoveUndoesAdd | src/features/add.task.menu.jsx:23-43 | Removing a just-added row with a fresh id gives the form back. |
| AddTaskMenu.HandleFiles | src/features/add.task.menu.jsx:50-73 | Existing attachments stay as the prefix. The accepted files follow in order, the k-th with id `idFor(k)`. |
| AddTaskMenu.HandleFilesAcceptsIff | src/features/add.task.menu.jsx:50-62 | A file becomes an attachment iff it is offered, its type is one of the six MIME types, and its size is at most 10 MiB. |
| AddTaskMenu.DragOver | src/features/add.task.menu.jsx:75-78 | Sets the drag flag and nothing else. |
| AddTaskMenu.DragLeave | src/features/add.task.menu.jsx:80-83 | Clears the drag flag and nothing else. |
| AddTaskMenu.Drop | src/features/add.task.menu.jsx:85-90 | A drop ends the drag and adds the same attachments as the picker. |
| AddTaskMenu.RemoveAttachment | src/features/add.task.menu.jsx:92-94 | An attachment remains iff it was there and does not have the id. The remaining ones are the filter of the old ones, in order. |
| AddTaskMenu.RemoveAttachmentKeepsOrder | src/features/add.task.menu.jsx:92-94 | Splitting the attachments anywhere splits the remaining ones at the same place. |
| AddTaskMenu.FileSizeUnit | src/features/add.task.menu.jsx:96-100 | " B" iff below 1024, " KB" iff below 1024², " MB" otherwise. |
| AddTaskMenu.FileSizeUnitMonotone | src/features/add.task.menu.jsx:96-100 | A larger size never gets a smaller unit. |
| AddTaskMenu.Reset | src/features/add.task.menu.jsx:116-121 | Title, description, subtasks and attachments are emptied. The drag flag is kept. |
| AddTaskMenu.Close | src/features/add.task.menu.jsx:123-125 | Closing resets the form. |
| AddTaskMenu.Save | src/features/add.task.menu.jsx:102-114 | Nothing is emitted iff the title is whitespace-only, and then the form is unchanged. Otherwise the emitted task carries exactly the non-blank drafts, in their order, and the form is reset. |
| AddTaskMenu.SaveKeepsDraftOrder | src/features/add.task.menu.jsx:102-114 | Splitting the drafts anywhere splits the saved subtasks at the same place. |
| AddTaskMenu.SaveTwiceEmitsOnce | src/features/add.task.menu.jsx:102-121 | A save right after a successful save emits nothing. |
| Text.TrimEmptyIffBlank | src/features/add.task.menu.jsx:103 | `trim()` yields the empty string iff every character is JavaScript whitespace. |
| Dashboard.ExtractTasksPrecedence | src/pages/dashboard.page.jsx:65-74 | The task array is the first array among the response, `.data`, `.tasks` and `.data.tasks`, and empty when none is an array. |
| Dashboard.ClampPercent | src/pages/dashboard.page.jsx:86-90 | NaN gives 0. A number within [0,100] is kept, and one outside is clamped to the nearer end. |
| Dashboard.FirstDateMeaning | src/pages/dashboard.page.jsx:103-110 | The first-valid-date search returns the first field's valid date, and nothing iff no field holds one. |
| Dashboard.DueDate | src/pages/dashboard.page.jsx:103-110 | The due date is absent iff none of `scheduledDate`, `dueDate`, `deadline`, `date` is a valid date, and otherwise is one of them. |
| Dashboard.ResolveAssetUrl | src/pages/dashboard.page.jsx:112-120 | A non-string or falsy value gives null. http(s) URLs and unrooted strings are kept, and a rooted path is prefixed with the local server origin. |
| Dashboard.ResolveAssetUrlIdempotent | src/pages/dashboard.page.jsx:112-120 | Resolving an already resolved URL gives it back unchanged. |
| Dashboard.CountsFitTotal | src/pages/dashboard.page.jsx:124-135 | Completed and overdue tasks are disjoint, so their counts sum to at most the total. |
| Dashboard.Distribution | src/pages/dashboard.page.jsx:142-169 | Three named, coloured slices. All are 0 when there are no tasks, Pending is never negative, and the first two are the rounded percentages. |
| Dashboard.DistributionSum | src/pages/dashboard.page.jsx:142-164 | With tasks, the three slices sum to 100 or 101. |
| Dashboard.DistributionCanSumTo101 | src/pages/dashboard.page.jsx:142-164 | 8 tasks, 1 completed and 7 overdue give slices 13, 88 and 0. |
| Dashboard.CreatedDays | src/pages/dashboard.page.jsx:178-184 | Each task's creation day is the local day of its valid `createdAt`, and absent otherwise. |
| Dashboard.Within | src/pages/dashboard.page.jsx:178-184 | Counting creations in a day range never exceeds the number of tasks. |
| Dashboard.WithinExtend | src/pages/dashboard.page.jsx:178-188 | Widening the range by one day adds exactly that day's count. |
| Dashboard.DayCounts | src/pages/dashboard.page.jsx:186-196 | The n consecutive day counts are each day's number of creations. |
| Dashboard.DayCountsSum | src/pages/dashboard.page.jsx:178-196 | The day counts sum to the number of creations in the range. |
| Dashboard.WithinEmpty | src/pages/dashboard.page.jsx:178-184 | An empty range counts nothing. |
| Dashboard.Productivity | src/pages/dashboard.page.jsx:171-196 | Seven counts, for the six days before today and today, in order. |
| Dashboard.ProductivityTotal | src/pages/dashboard.page.jsx:171-196 | The productivity series sums to the creations of those seven days, and at most the number of tasks. |
| Dashboard.DaySet | src/pages/dashboard.page.jsx:223-228 | A day is in the set iff some task was created on it. |
| Dashboard.StreakFrom | src/pages/dashboard.page.jsx:230-236 | From a verified prefix, the streak covers consecutive creation days and stops at the first gap or at 365. |
| Dashboard.StreakLength | src/pages/dashboard.page.jsx:230-236 | The streak is at most 365, every day back to it has a creation, and the day after it, if counted, has none. |
| Dashboard.Streak | src/pages/dashboard.page.jsx:230-236 | The loop with its early `break` computes exactly the streak length. |
| Dashboard.Stamps | src/pages/dashboard.page.jsx:199-204 | The stamped tasks are exactly the tasks with a valid `createdAt`, paired with it. There are as many as such tasks, counted with repeats. |
| Dashboard.StampsAppend | src/pages/dashboard.page.jsx:199-204 | The stamps follow the task order: splitting the tasks anywhere splits the stamps at the same place. |
| Dashboard.StampsSingle | src/pages/dashboard.page.jsx:199-204 | A single task gives its own stamp when its `createdAt` is a valid date, and none otherwise. |
| Dashboard.Latest | src/pages/dashboard.page.jsx:205-206 | Takes min(n, available) stamps, drawn from the input, newest first. |
| Dashboard.LatestAreNewest | src/pages/dashboard.page.jsx:205-206 | No stamp left out is newer than one taken. |
| Dashboard.RecentOf | src/pages/dashboard.page.jsx:207-219 | Every row has a truthy title and key. The title is the truthy `taskName`, else the truthy `title`, else "Untitled task". The key is the truthy `_id`, else the truthy `id`, else the title. |
| Dashboard.RecentlyAdded | src/pages/dashboard.page.jsx:198-220 | min(3, number of tasks with a valid `createdAt`) entries, newest first. Each comes from a task with that `createdAt`, and no dated task left out is newer than any entry. |
| Dashboard.StatsOf | src/pages/dashboard.page.jsx:122-141 | Completed plus overdue is at most the total. The completion average is the rounded share of completed tasks, and on-time delivery the rounded share of tasks not overdue (`RatesFit`). Both are in [0,100] and 0 without tasks. The streak is the run of consecutive creation days back from today, at most 365. |
| Dashboard.DashboardData | src/pages/dashboard.page.jsx:122-245 | Stats, distribution, productivity and recent list are those of the extracted tasks. Pending equals total − completed − overdue, so the `max(0, …)` never clamps. Three slices, seven productivity days, at most three recent tasks, and productivity never exceeds the total. |
| Numeric.Percent | src/pages/dashboard.page.jsx:137-139 | `Math.round(part / whole * 100)` within one half of the exact ratio, and 0 for a non-positive whole. |
| Numeric.PercentRange | src/pages/dashboard.page.jsx:137-139 | A part between 0 and the whole gives a percentage in [0,100]. |
| Analytics.RangeParam | src/pages/analytics.page.jsx:46-55 | "weekly" iff "Weekly", "yearly" iff "Yearly", and "monthly" otherwise. |
| Analytics.Timeseries | src/pages/analytics.page.jsx:102-113 | Empty unless `data.labels` is an array. Otherwise one point per label, in order, named by the label. |
| Analytics.TimeseriesDefaults | src/pages/analytics.page.jsx:106-111 | A missing, falsy or too-short series reads as 0 at a label, and a numeric entry reads as itself. |
| Analytics.SeriesTotalAppend | src/pages/analytics.page.jsx:123 | Summing `Number(v) \|\| 0` distributes over concatenation. |
| Analytics.SliceOf | src/pages/analytics.page.jsx:120-126 | A slice's value is the sum of its data array, or 0 without one. Its colour defaults to "#9CA3AF". |
| Analytics.Distribution | src/pages/analytics.page.jsx:115-127 | A falsy `data` gives nothing and an array `taskDistributionData` is passed through. Otherwise there is one slice per series, and a `null` series throws. |
| Analytics.TeamPerformance | src/pages/analytics.page.jsx:129-141 | In the per-label shape each value is the sum of the task's data. Otherwise it is `subtaskCount \|\| 0`. Names and length follow the tasks. |
| Analytics.TeamBarSplits | src/pages/analytics.page.jsx:133-137 | In the per-label shape, splitting a task's labels into two runs splits its bar into the two runs' sums. |
| Analytics.StatPercent | src/pages/analytics.page.jsx:148-150 | 0 when the total is not positive, NaN iff the count is not numeric, and within [0,100] for a count up to the total. |
| Analytics.StatCardPercentages | src/pages/analytics.page.jsx:97-175 | Both computed card percentages are 0 when `totalTasks` is missing or not positive. Each is the stat percentage of its count over the total. With a positive total and a completed count within it, the completed card is the rounded share, in [0,100]. |
| Analytics.LegendShare | src/pages/analytics.page.jsx:444-453 | "0%" when the summed values are not positive, and otherwise the rounded share with a percent sign. |
| Analytics.LegendShareRange | src/pages/analytics.page.jsx:444-453 | With non-negative values, each share lies in [0,100]. |
| Calendar.MonthLength | src/features/calendar.jsx:58-60 | A month has 28 to 31 days, and February has 29 iff the year is a Gregorian leap year. |
| Calendar.MarchBaseStep | src/features/calendar.jsx:58-60 | Consecutive 1 Marches are 366 days apart iff the later year is a leap year. |
| Calendar.DayNumberStep | src/features/calendar.jsx:58-64 | The firsts of consecutive months of a year are one month length apart. |
| Calendar.DayNumberYearStep | src/features/calendar.jsx:58-64 | 1 January follows 1 December by 31 days. |
| Calendar.Weekday | src/features/calendar.jsx:62-64 | `getDay()` is in 0..6. |
| Calendar.Normalize | src/features/calendar.jsx:147-157 | The Date constructor's month overflow: month 12 is January of the next year and month −1 is December of the previous one. |
| Calendar.DaysInMonth | src/features/calendar.jsx:58-60 | Day 0 of the next month is the length of the displayed month: 28 to 31. |
| Calendar.FirstDay | src/features/calendar.jsx:62-64 | The first weekday is in 0..6. |
| Calendar.Next | src/features/calendar.jsx:153-157 | The next month, wrapping December into January of the next year. |
| Calendar.Prev | src/features/calendar.jsx:147-151 | The previous month, wrapping January into December of the previous year. |
| Calendar.PrevNextInverse | src/features/calendar.jsx:147-157 | Away from years 0..99, previous and next undo each other. |
| Calendar.TwoDigitYearJump | src/features/calendar.jsx:147-157 | Back from January 100 and forward again lands in January 2000. |
| Calendar.NextMonthWeekday | src/features/calendar.jsx:58-64 | The next month starts on the weekday after the last day of this one. |
| Calendar.PriorityBadgeAsWritten | src/features/calendar.jsx:49-56 | As written, the lookup yields an inherited prototype member iff the priority's string form names one. |
| Calendar.PrototypeKeyEscapesDefault | src/features/calendar.jsx:55 | The priority "constructor" gets no colour class. |
| Calendar.PriorityBadge | src/features/calendar.jsx:49-56 | Red, yellow and green iff high, medium and low, and grey for anything else. |
| Calendar.BadgeAgreesOutsidePrototype | src/features/calendar.jsx:49-56 | The intended and the written lookup agree on every priority that does not name a prototype member. |
| Calendar.DemoTasks | src/features/calendar.jsx:10-46 | Five demonstration tasks, all dated in 2025. |
| Calendar.Counts | src/features/calendar.jsx:94 | Each day entry's counts are its tasks' `taskCount`s, in order. |
| Calendar.Priorities | src/features/calendar.jsx:95 | Each day entry's priorities are its tasks' priorities, in order. |
| Calendar.GroupMeaning | src/features/calendar.jsx:74-101 | A day has an entry iff some task is scheduled on it in the displayed month and year, and the entry lists exactly those tasks' counts and priorities in order. |
| Calendar.GroupOtherYear | src/features/calendar.jsx:82-85 | Tasks all scheduled in other years give an empty grouping. |
| Calendar.DemoTasksOnlyIn2025 | src/features/calendar.jsx:10-46 | The demonstration tasks appear only when the displayed year is 2025. |
| Calendar.Dedup | src/features/calendar.jsx:114 | `[...new Set(s)]` holds the same values, without repeats. |
| Calendar.DedupFresh | src/features/calendar.jsx:114 | A value not seen before is appended at the end. Together with DedupSeen, this fixes first-occurrence order. |
| Calendar.DedupSeen | src/features/calendar.jsx:114 | A repeated value adds nothing, so first occurrences are kept. |
| Calendar.Take3 | src/features/calendar.jsx:131 | At most three, taken from the front. |
| Calendar.DayCell | src/features/calendar.jsx:112-143 | A day cell shows the sum of its tasks' counts. With a positive sum it shows min(3, distinct priorities) badges: the first three distinct priorities, in order. Otherwise it shows none. |
| Calendar.BuildGrid | src/features/calendar.jsx:103-145 | `firstDay` blank cells, then one cell per day 1..n in order. |
| Calendar.MonthGrid | src/features/calendar.jsx:66-145 | The displayed month's grid has `FirstDay` blanks and then its `DaysInMonth` day cells. |
| Settings.Toggle | src/pages/settings.jsx:73-81 | A missing category throws. Otherwise exactly the one switch is negated, with a missing one read as off, and every other switch is unchanged. |
| Settings.ToggleTwice | src/pages/settings.jsx:73-81 | Flipping an existing switch twice restores the settings. |
| Settings.ToggleTwiceMissing | src/pages/settings.jsx:73-81 | A switch that did not exist comes back off rather than absent. |
| Settings.DefaultSwitchesToggle | src/pages/settings.jsx:28-42 | Every switch on the page can be flipped. |
| Settings.SubmitPassword | src/pages/settings.jsx:50-65 | Alerts iff the new passwords differ, and then keeps the form. Otherwise it clears all three fields, with no length check. |
| Settings.CancelPassword | src/pages/settings.jsx:437-443 | Cancel clears all three fields. |
| Settings.SubmitIdempotent | src/pages/settings.jsx:50-65 | Submitting the resulting form again has the same outcome. |
| Settings.SubmitLikeCancel | src/pages/settings.jsx:57-64 | An accepted submit leaves the same form as Cancel. |
| Settings.SpaceBeforeCapitals | src/pages/settings.jsx:491 | One space is inserted per ASCII capital, and every capital is preceded by a space. |
| Settings.SpacesOnlyInserted | src/pages/settings.jsx:491 | Deleting spaces from the spaced key gives the key without spaces. |
| Settings.SpaceBeforeCapitalsAppend | src/pages/settings.jsx:491 | The replacement works character by character, so it distributes over concatenation. |
| Settings.CapitalizeFirst | src/pages/settings.jsx:492 | Only the first character changes, to its upper case. |
| Settings.Label | src/pages/settings.jsx:490-492 | The label is one character longer per capital, and every later capital follows a space. |
| Settings.LabelStartsCapitalized | src/pages/settings.jsx:490-492 | A key starting lower-case gets that letter capitalised. |
| Settings.LabelLeadingCapital | src/pages/settings.jsx:490-492 | A key starting with a capital gets a leading space. |
| ResetPassword.Validate | src/pages/reset-password.page.jsx:20-30 | A request is prepared iff the passwords match and are at least 6 code units long. A mismatch is reported before length. |
| ResetPassword.FailureText | src/pages/reset-password.page.jsx:40-43 | The server's `data.message` when truthy, otherwise the fixed fallback. |
| ResetPassword.Submit | src/pages/reset-password.page.jsx:17-45 | At most one request, issued iff validation passes, carrying the route token and the password. A success shows the success toast, a failure the server's message or the fallback. The page moves to login iff the request succeeds. |
| ResetPassword.MismatchReportedFirst | src/pages/reset-password.page.jsx:21-30 | A short mismatched password reports only the mismatch and issues nothing. |
| ResetPassword.SixCharactersAccepted | src/pages/reset-password.page.jsx:27-33 | A six-character password is sent. |
| ResetPassword.RequestsIndependentOfReply | src/pages/reset-password.page.jsx:32-44 | The server's answer affects only the toast and the navigation. |
| ImageUrl.StripLeadingSlashes | src/lib/utils.js:11 | Removes exactly the leading run of slashes. |
| ImageUrl.StripTrailingSlashes | src/lib/utils.js:27 | Removes exactly the trailing run of slashes. |
| ImageUrl.CleanPath | src/lib/utils.js:11-16 | The cleaned path always starts with "uploads/", which is added only when absent. |
| ImageUrl.CleanPathIdempotent | src/lib/utils.js:11-16 | Cleaning a cleaned path changes nothing. |
| ImageUrl.StaticBase | src/lib/utils.js:26-27 | The base is a prefix of the API URL and does not end in a slash. |
| ImageUrl.GetImageUrl | src/lib/utils.js:2-36 | Falsy gives null and a non-string throws. An "http" prefix is returned unchanged. A non-image extension gives null. Otherwise the result is base + "/" + cleaned path. |
| ImageUrl.ExtensionSurvivesPrefix | src/lib/utils.js:19 | The extension test looks only at the end of the path. |
| ImageUrl.BuiltUrlShape | src/lib/utils.js:26-30 | A built URL has a single slash at the join, continues with "uploads/", and ends in an image extension. |
| ImageUrl.ExtensionCheckedBeforeBase | src/lib/utils.js:19-23 | A path rejected for its extension is rejected whatever the API URL, even an unset one. |
| LoginSchema.FailedMessages | src/lib/schemas/login.schema.js:13-22 | No messages iff every check passes. Every message belongs to a failed check. |
| LoginSchema.FailedMessageIff | src/lib/schemas/login.schema.js:13-22 | With distinct messages, a message is reported iff its check fails. |
| LoginSchema.FieldIssues | src/lib/schemas/login.schema.js:9-24 | A field has no issues iff it is a string passing its checks, an absent or string optional field, or an `any` field. |
| LoginSchema.Issues | src/lib/schemas/login.schema.js:8-25 | An object has no issues iff none of its fields has. |
| LoginSchema.LoginIssues | src/lib/schemas/login.schema.js:3-6 | The login password passes iff it is a string of at least 6 code units. |
| LoginSchema.RegisterIssuesEmptyIff | src/lib/schemas/login.schema.js:8-25 | Registration passes iff the names are non-empty strings, the username has at least 5 units, the password has 8 units with a lower-case letter, a capital, a digit and a special character, and `bio` is absent or a string. |
| LoginSchema.SingleMinimum | src/lib/schemas/login.schema.js:9-11 | A single-minimum field passes iff it is a string at least that long. |
| LoginSchema.PasswordFieldIff | src/lib/schemas/login.schema.js:13-22 | The register password passes iff all five rules hold. |
| LoginSchema.PasswordMessageIff | src/lib/schemas/login.schema.js:13-22 | Each password rule's own message is reported iff that rule fails. |
| LoginSchema.MissingPasswordIsRequired | src/lib/schemas/login.schema.js:13-22 | A missing password gives the single issue "Required". |
| UiState.Negated | src/store/ui.slice.js:11-13 | The flag becomes the boolean negation of its truthiness, and every other property is unchanged. |
| UiState.NegatedTwice | src/store/ui.slice.js:11-13 | Negating twice restores a boolean flag. |
| UiSlice.ToggleSidebar | src/store/ui.slice.js:20 | The generated creator has type "ui/toggleSidebar" and no payload. |
| UiSlice.SetSidebarOpen | src/store/ui.slice.js:20 | The generated creator carries its argument as payload. |
| UiSlice.SetOpen | src/store/ui.slice.js:14-16 | The flag becomes the payload, and the rest is unchanged. |
| UiSlice.Reducer | src/store/ui.slice.js:1-18 | Toggle negates, set stores the payload and keeps every other property, and any other action keeps the state. An undefined state starts from the initial state. |
| UiSlice.InitiallyOpen | src/store/ui.slice.js:3-5 | The sidebar starts open. |
| UiSlice.ToggleTwice | src/store/ui.slice.js:11-13 | Two toggles restore a boolean flag. |
| UiSlice.SetSidebarOpenIdempotent | src/store/ui.slice.js:14-16 | Setting is idempotent and does not depend on the previous state. |
| UiSlide.ToggleSidebar | src/store/ui.slide.js:14 | The creator is exactly the "ui/toggleSidebar" action. |
| UiSlide.Reducer | src/store/ui.slide.js:5-12 | Toggle negates the flag and keeps the other properties. Any other action returns the state. |
| UiSlide.TogglesAgree | src/store/ui.slide.js:5-14 | Both modules' toggle actions are equal, and both reducers give the same state for them. |
| UiSlide.SetSidebarOpenIgnored | src/store/ui.slide.js:9-10 | This reducer ignores `setSidebarOpen`. |
| UiSlide.ToggleTwice | src/store/ui.slide.js:7-8 | Dispatching the toggle twice restores a boolean flag. |
| UiSlide.InitiallyOpen | src/store/ui.slide.js:1-3 | The sidebar starts open. |

## Findings

| source | as written | input that shows it | evidently intended | confidence | as-written member | corrected member |
|---|---|---|---|---|---|---|
| src/features/calendar.jsx:55 | The badge lookup indexes a plain object literal, so names inherited from `Object.prototype` are found too. Their values are functions, which are truthy. | priority "constructor" (or "toString", "valueOf", …) | own keys high, medium and low only, grey for everything else | low: the demonstration data uses only high, medium and low; not executed | Calendar.PrototypeKeyEscapesDefault | Calendar.PriorityBadge |

The day grid (`Calendar.DayCell`) uses the corrected `Calendar.PriorityBadge`.

## Left out

- Rendering, markup, icons, animation and routing.
- The RTK Query endpoint declarations and store wiring. The server is the `Net` oracle and the `Store` abstraction instead.
- Attachment download (fetch, blob, anchor, fallback window) and the profile-image upload stub.
- `window.alert`, toasts and console output. Alert and toast texts are returned as data.
- CompletionEngine: the alert for a `null` subtask is V8's TypeError message, "Cannot read properties of null (reading '<key>')". The key is `_id` in the fan-out and `completionStatus` in the deletion guard. Other engines word the message differently, and the model does not cover their wording.
- `Promise.all` concurrency. The fan-out is one sequential step, and when several updates fail the alert reports the first failing call in issue order. Partial application of a failed batch and races between rapid toggles are not modelled.
- Floating point: numbers are integers. Fractional `taskCount`s, series values and percentages are not modelled.
- `toFixed` digits in `formatFileSize`. Only the unit choice is modelled.
- `toLocaleString`/`toLocaleDateString` texts: the productivity day names, the recent tasks' date text, and the month name.
- TasksList.SortByName: `localeCompare` is a caller-supplied rank per title, not locale collation.
- TasksList.SortByName: with two or more tasks and a non-string title, the model throws. The source throws only if the engine calls `localeCompare` on that title as the receiver. As argument it is converted to a string. Which element is the receiver depends on the engine's comparison order.
- TasksList.SortByDeadline: when an Invalid Date sits among tasks with different deadlines, the comparator is inconsistent and ECMA-262 leaves the order implementation-defined. The model then places the Invalid Date with the undated tasks, and promises only a permutation.
- Numeric.Percent: the page rounds a double product, which can fall just below a tie. For 23 of 40, `23 / 40 * 100` is 57.49999999999999, so the page shows 57 where the model gives 58. Likewise 29 of 200 shows 14 against the model's 15.
- Calendar.Dedup: `new Set` compares objects by identity, so two equal-content object priorities stay distinct in JavaScript. The model compares values structurally.
- `Number(string)`: surrounding whitespace is trimmed as in JavaScript, and then only an optional sign and decimal digits are read. Hex, fractions, exponents and `Infinity` read as NaN.
- Date-string parsing, the local time zone and the clock are parameters. The dashboard's local day is `dayOf`, and the calendar works on civil dates.
- Calendar: the `toLocaleString` month title is not modelled. The initial month `new Date(2025, now.getMonth(), 1)` is not modelled separately from `YearMonth`.
- AddTaskMenu.HandleFiles: attachment ids are `Date.now() + Math.random()`. The model takes them from a caller-supplied `idFor` and does not state that they are distinct.
- Analytics: the "Active rate" card shows the server's `completionRate` unchanged. The sample project-travel chart and the date-range caption are not modelled.
- ResetPassword.Submit: `toLogin` says the page navigates to the login route. The 2-second `setTimeout` before the navigation is not modelled.
- Json.Index: a string is indexed per Unicode code point. JavaScript's `s[i]` indexes UTF-16 code units, so the two differ after a character outside the Basic Multilingual Plane.
- AddTaskMenu.Save: `onSave?.(newTask)` calls an optional callback. The model always returns the new task in `emitted`, and says nothing about whether a callback was given.
- Settings: the profile form, its submit alert and the image input are not modelled.
- Settings.Toggle: category and setting names that are `Object.prototype` members are not modelled. Key order of the switches is not kept (maps).
- Settings.CapitalizeFirst: upper-cases only ASCII letters. `toUpperCase` on other first characters is not modelled.
- Text.Lower: `toLowerCase` maps only ASCII letters in the model.
- LoginSchema: the two `z.string().email(...)` fields are not part of this model. `RegisterIssues`/`LoginIssues` say nothing about them.
- The task row's presentation helpers: `getPriorityEmoji`, `getPriorityColor`, the row's own subtask-title mapping and the download filename's extension. They only choose display text.
- Google sign-in polling, the landing, login, register and forgot-password pages, header, sidebar, footer and layout.

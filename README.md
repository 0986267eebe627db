# Task board and calendar front end: a Dafny model

This project models the client-side logic of a browser task/calendar board. Users
log in, keep tasks in three status columns ("to do", "in process", "finished"), look
tasks up by date on a month calendar and edit their profile. Every service call, every
`fetch` and every read of the clock is a parameter of the model, so each operation
is a function of its inputs.

The modules follow the program's files:

| module (file) | what it models |
|---|---|
| `Router` (router.dfy) | the hash router: route resolution, view URLs, the stylesheet swap, view loading, the login click and the password-reset click |
| `Session` (session.dfy) | token lookup over local and session storage, logout key clearing, the user-info request gate |
| `Tasks` (tasks.dfy) | the task record, the first-match search, removal, remove-then-append moves and grouping by status that both task boards share |
| `Dashboard` (dashboard.dfy) | the live `TaskManager` with `todo`/`inprocess`/`finished` columns, matched by `_id \|\| id` |
| `LegacyDashboard` (legacy_dashboard.dfy) | the older `TaskManager` with status-keyed columns, matched by `id`, with a local delete and a local save |
| `TimeFormat` (time_format.dfy) | `formatTime` and `convertTo24Hour`, which appear in three identical copies, and their round trips |
| `Calendar` (calendar.dfy) | the month grid, date keys, the date-keyed task lookup, month navigation and selection |
| `CalendarShared` (calendar_shared.dfy) | `createLocalDate`, `switchView` and `loadViewContent` |
| `ProfileRules` (profile_rules.dfy) | the field validators and `validateForm` shared by both profile controllers, plus the save payload |
| `ProfilePage` (profile_page.dfy) | the profile page of `editprofile.js`: avatar gate, `populateForm`, visibility toggles, save and reload |
| `EditProfile` (edit_profile.dfy) | the account-deletion dialog of `edit_profile.controller.js` |
| `JsText`, `JsDate`, `Wrappers` | the JavaScript string, number and date semantics the core relies on |

## JavaScript semantics made explicit

- `String.prototype.trim` removes the ECMAScript white-space and line-terminator set.
- `parseInt` with no radix skips leading white space and takes an optional sign.
  It reads `0x`/`0X` as hexadecimal and otherwise reads the longest decimal prefix.
- `Number` is modelled on digit strings only, which is all that date keys contain.
- The three-argument `Date` constructor is modelled by `MakeDay`: proleptic Gregorian
  day numbers counted from 1 January 1970. It carries over month and day overflow,
  and it maps years 0..99 to 1900 + y (`CalendarShared.FullYear`), both when a date key
  is parsed and when the calendar grid asks for the weekday and length of a month.
- `.length` counts UTF-16 code units (`JsText.Utf16Length`): a character outside the
  Basic Multilingual Plane counts twice.
- JavaScript truthiness is spelled out for strings, optional values and identifiers.
  An identifier is absent, a string `_id` or a number `id`.
- Storage is a `map<string, string>`. `getItem` of a missing key is `None`, which stands for `null`.

Three details the model takes from the code as it stands:

- The live board keys its columns `todo`/`inprocess`/`finished`. The older board
  keys them by the status strings.
- A task's date field is `task_date`.
- The older `saveTask` always posts a create request, even while a task is being edited.

## Model

| member | source | states |
|---|---|---|
| Router.ResolveRoute | src/routes/route.js:73-84 | the route is always one of the seven known views; it is the text after `#/` when that is known, `login` otherwise |
| Router.ResolveFallsBack | src/routes/route.js:74 | an empty hash, a bare `#/`, a hash without `#/` or an unknown name resolves to `login` |
| Router.ResolveKnown | src/routes/route.js:84 | `#/x` resolves to `x` for every known `x` |
| Router.UrlsAreDistinct | src/routes/route.js:14 | distinct view names give distinct fragment URLs and distinct stylesheet paths |
| Router.InitializersPerView | src/routes/route.js:34-46 | a known view runs exactly its own initializer, `about_us` runs `initAboutPage` (when its module loads) and then `initAboutUs`, an unknown name runs none; the initializer identifies its view |
| Router.Initializers | src/routes/route.js:34-46 | the initializers `loadView` runs, in order; `Router.InitializersPerView` states which ones each view gets |
| Router.WithoutViewStylesHasNone | src/routes/route.js:51 | removing the `data-view-style` links leaves none |
| Router.WithoutViewStylesKeeps | src/routes/route.js:51 | the removal leaves a head without view-style links unchanged |
| Router.LoadCSSLeavesOne | src/routes/route.js:49-58 | after `loadCSS(h)` exactly one view-style link exists, it is the last element and its href is `h`; every other element is kept in order |
| Router.Page.constructor | src/routes/route.js:7 | a page holds the mount node's content and the document head |
| Router.Page.LoadCSS | src/routes/route.js:49-58 | the loop keeps every element that is not a view-style link, in order, and the head is then set to those elements followed by the new link, as `WithViewStyle` specifies |
| Router.Page.LoadView | src/routes/route.js:22-47 | a failed fetch throws before the mount node or head changes; otherwise the fragment is mounted, the view's stylesheet replaces the old one, and the initializers run in order; the load fails iff the fetch fails or the view's if-chain initializer throws |
| Router.Page.HandleRoute | src/routes/route.js:73-90 | the view loaded is the resolved route; a failed fetch mounts the error text and leaves the head unchanged; a throwing initializer mounts the error text with the new view's stylesheet already in the head |
| Router.LoginClick | src/routes/route.js:206-229 | a rejected login changes no storage and navigates nowhere; a resolved login stores `token` and `id` and then navigates to `#/dashboard` |
| Router.LoginLeadsToDashboard | src/routes/route.js:223 | the login navigation resolves to the dashboard view |
| Router.ResetClickAsWritten | src/routes/route.js:172-200 | as written: no reset call when the two passwords differ, and the mismatch is reported in red |
| Router.ResetAsWrittenMisreports | src/routes/route.js:184-200 | as written, a successful reset is reported in red as an error, and a rejected one throws from the `catch` and leaves the message as it was |
| Router.ResetClick | src/routes/route.js:172-200 | as intended: no call on a mismatch, nothing is thrown, the redirect is scheduled iff the call resolved, and the message is green iff it redirects |
| Router.ResetRedirectsToLogin | src/routes/route.js:191 | the reset redirect resolves to the login view |
| Session.GetItem | src/scripts/sitemap.controller.js:16-19 | `getItem` yields a value iff the key is stored, and then the stored value |
| Session.FirstTruthy | src/scripts/sitemap.controller.js:16-19 | an `\|\|` chain yields a truthy value iff one exists, and then the first one; otherwise it yields its last operand |
| Session.TokenIsFirstTruthy | src/scripts/sitemap.controller.js:14-20 | the token is the first truthy value among local `token`, `authToken`, `jwt` and session `token` |
| Session.TokenFoundIff | src/scripts/sitemap.controller.js:14-20 | a token is found iff one of the four entries is a non-empty string, and it is one of them |
| Session.GetTokenFromStorage | src/scripts/sitemap.controller.js:14-20 | the `\|\|` chain over local `token`, `authToken`, `jwt` and session `token`; `Session.TokenIsFirstTruthy` and `Session.TokenFoundIff` state what it yields |
| Session.LoggedOut | src/scripts/sitemap.controller.js:24-28 | logout removes exactly `token`, `authToken` and `jwt` and keeps every other entry with its value |
| Session.LogoutForgetsToken | src/scripts/sitemap.controller.js:14-28 | after logout no token is found |
| Session.LogoutIdempotent | src/scripts/sitemap.controller.js:24-28 | logging out twice is the same as logging out once |
| Session.UserInfoAuthorization | src/scripts/sitemap.controller.js:33-45 | the user-info request is made iff a token is found, with the header `Bearer ` followed by exactly the token `getTokenFromStorage` returns, a non-empty stored value |
| Session.BrowserStorage.constructor | src/scripts/sitemap.controller.js:14-20 | storage holds the given local and session maps and location |
| Session.BrowserStorage.PerformLogout | src/scripts/sitemap.controller.js:23-31 | the loop over the three keys leaves both stores logged out and the location at `#/login` |
| Session.BrowserStorage.ClearAll | src/scripts/edit_profile.controller.js:489-492 | both stores become empty and the location is kept |
| CalendarShared.FullYear | src/calendar/scripts/shared.js:10 | the `Date` constructor maps years 0..99 to 1900..1999 and keeps every other year |
| CalendarShared.CreateLocalDate | src/calendar/scripts/shared.js:8-11 | a date is produced only from at least three dash-separated numbers |
| CalendarShared.DateOfParts | src/calendar/scripts/shared.js:9-10 | a date is produced iff the first three parts are numbers; it is (full year, month − 1, day) |
| CalendarShared.CreateLocalDateOfDigits | src/calendar/scripts/shared.js:8-11 | `createLocalDate("Y-M-D")` on digit strings yields year Y, month M − 1 and day D |
| CalendarShared.ViewElementId | src/calendar/scripts/shared.js:132-137 | the four view names map to their element ids; any other name maps to `"undefined"` |
| CalendarShared.FirstWithId | src/calendar/scripts/shared.js:139 | the element found is the first with that id, or none |
| CalendarShared.SwitchActivatesOnlyTarget | src/calendar/scripts/shared.js:125-148 | after the switch, the only active content view is the first one with the target id; an unknown name leaves none active; non-content elements keep their state |
| CalendarShared.Switched | src/calendar/scripts/shared.js:125-148 | the active flags after `switchView`; `CalendarShared.SwitchActivatesOnlyTarget` states which element ends up active |
| CalendarShared.ViewDocument.constructor | src/calendar/scripts/shared.js:125-148 | a document holds the elements' ids, content-view flags and active flags |
| CalendarShared.ViewDocument.SwitchView | src/calendar/scripts/shared.js:125-148 | the clearing loop and the activation give the switched state; ids and element kinds are unchanged |
| CalendarShared.ViewPath | src/calendar/scripts/shared.js:98-105 | only `allTasks`, `trash` and `about` have a page, each its own |
| CalendarShared.LoadViewContent | src/calendar/scripts/shared.js:97-119 | content is returned iff the name has a page and the page is served; any other name yields null without a fetch |
| CalendarShared.LoadableViewsAreSwitchable | src/calendar/scripts/shared.js:98-137 | every loadable view has an element id, and distinct loadable views load distinct pages |
| JsDate.DaysInMonth | src/calendar/scripts/calendar.controller.js:65-66 | the month length is 28..31: 29 exactly in February of a leap year, 30 in April, June, September and November |
| JsDate.MonthStart | src/calendar/scripts/calendar.controller.js:65-66 | each month starts where the previous one ends |
| JsDate.MakeDayCarry | src/calendar/scripts/calendar.controller.js:65 | month 12 of a year is January of the next year |
| JsDate.DayZeroIsLastDay | src/calendar/scripts/calendar.controller.js:65-66 | day 0 of the next month is the last day of this month |
| JsDate.LastDayOfMonth | src/calendar/scripts/calendar.controller.js:65-66 | the date of day 0 of the next month is (this year, this month, its length), so `getDate()` reads the month length |
| JsDate.YearLength | src/calendar/scripts/calendar.controller.js:65-66 | a year has 366 days iff it is a Gregorian leap year, 365 otherwise |
| JsDate.MakeDayInjective | src/calendar/scripts/shared.js:10 | distinct valid dates have distinct day numbers |
| JsDate.MakeDay | src/calendar/scripts/shared.js:10 | the day number of `new Date(y, m, d)` in a year the constructor has already read; `JsDate.MakeDayCarry`, `JsDate.DayZeroIsLastDay` and `JsDate.MakeDayInjective` state its carries and injectivity |
| JsDate.WeekDay | src/calendar/scripts/calendar.controller.js:67 | `getDay()` is in 0..6 |
| JsDate.WeekDayAnchors | src/calendar/scripts/calendar.controller.js:67 | 1 January 1970 is a Thursday and 1 September 2024 is a Sunday |
| Calendar.KeyRoundTrip | src/calendar/scripts/calendar.controller.js:81 | `createLocalDate` of a cell's `YYYY-MM-DD` key gives back the cell's year, month and day |
| Calendar.KeysDistinct | src/calendar/scripts/calendar.controller.js:81 | distinct dates have distinct keys |
| Calendar.DateKey | src/calendar/scripts/calendar.controller.js:81 | a day cell's `YYYY-MM-DD` key; `Calendar.KeyRoundTrip` and `Calendar.KeysDistinct` state that it reads back and identifies the date |
| Calendar.OnDate | src/calendar/scripts/calendar.controller.js:195 | the filter keeps exactly the tasks whose `task_date` equals the key |
| Calendar.OnDateCount | src/calendar/scripts/calendar.controller.js:195 | the filter keeps each such task with its multiplicity and drops the rest |
| Calendar.OnDateConcat | src/calendar/scripts/calendar.controller.js:194-195 | filtering a concatenation filters each part |
| Calendar.GetTasksForDateMeaning | src/calendar/scripts/calendar.controller.js:178-196 | every task returned is on the key; with a task manager it is the todo, inprocess and finished tasks on the key, in that order; with no manager and nothing stored it is empty |
| Calendar.GetTasksForDate | src/calendar/scripts/calendar.controller.js:178-196 | the tasks on a date key; `Calendar.GetTasksForDateMeaning` states which tasks and in which order |
| Calendar.TasksForDate | src/calendar/scripts/calendar.controller.js:238-251 | a three-column result exists iff there is a task manager |
| Calendar.TasksForDateKeepColumns | src/calendar/scripts/calendar.controller.js:246-251 | each column keeps exactly its own tasks on the key, so no task changes column |
| Calendar.TasksForDateMatchesLookup | src/calendar/scripts/calendar.controller.js:194-251 | the three filtered columns, concatenated, are what `getTasksForDate` returns |
| Calendar.Blanks | src/calendar/scripts/calendar.controller.js:70-74 | n blank cells |
| Calendar.MonthDaysAt | src/calendar/scripts/calendar.controller.js:77-100 | the i-th day cell is day i + 1 |
| Calendar.FirstWeekDay | src/calendar/scripts/calendar.controller.js:64-67 | `new Date(y, m, 1).getDay()`: the weekday of the 1st in the year the constructor reads (1900 + y for y in 0..99) |
| Calendar.MonthLength | src/calendar/scripts/calendar.controller.js:65-66 | `new Date(y, m + 1, 0).getDate()`: the month's length in the year the constructor reads |
| Calendar.TwoDigitYearGrid | src/calendar/scripts/calendar.controller.js:64-67 | for year 0 the grid uses 1900, which is not a leap year: February has 28 days and starts on a Thursday, although proleptic year 0 is a leap year |
| Calendar.Grid | src/calendar/scripts/calendar.controller.js:63-100 | the cells `renderCalendarGrid` builds; `Calendar.GridCellAt`, `Calendar.GridShape` and `Calendar.AtMostOneToday` state their layout and marks |
| Calendar.GridCellAt | src/calendar/scripts/calendar.controller.js:63-100 | the grid has `startingDayOfWeek + daysInMonth` cells, `daysInMonth` being the month's length in the year the constructor reads: blanks, then days 1..daysInMonth in order |
| Calendar.GridShape | src/calendar/scripts/calendar.controller.js:63-100 | every cell before the start is blank and every later cell is its day, with its key, task mark and today mark |
| Calendar.DayCellShape | src/calendar/scripts/calendar.controller.js:81-94 | a day cell is marked `has-tasks` iff the lookup on its key is non-empty, and `today` iff its year, month and day are today's |
| Calendar.DayCell | src/calendar/scripts/calendar.controller.js:81-94 | one day's cell; `Calendar.DayCellShape` states its key and marks |
| Calendar.GridCellIsToday | src/calendar/scripts/calendar.controller.js:91-94 | a grid cell is marked today iff it is the day cell of today's date |
| Calendar.AtMostOneToday | src/calendar/scripts/calendar.controller.js:91-94 | at most one cell is marked today; when today lies in the shown month, it is the cell of today's day |
| Calendar.GridKeysReadBack | src/calendar/scripts/calendar.controller.js:81 | every day cell's key parses back to a valid date of the shown month |
| Calendar.ShiftMonth | src/calendar/scripts/calendar.controller.js:107-110 | the new month index is in 0..11 and counts `direction` months from the old one |
| Calendar.ShiftMonthBack | src/calendar/scripts/calendar.controller.js:107-110 | moving forward and then back returns to the same month |
| Calendar.AppendCells | src/calendar/scripts/calendar.controller.js:70-100 | the two counting loops build exactly the grid |
| Calendar.CalendarController.constructor | src/calendar/scripts/calendar.controller.js:4-8 | the calendar opens on today's month with no date selected |
| Calendar.CalendarController.RenderCalendarGrid | src/calendar/scripts/calendar.controller.js:50-101 | the rendered cells are the grid of the shown month, laid out by the weekday and length of the month in the year the `Date` constructor reads, none selected; the date state is unchanged |
| Calendar.CalendarController.ChangeCalendarMonth | src/calendar/scripts/calendar.controller.js:107-110 | the shown month moves by `direction` and the grid of the new month is rendered as `renderCalendarGrid` does |
| Calendar.CalendarController.SelectDate | src/calendar/scripts/calendar.controller.js:117-136 | exactly the clicked cell is selected, `selectedDate` is its key, and the board switch follows |
| Calendar.CalendarController.SwitchToTaskBoardWithDate | src/calendar/scripts/calendar.controller.js:202-216 | with a task manager the board shows the parsed date; without one, the key is saved and the dashboard opens |
| Tasks.FindIndex | src/scripts/dashboard.controller.js:580 | the index is the first task that matches, or −1 iff none matches |
| Tasks.Moved | src/scripts/dashboard.controller.js:576-585 | the board after `moveTask`; `Tasks.MoveNoOp`, `Tasks.MoveShape` and `Tasks.MovePreservesTasks` state its effect |
| Tasks.Removed | src/scripts/dashboard.controller.js:609-614 | the board after removing the first match; `Tasks.RemoveShape` and `Tasks.RemoveNoOp` state its effect |
| Tasks.Grouped | src/scripts/dashboard.controller.js:289-298 | the fetched tasks grouped by status; `Tasks.GroupedKeepsRecognised`, `Tasks.GroupedFlat` and `Tasks.GroupedColumnsHoldTheirStatus` state what it holds |
| Tasks.FirstMatchUnique | src/scripts/dashboard.controller.js:580 | the first match is unique |
| Tasks.RemoveAt | src/scripts/dashboard.controller.js:582 | `splice(i, 1)` removes exactly that one task |
| Tasks.FlattenOther | src/scripts/dashboard.controller.js:582-583 | changing a column outside the listed ones leaves the flattened board unchanged |
| Tasks.FlattenUpdate | src/scripts/dashboard.controller.js:582-583 | replacing one column changes the board's tasks by exactly that column's difference |
| Tasks.MovePreservesTasks | src/scripts/dashboard.controller.js:576-585 | a move, thrown or not, keeps the board's tasks as a multiset |
| Tasks.MoveKeepsTasks | src/scripts/dashboard.controller.js:582-583 | remove-then-append between two columns keeps the tasks as a multiset |
| Tasks.MoveNoOp | src/scripts/dashboard.controller.js:576-585 | a move within one column, or with no matching task, changes nothing |
| Tasks.MoveShape | src/scripts/dashboard.controller.js:580-583 | otherwise the first match leaves the source column and is appended to the target; other columns are unchanged |
| Tasks.RemoveShape | src/scripts/dashboard.controller.js:609-614 | removing the first match takes one task from that column only |
| Tasks.RemoveNoOp | src/scripts/dashboard.controller.js:609-614 | with no match, removal changes nothing |
| Tasks.WithStatusAppend | src/scripts/dashboard.controller.js:290-295 | the status filter distributes over concatenation |
| Tasks.WithStatusCount | src/scripts/dashboard.controller.js:290-295 | the status filter keeps each task of that status with its multiplicity |
| Tasks.RecognisedCount | src/scripts/dashboard.controller.js:290-295 | keeping known statuses keeps each such task with its multiplicity and drops the rest |
| Tasks.GroupedKeepsRecognised | src/scripts/dashboard.controller.js:289-298 | the grouping holds exactly the tasks with a known status, each once per occurrence; all others are dropped |
| Tasks.GroupedFlat | src/scripts/dashboard.controller.js:289-298 | the grouped columns, in order, are each status's tasks in fetch order |
| Tasks.GroupedColumnsHoldTheirStatus | src/scripts/dashboard.controller.js:289-298 | every task in a column has that column's status |
| Dashboard.StatusColumnBijection | src/scripts/dashboard.controller.js:15-25 | `statusToColumn` and `columnToStatus` are inverse bijections between the three statuses and the three columns |
| Dashboard.StatusToColumn | src/scripts/dashboard.controller.js:15-19 | the status-to-column table; `Dashboard.StatusColumnBijection` states it is a bijection |
| Dashboard.ColumnToStatus | src/scripts/dashboard.controller.js:21-25 | the column-to-status table, the inverse of `statusToColumn` by `Dashboard.StatusColumnBijection` |
| Dashboard.EditColumn | src/scripts/dashboard.controller.js:474 | the column `editTask` records; `Dashboard.EditColumnMeaning` states which |
| Dashboard.EditColumnMeaning | src/scripts/dashboard.controller.js:474 | a task with a known status is recorded in that status's column whatever card was clicked; otherwise in the clicked column, or `todo` when that is empty; a card on the board always records a board column |
| Dashboard.GroupByColumn | src/scripts/dashboard.controller.js:289-295 | the `forEach` loop builds exactly the grouping of the fetched list |
| Dashboard.GroupedSnoc | src/scripts/dashboard.controller.js:290-295 | one more fetched task is appended to its own column only |
| Dashboard.GroupedByStatusToColumn | src/scripts/dashboard.controller.js:290-295 | a known status's column holds exactly that status's tasks in fetch order |
| Dashboard.SaveRequest | src/scripts/dashboard.controller.js:174-236 | a blank title is rejected before the token is looked at, then a missing token; otherwise it is an update iff a task is being edited, and the body has the trimmed title and description, the checked status or "to do", and the board's date |
| Dashboard.SaveTitleGate | src/scripts/dashboard.controller.js:190-193 | a title is rejected iff it is all white space; the title sent has no surrounding white space |
| Dashboard.TaskManager.constructor | src/scripts/dashboard.controller.js:6-25 | the board starts with the seed columns and nothing staged for editing or deletion |
| Dashboard.TaskManager.RenderTasks | src/scripts/dashboard.controller.js:269-314 | the service is called iff a token is present (without one the method throws first); the board is replaced by the grouping iff it was called and the fetch succeeds; otherwise it is unchanged |
| Dashboard.TaskManager.MoveTask | src/scripts/dashboard.controller.js:576-585 | the board becomes the move of the first `_id \|\| id` match, or the call throws for a missing column; a refresh happens iff the board changed |
| Dashboard.TaskManager.DeleteTask | src/scripts/dashboard.controller.js:587-620 | the board changes only with a token and an ok response, and then loses the first match in that column only |
| Dashboard.TaskManager.DeleteTaskWithConfirmation | src/scripts/dashboard.controller.js:542-562 | a task is staged for deletion iff it exists in that column; a missing column throws |
| Dashboard.TaskManager.CloseDeleteModal | src/scripts/dashboard.controller.js:564-567 | the staged task is always cleared |
| Dashboard.TaskManager.CloseModal | src/scripts/dashboard.controller.js:159-163 | the task being edited is cleared |
| Dashboard.TaskManager.EditTask | src/scripts/dashboard.controller.js:441-481 | the modal opens in edit mode iff `getTaskById` found the task, and then `editingTask` is the task id with the column `EditColumn` picks; otherwise nothing changes; the board and the staged deletion never change |
| Dashboard.TaskManager.ConfirmDeleteTask | src/scripts/dashboard.controller.js:569-574 | deletion happens only when a task is staged, and the staged task is cleared |
| Dashboard.TaskManager.SaveTask | src/scripts/dashboard.controller.js:174-259 | the call made is the save request; the modal closes iff a call was made and it succeeded; the board is untouched |
| Dashboard.StagedTaskExists | src/scripts/dashboard.controller.js:549-559 | a staged task exists in its column |
| LegacyDashboard.GroupByExactStatus | src/dashboard/scripts/script.js:313-318 | the if-chain builds exactly the grouping of the fetched list |
| LegacyDashboard.PostRequest | src/dashboard/scripts/script.js:152-226 | a blank title is rejected, then a missing token; otherwise a create request is posted with the trimmed fields, even while editing |
| LegacyDashboard.ShownTime | src/dashboard/scripts/script.js:240 | the stored time is empty iff the input is empty |
| LegacyDashboard.Edited | src/dashboard/scripts/script.js:239-242 | an edit overwrites title, time, description and reminder and keeps the task's identity, status and date |
| LegacyDashboard.NewTask | src/dashboard/scripts/script.js:250-256 | a new task gets the clock as its id and the form's trimmed fields |
| LegacyDashboard.SaveCreateAppends | src/dashboard/scripts/script.js:249-258 | a create appends exactly one task to the chosen column and changes no other column |
| LegacyDashboard.AppendKeepsOthers | src/dashboard/scripts/script.js:257 | the append adds exactly one task to the board |
| LegacyDashboard.SaveEditInPlace | src/dashboard/scripts/script.js:236-248 | an edit into the same column overwrites the task in place |
| LegacyDashboard.SaveEditMoves | src/dashboard/scripts/script.js:236-248 | an edit into another column overwrites the task and moves it there, keeping the task count |
| LegacyDashboard.MovedEditShape | src/dashboard/scripts/script.js:244-246 | the moved task leaves its column and ends the target column |
| LegacyDashboard.SavedEdit | src/dashboard/scripts/script.js:236-248 | the edit step is the overwrite followed by the move when the column differs |
| LegacyDashboard.Saved | src/dashboard/scripts/script.js:236-261 | the board after a successful save; `LegacyDashboard.SaveCreateAppends`, `LegacyDashboard.SaveEditInPlace` and `LegacyDashboard.SaveEditMoves` state its effect |
| LegacyDashboard.ReplaceKeepsCount | src/dashboard/scripts/script.js:239-242 | overwriting a task in place keeps the task count |
| LegacyDashboard.TaskManager.constructor | src/dashboard/scripts/script.js:3-13 | the board starts with the seed columns and nothing staged |
| LegacyDashboard.TaskManager.RenderTasks | src/dashboard/scripts/script.js:287-334 | the service is called iff a token is present; the grouping is shown iff it was called and the fetch succeeds; `this.tasks` is never written |
| LegacyDashboard.TaskManager.MoveTask | src/dashboard/scripts/script.js:486-495 | the board becomes the move of the first `id` match, or the call throws for a missing column |
| LegacyDashboard.TaskManager.DeleteTask | src/dashboard/scripts/script.js:497-503 | a local delete of the first `id` match in that column only |
| LegacyDashboard.TaskManager.EditTask | src/dashboard/scripts/script.js:409-436 | editing is staged iff the task exists in that column |
| LegacyDashboard.TaskManager.DeleteTaskWithConfirmation | src/dashboard/scripts/script.js:451-472 | deletion is staged iff the task exists in that column |
| LegacyDashboard.TaskManager.CloseDeleteModal | src/dashboard/scripts/script.js:474-477 | the staged task is cleared |
| LegacyDashboard.TaskManager.CloseModal | src/dashboard/scripts/script.js:137-141 | the task being edited is cleared |
| LegacyDashboard.TaskManager.ConfirmDeleteTask | src/dashboard/scripts/script.js:479-484 | it acts only when a task is staged, deletes it locally and clears it |
| LegacyDashboard.TaskManager.SaveTask | src/dashboard/scripts/script.js:152-267 | nothing changes on a rejected or failed post; after a successful post the board is updated locally and the modal closes |
| LegacyDashboard.TaskManager.ApplySave | src/dashboard/scripts/script.js:236-261 | the local update is the saved board, and editing ends unless it threw |
| LegacyDashboard.TaskManager.ApplyEdit | src/dashboard/scripts/script.js:236-248 | the in-place overwrite and move give the saved board |
| LegacyDashboard.TaskManager.ApplyCreate | src/dashboard/scripts/script.js:249-258 | the push gives the saved board |
| TimeFormat.FormatTime | src/scripts/dashboard.controller.js:261-267 | the result is empty iff the input is empty |
| TimeFormat.FormatTimeHours | src/calendar/scripts/shared.js:74-80 | hour 0 shows as 12 AM, 12 as 12 PM, 13..23 as h − 12 PM, 1..11 as h AM; the minutes are copied |
| TimeFormat.FormatTimeClock | src/dashboard/scripts/script.js:274-280 | the result is the 12-hour clock string of the hour and minutes |
| TimeFormat.ConvertTo24Hour | src/scripts/dashboard.controller.js:529-531 | the empty string becomes `12:00` |
| TimeFormat.ConvertOfClock | src/scripts/dashboard.controller.js:529-540 | hour 12 becomes 00, PM adds 12, the hour is padded to two digits and the minutes are copied |
| TimeFormat.ConvertClock | src/dashboard/scripts/script.js:438-449 | a 12-hour time k:MM AM/PM converts to the 24-hour hour of k |
| TimeFormat.FormatThenConvert | src/scripts/dashboard.controller.js:261-267 | for every valid `HH:MM`, `convertTo24Hour(formatTime(t)) == t` |
| TimeFormat.ConvertThenFormat | src/dashboard/scripts/script.js:274-280 | converting a canonical 12-hour time and formatting it again gives it back |
| TimeFormat.HourRoundTrip | src/scripts/dashboard.controller.js:264-266 | the 12-hour hour and the AM/PM marker determine the 24-hour hour |
| ProfileRules.EmailValidIff | src/scripts/edit_profile.controller.js:266-275 | the email test holds iff the value is `local@domain.tld` with no white space or `@` in any part |
| ProfileRules.PasswordPatternMeaning | src/scripts/edit_profile.controller.js:288-299 | the password pattern holds iff there is a lower-case letter, an upper-case letter and a digit, and no line terminator |
| ProfileRules.FieldNamed | src/scripts/edit_profile.controller.js:253-307 | each of the five input names selects its rule; any other name selects none |
| ProfileRules.CheckName | src/scripts/edit_profile.controller.js:253-264 | valid iff the length in UTF-16 code units is in 2..100; the message is empty iff valid |
| ProfileRules.CheckEmail | src/scripts/edit_profile.controller.js:266-275 | valid iff the value matches the email pattern |
| ProfileRules.CheckAge | src/scripts/edit_profile.controller.js:277-286 | valid iff non-empty and `parseInt` gives a value in 13..122 |
| ProfileRules.CheckPassword | src/scripts/edit_profile.controller.js:288-299 | valid iff empty, or at least 8 UTF-16 code units long and matching the pattern |
| ProfileRules.AstralName | src/scripts/edit_profile.controller.js:257-260 | one astral character (one code point, two UTF-16 units) is a valid name |
| ProfileRules.AstralPassword | src/scripts/edit_profile.controller.js:289 | seven characters, one astral, are long enough for the password rule |
| ProfileRules.CheckConfirm | src/scripts/edit_profile.controller.js:301-307 | valid iff empty or equal to the untrimmed password field |
| ProfileRules.ValidateField | src/profile/scripts/editprofile.js:175-247 | the trimmed value passes its field's rule iff valid; fields of any other name are valid; the message is empty iff valid |
| ProfileRules.RequiredPrefixAll | src/scripts/edit_profile.controller.js:338-341 | the loop over name, email and age succeeds iff each present field is valid |
| ProfileRules.ValidateForm | src/scripts/edit_profile.controller.js:334-352 | the accumulating loop gives exactly the form rule: required fields valid, and password and confirm valid when the password is non-empty |
| ProfileRules.FormValidMeaning | src/profile/scripts/editprofile.js:273-300 | a valid form has a name of 2..100 UTF-16 code units, a matching email, an age in 13..122 and a blank password or one of at least 8 code units matching the pattern |
| ProfileRules.HasUnsavedChanges | src/scripts/edit_profile.controller.js:510-513 | there are unsaved changes iff the password field holds a non-blank value |
| ProfileRules.Payload | src/profile/scripts/editprofile.js:339-349 | name and email are sent as typed, age as `parseInt` of the field, and the password only when it is non-empty |
| ProfileRules.ParseIntOfNull | src/profile/scripts/editprofile.js:342 | a missing age field parses to `NaN` |
| ProfileRules.PayloadAgeIsValidated | src/profile/scripts/editprofile.js:342 | in a valid form the age sent is the validated age in 13..122 |
| ProfileRules.BlankPasswordIsSent | src/profile/scripts/editprofile.js:343 | as written, a password of three spaces passes validation and is sent, although there are no unsaved changes |
| ProfileRules.PaddedPasswordNeverConfirms | src/scripts/edit_profile.controller.js:301-307 | as written, the same padded password typed twice passes the password rule but fails the confirm rule |
| ProfileRules.IntendedPassword | src/scripts/edit_profile.controller.js:346-349 | as intended, a password is sent iff the field is non-blank, and then as typed |
| ProfileRules.IntendedPasswordRules | src/scripts/edit_profile.controller.js:288-307 | as intended, a password that is sent has passed the password rule, the same text typed twice confirms, and a blank password is not sent |
| ProfileRules.IntendedFormValid | src/scripts/edit_profile.controller.js:334-352 | as intended: the required fields as `validateForm` checks them, and a filled-in confirmation equal to the typed password |
| ProfileRules.IntendedAcceptsRepeatedPassword | src/scripts/edit_profile.controller.js:301-307 | as intended, a password typed identically twice is accepted exactly when the password rule and the required fields accept the form |
| ProfileRules.PaddedPasswordConfirmsAsIntended | src/scripts/edit_profile.controller.js:301-307 | the padded password `" Abcdefg1"` typed twice is accepted by the intended check and refused by `validateForm` as written |
| ProfilePage.CheckAvatar | src/profile/scripts/editprofile.js:123-147 | no file does nothing; a MIME type not starting with `image/` is refused; a file over 5 MiB is refused; anything else is previewed |
| ProfilePage.AvatarSizeBoundary | src/profile/scripts/editprofile.js:133-136 | exactly 5 MiB is accepted, one byte more is refused, and a smaller file of an accepted type is accepted |
| ProfilePage.AvatarTypeIsPrefix | src/profile/scripts/editprofile.js:127-130 | the type check is a prefix test: any `image/` subtype passes and `text/image/png` does not |
| ProfilePage.Toggle | src/profile/scripts/editprofile.js:149-160 | with the input present the visibility flips and the icon follows; without it nothing changes |
| ProfilePage.ToggleTwiceRestores | src/profile/scripts/editprofile.js:149-160 | two toggles restore the original visibility, and the whole state when it was consistent |
| ProfilePage.Populate | src/profile/scripts/editprofile.js:107-115 | a field is overwritten only when the stored value is truthy; the age is shown as its decimal text |
| ProfilePage.SaveThenLoad | src/profile/scripts/editprofile.js:337-361 | saving a valid form and populating it from the saved data leaves name and email as typed, and the age text parses to the same age and still passes the age rule |
| ProfilePage.ReloadFields | src/profile/scripts/editprofile.js:107-115 | populating from a payload of the fields' own non-blank name and email and their parsed age keeps name and email, and the age text parses to the same age and passes the age rule |
| ProfilePage.AgeReloads | src/profile/scripts/editprofile.js:113 | the reloaded age text parses back to the saved age and passes the age rule |
| ProfilePage.AgeTextParses | src/profile/scripts/editprofile.js:113 | the decimal text of an age in 13..122 has no padding and parses back to it |
| ProfilePage.ProfilePage.constructor | src/profile/scripts/editprofile.js:90-105 | both password inputs start hidden, with consistent icons |
| ProfilePage.ProfilePage.PopulateForm | src/profile/scripts/editprofile.js:107-115 | the fields become the populated fields; nothing else changes |
| ProfilePage.ProfilePage.LoadUserData | src/profile/scripts/editprofile.js:90-105 | stored user data populates the form; without it the form is unchanged |
| ProfilePage.ProfilePage.HandleAvatarChange | src/profile/scripts/editprofile.js:123-147 | the verdict is the avatar check, and the preview changes only on an accepted image |
| ProfilePage.ProfilePage.TogglePasswordVisibility | src/profile/scripts/editprofile.js:149-160 | the password view toggles and nothing else changes |
| ProfilePage.ProfilePage.ToggleConfirmPasswordVisibility | src/profile/scripts/editprofile.js:162-173 | the confirm view toggles and nothing else changes |
| ProfilePage.ProfilePage.SaveProfile | src/profile/scripts/editprofile.js:337-361 | the payload is built from the form and stored as the user data |
| ProfilePage.ProfilePage.HasChanges | src/profile/scripts/editprofile.js:395-399 | there are changes iff the password field holds a non-blank value |
| EditProfile.DeleteRequest | src/scripts/edit_profile.controller.js:473-507 | a disabled button does nothing; without a token no request is sent; the account is deleted iff the status is 204; any other status is refused |
| EditProfile.DeleteNeedsPhraseTokenAnd204 | src/scripts/edit_profile.controller.js:454-492 | deletion happens iff the text is exactly `DELETE ACCOUNT`, a token is found and the reply is 204; a lower-case or padded phrase is ignored |
| EditProfile.NoSecondDeletion | src/scripts/edit_profile.controller.js:489-492 | after the stores are cleared, a second confirmation finds no token |
| EditProfile.DeleteAccountDialog.constructor | src/scripts/edit_profile.controller.js:443-467 | the dialog starts hidden, with empty text and the button disabled |
| EditProfile.DeleteAccountDialog.Open | src/scripts/edit_profile.controller.js:450-451 | opening shows the dialog and keeps the text and button state |
| EditProfile.DeleteAccountDialog.Input | src/scripts/edit_profile.controller.js:454-460 | the typed text is kept and the button is enabled iff it is exactly the phrase (the dialog's invariant) |
| EditProfile.DeleteAccountDialog.Close | src/scripts/edit_profile.controller.js:463-467 | closing hides the dialog, empties the text and disables the button |
| EditProfile.DeleteAccountDialog.ConfirmClick | src/scripts/edit_profile.controller.js:473-507 | the outcome is the delete request; only a 204 clears both stores and navigates to `#/login`; otherwise storage is unchanged |
| JsText.TrimSpec | src/scripts/edit_profile.controller.js:245 | a trimmed string neither starts nor ends with white space, and it is empty iff the input is all white space |
| JsText.Trim | src/scripts/edit_profile.controller.js:245 | `value.trim()`; `JsText.TrimSpec` states what it removes |
| JsText.Utf16Length | src/scripts/edit_profile.controller.js:257-260 | `value.length` counts UTF-16 code units: at least the number of characters and at most twice it |
| JsText.Utf16LengthIsLength | src/scripts/edit_profile.controller.js:257-260 | the code-unit length equals the number of characters iff no character is astral |
| JsText.Utf16LengthAppend | src/scripts/edit_profile.controller.js:289 | code-unit lengths add over concatenation |
| JsText.DecimalValue | src/calendar/scripts/calendar.controller.js:81 | a number's decimal text reads back as the number |
| JsText.TwoDigitValue | src/calendar/scripts/calendar.controller.js:81 | `padStart(2, "0")` of a number below 100 gives two digits that read back as it |
| JsText.SplitFirst | src/calendar/scripts/shared.js:9 | splitting at a first separator gives the part before it and the split of the rest |
| JsText.ParseIntOfTrimmed | src/profile/scripts/editprofile.js:342 | `parseInt` ignores surrounding white space |
| JsText.ParseIntOfDecimal | src/profile/scripts/editprofile.js:342 | `parseInt` of a positive number's decimal text gives the number |
| JsText.ParseInt | src/profile/scripts/editprofile.js:342 | `parseInt` with no radix; `JsText.ParseIntOfTrimmed` and `JsText.ParseIntOfDecimal` state what it reads |

## Left out

- Rendering: the DOM markup, task cards, context menus, modals, alerts, header dropdowns
  and the avatar image. Elements are modelled only where the logic reads or writes
  their state: the mount node, the head's links, the view classes and the grid cells.
- Asynchrony: promise ordering, `setTimeout` (the reset redirect's delay, `initDashboard`)
  and the retry loop that starts the calendar page. Each async step is modelled as one
  call whose awaited results are parameters.
- Service calls, `fetch` and the HTTP wrapper. Their results are parameters
  (`Result` values, a map from URL to body, a response status), and the backend is
  not modelled.
- JSON parsing and the `localStorage` persistence format. A stored board is an optional value.
- `Date` behaviour that depends on time zones and the system clock: `toISOString`,
  `changeDate`, `isToday`, `updateHeaderDate`, `handleSearchByDate`. Today's date and
  `Date.now()` are parameters.
- Calendar.CalendarController.ChangeCalendarMonth: models the month index moving by
  `direction`, not the day-of-month overflow of `setMonth` (31 January + 1 month gives
  3 March). That behaviour depends on the current day, which the controller does not
  keep in this model.
- Calendar.CalendarController.RenderCalendarGrid: the weekday of the 1st is
  `Calendar.FirstWeekDay`, `JsDate.WeekDay` of the 1st's day number in the year the
  `Date` constructor reads. `JsDate.WeekDayAnchors` checks `WeekDay` against the real
  calendar only at two anchor dates.
- Regular expressions: the email and password patterns are written as character-class
  predicates. The email pattern is read as three white-space-free parts separated by
  the first `@` and a later `.`.
- JavaScript object-prototype keys: a status such as `"constructor"` is treated as an
  unknown status, not as an inherited property of the column tables.
- TimeFormat.FormatTime and TimeFormat.ConvertTo24Hour: require `""` or a well-formed
  time (`HH:MM` from a time input, `H:MM AM|PM` from a task card). Other strings never
  reach them.
- `saveEditedTask` of the live board: it calls a `loadTasks` method that does not
  exist, and nothing calls it. It is dead code.
- `enableDragAndDrop`, `showAllTasks` and `showTrash` of the live board: they only log
  a message.
- Dashboard.TaskManager.EditTask: models the `editingTask` it records and whether the
  modal opens, not the form fields it fills. Its time field comes from
  `Date.toTimeString`, which depends on the time zone. `getTaskById` is a service call,
  so its answer is a parameter.
- `populateForm`, `handleAvatarChange` and `uploadAvatar` of `edit_profile.controller.js`:
  the page model follows `editprofile.js` for these. The validators, the payload's
  password rule, `hasUnsavedChanges` and the delete dialog follow
  `edit_profile.controller.js`.
- `handleDelete` adds new click listeners every time it is called. Only one listener
  is modelled.
- `showAlert`, which `editprofile.js` uses without importing. Alerts are not modelled.
- `FileReader`, `FormData` and the multipart avatar upload.
- The login, registration, recovery and stand-alone new-password pages, the about page
  and the service modules. They are DOM wiring over `fetch`.

## Findings

| source | as written | input that shows it | evidently intended | confidence | as-written member | corrected member |
|---|---|---|---|---|---|---|
| src/routes/route.js:184-200 | after the reset call resolves, the green success text is overwritten at once by `data.message \|\| "Error resetting password"` in red; the `catch` reads `data`, which is not in scope there, so a rejected call throws | matching passwords and a reply with no `message`: the user is redirected but sees "Error resetting password" in red; a rejected call shows nothing new | green success text with the redirect on success; red error text without a redirect on failure | not executed | Router.ResetAsWrittenMisreports | Router.ResetClick |
| src/profile/scripts/editprofile.js:343 | validation trims the password, so a blank password passes, but the payload keeps any non-empty raw value | a form whose password field is three spaces: it is valid and the payload's password is `"   "` | a blank password is treated as "no new password" and not sent | not executed | ProfileRules.BlankPasswordIsSent | ProfileRules.IntendedPassword |
| src/scripts/edit_profile.controller.js:301-307 | the confirm rule compares the trimmed confirmation with the untrimmed password | the password `" Abcdefg1"` typed in both fields: the password passes, the confirmation fails | a confirmation equal to the typed password is accepted | not executed | ProfileRules.PaddedPasswordNeverConfirms | ProfileRules.PaddedPasswordConfirmsAsIntended |

# Weekly planner — a verified model of its task logic

The planner keeps a list of tasks. Each task has an id, a text, a completion flag and a week day, named in Portuguese from "Segunda" (Monday) to "Domingo" (Sunday). The model covers five parts of the app:

- **The task store.** This is the `useTodoList` hook. It adds, edits, toggles, deletes, moves and replicates tasks. It refuses blank texts, and it refuses a text that a task on the same day already has, compared case-insensitively. It answers "the tasks of a day" and "the tasks of a day under the current filter".
- **The statistics panel.** It chooses the counted tasks for the daily, weekly or monthly mode. It derives the total, completed, pending and percentage figures, the mode's heading and the summary message.
- **The day names.** This covers the Monday-first week and the mapping from a JavaScript `getDay()` index to a day.
- **The date helpers.** These are start and end of week or month, the Sunday-first day name and the formatted date text.
- **The page.** It selects today on mount, switches between a day's list and the statistics panel, and counts the tasks for each day button.

Modules:

- `Wrappers` holds `Option`.
- `Seqs` holds JavaScript's order-keeping `filter` and what "an order-keeping selection" means.
- `Strings` holds `trim`, `toLowerCase`, `String(n)` and `padStart`.
- `TodoTypes` covers `src/types/todo.ts`.
- `TodoStore` covers the hook. It contains the class `TodoList`, whose methods replace the `todos` field as `setTodos` does. Each method is specified by a function on the old list.
- `Statistics`, `DateUtils` and `IndexPage` cover the panel, the helpers and the page. The page is the class `IndexPage.Page`.

The store's central property is `StoreInvariant`. It says four things:
- no two tasks on the same day have the same lower-cased text;
- ids are distinct and below the next fresh id;
- every text is trimmed;
- every text is non-empty.

Every method of `TodoList` requires and re-establishes it (`Valid()`). So do the page's handlers, whose `Valid()` is the store's.

## Model

| member | source | states |
|---|---|---|
| TodoStore.TodoList.constructor | src/hooks/useTodoList.ts:7-9 | The store starts with no tasks, day "Segunda", filter "all", and the invariant holding. |
| TodoStore.AddCheck | src/hooks/useTodoList.ts:29-43 | Adding is refused as empty exactly when the text is all whitespace. It is refused as a duplicate exactly when the text is not blank and a task on that day already has the trimmed text, case-insensitively. |
| TodoStore.Added | src/hooks/useTodoList.ts:45-52 | A successful add appends one task at the end. The task has the fresh id, the trimmed text, `completed = false` and the given day. The old list is kept as the prefix. |
| TodoStore.TodoList.AddTodo | src/hooks/useTodoList.ts:28-54 | The result is true iff `AddCheck` finds nothing. On success the list becomes `Added(...)` and the id counter advances. Otherwise the list and the counter are unchanged. The invariant is preserved. |
| TodoStore.AddPreserves | src/hooks/useTodoList.ts:35-52 | An accepted add keeps the per-day unique text, distinct ids, bounded ids and trimmed texts. |
| TodoStore.AddTwiceRefused | src/hooks/useTodoList.ts:36-43 | After an add, adding the same text again on that day, in any letter case, is refused as a duplicate. |
| TodoStore.AddBlankRefused | src/hooks/useTodoList.ts:29-33 | Adding "" or "   " is refused as empty. |
| TodoStore.BuyMilkScenario | src/hooks/useTodoList.ts:28-54 | "Buy milk" is accepted on an empty list. "buy milk" on the same day is then refused as a duplicate. |
| TodoStore.EditCheck | src/hooks/useTodoList.ts:57-74 | An edit is refused as empty iff the text is blank. It is refused as an unknown id iff the text is not blank and no task has the id. It is refused as a duplicate iff another task on the target's day, with a different id, already has the trimmed text. |
| TodoStore.Edited | src/hooks/useTodoList.ts:76 | Same length and order. Only tasks with the id get the new text. Ids, days and flags are unchanged. |
| TodoStore.TodoList.EditTodo | src/hooks/useTodoList.ts:56-78 | The result is true iff `EditCheck` finds nothing. The new list is `Edited(old, id, trim(text))` on success and the old list otherwise. The invariant is preserved. |
| TodoStore.EditPreserves | src/hooks/useTodoList.ts:66-76 | An accepted edit keeps the store invariant. |
| TodoStore.EditTextOnly | src/hooks/useTodoList.ts:76 | With distinct ids, an edit is a single-position update of the matching task's text. |
| TodoStore.Toggled | src/hooks/useTodoList.ts:80-84 | Same length. Only tasks with the id have `completed` flipped; everything else is unchanged. |
| TodoStore.TodoList.ToggleTodo | src/hooks/useTodoList.ts:80-84 | The new list is `Toggled(old, id)` and the invariant is kept. |
| TodoStore.ToggleTwice | src/hooks/useTodoList.ts:80-84 | Toggling the same id twice restores the list. |
| TodoStore.TogglePreserves | src/hooks/useTodoList.ts:80-84 | Toggling keeps the store invariant. |
| TodoStore.Deleted | src/hooks/useTodoList.ts:86-88 | The result contains exactly the tasks whose id differs. |
| TodoStore.DeletedIsSelection | src/hooks/useTodoList.ts:87 | Deletion keeps, in order, exactly the tasks with another id. |
| TodoStore.TodoList.DeleteTodo | src/hooks/useTodoList.ts:86-88 | The new list is `Deleted(old, id)` and the invariant is kept. |
| TodoStore.DeleteRemovesOne | src/hooks/useTodoList.ts:87 | With distinct ids, deleting a present id shortens the list by exactly one and removes that task. |
| TodoStore.DeletePreserves | src/hooks/useTodoList.ts:86-88 | Deleting keeps the store invariant. |
| TodoStore.UnknownIdNoChange | src/hooks/useTodoList.ts:63-104 | For an id no task has, toggle, delete, edit, move and replicate all leave the list unchanged. |
| TodoStore.MoveCheck | src/hooks/useTodoList.ts:90-102 | A move is refused as an unknown id iff no task has the id. It is refused as a duplicate iff another task in the target day, with a different id, has the task's text case-insensitively. |
| TodoStore.Moved | src/hooks/useTodoList.ts:104 | Same length. Only tasks with the id change, and only their day. |
| TodoStore.TodoList.MoveTodoToDay | src/hooks/useTodoList.ts:90-105 | The new list is `Moved(old, id, day)` when `MoveCheck` finds nothing and the old list otherwise. The invariant is kept. |
| TodoStore.MovePreserves | src/hooks/useTodoList.ts:94-104 | An accepted move keeps the store invariant. |
| TodoStore.MoveToSameDay | src/hooks/useTodoList.ts:96 | Because the scan excludes the task's own id, moving a task to its own day passes the check and leaves the list unchanged. |
| TodoStore.ReplicaDays | src/hooks/useTodoList.ts:113-121 | The days that receive a copy are at most 6 and distinct. A day is among them iff it is not the source's day and no task on it has the source's text case-insensitively. |
| TodoStore.ReplicaDaysInOrder | src/hooks/useTodoList.ts:113 | Those days are taken in `DAYS_OF_WEEK` order. |
| TodoStore.Replicas | src/hooks/useTodoList.ts:122-127 | The k-th copy has id `firstId + k`, the source's text, `completed = false` and the k-th chosen day. |
| TodoStore.CollectReplicas | src/hooks/useTodoList.ts:111-129 | Over the given days, the `forEach` loop builds exactly the copies `Replicas(text, chosen, firstId)`, where `chosen` keeps, in order, the days other than the source's day on which no task has its text. `ReplicateToAllDays` passes `DAYS_OF_WEEK`, so `chosen` is `ReplicaDays(...)`. |
| TodoStore.Replicated | src/hooks/useTodoList.ts:107-134 | Replication appends between 0 and 6 tasks after the unchanged old list. For an unknown id nothing changes. |
| TodoStore.TodoList.ReplicateToAllDays | src/hooks/useTodoList.ts:107-134 | The new list is `Replicated(old, id, nextId)`. The counter advances by the number of copies and the invariant is kept. |
| TodoStore.ReplicatePreserves | src/hooks/useTodoList.ts:116-132 | Replication keeps per-day unique text. The new ids are distinct from each other and from the old ids. |
| TodoStore.ReplicateSix | src/hooks/useTodoList.ts:113-129 | If no other day has the text, replication adds exactly six tasks. |
| TodoStore.ReplicateNone | src/hooks/useTodoList.ts:131-133 | If every other day already has the text, replication changes nothing. |
| TodoStore.GymScenario | src/hooks/useTodoList.ts:140-153 | One pending Monday task is hidden by the "completed" filter and shown by "pending" and "all". |
| TodoStore.FindById | src/hooks/useTodoList.ts:63 | `find` by id is None iff no task has the id; otherwise it returns a task with that id. |
| TodoStore.FindByIdFirst | src/hooks/useTodoList.ts:63 | `find` returns the task at the first position that holds the id. |
| TodoStore.FindByIdUnique | src/hooks/useTodoList.ts:63 | With distinct ids, `find` returns the one task carrying the id. |
| TodoStore.TodosForDay | src/hooks/useTodoList.ts:136-138 | The day's list contains exactly the tasks with that day. |
| TodoStore.TodosForDayIsSelection | src/hooks/useTodoList.ts:137 | …and keeps them in collection order. |
| TodoStore.FilterByStatus | src/hooks/useTodoList.ts:143-150 | Each `switch` branch is filtering by the filter's status test. |
| TodoStore.FilteredTodos | src/hooks/useTodoList.ts:140-153 | A task is in the filtered list iff it is in the collection, on the given day, and let through by the filter. |
| TodoStore.FilteredTodosIsSelection | src/hooks/useTodoList.ts:140-153 | The filtered list is the order-keeping selection of the day's list by the status. It is also the selection of the whole collection by the day and the status. |
| TodoStore.AddGrowsOneDay | src/hooks/useTodoList.ts:52 | An add lengthens the list of its own day by one and leaves every other day's list the same length. |
| TodoStore.AlertMessage | src/hooks/useTodoList.ts:31 | Empty and duplicate refusals produce an alert. An unknown id is silent. |
| TodoStore.TodoList.SetCurrentDay | src/hooks/useTodoList.ts:8 | Sets the selected day and nothing else, keeping the invariant. |
| TodoStore.TodoList.SetFilter | src/hooks/useTodoList.ts:9 | Sets the filter and nothing else, keeping the invariant. |
| TodoStore.TodoList.GetTodosForDay | src/hooks/useTodoList.ts:136-138 | Over the current collection, the day's list holds exactly the tasks on that day. |
| TodoStore.TodoList.GetFilteredTodos | src/hooks/useTodoList.ts:140-153 | Over the current collection and filter, the list holds exactly the day's tasks that the current filter lets through. |
| Strings.Trim | src/hooks/useTodoList.ts:29 | `trim()` returns the middle slice. Everything cut from either end is whitespace, and the result's ends are not whitespace. |
| Strings.TrimEmptyIff | src/hooks/useTodoList.ts:30 | `!trimmedText` holds iff the input is all whitespace. |
| Strings.TrimIdempotent | src/hooks/useTodoList.ts:29 | Trimming twice is trimming once. |
| Strings.LowerChar | src/hooks/useTodoList.ts:37 | A–Z and the Latin-1 capitals À–Þ other than × map to their small letters, 32 code points on; every other character is unchanged. |
| Strings.Lower | src/hooks/useTodoList.ts:37 | `toLowerCase()` maps each character independently and keeps the length. |
| Seqs.FilterIndicesCorrect | src/hooks/useTodoList.ts:137 | `filter` keeps exactly the elements passing the test, at increasing positions. |
| Seqs.FilterAppend | src/hooks/useTodoList.ts:137 | `filter` distributes over concatenation. |
| TodoTypes.DaysOfWeek | src/types/todo.ts:12-20 | Seven pairwise-distinct days, "Segunda" first and "Domingo" last, containing every day. |
| TodoTypes.DayOfWeekFromDate | src/types/todo.ts:22-34 | Index i maps to the day named at position i of the Sunday-first list, so the `as DayOfWeek` cast is safe. This is `DAYS_OF_WEEK[(i + 6) % 7]`, and index 0 is exactly "Domingo". |
| TodoTypes.DayOfWeekFromDateInjective | src/types/todo.ts:22-34 | Different indices give different days. |
| TodoTypes.DayOfWeekFromDateOnto | src/types/todo.ts:22-34 | Every day is the image of some index. |
| TodoTypes.NameRoundTrip | src/types/todo.ts:1 | Reading a day's name back gives the day. |
| Statistics.StatTodos | src/components/Statistics.tsx:15-37 | Weekly and monthly modes keep the whole collection. Daily mode keeps exactly the tasks whose day name is `dayMapping[now.getDay()]`. |
| Statistics.DailyIsToday | src/components/Statistics.tsx:19-24 | Daily mode counts, in order, exactly the tasks of the day `getDayOfWeekFromDate` gives for today's index. |
| Statistics.WeeklyMonthlyAll | src/components/Statistics.tsx:26-32 | Weekly and monthly modes count the whole collection. |
| Statistics.Summarize | src/components/Statistics.tsx:39-43 | The total is the number of counted tasks and `completed` the number of completed ones, with `completed <= total` and `pending = total - completed`. The percentage is 0 when nothing is counted and lies in 0..100 otherwise. |
| Statistics.Percentage | src/components/Statistics.tsx:43 | The percentage is 0 when `total = 0`. Otherwise it is the integer p with `p - 1/2 <= 100c/t < p + 1/2`, which is `Math.round`. It is 0 when nothing is done and 100 when all is done. |
| Statistics.RoundDiv | src/components/Statistics.tsx:43 | Integer rounding half up of `n / d`. |
| Statistics.AllDoneIsHundred | src/components/Statistics.tsx:43 | When every counted task is completed, the percentage is 100. |
| Statistics.ModeLabel | src/components/Statistics.tsx:45-54 | The heading is "Hoje" exactly in daily mode, "Esta Semana" exactly in weekly mode and "Este Mês" exactly in monthly mode. |
| Statistics.MessageText | src/components/Statistics.tsx:167-171 | Each message has its own text: the congratulation is "🎉 Parabéns! Todas as tarefas concluídas!", the encouragement "💪 Continue assim! …" and the last "🚀 Vamos lá! …", each text belonging to that message alone. |
| Statistics.SummaryMessageAsWritten | src/components/Statistics.tsx:159-172 | The message as written: shown iff something is counted. The congratulation is chosen iff the rounded percentage is exactly 100, and "Vamos lá" iff it is below 50. |
| Statistics.CongratulatesTooEarly | src/components/Statistics.tsx:167-168 | With 200 of 201 tasks done, the summary message as written already says all tasks are completed. |
| Statistics.SummaryMessage | src/components/Statistics.tsx:159-172 | Corrected message: a message appears iff something is counted, and the congratulation appears iff every counted task is completed. |
| Statistics.MessagesAgree | src/components/Statistics.tsx:167-171 | The corrected message and the message as written agree except when the rounded percentage is 100 with tasks still pending. |
| Statistics.NothingDoneMessage | src/components/Statistics.tsx:171 | With nothing done, both the message as written and the corrected message are "Vamos lá". |
| Statistics.HalfDoneMessage | src/components/Statistics.tsx:169-170 | Corrected message: with at least half but not all done, the encouragement is shown. |
| Statistics.KeepGoingAsWritten | src/components/Statistics.tsx:167-170 | As written: with something counted and a rounded percentage from 50 to 99, the panel shows the encouragement. |
| DateUtils.DayOfWeekName | src/utils/dateUtils.ts:3-6 | `getDayOfWeekName` gives the same day as `getDayOfWeekFromDate` for the date's week day. |
| DateUtils.WeekDays | src/utils/dateUtils.ts:24-26 | `getWeekDays` is exactly `DAYS_OF_WEEK`. |
| DateUtils.MondayOffset | src/utils/dateUtils.ts:31 | `diff` lies in -6..0 and lands on Monday: `(weekday + diff) mod 7 = 1`. |
| DateUtils.StartOfWeek | src/utils/dateUtils.ts:28-35 | The start of week is a valid date on a Monday at 00:00:00.000. |
| DateUtils.StartOfWeekCal | src/utils/dateUtils.ts:30-32 | The week's start is the input moved by `diff` day steps (`setDate(getDate() + diff)`). |
| DateUtils.StartOfWeekReaches | src/utils/dateUtils.ts:30-32 | The input date lies `(getDay() + 6) mod 7` days, 0..6, after the week's start. The start is therefore the Monday on or before the input. |
| DateUtils.StartOfWeekIdempotent | src/utils/dateUtils.ts:28-35 | The start of the week of a week's start is itself. |
| DateUtils.EndOfWeek | src/utils/dateUtils.ts:37-43 | The end of week is a valid date, a Sunday, at 23:59:59.999. |
| DateUtils.EndOfWeekCal | src/utils/dateUtils.ts:37-43 | The end of week's date is six day steps after the start of the week (`setDate(getDate() + 6)`). |
| DateUtils.EndOfWeekReaches | src/utils/dateUtils.ts:37-43 | The end of week lies `DaysToSunday(getDay())` days after the input: 0 on a Sunday, `7 - getDay()` otherwise. |
| DateUtils.StartOfMonth | src/utils/dateUtils.ts:45-50 | Same year and month, day 1, and the week day moved back accordingly, at 00:00:00.000. |
| DateUtils.EndOfMonth | src/utils/dateUtils.ts:52-57 | Same year and month, on the month's last day, at 23:59:59.999. The next day is the first of the following month. |
| DateUtils.FirstOfNextMonth | src/utils/dateUtils.ts:54 | `setMonth(m + 1, …)` reaches day 1 of the next month, rolling December into January of the next year. |
| DateUtils.LastOfMonth | src/utils/dateUtils.ts:54 | Day 0 of the next month is the last day of this month. |
| DateUtils.SetDate | src/utils/dateUtils.ts:32 | `setDate(n)` stays in the month and only sets the day (moving the week day with it) when n is in the month's range. Out of range, `SetDateBy` gives it as `n - getDate()` day steps, which cross as many month ends as needed. |
| DateUtils.SetDateBy | src/utils/dateUtils.ts:32 | `setDate(getDate() + k)` is exactly k day steps from the date. |
| DateUtils.AddDaysAdd | src/utils/dateUtils.ts:32 | Day steps compose: a days and then b days is a + b days. |
| DateUtils.AddDaysInverse | src/utils/dateUtils.ts:32 | Going n days and back returns to the same date. |
| DateUtils.AddDaysWeekday | src/utils/dateUtils.ts:30 | n days on, `getDay()` has moved by n modulo 7. |
| DateUtils.PrevNext | src/utils/dateUtils.ts:32 | The next and previous day are inverse, across month and year ends. |
| DateUtils.DaysInMonth | src/utils/dateUtils.ts:54 | Every month has between 28 and 31 days. |
| DateUtils.MonthLengths | src/utils/dateUtils.ts:54 | The month lengths `setMonth(m + 1, 0)` lands on: February has 29 days exactly in leap years and 28 otherwise; April, June, September and November have 30; the other months 31. |
| DateUtils.NextDay | src/utils/dateUtils.ts:32 | The day after a valid date is a valid date, rolling over month and year ends; `PrevNext` shows `PrevDay` undoes it. |
| DateUtils.PrevDay | src/utils/dateUtils.ts:54 | The day before a valid date is a valid date, rolling back over month and year starts; `PrevNext` shows `NextDay` undoes it. |
| DateUtils.AddDays | src/utils/dateUtils.ts:32 | n day steps, forward or back, from a valid date give a valid date. `AddDaysAdd`, `AddDaysInverse` and `AddDaysWeekday` state how the steps combine. |
| DateUtils.ClockText | src/utils/dateUtils.ts:17-21 | Hours, minutes and seconds each become exactly two digits that read back as the field, joined by ':'. |
| DateUtils.FormatDateTime | src/utils/dateUtils.ts:8-22 | The formatted text ends in the 8-character clock. |
| DateUtils.FormatDateTimeClock | src/utils/dateUtils.ts:17-21 | The last eight characters read back as hours, minutes and seconds. |
| DateUtils.FormatDateTimeDay | src/utils/dateUtils.ts:14 | The text opens with the day of the month in decimal, which reads back as the day, followed by " de ". |
| DateUtils.FormatDateTimeMonth | src/utils/dateUtils.ts:15 | Next comes the name at the 0-based month index, then " de ". |
| DateUtils.FormatDateTimeYear | src/utils/dateUtils.ts:16-21 | After the second " de " come the year in decimal and ", ", and the clock fills the rest, so the day, month, year and clock parts cover the whole text. |
| DateUtils.DateText | src/utils/dateUtils.ts:14-21 | The date part is the decimal day, " de ", the name of the 0-based month, " de " and the decimal year, each at its own position and nothing else. |
| Strings.TwoDigitsCorrect | src/utils/dateUtils.ts:17 | `String(n).padStart(2, '0')` for n < 100 is two digits with value n. |
| Strings.StringOfNatRoundTrip | src/utils/dateUtils.ts:14 | The decimal text of a number reads back as that number. |
| IndexPage.Page.constructor | src/pages/Index.tsx:24-26 | The page starts with a fresh store and with the statistics panel closed. |
| IndexPage.Page.Mount | src/pages/Index.tsx:28-32 | On mount the selected day becomes `getDayOfWeekFromDate(now)`. The tasks and the panel flag are unchanged. The invariant is kept. |
| IndexPage.Page.HandleDayClick | src/pages/Index.tsx:34-37 | A day click selects the day and closes the panel. The tasks and the filter are unchanged. The view then receives that day's filtered list. The invariant is kept. |
| IndexPage.Page.HandleStatisticsClick | src/pages/Index.tsx:39-41 | Opening the panel keeps the selected day and the tasks. The view then receives the whole collection. The invariant is kept. |
| IndexPage.Page.DisplayedTodos | src/pages/Index.tsx:62 | With the panel open the view gets the whole collection; otherwise exactly the tasks of the selected day that the current filter admits. |
| IndexPage.TodoCountIsDayLength | src/pages/Index.tsx:55 | A day button's count equals the length of `getTodosForDay(day)`. |
| IndexPage.Page.DayButtonCount | src/pages/Index.tsx:55 | The `getTodoCount` passed to the day buttons equals the length of the store's `getTodosForDay(day)`. |
| IndexPage.TodoCount | src/pages/Index.tsx:55 | A button's count is at most the number of tasks, and it is 0 exactly when no task is on that day. |
| IndexPage.CountsCoverAll | src/pages/Index.tsx:55 | The seven buttons' counts add up to the number of tasks. |
| IndexPage.CountOverSnoc | src/pages/Index.tsx:55 | One more task raises the counts over distinct days by one exactly when its day is among them. |
| IndexPage.DisplayedIsVisible | src/pages/Index.tsx:43-62 | With the panel open, the view gets the whole collection. Otherwise it gets, in order, exactly the selected day's tasks that the filter admits. |
| IndexPage.Displayed | src/pages/Index.tsx:43-62 | With the panel open the view gets the whole collection; otherwise exactly the tasks of the selected day that the filter admits. |

## Left out

- Persistence in `localStorage` and its JSON round trip are browser I/O. They are not modelled; the store starts empty. The dark-mode hook is not part of this model.
- `crypto.randomUUID` is replaced by a counter, `nextId`. Each new task takes the counter's value and the counter then advances. The invariant says every id lies below the counter, so a new id is never in use.
- `alert(...)` is not performed. The refusal reason is the `Rejection` value, and `AlertMessage` gives the text each reason would show.
- Strings.LowerChar: lower-cases only A–Z and À–Þ other than ×; other scripts' capitals are left as they are.
- Strings.Lower: covers `toLowerCase` only for A–Z and the Latin-1 capitals À–Þ, leaving other characters unchanged. Full Unicode case mapping, including length-changing mappings, is not modelled.
- Strings.Trim: uses the ECMAScript white-space and line-terminator set over Dafny characters, which are Unicode scalar values. JavaScript strings are UTF-16 code units, so the model does not represent lone surrogates or surrogate pairs as two units.
- Statistics.Percentage: is the exact rational `Math.round`. The floating-point product `completed / total * 100` could differ from the exact value right at a .5 boundary.
- The `default:` branch of the statistics switch cannot be reached, because `StatMode` has exactly three values. The mode buttons are UI state and appear only as the `mode` argument.
- The JavaScript `Date` is replaced by a record of calendar fields and clock fields in local time. There are no time zones, no daylight-saving shifts, and no year limits.
- DateUtils.AddDays: `getDay()` is a stored field, which every day step moves by one. It is not recomputed from the calendar.
- `new Date()` is a parameter: `now` in `IndexPage.Page.Mount` and the week-day index in `Statistics`.
- React's asynchronous state updates and stale closures do not arise. Each operation reads and replaces the current list.
- Rendering, animation and the edit fields of the UI components are not modelled. This includes the ticking clock in the header and the disabled same-day move button in the task item. The store does not depend on any of them.
- Moving a task to its own day is not blocked by the store: the duplicate scan excludes the task's own id (`src/hooks/useTodoList.ts:96`), so the move passes and changes nothing, as `TodoStore.MoveToSameDay` proves. Only the task item's button for its own day is disabled (`src/components/TodoItem.tsx:152`), and the UI is not part of this model.

## Findings

| source | as written | input that shows it | evidently intended | confidence | as-written member | corrected member |
|---|---|---|---|---|---|---|
| src/components/Statistics.tsx:167-168 | The congratulation "Todas as tarefas concluídas!" is chosen when the rounded percentage equals 100. | 201 counted tasks, 200 of them completed: `Math.round(200 / 201 * 100)` is 100 while one task is still pending. | Congratulate only when every counted task is completed. | medium, not executed | Statistics.CongratulatesTooEarly | Statistics.SummaryMessage |

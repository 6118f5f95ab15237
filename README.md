# TaskFlow task core in Dafny

TaskFlow is a browser to-do manager. Its single script, `app.js`, keeps a list of
tasks. Each task has:

- a title, description and category;
- a priority (critical, high, medium, low) and a status (todo, in-progress, done);
- a target date;
- an optional recurrence (daily, weekdays, weekly, monthly);
- creation and completion timestamps.

This project models the part of the script that decides what happens to
those tasks:

- **Date arithmetic:** the day offsets (`daysDiff`, `isOverdue`, `isToday`, `isThisWeek`,
  `relativeDateLabel`, `getWeekStart`).
- **Board views:** the order, groups and filters of the board (`sortTasks`, `groupTasks`,
  `getFilteredTasks`).
- **Recurrence:** the rollover a recurring task takes when it is completed.
- **Import:** the JSON and CSV readers (`parseJSON`, `parseCSV`, `parseCSVLine`,
  `normalizeTask`).
- **Export:** the CSV writer (`exportAsCSV`) and the JSON export's records.
- **Local store:** the task list of an anonymous session, kept in local storage, with its
  create, update, complete, reopen, delete, import and load/seed operations and the
  listener teardown of `startTaskSync` and `showAuthScreen`.
- **Statistics:** the dashboard counters (`updateStats`) and the weekly review (`renderReview`).

Dates are day numbers counted from 1970-01-01, with day 4 a Monday. Timestamps are
milliseconds since the epoch. The local time zone is UTC unless a member says
otherwise. The clock, the random ids and the date parser are parameters.

Modules:

| module | content |
|---|---|
| `Text` | trimming, lower-casing, joining and splitting strings |
| `Sequences` | filter, count, map, filter-map and a stable sort by key |
| `Calendar` | civil dates and `toISOString` text |
| `Tasks` | the task record, `daysDiff` and the date predicates and labels |
| `Views` | sort, groups, filters |
| `Recurrence` | next target date of a recurring task |
| `Normalize` | `normalizeTask`, `parseJSON`, the JSON export's records |
| `Csv` | `parseCSVLine`, `parseCSV`, field quoting |
| `CsvExport` | `exportAsCSV` and its round trip through `parseCSV` |
| `Store` | the local-mode task store class |
| `Stats` | dashboard counters, completion rate, weekly review |

The code and the written description of the system disagree in two places. This model
follows the code in both:

- A monthly rollover from the 29th–31st does not clamp to the end of the next month. Like
  `Date.prototype.setMonth`, it overflows into the month after: January 31st rolls over to
  March 3rd, or to March 2nd in a leap year (`Recurrence.MonthlyOverflow`,
  `Recurrence.MonthlyFromJanuary31st`).
- A CSV value that contains a double quote does not survive an export followed by an import.
  `parseCSVLine` drops every quote character, so a doubled quote is lost. See "## Findings".

## Model

| member | source | states |
|---|---|---|
| Tasks.ParsePriority | app.js:836-839 | a priority is recognised exactly when the text is one of the four priority names, and it yields that priority |
| Tasks.ParseStatus | app.js:837-841 | a status is recognised exactly when the text is one of the three status names |
| Tasks.PriorityRank | app.js:31 | every priority has a rank between 0 and 3 |
| Tasks.PriorityRankOrder | app.js:31 | critical ranks 0, then high, then medium, then low at 3, each strictly before the next, so no two priorities share a rank |
| Tasks.DaysDiff | app.js:130-136 | a missing date gives an infinite offset; otherwise the offset is the target day minus today |
| Tasks.OverdueMeansOpenAndPast | app.js:148-150 | a task is overdue exactly when it is not done and its date is before today |
| Tasks.RelativeDateLabel | app.js:138-146 | "n days overdue" for two or more days past, "1 day overdue", "Due today", "Due tomorrow", "n days left" for 2 to 7 days, otherwise the date itself; each label matches exactly its range of offsets and agrees with isToday and isThisWeek |
| Tasks.LabelDeterminesDate | app.js:138-146 | two dates with the same label on the same day are the same date, so no label is ambiguous |
| Views.CompareIsKeyOrder | app.js:427-438 | the sort comparator orders tasks exactly as the key (done last, overdue first, priority rank, day offset) orders them lexicographically; ties are exactly equal keys |
| Views.OffsetKeyOrder | app.js:436 | comparing day offsets, with an infinite offset after every finite one and equal to itself, agrees with the offset key |
| Views.SortTasksSpec | app.js:427-438 | sortTasks returns a permutation of the list, ordered by the comparator, and tasks that compare equal keep their relative order (the sort is stable) |
| Views.SortTasksOrder | app.js:429-433 | in the sorted list no done task precedes an open one, and among open tasks no non-overdue task precedes an overdue one |
| Views.SortTasksTieBreak | app.js:434-436 | tasks of the same status and overdue state are ordered by priority rank, then by day offset |
| Views.BucketOfSpec | app.js:449-455 | each task falls in exactly one group: completed iff done, overdue iff open and past, today iff open and due today, this week iff open and due in 1 to 7 days, upcoming otherwise |
| Views.GroupTasks | app.js:440-458 | each group holds exactly the list's tasks of that group, in list order |
| Views.BucketsPartition | app.js:449-455 | the five groups together hold every task of the list exactly as often as the list does |
| Views.BucketSizes | app.js:449-455 | the group sizes add up to the list's length |
| Views.FilterTasks | app.js:461-475 | a task is kept exactly when it is in the list and matches the status filter, the priority filter and the search text |
| Views.FilterTasksInOrder | app.js:461-475 | the filtered list is the list read at the positions of the matching tasks, in increasing order, so `filter` keeps the list's order |
| Sequences.FilterInOrder | app.js:466-474 | `filter(test)` is the sequence read at exactly its passing positions, in increasing order |
| Views.SearchIgnoresCase | app.js:462 | the search text matches the same tasks whatever the case of its ASCII letters |
| Views.LowerTwice | app.js:462 | lower-casing twice is lower-casing once |
| Recurrence.NextWeekday | app.js:671-674 | the next weekday is the first day after the given one that is not a Saturday or a Sunday, at most three days later |
| Recurrence.FridayToMonday | app.js:671-674 | a Friday's next weekday is the Monday three days later |
| Recurrence.WeekendsAreShort | app.js:672-674 | no three consecutive days are all weekend days, so the weekday loop ends |
| Recurrence.AddOneMonth | app.js:677-678 | adding a month advances by the length of the current month |
| Recurrence.MonthlyKeepsDayOfMonth | app.js:677-678 | when the day of the month exists in the next month, a monthly rollover keeps it |
| Recurrence.MonthlyOverflow | app.js:677-678 | when it does not exist, the date overflows into the month after by the missing days |
| Recurrence.MonthlyFromJanuary31st | app.js:677-678 | January 31st rolls over to March 3rd, or March 2nd in a leap year |
| Recurrence.Rollover | app.js:667-681 | daily adds one day, weekly seven, weekdays gives the next weekday, monthly 28 to 31 days, any other frequency keeps the date |
| Recurrence.NextTargetDate | app.js:667-681 | the step-by-step rollover (weekday loop included) computes the rollover |
| Recurrence.IsoDayOfLocalMidnight | app.js:668-681 | local midnight of a day, written as an ISO date, names the same day west of UTC and the day before east of it |
| Recurrence.RolloverSlipsEastOfUtc | app.js:668-681 | east of UTC the written rollover loses a day: daily stays put, weekly moves six days, no frequency moves back a day, and a weekdays task due on a Friday moves to the Sunday and from a Sunday never moves again |
| Recurrence.RolloverExactWestOfUtc | app.js:668-681 | at or west of UTC the written rollover equals the intended one |
| Normalize.FirstTruthy | app.js:834 | an `a \|\| b \|\| …` chain yields a non-empty value when it yields one |
| Normalize.FirstTruthyIsFirst | app.js:834 | the chain yields nothing iff no key holds a non-empty value, else the value of the first key that does |
| Normalize.IndexOf | app.js:840 | the first position of a character, or none when it is absent |
| Normalize.ReplaceFirst | app.js:840 | `replace(' ', '-')` replaces only the first space, keeping the length |
| Normalize.PriorityOf | app.js:838-839 | the priority is the lower-cased first given priority when it is valid, otherwise medium |
| Normalize.StatusOf | app.js:840-841 | the status is the lower-cased first given status, first space made a dash, when valid, otherwise todo |
| Normalize.TargetDateOf | app.js:842-843 | the target date is the first given date when it parses, otherwise today |
| Normalize.NormalizeTask | app.js:833-854 | a record gives no task iff its title is blank; otherwise trimmed title, description and category, the normalised priority, status and date, created now, completed now exactly when done, and no id or recurrence |
| Normalize.ParseJson | app.js:797-801 | at most one task per record, a lone record is read as a list of one |
| Normalize.ParseJsonSource | app.js:797-801 | every imported task is the normalised form of one of the records |
| Normalize.ParseJsonKeeps | app.js:797-801 | every record that normalises to a task contributes that task |
| Normalize.ParseJsonOne | app.js:799 | a lone record is read like a one-element list |
| Normalize.ExportRecord | app.js:926-932 | the exported record holds the title, description and category, the priority and status names, the target date as an ISO date and the creation and completion times as ISO timestamps when present (absent otherwise), and no key the export does not write |
| Normalize.JsonRoundTrip | app.js:833-854 | a task whose texts are trimmed and whose title is not blank comes back from its exported record as the normaliser rebuilds it |
| Normalize.JsonListRoundTrip | app.js:797-801 | importing the export of a list gives back, in order, every task as the normaliser rebuilds it |
| Normalize.Reimport | app.js:844-853 | one rebuilt task per task, position by position |
| Csv.ParseCsvLine | app.js:819-831 | the character loop computes the trimmed fields of the quote-aware split |
| Csv.TrimAll | app.js:826-829 | every field is trimmed |
| Csv.ScanKeepsAllButQuotes | app.js:819-831 | the fields, joined again with commas, are the line without its quotes |
| Csv.FieldCount | app.js:819-831 | a line gives one field more than it has separating commas, a comma separating exactly when an even number of quotes precede it |
| Csv.ScanDropsQuotes | app.js:825 | no field ever holds a quote character |
| Csv.QuotedCell | app.js:913-918 | a quoted, quote-doubled cell reads back as the cell without its quotes |
| Csv.QuotedLine | app.js:913-919 | an exported row reads back as its cells without their quotes |
| Csv.QuoteLostOnImport | app.js:825 | a value with a quote reads back changed |
| Csv.ScanUnescaped | app.js:819-831 | the scanner with a doubled quote read as one quote: never empty |
| Csv.UnescapedLine | app.js:913-919 | with that reading, an exported row reads back as exactly its cells |
| Csv.HeaderCells | app.js:806 | one header per comma-separated piece of the first line |
| Csv.HeaderCell | app.js:806 | a header name holds no quote, no apostrophe and no capital letter |
| Csv.HeaderCellOfClean | app.js:806 | a header without surrounding space, capitals, apostrophes or quotes is read as itself |
| Csv.RecordOf | app.js:812 | the record's keys are exactly the headers |
| Csv.RecordOfLastWins | app.js:812 | under a repeated header the record holds the value of its last column |
| Csv.Lines | app.js:804 | the trimmed content splits into at least one line |
| Csv.CsvTasks | app.js:803-817 | fewer than two lines give no task; otherwise at most one task per data line |
| Csv.CsvTasksSource | app.js:807-815 | every imported task comes from one data line read under the header row |
| Csv.BuildRecord | app.js:812 | the loop builds the record of headers and values |
| Csv.ReadRow | app.js:809-814 | a row shorter than the header is skipped; otherwise its record is normalised |
| Csv.ParseCsv | app.js:803-817 | the loop computes the tasks of the content |
| Csv.ReadRows | app.js:807-815 | the loop over data lines keeps the tasks their rows give, in order |
| CsvExport.ExportCsv | app.js:910-924 | the loop writes the header line and one row per task, joined with line feeds |
| CsvExport.WriteLines | app.js:912-921 | the loop joins a header and one line per item with line feeds |
| CsvExport.RowScansBack | app.js:913-919 | a task's row scans back into eight fields, its cells without quotes |
| CsvExport.CellsSafe | app.js:913-918 | the cells of a task whose texts are safe hold no quote, no line feed and no surrounding space |
| CsvExport.SafeCellsReadBack | app.js:819-831 | a row of safe cells reads back as exactly its cells |
| CsvExport.SafeRow | app.js:913-919 | a safe task's row is one line ending in a quote |
| CsvExport.FileLines | app.js:804 | splitting the exported file into lines gives the header line and the rows |
| CsvExport.HeaderSplit | app.js:911-912 | the header line splits back into the column names |
| CsvExport.HeaderRowRead | app.js:806 | the importer reads the exported header line as the column names lower-cased |
| CsvExport.TaskRecord | app.js:812 | a row's record holds each of the task's texts under its lower-cased column |
| CsvExport.CsvRecordRoundTrip | app.js:833-854 | such a record normalises to the rebuilt task |
| CsvExport.RowRoundTrip | app.js:807-815 | a safe task's row imports as the rebuilt task |
| CsvExport.CsvRoundTrip | app.js:803-817 | importing the export of a list of safe tasks gives back, in order, every task as the normaliser rebuilds it |
| Store.FirstIndex | app.js:664 | `find` by id: the first task with the id, or none when no task has it |
| Store.Assign | app.js:612-626 | an edited task keeps its id and creation time, takes the trimmed title and the date, is recurring exactly when asked, and has a completion time, now, exactly when done |
| Store.NewTask | app.js:635-650 | a new task has the fresh id, is created now, takes the trimmed title and date, and has a completion time exactly when done |
| Store.Edited | app.js:625-626 | only the first task with the id changes, and it is assigned the form |
| Store.Completion | app.js:667-702 | a recurring task without a date is left alone; a recurring one goes back to todo on its rollover date, nothing else changed; any other task becomes done, completed now |
| Store.Reopened | app.js:708 | a reopened task is in progress with no completion time, nothing else changed |
| Store.WithIds | app.js:887-890 | each imported task gets its fresh id and is otherwise unchanged |
| Store.SampleTasks | app.js:1138-1155 | the seven sample tasks |
| Store.SamplesWellFormed | app.js:1146-1152 | each sample has its id and a target date, is created now, and is completed exactly when done |
| Store.SamplesOverdue | app.js:1149-1151 | on the day they are made, the samples due two days and one day ago are the overdue ones |
| Store.DeleteMembers | app.js:728 | deleting keeps exactly the tasks with another id |
| Store.CompletionConsistent | app.js:694-702 | completing a non-recurring task leaves it done with a completion time |
| Store.RecurringDoneKeepsCompletedAt | app.js:684-685 | completing a recurring task that was marked done leaves it todo but still holding its completion time |
| Store.TaskStore.constructor | app.js:36-41 | a fresh store has no tasks and no listener |
| Store.TaskStore.Load | app.js:338-346 | stored tasks are loaded; with nothing stored the samples are loaded and written; unreadable storage gives the samples without writing |
| Store.TaskStore.StartSync | app.js:307-335 | the old listener is removed; an anonymous session loads from storage, a signed-in one attaches one listener |
| Store.TaskStore.SignOut | app.js:287-297 | the listener is removed and the list emptied |
| Store.TaskStore.SaveTask | app.js:590-661 | a blank title or a missing date changes nothing; otherwise the task is updated or added and the list written |
| Store.TaskStore.Update | app.js:608-628 | the list is the edited list and is written |
| Store.TaskStore.Add | app.js:635-651 | the new task is appended and the list written |
| Store.TaskStore.Complete | app.js:663-703 | an unknown id or an undated recurring task changes nothing; otherwise the task is replaced by its completion and the list written |
| Store.TaskStore.Reopen | app.js:705-715 | the first task with the id is reopened; the list is written either way |
| Store.TaskStore.Delete | app.js:725-737 | with a pending id, exactly the tasks with that id are removed and the list written; without one nothing changes |
| Store.TaskStore.Import | app.js:884-900 | an empty buffer changes nothing; otherwise the buffered tasks, with fresh ids, are appended in order and the list written |
| Stats.StatsOf | app.js:406-411 | total is the list length; done, in progress, overdue and upcoming are the numbers of positions holding a task of that kind; overdue, upcoming and done add up to the total; done and in progress never exceed it |
| Sequences.CountPositions | app.js:408-411 | `filter(test).length` is the number of positions whose task passes the test |
| Stats.CountsPartition | app.js:408-411 | every task is exactly one of overdue, upcoming or done |
| Stats.ActivePartition | app.js:974-976 | open and done tasks add up to all tasks |
| Stats.InProgressBound | app.js:408-409 | no task is both done and in progress |
| Stats.CompletionRate | app.js:419 | the rate is the percentage rounded half up, 0 with no tasks, at most 100 |
| Stats.RoundBounds | app.js:419 | integer division by twice the total rounds the percentage half up |
| Stats.CompletionRateExamples | app.js:419 | 3 of 4 is 75, 1 of 8 is 13, 1 of 3 is 33, 2 of 3 is 67 |
| Stats.WeekStart | app.js:161-168 | the week starts on the latest Monday on or before today |
| Stats.ReviewOf | app.js:958-977 | all tasks are counted; "Active" lists exactly the tasks not done; the done total is the number of positions holding a done task; the two add up to all tasks; the rate is the completion rate of the done total |
| Stats.ReviewCompleted | app.js:962-966 | the completed list holds exactly the done tasks completed between Monday's midnight and now |
| Stats.ReviewAdded | app.js:968-971 | the added list holds exactly the tasks created between Monday's midnight and now |
| Stats.ReviewOverdue | app.js:1002 | the overdue list is the overdue tasks, each as often as in the list, sorted by date |
| Stats.SoonMembers | app.js:1029 | the tasks "Coming up" is sorted from are the open tasks due within seven days |
| Stats.ReviewComingUp | app.js:1029-1030 | "Coming up" lists exactly the open tasks due today to seven days ahead |
| Stats.ReviewComingUpOrder | app.js:1030 | "Coming up" is sorted by date, and same-day tasks keep their list order |
| Stats.OverdueAreActive | app.js:973-974 | there are never more overdue than active tasks |

## Left out

- Signed-in sessions: the Firestore branches of every operation (`addTaskToFirestore`,
  `updateTaskInFirestore`, `batchAddToFirestore`, the snapshot listener's contents). They
  call a remote service. `Store.TaskStore.StartSync` only counts the listener.
- The DOM, rendering, modals, toasts, the file reader, the download and the import
  preview. They are output only.
- The local storage API and the JSON text in it. The store keeps what was last written as
  a value (`Store.Stored`), and an unreadable entry is a case of that value.
- `JSON.parse` and `JSON.stringify`. Records are maps from keys to strings (`Normalize.Record`),
  so non-string values in an imported JSON record are not modelled. Booleans and nulls in
  the JSON export are not part of a record.
- `crypto.randomUUID`, `Date.now` and `new Date()`. Ids, the current day and the current
  time are parameters.
- `Date.parse` and `new Date(text)` on imported dates are the `parseDate` parameter. Its
  reading of ISO dates is a precondition of the round-trip lemmas.
- Time zones. Local time is UTC everywhere except in the recurrence finding.
- `toLocaleDateString`, used in the dates shown on the board and in the review heading, is
  display only. `Tasks.RelativeDateLabel` returns the date itself instead.
- Floating point. The percentage is exact rational rounding. `Math.round` on a float that
  lies just below a half may round differently from exact arithmetic.
- The progress ring's geometry.
- `renderReview` with a task whose `createdAt` is missing: `new Date(undefined)` is an invalid
  date and `new Date(null)` the epoch, so the comparison fails for any week after 1970. The
  model states this directly: a missing creation time is outside the week.
- CSV values with a line feed, a double quote, or surrounding white space. The CSV round
  trip is proved only for tasks whose texts have none of these (`CsvExport.CsvSafe`).
- Text.ToLower, Views.FilterTasks, Views.SearchIgnoresCase, Views.LowerTwice: only the ASCII
  letters A to Z are lower-cased, while `toLowerCase` folds every Unicode letter. A task titled
  `Über` is found by the search `über` in the browser but not in the model. This affects only the
  search: every valid priority, status and import header name is ASCII.
- `Normalize.ExportRecord`: the JSON export also writes `isRecurring` and `recurringFreq`,
  which the importer ignores. The record models the string fields only.
- Store.TaskStore.SaveTask, Store.TaskStore.Delete: `saveTask` and `confirmDeleteTask` test the
  pending id by truthiness, so an empty id would count as none. The model's `Option` lets
  `Some("")` through to the update and delete paths. Ids come from `crypto.randomUUID` and are
  never empty, so no reachable state differs.
- `Normalize.NormalizeTask`: an imported target date is written back with
  `toISOString().slice(0, 10)`. The model keeps the parsed day number.

## Findings

| source | as written | input that shows it | evidently intended | confidence | as-written member | corrected member |
|---|---|---|---|---|---|---|
| app.js:668-681 | the next date is computed from local midnight and written with `toISOString`, which is UTC | any zone east of UTC, e.g. UTC+2: a daily task due 2025-03-10 gets 2025-03-10 again, a weekly one 2025-03-16; a weekdays task due Friday 2025-03-14 gets Sunday 2025-03-16, and then Sunday again on every completion | the date one rollover later (2025-03-11, 2025-03-17, Monday 2025-03-17) | not executed | Recurrence.RolloverSlipsEastOfUtc | Recurrence.Rollover |
| app.js:825 | `parseCSVLine` toggles the quote state on every quote, so the doubled quote that `exportAsCSV` writes for `"` is dropped | a title `Say "hi"` exports as `"Say ""hi"""` and imports as `Say hi` | the quote-escaped value reads back unchanged | not executed | Csv.QuoteLostOnImport | Csv.UnescapedLine |

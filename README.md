# Telegram task bot: a verified Dafny model of its core

The bot turns forwarded Telegram messages into tasks.

- A user forwards fragments; the bot collects them into a **draft**.
- A short dialogue fills in the deadline, the time, who assigned the task and a comment.
- Tasks are kept in SQLite. They are listed three to a page with a button each.
- Two scheduled jobs remind users of deadlines: a daily job for tomorrow's deadlines and an hourly job for deadlines about an hour away.
- A task can be written as a row of a Google spreadsheet.

This project models that core in Dafny and proves properties of the model.

| module (file) | models |
|---|---|
| `Database` (`database.dfy`) | `database.py`. The `Store` class holds the draft table (`drafts: map<int, DraftRow>`) and the task table (`tasks: seq<TaskRow>`, in insertion order). Every function of the file is a method or a `reads` function of it. |
| `JsonList` (`json_list.dfy`) | `json.dumps` / `json.loads` of the draft's `messages` and `files` lists (strings and `null`s). |
| `SqlTime` (`sql_time.dfy`) | SQLite's `date()` / `datetime()` on the texts the queries build, including its day roll-over. |
| `TaskRows` (`task_rows.dfy`) | The task row and the two orders tasks are listed in. |
| `NewTask` (`new_task.dfy`) | `handlers/new_task.py`. Each handler is a method on the `Store`, proved equal to a pure transition on the draft `get_pending_task` reads. |
| `TaskList` (`task_list.dfy`) | `handlers/task_list.py`: paging, the keyboard and the callback data. |
| `Helpers` (`helpers.dfy`) | `utils/helpers.py`: `parse_time`, `parse_date`, `extract_links`. |
| `Scheduler` (`scheduler.dfy`) | `scheduler.py`. The bot is a class whose outbox each successful `send_message` appends to. The jobs are loops over the selected tasks. Python's `strptime` reading of a deadline is modelled beside SQLite's. |
| `Sheets` (`google_sheets.dfy`) | `google_sheets.py`: the row values, the link list and the insert index. |
| `Common`, `Calendar` | Shared pieces: truthiness, `strip()`, `str(int)` / `int(str)`, `split('_')[-1]`, and the Gregorian calendar with `%Y-%m-%d`. |

Inputs the program reads from the world are parameters:

- `datetime.now()`, as `tomorrow`, `now` and `today`;
- the set of chats the bot can reach;
- column A of the spreadsheet.

## Model

| member | source | states |
|---|---|---|
| `Database.Store.constructor` | database.py:11-48 | Both tables start empty, and task ids are unique (the primary key). |
| `Database.FreshRow` | database.py:185-191 | `add_pending_task` writes NULL title, deadline, time, assigner and comment. It writes the given step and sender, and the lists as JSON, with `[]` for an absent list. |
| `Database.Store.AddPendingTask` | database.py:181-194 | `REPLACE INTO` puts the fresh row in place of the user's draft. The other drafts and the tasks are unchanged. |
| `Database.DecodeColumn` | database.py:211-215 | A falsy column reads as `[]`. A truthy column that `json.loads` reads as a list of strings and nulls gives that list; any other text gives `[]`. A column holding the encoding of a list reads back as that list. |
| `JsonList.UnescapePair` | database.py:213 | A surrogate-pair escape `\uD83D\uDE00` is read as the one character it encodes. |
| `Database.DecodeRow` | database.py:206-217 | The returned dict holds every column, with `messages` and `files` decoded. |
| `Database.Store.GetPendingTask` | database.py:196-217 | Returns `None` exactly when the user has no draft, otherwise the decoded row. |
| `Database.GetAfterAdd` | database.py:181-217 | A draft just added reads back with NULL answers and the lists it was given, `[]` for a missing one. |
| `JsonList.DecodeEncodeList` | database.py:213 | `json.loads` gives back every list of strings and nulls that `json.dumps` wrote, in order. |
| `Database.RowDict` | database.py:231-232 | `dict(zip(columns, row))` has the nine columns plus `user_id`, each holding its column's value. |
| `Database.Stored` | database.py:236-239 | A list under `messages` or `files` is stored as text, so no list is left under those keys. |
| `Database.Overlay` | database.py:235-239 | After the loop, the dict's keys are the old keys plus the update keys. |
| `Database.ApplyUpdates` | database.py:235-239 | The loop over `updates.items()` yields exactly the overlay of the updates on the row's dict. |
| `Database.BindRow` | database.py:248-271 | The UPDATE can bind its parameters exactly when no column holds a list. Each column then gets its bound value, an integer as its decimal text. |
| `Database.BindOverlay` | database.py:235-271 | The row bound from the overlaid dict is the column-by-column merge. |
| `Database.Store.UpdatePendingTask` | database.py:219-274 | Without a draft nothing changes. Otherwise the row becomes the merge of `updates`; if a parameter cannot be bound, the call raises and leaves the row. |
| `Database.MergeFails` | database.py:248-271 | The merge fails exactly when some column other than `messages`/`files` is given a list. |
| `Database.MergeDefined` | database.py:235-271 | It succeeds when every list goes to `messages`, `files` or a key that is not a column. |
| `Database.MergeWrites` | database.py:235-239 | A column named in `updates` takes the given value, a list as its JSON text. |
| `Database.MergeKeeps` | database.py:261-269 | A column not named in `updates` keeps its stored value. |
| `Database.MergeIgnoresOtherKeys` | database.py:248-270 | Keys that are not columns, `user_id` among them, make no difference. |
| `Database.GetAfterMerge` | database.py:236-237 | Lists written by an update read back unchanged. |
| `Database.Store.DeletePendingTask` | database.py:278-283 | Only the user's draft is removed. |
| `Database.InsertedRow` | database.py:55-72 | The inserted row carries the dict's values. A missing `time` key becomes `"10:00"`; an explicit `None` stays NULL. |
| `Database.Store.AddTask` | database.py:51-75 | The insert appends the row exactly when no task has the id; a duplicate id is refused and the table is unchanged. |
| `Database.FindTask` | database.py:295-296 | Returns `None` exactly when no row has the id, otherwise a row of the table with that id. |
| `Database.Store.GetTaskById` | database.py:287-299 | The same, on the store's task table. |
| `Database.Apply` | database.py:109-115 | Completion sets status `done`, `completed_at` and `hours_spent`. Each other change sets its single column, and every other column is kept. |
| `Database.UpdateWhere` | database.py:125-127 | `UPDATE … WHERE id = ?` changes exactly the rows with that id and keeps the others and their order. |
| `Database.FindAfterUpdate` | database.py:122-142 | After an update, the changed task reads back changed and every other id reads back as before. Ids stay unique. |
| `Database.Store.CompleteTask` | database.py:103-120 | The task table is updated by a completion at the given time, which is also returned. |
| `Database.Store.UpdateTaskDeadline` | database.py:122-129 | Only the deadline of rows with that id changes. |
| `Database.Store.UpdateTaskStatus` | database.py:131-143 | Only the status of rows with that id changes. |
| `Database.Store.AddCompletionComment` | database.py:302-319 | Only the comment of rows with that id changes, and the answer is always `True`. |
| `Database.Select` | database.py:81-91 | A row is selected exactly when it is in the table and passes the WHERE clause. The result is a sub-multiset of the table. |
| `Database.Store.GetActiveTasks` | database.py:77-99 | Returns exactly the active rows passing the filters: user id only when truthy, deadline only for the literal `"tomorrow"`. The result is sorted by `(date(deadline), time)` and is a permutation of the selection. |
| `TaskRows.SortByCorrect` | database.py:94 | Sorting yields an ordered permutation of its input. The same sort serves `ORDER BY` and the Python `sorted` of the task list. |
| `TaskRows.SortByStable` | handlers/task_list.py:24 | The sort is stable: the rows sharing a key come out in the order they went in, as with Python's `sorted`. |
| `TaskRows.InsertAfterTies` | handlers/task_list.py:24 | Inserting a row into a sorted listing places it after every row with the same key. |
| `TaskRows.KeyLeTotal` | handlers/task_list.py:24 | The sort-key order is total. |
| `TaskRows.KeyLeTrans` | handlers/task_list.py:24 | The sort-key order is transitive. |
| `Database.Store.GetTasksDueInOneHour` | database.py:147-178 | Returns exactly the active rows whose `datetime(deadline ' ' COALESCE(time,'10:00'))` is 45 minutes from now or later and less than 90 minutes from now. |
| `SqlTime.SqlMinutes` | database.py:169 | `datetime()` accepts a `YYYY-MM-DD` prefix, optional whitespace or `T`, and `HH:MM`. The day may run past its month and rolls into the next one. |
| `SqlTime.SqlDay` | database.py:94 | `date()` is NULL for NULL, otherwise the day of `datetime()`. |
| `SqlTime.SqlMinutesCanonical` | database.py:161-169 | The canonical `YYYY-MM-DD HH:MM` text of a date and time is read as exactly that minute. |
| `SqlTime.SqlMinutesDateOnly` | database.py:169 | A date alone reads as its midnight. |
| `SqlTime.DatePrefixIso` | database.py:89-91 | The `%Y-%m-%d` text of a valid date is read back as that date. |
| `Calendar.IsoString` | database.py:89 | `strftime("%Y-%m-%d")` is ten characters whose fields are the year, month and day. |
| `Calendar.DaysInMonth` | utils/helpers.py:67 | Month lengths run from 28 to 31; February has 29 days exactly in leap years. |
| `Calendar.DayNumberNewYear` | database.py:89 | Adding a day to 31 December gives 1 January of the next year. |
| `Common.StripFacts` | utils/helpers.py:11 | `strip()` returns an inner slice with no whitespace at either end. Everything cut off is whitespace. |
| `Common.IntToStringRoundTrip` | handlers/task_list.py:172 | `int(str(i)) == i` for every integer. |
| `Common.LastSegment` | handlers/task_list.py:101 | `split('_')[-1]` is a suffix with no underscore, preceded by an underscore unless it is the whole text. |
| `Common.LastSegmentOf` | handlers/task_list.py:101 | The part after a final `_` is recovered exactly. |
| `Helpers.ReplaceDots` | utils/helpers.py:11 | Every `.` becomes `:` and every other character is kept. |
| `Helpers.StrptimeHM` | utils/helpers.py:22 | `strptime("%H:%M")` yields an hour of at most 23 and a minute of at most 59. |
| `Helpers.StrptimeShortFields` | utils/helpers.py:22 | `a:b` with one or two digits in each field is accepted exactly when `a` ≤ 23 and `b` ≤ 59, and then gives those two numbers. |
| `Helpers.StrptimePadded` | utils/helpers.py:22-23 | On two padded fields it accepts exactly the hours ≤ 23 and minutes ≤ 59. |
| `Helpers.ParseTime` | utils/helpers.py:6-25 | The result is `HH:MM` with two digits each, hour ≤ 23 and minute ≤ 59, or `None`. |
| `Helpers.ParseTimeOnlyFields` | utils/helpers.py:10-25 | A time is returned only when the text, after stripping, the dot replacement and the shortcuts, is one or two digits, `:` and one or two digits; any other text (`abc`, `9:05pm`) gives `None`. |
| `Helpers.ParseTimeFields` | utils/helpers.py:10-23 | `a:b` or `a.b`, with one or two digits in each field, gives `HH:MM` of those numbers when they form a time of day, and `None` otherwise. |
| `Helpers.ParseTimePadded` | utils/helpers.py:14-23 | Once the shortcuts produce two padded fields, the result is those fields exactly when they form a time of day. |
| `Helpers.ParseTimeHourOnly` | utils/helpers.py:14-15 | One or two digits give that whole hour (`"9"` → `"09:00"`); an hour past 23 gives `None`. |
| `Helpers.ParseTimeFourDigits` | utils/helpers.py:18-19 | Four digits are hours and minutes (`"1400"` → `"14:00"`) or `None` when out of range. |
| `Helpers.ParseTimeCanonical` | utils/helpers.py:22-23 | A canonical time reads back as itself. |
| `Helpers.ParseTimeIdempotent` | utils/helpers.py:6-25 | `parse_time(parse_time(x)) == parse_time(x)` whenever the first call succeeds. |
| `Helpers.ParseDate` | utils/helpers.py:39-70 | The result is a valid date, and the stripped text had one of the three accepted shapes. |
| `Helpers.ParseDateIsoFields` | utils/helpers.py:46-52 | A stripped text of the shape `YYYY-MM-DD` gives the date of its three fields when that date exists, and `None` otherwise. |
| `Helpers.ParseDateDottedFields` | utils/helpers.py:46-56 | A stripped `DD.MM.YYYY` gives the date of its three fields when that date exists, and `None` otherwise. |
| `Helpers.ParseDateIso` | utils/helpers.py:51-52 | `YYYY-MM-DD` of a valid date reads back as that date. |
| `Helpers.ParseDateDotted` | utils/helpers.py:55-56 | `DD.MM.YYYY` of a valid date reads back as that date. |
| `Helpers.ParseDateShortNeedsDot` | utils/helpers.py:59-60 | A `D?M` text whose middle character is not a dot (`1-2`, `12/05`) is refused: `split(".")` gives one part and the unpacking raises. |
| `Helpers.ParseDateDottedNeedsDots` | utils/helpers.py:55-56 | A `DD?MM?YYYY` text whose separators are not both dots is refused, although the pattern admits it. |
| `Helpers.ParseDateShort` | utils/helpers.py:59-67 | `D.M` / `DD.MM` takes this year, or next year for January asked in December, and is `None` for a date that does not exist. |
| `Helpers.FindLinks` | utils/helpers.py:35-36 | Every match is a scheme `http://` or `https://` followed by at least one non-space character, and holds no whitespace. |
| `Helpers.ExtractLinks` | utils/helpers.py:31-36 | `None` and `""` give no links; every link found is a match. |
| `Helpers.FindLinksSplit` | utils/helpers.py:35-36 | The links of `a c b` for a whitespace character `c` are the links of `a` followed by those of `b`. |
| `Helpers.FindLinksInWord` | utils/helpers.py:35-36 | In a text without whitespace, the only match is the rest of the text from the first place where a scheme is followed by a character; there is none when no such place exists. |
| `Helpers.FindLinksWord` | utils/helpers.py:35-36 | A whitespace-free word starting with a scheme is found as exactly one link. |
| `NewTask.Fragment` | handlers/new_task.py:44-49 | The entry appended is the text, else the caption, else `None`. |
| `NewTask.FileEntries` | handlers/new_task.py:51-54 | At most one file: the document's name, else the photo marker. |
| `NewTask.ForwardName` | handlers/new_task.py:56-60 | The forward's author name, else a non-empty hidden-sender name, else nothing. |
| `NewTask.FirstFragment` | handlers/new_task.py:201 | The first entry is the text when non-empty, else the caption as it is. |
| `NewTask.Accumulate` | handlers/new_task.py:40-66 | One fragment and at most one file are appended. A truthy sender is kept, otherwise the forward's name fills it. Nothing else changes. |
| `NewTask.CollectAllFacts` | handlers/new_task.py:34-66 | A run of messages appends one entry per message in order, keeps the earlier files as a prefix, adds at most one file each, and keeps the step, the answers and a set sender. |
| `NewTask.FirstForwardWins` | handlers/new_task.py:56-60 | The first forwarded message of a run sets the sender; later forwards do not change it. |
| `NewTask.TimeGate` | handlers/new_task.py:93-101 | After the time answer the step becomes exactly one of three. It is `confirm_assigned_by`, with the sender proposed, iff there is no assigner and there is a sender. It is `ask_comment` iff the assigner is a real name. Otherwise it is `ask_assigned_by`. |
| `NewTask.AnswerSetsOneField` | handlers/new_task.py:83-149 | An answer stores the stripped text in the step's own field. It leaves the other answers, the lists and the sender alone; the time gate may also fill the assigner. |
| `NewTask.StepAfterAnswer` | handlers/new_task.py:83-149 | `ask_deadline` → `ask_time` and `ask_assigned_by` → `ask_comment`. A comment or title answer → `confirm`. Other edits keep their step. |
| `NewTask.TimeAnswer` | handlers/new_task.py:90-118 | The time is stored. The confirm prompt names the forward's sender iff no assigner is set and there is a sender; the comment prompt comes iff a real assigner is set. |
| `NewTask.ConfirmStepAnswer` | handlers/new_task.py:127-141 | In the confirmation step, text re-asks and changes nothing when a real assigner is set, and otherwise asks for one. |
| `NewTask.TextReplyRaises` | handlers/new_task.py:74-152 | The handler raises exactly when a text-storing step gets a message without text, and then nothing is saved. Without a draft it warns and changes nothing. |
| `NewTask.RouteKeepsStepsKnown` | handlers/new_task.py:175-250 | From any store, even one holding a draft with an unknown step, routing leaves the user a draft whose step the dialogue knows. |
| `NewTask.RouteStartsFresh` | handlers/new_task.py:230-245 | With no draft, a confirmed draft or an unknown step, routing starts a fresh draft holding just this message. |
| `NewTask.SaveView` | handlers/new_task.py:154 | Writing the whole `pending` dict back reads back as that draft. |
| `NewTask.CollectView` | handlers/new_task.py:62-66 | Writing the three collected entries reads back as the draft with those lists and that sender. |
| `NewTask.StepView` | handlers/new_task.py:266 | Writing `{"step": s}` reads back as the draft with that step. |
| `NewTask.DeclineView` | handlers/new_task.py:272-275 | Clearing the assigner and setting the step read back as such. |
| `NewTask.StartCollectingTask` | handlers/new_task.py:18-31 | The user's draft becomes a fresh empty `collecting` draft. Other drafts and the tasks are unchanged. |
| `NewTask.HandleCollectingMessages` | handlers/new_task.py:34-71 | The stored draft and the reply are those of the collect transition on the draft read. |
| `NewTask.Save` | handlers/new_task.py:87 | `update_pending_task(user_id, pending)` stores exactly `pending`. |
| `NewTask.HandleTextReply` | handlers/new_task.py:74-170 | The stored draft and the reply are those of the text-reply transition. |
| `NewTask.StartFromMessage` | handlers/new_task.py:231-245 | The stored draft is the fresh draft built from the message. |
| `NewTask.RouteMessage` | handlers/new_task.py:175-250 | The stored draft and the reply are those of the routing transition. |
| `NewTask.HandleResetTask` | handlers/new_task.py:255-258 | The user's draft is gone and nothing else changes. |
| `NewTask.HandleConfirmAssignedYes` | handlers/new_task.py:261-267 | Without a draft it refuses and changes nothing. Otherwise only the step changes, to `ask_comment`. |
| `NewTask.HandleConfirmAssignedNo` | handlers/new_task.py:270-276 | The assigner is cleared and the step set to `ask_assigned_by`. Without a draft nothing changes. |
| `TaskList.TotalPages` | handlers/task_list.py:26 | `ceil(n/3)`: the smallest page count covering `n` tasks, and 0 exactly for none. |
| `TaskList.ClampPage` | handlers/task_list.py:28 | The page is kept when in range and otherwise clamped to the first or last page. |
| `TaskList.PageSlice` | handlers/task_list.py:31-33 | A page holds 1 to 3 consecutive tasks starting at `3·page`, and exactly 3 on every page but the last. |
| `TaskList.PagesPrefix` | handlers/task_list.py:31-33 | The first `k` pages together are the first `3k` tasks, in order. |
| `TaskList.PagesCover` | handlers/task_list.py:26-33 | All pages together are the sorted list: each task exactly once, in order. |
| `TaskList.ShortTitle` | handlers/task_list.py:61 | A title over 25 characters becomes its first 25 plus `...`. A shorter one is kept, and a missing one gets the placeholder. |
| `TaskList.NavRow` | handlers/task_list.py:74-86 | The counter is always present. The back button is present iff this is not the first page, and the forward button iff this is not the last. |
| `TaskList.BuildNav` | handlers/task_list.py:75-83 | The row is built button by button and equals the navigation row. |
| `TaskList.BuildPage` | handlers/task_list.py:41-71 | The loop yields one numbered entry and one view button per task of the page, in order. |
| `TaskList.BuildListing` | handlers/task_list.py:22-95 | The listing built step by step equals the page of the sorted list. |
| `TaskList.HandleTaskList` | handlers/task_list.py:9-95 | The view is the listing of all active tasks for the page asked, or the notice when there are none. |
| `TaskList.NoActiveTasks` | handlers/task_list.py:17-20 | Only the notice is sent exactly when there are no active tasks. |
| `TaskList.PageEntries` | handlers/task_list.py:26-64 | A page shows 1 to 3 entries numbered from 1. They are the consecutive tasks at `3·page + i` of the sorted list, and the page shown is the one asked when in range. |
| `TaskList.Keyboard` | handlers/task_list.py:69-91 | The keyboard has a button per entry, a navigation row only with more than one page, and the new-task button last. |
| `TaskList.ListAsksForAllActive` | handlers/task_list.py:15 | The list covers every active task of every user. |
| `TaskList.EveryTaskListed` | handlers/task_list.py:24-33 | Every active task appears on some page, at entry `k mod 3` of page `k div 3`. |
| `TaskList.EntryAt` | handlers/task_list.py:26-33 | The task at place `k` of the sorted list is entry `k mod 3` of page `k div 3`: that page exists and is not clamped. |
| `TaskList.ViewDataRoundTrip` | handlers/task_list.py:101 | A view button gives back its task id when the id has no `_`. |
| `TaskList.PageDataRoundTrip` | handlers/task_list.py:172 | A navigation button gives back its page number. |
| `TaskList.HandleViewTask` | handlers/task_list.py:97-166 | Returns no card exactly when no task has the id. The card carries the task's title, its deadline, its time or the dash when the time is falsy, and the done, extend and back actions for that id. |
| `TaskList.HandleTaskPageNavigation` | handlers/task_list.py:168-173 | Returns nothing when the page is not a number; otherwise the listing of that page. |
| `TaskList.HandleTaskListMenu` | handlers/task_list.py:175-179 | Returns the listing's first page. |
| `Scheduler.Buttons` | scheduler.py:37-42 | Exactly the done and extend buttons of the task. |
| `Scheduler.ButtonsCarryId` | scheduler.py:39-40 | Both buttons give back the task id as their last `_` segment. |
| `Scheduler.Countdown` | scheduler.py:83-88 | "Under an hour" iff at most 60 minutes are left. Otherwise hours ≥ 1 and minutes < 60 that add back up to the minutes left. |
| `Scheduler.Bot.constructor` | scheduler.py:14 | The outbox starts empty. |
| `Scheduler.Bot.SendMessage` | scheduler.py:44-56 | A message is appended exactly when its chat is reachable. A failed send is swallowed and leaves the outbox unchanged. |
| `Scheduler.Deliveries` | scheduler.py:30-56 | A send loop delivers at most one message per task. |
| `Scheduler.DeliveriesMembers` | scheduler.py:30-56 | A message is delivered exactly when some task has it and its chat is reachable. |
| `Scheduler.FirstSilent` | scheduler.py:69-77 | Every task before the index has a message and the task at the index has none. |
| `Scheduler.SendEach` | scheduler.py:30-56 | The loop appends the deliveries of all tasks, in order. |
| `Scheduler.SendUntilSilent` | scheduler.py:69-111 | The loop appends the deliveries of the tasks before the first that raises, and reports whether one raised. |
| `Scheduler.DailyNotice` | scheduler.py:31-54 | The daily message goes to the task's user, carries its title and deadline, and has its two buttons. |
| `Scheduler.DailyDeadlineCheck` | scheduler.py:25-56 | As written, the daily job sends its warning over the rows `get_active_tasks(deadline=<date>)` returns. |
| `Scheduler.DailyWarnsEveryActiveTask` | scheduler.py:27-28 | As written, every active task of a reachable user is warned about, whatever its deadline. |
| `Scheduler.DailyDeadlineCheckTomorrow` | scheduler.py:27-28 | The corrected job selects with `deadline="tomorrow"`. |
| `Scheduler.DailyTomorrowWarnsDueTomorrow` | scheduler.py:25-56 | The corrected job sends a message exactly when it is the warning of an active task due tomorrow whose user is reachable. |
| `Scheduler.PyMonth` | scheduler.py:77 | `%m` reads a month from 1 to 12 that is followed by `-`. |
| `Scheduler.PyDay` | scheduler.py:77 | `%d` reads a day from 1 to 31 that is followed by whitespace. |
| `Scheduler.PyDateTime` | scheduler.py:77 | `strptime("%Y-%m-%d %H:%M")` yields a valid date, an hour ≤ 23 and a minute ≤ 59, or fails. |
| `Scheduler.PyReadsCanonical` | scheduler.py:77 | `strptime` reads the canonical `YYYY-MM-DD HH:MM` of a valid date and time of day as exactly that date, hour and minute. |
| `Scheduler.PyAgreesWithSql` | scheduler.py:77 | Where SQLite and `strptime` both accept a deadline, they read the same minute. |
| `Scheduler.ClockAgrees` | scheduler.py:77 | `%H:%M` and SQLite's `HH:MM` read the same minute. |
| `Scheduler.MinutesLeft` | scheduler.py:78-80 | `int(seconds / 60)` truncates the exact time left toward zero. |
| `Scheduler.PyDueText` | scheduler.py:74-77 | The text `strptime` reads is the one the query read, except for an empty time. |
| `Scheduler.Reminder` | scheduler.py:69-108 | A reminder exists exactly when `strptime` accepts the deadline. It goes to the task's user, with its buttons and title, the deadline as stored (`None` when absent), the time or `10:00`, and the countdown of the minutes left. |
| `Scheduler.CanonicalTaskReminded` | scheduler.py:69-77 | A task whose deadline and time are canonical texts always gets a reminder. |
| `Scheduler.HourlyDeadlineCheck` | scheduler.py:58-111 | As written, the reminders of the tasks before the first unreadable deadline are sent, and that deadline aborts the job. |
| `Scheduler.HourlyStopsAtRolledDate` | scheduler.py:69-77 | A selected deadline whose day overflows its month stops the job at or before that task. |
| `Scheduler.HourlyDeadlineCheckSkipping` | scheduler.py:69-111 | The corrected job sends the reminder of every selected task that has one. |
| `Scheduler.SkippingDeliversReadable` | scheduler.py:69-111 | The corrected job delivers a message exactly when it is the reminder of a selected task with a readable deadline whose user is reachable. |
| `Scheduler.ReminderWindow` | scheduler.py:78-88 | A task the query selects is between 44 and 89 minutes away. The message says "under an hour" up to 60 minutes and "1 h m min" beyond. |
| `Scheduler.SqlRollsOverflowDay` | database.py:169 | SQLite reads `2024-02-30 10:00` as 1 March 2024, 10:00. |
| `Scheduler.PyRejectsRolledDate` | scheduler.py:77 | `strptime` refuses every deadline whose date SQLite had to roll over. |
| `Scheduler.OverflowRowDue` | scheduler.py:63-77 | At 09:00 on 1 March 2024 the query selects a task due `2024-02-30 10:00`, and `strptime` raises on it. |
| `Scheduler.SqlReadsSeconds` | database.py:169 | SQLite reads `2024-03-01 10:00:30` as 1 March 2024, 10:00. |
| `Scheduler.PyRejectsSeconds` | scheduler.py:77 | `strptime("%Y-%m-%d %H:%M")` refuses `2024-03-01 10:00:30`. |
| `Scheduler.SecondsRowDue` | scheduler.py:63-77 | At 09:00 on 1 March 2024 the query selects a task whose time was typed as `10:00:30`, and `strptime` raises on it. |
| `Sheets.FormatLinks` | google_sheets.py:53-56 | The text is empty exactly when there are no links. |
| `Sheets.SplitJoin` | google_sheets.py:56 | Splitting a `"\n".join` at line breaks gives back the lines. |
| `Sheets.LinksRoundTrip` | google_sheets.py:53-56 | The formatted text has one line per link, in order: `- ` then the link. |
| `Sheets.CommentCell` | google_sheets.py:40 | With links, the cell is the comment (or nothing), a line break and the links. Without links it is the comment itself when that is truthy, and the dash when it is falsy. |
| `Sheets.CommentCellLines` | google_sheets.py:40 | With links, the cell's first line is the comment and each following line is a link. |
| `Sheets.MsgIdCell` | google_sheets.py:44 | The cell is empty exactly for a missing or zero message id; otherwise `int()` reads the id back from it. |
| `Sheets.SheetRow` | google_sheets.py:34-45 | Ten cells. Title, deadline and assigner fall back to the dash. B is today's `%Y-%m-%d`. D is the dash and G is empty. H, I and J are the status, the id and the message-id cell. |
| `Sheets.SheetRowFilled` | google_sheets.py:34-40 | Columns A to F of the row are never empty: missing values become the dash. |
| `Sheets.InsertIndex` | google_sheets.py:47-48 | The row goes just below the last value of column A, and never above row 2, so the header is kept. |

## Left out

- Telegram I/O is left out. Message texts, HTML, emoji and keyboard layout are not modelled; a reply is the prompt it asks and a button is its callback data.
- Date display is left out: `%d.%m`, weekday names, `created_at` display.
- Sending is modelled by a set of reachable chats, and the error prints are left out.
- `gpt_parser.py`, `google_calendar.py` and `handlers/task_actions.py` are not part of this model. Neither are the `main.py` start-up and the `add_comment_column` / `create_tables` schema steps; the `comment` column is assumed present.
- The spreadsheet client is left out: authorisation, `open_by_key`, `worksheet`, `col_values`, `insert_row`. Column A is a parameter, and the row and its index are returned.
- `Sheets.SheetTask`: the `Task` dataclass of `models/task_model.py` has no `assigned_by`, `comment` or `links`, which `add_task_to_sheet` reads. The model takes a task object with those attributes, and `links = None` is taken as the empty list.
- `NewTask.RouteMessage`: the check for a "waiting for comment" FSM state is left out. It reads a `MemoryStorage` created fresh on each call, so it never holds a state and never returns early.
- Clocks: `datetime.now()` is a parameter. The hourly job reads it once per task in the source and once per run in the model. The query's bounds drop seconds, and the model compares whole minutes.
- Floats: `hours_spent` is a `real`. The time left is computed exactly in microseconds, not through a float division.
- Digits are ASCII. Python's `\d` and `int()` also accept other Unicode decimal digits, which is not modelled.
- SQLite's `datetime()` is modelled only for `YYYY-MM-DD`, optional whitespace or `T`, `HH:MM` and an optional `:SS`. Fractional seconds, time zones and the other forms SQLite accepts are not modelled. A time is stored as typed (handlers/new_task.py:91), so such texts can reach the table; the query's bounds are minute texts, so seconds do not change which rows it selects.
- Helpers.StrptimeHM: its own contract gives only the bounds of the hour and the minute. Which texts it accepts, and the numbers it reads, are stated by `Helpers.StrptimeShortFields` and `Helpers.StrptimePadded`.
- Helpers.ParseDate: its own contract gives only the validity of the date and the shape of the text. The date read from each shape is stated by `Helpers.ParseDateIsoFields`, `Helpers.ParseDateDottedFields` and `Helpers.ParseDateShort`, and the refusal of non-dot separators by `Helpers.ParseDateDottedNeedsDots` and `Helpers.ParseDateShortNeedsDot`.
- Helpers.ParseTime: its own contract gives only the form of a result. Which texts succeed is stated by `Helpers.ParseTimeOnlyFields` (only `a:b` after the shortcuts) and, value by value, by `Helpers.ParseTimeFields`, `Helpers.ParseTimeHourOnly` and `Helpers.ParseTimeFourDigits`.
- Helpers.FindLinks: its own contract says only that every match is a link. Which matches are found is stated by `Helpers.FindLinksSplit` and `Helpers.FindLinksInWord`, which together fix the result for every text.
- Database.DecodeColumn: text that `json.loads` reads as something other than a list of strings and nulls (a number, an object, a list of numbers) gives `[]` here, where Python would keep that value, because a draft's lists hold only strings and nulls. A lone surrogate escape such as `\uD800` makes the column read as `[]` here; Python keeps it as a lone surrogate.
- `Scheduler.PyDueText`: a time stored as `""` is read by Python as `"10:00"` (`task[4] or "10:00"`) but by SQLite's `COALESCE` as an empty time, i.e. midnight. The model keeps both readings, and `ReminderWindow` excludes that case.
- The `tomorrow` date of `get_active_tasks` is an input: the day after `datetime.now()`.
- The JSON encoder writes non-ASCII characters literally, where `json.dumps` escapes them as `\uXXXX`. The decoded value is the same; the stored text differs.
- TaskRows.SortBy: `ORDER BY` leaves ties in unspecified order. The model keeps insertion order (`TaskRows.SortByStable`), as Python's stable `sorted` does; for the store's query that is one of the orders SQLite may return.

## Findings

| source | as written | input that shows it | evidently intended | confidence | as-written member | corrected member |
|---|---|---|---|---|---|---|
| scheduler.py:27-28 | The daily job passes tomorrow's date, `"2024-03-02"`, as `deadline`. `get_active_tasks` filters on the deadline only when the argument is the word `"tomorrow"` (database.py:88-91). | Any active task due later than tomorrow, e.g. one due 2024-12-31, is warned about every morning as "due tomorrow". | Warn only about active tasks whose deadline is tomorrow. | not executed | `Scheduler.DailyWarnsEveryActiveTask` | `Scheduler.DailyTomorrowWarnsDueTomorrow` |
| scheduler.py:77 | The hourly job re-reads each selected deadline with `strptime` outside the `try`. SQLite selected it with `datetime()`, which rolls an overflowing day into the next month; `strptime` raises on it. | A task row due `2024-02-30 10:00`; the draft dialogue stores a deadline as typed (handlers/new_task.py:84). At 09:00 on 1 March 2024 the query selects it, `strptime` raises, and no reminder after it in the list goes out. A time typed as `10:00:30` is selected and raises in the same way (`Scheduler.SecondsRowDue`). | Skip a deadline `strptime` cannot read, and still send the other reminders. | not executed | `Scheduler.HourlyStopsAtRolledDate` | `Scheduler.SkippingDeliversReadable` |

/** The two jobs of `scheduler.py`. `bot.send_message` is an append to the
    bot's outbox that happens only for a chat the bot can reach (a failed
    send is caught and printed, so it leaves nothing behind); the clock is
    a parameter. The hourly job re-reads each deadline with Python's
    `datetime.strptime(..., "%Y-%m-%d %H:%M")`, modelled here beside the
    SQLite reading the query used. */
module Scheduler {
  import opened Common
  import opened Calendar
  import opened Helpers
  import opened SqlTime
  import opened TaskRows
  import opened Database

  // ------------------------------------------------------------ messages

  /** How much time the hourly reminder says is left. */
  datatype TimeLeft = UnderAnHour | HoursAndMinutes(hours: int, minutes: int)

  /** What a notification says, apart from its fixed wording. The title
      and the deadline are printed with `str()`, so `None` shows as "None". */
  datatype Notice =
    | DueTomorrow(title: Option<string>, deadline: Option<string>)
    | DueWithin(left: TimeLeft, title: Option<string>, date: string, time: string)

  /** A message to the chat `chat` with the inline buttons' callback data. */
  datatype Notification = Notification(chat: Option<int>, notice: Notice, buttons: seq<string>)

  /** A send succeeds only to a chat the bot can reach; `chat_id=None` is
      refused by the client library. */
  predicate Delivers(reachable: set<int>, chat: Option<int>)
  {
    chat.Some? && chat.value in reachable
  }

  /** The "done" and "extend" buttons of a task. */
  function Buttons(id: string): (r: seq<string>)
    ensures |r| == 2 && r[0] == "mark_done_" + id && r[1] == "extend_deadline_" + id
  {
    ["mark_done_" + id, "extend_deadline_" + id]
  }

  /** Both buttons carry the task's id as their last `_`-separated segment,
      which is how the callback handlers read it back. */
  lemma ButtonsCarryId(id: string)
    requires '_' !in id
    ensures LastSegment(Buttons(id)[0]) == id && LastSegment(Buttons(id)[1]) == id
  {
    LastSegmentOf("mark_done", id);
    assert Buttons(id)[0] == "mark_done" + "_" + id;
    LastSegmentOf("extend_deadline", id);
    assert Buttons(id)[1] == "extend_deadline" + "_" + id;
  }

  /** The wording of the time left: under an hour up to sixty minutes,
      else whole hours and the remaining minutes (`//` and `%`). */
  function Countdown(minutesLeft: int): (r: TimeLeft)
    ensures r.UnderAnHour? <==> minutesLeft <= 60
    ensures r.HoursAndMinutes? ==>
      r.hours >= 1 && 0 <= r.minutes < 60 && r.hours * 60 + r.minutes == minutesLeft
  {
    if minutesLeft <= 60 then UnderAnHour
    else HoursAndMinutes(minutesLeft / 60, minutesLeft % 60)
  }

  // -------------------------------------------------------------- bot

  /** The bot, reduced to the messages it has delivered. */
  class Bot {
    var outbox: seq<Notification>

    constructor ()
      ensures outbox == []
    {
      outbox := [];
    }

    /** `bot.send_message` inside `try ... except Exception: print(...)`. */
    method SendMessage(n: Notification, reachable: set<int>)
      modifies this
      ensures outbox == old(outbox) + (if Delivers(reachable, n.chat) then [n] else [])
    {
      if Delivers(reachable, n.chat) {
        outbox := outbox + [n];
      }
    }
  }

  // ------------------------------------------------------ the send loops

  /** What a loop over `tasks` delivers, in their order, when `notify`
      gives the message for a task (`None`: the task is passed over). */
  function Deliveries(tasks: seq<TaskRow>, notify: TaskRow -> Option<Notification>, reachable: set<int>): (r: seq<Notification>)
    ensures |r| <= |tasks|
  {
    if tasks == [] then []
    else
      var init := tasks[..|tasks| - 1];
      var last := tasks[|tasks| - 1];
      assert tasks == init + [last];
      var n := notify(last);
      Deliveries(init, notify, reachable) + (if n.Some? && Delivers(reachable, n.value.chat) then [n.value] else [])
  }

  /** A message is delivered exactly when some task has it and its chat
      is reachable. */
  lemma {:induction false} DeliveriesMembers(tasks: seq<TaskRow>, notify: TaskRow -> Option<Notification>,
      reachable: set<int>, n: Notification)
    ensures n in Deliveries(tasks, notify, reachable) <==>
      exists t :: t in tasks && notify(t) == Some(n) && Delivers(reachable, n.chat)
  {
    if tasks != [] {
      var init := tasks[..|tasks| - 1];
      var last := tasks[|tasks| - 1];
      assert tasks == init + [last];
      DeliveriesMembers(init, notify, reachable, n);
      if exists t :: t in tasks && notify(t) == Some(n) && Delivers(reachable, n.chat) {
        var t :| t in tasks && notify(t) == Some(n) && Delivers(reachable, n.chat);
        if t != last {
          assert t in init;
        }
      }
    }
  }

  /** One more task handled by a send loop. */
  lemma DeliveriesStep(tasks: seq<TaskRow>, i: nat, notify: TaskRow -> Option<Notification>, reachable: set<int>)
    requires i < |tasks|
    ensures var n := notify(tasks[i]);
      Deliveries(tasks[..i + 1], notify, reachable)
      == Deliveries(tasks[..i], notify, reachable) + (if n.Some? && Delivers(reachable, n.value.chat) then [n.value] else [])
  {
    assert tasks[..i + 1][..i] == tasks[..i];
  }

  /** The index of the first task `notify` has no message for, or the
      number of tasks. */
  function FirstSilent(tasks: seq<TaskRow>, notify: TaskRow -> Option<Notification>): (i: nat)
    ensures i <= |tasks|
    ensures forall j :: 0 <= j < i ==> notify(tasks[j]).Some?
    ensures i < |tasks| ==> notify(tasks[i]).None?
  {
    if tasks == [] || notify(tasks[0]).None? then 0
    else 1 + FirstSilent(tasks[1..], notify)
  }

  /** A `for task in tasks` loop that sends each task's message, passing
      over a task without one. */
  method SendEach(bot: Bot, tasks: seq<TaskRow>, notify: TaskRow -> Option<Notification>, reachable: set<int>)
    modifies bot
    ensures bot.outbox == old(bot.outbox) + Deliveries(tasks, notify, reachable)
  {
    ghost var start := bot.outbox;
    var i := 0;
    while i < |tasks|
      invariant 0 <= i <= |tasks| && start == old(bot.outbox)
      invariant bot.outbox == start + Deliveries(tasks[..i], notify, reachable)
    {
      var n := notify(tasks[i]);
      ghost var sent := Deliveries(tasks[..i], notify, reachable);
      ghost var more := if n.Some? && Delivers(reachable, n.value.chat) then [n.value] else [];
      DeliveriesStep(tasks, i, notify, reachable);
      assert Deliveries(tasks[..i + 1], notify, reachable) == sent + more;
      if n.Some? {
        bot.SendMessage(n.value, reachable);
      }
      assert bot.outbox == start + sent + more == start + (sent + more);
      i := i + 1;
    }
    assert tasks[..i] == tasks;
  }

  /** A `for task in tasks` loop that ends, by an exception, at the first
      task without a message; `aborted` says whether that happened. */
  method SendUntilSilent(bot: Bot, tasks: seq<TaskRow>, notify: TaskRow -> Option<Notification>, reachable: set<int>)
    returns (aborted: bool)
    modifies bot
    ensures var i := FirstSilent(tasks, notify);
      aborted == (i < |tasks|) && bot.outbox == old(bot.outbox) + Deliveries(tasks[..i], notify, reachable)
  {
    ghost var stop := FirstSilent(tasks, notify);
    ghost var start := bot.outbox;
    var i := 0;
    while i < |tasks|
      invariant 0 <= i <= stop && start == old(bot.outbox)
      invariant bot.outbox == start + Deliveries(tasks[..i], notify, reachable)
    {
      var n := notify(tasks[i]);
      if n.None? {
        return true;
      }
      ghost var sent := Deliveries(tasks[..i], notify, reachable);
      ghost var more := if Delivers(reachable, n.value.chat) then [n.value] else [];
      DeliveriesStep(tasks, i, notify, reachable);
      assert Deliveries(tasks[..i + 1], notify, reachable) == sent + more;
      bot.SendMessage(n.value, reachable);
      assert bot.outbox == start + sent + more == start + (sent + more);
      i := i + 1;
    }
    assert tasks[..i] == tasks;
    return false;
  }

  // ----------------------------------------------------- the daily job

  function DailyNotice(t: TaskRow): (n: Notification)
    ensures n.chat == t.userId && n.buttons == Buttons(t.id)
    ensures n.notice == DueTomorrow(t.title, t.deadline)
  {
    Notification(t.userId, DueTomorrow(t.title, t.deadline), Buttons(t.id))
  }

  /** The daily job has a message for every task. */
  const Warn: TaskRow -> Option<Notification> := t => Some(DailyNotice(t))

  /** `daily_deadline_check` as written: it passes tomorrow's date where
      `get_active_tasks` filters only on the word `"tomorrow"`. */
  method DailyDeadlineCheck(db: Store, bot: Bot, tomorrow: Date, reachable: set<int>)
    requires ValidDate(tomorrow)
    modifies bot
    ensures bot.outbox == old(bot.outbox) + Deliveries(db.GetActiveTasks(None, Some(IsoString(tomorrow)), tomorrow), Warn, reachable)
  {
    var tasks := db.GetActiveTasks(None, Some(IsoString(tomorrow)), tomorrow);
    SendEach(bot, tasks, Warn, reachable);
  }

  /** The daily job as evidently intended: only the tasks due tomorrow. */
  method DailyDeadlineCheckTomorrow(db: Store, bot: Bot, tomorrow: Date, reachable: set<int>)
    requires ValidDate(tomorrow)
    modifies bot
    ensures bot.outbox == old(bot.outbox) + Deliveries(db.GetActiveTasks(None, Some("tomorrow"), tomorrow), Warn, reachable)
  {
    var tasks := db.GetActiveTasks(None, Some("tomorrow"), tomorrow);
    SendEach(bot, tasks, Warn, reachable);
  }

  /** As written, the daily job warns about every active task of every
      reachable user, whatever its deadline: a date text is never the word
      `"tomorrow"`. */
  lemma DailyWarnsEveryActiveTask(db: Store, tomorrow: Date, reachable: set<int>, t: TaskRow)
    requires ValidDate(tomorrow)
    requires t in db.tasks && t.status == Some("active") && Delivers(reachable, t.userId)
    ensures DailyNotice(t) in Deliveries(db.GetActiveTasks(None, Some(IsoString(tomorrow)), tomorrow), Warn, reachable)
  {
    var tasks := db.GetActiveTasks(None, Some(IsoString(tomorrow)), tomorrow);
    assert |IsoString(tomorrow)| != |"tomorrow"|;
    assert Matches(Active(None, Some(IsoString(tomorrow)), IsoString(tomorrow)), t);
    assert t in tasks && Warn(t) == Some(DailyNotice(t));
    DeliveriesMembers(tasks, Warn, reachable, DailyNotice(t));
  }

  /** The intended daily job warns exactly about the active tasks due
      tomorrow whose users it can reach. */
  lemma DailyTomorrowWarnsDueTomorrow(db: Store, tomorrow: Date, reachable: set<int>, n: Notification)
    requires ValidDate(tomorrow)
    ensures n in Deliveries(db.GetActiveTasks(None, Some("tomorrow"), tomorrow), Warn, reachable) <==>
      exists t :: (t in db.tasks && t.status == Some("active") && t.deadline == Some(IsoString(tomorrow))
        && Delivers(reachable, t.userId) && n == DailyNotice(t))
  {
    var tasks := db.GetActiveTasks(None, Some("tomorrow"), tomorrow);
    DeliveriesMembers(tasks, Warn, reachable, n);
    if n in Deliveries(tasks, Warn, reachable) {
      var t :| t in tasks && Warn(t) == Some(n) && Delivers(reachable, n.chat);
      assert Matches(Active(None, Some("tomorrow"), IsoString(tomorrow)), t);
    }
    if exists t :: (t in db.tasks && t.status == Some("active") && t.deadline == Some(IsoString(tomorrow))
        && Delivers(reachable, t.userId) && n == DailyNotice(t)) {
      var t :| t in db.tasks && t.status == Some("active") && t.deadline == Some(IsoString(tomorrow))
        && Delivers(reachable, t.userId) && n == DailyNotice(t);
      assert Matches(Active(None, Some("tomorrow"), IsoString(tomorrow)), t);
      assert t in tasks && Warn(t) == Some(n);
    }
  }

  // ------------------------------------- Python's reading of a deadline

  /** `%m` is `1[0-2]|0[1-9]|[1-9]` and `-` must follow: the month and the
      index of that `-`. A two-digit alternative not followed by `-` cannot
      be rescued by the one-digit one, whose next character is a digit. */
  function PyMonth(s: string, i: nat): (r: Option<(int, nat)>)
    ensures r.Some? ==> i < r.value.1 <= i + 2 && r.value.1 < |s| && s[r.value.1] == '-'
    ensures r.Some? ==> 1 <= r.value.0 <= 12
  {
    if Digits2(s, i) && 1 <= Num2(s, i) <= 12 && i + 2 < |s| && s[i + 2] == '-' then Some((Num2(s, i), i + 2))
    else if i + 1 < |s| && '1' <= s[i] <= '9' && s[i + 1] == '-' then Some((s[i] as int - '0' as int, i + 1))
    else None
  }

  /** `%d` is `3[01]|[12]\d|0[1-9]|[1-9]| [1-9]` and whitespace must follow
      (the space of the format is `\s+`): the day and the index of that
      whitespace. */
  function PyDay(s: string, i: nat): (r: Option<(int, nat)>)
    ensures r.Some? ==> i < r.value.1 <= i + 2 && r.value.1 < |s| && IsSpace(s[r.value.1])
    ensures r.Some? ==> 1 <= r.value.0 <= 31
  {
    if Digits2(s, i) && 1 <= Num2(s, i) <= 31 && i + 2 < |s| && IsSpace(s[i + 2]) then Some((Num2(s, i), i + 2))
    else if i + 1 < |s| && '1' <= s[i] <= '9' && IsSpace(s[i + 1]) then Some((s[i] as int - '0' as int, i + 1))
    else if i + 2 < |s| && s[i] == ' ' && '1' <= s[i + 1] <= '9' && IsSpace(s[i + 2]) then
      Some((s[i + 1] as int - '0' as int, i + 2))
    else None
  }

  /** The end of the run of whitespace at `i`. `\s+` is greedy, and giving
      back whitespace never helps, since `%H` needs a digit. */
  function SpaceEnd(s: string, i: nat): (k: nat)
    requires i <= |s|
    ensures i <= k <= |s| && (k < |s| ==> !IsSpace(s[k]))
    ensures forall j :: i <= j < k ==> IsSpace(s[j])
    decreases |s| - i
  {
    if i < |s| && IsSpace(s[i]) then SpaceEnd(s, i + 1) else i
  }

  /** `datetime.strptime(s, "%Y-%m-%d %H:%M")` as a date, hour and minute,
      or `None` where Python raises `ValueError`: the pattern fails, text
      is left over, or the date does not exist (year 0, 30 February). */
  function PyDateTime(s: string): (r: Option<(Date, int, int)>)
    ensures r.Some? ==> ValidDate(r.value.0) && 0 <= r.value.1 <= 23 && 0 <= r.value.2 <= 59
  {
    if !(Digits2(s, 0) && Digits2(s, 2) && 4 < |s| && s[4] == '-') then None
    else match PyMonth(s, 5)
      case None => None
      case Some((month, j)) =>
        match PyDay(s, j + 1)
        case None => None
        case Some((day, k)) =>
          var e := SpaceEnd(s, k);
          match StrptimeHM(s[e..])
          case None => None
          case Some((h, m)) =>
            var d := Date(Num2(s, 0) * 100 + Num2(s, 2), month, day);
            if ValidDate(d) then Some((d, h, m)) else None
  }

  /** `strptime` reads the canonical `YYYY-MM-DD HH:MM` of a date and a
      time of day as that date, hour and minute. */
  lemma PyReadsCanonical(d: Date, h: nat, m: nat)
    requires ValidDate(d) && h <= 23 && m <= 59
    ensures PyDateTime(IsoString(d) + " " + Pad2(h) + ":" + Pad2(m)) == Some((d, h, m))
  {
    var s := IsoString(d) + " " + Pad2(h) + ":" + Pad2(m);
    var rest := " " + Pad2(h) + ":" + Pad2(m);
    assert s == IsoString(d) + rest;
    DatePrefixIso(d, rest);
    assert s[10..] == rest;
    PyFieldsOfIso(s, d);
    PyClockAfterDate(s, h, m);
  }

  /** The `%Y-%m-` and `%d ` fields of a text whose `YYYY-MM-DD` prefix is a
      date followed by a space. */
  lemma PyFieldsOfIso(s: string, d: Date)
    requires DatePrefix(s) == Some(d) && |s| > 10 && s[10] == ' '
    ensures PyMonth(s, 5) == Some((d.month, 7)) && PyDay(s, 8) == Some((d.day, 10))
    ensures Num2(s, 0) * 100 + Num2(s, 2) == d.year
  {
  }

  /** After the date, one space and `HH:MM`: the clock `strptime` reads. */
  lemma PyClockAfterDate(s: string, h: nat, m: nat)
    requires h <= 23 && m <= 59 && |s| >= 10 && s[10..] == " " + Pad2(h) + ":" + Pad2(m)
    ensures SpaceEnd(s, 10) == 11 && StrptimeHM(s[11..]) == Some((h, m))
  {
    Pad2Digits(h);
    assert s[10] == ' ' && s[11] == Pad2(h)[0];
    assert SpaceEnd(s, 11) == 11;
    assert s[11..] == Pad2(h) + ":" + Pad2(m);
    StrptimePadded(h, m);
  }

  /** An active task whose deadline and time are canonical texts gets a
      reminder: Python reads its deadline. */
  lemma CanonicalTaskReminded(t: TaskRow, now: Instant, d: Date, h: nat, m: nat)
    requires ValidDate(d) && h <= 23 && m <= 59
    requires t.deadline == Some(IsoString(d)) && t.time == Some(Pad2(h) + ":" + Pad2(m))
    ensures Reminder(t, now).Some?
  {
    PyReadsCanonical(d, h, m);
    assert PyDueText(t) == IsoString(d) + " " + Pad2(h) + ":" + Pad2(m);
  }

  /** Minutes since the start of the calendar of a Python datetime. */
  function PyMinutes(dt: (Date, int, int)): int
    requires 1 <= dt.0.month <= 12
  {
    DayNumber(dt.0) * 1440 + dt.1 * 60 + dt.2
  }

  /** Where SQLite and Python both accept a deadline text they read the
      same minute. */
  lemma PyAgreesWithSql(s: string)
    requires SqlMinutes(s).Some? && PyDateTime(s).Some?
    ensures SqlMinutes(s).value == PyMinutes(PyDateTime(s).value)
  {
    var d := DatePrefix(s).value;
    assert PyMonth(s, 5) == Some((Num2(s, 5), 7));
    assert PyDay(s, 8) == Some((Num2(s, 8), 10));
    var e := SpaceEnd(s, 10);
    var k := SkipSep(s, 10);
    var hm := StrptimeHM(s[e..]).value;
    assert e < |s| && IsDigit(s[e]);
    assert k < |s| && e == k;
    ClockAgrees(s, k);
  }

  /** `%H:%M` and SQLite's `HH:MM` agree on a text both accept. */
  lemma ClockAgrees(s: string, k: nat)
    requires k <= |s| && ClockAt(s, k).Some? && StrptimeHM(s[k..]).Some?
    ensures ClockAt(s, k).value == StrptimeHM(s[k..]).value.0 * 60 + StrptimeHM(s[k..]).value.1
  {
    var rest := s[k..];
    assert rest[0] == s[k] && rest[1] == s[k + 1] && rest[2] == ':';
    assert HourLength(rest) == 2;
    ValueShort(rest[..2]);
    var tail := rest[3..];
    assert tail[0] == s[k + 3] && tail[1] == s[k + 4];
    assert MinuteLength(tail) == 2;
    assert |tail| == 2;
    ValueShort(tail);
  }

  // ----------------------------------------------------- the hourly job

  /** A reading of `datetime.now()`: the whole minutes since the start of
      the calendar and the microseconds into the current minute. */
  datatype Instant = Instant(minute: int, micros: int)

  predicate ValidInstant(now: Instant)
  {
    0 <= now.micros < 60_000_000
  }

  const MicrosPerMinute := 60_000_000

  /** `int((deadline_dt - now).total_seconds() / 60)`, computed exactly:
      Python's `int` truncates the quotient toward zero. */
  function MinutesLeft(due: int, now: Instant): (r: int)
    ensures var left := due * MicrosPerMinute - (now.minute * MicrosPerMinute + now.micros);
      (left >= 0 ==> 0 <= left - r * MicrosPerMinute < MicrosPerMinute)
      && (left < 0 ==> 0 <= r * MicrosPerMinute - left < MicrosPerMinute)
  {
    var left := due * MicrosPerMinute - (now.minute * MicrosPerMinute + now.micros);
    if left >= 0 then left / MicrosPerMinute else -((-left) / MicrosPerMinute)
  }

  /** The text handed to `strptime`: `f"{deadline} {time}"` with
      `time = task[4] or "10:00"`. */
  function PyDueText(t: TaskRow): (r: string)
    ensures t.deadline.Some? && t.time != Some("") ==> DueText(t) == Some(r)
  {
    (if t.deadline.Some? then t.deadline.value else "None") + " " + OrElse(t.time, "10:00")
  }

  /** The reminder for one task, or `None` where `strptime` raises. */
  function Reminder(t: TaskRow, now: Instant): (r: Option<Notification>)
    ensures r.Some? <==> PyDateTime(PyDueText(t)).Some?
    ensures r.Some? ==> (r.value.chat == t.userId && r.value.buttons == Buttons(t.id)
      && r.value.notice.DueWithin? && r.value.notice.title == t.title
      && r.value.notice.left == Countdown(MinutesLeft(PyMinutes(PyDateTime(PyDueText(t)).value), now)))
    ensures r.Some? ==> (r.value.notice.date == (if t.deadline.Some? then t.deadline.value else "None")
      && r.value.notice.time == OrElse(t.time, "10:00"))
  {
    match PyDateTime(PyDueText(t))
    case None => None
    case Some(dt) =>
      var left := Countdown(MinutesLeft(PyMinutes(dt), now));
      var deadline := if t.deadline.Some? then t.deadline.value else "None";
      Some(Notification(t.userId, DueWithin(left, t.title, deadline, OrElse(t.time, "10:00")), Buttons(t.id)))
  }

  /** The hourly job's message for each task. */
  function Remind(now: Instant): TaskRow -> Option<Notification>
  {
    t => Reminder(t, now)
  }

  /** `hourly_deadline_check` as written, with the clock reading `now`:
      the `strptime` call sits outside the `try`, so the first deadline it
      rejects ends the job. */
  method HourlyDeadlineCheck(db: Store, bot: Bot, now: Instant, reachable: set<int>) returns (aborted: bool)
    modifies bot
    ensures var tasks := db.GetTasksDueInOneHour(now.minute);
      var i := FirstSilent(tasks, Remind(now));
      aborted == (i < |tasks|) && bot.outbox == old(bot.outbox) + Deliveries(tasks[..i], Remind(now), reachable)
  {
    var tasks := db.GetTasksDueInOneHour(now.minute);
    if tasks == [] {
      return false;
    }
    aborted := SendUntilSilent(bot, tasks, Remind(now), reachable);
  }

  /** The hourly job as evidently intended: a deadline `strptime` rejects
      is skipped and the other reminders still go out. */
  method HourlyDeadlineCheckSkipping(db: Store, bot: Bot, now: Instant, reachable: set<int>)
    modifies bot
    ensures bot.outbox == old(bot.outbox) + Deliveries(db.GetTasksDueInOneHour(now.minute), Remind(now), reachable)
  {
    var tasks := db.GetTasksDueInOneHour(now.minute);
    if tasks == [] {
      return;
    }
    SendEach(bot, tasks, Remind(now), reachable);
  }

  /** The intended hourly job delivers the reminder of every selected task
      whose deadline Python reads and whose user it can reach, whatever
      the other rows hold; and nothing else. */
  lemma SkippingDeliversReadable(db: Store, now: Instant, reachable: set<int>, n: Notification)
    ensures n in Deliveries(db.GetTasksDueInOneHour(now.minute), Remind(now), reachable) <==>
      exists t :: (t in db.tasks && Matches(DueSoon(now.minute), t) && Reminder(t, now) == Some(n)
        && Delivers(reachable, t.userId))
  {
    var tasks := db.GetTasksDueInOneHour(now.minute);
    DeliveriesMembers(tasks, Remind(now), reachable, n);
    if exists t :: (t in db.tasks && Matches(DueSoon(now.minute), t) && Reminder(t, now) == Some(n)
        && Delivers(reachable, t.userId)) {
      var t :| t in db.tasks && Matches(DueSoon(now.minute), t) && Reminder(t, now) == Some(n)
        && Delivers(reachable, t.userId);
      assert t in tasks && Remind(now)(t) == Some(n);
    }
    if n in Deliveries(tasks, Remind(now), reachable) {
      var t :| t in tasks && Remind(now)(t) == Some(n) && Delivers(reachable, n.chat);
      assert Reminder(t, now) == Some(n);
    }
  }

  /** A reminder the query selected and Python could read says 44 to 89
      minutes are left: under an hour up to sixty, else one hour and 1 to
      29 minutes. (A stored time of `""` is read as 10:00 by Python and as
      midnight by SQLite, so it is excluded.) */
  lemma ReminderWindow(t: TaskRow, now: Instant)
    requires ValidInstant(now) && Matches(DueSoon(now.minute), t) && t.time != Some("")
    requires Reminder(t, now).Some?
    ensures var m := MinutesLeft(PyMinutes(PyDateTime(PyDueText(t)).value), now);
      44 <= m <= 89
      && Reminder(t, now).value.notice.left == (if m <= 60 then UnderAnHour else HoursAndMinutes(1, m - 60))
  {
    var s := PyDueText(t);
    PyAgreesWithSql(s);
    var m := MinutesLeft(SqlMinutes(s).value, now);
    LeftInWindow(SqlMinutes(s).value, now);
    CountdownInWindow(m);
  }

  /** 44 to 89 minutes read as under an hour up to sixty, else one hour
      and the rest. */
  lemma CountdownInWindow(m: int)
    requires 44 <= m <= 89
    ensures Countdown(m) == if m <= 60 then UnderAnHour else HoursAndMinutes(1, m - 60)
  {
    if m > 60 {
      assert m / 60 == 1 && m % 60 == m - 60;
    }
  }

  /** Due 45 to 89 whole minutes after the current minute, with part of
      that minute gone: 44 to 89 minutes are left. */
  lemma LeftInWindow(due: int, now: Instant)
    requires ValidInstant(now) && now.minute + 45 <= due < now.minute + 90
    ensures 44 <= MinutesLeft(due, now) <= 89
  {
    var q := due - now.minute;
    assert due * MicrosPerMinute - (now.minute * MicrosPerMinute + now.micros) == q * MicrosPerMinute - now.micros;
  }

  // --------------------------------------------------- finding: hourly

  /** SQLite reads 30 February 2024, 10:00 as 1 March 2024, 10:00. */
  lemma SqlRollsOverflowDay()
    ensures SqlMinutes("2024-02-30" + " " + "10:00") == Some(DayNumber(Date(2024, 3, 1)) * 1440 + 600)
  {
    var s := "2024-02-30" + " " + "10:00";
    assert DatePrefix(s) == Some(Date(2024, 2, 30));
    assert SkipSep(s, 11) == 11;
    assert SkipSep(s, 10) == 11;
    assert ClockAt(s, 11) == Some(600);
  }

  /** Python refuses every text whose `YYYY-MM-DD` SQLite reads as a date
      that does not exist (30 February, 31 April, year 0): SQLite rolls it
      forward, `strptime` raises. */
  lemma PyRejectsRolledDate(s: string)
    requires DatePrefix(s).Some? && !ValidDate(DatePrefix(s).value)
    ensures PyDateTime(s).None?
  {
  }

  lemma OverflowDatePrefix()
    ensures DatePrefix("2024-02-30" + " " + "10:00") == Some(Date(2024, 2, 30))
  {
  }

  /** The row of the finding: due on 30 February 2024 at 10:00. */
  const OverflowRow := TaskRow("1", Some(7), Some("report"), Some("2024-02-30"), Some("10:00"),
    None, None, Some("active"), None, None, None, None, None)

  /** The query selects that row at 9:00 on 1 March 2024, and Python
      cannot read its deadline. */
  lemma OverflowRowDue(now: Instant)
    requires now.minute == DayNumber(Date(2024, 3, 1)) * 1440 + 9 * 60
    ensures Matches(DueSoon(now.minute), OverflowRow)
    ensures Remind(now)(OverflowRow).None?
  {
    var s := "2024-02-30" + " " + "10:00";
    SqlRollsOverflowDay();
    OverflowDatePrefix();
    PyRejectsRolledDate(s);
    assert PyDueText(OverflowRow) == s;
    assert Reminder(OverflowRow, now).None?;
  }

  /** SQLite reads a time typed with seconds, `10:00:30`, as 10:00 of that
      day. */
  lemma SqlReadsSeconds()
    ensures SqlMinutes("2024-03-01" + " " + "10:00:30") == Some(DayNumber(Date(2024, 3, 1)) * 1440 + 600)
  {
    var s := "2024-03-01" + " " + "10:00:30";
    assert DatePrefix(s) == Some(Date(2024, 3, 1));
    assert SkipSep(s, 11) == 11;
    assert SkipSep(s, 10) == 11;
    assert SecondsAt(s, 16);
    assert ClockAt(s, 11) == Some(600);
  }

  /** `%H:%M` leaves the `:30` of `10:00:30` unconverted, so `strptime`
      raises. */
  lemma PyRejectsSeconds()
    ensures PyDateTime("2024-03-01" + " " + "10:00:30").None?
  {
    var s := "2024-03-01" + " " + "10:00:30";
    var clock := s[11..];
    assert clock == "10:00:30";
    assert HourLength(clock) == 2;
    assert MinuteLength(clock[3..]) == 2;
    assert StrptimeHM(clock).None?;
    if PyMonth(s, 5).Some? && PyDay(s, PyMonth(s, 5).value.1 + 1).Some? {
      assert PyMonth(s, 5) == Some((3, 7));
      assert PyDay(s, 8) == Some((1, 10));
      assert SpaceEnd(s, 11) == 11;
    }
  }

  /** A row due on 1 March 2024 at a time typed with seconds. */
  const SecondsRow := TaskRow("2", Some(7), Some("call"), Some("2024-03-01"), Some("10:00:30"),
    None, None, Some("active"), None, None, None, None, None)

  /** The query selects that row at 9:00 on 1 March 2024, and Python
      cannot read its deadline: the hourly job stops there as it does at a
      rolled date. */
  lemma SecondsRowDue(now: Instant)
    requires now.minute == DayNumber(Date(2024, 3, 1)) * 1440 + 9 * 60
    ensures Matches(DueSoon(now.minute), SecondsRow)
    ensures Remind(now)(SecondsRow).None?
  {
    SqlReadsSeconds();
    PyRejectsSeconds();
    assert PyDueText(SecondsRow) == "2024-03-01" + " " + "10:00:30";
    assert Reminder(SecondsRow, now).None?;
  }

  /** As written, a selected task whose deadline Python rejects ends the
      hourly job there: no task after it gets its reminder, whatever its
      deadline. */
  lemma HourlyStopsAtRolledDate(tasks: seq<TaskRow>, now: Instant, i: nat)
    requires i < |tasks| && DatePrefix(PyDueText(tasks[i])).Some? && !ValidDate(DatePrefix(PyDueText(tasks[i])).value)
    ensures FirstSilent(tasks, Remind(now)) <= i
  {
    PyRejectsRolledDate(PyDueText(tasks[i]));
    assert Remind(now)(tasks[i]).None?;
  }
}

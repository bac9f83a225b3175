/** The SQLite store of `database.py`: the `pending_tasks` table holds one
    draft per user, keyed by user id; the `tasks` table holds the tasks in
    the order they were inserted. Connections, commits and the schema set-up
    are not modelled; each function opens, runs one statement and commits,
    which is one method call here. */
module Database {
  import opened Common
  import opened Calendar
  import opened JsonList
  import opened SqlTime
  import opened TaskRows

  // ------------------------------------------------------------ drafts

  /** A row of `pending_tasks` without its key: nullable TEXT columns, the
      lists kept as JSON text. */
  datatype DraftRow = DraftRow(
    title: Option<string>, deadline: Option<string>, time: Option<string>,
    assignedBy: Option<string>, comment: Option<string>, step: Option<string>,
    messages: Option<string>, files: Option<string>, forwardedFrom: Option<string>)

  /** The dict `get_pending_task` returns: every column, with `messages` and
      `files` decoded to lists. */
  datatype Draft = Draft(
    userId: int, title: Option<string>, deadline: Option<string>, time: Option<string>,
    assignedBy: Option<string>, comment: Option<string>, step: Option<string>,
    messages: Items, files: Items, forwardedFrom: Option<string>)

  /** A value in the dicts handed to `add_pending_task` and `update_pending_task`. */
  datatype Value = Null | Str(s: string) | Int(i: int) | List(items: Items)

  /** The dict handed to `add_pending_task`; an absent list is `None`. */
  datatype NewDraft = NewDraft(step: Option<string>, messages: Option<Items>, files: Option<Items>,
    forwardedFrom: Option<string>)

  /** The nine columns the UPDATE of `update_pending_task` writes. */
  const Columns: set<string> :=
    {"title", "deadline", "time", "assigned_by", "comment", "step", "messages", "files", "forwarded_from"}

  function Column(row: DraftRow, c: string): Option<string>
  {
    match c
    case "title" => row.title
    case "deadline" => row.deadline
    case "time" => row.time
    case "assigned_by" => row.assignedBy
    case "comment" => row.comment
    case "step" => row.step
    case "messages" => row.messages
    case "files" => row.files
    case "forwarded_from" => row.forwardedFrom
    case _ => None
  }

  function Cell(c: Option<string>): Value
  {
    if c.None? then Null else Str(c.value)
  }

  function OrEmpty(xs: Option<Items>): Items
  {
    if xs.Some? then xs.value else []
  }

  /** The row `add_pending_task` writes: the columns it does not name are NULL. */
  function FreshRow(d: NewDraft): (r: DraftRow)
    ensures r.title.None? && r.deadline.None? && r.time.None? && r.assignedBy.None? && r.comment.None?
    ensures r.step == d.step && r.forwardedFrom == d.forwardedFrom
    ensures r.messages == Some(EncodeList(OrEmpty(d.messages))) && r.files == Some(EncodeList(OrEmpty(d.files)))
  {
    DraftRow(None, None, None, None, None, d.step,
      Some(EncodeList(OrEmpty(d.messages))), Some(EncodeList(OrEmpty(d.files))), d.forwardedFrom)
  }

  /** `json.loads(v) if v else []`, with `[]` for text that does not parse. */
  function DecodeColumn(v: Option<string>): (r: Items)
    ensures !Truthy(v) ==> r == []
    ensures Truthy(v) && DecodeList(v.value).None? ==> r == []
    ensures Truthy(v) && DecodeList(v.value).Some? ==> r == DecodeList(v.value).value
    ensures forall xs :: v == Some(EncodeList(xs)) ==> r == xs
  {
    forall xs | v == Some(EncodeList(xs)) ensures DecodeList(v.value) == Some(xs) {
      DecodeEncodeList(xs);
    }
    if !Truthy(v) then []
    else match DecodeList(v.value)
      case None => []
      case Some(xs) => xs
  }

  function DecodeRow(u: int, row: DraftRow): (d: Draft)
    ensures d.userId == u && d.step == row.step && d.forwardedFrom == row.forwardedFrom
    ensures d.title == row.title && d.deadline == row.deadline && d.time == row.time
    ensures d.assignedBy == row.assignedBy && d.comment == row.comment
    ensures d.messages == DecodeColumn(row.messages) && d.files == DecodeColumn(row.files)
  {
    Draft(u, row.title, row.deadline, row.time, row.assignedBy, row.comment, row.step,
      DecodeColumn(row.messages), DecodeColumn(row.files), row.forwardedFrom)
  }

  /** `existing = dict(zip(columns, row))`. */
  function RowDict(u: int, row: DraftRow): (m: map<string, Value>)
    ensures m.Keys == Columns + {"user_id"} && m["user_id"] == Int(u)
    ensures forall c :: c in Columns ==> m[c] == Cell(Column(row, c))
  {
    map k | k in Columns + {"user_id"} :: if k == "user_id" then Int(u) else Cell(Column(row, k))
  }

  /** What the loop stores under `key`: a list under `messages` or `files`
      as its JSON text, anything else as given. */
  function Stored(key: string, v: Value): (r: Value)
    ensures !r.List? || !(key == "messages" || key == "files")
  {
    if (key == "messages" || key == "files") && v.List? then Str(EncodeList(v.items)) else v
  }

  /** `existing` after the loop over `updates.items()`. */
  function Overlay(existing: map<string, Value>, updates: map<string, Value>): (m: map<string, Value>)
    ensures m.Keys == existing.Keys + updates.Keys
  {
    map k | k in existing.Keys + updates.Keys :: if k in updates then Stored(k, updates[k]) else existing[k]
  }

  /** The entries of `updates` under the keys in `done`. */
  function Restrict(updates: map<string, Value>, done: set<string>): (m: map<string, Value>)
    requires done <= updates.Keys
    ensures m.Keys == done && forall k :: k in done ==> m[k] == updates[k]
  {
    map k | k in done :: updates[k]
  }

  /** One more turn of the loop overlays one more key. */
  lemma OverlayStep(start: map<string, Value>, updates: map<string, Value>, done: set<string>, k: string)
    requires done <= updates.Keys && k in updates
    ensures Overlay(start, Restrict(updates, done))[k := Stored(k, updates[k])]
      == Overlay(start, Restrict(updates, done + {k}))
  {
  }

  /** The parameter sqlite3 binds for a value in a TEXT column: an integer
      is stored as its decimal text; a list cannot be bound. */
  function Bind(v: Value): Option<Option<string>>
  {
    match v
    case Null => Some(None)
    case Str(s) => Some(Some(s))
    case Int(i) => Some(Some(IntToString(i)))
    case List(_) => None
  }

  /** `existing.get(c)` */
  function Get(m: map<string, Value>, c: string): Value
  {
    if c in m then m[c] else Null
  }

  predicate Bindable(m: map<string, Value>)
  {
    forall c :: c in Columns ==> !Get(m, c).List?
  }

  /** The row the UPDATE writes, or `None` when a parameter cannot be bound
      and the statement raises. */
  function BindRow(m: map<string, Value>): (r: Option<DraftRow>)
    ensures r.Some? <==> Bindable(m)
    ensures r.Some? ==> forall c :: c in Columns ==> Some(Column(r.value, c)) == Bind(Get(m, c))
  {
    if !Bindable(m) then None
    else
      assert forall c :: c in Columns ==> Bind(Get(m, c)).Some?;
      Some(DraftRow(Bind(Get(m, "title")).value, Bind(Get(m, "deadline")).value,
        Bind(Get(m, "time")).value, Bind(Get(m, "assigned_by")).value,
        Bind(Get(m, "comment")).value, Bind(Get(m, "step")).value,
        Bind(Get(m, "messages")).value, Bind(Get(m, "files")).value,
        Bind(Get(m, "forwarded_from")).value))
  }

  /** What the UPDATE writes into column `c`: the value `updates` gives
      under `c` (a list as its JSON text), else the value the row holds;
      `None` when the value cannot be bound. */
  function Written(row: DraftRow, updates: map<string, Value>, c: string): Option<Option<string>>
  {
    if c in updates then Bind(Stored(c, updates[c])) else Some(Column(row, c))
  }

  predicate Writable(row: DraftRow, updates: map<string, Value>)
  {
    Written(row, updates, "title").Some? && Written(row, updates, "deadline").Some?
    && Written(row, updates, "time").Some? && Written(row, updates, "assigned_by").Some?
    && Written(row, updates, "comment").Some? && Written(row, updates, "step").Some?
    && Written(row, updates, "messages").Some? && Written(row, updates, "files").Some?
    && Written(row, updates, "forwarded_from").Some?
  }

  /** The row `update_pending_task` leaves behind, column by column, or
      `None` when it raises. */
  function Merge(row: DraftRow, updates: map<string, Value>): Option<DraftRow>
  {
    if !Writable(row, updates) then None
    else Some(DraftRow(Written(row, updates, "title").value, Written(row, updates, "deadline").value,
      Written(row, updates, "time").value, Written(row, updates, "assigned_by").value,
      Written(row, updates, "comment").value, Written(row, updates, "step").value,
      Written(row, updates, "messages").value, Written(row, updates, "files").value,
      Written(row, updates, "forwarded_from").value))
  }

  /** A column of the dict the loop builds binds to what the merge writes
      there. */
  lemma OverlayColumn(u: int, row: DraftRow, updates: map<string, Value>, c: string)
    requires c in Columns
    ensures Bind(Get(Overlay(RowDict(u, row), updates), c)) == Written(row, updates, c)
  {
    var e := RowDict(u, row);
    assert e[c] == Cell(Column(row, c));
    var m := Overlay(e, updates);
    assert c in m.Keys;
    if c in updates {
      assert m[c] == Stored(c, updates[c]);
    } else {
      assert m[c] == e[c];
    }
  }

  /** Binding the dict the loop builds gives the column-by-column row. */
  lemma BindOverlay(u: int, row: DraftRow, updates: map<string, Value>)
    ensures BindRow(Overlay(RowDict(u, row), updates)) == Merge(row, updates)
  {
    var m := Overlay(RowDict(u, row), updates);
    forall c | c in Columns ensures Bind(Get(m, c)) == Written(row, updates, c) {
      OverlayColumn(u, row, updates, c);
    }
    BindAgrees(m, row, updates);
  }

  /** A dict whose every column binds to what the merge writes there binds
      to the merged row. */
  lemma BindAgrees(m: map<string, Value>, row: DraftRow, updates: map<string, Value>)
    requires forall c :: c in Columns ==> Bind(Get(m, c)) == Written(row, updates, c)
    ensures BindRow(m) == Merge(row, updates)
  {
    assert Bindable(m) <==> Writable(row, updates) by {
      assert forall c :: c in Columns ==> (Get(m, c).List? <==> Bind(Get(m, c)).None?);
    }
  }

  // ------------------------------------------------------------- tasks

  /** The dict handed to `add_task`; `time` is `None` when the key is absent. */
  datatype NewTask = NewTask(
    id: string, userId: Option<int>, title: Option<string>, deadline: Option<string>,
    time: Option<Option<string>>, calendarEventId: Option<string>, sheetRow: Option<int>,
    status: Option<string>, msgId: Option<int>, createdAt: Option<string>,
    completedAt: Option<string>, hoursSpent: Option<real>)

  /** The row `add_task` inserts. */
  function InsertedRow(t: NewTask): (r: TaskRow)
    ensures r.id == t.id && r.userId == t.userId && r.title == t.title && r.deadline == t.deadline
    ensures r.time == if t.time.None? then Some("10:00") else t.time.value
    ensures r.status == t.status && r.comment.None?
  {
    TaskRow(t.id, t.userId, t.title, t.deadline, if t.time.None? then Some("10:00") else t.time.value,
      t.calendarEventId, t.sheetRow, t.status, t.msgId, t.createdAt, t.completedAt, t.hoursSpent, None)
  }

  /** The single-column UPDATEs on `tasks`. */
  datatype Change =
    | Complete(at: string, hours: Option<real>)
    | NewDeadline(deadline: Option<string>)
    | NewStatus(status: Option<string>)
    | NewComment(comment: Option<string>)

  /** A row after a change: completion writes `status`, `completed_at` and
      `hours_spent`; each other change writes its one column. */
  function Apply(t: TaskRow, ch: Change): (r: TaskRow)
    ensures r.id == t.id && r.userId == t.userId && r.title == t.title && r.time == t.time
    ensures r.calendarEventId == t.calendarEventId && r.sheetRow == t.sheetRow
    ensures r.msgId == t.msgId && r.createdAt == t.createdAt
    ensures r.deadline == if ch.NewDeadline? then ch.deadline else t.deadline
    ensures r.status == if ch.Complete? then Some("done") else if ch.NewStatus? then ch.status else t.status
    ensures r.completedAt == if ch.Complete? then Some(ch.at) else t.completedAt
    ensures r.hoursSpent == if ch.Complete? then ch.hours else t.hoursSpent
    ensures r.comment == if ch.NewComment? then ch.comment else t.comment
  {
    match ch
    case Complete(at, hours) => t.(status := Some("done"), completedAt := Some(at), hoursSpent := hours)
    case NewDeadline(d) => t.(deadline := d)
    case NewStatus(s) => t.(status := s)
    case NewComment(c) => t.(comment := c)
  }

  /** `UPDATE tasks SET … WHERE id = ?` */
  function UpdateWhere(ts: seq<TaskRow>, id: string, ch: Change): (r: seq<TaskRow>)
    ensures |r| == |ts|
    ensures forall i :: 0 <= i < |ts| ==> r[i] == if ts[i].id == id then Apply(ts[i], ch) else ts[i]
  {
    if ts == [] then []
    else [if ts[0].id == id then Apply(ts[0], ch) else ts[0]] + UpdateWhere(ts[1..], id, ch)
  }

  predicate UniqueIds(ts: seq<TaskRow>)
  {
    forall i, j :: 0 <= i < j < |ts| ==> ts[i].id != ts[j].id
  }

  /** `SELECT * FROM tasks WHERE id = ?` followed by `fetchone()`. */
  function FindTask(ts: seq<TaskRow>, id: string): (r: Option<TaskRow>)
    ensures r.None? <==> forall i :: 0 <= i < |ts| ==> ts[i].id != id
    ensures r.Some? ==> r.value.id == id && r.value in ts
  {
    if ts == [] then None
    else if ts[0].id == id then Some(ts[0])
    else
      var r := FindTask(ts[1..], id);
      assert forall i :: 1 <= i < |ts| ==> ts[i] == ts[1..][i - 1];
      r
  }

  /** The filters the two task queries apply. */
  datatype Query =
    | Active(userId: Option<int>, deadline: Option<string>, tomorrow: string)
    | DueSoon(nowMinute: int)

  /** The text `datetime(deadline || ' ' || COALESCE(time, '10:00'))` reads;
      NULL when the deadline is NULL. */
  function DueText(t: TaskRow): Option<string>
  {
    if t.deadline.None? then None
    else Some(t.deadline.value + " " + (if t.time.Some? then t.time.value else "10:00"))
  }

  /** The WHERE clauses. `user_id` filters only when truthy, the deadline
      only when the argument is literally `"tomorrow"`; the reminder window
      runs from 45 minutes after now, inclusive, to 90 minutes after now,
      exclusive, in whole minutes. */
  predicate Matches(q: Query, t: TaskRow)
  {
    t.status == Some("active")
    && match q
      case Active(userId, deadline, tomorrow) =>
        (userId.Some? && userId.value != 0 ==> t.userId == userId)
        && (deadline == Some("tomorrow") ==> t.deadline == Some(tomorrow))
      case DueSoon(now) =>
        DueText(t).Some? && SqlMinutes(DueText(t).value).Some?
        && now + 45 <= SqlMinutes(DueText(t).value).value < now + 90
  }

  /** The rows a query selects, in table order. */
  function Select(ts: seq<TaskRow>, q: Query): (r: seq<TaskRow>)
    ensures forall t :: t in r <==> t in ts && Matches(q, t)
    ensures multiset(r) <= multiset(ts)
  {
    if ts == [] then []
    else
      assert ts == [ts[0]] + ts[1..];
      (if Matches(q, ts[0]) then [ts[0]] else []) + Select(ts[1..], q)
  }

  /** The loop `for key, value in updates.items()` of `update_pending_task`,
      which writes each entry of `updates` over `existing`. */
  method ApplyUpdates(start: map<string, Value>, updates: map<string, Value>) returns (existing: map<string, Value>)
    ensures existing == Overlay(start, updates)
  {
    existing := start;
    var keys := updates.Keys;
    ghost var done: set<string> := {};
    while keys != {}
      invariant keys + done == updates.Keys && keys !! done
      invariant existing == Overlay(start, Restrict(updates, done))
      decreases keys
    {
      var k :| k in keys;
      OverlayStep(start, updates, done, k);
      existing := existing[k := Stored(k, updates[k])];
      keys := keys - {k};
      done := done + {k};
    }
    assert Restrict(updates, done) == updates;
  }

  class Store {
    var drafts: map<int, DraftRow>
    var tasks: seq<TaskRow>

    /** `id` is the primary key of `tasks`. */
    predicate Valid()
      reads this
    {
      UniqueIds(tasks)
    }

    constructor ()
      ensures drafts == map[] && tasks == [] && Valid()
    {
      drafts := map[];
      tasks := [];
    }

    // ---------------------------------------------------------- drafts

    /** `add_pending_task`: `REPLACE INTO` puts a fresh row in place of any
        draft the user had. */
    method AddPendingTask(u: int, d: NewDraft)
      modifies this
      ensures drafts == old(drafts)[u := FreshRow(d)] && tasks == old(tasks)
    {
      drafts := drafts[u := FreshRow(d)];
    }

    /** `get_pending_task` */
    function GetPendingTask(u: int): (r: Option<Draft>)
      reads this
      ensures r.None? <==> u !in drafts
      ensures r.Some? ==> r.value == DecodeRow(u, drafts[u])
    {
      if u in drafts then Some(DecodeRow(u, drafts[u])) else None
    }

    /** `update_pending_task`: nothing when the user has no draft; otherwise
        every key of `updates` overwrites its entry of the row's dict, lists
        under `messages` and `files` are encoded, and the nine columns are
        written back. A value sqlite3 cannot bind makes it raise (`ok` is
        false) with the row untouched. The re-encoding after the loop finds
        no list left and is omitted. */
    method UpdatePendingTask(u: int, updates: map<string, Value>) returns (ok: bool)
      modifies this
      ensures tasks == old(tasks)
      ensures u !in old(drafts) ==> ok && drafts == old(drafts)
      ensures u in old(drafts) ==>
        ok == Merge(old(drafts)[u], updates).Some?
        && drafts == if ok then old(drafts)[u := Merge(old(drafts)[u], updates).value] else old(drafts)
    {
      if u !in drafts {
        return true;
      }
      var existing := ApplyUpdates(RowDict(u, drafts[u]), updates);
      var row := BindRow(existing);
      BindOverlay(u, drafts[u], updates);
      if row.None? {
        return false;
      }
      drafts := drafts[u := row.value];
      return true;
    }

    /** `delete_pending_task` */
    method DeletePendingTask(u: int)
      modifies this
      ensures drafts == old(drafts) - {u} && tasks == old(tasks)
    {
      drafts := drafts - {u};
    }

    // ----------------------------------------------------------- tasks

    /** `add_task`: the insert fails on a duplicate id. */
    method AddTask(t: NewTask) returns (ok: bool)
      requires Valid()
      modifies this
      ensures Valid() && drafts == old(drafts)
      ensures ok <==> FindTask(old(tasks), t.id).None?
      ensures tasks == if ok then old(tasks) + [InsertedRow(t)] else old(tasks)
    {
      if FindTask(tasks, t.id).Some? {
        return false;
      }
      tasks := tasks + [InsertedRow(t)];
      return true;
    }

    /** `get_task_by_id` */
    function GetTaskById(id: string): (r: Option<TaskRow>)
      reads this
      ensures r.None? <==> forall i :: 0 <= i < |tasks| ==> tasks[i].id != id
      ensures r.Some? ==> r.value.id == id && r.value in tasks
    {
      FindTask(tasks, id)
    }

    /** `complete_task`, with `datetime.now().isoformat()` passed as `now`;
        the previous status is not checked. */
    method CompleteTask(id: string, hours: Option<real>, now: string) returns (at: string)
      requires Valid()
      modifies this
      ensures Valid() && drafts == old(drafts) && at == now
      ensures tasks == UpdateWhere(old(tasks), id, Complete(now, hours))
    {
      tasks := UpdateWhere(tasks, id, Complete(now, hours));
      at := now;
    }

    /** `update_task_deadline` */
    method UpdateTaskDeadline(id: string, deadline: Option<string>)
      requires Valid()
      modifies this
      ensures Valid() && drafts == old(drafts)
      ensures tasks == UpdateWhere(old(tasks), id, NewDeadline(deadline))
    {
      tasks := UpdateWhere(tasks, id, NewDeadline(deadline));
    }

    /** `update_task_status` */
    method UpdateTaskStatus(id: string, status: Option<string>)
      requires Valid()
      modifies this
      ensures Valid() && drafts == old(drafts)
      ensures tasks == UpdateWhere(old(tasks), id, NewStatus(status))
    {
      tasks := UpdateWhere(tasks, id, NewStatus(status));
    }

    /** `add_completion_comment`, which always answers `True`. */
    method AddCompletionComment(id: string, comment: Option<string>) returns (done: bool)
      requires Valid()
      modifies this
      ensures Valid() && drafts == old(drafts) && done
      ensures tasks == UpdateWhere(old(tasks), id, NewComment(comment))
    {
      tasks := UpdateWhere(tasks, id, NewComment(comment));
      done := true;
    }

    /** `get_active_tasks(user_id, deadline)`, with tomorrow's date passed
        in: the active rows that pass the filters, ordered by
        `date(deadline), time`. */
    function GetActiveTasks(userId: Option<int>, deadline: Option<string>, tomorrow: Date): (r: seq<TaskRow>)
      requires ValidDate(tomorrow)
      reads this
      ensures forall t :: t in r <==> t in tasks && Matches(Active(userId, deadline, IsoString(tomorrow)), t)
      ensures multiset(r) == multiset(Select(tasks, Active(userId, deadline, IsoString(tomorrow))))
      ensures SortedBy(StoreKey, r)
    {
      var selected := Select(tasks, Active(userId, deadline, IsoString(tomorrow)));
      SortByCorrect(StoreKey, selected);
      var r := SortBy(StoreKey, selected);
      assert forall t :: t in r <==> t in selected by {
        forall t ensures t in r <==> t in multiset(selected) { }
      }
      r
    }

    /** `get_tasks_due_in_one_hour`, with the minute count of
        `datetime.now()` passed in (its seconds are dropped by the
        `%H:%M` bounds). */
    function GetTasksDueInOneHour(nowMinute: int): (r: seq<TaskRow>)
      reads this
      ensures forall t :: t in r <==> t in tasks && Matches(DueSoon(nowMinute), t)
    {
      Select(tasks, DueSoon(nowMinute))
    }
  }

  // ------------------------------------------------------------ lemmas

  /** A draft just added is read back with NULL scalars and its lists,
      `[]` where the dict had none. */
  lemma GetAfterAdd(u: int, d: NewDraft)
    ensures DecodeRow(u, FreshRow(d)) ==
      Draft(u, None, None, None, None, None, d.step, OrEmpty(d.messages), OrEmpty(d.files), d.forwardedFrom)
  {
  }

  /** A merge fails exactly when a list is given for a column other than
      `messages` and `files`. */
  lemma MergeFails(row: DraftRow, updates: map<string, Value>)
    ensures Merge(row, updates).None? <==>
      exists c :: c in updates && c in Columns && c != "messages" && c != "files" && updates[c].List?
  {
    if !Writable(row, updates) {
      var c :=
        if Written(row, updates, "title").None? then "title"
        else if Written(row, updates, "deadline").None? then "deadline"
        else if Written(row, updates, "time").None? then "time"
        else if Written(row, updates, "assigned_by").None? then "assigned_by"
        else if Written(row, updates, "comment").None? then "comment"
        else if Written(row, updates, "step").None? then "step"
        else if Written(row, updates, "messages").None? then "messages"
        else if Written(row, updates, "files").None? then "files"
        else "forwarded_from";
      assert Written(row, updates, c).None?;
    }
  }

  /** A merge succeeds when every list it is given is for `messages` or
      `files` or for a key that is not a column. */
  lemma MergeDefined(row: DraftRow, updates: map<string, Value>)
    requires forall c :: c in updates && updates[c].List? ==> c == "messages" || c == "files" || c !in Columns
    ensures Merge(row, updates).Some?
  {
    MergeFails(row, updates);
  }

  /** A column named in `updates` takes the given value, a list as its JSON
      text. */
  lemma MergeWrites(row: DraftRow, updates: map<string, Value>, c: string)
    requires Merge(row, updates).Some? && c in Columns && c in updates
    ensures Some(Column(Merge(row, updates).value, c)) == Bind(Stored(c, updates[c]))
  {
  }

  /** A column not named in `updates` keeps its value. */
  lemma MergeKeeps(row: DraftRow, updates: map<string, Value>, c: string)
    requires Merge(row, updates).Some? && c in Columns && c !in updates
    ensures Column(Merge(row, updates).value, c) == Column(row, c)
  {
  }

  /** Keys that are not columns, `user_id` among them, are dropped. */
  lemma MergeIgnoresOtherKeys(row: DraftRow, updates: map<string, Value>, k: string, v: Value)
    requires k !in Columns
    ensures Merge(row, updates[k := v]) == Merge(row, updates)
  {
    forall c | c in Columns ensures Written(row, updates[k := v], c) == Written(row, updates, c) {
      assert c != k;
    }
    MergeAgrees(row, updates[k := v], updates);
  }

  /** Two update dicts that write the same into every column merge alike. */
  lemma MergeAgrees(row: DraftRow, u1: map<string, Value>, u2: map<string, Value>)
    requires forall c :: c in Columns ==> Written(row, u1, c) == Written(row, u2, c)
    ensures Merge(row, u1) == Merge(row, u2)
  {
    assert "title" in Columns && "deadline" in Columns && "time" in Columns;
    assert "assigned_by" in Columns && "comment" in Columns && "step" in Columns;
    assert "messages" in Columns && "files" in Columns && "forwarded_from" in Columns;
  }

  /** Lists written by a merge are read back in order. */
  lemma GetAfterMerge(u: int, row: DraftRow, updates: map<string, Value>)
    requires Merge(row, updates).Some?
    ensures "messages" in updates && updates["messages"].List? ==>
      DecodeRow(u, Merge(row, updates).value).messages == updates["messages"].items
    ensures "files" in updates && updates["files"].List? ==>
      DecodeRow(u, Merge(row, updates).value).files == updates["files"].items
  {
  }

  /** After a change to one id, that task reads back changed and every other
      task reads back as before; ids stay unique. */
  lemma {:induction false} FindAfterUpdate(ts: seq<TaskRow>, id: string, ch: Change, x: string)
    ensures FindTask(UpdateWhere(ts, id, ch), x) ==
      if FindTask(ts, x).None? then None
      else if x == id then Some(Apply(FindTask(ts, x).value, ch))
      else FindTask(ts, x)
    ensures UniqueIds(ts) ==> UniqueIds(UpdateWhere(ts, id, ch))
  {
    var r := UpdateWhere(ts, id, ch);
    assert forall i :: 0 <= i < |ts| ==> r[i].id == ts[i].id;
    if ts != [] && ts[0].id != x {
      FindAfterUpdate(ts[1..], id, ch, x);
      assert r[1..] == UpdateWhere(ts[1..], id, ch);
    }
  }
}

/** The task list of `handlers/task_list.py`: every active task, sorted by
    `(deadline or "9999-12-31", time or "23:59")`, shown three to a page with
    a button per task, a navigation row and a "new task" button; and the
    two callbacks that read a task id or a page number from the last
    `_`-separated segment of their data. Message text, date formatting and
    weekday names are presentation and are not modelled; a button is its
    callback data. */
module TaskList {
  import opened Common
  import opened Calendar
  import opened TaskRows
  import opened Database

  const TasksPerPage: nat := 3

  /** `math.ceil(n / TASKS_PER_PAGE)` */
  function TotalPages(n: nat): (r: nat)
    ensures r * TasksPerPage >= n && (r == 0 || (r - 1) * TasksPerPage < n)
    ensures r == 0 <==> n == 0
  {
    (n + TasksPerPage - 1) / TasksPerPage
  }

  /** `max(0, min(page, total_pages - 1))` */
  function ClampPage(page: int, total: nat): (r: nat)
    requires total >= 1
    ensures r < total
    ensures 0 <= page < total ==> r == page
    ensures page < 0 ==> r == 0
    ensures page >= total ==> r == total - 1
  {
    if page < 0 then 0 else if page > total - 1 then total - 1 else page
  }

  function Min(a: int, b: int): int
  {
    if a < b then a else b
  }

  /** `sorted_tasks[start_idx:end_idx]` for a page in range. */
  function PageSlice(s: seq<TaskRow>, page: nat): (r: seq<TaskRow>)
    requires page < TotalPages(|s|)
    ensures 1 <= |r| <= TasksPerPage && page * TasksPerPage + |r| <= |s|
    ensures forall i :: 0 <= i < |r| ==> r[i] == s[page * TasksPerPage + i]
    ensures page < TotalPages(|s|) - 1 ==> |r| == TasksPerPage
  {
    s[page * TasksPerPage .. Min(page * TasksPerPage + TasksPerPage, |s|)]
  }

  /** The first `k` pages, one after the other. */
  function Pages(s: seq<TaskRow>, k: nat): seq<TaskRow>
    requires k <= TotalPages(|s|)
  {
    if k == 0 then [] else Pages(s, k - 1) + PageSlice(s, k - 1)
  }

  /** The first `k` pages hold the list's first `3k` tasks in order. */
  lemma {:induction false} PagesPrefix(s: seq<TaskRow>, k: nat)
    requires k <= TotalPages(|s|)
    ensures Pages(s, k) == s[..Min(k * TasksPerPage, |s|)]
  {
    if k > 0 {
      PagesPrefix(s, k - 1);
    }
  }

  /** All pages together are the list, each task once, in order. */
  lemma PagesCover(s: seq<TaskRow>)
    ensures Pages(s, TotalPages(|s|)) == s
  {
    PagesPrefix(s, TotalPages(|s|));
  }

  /** The title shown: the first 25 characters and "..." for a longer
      title, the title as it is otherwise, and a placeholder for none. */
  function ShortTitle(title: Option<string>): (r: string)
    ensures Truthy(title) && |title.value| > 25 ==> |r| == 28 && r[..25] == title.value[..25] && r[25..] == "..."
    ensures Truthy(title) && |title.value| <= 25 ==> r == title.value
    ensures !Truthy(title) ==> r == "Без названия"
  {
    if Truthy(title) && |title.value| > 25 then title.value[..25] + "..."
    else if Truthy(title) then title.value
    else "Без названия"
  }

  /** `task[4] if task[4] else "—"` */
  function ShownTime(time: Option<string>): string
  {
    if Truthy(time) then time.value else "—"
  }

  /** One line of the listing: its number on the page, the task's id, its
      short title, its deadline and its time. */
  datatype Entry = Entry(number: nat, id: string, title: string, deadline: Option<string>, time: string)

  function EntryOf(i: nat, t: TaskRow): Entry
  {
    Entry(i + 1, t.id, ShortTitle(t.title), t.deadline, ShownTime(t.time))
  }

  function ViewData(id: string): string
  {
    "view_task_" + id
  }

  function PageData(page: int): string
  {
    "task_page_" + IntToString(page)
  }

  /** The listing as sent: nothing but a notice when there are no active
      tasks; otherwise the page shown, the page count, the entries and the
      keyboard, a button being its callback data. */
  datatype ListView =
    | NoTasks
    | Listing(page: nat, totalPages: nat, entries: seq<Entry>, keyboard: seq<seq<string>>)

  /** The navigation row: back, the page counter, forward. */
  function NavRow(page: nat, total: nat): (r: seq<string>)
    ensures PageData(page - 1) in r <==> page > 0
    ensures PageData(page + 1) in r <==> page < total - 1
    ensures "none" in r && 1 <= |r| <= 3
  {
    IntToStringInjective(page - 1, page + 1);
    (if page > 0 then [PageData(page - 1)] else []) + ["none"]
    + (if page < total - 1 then [PageData(page + 1)] else [])
  }

  lemma IntToStringInjective(a: int, b: int)
    requires a != b
    ensures PageData(a) != PageData(b) && PageData(a) != "none" && PageData(b) != "none"
  {
    IntToStringRoundTrip(a);
    IntToStringRoundTrip(b);
    assert PageData(a)[..10] == "task_page_";
  }

  /** The page `page` of a non-empty sorted list, clamped into range. */
  function ListPage(sorted: seq<TaskRow>, page: int): ListView
    requires sorted != []
  {
    var total := TotalPages(|sorted|);
    var p := ClampPage(page, total);
    var current := PageSlice(sorted, p);
    Listing(p, total,
      seq(|current|, i requires 0 <= i < |current| => EntryOf(i, current[i])),
      seq(|current|, i requires 0 <= i < |current| => [ViewData(current[i].id)])
      + (if total > 1 then [NavRow(p, total)] else []) + [["new_task"]])
  }

  /** `handle_task_list` on the rows `get_active_tasks()` returns and the
      page asked for. */
  function ListOf(tasks: seq<TaskRow>, page: int): ListView
  {
    if tasks == [] then NoTasks else ListPage(SortBy(ListKey, tasks), page)
  }

  /** The loop over the page's tasks, which appends a line and a button per
      task. */
  method BuildPage(current: seq<TaskRow>) returns (entries: seq<Entry>, rows: seq<seq<string>>)
    ensures |entries| == |current| && |rows| == |current|
    ensures forall i :: 0 <= i < |current| ==> entries[i] == EntryOf(i, current[i])
    ensures forall i :: 0 <= i < |current| ==> rows[i] == [ViewData(current[i].id)]
  {
    entries := [];
    rows := [];
    var i := 0;
    while i < |current|
      invariant 0 <= i <= |current| && |entries| == i && |rows| == i
      invariant forall j :: 0 <= j < i ==> entries[j] == EntryOf(j, current[j])
      invariant forall j :: 0 <= j < i ==> rows[j] == [ViewData(current[j].id)]
    {
      var task := current[i];
      entries := entries + [Entry(i + 1, task.id, ShortTitle(task.title), task.deadline, ShownTime(task.time))];
      rows := rows + [[ViewData(task.id)]];
      i := i + 1;
    }
  }

  /** `handle_task_list(message, page)`, with tomorrow's date passed for
      the query (it filters nothing when no deadline is given). */
  method HandleTaskList(db: Store, tomorrow: Date, page: int) returns (v: ListView)
    requires ValidDate(tomorrow)
    ensures v == ListOf(db.GetActiveTasks(None, None, tomorrow), page)
  {
    var tasks := db.GetActiveTasks(None, None, tomorrow);
    if tasks == [] {
      return NoTasks;
    }
    var sorted := SortBy(ListKey, tasks);
    v := BuildListing(sorted, page);
  }

  /** The body of `handle_task_list` after the sort. */
  method BuildListing(sorted: seq<TaskRow>, page: int) returns (v: ListView)
    requires sorted != []
    ensures v == ListPage(sorted, page)
  {
    var total := TotalPages(|sorted|);
    var p := ClampPage(page, total);
    var start := p * TasksPerPage;
    var end := Min(start + TasksPerPage, |sorted|);
    var current := sorted[start..end];
    assert current == PageSlice(sorted, p);
    var entries, keyboard := BuildPage(current);
    assert entries == seq(|current|, i requires 0 <= i < |current| => EntryOf(i, current[i]));
    assert keyboard == seq(|current|, i requires 0 <= i < |current| => [ViewData(current[i].id)]);
    if total > 1 {
      var nav := BuildNav(p, total);
      keyboard := keyboard + [nav];
    }
    keyboard := keyboard + [["new_task"]];
    v := Listing(p, total, entries, keyboard);
  }

  /** The navigation row built button by button. */
  method BuildNav(p: nat, total: nat) returns (nav: seq<string>)
    ensures nav == NavRow(p, total)
  {
    nav := [];
    if p > 0 {
      nav := nav + [PageData(p - 1)];
    }
    nav := nav + ["none"];
    if p < total - 1 {
      nav := nav + [PageData(p + 1)];
    }
  }

  // ----------------------------------------------------------- lemmas

  /** An empty listing sends only the notice. */
  lemma NoActiveTasks(tasks: seq<TaskRow>, page: int)
    ensures ListOf(tasks, page).NoTasks? <==> tasks == []
  {
  }

  /** A page holds one to three entries, numbered from 1, for consecutive
      tasks of the sorted list, in order. */
  lemma PageEntries(sorted: seq<TaskRow>, page: int)
    requires sorted != []
    ensures var v := ListPage(sorted, page);
      1 <= |v.entries| <= TasksPerPage && v.page < v.totalPages == TotalPages(|sorted|)
      && (0 <= page < v.totalPages ==> v.page == page)
      && v.page * TasksPerPage + |v.entries| <= |sorted|
      && forall i :: 0 <= i < |v.entries| ==>
        v.entries[i].number == i + 1 && v.entries[i].id == sorted[v.page * TasksPerPage + i].id
  {
  }

  /** The keyboard: a button per entry, then the navigation row only when
      there is more than one page, with back only after the first page and
      forward only before the last, then the new-task button. */
  lemma Keyboard(sorted: seq<TaskRow>, page: int)
    requires sorted != []
    ensures var v := ListPage(sorted, page);
      var n := |v.entries|;
      |v.keyboard| == n + (if v.totalPages > 1 then 1 else 0) + 1
      && v.keyboard[|v.keyboard| - 1] == ["new_task"]
      && (forall i :: 0 <= i < n ==> v.keyboard[i] == [ViewData(v.entries[i].id)])
      && (v.totalPages > 1 ==>
            (PageData(v.page - 1) in v.keyboard[n] <==> v.page > 0)
            && (PageData(v.page + 1) in v.keyboard[n] <==> v.page < v.totalPages - 1))
  {
  }

  /** The list asks the store for every active task, whoever it belongs
      to. */
  lemma ListAsksForAllActive(db: Store, tomorrow: Date, t: TaskRow)
    requires ValidDate(tomorrow)
    ensures t in db.GetActiveTasks(None, None, tomorrow) <==> t in db.tasks && t.status == Some("active")
  {
  }

  /** Every task of a sorted list is shown: the one at place `k` as entry
      `k % 3` of page `k / 3`. */
  lemma EveryTaskListed(sorted: seq<TaskRow>, t: TaskRow)
    requires t in sorted
    ensures exists k :: (0 <= k < |sorted| && sorted[k] == t
      && ListPage(sorted, k / TasksPerPage).entries[k % TasksPerPage].id == t.id)
  {
    var k :| 0 <= k < |sorted| && sorted[k] == t;
    EntryAt(sorted, k);
  }

  /** The task at place `k` of the sorted list is entry `k % 3` of page
      `k / 3`. */
  lemma EntryAt(sorted: seq<TaskRow>, k: nat)
    requires k < |sorted|
    ensures var v := ListPage(sorted, k / TasksPerPage);
      k % TasksPerPage < |v.entries| && v.entries[k % TasksPerPage] == EntryOf(k % TasksPerPage, sorted[k])
  {
    var p := k / TasksPerPage;
    var total := TotalPages(|sorted|);
    assert p * TasksPerPage + k % TasksPerPage == k;
    assert p < total;
    var current := PageSlice(sorted, p);
    assert current == sorted[p * TasksPerPage .. Min(p * TasksPerPage + TasksPerPage, |sorted|)];
    assert k % TasksPerPage < |current|;
    assert current[k % TasksPerPage] == sorted[k];
  }

  // -------------------------------------------------------- callbacks

  /** `callback.data.split('_')[-1]` in `handle_view_task`. */
  function ViewTaskId(data: string): string
  {
    LastSegment(data)
  }

  /** `int(callback.data.split('_')[-1])`; `None` where `int` raises. */
  function PageOf(data: string): Option<int>
  {
    ParseInt(LastSegment(data))
  }

  /** A task button names its task again when the id has no underscore. */
  lemma ViewDataRoundTrip(id: string)
    requires '_' !in id
    ensures ViewTaskId(ViewData(id)) == id
  {
    assert ViewData(id) == "view_task" + "_" + id;
    LastSegmentOf("view_task", id);
  }

  /** A navigation button names its page again. */
  lemma PageDataRoundTrip(page: int)
    ensures PageOf(PageData(page)) == Some(page)
  {
    var s := IntToString(page);
    assert '_' !in s by {
      if page >= 0 {
        assert AllDigits(s);
      } else {
        assert s == "-" + NatToString(-page);
        assert AllDigits(s[1..]);
      }
    }
    assert PageData(page) == "task_page" + "_" + s;
    LastSegmentOf("task_page", s);
    IntToStringRoundTrip(page);
  }

  /** The task card `handle_view_task` shows: title, deadline, time and the
      mark-done, extend and back actions. */
  datatype Card = Card(title: Option<string>, deadline: Option<string>, time: string, actions: seq<string>)

  /** `handle_view_task`: `None` when no task has the id read from the data. */
  method HandleViewTask(db: Store, data: string) returns (card: Option<Card>)
    ensures var id := ViewTaskId(data);
      (card.None? <==> db.GetTaskById(id).None?)
      && (card.Some? ==> (card.value.actions == ["mark_done_" + id, "extend_deadline_" + id, "task_list"]
          && card.value.title == db.GetTaskById(id).value.title
          && card.value.deadline == db.GetTaskById(id).value.deadline
          && card.value.time == ShownTime(db.GetTaskById(id).value.time)))
  {
    var id := ViewTaskId(data);
    var task := db.GetTaskById(id);
    if task.None? {
      return None;
    }
    card := Some(Card(task.value.title, task.value.deadline, ShownTime(task.value.time),
      ["mark_done_" + id, "extend_deadline_" + id, "task_list"]));
  }

  /** `handle_task_page_navigation`: `None` when the page is not a number
      and `int` raises. */
  method HandleTaskPageNavigation(db: Store, tomorrow: Date, data: string) returns (v: Option<ListView>)
    requires ValidDate(tomorrow)
    ensures PageOf(data).None? ==> v.None?
    ensures PageOf(data).Some? ==> v == Some(ListOf(db.GetActiveTasks(None, None, tomorrow), PageOf(data).value))
  {
    var page := PageOf(data);
    if page.None? {
      return None;
    }
    var listing := HandleTaskList(db, tomorrow, page.value);
    v := Some(listing);
  }

  /** `handle_task_list_menu`: the list from its first page. */
  method HandleTaskListMenu(db: Store, tomorrow: Date) returns (v: ListView)
    requires ValidDate(tomorrow)
    ensures v == ListOf(db.GetActiveTasks(None, None, tomorrow), 0)
  {
    v := HandleTaskList(db, tomorrow, 0);
  }
}

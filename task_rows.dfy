/** Rows of the `tasks` table and the two orders they are listed in: the
    `ORDER BY date(deadline), time` of `get_active_tasks` (database.py:94)
    and the sort key of the task list (handlers/task_list.py:24). Both
    orders are produced by one insertion sort over a key function, proved
    to return a sorted permutation of its input. */
module TaskRows {
  import opened Common
  import opened SqlTime

  /** A row of `tasks`, with the `comment` column that `add_comment_column`
      appends as the thirteenth. */
  datatype TaskRow = TaskRow(
    id: string, userId: Option<int>, title: Option<string>, deadline: Option<string>,
    time: Option<string>, calendarEventId: Option<string>, sheetRow: Option<int>,
    status: Option<string>, msgId: Option<int>, createdAt: Option<string>,
    completedAt: Option<string>, hoursSpent: Option<real>, comment: Option<string>)

  /** What a listing is sorted on: `(date(deadline), time)` in the store,
      `(deadline or "9999-12-31", time or "23:59")` in the task list. */
  datatype SortKey =
    | DateTime(day: Option<int>, time: Option<string>)
    | Pair(first: string, second: string)

  /** SQLite's ascending order on a nullable integer: NULL first. */
  predicate IntLt(x: Option<int>, y: Option<int>)
  {
    (x.None? && y.Some?) || (x.Some? && y.Some? && x.value < y.value)
  }

  /** SQLite's ascending order on nullable text: NULL first, then by code point. */
  predicate TextLe(x: Option<string>, y: Option<string>)
  {
    x.None? || (y.Some? && StrLe(x.value, y.value))
  }

  predicate StrLt(a: string, b: string)
  {
    StrLe(a, b) && a != b
  }

  /** Ascending key order: component by component, as SQLite compares
      `ORDER BY` terms and Python compares tuples. */
  predicate KeyLe(a: SortKey, b: SortKey)
  {
    match (a, b)
    case (DateTime(d1, t1), DateTime(d2, t2)) => IntLt(d1, d2) || (d1 == d2 && TextLe(t1, t2))
    case (Pair(x1, y1), Pair(x2, y2)) => StrLt(x1, x2) || (x1 == x2 && StrLe(y1, y2))
    case (DateTime(_, _), Pair(_, _)) => true
    case (Pair(_, _), DateTime(_, _)) => false
  }

  /** The key of `ORDER BY date(deadline), time`. */
  function StoreKey(t: TaskRow): SortKey
  {
    DateTime(SqlDay(t.deadline), t.time)
  }

  /** The key `(task[3] or "9999-12-31", task[4] or "23:59")`. */
  function ListKey(t: TaskRow): SortKey
  {
    Pair(OrElse(t.deadline, "9999-12-31"), OrElse(t.time, "23:59"))
  }

  predicate SortedBy(key: TaskRow -> SortKey, s: seq<TaskRow>)
  {
    forall i, j :: 0 <= i < j < |s| ==> KeyLe(key(s[i]), key(s[j]))
  }

  lemma {:induction false} StrLeAntisymmetric(a: string, b: string)
    requires StrLe(a, b) && StrLe(b, a)
    ensures a == b
  {
    if a != [] && b != [] {
      StrLeAntisymmetric(a[1..], b[1..]);
    }
  }

  lemma KeyLeTotal(a: SortKey, b: SortKey)
    ensures KeyLe(a, b) || KeyLe(b, a)
  {
    match (a, b)
    case (DateTime(_, t1), DateTime(_, t2)) =>
      if t1.Some? && t2.Some? {
        StrLeTotal(t1.value, t2.value);
      }
    case (Pair(x1, y1), Pair(x2, y2)) =>
      StrLeTotal(x1, x2);
      StrLeTotal(y1, y2);
    case _ =>
  }

  lemma KeyLeTrans(a: SortKey, b: SortKey, c: SortKey)
    requires KeyLe(a, b) && KeyLe(b, c)
    ensures KeyLe(a, c)
  {
    match (a, b, c)
    case (DateTime(_, t1), DateTime(_, t2), DateTime(_, t3)) =>
      if t1.Some? && t2.Some? && t3.Some? && StrLe(t1.value, t2.value) && StrLe(t2.value, t3.value) {
        StrLeTrans(t1.value, t2.value, t3.value);
      }
    case (Pair(x1, y1), Pair(x2, y2), Pair(x3, y3)) =>
      if StrLe(x1, x2) && StrLe(x2, x3) {
        StrLeTrans(x1, x2, x3);
        if x1 == x3 {
          StrLeAntisymmetric(x1, x2);
        }
      }
      if StrLe(y1, y2) && StrLe(y2, y3) {
        StrLeTrans(y1, y2, y3);
      }
    case _ =>
  }

  /** `x` placed after every element whose key is not greater than its own. */
  function Insert(key: TaskRow -> SortKey, x: TaskRow, s: seq<TaskRow>): (r: seq<TaskRow>)
    ensures |r| == |s| + 1 && multiset(r) == multiset(s) + multiset{x}
  {
    if s == [] then [x]
    else if !KeyLe(key(s[0]), key(x)) then [x] + s
    else
      var t := Insert(key, x, s[1..]);
      assert s == [s[0]] + s[1..];
      [s[0]] + t
  }

  /** `sorted(s, key=key)`, and the rows of an `ORDER BY` on the key. */
  function SortBy(key: TaskRow -> SortKey, s: seq<TaskRow>): (r: seq<TaskRow>)
    ensures |r| == |s| && multiset(r) == multiset(s)
  {
    if s == [] then []
    else
      assert s == s[..|s| - 1] + [s[|s| - 1]];
      Insert(key, s[|s| - 1], SortBy(key, s[..|s| - 1]))
  }

  lemma {:induction false} InsertSorted(key: TaskRow -> SortKey, x: TaskRow, s: seq<TaskRow>)
    requires SortedBy(key, s)
    ensures SortedBy(key, Insert(key, x, s))
  {
    if s == [] {
    } else if !KeyLe(key(s[0]), key(x)) {
      KeyLeTotal(key(s[0]), key(x));
      var r := [x] + s;
      forall i, j | 0 <= i < j < |r| ensures KeyLe(key(r[i]), key(r[j])) {
        if i == 0 && j > 1 {
          KeyLeTrans(key(x), key(s[0]), key(s[j - 1]));
        }
      }
    } else {
      InsertSorted(key, x, s[1..]);
      var t := Insert(key, x, s[1..]);
      var r := [s[0]] + t;
      forall j | 0 < j < |r| ensures KeyLe(key(s[0]), key(r[j])) {
        assert r[j] in multiset(s[1..]) + multiset{x};
        if r[j] != x {
          var k :| 0 <= k < |s[1..]| && s[1..][k] == r[j];
          assert s[k + 1] == r[j];
        }
      }
    }
  }

  /** The listing holds exactly the rows given, in ascending key order. */
  lemma {:induction false} SortByCorrect(key: TaskRow -> SortKey, s: seq<TaskRow>)
    ensures SortedBy(key, SortBy(key, s)) && multiset(SortBy(key, s)) == multiset(s)
  {
    if s != [] {
      SortByCorrect(key, s[..|s| - 1]);
      InsertSorted(key, s[|s| - 1], SortBy(key, s[..|s| - 1]));
    }
  }

  /** The rows of `s` whose key is `k`, in their order in `s`. */
  function WithKey(key: TaskRow -> SortKey, k: SortKey, s: seq<TaskRow>): (r: seq<TaskRow>)
    ensures |r| <= |s|
  {
    if s == [] then []
    else (if key(s[0]) == k then [s[0]] else []) + WithKey(key, k, s[1..])
  }

  lemma RowsAssoc(a: seq<TaskRow>, b: seq<TaskRow>, c: seq<TaskRow>)
    ensures a + (b + c) == (a + b) + c
  {
  }

  lemma {:induction false} WithKeyConcat(key: TaskRow -> SortKey, k: SortKey, a: seq<TaskRow>, b: seq<TaskRow>)
    ensures WithKey(key, k, a + b) == WithKey(key, k, a) + WithKey(key, k, b)
  {
    if a != [] {
      var head: seq<TaskRow> := if key(a[0]) == k then [a[0]] else [];
      WithKeyConcat(key, k, a[1..], b);
      RowsAssoc([a[0]], a[1..], b);
      assert a == [a[0]] + a[1..];
      WithKeyCons(key, k, a[0], a[1..] + b);
      RowsAssoc(head, WithKey(key, k, a[1..]), WithKey(key, k, b));
    } else {
      assert a + b == b;
    }
  }

  lemma {:induction false} NoneWithKey(key: TaskRow -> SortKey, k: SortKey, s: seq<TaskRow>)
    requires forall i :: 0 <= i < |s| ==> key(s[i]) != k
    ensures WithKey(key, k, s) == []
  {
    if s != [] {
      NoneWithKey(key, k, s[1..]);
    }
  }

  lemma WithKeyCons(key: TaskRow -> SortKey, k: SortKey, y: TaskRow, t: seq<TaskRow>)
    ensures WithKey(key, k, [y] + t) == (if key(y) == k then [y] else []) + WithKey(key, k, t)
  {
    assert ([y] + t)[0] == y && ([y] + t)[1..] == t;
  }

  lemma SortedTail(key: TaskRow -> SortKey, s: seq<TaskRow>)
    requires s != [] && SortedBy(key, s)
    ensures SortedBy(key, s[1..])
  {
    forall i, j | 0 <= i < j < |s[1..]| ensures KeyLe(key(s[1..][i]), key(s[1..][j])) {
      assert s[1..][i] == s[i + 1] && s[1..][j] == s[j + 1];
    }
  }

  lemma InsertFront(key: TaskRow -> SortKey, x: TaskRow, s: seq<TaskRow>)
    requires s == [] || !KeyLe(key(s[0]), key(x))
    ensures Insert(key, x, s) == [x] + s
  {
  }

  lemma InsertLater(key: TaskRow -> SortKey, x: TaskRow, s: seq<TaskRow>)
    requires s != [] && KeyLe(key(s[0]), key(x))
    ensures Insert(key, x, s) == [s[0]] + Insert(key, x, s[1..])
  {
  }

  /** Inserting `x` into a sorted listing puts it after every row with the
      same key. */
  lemma {:induction false} InsertAfterTies(key: TaskRow -> SortKey, k: SortKey, x: TaskRow, s: seq<TaskRow>)
    requires SortedBy(key, s)
    ensures WithKey(key, k, Insert(key, x, s)) == WithKey(key, k, s) + (if key(x) == k then [x] else [])
  {
    var own: seq<TaskRow> := if key(x) == k then [x] else [];
    if s == [] || !KeyLe(key(s[0]), key(x)) {
      InsertFront(key, x, s);
      WithKeyCons(key, k, x, s);
      if key(x) == k {
        forall i | 0 <= i < |s| ensures key(s[i]) != k {
          if i == 0 {
            KeyLeTotal(key(s[0]), key(s[0]));
          }
          assert KeyLe(key(s[0]), key(s[i]));
        }
        NoneWithKey(key, k, s);
        assert WithKey(key, k, Insert(key, x, s)) == [x] + [];
      } else {
        assert WithKey(key, k, Insert(key, x, s)) == [] + WithKey(key, k, s);
      }
    } else {
      var t := Insert(key, x, s[1..]);
      var head: seq<TaskRow> := if key(s[0]) == k then [s[0]] else [];
      SortedTail(key, s);
      InsertAfterTies(key, k, x, s[1..]);
      InsertLater(key, x, s);
      WithKeyCons(key, k, s[0], t);
      assert WithKey(key, k, s) == head + WithKey(key, k, s[1..]);
      calc {
        WithKey(key, k, Insert(key, x, s));
        head + WithKey(key, k, t);
        head + (WithKey(key, k, s[1..]) + own);
        { RowsAssoc(head, WithKey(key, k, s[1..]), own); }
        (head + WithKey(key, k, s[1..])) + own;
        WithKey(key, k, s) + own;
      }
    }
  }

  lemma SortByLast(key: TaskRow -> SortKey, s: seq<TaskRow>)
    requires s != []
    ensures SortBy(key, s) == Insert(key, s[|s| - 1], SortBy(key, s[..|s| - 1]))
  {
  }

  lemma SplitLast(s: seq<TaskRow>)
    requires s != []
    ensures s == s[..|s| - 1] + [s[|s| - 1]]
  {
  }

  /** The sort is stable: rows with equal keys keep their relative order. */
  lemma {:induction false} SortByStable(key: TaskRow -> SortKey, k: SortKey, s: seq<TaskRow>)
    ensures WithKey(key, k, SortBy(key, s)) == WithKey(key, k, s)
  {
    if s != [] {
      var p, x := s[..|s| - 1], s[|s| - 1];
      SplitLast(s);
      SortByStable(key, k, p);
      SortByCorrect(key, p);
      InsertAfterTies(key, k, x, SortBy(key, p));
      SortByLast(key, s);
      WithKeyConcat(key, k, p, [x]);
      WithKeyCons(key, k, x, []);
      assert [x] + [] == [x];
    }
  }
}

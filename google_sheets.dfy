/** The spreadsheet row `add_task_to_sheet` builds for a task and where it
    inserts it. The spreadsheet client is not modelled: column A's values
    are a parameter and the row is returned with its index. */
module Sheets {
  import opened Common
  import opened Calendar

  /** The attributes of the task object the function reads. */
  datatype SheetTask = SheetTask(
    title: Option<string>, deadline: Option<string>, assignedBy: Option<string>,
    comment: Option<string>, links: seq<string>, status: Option<string>,
    id: Option<string>, msgId: Option<int>)

  const Dash := "—"

  // ------------------------------------------------------------- links

  /** `"\n".join(lines)` for a non-empty list. */
  function JoinLines(lines: seq<string>): (r: string)
    requires lines != []
    ensures |r| >= |lines[0]| && r[..|lines[0]|] == lines[0]
  {
    if |lines| == 1 then lines[0] else lines[0] + "\n" + JoinLines(lines[1..])
  }

  /** `s.split("\n")` */
  function SplitLines(s: string): (r: seq<string>)
    ensures r != []
    ensures forall i :: 0 <= i < |r| ==> '\n' !in r[i]
    decreases |s|
  {
    if '\n' !in s then [s]
    else
      var k := FirstNewline(s);
      [s[..k]] + SplitLines(s[k + 1..])
  }

  function FirstNewline(s: string): (k: nat)
    requires '\n' in s
    ensures k < |s| && s[k] == '\n' && '\n' !in s[..k]
  {
    if s[0] == '\n' then 0
    else
      assert '\n' in s[1..] by { var j :| 0 <= j < |s| && s[j] == '\n'; assert s[1..][j - 1] == '\n'; }
      var k := 1 + FirstNewline(s[1..]);
      assert s[..k] == [s[0]] + s[1..][..k - 1];
      k
  }

  /** The list item of one link. */
  function Bullet(link: string): string
  {
    "- " + link
  }

  function Bullets(links: seq<string>): (r: seq<string>)
    ensures |r| == |links| && forall i :: 0 <= i < |links| ==> r[i] == Bullet(links[i])
  {
    if links == [] then [] else [Bullet(links[0])] + Bullets(links[1..])
  }

  /** `format_links`: nothing for no links, else one `- link` line per
      link, in order. */
  function FormatLinks(links: seq<string>): (r: string)
    ensures links == [] <==> r == ""
  {
    if links == [] then "" else JoinLines(Bullets(links))
  }

  /** Splitting at the line breaks after joining gives back the lines. */
  lemma {:induction false} SplitJoin(lines: seq<string>)
    requires lines != [] && forall i :: 0 <= i < |lines| ==> '\n' !in lines[i]
    ensures SplitLines(JoinLines(lines)) == lines
  {
    if |lines| > 1 {
      var a := lines[0];
      var rest := JoinLines(lines[1..]);
      var s := a + "\n" + rest;
      SplitAfter(a, rest);
      SplitJoin(lines[1..]);
      assert lines == [a] + lines[1..];
    }
  }

  /** A line without a break, a break, then the rest: the first piece is
      that line. */
  lemma SplitAfter(a: string, rest: string)
    requires '\n' !in a
    ensures SplitLines(a + "\n" + rest) == [a] + SplitLines(rest)
  {
    var s := a + "\n" + rest;
    assert s[|a|] == '\n';
    var k := FirstNewline(s);
    assert s[..|a|] == a;
    assert k == |a| by {
      assert forall j :: 0 <= j < |a| ==> s[j] == a[j];
      assert k <= |a| ==> s[..k] == a[..k];
    }
    assert s[..k] == a && s[k + 1..] == rest;
  }

  /** The links are read back from the formatted text: line `i` is `- `
      followed by link `i`, and there are as many lines as links. */
  lemma LinksRoundTrip(links: seq<string>)
    requires links != [] && forall i :: 0 <= i < |links| ==> '\n' !in links[i]
    ensures var lines := SplitLines(FormatLinks(links));
      |lines| == |links| && forall i :: 0 <= i < |links| ==> lines[i] == "- " + links[i]
  {
    var b := Bullets(links);
    forall i | 0 <= i < |b| ensures '\n' !in b[i] {
      assert b[i] == "- " + links[i];
    }
    SplitJoin(b);
  }

  // -------------------------------------------------------------- cells

  /** Column F: the comment, a line break and the links when there are
      links; else the comment, or a dash without one. */
  function CommentCell(comment: Option<string>, links: seq<string>): (r: string)
    ensures links == [] ==> (r == Dash <==> !Truthy(comment) || comment == Some(Dash))
    ensures links == [] && Truthy(comment) ==> r == comment.value
    ensures links != [] ==> r == OrElse(comment, "") + "\n" + FormatLinks(links)
  {
    if links != [] then OrElse(comment, "") + "\n" + FormatLinks(links) else OrElse(comment, Dash)
  }

  /** With links, the first line of the comment cell is the comment (or
      nothing) and the following lines are the links, one each. */
  lemma CommentCellLines(comment: Option<string>, links: seq<string>)
    requires links != [] && forall i :: 0 <= i < |links| ==> '\n' !in links[i]
    requires comment.None? || '\n' !in comment.value
    ensures var lines := SplitLines(CommentCell(comment, links));
      lines == [OrElse(comment, "")] + Bullets(links)
  {
    var b := Bullets(links);
    forall i | 0 <= i < |b| ensures '\n' !in b[i] {
      assert b[i] == "- " + links[i];
    }
    SplitJoin(b);
    SplitAfter(OrElse(comment, ""), FormatLinks(links));
  }

  /** Column J: `str(msg_id or "")`. */
  function MsgIdCell(msgId: Option<int>): (r: string)
    ensures r == "" <==> msgId.None? || msgId.value == 0
    ensures r != "" ==> ParseInt(r) == msgId
  {
    if msgId.Some? && msgId.value != 0 then
      IntToStringRoundTrip(msgId.value);
      IntToString(msgId.value)
    else ""
  }

  /** The ten cells A to J; `None` is a Python `None` handed to the sheet. */
  function SheetRow(task: SheetTask, today: Date): (r: seq<Option<string>>)
    requires ValidDate(today)
    ensures |r| == 10
    ensures r[0] == Some(OrElse(task.title, Dash)) && r[2] == Some(OrElse(task.deadline, Dash))
      && r[4] == Some(OrElse(task.assignedBy, Dash))
    ensures r[1] == Some(IsoString(today)) && r[3] == Some(Dash) && r[6] == Some("")
    ensures r[5] == Some(CommentCell(task.comment, task.links))
    ensures r[7] == task.status && r[8] == task.id && r[9] == Some(MsgIdCell(task.msgId))
  {
    [Some(OrElse(task.title, Dash)), Some(IsoString(today)), Some(OrElse(task.deadline, Dash)), Some(Dash),
     Some(OrElse(task.assignedBy, Dash)), Some(CommentCell(task.comment, task.links)), Some(""),
     task.status, task.id, Some(MsgIdCell(task.msgId))]
  }

  /** Columns A to F always hold text: a missing title, deadline, assigner
      or comment becomes the dash, never an empty cell. */
  lemma SheetRowFilled(task: SheetTask, today: Date)
    requires ValidDate(today)
    ensures var r := SheetRow(task, today);
      forall c :: 0 <= c < 6 ==> r[c].Some? && r[c].value != ""
  {
    var r := SheetRow(task, today);
    assert |IsoString(today)| == 10;
    var cell := CommentCell(task.comment, task.links);
    assert |cell| > 0 by {
      if task.links != [] {
        assert |OrElse(task.comment, "") + "\n"| > 0;
      }
    }
  }

  /** The row the new task is inserted at: below the last value of
      column A, and never above row 2, which keeps the header row. */
  function InsertIndex(columnA: seq<string>): (row: int)
    ensures row >= 2
    ensures columnA != [] ==> row == |columnA| + 1
    ensures columnA == [] ==> row == 2
  {
    if columnA != [] then |columnA| + 1 else 2
  }
}

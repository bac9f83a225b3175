/** The draft dialogue of `handlers/new_task.py`. A user's draft lives in
    the draft store; each handler reads it, changes it and writes it back.
    Every handler is a method over the `Store`, proved to leave the draft as
    a pure transition on the draft `get_pending_task` reads (`Collect`,
    `TextReply`, `Route`, …); the dialogue's properties are proved about
    those transitions. Replies are reduced to which prompt is sent. */
module NewTask {
  import opened Common
  import opened JsonList
  import opened Database

  /** An attached document; its file name is optional. */
  datatype Document = Document(fileName: Option<string>)

  /** The parts of an incoming message the handlers look at: the sender's
      id, the text, the caption, a document, whether a photo is attached,
      the full name of a forwarded message's author and the sender name of
      a forward whose author is hidden. */
  datatype Message = Message(
    userId: int, text: Option<string>, caption: Option<string>, document: Option<Document>,
    photo: bool, forwardFrom: Option<string>, forwardSenderName: Option<string>)

  /** Which answer the bot sends. */
  datatype Prompt =
    | Collect                      // "send more fragments or press Done"
    | Added                        // "added, send more"
    | StartedAgain                 // "started collecting a new task" after a confirmed one
    | Started                      // "started collecting a new task"
    | NoDraft                      // "I did not find the task to refine"
    | AskTime
    | ConfirmAssignor(name: string)
    | AskComment
    | AskAssignor
    | Card                         // the summary with "add to sheet and calendar?"
    | Confused                     // "I got confused, start again"
    | ResetDone
    | NameNotConfirmed
    | AskAssignorAgain
    | Silent                       // nothing is sent

  /** A handler answers with a prompt, or raises before it answers. */
  datatype Outcome = Reply(prompt: Prompt) | Raises

  /** The draft a handler leaves behind (`None`: no draft) and its outcome. */
  datatype Transition = Transition(draft: Option<Draft>, outcome: Outcome)

  const PhotoMarker: string := "фотография"

  // ------------------------------------------------------- fragments

  /** The entry appended to `messages`: the text, else the caption, else a
      placeholder. */
  function Fragment(m: Message): (r: Option<string>)
    ensures Truthy(m.text) ==> r == m.text
    ensures !Truthy(m.text) && Truthy(m.caption) ==> r == m.caption
    ensures !Truthy(m.text) && !Truthy(m.caption) ==> r.None?
  {
    if Truthy(m.text) then m.text else if Truthy(m.caption) then m.caption else None
  }

  /** The entries appended to `files`: the document's file name, else the
      photo marker, else nothing. */
  function FileEntries(m: Message): (r: Items)
    ensures |r| <= 1
    ensures m.document.Some? ==> r == [m.document.value.fileName]
    ensures m.document.None? && m.photo ==> r == [Some(PhotoMarker)]
    ensures m.document.None? && !m.photo ==> r == []
  {
    if m.document.Some? then [m.document.value.fileName]
    else if m.photo then [Some(PhotoMarker)]
    else []
  }

  /** The name a forward carries: the author's full name, else a non-empty
      hidden-sender name. */
  function ForwardName(m: Message): (r: Option<string>)
    ensures m.forwardFrom.Some? ==> r == m.forwardFrom
    ensures m.forwardFrom.None? ==> (r.Some? <==> Truthy(m.forwardSenderName))
    ensures m.forwardFrom.None? && r.Some? ==> r == m.forwardSenderName
  {
    if m.forwardFrom.Some? then m.forwardFrom
    else if Truthy(m.forwardSenderName) then m.forwardSenderName
    else None
  }

  /** The first entry of a draft started from a message: the text if it is
      non-empty, else the caption as it is. */
  function FirstFragment(m: Message): (r: Option<string>)
    ensures Truthy(m.text) ==> r == m.text
    ensures !Truthy(m.text) ==> r == m.caption
  {
    if Truthy(m.text) then m.text else m.caption
  }

  // ----------------------------------------------------- transitions

  /** The draft `get_pending_task` reads right after a new collection
      starts. */
  function FreshDraft(u: int, messages: Items, files: Items, forwardedFrom: Option<string>): Draft
  {
    Draft(u, None, None, None, None, None, Some("collecting"), messages, files, forwardedFrom)
  }

  /** The draft after one fragment is accumulated. */
  function Accumulate(d: Draft, m: Message): (r: Draft)
    ensures r.messages == d.messages + [Fragment(m)]
    ensures r.files == d.files + FileEntries(m)
    ensures Truthy(d.forwardedFrom) ==> r.forwardedFrom == d.forwardedFrom
    ensures !Truthy(d.forwardedFrom) && ForwardName(m).Some? ==> r.forwardedFrom == ForwardName(m)
    ensures ForwardName(m).None? ==> r.forwardedFrom == d.forwardedFrom
    ensures r.userId == d.userId && r.step == d.step && r.title == d.title && r.deadline == d.deadline
    ensures r.time == d.time && r.assignedBy == d.assignedBy && r.comment == d.comment
  {
    var sender := if !Truthy(d.forwardedFrom) && ForwardName(m).Some? then ForwardName(m) else d.forwardedFrom;
    d.(messages := d.messages + [Fragment(m)], files := d.files + FileEntries(m), forwardedFrom := sender)
  }

  /** `handle_collecting_messages` on the draft read: nothing without a
      draft. */
  function CollectStep(view: Option<Draft>, m: Message): Transition
  {
    if view.None? then Transition(None, Reply(Silent))
    else Transition(Some(Accumulate(view.value, m)), Reply(Added))
  }

  /** The steps whose text answers `handle_text_reply` takes. */
  const AnswerSteps: set<string> := {
    "ask_deadline", "ask_time", "ask_assigned_by", "ask_comment",
    "confirm_assigned_by", "edit_title", "edit_deadline", "edit_time",
    "edit_assigned_by", "edit_comment", "edit_assigned"}

  /** Every step the dialogue writes. */
  const KnownSteps: set<string> := AnswerSteps + {"collecting", "confirm"}

  predicate StepIs(d: Draft, steps: set<string>)
  {
    d.step.Some? && d.step.value in steps
  }

  /** `x and x not in {"", "null", None}`: an assignor name that counts. */
  predicate RealName(a: Option<string>)
  {
    Truthy(a) && a.value != "null"
  }

  /** The decision after the time is answered: take the forward's sender as
      assignor and ask to confirm it, go on to the comment when a real
      assignor is known, else ask for the assignor. */
  function TimeGate(d: Draft): (r: Draft)
    ensures r == d.(assignedBy := r.assignedBy, step := r.step)
    ensures r.step == Some("confirm_assigned_by") <==> !Truthy(d.assignedBy) && Truthy(d.forwardedFrom)
    ensures r.step == Some("ask_comment") <==> RealName(d.assignedBy)
    ensures r.step == Some("ask_assigned_by") <==>
      !RealName(d.assignedBy) && !(!Truthy(d.assignedBy) && Truthy(d.forwardedFrom))
    ensures r.assignedBy == if r.step == Some("confirm_assigned_by") then d.forwardedFrom else d.assignedBy
  {
    if !Truthy(d.assignedBy) && Truthy(d.forwardedFrom) then
      d.(assignedBy := d.forwardedFrom, step := Some("confirm_assigned_by"))
    else if Truthy(d.assignedBy) && d.assignedBy.value != "null" then
      d.(step := Some("ask_comment"))
    else
      d.(step := Some("ask_assigned_by"))
  }

  /** The prompt sent after the time gate. */
  function GatePrompt(d: Draft): Prompt
  {
    if d.step == Some("confirm_assigned_by") && d.assignedBy.Some? then ConfirmAssignor(d.assignedBy.value)
    else if d.step == Some("ask_comment") then AskComment
    else AskAssignor
  }

  /** `handle_text_reply` on the draft read and the message text; a missing
      text raises where the handler strips it, before anything is saved. */
  function TextReply(view: Option<Draft>, text: Option<string>): Transition
  {
    if view.None? then Transition(None, Reply(NoDraft))
    else
      var d := view.value;
      if StepIs(d, {"ask_deadline", "edit_deadline"}) then
        if text.None? then Transition(view, Raises)
        else
          var d1 := d.(deadline := Some(Strip(text.value)));
          if d.step == Some("ask_deadline") then Transition(Some(d1.(step := Some("ask_time"))), Reply(AskTime))
          else Transition(Some(d1), Reply(Card))
      else if StepIs(d, {"ask_time", "edit_time"}) then
        if text.None? then Transition(view, Raises)
        else
          var d1 := d.(time := Some(Strip(text.value)));
          if d.step == Some("ask_time") then Transition(Some(TimeGate(d1)), Reply(GatePrompt(TimeGate(d1))))
          else Transition(Some(d1), Reply(Card))
      else if StepIs(d, {"ask_assigned_by", "edit_assigned_by", "edit_assigned"}) then
        if text.None? then Transition(view, Raises)
        else
          var d1 := d.(assignedBy := Some(Strip(text.value)));
          if d.step == Some("ask_assigned_by") then Transition(Some(d1.(step := Some("ask_comment"))), Reply(AskComment))
          else Transition(Some(d1), Reply(Card))
      else if d.step == Some("confirm_assigned_by") then
        if RealName(d.assignedBy) then Transition(view, Reply(ConfirmAssignor(d.assignedBy.value)))
        else Transition(Some(d.(step := Some("ask_assigned_by"))), Reply(AskAssignor))
      else if StepIs(d, {"ask_comment", "edit_comment"}) then
        if text.None? then Transition(view, Raises)
        else Transition(Some(d.(comment := Some(Strip(text.value)), step := Some("confirm"))), Reply(Card))
      else if d.step == Some("edit_title") then
        if text.None? then Transition(view, Raises)
        else Transition(Some(d.(title := Some(Strip(text.value)), step := Some("confirm"))), Reply(Card))
      else Transition(view, Reply(Confused))
  }

  /** The draft started from a message that is not part of a dialogue. */
  function StartFrom(m: Message): Draft
  {
    FreshDraft(m.userId, [FirstFragment(m)], FileEntries(m), ForwardName(m))
  }

  /** `route_message` on the draft read. */
  function Route(view: Option<Draft>, m: Message): Transition
  {
    if view.Some? && view.value.step == Some("confirm") then Transition(Some(StartFrom(m)), Reply(StartedAgain))
    else if view.Some? && view.value.step == Some("collecting") then CollectStep(view, m)
    else if view.Some? && StepIs(view.value, AnswerSteps) then TextReply(view, m.text)
    else Transition(Some(StartFrom(m)), Reply(Started))
  }

  /** A draft that a run of fragments has been accumulated into, one
      message after the other. */
  function CollectAll(d: Draft, ms: seq<Message>): Draft
    decreases |ms|
  {
    if ms == [] then d else CollectAll(Accumulate(d, ms[0]), ms[1..])
  }

  function Fragments(ms: seq<Message>): (r: seq<Option<string>>)
    ensures |r| == |ms| && forall i :: 0 <= i < |ms| ==> r[i] == Fragment(ms[i])
  {
    seq(|ms|, i requires 0 <= i < |ms| => Fragment(ms[i]))
  }

  /** Accumulating a run of messages appends one entry per message, in
      order, and at most one file per message; it keeps the step and the
      five answers, and it keeps a sender once one is set. */
  lemma {:induction false} CollectAllFacts(d: Draft, ms: seq<Message>)
    ensures CollectAll(d, ms).messages == d.messages + Fragments(ms)
    ensures |d.files| <= |CollectAll(d, ms).files| <= |d.files| + |ms|
    ensures CollectAll(d, ms).files[..|d.files|] == d.files
    ensures Truthy(d.forwardedFrom) ==> CollectAll(d, ms).forwardedFrom == d.forwardedFrom
    ensures CollectAll(d, ms).step == d.step && CollectAll(d, ms).userId == d.userId
    ensures CollectAll(d, ms).title == d.title && CollectAll(d, ms).deadline == d.deadline
    ensures CollectAll(d, ms).time == d.time && CollectAll(d, ms).assignedBy == d.assignedBy
    ensures CollectAll(d, ms).comment == d.comment
    decreases |ms|
  {
    if ms != [] {
      var d1 := Accumulate(d, ms[0]);
      CollectAllFacts(d1, ms[1..]);
      assert Fragments(ms) == [Fragment(ms[0])] + Fragments(ms[1..]);
      var f := CollectAll(d1, ms[1..]).files;
      assert d1.files == d.files + FileEntries(ms[0]);
      assert f[..|d.files|] == f[..|d1.files|][..|d.files|];
    }
  }

  /** The first forwarded message of a run sets the sender of a draft that
      had none; later forwards leave it. */
  lemma {:induction false} FirstForwardWins(d: Draft, ms: seq<Message>, k: nat)
    requires k < |ms| && !Truthy(d.forwardedFrom)
    requires forall i :: 0 <= i < k ==> ForwardName(ms[i]).None?
    requires Truthy(ForwardName(ms[k]))
    ensures CollectAll(d, ms).forwardedFrom == ForwardName(ms[k])
    decreases k
  {
    var d1 := Accumulate(d, ms[0]);
    if k == 0 {
      CollectAllFacts(d1, ms[1..]);
    } else {
      FirstForwardWins(d1, ms[1..], k - 1);
    }
  }

  /** The answers the text handler stores, and the steps that take each. */
  const Scalars: set<string> := {"title", "deadline", "time", "assigned_by", "comment"}

  function Scalar(d: Draft, f: string): Option<string>
  {
    match f
    case "title" => d.title
    case "deadline" => d.deadline
    case "time" => d.time
    case "assigned_by" => d.assignedBy
    case "comment" => d.comment
    case _ => None
  }

  /** The steps that store the text they receive. */
  const FieldSteps: set<string> := AnswerSteps - {"confirm_assigned_by"}

  /** The answer a step stores. */
  function AnswerField(step: string): string
  {
    if step in {"ask_deadline", "edit_deadline"} then "deadline"
    else if step in {"ask_time", "edit_time"} then "time"
    else if step in {"ask_assigned_by", "edit_assigned_by", "edit_assigned"} then "assigned_by"
    else if step in {"ask_comment", "edit_comment"} then "comment"
    else "title"
  }

  /** The step that follows an answer, apart from the time gate: an `ask_`
      step moves on, a comment or title answer goes to the summary, the
      other edits keep their step. */
  function NextStep(step: string): string
  {
    if step == "ask_deadline" then "ask_time"
    else if step == "ask_assigned_by" then "ask_comment"
    else if step in {"ask_comment", "edit_comment", "edit_title"} then "confirm"
    else step
  }

  /** A text answer stores the trimmed text in the step's own field and
      leaves the other answers, the lists and the sender alone (the time
      gate may also fill in the assignor). */
  lemma AnswerSetsOneField(d: Draft, text: string)
    requires StepIs(d, FieldSteps)
    ensures TextReply(Some(d), Some(text)).draft.Some?
    ensures var r := TextReply(Some(d), Some(text)).draft.value;
      Scalar(r, AnswerField(d.step.value)) == Some(Strip(text))
      && r.messages == d.messages && r.files == d.files
      && r.forwardedFrom == d.forwardedFrom && r.userId == d.userId
    ensures var r := TextReply(Some(d), Some(text)).draft.value;
      forall f :: (f in Scalars && f != AnswerField(d.step.value)
        && !(f == "assigned_by" && d.step == Some("ask_time"))) ==> Scalar(r, f) == Scalar(d, f)
  {
  }

  /** The step after an answer, outside the time gate. */
  lemma StepAfterAnswer(d: Draft, text: string)
    requires StepIs(d, FieldSteps) && d.step != Some("ask_time")
    ensures TextReply(Some(d), Some(text)).draft.Some?
    ensures TextReply(Some(d), Some(text)).draft.value.step == Some(NextStep(d.step.value))
  {
  }

  /** After the time is answered, a forward's sender is proposed as the
      assignor exactly when none is set; the name asked about is that
      sender. */
  lemma TimeAnswer(d: Draft, text: string)
    requires d.step == Some("ask_time")
    ensures var t := TextReply(Some(d), Some(text));
      t.draft.Some? && t.draft.value.time == Some(Strip(text))
      && (t.outcome.Reply? && t.outcome.prompt.ConfirmAssignor? <==> !Truthy(d.assignedBy) && Truthy(d.forwardedFrom))
      && (t.outcome == Reply(AskComment) <==> RealName(d.assignedBy))
      && (t.outcome.Reply? && t.outcome.prompt.ConfirmAssignor? ==>
            Some(t.outcome.prompt.name) == d.forwardedFrom && t.draft.value.assignedBy == d.forwardedFrom)
  {
  }

  /** A text in the confirmation step re-asks and changes nothing when a
      real assignor is set, and otherwise asks for one. */
  lemma ConfirmStepAnswer(d: Draft, text: Option<string>)
    requires d.step == Some("confirm_assigned_by")
    ensures var t := TextReply(Some(d), text);
      t.outcome.Reply? && t.draft.Some?
      && (RealName(d.assignedBy) ==> t.draft == Some(d) && t.outcome.prompt == ConfirmAssignor(d.assignedBy.value))
      && (!RealName(d.assignedBy) ==> t.draft == Some(d.(step := Some("ask_assigned_by"))) && t.outcome.prompt == AskAssignor)
  {
  }

  /** The handler raises exactly when a step that stores the text gets a
      message without text; then nothing has been saved. Without a draft
      it warns and changes nothing. */
  lemma TextReplyRaises(view: Option<Draft>, text: Option<string>)
    ensures TextReply(view, text).outcome == Raises <==>
      view.Some? && StepIs(view.value, FieldSteps) && text.None?
    ensures TextReply(view, text).outcome == Raises ==> TextReply(view, text).draft == view
    ensures view.None? ==> TextReply(view, text) == Transition(None, Reply(NoDraft))
  {
  }

  /** Routing always leaves a draft whose step is one the dialogue knows,
      whatever the draft it found. */
  lemma RouteKeepsStepsKnown(view: Option<Draft>, m: Message)
    ensures Route(view, m).draft.Some?
    ensures Route(view, m).draft.value.step.Some? && Route(view, m).draft.value.step.value in KnownSteps
  {
  }

  /** A message outside a dialogue starts a new draft holding that one
      message: no draft, a confirmed draft, or a step the router does not
      know. */
  lemma RouteStartsFresh(view: Option<Draft>, m: Message)
    requires view.None? || !StepIs(view.value, AnswerSteps + {"collecting"})
    ensures var d := Route(view, m).draft;
      d.Some? && d.value.messages == [FirstFragment(m)] && d.value.files == FileEntries(m)
      && d.value.forwardedFrom == ForwardName(m) && d.value.step == Some("collecting")
      && d.value.title.None? && d.value.deadline.None? && d.value.time.None?
      && d.value.assignedBy.None? && d.value.comment.None?
  {
  }

  // ------------------------------------------------------ store glue

  /** The dict `get_pending_task` returns, as handed back to
      `update_pending_task`. */
  function DraftDict(d: Draft): map<string, Value>
  {
    map["user_id" := Int(d.userId), "title" := Cell(d.title), "deadline" := Cell(d.deadline),
      "time" := Cell(d.time), "assigned_by" := Cell(d.assignedBy), "comment" := Cell(d.comment),
      "step" := Cell(d.step), "messages" := List(d.messages), "files" := List(d.files),
      "forwarded_from" := Cell(d.forwardedFrom)]
  }

  /** A whole draft written back is read back as written. */
  lemma SaveView(u: int, row: DraftRow, d: Draft)
    requires d.userId == u
    ensures Merge(row, DraftDict(d)).Some?
    ensures DecodeRow(u, Merge(row, DraftDict(d)).value) == d
  {
    MergeDefined(row, DraftDict(d));
    assert Merge(row, DraftDict(d)).value == DraftRow(d.title, d.deadline, d.time, d.assignedBy, d.comment,
      d.step, Some(EncodeList(d.messages)), Some(EncodeList(d.files)), d.forwardedFrom);
  }

  /** The three entries `handle_collecting_messages` writes. */
  function CollectUpdates(messages: Items, files: Items, sender: Option<string>): map<string, Value>
  {
    map["messages" := List(messages), "files" := List(files), "forwarded_from" := Cell(sender)]
  }

  /** Writing the three entries reads back as the draft with those lists
      and that sender. */
  lemma CollectView(u: int, row: DraftRow, messages: Items, files: Items, sender: Option<string>)
    ensures Merge(row, CollectUpdates(messages, files, sender)).Some?
    ensures DecodeRow(u, Merge(row, CollectUpdates(messages, files, sender)).value)
      == DecodeRow(u, row).(messages := messages, files := files, forwardedFrom := sender)
  {
    var up := CollectUpdates(messages, files, sender);
    MergeDefined(row, up);
    assert Merge(row, up).value == row.(messages := Some(EncodeList(messages)),
      files := Some(EncodeList(files)), forwardedFrom := sender);
  }

  /** Setting the step reads back as the draft with that step. */
  lemma StepView(u: int, row: DraftRow, step: string)
    ensures Merge(row, map["step" := Str(step)]).Some?
    ensures DecodeRow(u, Merge(row, map["step" := Str(step)]).value) == DecodeRow(u, row).(step := Some(step))
  {
    var up := map["step" := Str(step)];
    MergeDefined(row, up);
    assert Merge(row, up).value == row.(step := Some(step));
  }

  /** Clearing the assignor and setting the step reads back as such. */
  lemma DeclineView(u: int, row: DraftRow)
    ensures Merge(row, map["assigned_by" := Null, "step" := Str("ask_assigned_by")]).Some?
    ensures DecodeRow(u, Merge(row, map["assigned_by" := Null, "step" := Str("ask_assigned_by")]).value)
      == DecodeRow(u, row).(assignedBy := None, step := Some("ask_assigned_by"))
  {
    var up := map["assigned_by" := Null, "step" := Str("ask_assigned_by")];
    MergeDefined(row, up);
    assert Merge(row, up).value == row.(assignedBy := None, step := Some("ask_assigned_by"));
  }

  // -------------------------------------------------------- handlers

  /** `start_collecting_task`: a fresh, empty draft replaces any other. */
  method StartCollectingTask(db: Store, u: int) returns (out: Outcome)
    modifies db
    ensures db.GetPendingTask(u) == Some(FreshDraft(u, [], [], None))
    ensures db.drafts - {u} == old(db.drafts) - {u} && db.tasks == old(db.tasks)
    ensures out == Reply(Collect)
  {
    db.AddPendingTask(u, NewDraft(Some("collecting"), Some([]), Some([]), None));
    GetAfterAdd(u, NewDraft(Some("collecting"), Some([]), Some([]), None));
    out := Reply(Collect);
  }

  /** `handle_collecting_messages` */
  method HandleCollectingMessages(db: Store, m: Message) returns (out: Outcome)
    modifies db
    ensures db.GetPendingTask(m.userId) == CollectStep(old(db.GetPendingTask(m.userId)), m).draft
    ensures out == CollectStep(old(db.GetPendingTask(m.userId)), m).outcome
    ensures db.drafts - {m.userId} == old(db.drafts) - {m.userId} && db.tasks == old(db.tasks)
  {
    var u := m.userId;
    var pending := db.GetPendingTask(u);
    if pending.None? {
      return Reply(Silent);
    }
    var messages := pending.value.messages;
    var files := pending.value.files;
    var sender := pending.value.forwardedFrom;
    if Truthy(m.text) {
      messages := messages + [m.text];
    } else if Truthy(m.caption) {
      messages := messages + [m.caption];
    } else {
      messages := messages + [None];
    }
    if m.document.Some? {
      files := files + [m.document.value.fileName];
    } else if m.photo {
      files := files + [Some(PhotoMarker)];
    }
    if !Truthy(sender) {
      if m.forwardFrom.Some? {
        sender := m.forwardFrom;
      } else if Truthy(m.forwardSenderName) {
        sender := m.forwardSenderName;
      }
    }
    assert messages == pending.value.messages + [Fragment(m)];
    assert files == pending.value.files + FileEntries(m);
    ghost var after := Accumulate(pending.value, m);
    assert after == pending.value.(messages := messages, files := files, forwardedFrom := sender);
    CollectView(u, db.drafts[u], messages, files, sender);
    var _ := db.UpdatePendingTask(u, map["messages" := List(messages), "files" := List(files), "forwarded_from" := Cell(sender)]);
    out := Reply(Added);
  }

  /** Writes a whole draft back, as the text handler does with `pending`. */
  method Save(db: Store, d: Draft)
    requires d.userId in db.drafts
    modifies db
    ensures db.GetPendingTask(d.userId) == Some(d)
    ensures db.drafts - {d.userId} == old(db.drafts) - {d.userId} && db.tasks == old(db.tasks)
  {
    SaveView(d.userId, db.drafts[d.userId], d);
    var _ := db.UpdatePendingTask(d.userId, DraftDict(d));
  }

  /** `handle_text_reply` */
  method HandleTextReply(db: Store, m: Message) returns (out: Outcome)
    modifies db
    ensures db.GetPendingTask(m.userId) == TextReply(old(db.GetPendingTask(m.userId)), m.text).draft
    ensures out == TextReply(old(db.GetPendingTask(m.userId)), m.text).outcome
    ensures db.drafts - {m.userId} == old(db.drafts) - {m.userId} && db.tasks == old(db.tasks)
  {
    var u := m.userId;
    var pending := db.GetPendingTask(u);
    if pending.None? {
      return Reply(NoDraft);
    }
    var p := pending.value;
    var step := p.step;
    if StepIs(p, {"ask_deadline", "edit_deadline"}) {
      if m.text.None? {
        return Raises;
      }
      p := p.(deadline := Some(Strip(m.text.value)));
      if step == Some("ask_deadline") {
        p := p.(step := Some("ask_time"));
        Save(db, p);
        return Reply(AskTime);
      }
    } else if StepIs(p, {"ask_time", "edit_time"}) {
      if m.text.None? {
        return Raises;
      }
      p := p.(time := Some(Strip(m.text.value)));
      if step == Some("ask_time") {
        if !Truthy(p.assignedBy) && Truthy(p.forwardedFrom) {
          p := p.(assignedBy := p.forwardedFrom, step := Some("confirm_assigned_by"));
        } else if Truthy(p.assignedBy) && p.assignedBy.value != "null" {
          p := p.(step := Some("ask_comment"));
        } else {
          p := p.(step := Some("ask_assigned_by"));
        }
        Save(db, p);
        if p.step == Some("confirm_assigned_by") {
          return Reply(ConfirmAssignor(p.assignedBy.value));
        }
        if p.step == Some("ask_comment") {
          return Reply(AskComment);
        }
        return Reply(AskAssignor);
      }
    } else if StepIs(p, {"ask_assigned_by", "edit_assigned_by", "edit_assigned"}) {
      if m.text.None? {
        return Raises;
      }
      p := p.(assignedBy := Some(Strip(m.text.value)));
      if step == Some("ask_assigned_by") {
        p := p.(step := Some("ask_comment"));
        Save(db, p);
        return Reply(AskComment);
      }
    } else if step == Some("confirm_assigned_by") {
      if Truthy(p.assignedBy) && p.assignedBy.value != "null" {
        return Reply(ConfirmAssignor(p.assignedBy.value));
      } else {
        p := p.(step := Some("ask_assigned_by"));
        Save(db, p);
        return Reply(AskAssignor);
      }
    } else if StepIs(p, {"ask_comment", "edit_comment"}) {
      if m.text.None? {
        return Raises;
      }
      p := p.(comment := Some(Strip(m.text.value)), step := Some("confirm"));
    } else if step == Some("edit_title") {
      if m.text.None? {
        return Raises;
      }
      p := p.(title := Some(Strip(m.text.value)), step := Some("confirm"));
    } else {
      return Reply(Confused);
    }
    Save(db, p);
    out := Reply(Card);
  }

  /** The fresh draft `route_message` stores for a message outside a
      dialogue. */
  method StartFromMessage(db: Store, m: Message)
    modifies db
    ensures db.GetPendingTask(m.userId) == Some(StartFrom(m))
    ensures db.drafts - {m.userId} == old(db.drafts) - {m.userId} && db.tasks == old(db.tasks)
  {
    var task := NewDraft(Some("collecting"), Some([FirstFragment(m)]), Some(FileEntries(m)), ForwardName(m));
    db.AddPendingTask(m.userId, task);
    GetAfterAdd(m.userId, task);
  }

  /** `route_message`, without the state guard, which reads a store created
      empty on every call and so never fires. */
  method RouteMessage(db: Store, m: Message) returns (out: Outcome)
    modifies db
    ensures db.GetPendingTask(m.userId) == Route(old(db.GetPendingTask(m.userId)), m).draft
    ensures out == Route(old(db.GetPendingTask(m.userId)), m).outcome
    ensures db.drafts - {m.userId} == old(db.drafts) - {m.userId} && db.tasks == old(db.tasks)
  {
    var pending := db.GetPendingTask(m.userId);
    if pending.Some? && pending.value.step == Some("confirm") {
      StartFromMessage(db, m);
      return Reply(StartedAgain);
    }
    if pending.Some? && pending.value.step == Some("collecting") {
      out := HandleCollectingMessages(db, m);
      return;
    }
    if pending.Some? && pending.value.step.Some? && pending.value.step.value in AnswerSteps {
      out := HandleTextReply(db, m);
      return;
    }
    StartFromMessage(db, m);
    out := Reply(Started);
  }

  /** `handle_reset_task` */
  method HandleResetTask(db: Store, u: int) returns (out: Outcome)
    modifies db
    ensures db.GetPendingTask(u).None?
    ensures db.drafts - {u} == old(db.drafts) - {u} && db.tasks == old(db.tasks)
    ensures out == Reply(ResetDone)
  {
    db.DeletePendingTask(u);
    out := Reply(ResetDone);
  }

  /** `handle_confirm_assigned_yes`: the proposed assignor stays and the
      comment is asked for. */
  method HandleConfirmAssignedYes(db: Store, u: int) returns (out: Outcome)
    modifies db
    ensures old(db.GetPendingTask(u)).None? ==> db.drafts == old(db.drafts) && out == Reply(NameNotConfirmed)
    ensures old(db.GetPendingTask(u)).Some? ==>
      db.GetPendingTask(u) == Some(old(db.GetPendingTask(u)).value.(step := Some("ask_comment")))
      && out == Reply(AskComment)
    ensures db.drafts - {u} == old(db.drafts) - {u} && db.tasks == old(db.tasks)
  {
    var pending := db.GetPendingTask(u);
    if pending.None? {
      return Reply(NameNotConfirmed);
    }
    StepView(u, db.drafts[u], "ask_comment");
    var _ := db.UpdatePendingTask(u, map["step" := Str("ask_comment")]);
    out := Reply(AskComment);
  }

  /** `handle_confirm_assigned_no`: the assignor is cleared and asked for;
      without a draft the update does nothing but the question is sent. */
  method HandleConfirmAssignedNo(db: Store, u: int) returns (out: Outcome)
    modifies db
    ensures old(db.GetPendingTask(u)).None? ==> db.drafts == old(db.drafts)
    ensures old(db.GetPendingTask(u)).Some? ==>
      db.GetPendingTask(u) == Some(old(db.GetPendingTask(u)).value.(assignedBy := None, step := Some("ask_assigned_by")))
    ensures db.drafts - {u} == old(db.drafts) - {u} && db.tasks == old(db.tasks)
    ensures out == Reply(AskAssignorAgain)
  {
    if u in db.drafts {
      DeclineView(u, db.drafts[u]);
    }
    var _ := db.UpdatePendingTask(u, map["assigned_by" := Null, "step" := Str("ask_assigned_by")]);
    out := Reply(AskAssignorAgain);
  }
}

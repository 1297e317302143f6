/**
 * The chat view's host side: the conversation log, the one current task with
 * its five fixed steps, the keyword heuristic that advances the steps, and
 * the messages posted to the webview.
 */
module BecaView {
  import opened Options
  import opened JsText
  import opened EditorHost
  import opened WebviewTypes
  import opened WebviewApp

  /** One opaque clock reading: `Date.now().toString()` and the ISO timestamp. */
  datatype Stamp = Stamp(id: string, time: string)

  const StepTitles: seq<StepTitle> := [AnalyzeRequirements, ExploreCodebase, MakeChanges, TestChanges, Summarize]

  /** Five steps carrying the ids 1..5 in order, so step `n` sits at index `n - 1`. */
  predicate Numbered(t: Task) {
    |t.steps| == 5 && forall i :: 0 <= i < 5 ==> t.steps[i].id == i + 1
  }

  /** The fixed shape of every task: steps 1..5 in order with their fixed titles. */
  predicate WellFormed(t: Task) {
    Numbered(t) && forall i :: 0 <= i < 5 ==> t.steps[i].title == StepTitles[i]
  }

  /** Two tasks agree on everything but their step statuses. */
  predicate SameShape(t: Task, r: Task) {
    && r.id == t.id && r.title == t.title && r.createdAt == t.createdAt && r.status == t.status
    && |r.steps| == |t.steps|
    && forall j :: 0 <= j < |t.steps| ==> r.steps[j].id == t.steps[j].id && r.steps[j].title == t.steps[j].title
  }

  /** `createTask`: the task opened by the first message of a conversation. */
  function CreatedTask(request: string, stamp: Stamp): (t: Task)
    ensures WellFormed(t)
    ensures t.steps[0].status == InProgress
    ensures forall i :: 1 <= i < 5 ==> t.steps[i].status == Pending
    ensures t.status == TaskActive && t.id == stamp.id && t.createdAt == stamp.time
    ensures |t.title| == (if |request| < 100 then |request| else 100) && t.title == request[..|t.title|]
  {
    Task(stamp.id, Prefix(request, 100),
         [TaskStep(1, StepTitles[0], InProgress),
          TaskStep(2, StepTitles[1], Pending),
          TaskStep(3, StepTitles[2], Pending),
          TaskStep(4, StepTitles[3], Pending),
          TaskStep(5, StepTitles[4], Pending)],
         stamp.time, TaskActive)
  }

  /** `steps.find(s => s.id === id)`, as the index of the first step with that id. */
  function FindStep(steps: seq<TaskStep>, id: int): (k: Option<nat>)
    ensures k.Some? ==> k.value < |steps| && steps[k.value].id == id
  {
    if steps == [] then None
    else if steps[0].id == id then Some(0)
    else match FindStep(steps[1..], id)
      case None => None
      case Some(k) => Some(k + 1)
  }

  /** `find` returns the first step with the id, and nothing only when no step has it. */
  lemma {:induction false} FindStepFirst(steps: seq<TaskStep>, id: int)
    ensures var k := FindStep(steps, id);
      (k.Some? ==> forall j :: 0 <= j < k.value ==> steps[j].id != id)
      && (k.None? ==> forall j :: 0 <= j < |steps| ==> steps[j].id != id)
    decreases |steps|
  {
    if steps != [] && steps[0].id != id {
      FindStepFirst(steps[1..], id);
      var k := FindStep(steps, id);
      forall j | 0 <= j < (if k.Some? then k.value else |steps|)
        ensures steps[j].id != id
      {
        if j > 0 {
          assert steps[j] == steps[1..][j - 1];
        }
      }
    }
  }

  /** One `updateTaskStep(stepId, status)` request. */
  datatype StepChange = StepChange(stepId: int, status: StepStatus)

  /** The request names an existing step whose status differs. */
  predicate Changes(t: Task, c: StepChange) {
    var k := FindStep(t.steps, c.stepId);
    k.Some? && t.steps[k.value].status != c.status
  }

  /** The task after one `updateTaskStep`: `step.status = status` on the step found. */
  function Apply(t: Task, c: StepChange): Task {
    var k := FindStep(t.steps, c.stepId);
    if k.Some? && t.steps[k.value].status != c.status then
      t.(steps := t.steps[k.value := t.steps[k.value].(status := c.status)])
    else t
  }

  /**
   * Only the named step's status can change, ids and titles stay, and the
   * task changes exactly when the step exists with a different status.
   */
  lemma ApplyFrame(t: Task, c: StepChange)
    ensures var r := Apply(t, c);
      SameShape(t, r)
      && (forall j :: 0 <= j < |t.steps| ==>
            r.steps[j] == t.steps[j] || (t.steps[j].id == c.stepId && r.steps[j].status == c.status))
      && (Changes(t, c) <==> r != t)
  {
    var k := FindStep(t.steps, c.stepId);
    if k.Some? && t.steps[k.value].status != c.status {
      assert Apply(t, c).steps[k.value] != t.steps[k.value];
    }
  }

  /** The task so far and the `taskUpdated` snapshots posted while getting there. */
  datatype Progress = Progress(task: Task, snapshots: seq<Task>)

  /** One `updateTaskStep`: a snapshot is posted exactly when the status actually changes. */
  function Step(p: Progress, c: StepChange): Progress {
    if Changes(p.task, c) then Progress(Apply(p.task, c), p.snapshots + [Apply(p.task, c)]) else p
  }

  function Advance(p: Progress, changes: seq<StepChange>): Progress
    decreases |changes|
  {
    if changes == [] then p else Advance(Step(p, changes[0]), changes[1..])
  }

  lemma {:induction false} AdvanceSnoc(p: Progress, changes: seq<StepChange>, c: StepChange)
    ensures Advance(p, changes + [c]) == Step(Advance(p, changes), c)
    decreases |changes|
  {
    if changes == [] {
      assert changes + [c] == [c];
    } else {
      assert (changes + [c])[1..] == changes[1..] + [c];
      AdvanceSnoc(Step(p, changes[0]), changes[1..], c);
    }
  }

  /** The keywords `updateTaskProgress` looks for in the lower-cased reply. */
  const Analyzing: string := "analyzing"
  const Understanding: string := "understanding"
  const Exploring: string := "exploring"
  const Found: string := "found"
  const Creating: string := "creating"
  const Modifying: string := "modifying"
  const Editing: string := "editing"
  const TestingWord: string := "testing"
  const Verified: string := "verified"
  const Summary: string := "summary"
  const NextSteps: string := "next steps"
  const CompletedWord: string := "completed"

  /** The five keyword tests of `updateTaskProgress`, in source order, on the lower-cased reply. */
  predicate AnalysisHinted(content: string) {
    Contains(content, Analyzing) || Contains(content, Understanding)
  }

  predicate ExplorationHinted(content: string) {
    Contains(content, Exploring) || Contains(content, Found)
  }

  predicate ChangeHinted(content: string) {
    Contains(content, Creating) || Contains(content, Modifying) || Contains(content, Editing)
  }

  predicate TestHinted(content: string) {
    Contains(content, TestingWord) || Contains(content, Verified)
  }

  predicate SummaryHinted(content: string) {
    Contains(content, Summary) || Contains(content, NextSteps) || Contains(content, CompletedWord)
  }

  /** The step updates of one rule when its test holds. */
  function Fired(hit: bool, changes: seq<StepChange>): seq<StepChange> {
    if hit then changes else []
  }

  /** Every step update the heuristic requests, in the order it requests them. */
  function RuleChanges(content: string): seq<StepChange> {
    Fired(AnalysisHinted(content), [StepChange(1, Completed), StepChange(2, InProgress)])
    + Fired(ExplorationHinted(content), [StepChange(2, Completed), StepChange(3, InProgress)])
    + Fired(ChangeHinted(content), [StepChange(3, Completed), StepChange(4, InProgress)])
    + Fired(TestHinted(content), [StepChange(4, Completed), StepChange(5, InProgress)])
    + Fired(SummaryHinted(content), [StepChange(5, Completed)])
  }

  /** What `updateTaskProgress(response)` does to a task. */
  function ProgressFor(t: Task, response: string): Progress {
    Advance(Progress(t, []), RuleChanges(ToLower(response)))
  }

  /** One `taskUpdated` per snapshot, in order. */
  function Updates(snapshots: seq<Task>): seq<HostMessage> {
    if snapshots == [] then [] else [TaskUpdated(snapshots[0])] + Updates(snapshots[1..])
  }

  /** Each posted snapshot differs from the task just before it: nothing is posted for a no-op. */
  ghost predicate EachSnapshotChanges(start: Task, snapshots: seq<Task>) {
    && (snapshots != [] ==> snapshots[0] != start)
    && forall i :: 0 < i < |snapshots| ==> snapshots[i] != snapshots[i - 1]
  }

  /** The progress so far ends in the last snapshot posted, or in the start task when none was. */
  ghost predicate EndsInLast(start: Task, p: Progress) {
    if p.snapshots == [] then p.task == start else p.task == p.snapshots[|p.snapshots| - 1]
  }

  /**
   * The heuristic never changes a task's shape, posts only snapshots that
   * differ from their predecessor, and the last snapshot posted is the task it leaves.
   */
  lemma {:induction false} AdvanceFaithful(start: Task, p: Progress, changes: seq<StepChange>)
    requires SameShape(start, p.task) && EndsInLast(start, p) && EachSnapshotChanges(start, p.snapshots)
    ensures var r := Advance(p, changes);
      SameShape(start, r.task) && EndsInLast(start, r) && EachSnapshotChanges(start, r.snapshots)
      && |p.snapshots| <= |r.snapshots| && r.snapshots[..|p.snapshots|] == p.snapshots
    decreases |changes|
  {
    if changes != [] {
      var q := Step(p, changes[0]);
      if Changes(p.task, changes[0]) {
        var t' := Apply(p.task, changes[0]);
        ApplyFrame(p.task, changes[0]);
        assert t' != p.task;
        assert q.snapshots[|q.snapshots| - 1] == t';
        assert q.snapshots[..|p.snapshots|] == p.snapshots;
        forall i | 0 < i < |q.snapshots|
          ensures q.snapshots[i] != q.snapshots[i - 1]
        {
          if i < |p.snapshots| {
            assert q.snapshots[i] == p.snapshots[i] && q.snapshots[i - 1] == p.snapshots[i - 1];
          } else {
            assert q.snapshots[i - 1] == p.snapshots[|p.snapshots| - 1] == p.task;
          }
        }
        if p.snapshots == [] {
          assert q.snapshots[0] == t' && p.task == start;
        } else {
          assert q.snapshots[0] == p.snapshots[0];
        }
      }
      AdvanceFaithful(start, q, changes[1..]);
      var r := Advance(q, changes[1..]);
      assert r.snapshots[..|p.snapshots|] == r.snapshots[..|q.snapshots|][..|p.snapshots|];
    }
  }

  /** The heuristic on a task of the fixed shape keeps that shape. */
  lemma ProgressKeepsShape(t: Task, response: string)
    ensures var r := ProgressFor(t, response);
      SameShape(t, r.task) && EndsInLast(t, r) && EachSnapshotChanges(t, r.snapshots)
      && (Numbered(t) ==> Numbered(r.task))
      && (WellFormed(t) ==> WellFormed(r.task))
  {
    AdvanceFaithful(t, Progress(t, []), RuleChanges(ToLower(response)));
  }

  /** On a task of the fixed shape, step `id` is found exactly when it is one of 1..5. */
  lemma StepChangeOnWellFormed(t: Task, c: StepChange)
    requires Numbered(t)
    ensures Changes(t, c) <==> 1 <= c.stepId <= 5 && t.steps[c.stepId - 1].status != c.status
  {
    var k := FindStep(t.steps, c.stepId);
    FindStepFirst(t.steps, c.stepId);
    if 1 <= c.stepId <= 5 {
      assert t.steps[c.stepId - 1].id == c.stepId;
      assert k.Some? && k.value == c.stepId - 1;
    }
  }

  lemma AdvanceTwo(p: Progress, c1: StepChange, c2: StepChange)
    ensures Advance(p, [c1, c2]) == Step(Step(p, c1), c2)
  {
    assert [c1, c2][1..] == [c2];
    assert [c2][1..] == [];
    assert Advance(p, [c1, c2]) == Advance(Step(p, c1), [c2]);
    assert Advance(Step(p, c1), [c2]) == Advance(Step(Step(p, c1), c2), []);
  }

  lemma {:induction false} AdvanceConcat(p: Progress, a: seq<StepChange>, b: seq<StepChange>)
    ensures Advance(p, a + b) == Advance(Advance(p, a), b)
    decreases |a|
  {
    if a == [] {
      assert a + b == b;
    } else {
      assert (a + b)[1..] == a[1..] + b;
      AdvanceConcat(Step(p, a[0]), a[1..], b);
    }
  }

  lemma AdvanceOne(p: Progress, c: StepChange)
    ensures Advance(p, [c]) == Step(p, c)
  {
    assert [c][1..] == [];
    assert Advance(p, [c]) == Advance(Step(p, c), []);
  }

  /** Running the five rules one after the other, each firing or not, is the whole heuristic. */
  lemma RulesInOrder(p0: Progress, content: string, p1: Progress, p2: Progress, p3: Progress, p4: Progress, p5: Progress)
    requires p1 == Advance(p0, Fired(AnalysisHinted(content), [StepChange(1, Completed), StepChange(2, InProgress)]))
    requires p2 == Advance(p1, Fired(ExplorationHinted(content), [StepChange(2, Completed), StepChange(3, InProgress)]))
    requires p3 == Advance(p2, Fired(ChangeHinted(content), [StepChange(3, Completed), StepChange(4, InProgress)]))
    requires p4 == Advance(p3, Fired(TestHinted(content), [StepChange(4, Completed), StepChange(5, InProgress)]))
    requires p5 == Advance(p4, Fired(SummaryHinted(content), [StepChange(5, Completed)]))
    ensures p5 == Advance(p0, RuleChanges(content))
  {
    var r1 := Fired(AnalysisHinted(content), [StepChange(1, Completed), StepChange(2, InProgress)]);
    var r2 := Fired(ExplorationHinted(content), [StepChange(2, Completed), StepChange(3, InProgress)]);
    var r3 := Fired(ChangeHinted(content), [StepChange(3, Completed), StepChange(4, InProgress)]);
    var r4 := Fired(TestHinted(content), [StepChange(4, Completed), StepChange(5, InProgress)]);
    var r5 := Fired(SummaryHinted(content), [StepChange(5, Completed)]);
    AdvanceConcat(p0, r1 + r2 + r3 + r4, r5);
    AdvanceConcat(p0, r1 + r2 + r3, r4);
    AdvanceConcat(p0, r1 + r2, r3);
    AdvanceConcat(p0, r1, r2);
  }

  /** Statuses of the five steps, in order. */
  function Statuses(t: Task): seq<StepStatus> {
    seq(|t.steps|, i requires 0 <= i < |t.steps| => t.steps[i].status)
  }

  /** No rule keyword except those of the explore rule occurs. */
  predicate OnlyExploreKeywords(content: string) {
    && !Contains(content, Analyzing) && !Contains(content, Understanding)
    && !Contains(content, Creating) && !Contains(content, Modifying) && !Contains(content, Editing)
    && !Contains(content, TestingWord) && !Contains(content, Verified)
    && !Contains(content, Summary) && !Contains(content, NextSteps) && !Contains(content, CompletedWord)
  }

  /**
   * On a fresh task, a reply that only hits the explore rule completes step 2,
   * starts step 3, leaves step 1 in progress, and posts two `taskUpdated`.
   */
  lemma FreshTaskExploreReply(request: string, stamp: Stamp, response: string)
    requires var content := ToLower(response);
      (Contains(content, Exploring) || Contains(content, Found)) && OnlyExploreKeywords(content)
    ensures var t := CreatedTask(request, stamp);
      var r := ProgressFor(t, response);
      Statuses(r.task) == [InProgress, Completed, InProgress, Pending, Pending]
      && |r.snapshots| == 2
  {
    var t := CreatedTask(request, stamp);
    var content := ToLower(response);
    assert RuleChanges(content) == [StepChange(2, Completed), StepChange(3, InProgress)];
    var c1, c2 := StepChange(2, Completed), StepChange(3, InProgress);
    StepChangeOnWellFormed(t, c1);
    var t1 := Apply(t, c1);
    assert t1.steps == t.steps[1 := t.steps[1].(status := Completed)];
    assert WellFormed(t1);
    StepChangeOnWellFormed(t1, c2);
    var t2 := Apply(t1, c2);
    assert t2.steps == t1.steps[2 := t1.steps[2].(status := InProgress)];
    AdvanceTwo(Progress(t, []), c1, c2);
  }

  /**
   * The heuristic is not monotonic: on a fresh task a reply that only says
   * "testing" completes step 4 while steps 2 and 3 are still pending.
   */
  lemma TestingReplySkipsSteps(request: string, stamp: Stamp, response: string)
    requires var content := ToLower(response);
      && Contains(content, TestingWord)
      && !Contains(content, Analyzing) && !Contains(content, Understanding)
      && !Contains(content, Exploring) && !Contains(content, Found)
      && !Contains(content, Creating) && !Contains(content, Modifying) && !Contains(content, Editing)
      && !Contains(content, Summary) && !Contains(content, NextSteps) && !Contains(content, CompletedWord)
    ensures var r := ProgressFor(CreatedTask(request, stamp), response);
      Statuses(r.task) == [InProgress, Pending, Pending, Completed, InProgress]
  {
    var t := CreatedTask(request, stamp);
    var content := ToLower(response);
    assert RuleChanges(content) == [StepChange(4, Completed), StepChange(5, InProgress)];
    var c1, c2 := StepChange(4, Completed), StepChange(5, InProgress);
    StepChangeOnWellFormed(t, c1);
    var t1 := Apply(t, c1);
    assert t1.steps == t.steps[3 := t.steps[3].(status := Completed)];
    assert WellFormed(t1);
    StepChangeOnWellFormed(t1, c2);
    var t2 := Apply(t1, c2);
    assert t2.steps == t1.steps[4 := t1.steps[4].(status := InProgress)];
    AdvanceTwo(Progress(t, []), c1, c2);
  }

  // ---------------------------------------------------------------------------
  // One user turn, as a value: the specification of `handleUserMessage`.

  datatype HostState = HostState(history: seq<Message>, task: Option<Task>)

  /** The clock readings one turn may take: user entry, new task, reply entry, and a second error entry. */
  datatype TurnStamps = TurnStamps(user: Stamp, task: Stamp, reply: Stamp, failure: Stamp)

  /** The state after an operation and the messages it posted, in order. */
  datatype Outcome = Outcome(state: HostState, posted: seq<HostMessage>)

  function Entry(stamp: Stamp, role: Role, content: string): Message {
    Message(stamp.id, role, content, stamp.time)
  }

  /** What the engine reports when `updateTaskProgress` calls `toLowerCase` on a missing reply. */
  const MissingReplyFailure: string := "Cannot read properties of undefined (reading 'toLowerCase')"

  datatype ReplyEffect = ReplyEffect(entries: seq<Message>, posted: seq<HostMessage>, task: Task)

  /** The entry the `catch` block adds for an exception with message `reason`. */
  function Caught(stamp: Stamp, reason: string): Message {
    Entry(stamp, Error, "Error communicating with BECA: " + reason)
  }

  /** The entry for a reply with `success` false. */
  function Refused(stamp: Stamp, error: Option<string>): Message {
    Entry(stamp, Error, "Error: " + OrElse(error, "Unknown error occurred"))
  }

  /** The assistant entry for a reply with `success` true. */
  function Answer(stamp: Stamp, response: Option<string>): Message {
    Entry(stamp, Assistant, OrElse(response, "No response from BECA"))
  }

  /** Everything after the backend call: entries appended, messages posted, task left. */
  function AfterReply(task: Task, reply: Reply, st: TurnStamps): ReplyEffect {
    match reply
    case Threw(reason) =>
      ReplyEffect([Caught(st.reply, reason)], [Thinking(false), MessageAdded(Caught(st.reply, reason))], task)
    case Answered(success, response, error) =>
      if success then AnswerEffect(task, response, st)
      else ReplyEffect([Refused(st.reply, error)], [Thinking(false), MessageAdded(Refused(st.reply, error))], task)
  }

  /**
   * A reply with `success` true: the answer is logged, then the heuristic
   * runs; on a missing `response` it throws and the catch block logs an error.
   */
  function AnswerEffect(task: Task, response: Option<string>, st: TurnStamps): ReplyEffect {
    if response.None? then
      var a, e := Answer(st.reply, response), Caught(st.failure, MissingReplyFailure);
      ReplyEffect([a, e], [Thinking(false), MessageAdded(a), Thinking(false), MessageAdded(e)], task)
    else
      var p := ProgressFor(task, response.value);
      ReplyEffect([Answer(st.reply, response)], [Thinking(false), MessageAdded(Answer(st.reply, response))] + Updates(p.snapshots), p.task)
  }

  /** The task a turn works on: the current one, or the one its first message opens. */
  function TurnTask(h: HostState, text: string, st: TurnStamps): Task {
    if h.task.Some? then h.task.value else CreatedTask(text, st.task)
  }

  /** What a turn posts before the backend call: the user entry, `thinking`, and a new task if there was none. */
  function Opening(h: HostState, text: string, st: TurnStamps): seq<HostMessage> {
    [MessageAdded(Entry(st.user, User, text)), Thinking(true)]
      + (if h.task.Some? then [] else [TaskCreated(TurnTask(h, text, st))])
  }

  /** A non-blank turn: the user entry and the reply's entries appended, the opening then the reply's messages posted. */
  function Compose(h: HostState, text: string, st: TurnStamps, r: ReplyEffect): Outcome {
    Outcome(HostState(h.history + [Entry(st.user, User, text)] + r.entries, Some(r.task)),
            Opening(h, text, st) + r.posted)
  }

  /** `handleUserMessage(text)` with the backend answering `reply`. */
  function UserTurn(h: HostState, text: string, reply: Reply, st: TurnStamps): Outcome {
    if IsBlank(text) then Outcome(h, [])
    else Compose(h, text, st, AfterReply(TurnTask(h, text, st), reply, st))
  }

  /** Whatever the backend does, handling its outcome starts by hiding the thinking indicator. */
  lemma AfterReplyHidesThinking(task: Task, reply: Reply, st: TurnStamps)
    ensures var r := AfterReply(task, reply, st);
      |r.posted| >= 2 && r.posted[0] == Thinking(false) && 1 <= |r.entries| <= 2
  {
  }

  /** A non-blank turn is the opening followed by the handling of the reply. */
  lemma TurnParts(h: HostState, text: string, reply: Reply, st: TurnStamps)
    requires !IsBlank(text)
    ensures var r := AfterReply(TurnTask(h, text, st), reply, st);
      var out := UserTurn(h, text, reply, st);
      out.state.history == h.history + [Entry(st.user, User, text)] + r.entries
      && out.state.task == Some(r.task)
      && out.posted == Opening(h, text, st) + r.posted
  {
  }

  /** A blank message changes nothing and posts nothing. */
  lemma BlankMessageIgnored(h: HostState, text: string, reply: Reply, st: TurnStamps)
    requires forall k :: 0 <= k < |text| ==> IsWhitespace(text[k])
    ensures UserTurn(h, text, reply, st) == Outcome(h, [])
  {
    BlankIffAllWhitespace(text);
  }

  /** The reply carries a string, so the heuristic cannot throw. */
  predicate StringReply(reply: Reply) {
    reply.Answered? && reply.success ==> reply.response.Some?
  }

  /** With a string reply the heuristic cannot throw: one entry, the answer on success and an error otherwise. */
  lemma StringReplyEntry(task: Task, reply: Reply, st: TurnStamps)
    requires StringReply(reply)
    ensures var r := AfterReply(task, reply, st);
      |r.entries| == 1 && r.entries[0].role == (if reply.Answered? && reply.success then Assistant else Error)
  {
  }

  /**
   * With a string reply, a non-blank message appends exactly two entries:
   * the user's text, then the assistant's answer on success or an error entry.
   */
  lemma TurnAppendsTwoEntries(h: HostState, text: string, reply: Reply, st: TurnStamps)
    requires !IsBlank(text) && StringReply(reply)
    ensures var s := UserTurn(h, text, reply, st).state;
      |s.history| == |h.history| + 2 && s.history[..|h.history|] == h.history
      && s.history[|h.history|].role == User && s.history[|h.history|].content == text
      && s.history[|h.history| + 1].role == (if reply.Answered? && reply.success then Assistant else Error)
  {
    var r := AfterReply(TurnTask(h, text, st), reply, st);
    StringReplyEntry(TurnTask(h, text, st), reply, st);
    ComposeOneEntry(h, text, st, r);
    assert UserTurn(h, text, reply, st) == Compose(h, text, st, r);
  }

  lemma ComposeOneEntry(h: HostState, text: string, st: TurnStamps, r: ReplyEffect)
    requires |r.entries| == 1
    ensures var s := Compose(h, text, st, r).state;
      |s.history| == |h.history| + 2 && s.history[..|h.history|] == h.history
      && s.history[|h.history|].role == User && s.history[|h.history|].content == text
      && s.history[|h.history| + 1] == r.entries[0]
  {
    var user := Entry(st.user, User, text);
    assert Compose(h, text, st, r).state.history == h.history + [user, r.entries[0]];
  }

  /** The opening is the user entry, `thinking true`, then `taskCreated` when there was no task. */
  lemma OpeningShape(h: HostState, text: string, st: TurnStamps)
    ensures var o := Opening(h, text, st);
      |o| == (if h.task.None? then 3 else 2) && o[0].MessageAdded? && o[1] == Thinking(true)
      && (h.task.None? ==> o[2] == TaskCreated(CreatedTask(text, st.task)))
  {
  }

  /**
   * The indicator in the first `k + 1` posts: `thinking true` second,
   * `thinking false` at `k`, and no other thinking message before `k`.
   */
  predicate ThinkingBracket(out: seq<HostMessage>, k: nat) {
    1 < k < |out| && out[1] == Thinking(true) && out[k] == Thinking(false)
    && forall i :: 0 <= i < k && out[i].Thinking? ==> i == 1
  }

  /** `thinking true` is posted right after the user entry, and the first `thinking false` follows the task creation. */
  lemma TurnThinkingBrackets(h: HostState, text: string, reply: Reply, st: TurnStamps)
    requires !IsBlank(text)
    ensures ThinkingBracket(UserTurn(h, text, reply, st).posted, if h.task.None? then 3 else 2)
  {
    var opening := Opening(h, text, st);
    var r := AfterReply(TurnTask(h, text, st), reply, st);
    TurnParts(h, text, reply, st);
    AfterReplyHidesThinking(TurnTask(h, text, st), reply, st);
    OpeningShape(h, text, st);
    BracketOfConcat(opening, r.posted);
  }

  /** An opening whose only thinking message is `thinking true` at 1, followed by posts that start with `thinking false`. */
  lemma BracketOfConcat(opening: seq<HostMessage>, posted: seq<HostMessage>)
    requires |opening| >= 2 && opening[1] == Thinking(true)
    requires forall i :: 0 <= i < |opening| && i != 1 ==> !opening[i].Thinking?
    requires |posted| >= 1 && posted[0] == Thinking(false)
    ensures ThinkingBracket(opening + posted, |opening|)
  {
    var out := opening + posted;
    assert out[|opening|] == posted[0];
    forall i | 0 <= i < |opening|
      ensures out[i] == opening[i]
    {
    }
  }

  /** A later message never replaces or resets the current task: its id, title and step shape stay. */
  lemma TurnKeepsExistingTask(h: HostState, text: string, reply: Reply, st: TurnStamps)
    requires h.task.Some?
    ensures var s := UserTurn(h, text, reply, st).state;
      s.task.Some? && SameShape(h.task.value, s.task.value)
  {
    if !IsBlank(text) && reply.Answered? && reply.success && reply.response.Some? {
      ProgressKeepsShape(h.task.value, reply.response.value);
    }
  }

  /** The first non-blank message opens the task, posts it, and that task has the fixed shape. */
  lemma TurnCreatesTask(h: HostState, text: string, reply: Reply, st: TurnStamps)
    requires h.task.None? && !IsBlank(text)
    ensures var out := UserTurn(h, text, reply, st);
      out.posted[2] == TaskCreated(CreatedTask(text, st.task))
      && out.state.task.Some? && SameShape(CreatedTask(text, st.task), out.state.task.value)
      && WellFormed(out.state.task.value)
  {
    var t := CreatedTask(text, st.task);
    var r := AfterReply(t, reply, st);
    OpeningShape(h, text, st);
    assert (Opening(h, text, st) + r.posted)[2] == Opening(h, text, st)[2];
    if reply.Answered? && reply.success && reply.response.Some? {
      ProgressKeepsShape(t, reply.response.value);
    }
  }

  /** Replaying `taskUpdated` snapshots shows the last one and leaves the log alone. */
  lemma {:induction false} ReplayUpdates(u: UiState, snapshots: seq<Task>)
    ensures var r := Replay(u, Updates(snapshots));
      r.messages == u.messages
      && r.currentTask == (if snapshots == [] then u.currentTask else Some(snapshots[|snapshots| - 1]))
    decreases |snapshots|
  {
    if snapshots != [] {
      var ms := Updates(snapshots);
      assert ms[1..] == Updates(snapshots[1..]);
      assert Replay(u, ms) == Replay(Receive(u, TaskUpdated(snapshots[0])), ms[1..]);
      ReplayUpdates(Receive(u, TaskUpdated(snapshots[0])), snapshots[1..]);
    }
  }

  lemma ReplayPair(u: UiState, m1: HostMessage, m2: HostMessage)
    ensures Replay(u, [m1, m2]) == Receive(Receive(u, m1), m2)
  {
    assert [m1, m2][1..] == [m2];
    assert [m2][1..] == [];
    assert Replay(u, [m1, m2]) == Replay(Receive(u, m1), [m2]);
    assert Replay(Receive(u, m1), [m2]) == Replay(Receive(Receive(u, m1), m2), []);
  }

  /** Whatever follows the backend call keeps a mirroring webview in step with the host. */
  lemma AfterReplyMirrors(u: UiState, history: seq<Message>, task: Task, reply: Reply, st: TurnStamps)
    requires Mirrors(u, history, Some(task))
    ensures var r := AfterReply(task, reply, st);
      Mirrors(Replay(u, r.posted), history + r.entries, Some(r.task))
  {
    var r := AfterReply(task, reply, st);
    if reply.Answered? && reply.success && reply.response.Some? {
      var p := ProgressFor(task, reply.response.value);
      assert r.posted == [Thinking(false), MessageAdded(r.entries[0])] + Updates(p.snapshots);
      ReplayConcat(u, [Thinking(false), MessageAdded(r.entries[0])], Updates(p.snapshots));
      ReplayPair(u, Thinking(false), MessageAdded(r.entries[0]));
      ReplayUpdates(Replay(u, [Thinking(false), MessageAdded(r.entries[0])]), p.snapshots);
      ProgressKeepsShape(task, reply.response.value);
    } else if reply.Answered? && reply.success {
      var tail := [Thinking(false), MessageAdded(r.entries[1])];
      assert r.posted == [Thinking(false), MessageAdded(r.entries[0])] + tail;
      ReplayConcat(u, [Thinking(false), MessageAdded(r.entries[0])], tail);
      ReplayPair(u, Thinking(false), MessageAdded(r.entries[0]));
      ReplayPair(Replay(u, [Thinking(false), MessageAdded(r.entries[0])]), Thinking(false), MessageAdded(r.entries[1]));
      assert history + r.entries == history + [r.entries[0]] + [r.entries[1]];
    } else {
      ReplayPair(u, Thinking(false), MessageAdded(r.entries[0]));
    }
  }

  /** The opening brings a mirroring webview to the user entry and the turn's task. */
  lemma OpeningMirrors(u: UiState, h: HostState, text: string, st: TurnStamps)
    requires Mirrors(u, h.history, h.task)
    ensures Mirrors(Replay(u, Opening(h, text, st)), h.history + [Entry(st.user, User, text)], Some(TurnTask(h, text, st)))
  {
    var user := Entry(st.user, User, text);
    ReplayPair(u, MessageAdded(user), Thinking(true));
    if h.task.None? {
      ReplaySnoc(u, [MessageAdded(user), Thinking(true)], TaskCreated(TurnTask(h, text, st)));
    } else {
      assert Opening(h, text, st) == [MessageAdded(user), Thinking(true)];
    }
  }

  /** A webview that mirrored the host before a turn mirrors it after receiving what the turn posted. */
  lemma TurnMirrors(u: UiState, h: HostState, text: string, reply: Reply, st: TurnStamps)
    requires Mirrors(u, h.history, h.task)
    ensures var out := UserTurn(h, text, reply, st);
      Mirrors(Replay(u, out.posted), out.state.history, out.state.task)
  {
    if !IsBlank(text) {
      var opening := Opening(h, text, st);
      var r := AfterReply(TurnTask(h, text, st), reply, st);
      ReplayConcat(u, opening, r.posted);
      OpeningMirrors(u, h, text, st);
      AfterReplyMirrors(Replay(u, opening), h.history + [Entry(st.user, User, text)], TurnTask(h, text, st), reply, st);
    }
  }

  /** `startNewTask` with the answer to its confirmation dialog (None when dismissed). */
  function NewTaskOutcome(h: HostState, answer: Option<string>): Outcome {
    if |h.history| > 0 && answer != Some("Yes") then Outcome(h, [])
    else Outcome(HostState([], None), [FullUpdate([], None, [])])
  }

  /**
   * The entry `applyFileEdit` logs: a system entry when the write succeeded,
   * an error entry naming the reason when it failed.
   */
  function FileEditEntry(filePath: string, failure: Option<string>, stamp: Stamp): Message
  {
    if failure.None? then Entry(stamp, System, "\U{2705} Applied changes to " + filePath)
    else Entry(stamp, Error, "\U{274C} Failed to apply changes to " + filePath + ": " + failure.value)
  }

  /**
   * Starting a new task over a non-empty log without a "Yes" changes nothing;
   * otherwise it empties the log, drops the task, and its snapshot brings any
   * webview state, in sync or not, back in line.
   */
  lemma NewTaskResets(u: UiState, h: HostState, answer: Option<string>)
    ensures var out := NewTaskOutcome(h, answer);
      (|h.history| > 0 && answer != Some("Yes") ==> out == Outcome(h, []))
      && (|h.history| == 0 || answer == Some("Yes") ==>
            out.state == HostState([], None) && Mirrors(Replay(u, out.posted), [], None))
  {
  }

  // ---------------------------------------------------------------------------
  // The provider object.

  const NoWorkspace: string := "No workspace folder open"

  /** What of `ms` reaches the webview: everything while a view is attached, nothing otherwise. */
  function Delivered(attached: bool, ms: seq<HostMessage>): seq<HostMessage> {
    if attached then ms else []
  }

  class BecaProvider {
    var conversationHistory: seq<Message>
    var currentTask: Option<Task>
    /** `this._view` is set: messages reach a webview. */
    var viewAttached: bool
    /** Every message actually posted to the webview, in order. */
    ghost var sent: seq<HostMessage>

    /**
     * The current task has the fixed shape, nothing is posted before a view
     * exists, and a webview that received everything posted shows exactly the
     * host's log and task.
     */
    ghost predicate Valid()
      reads this
    {
      && (currentTask.Some? ==> Numbered(currentTask.value))
      && (!viewAttached ==> sent == [])
      && (viewAttached ==> Mirrors(Replay(Initial, sent), conversationHistory, currentTask))
    }

    /** `Valid` without the mirror: what holds just before a full-state snapshot is posted. */
    ghost predicate Shaped()
      reads this
    {
      && (currentTask.Some? ==> Numbered(currentTask.value))
      && (!viewAttached ==> sent == [])
    }

    function State(): HostState
      reads this
    {
      HostState(conversationHistory, currentTask)
    }

    constructor ()
      ensures Valid()
      ensures conversationHistory == [] && currentTask == None && !viewAttached && sent == []
    {
      conversationHistory := [];
      currentTask := None;
      viewAttached := false;
      sent := [];
    }

    /** `sendToWebview`: posts only while a view is attached. */
    method SendToWebview(m: HostMessage)
      modifies this`sent
      ensures sent == old(sent) + Delivered(viewAttached, [m])
    {
      if viewAttached {
        sent := sent + [m];
      }
    }

    /** `resolveWebviewView` without the HTML: attach the view and send the full state. */
    method ResolveWebviewView()
      requires Valid()
      modifies this
      ensures Valid() && viewAttached
      ensures State() == old(State())
      ensures sent == old(sent) + [FullUpdate(conversationHistory, currentTask, [])]
    {
      viewAttached := true;
      UpdateWebview();
    }

    /** `updateWebview`: the full-state snapshot with no explored files. */
    method UpdateWebview()
      requires Shaped()
      modifies this`sent
      ensures Valid()
      ensures sent == old(sent) + Delivered(viewAttached, [FullUpdate(conversationHistory, currentTask, [])])
    {
      SendToWebview(FullUpdate(conversationHistory, currentTask, []));
      if viewAttached {
        ReplaySnoc(Initial, old(sent), FullUpdate(conversationHistory, currentTask, []));
      }
    }

    /** `addMessage`: append to the log and post it. */
    method AddMessage(m: Message)
      requires Valid()
      modifies this`conversationHistory, this`sent
      ensures Valid()
      ensures conversationHistory == old(conversationHistory) + [m]
      ensures sent == old(sent) + Delivered(viewAttached, [MessageAdded(m)])
    {
      conversationHistory := conversationHistory + [m];
      SendToWebview(MessageAdded(m));
      if viewAttached {
        ReplaySnoc(Initial, old(sent), MessageAdded(m));
      }
    }

    /** Post a `thinking` flag; it shows nothing of the log or task, so the mirror holds. */
    method SendThinking(value: bool)
      requires Valid()
      modifies this`sent
      ensures Valid()
      ensures sent == old(sent) + Delivered(viewAttached, [Thinking(value)])
    {
      SendToWebview(Thinking(value));
      if viewAttached {
        ReplaySnoc(Initial, old(sent), Thinking(value));
      }
    }

    /** `createTask`: open the fixed five-step task and post it. */
    method CreateTask(request: string, stamp: Stamp)
      requires Valid()
      modifies this`currentTask, this`sent
      ensures Valid()
      ensures currentTask == Some(CreatedTask(request, stamp))
      ensures sent == old(sent) + Delivered(viewAttached, [TaskCreated(CreatedTask(request, stamp))])
    {
      currentTask := Some(CreatedTask(request, stamp));
      SendToWebview(TaskCreated(currentTask.value));
      if viewAttached {
        ReplaySnoc(Initial, old(sent), TaskCreated(currentTask.value));
      }
    }

    /** `updateTaskStep`: one `taskUpdated` exactly when the step exists and its status differs. */
    method UpdateTaskStep(stepId: int, status: StepStatus)
      requires Valid()
      modifies this`currentTask, this`sent
      ensures Valid()
      ensures old(currentTask).None? ==> currentTask == None && sent == old(sent)
      ensures old(currentTask).Some? ==>
        var p := Step(Progress(old(currentTask).value, []), StepChange(stepId, status));
        currentTask == Some(p.task) && sent == old(sent) + Delivered(viewAttached, Updates(p.snapshots))
    {
      if currentTask.None? {
        return;
      }
      var t := currentTask.value;
      var k := FindStep(t.steps, stepId);
      if k.Some? && t.steps[k.value].status != status {
        var t' := t.(steps := t.steps[k.value := t.steps[k.value].(status := status)]);
        currentTask := Some(t');
        SendToWebview(TaskUpdated(t'));
        assert Updates([t']) == [TaskUpdated(t')];
        if viewAttached {
          ReplaySnoc(Initial, old(sent), TaskUpdated(t'));
        }
      }
    }

    /** `updateTaskProgress`: the five keyword rules, in order, on the lower-cased reply. */
    method UpdateTaskProgress(responseContent: string)
      requires Valid()
      modifies this`currentTask, this`sent
      ensures Valid()
      ensures old(currentTask).None? ==> currentTask == None && sent == old(sent)
      ensures old(currentTask).Some? ==>
        var p := ProgressFor(old(currentTask).value, responseContent);
        currentTask == Some(p.task) && sent == old(sent) + Delivered(viewAttached, Updates(p.snapshots))
    {
      if currentTask.None? {
        return;
      }
      ghost var base := sent;
      ghost var p0 := Progress(currentTask.value, []);
      var content := ToLower(responseContent);
      ghost var p1 := FireRule(base, p0, AnalysisHinted(content), [StepChange(1, Completed), StepChange(2, InProgress)]);
      ghost var p2 := FireRule(base, p1, ExplorationHinted(content), [StepChange(2, Completed), StepChange(3, InProgress)]);
      ghost var p3 := FireRule(base, p2, ChangeHinted(content), [StepChange(3, Completed), StepChange(4, InProgress)]);
      ghost var p4 := FireRule(base, p3, TestHinted(content), [StepChange(4, Completed), StepChange(5, InProgress)]);
      ghost var p5 := FireRule(base, p4, SummaryHinted(content), [StepChange(5, Completed)]);
      RulesInOrder(p0, content, p1, p2, p3, p4, p5);
    }

    /** One rule of `updateTaskProgress`: when its test holds, its one or two step updates in order. */
    method FireRule(ghost base: seq<HostMessage>, ghost p: Progress, hit: bool, changes: seq<StepChange>)
      returns (ghost q: Progress)
      requires 1 <= |changes| <= 2
      requires Valid() && currentTask == Some(p.task) && sent == base + Delivered(viewAttached, Updates(p.snapshots))
      modifies this`currentTask, this`sent
      ensures Valid() && currentTask == Some(q.task) && sent == base + Delivered(viewAttached, Updates(q.snapshots))
      ensures q == Advance(p, Fired(hit, changes))
    {
      q := p;
      if hit {
        q := UpdateTaskStepFrom(base, q, changes[0]);
        if |changes| == 2 {
          q := UpdateTaskStepFrom(base, q, changes[1]);
          AdvanceTwo(p, changes[0], changes[1]);
          assert changes == [changes[0], changes[1]];
        } else {
          AdvanceOne(p, changes[0]);
          assert changes == [changes[0]];
        }
      }
    }

    /** `updateTaskStep` as one more step of a run of the heuristic that has reached `p`. */
    method UpdateTaskStepFrom(ghost base: seq<HostMessage>, ghost p: Progress, c: StepChange) returns (ghost q: Progress)
      requires Valid() && currentTask == Some(p.task) && sent == base + Delivered(viewAttached, Updates(p.snapshots))
      modifies this`currentTask, this`sent
      ensures Valid() && q == Step(p, c)
      ensures currentTask == Some(q.task) && sent == base + Delivered(viewAttached, Updates(q.snapshots))
    {
      UpdateTaskStep(c.stepId, c.status);
      q := Step(p, c);
      StepSnapshots(p, c);
      DeliveredConcat(viewAttached, base, Updates(p.snapshots), Updates(Step(Progress(p.task, []), c).snapshots));
      UpdatesSnoc(p.snapshots, Step(Progress(p.task, []), c).snapshots);
    }

    /** `handleUserMessage(text)` with the backend answering `reply`. */
    method HandleUserMessage(text: string, reply: Reply, st: TurnStamps)
      requires Valid()
      modifies this`conversationHistory, this`currentTask, this`sent
      ensures Valid()
      ensures State() == UserTurn(old(State()), text, reply, st).state
      ensures sent == old(sent) + Delivered(viewAttached, UserTurn(old(State()), text, reply, st).posted)
    {
      if IsBlank(text) {
        return;
      }
      Converse(text, reply, st);
      TurnParts(old(State()), text, reply, st);
    }

    /** A non-blank message: the opening, the backend call, then the handling of its reply. */
    method Converse(text: string, reply: Reply, st: TurnStamps)
      requires Valid()
      modifies this`conversationHistory, this`currentTask, this`sent
      ensures Valid()
      ensures var r := AfterReply(TurnTask(old(State()), text, st), reply, st);
        conversationHistory == old(conversationHistory) + [Entry(st.user, User, text)] + r.entries
        && currentTask == Some(r.task)
        && sent == old(sent) + Delivered(viewAttached, Opening(old(State()), text, st) + r.posted)
    {
      ghost var h := State();
      OpenTurn(text, st);
      ReceiveReply(TurnTask(h, text, st), reply, st);
      DeliveredConcat(viewAttached, old(sent), Opening(h, text, st), AfterReply(TurnTask(h, text, st), reply, st).posted);
    }

    /** The part of `handleUserMessage` before the backend call. */
    method OpenTurn(text: string, st: TurnStamps)
      requires Valid()
      modifies this`conversationHistory, this`currentTask, this`sent
      ensures Valid()
      ensures conversationHistory == old(conversationHistory) + [Entry(st.user, User, text)]
      ensures currentTask == Some(TurnTask(old(State()), text, st))
      ensures sent == old(sent) + Delivered(viewAttached, Opening(old(State()), text, st))
    {
      AddMessage(Entry(st.user, User, text));
      SendThinking(true);
      if currentTask.None? {
        CreateTask(text, st.task);
      }
    }

    /** Everything `handleUserMessage` does once the backend call for `task` returns or throws. */
    method ReceiveReply(ghost task: Task, reply: Reply, st: TurnStamps)
      requires Valid() && currentTask == Some(task)
      modifies this`conversationHistory, this`currentTask, this`sent
      ensures Valid()
      ensures var r := AfterReply(task, reply, st);
        conversationHistory == old(conversationHistory) + r.entries
        && currentTask == Some(r.task)
        && sent == old(sent) + Delivered(viewAttached, r.posted)
    {
      match reply {
        case Threw(reason) =>
          Catch(Caught(st.reply, reason));
        case Answered(success, response, error) =>
          if success {
            ReceiveAnswer(task, response, st);
          } else {
            ghost var s0 := sent;
            SendThinking(false);
            var e := Refused(st.reply, error);
            AddMessage(e);
            DeliveredConcat(viewAttached, s0, [Thinking(false)], [MessageAdded(e)]);
            assert [Thinking(false)] + [MessageAdded(e)] == [Thinking(false), MessageAdded(e)];
          }
      }
    }

    /** The `success` branch of `handleUserMessage`, and its `catch` when the heuristic throws. */
    method ReceiveAnswer(ghost task: Task, response: Option<string>, st: TurnStamps)
      requires Valid() && currentTask == Some(task)
      modifies this`conversationHistory, this`currentTask, this`sent
      ensures Valid()
      ensures var r := AnswerEffect(task, response, st);
        conversationHistory == old(conversationHistory) + r.entries
        && currentTask == Some(r.task)
        && sent == old(sent) + Delivered(viewAttached, r.posted)
    {
      ghost var s0 := sent;
      SendThinking(false);
      var a := Answer(st.reply, response);
      AddMessage(a);
      DeliveredConcat(viewAttached, s0, [Thinking(false)], [MessageAdded(a)]);
      assert [Thinking(false)] + [MessageAdded(a)] == [Thinking(false), MessageAdded(a)];
      if response.None? {
        // `updateTaskProgress(undefined)` throws at `toLowerCase`; the catch block reports it.
        var e := Caught(st.failure, MissingReplyFailure);
        Catch(e);
        DeliveredConcat(viewAttached, s0, [Thinking(false), MessageAdded(a)], [Thinking(false), MessageAdded(e)]);
        assert conversationHistory == old(conversationHistory) + [a, e];
        assert [Thinking(false), MessageAdded(a)] + [Thinking(false), MessageAdded(e)]
            == [Thinking(false), MessageAdded(a), Thinking(false), MessageAdded(e)];
      } else {
        UpdateTaskProgress(response.value);
        DeliveredConcat(viewAttached, s0, [Thinking(false), MessageAdded(a)],
                        Updates(ProgressFor(task, response.value).snapshots));
      }
    }

    /** The `catch` block of `handleUserMessage`: hide the indicator and log the error entry. */
    method Catch(entry: Message)
      requires Valid()
      modifies this`conversationHistory, this`sent
      ensures Valid()
      ensures conversationHistory == old(conversationHistory) + [entry]
      ensures sent == old(sent) + Delivered(viewAttached, [Thinking(false), MessageAdded(entry)])
    {
      SendThinking(false);
      AddMessage(entry);
    }

    /** `startNewTask`, with the answer the confirmation dialog returned. */
    method StartNewTask(answer: Option<string>)
      requires Valid()
      modifies this`conversationHistory, this`currentTask, this`sent
      ensures Valid()
      ensures State() == NewTaskOutcome(old(State()), answer).state
      ensures sent == old(sent) + Delivered(viewAttached, NewTaskOutcome(old(State()), answer).posted)
    {
      if |conversationHistory| > 0 && answer != Some("Yes") {
        return;
      }
      currentTask := None;
      conversationHistory := [];
      UpdateWebview();
    }

    /** `applyFileEdit`, with `failure` the reason the write failed (None when it succeeded). */
    method ApplyFileEdit(filePath: string, failure: Option<string>, stamp: Stamp)
      requires Valid()
      modifies this`conversationHistory, this`sent
      ensures Valid() && currentTask == old(currentTask)
      ensures failure.None? ==>
        conversationHistory == old(conversationHistory) + [Entry(stamp, System, "\U{2705} Applied changes to " + filePath)]
      ensures failure.Some? ==>
        conversationHistory == old(conversationHistory)
          + [Entry(stamp, Error, "\U{274C} Failed to apply changes to " + filePath + ": " + failure.value)]
      ensures conversationHistory == old(conversationHistory) + [FileEditEntry(filePath, failure, stamp)]
      ensures sent == old(sent) + Delivered(viewAttached, [MessageAdded(FileEditEntry(filePath, failure, stamp))])
    {
      AddMessage(FileEditEntry(filePath, failure, stamp));
    }

    /** `handleMessage`: route one webview request. */
    method HandleMessage(request: WebviewRequest, reply: Reply, st: TurnStamps, answer: Option<string>,
                         writeFailure: Option<string>, editStamp: Stamp)
      requires Valid()
      modifies this`conversationHistory, this`currentTask, this`sent
      ensures Valid()
      ensures request.SendMessage? ==>
        State() == UserTurn(old(State()), request.text, reply, st).state
        && sent == old(sent) + Delivered(viewAttached, UserTurn(old(State()), request.text, reply, st).posted)
      ensures request.NewTask? ==>
        State() == NewTaskOutcome(old(State()), answer).state
        && sent == old(sent) + Delivered(viewAttached, NewTaskOutcome(old(State()), answer).posted)
      ensures request.ApproveEdit? ==>
        currentTask == old(currentTask)
        && conversationHistory == old(conversationHistory) + [FileEditEntry(request.filePath, writeFailure, editStamp)]
        && sent == old(sent) + Delivered(viewAttached, [MessageAdded(FileEditEntry(request.filePath, writeFailure, editStamp))])
      ensures request.RejectEdit? || request.OtherRequest? ==> State() == old(State()) && sent == old(sent)
    {
      match request {
        case SendMessage(text) => HandleUserMessage(text, reply, st);
        case NewTask => StartNewTask(answer);
        case ApproveEdit(filePath, _) => ApplyFileEdit(filePath, writeFailure, editStamp);
        case RejectEdit(_) =>
        case OtherRequest(_) =>
      }
    }
  }

  /** A step adds to the snapshots already posted exactly what it posts on its own. */
  lemma StepSnapshots(p: Progress, c: StepChange)
    ensures Step(p, c).task == Step(Progress(p.task, []), c).task
    ensures Step(p, c).snapshots == p.snapshots + Step(Progress(p.task, []), c).snapshots
  {
    if !Changes(p.task, c) {
      assert p.snapshots + [] == p.snapshots;
    }
  }

  lemma DeliveredConcat(attached: bool, base: seq<HostMessage>, a: seq<HostMessage>, b: seq<HostMessage>)
    ensures base + Delivered(attached, a) + Delivered(attached, b) == base + Delivered(attached, a + b)
  {
    if !attached {
      assert base + [] + [] == base;
    }
  }

  lemma {:induction false} UpdatesSnoc(a: seq<Task>, b: seq<Task>)
    ensures Updates(a + b) == Updates(a) + Updates(b)
    decreases |a|
  {
    if a == [] {
      assert a + b == b;
    } else {
      assert (a + b)[1..] == a[1..] + b;
      UpdatesSnoc(a[1..], b);
    }
  }
}

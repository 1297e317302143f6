/**
 * The chat webview's state and its reaction to the host's messages
 * (the `handleMessage` listener), plus the two user actions that post to
 * the host (`sendMessage`, `newTask`).
 */
module WebviewApp {
  import opened Options
  import opened JsText
  import opened WebviewTypes

  datatype UiState = UiState(messages: seq<Message>, currentTask: Option<Task>, inputValue: string, isThinking: bool)

  /** The state a freshly mounted webview starts from. */
  const Initial: UiState := UiState([], None, "", false)

  /** The webview shows exactly the host's conversation and task. */
  predicate Mirrors(u: UiState, history: seq<Message>, task: Option<Task>) {
    u.messages == history && u.currentTask == task
  }

  /** One host message applied to the webview state. No message touches the input box. */
  function Receive(u: UiState, m: HostMessage): (r: UiState)
    ensures r.inputValue == u.inputValue
    ensures !m.Thinking? ==> r.isThinking == u.isThinking
    ensures !m.FullUpdate? && !m.MessageAdded? ==> r.messages == u.messages
  {
    match m
    case MessageAdded(message) => u.(messages := u.messages + [message])
    case TaskCreated(task) => u.(currentTask := Some(task))
    case TaskUpdated(task) => u.(currentTask := Some(task))
    case Thinking(value) => u.(isThinking := value)
    case FullUpdate(history, task, _) => u.(messages := history, currentTask := task)
    case Unrecognised(_) => u
  }

  /** The webview state after it has received `ms` in order. */
  function Replay(u: UiState, ms: seq<HostMessage>): UiState
    decreases |ms|
  {
    if ms == [] then u else Replay(Receive(u, ms[0]), ms[1..])
  }

  /** Delivery is in order, so replaying two batches is replaying their concatenation. */
  lemma {:induction false} ReplayConcat(u: UiState, a: seq<HostMessage>, b: seq<HostMessage>)
    ensures Replay(u, a + b) == Replay(Replay(u, a), b)
    decreases |a|
  {
    if a != [] {
      assert (a + b)[1..] == a[1..] + b;
      ReplayConcat(Receive(u, a[0]), a[1..], b);
    } else {
      assert a + b == b;
    }
  }

  /** Receiving one more message after a batch. */
  lemma ReplaySnoc(u: UiState, ms: seq<HostMessage>, m: HostMessage)
    ensures Replay(u, ms + [m]) == Receive(Replay(u, ms), m)
  {
    ReplayConcat(u, ms, [m]);
  }

  function AddedAll(entries: seq<Message>): (ms: seq<HostMessage>)
    ensures |ms| == |entries| && forall k :: 0 <= k < |ms| ==> ms[k] == MessageAdded(entries[k])
  {
    if entries == [] then [] else [MessageAdded(entries[0])] + AddedAll(entries[1..])
  }

  /**
   * Replaying one `messageAdded` per history entry appends exactly that
   * history to what the webview shows and changes nothing else shown.
   */
  lemma {:induction false} ReplayAddedAppends(u: UiState, entries: seq<Message>)
    ensures Replay(u, AddedAll(entries)) == u.(messages := u.messages + entries)
    decreases |entries|
  {
    if entries != [] {
      var u' := Receive(u, MessageAdded(entries[0]));
      ReplayAddedAppends(u', entries[1..]);
      assert u.messages + [entries[0]] + entries[1..] == u.messages + entries;
    }
  }

  /** From an empty webview, the `messageAdded` stream rebuilds the host's log exactly. */
  lemma ReplayAddedRebuildsHistory(history: seq<Message>)
    ensures Replay(Initial, AddedAll(history)).messages == history
  {
    ReplayAddedAppends(Initial, history);
  }

  /**
   * A `fullUpdate` resynchronises any webview state, however many
   * incremental messages it missed, and leaves the thinking flag and input alone.
   */
  lemma FullUpdateResyncs(u: UiState, history: seq<Message>, task: Option<Task>, explored: seq<string>)
    ensures var r := Replay(u, [FullUpdate(history, task, explored)]);
      Mirrors(r, history, task) && r.isThinking == u.isThinking && r.inputValue == u.inputValue
  {
  }

  /** An envelope of unknown type changes nothing. */
  lemma UnrecognisedIsIgnored(u: UiState, kind: string)
    ensures Replay(u, [Unrecognised(kind)]) == u
  {
  }

  /** What a user action posts to the host and the state it leaves. */
  datatype Effect = Effect(posted: Option<WebviewRequest>, state: UiState)

  /**
   * `sendMessage`: blank input posts nothing and keeps the input; otherwise
   * the untrimmed input is posted and the input box is cleared.
   */
  function SendInput(u: UiState): (e: Effect)
    ensures e.posted.Some? <==> !IsBlank(u.inputValue)
    ensures e.posted.Some? ==> e.posted.value == SendMessage(u.inputValue) && e.state == u.(inputValue := "")
    ensures e.posted.None? ==> e.state == u
  {
    if IsBlank(u.inputValue) then Effect(None, u)
    else Effect(Some(SendMessage(u.inputValue)), u.(inputValue := ""))
  }

  /** Enter without Shift sends; every other key does nothing here. */
  function KeyPress(u: UiState, key: string, shift: bool): (e: Effect)
    ensures e.posted.Some? ==> key == "Enter" && !shift && e.posted == Some(SendMessage(u.inputValue))
    ensures key == "Enter" && !shift && !IsBlank(u.inputValue) ==>
      e.posted == Some(SendMessage(u.inputValue)) && e.state == u.(inputValue := "")
    ensures key == "Enter" && !shift && IsBlank(u.inputValue) ==> e.posted.None? && e.state == u
    ensures !(key == "Enter" && !shift) ==> e.posted.None? && e.state == u
  {
    if key == "Enter" && !shift then SendInput(u) else Effect(None, u)
  }

  /** `newTask`: posts a `newTask` request only when the user confirms; the state is left as it was. */
  function RequestNewTask(u: UiState, confirmed: bool): (e: Effect)
    ensures e.state == u
    ensures e.posted.Some? <==> confirmed
    ensures e.posted.Some? ==> e.posted.value == NewTask
  {
    Effect(if confirmed then Some(NewTask) else None, u)
  }
}

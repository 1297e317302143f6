/** The records and messages exchanged between the extension host and the chat webview. */
module WebviewTypes {
  import opened Options

  datatype Role = User | Assistant | System | Error

  /** One conversation entry; `id` and `timestamp` are opaque clock readings. */
  datatype Message = Message(id: string, role: Role, content: string, timestamp: string)

  datatype StepStatus = Pending | InProgress | Completed | Failed

  /** The five step titles; `createTask` is the only place steps are made, so no other title occurs. */
  datatype StepTitle = AnalyzeRequirements | ExploreCodebase | MakeChanges | TestChanges | Summarize

  /** The text the webview shows for a step title. */
  function TitleText(t: StepTitle): string {
    match t
    case AnalyzeRequirements => "Analyze requirements"
    case ExploreCodebase => "Explore codebase"
    case MakeChanges => "Make necessary changes"
    case TestChanges => "Test changes"
    case Summarize => "Summarize and provide next steps"
  }

  datatype TaskStep = TaskStep(id: int, title: StepTitle, status: StepStatus)

  datatype TaskStatus = TaskActive | TaskCompleted | TaskFailed

  datatype Task = Task(id: string, title: string, steps: seq<TaskStep>, createdAt: string, status: TaskStatus)

  /** Host to webview. `Unrecognised` is any envelope whose `type` the webview does not know. */
  datatype HostMessage =
    | MessageAdded(message: Message)
    | TaskCreated(task: Task)
    | TaskUpdated(task: Task)
    | Thinking(value: bool)
    | FullUpdate(conversationHistory: seq<Message>, currentTask: Option<Task>, exploredFiles: seq<string>)
    | Unrecognised(kind: string)

  /** Webview to host. `OtherRequest` is any envelope whose `type` the host does not handle. */
  datatype WebviewRequest =
    | SendMessage(text: string)
    | NewTask
    | ApproveEdit(filePath: string, content: string)
    | RejectEdit(filePath: string)
    | OtherRequest(kind: string)
}

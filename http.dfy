/** The JSON envelope every handler answers with,
    `{success, message?, data?, errors?, error?}`, and the payloads that go
    in `data`. Timestamps other than message times and generated document
    fields other than ids are not part of the views. */
module Http {
  import opened Wrappers
  import opened Models

  /** The user as the API shows it: there is no password hash field. */
  datatype UserView = UserView(id: Id, email: string, name: Option<string>)

  datatype ProjectView = ProjectView(
    id: Id,
    name: string,
    description: string,
    systemPrompt: string,
    fileIds: seq<string>)

  datatype ChatView = ChatView(id: Id, title: string, projectId: Id, messages: seq<Message>)

  /** A chat in a list: messages are excluded, the parent project's name is
      joined in. */
  datatype ChatSummary = ChatSummary(
    id: Id,
    title: string,
    projectId: Id,
    projectName: string,
    messageCount: nat)

  datatype ProjectRef = ProjectRef(id: Id, name: string, systemPrompt: string)

  datatype ChatDetail = ChatDetail(id: Id, title: string, project: ProjectRef, messages: seq<Message>)

  /** File metadata as returned to the client; `createdAtMs` is the provider's
      `created_at` (seconds) times 1000. */
  datatype FileView = FileView(id: string, filename: string, bytes: nat, createdAtMs: nat, purpose: string)

  /** `pages` is None when `Math.ceil(total / limit)` is not a finite number
      (limit 0), which JSON serialises as null. */
  datatype PageInfo = PageInfo(page: int, limit: int, total: nat, pages: Option<int>)

  datatype Payload =
    | Session(token: Claims, user: UserView)
    | Profile(user: UserView)
    | ProjectData(project: ProjectView)
    | ProjectPage(projects: seq<ProjectView>, pagination: PageInfo)
    | ChatCreated(created: ChatView)
    | ChatPage(chats: seq<ChatSummary>, pagination: PageInfo)
    | ChatData(detail: ChatDetail)
    | Exchange(userMessage: Message, assistantMessage: Message)
    | FileData(file: FileView)
    | FileList(files: seq<FileView>)

  datatype Body = Body(
    success: bool,
    message: Option<string>,
    data: Option<Payload>,
    errors: Option<seq<string>>,
    error: Option<string>)

  datatype Response = Response(status: nat, body: Body)

  /** `res.status(status).json({success: false, message})`. */
  function Failure(status: nat, message: string): Response {
    Response(status, Body(false, Some(message), None, None, None))
  }

  /** `res.status(status).json({success: true, message?, data?})`. */
  function Success(status: nat, message: Option<string>, data: Option<Payload>): Response {
    Response(status, Body(true, message, data, None, None))
  }

  /** `res.status(status).json({success: false, message, error})`. */
  function FailureWithError(status: nat, message: string, error: string): Response {
    Response(status, Body(false, Some(message), None, None, Some(error)))
  }

  /** The `code` property of a thrown error: absent, a string such as
      `'LIMIT_FILE_SIZE'`, or a number such as the driver's `11000`. */
  datatype ErrorCode = NoCode | NamedCode(name: string) | NumericCode(value: int)

  /** An error that reaches the application's error handler. `errors` holds
      the messages of a validation error's failed paths. */
  datatype AppError = AppError(name: string, message: string, code: ErrorCode, errors: seq<string>)
}

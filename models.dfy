/** The documents of the three collections (User, Project, and Chat with its
    embedded Message), and document construction as the schemas define it:
    the `trim` and `lowercase` setters, the defaults, and the `required` and
    `enum` validators that run when a document is saved. */
module Models {
  import opened Wrappers
  import opened Text

  /** A document id. In this model an id is the position of the document in
      its collection, so ids are never reused. */
  type Id = nat

  datatype Role = UserRole | AssistantRole | SystemRole

  /** The string the schema stores for a role. */
  function RoleName(r: Role): string {
    match r
    case UserRole => "user"
    case AssistantRole => "assistant"
    case SystemRole => "system"
  }

  /** The `enum` validator on `role`: a string is accepted exactly when it is
      the name of one of the three roles. */
  function ParseRole(s: string): (r: Option<Role>)
    ensures r.Some? ==> RoleName(r.value) == s
  {
    if s == "user" then Some(UserRole)
    else if s == "assistant" then Some(AssistantRole)
    else if s == "system" then Some(SystemRole)
    else None
  }

  /** Every role name passes the enum validator and names that role again. */
  lemma ParseRoleName(r: Role)
    ensures ParseRole(RoleName(r)) == Some(r)
  {
  }

  /** A string that is not one of the three names is refused. */
  lemma ParseRoleRejects(s: string)
    requires s != "user" && s != "assistant" && s != "system"
    ensures ParseRole(s) == None
  {
  }

  datatype Message = Message(role: Role, content: string, timestamp: nat)

  /** `project` and `owner` are references; `updatedAt` is the logical time
      of the last save (the schema's `timestamps` option). */
  datatype Chat = Chat(
    title: string,
    project: Id,
    owner: Id,
    messages: seq<Message>,
    isActive: bool,
    updatedAt: nat)

  datatype Project = Project(
    name: string,
    description: string,
    owner: Id,
    systemPrompt: string,
    fileIds: seq<string>,
    isActive: bool,
    updatedAt: nat)

  datatype User = User(email: string, passwordHash: string, name: Option<string>)

  /** The identity a token carries: the user's id and email. */
  datatype Claims = Claims(id: Id, email: string)

  const DefaultSystemPrompt: string := "You are a helpful AI assistant."

  /** A failed validation: the paths whose validator refused the value, in
      schema order. */
  datatype ValidationError = ValidationError(paths: seq<string>)

  /** A message document: `role` must pass the enum validator and `content`
      is required (a required string refuses the empty string); the
      timestamp defaults to the current time. */
  function BuildMessage(role: string, content: string, now: nat): (r: Result<Message, ValidationError>)
    ensures r.Ok? <==> ParseRole(role).Some? && content != ""
    ensures r.Ok? ==> RoleName(r.value.role) == role && r.value.content == content && r.value.timestamp == now
    ensures r.Err? ==> |r.error.paths| > 0
  {
    var failed := (if ParseRole(role).None? then ["role"] else []) + (if content == "" then ["content"] else []);
    if failed == [] then Ok(Message(ParseRole(role).value, content, now)) else Err(ValidationError(failed))
  }

  /** A chat document: the title is trimmed and then required; the message
      list starts empty and `isActive` defaults to true. */
  function BuildChat(title: string, project: Id, owner: Id, now: nat): (r: Result<Chat, ValidationError>)
    ensures r.Ok? <==> Trim(title) != ""
    ensures r.Ok? ==> r.value.title == Trim(title) && Trimmed(r.value.title)
    ensures r.Ok? ==> r.value.project == project && r.value.owner == owner
    ensures r.Ok? ==> r.value.messages == [] && r.value.isActive && r.value.updatedAt == now
  {
    TrimIdempotent(title);
    var t := Trim(title);
    if t == "" then Err(ValidationError(["title"]))
    else Ok(Chat(t, project, owner, [], true, now))
  }

  /** A project document: the name is trimmed and then required, the
      description is trimmed, `systemPrompt` takes the schema default when it
      is not given, `fileIds` starts empty and `isActive` defaults to true. */
  function BuildProject(name: string, description: string, owner: Id, systemPrompt: Option<string>, now: nat)
    : (r: Result<Project, ValidationError>)
    ensures r.Ok? <==> Trim(name) != ""
    ensures r.Ok? ==> r.value.name == Trim(name) && Trimmed(r.value.name)
    ensures r.Ok? ==> r.value.description == Trim(description)
    ensures r.Ok? ==> r.value.systemPrompt == (if systemPrompt.Some? then systemPrompt.value else DefaultSystemPrompt)
    ensures r.Ok? ==> r.value.owner == owner && r.value.fileIds == [] && r.value.isActive && r.value.updatedAt == now
  {
    TrimIdempotent(name);
    var n := Trim(name);
    if n == "" then Err(ValidationError(["name"]))
    else
      var prompt := if systemPrompt.Some? then systemPrompt.value else DefaultSystemPrompt;
      Ok(Project(n, Trim(description), owner, prompt, [], true, now))
  }

  /** The stored form of an email: lower-cased and trimmed. */
  function NormalizeEmail(email: string): (e: string)
    ensures Trimmed(e) && |e| <= |email|
    ensures e == "" <==> forall i :: 0 <= i < |email| ==> IsSpace(email[i])
    ensures forall i :: 0 <= i < |e| ==> !('A' <= e[i] <= 'Z')
  {
    LowerSpacing(email);
    ToLowerIdempotent(email);
    Trim(ToLower(email))
  }

  /** Normalising twice is normalising once, so a stored email is its own
      normal form and a lookup with it finds the same user. */
  lemma NormalizeEmailIdempotent(email: string)
    ensures NormalizeEmail(NormalizeEmail(email)) == NormalizeEmail(email)
  {
    var lower := ToLower(email);
    TrimLowerCommute(Trim(lower));
    ToLowerIdempotent(email);
    TrimLowerCommute(lower);
    TrimIdempotent(lower);
  }

  /** A user document: the email is normalised and then required (and unique,
      which the store enforces), the password hash is required, and the
      optional name is trimmed. */
  function BuildUser(email: string, passwordHash: string, name: Option<string>): (r: Result<User, ValidationError>)
    ensures r.Ok? <==> NormalizeEmail(email) != "" && passwordHash != ""
    ensures r.Ok? ==> r.value.email == NormalizeEmail(email) && NormalizeEmail(r.value.email) == r.value.email
    ensures r.Ok? ==> r.value.passwordHash == passwordHash
    ensures r.Ok? ==> r.value.name == (if name.Some? then Some(Trim(name.value)) else None)
  {
    var e := NormalizeEmail(email);
    NormalizeEmailIdempotent(email);
    if e != "" && passwordHash != "" then
      Ok(User(e, passwordHash, if name.Some? then Some(Trim(name.value)) else None))
    else
      Err(ValidationError((if e == "" then ["email"] else []) + (if passwordHash == "" then ["passwordHash"] else [])))
  }
}

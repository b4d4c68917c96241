/** The chat controller: create a chat under one of the caller's projects,
    list and read the caller's chats, send a message (which stores the user
    message and the assistant's reply), and soft-delete a chat. Every chat
    lookup is scoped to `{_id, owner: caller, isActive: true}`. */
module Chats {
  import opened Wrappers
  import opened Text
  import opened Models
  import opened Http
  import opened Listing
  import opened Store

  const DefaultChatLimit: int := 20

  /** How many stored messages, the new one included, go into a prompt. */
  const HistoryWindow: nat := 10

  const CompletionModel: string := "gpt-3.5-turbo"
  const MaxTokens: nat := 1000
  const Temperature: real := 0.7

  /** The reply stored when the provider answers without content. */
  const NoResponseText: string := "I apologize, but I was unable to generate a response."

  /** The reply stored when the provider call fails. */
  const ApologyText: string :=
    "I apologize, but I encountered an error while processing your request. Please try again."

  /** `title || 'Chat ' + <today's date>`: the requested title, or a
      date-stamped default when it is missing or empty. */
  function ChatTitle(title: Option<string>, today: string): (t: string)
    ensures t != ""
    ensures Truthy(title) ==> t == title.value
    ensures !Truthy(title) ==> |t| == 5 + |today| && t[..5] == "Chat " && t[5..] == today
  {
    if Truthy(title) then title.value else "Chat " + today
  }

  /** The default title always survives trimming, so a new chat is refused
      exactly when the caller sent a title made only of whitespace. */
  lemma TitleRefusedOnlyWhenBlank(title: Option<string>, today: string)
    ensures Trim(ChatTitle(title, today)) == "" <==> Truthy(title) && Trim(title.value) == ""
  {
    if !Truthy(title) {
      var s := "Chat " + today;
      assert s[0] == 'C' && !IsSpace(s[0]);
    }
  }

  /** `createChat` on the chats collection at time `now`. The title is
      trimmed by the schema; one that trims to nothing fails validation on
      save, which the handler reports as a 500. */
  function Create(chats: seq<Chat>, projects: seq<Project>, now: nat, caller: Id, projectId: Option<Id>,
                  title: Option<string>, today: string): (o: (Response, seq<Chat>))
    ensures projectId.None? ==> o == (Failure(400, "Project ID is required"), chats)
    ensures projectId.Some? && !OwnsProject(projects, caller, projectId.value) ==>
      o == (Failure(404, "Project not found"), chats)
    ensures projectId.Some? && OwnsProject(projects, caller, projectId.value) && Trim(ChatTitle(title, today)) == "" ==>
      o == (Failure(500, "Error creating chat"), chats)
    ensures projectId.Some? && OwnsProject(projects, caller, projectId.value) && Trim(ChatTitle(title, today)) != "" ==>
      var c := Chat(Trim(ChatTitle(title, today)), projectId.value, caller, [], true, now);
      && o.1 == chats + [c]
      && o.0 == Success(201, Some("Chat created successfully"), Some(ChatCreated(ChatView(|chats|, c.title, c.project, []))))
  {
    if projectId.None? then (Failure(400, "Project ID is required"), chats)
    else if !OwnsProject(projects, caller, projectId.value) then (Failure(404, "Project not found"), chats)
    else
      var built := BuildChat(ChatTitle(title, today), projectId.value, caller, now);
      if built.Err? then (Failure(500, "Error creating chat"), chats)
      else
        var c := built.value;
        (Success(201, Some("Chat created successfully"), Some(ChatCreated(ChatView(|chats|, c.title, c.project, [])))),
         chats + [c])
  }

  /** A created chat belongs to an active project of its owner, so the store
      stays valid. */
  lemma CreateKeepsValid(chats: seq<Chat>, projects: seq<Project>, now: nat, caller: Id, projectId: Option<Id>,
                         title: Option<string>, today: string)
    requires ChatsValid(chats, projects, now)
    ensures ChatsValid(Create(chats, projects, now, caller, projectId, title, today).1, projects, now)
  {
  }

  /** `createChat` applied to the store. */
  method CreateChat(db: Database, caller: Id, projectId: Option<Id>, title: Option<string>, today: string)
    returns (r: Response)
    requires db.Valid()
    modifies db
    ensures db.Valid()
    ensures db.clock == old(db.clock) + 1 && db.users == old(db.users) && db.projects == old(db.projects)
    ensures (r, db.chats) == Create(old(db.chats), db.projects, db.clock, caller, projectId, title, today)
  {
    var now := db.Tick();
    CreateKeepsValid(db.chats, db.projects, now, caller, projectId, title, today);
    var o := Create(db.chats, db.projects, now, caller, projectId, title, today);
    r, db.chats := o.0, o.1;
  }

  /** The list filter: the caller's active chats, under one project when
      `projectId` is given. */
  predicate Listed(c: Chat, caller: Id, projectId: Option<Id>) {
    c.owner == caller && c.isActive && (projectId.None? || c.project == projectId.value)
  }

  function Keep(chats: seq<Chat>, caller: Id, projectId: Option<Id>): nat -> bool {
    (i: nat) => i < |chats| && Listed(chats[i], caller, projectId)
  }

  function Stamps(chats: seq<Chat>): (s: seq<nat>)
    ensures |s| == |chats|
    ensures forall i :: 0 <= i < |chats| ==> s[i] == chats[i].updatedAt
  {
    seq(|chats|, i requires 0 <= i < |chats| => chats[i].updatedAt)
  }

  /** `countDocuments(query)`: how many chats the filter selects, which is
      also how many the sorted query yields over all its pages. */
  function Total(chats: seq<Chat>, caller: Id, projectId: Option<Id>): (n: nat)
    ensures n <= |chats|
    ensures n == |Select(|chats|, Keep(chats, caller, projectId))|
    ensures n == |Ranked(|chats|, Keep(chats, caller, projectId), Stamps(chats))|
  {
    |Select(|chats|, Keep(chats, caller, projectId))|
  }

  /** The ids on one page: listed chats, newest first. */
  function PageIds(chats: seq<Chat>, caller: Id, projectId: Option<Id>, skip: nat, limit: int): (ids: seq<Id>)
    ensures ids == Window(Ranked(|chats|, Keep(chats, caller, projectId), Stamps(chats)), skip, limit)
    ensures |ids| <= Total(chats, caller, projectId)
    ensures forall k :: 0 <= k < |ids| ==> ids[k] < |chats| && Listed(chats[ids[k]], caller, projectId)
    ensures forall k, l :: 0 <= k < l < |ids| ==> chats[ids[k]].updatedAt >= chats[ids[l]].updatedAt
  {
    var keep := Keep(chats, caller, projectId);
    var ids := Window(Ranked(|chats|, keep, Stamps(chats)), skip, limit);
    RankedWindow(|chats|, keep, Stamps(chats), skip, limit);
    ids
  }

  /** A chat in a list: its project's name joined in, messages left out and
      reported as a count of 0. */
  function Summary(chats: seq<Chat>, projects: seq<Project>, id: Id): ChatSummary
    requires id < |chats| && chats[id].project < |projects|
  {
    ChatSummary(id, chats[id].title, chats[id].project, projects[chats[id].project].name, 0)
  }

  function Summaries(chats: seq<Chat>, projects: seq<Project>, ids: seq<Id>): (ss: seq<ChatSummary>)
    requires ProjectRefsResolve(chats, projects)
    requires forall k :: 0 <= k < |ids| ==> ids[k] < |chats|
    ensures |ss| == |ids|
    ensures forall k :: 0 <= k < |ids| ==> ss[k] == Summary(chats, projects, ids[k]) && ss[k].messageCount == 0
  {
    seq(|ids|, k requires 0 <= k < |ids| => Summary(chats, projects, ids[k]))
  }

  /** `getChats`: one page of the caller's active chats, newest first, and
      the pagination block. A negative skip is refused by the database,
      which becomes a 500. */
  function GetChats(chats: seq<Chat>, projects: seq<Project>, caller: Id, projectId: Option<Id>,
                    page: Option<int>, limit: Option<int>): (r: Response)
    requires ProjectRefsResolve(chats, projects)
    ensures var pg, lim := OrDefault(page, 1), OrDefault(limit, DefaultChatLimit);
      Skip(pg, lim) < 0 ==> r == Failure(500, "Error fetching chats")
    ensures var pg, lim := OrDefault(page, 1), OrDefault(limit, DefaultChatLimit);
      var total := Total(chats, caller, projectId);
      Skip(pg, lim) >= 0 ==>
        r == Success(200, None, Some(ChatPage(Summaries(chats, projects, PageIds(chats, caller, projectId, Skip(pg, lim), lim)),
                                             PageInfo(pg, lim, total, PageCount(total, lim)))))
  {
    var pg, lim := OrDefault(page, 1), OrDefault(limit, DefaultChatLimit);
    var skip := Skip(pg, lim);
    if skip < 0 then Failure(500, "Error fetching chats")
    else
      var total := Total(chats, caller, projectId);
      Success(200, None, Some(ChatPage(Summaries(chats, projects, PageIds(chats, caller, projectId, skip, lim)),
                                       PageInfo(pg, lim, total, PageCount(total, lim)))))
  }

  /** Every chat the filter selects is on some existing page. */
  lemma EveryChatOnSomePage(chats: seq<Chat>, caller: Id, projectId: Option<Id>, limit: int, id: Id)
    requires limit > 0 && id < |chats| && Listed(chats[id], caller, projectId)
    ensures exists pg :: (1 <= pg <= PageCount(Total(chats, caller, projectId), limit).value
                          && id in PageIds(chats, caller, projectId, Skip(pg, limit), limit))
  {
    var keep := Keep(chats, caller, projectId);
    assert keep(id);
    EveryIdOnSomePage(|chats|, keep, Stamps(chats), limit, id);
    var pg :| 1 <= pg <= PageCount(|Select(|chats|, keep)|, limit).value
              && id in Window(Ranked(|chats|, keep, Stamps(chats)), Skip(pg, limit), limit);
    assert id in PageIds(chats, caller, projectId, Skip(pg, limit), limit);
  }

  /** `getChat`: the chat with its messages and its project's name and
      prompt. */
  function GetChat(chats: seq<Chat>, projects: seq<Project>, caller: Id, id: Id): (r: Response)
    requires ProjectRefsResolve(chats, projects)
    ensures r.status == 200 <==> OwnsChat(chats, caller, id)
    ensures !OwnsChat(chats, caller, id) ==> r == Failure(404, "Chat not found")
    ensures OwnsChat(chats, caller, id) ==>
      var c := chats[id];
      r == Success(200, None, Some(ChatData(ChatDetail(id, c.title,
             ProjectRef(c.project, projects[c.project].name, projects[c.project].systemPrompt), c.messages))))
  {
    if !OwnsChat(chats, caller, id) then Failure(404, "Chat not found")
    else
      var c := chats[id];
      var p := projects[c.project];
      Success(200, None, Some(ChatData(ChatDetail(id, c.title, ProjectRef(c.project, p.name, p.systemPrompt), c.messages))))
  }

  /** Another owner's chat, or a deleted one, answers exactly as an id that
      was never used. */
  lemma HiddenChatLooksAbsent(chats: seq<Chat>, projects: seq<Project>, caller: Id, id: Id)
    requires ProjectRefsResolve(chats, projects)
    requires id < |chats| && (chats[id].owner != caller || !chats[id].isActive)
    ensures GetChat(chats, projects, caller, id) == GetChat(chats, projects, caller, |chats|)
  {
  }

  /** One prompt entry, `{role, content}`. */
  datatype PromptEntry = PromptEntry(role: Role, content: string)

  /** The body of the chat-completions request. */
  datatype CompletionRequest = CompletionRequest(
    model: string,
    messages: seq<PromptEntry>,
    maxTokens: nat,
    temperature: real)

  /** What the provider call gives back: a first choice whose message
      content may be missing, or a failure of any kind. */
  datatype Completion = Replied(content: Option<string>) | Failed

  function Entry(m: Message): PromptEntry {
    PromptEntry(m.role, m.content)
  }

  /** The prompt: a system entry with the project's prompt (the default when
      it is empty), then the last `HistoryWindow` stored messages, or all of
      them when there are fewer, in order. */
  function Prompt(systemPrompt: string, history: seq<Message>): (p: seq<PromptEntry>)
    ensures |p| == 1 + Min(HistoryWindow, |history|)
    ensures p[0] == PromptEntry(SystemRole, if systemPrompt == "" then DefaultSystemPrompt else systemPrompt)
    ensures forall k :: 1 <= k < |p| ==> p[k] == Entry(history[|history| - |p| + k])
  {
    var recent := if |history| <= HistoryWindow then history else history[|history| - HistoryWindow..];
    var system := PromptEntry(SystemRole, if systemPrompt == "" then DefaultSystemPrompt else systemPrompt);
    [system] + seq(|recent|, k requires 0 <= k < |recent| => Entry(recent[k]))
  }

  /** The first message of a chat is sent with the system entry only. */
  lemma FirstPrompt(systemPrompt: string, user: Message)
    ensures Prompt(systemPrompt, [user]) ==
      [PromptEntry(SystemRole, if systemPrompt == "" then DefaultSystemPrompt else systemPrompt), Entry(user)]
  {
  }

  /** After 15 earlier messages the prompt holds 11 entries: the system
      entry, the 9 most recent earlier messages and the new one. */
  lemma LongChatPrompt(systemPrompt: string, earlier: seq<Message>, user: Message)
    requires |earlier| == 15
    ensures var p := Prompt(systemPrompt, earlier + [user]);
      |p| == 11 && p[1..10] == seq(9, k requires 0 <= k < 9 => Entry(earlier[6 + k])) && p[10] == Entry(user)
  {
    var p := Prompt(systemPrompt, earlier + [user]);
    forall k | 0 <= k < 9 ensures p[1..10][k] == Entry(earlier[6 + k]) {
      assert p[1..10][k] == p[k + 1];
    }
  }

  /** `choices[0]?.message?.content || <no-response text>`, or the apology
      when the call failed. A stored reply is never empty. */
  function ReplyText(reply: Completion): (s: string)
    ensures s != ""
    ensures reply.Replied? && Truthy(reply.content) ==> s == reply.content.value
    ensures reply.Replied? && !Truthy(reply.content) ==> s == NoResponseText
    ensures reply.Failed? ==> s == ApologyText
  {
    match reply
    case Replied(content) => if Truthy(content) then content.value else NoResponseText
    case Failed => ApologyText
  }

  /** `sendMessage` at time `now`, with `reply` the provider's answer to the
      request it sends: the response, the chats afterwards and the request,
      if one was sent. */
  function Send(chats: seq<Chat>, projects: seq<Project>, now: nat, caller: Id, chatId: Option<Id>,
                message: Option<string>, reply: Completion): (o: (Response, seq<Chat>, Option<CompletionRequest>))
    requires ProjectRefsResolve(chats, projects)
    ensures chatId.None? || !Truthy(message) || Trim(message.value) == "" ==>
      o == (Failure(400, "Chat ID and message are required"), chats, None)
    ensures chatId.Some? && Truthy(message) && Trim(message.value) != "" && !OwnsChat(chats, caller, chatId.value) ==>
      o == (Failure(404, "Chat not found"), chats, None)
    ensures chatId.Some? && Truthy(message) && Trim(message.value) != "" && OwnsChat(chats, caller, chatId.value) ==>
      var id := chatId.value;
      var c := chats[id];
      var user := Message(UserRole, Trim(message.value), now);
      var assistant := Message(AssistantRole, ReplyText(reply), now);
      && |o.1| == |chats|
      && o.1[id] == c.(messages := c.messages + [user, assistant], updatedAt := now)
      && (forall j :: 0 <= j < |chats| && j != id ==> o.1[j] == chats[j])
      && o.2 == Some(CompletionRequest(CompletionModel, Prompt(projects[c.project].systemPrompt, c.messages + [user]),
                                       MaxTokens, Temperature))
      && o.0 == Success(200, None, Some(Exchange(user, assistant)))
  {
    if chatId.None? || !Truthy(message) || Trim(message.value) == "" then
      (Failure(400, "Chat ID and message are required"), chats, None)
    else if !OwnsChat(chats, caller, chatId.value) then
      (Failure(404, "Chat not found"), chats, None)
    else
      var id := chatId.value;
      var c := chats[id];
      var user := BuildMessage("user", Trim(message.value), now);
      assert user.Ok?;
      var history := c.messages + [user.value];
      var request := CompletionRequest(CompletionModel, Prompt(projects[c.project].systemPrompt, history),
                                       MaxTokens, Temperature);
      var assistant := BuildMessage("assistant", ReplyText(reply), now);
      assert assistant.Ok?;
      (Success(200, None, Some(Exchange(user.value, assistant.value))),
       chats[id := c.(messages := history + [assistant.value], updatedAt := now)],
       Some(request))
  }

  /** Appending two messages stamped with the current time, both with
      content, keeps a message list well formed. */
  lemma AppendExchangeWellFormed(ms: seq<Message>, user: Message, assistant: Message, now: nat)
    requires MessagesWellFormed(ms, now)
    requires user.content != "" && assistant.content != ""
    requires user.timestamp == now && assistant.timestamp == now
    ensures MessagesWellFormed(ms + [user, assistant], now)
  {
    var out := ms + [user, assistant];
    forall k, l | 0 <= k < l < |out| ensures out[k].timestamp <= out[l].timestamp {
      if l < |ms| { assert out[k] == ms[k] && out[l] == ms[l]; }
      else if k < |ms| { assert out[k] == ms[k]; }
    }
  }

  /** Replacing one chat by a consistent one keeps the chats valid. */
  lemma ReplaceChatKeepsValid(chats: seq<Chat>, projects: seq<Project>, now: nat, id: Id, c: Chat)
    requires ChatsValid(chats, projects, now) && id < |chats|
    requires ChatConsistent(c, projects, now)
    ensures ChatsValid(chats[id := c], projects, now)
  {
  }

  /** The two new messages carry content and the current time, which no
      earlier message exceeds, so the store stays valid. */
  lemma SendKeepsValid(chats: seq<Chat>, projects: seq<Project>, now: nat, caller: Id, chatId: Option<Id>,
                       message: Option<string>, reply: Completion)
    requires ChatsValid(chats, projects, now)
    ensures ProjectRefsResolve(chats, projects)
    ensures ChatsValid(Send(chats, projects, now, caller, chatId, message, reply).1, projects, now)
  {
    assert forall i :: 0 <= i < |chats| ==> ChatConsistent(chats[i], projects, now);
    if chatId.Some? && Truthy(message) && Trim(message.value) != "" && OwnsChat(chats, caller, chatId.value) {
      var id := chatId.value;
      var c := chats[id];
      assert ChatConsistent(c, projects, now);
      var user := Message(UserRole, Trim(message.value), now);
      var assistant := Message(AssistantRole, ReplyText(reply), now);
      AppendExchangeWellFormed(c.messages, user, assistant, now);
      assert c.messages + [user] + [assistant] == c.messages + [user, assistant];
      var c' := c.(messages := c.messages + [user, assistant], updatedAt := now);
      ReplaceChatKeepsValid(chats, projects, now, id, c');
      assert Send(chats, projects, now, caller, chatId, message, reply).1 == chats[id := c'];
    }
  }

  /** `sendMessage` applied to the store. */
  method SendMessage(db: Database, caller: Id, chatId: Option<Id>, message: Option<string>, reply: Completion)
    returns (r: Response, sent: Option<CompletionRequest>)
    requires db.Valid()
    modifies db
    ensures db.Valid()
    ensures db.clock == old(db.clock) + 1 && db.users == old(db.users) && db.projects == old(db.projects)
    ensures ProjectRefsResolve(old(db.chats), db.projects)
    ensures (r, db.chats, sent) == Send(old(db.chats), db.projects, db.clock, caller, chatId, message, reply)
  {
    var now := db.Tick();
    SendKeepsValid(db.chats, db.projects, now, caller, chatId, message, reply);
    var o := Send(db.chats, db.projects, now, caller, chatId, message, reply);
    r, db.chats, sent := o.0, o.1, o.2;
  }

  /** `deleteChat` at time `now`: a soft delete of one visible chat; a second
      delete answers 404. */
  function Delete(chats: seq<Chat>, now: nat, caller: Id, id: Id): (o: (Response, seq<Chat>))
    ensures !OwnsChat(o.1, caller, id)
    ensures !OwnsChat(chats, caller, id) ==> o == (Failure(404, "Chat not found"), chats)
    ensures OwnsChat(chats, caller, id) ==>
      && o.1 == chats[id := chats[id].(isActive := false, updatedAt := now)]
      && o.0 == Success(200, Some("Chat deleted successfully"), None)
  {
    if !OwnsChat(chats, caller, id) then (Failure(404, "Chat not found"), chats)
    else (Success(200, Some("Chat deleted successfully"), None), chats[id := chats[id].(isActive := false, updatedAt := now)])
  }

  /** Deleting twice is deleting once. */
  lemma DeleteIdempotent(chats: seq<Chat>, now: nat, later: nat, caller: Id, id: Id)
    ensures var o := Delete(chats, now, caller, id);
      Delete(o.1, later, caller, id) == (Failure(404, "Chat not found"), o.1)
  {
  }

  lemma DeleteKeepsValid(chats: seq<Chat>, projects: seq<Project>, now: nat, caller: Id, id: Id)
    requires ChatsValid(chats, projects, now)
    ensures ChatsValid(Delete(chats, now, caller, id).1, projects, now)
  {
    if OwnsChat(chats, caller, id) {
      assert ChatConsistent(chats[id], projects, now);
    }
  }

  /** `deleteChat` applied to the store. */
  method DeleteChat(db: Database, caller: Id, id: Id) returns (r: Response)
    requires db.Valid()
    modifies db
    ensures db.Valid()
    ensures db.clock == old(db.clock) + 1 && db.users == old(db.users) && db.projects == old(db.projects)
    ensures (r, db.chats) == Delete(old(db.chats), db.clock, caller, id)
  {
    var now := db.Tick();
    DeleteKeepsValid(db.chats, db.projects, now, caller, id);
    var o := Delete(db.chats, now, caller, id);
    r, db.chats := o.0, o.1;
  }
}

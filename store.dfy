/** The document store the controllers share: the users, projects and chats
    collections, and a logical clock standing in for `Date.now()`. Its
    invariant collects what the schemas and the controllers together keep
    true of every saved document. */
module Store {
  import opened Wrappers
  import opened Text
  import opened Models

  /** A user as the schema saves it. */
  predicate UserWellFormed(u: User) {
    && u.email != ""
    && NormalizeEmail(u.email) == u.email
    && u.passwordHash != ""
    && (u.name.Some? ==> Trimmed(u.name.value))
  }

  predicate AllWellFormed(users: seq<User>) {
    forall i :: 0 <= i < |users| ==> UserWellFormed(users[i])
  }

  /** No two users share an email (the unique index). */
  predicate EmailsDistinct(users: seq<User>) {
    forall i, j :: 0 <= i < j < |users| ==> users[i].email != users[j].email
  }

  ghost predicate UsersValid(users: seq<User>) {
    AllWellFormed(users) && EmailsDistinct(users)
  }

  /** A project as the schema and the controllers save it. */
  predicate ProjectWellFormed(p: Project, clock: nat) {
    && p.name != ""
    && Trimmed(p.name)
    && Trimmed(p.description)
    && p.updatedAt <= clock
  }

  /** Projects are well formed and no owner has two projects with the same
      name, active or not. */
  ghost predicate ProjectsValid(projects: seq<Project>, clock: nat) {
    && (forall i :: 0 <= i < |projects| ==> ProjectWellFormed(projects[i], clock))
    && (forall i, j :: 0 <= i < j < |projects| && projects[i].owner == projects[j].owner ==>
          projects[i].name != projects[j].name)
  }

  /** Stored messages have content, and their timestamps never decrease
      along the list. */
  predicate MessagesWellFormed(ms: seq<Message>, clock: nat) {
    && (forall k :: 0 <= k < |ms| ==> ms[k].content != "" && ms[k].timestamp <= clock)
    && (forall k, l :: 0 <= k < l < |ms| ==> ms[k].timestamp <= ms[l].timestamp)
  }

  /** A chat refers to an existing project of the same owner, and an active
      chat never sits under an inactive project. */
  predicate ChatConsistent(c: Chat, projects: seq<Project>, clock: nat) {
    && c.title != ""
    && Trimmed(c.title)
    && c.project < |projects|
    && projects[c.project].owner == c.owner
    && (c.isActive ==> projects[c.project].isActive)
    && c.updatedAt <= clock
    && MessagesWellFormed(c.messages, clock)
  }

  ghost predicate ChatsValid(chats: seq<Chat>, projects: seq<Project>, clock: nat) {
    forall i :: 0 <= i < |chats| ==> ChatConsistent(chats[i], projects, clock)
  }

  /** Every chat's project reference resolves (what `populate` needs). */
  predicate ProjectRefsResolve(chats: seq<Chat>, projects: seq<Project>) {
    forall i :: 0 <= i < |chats| ==> chats[i].project < |projects|
  }

  /** The ownership filter `{ _id: id, owner: caller, isActive: true }` on
      projects. */
  predicate OwnsProject(projects: seq<Project>, caller: Id, id: Id) {
    id < |projects| && projects[id].owner == caller && projects[id].isActive
  }

  /** The same filter on chats. */
  predicate OwnsChat(chats: seq<Chat>, caller: Id, id: Id) {
    id < |chats| && chats[id].owner == caller && chats[id].isActive
  }

  /** `Project.findOne({ owner, name })`, with `_id: { $ne: except }` when
      `except` is given. There is no `isActive` condition. */
  predicate NameTaken(projects: seq<Project>, owner: Id, name: string, except: Option<Id>) {
    exists i :: 0 <= i < |projects| && projects[i].owner == owner && projects[i].name == name
      && (except.None? || i != except.value)
  }

  /** `User.findOne({ email })`: the first user in natural order whose stored
      email is `email`. */
  function FindByEmail(users: seq<User>, email: string): (r: Option<Id>)
    ensures r.Some? ==> r.value < |users| && users[r.value].email == email
    ensures r.Some? ==> forall j :: 0 <= j < r.value ==> users[j].email != email
    ensures r.None? <==> forall j :: 0 <= j < |users| ==> users[j].email != email
  {
    if users == [] then None
    else
      var earlier := FindByEmail(users[..|users| - 1], email);
      if earlier.Some? then earlier
      else if users[|users| - 1].email == email then Some(|users| - 1)
      else None
  }

  /** A later clock keeps every project and chat valid. */
  lemma ClockAdvance(projects: seq<Project>, chats: seq<Chat>, clock: nat, later: nat)
    requires clock <= later
    requires ProjectsValid(projects, clock) && ChatsValid(chats, projects, clock)
    ensures ProjectsValid(projects, later) && ChatsValid(chats, projects, later)
  {
    forall i | 0 <= i < |chats| ensures ChatConsistent(chats[i], projects, later) {
      assert ChatConsistent(chats[i], projects, clock);
    }
  }

  /** Chats stay consistent when projects change without losing a document,
      changing an owner, or becoming inactive. */
  lemma ChatsSurviveProjectEdit(chats: seq<Chat>, projects: seq<Project>, edited: seq<Project>, clock: nat)
    requires ChatsValid(chats, projects, clock)
    requires |projects| <= |edited|
    requires forall i :: 0 <= i < |projects| ==>
      edited[i].owner == projects[i].owner && (projects[i].isActive ==> edited[i].isActive)
    ensures ChatsValid(chats, edited, clock)
  {
    forall i | 0 <= i < |chats| ensures ChatConsistent(chats[i], edited, clock) {
      assert ChatConsistent(chats[i], projects, clock);
    }
  }

  /** Adding a well-formed user with a new email keeps the users valid. */
  lemma AppendUserKeepsValid(users: seq<User>, u: User)
    requires UsersValid(users) && UserWellFormed(u)
    requires forall j :: 0 <= j < |users| ==> users[j].email != u.email
    ensures UsersValid(users + [u])
  {
    AppendWellFormed(users, u);
    AppendDistinct(users, u);
  }

  lemma AppendWellFormed(users: seq<User>, u: User)
    requires AllWellFormed(users) && UserWellFormed(u)
    ensures AllWellFormed(users + [u])
  {
    var after := users + [u];
    forall i | 0 <= i < |after| ensures UserWellFormed(after[i]) {
      if i < |users| { assert after[i] == users[i]; }
    }
  }

  lemma AppendDistinct(users: seq<User>, u: User)
    requires EmailsDistinct(users)
    requires forall j :: 0 <= j < |users| ==> users[j].email != u.email
    ensures EmailsDistinct(users + [u])
  {
    var after := users + [u];
    forall i, j | 0 <= i < j < |after| ensures after[i].email != after[j].email {
      assert after[i] == users[i];
      if j < |users| { assert after[j] == users[j]; }
    }
  }

  /** Replacing a user by a well-formed one with the same email keeps the
      users valid. */
  lemma ReplaceUserKeepsValid(users: seq<User>, id: Id, u: User)
    requires UsersValid(users) && id < |users| && UserWellFormed(u) && u.email == users[id].email
    ensures UsersValid(users[id := u])
  {
  }

  class Database {
    var users: seq<User>
    var projects: seq<Project>
    var chats: seq<Chat>
    var clock: nat

    ghost predicate Valid()
      reads this
    {
      UsersValid(users) && ProjectsValid(projects, clock) && ChatsValid(chats, projects, clock)
    }

    constructor ()
      ensures Valid()
      ensures users == [] && projects == [] && chats == [] && clock == 0
    {
      users, projects, chats, clock := [], [], [], 0;
    }

    /** The time of the request being handled: the clock advances by one. */
    method Tick() returns (now: nat)
      requires Valid()
      modifies this
      ensures Valid()
      ensures now == clock == old(clock) + 1
      ensures users == old(users) && projects == old(projects) && chats == old(chats)
    {
      ClockAdvance(projects, chats, clock, clock + 1);
      clock := clock + 1;
      now := clock;
    }
  }
}

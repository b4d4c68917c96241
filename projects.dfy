/** The project controller: create, list, read, update and soft-delete the
    caller's projects. Every lookup is scoped to `{_id, owner: caller,
    isActive: true}`, and deleting a project also deactivates the caller's
    chats under it. */
module Projects {
  import opened Wrappers
  import opened Text
  import opened Models
  import opened Http
  import opened Listing
  import opened Store

  const DefaultProjectLimit: int := 10

  /** The project as every project endpoint shows it. */
  function View(id: Id, p: Project): ProjectView {
    ProjectView(id, p.name, p.description, p.systemPrompt, p.fileIds)
  }

  /** The view shows the name, description, prompt and files and nothing
      else: the owner and the active flag never reach the client. */
  lemma ViewShowsOnlyPublicFields(id: Id, p: Project, q: Project)
    requires p.name == q.name && p.description == q.description
    requires p.systemPrompt == q.systemPrompt && p.fileIds == q.fileIds
    ensures View(id, p) == View(id, q)
  {
  }

  /** The request carries a usable name: present, and not blank once trimmed. */
  predicate NameGiven(name: Option<string>) {
    Truthy(name) && Trim(name.value) != ""
  }

  /** `description?.trim() || ''`: the stored description of a new project. */
  function CreatedDescription(description: Option<string>): (d: string)
    ensures Trimmed(d)
  {
    if description.Some? then Trim(description.value) else ""
  }

  /** `systemPrompt?.trim() || 'You are a helpful AI assistant.'`: the trimmed
      prompt when it has content, the default otherwise, so never blank. */
  function CreatedPrompt(systemPrompt: Option<string>): (s: string)
    ensures s != ""
    ensures systemPrompt.Some? && Trim(systemPrompt.value) != "" ==> s == Trim(systemPrompt.value)
    ensures systemPrompt.None? || Trim(systemPrompt.value) == "" ==> s == DefaultSystemPrompt
  {
    if systemPrompt.Some? && Trim(systemPrompt.value) != "" then Trim(systemPrompt.value) else DefaultSystemPrompt
  }

  /** `createProject` on the projects collection at time `now`: the
      response and the collection afterwards. The duplicate check looks at
      every project of the caller, soft-deleted ones included. */
  function Create(projects: seq<Project>, now: nat, caller: Id, name: Option<string>, description: Option<string>,
                  systemPrompt: Option<string>): (o: (Response, seq<Project>))
    ensures !NameGiven(name) ==> o == (Failure(400, "Project name is required"), projects)
    ensures NameGiven(name) && NameTaken(projects, caller, Trim(name.value), None) ==>
      o == (Failure(409, "A project with this name already exists"), projects)
    ensures NameGiven(name) && !NameTaken(projects, caller, Trim(name.value), None) ==>
      var p := Project(Trim(name.value), CreatedDescription(description), caller, CreatedPrompt(systemPrompt),
                       [], true, now);
      && o.1 == projects + [p]
      && o.0 == Success(201, Some("Project created successfully"), Some(ProjectData(View(|projects|, p))))
  {
    if !NameGiven(name) then (Failure(400, "Project name is required"), projects)
    else
      var n := Trim(name.value);
      if NameTaken(projects, caller, n, None) then (Failure(409, "A project with this name already exists"), projects)
      else
        TrimIdempotent(name.value);
        var d, s := CreatedDescription(description), CreatedPrompt(systemPrompt);
        TrimUnpadded(d);
        var built := BuildProject(n, d, caller, Some(s), now);
        assert built.Ok?;
        var p := built.value;
        assert p == Project(n, d, caller, s, [], true, now);
        (Success(201, Some("Project created successfully"), Some(ProjectData(View(|projects|, p)))), projects + [p])
  }

  /** A successful create stores a project that keeps the store valid: its
      name is the only one of its owner. */
  lemma CreateKeepsValid(projects: seq<Project>, chats: seq<Chat>, now: nat, caller: Id, name: Option<string>,
                         description: Option<string>, systemPrompt: Option<string>)
    requires ProjectsValid(projects, now) && ChatsValid(chats, projects, now)
    ensures var o := Create(projects, now, caller, name, description, systemPrompt);
      ProjectsValid(o.1, now) && ChatsValid(chats, o.1, now)
  {
    var o := Create(projects, now, caller, name, description, systemPrompt);
    if NameGiven(name) && !NameTaken(projects, caller, Trim(name.value), None) {
      TrimUnpadded(CreatedDescription(description));
      AppendKeepsValid(projects, chats, now, o.1[|projects|]);
    }
  }

  /** `createProject` applied to the store. */
  method CreateProject(db: Database, caller: Id, name: Option<string>, description: Option<string>,
                       systemPrompt: Option<string>) returns (r: Response)
    requires db.Valid()
    modifies db
    ensures db.Valid()
    ensures db.clock == old(db.clock) + 1 && db.users == old(db.users) && db.chats == old(db.chats)
    ensures (r, db.projects) == Create(old(db.projects), db.clock, caller, name, description, systemPrompt)
  {
    var now := db.Tick();
    CreateKeepsValid(db.projects, db.chats, now, caller, name, description, systemPrompt);
    var o := Create(db.projects, now, caller, name, description, systemPrompt);
    r, db.projects := o.0, o.1;
  }

  /** Adding a well-formed project whose name its owner does not use yet
      keeps the store valid. */
  lemma AppendKeepsValid(projects: seq<Project>, chats: seq<Chat>, clock: nat, p: Project)
    requires ProjectsValid(projects, clock) && ChatsValid(chats, projects, clock)
    requires ProjectWellFormed(p, clock) && !NameTaken(projects, p.owner, p.name, None)
    ensures ProjectsValid(projects + [p], clock) && ChatsValid(chats, projects + [p], clock)
  {
    ChatsSurviveProjectEdit(chats, projects, projects + [p], clock);
  }

  /** The list filter: the caller's active projects and, when `search` is
      truthy, only those whose name or description contains it, ignoring
      case. */
  predicate Listed(p: Project, caller: Id, search: Option<string>) {
    && p.owner == caller && p.isActive
    && (!Truthy(search) || ContainsIgnoringCase(p.name, search.value)
        || ContainsIgnoringCase(p.description, search.value))
  }

  /** The list filter as a selector on ids. */
  function Keep(projects: seq<Project>, caller: Id, search: Option<string>): nat -> bool {
    (i: nat) => i < |projects| && Listed(projects[i], caller, search)
  }

  function Stamps(projects: seq<Project>): (s: seq<nat>)
    ensures |s| == |projects|
    ensures forall i :: 0 <= i < |projects| ==> s[i] == projects[i].updatedAt
  {
    seq(|projects|, i requires 0 <= i < |projects| => projects[i].updatedAt)
  }

  /** `countDocuments(query)`: how many projects the filter selects, which
      is also how many the sorted query yields over all its pages. */
  function Total(projects: seq<Project>, caller: Id, search: Option<string>): (n: nat)
    ensures n <= |projects|
    ensures n == |Select(|projects|, Keep(projects, caller, search))|
    ensures n == |Ranked(|projects|, Keep(projects, caller, search), Stamps(projects))|
  {
    |Select(|projects|, Keep(projects, caller, search))|
  }

  /** The ids on one page: the selected projects, newest first, from `skip`
      on, at most `|limit|` of them (all when the limit is 0). Each is a
      listed project and the page is ordered newest first. */
  function PageIds(projects: seq<Project>, caller: Id, search: Option<string>, skip: nat, limit: int)
    : (ids: seq<Id>)
    ensures ids == Window(Ranked(|projects|, Keep(projects, caller, search), Stamps(projects)), skip, limit)
    ensures |ids| <= Total(projects, caller, search)
    ensures forall k :: 0 <= k < |ids| ==> ids[k] < |projects| && Listed(projects[ids[k]], caller, search)
    ensures forall k, l :: 0 <= k < l < |ids| ==> projects[ids[k]].updatedAt >= projects[ids[l]].updatedAt
  {
    var keep := Keep(projects, caller, search);
    var ids := Window(Ranked(|projects|, keep, Stamps(projects)), skip, limit);
    RankedWindow(|projects|, keep, Stamps(projects), skip, limit);
    ids
  }

  function Views(projects: seq<Project>, ids: seq<Id>): (vs: seq<ProjectView>)
    requires forall k :: 0 <= k < |ids| ==> ids[k] < |projects|
    ensures |vs| == |ids| && forall k :: 0 <= k < |ids| ==> vs[k] == View(ids[k], projects[ids[k]])
  {
    seq(|ids|, k requires 0 <= k < |ids| => View(ids[k], projects[ids[k]]))
  }

  /** `getProjects`: one page of the listed projects and the pagination
      block `{page, limit, total, pages}`. A negative skip is refused by the
      database, which becomes a 500. */
  function GetProjects(projects: seq<Project>, caller: Id, search: Option<string>, page: Option<int>,
                       limit: Option<int>): (r: Response)
    ensures var pg, lim := OrDefault(page, 1), OrDefault(limit, DefaultProjectLimit);
      Skip(pg, lim) < 0 ==> r == Failure(500, "Error fetching projects")
    ensures var pg, lim := OrDefault(page, 1), OrDefault(limit, DefaultProjectLimit);
      var total := Total(projects, caller, search);
      Skip(pg, lim) >= 0 ==>
        r == Success(200, None, Some(ProjectPage(Views(projects, PageIds(projects, caller, search, Skip(pg, lim), lim)),
                                                PageInfo(pg, lim, total, PageCount(total, lim)))))
  {
    var pg, lim := OrDefault(page, 1), OrDefault(limit, DefaultProjectLimit);
    var skip := Skip(pg, lim);
    if skip < 0 then Failure(500, "Error fetching projects")
    else
      var total := Total(projects, caller, search);
      Success(200, None, Some(ProjectPage(Views(projects, PageIds(projects, caller, search, skip, lim)),
                                          PageInfo(pg, lim, total, PageCount(total, lim)))))
  }

  /** The filter selects exactly the caller's active projects that match the
      search: every one of them is on some existing page. */
  lemma EveryProjectOnSomePage(projects: seq<Project>, caller: Id, search: Option<string>, limit: int, id: Id)
    requires limit > 0 && id < |projects| && Listed(projects[id], caller, search)
    ensures exists pg :: (1 <= pg <= PageCount(Total(projects, caller, search), limit).value
                          && id in PageIds(projects, caller, search, Skip(pg, limit), limit))
  {
    var keep := Keep(projects, caller, search);
    assert keep(id);
    EveryIdOnSomePage(|projects|, keep, Stamps(projects), limit, id);
    var pg :| 1 <= pg <= PageCount(|Select(|projects|, keep)|, limit).value
              && id in Window(Ranked(|projects|, keep, Stamps(projects)), Skip(pg, limit), limit);
    assert id in PageIds(projects, caller, search, Skip(pg, limit), limit);
  }

  /** `getProject`. */
  function GetProject(projects: seq<Project>, caller: Id, id: Id): (r: Response)
    ensures r.status == 200 <==> OwnsProject(projects, caller, id)
    ensures OwnsProject(projects, caller, id) ==>
      r == Success(200, None, Some(ProjectData(View(id, projects[id]))))
    ensures !OwnsProject(projects, caller, id) ==> r == Failure(404, "Project not found")
  {
    if OwnsProject(projects, caller, id) then Success(200, None, Some(ProjectData(View(id, projects[id]))))
    else Failure(404, "Project not found")
  }

  /** Another owner's project, or a soft-deleted one, answers exactly as an id
      that was never used. */
  lemma HiddenProjectLooksAbsent(projects: seq<Project>, caller: Id, id: Id)
    requires id < |projects| && (projects[id].owner != caller || !projects[id].isActive)
    ensures GetProject(projects, caller, id) == GetProject(projects, caller, |projects|)
  {
  }

  /** The update document of `updateProject`: the name if truthy, the
      description and the prompt if defined, each trimmed; nothing else of
      the project changes except `updatedAt`. */
  function Updated(p: Project, name: Option<string>, description: Option<string>, systemPrompt: Option<string>,
                   now: nat): (q: Project)
    ensures q.owner == p.owner && q.fileIds == p.fileIds && q.isActive == p.isActive && q.updatedAt == now
    ensures Trimmed(p.description) ==> Trimmed(q.description)
    ensures !Truthy(name) ==> q.name == p.name
    ensures Truthy(name) ==> q.name == Trim(name.value)
    ensures description.None? ==> q.description == p.description
    ensures description.Some? ==> q.description == Trim(description.value)
    ensures systemPrompt.None? ==> q.systemPrompt == p.systemPrompt
    ensures systemPrompt.Some? ==> q.systemPrompt == Trim(systemPrompt.value)
  {
    p.(name := if Truthy(name) then Trim(name.value) else p.name,
       description := if description.Some? then Trim(description.value) else p.description,
       systemPrompt := if systemPrompt.Some? then Trim(systemPrompt.value) else p.systemPrompt,
       updatedAt := now)
  }

  /** Replacing a project by a well-formed one with the same owner and
      activity keeps the store valid when its name is unchanged or unused by
      the owner's other projects. */
  lemma ReplaceKeepsValid(projects: seq<Project>, chats: seq<Chat>, clock: nat, id: Id, q: Project)
    requires ProjectsValid(projects, clock) && ChatsValid(chats, projects, clock)
    requires id < |projects| && ProjectWellFormed(q, clock)
    requires q.owner == projects[id].owner && q.isActive == projects[id].isActive
    requires q.name == projects[id].name || !NameTaken(projects, q.owner, q.name, Some(id))
    ensures ProjectsValid(projects[id := q], clock) && ChatsValid(chats, projects[id := q], clock)
  {
    var after := projects[id := q];
    forall i, j | 0 <= i < j < |after| && after[i].owner == after[j].owner
      ensures after[i].name != after[j].name
    {
      if i == id || j == id {
        var other := if i == id then j else i;
        assert !(projects[other].owner == q.owner && projects[other].name == q.name && other != id);
      }
    }
    ChatsSurviveProjectEdit(chats, projects, after, clock);
  }

  /** The request passes both checks that run before the project is looked
      up: the name is not blank, and no other project of the caller has it. */
  predicate UpdateAdmitted(projects: seq<Project>, caller: Id, id: Id, name: Option<string>) {
    !Truthy(name) || (Trim(name.value) != "" && !NameTaken(projects, caller, Trim(name.value), Some(id)))
  }

  /** `updateProject` on the projects collection at time `now`. The two
      name checks run before the ownership lookup, so a clashing name
      answers 409 even for a project the caller cannot see. Only the
      targeted project changes. */
  function Update(projects: seq<Project>, now: nat, caller: Id, id: Id, name: Option<string>,
                  description: Option<string>, systemPrompt: Option<string>): (o: (Response, seq<Project>))
    ensures Truthy(name) && Trim(name.value) == "" ==> o == (Failure(400, "Project name cannot be empty"), projects)
    ensures NameGiven(name) && NameTaken(projects, caller, Trim(name.value), Some(id)) ==>
      o == (Failure(409, "A project with this name already exists"), projects)
    ensures UpdateAdmitted(projects, caller, id, name) && !OwnsProject(projects, caller, id) ==>
      o == (Failure(404, "Project not found"), projects)
    ensures UpdateAdmitted(projects, caller, id, name) && OwnsProject(projects, caller, id) ==>
      && |o.1| == |projects|
      && o.1[id] == Updated(projects[id], name, description, systemPrompt, now)
      && (forall j :: 0 <= j < |projects| && j != id ==> o.1[j] == projects[j])
      && o.0 == Success(200, Some("Project updated successfully"), Some(ProjectData(View(id, o.1[id]))))
  {
    if Truthy(name) && Trim(name.value) == "" then (Failure(400, "Project name cannot be empty"), projects)
    else if Truthy(name) && NameTaken(projects, caller, Trim(name.value), Some(id)) then
      (Failure(409, "A project with this name already exists"), projects)
    else if !OwnsProject(projects, caller, id) then (Failure(404, "Project not found"), projects)
    else
      var q := Updated(projects[id], name, description, systemPrompt, now);
      (Success(200, Some("Project updated successfully"), Some(ProjectData(View(id, q)))), projects[id := q])
  }

  /** Every update outcome keeps the store valid: an updated name stays
      unique among the owner's projects. */
  lemma UpdateKeepsValid(projects: seq<Project>, chats: seq<Chat>, now: nat, caller: Id, id: Id,
                         name: Option<string>, description: Option<string>, systemPrompt: Option<string>)
    requires ProjectsValid(projects, now) && ChatsValid(chats, projects, now)
    ensures var o := Update(projects, now, caller, id, name, description, systemPrompt);
      ProjectsValid(o.1, now) && ChatsValid(chats, o.1, now)
  {
    if UpdateAdmitted(projects, caller, id, name) && OwnsProject(projects, caller, id) {
      var q := Updated(projects[id], name, description, systemPrompt, now);
      if Truthy(name) { TrimIdempotent(name.value); }
      ReplaceKeepsValid(projects, chats, now, id, q);
      assert Update(projects, now, caller, id, name, description, systemPrompt).1 == projects[id := q];
    }
  }

  /** `updateProject` applied to the store. */
  method UpdateProject(db: Database, caller: Id, id: Id, name: Option<string>, description: Option<string>,
                       systemPrompt: Option<string>) returns (r: Response)
    requires db.Valid()
    modifies db
    ensures db.Valid()
    ensures db.clock == old(db.clock) + 1 && db.users == old(db.users) && db.chats == old(db.chats)
    ensures (r, db.projects) == Update(old(db.projects), db.clock, caller, id, name, description, systemPrompt)
  {
    var now := db.Tick();
    UpdateKeepsValid(db.projects, db.chats, now, caller, id, name, description, systemPrompt);
    var o := Update(db.projects, now, caller, id, name, description, systemPrompt);
    r, db.projects := o.0, o.1;
  }

  /** `Chat.updateMany({project, owner}, {isActive: false})`: every chat of
      that project and owner becomes inactive and is stamped `now`; every
      other chat is untouched, and no chat loses its title, references or
      messages. */
  function Cascade(chats: seq<Chat>, project: Id, owner: Id, now: nat): (r: seq<Chat>)
    ensures |r| == |chats|
    ensures forall i :: 0 <= i < |r| ==>
      && r[i].title == chats[i].title && r[i].project == chats[i].project
      && r[i].owner == chats[i].owner && r[i].messages == chats[i].messages
    ensures forall i :: 0 <= i < |r| ==>
      (r[i].isActive <==> chats[i].isActive && !(chats[i].project == project && chats[i].owner == owner))
    ensures forall i :: 0 <= i < |r| && chats[i].project == project && chats[i].owner == owner ==>
      r[i].updatedAt == now
    ensures forall i :: 0 <= i < |r| && !(chats[i].project == project && chats[i].owner == owner) ==>
      r[i] == chats[i]
  {
    seq(|chats|, i requires 0 <= i < |chats| =>
      if chats[i].project == project && chats[i].owner == owner
      then chats[i].(isActive := false, updatedAt := now)
      else chats[i])
  }

  /** `deleteProject` at time `now`: a soft delete, then the cascade. The
      project is no longer visible to its owner afterwards, so a second
      delete answers 404 and changes nothing. */
  function Delete(projects: seq<Project>, chats: seq<Chat>, now: nat, caller: Id, id: Id)
    : (o: (Response, seq<Project>, seq<Chat>))
    ensures !OwnsProject(o.1, caller, id)
    ensures !OwnsProject(projects, caller, id) ==> o == (Failure(404, "Project not found"), projects, chats)
    ensures OwnsProject(projects, caller, id) ==>
      && o.0 == Success(200, Some("Project deleted successfully"), None)
      && o.1 == projects[id := projects[id].(isActive := false, updatedAt := now)]
      && o.2 == Cascade(chats, id, caller, now)
  {
    if !OwnsProject(projects, caller, id) then (Failure(404, "Project not found"), projects, chats)
    else
      (Success(200, Some("Project deleted successfully"), None),
       projects[id := projects[id].(isActive := false, updatedAt := now)],
       Cascade(chats, id, caller, now))
  }

  /** Deleting twice is deleting once. */
  lemma DeleteIdempotent(projects: seq<Project>, chats: seq<Chat>, now: nat, later: nat, caller: Id, id: Id)
    ensures var o := Delete(projects, chats, now, caller, id);
      Delete(o.1, o.2, later, caller, id) == (Failure(404, "Project not found"), o.1, o.2)
  {
  }

  /** A delete keeps the store valid and, when it succeeds, leaves no active
      chat under the project, whoever owns the chat. */
  lemma DeleteKeepsValid(projects: seq<Project>, chats: seq<Chat>, now: nat, caller: Id, id: Id)
    requires ProjectsValid(projects, now) && ChatsValid(chats, projects, now)
    ensures var o := Delete(projects, chats, now, caller, id);
      && ProjectsValid(o.1, now) && ChatsValid(o.2, o.1, now)
      && (OwnsProject(projects, caller, id) ==>
            forall i :: 0 <= i < |o.2| && o.2[i].project == id ==> !o.2[i].isActive)
  {
    if OwnsProject(projects, caller, id) {
      var after := projects[id := projects[id].(isActive := false, updatedAt := now)];
      var cascaded := Cascade(chats, id, caller, now);
      forall i | 0 <= i < |cascaded| ensures ChatConsistent(cascaded[i], after, now) {
        assert ChatConsistent(chats[i], projects, now);
      }
    }
  }

  /** `deleteProject` applied to the store. */
  method DeleteProject(db: Database, caller: Id, id: Id) returns (r: Response)
    requires db.Valid()
    modifies db
    ensures db.Valid()
    ensures db.clock == old(db.clock) + 1 && db.users == old(db.users)
    ensures (r, db.projects, db.chats) == Delete(old(db.projects), old(db.chats), db.clock, caller, id)
  {
    var now := db.Tick();
    DeleteKeepsValid(db.projects, db.chats, now, caller, id);
    var o := Delete(db.projects, db.chats, now, caller, id);
    r, db.projects, db.chats := o.0, o.1, o.2;
  }
}

/** The file controller: the upload gate in front of it (accepted content
    types and the size limit), uploading a file to the provider and recording
    its id on a project, listing a project's files with the provider's
    metadata, and removing a file from a project. The provider is an
    oracle: what an upload returns and what each metadata fetch returns are
    parameters, and the requests the controller sends are results. */
module Files {
  import opened Wrappers
  import opened Text
  import opened Models
  import opened Http
  import opened Store
  import Projects

  /** The largest accepted upload, 10 MiB. */
  const MaxFileSize: nat := 10 * 1024 * 1024

  const AllowedMimeTypes: seq<string> := [
    "text/plain",
    "text/csv",
    "application/json",
    "application/pdf",
    "application/msword",
    "application/vnd.openxmlformats-officedocument.wordprocessingml.document"
  ]

  /** The purpose every upload is filed under. */
  const UploadPurpose: string := "assistants"

  /** The multipart `file` field as it arrives: its name, declared content
      type and size in bytes. */
  datatype IncomingFile = IncomingFile(originalName: string, mimeType: string, size: nat)

  /** The error the type filter raises. */
  const TypeRejected: AppError := AppError("Error", "File type not supported", NoCode, [])

  /** The error the size limit raises. */
  const TooLarge: AppError := AppError("MulterError", "File too large", NamedCode("LIMIT_FILE_SIZE"), [])

  /** The upload middleware: no file part passes through (the handler
      answers it); otherwise the type filter runs first, then the size
      limit, and either failure goes to the error handler. */
  function Admit(file: Option<IncomingFile>): (r: Result<Option<IncomingFile>, AppError>)
    ensures r.Ok? <==> file.None? || (file.value.mimeType in AllowedMimeTypes && file.value.size <= MaxFileSize)
    ensures r.Ok? ==> r.value == file
    ensures file.Some? && file.value.mimeType !in AllowedMimeTypes ==> r == Err(TypeRejected)
    ensures file.Some? && file.value.mimeType in AllowedMimeTypes && file.value.size > MaxFileSize ==> r == Err(TooLarge)
  {
    match file
    case None => Ok(None)
    case Some(f) =>
      if f.mimeType !in AllowedMimeTypes then Err(TypeRejected)
      else if f.size > MaxFileSize then Err(TooLarge)
      else Ok(file)
  }

  /** The provider's record of a file; `createdAt` is in seconds. */
  datatype FileMeta = FileMeta(id: string, filename: string, bytes: nat, createdAt: nat, purpose: string)

  /** The multipart upload request: the file under its original name and
      content type, and the purpose. */
  datatype UploadRequest = UploadRequest(filename: string, contentType: string, purpose: string)

  /** What the upload call gives back: the new file's record, or a failure
      with the provider's error message when it sent one. */
  datatype UploadOutcome = Uploaded(meta: FileMeta) | UploadFailed(detail: Option<string>)

  /** A file as the API shows it: the creation time in milliseconds. */
  function FileViewOf(meta: FileMeta): (v: FileView)
    ensures v.id == meta.id && v.filename == meta.filename && v.bytes == meta.bytes && v.purpose == meta.purpose
    ensures v.createdAtMs == meta.createdAt * 1000
  {
    FileView(meta.id, meta.filename, meta.bytes, meta.createdAt * 1000, meta.purpose)
  }

  /** `uploadFile` at time `now` with the configured key `key`: the
      response, the projects afterwards, and the upload request when one was
      sent. Every refusal comes before the provider is contacted. */
  function Upload(projects: seq<Project>, now: nat, caller: Id, projectId: Id, file: Option<IncomingFile>,
                  key: Option<string>, outcome: UploadOutcome): (o: (Response, seq<Project>, Option<UploadRequest>))
    ensures o.2.None? ==> o.1 == projects
    ensures file.None? ==> o == (Failure(400, "No file provided"), projects, None)
    ensures file.Some? && !OwnsProject(projects, caller, projectId) ==>
      o == (Failure(404, "Project not found"), projects, None)
    ensures file.Some? && OwnsProject(projects, caller, projectId) && !Truthy(key) ==>
      o == (Failure(500, "OpenAI API key not configured"), projects, None)
    ensures file.Some? && OwnsProject(projects, caller, projectId) && Truthy(key) ==>
      o.2 == Some(UploadRequest(file.value.originalName, file.value.mimeType, UploadPurpose))
    ensures file.Some? && OwnsProject(projects, caller, projectId) && Truthy(key) && outcome.Uploaded? ==>
      var p := projects[projectId];
      && o.1 == projects[projectId := p.(fileIds := p.fileIds + [outcome.meta.id], updatedAt := now)]
      && o.0 == Success(200, Some("File uploaded successfully"), Some(FileData(FileViewOf(outcome.meta))))
    ensures file.Some? && OwnsProject(projects, caller, projectId) && Truthy(key) && outcome.UploadFailed? ==>
      && o.1 == projects
      && o.0 == FailureWithError(500, "Error uploading file to OpenAI",
                                 if Truthy(outcome.detail) then outcome.detail.value else "Unknown error")
  {
    if file.None? then (Failure(400, "No file provided"), projects, None)
    else if !OwnsProject(projects, caller, projectId) then (Failure(404, "Project not found"), projects, None)
    else if !Truthy(key) then (Failure(500, "OpenAI API key not configured"), projects, None)
    else
      var request := Some(UploadRequest(file.value.originalName, file.value.mimeType, UploadPurpose));
      match outcome
      case Uploaded(meta) =>
        var p := projects[projectId];
        (Success(200, Some("File uploaded successfully"), Some(FileData(FileViewOf(meta)))),
         projects[projectId := p.(fileIds := p.fileIds + [meta.id], updatedAt := now)],
         request)
      case UploadFailed(detail) =>
        (FailureWithError(500, "Error uploading file to OpenAI", if Truthy(detail) then detail.value else "Unknown error"),
         projects, request)
  }

  /** Changing only a project's file list and save time keeps the store
      valid. */
  lemma FilesEditKeepsValid(projects: seq<Project>, chats: seq<Chat>, now: nat, id: Id, fileIds: seq<string>)
    requires ProjectsValid(projects, now) && ChatsValid(chats, projects, now) && id < |projects|
    ensures var q := projects[id].(fileIds := fileIds, updatedAt := now);
      ProjectsValid(projects[id := q], now) && ChatsValid(chats, projects[id := q], now)
  {
    assert ProjectWellFormed(projects[id], now);
    Projects.ReplaceKeepsValid(projects, chats, now, id, projects[id].(fileIds := fileIds, updatedAt := now));
  }

  lemma UploadKeepsValid(projects: seq<Project>, chats: seq<Chat>, now: nat, caller: Id, projectId: Id,
                         file: Option<IncomingFile>, key: Option<string>, outcome: UploadOutcome)
    requires ProjectsValid(projects, now) && ChatsValid(chats, projects, now)
    ensures var after := Upload(projects, now, caller, projectId, file, key, outcome).1;
      ProjectsValid(after, now) && ChatsValid(chats, after, now)
  {
    if file.Some? && OwnsProject(projects, caller, projectId) && Truthy(key) && outcome.Uploaded? {
      FilesEditKeepsValid(projects, chats, now, projectId, projects[projectId].fileIds + [outcome.meta.id]);
    }
  }

  /** `uploadFile` applied to the store. */
  method UploadFile(db: Database, caller: Id, projectId: Id, file: Option<IncomingFile>, key: Option<string>,
                    outcome: UploadOutcome) returns (r: Response, sent: Option<UploadRequest>)
    requires db.Valid()
    modifies db
    ensures db.Valid()
    ensures db.clock == old(db.clock) + 1 && db.users == old(db.users) && db.chats == old(db.chats)
    ensures (r, db.projects, sent) == Upload(old(db.projects), db.clock, caller, projectId, file, key, outcome)
  {
    var now := db.Tick();
    UploadKeepsValid(db.projects, db.chats, now, caller, projectId, file, key, outcome);
    var o := Upload(db.projects, now, caller, projectId, file, key, outcome);
    r, db.projects, sent := o.0, o.1, o.2;
  }

  /** The metadata of `ids`, fetched one by one, in order, leaving out every
      id whose fetch failed. */
  function Fetched(ids: seq<string>, fetch: string -> Option<FileMeta>): (vs: seq<FileView>)
    ensures |vs| <= |ids|
    ensures forall v :: v in vs ==> exists k :: 0 <= k < |ids| && fetch(ids[k]).Some? && v == FileViewOf(fetch(ids[k]).value)
  {
    if ids == [] then []
    else
      var last := ids[|ids| - 1];
      var earlier := Fetched(ids[..|ids| - 1], fetch);
      var vs := earlier + (if fetch(last).Some? then [FileViewOf(fetch(last).value)] else []);
      forall v | v in vs
        ensures exists k :: 0 <= k < |ids| && fetch(ids[k]).Some? && v == FileViewOf(fetch(ids[k]).value)
      {
        if v in earlier {
          var k :| 0 <= k < |ids| - 1 && fetch(ids[..|ids| - 1][k]).Some?
                   && v == FileViewOf(fetch(ids[..|ids| - 1][k]).value);
          assert ids[..|ids| - 1][k] == ids[k];
        } else {
          assert v == FileViewOf(fetch(ids[|ids| - 1]).value);
        }
      }
      vs
  }

  /** Fetching a concatenation fetches each part in turn. */
  lemma {:induction false} FetchedAppend(a: seq<string>, b: seq<string>, fetch: string -> Option<FileMeta>)
    ensures Fetched(a + b, fetch) == Fetched(a, fetch) + Fetched(b, fetch)
  {
    if b == [] {
      assert a + b == a;
    } else {
      var b' := b[..|b| - 1];
      assert (a + b)[..|a + b| - 1] == a + b';
      assert (a + b)[|a + b| - 1] == b[|b| - 1];
      FetchedAppend(a, b', fetch);
    }
  }

  /** When every fetch succeeds, the list shows every file, in order. */
  lemma {:induction false} FetchedAll(ids: seq<string>, fetch: string -> Option<FileMeta>)
    requires forall k :: 0 <= k < |ids| ==> fetch(ids[k]).Some?
    ensures |Fetched(ids, fetch)| == |ids|
    ensures forall k :: 0 <= k < |ids| ==> Fetched(ids, fetch)[k] == FileViewOf(fetch(ids[k]).value)
  {
    if ids != [] {
      var init := ids[..|ids| - 1];
      assert forall k :: 0 <= k < |init| ==> init[k] == ids[k];
      FetchedAll(init, fetch);
    }
  }

  /** `getProjectFiles` with the configured key `key` and `fetch` the
      provider's answer for each id. A missing key or an empty list answers
      an empty list without contacting the provider; a failed fetch drops
      that file. */
  function GetProjectFiles(projects: seq<Project>, caller: Id, projectId: Id, key: Option<string>,
                           fetch: string -> Option<FileMeta>): (r: Response)
    ensures !OwnsProject(projects, caller, projectId) ==> r == Failure(404, "Project not found")
    ensures OwnsProject(projects, caller, projectId) && (!Truthy(key) || projects[projectId].fileIds == []) ==>
      r == Success(200, None, Some(FileList([])))
    ensures OwnsProject(projects, caller, projectId) && Truthy(key) ==>
      r == Success(200, None, Some(FileList(Fetched(projects[projectId].fileIds, fetch))))
  {
    if !OwnsProject(projects, caller, projectId) then Failure(404, "Project not found")
    else if !Truthy(key) || projects[projectId].fileIds == [] then Success(200, None, Some(FileList([])))
    else Success(200, None, Some(FileList(Fetched(projects[projectId].fileIds, fetch))))
  }

  /** `ids.filter(id => id !== x)`. */
  function RemoveAll(ids: seq<string>, x: string): (r: seq<string>)
    ensures multiset(r)[x] == 0
    ensures forall y :: y != x ==> multiset(r)[y] == multiset(ids)[y]
  {
    if ids == [] then []
    else
      var earlier := RemoveAll(ids[..|ids| - 1], x);
      assert ids == ids[..|ids| - 1] + [ids[|ids| - 1]];
      if ids[|ids| - 1] == x then earlier else earlier + [ids[|ids| - 1]]
  }

  /** Filtering a concatenation filters each part, so the kept ids stay in
      their order. */
  lemma {:induction false} RemoveAllAppend(a: seq<string>, b: seq<string>, x: string)
    ensures RemoveAll(a + b, x) == RemoveAll(a, x) + RemoveAll(b, x)
  {
    if b == [] {
      assert a + b == a;
    } else {
      var b' := b[..|b| - 1];
      assert (a + b)[..|a + b| - 1] == a + b';
      assert (a + b)[|a + b| - 1] == b[|b| - 1];
      RemoveAllAppend(a, b', x);
    }
  }

  /** Filtering out an id that is not there changes nothing. */
  lemma {:induction false} RemoveAbsent(ids: seq<string>, x: string)
    requires x !in ids
    ensures RemoveAll(ids, x) == ids
  {
    if ids != [] {
      var init := ids[..|ids| - 1];
      assert ids == init + [ids[|ids| - 1]];
      RemoveAbsent(init, x);
    }
  }

  /** Removing a file that was just added with a new id gives back the
      project's previous list. */
  lemma RemoveUndoesUpload(ids: seq<string>, x: string)
    requires x !in ids
    ensures RemoveAll(ids + [x], x) == ids
  {
    RemoveAllAppend(ids, [x], x);
    RemoveAbsent(ids, x);
    assert RemoveAll([x], x) == [] by {
      assert [x][..0] == [];
    }
  }

  /** `deleteFile` at time `now` with the configured key `key`: the
      response, the projects afterwards, and whether the provider was asked
      to delete the file. The provider's answer does not matter: the id is
      removed locally either way. */
  function Delete(projects: seq<Project>, now: nat, caller: Id, projectId: Id, fileId: string, key: Option<string>)
    : (o: (Response, seq<Project>, bool))
    ensures o.2 ==> Truthy(key)
    ensures !OwnsProject(projects, caller, projectId) ==> o == (Failure(404, "Project not found"), projects, false)
    ensures OwnsProject(projects, caller, projectId) && fileId !in projects[projectId].fileIds ==>
      o == (Failure(404, "File not found in project"), projects, false)
    ensures OwnsProject(projects, caller, projectId) && fileId in projects[projectId].fileIds ==>
      var p := projects[projectId];
      && o.1 == projects[projectId := p.(fileIds := RemoveAll(p.fileIds, fileId), updatedAt := now)]
      && fileId !in o.1[projectId].fileIds
      && o.2 == Truthy(key)
      && o.0 == Success(200, Some("File deleted successfully"), None)
  {
    if !OwnsProject(projects, caller, projectId) then (Failure(404, "Project not found"), projects, false)
    else if fileId !in projects[projectId].fileIds then (Failure(404, "File not found in project"), projects, false)
    else
      var p := projects[projectId];
      var kept := RemoveAll(p.fileIds, fileId);
      assert fileId !in multiset(kept);
      (Success(200, Some("File deleted successfully"), None),
       projects[projectId := p.(fileIds := kept, updatedAt := now)],
       Truthy(key))
  }

  lemma DeleteKeepsValid(projects: seq<Project>, chats: seq<Chat>, now: nat, caller: Id, projectId: Id,
                         fileId: string, key: Option<string>)
    requires ProjectsValid(projects, now) && ChatsValid(chats, projects, now)
    ensures var after := Delete(projects, now, caller, projectId, fileId, key).1;
      ProjectsValid(after, now) && ChatsValid(chats, after, now)
  {
    if OwnsProject(projects, caller, projectId) && fileId in projects[projectId].fileIds {
      FilesEditKeepsValid(projects, chats, now, projectId, RemoveAll(projects[projectId].fileIds, fileId));
    }
  }

  /** `deleteFile` applied to the store. */
  method DeleteFile(db: Database, caller: Id, projectId: Id, fileId: string, key: Option<string>)
    returns (r: Response, contacted: bool)
    requires db.Valid()
    modifies db
    ensures db.Valid()
    ensures db.clock == old(db.clock) + 1 && db.users == old(db.users) && db.chats == old(db.chats)
    ensures (r, db.projects, contacted) == Delete(old(db.projects), db.clock, caller, projectId, fileId, key)
  {
    var now := db.Tick();
    DeleteKeepsValid(db.projects, db.chats, now, caller, projectId, fileId, key);
    var o := Delete(db.projects, now, caller, projectId, fileId, key);
    r, db.projects, contacted := o.0, o.1, o.2;
  }
}

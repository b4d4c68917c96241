# ChattyAgent backend in Dafny

This project models the ChattyAgent backend. It is an Express API over MongoDB: users register and log in, and each user organises chats with an AI assistant into projects. A project carries a system prompt and a list of files uploaded to the OpenAI Files API. Sending a message stores the user's message and asks OpenAI's chat-completions endpoint for a reply. The model covers these parts:

- **Controllers:** projects, chats, files and auth.
- **Middleware:** the authentication middleware.
- **Application handlers:** the fallback for unknown routes (`App.NotFoundRoute`) and the global error handler.
- **Schemas:** the three Mongoose schemas.

The database is a `Store.Database` object with three collections and a logical clock:

- **Collections:** each collection is a sequence of documents, and a document's id is its position. Inserts append and deletes are soft, so ids are never reused.
- **Clock:** every request that writes projects or chats ticks the clock once. All timestamps written by that request carry that tick. Users carry no timestamps in the model, so registering and updating a profile leave the clock alone.
- **Invariant:** `Database.Valid()` collects what the schemas and controllers keep true of every saved document:
  - emails are normalised and unique;
  - project names are trimmed, non-empty and unique per owner;
  - every chat refers to a project of the same owner;
  - an active chat never sits under a deleted project;
  - messages have content and non-decreasing timestamps.

Each request handler that writes is written twice:

1. **A pure function** (`Projects.Create`, `Chats.Send`, ...) maps the collections, the time and the request to the response and the new collections. Its contract lists every response the handler can give and the exact new state.
2. **A method on the database** (`Projects.CreateProject`, ...) performs that function in place. For projects and chats it ticks the clock. Every such method keeps `Valid()`, through a `...KeepsValid` lemma about the pure function.

Read-only handlers are pure functions only.

External services are parameters or results:

- **bcrypt:** `hash` and `compare` are function parameters.
- **JWT:** `jwt.verify` maps a token to its claims or to nothing, and an issued token is represented by the claims it signs.
- **OpenAI calls:** the completion outcome, the upload outcome and the metadata fetch are parameters. The requests sent to OpenAI are results, so the contracts can say when OpenAI is contacted and with what.
- **Configuration:** the configured OpenAI key is a parameter.

Request fields are `Option<string>`, where `None` means the field was absent. JavaScript truthiness of a string is `Text.Truthy`. The id fields `projectId` (chat creation and the chat list filter) and `chatId` (sending a message) are `Option<Id>`: an absent or empty id, which the source treats as falsy (a 400, or no filter), is `None`.

## Model

| member | source | states |
|---|---|---|
| `Text.Trim` | backend/src/controllers/projectController.js:9 | the result has no whitespace at either end, is the infix of the input left after dropping leading and trailing whitespace, and is empty exactly when the input is all whitespace |
| `Text.TrimIdempotent` | backend/src/models/Project.js:4-8 | trimming a trimmed value changes nothing, so the schema setter and the controllers' own `trim` agree |
| `Text.TrimLowerCommute` | backend/src/models/User.js:4-10 | lower-casing and trimming commute, which makes the email setters order-independent |
| `Text.Split` | backend/src/controllers/authController.js:42 | `split` on one character: at least one part, no part contains the separator |
| `Text.SplitJoin` | backend/src/middleware/auth.js:7 | splitting separator-free parts joined by the separator gives back the parts |
| `Text.JoinSplit` | backend/src/middleware/auth.js:7 | joining the split of a string gives back the string |
| `Models.ParseRole` | backend/src/models/Chat.js:4-8 | the role enum accepts a string only when it is a role's own name |
| `Models.ParseRoleName` | backend/src/models/Chat.js:4-8 | every role's name is accepted as that role |
| `Models.ParseRoleRejects` | backend/src/models/Chat.js:4-8 | any other string is refused |
| `Models.BuildMessage` | backend/src/models/Chat.js:3-17 | a message saves exactly when its role is valid and its content is non-empty; it keeps both and takes the current time; a refusal names at least one path |
| `Models.BuildChat` | backend/src/models/Chat.js:19-40 | a chat saves exactly when its trimmed title is non-empty; it stores the trimmed title, no messages, active, stamped now |
| `Models.BuildProject` | backend/src/models/Project.js:3-31 | a project saves exactly when its trimmed name is non-empty; trimmed name and description, the given prompt or the default, no files, active |
| `Models.BuildUser` | backend/src/models/User.js:3-21 | a user saves exactly when its normalised email and hash are non-empty; the stored email is its own normal form; the name is trimmed |
| `Models.NormalizeEmail` | backend/src/models/User.js:4-10 | the `lowercase` and `trim` setters: the stored email is trimmed, has no upper-case letter, is no longer than the input, and is empty exactly when the input is all whitespace |
| `Models.NormalizeEmailIdempotent` | backend/src/models/User.js:4-10 | normalising an email twice is normalising it once |
| `Text.ContainsIgnoringCase` | backend/src/controllers/projectController.js:75-76 | `$regex` with the `i` option, read as a case-insensitive substring match |
| `Listing.Select` | backend/src/controllers/projectController.js:68-81 | the filter keeps every matching id and only those, in natural order |
| `Listing.ByRecency` | backend/src/controllers/projectController.js:82 | the sort by `updatedAt` descending is a permutation that is newest first |
| `Listing.InsertKeepsOrder` | backend/src/controllers/projectController.js:82 | one insertion step of that sort keeps a newest-first list newest first |
| `Listing.Ranked` | backend/src/controllers/projectController.js:81-82 | the filtered and sorted ids are a permutation of the filtered ids, newest first |
| `Listing.OrDefault` | backend/src/controllers/projectController.js:64 | a query parameter, or its default when absent |
| `Listing.Skip` | backend/src/controllers/projectController.js:65 | `(page - 1) * limit` is non-negative for a page of at least 1 and a non-negative limit |
| `Listing.Window` | backend/src/controllers/projectController.js:83-84 | `skip` then `limit`: the page has the elements from `skip` on, at most `abs(limit)` of them, all of them for limit 0, none past the end |
| `Listing.PageCount` | backend/src/controllers/projectController.js:106 | `Math.ceil(total / limit)`: absent for limit 0, otherwise the least page count covering `total` |
| `Listing.EveryItemOnSomePage` | backend/src/controllers/projectController.js:65-106 | with a positive limit, item `k` is on page `k / limit + 1`, and that page is within the reported page count |
| `Store.OwnsProject` | backend/src/controllers/projectController.js:123-127 | the filter `{_id, owner: caller, isActive: true}` on projects |
| `Store.OwnsChat` | backend/src/controllers/chatController.js:181-185 | the same filter on chats |
| `Store.NameTaken` | backend/src/controllers/projectController.js:17-20 | `Project.findOne({owner, name})`, with `_id: {$ne: id}` on update (projectController.js:174-178); deleted projects count |
| `Store.FindByEmail` | backend/src/controllers/authController.js:26 | the first user whose stored email matches; absent exactly when none matches |
| `Store.AppendUserKeepsValid` | backend/src/models/User.js:4-10 | a well-formed user with an unused email keeps the unique-email index satisfied |
| `Store.ChatsSurviveProjectEdit` | backend/src/models/Chat.js:25-29 | chat references stay consistent while no project loses its owner or is deactivated |
| `Projects.CreatedDescription` | backend/src/controllers/projectController.js:31 | a new project's description is stored trimmed |
| `Projects.CreatedPrompt` | backend/src/controllers/projectController.js:32 | a new project's prompt is the trimmed prompt when it has content, the default otherwise, never empty |
| `Projects.NameGiven` | backend/src/controllers/projectController.js:9 | the 400 guard passes: the name is present and not blank once trimmed |
| `Projects.Create` | backend/src/controllers/projectController.js:4-60 | 400 without a usable name; 409 when the caller has a project of that name, deleted ones included; otherwise 201 with exactly one appended project built from the trimmed fields |
| `Projects.CreateKeepsValid` | backend/src/controllers/projectController.js:17-34 | creating keeps project names unique per owner and the store valid |
| `Projects.CreateProject` | backend/src/controllers/projectController.js:4-60 | the handler on the store: one clock tick, only projects change, as `Create` says |
| `Projects.Listed` | backend/src/controllers/projectController.js:68-79 | the list filter: the caller's active projects, and with a truthy search only those whose name or description contains it ignoring case |
| `Projects.Total` | backend/src/controllers/projectController.js:88 | the count is the number of projects the filter selects, which is the number the sorted query yields over all pages, and never exceeds the collection |
| `Projects.PageIds` | backend/src/controllers/projectController.js:81-85 | a page holds only listed projects, newest first, no more than the total |
| `Projects.View` | backend/src/controllers/projectController.js:42-50 | the serialised project: id, name, description, prompt and file ids |
| `Projects.ViewShowsOnlyPublicFields` | backend/src/controllers/projectController.js:139-147 | two projects that agree on name, description, prompt and files look the same: owner and activity are not shown |
| `Projects.Views` | backend/src/controllers/projectController.js:93-101 | one view per id, in order |
| `Projects.GetProjects` | backend/src/controllers/projectController.js:62-117 | a negative skip is a 500; otherwise the page and `{page, limit, total, pages}` with defaults 1 and 10 |
| `Projects.EveryProjectOnSomePage` | backend/src/controllers/projectController.js:81-107 | every listed project appears on some page within the page count |
| `Projects.GetProject` | backend/src/controllers/projectController.js:119-157 | 200 with the project exactly when the caller owns it and it is active, 404 otherwise |
| `Projects.HiddenProjectLooksAbsent` | backend/src/controllers/projectController.js:123-134 | another owner's or a deleted project answers as an id that does not exist |
| `Projects.Updated` | backend/src/controllers/projectController.js:188-197 | a truthy name, a given description and a given prompt are stored trimmed; a missing one keeps its old value; `updatedAt` is now; owner, files and activity stay |
| `Projects.ReplaceKeepsValid` | backend/src/controllers/projectController.js:172-186 | replacing a project keeps the store valid when its name stays unique for its owner |
| `Projects.UpdateAdmitted` | backend/src/controllers/projectController.js:165-186 | the two checks before the lookup pass: no name, or a non-blank name no other project of the caller has |
| `Projects.Update` | backend/src/controllers/projectController.js:159-228 | 400 for a blank name, then 409 for a clash with another project of the caller, then 404, else 200 with only that project updated |
| `Projects.UpdateKeepsValid` | backend/src/controllers/projectController.js:173-197 | updating keeps names unique per owner and the store valid |
| `Projects.UpdateProject` | backend/src/controllers/projectController.js:159-228 | the handler on the store, as `Update` says |
| `Projects.Cascade` | backend/src/controllers/projectController.js:248-252 | exactly the chats of that project and owner become inactive and are stamped; everything else is unchanged |
| `Projects.Delete` | backend/src/controllers/projectController.js:230-265 | 404 unless owned and active; otherwise the project becomes inactive, its chats cascade, and it is no longer visible |
| `Projects.DeleteIdempotent` | backend/src/controllers/projectController.js:235-246 | a second delete answers 404 and changes nothing |
| `Projects.DeleteKeepsValid` | backend/src/controllers/projectController.js:234-252 | a delete keeps the store valid and leaves no active chat under the deleted project |
| `Projects.DeleteProject` | backend/src/controllers/projectController.js:230-265 | the handler on the store, as `Delete` says |
| `Chats.ChatTitle` | backend/src/controllers/chatController.js:33 | the title given when truthy, else `Chat ` followed by the date; never empty |
| `Chats.TitleRefusedOnlyWhenBlank` | backend/src/controllers/chatController.js:32-39 | a new chat is refused exactly when the caller sent a whitespace-only title; the dated default always saves |
| `Chats.Create` | backend/src/controllers/chatController.js:6-62 | 400 without a project id, 404 unless the caller owns the active project, 500 for a blank title, else 201 with one appended chat |
| `Chats.CreateKeepsValid` | backend/src/controllers/chatController.js:19-39 | a new chat belongs to an active project of its owner, so the store stays valid |
| `Chats.CreateChat` | backend/src/controllers/chatController.js:6-62 | the handler on the store, as `Create` says |
| `Chats.Listed` | backend/src/controllers/chatController.js:70-78 | the list filter: the caller's active chats, under the given project when one is given |
| `Chats.Total` | backend/src/controllers/chatController.js:87 | the count is the number of chats the filter selects, which is the number the sorted query yields over all pages, and never exceeds the collection |
| `Chats.PageIds` | backend/src/controllers/chatController.js:80-85 | a page holds only the caller's active chats (of the project, if given), newest first |
| `Chats.Summaries` | backend/src/controllers/chatController.js:92-100 | one summary per id, with the project's name and a message count of 0 |
| `Chats.GetChats` | backend/src/controllers/chatController.js:64-116 | a negative skip is a 500; otherwise the page and pagination with defaults 1 and 20 |
| `Chats.EveryChatOnSomePage` | backend/src/controllers/chatController.js:71-106 | every listed chat appears on some page within the page count |
| `Chats.GetChat` | backend/src/controllers/chatController.js:118-166 | 200 with the chat, its messages and its project's name and prompt exactly when the caller owns the active chat, 404 otherwise |
| `Chats.HiddenChatLooksAbsent` | backend/src/controllers/chatController.js:122-133 | another owner's or a deleted chat answers as an id that does not exist |
| `Chats.Prompt` | backend/src/controllers/chatController.js:203-213 | a system entry with the project prompt (the default when empty), then the last ten stored messages in order |
| `Chats.FirstPrompt` | backend/src/controllers/chatController.js:203-213 | a chat's first message is sent with the system entry only |
| `Chats.LongChatPrompt` | backend/src/controllers/chatController.js:209 | after 15 earlier messages, the prompt holds the system entry, the 9 most recent earlier messages and the new one |
| `Chats.ReplyText` | backend/src/controllers/chatController.js:233-272 | the stored reply is the content when present, the no-response text when empty, the apology when the call failed; never empty |
| `Chats.Send` | backend/src/controllers/chatController.js:168-303 | 400 and 404 without contacting OpenAI; otherwise one request with the prompt over the history plus the new message, and the chat gains the trimmed message and the reply |
| `Chats.AppendExchangeWellFormed` | backend/src/models/Chat.js:3-17 | appending two messages with content, stamped now, keeps messages well formed |
| `Chats.ReplaceChatKeepsValid` | backend/src/models/Chat.js:19-39 | replacing one chat by a consistent one keeps the chats valid |
| `Chats.SendKeepsValid` | backend/src/controllers/chatController.js:194-244 | sending keeps every chat's messages well formed and the store valid |
| `Chats.SendMessage` | backend/src/controllers/chatController.js:168-303 | the handler on the store, as `Send` says |
| `Chats.Delete` | backend/src/controllers/chatController.js:305-333 | 404 unless owned and active; otherwise that chat becomes inactive and is no longer visible |
| `Chats.DeleteIdempotent` | backend/src/controllers/chatController.js:309-320 | a second delete answers 404 and changes nothing |
| `Chats.DeleteKeepsValid` | backend/src/controllers/chatController.js:309-313 | a chat delete keeps the store valid |
| `Chats.DeleteChat` | backend/src/controllers/chatController.js:305-333 | the handler on the store, as `Delete` says |
| `Files.Admit` | backend/src/controllers/fileController.js:9-31 | an upload passes exactly when its type is one of the six and it is at most 10 MiB; the type check comes first |
| `Files.FileViewOf` | backend/src/controllers/fileController.js:99-105 | a file's view keeps the provider's fields and reports the creation time in milliseconds |
| `Files.Upload` | backend/src/controllers/fileController.js:35-126 | 400, 404 and a missing key refuse without contacting OpenAI; otherwise one upload request, and on success the file id is appended to the project |
| `Files.FilesEditKeepsValid` | backend/src/controllers/fileController.js:92-93 | changing a project's file list keeps the store valid |
| `Files.UploadKeepsValid` | backend/src/controllers/fileController.js:89-93 | an upload keeps the store valid |
| `Files.UploadFile` | backend/src/controllers/fileController.js:35-126 | the handler on the store, as `Upload` says |
| `Files.Fetched` | backend/src/controllers/fileController.js:157-186 | each listed file comes from a successful fetch of one of the project's ids, and there are no more of them than ids |
| `Files.FetchedAppend` | backend/src/controllers/fileController.js:174-175 | fetching a concatenation lists each part in turn, so the order of ids is kept |
| `Files.FetchedAll` | backend/src/controllers/fileController.js:157-186 | when every fetch succeeds, every file is listed, in order |
| `Files.GetProjectFiles` | backend/src/controllers/fileController.js:128-207 | 404 unless owned; an empty list without a key or without files; otherwise the fetched files |
| `Files.RemoveAll` | backend/src/controllers/fileController.js:253 | the filter removes every copy of the id and keeps every other id as often as before |
| `Files.RemoveAllAppend` | backend/src/controllers/fileController.js:253 | the filter works part by part, so kept ids stay in order |
| `Files.RemoveAbsent` | backend/src/controllers/fileController.js:253 | filtering an absent id changes nothing |
| `Files.RemoveUndoesUpload` | backend/src/controllers/fileController.js:92 | removing an id that the last upload appended gives back the previous list |
| `Files.Delete` | backend/src/controllers/fileController.js:209-268 | 404 for a missing project or file; otherwise the id is removed, and OpenAI is asked to delete it exactly when a key is configured |
| `Files.DeleteKeepsValid` | backend/src/controllers/fileController.js:252-254 | removing a file keeps the store valid |
| `Files.DeleteFile` | backend/src/controllers/fileController.js:209-268 | the handler on the store, as `Delete` says |
| `Auth.UserViewOf` | backend/src/controllers/authController.js:148-155 | the user as the API shows it: id, email and name, never the password hash |
| `Auth.DisplayName` | backend/src/controllers/authController.js:42 | the given name, or the part of the email before its first `@` |
| `Auth.Register` | backend/src/controllers/authController.js:6-74 | 400 for missing fields, 400 for a short password, 409 for a taken email, 500 when the document does not validate, else 201 with one appended user and a token for it |
| `Auth.RegisterKeepsValid` | backend/src/controllers/authController.js:26-45 | registering keeps emails normalised and unique |
| `Auth.RegisterUser` | backend/src/controllers/authController.js:6-74 | the handler on the store, as `Register` says |
| `Auth.Login` | backend/src/controllers/authController.js:76-133 | 200 exactly when the email is known and the password matches its hash; with both fields given, every other answer (unknown email or wrong password) is the same 401 |
| `Auth.RegisterThenLogin` | backend/src/controllers/authController.js:88-111 | a freshly registered account logs in with its password and gets the new user's id |
| `Auth.GetProfile` | backend/src/controllers/authController.js:135-165 | exactly when the id exists, a successful 200 with no message whose data is the user's view; 404 otherwise |
| `Auth.UpdateProfile` | backend/src/controllers/authController.js:167-204 | 404 for an unknown id; otherwise only that user's name changes, to the trimmed name, and only when a name is given |
| `Auth.UpdateProfileIdempotent` | backend/src/controllers/authController.js:171-175 | updating twice with the same name is updating once |
| `Auth.UpdateProfileKeepsValid` | backend/src/controllers/authController.js:171-175 | a profile update keeps the users valid |
| `Auth.UpdateUserProfile` | backend/src/controllers/authController.js:167-204 | the handler on the store, as `UpdateProfile` says |
| `Middleware.BearerToken` | backend/src/middleware/auth.js:6-7 | the second space-separated segment, present exactly when the header has a space |
| `Middleware.BearerTokenRoundTrip` | backend/src/middleware/auth.js:7 | `Bearer <token>` gives back the token |
| `Middleware.Authenticate` | backend/src/middleware/auth.js:5-27 | 401 for a missing or empty token, 401 for a token that does not verify, otherwise the verified claims |
| `Middleware.SignedTokenAuthenticates` | backend/src/middleware/auth.js:16-20 | a verifiable token sent as `Bearer <token>` authenticates as its signer |
| `Middleware.Request.RequireAuth` | backend/src/middleware/auth.js:5-27 | records the caller and passes on exactly when `Authenticate` succeeds; otherwise halts with its 401 and records nothing |
| `Middleware.Request.OptionalAuth` | backend/src/middleware/auth.js:29-44 | always passes on; records the caller only for a verified token |
| `Middleware.Request.ValidateUser` | backend/src/middleware/auth.js:46-62 | passes on with the user loaded exactly when the recorded id exists; otherwise 401 |
| `App.NodeEnv` | backend/src/config.js:10 | the configured environment, `development` when unset or empty |
| `App.HandleError` | backend/src/index.js:46-85 | first match wins: size limit 400, type filter 400, validation 400 with the messages, duplicate key 409, otherwise 500 with the raw message only in development |
| `App.ProductionHidesMessages` | backend/src/index.js:81-84 | outside development a 500 never carries the error's own message |
| `App.NotFoundRoute` | backend/src/index.js:38-43 | any request no router matched gets a 404 with the message `API endpoint not found` and nothing else |
| `App.UploadRejectionsAreClientErrors` | backend/src/index.js:49-62 | every upload the middleware refuses becomes a 400 naming the reason |

## Left out

- Transport is not modelled: HTTP routing, CORS, JSON parsing and Express's `next()` chaining. Route wiring (which middleware guards which route) is not part of this model. The unknown-route fallback is `App.NotFoundRoute`, whatever the request.
- Database and network failures are not modelled. Every handler's own catch-all 500 (`Error creating project`, `Error sending message` and the others) can only happen on such a failure, so those branches are left out. Exceptions:
  - The 500 for a chat title that trims to nothing is modelled.
  - The 500 for a negative skip on the list endpoints is modelled.
  - The 500 for a user document that fails validation is modelled.
- Concurrency is not modelled. Requests run one at a time, so the races between a duplicate check and the following insert do not arise. The unique email index is the invariant `Store.EmailsDistinct`.
- Ids are positions, so ObjectId casting errors (a malformed id is a 500 in the source) do not arise.
- Wall-clock time is not modelled:
  - `createdAt` and `updatedAt` are replaced by a logical clock. Neither timestamp is in the project, chat or user views, although the source returns both.
  - Users carry no timestamps at all, although User.js enables `timestamps`; `getProfile` and `updateProfile` return `createdAt` and `updatedAt`, which the model leaves out.
  - `toLocaleDateString()` is a parameter (`today`).
  - JWT expiry is inside the `verify` oracle.
- Request fields are absent or strings. JSON `null`, numbers and other non-string values in a body are not modelled. Neither are non-numeric `page` and `limit` query values, which `parseInt` would turn into `NaN`. `page` and `limit` are integers; the source does arithmetic on the raw strings.
- `Listing.ByRecency`, `Listing.EveryIdOnSomePage`, `Projects.EveryProjectOnSomePage` and `Chats.EveryChatOnSomePage`: ties in `updatedAt` are broken by natural order. MongoDB leaves the order of ties unspecified, and the source's millisecond timestamps can tie, so in the source a page request may order tied items differently and an item can be missed or shown twice across pages. In the model each write gets its own clock tick, so ties arise only within one request.
- The project search uses MongoDB `$regex` with the `i` option. The model reads it as a case-insensitive substring match: regular-expression metacharacters in the search string are not interpreted.
- Text handling has three simplifications:
  - case folding is ASCII only;
  - string lengths count characters rather than UTF-16 code units, for the six-character password minimum;
  - `trim`'s whitespace set is the ECMAScript one.
- Some Mongoose behaviour is assumed as it works in current versions:
  - the `lowercase` and `trim` setters apply to query filters, so the email lookups use the normalised email;
  - update documents drop undefined keys;
  - `findOneAndUpdate` and `updateMany` bump `updatedAt`.
- `chat.save()` throwing after a successful completion is not modelled. In the source that lands in the completion's catch, which pushes a second, apology reply.
- Populated projects are assumed to exist. `Chats.GetChats`, `Chats.GetChat` and `Chats.Send` require every chat's project reference to resolve, which the store invariant guarantees: documents are never removed.
- Multer errors other than the size limit and the type filter (too many parts, an unexpected field name) are not modelled.
- OpenAI's file contents, the file buffer and the response bodies beyond the fields the handlers read are not modelled. The bearer header sent to OpenAI is not modelled either.
- Where the documentation of the system and the code disagree, the model follows the code:
  - The prompt holds the last ten stored messages including the new one, so nine earlier messages (`Chats.LongChatPrompt`).
  - Project name uniqueness is checked against all of the caller's projects, deleted ones included.
  - On update, the name checks run before the project is looked up, so a clashing name answers 409 even for a project the caller cannot see.

/** The auth controller: register, login, read and update the caller's
    profile. Password hashing and comparison are oracles passed in as
    functions; an issued token is represented by the claims it carries. */
module Auth {
  import opened Wrappers
  import opened Text
  import opened Models
  import opened Http
  import opened Store

  /** The bcrypt cost factor used at registration. */
  const SaltRounds: nat := 12

  const MinPasswordLength: nat := 6

  /** The user as the API shows it. */
  function UserViewOf(users: seq<User>, id: Id): UserView
    requires id < |users|
  {
    UserView(id, users[id].email, users[id].name)
  }

  /** `name || email.split('@')[0]`: the given name, or the part of the
      email before its first `@`. */
  function DisplayName(name: Option<string>, email: string): (n: string)
    ensures Truthy(name) ==> n == name.value
    ensures !Truthy(name) && '@' !in email ==> n == email
    ensures !Truthy(name) && '@' in email ==> n == email[..IndexOf(email, '@')] && '@' !in n
  {
    if Truthy(name) then name.value else Split(email, '@')[0]
  }

  /** `register` with `hash` standing for `bcrypt.hash`. The duplicate check
      looks the email up in its stored (normalised) form. */
  function Register(users: seq<User>, email: Option<string>, password: Option<string>, name: Option<string>,
                    hash: (string, nat) -> string): (o: (Response, seq<User>))
    ensures o.0.status != 201 ==> o.1 == users
    ensures !Truthy(email) || !Truthy(password) ==> o.0 == Failure(400, "Email and password are required")
    ensures Truthy(email) && Truthy(password) && |password.value| < MinPasswordLength ==>
      o.0 == Failure(400, "Password must be at least 6 characters long")
    ensures Truthy(email) && Truthy(password) && |password.value| >= MinPasswordLength
            && FindByEmail(users, NormalizeEmail(email.value)).Some? ==>
      o.0 == Failure(409, "User with this email already exists")
    ensures Truthy(email) && Truthy(password) && |password.value| >= MinPasswordLength
            && FindByEmail(users, NormalizeEmail(email.value)).None? ==>
      var u := BuildUser(email.value, hash(password.value, SaltRounds), Some(DisplayName(name, email.value)));
      && (u.Err? ==> o.0 == Failure(500, "Internal server error during registration"))
      && (u.Ok? ==> o.1 == users + [u.value]
                    && o.0 == Success(201, Some("User registered successfully"),
                                      Some(Session(Claims(|users|, u.value.email), UserView(|users|, u.value.email, u.value.name)))))
  {
    if !Truthy(email) || !Truthy(password) then (Failure(400, "Email and password are required"), users)
    else if |password.value| < MinPasswordLength then (Failure(400, "Password must be at least 6 characters long"), users)
    else if FindByEmail(users, NormalizeEmail(email.value)).Some? then
      (Failure(409, "User with this email already exists"), users)
    else
      var u := BuildUser(email.value, hash(password.value, SaltRounds), Some(DisplayName(name, email.value)));
      if u.Err? then (Failure(500, "Internal server error during registration"), users)
      else
        (Success(201, Some("User registered successfully"),
                 Some(Session(Claims(|users|, u.value.email), UserView(|users|, u.value.email, u.value.name)))),
         users + [u.value])
  }

  /** A registered user is well formed and its email is new, so the users
      stay valid. */
  lemma RegisterKeepsValid(users: seq<User>, email: Option<string>, password: Option<string>, name: Option<string>,
                           hash: (string, nat) -> string)
    requires UsersValid(users)
    ensures UsersValid(Register(users, email, password, name, hash).1)
  {
    if Truthy(email) && Truthy(password) && |password.value| >= MinPasswordLength
       && FindByEmail(users, NormalizeEmail(email.value)).None? {
      var u := BuildUser(email.value, hash(password.value, SaltRounds), Some(DisplayName(name, email.value)));
      if u.Ok? {
        assert UserWellFormed(u.value);
        AppendUserKeepsValid(users, u.value);
      }
    }
  }

  /** `register` applied to the store. */
  method RegisterUser(db: Database, email: Option<string>, password: Option<string>, name: Option<string>,
                      hash: (string, nat) -> string) returns (r: Response)
    requires db.Valid()
    modifies db
    ensures db.Valid()
    ensures db.clock == old(db.clock) && db.projects == old(db.projects) && db.chats == old(db.chats)
    ensures (r, db.users) == Register(old(db.users), email, password, name, hash)
  {
    RegisterKeepsValid(db.users, email, password, name, hash);
    var o := Register(db.users, email, password, name, hash);
    r, db.users := o.0, o.1;
  }

  /** `login` with `compare` standing for `bcrypt.compare`. An unknown email
      and a wrong password get the same answer. */
  function Login(users: seq<User>, email: Option<string>, password: Option<string>,
                 compare: (string, string) -> bool): (r: Response)
    ensures r.status != 200 ==>
      r == Failure(400, "Email and password are required") || r == Failure(401, "Invalid email or password")
    ensures !Truthy(email) || !Truthy(password) ==> r == Failure(400, "Email and password are required")
    ensures Truthy(email) && Truthy(password) && r.status != 200 ==> r == Failure(401, "Invalid email or password")
    ensures r.status == 200 <==>
      && Truthy(email) && Truthy(password)
      && var found := FindByEmail(users, NormalizeEmail(email.value));
         found.Some? && compare(password.value, users[found.value].passwordHash)
    ensures r.status == 200 ==>
      var id := FindByEmail(users, NormalizeEmail(email.value)).value;
      r == Success(200, Some("Login successful"), Some(Session(Claims(id, users[id].email), UserViewOf(users, id))))
  {
    if !Truthy(email) || !Truthy(password) then Failure(400, "Email and password are required")
    else
      var found := FindByEmail(users, NormalizeEmail(email.value));
      if found.None? then Failure(401, "Invalid email or password")
      else if !compare(password.value, users[found.value].passwordHash) then Failure(401, "Invalid email or password")
      else
        var id := found.value;
        Success(200, Some("Login successful"), Some(Session(Claims(id, users[id].email), UserViewOf(users, id))))
  }

  /** Registering and then logging in with the same credentials, under a
      `compare` that accepts a password against its own hash, signs in as
      the new user. */
  lemma RegisterThenLogin(users: seq<User>, email: string, password: string, name: Option<string>,
                          hash: (string, nat) -> string, compare: (string, string) -> bool)
    requires compare(password, hash(password, SaltRounds))
    requires Register(users, Some(email), Some(password), name, hash).0.status == 201
    ensures var after := Register(users, Some(email), Some(password), name, hash).1;
      Login(after, Some(email), Some(password), compare) ==
        Success(200, Some("Login successful"),
                Some(Session(Claims(|users|, after[|users|].email), UserViewOf(after, |users|))))
  {
    var after := Register(users, Some(email), Some(password), name, hash).1;
    var e := NormalizeEmail(email);
    assert FindByEmail(users, e).None?;
    assert after[..|after| - 1] == users;
    assert after[|users|].email == e;
    assert FindByEmail(after, e) == Some(|users|);
  }

  /** `getProfile` for the caller's id. */
  function GetProfile(users: seq<User>, caller: Id): (r: Response)
    ensures r.status == 200 <==> caller < |users|
    ensures caller >= |users| ==> r == Failure(404, "User not found")
    ensures caller < |users| ==> r == Success(200, None, Some(Profile(UserViewOf(users, caller))))
  {
    if caller >= |users| then Failure(404, "User not found")
    else Success(200, None, Some(Profile(UserViewOf(users, caller))))
  }

  /** `updateProfile`: the update `{ name }`. A missing name is dropped from
      the update, so nothing changes; a given one is trimmed by the schema's
      setter. */
  function UpdateProfile(users: seq<User>, caller: Id, name: Option<string>): (o: (Response, seq<User>))
    ensures caller >= |users| ==> o == (Failure(404, "User not found"), users)
    ensures caller < |users| ==>
      && |o.1| == |users|
      && o.1[caller] == (if name.Some? then users[caller].(name := Some(Trim(name.value))) else users[caller])
      && (forall j :: 0 <= j < |users| && j != caller ==> o.1[j] == users[j])
      && o.0 == Success(200, Some("Profile updated successfully"), Some(Profile(UserViewOf(o.1, caller))))
  {
    if caller >= |users| then (Failure(404, "User not found"), users)
    else
      var after := if name.Some? then users[caller := users[caller].(name := Some(Trim(name.value)))] else users;
      (Success(200, Some("Profile updated successfully"), Some(Profile(UserViewOf(after, caller)))), after)
  }

  /** Updating a profile twice with the same name is updating it once. */
  lemma UpdateProfileIdempotent(users: seq<User>, caller: Id, name: Option<string>)
    ensures var once := UpdateProfile(users, caller, name);
      UpdateProfile(once.1, caller, name) == once
  {
    var once := UpdateProfile(users, caller, name);
    if caller < |users| {
      var after := if name.Some? then users[caller := users[caller].(name := Some(Trim(name.value)))] else users;
      assert once.1 == after;
      if name.Some? {
        TrimIdempotent(name.value);
        assert after[caller := after[caller].(name := Some(Trim(name.value)))] == after;
      }
    }
  }

  lemma UpdateProfileKeepsValid(users: seq<User>, caller: Id, name: Option<string>)
    requires UsersValid(users)
    ensures UsersValid(UpdateProfile(users, caller, name).1)
  {
    if caller < |users| && name.Some? {
      var u := users[caller];
      assert UserWellFormed(u);
      var t := Trim(name.value);
      assert Trimmed(t);
      ReplaceUserKeepsValid(users, caller, u.(name := Some(t)));
    }
  }

  /** `updateProfile` applied to the store. */
  method UpdateUserProfile(db: Database, caller: Id, name: Option<string>) returns (r: Response)
    requires db.Valid()
    modifies db
    ensures db.Valid()
    ensures db.clock == old(db.clock) && db.projects == old(db.projects) && db.chats == old(db.chats)
    ensures (r, db.users) == UpdateProfile(old(db.users), caller, name)
  {
    UpdateProfileKeepsValid(db.users, caller, name);
    var o := UpdateProfile(db.users, caller, name);
    r, db.users := o.0, o.1;
  }
}

/** The authentication middleware. A request carries its `Authorization`
    header and the fields the middleware fills in (`userId`, `userEmail`,
    `user`); token verification is an oracle that maps a token to the claims
    it was signed with, or to nothing when the signature or expiry check
    fails. */
module Middleware {
  import opened Wrappers
  import opened Text
  import opened Models
  import opened Http

  /** `authHeader?.split(' ')[1]`: the second space-separated segment of
      the header, if there is one. */
  function BearerToken(header: Option<string>): (token: Option<string>)
    ensures token.Some? ==> header.Some? && ' ' !in token.value
    ensures token.Some? <==> header.Some? && ' ' in header.value
    ensures token.Some? ==> token.value == Split(header.value, ' ')[1]
  {
    if header.None? then None
    else
      var parts := Split(header.value, ' ');
      assert |parts| >= 2 <==> ' ' in header.value by {
        if ' ' in header.value {
          var i := IndexOf(header.value, ' ');
          assert parts == [header.value[..i]] + Split(header.value[i + 1..], ' ');
        }
      }
      if |parts| >= 2 then Some(parts[1]) else None
  }

  /** The header a client builds, `Bearer <token>`, gives back its token. */
  lemma BearerTokenRoundTrip(scheme: string, token: string)
    requires ' ' !in scheme && ' ' !in token
    ensures BearerToken(Some(scheme + " " + token)) == Some(token)
  {
    var header := scheme + " " + token;
    assert Join([scheme, token], ' ') == header by {
      assert Join([scheme, token][1..], ' ') == token;
    }
    SplitJoin([scheme, token], ' ');
  }

  /** `requireAuth`'s decision: the claims of a verified token, or the 401
      it answers with. An empty token counts as missing. */
  function Authenticate(header: Option<string>, verify: string -> Option<Claims>): (r: Result<Claims, Response>)
    ensures !Truthy(BearerToken(header)) ==> r == Err(Failure(401, "Access token required"))
    ensures Truthy(BearerToken(header)) && verify(BearerToken(header).value).None? ==>
      r == Err(Failure(401, "Invalid or expired token"))
    ensures r.Ok? <==> Truthy(BearerToken(header)) && verify(BearerToken(header).value).Some?
    ensures r.Ok? ==> r.value == verify(BearerToken(header).value).value
  {
    var token := BearerToken(header);
    if !Truthy(token) then Err(Failure(401, "Access token required"))
    else
      match verify(token.value)
      case None => Err(Failure(401, "Invalid or expired token"))
      case Some(claims) => Ok(claims)
  }

  /** A token the client sends as `Bearer <token>` authenticates as whoever
      the verifier says signed it. */
  lemma SignedTokenAuthenticates(token: string, verify: string -> Option<Claims>, claims: Claims)
    requires token != "" && ' ' !in token && verify(token) == Some(claims)
    ensures Authenticate(Some("Bearer " + token), verify) == Ok(claims)
  {
    BearerTokenRoundTrip("Bearer", token);
  }

  /** The request state the middleware reads and writes. */
  class Request {
    var authorization: Option<string>
    var userId: Option<Id>
    var userEmail: Option<string>
    var user: Option<User>

    constructor (authorization: Option<string>)
      ensures this.authorization == authorization
      ensures userId.None? && userEmail.None? && user.None?
    {
      this.authorization := authorization;
      userId, userEmail, user := None, None, None;
    }

    /** `requireAuth`: on a verified token, records the caller and passes
        the request on (`halt` is None); otherwise halts with a 401 and
        records nothing. */
    method RequireAuth(verify: string -> Option<Claims>) returns (halt: Option<Response>)
      modifies this
      ensures authorization == old(authorization) && user == old(user)
      ensures match Authenticate(authorization, verify)
        case Ok(claims) => halt.None? && userId == Some(claims.id) && userEmail == Some(claims.email)
        case Err(response) => halt == Some(response) && userId == old(userId) && userEmail == old(userEmail)
    {
      var decision := Authenticate(authorization, verify);
      match decision
      case Ok(claims) =>
        userId, userEmail := Some(claims.id), Some(claims.email);
        halt := None;
      case Err(response) =>
        halt := Some(response);
    }

    /** `optionalAuth`: records the caller when a token is present and
        verifies, and always passes the request on. */
    method OptionalAuth(verify: string -> Option<Claims>)
      modifies this
      ensures authorization == old(authorization) && user == old(user)
      ensures Authenticate(authorization, verify).Ok? ==>
        var claims := Authenticate(authorization, verify).value;
        userId == Some(claims.id) && userEmail == Some(claims.email)
      ensures Authenticate(authorization, verify).Err? ==> userId == old(userId) && userEmail == old(userEmail)
    {
      var token := BearerToken(authorization);
      if Truthy(token) {
        var verified := verify(token.value);
        if verified.Some? {
          userId, userEmail := Some(verified.value.id), Some(verified.value.email);
        }
      }
    }

    /** `validateUser`: loads the recorded caller's user document, or halts
        with a 401 when there is none. */
    method ValidateUser(users: seq<User>) returns (halt: Option<Response>)
      modifies this
      ensures authorization == old(authorization) && userId == old(userId) && userEmail == old(userEmail)
      ensures halt.None? <==> userId.Some? && userId.value < |users|
      ensures halt.None? ==> user == Some(users[userId.value])
      ensures halt.Some? ==> halt == Some(Failure(401, "User not found")) && user == old(user)
    {
      if userId.Some? && userId.value < |users| {
        user := Some(users[userId.value]);
        halt := None;
      } else {
        halt := Some(Failure(401, "User not found"));
      }
    }
  }
}

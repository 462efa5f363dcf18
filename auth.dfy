/**
 * The authentication middleware: `protect` resolves the bearer token of a
 * request to a user and attaches it to the request; `isAdmin` lets only
 * administrators through.
 */
module Auth {
  import opened Wrappers
  import opened JsText
  import opened Mongo

  /** A user document as the middleware attaches it (the password is not selected). */
  datatype User = User(id: ObjectId, name: string, email: string, role: string)

  /** Why a request was turned away; each reason has its own message in the response. */
  datatype Denial = NoToken | InvalidToken | UserNotFound | NoUser | AdminsOnly

  /** Whether the middleware calls `next()` or answers with an error status. */
  datatype Gate = Proceed | Deny(status: nat, reason: Denial)

  /**
   * `authorization?.split(" ")[1]`, kept only when truthy: the second
   * space-separated piece of the header, if there is one and it is not empty.
   */
  function BearerToken(authorization: Option<string>): (token: Option<string>)
    ensures token.Some? ==> token.value != "" && ' ' !in token.value
  {
    match authorization
    case None => None
    case Some(header) =>
      var parts := Split(header, ' ');
      if |parts| > 1 && parts[1] != "" then Some(parts[1]) else None
  }

  /** "Bearer <t>" (and anything after a further space) yields exactly the token `t`. */
  lemma BearerTokenOfHeader(scheme: string, token: string, rest: Option<string>)
    requires ' ' !in scheme && ' ' !in token && token != ""
    ensures rest.None? ==> BearerToken(Some(scheme + " " + token)) == Some(token)
    ensures rest.Some? ==> BearerToken(Some(scheme + " " + token + " " + rest.value)) == Some(token)
  {
    if rest.None? {
      SplitAtSep(scheme, token, ' ');
      SplitWithoutSep(token, ' ');
    } else {
      assert scheme + " " + token + " " + rest.value == scheme + [' '] + (token + [' '] + rest.value);
      SplitAtSep(scheme, token + [' '] + rest.value, ' ');
      SplitAtSep(token, rest.value, ' ');
    }
  }

  /** A header without a space, or with nothing after its first space, carries no token. */
  lemma NoTokenWithoutSecondPiece(scheme: string)
    requires ' ' !in scheme
    ensures BearerToken(Some(scheme)) == None
    ensures BearerToken(Some(scheme + " ")) == None
  {
    SplitWithoutSep(scheme, ' ');
    assert scheme + " " == scheme + [' '] + "";
    SplitAtSep(scheme, "", ' ');
  }

  /** The request object: its Authorization header and the user `protect` attaches. */
  class Request {
    const authorization: Option<string>
    var user: Option<User>

    constructor (authorization: Option<string>)
      ensures this.authorization == authorization && user == None
    {
      this.authorization := authorization;
      user := None;
    }
  }

  /**
   * `protect`. `verify` stands for `jwt.verify` followed by reading the
   * decoded id: `None` when the signature or expiry check throws.
   * `users` is the user collection and `readOk` whether reading the user
   * succeeds; a failed read is caught by the same handler as a bad token.
   */
  method Protect(req: Request, verify: string -> Option<ObjectId>, users: map<ObjectId, User>, readOk: bool)
    returns (gate: Gate)
    modifies req`user
    ensures gate == Proceed <==>
      && BearerToken(req.authorization).Some?
      && verify(BearerToken(req.authorization).value).Some?
      && readOk
      && verify(BearerToken(req.authorization).value).value in users
    ensures gate == Proceed ==>
      req.user == Some(users[verify(BearerToken(req.authorization).value).value])
    ensures gate != Proceed ==> gate.status == 401 && req.user == old(req.user)
    ensures BearerToken(req.authorization).None? ==> gate == Deny(401, NoToken)
    ensures BearerToken(req.authorization).Some? && verify(BearerToken(req.authorization).value).None?
      ==> gate == Deny(401, InvalidToken)
    ensures BearerToken(req.authorization).Some? && verify(BearerToken(req.authorization).value).Some? && !readOk
      ==> gate == Deny(401, InvalidToken)
    ensures BearerToken(req.authorization).Some? && verify(BearerToken(req.authorization).value).Some? && readOk
      && verify(BearerToken(req.authorization).value).value !in users
      ==> gate == Deny(401, UserNotFound)
  {
    var token := BearerToken(req.authorization);
    if token.None? {
      return Deny(401, NoToken);
    }
    var decoded := verify(token.value);
    if decoded.None? {
      return Deny(401, InvalidToken);
    }
    if !readOk {
      return Deny(401, InvalidToken);
    }
    if decoded.value !in users {
      return Deny(401, UserNotFound);
    }
    req.user := Some(users[decoded.value]);
    gate := Proceed;
  }

  /** `isAdmin`: only a request whose user has role exactly "admin" proceeds. */
  function IsAdmin(user: Option<User>): (gate: Gate)
    ensures gate == Proceed <==> user.Some? && user.value.role == "admin"
    ensures gate != Proceed ==> gate.status == 403
    ensures user.None? ==> gate == Deny(403, NoUser)
  {
    if user.None? then Deny(403, NoUser)
    else if user.value.role != "admin" then Deny(403, AdminsOnly)
    else Proceed
  }
}

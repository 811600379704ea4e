/** The bearer-token gate that runs before every book route (`protectRoute`). The token
    verifier and the user directory are collaborators: the verifier is a function from
    token text to the user id embedded in a valid token, the directory a map. */
module AuthMiddleware {
  import opened Common
  import opened JsText

  /** A user id, compared as text. */
  type UserId = string

  /** A user as the directory stores it, credential included. */
  datatype UserRecord = UserRecord(id: UserId, username: string, profileImage: string, password: string)

  /** A user as the gate hands it on: the credential is not part of the type. */
  datatype PublicUser = PublicUser(id: UserId, username: string, profileImage: string)

  const BearerPrefix: string := "Bearer "
  const NoTokenMessage: string := "No authentication token, access denied"
  const InvalidTokenMessage: string := "Token is not valid"

  /** The gate either calls `next()` with the resolved user or answers with a status. */
  datatype GateOutcome = Next(user: PublicUser) | Reject(status: int, message: string)

  /** `findById(id).select("-password")` on a record that exists. */
  function Publish(u: UserRecord): (p: PublicUser) {
    PublicUser(u.id, u.username, u.profileImage)
  }

  /** The header is present, not empty, and starts with the literal `"Bearer "`. */
  predicate HasBearerHeader(header: Option<string>) {
    header.Some? && header.value != "" && StartsWith(header.value, BearerPrefix)
  }

  /** `authHeader.split(" ")[1].trim()`: the second space-separated field, trimmed. */
  function ExtractToken(header: string): (token: string)
    requires StartsWith(header, BearerPrefix)
    ensures ' ' !in token
    ensures token == [] || (!IsJsWhitespace(token[0]) && !IsJsWhitespace(token[|token| - 1]))
  {
    assert header == "Bearer" + " " + header[|BearerPrefix|..];
    SplitWordSpace("Bearer", header[|BearerPrefix|..]);
    var field := Split(header)[1];
    Trim(field)
  }

  /** The token is the first space-separated word after the prefix, trimmed; whatever
      follows a further space is ignored. */
  lemma TokenIsFirstWord(rest: string)
    ensures ExtractToken(BearerPrefix + rest) == Trim(Split(rest)[0])
  {
    assert BearerPrefix + rest == "Bearer" + " " + rest;
    SplitWordSpace("Bearer", rest);
  }

  /** `"Bearer t"` and `"Bearer t junk"` both carry `trim(t)`: only the second field counts. */
  lemma TokenIgnoresTrailingFields(t: string, junk: string)
    requires ' ' !in t
    ensures ExtractToken(BearerPrefix + t) == Trim(t)
    ensures ExtractToken(BearerPrefix + (t + " " + junk)) == Trim(t)
  {
    TokenIsFirstWord(t);
    TokenIsFirstWord(t + " " + junk);
    SplitWordSpace(t, junk);
  }

  /** A doubled space after the scheme carries the empty token. */
  lemma DoubleSpaceGivesEmptyToken(rest: string)
    ensures ExtractToken(BearerPrefix + (" " + rest)) == ""
  {
    TokenIsFirstWord(" " + rest);
    LeadingSpaceGivesEmptyField(rest);
    assert |Trim("")| <= 0;
  }

  /** `jwt.verify(token, secret)`: the library refuses an empty token outright; any other
      token is judged by the verifier, which yields the embedded user id or fails. */
  function JwtVerify(verify: string -> Option<UserId>, token: string): (uid: Option<UserId>)
  {
    if token == "" then None else verify(token)
  }

  /** The user a well-formed header resolves to: there is one exactly when the verifier
      accepts the token and the directory holds the id it carries, and it is that record
      without its credential. */
  function Resolve(header: string, verify: string -> Option<UserId>, users: map<UserId, UserRecord>): (u: Option<PublicUser>)
    requires StartsWith(header, BearerPrefix)
    ensures var id := JwtVerify(verify, ExtractToken(header));
            && (u.Some? <==> id.Some? && id.value in users)
            && (u.Some? ==> u.value == Publish(users[id.value]))
  {
    match JwtVerify(verify, ExtractToken(header))
    case Some(id) => if id in users then Some(Publish(users[id])) else None
    case None => None
  }

  /** What `protectRoute` decides for a request with the given `Authorization` header. */
  function Authenticate(header: Option<string>, verify: string -> Option<UserId>, users: map<UserId, UserRecord>): (o: GateOutcome)
    ensures o.Reject? ==> o.status == 401
    ensures o == Reject(401, NoTokenMessage) <==> !HasBearerHeader(header)
    ensures o == Reject(401, InvalidTokenMessage) <==> HasBearerHeader(header) && Resolve(header.value, verify, users).None?
    ensures o.Next? <==> HasBearerHeader(header) && Resolve(header.value, verify, users).Some?
    ensures o.Next? ==> o.user == Resolve(header.value, verify, users).value
  {
    if !HasBearerHeader(header) then Reject(401, NoTokenMessage)
    else match Resolve(header.value, verify, users)
      case Some(user) => Next(user)
      case None => Reject(401, InvalidTokenMessage)
  }

  /** The user handed on is the directory's record for the id the token carries, without
      its credential; a token whose user no longer exists is refused like a forged one. */
  lemma ProceedsAsTokenOwner(header: string, verify: string -> Option<UserId>, users: map<UserId, UserRecord>)
    requires StartsWith(header, BearerPrefix)
    ensures var o := Authenticate(Some(header), verify, users);
            var id := JwtVerify(verify, ExtractToken(header));
            && (o.Next? <==> id.Some? && id.value in users)
            && (o.Next? ==> o.user.id == users[id.value].id
                            && o.user.username == users[id.value].username
                            && o.user.profileImage == users[id.value].profileImage)
            && (id.Some? && id.value !in users ==> o == Reject(401, InvalidTokenMessage))
  {
  }

  /** A bearer header whose token is empty gets past the header check and is then refused
      as an invalid token, whatever the verifier says. */
  lemma EmptyTokenIsInvalid(header: string, verify: string -> Option<UserId>, users: map<UserId, UserRecord>)
    requires StartsWith(header, BearerPrefix) && ExtractToken(header) == ""
    ensures Authenticate(Some(header), verify, users) == Reject(401, InvalidTokenMessage)
  {
    assert Resolve(header, verify, users) == None;
  }

  /** `"Bearer "` and `"Bearer  …"` (a doubled space) are such headers. */
  lemma BareAndDoubleSpacedAreInvalid(rest: string, verify: string -> Option<UserId>, users: map<UserId, UserRecord>)
    ensures Authenticate(Some(BearerPrefix), verify, users) == Reject(401, InvalidTokenMessage)
    ensures Authenticate(Some(BearerPrefix + (" " + rest)), verify, users) == Reject(401, InvalidTokenMessage)
  {
    TokenIgnoresTrailingFields("", "");
    assert BearerPrefix + "" == BearerPrefix;
    EmptyTokenIsInvalid(BearerPrefix, verify, users);
    DoubleSpaceGivesEmptyToken(rest);
    EmptyTokenIsInvalid(BearerPrefix + (" " + rest), verify, users);
  }

  /** The request object the middleware updates: `req.user` is set on success only. */
  class Request {
    const authorization: Option<string>
    var user: Option<PublicUser>

    constructor (authorization: Option<string>)
      ensures this.authorization == authorization && user == None
    {
      this.authorization := authorization;
      user := None;
    }
  }

  /** `protectRoute(req, res, next)`: the outcome is that of `Authenticate`; `req.user` is
      set to the resolved user exactly when the request proceeds, and left alone otherwise. */
  method ProtectRoute(req: Request, verify: string -> Option<UserId>, users: map<UserId, UserRecord>)
    returns (outcome: GateOutcome)
    modifies req
    ensures outcome == Authenticate(req.authorization, verify, users)
    ensures outcome.Next? ==> req.user == Some(outcome.user)
    ensures outcome.Reject? ==> req.user == old(req.user)
  {
    var header := req.authorization;
    if header.None? || header.value == "" || !StartsWith(header.value, BearerPrefix) {
      return Reject(401, NoTokenMessage);
    }
    var token := ExtractToken(header.value);
    var decoded := JwtVerify(verify, token);
    if decoded.None? || decoded.value !in users {
      return Reject(401, InvalidTokenMessage);
    }
    var user := Publish(users[decoded.value]);
    req.user := Some(user);
    return Next(user);
  }
}

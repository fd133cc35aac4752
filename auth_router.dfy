/** The `/api/v1/auth` router: the claims of the service's own JWT, the
    resolution of a bearer token to the user whose numeric id is its subject,
    and the Google sign-in flow that verifies a Google ID token, finds or
    creates the user by email and answers with a fresh JWT. JWT signing and
    decoding and Google's token verification are supplied by the caller as
    functions; the clock reading is a parameter. */
module AuthRouter {
  import opened Wrappers
  import opened Text
  import opened Http
  import opened DbModels
  import Schemas
  import UsersRouter

  const DefaultClientId: string := "257248974057-dot98i5phvsc84ckf3paksk1m6l01e1t.apps.googleusercontent.com"
  const ClientIdPlaceholder: string := "YOUR_GOOGLE_CLIENT_ID_HERE"
  const DefaultExpireMinutes: int := 60

  // ---------------------------------------------------------------------------
  // Claims

  /** A JWT payload: subject, email, issued-at and expiry, in seconds. A
      decoded payload may lack any of them; only the subject is read back. */
  datatype Claims = Claims(sub: Option<string>, email: Option<string>, iat: int, exp: int)

  /** Which of the primary-key attributes `user_id` and `id` an object has. */
  datatype PkAttrs = PkAttrs(userId: Option<nat>, id: Option<nat>)

  /** A stored row has `user_id` and no `id` attribute. */
  function AttrsOf(u: User): PkAttrs
  {
    PkAttrs(Some(u.userId), None)
  }

  const AttributeError: string := "AttributeError"

  /** `_get_user_id`: `str(user_id)` when the object has it, else `str(id)`;
      neither raises `AttributeError`. `id` is read only when `user_id` is
      missing. */
  function GetUserId(a: PkAttrs): (r: Result<string, string>)
    ensures a.userId.Some? ==> r == Success(NatToString(a.userId.value))
    ensures a.userId.None? && a.id.Some? ==> r == Success(NatToString(a.id.value))
    ensures r.Failure? <==> a.userId.None? && a.id.None?
  {
    if a.userId.Some? then Success(NatToString(a.userId.value))
    else if a.id.Some? then Success(NatToString(a.id.value))
    else Failure(AttributeError)
  }

  /** The payload `create_jwt_for_user` signs at time `now`. */
  function MintClaims(u: User, now: int, expireMinutes: int): (c: Claims)
    ensures c.sub == Some(NatToString(u.userId))
    ensures c.email == u.profile.email
    ensures c.iat == now && c.exp == now + expireMinutes * 60
  {
    Claims(Some(GetUserId(AttrsOf(u)).value), u.profile.email, now, now + expireMinutes * 60)
  }

  /** `create_jwt_for_user`: the signed claims. */
  function CreateJwtForUser(u: User, now: int, expireMinutes: int, encode: Claims -> string): string
  {
    encode(MintClaims(u, now, expireMinutes))
  }

  /** The subject of a minted token reads back, with `int()`, as the user's
      id, and the token lives exactly `expireMinutes` minutes. */
  lemma MintedSubjectParses(u: User, now: int, expireMinutes: int)
    ensures ParseInt(MintClaims(u, now, expireMinutes).sub.value) == Some(u.userId as int)
    ensures MintClaims(u, now, expireMinutes).exp - MintClaims(u, now, expireMinutes).iat == 60 * expireMinutes
  {
    ParseIntOfNatToString(u.userId);
  }

  // ---------------------------------------------------------------------------
  // get_current_user

  /** `get_current_user`: a token that does not decode (bad signature,
      expired, malformed) is 401 "Invalid or expired token"; a payload without
      `sub` is 401 "Invalid token payload"; a `sub` that `int()` refuses
      escapes as a 500; an id with no row is 401 "User not found". */
  function GetCurrentUser(t: Table, token: string, decode: string -> Option<Claims>): (r: Result<User, HttpError>)
    ensures decode(token).None? ==> r == Failure(Error(401, "Invalid or expired token"))
    ensures decode(token).Some? && decode(token).value.sub.None? ==> r == Failure(Error(401, "Invalid token payload"))
    ensures decode(token).Some? && decode(token).value.sub.Some? && ParseInt(decode(token).value.sub.value).None? ==>
      r == Failure(UsersRouter.InternalError)
    ensures decode(token).Some? && decode(token).value.sub.Some? && ParseInt(decode(token).value.sub.value).Some? ==>
      (ParseInt(decode(token).value.sub.value).value !in t.rows ==> r == Failure(Error(401, "User not found")))
    ensures r.Success? <==>
      && decode(token).Some? && decode(token).value.sub.Some?
      && ParseInt(decode(token).value.sub.value).Some?
      && ParseInt(decode(token).value.sub.value).value in t.rows
    ensures r.Success? ==> r.value == t.rows[ParseInt(decode(token).value.sub.value).value]
    ensures r.Failure? ==> r.error.status == 401 || r.error.status == 500
  {
    match decode(token)
    case None => Failure(Error(401, "Invalid or expired token"))
    case Some(payload) =>
      if payload.sub.None? then Failure(Error(401, "Invalid token payload"))
      else
        match ParseInt(payload.sub.value)
        case None => Failure(UsersRouter.InternalError)
        case Some(id) =>
          match ById(t, id)
          case None => Failure(Error(401, "User not found"))
          case Some(u) => Success(u)
  }

  /** A token minted for a stored user resolves back to that user, provided
      decoding inverts signing for it. */
  lemma MintedTokenResolves(t: Table, u: User, now: int, expireMinutes: int,
                            encode: Claims -> string, decode: string -> Option<Claims>)
    requires ValidTable(t) && u.userId in t.rows && t.rows[u.userId] == u
    requires decode(encode(MintClaims(u, now, expireMinutes))) == Some(MintClaims(u, now, expireMinutes))
    ensures GetCurrentUser(t, CreateJwtForUser(u, now, expireMinutes, encode), decode) == Success(u)
  {
    MintedSubjectParses(u, now, expireMinutes);
  }

  /** Whoever a token resolves to, the ownership checks of the users router
      stop them at any other user's record: 403 on read, update and delete,
      with the store untouched. */
  lemma TokenHolderOwnsOnlyOwnRecord(t: Table, token: string, decode: string -> Option<Claims>,
                                     target: int, h: Option<string>, body: Schemas.UserUpdate)
    requires ValidTable(t)
    requires GetCurrentUser(t, token, decode).Success?
    requires GetCurrentUser(t, token, decode).value.userId != target
    ensures var actor := GetCurrentUser(t, token, decode).value.userId;
      && UsersRouter.StatusCode(UsersRouter.ReadOutcome(t, actor, target, h)) == 403
      && UsersRouter.StatusCode(UsersRouter.UpdateOutcome(t, actor, target, h, body).0) == 403
      && UsersRouter.UpdateOutcome(t, actor, target, h, body).1 == t
      && UsersRouter.StatusCode(UsersRouter.DeleteOutcome(t, actor, target, h).0) == 403
      && UsersRouter.DeleteOutcome(t, actor, target, h).1 == t
  {
  }

  // ---------------------------------------------------------------------------
  // google_login

  /** The fields of a verified Google ID token the flow reads. */
  datatype IdInfo = IdInfo(aud: Option<string>, email: Option<string>, givenName: Option<string>, familyName: Option<string>)

  /** Python's `value or ""` on an optional string. */
  function OrEmpty(s: Option<string>): string
  {
    if s.Some? then s.value else ""
  }

  /** What the checks before the database pass on: email, given and family name. */
  datatype GoogleIdentity = GoogleIdentity(email: string, givenName: string, familyName: string)

  /** The checks of `google_login` before the database is touched: a missing
      or placeholder client id is 500; a token `verify` refuses is 401; a
      token for another audience is 401; a token without a non-empty email is
      400 with detail `noEmail`. */
  function GoogleGate(clientId: string, idToken: string, verify: (string, string) -> Option<IdInfo>,
                      noEmail: string): (r: Result<GoogleIdentity, HttpError>)
    ensures clientId == "" || clientId == ClientIdPlaceholder ==> r.Failure? && r.error.status == 500
    ensures r.Success? <==>
      && clientId != "" && clientId != ClientIdPlaceholder
      && verify(idToken, clientId).Some?
      && verify(idToken, clientId).value.aud == Some(clientId)
      && verify(idToken, clientId).value.email.Some? && verify(idToken, clientId).value.email.value != ""
    ensures r.Success? ==>
      var info := verify(idToken, clientId).value;
      r.value == GoogleIdentity(info.email.value, OrEmpty(info.givenName), OrEmpty(info.familyName))
    ensures r.Failure? ==> r.error.status in {500, 401, 400}
  {
    if clientId == "" || clientId == ClientIdPlaceholder then
      Failure(Error(500, "GOOGLE_CLIENT_ID not configured on server"))
    else
      match verify(idToken, clientId)
      case None => Failure(Error(401, "Invalid Google ID token"))
      case Some(info) =>
        if info.aud != Some(clientId) then Failure(Error(401, "Token audience does not match client ID"))
        else if info.email.None? || info.email.value == "" then Failure(Error(400, noEmail))
        else Success(GoogleIdentity(info.email.value, OrEmpty(info.givenName), OrEmpty(info.familyName)))
  }

  /** The configuration check comes first: with no usable client id every
      request gets the same 500, whatever token it carries and whatever the
      verifier would say. */
  lemma UnconfiguredIgnoresToken(clientId: string, tok1: string, tok2: string,
                                 v1: (string, string) -> Option<IdInfo>, v2: (string, string) -> Option<IdInfo>,
                                 noEmail: string)
    requires clientId == "" || clientId == ClientIdPlaceholder
    ensures GoogleGate(clientId, tok1, v1, noEmail) == GoogleGate(clientId, tok2, v2, noEmail)
  {
  }

  /** The row Google sign-in creates for a new email: the names given, no
      other profile column, no password, explicitly `active`. */
  function GoogleRow(id: GoogleIdentity): NewUser
  {
    NewUser(Profile(Some(id.givenName), Some(id.familyName), Some(id.email), None, None, None, None, None),
            None, Some(Active))
  }

  /** Find the user by email, or insert a new one. */
  function FindOrCreateStep(t: Table, id: GoogleIdentity): (Result<User, DbError>, Table)
    requires ValidTable(t)
  {
    match ByEmail(t, id.email)
    case Some(u) => (Success(u), t)
    case None => InsertStep(t, GoogleRow(id))
  }

  method FindOrCreate(db: UserTable, id: GoogleIdentity) returns (r: Result<User, DbError>)
    requires db.Valid()
    modifies db
    ensures db.Valid()
    ensures (r, db.State()) == FindOrCreateStep(old(db.State()), id)
  {
    var user := ByEmail(db.State(), id.email);
    if user.Some? {
      return Success(user.value);
    }
    r := db.Insert(GoogleRow(id));
  }

  /** An existing email gives its user back and creates nothing; a new email
      gives a newly stored, active user with the given names (or "") and no
      other row changes. Either way the user holds that email. */
  lemma FindOrCreateMeaning(t: Table, id: GoogleIdentity)
    requires ValidTable(t)
    ensures var (r, t') := FindOrCreateStep(t, id);
      && ValidTable(t')
      && (r.Failure? ==> t' == t)
      && (r.Success? ==> r.value.userId in t'.rows && t'.rows[r.value.userId] == r.value
                         && r.value.profile.email == Some(id.email))
      && ((exists k :: k in t.rows && t.rows[k].profile.email == Some(id.email)) ==>
            r.Success? && t' == t && r.value.userId in t.rows)
      && ((forall k :: k in t.rows ==> t.rows[k].profile.email != Some(id.email)) && r.Success? ==>
            && r.value.userId !in t.rows && t'.rows == t.rows[r.value.userId := r.value]
            && r.value.status == Active
            && r.value.profile.firstName == Some(id.givenName)
            && r.value.profile.lastName == Some(id.familyName))
  {
    InsertPreservesValid(t, GoogleRow(id));
  }

  /** The answer to a sign-in: the JWT, its type and the user. */
  datatype JwtResponse = JwtResponse(accessToken: string, tokenType: string, user: Option<UsersRouter.UserView>)

  /** `google_login`: the checks, then find-or-create (a failed commit escapes
      as a 500), then a JWT for the user. */
  function GoogleStep(t: Table, clientId: string, idToken: string, verify: (string, string) -> Option<IdInfo>,
                      now: int, expireMinutes: int, encode: Claims -> string): (Result<JwtResponse, HttpError>, Table)
    requires ValidTable(t)
  {
    match GoogleGate(clientId, idToken, verify, "Google token does not contain email")
    case Failure(e) => (Failure(e), t)
    case Success(id) =>
      var (r, t') := FindOrCreateStep(t, id);
      match r
      case Failure(_) => (Failure(UsersRouter.InternalError), t')
      case Success(u) =>
        (Success(JwtResponse(CreateJwtForUser(u, now, expireMinutes, encode), "bearer", Some(UsersRouter.ViewOf(u)))), t')
  }

  method GoogleLogin(db: UserTable, clientId: string, idToken: string, verify: (string, string) -> Option<IdInfo>,
                     now: int, expireMinutes: int, encode: Claims -> string)
    returns (r: Result<JwtResponse, HttpError>)
    requires db.Valid()
    modifies db
    ensures db.Valid()
    ensures (r, db.State()) == GoogleStep(old(db.State()), clientId, idToken, verify, now, expireMinutes, encode)
  {
    var gate := GoogleGate(clientId, idToken, verify, "Google token does not contain email");
    if gate.Failure? {
      return Failure(gate.error);
    }
    var user := FindOrCreate(db, gate.value);
    if user.Failure? {
      return Failure(UsersRouter.InternalError);
    }
    var accessToken := CreateJwtForUser(user.value, now, expireMinutes, encode);
    r := Success(JwtResponse(accessToken, "bearer", Some(UsersRouter.ViewOf(user.value))));
  }

  /** A refused sign-in changes nothing; a successful one answers with a
      bearer token for a stored user holding the verified email, and that
      token resolves back to the user whenever decoding inverts signing. */
  lemma GoogleStepMeaning(t: Table, clientId: string, idToken: string, verify: (string, string) -> Option<IdInfo>,
                          now: int, expireMinutes: int, encode: Claims -> string, decode: string -> Option<Claims>)
    requires ValidTable(t)
    requires forall u: User :: decode(encode(MintClaims(u, now, expireMinutes))) == Some(MintClaims(u, now, expireMinutes))
    ensures var (r, t') := GoogleStep(t, clientId, idToken, verify, now, expireMinutes, encode);
      && ValidTable(t')
      && (GoogleGate(clientId, idToken, verify, "Google token does not contain email").Failure? ==> t' == t && r.Failure?)
      && (r.Success? ==>
            && r.value.tokenType == "bearer"
            && GetCurrentUser(t', r.value.accessToken, decode).Success?
            && GetCurrentUser(t', r.value.accessToken, decode).value.profile.email
               == verify(idToken, clientId).value.email
            && r.value.user == Some(UsersRouter.ViewOf(GetCurrentUser(t', r.value.accessToken, decode).value)))
  {
    var gate := GoogleGate(clientId, idToken, verify, "Google token does not contain email");
    if gate.Success? {
      FindOrCreateMeaning(t, gate.value);
      var (fr, t') := FindOrCreateStep(t, gate.value);
      if fr.Success? {
        MintedTokenResolves(t', fr.value, now, expireMinutes, encode, decode);
      }
    }
  }
}

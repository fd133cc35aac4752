/** The earlier draft of the Google sign-in router: the client id defaults to
    a placeholder, the subject of the JWT is read with an eager attribute
    fallback, and the answer carries only the token and its type. The
    find-or-create step and the claims are those of `AuthRouter`. */
module AuthDraft {
  import opened Wrappers
  import opened Text
  import opened Http
  import opened DbModels
  import AuthRouter
  import UsersRouter

  /** The client id in use: the environment's, else the placeholder. */
  function ClientId(env: Option<string>): string
  {
    if env.Some? then env.value else AuthRouter.ClientIdPlaceholder
  }

  /** `_get_user_id` as written: `getattr(user, "user_id", getattr(user, "id"))`
      evaluates the fallback first, so an object without `id` raises
      `AttributeError` even when it has `user_id`. */
  function GetUserIdAsWritten(a: AuthRouter.PkAttrs): Result<string, string>
  {
    if a.id.None? then Failure(AuthRouter.AttributeError)
    else if a.userId.Some? then Success(NatToString(a.userId.value))
    else Success(NatToString(a.id.value))
  }

  /** Stored rows have `user_id` and no `id`, so the eager fallback raises for
      every one of them, while the lazy lookup reads their `user_id`. */
  lemma GetUserIdAsWrittenFailsOnRows(u: User)
    ensures GetUserIdAsWritten(AuthRouter.AttrsOf(u)) == Failure(AuthRouter.AttributeError)
    ensures AuthRouter.GetUserId(AuthRouter.AttrsOf(u)) == Success(NatToString(u.userId))
  {
  }

  /** The two lookups agree on every object that has an `id` attribute. */
  lemma GetUserIdAgreesWithId(a: AuthRouter.PkAttrs)
    requires a.id.Some?
    ensures GetUserIdAsWritten(a) == AuthRouter.GetUserId(a)
  {
  }

  /** The draft's answer: the token and its type only. */
  datatype TokenResponse = TokenResponse(accessToken: string, tokenType: string)

  const NoEmailDetail: string := "Google token did not contain an email"

  /** The draft `google_login` with the subject read as written: the checks,
      find-or-create, then `create_jwt_for_user`, whose `_get_user_id` either
      raises (answered 500, after a new user was committed) or gives the
      subject of the signed claims. */
  function GoogleStepAsWritten(t: Table, env: Option<string>, idToken: string,
                               verify: (string, string) -> Option<AuthRouter.IdInfo>,
                               now: int, expireMinutes: int, encode: AuthRouter.Claims -> string): (Result<TokenResponse, HttpError>, Table)
    requires ValidTable(t)
  {
    match AuthRouter.GoogleGate(ClientId(env), idToken, verify, NoEmailDetail)
    case Failure(e) => (Failure(e), t)
    case Success(id) =>
      var (r, t') := AuthRouter.FindOrCreateStep(t, id);
      match r
      case Failure(_) => (Failure(UsersRouter.InternalError), t')
      case Success(u) =>
        match GetUserIdAsWritten(AuthRouter.AttrsOf(u))
        case Failure(_) => (Failure(UsersRouter.InternalError), t')
        case Success(sub) =>
          var claims := AuthRouter.Claims(Some(sub), u.profile.email, now, now + expireMinutes * 60);
          (Success(TokenResponse(encode(claims), "bearer")), t')
  }

  /** As written, no sign-in ever succeeds, because every user the flow finds
      or creates is a stored row, on which the eager lookup raises; a first
      sign-in of a new email nonetheless stores the user before failing. */
  lemma GoogleStepAsWrittenNeverSucceeds(t: Table, env: Option<string>, idToken: string,
                                         verify: (string, string) -> Option<AuthRouter.IdInfo>,
                                         now: int, expireMinutes: int, encode: AuthRouter.Claims -> string)
    requires ValidTable(t)
    ensures GoogleStepAsWritten(t, env, idToken, verify, now, expireMinutes, encode).0.Failure?
    ensures var g := AuthRouter.GoogleGate(ClientId(env), idToken, verify, NoEmailDetail);
      g.Success? && AuthRouter.FindOrCreateStep(t, g.value).0.Success? ==>
        GoogleStepAsWritten(t, env, idToken, verify, now, expireMinutes, encode).0 == Failure(UsersRouter.InternalError)
        && GoogleStepAsWritten(t, env, idToken, verify, now, expireMinutes, encode).1 == AuthRouter.FindOrCreateStep(t, g.value).1
  {
    var g := AuthRouter.GoogleGate(ClientId(env), idToken, verify, NoEmailDetail);
    if g.Success? {
      var r := AuthRouter.FindOrCreateStep(t, g.value).0;
      if r.Success? {
        GetUserIdAsWrittenFailsOnRows(r.value);
      }
    }
  }

  /** The draft `google_login` with the subject read lazily: the checks,
      find-or-create, then a bearer token for the user. */
  function GoogleStep(t: Table, env: Option<string>, idToken: string,
                      verify: (string, string) -> Option<AuthRouter.IdInfo>,
                      now: int, expireMinutes: int, encode: AuthRouter.Claims -> string): (Result<TokenResponse, HttpError>, Table)
    requires ValidTable(t)
  {
    match AuthRouter.GoogleGate(ClientId(env), idToken, verify, NoEmailDetail)
    case Failure(e) => (Failure(e), t)
    case Success(id) =>
      var (r, t') := AuthRouter.FindOrCreateStep(t, id);
      match r
      case Failure(_) => (Failure(UsersRouter.InternalError), t')
      case Success(u) =>
        (Success(TokenResponse(AuthRouter.CreateJwtForUser(u, now, expireMinutes, encode), "bearer")), t')
  }

  method GoogleLogin(db: UserTable, env: Option<string>, idToken: string,
                     verify: (string, string) -> Option<AuthRouter.IdInfo>,
                     now: int, expireMinutes: int, encode: AuthRouter.Claims -> string)
    returns (r: Result<TokenResponse, HttpError>)
    requires db.Valid()
    modifies db
    ensures db.Valid()
    ensures (r, db.State()) == GoogleStep(old(db.State()), env, idToken, verify, now, expireMinutes, encode)
  {
    var gate := AuthRouter.GoogleGate(ClientId(env), idToken, verify, NoEmailDetail);
    if gate.Failure? {
      return Failure(gate.error);
    }
    var user := AuthRouter.FindOrCreate(db, gate.value);
    if user.Failure? {
      return Failure(UsersRouter.InternalError);
    }
    r := Success(TokenResponse(AuthRouter.CreateJwtForUser(user.value, now, expireMinutes, encode), "bearer"));
  }

  /** With `GOOGLE_CLIENT_ID` unset the draft answers 500 to every request,
      before any token is looked at, and changes nothing. */
  lemma UnsetClientIdRefusesAll(t: Table, idToken: string, verify: (string, string) -> Option<AuthRouter.IdInfo>,
                                now: int, expireMinutes: int, encode: AuthRouter.Claims -> string)
    requires ValidTable(t)
    ensures var (r, t') := GoogleStep(t, None, idToken, verify, now, expireMinutes, encode);
      r == Failure(Error(500, "GOOGLE_CLIENT_ID not configured on server")) && t' == t
  {
  }

  /** The draft and the router issue the same token and touch the table the
      same way whenever they use the same client id; they differ only in the
      default client id, the missing-email message and the answer's shape. */
  lemma DraftMatchesRouter(t: Table, clientId: string, idToken: string,
                           verify: (string, string) -> Option<AuthRouter.IdInfo>,
                           now: int, expireMinutes: int, encode: AuthRouter.Claims -> string)
    requires ValidTable(t)
    ensures var (r, t') := GoogleStep(t, Some(clientId), idToken, verify, now, expireMinutes, encode);
      var (r2, t2) := AuthRouter.GoogleStep(t, clientId, idToken, verify, now, expireMinutes, encode);
      && t' == t2
      && (r.Success? <==> r2.Success?)
      && (r.Success? ==> r.value.accessToken == r2.value.accessToken && r.value.tokenType == r2.value.tokenType)
      && (r.Failure? && r.error.status != 400 ==> r2.Failure? && r.error == r2.error)
  {
  }
}

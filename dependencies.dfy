/** The request dependencies of the password-login variant: resolving a
    bearer token whose subject is the user's email, and the gate that admits
    only active accounts. Token decoding is supplied by the caller. */
module Dependencies {
  import opened Wrappers
  import opened Http
  import opened DbModels
  import AuthRouter

  /** The one exception every credential failure raises. */
  const CredentialsError: HttpError := HttpError(401, "Could not validate credentials", Some("Bearer"))

  /** `get_current_user`: a token that does not decode, a payload without
      `sub`, and a `sub` that is no stored user's email all raise
      `CredentialsError`; otherwise the user with that email. */
  function GetCurrentUser(t: Table, token: string, decode: string -> Option<AuthRouter.Claims>): (r: Result<User, HttpError>)
    requires ValidTable(t)
    ensures r.Failure? ==> r.error == CredentialsError
    ensures r.Success? <==>
      && decode(token).Some? && decode(token).value.sub.Some?
      && exists id :: id in t.rows && t.rows[id].profile.email == decode(token).value.sub
    ensures r.Success? ==>
      r.value.userId in t.rows && t.rows[r.value.userId] == r.value
      && r.value.profile.email == decode(token).value.sub
  {
    match decode(token)
    case None => Failure(CredentialsError)
    case Some(payload) =>
      if payload.sub.None? then Failure(CredentialsError)
      else
        match ByEmail(t, payload.sub.value)
        case None => Failure(CredentialsError)
        case Some(u) => Success(u)
  }

  const InactiveError: HttpError := Error(403, "User account is not active")

  /** `get_current_active_user`: a credential failure passes through; an
      account that is not `ACTIVE` is 403; an active user is returned as is. */
  function GetCurrentActiveUser(current: Result<User, HttpError>): (r: Result<User, HttpError>)
    ensures current.Failure? ==> r == current
    ensures current.Success? && current.value.status != Active ==> r == Failure(InactiveError)
    ensures r.Success? <==> current.Success? && current.value.status == Active
    ensures r.Success? ==> r.value == current.value
  {
    match current
    case Failure(e) => Failure(e)
    case Success(u) => if u.status != Active then Failure(InactiveError) else Success(u)
  }

  /** The two dependencies together admit a request exactly when its token
      names, by email, a stored user whose account is active; suspended and
      inactive accounts get 403 and every credential problem 401. */
  lemma ActiveUserAdmission(t: Table, token: string, decode: string -> Option<AuthRouter.Claims>)
    requires ValidTable(t)
    ensures var r := GetCurrentActiveUser(GetCurrentUser(t, token, decode));
      && (r.Success? <==>
            decode(token).Some? && decode(token).value.sub.Some?
            && exists id :: id in t.rows && t.rows[id].profile.email == decode(token).value.sub
                            && t.rows[id].status == Active)
      && (r.Failure? ==> r.error == CredentialsError || r.error == InactiveError)
  {
    var c := GetCurrentUser(t, token, decode);
    if decode(token).Some? && decode(token).value.sub.Some? {
      var e := decode(token).value.sub;
      if exists id :: id in t.rows && t.rows[id].profile.email == e && t.rows[id].status == Active {
        var id :| id in t.rows && t.rows[id].profile.email == e && t.rows[id].status == Active;
        assert c.Success?;
        assert c.value.userId == id;
      }
    }
  }
}

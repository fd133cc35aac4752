/** The `/api/v1/users` endpoints: resource views with their HATEOAS links,
    the ETag of a user, the ownership and conditional-request checks of the
    read, update and delete handlers, the listing with its query bounds, the
    rentals guards and the in-memory store of email-verification jobs.
    The caller's identity arrives already resolved (see `AuthRouter`), as the
    id of the authenticated user. */
module UsersRouter {
  import opened Wrappers
  import opened Text
  import opened Http
  import opened DbModels
  import opened Schemas
  import CrudUsers

  const Prefix: string := "/api/v1/users"

  // ---------------------------------------------------------------------------
  // Resource views

  /** The response model of a user: every column but the password hash. */
  datatype UserView = UserView(userId: nat, profile: Profile, status: UserStatus, createdAt: nat, updatedAt: nat)

  function ViewOf(u: User): UserView
  {
    UserView(u.userId, u.profile, u.status, u.createdAt, u.updatedAt)
  }

  /** A response never reveals the password hash: two rows have the same view
      exactly when they differ at most in `hashed_password`. */
  lemma ViewHidesPassword(a: User, b: User)
    ensures ViewOf(a) == ViewOf(b) <==> a.(hashedPassword := b.hashedPassword) == b
  {
  }

  /** The `_links` of a response; the listing omits `rentals`. */
  datatype Links = Links(selfLink: string, update: string, delete: string, rentals: Option<string>)

  datatype Resource = Resource(view: UserView, links: Links)

  /** `response_model=User`: FastAPI validates a returned dict against `User`,
      which ignores keys it does not declare, so `_links` is dropped and the
      view is what the client receives. */
  function AsResponseModel(r: Resource): UserView
  {
    r.view
  }

  function UserPath(id: nat): string
  {
    Prefix + "/" + NatToString(id)
  }

  /** `add_hateoas`: the view with self, update, delete and rentals links. */
  function WithLinks(u: User): Resource
  {
    var p := UserPath(u.userId);
    Resource(ViewOf(u), Links(p, p, p, Some(p + "/rentals")))
  }

  /** The entry of one user in the listing: self, update and delete links. */
  function ListEntry(u: User): Resource
  {
    var p := UserPath(u.userId);
    Resource(ViewOf(u), Links(p, p, p, None))
  }

  /** The `user_id` path parameter a request path carries for the
      `/{user_id}` routes: the single segment after the prefix, read with
      `int()`. */
  function MatchUserPath(path: string): Option<int>
  {
    var head := Prefix + "/";
    if |path| > |head| && path[..|head|] == head && '/' !in path[|head|..] then ParseInt(path[|head|..])
    else None
  }

  /** Each link of a resource leads back to the same user. */
  lemma LinksResolve(u: User)
    ensures MatchUserPath(WithLinks(u).links.selfLink) == Some(u.userId as int)
    ensures MatchUserPath(ListEntry(u).links.selfLink) == Some(u.userId as int)
  {
    var head := Prefix + "/";
    var path := UserPath(u.userId);
    assert path[..|head|] == head;
    assert path[|head|..] == NatToString(u.userId);
    assert '/' !in NatToString(u.userId) by {
      var s := NatToString(u.userId);
      assert forall k :: 0 <= k < |s| ==> IsDigit(s[k]);
    }
    ParseIntOfNatToString(u.userId);
  }

  // ---------------------------------------------------------------------------
  // ETag

  /** `generate_etag`: a digest of `"{user_id}-{updated_at}"`. The digest is
      taken to be injective, so the ETag is represented by the string it
      digests. */
  function Etag(u: User): string
  {
    NatToString(u.userId) + "-" + NatToString(u.updatedAt)
  }

  lemma DashAt(a: string, b: string)
    ensures (a + "-" + b)[|a|] == '-'
    ensures forall k :: 0 <= k < |a| ==> (a + "-" + b)[k] == a[k]
    ensures (a + "-" + b)[..|a|] == a && (a + "-" + b)[|a| + 1..] == b
  {
  }

  /** Two numerals joined by a dash split back uniquely at the dash. */
  lemma SplitAtDash(a: string, b: string, c: string, d: string)
    requires AllDigits(a) && AllDigits(c)
    requires a + "-" + b == c + "-" + d
    ensures a == c && b == d
  {
    DashAt(a, b);
    DashAt(c, d);
    if |a| < |c| {
      assert false;
    } else if |c| < |a| {
      assert false;
    }
  }

  /** The ETag depends on the user id and `updated_at` and on nothing else. */
  lemma EtagIdentifies(a: User, b: User)
    ensures Etag(a) == Etag(b) <==> a.userId == b.userId && a.updatedAt == b.updatedAt
  {
    if Etag(a) == Etag(b) {
      SplitAtDash(NatToString(a.userId), NatToString(a.updatedAt), NatToString(b.userId), NatToString(b.updatedAt));
      NatToStringInjective(a.userId, b.userId);
      NatToStringInjective(a.updatedAt, b.updatedAt);
    }
  }

  // ---------------------------------------------------------------------------
  // Outcomes

  /** What a handler answers: a raised `HTTPException` (or an uncaught error,
      answered 500), or a response. */
  datatype Outcome =
    | Raised(error: HttpError)
    | NotModified                                // 304, no body and no ETag
    | Ok(body: Resource, etag: Option<string>)   // 200 with an optional ETag header
    | Created(view: UserView)                    // 201
    | Listed(items: seq<UserView>)               // 200
    | NoContent                                  // 204
    | Stub(userId: int)                          // 200, "NOT IMPLEMENTED"

  function StatusCode(o: Outcome): nat
  {
    match o
    case Raised(e) => e.status
    case NotModified => 304
    case Ok(_, _) => 200
    case Created(_) => 201
    case Listed(_) => 200
    case NoContent => 204
    case Stub(_) => 200
  }

  const UserNotFound: HttpError := Error(404, "User not found")
  const InternalError: HttpError := Error(500, "Internal Server Error")

  // ---------------------------------------------------------------------------
  // GET /{user_id}

  /** `get_user_by_id`: 403 for another user, then 404, then 304 when a
      non-empty `If-None-Match` equals the current ETag, else the resource
      with its ETag. */
  function ReadOutcome(t: Table, actorId: nat, userId: int, ifNoneMatch: Option<string>): (o: Outcome)
    ensures actorId != userId ==> o == Raised(Error(403, "Forbidden: cannot view another user"))
    ensures actorId == userId && userId !in t.rows ==> o == Raised(UserNotFound)
    ensures actorId == userId && userId in t.rows ==>
      var row := t.rows[userId];
      if CrudUsers.Truthy(ifNoneMatch) && ifNoneMatch.value == Etag(row) then o == NotModified
      else o == Ok(WithLinks(row), Some(Etag(row)))
  {
    if actorId != userId then Raised(Error(403, "Forbidden: cannot view another user"))
    else if userId !in t.rows then Raised(UserNotFound)
    else
      var row := t.rows[userId];
      var etag := Etag(row);
      if CrudUsers.Truthy(ifNoneMatch) && ifNoneMatch.value == etag then NotModified
      else Ok(WithLinks(row), Some(etag))
  }

  method GetUserById(db: UserTable, actorId: nat, userId: int, ifNoneMatch: Option<string>) returns (o: Outcome)
    requires db.Valid()
    ensures o == ReadOutcome(db.State(), actorId, userId, ifNoneMatch)
  {
    if actorId != userId {
      return Raised(Error(403, "Forbidden: cannot view another user"));
    }
    var user := ById(db.State(), userId);
    if user.None? {
      return Raised(UserNotFound);
    }
    var etag := Etag(user.value);
    if ifNoneMatch.Some? && ifNoneMatch.value != "" && ifNoneMatch.value == etag {
      return NotModified;
    }
    o := Ok(WithLinks(user.value), Some(etag));
  }

  /** `get_user_by_id` as written: the 200 branch hands `add_hateoas(user)`
      to `JSONResponse`, whose `json.dumps` refuses the `datetime` values that
      `model_dump()` leaves in `created_at` and `updated_at`; the `TypeError`
      is answered 500. The other branches are those of `ReadOutcome`. */
  function ReadOutcomeAsWritten(t: Table, actorId: nat, userId: int, ifNoneMatch: Option<string>): Outcome
  {
    if actorId != userId then Raised(Error(403, "Forbidden: cannot view another user"))
    else if userId !in t.rows then Raised(UserNotFound)
    else if CrudUsers.Truthy(ifNoneMatch) && ifNoneMatch.value == Etag(t.rows[userId]) then NotModified
    else Raised(InternalError)
  }

  /** As written, reading a user never delivers it: exactly where the
      intended handler answers 200 with the resource, the code answers 500;
      everywhere else the two agree. */
  lemma ReadAsWrittenNeverDelivers(t: Table, actorId: nat, userId: int, ifNoneMatch: Option<string>)
    ensures !ReadOutcomeAsWritten(t, actorId, userId, ifNoneMatch).Ok?
    ensures ReadOutcome(t, actorId, userId, ifNoneMatch).Ok? <==>
      ReadOutcomeAsWritten(t, actorId, userId, ifNoneMatch) == Raised(InternalError)
    ensures !ReadOutcome(t, actorId, userId, ifNoneMatch).Ok? ==>
      ReadOutcomeAsWritten(t, actorId, userId, ifNoneMatch) == ReadOutcome(t, actorId, userId, ifNoneMatch)
  {
  }

  /** The ownership check comes before the lookup: reading another user's
      record gets the same answer whatever the store holds. */
  lemma ReadForbiddenIgnoresStore(t1: Table, t2: Table, actorId: nat, userId: int, h1: Option<string>, h2: Option<string>)
    requires actorId != userId
    ensures ReadOutcome(t1, actorId, userId, h1) == ReadOutcome(t2, actorId, userId, h2)
    ensures StatusCode(ReadOutcome(t1, actorId, userId, h1)) == 403
  {
  }

  /** Revalidation: an ETag handed out for a row earns 304 later exactly
      while the row at that id has the same `updated_at`. */
  lemma RevalidateWithEtag(t': Table, id: nat, was: User)
    requires id in t'.rows && was.userId == id && t'.rows[id].userId == id
    ensures ReadOutcome(t', id, id, Some(Etag(was))) == NotModified <==> t'.rows[id].updatedAt == was.updatedAt
  {
    EtagIdentifies(was, t'.rows[id]);
  }

  // ---------------------------------------------------------------------------
  // PUT /{user_id}

  /** `update_user`: 403 for another user, then 404, then 412 when a
      non-empty `If-Match` differs from the current ETag; otherwise the
      partial update, answered with the updated resource and its new ETag. A
      failed commit escapes as a 500. */
  function UpdateOutcome(t: Table, actorId: nat, userId: int, ifMatch: Option<string>, body: UserUpdate): (Outcome, Table)
  {
    if actorId != userId then (Raised(Error(403, "Forbidden: cannot update another user")), t)
    else if userId !in t.rows then (Raised(UserNotFound), t)
    else if CrudUsers.Truthy(ifMatch) && ifMatch.value != Etag(t.rows[userId]) then
      (Raised(Error(412, "ETag does not match — resource has changed")), t)
    else
      var (r, t') := CrudUsers.UpdateStep(t, userId, body);
      match r
      case Success(Some(u)) => (Ok(WithLinks(u), Some(Etag(u))), t')
      case _ => (Raised(InternalError), t')
  }

  method UpdateUser(db: UserTable, actorId: nat, userId: int, ifMatch: Option<string>, body: UserUpdate)
    returns (o: Outcome)
    requires db.Valid()
    modifies db
    ensures db.Valid()
    ensures (o, db.State()) == UpdateOutcome(old(db.State()), actorId, userId, ifMatch, body)
  {
    if actorId != userId {
      return Raised(Error(403, "Forbidden: cannot update another user"));
    }
    var existing := ById(db.State(), userId);
    if existing.None? {
      return Raised(UserNotFound);
    }
    var currentEtag := Etag(existing.value);
    if ifMatch.Some? && ifMatch.value != "" && ifMatch.value != currentEtag {
      return Raised(Error(412, "ETag does not match — resource has changed"));
    }
    var r := CrudUsers.UpdateUser(db, userId, body);
    if r.Success? && r.value.Some? {
      o := Ok(WithLinks(r.value.value), Some(Etag(r.value.value)));
    } else {
      o := Raised(InternalError);
    }
  }

  /** The checks `update_user` and `delete_user` share pass: the caller's own
      record, stored, and no non-empty `If-Match` that differs from its
      current ETag. */
  predicate ChecksPass(t: Table, actorId: nat, userId: int, ifMatch: Option<string>)
  {
    actorId == userId && userId in t.rows
    && !(CrudUsers.Truthy(ifMatch) && ifMatch.value != Etag(t.rows[userId]))
  }

  /** The checks run in the order 403, 404, 412, and every rejection leaves
      the store untouched. An update passes exactly when the checks pass; it
      then commits `update_user` and answers 200 with the stored row, patched
      field by field from the body, and the row's new ETag, or 500 when the
      commit fails, which leaves the store as it was. */
  lemma UpdateOutcomeMeaning(t: Table, actorId: nat, userId: int, ifMatch: Option<string>, body: UserUpdate)
    requires ValidTable(t)
    ensures var (o, t') := UpdateOutcome(t, actorId, userId, ifMatch, body);
      && ValidTable(t')
      && (actorId != userId ==> StatusCode(o) == 403)
      && (actorId == userId && userId !in t.rows ==> StatusCode(o) == 404)
      && ((actorId == userId && userId in t.rows && CrudUsers.Truthy(ifMatch) && ifMatch.value != Etag(t.rows[userId]))
            ==> StatusCode(o) == 412)
      && (!ChecksPass(t, actorId, userId, ifMatch) ==> o.Raised? && t' == t)
      && (ChecksPass(t, actorId, userId, ifMatch) ==>
            && t' == CrudUsers.UpdateStep(t, userId, body).1
            && (o.Ok? <==> CrudUsers.UpdateStep(t, userId, body).0.Success?)
            && (!o.Ok? ==> o == Raised(InternalError) && t' == t))
      && (o.Ok? ==>
            && userId in t.rows && userId in t'.rows
            && o.body == WithLinks(t'.rows[userId])
            && o.etag == Some(Etag(t'.rows[userId]))
            && (forall f :: Get(t'.rows[userId].profile, f) ==
                            CrudUsers.Patched(PatchOf(body, f), Get(t.rows[userId].profile, f)))
            && t'.rows[userId].status == t.rows[userId].status
            && t'.rows[userId].createdAt == t.rows[userId].createdAt
            && (forall k :: k in t.rows && k != userId ==> k in t'.rows && t'.rows[k] == t.rows[k]))
  {
    if ChecksPass(t, actorId, userId, ifMatch) {
      UpdateAccepted(t, userId, ifMatch, body);
    }
  }

  /** An update past the checks: the commit's table, and 200 with the patched
      row exactly when the commit succeeds. */
  lemma UpdateAccepted(t: Table, userId: nat, ifMatch: Option<string>, body: UserUpdate)
    requires ValidTable(t) && ChecksPass(t, userId, userId, ifMatch)
    ensures var (o, t') := UpdateOutcome(t, userId, userId, ifMatch, body);
      && ValidTable(t')
      && t' == CrudUsers.UpdateStep(t, userId, body).1
      && (o.Ok? <==> CrudUsers.UpdateStep(t, userId, body).0.Success?)
      && (!o.Ok? ==> o == Raised(InternalError) && t' == t)
      && (o.Ok? ==>
            && userId in t'.rows
            && o.body == WithLinks(t'.rows[userId])
            && o.etag == Some(Etag(t'.rows[userId]))
            && (forall f :: Get(t'.rows[userId].profile, f) ==
                            CrudUsers.Patched(PatchOf(body, f), Get(t.rows[userId].profile, f)))
            && t'.rows[userId].status == t.rows[userId].status
            && t'.rows[userId].createdAt == t.rows[userId].createdAt
            && (forall k :: k in t.rows && k != userId ==> k in t'.rows && t'.rows[k] == t.rows[k]))
  {
    CrudUsers.UpdateStepMeaning(t, userId, body);
    var (r, t') := CrudUsers.UpdateStep(t, userId, body);
    if r.Success? {
      assert r.value.Some?;
      assert UpdateOutcome(t, userId, userId, ifMatch, body) == (Ok(WithLinks(r.value.value), Some(Etag(r.value.value))), t');
    } else {
      assert UpdateOutcome(t, userId, userId, ifMatch, body) == (Raised(InternalError), t);
    }
  }

  /** `update_user` as written: the checks and the commit are those of
      `UpdateOutcome`, but the 200 branch hands `add_hateoas(updated_user)` to
      `JSONResponse`, which fails on the `datetime` fields; the request is
      answered 500 after the update was committed. */
  function UpdateOutcomeAsWritten(t: Table, actorId: nat, userId: int, ifMatch: Option<string>, body: UserUpdate): (Outcome, Table)
  {
    if actorId != userId then (Raised(Error(403, "Forbidden: cannot update another user")), t)
    else if userId !in t.rows then (Raised(UserNotFound), t)
    else if CrudUsers.Truthy(ifMatch) && ifMatch.value != Etag(t.rows[userId]) then
      (Raised(Error(412, "ETag does not match — resource has changed")), t)
    else
      var (_, t') := CrudUsers.UpdateStep(t, userId, body);
      (Raised(InternalError), t')
  }

  /** As written, every update that passes the checks is answered 500, yet
      its commit stands: the store changes exactly as under the intended
      handler, which answers 200 wherever the code answers 500 after a
      successful commit. */
  lemma UpdateAsWrittenCommitsThenFails(t: Table, actorId: nat, userId: int, ifMatch: Option<string>, body: UserUpdate)
    requires ValidTable(t)
    ensures var (o, t') := UpdateOutcomeAsWritten(t, actorId, userId, ifMatch, body);
      var (o2, t2) := UpdateOutcome(t, actorId, userId, ifMatch, body);
      && t' == t2
      && !o.Ok?
      && (ChecksPass(t, actorId, userId, ifMatch) ==> o == Raised(InternalError))
      && (o2.Ok? ==> o == Raised(InternalError))
      && (!o2.Ok? ==> o == o2)
  {
    UpdateOutcomeMeaning(t, actorId, userId, ifMatch, body);
  }

  /** Optimistic concurrency: two clients hold the ETag of the same row, last
      written in an earlier second; once one of them commits a change, the
      other's update with that ETag is refused with 412 and changes nothing. */
  lemma LostUpdatePrevented(t: Table, id: nat, first: UserUpdate, second: UserUpdate)
    requires ValidTable(t) && id in t.rows
    requires t.rows[id].updatedAt < t.clock
    requires UpdateOutcome(t, id, id, Some(Etag(t.rows[id])), first).1 != t
    ensures var t' := UpdateOutcome(t, id, id, Some(Etag(t.rows[id])), first).1;
      var (o2, t'') := UpdateOutcome(t', id, id, Some(Etag(t.rows[id])), second);
      StatusCode(o2) == 412 && t'' == t'
  {
    var row := t.rows[id];
    UpdateOutcomeMeaning(t, id, id, Some(Etag(row)), first);
    CrudUsers.UpdateStepMeaning(t, id, first);
    var t' := UpdateOutcome(t, id, id, Some(Etag(row)), first).1;
    EtagIdentifies(row, t'.rows[id]);
    assert Etag(row) != "";
  }

  /** The ETag has one-second resolution: when the row was last written in the
      current second, a committed change keeps its ETag, so a second client's
      update with the old ETag passes the check and overwrites the first. */
  lemma SameSecondUpdateLost(t: Table, id: nat, first: UserUpdate, second: UserUpdate)
    requires ValidTable(t) && id in t.rows
    requires t.rows[id].updatedAt == t.clock
    requires UpdateOutcome(t, id, id, Some(Etag(t.rows[id])), first).1 != t
    ensures var t' := UpdateOutcome(t, id, id, Some(Etag(t.rows[id])), first).1;
      && t'.rows[id] != t.rows[id]
      && Etag(t'.rows[id]) == Etag(t.rows[id])
      && ChecksPass(t', id, id, Some(Etag(t.rows[id])))
      && UpdateOutcome(t', id, id, Some(Etag(t.rows[id])), second).1 == CrudUsers.UpdateStep(t', id, second).1
  {
    var row := t.rows[id];
    UpdateOutcomeMeaning(t, id, id, Some(Etag(row)), first);
    CrudUsers.UpdateStepMeaning(t, id, first);
    var t' := UpdateOutcome(t, id, id, Some(Etag(row)), first).1;
    EtagIdentifies(row, t'.rows[id]);
    UpdateOutcomeMeaning(t', id, id, Some(Etag(row)), second);
  }

  // ---------------------------------------------------------------------------
  // DELETE /{user_id}

  /** `delete_user` as intended: 403 for another user, then 404, then 412 on
      a stale non-empty `If-Match`; otherwise the row is deleted and the
      answer is 204. */
  function DeleteOutcome(t: Table, actorId: nat, userId: int, ifMatch: Option<string>): (Outcome, Table)
  {
    if actorId != userId then (Raised(Error(403, "Forbidden: cannot delete another user")), t)
    else if userId !in t.rows then (Raised(UserNotFound), t)
    else if CrudUsers.Truthy(ifMatch) && ifMatch.value != Etag(t.rows[userId]) then
      (Raised(Error(412, "ETag does not match — cannot delete. Resource changed.")), t)
    else
      var (deleted, t') := CrudUsers.DeleteStep(t, userId);
      (if deleted then NoContent else Raised(UserNotFound), t')
  }

  method DeleteUser(db: UserTable, actorId: nat, userId: int, ifMatch: Option<string>) returns (o: Outcome)
    requires db.Valid()
    modifies db
    ensures db.Valid()
    ensures (o, db.State()) == DeleteOutcome(old(db.State()), actorId, userId, ifMatch)
  {
    if actorId != userId {
      return Raised(Error(403, "Forbidden: cannot delete another user"));
    }
    var dbUser := ById(db.State(), userId);
    if dbUser.None? {
      return Raised(UserNotFound);
    }
    var currentEtag := Etag(dbUser.value);
    if ifMatch.Some? && ifMatch.value != "" && ifMatch.value != currentEtag {
      return Raised(Error(412, "ETag does not match — cannot delete. Resource changed."));
    }
    var success := CrudUsers.DeleteUser(db, userId);
    o := if success then NoContent else Raised(UserNotFound);
  }

  /** The checks run in the order 403, 404, 412; only when all pass is the
      row removed (and the answer 204); under any rejection the store is
      unchanged. */
  lemma DeleteOutcomeMeaning(t: Table, actorId: nat, userId: int, ifMatch: Option<string>)
    requires ValidTable(t)
    ensures var (o, t') := DeleteOutcome(t, actorId, userId, ifMatch);
      && ValidTable(t')
      && (actorId != userId ==> StatusCode(o) == 403)
      && (actorId == userId && userId !in t.rows ==> StatusCode(o) == 404)
      && ((actorId == userId && userId in t.rows && CrudUsers.Truthy(ifMatch) && ifMatch.value != Etag(t.rows[userId]))
            ==> StatusCode(o) == 412)
      && (o.Raised? ==> t' == t)
      && (o == NoContent <==> actorId == userId && userId in t.rows
                              && !(CrudUsers.Truthy(ifMatch) && ifMatch.value != Etag(t.rows[userId])))
      && (o == NoContent ==> t' == RemoveStep(t, userId))
  {
    CrudUsers.DeleteStepMeaning(t, userId);
  }

  /** `delete_user` as written: `Response` at the end of the handler is never
      imported, so once `delete_user_db` has removed the row the return
      statement raises `NameError`, and the answer is 500. */
  function DeleteOutcomeAsWritten(t: Table, actorId: nat, userId: int, ifMatch: Option<string>): (Outcome, Table)
  {
    if actorId != userId then (Raised(Error(403, "Forbidden: cannot delete another user")), t)
    else if userId !in t.rows then (Raised(UserNotFound), t)
    else if CrudUsers.Truthy(ifMatch) && ifMatch.value != Etag(t.rows[userId]) then
      (Raised(Error(412, "ETag does not match — cannot delete. Resource changed.")), t)
    else
      var (deleted, t') := CrudUsers.DeleteStep(t, userId);
      (if deleted then Raised(InternalError) else Raised(UserNotFound), t')
  }

  /** As written, no delete is answered 204: every delete that passes the
      checks removes the row, exactly as the intended handler does, and is
      then answered 500; elsewhere the two handlers agree. */
  lemma DeleteAsWrittenRemovesThenFails(t: Table, actorId: nat, userId: int, ifMatch: Option<string>)
    requires ValidTable(t)
    ensures var (o, t') := DeleteOutcomeAsWritten(t, actorId, userId, ifMatch);
      var (o2, t2) := DeleteOutcome(t, actorId, userId, ifMatch);
      && t' == t2
      && o != NoContent
      && (ChecksPass(t, actorId, userId, ifMatch) ==> o == Raised(InternalError) && t' == RemoveStep(t, userId))
      && (o2 == NoContent ==> o == Raised(InternalError))
      && (o2 != NoContent ==> o == o2)
  {
    DeleteOutcomeMeaning(t, actorId, userId, ifMatch);
  }

  // ---------------------------------------------------------------------------
  // GET / and POST /

  /** The response body of the listing: one linked entry per user, in order. */
  method ListEntries(users: seq<User>) returns (response: seq<Resource>)
    ensures |response| == |users|
    ensures forall i :: 0 <= i < |users| ==> response[i] == ListEntry(users[i])
  {
    response := [];
    var i := 0;
    while i < |users|
      invariant 0 <= i <= |users|
      invariant |response| == i
      invariant forall k :: 0 <= k < i ==> response[k] == ListEntry(users[k])
    {
      response := response + [ListEntry(users[i])];
      i := i + 1;
    }
  }

  /** `get_users`: `skip >= 0` and `1 <= limit <= 100` are required (422
      otherwise); the handler links each listed user, and `response_model`
      then answers each user's view. */
  method ListUsers(db: UserTable, skip: int, limit: int,
                   city: Option<string>, state: Option<string>, status: Option<string>)
    returns (o: Outcome)
    requires db.Valid()
    ensures skip < 0 || limit < 1 || limit > 100 ==> StatusCode(o) == 422 && o.Raised?
    ensures 0 <= skip && 1 <= limit <= 100 ==>
      var users := SelectSpec(db.State(), CrudUsers.QueryOf(city, state, status), skip, limit);
      o.Listed? && |o.items| == |users| && forall i :: 0 <= i < |users| ==> o.items[i] == ViewOf(users[i])
  {
    if skip < 0 || limit < 1 || limit > 100 {
      return Raised(Error(422, "Unprocessable Entity"));
    }
    var users := CrudUsers.GetUsers(db, skip, limit, city, state, status);
    var response := ListEntries(users);
    o := Listed(seq(|response|, i requires 0 <= i < |response| => AsResponseModel(response[i])));
  }

  /** `create_user` (POST /): stores the body through the router's data layer
      (no password) and answers 201 with the new user's view (`response_model`
      drops the links the handler adds); a failed commit escapes as a 500 and
      stores nothing. */
  function CreateOutcome(t: Table, body: UserCreate): (Outcome, Table)
  {
    var (r, t') := InsertStep(t, CrudUsers.NewRowOf(body));
    (if r.Success? then Created(AsResponseModel(WithLinks(r.value))) else Raised(InternalError), t')
  }

  method CreateUser(db: UserTable, body: UserCreate) returns (o: Outcome)
    requires db.Valid()
    modifies db
    ensures db.Valid()
    ensures (o, db.State()) == CreateOutcome(old(db.State()), body)
  {
    var r := CrudUsers.CreateUser(db, body);
    o := if r.Success? then Created(AsResponseModel(WithLinks(r.value))) else Raised(InternalError);
  }

  /** A 201 carries the new row's view, and the row is stored under a fresh
      id; a 500 leaves the table as it was. */
  lemma CreateOutcomeMeaning(t: Table, body: UserCreate)
    requires ValidTable(t)
    ensures var (o, t') := CreateOutcome(t, body);
      && ValidTable(t')
      && (o.Raised? ==> t' == t && StatusCode(o) == 500)
      && (o.Created? ==>
            exists id :: id !in t.rows && id in t'.rows && o.view == ViewOf(t'.rows[id])
                         && t'.rows[id].profile == CreateProfile(body))
  {
    CrudUsers.CreateUserStores(t, body);
    InsertPreservesValid(t, CrudUsers.NewRowOf(body));
    var (r, t') := InsertStep(t, CrudUsers.NewRowOf(body));
    if r.Success? {
      assert r.value.userId !in t.rows && r.value.userId in t'.rows;
    }
  }

  // ---------------------------------------------------------------------------
  // Rentals

  /** `get_user_rentals`: 403 for another user; otherwise the placeholder dict
      it returns fails validation against `response_model=List[UserRental]`,
      which is answered 500. */
  function RentalsOutcome(actorId: nat, userId: int): (o: Outcome)
    ensures StatusCode(o) == 403 <==> actorId != userId
    ensures actorId == userId ==> o == Raised(InternalError)
  {
    if actorId != userId then Raised(Error(403, "Forbidden: cannot view another user's rentals"))
    else Raised(InternalError)
  }

  /** `get_user_rental_details`: 403 for another user, else the placeholder
      answer; the rental id plays no part in the decision. */
  function RentalDetailsOutcome(actorId: nat, userId: int, rentalId: int): (o: Outcome)
    ensures StatusCode(o) == 403 <==> actorId != userId
    ensures o.Stub? ==> o.userId == userId
  {
    if actorId != userId then Raised(Error(403, "Forbidden: cannot view another user's rental"))
    else Stub(userId)
  }

  // ---------------------------------------------------------------------------
  // Email-verification jobs

  const Pending: string := "pending"
  const Completed: string := "completed"

  /** The answer to `POST /verify-email`. */
  datatype Accepted = Accepted(jobId: string, status: string, pollLink: string, selfLink: string)

  datatype JobOutcome = JobNotFound | JobStatus(jobId: string, status: string, selfLink: string)

  /** The route of the job-status endpoint: the router's prefix, then
      `/jobs/{job_id}`. */
  function JobRoute(jobId: string): string
  {
    Prefix + "/jobs/" + jobId
  }

  /** The job id a request path names if it matches the job-status route's
      pattern. Route order is not modelled: the rentals route, declared
      first, also matches `/jobs/rentals`. */
  function MatchJobRoute(path: string): Option<string>
  {
    var head := Prefix + "/jobs/";
    if |path| > |head| && path[..|head|] == head && '/' !in path[|head|..] then Some(path[|head|..])
    else None
  }

  /** The link the handlers print for a job, as written: it leaves out the
      router's `/users` prefix. */
  function PollLinkAsWritten(jobId: string): string
  {
    "/api/v1/jobs/" + jobId
  }

  /** The link to a job's status: it matches the job-status route's pattern. */
  function PollLink(jobId: string): (link: string)
    ensures MatchJobRoute(link) == (if jobId != [] && '/' !in jobId then Some(jobId) else None)
  {
    var link := JobRoute(jobId);
    var head := Prefix + "/jobs/";
    assert link[..|head|] == head && link[|head|..] == jobId;
    link
  }

  /** The printed link never reaches the job-status route. */
  lemma PollLinkAsWrittenMisses(jobId: string)
    ensures MatchJobRoute(PollLinkAsWritten(jobId)) == None
    ensures PollLinkAsWritten(jobId) != JobRoute(jobId)
  {
    var p := PollLinkAsWritten(jobId);
    var head := Prefix + "/jobs/";
    if |p| > |head| {
      assert p[8] == 'j' && head[8] == 'u';
    }
  }

  predicate ValidJobs(jobs: map<string, string>)
  {
    forall id :: id in jobs ==> jobs[id] == Pending || jobs[id] == Completed
  }

  /** `JOB_STORE`: job id to status. */
  class JobStore {
    var jobs: map<string, string>

    ghost predicate Valid()
      reads this
    {
      ValidJobs(jobs)
    }

    constructor ()
      ensures Valid() && jobs == map[]
    {
      jobs := map[];
    }

    /** `verify_email`: records the job as pending and answers 202 with the
        job id and its links. The job id (a random UUID) and the background
        worker that later completes the job are the caller's. */
    method VerifyEmail(jobId: string) returns (r: Accepted)
      requires Valid()
      modifies this
      ensures Valid()
      ensures jobs == old(jobs)[jobId := Pending]
      ensures r == Accepted(jobId, "accepted", PollLink(jobId), Prefix + "/verify-email")
    {
      jobs := jobs[jobId := Pending];
      r := Accepted(jobId, "accepted", PollLink(jobId), Prefix + "/verify-email");
    }

    /** `process_email_verification`, after its delay: marks the job
        completed and touches no other job. */
    method ProcessEmailVerification(jobId: string)
      requires Valid()
      modifies this
      ensures Valid()
      ensures jobs == old(jobs)[jobId := Completed]
    {
      jobs := jobs[jobId := Completed];
    }

    /** `get_job_status`: 404 for an unknown job, else its stored status. */
    method GetJobStatus(jobId: string) returns (o: JobOutcome)
      requires Valid()
      ensures o == Poll(jobs, jobId)
    {
      if jobId !in jobs {
        return JobNotFound;
      }
      o := JobStatus(jobId, jobs[jobId], PollLink(jobId));
    }
  }

  /** What polling `jobId` answers against the job map. */
  function Poll(jobs: map<string, string>, jobId: string): (o: JobOutcome)
    ensures o == JobNotFound <==> jobId !in jobs
    ensures o.JobStatus? ==> o.status == jobs[jobId] && o.jobId == jobId
  {
    if jobId !in jobs then JobNotFound else JobStatus(jobId, jobs[jobId], PollLink(jobId))
  }

  /** The life of one job: polled right after submission it is pending, after
      completion it is completed, and neither step changes what any other job
      answers. */
  lemma JobLifecycle(jobs: map<string, string>, jobId: string, other: string)
    requires other != jobId
    ensures Poll(jobs[jobId := Pending], jobId).status == Pending
    ensures Poll(jobs[jobId := Pending][jobId := Completed], jobId).status == Completed
    ensures Poll(jobs[jobId := Pending], other) == Poll(jobs, other)
    ensures Poll(jobs[jobId := Completed], other) == Poll(jobs, other)
    ensures ValidJobs(jobs) ==> ValidJobs(jobs[jobId := Pending][jobId := Completed])
  {
  }

  /** Submitting a job, completing it and polling it, on the store itself. */
  method JobScenario(store: JobStore, jobId: string) returns (first: JobOutcome, second: JobOutcome)
    requires store.Valid()
    modifies store
    ensures first.JobStatus? && first.status == Pending
    ensures second.JobStatus? && second.status == Completed
  {
    var accepted := store.VerifyEmail(jobId);
    first := store.GetJobStatus(jobId);
    store.ProcessEmailVerification(jobId);
    second := store.GetJobStatus(jobId);
  }
}

/** The user data-access layer of the authenticated service: lookups by id
    and by email, plain pagination, creation with a hashed password and a
    forced `ACTIVE` status, partial update, delete, password authentication
    and status change. Password hashing and verification are supplied by the
    caller as functions. */
module Crud {
  import opened Wrappers
  import opened DbModels
  import opened Schemas
  import CrudUsers

  /** `get_user`: the row with primary key `id`, if any. */
  method GetUser(db: UserTable, id: int) returns (r: Option<User>)
    requires db.Valid()
    ensures r.Some? <==> id in db.rows
    ensures r.Some? ==> r.value == db.rows[id] && r.value.userId == id
  {
    r := ById(db.State(), id);
  }

  /** `get_user_by_email`: the row whose email is `email`, if any. */
  method GetUserByEmail(db: UserTable, email: string) returns (r: Option<User>)
    requires db.Valid()
    ensures r == ByEmail(db.State(), email)
  {
    r := ByEmail(db.State(), email);
  }

  /** Emails are unique, so the lookup by email is determined: it finds the
      row holding that email whenever there is one. */
  lemma ByEmailFinds(t: Table, id: nat)
    requires ValidTable(t) && id in t.rows
    ensures ByEmail(t, t.rows[id].profile.email.value) == Some(t.rows[id])
  {
    var r := ByEmail(t, t.rows[id].profile.email.value);
    assert r.Some?;
  }

  /** `get_users`: the rows in store order, `[skip:skip + limit]`, 100 at most
      by default. */
  method GetUsers(db: UserTable, skip: nat := 0, limit: nat := 100) returns (r: seq<User>)
    requires db.Valid()
    ensures r == Page(Listing(db.State()), skip, limit)
  {
    r := db.Select(AllUsers, skip, limit);
    FilterAll(Listing(db.State()));
  }

  /** The object `create_user` adds: the body's profile, the hash of the
      password and an explicit `ACTIVE` status. */
  function HashedRowOf(c: UserCreate, hash: string -> string): NewUser
  {
    NewUser(CreateProfile(c), Some(hash(c.password)), Some(Active))
  }

  method CreateUser(db: UserTable, c: UserCreate, hash: string -> string) returns (r: Result<User, DbError>)
    requires db.Valid()
    modifies db
    ensures db.Valid()
    ensures (r, db.State()) == InsertStep(old(db.State()), HashedRowOf(c, hash))
  {
    var hashed := hash(c.password);
    r := db.Insert(NewUser(CreateProfile(c), Some(hashed), Some(Active)));
  }

  /** A created row stores the hash of the password, not the password itself,
      and is `ACTIVE`; the row also passes the column check as declared, since
      it carries a password. */
  lemma CreateUserStoresHash(t: Table, c: UserCreate, hash: string -> string)
    requires ValidTable(t)
    ensures var (r, t') := InsertStep(t, HashedRowOf(c, hash));
      r.Success? ==>
        && r.value.hashedPassword == Some(hash(c.password))
        && r.value.status == Active
        && r.value.profile == CreateProfile(c)
        && t'.rows == t.rows[r.value.userId := r.value]
        && DeclaredRowError(r.value) == None
  {
    InsertPreservesValid(t, HashedRowOf(c, hash));
  }

  /** `update_user`: the same partial update as the router's data layer. */
  method UpdateUser(db: UserTable, id: int, u: UserUpdate) returns (r: Result<Option<User>, DbError>)
    requires db.Valid()
    modifies db
    ensures db.Valid()
    ensures (r, db.State()) == CrudUsers.UpdateStep(old(db.State()), id, u)
  {
    var found := GetUser(db, id);
    if found.None? {
      return Success(None);
    }
    var row := found.value;
    var profile := CrudUsers.AssignAttributes(row.profile, u);
    var saved := db.Save(row.userId, profile, row.status);
    r := if saved.Success? then Success(Some(saved.value)) else Failure(saved.error);
  }

  /** `delete_user` */
  method DeleteUser(db: UserTable, id: int) returns (r: bool)
    requires db.Valid()
    modifies db
    ensures db.Valid()
    ensures (r, db.State()) == CrudUsers.DeleteStep(old(db.State()), id)
  {
    var found := GetUser(db, id);
    if found.None? {
      return false;
    }
    db.Remove(found.value.userId);
    r := true;
  }

  // ---------------------------------------------------------------------------
  // authenticate_user

  /** The user with that email whose stored hash `verify` accepts for the
      password; `None` for an unknown email or a rejected password. */
  function Authenticate(t: Table, email: string, password: string,
                        verify: (string, Option<string>) -> bool): (r: Option<User>)
    requires ValidTable(t)
    ensures r.Some? <==> ByEmail(t, email).Some? && verify(password, ByEmail(t, email).value.hashedPassword)
    ensures r.Some? ==> r == ByEmail(t, email) && r.value.profile.email == Some(email)
  {
    match ByEmail(t, email)
    case None => None
    case Some(u) => if verify(password, u.hashedPassword) then Some(u) else None
  }

  method AuthenticateUser(db: UserTable, email: string, password: string,
                          verify: (string, Option<string>) -> bool)
    returns (r: Option<User>)
    requires db.Valid()
    ensures r == Authenticate(db.State(), email, password, verify)
  {
    var user := GetUserByEmail(db, email);
    if user.None? {
      return None;
    }
    if !verify(password, user.value.hashedPassword) {
      return None;
    }
    r := user;
  }

  /** A stored user authenticates with their email exactly when `verify`
      accepts the password against their stored hash. */
  lemma AuthenticateStoredUser(t: Table, id: nat, password: string,
                               verify: (string, Option<string>) -> bool)
    requires ValidTable(t) && id in t.rows
    ensures var u := t.rows[id];
      Authenticate(t, u.profile.email.value, password, verify) ==
        (if verify(password, u.hashedPassword) then Some(u) else None)
  {
    ByEmailFinds(t, id);
  }

  // ---------------------------------------------------------------------------
  // update_user_status

  /** `update_user_status`: `None` for an unknown id with the table untouched;
      otherwise the row's status is set and the row committed. */
  function StatusStep(t: Table, id: int, status: UserStatus): (Result<Option<User>, DbError>, Table)
  {
    if id !in t.rows then (Success(None), t)
    else
      var (r, t') := SaveStep(t, id, t.rows[id].profile, status);
      (if r.Success? then Success(Some(r.value)) else Failure(r.error), t')
  }

  method UpdateUserStatus(db: UserTable, id: int, status: UserStatus) returns (r: Result<Option<User>, DbError>)
    requires db.Valid()
    modifies db
    ensures db.Valid()
    ensures (r, db.State()) == StatusStep(old(db.State()), id, status)
  {
    var found := GetUser(db, id);
    if found.None? {
      return Success(None);
    }
    var row := found.value;
    var saved := db.Save(row.userId, row.profile, status);
    r := if saved.Success? then Success(Some(saved.value)) else Failure(saved.error);
  }

  /** A status change on a stored row always commits (the row was valid and
      only its status moves), changes nothing but that row's status and, when
      the status differs, its `updated_at`; an unknown id changes nothing. */
  lemma StatusStepMeaning(t: Table, id: int, status: UserStatus)
    requires ValidTable(t)
    ensures ValidTable(StatusStep(t, id, status).1)
    ensures id !in t.rows ==> StatusStep(t, id, status) == (Success(None), t)
    ensures id in t.rows ==>
      var (r, t') := StatusStep(t, id, status);
      var old_ := t.rows[id];
      && r.Success? && r.value.Some?
      && t'.rows == t.rows[id := r.value.value]
      && r.value.value == old_.(status := status, updatedAt := r.value.value.updatedAt)
      && (status == old_.status ==> t' == t)
      && (status != old_.status ==> r.value.value.updatedAt == t.clock)
  {
    if id in t.rows {
      var row := t.rows[id];
      SavePreservesValid(t, id, row.profile, status);
      SaveRefreshesUpdatedAt(t, id, row.profile, status);
      var changed := row.(status := status, updatedAt := t.clock);
      assert RowError(changed) == None;
      assert !EmailTaken(t, changed);
    }
  }
}

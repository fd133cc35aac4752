/** The `users` table: the `UserStatus` enum, the row shape with its column
    constraints (NOT NULL, length bounds, unique email, autoincrement key,
    creation and update timestamps), and the table itself as the database
    session sees it: insert, commit of a changed row, delete and a filtered,
    paginated scan. Timestamps are whole seconds read from the table's clock,
    which commits read but do not advance: time passes only by `Elapse`. */
module DbModels {
  import opened Wrappers

  datatype UserStatus = Active | Inactive | Suspended

  /** The value a status is stored and compared as. */
  function StatusValue(s: UserStatus): string
  {
    match s
    case Active => "active"
    case Inactive => "inactive"
    case Suspended => "suspended"
  }

  /** The eight profile columns a client may write. */
  datatype Field = FirstName | LastName | Email | Phone | Address | City | State | ZipCode

  /** The declared `String(n)` bound of each profile column. */
  function MaxLength(f: Field): nat
  {
    match f
    case FirstName => 100
    case LastName => 100
    case Email => 255
    case Phone => 20
    case Address => 255
    case City => 100
    case State => 2
    case ZipCode => 10
  }

  /** first_name, last_name and email are declared `nullable=False`. */
  predicate Nullable(f: Field)
  {
    !(f == FirstName || f == LastName || f == Email)
  }

  const HashedPasswordMaxLength: nat := 255

  /** The profile attributes of a mapped `User` object. Every attribute can
      hold `None` in memory (setattr accepts it); the column constraints are
      only enforced when the row is committed. */
  datatype Profile = Profile(
    firstName: Option<string>,
    lastName: Option<string>,
    email: Option<string>,
    phone: Option<string>,
    address: Option<string>,
    city: Option<string>,
    state: Option<string>,
    zipCode: Option<string>)

  /** `getattr(profile, f)` */
  function Get(p: Profile, f: Field): Option<string>
  {
    match f
    case FirstName => p.firstName
    case LastName => p.lastName
    case Email => p.email
    case Phone => p.phone
    case Address => p.address
    case City => p.city
    case State => p.state
    case ZipCode => p.zipCode
  }

  /** `setattr(profile, f, v)` */
  function SetAttr(p: Profile, f: Field, v: Option<string>): (r: Profile)
    ensures Get(r, f) == v
    ensures forall g :: g != f ==> Get(r, g) == Get(p, g)
  {
    match f
    case FirstName => p.(firstName := v)
    case LastName => p.(lastName := v)
    case Email => p.(email := v)
    case Phone => p.(phone := v)
    case Address => p.(address := v)
    case City => p.(city := v)
    case State => p.(state := v)
    case ZipCode => p.(zipCode := v)
  }

  /** Two profiles that agree on every attribute are the same profile. */
  lemma ProfileExtensionality(a: Profile, b: Profile)
    requires forall f :: Get(a, f) == Get(b, f)
    ensures a == b
  {
    assert Get(a, FirstName) == Get(b, FirstName) && Get(a, LastName) == Get(b, LastName);
    assert Get(a, Email) == Get(b, Email) && Get(a, Phone) == Get(b, Phone);
    assert Get(a, Address) == Get(b, Address) && Get(a, City) == Get(b, City);
    assert Get(a, State) == Get(b, State) && Get(a, ZipCode) == Get(b, ZipCode);
  }

  /** A row of the `users` table. `user_id` is the autoincrement primary key. */
  datatype User = User(
    userId: nat,
    profile: Profile,
    hashedPassword: Option<string>,
    status: UserStatus,
    createdAt: nat,
    updatedAt: nat)

  /** What a failed commit raises: `IntegrityError` for a NOT NULL or UNIQUE
      violation, `DataError` for a value longer than its column. */
  datatype DbError = IntegrityError | DataError

  predicate FitsIn(v: Option<string>, max: nat)
  {
    v.None? || |v.value| <= max
  }

  predicate NotNullsHold(p: Profile)
  {
    p.firstName.Some? && p.lastName.Some? && p.email.Some?
  }

  predicate LengthsHold(u: User)
  {
    && FitsIn(u.profile.firstName, 100) && FitsIn(u.profile.lastName, 100)
    && FitsIn(u.profile.email, 255) && FitsIn(u.profile.phone, 20)
    && FitsIn(u.profile.address, 255) && FitsIn(u.profile.city, 100)
    && FitsIn(u.profile.state, 2) && FitsIn(u.profile.zipCode, 10)
    && FitsIn(u.hashedPassword, HashedPasswordMaxLength)
  }

  /** The per-row column check done at commit, with `hashed_password`
      accepting NULL (see `DeclaredRowError` for the declaration as written). */
  function RowError(u: User): Option<DbError>
  {
    if !NotNullsHold(u.profile) then Some(IntegrityError)
    else if !LengthsHold(u) then Some(DataError)
    else None
  }

  /** A row passes the column check exactly when every NULL sits in a
      nullable column and every value fits its column's bound. */
  lemma RowErrorFieldwise(u: User)
    ensures RowError(u) == None <==>
      (forall f :: (Get(u.profile, f).None? ==> Nullable(f)) && FitsIn(Get(u.profile, f), MaxLength(f)))
      && FitsIn(u.hashedPassword, HashedPasswordMaxLength)
  {
    var p := u.profile;
    if (forall f :: (Get(p, f).None? ==> Nullable(f)) && FitsIn(Get(p, f), MaxLength(f))) {
      assert FitsIn(Get(p, FirstName), 100) && FitsIn(Get(p, LastName), 100) && FitsIn(Get(p, Email), 255);
      assert FitsIn(Get(p, Phone), 20) && FitsIn(Get(p, Address), 255) && FitsIn(Get(p, City), 100);
      assert FitsIn(Get(p, State), 2) && FitsIn(Get(p, ZipCode), 10);
    }
  }

  /** The per-row check as `app/db_models.py` declares it, with
      `hashed_password` NOT NULL. */
  function DeclaredRowError(u: User): (e: Option<DbError>)
    ensures e == None <==> RowError(u) == None && u.hashedPassword.Some?
  {
    if u.hashedPassword.None? then Some(IntegrityError) else RowError(u)
  }

  // ---------------------------------------------------------------------------
  // The table as a value

  /** The table's rows keyed by `user_id`, their ids in insertion order (the
      order an unordered SELECT returns them in), the next autoincrement value
      and the current time in whole seconds, which `func.now()` reads (the
      columns are DATETIME, so a timestamp has one-second resolution). */
  datatype Table = Table(rows: map<nat, User>, order: seq<nat>, nextId: nat, clock: nat)

  const EmptyTable: Table := Table(map[], [], 1, 0)

  predicate Increasing(s: seq<nat>)
  {
    forall i, j :: 0 <= i < j < |s| ==> s[i] < s[j]
  }

  ghost predicate UniqueEmails(rows: map<nat, User>)
  {
    forall a, b :: a in rows && b in rows && rows[a].profile.email == rows[b].profile.email ==> a == b
  }

  /** The table's constraints: each row sits under its own primary key, below
      the next autoincrement value, passes the column checks and was updated
      no earlier than it was created and no later than now; the insertion
      order lists exactly the stored ids, ascending; emails are unique. */
  ghost predicate ValidTable(t: Table)
  {
    && t.nextId >= 1
    && (forall id :: id in t.rows ==>
          && t.rows[id].userId == id && 1 <= id < t.nextId
          && RowError(t.rows[id]) == None
          && t.rows[id].createdAt <= t.rows[id].updatedAt <= t.clock)
    && (forall id :: id in t.rows <==> id in t.order)
    && Increasing(t.order)
    && UniqueEmails(t.rows)
  }

  lemma EmptyTableValid()
    ensures ValidTable(EmptyTable)
  {
  }

  /** The rows under `ids`, in that order. */
  function RowsOf(rows: map<nat, User>, ids: seq<nat>): (r: seq<User>)
    requires forall id :: id in ids ==> id in rows
    ensures |r| == |ids|
    ensures forall i :: 0 <= i < |ids| ==> r[i] == rows[ids[i]]
  {
    if ids == [] then [] else RowsOf(rows, ids[..|ids| - 1]) + [rows[ids[|ids| - 1]]]
  }

  lemma RowsOfSnoc(rows: map<nat, User>, ids: seq<nat>, i: nat)
    requires i < |ids| && forall id :: id in ids ==> id in rows
    ensures RowsOf(rows, ids[..i + 1]) == RowsOf(rows, ids[..i]) + [rows[ids[i]]]
  {
    assert ids[..i + 1][..i] == ids[..i];
  }

  /** The rows in store order: what `db.query(User).all()` returns. */
  function Listing(t: Table): seq<User>
    requires forall id :: id in t.order ==> id in t.rows
  {
    RowsOf(t.rows, t.order)
  }

  /** Store order is ascending primary-key order. */
  lemma ListingAscending(t: Table)
    requires ValidTable(t)
    ensures forall i, j :: 0 <= i < j < |Listing(t)| ==> Listing(t)[i].userId < Listing(t)[j].userId
  {
  }

  /** `filter(User.user_id == id).first()` */
  function ById(t: Table, id: int): (r: Option<User>)
    ensures r.Some? <==> id in t.rows
    ensures r.Some? ==> r.value == t.rows[id]
  {
    if id in t.rows then Some(t.rows[id]) else None
  }

  /** The first row under `ids` whose email is `e`. */
  function FirstWithEmail(rows: map<nat, User>, ids: seq<nat>, e: string): (r: Option<User>)
    requires forall id :: id in ids ==> id in rows
    ensures r.Some? ==> exists id :: id in ids && rows[id] == r.value && r.value.profile.email == Some(e)
    ensures r.None? ==> forall id :: id in ids ==> rows[id].profile.email != Some(e)
  {
    if ids == [] then None
    else if rows[ids[0]].profile.email == Some(e) then Some(rows[ids[0]])
    else FirstWithEmail(rows, ids[1..], e)
  }

  /** `filter(User.email == e).first()`: the row with that email, if any. */
  function ByEmail(t: Table, e: string): (r: Option<User>)
    requires ValidTable(t)
    ensures r.Some? ==> r.value.userId in t.rows && t.rows[r.value.userId] == r.value
                        && r.value.profile.email == Some(e)
    ensures r.None? ==> forall id :: id in t.rows ==> t.rows[id].profile.email != Some(e)
  {
    FirstWithEmail(t.rows, t.order, e)
  }

  /** Some other row already holds `u`'s email. */
  predicate EmailTaken(t: Table, u: User)
  {
    exists id :: id in t.rows && id != u.userId && t.rows[id].profile.email == u.profile.email
  }

  /** What committing `u` into `t` raises, if anything. */
  function Violation(t: Table, u: User): (e: Option<DbError>)
    ensures e == None <==> RowError(u) == None && !EmailTaken(t, u)
  {
    if RowError(u).Some? then RowError(u)
    else if EmailTaken(t, u) then Some(IntegrityError)
    else None
  }

  // ---------------------------------------------------------------------------
  // Writes, as functions of the table before them

  /** The attributes of a `User(...)` object handed to `db.add`; `status` is
      `None` when the constructor was not given one. */
  datatype NewUser = NewUser(profile: Profile, hashedPassword: Option<string>, status: Option<UserStatus>)

  /** `db.add(row); db.commit(); db.refresh(row)`: the row receives the next
      autoincrement id, the `ACTIVE` status default when none was given and
      the current time as both `created_at` and `updated_at`. A violated
      constraint raises and leaves the table as it was. */
  function InsertStep(t: Table, d: NewUser): (Result<User, DbError>, Table)
  {
    var row := User(t.nextId, d.profile, d.hashedPassword,
                    if d.status.Some? then d.status.value else Active, t.clock, t.clock);
    match Violation(t, row)
    case Some(e) => (Failure(e), t)
    case None => (Success(row), t.(rows := t.rows[row.userId := row], order := t.order + [row.userId], nextId := t.nextId + 1))
  }

  /** `db.commit(); db.refresh(row)` after the attributes of stored row `id`
      were set to `profile` and `status`. With no net change no UPDATE is
      issued and `updated_at` keeps its value; otherwise `updated_at` is
      refreshed, and a violated constraint raises and leaves the table as it
      was. */
  function SaveStep(t: Table, id: nat, profile: Profile, status: UserStatus): (Result<User, DbError>, Table)
    requires id in t.rows
  {
    var before := t.rows[id];
    var after := before.(profile := profile, status := status);
    if after == before then (Success(before), t)
    else
      var row := after.(updatedAt := t.clock);
      match Violation(t, row)
      case Some(e) => (Failure(e), t)
      case None => (Success(row), t.(rows := t.rows[id := row]))
  }

  /** `s` with every occurrence of `x` removed. */
  function Without(s: seq<nat>, x: nat): (r: seq<nat>)
    ensures forall y :: y in r <==> y in s && y != x
    ensures Increasing(s) ==> Increasing(r)
  {
    if s == [] then []
    else if s[0] == x then Without(s[1..], x)
    else
      var rest := Without(s[1..], x);
      assert Increasing(s) ==> Increasing([s[0]] + rest) by {
        if Increasing(s) {
          assert Increasing(s[1..]);
          var r := [s[0]] + rest;
          forall i, j | 0 <= i < j < |r| ensures r[i] < r[j] {
            if i > 0 {
              assert r[i] == rest[i - 1] && r[j] == rest[j - 1];
            } else {
              assert r[j] == rest[j - 1] && rest[j - 1] in rest;
              var k :| 0 <= k < |s[1..]| && s[1..][k] == r[j];
              assert s[k + 1] == r[j];
            }
          }
        }
      }
      [s[0]] + rest
  }

  /** `db.delete(row); db.commit()` for stored row `id`. */
  function RemoveStep(t: Table, id: nat): Table
    requires id in t.rows
  {
    t.(rows := t.rows - {id}, order := Without(t.order, id))
  }

  /** `seconds` of wall-clock time pass between requests. */
  function Elapse(t: Table, seconds: nat): Table
  {
    t.(clock := t.clock + seconds)
  }

  // ---------------------------------------------------------------------------
  // The invariants the writes keep

  lemma InsertPreservesValid(t: Table, d: NewUser)
    requires ValidTable(t)
    ensures ValidTable(InsertStep(t, d).1)
    ensures InsertStep(t, d).0.Success? ==>
      var row := InsertStep(t, d).0.value;
      row.userId !in t.rows && row.createdAt == row.updatedAt == t.clock
  {
    var (r, t') := InsertStep(t, d);
    if r.Success? {
      var row := r.value;
      assert forall id :: id in t.rows ==> id < row.userId;
      forall i, j | 0 <= i < j < |t'.order| ensures t'.order[i] < t'.order[j] {
        if j == |t.order| {
          assert t.order[i] in t.rows;
        }
      }
    }
  }

  /** The three outcomes of a commit, spelled out. */
  lemma SaveStepCases(t: Table, id: nat, profile: Profile, status: UserStatus)
    requires id in t.rows
    ensures var before := t.rows[id];
      var after := before.(profile := profile, status := status);
      var row := after.(updatedAt := t.clock);
      && (after == before ==> SaveStep(t, id, profile, status) == (Success(before), t))
      && (after != before && Violation(t, row).Some? ==>
            SaveStep(t, id, profile, status) == (Failure(Violation(t, row).value), t))
      && (after != before && Violation(t, row).None? ==>
            SaveStep(t, id, profile, status) == (Success(row), t.(rows := t.rows[id := row])))
  {
  }

  lemma SavePreservesValid(t: Table, id: nat, profile: Profile, status: UserStatus)
    requires ValidTable(t) && id in t.rows
    ensures ValidTable(SaveStep(t, id, profile, status).1)
  {
  }

  lemma RemovePreservesValid(t: Table, id: nat)
    requires ValidTable(t) && id in t.rows
    ensures ValidTable(RemoveStep(t, id))
  {
  }

  /** Time passing changes no row and keeps the table valid. */
  lemma ElapsePreservesValid(t: Table, seconds: nat)
    requires ValidTable(t)
    ensures ValidTable(Elapse(t, seconds))
    ensures Elapse(t, seconds).rows == t.rows && Elapse(t, seconds).clock == t.clock + seconds
  {
  }

  /** `created_at` is written on insert only; every commit that changes the
      row sets `updated_at` to the current second, which is later than the
      old value only when the previous write lies in an earlier second. */
  lemma SaveRefreshesUpdatedAt(t: Table, id: nat, profile: Profile, status: UserStatus)
    requires ValidTable(t) && id in t.rows
    ensures var (r, t') := SaveStep(t, id, profile, status);
      r.Success? ==>
        && r.value == t'.rows[id]
        && r.value.userId == id
        && r.value.createdAt == t.rows[id].createdAt
        && r.value.hashedPassword == t.rows[id].hashedPassword
        && (r.value == t.rows[id] || r.value.updatedAt == t.clock)
        && t.rows[id].updatedAt <= r.value.updatedAt
  {
  }

  // ---------------------------------------------------------------------------
  // Filtered, paginated reads

  /** The WHERE clause a listing query carries: each present filter compares
      one column for equality (status through its stored value). */
  datatype Query = Query(city: Option<string>, state: Option<string>, status: Option<string>)

  const AllUsers: Query := Query(None, None, None)

  predicate Matches(u: User, q: Query)
  {
    && (q.city.None? || u.profile.city == q.city)
    && (q.state.None? || u.profile.state == q.state)
    && (q.status.None? || q.status == Some(StatusValue(u.status)))
  }

  /** The rows of `s` that match `q`, in the order of `s`. */
  function Filter(s: seq<User>, q: Query): (r: seq<User>)
    ensures |r| <= |s|
    ensures forall u :: u in r <==> u in s && Matches(u, q)
  {
    if s == [] then []
    else Filter(s[..|s| - 1], q) + (if Matches(s[|s| - 1], q) then [s[|s| - 1]] else [])
  }

  lemma FilterSnoc(s: seq<User>, u: User, q: Query)
    ensures Filter(s + [u], q) == Filter(s, q) + (if Matches(u, q) then [u] else [])
  {
    assert (s + [u])[..|s|] == s;
  }

  lemma {:induction false} FilterAll(s: seq<User>)
    ensures Filter(s, AllUsers) == s
  {
    if s != [] {
      var init, last := s[..|s| - 1], s[|s| - 1];
      FilterAll(init);
      assert Matches(last, AllUsers);
      assert Filter(s, AllUsers) == init + [last];
      assert init + [last] == s;
    }
  }

  /** Filtering keeps ascending primary-key order. */
  lemma {:induction false} FilterAscending(s: seq<User>, q: Query)
    requires forall i, j :: 0 <= i < j < |s| ==> s[i].userId < s[j].userId
    ensures forall i, j :: 0 <= i < j < |Filter(s, q)| ==> Filter(s, q)[i].userId < Filter(s, q)[j].userId
  {
    if s != [] {
      var init := s[..|s| - 1];
      FilterAscending(init, q);
      var r := Filter(s, q);
      var ri := Filter(init, q);
      assert r[..|ri|] == ri;
      forall i, j | 0 <= i < j < |r| ensures r[i].userId < r[j].userId {
        if j < |ri| {
          assert r[i] == ri[i] && r[j] == ri[j];
        } else {
          assert r[i] == ri[i] && ri[i] in ri;
          var k :| 0 <= k < |init| && init[k] == r[i];
          assert r[j] == s[|s| - 1] && s[k] == init[k] && k < |s| - 1;
          assert s[k].userId < s[|s| - 1].userId;
        }
      }
    }
  }

  /** `.offset(skip).limit(limit)`: at most `limit` rows, taken in order from
      position `skip` on; nothing when `skip` is past the end. */
  function Page<T>(s: seq<T>, skip: nat, limit: nat): (r: seq<T>)
    ensures |r| <= limit
    ensures skip >= |s| ==> r == []
    ensures skip < |s| ==> |r| == (if limit < |s| - skip then limit else |s| - skip)
    ensures forall i :: 0 <= i < |r| ==> skip + i < |s| && r[i] == s[skip + i]
  {
    if skip >= |s| then [] else s[skip..if skip + limit < |s| then skip + limit else |s|]
  }

  /** What `query.offset(skip).limit(limit).all()` returns for WHERE clause `q`. */
  function SelectSpec(t: Table, q: Query, skip: nat, limit: nat): seq<User>
    requires forall id :: id in t.order ==> id in t.rows
  {
    Page(Filter(Listing(t), q), skip, limit)
  }

  /** The scan behind a SELECT: the rows listed by `ids` that match `q`, in
      order. The loop stands for the database's evaluation of the query; the
      service's own code has no such loop. */
  method Scan(rows: map<nat, User>, ids: seq<nat>, q: Query) returns (matched: seq<User>)
    requires forall id :: id in ids ==> id in rows
    ensures matched == Filter(RowsOf(rows, ids), q)
  {
    matched := [];
    var i := 0;
    while i < |ids|
      invariant 0 <= i <= |ids|
      invariant matched == Filter(RowsOf(rows, ids[..i]), q)
    {
      var u := rows[ids[i]];
      RowsOfSnoc(rows, ids, i);
      FilterSnoc(RowsOf(rows, ids[..i]), u, q);
      if Matches(u, q) {
        matched := matched + [u];
      }
      i := i + 1;
    }
    assert ids[..i] == ids;
  }

  // ---------------------------------------------------------------------------
  // The table as the session mutates it

  class UserTable {
    var rows: map<nat, User>
    var order: seq<nat>
    var nextId: nat
    var clock: nat

    function State(): Table
      reads this
    {
      Table(rows, order, nextId, clock)
    }

    ghost predicate Valid()
      reads this
    {
      ValidTable(State())
    }

    constructor ()
      ensures Valid() && State() == EmptyTable
    {
      rows, order, nextId, clock := map[], [], 1, 0;
    }

    method Insert(d: NewUser) returns (r: Result<User, DbError>)
      requires Valid()
      modifies this
      ensures Valid()
      ensures (r, State()) == InsertStep(old(State()), d)
    {
      InsertPreservesValid(State(), d);
      var row := User(nextId, d.profile, d.hashedPassword,
                      if d.status.Some? then d.status.value else Active, clock, clock);
      var e := Violation(State(), row);
      if e.Some? {
        r := Failure(e.value);
      } else {
        rows := rows[nextId := row];
        order := order + [nextId];
        nextId := nextId + 1;
        r := Success(row);
      }
    }

    method Save(id: nat, profile: Profile, status: UserStatus) returns (r: Result<User, DbError>)
      requires Valid() && id in rows
      modifies this
      ensures Valid()
      ensures (r, State()) == SaveStep(old(State()), id, profile, status)
    {
      ghost var t := State();
      SavePreservesValid(t, id, profile, status);
      SaveStepCases(t, id, profile, status);
      var before := rows[id];
      var after := before.(profile := profile, status := status);
      var row := after.(updatedAt := clock);
      var e := Violation(State(), row);
      if after == before {
        r := Success(before);
      } else if e.Some? {
        r := Failure(e.value);
      } else {
        rows := rows[id := row];
        r := Success(row);
      }
      assert (r, State()) == SaveStep(t, id, profile, status);
    }

    method Remove(id: nat)
      requires Valid() && id in rows
      modifies this
      ensures Valid()
      ensures State() == RemoveStep(old(State()), id)
    {
      RemovePreservesValid(State(), id);
      rows := rows - {id};
      order := Without(order, id);
    }

    /** Lets `seconds` of wall-clock time pass. */
    method Wait(seconds: nat)
      requires Valid()
      modifies this
      ensures Valid()
      ensures State() == Elapse(old(State()), seconds)
    {
      clock := clock + seconds;
    }

    /** Runs a SELECT with WHERE clause `q`, OFFSET `skip` and LIMIT `limit`
        by scanning the rows in store order, as the database would; the
        service's code only builds and sends the query. */
    method Select(q: Query, skip: nat, limit: nat) returns (r: seq<User>)
      requires Valid()
      ensures r == SelectSpec(State(), q, skip, limit)
    {
      var matched := Scan(rows, order, q);
      r := Page(matched, skip, limit);
    }
  }
}

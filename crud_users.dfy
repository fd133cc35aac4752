/** The session-level operations on the user table that the users router
    calls: create without a password, filtered listing, partial update and
    delete. */
module CrudUsers {
  import opened Wrappers
  import opened DbModels
  import opened Schemas

  // ---------------------------------------------------------------------------
  // create_user

  /** The object `create_user` adds: the eight profile fields copied from the
      body, no password and no explicit status. */
  function NewRowOf(c: UserCreate): NewUser
  {
    NewUser(CreateProfile(c), None, None)
  }

  method CreateUser(db: UserTable, c: UserCreate) returns (r: Result<User, DbError>)
    requires db.Valid()
    modifies db
    ensures db.Valid()
    ensures (r, db.State()) == InsertStep(old(db.State()), NewRowOf(c))
  {
    r := db.Insert(NewRowOf(c));
  }

  /** A created row carries exactly the body's profile, no password, the
      `ACTIVE` default, a fresh id and equal creation and update times; it is
      stored and nothing else changes. */
  lemma CreateUserStores(t: Table, c: UserCreate)
    requires ValidTable(t)
    ensures var (r, t') := InsertStep(t, NewRowOf(c));
      r.Success? ==>
        && r.value.profile == CreateProfile(c) && r.value.hashedPassword.None?
        && r.value.status == Active && r.value.userId !in t.rows
        && r.value.createdAt == r.value.updatedAt
        && t'.rows == t.rows[r.value.userId := r.value]
  {
    InsertPreservesValid(t, NewRowOf(c));
  }

  /** With the column declared as written, every row `create_user` builds is
      refused: it carries no password and `hashed_password` is NOT NULL. */
  lemma CreateUserRejectedAsDeclared(c: UserCreate, id: nat, t0: nat, t1: nat)
    ensures var row := User(id, NewRowOf(c).profile, NewRowOf(c).hashedPassword, Active, t0, t1);
      DeclaredRowError(row) == Some(IntegrityError)
  {
  }

  /** With `hashed_password` nullable, a valid body whose email is free and
      fits its column is stored. */
  lemma CreateUserAcceptedWhenNullable(t: Table, c: UserCreate)
    requires ValidTable(t) && ValidUserBase(c) && |c.email| <= 255
    requires forall id :: id in t.rows ==> t.rows[id].profile.email != Some(c.email)
    ensures InsertStep(t, NewRowOf(c)).0.Success?
  {
    CreateBoundsFitColumns(c, None);
    var row := User(t.nextId, CreateProfile(c), None, Active, t.clock, t.clock);
    assert RowError(row) == None;
    assert !EmailTaken(t, row);
  }

  // ---------------------------------------------------------------------------
  // get_users

  /** Python truthiness of an optional string: present and non-empty. */
  predicate Truthy(s: Option<string>)
  {
    s.Some? && s.value != ""
  }

  /** The WHERE clause `get_users` builds, one equality per truthy argument:
      a row passes it exactly when it agrees with every truthy argument, and
      an absent or empty argument filters nothing. */
  function QueryOf(city: Option<string>, state: Option<string>, status: Option<string>): (q: Query)
    ensures forall u :: Matches(u, q) <==>
      && (Truthy(city) ==> u.profile.city == city)
      && (Truthy(state) ==> u.profile.state == state)
      && (Truthy(status) ==> StatusValue(u.status) == status.value)
    ensures !Truthy(city) && !Truthy(state) && !Truthy(status) ==> q == AllUsers
  {
    Query(if Truthy(city) then city else None,
          if Truthy(state) then state else None,
          if Truthy(status) then status else None)
  }

  /** Builds the query filter by filter, then takes `[skip:skip + limit]`. */
  method GetUsers(db: UserTable, skip: nat := 0, limit: nat := 10,
                  city: Option<string> := None, state: Option<string> := None,
                  status: Option<string> := None)
    returns (r: seq<User>)
    requires db.Valid()
    ensures r == SelectSpec(db.State(), QueryOf(city, state, status), skip, limit)
  {
    var q := AllUsers;
    if Truthy(city) {
      q := q.(city := city);
    }
    if Truthy(state) {
      q := q.(state := state);
    }
    if Truthy(status) {
      q := q.(status := status);
    }
    r := db.Select(q, skip, limit);
  }

  /** Every listed row is a stored row that matches every supplied filter. */
  lemma GetUsersRows(t: Table, q: Query, skip: nat, limit: nat)
    requires ValidTable(t)
    ensures forall u :: u in SelectSpec(t, q, skip, limit) ==>
      u.userId in t.rows && t.rows[u.userId] == u && Matches(u, q)
  {
    forall u | u in SelectSpec(t, q, skip, limit)
      ensures u.userId in t.rows && t.rows[u.userId] == u && Matches(u, q)
    {
      SelectedRow(t, q, skip, limit, u);
    }
  }

  /** A selected row is a listed row that matches the query. */
  lemma SelectedRow(t: Table, q: Query, skip: nat, limit: nat, u: User)
    requires ValidTable(t) && u in SelectSpec(t, q, skip, limit)
    ensures u.userId in t.rows && t.rows[u.userId] == u && Matches(u, q)
  {
    var f := Filter(Listing(t), q);
    var r := Page(f, skip, limit);
    var i :| 0 <= i < |r| && r[i] == u;
    assert f[skip + i] in f;
    ListedRowStored(t, u);
  }

  /** A row in the listing is the row stored under its own key. */
  lemma ListedRowStored(t: Table, u: User)
    requires ValidTable(t) && u in Listing(t)
    ensures u.userId in t.rows && t.rows[u.userId] == u
  {
    var s := Listing(t);
    var k :| 0 <= k < |s| && s[k] == u;
    assert t.order[k] in t.rows;
  }

  /** The listing is in ascending id order. */
  lemma GetUsersAscending(t: Table, q: Query, skip: nat, limit: nat)
    requires ValidTable(t)
    ensures var r := SelectSpec(t, q, skip, limit);
      forall i, j :: 0 <= i < j < |r| ==> r[i].userId < r[j].userId
  {
    var s := Listing(t);
    var f := Filter(s, q);
    var r := SelectSpec(t, q, skip, limit);
    ListingAscending(t);
    FilterAscending(s, q);
    forall i, j | 0 <= i < j < |r| ensures r[i].userId < r[j].userId {
      assert r[i] == f[skip + i] && r[j] == f[skip + j];
    }
  }

  /** A first page at least as large as the table holds every matching row. */
  lemma GetUsersComplete(t: Table, q: Query, limit: nat)
    requires ValidTable(t) && limit >= |t.rows|
    ensures forall id :: id in t.rows && Matches(t.rows[id], q) ==> t.rows[id] in SelectSpec(t, q, 0, limit)
  {
    var s := Listing(t);
    var f := Filter(s, q);
    var r := SelectSpec(t, q, 0, limit);
    OrderLength(t);
    assert r == f;
    forall id | id in t.rows && Matches(t.rows[id], q) ensures t.rows[id] in r {
      var k :| 0 <= k < |t.order| && t.order[k] == id;
      assert s[k] == t.rows[id];
    }
  }

  /** The insertion order lists each stored id once, so it is as long as the
      table. */
  lemma OrderLength(t: Table)
    requires ValidTable(t)
    ensures |t.order| == |t.rows|
  {
    OrderDistinctLength(t.order, t.rows.Keys);
  }

  lemma {:induction false} OrderDistinctLength(s: seq<nat>, keys: set<nat>)
    requires Increasing(s)
    requires forall x :: x in s <==> x in keys
    ensures |s| == |keys|
  {
    if s != [] {
      var rest := s[1..];
      assert Increasing(rest);
      assert s[0] !in rest;
      forall x ensures x in rest <==> x in keys - {s[0]} {
        if x in keys - {s[0]} {
          assert x in s && x != s[0];
          var k :| 0 <= k < |s| && s[k] == x;
          assert k > 0 && rest[k - 1] == x;
        }
      }
      OrderDistinctLength(rest, keys - {s[0]});
    }
  }

  // ---------------------------------------------------------------------------
  // update_user

  /** The value a column ends with after patch `p` over value `old`. */
  function Patched(p: Patch<Option<string>>, current: Option<string>): Option<string>
  {
    if p.Set? then p.value else current
  }

  /** The profile after a partial update: every column the client sent takes
      the value sent (null included), every other column keeps its value. */
  function Merge(p: Profile, u: UserUpdate): (r: Profile)
    ensures forall f :: Get(r, f) == Patched(PatchOf(u, f), Get(p, f))
  {
    Profile(Patched(u.firstName, p.firstName), Patched(u.lastName, p.lastName),
            Patched(u.email, p.email), Patched(u.phone, p.phone),
            Patched(u.address, p.address), Patched(u.city, p.city),
            Patched(u.state, p.state), Patched(u.zipCode, p.zipCode))
  }

  /** Applies `setattr` for each pair, in order. */
  function SetAll(p: Profile, items: seq<(Field, Option<string>)>): Profile
  {
    if items == [] then p
    else SetAttr(SetAll(p, items[..|items| - 1]), items[|items| - 1].0, items[|items| - 1].1)
  }

  lemma SetAllSnoc(p: Profile, items: seq<(Field, Option<string>)>, i: nat)
    requires i < |items|
    ensures SetAll(p, items[..i + 1]) == SetAttr(SetAll(p, items[..i]), items[i].0, items[i].1)
  {
    assert items[..i + 1][..i] == items[..i];
  }

  /** With each column named at most once, the `setattr` sequence writes every
      named column with its value and leaves the others alone. */
  lemma {:induction false} SetAllDistinct(p: Profile, items: seq<(Field, Option<string>)>)
    requires forall i, j :: 0 <= i < j < |items| ==> items[i].0 != items[j].0
    ensures forall f, v :: (f, v) in items ==> Get(SetAll(p, items), f) == v
    ensures forall f :: (forall k :: 0 <= k < |items| ==> items[k].0 != f) ==> Get(SetAll(p, items), f) == Get(p, f)
  {
    if items != [] {
      var init := items[..|items| - 1];
      var last := items[|items| - 1];
      SetAllDistinct(p, init);
      forall f, v | (f, v) in items ensures Get(SetAll(p, items), f) == v {
        var k :| 0 <= k < |items| && items[k] == (f, v);
        if k < |items| - 1 {
          assert init[k] == (f, v);
        }
      }
      forall f | (forall k :: 0 <= k < |items| ==> items[k].0 != f)
        ensures Get(SetAll(p, items), f) == Get(p, f)
      {
        assert last.0 != f;
        assert forall k :: 0 <= k < |init| ==> init[k].0 != f by {
          forall k | 0 <= k < |init| ensures init[k].0 != f {
            assert init[k] == items[k];
          }
        }
      }
    }
  }

  /** Setting the sent fields one by one yields the merged profile. */
  lemma SetFieldsMerge(p: Profile, u: UserUpdate)
    ensures SetAll(p, SetFields(u)) == Merge(p, u)
  {
    var items := SetFields(u);
    var r := SetAll(p, items);
    SetAllDistinct(p, items);
    forall f ensures Get(r, f) == Get(Merge(p, u), f) {
      var pf := PatchOf(u, f);
      if pf.Set? {
        assert (f, pf.value) in items;
      } else {
        forall k | 0 <= k < |items| ensures items[k].0 != f {
          assert (items[k].0, items[k].1) in items;
        }
      }
    }
    ProfileExtensionality(r, Merge(p, u));
  }

  /** `for key, value in update_data.items(): setattr(db_user, key, value)`,
      on the profile attributes of the loaded row. */
  method AssignAttributes(p: Profile, u: UserUpdate) returns (r: Profile)
    ensures r == Merge(p, u)
  {
    var items := SetFields(u);
    r := p;
    var i := 0;
    while i < |items|
      invariant 0 <= i <= |items|
      invariant r == SetAll(p, items[..i])
    {
      SetAllSnoc(p, items, i);
      r := SetAttr(r, items[i].0, items[i].1);
      i := i + 1;
    }
    assert items[..i] == items;
    SetFieldsMerge(p, u);
  }

  /** `update_user`: `None` for an unknown id with the table untouched;
      otherwise the merged profile is committed over the stored row, keeping
      its status. */
  function UpdateStep(t: Table, id: int, u: UserUpdate): (Result<Option<User>, DbError>, Table)
  {
    if id !in t.rows then (Success(None), t)
    else
      var row := t.rows[id];
      var (r, t') := SaveStep(t, id, Merge(row.profile, u), row.status);
      (if r.Success? then Success(Some(r.value)) else Failure(r.error), t')
  }

  method UpdateUser(db: UserTable, id: int, u: UserUpdate) returns (r: Result<Option<User>, DbError>)
    requires db.Valid()
    modifies db
    ensures db.Valid()
    ensures (r, db.State()) == UpdateStep(old(db.State()), id, u)
  {
    if id !in db.rows {
      return Success(None);
    }
    var row := db.rows[id];
    var profile := AssignAttributes(row.profile, u);
    var saved := db.Save(id, profile, row.status);
    r := if saved.Success? then Success(Some(saved.value)) else Failure(saved.error);
  }

  /** An update keeps the table valid; an unknown id changes nothing; a
      stored id is answered with the row or with the commit's error; a
      successful update changes only the row at `id`, only in the columns the
      client sent (status, password, key and creation time are kept), stamps
      a changed row with the current second, and a failed one changes
      nothing. */
  lemma UpdateStepMeaning(t: Table, id: int, u: UserUpdate)
    requires ValidTable(t)
    ensures ValidTable(UpdateStep(t, id, u).1)
    ensures id !in t.rows ==> UpdateStep(t, id, u) == (Success(None), t)
    ensures var (r, t') := UpdateStep(t, id, u);
      && (id in t.rows ==> r.Failure? || r.value.Some?)
      && (r.Failure? ==> t' == t)
      && (r.Success? && r.value.Some? ==>
            && id in t.rows && t'.rows == t.rows[id := r.value.value]
            && (forall f :: Get(r.value.value.profile, f) == Patched(PatchOf(u, f), Get(t.rows[id].profile, f)))
            && r.value.value.status == t.rows[id].status
            && r.value.value.hashedPassword == t.rows[id].hashedPassword
            && r.value.value.userId == id
            && r.value.value.createdAt == t.rows[id].createdAt
            && (r.value.value == t.rows[id] || r.value.value.updatedAt == t.clock))
  {
    if id in t.rows {
      var row := t.rows[id];
      SavePreservesValid(t, id, Merge(row.profile, u), row.status);
      SaveRefreshesUpdatedAt(t, id, Merge(row.profile, u), row.status);
    }
  }

  /** Applying the same patch twice is the same as applying it once, and the
      empty patch changes nothing. */
  lemma MergeIdempotent(p: Profile, u: UserUpdate)
    ensures Merge(Merge(p, u), u) == Merge(p, u)
    ensures Merge(p, NoChanges) == p
  {
    ProfileExtensionality(Merge(Merge(p, u), u), Merge(p, u));
    ProfileExtensionality(Merge(p, NoChanges), p);
  }

  /** An update that sends no field leaves the table exactly as it was,
      `updated_at` included. */
  lemma EmptyUpdateChangesNothing(t: Table, id: int)
    requires ValidTable(t) && id in t.rows
    ensures UpdateStep(t, id, NoChanges) == (Success(Some(t.rows[id])), t)
  {
    MergeIdempotent(t.rows[id].profile, NoChanges);
  }

  // ---------------------------------------------------------------------------
  // delete_user

  /** `delete_user`: `True` and the row removed when `id` is stored, `False`
      and the table untouched otherwise. */
  function DeleteStep(t: Table, id: int): (bool, Table)
  {
    if id in t.rows then (true, RemoveStep(t, id)) else (false, t)
  }

  method DeleteUser(db: UserTable, id: int) returns (r: bool)
    requires db.Valid()
    modifies db
    ensures db.Valid()
    ensures (r, db.State()) == DeleteStep(old(db.State()), id)
  {
    if id !in db.rows {
      return false;
    }
    db.Remove(id);
    r := true;
  }

  /** Deleting reports whether the id was stored; afterwards it is not, every
      other row is as it was, and the table stays valid. */
  lemma DeleteStepMeaning(t: Table, id: int)
    requires ValidTable(t)
    ensures var (r, t') := DeleteStep(t, id);
      && ValidTable(t')
      && (r <==> id in t.rows)
      && id !in t'.rows
      && (forall k :: k in t'.rows <==> k in t.rows && k != id)
      && (forall k :: k in t'.rows ==> t'.rows[k] == t.rows[k])
      && (!r ==> t' == t)
  {
    if id in t.rows {
      RemovePreservesValid(t, id);
    }
  }
}

/**
 What each grant and removal does and answers when it runs alone, said of the database before and
 after it; and what a removal leaves in every interleaving.
 */
module AccessAnswers {
  import opened AccessProtocol
  import opened AccessStore
  import opened Prelude
  import opened RoleDomain
  import opened UserDomain

  /** Nothing but the assignments differs. */
  predicate OnlyAssignments(db: Database, db': Database) { db'.users == db.users && db'.tables == db.tables }

  /** The user may be granted roles. */
  predicate MayHold(db: Database, user: UserId) { user in db.users && db.users[user] == UserDomain.Status.Active }

  predicate Grantable(db: Database, role: RoleId) {
    role in db.tables.roles && db.tables.roles[role].status == RoleStatus.Active
  }

  ghost predicate GrantAnswer(db: Database, user: UserId, role: RoleId, grantor: Option<UserId>, now: Time,
                              db': Database, o: Outcome)
  {
    if role !in db.tables.roles then o == Outcome.RoleNotFound && db' == db
    else if db.tables.roles[role].status != RoleStatus.Active then o == Outcome.RoleDisabled && db' == db
    else if user !in db.users then o == UserNotFound && db' == db
    else if db.users[user] != UserDomain.Status.Active then o == UserNotEligible && db' == db
    else if (user, role) in db.assignments then o == Granted(db.assignments[(user, role)], false) && db' == db
    else
      var row := Assignment(user, role, db.tables.roles[role].appId, grantor, now);
      && o == Granted(row, true)
      && OnlyAssignments(db, db') && db'.assignments == db.assignments[(user, role) := row]
  }

  /** What is wrong with one role of a bulk request. */
  predicate Faulty(db: Database, b: Bulk, i: nat, o: Outcome)
    requires i < |b.roles|
  {
    if b.roles[i] !in db.tables.roles then o == Outcome.RoleNotFound
    else if db.tables.roles[b.roles[i]].status != RoleStatus.Active then o == Outcome.RoleDisabled
    else db.tables.roles[b.roles[i]].appId != b.app && o == RoleNotInApp
  }

  predicate Sound(db: Database, b: Bulk, i: nat)
    requires i < |b.roles|
  {
    Grantable(db, b.roles[i]) && db.tables.roles[b.roles[i]].appId == b.app
  }

  /** Role i of the request: assigned afterwards, as it was or as asked for, and returned so. */
  ghost predicate GrantedOne(db: Database, b: Bulk, i: nat, db': Database, rows: seq<Assignment>, mask: seq<bool>)
    requires i < |b.roles| == |rows| == |mask|
  {
    var k := (b.user, b.roles[i]);
    && k in db'.assignments && rows[i] == db'.assignments[k]
    && (mask[i] <==> k !in db.assignments)
    && rows[i] == if k in db.assignments then db.assignments[k]
                  else Assignment(b.user, b.roles[i], b.app, b.grantor, b.now)
  }

  /** The first n roles of the request are there, active and of its app. */
  predicate SoundUntil(db: Database, b: Bulk, n: nat)
    requires n <= |b.roles|
  {
    forall i :: 0 <= i < n ==> Sound(db, b, i)
  }

  /** The answer names the fault of the first role that has one. */
  ghost predicate FirstFault(db: Database, b: Bulk, o: Outcome) {
    exists i :: 0 <= i < |b.roles| && SoundUntil(db, b, i) && Faulty(db, b, i, o)
  }

  /** Exactly the requested pairs are added; rows that were there stay, and are returned. */
  ghost predicate AllGranted(db: Database, b: Bulk, db': Database, o: Outcome) {
    && o.BulkGranted? && |o.rows| == |o.mask| == |b.roles|
    && OnlyAssignments(db, db')
    && db'.assignments.Keys == db.assignments.Keys + (set i | 0 <= i < |b.roles| :: (b.user, b.roles[i]))
    && (forall k :: k in db.assignments ==> db'.assignments[k] == db.assignments[k])
    && forall i :: 0 <= i < |b.roles| ==> GrantedOne(db, b, i, db', o.rows, o.mask)
  }

  /** The answer once input, app and user are found good. */
  ghost predicate BulkRest(db: Database, b: Bulk, db': Database, o: Outcome) {
    if SoundUntil(db, b, |b.roles|) then AllGranted(db, b, db', o) else db' == db && FirstFault(db, b, o)
  }

  ghost predicate BulkGrantAnswer(db: Database, b: Bulk, db': Database, o: Outcome) {
    if !(0 < |b.roles| <= 32 && forall i, j :: 0 <= i < j < |b.roles| ==> b.roles[i] != b.roles[j])
    then o == InvalidArgument && db' == db
    else if b.app !in db.tables.apps then o == AppNotFound && db' == db
    else if b.user !in db.users then o == UserNotFound && db' == db
    else if db.users[b.user] != UserDomain.Status.Active then o == UserNotEligible && db' == db
    else BulkRest(db, b, db', o)
  }

  /** These pairs are not assigned, all others as they were. */
  ghost predicate Taken(db: Database, user: UserId, roles: seq<RoleId>, db': Database) {
    && OnlyAssignments(db, db')
    && (forall r :: r in roles ==> (user, r) !in db'.assignments)
    && (forall k: Key :: !(k.0 == user && k.1 in roles) ==>
          (k in db'.assignments <==> k in db.assignments)
          && (k in db.assignments ==> db'.assignments[k] == db.assignments[k]))
  }

  ghost predicate RemoveAnswer(db: Database, user: UserId, role: RoleId, db': Database, o: Outcome) {
    if user !in db.users then o == UserNotFound && db' == db
    else if role !in db.tables.roles then o == Outcome.RoleNotFound && db' == db
    else o == Removed && Taken(db, user, [role], db')
  }

  predicate Removable(db: Database, b: Bulk, i: nat)
    requires i < |b.roles|
  {
    b.roles[i] in db.tables.roles && db.tables.roles[b.roles[i]].appId == b.app
  }

  predicate RemovableUntil(db: Database, b: Bulk, n: nat)
    requires n <= |b.roles|
  {
    forall i :: 0 <= i < n ==> Removable(db, b, i)
  }

  ghost predicate FirstUnremovable(db: Database, b: Bulk, o: Outcome) {
    exists i :: 0 <= i < |b.roles| && RemovableUntil(db, b, i) && !Removable(db, b, i)
      && o == if b.roles[i] !in db.tables.roles then Outcome.RoleNotFound else RoleNotInApp
  }

  /** The answer once input, app and user are found good. */
  ghost predicate BulkRemoveRest(db: Database, b: Bulk, db': Database, o: Outcome) {
    if RemovableUntil(db, b, |b.roles|) then o == Removed && Taken(db, b.user, b.roles, db')
    else db' == db && FirstUnremovable(db, b, o)
  }

  ghost predicate BulkRemoveAnswer(db: Database, b: Bulk, db': Database, o: Outcome) {
    if !(0 < |b.roles| <= 32 && forall i, j :: 0 <= i < j < |b.roles| ==> b.roles[i] != b.roles[j])
    then o == InvalidArgument && db' == db
    else if b.app !in db.tables.apps then o == AppNotFound && db' == db
    else if b.user !in db.users then o == UserNotFound && db' == db
    else BulkRemoveRest(db, b, db', o)
  }

  // ----- single calls ------------------------------------------------------------------------

  lemma GrantAnswers(db: Database, user: UserId, role: RoleId, grantor: Option<UserId>, now: Time)
    ensures var (db', o) := RunAlone(db, Grant(user, role, grantor, now));
      GrantAnswer(db, user, role, grantor, now, db', o)
  {
    Unfold(db, Grant(user, role, grantor, now));
    if Grantable(db, role) {
      var row := Assignment(user, role, db.tables.roles[role].appId, grantor, now);
      Unfold(db, GrantUser(row));
      if MayHold(db, user) {
        Unfold(db, GrantInsert(row));
        if row.Key() in db.assignments { Unfold(db, GrantReload(row.Key())); }
      }
    }
  }

  lemma DeletedIsTaken(db: Database, user: UserId, role: RoleId)
    ensures Taken(db, user, [role], DeleteAssignment(db, (user, role)))
  {
  }

  lemma RemoveAnswers(db: Database, user: UserId, role: RoleId)
    ensures var (db', o) := RunAlone(db, Remove(user, role)); RemoveAnswer(db, user, role, db', o)
  {
    Unfold(db, Remove(user, role));
    if user in db.users {
      Unfold(db, RemoveRole(user, role));
      if role in db.tables.roles {
        Unfold(db, RemoveDelete(user, role));
        DeletedIsTaken(db, user, role);
      }
    }
  }

  lemma AllDeletedAreTaken(db: Database, user: UserId, roles: seq<RoleId>)
    ensures Taken(db, user, roles, DeleteAll(db, user, roles))
  {
  }

  lemma {:induction false} BulkRemoveFrom(db: Database, b: Bulk, n: nat)
    requires n <= |b.roles| && RemovableUntil(db, b, n)
    ensures var (db', o) := RunAlone(db, BulkRemoveRoles(b, n)); BulkRemoveRest(db, b, db', o)
    decreases |b.roles| - n
  {
    Unfold(db, BulkRemoveRoles(b, n));
    if n == |b.roles| {
      Unfold(db, BulkDelete(b));
      AllDeletedAreTaken(db, b.user, b.roles);
    } else if Removable(db, b, n) {
      BulkRemoveFrom(db, b, n + 1);
    }
  }

  lemma BulkRemoveAnswers(db: Database, b: Bulk)
    ensures var (db', o) := RunAlone(db, BulkRemove(b)); BulkRemoveAnswer(db, b, db', o)
  {
    Unfold(db, BulkRemove(b));
    if BulkInputOk(b.roles) && b.app in db.tables.apps {
      Unfold(db, BulkRemoveUser(b));
      BulkRemoveFrom(db, b, 0);
    }
  }

  // ----- bulk grants -------------------------------------------------------------------------

  /** While rows are reloaded: those before `next` are final, those after it as asked for. */
  ghost predicate Reloading(db: Database, b: Bulk, db': Database, rows: seq<Assignment>, mask: seq<bool>, next: nat) {
    && |rows| == |mask| == |b.roles| && next <= |rows|
    && (forall i :: 0 <= i < next ==> GrantedOne(db, b, i, db', rows, mask))
    && (forall i :: next <= i < |rows| ==> PendingOne(db, b, i, db', rows, mask))
  }

  ghost predicate PendingOne(db: Database, b: Bulk, i: nat, db': Database, rows: seq<Assignment>, mask: seq<bool>)
    requires i < |b.roles| == |rows| == |mask|
  {
    var k := (b.user, b.roles[i]);
    && rows[i] == Assignment(b.user, b.roles[i], b.app, b.grantor, b.now)
    && k in db'.assignments && (mask[i] <==> k !in db.assignments)
    && db'.assignments[k] == if k in db.assignments then db.assignments[k] else rows[i]
  }

  lemma ReloadOne(db: Database, b: Bulk, db': Database, rows: seq<Assignment>, mask: seq<bool>, next: nat)
    requires Reloading(db, b, db', rows, mask, next) && next < |rows|
    ensures rows[next].Key() == (b.user, b.roles[next]) && rows[next].Key() in db'.assignments
    ensures mask[next] ==> Reloading(db, b, db', rows, mask, next + 1)
    ensures !mask[next] ==> Reloading(db, b, db', rows[next := db'.assignments[rows[next].Key()]], mask, next + 1)
  {
    assert PendingOne(db, b, next, db', rows, mask);
    var rows' := rows[next := db'.assignments[rows[next].Key()]];
    forall i | 0 <= i < |rows| && i != next
      ensures GrantedOne(db, b, i, db', rows', mask) == GrantedOne(db, b, i, db', rows, mask)
      ensures PendingOne(db, b, i, db', rows', mask) == PendingOne(db, b, i, db', rows, mask)
    {
    }
  }

  lemma {:induction false} ReloadsAll(db: Database, b: Bulk, db': Database, rows: seq<Assignment>, mask: seq<bool>,
                                      next: nat)
    requires Reloading(db, b, db', rows, mask, next)
    ensures var (db2, o) := RunAlone(db', BulkReload(rows, mask, next));
      && db2 == db' && o.BulkGranted? && |o.rows| == |o.mask| == |b.roles|
      && forall i :: 0 <= i < |b.roles| ==> GrantedOne(db, b, i, db', o.rows, o.mask)
    decreases |rows| - next
  {
    Unfold(db', BulkReload(rows, mask, next));
    if next < |rows| {
      ReloadOne(db, b, db', rows, mask, next);
      if mask[next] {
        ReloadsAll(db, b, db', rows, mask, next + 1);
      } else {
        ReloadsAll(db, b, db', rows[next := db'.assignments[rows[next].Key()]], mask, next + 1);
      }
    }
  }

  lemma KeysOfBulk(b: Bulk)
    ensures KeysOf(b.Rows()) == set i | 0 <= i < |b.roles| :: (b.user, b.roles[i])
  {
    var keys := set i | 0 <= i < |b.roles| :: (b.user, b.roles[i]);
    forall k ensures k in KeysOf(b.Rows()) <==> k in keys {
      if k in KeysOf(b.Rows()) {
        var a :| a in b.Rows() && a.Key() == k;
        var i :| 0 <= i < |b.roles| && b.Rows()[i] == a;
      }
      if k in keys {
        var i :| 0 <= i < |b.roles| && k == (b.user, b.roles[i]);
        assert b.Rows()[i] in b.Rows();
      }
    }
  }

  /** With all parents there and no role named twice, the insert adds each pair once. */
  lemma InsertPends(db: Database, b: Bulk)
    requires Referential(db) && b.user in db.users
    requires forall i :: 0 <= i < |b.roles| ==> b.roles[i] in db.tables.roles
    requires forall i, j :: 0 <= i < j < |b.roles| ==> b.roles[i] != b.roles[j]
    ensures InsertAll(db, b.Rows()).Some?
    ensures var (db', mask) := InsertAll(db, b.Rows()).value;
      && OnlyAssignments(db, db')
      && db'.assignments.Keys == db.assignments.Keys + (set i | 0 <= i < |b.roles| :: (b.user, b.roles[i]))
      && (forall k :: k in db.assignments ==> db'.assignments[k] == db.assignments[k])
      && Reloading(db, b, db', b.Rows(), mask, 0)
  {
    var rows := b.Rows();
    KeysOfBulk(b);
    InsertAllMeans(db, rows);
    var (db', mask) := InsertAll(db, rows).value;
    if rows != [] { MaskMeans(db, rows, 0); }
    forall i | 0 <= i < |rows| ensures i < |mask| && PendingOne(db, b, i, db', rows, mask) {
      MaskMeans(db, rows, i);
      NotBefore(b, i);
      var k := (b.user, b.roles[i]);
      assert k in KeysOf(rows) by { assert rows[i] in rows; }
      if k !in db.assignments {
        var j :| 0 <= j < |rows| && rows[j] == db'.assignments[k];
      }
    }
    if rows == [] { assert mask == []; }
  }

  lemma NotBefore(b: Bulk, i: nat)
    requires i < |b.roles| && forall j, k :: 0 <= j < k < |b.roles| ==> b.roles[j] != b.roles[k]
    ensures b.Rows()[i].Key() !in KeysOf(b.Rows()[..i])
  {
    forall a | a in b.Rows()[..i] ensures a.Key() != b.Rows()[i].Key() {
      var j :| 0 <= j < i && b.Rows()[j] == a;
    }
  }

  lemma BulkInserts(db: Database, b: Bulk)
    requires Referential(db) && BulkInputOk(b.roles) && MayHold(db, b.user)
    requires SoundUntil(db, b, |b.roles|)
    ensures var (db', o) := RunAlone(db, BulkInsert(b)); AllGranted(db, b, db', o)
  {
    Unfold(db, BulkInsert(b));
    forall i | 0 <= i < |b.roles| ensures b.roles[i] in db.tables.roles { assert Sound(db, b, i); }
    InsertPends(db, b);
    var (db', mask) := InsertAll(db, b.Rows()).value;
    ReloadsAll(db, b, db', b.Rows(), mask, 0);
  }

  lemma {:induction false} BulkGrantFrom(db: Database, b: Bulk, n: nat)
    requires Referential(db) && BulkInputOk(b.roles) && MayHold(db, b.user)
    requires n <= |b.roles| && SoundUntil(db, b, n)
    ensures var (db', o) := RunAlone(db, BulkGrantRoles(b, n)); BulkRest(db, b, db', o)
    decreases |b.roles| - n
  {
    Unfold(db, BulkGrantRoles(b, n));
    if n == |b.roles| {
      BulkInserts(db, b);
    } else if Sound(db, b, n) {
      BulkGrantFrom(db, b, n + 1);
    } else {
      var o := RunAlone(db, BulkGrantRoles(b, n)).1;
      assert Faulty(db, b, n, o);
    }
  }

  lemma BulkGrantAnswers(db: Database, b: Bulk)
    requires Referential(db)
    ensures var (db', o) := RunAlone(db, BulkGrant(b)); BulkGrantAnswer(db, b, db', o)
  {
    Unfold(db, BulkGrant(b));
    if BulkInputOk(b.roles) && b.app in db.tables.apps {
      Unfold(db, BulkGrantUser(b));
      if MayHold(db, b.user) { BulkGrantFrom(db, b, 0); }
    }
  }
}

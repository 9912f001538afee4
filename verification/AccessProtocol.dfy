/**
 Grants and removals of roles, split into their repository calls and interleaved with each other
 and with everything that creates, changes or deletes users, apps and roles.
 */
module AccessProtocol {
  import opened AccessStore
  import opened Prelude
  import opened RoleDomain
  import opened RoleStore
  import opened UserDomain

  datatype Outcome =
    | Granted(row: Assignment, created: bool)
    | BulkGranted(rows: seq<Assignment>, mask: seq<bool>)
    | Removed
    | InvalidArgument
    | UserNotFound | UserNotEligible
    | RoleNotFound | RoleDisabled | RoleNotInApp
    | AppNotFound
    | AssignmentMissing
    | Failed

  /** What one bulk request asks for. */
  datatype Bulk = Bulk(user: UserId, app: AppId, roles: seq<RoleId>, grantor: Option<UserId>, now: Time) {
    function Rows(): (rows: seq<Assignment>)
      ensures |rows| == |roles|
    {
      seq(|roles|, i requires 0 <= i < |roles| => Assignment(user, roles[i], app, grantor, now))
    }
  }

  datatype Call =
    // requests
    | Grant(user: UserId, role: RoleId, grantor: Option<UserId>, now: Time)
    | BulkGrant(bulk: Bulk)
    | Remove(user: UserId, role: RoleId)
    | BulkRemove(bulk: Bulk)
    // suspended between two repository calls
    | GrantUser(row: Assignment)
    | GrantInsert(row: Assignment)
    | GrantReload(key: Key)
    | BulkGrantUser(bulk: Bulk)
    | BulkGrantRoles(bulk: Bulk, checked: nat)
    | BulkInsert(bulk: Bulk)
    | BulkReload(rows: seq<Assignment>, mask: seq<bool>, next: nat)
    | RemoveRole(user: UserId, role: RoleId)
    | RemoveDelete(user: UserId, role: RoleId)
    | BulkRemoveUser(bulk: Bulk)
    | BulkRemoveRoles(bulk: Bulk, checked: nat)
    | BulkDelete(bulk: Bulk)
    | Finished(outcome: Outcome)
  {
    predicate IsRequest() { Grant? || BulkGrant? || Remove? || BulkRemove? }
  }

  /** parseBulkInput: between one and BULK_OPS_CAP roles, none twice. */
  predicate BulkInputOk(roles: seq<RoleId>) {
    && 0 < |roles| <= BULK_OPS_CAP
    && forall i, j :: 0 <= i < j < |roles| ==> roles[i] != roles[j]
  }

  /** loadActiveRoleInApp; `expected` is None for a single grant. */
  function RoleFault(db: Database, role: RoleId, expected: Option<AppId>): Option<Outcome> {
    if role !in db.tables.roles then Some(Outcome.RoleNotFound)
    else if db.tables.roles[role].status != RoleStatus.Active then Some(Outcome.RoleDisabled)
    else if expected.Some? && db.tables.roles[role].appId != expected.value then Some(RoleNotInApp)
    else None
  }

  /** requireUserEligible */
  function UserFault(db: Database, user: UserId): Option<Outcome> {
    if user !in db.users then Some(UserNotFound)
    else if db.users[user] != UserDomain.Status.Active then Some(UserNotEligible)
    else None
  }

  /** One repository call of `call` and the in-memory work after it. */
  function Exec(db: Database, call: Call): (Database, Call) {
    match call
    case Grant(user, role, grantor, now) =>
      (match RoleFault(db, role, None)
       case Some(o) => (db, Finished(o))
       case None => (db, GrantUser(Assignment(user, role, db.tables.roles[role].appId, grantor, now))))
    case GrantUser(row) =>
      (match UserFault(db, row.user)
       case Some(o) => (db, Finished(o))
       case None => (db, GrantInsert(row)))
    case GrantInsert(row) =>
      var (db', r) := InsertAssignment(db, row);
      (db', match r
            case Inserted => Finished(Granted(row, true))
            case Duplicate => GrantReload(row.Key())
            case NoParent => Finished(Failed))
    case GrantReload(key) =>
      (db, Finished(if key in db.assignments then Granted(db.assignments[key], false) else AssignmentMissing))
    case BulkGrant(b) =>
      if !BulkInputOk(b.roles) then (db, Finished(InvalidArgument))
      else if b.app !in db.tables.apps then (db, Finished(AppNotFound))
      else (db, BulkGrantUser(b))
    case BulkGrantUser(b) =>
      (match UserFault(db, b.user)
       case Some(o) => (db, Finished(o))
       case None => (db, BulkGrantRoles(b, 0)))
    case BulkGrantRoles(b, checked) =>
      if checked >= |b.roles| then (db, BulkInsert(b))
      else
        (match RoleFault(db, b.roles[checked], Some(b.app))
         case Some(o) => (db, Finished(o))
         case None => (db, BulkGrantRoles(b, checked + 1)))
    case BulkInsert(b) =>
      (match InsertAll(db, b.Rows())
       case None => (db, Finished(Failed))
       case Some((db', mask)) => (db', BulkReload(b.Rows(), mask, 0)))
    case BulkReload(rows, mask, next) =>
      if next >= |rows| || next >= |mask| then (db, Finished(BulkGranted(rows, mask)))
      else if mask[next] then (db, BulkReload(rows, mask, next + 1))
      else if rows[next].Key() !in db.assignments then (db, Finished(AssignmentMissing))
      else (db, BulkReload(rows[next := db.assignments[rows[next].Key()]], mask, next + 1))
    case Remove(user, role) =>
      if user !in db.users then (db, Finished(UserNotFound)) else (db, RemoveRole(user, role))
    case RemoveRole(user, role) =>
      if role !in db.tables.roles then (db, Finished(Outcome.RoleNotFound)) else (db, RemoveDelete(user, role))
    case RemoveDelete(user, role) => (DeleteAssignment(db, (user, role)), Finished(Removed))
    case BulkRemove(b) =>
      if !BulkInputOk(b.roles) then (db, Finished(InvalidArgument))
      else if b.app !in db.tables.apps then (db, Finished(AppNotFound))
      else (db, BulkRemoveUser(b))
    case BulkRemoveUser(b) =>
      if b.user !in db.users then (db, Finished(UserNotFound)) else (db, BulkRemoveRoles(b, 0))
    case BulkRemoveRoles(b, checked) =>
      if checked >= |b.roles| then (db, BulkDelete(b))
      else if b.roles[checked] !in db.tables.roles then (db, Finished(Outcome.RoleNotFound))
      else if db.tables.roles[b.roles[checked]].appId != b.app then (db, Finished(RoleNotInApp))
      else (db, BulkRemoveRoles(b, checked + 1))
    case BulkDelete(b) => (DeleteAll(db, b.user, b.roles), Finished(Removed))
    case Finished(_) => (db, call)
  }

  /** An upper bound on the repository calls left. */
  function Remaining(call: Call): nat {
    match call
    case Grant(_, _, _, _) => 4
    case GrantUser(_) => 3
    case GrantInsert(_) => 2
    case BulkGrant(b) => 2 * |b.roles| + 5
    case BulkGrantUser(b) => 2 * |b.roles| + 4
    case BulkGrantRoles(b, checked) => Max(|b.roles| - checked, 0) + |b.roles| + 3
    case BulkInsert(b) => |b.roles| + 2
    case BulkReload(rows, _, next) => Max(|rows| - next, 0) + 1
    case Remove(_, _) => 3
    case RemoveRole(_, _) => 2
    case BulkRemove(b) => |b.roles| + 4
    case BulkRemoveUser(b) => |b.roles| + 3
    case BulkRemoveRoles(b, checked) => Max(|b.roles| - checked, 0) + 2
    case Finished(_) => 0
    case _ => 1
  }

  /** Every repository call brings a call closer to its end. */
  lemma StepsRunOut(db: Database, call: Call)
    requires !call.Finished?
    ensures Remaining(Exec(db, call).1) < Remaining(call)
  {
    if call.BulkInsert? { assert |call.bulk.Rows()| == |call.bulk.roles|; }
  }

  /** A call run to its end with no other call in between. */
  function RunAlone(db: Database, call: Call): (Database, Outcome)
    decreases Remaining(call)
  {
    if call.Finished? then (db, call.outcome)
    else
      StepsRunOut(db, call);
      RunAlone(Exec(db, call).0, Exec(db, call).1)
  }

  /** One step of a call run alone. */
  lemma Unfold(db: Database, call: Call)
    requires !call.Finished?
    ensures var (db', call') := Exec(db, call);
      && RunAlone(db, call) == RunAlone(db', call')
      && (call'.Finished? ==> RunAlone(db, call) == (db', call'.outcome))
  {
  }

  // ----- runs --------------------------------------------------------------------------------

  type CallId = nat

  /** `roleApp` remembers the app of every role that ever existed; role ids are never used twice. */
  datatype World = World(db: Database, calls: map<CallId, Call>, roleApp: map<RoleId, AppId>)

  datatype Action =
    | Begin(c: CallId, request: Call)
    | Advance(c: CallId)
    | Abort(c: CallId)
    | PutUser(user: UserId, status: UserDomain.Status)
    | DropUser(user: UserId)
    | PutApp(app: AppId)
    | DropApp(app: AppId)
    | CreateRole(row: Row, permissions: set<string>)
    | WriteRole(row: Row, permissions: set<string>)   // any update: status, name, permissions
    | DropRole(role: RoleId)

  const EMPTY: World := World(Database(map[], Tables({}, map[], {}), map[]), map[], map[])

  predicate Enabled(w: World, a: Action) {
    match a
    case Begin(c, request) => c !in w.calls && request.IsRequest()
    case Advance(c) => c in w.calls && !w.calls[c].Finished?
    case Abort(c) => c in w.calls
    case CreateRole(row, _) => row.id !in w.roleApp && row.appId in w.db.tables.apps
    case WriteRole(row, _) => row.id in w.db.tables.roles && row.appId == w.db.tables.roles[row.id].appId
    case _ => true
  }

  function PutRole(db: Database, row: Row, permissions: set<string>): Database {
    db.(tables := db.tables.(
      roles := db.tables.roles[row.id := row],
      permissions := (set g | g in db.tables.permissions && g.0 != row.id) + (set p | p in permissions :: (row.id, p))))
  }

  function Step(w: World, a: Action): World
    requires Enabled(w, a)
  {
    match a
    case Begin(c, request) => w.(calls := w.calls[c := request])
    case Advance(c) => var (db', call') := Exec(w.db, w.calls[c]); w.(db := db', calls := w.calls[c := call'])
    case Abort(c) => w.(calls := w.calls[c := Finished(Failed)])
    case PutUser(user, status) => w.(db := w.db.(users := w.db.users[user := status]))
    case DropUser(user) => w.(db := AccessStore.DropUser(w.db, user))
    case PutApp(app) => w.(db := w.db.(tables := w.db.tables.(apps := w.db.tables.apps + {app})))
    case DropApp(app) => w.(db := AccessStore.DropApp(w.db, app))
    case CreateRole(row, permissions) =>
      w.(db := PutRole(w.db, row, permissions), roleApp := w.roleApp[row.id := row.appId])
    case WriteRole(row, permissions) => w.(db := PutRole(w.db, row, permissions))
    case DropRole(role) => w.(db := DropRoles(w.db, {role}))
  }

  ghost predicate StepAt(ws: seq<World>, acts: seq<Action>, i: nat)
    requires i < |acts| == |ws| - 1
  {
    Enabled(ws[i], acts[i]) && ws[i+1] == Step(ws[i], acts[i])
  }

  ghost predicate IsRun(ws: seq<World>, acts: seq<Action>) {
    |ws| == |acts| + 1 && ws[0] == EMPTY && forall i :: 0 <= i < |acts| ==> StepAt(ws, acts, i)
  }

  // ----- the invariant -----------------------------------------------------------------------

  /** A role checked earlier may be gone by now, but a role of that id is of that app for ever. */
  ghost predicate OfApp(roleApp: map<RoleId, AppId>, role: RoleId, app: AppId) {
    role in roleApp && roleApp[role] == app
  }

  ghost predicate CallOk(roleApp: map<RoleId, AppId>, call: Call) {
    match call
    case GrantUser(row) => OfApp(roleApp, row.role, row.app)
    case GrantInsert(row) => OfApp(roleApp, row.role, row.app)
    case BulkGrantRoles(b, checked) =>
      forall i :: 0 <= i < checked && i < |b.roles| ==> OfApp(roleApp, b.roles[i], b.app)
    case BulkInsert(b) => forall i :: 0 <= i < |b.roles| ==> OfApp(roleApp, b.roles[i], b.app)
    case _ => true
  }

  ghost predicate Inv(w: World) {
    && Referential(w.db)
    && (forall r :: r in w.db.tables.roles ==> OfApp(w.roleApp, r, w.db.tables.roles[r].appId))
    && (forall c :: c in w.calls ==> CallOk(w.roleApp, w.calls[c]))
  }

  lemma InsertKeeps(db: Database, a: Assignment, roleApp: map<RoleId, AppId>)
    requires Referential(db) && OfApp(roleApp, a.role, a.app)
    requires forall r :: r in db.tables.roles ==> OfApp(roleApp, r, db.tables.roles[r].appId)
    ensures Referential(InsertAssignment(db, a).0)
    ensures InsertAssignment(db, a).0.tables == db.tables
  {
  }

  lemma {:induction false} InsertAllKeeps(db: Database, rows: seq<Assignment>, roleApp: map<RoleId, AppId>)
    requires Referential(db) && forall i :: 0 <= i < |rows| ==> OfApp(roleApp, rows[i].role, rows[i].app)
    requires forall r :: r in db.tables.roles ==> OfApp(roleApp, r, db.tables.roles[r].appId)
    ensures InsertAll(db, rows).Some? ==>
      Referential(InsertAll(db, rows).value.0) && InsertAll(db, rows).value.0.tables == db.tables
  {
    if rows != [] {
      InsertAllKeeps(db, rows[..|rows|-1], roleApp);
      if InsertAll(db, rows[..|rows|-1]).Some? {
        InsertKeeps(InsertAll(db, rows[..|rows|-1]).value.0, rows[|rows|-1], roleApp);
      }
    }
  }

  lemma AdvanceKeeps(db: Database, call: Call, roleApp: map<RoleId, AppId>)
    requires Referential(db) && CallOk(roleApp, call)
    requires forall r :: r in db.tables.roles ==> OfApp(roleApp, r, db.tables.roles[r].appId)
    ensures var (db', call') := Exec(db, call); Referential(db') && db'.tables == db.tables && CallOk(roleApp, call')
  {
    match call
    case GrantInsert(row) => InsertKeeps(db, row, roleApp);
    case BulkInsert(b) => InsertAllKeeps(db, b.Rows(), roleApp);
    case _ =>
  }

  lemma PutRoleKeeps(db: Database, row: Row, permissions: set<string>)
    requires Referential(db) && row.appId in db.tables.apps
    requires row.id in db.tables.roles ==> row.appId == db.tables.roles[row.id].appId
    ensures Referential(PutRole(db, row, permissions))
  {
  }

  lemma DropKeeps(db: Database, gone: set<RoleId>, app: AppId, user: UserId)
    requires Referential(db)
    ensures Referential(DropRoles(db, gone))
    ensures Referential(AccessStore.DropApp(db, app))
    ensures Referential(AccessStore.DropUser(db, user))
  {
  }

  lemma InvStep(w: World, a: Action)
    requires Inv(w) && Enabled(w, a)
    ensures Inv(Step(w, a))
  {
    match a
    case Advance(c) => AdvanceKeeps(w.db, w.calls[c], w.roleApp);
    case CreateRole(row, permissions) => PutRoleKeeps(w.db, row, permissions);
    case WriteRole(row, permissions) => PutRoleKeeps(w.db, row, permissions);
    case DropUser(user) => DropKeeps(w.db, {}, AppId(""), user);
    case DropApp(app) => DropKeeps(w.db, {}, app, UserId(""));
    case DropRole(role) => DropKeeps(w.db, {role}, AppId(""), UserId(""));
    case _ =>
  }

  /** In every reachable state each assignment has its user and its role, and its app_id is the
      role's, although app_id is written from a role read earlier and no foreign key guards it. */
  lemma {:induction false} AssignmentsStayReferential(ws: seq<World>, acts: seq<Action>, i: nat)
    requires IsRun(ws, acts) && i < |ws|
    ensures Inv(ws[i])
    ensures forall k :: k in ws[i].db.assignments ==>
      && k.0 in ws[i].db.users && k.1 in ws[i].db.tables.roles
      && ws[i].db.tables.roles[k.1].appId == ws[i].db.assignments[k].app
  {
    if i > 0 {
      AssignmentsStayReferential(ws, acts, i - 1);
      assert StepAt(ws, acts, i - 1);
      InvStep(ws[i-1], acts[i-1]);
    }
  }

  // ----- what a grant and a removal leave behind ---------------------------------------------

  /** The step inserts a row for the pair. */
  ghost predicate Grants(w: World, a: Action, k: Key) {
    && a.Advance? && a.c in w.calls
    && (match w.calls[a.c]
        case GrantInsert(row) => row.Key() == k
        case BulkInsert(b) => k in KeysOf(b.Rows())
        case _ => false)
  }

  /** A step that does not grant the pair does not add it, and no step alters a row that stays. */
  lemma RowStep(w: World, a: Action, k: Key)
    requires Inv(w) && Enabled(w, a) && k in Step(w, a).db.assignments
    ensures k in w.db.assignments ==> Step(w, a).db.assignments[k] == w.db.assignments[k]
    ensures k !in w.db.assignments ==> Grants(w, a, k)
  {
    if a.Advance? && w.calls[a.c].BulkInsert? {
      var rows := w.calls[a.c].bulk.Rows();
      if InsertAll(w.db, rows).Some? { InsertAllMeans(w.db, rows); }
    }
  }

  /** An assignment that was removed, by hand or by a cascade, is not there again until some later
      step grants that very pair; and while it is there the row of the first grant stands. */
  lemma {:induction false} OnlyGrantsAdd(ws: seq<World>, acts: seq<Action>, i: nat, n: nat, k: Key)
    requires IsRun(ws, acts) && i <= n < |ws| && k in ws[n].db.assignments
    requires forall m :: i <= m < n ==> !Grants(ws[m], acts[m], k)
    ensures k in ws[i].db.assignments && ws[i].db.assignments[k] == ws[n].db.assignments[k]
  {
    if i < n {
      assert StepAt(ws, acts, n - 1);
      AssignmentsStayReferential(ws, acts, n - 1);
      RowStep(ws[n-1], acts[n-1], k);
      OnlyGrantsAdd(ws, acts, i, n - 1, k);
    }
  }

  /** A bulk grant's insert is all or nothing, whatever happened to its roles since they were
      checked: every requested pair is there afterwards, or nothing has changed. */
  lemma BulkGrantIsAtomic(w: World, c: CallId)
    requires Inv(w) && c in w.calls && w.calls[c].BulkInsert?
    ensures var w' := Step(w, Advance(c)); var keys := KeysOf(w.calls[c].bulk.Rows());
      if forall k :: k in keys ==> HasParents(w.db, k)
      then w'.db.assignments.Keys == w.db.assignments.Keys + keys && w'.calls[c].BulkReload?
      else w'.db == w.db && w'.calls[c] == Finished(Failed)
  {
    InsertAllMeans(w.db, w.calls[c].bulk.Rows());
  }
}

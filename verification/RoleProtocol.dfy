/**
 The calls that read and write roles, split into their queries, and their interleavings.

 A role is loaded by two queries outside any transaction, its row and then its permissions; it is
 saved, row and permissions together, in one transaction. UpdateRole may carry an etag, Disable and
 Enable never do.
 */
module RoleProtocol {
  import opened Prelude
  import opened RoleDomain
  import opened RoleStore

  /** What the tables hold of one role. */
  datatype Stored = Stored(row: Row, permissions: set<string>)

  type Contents = map<RoleId, Stored>

  function ContentsOf(t: Tables): Contents {
    map id | id in t.roles :: Stored(t.roles[id], PermissionsOf(t.permissions, id))
  }

  datatype Request =
    | CreateRole(appId: AppId, name: string, description: string, permissions: seq<string>, now: Time)
    | UpdateRole(id: RoleId, expected: Option<Etag>, patch: Patch, now: Time)
    | Lifecycle(id: RoleId, target: RoleStatus, now: Time)
    | HardDelete(id: RoleId, etag: Etag)
    | GetRole(id: RoleId)

  datatype Stage =
    | Start
    | RowRead(row: Row)
    | Insert(role: Role)
    | Save(loaded: Role, copy: Role, expected: Option<Etag>)
    | Delete(id: RoleId, etag: Etag)
    | Shown(role: Role)
    | Finished(result: Reply<()>)

  datatype Call = Call(request: Request, stage: Stage) {
    predicate Ended() { stage.Shown? || stage.Finished? }
  }

  /** Generated etag and id, the app's existence, and the list the second query returns. */
  datatype Choice = Choice(etag: Etag, id: RoleId, appExists: bool, listing: seq<string>)

  function PermissionsIn(c: Contents, id: RoleId): set<string> { if id in c then c[id].permissions else {} }

  ghost predicate Allowed(c: Contents, call: Call, ch: Choice) {
    call.stage.RowRead? ==> IsListing(ch.listing, PermissionsIn(c, call.stage.row.id))
  }

  predicate NameUsed(c: Contents, id: RoleId, appId: AppId, name: string) {
    exists i :: i in c && i != id && c[i].row.appId == appId && c[i].row.name == name
  }

  // ----- repository calls on the contents ----------------------------------------------------

  function InsertRole(c: Contents, role: Role, appExists: bool): (Contents, Reply<()>) {
    if role.row.id in c || NameUsed(c, role.row.id, role.row.appId, role.row.name) then (c, Failure(RoleAlreadyExists))
    else if !appExists || !NoDuplicates(role.permissions) then (c, Failure(Internal))
    else (c[role.row.id := Stored(role.row, AsSet(role.permissions))], Success(()))
  }

  function SaveRole(c: Contents, role: Role, expected: Option<Etag>): (Contents, Reply<()>) {
    var id := role.row.id;
    if id !in c then (c, Failure(RoleNotFound))
    else if expected.Some? && c[id].row.etag != expected.value then (c, Failure(EtagMismatch))
    else if NameUsed(c, id, c[id].row.appId, role.row.name) then (c, Failure(RoleAlreadyExists))
    else if !NoDuplicates(role.permissions) then (c, Failure(Internal))
    else
      var row := role.row.(appId := c[id].row.appId, createdAt := c[id].row.createdAt);
      (c[id := Stored(row, AsSet(role.permissions))], Success(()))
  }

  function DeleteRole(c: Contents, id: RoleId, etag: Etag): (Contents, Reply<()>) {
    if id !in c then (c, Failure(RoleNotFound))
    else if c[id].row.etag != etag then (c, Failure(EtagMismatch))
    else (c - {id}, Success(()))
  }

  /** What the repository writes, seen as contents. */
  lemma WroteContents(before: Tables, after: Tables, row: Row, permissions: set<string>)
    requires Wrote(before, after, row, permissions)
    ensures ContentsOf(after) == ContentsOf(before)[row.id := Stored(row, permissions)]
  {
    forall id | id in before.roles && id != row.id
      ensures PermissionsOf(after.permissions, id) == PermissionsOf(before.permissions, id)
    {
      forall p ensures p in PermissionsOf(after.permissions, id) <==> p in PermissionsOf(before.permissions, id) {
        assert (id, p).0 == id;
        assert (id, p) in after.permissions <==> (id, p) in before.permissions;
      }
    }
  }

  // ----- calls -------------------------------------------------------------------------------

  function AfterLoad(role: Role, request: Request, ch: Choice): Stage {
    match request
    case UpdateRole(_, expected, patch, now) => Save(role, Patched(role, patch, now, ch.etag), expected)
    case Lifecycle(_, target, now) => Save(role, Switched(role, target, now, ch.etag), None)
    case HardDelete(id, etag) => if role.row.etag != etag then Finished(Failure(EtagMismatch)) else Delete(id, etag)
    case GetRole(_) => Shown(role)
    case CreateRole(_, _, _, _, _) => Finished(Failure(Internal))
  }

  /** One query or transaction and the in-memory work after it. */
  function Exec(c: Contents, call: Call, ch: Choice): (Contents, Call) {
    match call.stage
    case Start =>
      (match call.request
       case CreateRole(appId, name, description, permissions, now) =>
         var row := Row(ch.id, appId, name, description, Active, ch.etag, now, now);
         (c, call.(stage := Insert(Role(row, Canonical(permissions)))))
       case _ =>
         if call.request.id !in c then (c, call.(stage := Finished(Failure(RoleNotFound))))
         else (c, call.(stage := RowRead(c[call.request.id].row))))
    case RowRead(row) => (c, call.(stage := AfterLoad(Role(row, ch.listing), call.request, ch)))
    case Insert(role) => var (c', r) := InsertRole(c, role, ch.appExists); (c', call.(stage := Finished(r)))
    case Save(_, copy, expected) => var (c', r) := SaveRole(c, copy, expected); (c', call.(stage := Finished(r)))
    case Delete(id, etag) => var (c', r) := DeleteRole(c, id, etag); (c', call.(stage := Finished(r)))
    case _ => (c, call)
  }

  // ----- runs --------------------------------------------------------------------------------

  type CallId = nat

  /** Which contents each generated etag was given for, and app and creation time of each id. */
  datatype History = History(names: map<Etag, Stored>, born: map<RoleId, (AppId, Time)>)

  datatype World = World(roles: Contents, calls: map<CallId, Call>, hist: History)

  datatype Action =
    | Begin(c: CallId, request: Request)
    | Advance(c: CallId, ch: Choice)
    | Abort(c: CallId)
    | DropRoles(gone: set<RoleId>)   // with their app

  const EMPTY: World := World(map[], map[], History(map[], map[]))

  ghost predicate Enabled(w: World, a: Action) {
    match a
    case Begin(c, _) => c !in w.calls
    case Advance(c, ch) =>
      && c in w.calls && !w.calls[c].Ended()
      && ch.etag !in w.hist.names && ch.id !in w.hist.born
      && Allowed(w.roles, w.calls[c], ch)
    case Abort(c) => c in w.calls
    case DropRoles(_) => true
  }

  function AsStored(role: Role): Stored { Stored(role.row, AsSet(role.permissions)) }

  /** Names a generated etag; an etag that was loaded with the copy has its name. */
  function Name(h: History, role: Role): History {
    if role.row.etag in h.names then h else h.(names := h.names[role.row.etag := AsStored(role)])
  }

  function Record(h: History, after: Stage): History {
    match after
    case Insert(role) => Name(h, role).(born := h.born[role.row.id := (role.row.appId, role.row.createdAt)])
    case Save(_, copy, _) => Name(h, copy)
    case _ => h
  }

  ghost function Step(w: World, a: Action): World
    requires Enabled(w, a)
  {
    match a
    case Begin(c, request) => w.(calls := w.calls[c := Call(request, Start)])
    case Advance(c, ch) =>
      var (roles', call') := Exec(w.roles, w.calls[c], ch);
      World(roles', w.calls[c := call'], if w.calls[c].stage.Save? then w.hist else Record(w.hist, call'.stage))
    case Abort(c) => w.(calls := w.calls[c := w.calls[c].(stage := Finished(Failure(Internal)))])
    case DropRoles(gone) => w.(roles := w.roles - gone)
  }

  ghost predicate StepAt(ws: seq<World>, acts: seq<Action>, i: nat)
    requires i < |acts| == |ws| - 1
  {
    Enabled(ws[i], acts[i]) && ws[i+1] == Step(ws[i], acts[i])
  }

  ghost predicate IsRun(ws: seq<World>, acts: seq<Action>) {
    |ws| == |acts| + 1 && ws[0] == EMPTY && forall i :: 0 <= i < |acts| ==> StepAt(ws, acts, i)
  }

  // ----- loads -------------------------------------------------------------------------------

  /** What a mutation leaves: the role as it was, or the same identity under the new etag. */
  lemma CopyIs(role: Role, request: Request, ch: Choice)
    ensures var stage := AfterLoad(role, request, ch);
      stage.Save? ==>
        && stage.loaded == role && stage.copy.row.id == role.row.id
        && stage.copy.row.appId == role.row.appId && stage.copy.row.createdAt == role.row.createdAt
        && (stage.copy == role || stage.copy.row.etag == ch.etag)
  {
  }

  /** Step p is the first query of call c's load: it reads the row of a role that is there. */
  ghost predicate ReadsRow(ws: seq<World>, acts: seq<Action>, c: CallId, p: nat)
    requires p < |acts| <= |ws|
  {
    && acts[p].Advance? && acts[p].c == c && c in ws[p].calls
    && ws[p].calls[c].stage.Start? && !ws[p].calls[c].request.CreateRole?
    && ws[p].calls[c].request.id in ws[p].roles
  }

  /** The row a call has loaded. */
  function RowOf(stage: Stage): Row
    requires stage.RowRead? || stage.Save?
  {
    match stage case RowRead(row) => row case Save(loaded, _, _) => loaded.row
  }

  /** A loaded row was in the table when the call read it. */
  lemma {:induction false} RowWasStored(ws: seq<World>, acts: seq<Action>, i: nat, c: CallId) returns (p: nat)
    requires IsRun(ws, acts) && i < |ws| && c in ws[i].calls
    requires ws[i].calls[c].stage.RowRead? || ws[i].calls[c].stage.Save?
    ensures p < i && ReadsRow(ws, acts, c, p) && ws[p].calls[c].request == ws[i].calls[c].request
    ensures ws[p].roles[ws[p].calls[c].request.id].row == RowOf(ws[i].calls[c].stage)
  {
    assert StepAt(ws, acts, i - 1);
    if c in ws[i-1].calls && (ws[i-1].calls[c].stage.RowRead? || ws[i-1].calls[c].stage.Save?) {
      p := RowWasStored(ws, acts, i - 1, c);
      if ws[i-1].calls[c].stage.RowRead? && ws[i].calls[c].stage.Save? {
        CopyIs(Role(ws[i-1].calls[c].stage.row, acts[i-1].ch.listing), ws[i].calls[c].request, acts[i-1].ch);
      }
    } else {
      p := i - 1;
    }
  }

  lemma {:induction false} StartedOnce(ws: seq<World>, acts: seq<Action>, p: nat, k: nat, c: CallId)
    requires IsRun(ws, acts) && p < k < |ws| && ReadsRow(ws, acts, c, p)
    ensures c in ws[k].calls && !ws[k].calls[c].stage.Start?
  {
    assert StepAt(ws, acts, k - 1);
    if p < k - 1 { StartedOnce(ws, acts, p, k - 1, c); }
  }

  /** A call reads its row once. */
  lemma ReadsOnce(ws: seq<World>, acts: seq<Action>, p: nat, q: nat, c: CallId)
    requires IsRun(ws, acts) && p < |acts| && q < |acts| && ReadsRow(ws, acts, c, p) && ReadsRow(ws, acts, c, q)
    ensures p == q
  {
    if p < q { StartedOnce(ws, acts, p, q, c); }
    if q < p { StartedOnce(ws, acts, q, p, c); }
  }

  // ----- what a save loses -------------------------------------------------------------------

  ghost predicate CommitsSave(w: World, a: Action) {
    && a.Advance? && Enabled(w, a) && w.calls[a.c].stage.Save?
    && SaveRole(w.roles, w.calls[a.c].stage.copy, w.calls[a.c].stage.expected).1.Success?
  }

  /** The copy is what the request makes of the loaded role. */
  ghost predicate Mutated(request: Request, loaded: Role, copy: Role, expected: Option<Etag>) {
    match request
    case UpdateRole(_, e, patch, now) => expected == e && copy == Patched(loaded, patch, now, copy.row.etag)
    case Lifecycle(_, target, now) => expected.None? && copy == Switched(loaded, target, now, copy.row.etag)
    case _ => false
  }

  /** s and t agree on everything the request does not set. */
  predicate AgreeOutside(request: Request, s: Stored, t: Stored) {
    match request
    case UpdateRole(_, _, patch, _) =>
      && s.row.status == t.row.status
      && (patch.name.Some? || s.row.name == t.row.name)
      && (patch.description.Some? || s.row.description == t.row.description)
      && (patch.permissions.Some? || s.permissions == t.permissions)
    case Lifecycle(_, _, _) =>
      s.row.name == t.row.name && s.row.description == t.row.description && s.permissions == t.permissions
    case _ => false
  }

  lemma {:induction false} MutatedRun(ws: seq<World>, acts: seq<Action>, i: nat, c: CallId)
    requires IsRun(ws, acts) && i < |ws| && c in ws[i].calls && ws[i].calls[c].stage.Save?
    ensures var stage := ws[i].calls[c].stage; Mutated(ws[i].calls[c].request, stage.loaded, stage.copy, stage.expected)
  {
    if i > 0 {
      assert StepAt(ws, acts, i - 1);
      if c in ws[i-1].calls && ws[i-1].calls[c].stage.Save? {
        MutatedRun(ws, acts, i - 1, c);
      }
    }
  }

  lemma CopyAgreesOutside(request: Request, loaded: Role, copy: Role, expected: Option<Etag>)
    requires Mutated(request, loaded, copy, expected)
    ensures AgreeOutside(request, AsStored(loaded), AsStored(copy))
  {
  }

  /** In every run, calm or not: a committed save loses nothing of the role it overwrites but what it
      sets itself exactly when the role agrees, outside of that, with what the call had loaded.
      Otherwise an older name, description, status or permission set is put back: a Disable or Enable
      restores every permission removed, and removes every permission added, since its load. */
  lemma NothingLostIff(ws: seq<World>, acts: seq<Action>, i: nat)
    requires IsRun(ws, acts) && i < |acts| && CommitsSave(ws[i], acts[i])
    ensures var call := ws[i].calls[acts[i].c]; var id := call.stage.copy.row.id;
      var loaded := AsStored(call.stage.loaded);
      && id in ws[i].roles && id in ws[i+1].roles
      && ws[i+1].roles[id].permissions == AsSet(call.stage.copy.permissions)
      && AgreeOutside(call.request, loaded, ws[i+1].roles[id])
      && (AgreeOutside(call.request, ws[i].roles[id], ws[i+1].roles[id]) <==>
           AgreeOutside(call.request, ws[i].roles[id], loaded))
      && (call.request.Lifecycle? ==> ws[i+1].roles[id].permissions == loaded.permissions)
  {
    var call := ws[i].calls[acts[i].c];
    assert StepAt(ws, acts, i);
    MutatedRun(ws, acts, i, acts[i].c);
    CopyAgreesOutside(call.request, call.stage.loaded, call.stage.copy, call.stage.expected);
  }
}

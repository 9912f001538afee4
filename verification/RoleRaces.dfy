/**
 What the role protocol does not give: from every reachable state with an active role a Disable can
 restore a permission that a committed update has removed, and from every reachable state with a
 disabled role a repeated Disable that loads the role in two pieces can put it back under its old
 etag with other permissions.
 */
module RoleRaces {
  import opened Prelude
  import opened RoleDomain
  import opened RoleStore
  import opened RoleProtocol
  import opened RoleEtags

  lemma Extend(ws: seq<World>, acts: seq<Action>, a: Action)
    requires IsRun(ws, acts) && Enabled(Last(ws), a)
    ensures IsRun(ws + [Step(Last(ws), a)], acts + [a])
  {
    var ws', acts' := ws + [Step(Last(ws), a)], acts + [a];
    forall i | 0 <= i < |acts'| ensures StepAt(ws', acts', i) {
      if i < |acts| { assert StepAt(ws, acts, i); }
    }
  }

  ghost predicate Continues(ws: seq<World>, acts: seq<Action>, ws': seq<World>, acts': seq<Action>) {
    IsRun(ws', acts') && ws <= ws' && acts <= acts'
  }

  // ----- names stay unique -------------------------------------------------------------------

  /** The primary key and the unique key on app and name. */
  ghost predicate Unique(c: Contents) {
    && (forall id :: id in c ==> c[id].row.id == id)
    && (forall id :: id in c ==> !NameUsed(c, id, c[id].row.appId, c[id].row.name))
  }

  lemma SaveKeepsUnique(c: Contents, role: Role, expected: Option<Etag>)
    requires Unique(c)
    ensures Unique(SaveRole(c, role, expected).0)
  {
    var c' := SaveRole(c, role, expected).0;
    if SaveRole(c, role, expected).1.Success? {
      forall id | id in c' ensures !NameUsed(c', id, c'[id].row.appId, c'[id].row.name) {
        if id != role.row.id && c[id].row.appId == c[role.row.id].row.appId { assert c[id].row.name != role.row.name; }
      }
    }
  }

  lemma InsertKeepsUnique(c: Contents, role: Role, appExists: bool)
    requires Unique(c)
    ensures Unique(InsertRole(c, role, appExists).0)
  {
    var c' := InsertRole(c, role, appExists).0;
    if InsertRole(c, role, appExists).1.Success? {
      forall id | id in c' ensures !NameUsed(c', id, c'[id].row.appId, c'[id].row.name) {
        if id != role.row.id && c[id].row.appId == role.row.appId { assert c[id].row.name != role.row.name; }
      }
    }
  }

  lemma UniqueStep(w: World, a: Action)
    requires Unique(w.roles) && Enabled(w, a)
    ensures Unique(Step(w, a).roles)
  {
    if a.Advance? {
      match w.calls[a.c].stage
      case Save(_, copy, expected) => SaveKeepsUnique(w.roles, copy, expected);
      case Insert(role) => InsertKeepsUnique(w.roles, role, a.ch.appExists);
      case _ =>
    }
  }

  lemma {:induction false} RolesAreUnique(ws: seq<World>, acts: seq<Action>, i: nat)
    requires IsRun(ws, acts) && i < |ws|
    ensures Unique(ws[i].roles)
  {
    if i > 0 {
      RolesAreUnique(ws, acts, i - 1);
      assert StepAt(ws, acts, i - 1);
      UniqueStep(ws[i-1], acts[i-1]);
    }
  }

  lemma {:induction false} CanonicalIsListing(p: seq<string>)
    requires NoDuplicates(p)
    ensures IsListing(Canonical(p), AsSet(p))
  {
    CanonicalSorts(p);
    if p != [] {
      CanonicalIsListing(p[1..]);
      assert p == [p[0]] + p[1..] && p[0] !in p[1..];
      assert p[0] !in AsSet(Canonical(p[1..]));
      InsertKeepsListing(p[0], Canonical(p[1..]));
    }
  }

  // ----- stored etags were generated ---------------------------------------------------------

  ghost predicate StageKnown(names: map<Etag, Stored>, stage: Stage) {
    match stage
    case RowRead(row) => row.etag in names
    case Insert(role) => role.row.etag in names
    case Save(_, copy, _) => copy.row.etag in names
    case _ => true
  }

  ghost predicate Known(w: World) {
    && (forall id :: id in w.roles ==> w.roles[id].row.etag in w.hist.names)
    && (forall c :: c in w.calls ==> StageKnown(w.hist.names, w.calls[c].stage))
  }

  lemma KnownStep(w: World, a: Action)
    requires Known(w) && Enabled(w, a)
    ensures Known(Step(w, a))
  {
    if a.Advance? {
      assert StageKnown(w.hist.names, w.calls[a.c].stage);
      assert forall e :: e in w.hist.names ==> e in Step(w, a).hist.names;
    }
  }

  lemma {:induction false} EtagsAreKnown(ws: seq<World>, acts: seq<Action>, i: nat)
    requires IsRun(ws, acts) && i < |ws|
    ensures Known(ws[i])
  {
    if i > 0 {
      EtagsAreKnown(ws, acts, i - 1);
      assert StepAt(ws, acts, i - 1);
      KnownStep(ws[i-1], acts[i-1]);
    }
  }

  // ----- single steps as continuations -------------------------------------------------------

  ghost predicate IsFresh(w: World, ch: Choice) { ch.etag !in w.hist.names && ch.id !in w.hist.born }

  /** Only the stage of call c has moved; at most the etag of `ch` has been named. */
  ghost predicate Moved(w: World, w': World, c: CallId, request: Request, stage: Stage, ch: Choice) {
    && w'.roles == w.roles && w'.calls == w.calls[c := Call(request, stage)]
    && w'.hist.born == w.hist.born && w'.hist.names.Keys <= w.hist.names.Keys + {ch.etag}
  }

  /** A request on a role that is there, begun, with the row read. */
  lemma ReadRow(ws: seq<World>, acts: seq<Action>, c: CallId, request: Request, ch: Choice)
    returns (ws': seq<World>, acts': seq<Action>)
    requires IsRun(ws, acts) && c !in Last(ws).calls && IsFresh(Last(ws), ch)
    requires !request.CreateRole? && request.id in Last(ws).roles
    ensures Continues(ws, acts, ws', acts')
    ensures Moved(Last(ws), Last(ws'), c, request, RowRead(Last(ws).roles[request.id].row), ch)
    ensures Last(ws').hist == Last(ws).hist
  {
    var w := Last(ws);
    var w1 := Step(w, Begin(c, request));
    Extend(ws, acts, Begin(c, request));
    var w2 := Step(w1, Advance(c, ch));
    Extend(ws + [w1], acts + [Begin(c, request)], Advance(c, ch));
    ws', acts' := ws + [w1] + [w2], acts + [Begin(c, request)] + [Advance(c, ch)];
  }

  /** The second query of a load. */
  lemma ReadPermissions(ws: seq<World>, acts: seq<Action>, c: CallId, ch: Choice)
    returns (ws': seq<World>, acts': seq<Action>)
    requires IsRun(ws, acts) && c in Last(ws).calls && Last(ws).calls[c].stage.RowRead? && IsFresh(Last(ws), ch)
    requires IsListing(ch.listing, PermissionsIn(Last(ws).roles, Last(ws).calls[c].stage.row.id))
    ensures Continues(ws, acts, ws', acts')
    ensures var call := Last(ws).calls[c];
      Moved(Last(ws), Last(ws'), c, call.request, AfterLoad(Role(call.stage.row, ch.listing), call.request, ch), ch)
  {
    var w := Last(ws);
    EtagsAreKnown(ws, acts, |ws| - 1);
    assert StageKnown(w.hist.names, w.calls[c].stage);
    CopyIs(Role(w.calls[c].stage.row, ch.listing), w.calls[c].request, ch);
    var w1 := Step(w, Advance(c, ch));
    Extend(ws, acts, Advance(c, ch));
    ws', acts' := ws + [w1], acts + [Advance(c, ch)];
  }

  /** A save that goes through. */
  lemma CommitSave(ws: seq<World>, acts: seq<Action>, c: CallId, ch: Choice)
    returns (ws': seq<World>, acts': seq<Action>)
    requires IsRun(ws, acts) && c in Last(ws).calls && Last(ws).calls[c].stage.Save? && IsFresh(Last(ws), ch)
    requires SaveRole(Last(ws).roles, Last(ws).calls[c].stage.copy, Last(ws).calls[c].stage.expected).1.Success?
    ensures Continues(ws, acts, ws', acts')
    ensures Last(ws').roles ==
      SaveRole(Last(ws).roles, Last(ws).calls[c].stage.copy, Last(ws).calls[c].stage.expected).0
    ensures Last(ws').calls == Last(ws).calls[c := Call(Last(ws).calls[c].request, Finished(Success(())))]
    ensures Last(ws').hist == Last(ws).hist
  {
    var w1 := Step(Last(ws), Advance(c, ch));
    Extend(ws, acts, Advance(c, ch));
    ws', acts' := ws + [w1], acts + [Advance(c, ch)];
  }

  /** An update of the permissions to `q` under the current etag, from its beginning to its commit. */
  lemma UpdatePermissions(ws: seq<World>, acts: seq<Action>, id: RoleId, listing: seq<string>, q: seq<string>,
                          now: Time, u: CallId, ch: Choice, last: Choice)
    returns (ws': seq<World>, acts': seq<Action>)
    requires IsRun(ws, acts) && id in Last(ws).roles && u !in Last(ws).calls
    requires IsListing(listing, Last(ws).roles[id].permissions) && NoDuplicates(q)
    requires AsSet(q) != Last(ws).roles[id].permissions
    requires IsFresh(Last(ws), ch) && IsFresh(Last(ws), last) && ch.etag != last.etag && ch.listing == listing
    ensures Continues(ws, acts, ws', acts')
    ensures var w, w' := Last(ws), Last(ws');
      && w'.roles == w.roles[id := Stored(w.roles[id].row.(updatedAt := now, etag := ch.etag), AsSet(q))]
      && w'.calls.Keys == w.calls.Keys + {u} && (forall c :: c in w.calls ==> w'.calls[c] == w.calls[c])
      && w'.calls[u].stage == Finished(Success(()))
      && w'.hist.born == w.hist.born && w'.hist.names.Keys <= w.hist.names.Keys + {ch.etag}
  {
    var w := Last(ws);
    RolesAreUnique(ws, acts, |ws| - 1);
    CanonicalIsListing(q);
    var request := UpdateRole(id, Some(w.roles[id].row.etag), Patch(None, None, Some(q)), now);
    var v1, a1 := ReadRow(ws, acts, u, request, ch);
    var v2, a2 := ReadPermissions(v1, a1, u, ch);
    var loaded := Role(w.roles[id].row, listing);
    DifferentSets(q, listing);
    assert Last(v2).calls[u].stage.copy == Role(w.roles[id].row.(updatedAt := now, etag := ch.etag), Canonical(q));
    ws', acts' := CommitSave(v2, a2, u, last);
  }

  lemma DifferentSets(q: seq<string>, listing: seq<string>)
    requires AsSet(q) != AsSet(listing)
    ensures multiset(q) != multiset(listing)
  {
    if multiset(q) == multiset(listing) {
      forall x ensures x in AsSet(q) <==> x in AsSet(listing) {
        assert x in q <==> x in multiset(q);
        assert x in listing <==> x in multiset(listing);
      }
    }
  }

  // ----- a permission restored ---------------------------------------------------------------

  /** A state from `lo` on holds the role with permissions `q`; in the end it has `s` again. */
  ghost predicate Restored(ws: seq<World>, lo: nat, id: RoleId, q: set<string>, s: set<string>)
    requires ws != []
  {
    && (exists m :: lo <= m < |ws| && id in ws[m].roles && ws[m].roles[id].permissions == q)
    && id in Last(ws).roles && Last(ws).roles[id].permissions == s
  }

  /** The Disable's load, and then the whole update. */
  lemma LoadThenUpdate(ws: seq<World>, acts: seq<Action>, id: RoleId, listing: seq<string>, q: seq<string>, now: Time,
                       l: CallId, u: CallId, gen: seq<Choice>)
    returns (ws': seq<World>, acts': seq<Action>)
    requires IsRun(ws, acts) && id in Last(ws).roles && Last(ws).roles[id].row.status == Active
    requires Last(ws).roles[id].row.id == id
    requires IsListing(listing, Last(ws).roles[id].permissions) && NoDuplicates(q)
    requires AsSet(q) != Last(ws).roles[id].permissions
    requires l != u && l !in Last(ws).calls && u !in Last(ws).calls
    requires |gen| == 3 && gen[0].etag != gen[1].etag && gen[1].etag != gen[2].etag && gen[2].etag != gen[0].etag
    requires forall k :: 0 <= k < 3 ==> IsFresh(Last(ws), gen[k]) && gen[k].listing == listing
    ensures Continues(ws, acts, ws', acts') && |ws| < |ws'|
    ensures var w, w' := Last(ws), Last(ws'); var row := w.roles[id].row;
      && w'.roles == w.roles[id := Stored(row.(updatedAt := now, etag := gen[1].etag), AsSet(q))]
      && l in w'.calls
      && w'.calls[l].stage ==
           Save(Role(row, listing),
                Role(row.(status := Disabled, updatedAt := now, etag := gen[0].etag), listing), None)
      && IsFresh(w', gen[2])
  {
    var v1, a1 := ReadRow(ws, acts, l, Lifecycle(id, Disabled, now), gen[0]);
    var v2, a2 := ReadPermissions(v1, a1, l, gen[0]);
    ws', acts' := UpdatePermissions(v2, a2, id, listing, q, now, u, gen[1], gen[2]);
  }

  lemma IsRestored(ws: seq<World>, lo: nat, m: nat, id: RoleId, q: set<string>, s: set<string>)
    requires lo <= m < |ws| && id in ws[m].roles && ws[m].roles[id].permissions == q
    requires id in Last(ws).roles && Last(ws).roles[id].permissions == s
    ensures Restored(ws, lo, id, q, s)
  {
  }

  /** From any reachable state with an active role: a Disable loads it, an update under the current etag
      commits other permissions, and the Disable's save puts the old ones back. */
  lemma DisableCanRestorePermissions(ws: seq<World>, acts: seq<Action>, id: RoleId, listing: seq<string>,
                                     q: seq<string>, now: Time, l: CallId, u: CallId, gen: seq<Choice>)
    requires IsRun(ws, acts) && id in Last(ws).roles && Last(ws).roles[id].row.status == Active
    requires IsListing(listing, Last(ws).roles[id].permissions) && NoDuplicates(q)
    requires AsSet(q) != Last(ws).roles[id].permissions
    requires l != u && l !in Last(ws).calls && u !in Last(ws).calls
    requires |gen| == 3 && gen[0].etag != gen[1].etag && gen[1].etag != gen[2].etag && gen[2].etag != gen[0].etag
    requires forall k :: 0 <= k < 3 ==> IsFresh(Last(ws), gen[k]) && gen[k].listing == listing
    ensures exists ws', acts' ::
      Continues(ws, acts, ws', acts') && Restored(ws', |ws|, id, AsSet(q), Last(ws).roles[id].permissions)
  {
    assert Last(ws).roles[id].row.id == id by { RolesAreUnique(ws, acts, |ws| - 1); }
    var v3, a3 := LoadThenUpdate(ws, acts, id, listing, q, now, l, u, gen);
    RolesAreUnique(v3, a3, |v3| - 1);
    var v4, a4 := CommitSave(v3, a3, l, gen[2]);
    assert v4[|v3|-1] == Last(v3);
    IsRestored(v4, |ws|, |v3| - 1, id, AsSet(q), Last(ws).roles[id].permissions);
    assert Continues(ws, acts, v4, a4);
  }

  // ----- an etag used twice ------------------------------------------------------------------

  /** The update between the two queries of a Disable that has nothing to change. */
  lemma LoadTorn(ws: seq<World>, acts: seq<Action>, id: RoleId, listing: seq<string>, q: seq<string>, now: Time,
                 l: CallId, u: CallId, gen: seq<Choice>)
    returns (ws': seq<World>, acts': seq<Action>)
    requires IsRun(ws, acts) && id in Last(ws).roles && Last(ws).roles[id].row.status == Disabled
    requires Last(ws).roles[id].row.id == id && IsListing(listing, Last(ws).roles[id].permissions)
    requires NoDuplicates(q) && AsSet(q) != Last(ws).roles[id].permissions
    requires l != u && l !in Last(ws).calls && u !in Last(ws).calls
    requires |gen| == 3 && gen[0].etag != gen[1].etag && gen[1].etag != gen[2].etag && gen[2].etag != gen[0].etag
    requires forall k :: 0 <= k < 3 ==> IsFresh(Last(ws), gen[k])
    requires gen[1].listing == listing && gen[2].listing == Canonical(q)
    ensures Continues(ws, acts, ws', acts') && IsFresh(Last(ws'), gen[0])
    ensures var row := Last(ws).roles[id].row; var torn := Role(row, Canonical(q));
      && l in Last(ws').calls && Last(ws').calls[l].stage == Save(torn, torn, None)
      && id in Last(ws').roles && Last(ws').roles[id].row.appId == row.appId
      && Last(ws').roles[id].row.name == row.name && Last(ws').roles[id].row.createdAt == row.createdAt
  {
    CanonicalIsListing(q);
    var v1, a1 := ReadRow(ws, acts, l, Lifecycle(id, Disabled, now), gen[0]);
    var v2, a2 := UpdatePermissions(v1, a1, id, listing, q, now, u, gen[1], gen[2]);
    ws', acts' := ReadPermissions(v2, a2, l, gen[2]);
  }

  /** From any reachable state with a disabled role: a repeated Disable reads the row, an update under
      the current etag commits other permissions, the Disable reads those and, having nothing to
      change, saves them with the old row. The old etag now stands for other permissions than before:
      etags no longer name roles. */
  lemma TornDisableReusesItsEtag(ws: seq<World>, acts: seq<Action>, id: RoleId, listing: seq<string>, q: seq<string>,
                                 now: Time, l: CallId, u: CallId, gen: seq<Choice>)
    requires IsRun(ws, acts) && id in Last(ws).roles && Last(ws).roles[id].row.status == Disabled
    requires IsListing(listing, Last(ws).roles[id].permissions) && NoDuplicates(q)
    requires AsSet(q) != Last(ws).roles[id].permissions
    requires l != u && l !in Last(ws).calls && u !in Last(ws).calls
    requires |gen| == 3 && gen[0].etag != gen[1].etag && gen[1].etag != gen[2].etag && gen[2].etag != gen[0].etag
    requires forall k :: 0 <= k < 3 ==> IsFresh(Last(ws), gen[k])
    requires gen[1].listing == listing && gen[2].listing == Canonical(q)
    ensures exists ws', acts' ::
      Continues(ws, acts, ws', acts') && id in Last(ws').roles
      && Last(ws').roles[id].row.etag == Last(ws).roles[id].row.etag && Last(ws').roles[id].permissions == AsSet(q)
      && !EtagsNameRoles(ws', |ws'| - 1)
  {
    RolesAreUnique(ws, acts, |ws| - 1);
    CanonicalIsListing(q);
    var v3, a3 := LoadTorn(ws, acts, id, listing, q, now, l, u, gen);
    RolesAreUnique(v3, a3, |v3| - 1);
    var v4, a4 := CommitSave(v3, a3, l, gen[0]);
    BreaksNames(v4, |ws| - 1, |v4| - 1, id);
    assert Continues(ws, acts, v4, a4);
  }
}

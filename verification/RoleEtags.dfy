/**
 What the etag of a role names. Etags are meant to stand for one row and one permission set, but a role
 is loaded by two queries, and a write that changes nothing stores what was loaded under the old etag.
 In every run an etag names one role exactly as long as each such write stores the permissions the role
 had when its row was read.
 */
module RoleEtags {
  import opened Prelude
  import opened RoleDomain
  import opened RoleStore
  import opened RoleProtocol

  /** The step commits a role as it was loaded, under the etag it was loaded with. */
  ghost predicate SavesUnchanged(w: World, a: Action) {
    CommitsSave(w, a) && w.calls[a.c].stage.copy == w.calls[a.c].stage.loaded
  }

  /** Such a step stores the permissions the role had when the call read its row. */
  ghost predicate Faithful(ws: seq<World>, acts: seq<Action>, m: nat)
    requires m < |acts| <= |ws|
  {
    SavesUnchanged(ws[m], acts[m]) ==>
      forall p :: 0 <= p < m && ReadsRow(ws, acts, acts[m].c, p) ==> StoresAsRead(ws, acts, p, m)
  }

  ghost predicate StoresAsRead(ws: seq<World>, acts: seq<Action>, p: nat, m: nat)
    requires p < m < |acts| <= |ws| && CommitsSave(ws[m], acts[m])
  {
    var copy := ws[m].calls[acts[m].c].stage.copy;
    AsSet(copy.permissions) == PermissionsIn(ws[p].roles, copy.row.id)
  }

  ghost predicate FaithfulUntil(ws: seq<World>, acts: seq<Action>, n: nat)
    requires n <= |acts| <= |ws|
  {
    forall m :: 0 <= m < n ==> Faithful(ws, acts, m)
  }

  /** Roles held under one etag, be it under two ids, are the same. */
  ghost predicate SameRoles(w: World, w': World) {
    forall id, jd :: id in w.roles && jd in w'.roles && w.roles[id].row.etag == w'.roles[jd].row.etag
      ==> w.roles[id] == w'.roles[jd]
  }

  /** Over the first n steps an etag names one row and one permission set. */
  ghost predicate EtagsNameRoles(ws: seq<World>, n: nat)
    requires n < |ws|
  {
    forall i, k :: 0 <= i <= k <= n ==> SameRoles(ws[i], ws[k])
  }

  // ----- the invariant -----------------------------------------------------------------------

  ghost predicate BornAs(h: History, row: Row) { row.id in h.born && h.born[row.id] == (row.appId, row.createdAt) }

  ghost predicate Named(h: History, s: Stored) {
    s.row.etag in h.names && h.names[s.row.etag] == s && BornAs(h, s.row)
  }

  ghost predicate RowNamed(h: History, row: Row) {
    row.etag in h.names && h.names[row.etag].row == row && BornAs(h, row)
  }

  ghost predicate StageOk(h: History, stage: Stage) {
    match stage
    case RowRead(row) => RowNamed(h, row)
    case Insert(role) => Named(h, AsStored(role))
    case Save(loaded, copy, _) =>
      RowNamed(h, loaded.row) && copy.row.id == loaded.row.id && (copy == loaded || Named(h, AsStored(copy)))
    case Shown(role) => RowNamed(h, role.row)
    case _ => true
  }

  ghost predicate Inv(w: World) {
    && (forall id :: id in w.roles ==> w.roles[id].row.id == id && Named(w.hist, w.roles[id]))
    && (forall c :: c in w.calls ==> StageOk(w.hist, w.calls[c].stage))
  }

  ghost predicate Extends(h: History, h': History) {
    && (forall e :: e in h.names ==> e in h'.names && h'.names[e] == h.names[e])
    && (forall id :: id in h.born ==> id in h'.born && h'.born[id] == h.born[id])
  }

  /** What the step saves unchanged is what its etag names. */
  ghost predicate Good(w: World, a: Action) {
    SavesUnchanged(w, a) ==>
      var copy := w.calls[a.c].stage.copy;
      copy.row.etag in w.hist.names && AsSet(copy.permissions) == w.hist.names[copy.row.etag].permissions
  }

  lemma StageStays(h: History, h': History, stage: Stage)
    requires StageOk(h, stage) && Extends(h, h')
    ensures StageOk(h', stage)
  {
  }

  ghost predicate Kept(w: World, c: CallId, w': World) {
    && Extends(w.hist, w'.hist)
    && (forall id :: id in w'.roles ==> w'.roles[id].row.id == id && Named(w'.hist, w'.roles[id]))
    && c in w'.calls && StageOk(w'.hist, w'.calls[c].stage)
  }

  lemma LoadKeeps(w: World, a: Action)
    requires Inv(w) && Enabled(w, a) && a.Advance? && w.calls[a.c].stage.RowRead?
    ensures Kept(w, a.c, Step(w, a))
  {
    var call := w.calls[a.c];
    assert StageOk(w.hist, call.stage);
    CopyIs(Role(call.stage.row, a.ch.listing), call.request, a.ch);
  }

  lemma StartKeeps(w: World, a: Action)
    requires Inv(w) && Enabled(w, a) && a.Advance? && w.calls[a.c].stage.Start?
    ensures Kept(w, a.c, Step(w, a))
  {
    var request := w.calls[a.c].request;
    if !request.CreateRole? && request.id in w.roles { assert Named(w.hist, w.roles[request.id]); }
  }

  lemma SaveKeeps(w: World, a: Action)
    requires Inv(w) && Enabled(w, a) && Good(w, a) && a.Advance? && w.calls[a.c].stage.Save?
    ensures Kept(w, a.c, Step(w, a))
  {
    assert StageOk(w.hist, w.calls[a.c].stage);
    var id := w.calls[a.c].stage.copy.row.id;
    if id in w.roles { assert Named(w.hist, w.roles[id]); }
  }

  lemma OtherKeeps(w: World, a: Action)
    requires Inv(w) && Enabled(w, a) && a.Advance? && (w.calls[a.c].stage.Insert? || w.calls[a.c].stage.Delete?)
    ensures Kept(w, a.c, Step(w, a))
  {
    assert StageOk(w.hist, w.calls[a.c].stage);
  }

  lemma InvStep(w: World, a: Action)
    requires Inv(w) && Enabled(w, a) && Good(w, a)
    ensures Inv(Step(w, a)) && Extends(w.hist, Step(w, a).hist)
  {
    if a.Advance? {
      match w.calls[a.c].stage {
        case Start => StartKeeps(w, a);
        case RowRead(_) => LoadKeeps(w, a);
        case Save(_, _, _) => SaveKeeps(w, a);
        case Insert(_) => OtherKeeps(w, a);
        case Delete(_, _) => OtherKeeps(w, a);
      }
      var w' := Step(w, a);
      forall d | d in w.calls && d != a.c ensures StageOk(w'.hist, w'.calls[d].stage) {
        StageStays(w.hist, w'.hist, w.calls[d].stage);
      }
    }
  }

  /** The invariant holds up to state i, and names once given stay. */
  ghost predicate InvUpTo(ws: seq<World>, i: nat)
    requires i < |ws|
  {
    forall j :: 0 <= j <= i ==> Inv(ws[j]) && Extends(ws[j].hist, ws[i].hist)
  }

  /** What the etag of a pending save names is the role as it was when the call read its row. */
  lemma GoodIffFaithful(ws: seq<World>, acts: seq<Action>, m: nat)
    requires IsRun(ws, acts) && m < |acts| && InvUpTo(ws, m)
    ensures Good(ws[m], acts[m]) <==> Faithful(ws, acts, m)
  {
    if SavesUnchanged(ws[m], acts[m]) {
      var c := acts[m].c;
      var p := RowWasStored(ws, acts, m, c);
      assert Inv(ws[p]) && Extends(ws[p].hist, ws[m].hist);
      assert Named(ws[p].hist, ws[p].roles[ws[p].calls[c].request.id]);
      assert Good(ws[m], acts[m]) <==> StoresAsRead(ws, acts, p, m);
      forall q | 0 <= q < m && ReadsRow(ws, acts, c, q) ensures q == p {
        ReadsOnce(ws, acts, p, q, c);
      }
    }
  }

  lemma {:induction false} InvRun(ws: seq<World>, acts: seq<Action>, i: nat)
    requires IsRun(ws, acts) && i < |ws| && FaithfulUntil(ws, acts, i)
    ensures InvUpTo(ws, i)
  {
    if i > 0 {
      InvRun(ws, acts, i - 1);
      assert StepAt(ws, acts, i - 1) && Faithful(ws, acts, i - 1);
      GoodIffFaithful(ws, acts, i - 1);
      assert Inv(ws[i-1]);
      InvStep(ws[i-1], acts[i-1]);
    }
  }

  // ----- the exact condition -----------------------------------------------------------------

  lemma NamedOnce(ws: seq<World>, n: nat)
    requires n < |ws| && InvUpTo(ws, n)
    ensures EtagsNameRoles(ws, n)
  {
    forall i, k | 0 <= i <= k <= n ensures SameRoles(ws[i], ws[k]) {
      assert Inv(ws[i]) && Extends(ws[i].hist, ws[n].hist) && Inv(ws[k]) && Extends(ws[k].hist, ws[n].hist);
    }
  }

  lemma UnchangedLeavesCopy(w: World, a: Action)
    requires Inv(w) && Enabled(w, a) && SavesUnchanged(w, a)
    ensures var copy := w.calls[a.c].stage.copy;
      copy.row.id in Step(w, a).roles && Step(w, a).roles[copy.row.id] == AsStored(copy)
  {
    assert StageOk(w.hist, w.calls[a.c].stage) && Named(w.hist, w.roles[w.calls[a.c].stage.copy.row.id]);
  }

  lemma BreaksNames(ws: seq<World>, i: nat, k: nat, id: RoleId)
    requires i <= k < |ws| && id in ws[i].roles && id in ws[k].roles
    requires ws[i].roles[id].row.etag == ws[k].roles[id].row.etag && ws[i].roles[id] != ws[k].roles[id]
    ensures !EtagsNameRoles(ws, k)
  {
    assert !SameRoles(ws[i], ws[k]);
  }

  /** The read of the row that an unfaithful save goes back to. */
  lemma UnfaithfulRead(ws: seq<World>, acts: seq<Action>, m: nat) returns (p: nat)
    requires IsRun(ws, acts) && m < |acts| && InvUpTo(ws, m) && !Faithful(ws, acts, m)
    ensures SavesUnchanged(ws[m], acts[m]) && p < m
    ensures var copy := ws[m].calls[acts[m].c].stage.copy; var id := copy.row.id;
      id in ws[p].roles && ws[p].roles[id].row == copy.row && ws[p].roles[id].permissions != AsSet(copy.permissions)
  {
    var c := acts[m].c;
    var q :| 0 <= q < m && ReadsRow(ws, acts, c, q) && !StoresAsRead(ws, acts, q, m);
    p := RowWasStored(ws, acts, m, c);
    ReadsOnce(ws, acts, p, q, c);
    assert Inv(ws[p]);
  }

  /** An unfaithful save leaves under the old etag other permissions than the role had under it. */
  lemma UnfaithfulBreaks(ws: seq<World>, acts: seq<Action>, m: nat)
    requires IsRun(ws, acts) && m < |acts| && InvUpTo(ws, m) && !Faithful(ws, acts, m)
    ensures !EtagsNameRoles(ws, m + 1)
  {
    var p := UnfaithfulRead(ws, acts, m);
    assert StepAt(ws, acts, m) && Inv(ws[m]);
    UnchangedLeavesCopy(ws[m], acts[m]);
    BreaksNames(ws, p, m + 1, ws[m].calls[acts[m].c].stage.copy.row.id);
  }

  lemma FaithfulOneMore(ws: seq<World>, acts: seq<Action>, n: nat)
    requires n < |acts| <= |ws| && FaithfulUntil(ws, acts, n) && Faithful(ws, acts, n)
    ensures FaithfulUntil(ws, acts, n + 1)
  {
  }

  /** The next step is faithful if etags still name roles after it. */
  lemma NextIsFaithful(ws: seq<World>, acts: seq<Action>, n: nat)
    requires IsRun(ws, acts) && n < |acts| && FaithfulUntil(ws, acts, n) && EtagsNameRoles(ws, n + 1)
    ensures FaithfulUntil(ws, acts, n + 1)
  {
    InvRun(ws, acts, n);
    if !Faithful(ws, acts, n) { UnfaithfulBreaks(ws, acts, n); }
    FaithfulOneMore(ws, acts, n);
  }

  lemma NamesFewer(ws: seq<World>, n: nat)
    requires n + 1 < |ws| && EtagsNameRoles(ws, n + 1)
    ensures EtagsNameRoles(ws, n)
  {
  }

  lemma {:induction false} NamesNeedFaithful(ws: seq<World>, acts: seq<Action>, n: nat)
    requires IsRun(ws, acts) && n <= |acts| && EtagsNameRoles(ws, n)
    ensures FaithfulUntil(ws, acts, n)
  {
    if n > 0 {
      NamesFewer(ws, n - 1);
      NamesNeedFaithful(ws, acts, n - 1);
      NextIsFaithful(ws, acts, n - 1);
    }
  }

  /** In every run an etag names one row and one permission set exactly as long as every write that
      changes nothing stores the permissions its role had when its row was read. */
  lemma EtagsNameRolesIff(ws: seq<World>, acts: seq<Action>, n: nat)
    requires IsRun(ws, acts) && n <= |acts|
    ensures EtagsNameRoles(ws, n) <==> FaithfulUntil(ws, acts, n)
  {
    if FaithfulUntil(ws, acts, n) {
      InvRun(ws, acts, n);
      NamedOnce(ws, n);
    }
    if EtagsNameRoles(ws, n) { NamesNeedFaithful(ws, acts, n); }
  }

  // ----- loads -------------------------------------------------------------------------------

  ghost predicate Held(w: World, s: Stored) { exists id :: id in w.roles && w.roles[id] == s }

  /** The step is the second query of a load, and the role has the etag of the row read before. */
  ghost predicate Untorn(w: World, a: Action) {
    && a.Advance? && a.c in w.calls && w.calls[a.c].stage.RowRead?
    && w.calls[a.c].stage.row.id in w.roles
    && w.roles[w.calls[a.c].stage.row.id].row.etag == w.calls[a.c].stage.row.etag
  }

  /** While etags name roles: a load shows a role that was stored at some time exactly when the
      permissions are the same at its two queries, whatever was written in between; and they are when
      the role still has its etag. */
  lemma LoadIsVersionIff(ws: seq<World>, acts: seq<Action>, p: nat, q: nat)
    requires IsRun(ws, acts) && p < q < |acts| && FaithfulUntil(ws, acts, q)
    requires acts[q].Advance? && acts[q].c in ws[q].calls && ws[q].calls[acts[q].c].stage.RowRead?
    requires ReadsRow(ws, acts, acts[q].c, p)
    ensures var row := ws[q].calls[acts[q].c].stage.row;
      var shown := AsStored(Role(row, acts[q].ch.listing));
      && row.id in ws[p].roles
      && ((exists r :: 0 <= r <= q && Held(ws[r], shown)) <==>
            PermissionsIn(ws[q].roles, row.id) == ws[p].roles[row.id].permissions)
      && (Untorn(ws[q], acts[q]) ==> PermissionsIn(ws[q].roles, row.id) == ws[p].roles[row.id].permissions)
  {
    var c := acts[q].c;
    var row := ws[q].calls[c].stage.row;
    var shown := AsStored(Role(row, acts[q].ch.listing));
    InvRun(ws, acts, q);
    var p' := RowWasStored(ws, acts, q, c);
    ReadsOnce(ws, acts, p, p', c);
    assert StepAt(ws, acts, q) && Inv(ws[p]) && Inv(ws[q]) && Extends(ws[p].hist, ws[q].hist);
    assert Named(ws[p].hist, ws[p].roles[row.id]);
    assert shown.permissions == PermissionsIn(ws[q].roles, row.id);
    if PermissionsIn(ws[q].roles, row.id) == ws[p].roles[row.id].permissions {
      assert ws[p].roles[row.id] == shown && Held(ws[p], shown);
    }
    if r :| 0 <= r <= q && Held(ws[r], shown) {
      assert Inv(ws[r]) && Extends(ws[r].hist, ws[q].hist);
    }
  }

  // ----- calm runs ---------------------------------------------------------------------------

  /** A load that leaves the copy as it was loaded, to be saved under its old etag. */
  ghost predicate LoadsUnchanged(w: World, a: Action) {
    && a.Advance? && a.c in w.calls && w.calls[a.c].stage.RowRead?
    && var after := AfterLoad(Role(w.calls[a.c].stage.row, a.ch.listing), w.calls[a.c].request, a.ch);
       after.Save? && after.copy == after.loaded
  }

  /** Copies to be saved under their old etag were loaded in one piece. */
  ghost predicate Calm(w: World, a: Action) { LoadsUnchanged(w, a) ==> Untorn(w, a) }

  ghost predicate CalmAt(ws: seq<World>, acts: seq<Action>, i: nat)
    requires i < |acts| <= |ws|
  {
    Calm(ws[i], acts[i])
  }

  ghost predicate IsCalmRun(ws: seq<World>, acts: seq<Action>) {
    IsRun(ws, acts) && forall i :: 0 <= i < |acts| ==> CalmAt(ws, acts, i)
  }

  /** Every pending save holds what its etag names. */
  ghost predicate Pristine(w: World) {
    forall c :: c in w.calls ==> PristineStage(w.hist, w.calls[c].stage)
  }

  ghost predicate PristineStage(h: History, stage: Stage) { stage.Save? ==> Named(h, AsStored(stage.copy)) }

  lemma PristineStep(w: World, a: Action)
    requires Inv(w) && Pristine(w) && Enabled(w, a) && Calm(w, a) && Good(w, a)
    ensures Pristine(Step(w, a))
  {
    var w' := Step(w, a);
    InvStep(w, a);
    forall c | c in w'.calls ensures PristineStage(w'.hist, w'.calls[c].stage) {
      if a.Advance? && a.c == c {
        if w.calls[c].stage.RowRead? { PristineLoad(w, a); }
      } else if c in w.calls {
        assert PristineStage(w.hist, w.calls[c].stage);
      }
    }
  }

  lemma PristineLoad(w: World, a: Action)
    requires Inv(w) && Enabled(w, a) && Calm(w, a) && a.Advance? && w.calls[a.c].stage.RowRead?
    ensures PristineStage(Step(w, a).hist, Step(w, a).calls[a.c].stage)
  {
    var row := w.calls[a.c].stage.row;
    LoadKeeps(w, a);
    if LoadsUnchanged(w, a) {
      assert StageOk(w.hist, w.calls[a.c].stage) && Named(w.hist, w.roles[row.id]);
      CopyIs(Role(row, a.ch.listing), w.calls[a.c].request, a.ch);
    }
  }

  lemma PristineIsGood(w: World, a: Action)
    requires Pristine(w)
    ensures Good(w, a)
  {
    if SavesUnchanged(w, a) { assert PristineStage(w.hist, w.calls[a.c].stage); }
  }

  lemma CalmStep(ws: seq<World>, acts: seq<Action>, i: nat)
    requires IsRun(ws, acts) && i < |acts| && CalmAt(ws, acts, i) && InvUpTo(ws, i) && Pristine(ws[i])
    ensures Faithful(ws, acts, i) && Pristine(ws[i+1])
  {
    assert StepAt(ws, acts, i) && Inv(ws[i]);
    PristineIsGood(ws[i], acts[i]);
    GoodIffFaithful(ws, acts, i);
    PristineStep(ws[i], acts[i]);
  }

  ghost predicate CalmSoFar(ws: seq<World>, acts: seq<Action>, i: nat)
    requires i <= |acts| < |ws|
  {
    FaithfulUntil(ws, acts, i) && Pristine(ws[i])
  }

  lemma CalmOneMore(ws: seq<World>, acts: seq<Action>, i: nat)
    requires IsRun(ws, acts) && i < |acts| && CalmAt(ws, acts, i) && CalmSoFar(ws, acts, i)
    ensures CalmSoFar(ws, acts, i + 1)
  {
    InvRun(ws, acts, i);
    CalmStep(ws, acts, i);
    FaithfulOneMore(ws, acts, i);
  }

  lemma {:induction false} CalmIsFaithful(ws: seq<World>, acts: seq<Action>, i: nat)
    requires IsCalmRun(ws, acts) && i < |ws|
    ensures CalmSoFar(ws, acts, i)
  {
    if i > 0 {
      CalmIsFaithful(ws, acts, i - 1);
      assert CalmAt(ws, acts, i - 1);
      CalmOneMore(ws, acts, i - 1);
    }
  }

  /** In particular when copies saved without a change were loaded in one piece: whenever the tables
      hold a role under the same etag they hold the same of it. */
  lemma EtagNamesOneRole(ws: seq<World>, acts: seq<Action>, i: nat, k: nat, id: RoleId, jd: RoleId)
    requires IsCalmRun(ws, acts) && i <= k < |ws| && id in ws[i].roles && jd in ws[k].roles
    requires ws[i].roles[id].row.etag == ws[k].roles[jd].row.etag
    ensures ws[i].roles[id] == ws[k].roles[jd]
  {
    CalmIsFaithful(ws, acts, k);
    EtagsNameRolesIff(ws, acts, k);
    assert SameRoles(ws[i], ws[k]);
  }
}

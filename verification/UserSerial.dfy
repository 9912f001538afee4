/**
 What the etag discipline buys. In every interleaving a committed write applies its own change to the
 version it loaded; it applies it to the version it overwrites exactly when it finds the etag it
 loaded. Conditional writers always do; an unconditional one may not, and then it puts back what it
 had loaded. While every unconditional write to a user finds the etag it loaded, all writes to that
 user are serial and none is lost.
 */
module UserSerial {
  import opened Prelude
  import opened UserDomain
  import opened UserStore
  import opened UserProtocol

  /** An etag a caller sends with an update is one it was shown. */
  ghost predicate Observed(w: World, a: Action) {
    a.Begin? && a.request.UpdateUser? && a.request.expected.Some? ==>
      (a.request.id, a.request.expected.value) in w.hist.shown
  }

  ghost predicate ObservedAt(ws: seq<World>, acts: seq<Action>, i: nat)
    requires i < |acts| <= |ws|
  {
    Observed(ws[i], acts[i])
  }

  ghost predicate IsObservedRun(ws: seq<World>, acts: seq<Action>) {
    IsRun(ws, acts) && forall i :: 0 <= i < |acts| ==> ObservedAt(ws, acts, i)
  }

  /** The step commits a full-row write of user `id`. */
  ghost predicate CommitsRow(w: World, a: Action, id: UserId) {
    && a.Advance? && Enabled(w, a) && w.calls[a.c].stage.Save? && w.calls[a.c].stage.copy.id == id
    && UpdateRow(w.rows, w.calls[a.c].stage.copy, w.calls[a.c].stage.expected).1.Written?
  }

  /** An unconditional write to the user, if this is one, finds the etag it loaded. */
  ghost predicate Clean(w: World, a: Action, id: UserId) {
    CommitsRow(w, a, id) && w.calls[a.c].stage.expected.None? ==> w.rows[id].etag == w.calls[a.c].stage.loaded.etag
  }

  ghost predicate CleanAt(ws: seq<World>, acts: seq<Action>, id: UserId, i: nat)
    requires i < |acts| <= |ws|
  {
    Clean(ws[i], acts[i], id)
  }

  /** Every unconditional write to the user before step `hi` finds the etag it loaded. */
  ghost predicate CleanUntil(ws: seq<World>, acts: seq<Action>, id: UserId, hi: nat)
    requires hi <= |acts| <= |ws|
  {
    forall m :: 0 <= m < hi ==> CleanAt(ws, acts, id, m)
  }

  ghost predicate HasUser(ws: seq<World>, id: UserId, m: nat)
    requires m < |ws|
  {
    id in ws[m].rows
  }

  /** The user exists in the states lo..hi. */
  ghost predicate Exists(ws: seq<World>, id: UserId, lo: nat, hi: nat)
    requires lo <= hi < |ws|
  {
    forall m :: lo <= m <= hi ==> HasUser(ws, id, m)
  }

  /** The etag has been in the user's row and is not there any more. */
  ghost predicate Superseded(w: World, id: UserId, e: Etag) {
    (id, e) in w.hist.shown && (id in w.rows ==> w.rows[id].etag != e)
  }

  /** Minted by this call, and nobody has seen it. */
  ghost predicate OwnEtag(w: World, c: CallId, e: Etag) {
    e in w.hist.minter && w.hist.minter[e] == c && forall id :: (id, e) !in w.hist.shown
  }

  /** The copy is what the request makes of the loaded user. */
  predicate Mutated(request: Request, loaded: User, copy: User, expected: Option<Etag>) {
    match request
    case UpdateUser(_, e, patch, now) => expected == e && ApplyPatch(loaded, patch, now, copy.etag) == Changed(copy)
    case Lifecycle(_, op, now) => expected.None? && Transition(loaded, op, now, copy.etag) == Changed(copy)
    case _ => false
  }

  ghost predicate CallSerial(w: World, c: CallId, call: Call) {
    && (call.request.UpdateUser? && call.request.expected.Some? ==>
          (call.request.id, call.request.expected.value) in w.hist.shown)
    && match call.stage
       case Insert(u) => OwnEtag(w, c, u.etag)
       case Save(loaded, copy, expected) =>
         && Mutated(call.request, loaded, copy, expected) && call.request.id == loaded.id
         && (loaded.id, loaded.etag) in w.hist.shown
         && (copy.etag == loaded.etag || OwnEtag(w, c, copy.etag))
       case SavePassword(loaded, copy) =>
         && call.request.ReplacePassword? && call.request.id == loaded.id
         && (loaded.id, loaded.etag) in w.hist.shown
         && SetPassword(loaded, call.request.newHash, call.request.now, copy.etag) == Changed(copy)
         && OwnEtag(w, c, copy.etag)
       case _ => true
  }

  ghost predicate Serial(w: World) {
    && Inv(w)
    && (forall id, e :: (id, e) in w.hist.shown ==> e in w.hist.names)
    && (forall id :: id in w.rows ==> (id, w.rows[id].etag) in w.hist.shown)
    && (forall c :: c in w.calls ==> CallSerial(w, c, w.calls[c]))
  }

  // ----- one commit --------------------------------------------------------------------------

  /** The write call `c` would commit: the version it produces from the one it finds. */
  datatype Commit =
    | Patched(patch: Patch, now: Time, etag: Etag)
    | PasswordSet(hash: string, now: Time, etag: Etag)
    | Transitioned(op: LifecycleOp, now: Time, etag: Etag)

  function Apply(v: User, commit: Commit): User {
    var m := match commit
             case Patched(patch, now, etag) => ApplyPatch(v, patch, now, etag)
             case PasswordSet(hash, now, etag) => SetPassword(v, hash, now, etag)
             case Transitioned(op, now, etag) => Transition(v, op, now, etag);
    if m.Changed? then m.user else v
  }

  /** What `a` commits to user `id`, if it does. */
  ghost function Committed(w: World, a: Action, id: UserId): Option<Commit> {
    if CommitsRow(w, a, id) then
      match w.calls[a.c].request
      case UpdateUser(_, _, patch, now) => Some(Patched(patch, now, w.calls[a.c].stage.copy.etag))
      case Lifecycle(_, op, now) => Some(Transitioned(op, now, w.calls[a.c].stage.copy.etag))
      case _ => None
    else if CommitsPassword(w, a, id) then
      Some(PasswordSet(w.calls[a.c].request.newHash, w.calls[a.c].request.now, w.calls[a.c].stage.copy.etag))
    else None
  }

  ghost predicate CommitsPassword(w: World, a: Action, id: UserId) {
    && a.Advance? && Enabled(w, a) && w.calls[a.c].stage.SavePassword? && w.calls[a.c].request.ReplacePassword?
    && w.calls[a.c].stage.copy.id == id
    && UpdatePasswordRow(w.rows, w.calls[a.c].stage.copy, w.calls[a.c].stage.loaded.etag).1.Written?
  }

  /** The commit, if any, finds in the row the etag it loaded. */
  ghost predicate FindsLoaded(w: World, a: Action, id: UserId) {
    CommitsRow(w, a, id) ==> w.rows[id].etag == w.calls[a.c].stage.loaded.etag
  }

  /** The row is the version a pending write loaded exactly when it has the etag that was loaded. */
  lemma CurrentIff(w: World, c: CallId)
    requires Inv(w) && c in w.calls && w.calls[c].stage.Save? && w.calls[c].stage.copy.id in w.rows
    ensures var row, loaded := w.rows[w.calls[c].stage.copy.id], w.calls[c].stage.loaded;
      row.Version() == loaded.Version() <==> row.etag == loaded.etag
  {
    assert StageOk(w.hist, w.calls[c].stage);
  }

  lemma MutatedIsApplied(request: Request, loaded: User, copy: User, expected: Option<Etag>, x: Commit)
    requires Mutated(request, loaded, copy, expected)
    requires match request
             case UpdateUser(_, _, patch, now) => x == Patched(patch, now, copy.etag)
             case Lifecycle(_, op, now) => x == Transitioned(op, now, copy.etag)
             case _ => false
    ensures Apply(loaded.Version(), x) == copy.Version()
  {
  }

  /** A committed full-row write leaves exactly its copy, whatever the row held: its own change
      applied to the version it loaded. */
  lemma CommitWritesCopy(w: World, a: Action, id: UserId)
    requires Serial(w) && Enabled(w, a) && CommitsRow(w, a, id)
    ensures id in w.rows && id in Step(w, a).rows && Committed(w, a, id).Some?
    ensures Step(w, a).rows[id] == w.calls[a.c].stage.copy
    ensures Step(w, a).rows[id].Version() == Apply(w.calls[a.c].stage.loaded.Version(), Committed(w, a, id).value)
  {
    var call := w.calls[a.c];
    assert CallSerial(w, a.c, call) && StageOk(w.hist, call.stage);
    assert Named(w.hist, w.rows[id]);
    MutatedIsApplied(call.request, call.stage.loaded, call.stage.copy, call.stage.expected, Committed(w, a, id).value);
  }

  lemma PasswordPatchesPredecessor(w: World, a: Action, id: UserId)
    requires Serial(w) && Enabled(w, a) && CommitsPassword(w, a, id)
    ensures id in w.rows && id in Step(w, a).rows && Committed(w, a, id).Some?
    ensures Step(w, a).rows[id].Version() == Apply(w.rows[id].Version(), Committed(w, a, id).value)
  {
    var call := w.calls[a.c];
    assert CallSerial(w, a.c, call) && StageOk(w.hist, call.stage);
    assert Named(w.hist, w.rows[id]);
  }

  /** A committed write that finds the etag it loaded turns the version it finds into that version
      with its own change; a password write always does. */
  lemma CommitPatchesPredecessor(w: World, a: Action, id: UserId)
    requires Serial(w) && Enabled(w, a) && Committed(w, a, id).Some? && FindsLoaded(w, a, id)
    ensures id in w.rows && id in Step(w, a).rows
    ensures Step(w, a).rows[id].Version() == Apply(w.rows[id].Version(), Committed(w, a, id).value)
  {
    if CommitsRow(w, a, id) {
      CommitWritesCopy(w, a, id);
      CurrentIff(w, a.c);
    } else {
      PasswordPatchesPredecessor(w, a, id);
    }
  }

  /** u and v agree on everything the request does not set. */
  predicate AgreeOutside(request: Request, u: User, v: User) {
    match request
    case UpdateUser(_, _, patch, _) =>
      && u.status == v.status && u.passwordHash == v.passwordHash
      && patch.On(u.profile) == patch.On(v.profile)
    case Lifecycle(_, _, _) => u.profile == v.profile && u.passwordHash == v.passwordHash
    case _ => false
  }

  /** A committed full-row write loses nothing of the row it overwrites but what it sets itself exactly
      when the row agrees, outside of that, with what the call had loaded. Otherwise a profile,
      password or status change committed in between is overwritten with the older value. */
  lemma NothingLostIff(w: World, a: Action, id: UserId)
    requires Serial(w) && Enabled(w, a) && CommitsRow(w, a, id)
    ensures id in w.rows && id in Step(w, a).rows
    ensures var request, loaded := w.calls[a.c].request, w.calls[a.c].stage.loaded;
      && AgreeOutside(request, loaded, Step(w, a).rows[id])
      && (AgreeOutside(request, w.rows[id], Step(w, a).rows[id]) <==> AgreeOutside(request, w.rows[id], loaded))
      && (w.rows[id].etag == loaded.etag ==> AgreeOutside(request, w.rows[id], loaded))
  {
    CommitWritesCopy(w, a, id);
    CurrentIff(w, a.c);
    var call := w.calls[a.c];
    assert CallSerial(w, a.c, call);
    CopyAgreesOutside(call.request, call.stage.loaded, call.stage.copy, call.stage.expected);
  }

  lemma CopyAgreesOutside(request: Request, loaded: User, copy: User, expected: Option<Etag>)
    requires Mutated(request, loaded, copy, expected)
    ensures AgreeOutside(request, loaded, copy)
  {
  }

  /** Everything else leaves a row that stays at the version it had. */
  lemma OthersKeepVersion(w: World, a: Action, id: UserId)
    requires Serial(w) && Enabled(w, a) && Committed(w, a, id).None?
    requires id in w.rows && id in Step(w, a).rows
    ensures Step(w, a).rows[id].Version() == w.rows[id].Version()
  {
    if a.Advance? {
      assert CallSerial(w, a.c, w.calls[a.c]) && StageOk(w.hist, w.calls[a.c].stage);
    }
  }

  // ----- the invariant of every run ----------------------------------------------------------

  /** What a step newly shows was generated by the call that moved, or was shown before. */
  lemma ShownIsOwn(w: World, a: Action, e: Etag, id: UserId)
    requires Serial(w) && Enabled(w, a) && (id, e) in Step(w, a).hist.shown && (id, e) !in w.hist.shown
    ensures a.Advance? && e in w.hist.minter && e in w.hist.names && w.hist.minter[e] == a.c
  {
    if a.Advance? {
      assert CallSerial(w, a.c, w.calls[a.c]) && StageOk(w.hist, w.calls[a.c].stage);
    }
  }

  lemma OwnEtagStays(w: World, a: Action, d: CallId, e: Etag)
    requires Serial(w) && Enabled(w, a) && OwnEtag(w, d, e) && (a.Advance? ==> a.c != d)
    ensures OwnEtag(Step(w, a), d, e)
  {
    InvStep(w, a);
    forall id | (id, e) in Step(w, a).hist.shown ensures false {
      ShownIsOwn(w, a, e, id);
    }
  }

  lemma OtherCallStays(w: World, a: Action, d: CallId)
    requires Serial(w) && Enabled(w, a) && d in w.calls && d in Step(w, a).calls
    requires Step(w, a).calls[d] == w.calls[d] && (a.Advance? ==> a.c != d)
    ensures CallSerial(Step(w, a), d, w.calls[d])
  {
    assert CallSerial(w, d, w.calls[d]);
    assert w.hist.shown <= Step(w, a).hist.shown by { InvStep(w, a); }
    match w.calls[d].stage
    case Save(loaded, copy, expected) =>
      if copy.etag != loaded.etag { OwnEtagStays(w, a, d, copy.etag); }
    case SavePassword(loaded, copy) => OwnEtagStays(w, a, d, copy.etag);
    case Insert(u) => OwnEtagStays(w, a, d, u.etag);
    case _ =>
  }

  lemma MovedCallStays(w: World, c: CallId, ch: Choice)
    requires Serial(w) && Enabled(w, Advance(c, ch))
    ensures CallSerial(Step(w, Advance(c, ch)), c, Step(w, Advance(c, ch)).calls[c])
  {
    var call := w.calls[c];
    assert CallSerial(w, c, call);
    assert forall id :: (id, ch.etag) !in w.hist.shown;
    if call.stage.Start? && !call.request.CreateUser? && call.request.id in w.rows {
      var u := w.rows[call.request.id];
      assert (u.id, u.etag) in w.hist.shown && Named(w.hist, u);
    }
  }

  predicate Writes(stage: Stage) { stage.Insert? || stage.Save? || stage.SavePassword? }

  /** A write that is answered with success shows the etag of the row it leaves; any other step leaves
      each row its etag. */
  lemma RowAfterWrite(w: World, c: CallId, ch: Choice, id: UserId)
    requires Serial(w) && Enabled(w, Advance(c, ch)) && Writes(w.calls[c].stage) && id in Step(w, Advance(c, ch)).rows
    ensures var w' := Step(w, Advance(c, ch));
      || (id in w.rows && w'.rows[id].etag == w.rows[id].etag)
      || (id, w'.rows[id].etag) in w'.hist.shown
  {
    var stage := w.calls[c].stage;
    assert StageOk(w.hist, stage);
    match stage
    case Insert(u) =>
    case Save(_, copy, _) =>
    case SavePassword(_, copy) => if copy.id in w.rows { assert Named(w.hist, w.rows[copy.id]); }
  }

  lemma RowIsShown(w: World, a: Action, id: UserId)
    requires Serial(w) && Enabled(w, a) && id in Step(w, a).rows
    ensures (id, Step(w, a).rows[id].etag) in Step(w, a).hist.shown
  {
    assert w.hist.shown <= Step(w, a).hist.shown by { InvStep(w, a); }
    if a.Advance? && Writes(w.calls[a.c].stage) {
      RowAfterWrite(w, a.c, a.ch, id);
    } else {
      assert id in w.rows && Step(w, a).rows[id].etag == w.rows[id].etag;
    }
  }

  lemma RowsAreShown(w: World, a: Action)
    requires Serial(w) && Enabled(w, a)
    ensures forall id :: id in Step(w, a).rows ==> (id, Step(w, a).rows[id].etag) in Step(w, a).hist.shown
  {
    forall id | id in Step(w, a).rows ensures (id, Step(w, a).rows[id].etag) in Step(w, a).hist.shown {
      RowIsShown(w, a, id);
    }
  }

  lemma ShownIsNamed(w: World, a: Action)
    requires Serial(w) && Enabled(w, a)
    ensures forall id, e :: (id, e) in Step(w, a).hist.shown ==> e in Step(w, a).hist.names
  {
    forall id, e | (id, e) in Step(w, a).hist.shown ensures e in Step(w, a).hist.names {
      assert Extends(w.hist, Step(w, a).hist) by { InvStep(w, a); }
      if (id, e) !in w.hist.shown { ShownIsOwn(w, a, e, id); }
    }
  }

  lemma SerialStep(w: World, a: Action)
    requires Serial(w) && Enabled(w, a) && Observed(w, a)
    ensures Serial(Step(w, a))
  {
    InvStep(w, a);
    RowsAreShown(w, a);
    ShownIsNamed(w, a);
    var w' := Step(w, a);
    forall d | d in w'.calls ensures CallSerial(w', d, w'.calls[d]) {
      if a.Advance? && a.c == d {
        MovedCallStays(w, d, a.ch);
      } else if d in w.calls && w'.calls[d] == w.calls[d] {
        OtherCallStays(w, a, d);
      } else if d in w.calls {
        assert CallSerial(w, d, w.calls[d]);
      }
    }
  }

  lemma {:induction false} SerialRun(ws: seq<World>, acts: seq<Action>, i: nat)
    requires IsObservedRun(ws, acts) && i < |ws|
    ensures Serial(ws[i])
  {
    if i > 0 {
      SerialRun(ws, acts, i - 1);
      assert StepAt(ws, acts, i - 1) && ObservedAt(ws, acts, i - 1);
      SerialStep(ws[i-1], acts[i-1]);
    }
  }

  // ----- conditional writers -----------------------------------------------------------------

  /** A pending update of the user that loaded another version than its caller saw can match no more. */
  ghost predicate Pinned(w: World, id: UserId) {
    forall c :: c in w.calls ==> PinnedCall(w, id, w.calls[c].stage)
  }

  ghost predicate PinnedCall(w: World, id: UserId, stage: Stage) {
    stage.Save? && stage.expected.Some? && stage.loaded.id == id && stage.loaded.etag != stage.expected.value
    ==> Superseded(w, id, stage.expected.value)
  }

  lemma SupersededStaysInWrite(w: World, c: CallId, ch: Choice, id: UserId, e: Etag)
    requires Serial(w) && Pinned(w, id) && Enabled(w, Advance(c, ch)) && Clean(w, Advance(c, ch), id)
    requires Superseded(w, id, e)
    requires Writes(w.calls[c].stage) && id in Step(w, Advance(c, ch)).rows
    ensures Step(w, Advance(c, ch)).rows[id].etag != e
  {
    var stage := w.calls[c].stage;
    assert CallSerial(w, c, w.calls[c]) && StageOk(w.hist, stage) && PinnedCall(w, id, stage);
    match stage
    case Insert(u) =>
    case Save(loaded, copy, _) =>
    case SavePassword(_, copy) =>
  }

  /** While unconditional writes to the user find what they loaded, a replaced etag stays replaced. */
  lemma SupersededStays(w: World, a: Action, id: UserId, e: Etag)
    requires Serial(w) && Pinned(w, id) && Enabled(w, a) && Clean(w, a, id) && Superseded(w, id, e)
    ensures Superseded(Step(w, a), id, e)
  {
    assert w.hist.shown <= Step(w, a).hist.shown by { InvStep(w, a); }
    if id in Step(w, a).rows {
      if a.Advance? && Writes(w.calls[a.c].stage) {
        SupersededStaysInWrite(w, a.c, a.ch, id, e);
      } else {
        assert id in w.rows && Step(w, a).rows[id].etag == w.rows[id].etag;
      }
    }
  }

  lemma PinnedStep(w: World, a: Action, id: UserId)
    requires Serial(w) && Pinned(w, id) && Enabled(w, a) && Clean(w, a, id)
    ensures Pinned(Step(w, a), id)
  {
    var w' := Step(w, a);
    forall c | c in w'.calls ensures PinnedCall(w', id, w'.calls[c].stage) {
      if c in w.calls && w'.calls[c] == w.calls[c] {
        var stage := w.calls[c].stage;
        assert PinnedCall(w, id, stage);
        if stage.Save? && stage.expected.Some? && Superseded(w, id, stage.expected.value) {
          SupersededStays(w, a, id, stage.expected.value);
        }
      } else if c in w.calls {
        assert CallSerial(w, c, w.calls[c]);
      }
    }
  }

  lemma {:induction false} PinnedRun(ws: seq<World>, acts: seq<Action>, id: UserId, i: nat)
    requires IsObservedRun(ws, acts) && i < |ws| && CleanUntil(ws, acts, id, i)
    ensures Pinned(ws[i], id)
  {
    if i > 0 {
      PinnedRun(ws, acts, id, i - 1);
      SerialRun(ws, acts, i - 1);
      assert StepAt(ws, acts, i - 1) && CleanAt(ws, acts, id, i - 1);
      PinnedStep(ws[i-1], acts[i-1], id);
    }
  }

  /** A conditional write that matches finds the etag it loaded; with a clean step, every write does. */
  lemma MatchedFindsLoaded(w: World, a: Action, id: UserId)
    requires Serial(w) && Pinned(w, id) && Enabled(w, a) && Clean(w, a, id)
    ensures FindsLoaded(w, a, id)
  {
    if CommitsRow(w, a, id) {
      assert StageOk(w.hist, w.calls[a.c].stage) && PinnedCall(w, id, w.calls[a.c].stage);
    }
  }

  // ----- whole runs --------------------------------------------------------------------------

  /** The writes committed to user `id` by steps lo..hi, in order. */
  ghost function Commits(ws: seq<World>, acts: seq<Action>, id: UserId, lo: nat, hi: nat): seq<Commit>
    requires lo <= hi <= |acts| == |ws| - 1
  {
    if lo == hi then []
    else
      Commits(ws, acts, id, lo, hi - 1) + AsSeq(Committed(ws[hi-1], acts[hi-1], id))
  }

  function Replay(v: User, commits: seq<Commit>): User {
    if commits == [] then v else Apply(Replay(v, commits[..|commits|-1]), commits[|commits|-1])
  }

  function AsSeq(x: Option<Commit>): seq<Commit> { if x.Some? then [x.value] else [] }

  lemma ReplayOneMore(v: User, commits: seq<Commit>, x: Option<Commit>)
    ensures Replay(v, commits + AsSeq(x)) == if x.Some? then Apply(Replay(v, commits), x.value) else Replay(v, commits)
  {
    if x.Some? {
      assert (commits + [x.value])[..|commits|] == commits;
    } else {
      assert commits + [] == commits;
    }
  }

  /** One step of a run whose unconditional writes to the user found what they loaded so far. */
  lemma StepReplays(ws: seq<World>, acts: seq<Action>, id: UserId, m: nat)
    requires IsObservedRun(ws, acts) && m < |acts| && id in ws[m].rows && id in ws[m+1].rows
    requires CleanUntil(ws, acts, id, m + 1)
    ensures var x := Committed(ws[m], acts[m], id);
      ws[m+1].rows[id].Version() ==
        if x.Some? then Apply(ws[m].rows[id].Version(), x.value) else ws[m].rows[id].Version()
  {
    SerialRun(ws, acts, m);
    PinnedRun(ws, acts, id, m);
    assert StepAt(ws, acts, m) && CleanAt(ws, acts, id, m);
    if Committed(ws[m], acts[m], id).Some? {
      MatchedFindsLoaded(ws[m], acts[m], id);
      CommitPatchesPredecessor(ws[m], acts[m], id);
    } else {
      OthersKeepVersion(ws[m], acts[m], id);
    }
  }

  /** With any mix of conditional, wildcard and lifecycle writers: while every unconditional write to
      a user finds the etag it loaded, the user's version is what its committed writes make of the
      earlier version when applied one after the other. No interleaving, and no lost update. */
  lemma {:induction false} VersionsAreReplayed(ws: seq<World>, acts: seq<Action>, id: UserId, lo: nat, hi: nat)
    requires IsObservedRun(ws, acts) && lo <= hi <= |acts|
    requires Exists(ws, id, lo, hi) && CleanUntil(ws, acts, id, hi)
    ensures id in ws[lo].rows && id in ws[hi].rows
    ensures ws[hi].rows[id].Version() == Replay(ws[lo].rows[id].Version(), Commits(ws, acts, id, lo, hi))
  {
    assert HasUser(ws, id, lo) && HasUser(ws, id, hi);
    if lo < hi {
      assert HasUser(ws, id, hi - 1);
      VersionsAreReplayed(ws, acts, id, lo, hi - 1);
      StepReplays(ws, acts, id, hi - 1);
      ReplayOneMore(ws[lo].rows[id].Version(), Commits(ws, acts, id, lo, hi - 1), Committed(ws[hi-1], acts[hi-1], id));
    }
  }

  // ----- runs of etag-carrying writers -------------------------------------------------------

  /** The request writes the whole row of the user without an etag. */
  predicate WritesBlindly(request: Request, id: UserId) {
    || (request.Lifecycle? && request.id == id)
    || (request.UpdateUser? && request.id == id && request.expected.None?)
  }

  ghost predicate NoneBlind(w: World, id: UserId) {
    forall c :: c in w.calls ==> !WritesBlindly(w.calls[c].request, id)
  }

  lemma {:induction false} NoneBlindRun(ws: seq<World>, acts: seq<Action>, id: UserId, i: nat)
    requires IsObservedRun(ws, acts) && i < |ws|
    requires forall m :: 0 <= m < |acts| && acts[m].Begin? ==> !WritesBlindly(acts[m].request, id)
    ensures NoneBlind(ws[i], id)
  {
    if i > 0 {
      NoneBlindRun(ws, acts, id, i - 1);
      assert StepAt(ws, acts, i - 1);
    }
  }

  /** When every writer of the user carries an etag (updates with an observed etag, password changes,
      hard deletes), every interleaving is serial. */
  lemma EtagWritersAreSerial(ws: seq<World>, acts: seq<Action>, id: UserId, lo: nat, hi: nat)
    requires IsObservedRun(ws, acts) && lo <= hi <= |acts|
    requires Exists(ws, id, lo, hi)
    requires forall m :: 0 <= m < |acts| && acts[m].Begin? ==> !WritesBlindly(acts[m].request, id)
    ensures id in ws[lo].rows && id in ws[hi].rows
    ensures ws[hi].rows[id].Version() == Replay(ws[lo].rows[id].Version(), Commits(ws, acts, id, lo, hi))
  {
    forall m | 0 <= m < hi ensures CleanAt(ws, acts, id, m) {
      NoneBlindRun(ws, acts, id, m);
      SerialRun(ws, acts, m);
      if CommitsRow(ws[m], acts[m], id) {
        assert CallSerial(ws[m], acts[m].c, ws[m].calls[acts[m].c]);
        assert StageOk(ws[m].hist, ws[m].calls[acts[m].c].stage);
      }
    }
    VersionsAreReplayed(ws, acts, id, lo, hi);
  }
}

/**
 The calls that write users, each split into its load and its save, and their interleavings.

 Etag-conditional writers (UpdateUser with an etag, ChangePassword, ResetPassword, hard delete)
 run beside unconditional ones (UpdateUser with the wildcard, Disable, Enable, SoftDelete) that
 rewrite the whole row they loaded.
 */
module UserProtocol {
  import opened Prelude
  import opened UserDomain
  import opened UserStore

  datatype Request =
    | CreateUser(profile: Profile, passwordHash: string, now: Time)
    | UpdateUser(id: UserId, expected: Option<Etag>, patch: Patch, now: Time)
    | Lifecycle(id: UserId, op: LifecycleOp, now: Time)
    | ReplacePassword(id: UserId, newHash: string, now: Time)  // ChangePassword and ResetPassword
    | HardDelete(id: UserId, etag: Etag)

  datatype Stage =
    | Start
    | Insert(user: User)
    | Save(loaded: User, copy: User, expected: Option<Etag>)
    | SavePassword(loaded: User, copy: User)
    | Delete(id: UserId, etag: Etag)
    | Finished(result: UserError)

  datatype Call = Call(request: Request, stage: Stage)

  /** The generated etag, and the generated id of a new user. */
  datatype Choice = Choice(etag: Etag, id: UserId)

  function AfterLoad(u: User, request: Request, ch: Choice): Stage {
    match request
    case UpdateUser(_, expected, patch, now) =>
      (match ApplyPatch(u, patch, now, ch.etag)
       case Changed(copy) => Save(u, copy, expected)
       case Refused(e) => Finished(e))
    case Lifecycle(_, op, now) =>
      (match Transition(u, op, now, ch.etag)
       case Changed(copy) => Save(u, copy, None)
       case Refused(e) => Finished(e))
    case ReplacePassword(_, newHash, now) =>
      if u.status.Deleted? then Finished(ErrUserDeleted)
      else if u.status.Blocked? then Finished(ErrUserBlocked)
      else
        (match SetPassword(u, newHash, now, ch.etag)
         case Changed(copy) => SavePassword(u, copy)
         case Refused(e) => Finished(e))
    case HardDelete(id, etag) =>
      if !u.status.Deleted? then Finished(ErrUserNotDeleted)
      else if u.etag != etag then Finished(ErrEtagMismatch)
      else Delete(id, etag)
    case CreateUser(_, _, _) => Finished(Interrupted)
  }

  /** What the repository answers to a write on table `t`. */
  function Reply(t: Table, r: WriteResult, id: UserId, expected: Option<Etag>): UserError {
    match r
    case Written => NoError
    case NoRow => Discriminate(t, id, expected)
    case Duplicate => ErrUserAlreadyExists
  }

  /** One repository call and the in-memory work after it. */
  function Exec(t: Table, call: Call, ch: Choice): (Table, Call) {
    match call.stage
    case Start =>
      (match call.request
       case CreateUser(profile, passwordHash, now) =>
         (t, call.(stage := Insert(User(ch.id, profile, Active, ch.etag, now, now, passwordHash, None))))
       case _ =>
         if call.request.id !in t then (t, call.(stage := Finished(ErrUserNotFound)))
         else (t, call.(stage := AfterLoad(t[call.request.id], call.request, ch))))
    case Insert(user) =>
      var (t', r) := InsertRow(t, user); (t', call.(stage := Finished(Reply(t, r, user.id, None))))
    case Save(_, copy, expected) =>
      var (t', r) := UpdateRow(t, copy, expected); (t', call.(stage := Finished(Reply(t, r, copy.id, expected))))
    case SavePassword(loaded, copy) =>
      var (t', r) := UpdatePasswordRow(t, copy, loaded.etag);
      (t', call.(stage := Finished(Reply(t, r, copy.id, Some(loaded.etag)))))
    case Delete(id, etag) =>
      var (t', r) := DeleteRow(t, id, Some(etag)); (t', call.(stage := Finished(Reply(t, r, id, Some(etag)))))
    case Finished(_) => (t, call)
  }

  type CallId = nat

  /** History variables. */
  datatype History = History(
    names: map<Etag, User>,       // the version each generated etag stands for
    minter: map<Etag, CallId>,    // the call that generated it
    born: map<UserId, Time>,      // generated ids, with the creation time of their user
    shown: set<(UserId, Etag)>)   // etags that have been in a user's row

  datatype World = World(rows: Table, calls: map<CallId, Call>, hist: History)

  datatype Action =
    | Begin(c: CallId, request: Request)
    | Advance(c: CallId, ch: Choice)
    | Abort(c: CallId)
    | TouchLogin(id: UserId, now: Time)   // the write at the end of Login

  const EMPTY: World := World(map[], map[], History(map[], map[], map[], {}))

  ghost predicate Enabled(w: World, a: Action) {
    match a
    case Begin(c, _) => c !in w.calls
    case Advance(c, ch) =>
      c in w.calls && !w.calls[c].stage.Finished? && ch.etag !in w.hist.names && ch.id !in w.hist.born
    case Abort(c) => c in w.calls
    case TouchLogin(_, _) => true
  }

  /** Names a generated etag; an etag the copy was loaded with already has its name. */
  ghost function Name(h: History, c: CallId, u: User): History {
    if u.etag in h.names then h
    else h.(names := h.names[u.etag := u.Version()], minter := h.minter[u.etag := c])
  }

  ghost function Record(h: History, c: CallId, rows': Table, before: Stage, after: Stage): History {
    match after
    case Insert(u) => Name(h, c, u).(born := h.born[u.id := u.createdAt])
    case Save(_, copy, _) => Name(h, c, copy)
    case SavePassword(_, copy) => Name(h, c, copy)
    case Finished(result) =>
      if !result.NoError? then h
      else (match before
            case Insert(u) => h.(shown := h.shown + {(u.id, u.etag)})
            case Save(_, copy, _) => h.(shown := h.shown + {(copy.id, copy.etag)})
            case SavePassword(_, copy) => h.(shown := h.shown + {(copy.id, copy.etag)})
            case _ => h)
    case _ => h
  }

  ghost function Step(w: World, a: Action): World
    requires Enabled(w, a)
  {
    match a
    case Begin(c, request) => w.(calls := w.calls[c := Call(request, Start)])
    case Advance(c, ch) =>
      var (t', call') := Exec(w.rows, w.calls[c], ch);
      World(t', w.calls[c := call'], Record(w.hist, c, t', w.calls[c].stage, call'.stage))
    case Abort(c) => w.(calls := w.calls[c := w.calls[c].(stage := Finished(Interrupted))])
    case TouchLogin(id, now) => w.(rows := TouchRow(w.rows, id, now))
  }

  ghost predicate StepAt(ws: seq<World>, acts: seq<Action>, i: nat)
    requires i < |acts| == |ws| - 1
  {
    Enabled(ws[i], acts[i]) && ws[i+1] == Step(ws[i], acts[i])
  }

  ghost predicate IsRun(ws: seq<World>, acts: seq<Action>) {
    && |ws| == |acts| + 1
    && ws[0] == EMPTY
    && forall i :: 0 <= i < |acts| ==> StepAt(ws, acts, i)
  }

  // ----- an etag names one version -----------------------------------------------------------

  /** The user is what its etag was given for. */
  ghost predicate Named(h: History, u: User) {
    u.etag in h.names && h.names[u.etag] == u.Version() && u.id in h.born && h.born[u.id] == u.createdAt
  }

  ghost predicate StageOk(h: History, stage: Stage) {
    match stage
    case Insert(u) => Named(h, u)
    case Save(loaded, copy, _) => Named(h, loaded) && Named(h, copy) && copy.id == loaded.id
    case SavePassword(loaded, copy) =>
      && Named(h, loaded) && Named(h, copy)
      && copy == loaded.(passwordHash := copy.passwordHash, etag := copy.etag, updatedAt := copy.updatedAt)
    case _ => true
  }

  ghost predicate Inv(w: World) {
    && w.hist.minter.Keys == w.hist.names.Keys
    && (forall id :: id in w.rows ==> w.rows[id].id == id && Named(w.hist, w.rows[id]))
    && (forall c :: c in w.calls ==> StageOk(w.hist, w.calls[c].stage))
  }

  ghost predicate Extends(h: History, h': History) {
    && (forall e :: e in h.names ==> e in h'.names && h'.names[e] == h.names[e])
    && (forall e :: e in h.minter ==> e in h'.minter && h'.minter[e] == h.minter[e])
    && (forall id :: id in h.born ==> id in h'.born && h'.born[id] == h.born[id])
    && h.shown <= h'.shown
  }

  lemma StageStays(h: History, h': History, stage: Stage)
    requires StageOk(h, stage) && Extends(h, h')
    ensures StageOk(h', stage)
  {
  }

  /** What the moved call and the table must satisfy after a step. */
  ghost predicate Kept(w: World, c: CallId, w': World) {
    && Extends(w.hist, w'.hist) && w'.hist.minter.Keys == w'.hist.names.Keys
    && (forall id :: id in w'.rows ==> w'.rows[id].id == id && Named(w'.hist, w'.rows[id]))
    && c in w'.calls && StageOk(w'.hist, w'.calls[c].stage)
  }

  lemma CreateKeeps(w: World, c: CallId, ch: Choice)
    requires Inv(w) && Enabled(w, Advance(c, ch)) && w.calls[c].stage.Start? && w.calls[c].request.CreateUser?
    ensures Kept(w, c, Step(w, Advance(c, ch)))
  {
  }

  /** Naming the etag of a copy whose user is known. */
  lemma NameKeeps(h: History, c: CallId, u: User)
    requires h.minter.Keys == h.names.Keys && u.id in h.born && h.born[u.id] == u.createdAt
    requires u.etag in h.names ==> h.names[u.etag] == u.Version()
    ensures Extends(h, Name(h, c, u)) && Named(Name(h, c, u), u)
    ensures Name(h, c, u).minter.Keys == Name(h, c, u).names.Keys
  {
  }

  /** What a load leaves in memory: the row, and a copy that is the row or carries the new etag. */
  lemma LoadedCopy(u: User, request: Request, ch: Choice)
    ensures var stage := AfterLoad(u, request, ch);
      && (stage.Save? ==> stage.loaded == u && stage.copy.id == u.id && stage.copy.createdAt == u.createdAt
                          && (stage.copy == u || stage.copy.etag == ch.etag))
      && (stage.SavePassword? ==> stage.loaded == u && stage.copy.etag == ch.etag
                                  && stage.copy == u.(passwordHash := stage.copy.passwordHash, etag := ch.etag,
                                                      updatedAt := stage.copy.updatedAt))
      && !stage.Insert? && !stage.Start?
  {
  }

  lemma LoadKeeps(w: World, c: CallId, ch: Choice)
    requires Inv(w) && Enabled(w, Advance(c, ch)) && w.calls[c].stage.Start? && !w.calls[c].request.CreateUser?
    ensures Kept(w, c, Step(w, Advance(c, ch)))
  {
    var request := w.calls[c].request;
    if request.id in w.rows {
      var u := w.rows[request.id];
      assert Named(w.hist, u);
      LoadedCopy(u, request, ch);
      var stage := AfterLoad(u, request, ch);
      if stage.Save? || stage.SavePassword? { NameKeeps(w.hist, c, stage.copy); }
    }
  }

  lemma InsertKeeps(w: World, c: CallId, ch: Choice)
    requires Inv(w) && Enabled(w, Advance(c, ch)) && w.calls[c].stage.Insert?
    ensures Kept(w, c, Step(w, Advance(c, ch)))
  {
    assert StageOk(w.hist, w.calls[c].stage);
  }

  lemma SaveKeeps(w: World, c: CallId, ch: Choice)
    requires Inv(w) && Enabled(w, Advance(c, ch)) && w.calls[c].stage.Save?
    ensures Kept(w, c, Step(w, Advance(c, ch)))
  {
    assert StageOk(w.hist, w.calls[c].stage);
  }

  lemma SavePasswordKeeps(w: World, c: CallId, ch: Choice)
    requires Inv(w) && Enabled(w, Advance(c, ch)) && w.calls[c].stage.SavePassword?
    ensures Kept(w, c, Step(w, Advance(c, ch)))
  {
    assert StageOk(w.hist, w.calls[c].stage);
  }

  lemma DeleteKeeps(w: World, c: CallId, ch: Choice)
    requires Inv(w) && Enabled(w, Advance(c, ch)) && w.calls[c].stage.Delete?
    ensures Kept(w, c, Step(w, Advance(c, ch)))
  {
  }

  lemma InvStep(w: World, a: Action)
    requires Inv(w) && Enabled(w, a)
    ensures Inv(Step(w, a)) && Extends(w.hist, Step(w, a).hist)
  {
    if a.Advance? {
      match w.calls[a.c].stage {
        case Start =>
          if w.calls[a.c].request.CreateUser? { CreateKeeps(w, a.c, a.ch); } else { LoadKeeps(w, a.c, a.ch); }
        case Insert(_) => InsertKeeps(w, a.c, a.ch);
        case Save(_, _, _) => SaveKeeps(w, a.c, a.ch);
        case SavePassword(_, _) => SavePasswordKeeps(w, a.c, a.ch);
        case Delete(_, _) => DeleteKeeps(w, a.c, a.ch);
      }
      var w' := Step(w, a);
      forall d | d in w.calls && d != a.c ensures StageOk(w'.hist, w'.calls[d].stage) {
        StageStays(w.hist, w'.hist, w.calls[d].stage);
      }
    }
  }

  lemma {:induction false} InvRun(ws: seq<World>, acts: seq<Action>, i: nat)
    requires IsRun(ws, acts) && i < |ws|
    ensures Inv(ws[i])
  {
    if i > 0 {
      InvRun(ws, acts, i - 1);
      assert StepAt(ws, acts, i - 1);
      InvStep(ws[i-1], acts[i-1]);
    }
  }

  /** The unique keys hold in every reachable state. */
  lemma {:induction false} RowsAreConsistent(ws: seq<World>, acts: seq<Action>, i: nat)
    requires IsRun(ws, acts) && i < |ws|
    ensures Consistent(ws[i].rows)
  {
    if i > 0 {
      RowsAreConsistent(ws, acts, i - 1);
      assert StepAt(ws, acts, i - 1);
      ConsistentStep(ws[i-1], acts[i-1]);
    }
  }

  lemma UpdateKeepsConsistent(t: Table, u: User, expected: Option<Etag>)
    requires Consistent(t)
    ensures Consistent(UpdateRow(t, u, expected).0)
  {
  }

  lemma InsertKeepsConsistent(t: Table, u: User)
    requires Consistent(t)
    ensures Consistent(InsertRow(t, u).0)
  {
  }

  /** Other writes leave id, e-mail and username of every row as they are. */
  lemma SameNamesConsistent(t: Table, t': Table)
    requires Consistent(t)
    requires forall id :: id in t' ==> id in t && t'[id].id == t[id].id && t'[id].profile == t[id].profile
    ensures Consistent(t')
  {
  }

  lemma ExecKeepsConsistent(t: Table, call: Call, ch: Choice)
    requires Consistent(t)
    ensures Consistent(Exec(t, call, ch).0)
  {
    match call.stage
    case Insert(user) => InsertKeepsConsistent(t, user);
    case Save(_, copy, expected) => UpdateKeepsConsistent(t, copy, expected);
    case SavePassword(loaded, copy) => SameNamesConsistent(t, UpdatePasswordRow(t, copy, loaded.etag).0);
    case Delete(id, etag) => SameNamesConsistent(t, DeleteRow(t, id, Some(etag)).0);
    case _ =>
  }

  lemma ConsistentStep(w: World, a: Action)
    requires Consistent(w.rows) && Enabled(w, a)
    ensures Consistent(Step(w, a).rows)
  {
    match a
    case Advance(c, ch) => ExecKeepsConsistent(w.rows, w.calls[c], ch);
    case TouchLogin(id, now) => SameNamesConsistent(w.rows, TouchRow(w.rows, id, now));
    case _ =>
  }

  lemma {:induction false} HistoryGrows(ws: seq<World>, acts: seq<Action>, i: nat, k: nat)
    requires IsRun(ws, acts) && i <= k < |ws|
    ensures Extends(ws[i].hist, ws[k].hist)
  {
    if i < k {
      HistoryGrows(ws, acts, i, k - 1);
      InvRun(ws, acts, k - 1);
      assert StepAt(ws, acts, k - 1);
      InvStep(ws[k-1], acts[k-1]);
    }
  }

  /** What a caller can read of a user at some point: the row, or a copy some call has loaded. */
  ghost predicate Readable(w: World, u: User) {
    || (u.id in w.rows && w.rows[u.id] == u)
    || (exists c :: c in w.calls && w.calls[c].stage.Save? && w.calls[c].stage.loaded == u)
    || (exists c :: c in w.calls && w.calls[c].stage.SavePassword? && w.calls[c].stage.loaded == u)
  }

  /** Two reads, anywhere in a run, with equal etags show the same user, profile, status, password
      hash and timestamps; only the last login may differ. */
  lemma EtagNamesOneVersion(ws: seq<World>, acts: seq<Action>, i: nat, k: nat, u: User, v: User)
    requires IsRun(ws, acts) && i <= k < |ws|
    requires Readable(ws[i], u) && Readable(ws[k], v) && u.etag == v.etag
    ensures u.Version() == v.Version()
  {
    InvRun(ws, acts, i);
    InvRun(ws, acts, k);
    HistoryGrows(ws, acts, i, k);
    ReadableIsNamed(ws[i], u);
    ReadableIsNamed(ws[k], v);
  }

  lemma ReadableIsNamed(w: World, u: User)
    requires Inv(w) && Readable(w, u)
    ensures Named(w.hist, u)
  {
    if u.id in w.rows && w.rows[u.id] == u {
    } else if c :| c in w.calls && w.calls[c].stage.Save? && w.calls[c].stage.loaded == u {
      assert StageOk(w.hist, w.calls[c].stage);
    } else {
      var c :| c in w.calls && w.calls[c].stage.SavePassword? && w.calls[c].stage.loaded == u;
      assert StageOk(w.hist, w.calls[c].stage);
    }
  }
}

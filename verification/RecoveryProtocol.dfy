/**
 Generating and redeeming recovery codes, split into repository calls and interleaved.

 A reset is modelled up to the redemption of the code; what follows is in SessionProtocol (the new
 session) and UserProtocol (the password write).
 */
module RecoveryProtocol {
  import opened Prelude
  import opened RecoveryGenerator
  import opened RecoveryStore
  import opened UserDomain

  datatype Outcome =
    | Issued(codes: seq<string>)
    | Redeemed
    | InvalidCode
    | InvalidToken
    | UserMissing
    | UserBlocked
    | UserDeleted
    | Failed

  datatype Call =
    | Generate(user: UserId, now: Time)
    | GenerateRevoke(user: UserId, now: Time)
    | GenerateCreate(user: UserId, now: Time)
    | Reset(user: UserId, typed: string, now: Time)
    | ResetLoad(user: UserId, typed: string, now: Time)
    | ResetConsume(batch: BatchId, typed: string, now: Time)
    | Finished(outcome: Outcome)
  {
    predicate IsRequest() { Generate? || Reset? }
  }

  /** What a step takes from outside: a fresh batch id, what the generator returned (None when the
      random source failed), the batch a query with LIMIT 1 happened to find. */
  datatype Choice = Choice(batch: BatchId, codes: Option<seq<string>>, found: Option<BatchId>)

  type Users = map<UserId, Status>

  ghost predicate Allowed(t: Tables, call: Call, ch: Choice) {
    && (call.GenerateCreate? && ch.codes.Some? ==> IsBatch(ch.codes.value))
    && (call.ResetLoad? ==> IsActiveBatch(t, call.user, ch.found))
  }

  function Exec(t: Tables, users: Users, call: Call, ch: Choice): (Tables, Call) {
    match call
    case Generate(user, now) =>
      if user !in users then (t, Finished(InvalidToken))
      else if users[user].Deleted? then (t, Finished(UserDeleted))
      else if users[user].Blocked? then (t, Finished(UserBlocked))
      else (t, GenerateRevoke(user, now))
    case GenerateRevoke(user, now) => (RevokeActive(t, user, now), GenerateCreate(user, now))
    case GenerateCreate(user, now) =>
      if ch.codes.None? then (t, Finished(Failed))
      else
        (match CreateRows(t, ch.batch, BatchRow(user, now, None), Hashes(ch.codes.value), user in users)
         case Some(t') => (t', Finished(Issued(ch.codes.value)))
         case None => (t, Finished(Failed)))
    case Reset(user, typed, now) =>
      if user !in users then (t, Finished(UserMissing))
      else if users[user].Deleted? then (t, Finished(UserDeleted))
      else if users[user].Blocked? then (t, Finished(UserBlocked))
      else (t, ResetLoad(user, typed, now))
    case ResetLoad(user, typed, now) =>
      (t, if ch.found.None? then Finished(InvalidCode) else ResetConsume(ch.found.value, typed, now))
    case ResetConsume(batch, typed, now) =>
      var k := (batch, HashNormalised(typed));
      (ConsumeRow(t, k, now), Finished(if ConsumeMatches(t, k) then Redeemed else InvalidCode))
    case Finished(_) => (t, call)
  }

  function Remaining(call: Call): nat {
    match call
    case Generate(_, _) => 3
    case GenerateRevoke(_, _) => 2
    case Reset(_, _, _) => 3
    case ResetLoad(_, _, _) => 2
    case Finished(_) => 0
    case _ => 1
  }

  /** A call run to its end with no other call in between. */
  function RunAlone(t: Tables, users: Users, call: Call, ch: Choice): (Tables, Outcome)
    decreases Remaining(call)
  {
    if call.Finished? then (t, call.outcome)
    else RunAlone(Exec(t, users, call, ch).0, users, Exec(t, users, call, ch).1, ch)
  }

  lemma Unfold(t: Tables, users: Users, call: Call, ch: Choice)
    requires !call.Finished?
    ensures var (t', call') := Exec(t, users, call, ch);
      && RunAlone(t, users, call, ch) == RunAlone(t', users, call', ch)
      && (call'.Finished? ==> RunAlone(t, users, call, ch) == (t', call'.outcome))
  {
  }

  // ----- runs --------------------------------------------------------------------------------

  type CallId = nat

  /** `printed` remembers the codes of every batch ever created, `spent` every code ever redeemed. */
  datatype World = World(
    db: Tables,
    users: Users,
    calls: map<CallId, Call>,
    printed: map<BatchId, seq<string>>,
    spent: set<CodeKey>)

  datatype Action =
    | Begin(c: CallId, request: Call)
    | Advance(c: CallId, ch: Choice)
    | Abort(c: CallId)
    | PutUser(user: UserId, status: Status)
    | DropUser(user: UserId)

  const EMPTY: World := World(Tables(map[], map[]), map[], map[], map[], {})

  ghost predicate Enabled(w: World, a: Action) {
    match a
    case Begin(c, request) => c !in w.calls && request.IsRequest()
    case Advance(c, ch) =>
      && c in w.calls && !w.calls[c].Finished?
      && ch.batch !in w.printed
      && Allowed(w.db, w.calls[c], ch)
    case Abort(c) => c in w.calls
    case _ => true
  }

  /** The step redeems code k. */
  predicate Redeems(w: World, a: Action, k: CodeKey) {
    && a.Advance? && a.c in w.calls && w.calls[a.c].ResetConsume?
    && k == (w.calls[a.c].batch, HashNormalised(w.calls[a.c].typed))
    && ConsumeMatches(w.db, k)
  }

  ghost function Step(w: World, a: Action): World
    requires Enabled(w, a)
  {
    match a
    case Begin(c, request) => w.(calls := w.calls[c := request])
    case Advance(c, ch) =>
      var call := w.calls[c];
      var (t', call') := Exec(w.db, w.users, call, ch);
      var w' := w.(db := t', calls := w.calls[c := call']);
      if call.GenerateCreate? && call'.outcome.Issued? then w'.(printed := w.printed[ch.batch := ch.codes.value])
      else if call.ResetConsume? && call'.outcome.Redeemed? then
        w'.(spent := w.spent + {(call.batch, HashNormalised(call.typed))})
      else w'
    case Abort(c) => w.(calls := w.calls[c := Finished(Failed)])
    case PutUser(user, status) => w.(users := w.users[user := status])
    case DropUser(user) => w.(users := w.users - {user}, db := DropUserBatches(w.db, user))
  }

  ghost predicate StepAt(ws: seq<World>, acts: seq<Action>, i: nat)
    requires i < |acts| == |ws| - 1
  {
    Enabled(ws[i], acts[i]) && ws[i+1] == Step(ws[i], acts[i])
  }

  ghost predicate IsRun(ws: seq<World>, acts: seq<Action>) {
    |ws| == |acts| + 1 && ws[0] == EMPTY && forall i :: 0 <= i < |acts| ==> StepAt(ws, acts, i)
  }

  // ----- the invariant -----------------------------------------------------------------------

  ghost predicate PrintedOn(printed: map<BatchId, seq<string>>, k: CodeKey) {
    k.0 in printed && k.1 in Hashes(printed[k.0])
  }

  ghost predicate Inv(w: World) {
    && (forall b :: b in w.db.batches ==> b in w.printed)
    && (forall b :: b in w.printed ==> IsBatch(w.printed[b]))
    && (forall k :: k in w.db.codes ==> PrintedOn(w.printed, k))
    && (forall k :: k in w.spent ==> PrintedOn(w.printed, k))
    && (forall k :: k in w.db.codes ==> (w.db.codes[k].Some? <==> k in w.spent))
  }

  /** A stored code after a batch with new codes has been added. */
  lemma AddedCodeIsPrinted(w: World, batch: BatchId, codes: seq<string>, k: CodeKey)
    requires Inv(w) && batch !in w.printed && IsBatch(codes)
    requires k in w.db.codes || k in CodeKeys(batch, Hashes(codes))
    ensures PrintedOn(w.printed[batch := codes], k)
    ensures k in CodeKeys(batch, Hashes(codes)) ==> k !in w.spent && k !in w.db.codes
  {
    if k in CodeKeys(batch, Hashes(codes)) {
      assert k.0 == batch;
    } else {
      assert PrintedOn(w.printed, k);
    }
  }

  lemma CreateKeeps(w: World, a: Action)
    requires Inv(w) && Enabled(w, a) && a.Advance? && w.calls[a.c].GenerateCreate?
    ensures Inv(Step(w, a))
  {
    var call := w.calls[a.c];
    if a.ch.codes.Some? {
      var row := BatchRow(call.user, call.now, None);
      var created := CreateRows(w.db, a.ch.batch, row, Hashes(a.ch.codes.value), call.user in w.users);
      if created.Some? { AddingKeeps(w, Step(w, a), a.ch.batch, row, a.ch.codes.value); }
    }
  }

  lemma AddingKeeps(w: World, w': World, batch: BatchId, row: BatchRow, codes: seq<string>)
    requires Inv(w) && batch !in w.printed && IsBatch(codes)
    requires w'.db.batches == w.db.batches[batch := row] && w'.db.codes == w.db.codes + NewCodes(batch, Hashes(codes))
    requires w'.printed == w.printed[batch := codes] && w'.spent == w.spent
    ensures Inv(w')
  {
    forall k | k in w'.db.codes ensures PrintedOn(w'.printed, k) && (w'.db.codes[k].Some? <==> k in w.spent) {
      AddedCodeIsPrinted(w, batch, codes, k);
    }
  }

  /** From w to w' the unused code k is marked as used, and counted as redeemed. */
  ghost predicate Marks(w: World, w': World, k: CodeKey, now: Time) {
    ConsumeMatches(w.db, k) && w'.db.codes == w.db.codes[k := Some(now)] && w'.spent == w.spent + {k}
  }

  /** All that a step other than a batch creation can do: mark one unused code as used. */
  lemma OtherStepIs(w: World, a: Action)
    requires Enabled(w, a) && a.Advance? && !w.calls[a.c].GenerateCreate?
    ensures var w' := Step(w, a);
      && w'.printed == w.printed && w'.db.batches.Keys == w.db.batches.Keys
      && (|| (w'.db.codes == w.db.codes && w'.spent == w.spent)
          || exists k, now :: Marks(w, w', k, now))
  {
    var call := w.calls[a.c];
    if call.ResetConsume? {
      var k := (call.batch, HashNormalised(call.typed));
      if ConsumeMatches(w.db, k) {
        assert Marks(w, Step(w, a), k, call.now);
      }
    }
  }

  lemma OtherStepKeeps(w: World, w': World)
    requires Inv(w) && w'.printed == w.printed && w'.db.batches.Keys == w.db.batches.Keys
    requires || (w'.db.codes == w.db.codes && w'.spent == w.spent)
             || exists k, now :: Marks(w, w', k, now)
    ensures Inv(w')
  {
  }

  lemma DropKeeps(w: World, user: UserId)
    requires Inv(w)
    ensures Inv(Step(w, DropUser(user)))
  {
  }

  lemma InvStep(w: World, a: Action)
    requires Inv(w) && Enabled(w, a)
    ensures Inv(Step(w, a))
  {
    match a
    case Advance(c, _) =>
      if w.calls[c].GenerateCreate? { CreateKeeps(w, a); } else { OtherStepIs(w, a); OtherStepKeeps(w, Step(w, a)); }
    case DropUser(user) => DropKeeps(w, user);
    case _ =>
  }

  lemma {:induction false} InvRun(ws: seq<World>, acts: seq<Action>, i: nat)
    requires IsRun(ws, acts) && i < |ws|
    ensures Inv(ws[i])
  {
    if i > 0 {
      InvRun(ws, acts, i - 1);
      assert StepAt(ws, acts, i - 1);
      InvStep(ws[i-1], acts[i-1]);
    }
  }

  /** The generator's codes never collide on the primary key: creating a batch fails only when its
      user is gone or no codes were generated. */
  lemma CreateBatchNeverCollides(w: World, a: Action)
    requires Inv(w) && Enabled(w, a) && a.Advance? && w.calls[a.c].GenerateCreate?
    ensures Step(w, a).calls[a.c] == Finished(Failed) <==> w.calls[a.c].user !in w.users || a.ch.codes.None?
  {
    if a.ch.codes.Some? {
      BatchHashesDistinct(a.ch.codes.value);
      forall k | k in w.db.codes ensures k !in CodeKeys(a.ch.batch, Hashes(a.ch.codes.value)) {
        assert PrintedOn(w.printed, k);
      }
    }
  }

  // ----- single use --------------------------------------------------------------------------

  lemma SpentStep(w: World, a: Action, k: CodeKey)
    requires Inv(w) && Enabled(w, a)
    ensures w.spent <= Step(w, a).spent
    ensures Redeems(w, a, k) ==> k !in w.spent && k in Step(w, a).spent
    ensures k in Step(w, a).spent && k !in w.spent ==> Redeems(w, a, k)
  {
  }

  lemma {:induction false} SpentStays(ws: seq<World>, acts: seq<Action>, i: nat, n: nat)
    requires IsRun(ws, acts) && i <= n < |ws|
    ensures ws[i].spent <= ws[n].spent
  {
    if i < n {
      SpentStays(ws, acts, i, n - 1);
      SpentAt(ws, acts, n - 1);
    }
  }

  lemma SpentAt(ws: seq<World>, acts: seq<Action>, i: nat)
    requires IsRun(ws, acts) && i < |acts|
    ensures ws[i].spent <= ws[i+1].spent
  {
    assert StepAt(ws, acts, i);
    InvRun(ws, acts, i);
    SpentStep(ws[i], acts[i], (BatchId(""), Sha256("")));
  }

  /** A code of a batch is redeemed at most once in a run. */
  lemma NoCodeIsRedeemedTwice(ws: seq<World>, acts: seq<Action>, i: nat, n: nat, k: CodeKey)
    requires IsRun(ws, acts) && i < n < |acts| && Redeems(ws[i], acts[i], k)
    ensures !Redeems(ws[n], acts[n], k)
  {
    assert k in ws[i+1].spent by {
      assert StepAt(ws, acts, i);
      InvRun(ws, acts, i);
      SpentStep(ws[i], acts[i], k);
    }
    SpentStays(ws, acts, i + 1, n);
    assert StepAt(ws, acts, n);
    InvRun(ws, acts, n);
    SpentStep(ws[n], acts[n], k);
  }

  /** However the same printed code is typed the two times, in either case and with or without
      hyphens, a batch accepts it once. */
  lemma VariantsShareOneUse(ws: seq<World>, acts: seq<Action>, i: nat, n: nat, batch: BatchId, code: string,
                            first: string, second: string)
    requires IsRun(ws, acts) && i < n < |acts|
    requires IsVariant(first, code) && IsVariant(second, code)
    requires Redeems(ws[i], acts[i], (batch, HashNormalised(first)))
    ensures !Redeems(ws[n], acts[n], (batch, HashNormalised(second)))
  {
    VariantsHashAlike(first, code);
    VariantsHashAlike(second, code);
    NoCodeIsRedeemedTwice(ws, acts, i, n, (batch, HashNormalised(first)));
  }

  /** Only codes that were printed for the batch are ever redeemed from it. */
  lemma RedeemedWasPrinted(ws: seq<World>, acts: seq<Action>, i: nat, batch: BatchId, typed: string)
    requires IsRun(ws, acts) && i < |acts| && Redeems(ws[i], acts[i], (batch, HashNormalised(typed)))
    ensures batch in ws[i].printed
    ensures exists c :: c in ws[i].printed[batch] && IsVariant(typed, c)
  {
    InvRun(ws, acts, i);
    var codes := ws[i].printed[batch];
    assert PrintedOn(ws[i].printed, (batch, HashNormalised(typed)));
    var j :| 0 <= j < |codes| && HashNormalised(codes[j]) == HashNormalised(typed);
    PrintedIsAscii(codes[j]);
    HashMatchesVariants(typed, codes[j]);
    assert codes[j] in codes;
  }

  /** The redemptions from a batch among the first n steps. */
  ghost function Redemptions(ws: seq<World>, acts: seq<Action>, batch: BatchId, n: nat): nat
    requires n <= |acts| && n <= |ws|
  {
    if n == 0 then 0
    else
      var before := Redemptions(ws, acts, batch, n - 1);
      if exists h :: Redeems(ws[n-1], acts[n-1], (batch, h)) then before + 1 else before
  }

  ghost function SpentOf(w: World, batch: BatchId): set<Digest> { set k | k in w.spent && k.0 == batch :: k.1 }

  lemma SpentOfStep(w: World, a: Action, batch: BatchId)
    requires Inv(w) && Enabled(w, a)
    ensures |SpentOf(Step(w, a), batch)|
         == |SpentOf(w, batch)| + (if exists h :: Redeems(w, a, (batch, h)) then 1 else 0)
  {
    var before, after := SpentOf(w, batch), SpentOf(Step(w, a), batch);
    forall h ensures Redeems(w, a, (batch, h)) <==> h in after && h !in before {
      SpentStep(w, a, (batch, h));
      assert (batch, h).0 == batch;
    }
    SpentStep(w, a, (batch, Sha256("")));
    if h :| Redeems(w, a, (batch, h)) {
      assert after == before + {h};
    } else {
      assert after == before;
    }
  }

  lemma {:induction false} RedemptionsAreSpent(ws: seq<World>, acts: seq<Action>, batch: BatchId, n: nat)
    requires IsRun(ws, acts) && n <= |acts|
    ensures Redemptions(ws, acts, batch, n) == |SpentOf(ws[n], batch)|
  {
    if n > 0 {
      RedemptionsAreSpent(ws, acts, batch, n - 1);
      assert StepAt(ws, acts, n - 1);
      InvRun(ws, acts, n - 1);
      SpentOfStep(ws[n-1], acts[n-1], batch);
    } else {
      assert SpentOf(ws[0], batch) == {};
    }
  }

  lemma {:induction false} AtMostLength(s: set<Digest>, list: seq<Digest>)
    requires forall h :: h in s ==> h in list
    ensures |s| <= |list|
  {
    if list != [] {
      AtMostLength(s - {list[0]}, list[1..]);
      assert |s| <= |s - {list[0]}| + 1;
    } else {
      assert s == {};
    }
  }

  /** A batch is never good for more redemptions than it has codes. */
  lemma RedemptionsAreBounded(ws: seq<World>, acts: seq<Action>, batch: BatchId)
    requires IsRun(ws, acts)
    ensures Redemptions(ws, acts, batch, |acts|) <= CODES_IN_BATCH
  {
    var n := |acts|;
    RedemptionsAreSpent(ws, acts, batch, n);
    InvRun(ws, acts, n);
    var spent := SpentOf(ws[n], batch);
    forall h | h in spent ensures PrintedOn(ws[n].printed, (batch, h)) {
      assert (batch, h) in ws[n].spent;
    }
    if batch in ws[n].printed {
      AtMostLength(spent, Hashes(ws[n].printed[batch]));
    } else {
      assert spent == {};
    }
  }

  // ----- revocation --------------------------------------------------------------------------

  /** The batch is revoked or gone, and its id will not be given out again. */
  ghost predicate Retired(w: World, batch: BatchId) {
    batch in w.printed && (batch in w.db.batches ==> w.db.batches[batch].revokedAt.Some?)
  }

  lemma RetiredExec(t: Tables, users: Users, call: Call, ch: Choice, batch: BatchId)
    requires Allowed(t, call, ch) && !call.Finished? && ch.batch != batch
    requires batch in t.batches ==> t.batches[batch].revokedAt.Some?
    ensures var (t', call') := Exec(t, users, call, ch);
      && (batch in t'.batches ==> t'.batches[batch].revokedAt.Some?)
      && !(call'.ResetConsume? && call'.batch == batch)
  {
  }

  lemma RetiredStep(w: World, a: Action, batch: BatchId, c: CallId)
    requires Enabled(w, a) && Retired(w, batch)
    ensures Retired(Step(w, a), batch)
    ensures var w' := Step(w, a);
      c in w'.calls && w'.calls[c].ResetConsume? && w'.calls[c].batch == batch
      ==> c in w.calls && w.calls[c] == w'.calls[c]
  {
    if a.Advance? { RetiredExec(w.db, w.users, w.calls[a.c], a.ch, batch); }
  }

  /** No step ends a revocation, and a code of a revoked batch is only accepted from a reset that had
      found the batch before it was revoked and was about to redeem. */
  lemma {:induction false} RevokedBatchIsDead(ws: seq<World>, acts: seq<Action>, i: nat, n: nat, batch: BatchId,
                                              c: CallId)
    requires IsRun(ws, acts) && i <= n < |ws| && Retired(ws[i], batch)
    ensures Retired(ws[n], batch)
    ensures c in ws[n].calls && ws[n].calls[c].ResetConsume? && ws[n].calls[c].batch == batch
      ==> c in ws[i].calls && ws[i].calls[c] == ws[n].calls[c]
  {
    if i < n {
      RevokedBatchIsDead(ws, acts, i, n - 1, batch, c);
      assert StepAt(ws, acts, n - 1);
      RetiredStep(ws[n-1], acts[n-1], batch, c);
    }
  }

  // ----- one active batch --------------------------------------------------------------------

  predicate IsActive(t: Tables, user: UserId, b: BatchId) {
    b in t.batches && t.batches[b].user == user && t.batches[b].revokedAt.None?
  }

  ghost predicate SingleActive(t: Tables, user: UserId) {
    forall b, c :: IsActive(t, user, b) && IsActive(t, user, c) ==> b == c
  }

  /** Revoking first does not by itself leave one active batch: a step keeps a user to one unless it
      is the creation of a batch, with codes, for a user who is there and has an active batch. */
  lemma SingleActiveStep(w: World, a: Action, user: UserId)
    requires Inv(w) && Enabled(w, a) && SingleActive(w.db, user)
    ensures SingleActive(Step(w, a).db, user) <==>
      !(&& a.Advance? && w.calls[a.c].GenerateCreate? && w.calls[a.c].user == user
        && user in w.users && a.ch.codes.Some?
        && exists b :: IsActive(w.db, user, b))
  {
    if a.Advance? && w.calls[a.c].GenerateCreate? {
      CreateBatchNeverCollides(w, a);
      if Step(w, a).calls[a.c] == Finished(Failed) {
        OnlyCreateActivates(w, a, user);
      } else {
        CreationActivates(w, a, user);
      }
    } else {
      OnlyCreateActivates(w, a, user);
    }
  }

  lemma CreationActivates(w: World, a: Action, user: UserId)
    requires Inv(w) && Enabled(w, a) && a.Advance? && w.calls[a.c].GenerateCreate?
    requires Step(w, a).calls[a.c] != Finished(Failed)
    ensures forall b :: IsActive(Step(w, a).db, user, b) <==>
      IsActive(w.db, user, b) || (b == a.ch.batch && w.calls[a.c].user == user)
    ensures !IsActive(w.db, user, a.ch.batch)
  {
    assert Step(w, a).db.batches == w.db.batches[a.ch.batch := BatchRow(w.calls[a.c].user, w.calls[a.c].now, None)];
    assert a.ch.batch !in w.db.batches;
  }

  lemma OnlyCreateActivates(w: World, a: Action, user: UserId)
    requires Enabled(w, a)
    requires a.Advance? && w.calls[a.c].GenerateCreate? ==> Step(w, a).calls[a.c] == Finished(Failed)
    ensures forall b :: IsActive(Step(w, a).db, user, b) ==> IsActive(w.db, user, b)
  {
  }
}

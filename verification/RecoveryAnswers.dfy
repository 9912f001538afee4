/**
 What generating a batch and redeeming a code do and answer when they run alone, said of the tables
 before and after; and what an answered generation has retired in every interleaving.
 */
module RecoveryAnswers {
  import opened Prelude
  import opened RecoveryGenerator
  import opened RecoveryStore
  import opened RecoveryProtocol
  import opened UserDomain

  /** The batches of the user that were active are revoked now; batches and codes are else as they were. */
  ghost predicate Retires(t: Tables, user: UserId, now: Time, t': Tables) {
    && t'.codes == t.codes && t'.batches.Keys == t.batches.Keys
    && forall b :: b in t.batches ==>
         t'.batches[b] == if t.batches[b].user == user && t.batches[b].revokedAt.None?
                          then BatchRow(user, t.batches[b].generatedAt, Some(now)) else t.batches[b]
  }

  /** The new batch is there, active, with its codes unused; all else is as it was. */
  ghost predicate Adds(t: Tables, user: UserId, now: Time, batch: BatchId, hashes: seq<Digest>, t': Tables) {
    && t'.batches == t.batches[batch := BatchRow(user, now, None)]
    && (forall k: CodeKey :: k in t'.codes <==> k in t.codes || (k.0 == batch && k.1 in hashes))
    && (forall k :: k in t.codes && !(k.0 == batch && k.1 in hashes) ==> t'.codes[k] == t.codes[k])
    && (forall h :: h in hashes ==> t'.codes[(batch, h)] == None)
  }

  /** The batch id is in use, or one of its codes is. */
  predicate BatchTaken(t: Tables, batch: BatchId, hashes: seq<Digest>) {
    batch in t.batches || exists k :: k in t.codes && k.0 == batch && k.1 in hashes
  }

  ghost predicate GenerateAnswer(t: Tables, users: Users, user: UserId, now: Time, ch: Choice, t': Tables, o: Outcome) {
    if user !in users then o == InvalidToken && t' == t
    else if users[user] == Deleted then o == Outcome.UserDeleted && t' == t
    else if users[user] == Blocked then o == UserBlocked && t' == t
    else
      exists t1 :: Retires(t, user, now, t1) &&
        if ch.codes.None? || BatchTaken(t, ch.batch, Hashes(ch.codes.value)) then
          o == Failed && t' == t1
        else o == Issued(ch.codes.value) && Adds(t1, user, now, ch.batch, Hashes(ch.codes.value), t')
  }

  lemma GenerateAnswers(t: Tables, users: Users, user: UserId, now: Time, ch: Choice)
    requires ch.codes.Some? ==> IsBatch(ch.codes.value)
    ensures var (t', o) := RunAlone(t, users, Generate(user, now), ch); GenerateAnswer(t, users, user, now, ch, t', o)
  {
    Unfold(t, users, Generate(user, now), ch);
    if user in users && users[user].Active? {
      var t1 := RevokeActive(t, user, now);
      Unfold(t, users, GenerateRevoke(user, now), ch);
      Unfold(t1, users, GenerateCreate(user, now), ch);
      assert Retires(t, user, now, t1);
      if ch.codes.Some? {
        var hashes := Hashes(ch.codes.value);
        BatchHashesDistinct(ch.codes.value);
        if CodeKeys(ch.batch, hashes) !! t.codes.Keys {
          forall k | k in t.codes && k.0 == ch.batch ensures k.1 !in hashes {
            assert (ch.batch, k.1) == k;
          }
        } else {
          var k :| k in CodeKeys(ch.batch, hashes) && k in t.codes.Keys;
        }
        if ch.batch !in t.batches && CodeKeys(ch.batch, hashes) !! t.codes.Keys {
          CreatedAdds(t1, user, now, ch.batch, hashes);
        }
      }
    }
  }

  lemma CreatedAdds(t: Tables, user: UserId, now: Time, batch: BatchId, hashes: seq<Digest>)
    requires CreateRows(t, batch, BatchRow(user, now, None), hashes, true).Some?
    ensures Adds(t, user, now, batch, hashes, CreateRows(t, batch, BatchRow(user, now, None), hashes, true).value)
  {
    forall k: CodeKey ensures k in CodeKeys(batch, hashes) <==> k.0 == batch && k.1 in hashes {
      if k.0 == batch && k.1 in hashes { assert (batch, k.1) == k; }
    }
  }

  /** For an active user every batch that was active is revoked afterwards, also when no new one is made;
      when one is made, it is the only active one. */
  lemma GenerateRetires(t: Tables, users: Users, user: UserId, now: Time, ch: Choice)
    requires ch.codes.Some? ==> IsBatch(ch.codes.value)
    requires user in users && users[user].Active?
    ensures var (t', o) := RunAlone(t, users, Generate(user, now), ch);
      && (forall b :: b in t.batches && t.batches[b].user == user && t.batches[b].revokedAt.None? ==>
            b in t'.batches && t'.batches[b].revokedAt == Some(now))
      && (o.Issued? ==> forall b :: IsActive(t', user, b) <==> b == ch.batch)
  {
    GenerateAnswers(t, users, user, now, ch);
  }

  ghost predicate RedeemAnswer(t: Tables, users: Users, user: UserId, typed: string, now: Time, ch: Choice, t': Tables,
                               o: Outcome)
  {
    if user !in users then o == UserMissing && t' == t
    else if users[user] == Deleted then o == Outcome.UserDeleted && t' == t
    else if users[user] == Blocked then o == UserBlocked && t' == t
    else if ch.found.None? then o == InvalidCode && t' == t
    else
      var k := (ch.found.value, HashNormalised(typed));
      if k in t.codes && t.codes[k] == None then o == Redeemed && t' == Tables(t.batches, t.codes[k := Some(now)])
      else o == InvalidCode && t' == t
  }

  lemma RedeemAnswers(t: Tables, users: Users, user: UserId, typed: string, now: Time, ch: Choice)
    ensures var (t', o) := RunAlone(t, users, Reset(user, typed, now), ch);
      RedeemAnswer(t, users, user, typed, now, ch, t', o)
  {
    Unfold(t, users, Reset(user, typed, now), ch);
    if user in users && users[user].Active? {
      Unfold(t, users, ResetLoad(user, typed, now), ch);
      if ch.found.Some? { Unfold(t, users, ResetConsume(ch.found.value, typed, now), ch); }
    }
  }

  // ----- in every interleaving ---------------------------------------------------------------

  /** A generation for the user is on its way; past its revocation these batches are retired. */
  ghost predicate Retiring(w: World, c: CallId, user: UserId, batches: set<BatchId>) {
    && c in w.calls
    && (forall b :: b in batches ==> b in w.printed)
    && match w.calls[c]
       case Generate(u, _) => u == user && OwnedBy(w, user, batches)
       case GenerateRevoke(u, _) => u == user && OwnedBy(w, user, batches)
       case GenerateCreate(u, _) => u == user && forall b :: b in batches ==> Retired(w, b)
       case Finished(o) => o.Issued? ==> forall b :: b in batches ==> Retired(w, b)
       case _ => false
  }

  /** The batches are the user's, as far as they are still there. */
  ghost predicate OwnedBy(w: World, user: UserId, batches: set<BatchId>) {
    forall b :: b in batches && b in w.db.batches ==> w.db.batches[b].user == user
  }

  lemma RetiringByItself(w: World, c: CallId, ch: Choice, user: UserId, batches: set<BatchId>)
    requires Enabled(w, Advance(c, ch)) && Retiring(w, c, user, batches)
    requires forall b :: b in batches && Retired(w, b) ==> Retired(Step(w, Advance(c, ch)), b)
    ensures Retiring(Step(w, Advance(c, ch)), c, user, batches)
  {
    if w.calls[c].GenerateRevoke? {
      forall b | b in batches ensures Retired(Step(w, Advance(c, ch)), b) {
        if b in w.db.batches { assert w.db.batches[b].user == user; }
      }
    }
  }

  lemma OwnedStays(w: World, a: Action, user: UserId, batches: set<BatchId>)
    requires Enabled(w, a) && OwnedBy(w, user, batches) && forall b :: b in batches ==> b in w.printed
    ensures OwnedBy(Step(w, a), user, batches)
  {
  }

  lemma RetiringStep(w: World, a: Action, c: CallId, user: UserId, batches: set<BatchId>)
    requires Enabled(w, a) && Retiring(w, c, user, batches)
    ensures Retiring(Step(w, a), c, user, batches)
  {
    var w' := Step(w, a);
    forall b | b in batches && Retired(w, b) ensures Retired(w', b) { RetiredStep(w, a, b, c); }
    if a.Advance? && a.c == c {
      RetiringByItself(w, c, a.ch, user, batches);
    } else if OwnedBy(w, user, batches) {
      OwnedStays(w, a, user, batches);
    }
  }

  lemma {:induction false} RetiringRun(ws: seq<World>, acts: seq<Action>, i: nat, k: nat, c: CallId, user: UserId,
                                       batches: set<BatchId>)
    requires IsRun(ws, acts) && i <= k < |ws| && Retiring(ws[i], c, user, batches)
    ensures Retiring(ws[k], c, user, batches)
  {
    if i < k {
      RetiringRun(ws, acts, i, k - 1, c, user, batches);
      assert StepAt(ws, acts, k - 1);
      RetiringStep(ws[k-1], acts[k-1], c, user, batches);
    }
  }

  /** When a generation answers with codes, every batch its user had when the call began is retired. */
  lemma IssuedRetiresEarlier(ws: seq<World>, acts: seq<Action>, i: nat, k: nat, c: CallId, user: UserId, now: Time,
                             b: BatchId)
    requires IsRun(ws, acts) && i < |acts| && i < k < |ws| && acts[i] == Begin(c, Generate(user, now))
    requires b in ws[i].db.batches && ws[i].db.batches[b].user == user
    requires c in ws[k].calls && ws[k].calls[c].Finished? && ws[k].calls[c].outcome.Issued?
    ensures Retired(ws[k], b)
  {
    assert StepAt(ws, acts, i);
    InvRun(ws, acts, i);
    RetiringRun(ws, acts, i + 1, k, c, user, {b});
  }

  /** A reset about to load its batch was for a user found active at an earlier state. */
  lemma {:induction false} LoadWasChecked(ws: seq<World>, acts: seq<Action>, k: nat, c: CallId) returns (i: nat)
    requires IsRun(ws, acts) && k < |ws| && c in ws[k].calls && ws[k].calls[c].ResetLoad?
    ensures i < k && ws[k].calls[c].user in ws[i].users && ws[i].users[ws[k].calls[c].user] == Active
  {
    assert StepAt(ws, acts, k - 1);
    if c in ws[k-1].calls && ws[k-1].calls[c].ResetLoad? {
      i := LoadWasChecked(ws, acts, k - 1, c);
    } else {
      i := k - 1;
    }
  }

  /** A reset about to redeem from a batch found its user active, and later the batch active and that
      user's. */
  lemma {:induction false} RedemptionWasChecked(ws: seq<World>, acts: seq<Action>, k: nat, c: CallId)
    returns (i: nat, j: nat, user: UserId)
    requires IsRun(ws, acts) && k < |ws| && c in ws[k].calls && ws[k].calls[c].ResetConsume?
    ensures i < j < k && user in ws[i].users && ws[i].users[user] == Active
    ensures IsActive(ws[j].db, user, ws[k].calls[c].batch)
  {
    assert StepAt(ws, acts, k - 1);
    if c in ws[k-1].calls && ws[k-1].calls[c].ResetConsume? {
      i, j, user := RedemptionWasChecked(ws, acts, k - 1, c);
    } else {
      j, user := k - 1, ws[k-1].calls[c].user;
      i := LoadWasChecked(ws, acts, j, c);
    }
  }
}

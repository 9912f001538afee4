/**
 What every interleaving of session calls guarantees: revocation is final, lifetimes are bounded,
 a refresh token buys at most one live pair, and a replay kills the whole family.
 */
module SessionTheorems {
  import opened Prelude
  import opened SessionDomain
  import opened SessionStore
  import opened SessionProtocol
  import opened SessionInvariant
  import opened TokenCheck

  // ----- revocation is final -----------------------------------------------------------------

  /** The session has existed, and is now revoked or gone. */
  ghost predicate Dead(w: World, id: SessionId) {
    id in w.hist.seen && (id in w.rows ==> w.rows[id].IsRevoked())
  }

  lemma DeadStep(cfg: Config, w: World, a: Action, id: SessionId)
    requires cfg.Valid() && Inv(cfg, w) && Enabled(w, a) && Dead(w, id)
    ensures Dead(Step(cfg, w, a), id)
  {
    assert id in Step(cfg, w, a).hist.seen by { InvStep(cfg, w, a); }
    if a.Advance? {
      DeadRowStays(cfg, w, a.c, a.ch, id);
      assert Step(cfg, w, a).rows == Exec(cfg, w.rows, w.users, w.calls[a.c], a.ch).0;
    }
  }

  /** A row that is revoked or gone is not brought back by the table part of a step. */
  lemma DeadRowStays(cfg: Config, w: World, c: CallId, ch: Choice, id: SessionId)
    requires Inv(cfg, w) && Enabled(w, Advance(c, ch)) && Dead(w, id)
    ensures var t' := Exec(cfg, w.rows, w.users, w.calls[c], ch).0; id in t' ==> t'[id].IsRevoked()
  {
    assert CallOk(cfg, w.hist, c, w.calls[c]);
  }

  lemma {:induction false} DeadRun(cfg: Config, ws: seq<World>, acts: seq<Action>, i: nat, k: nat, id: SessionId)
    requires cfg.Valid() && IsRun(cfg, ws, acts) && i <= k < |ws| && Dead(ws[i], id)
    ensures Dead(ws[k], id)
  {
    if i < k {
      DeadRun(cfg, ws, acts, i, k - 1, id);
      InvRun(cfg, ws, acts, k - 1);
      assert StepAt(cfg, ws, acts, k - 1);
      DeadStep(cfg, ws[k-1], acts[k-1], id);
    }
  }

  /** Once a row is revoked, no step of any call makes its session usable again. */
  lemma RevocationIsFinal(cfg: Config, ws: seq<World>, acts: seq<Action>, i: nat, k: nat, id: SessionId, now: Time)
    requires cfg.Valid() && IsRun(cfg, ws, acts) && i <= k < |ws|
    requires id in ws[i].rows && ws[i].rows[id].IsRevoked()
    ensures id in ws[k].rows ==> ws[k].rows[id].IsRevoked()
    ensures LockedOut(ws[k].rows, id, now)
  {
    InvRun(cfg, ws, acts, i);
    assert RowOk(cfg, ws[i].hist, id, ws[i].rows[id]);
    DeadRun(cfg, ws, acts, i, k, id);
    LockedOutIff(ws[k].rows, id, now);
  }

  /** `acts[i]` runs the statement that revokes every session of `user`. */
  ghost predicate RevokesAll(w: World, a: Action, user: UserId) {
    && a.Advance? && Enabled(w, a)
    && (var call := w.calls[a.c];
        || (call.RevokeAll? && call.caller == user)
        || (call.RefreshReplay? && call.user == user)
        || (call.RevokeBeforeMint? && call.user == user))
  }

  /** Every session of `user` is revoked. */
  ghost predicate NoneActive(t: Table, user: UserId) {
    forall id :: id in t && t[id].userId == user ==> t[id].IsRevoked()
  }

  /** A session existing when its user's sessions are revoked is rejected for ever after. */
  lemma RevokeAllIsFinal(cfg: Config, ws: seq<World>, acts: seq<Action>, i: nat, k: nat,
                         user: UserId, id: SessionId, now: Time)
    requires cfg.Valid() && IsRun(cfg, ws, acts) && i < |acts| && i < k < |ws|
    requires RevokesAll(ws[i], acts[i], user)
    requires id in ws[i].rows && ws[i].rows[id].userId == user
    ensures NoneActive(ws[i+1].rows, user)
    ensures LockedOut(ws[k].rows, id, now)
  {
    assert StepAt(cfg, ws, acts, i);
    RevocationIsFinal(cfg, ws, acts, i + 1, k, id, now);
  }

  // ----- lifetimes ---------------------------------------------------------------------------

  /** The hard cap is fixed at creation, the sliding deadline never passes it, and no user token
      is accepted from the cap on. */
  lemma LifetimeIsCapped(cfg: Config, ws: seq<World>, acts: seq<Action>, k: nat, id: SessionId, now: Time)
    requires cfg.Valid() && IsRun(cfg, ws, acts) && k < |ws| && id in ws[k].rows
    ensures var s := ws[k].rows[id];
      && s.expiresAt == s.issuedAt + cfg.refreshTTL
      && s.refreshExpiresAt <= s.expiresAt
      && (now >= s.issuedAt + cfg.refreshTTL ==> LockedOut(ws[k].rows, id, now))
  {
    InvRun(cfg, ws, acts, k);
    assert RowOk(cfg, ws[k].hist, id, ws[k].rows[id]);
    LockedOutIff(ws[k].rows, id, now);
  }

  /** A row's owner, creation time and hard cap never change while it exists, stale writes or not. */
  lemma IdentityIsFixed(cfg: Config, ws: seq<World>, acts: seq<Action>, i: nat, k: nat, id: SessionId)
    requires cfg.Valid() && IsRun(cfg, ws, acts) && i <= k < |ws| && id in ws[i].rows && id in ws[k].rows
    ensures ws[i].rows[id].userId == ws[k].rows[id].userId
    ensures ws[i].rows[id].issuedAt == ws[k].rows[id].issuedAt
    ensures ws[i].rows[id].expiresAt == ws[k].rows[id].expiresAt
  {
    InvRun(cfg, ws, acts, i);
    InvRun(cfg, ws, acts, k);
    assert RowOk(cfg, ws[i].hist, id, ws[i].rows[id]) && RowOk(cfg, ws[k].hist, id, ws[k].rows[id]);
    HistoryGrows(cfg, ws, acts, i, k);
  }

  // ----- one live pair per refresh token -----------------------------------------------------

  /** `a` reaches Rotate with old hash `h`. */
  ghost predicate Attempts(w: World, a: Action, h: Hash) {
    a.Advance? && Enabled(w, a) && w.calls[a.c].RefreshRotate? && w.calls[a.c].prev == h
  }

  ghost predicate Wins(w: World, a: Action, h: Hash) {
    Attempts(w, a, h) && RotateRow(w.rows, w.calls[a.c].copy, h).1.Written?
  }

  /** The session whose token `a` rotates. */
  ghost function Target(w: World, a: Action, h: Hash): SessionId
    requires Attempts(w, a, h)
  {
    w.calls[a.c].copy.id
  }

  /** An unrevoked row never holds a hash that has been rotated away: a stale full-row write can
      put such a hash back only together with a revocation. */
  lemma LiveHashIsUnspent(cfg: Config, ws: seq<World>, acts: seq<Action>, i: nat, k: nat, h: Hash, id: SessionId)
    requires cfg.Valid() && IsRun(cfg, ws, acts) && i < |acts| && i < k < |ws|
    requires Wins(ws[i], acts[i], h)
    requires id in ws[k].rows && ws[k].rows[id].hash == h
    ensures ws[k].rows[id].IsRevoked()
  {
    assert StepAt(cfg, ws, acts, i);
    HistoryGrows(cfg, ws, acts, i + 1, k);
    InvRun(cfg, ws, acts, k);
    assert RowOk(cfg, ws[k].hist, id, ws[k].rows[id]);
  }

  /** A refresh hash wins Rotate at most once while its session is unrevoked: a second win hits a
      revoked row of the same session, and the pair it returns is never accepted. */
  lemma TokenBuysOneLivePair(cfg: Config, ws: seq<World>, acts: seq<Action>, i: nat, j: nat, k: nat, h: Hash, now: Time)
    requires cfg.Valid() && IsRun(cfg, ws, acts) && i < j < |acts| && j <= k < |ws|
    requires Wins(ws[i], acts[i], h) && Wins(ws[j], acts[j], h)
    ensures Target(ws[i], acts[i], h) == Target(ws[j], acts[j], h)
    ensures ws[j].rows[Target(ws[j], acts[j], h)].IsRevoked()
    ensures LockedOut(ws[k].rows, Target(ws[j], acts[j], h), now)
  {
    var id := Target(ws[j], acts[j], h);
    InvRun(cfg, ws, acts, i);
    InvRun(cfg, ws, acts, j);
    assert CallOk(cfg, ws[i].hist, acts[i].c, ws[i].calls[acts[i].c]);
    assert CallOk(cfg, ws[j].hist, acts[j].c, ws[j].calls[acts[j].c]);
    HistoryGrows(cfg, ws, acts, i, j);
    LiveHashIsUnspent(cfg, ws, acts, i, j, h, id);
    RevocationIsFinal(cfg, ws, acts, j, k, id, now);
  }

  /** Why "while unrevoked" is needed: two rotations with the hash of an active row are pending, and
      so is a Logout that read the same row. If the Logout's full-row write comes between the two,
      it puts the old hash back, revoked, and the second rotation wins as well. */
  lemma StaleWriteLetsAHashWinTwice(cfg: Config, w: World, w1: World, w2: World, a: CallId, b: CallId, l: CallId,
                                    ch: Choice, id: SessionId, now: Time)
    requires cfg.Valid() && Inv(cfg, w) && id in w.rows && !w.rows[id].IsRevoked()
    requires a in w.calls && b in w.calls && l in w.calls && a != b
    requires w.calls[a].RefreshRotate? && w.calls[a].copy.id == id && w.calls[a].prev == w.rows[id].hash
    requires w.calls[b].RefreshRotate? && w.calls[b].copy.id == id && w.calls[b].prev == w.rows[id].hash
    requires w.calls[l] == WriteBack([w.rows[id].Revoke(now)], Done, Failed)
    requires Enabled(w, Advance(a, ch)) && w1 == Step(cfg, w, Advance(a, ch))
    requires Enabled(w1, Advance(l, ch)) && w2 == Step(cfg, w1, Advance(l, ch))
    ensures Wins(w, Advance(a, ch), w.rows[id].hash) && Wins(w2, Advance(b, ch), w.rows[id].hash)
    ensures w2.rows[id].IsRevoked()
  {
    MatchingRotateWins(cfg, w, a, ch);
    assert Inv(cfg, w1) by { InvStep(cfg, w, Advance(a, ch)); }
    StaleWriteThenRotate(cfg, w1, l, b, ch);
  }

  lemma StaleWriteThenRotate(cfg: Config, w1: World, l: CallId, b: CallId, ch: Choice)
    requires cfg.Valid() && Inv(cfg, w1) && Enabled(w1, Advance(l, ch)) && l != b && b in w1.calls
    requires w1.calls[l].WriteBack? && |w1.calls[l].queue| == 1 && w1.calls[l].queue[0].id in w1.rows
    requires w1.calls[b].RefreshRotate? && w1.calls[b].copy.id == w1.calls[l].queue[0].id
    requires w1.calls[b].prev == w1.calls[l].queue[0].hash
    ensures var w2 := Step(cfg, w1, Advance(l, ch));
      Wins(w2, Advance(b, ch), w1.calls[b].prev) && w2.rows[w1.calls[b].copy.id].IsRevoked()
  {
    WriteBackLands(cfg, w1, l, ch);
    var w2 := Step(cfg, w1, Advance(l, ch));
    assert Inv(cfg, w2) by { InvStep(cfg, w1, Advance(l, ch)); }
    MatchingRotateWins(cfg, w2, b, ch);
  }

  /** A Rotate whose expected hash is in the row wins, and moves no other call. */
  lemma MatchingRotateWins(cfg: Config, w: World, a: CallId, ch: Choice)
    requires Inv(cfg, w) && Enabled(w, Advance(a, ch)) && w.calls[a].RefreshRotate?
    requires RotateMatches(w.rows, w.calls[a].copy.id, w.calls[a].prev)
    ensures Wins(w, Advance(a, ch), w.calls[a].prev)
    ensures var w' := Step(cfg, w, Advance(a, ch));
      && w'.rows.Keys == w.rows.Keys && w'.calls == w.calls[a := w'.calls[a]]
      && w'.hist.minted == w.hist.minted && w'.hist.born == w.hist.born
  {
    assert CallOk(cfg, w.hist, a, w.calls[a]);
    OtherHoldersOf(cfg, w, w.calls[a].copy.id, w.calls[a].copy.hash);
  }

  /** A full-row write of one copy puts exactly that copy into its row. */
  lemma WriteBackLands(cfg: Config, w: World, l: CallId, ch: Choice)
    requires Inv(cfg, w) && Enabled(w, Advance(l, ch))
    requires w.calls[l].WriteBack? && |w.calls[l].queue| == 1 && w.calls[l].queue[0].id in w.rows
    ensures var s := w.calls[l].queue[0]; var w' := Step(cfg, w, Advance(l, ch));
      && w'.rows == w.rows[s.id := s] && s.IsRevoked()
      && w'.calls == w.calls[l := w'.calls[l]]
      && w'.hist == w.hist
  {
    assert CallOk(cfg, w.hist, l, w.calls[l]);
    OtherHoldersOf(cfg, w, w.calls[l].queue[0].id, w.calls[l].queue[0].hash);
  }

  /** Only its own session's row can hold a generated hash. */
  lemma OtherHoldersOf(cfg: Config, w: World, id: SessionId, h: Hash)
    requires Inv(cfg, w) && h in w.hist.minted && w.hist.minted[h].session == id
    ensures !HashTaken(w.rows, id, h)
  {
    assert forall i :: i in w.rows ==> RowOk(cfg, w.hist, i, w.rows[i]);
  }

  // ----- replay ------------------------------------------------------------------------------

  /** A full-row UPDATE of session `id`. */
  ghost predicate WritesWholeRow(w: World, a: Action, id: SessionId) {
    && a.Advance? && Enabled(w, a) && w.calls[a.c].WriteBack?
    && w.calls[a.c].queue != [] && w.calls[a.c].queue[0].id == id
  }

  /** `h` was generated for session `id` and has been in its row. */
  ghost predicate BelongsTo(w: World, h: Hash, id: SessionId) {
    h in w.hist.stored && h in w.hist.minted && w.hist.minted[h].session == id
  }

  /** How one step treats hash `h` of row `id` when it is not a full-row write. */
  lemma HashStep(cfg: Config, w: World, a: Action, id: SessionId, h: Hash)
    requires cfg.Valid() && Inv(cfg, w) && Enabled(w, a) && !WritesWholeRow(w, a, id)
    requires id in w.rows && id in Step(cfg, w, a).rows && BelongsTo(w, h, id)
    ensures Attempts(w, a, h) ==> Target(w, a, h) == id
    ensures Wins(w, a, h) <==> Attempts(w, a, h) && w.rows[id].hash == h
    ensures Step(cfg, w, a).rows[id].hash == h <==> w.rows[id].hash == h && !Attempts(w, a, h)
  {
    assert RowOk(cfg, w.hist, id, w.rows[id]);
    if a.Advance? {
      assert CallOk(cfg, w.hist, a.c, w.calls[a.c]);
      if w.calls[a.c].RefreshRotate? {
        assert !HashTaken(w.rows, w.calls[a.c].copy.id, w.calls[a.c].copy.hash);
      }
    }
  }

  /** Some step in [lo, hi) reaches Rotate with `h`. */
  ghost predicate AttemptedIn(ws: seq<World>, acts: seq<Action>, lo: nat, hi: nat, h: Hash)
    requires hi <= |acts| == |ws| - 1
  {
    exists m :: lo <= m < hi && Attempts(ws[m], acts[m], h)
  }

  ghost predicate Undisturbed(ws: seq<World>, acts: seq<Action>, lo: nat, hi: nat, id: SessionId)
    requires hi <= |acts| == |ws| - 1
  {
    && (forall m :: lo <= m <= hi ==> id in ws[m].rows)
    && (forall m :: lo <= m < hi ==> !WritesWholeRow(ws[m], acts[m], id))
  }

  lemma RowBelongs(cfg: Config, ws: seq<World>, acts: seq<Action>, lo: nat, m: nat, id: SessionId)
    requires cfg.Valid() && IsRun(cfg, ws, acts) && lo <= m < |ws| && id in ws[lo].rows
    ensures BelongsTo(ws[m], ws[lo].rows[id].hash, id)
  {
    InvRun(cfg, ws, acts, lo);
    assert RowOk(cfg, ws[lo].hist, id, ws[lo].rows[id]);
    HistoryGrows(cfg, ws, acts, lo, m);
  }

  lemma {:induction false} HashUntilFirstAttempt(cfg: Config, ws: seq<World>, acts: seq<Action>,
                                                 lo: nat, m: nat, id: SessionId, h: Hash)
    requires cfg.Valid() && IsRun(cfg, ws, acts) && lo <= m <= |acts|
    requires Undisturbed(ws, acts, lo, m, id) && ws[lo].rows[id].hash == h
    ensures ws[m].rows[id].hash == h <==> !AttemptedIn(ws, acts, lo, m, h)
  {
    if lo < m {
      HashUntilFirstAttempt(cfg, ws, acts, lo, m - 1, id, h);
      assert ws[m].rows[id].hash == h <==> ws[m-1].rows[id].hash == h && !Attempts(ws[m-1], acts[m-1], h) by {
        InvRun(cfg, ws, acts, m - 1);
        RowBelongs(cfg, ws, acts, lo, m - 1, id);
        assert StepAt(cfg, ws, acts, m - 1) && id in ws[m].rows;
        HashStep(cfg, ws[m-1], acts[m-1], id, h);
      }
      assert AttemptedIn(ws, acts, lo, m, h) <==>
        AttemptedIn(ws, acts, lo, m - 1, h) || Attempts(ws[m-1], acts[m-1], h);
    }
  }

  /** While a row stays and no full-row write touches it, the first Rotate with its hash wins and
      every later one loses. */
  lemma ExactlyTheFirstAttemptWins(cfg: Config, ws: seq<World>, acts: seq<Action>,
                                   lo: nat, hi: nat, m: nat, id: SessionId, h: Hash)
    requires cfg.Valid() && IsRun(cfg, ws, acts) && lo <= m < hi <= |acts|
    requires Undisturbed(ws, acts, lo, hi, id) && ws[lo].rows[id].hash == h
    requires Attempts(ws[m], acts[m], h)
    ensures Wins(ws[m], acts[m], h) <==> !AttemptedIn(ws, acts, lo, m, h)
    ensures Target(ws[m], acts[m], h) == id
  {
    HashUntilFirstAttempt(cfg, ws, acts, lo, m, id, h);
    InvRun(cfg, ws, acts, m);
    RowBelongs(cfg, ws, acts, lo, m, id);
    assert StepAt(cfg, ws, acts, m) && id in ws[m+1].rows;
    HashStep(cfg, ws[m], acts[m], id, h);
  }

  /** Call `c` is about to revoke every session of `user`. */
  ghost predicate AtReplay(w: World, c: CallId, user: UserId) {
    c in w.calls && w.calls[c].RefreshReplay? && w.calls[c].user == user
  }

  /** No step in [lo, hi) runs or aborts call `c`. */
  ghost predicate Waits(acts: seq<Action>, lo: nat, hi: nat, c: CallId)
    requires hi <= |acts|
  {
    forall m :: lo <= m < hi ==> acts[m] != Abort(c) && !(acts[m].Advance? && acts[m].c == c)
  }

  lemma {:induction false} WaitingCallStays(cfg: Config, ws: seq<World>, acts: seq<Action>, lo: nat, k: nat, c: CallId)
    requires IsRun(cfg, ws, acts) && lo <= k < |ws| && Waits(acts, lo, k, c) && c in ws[lo].calls
    ensures c in ws[k].calls && ws[k].calls[c] == ws[lo].calls[c]
  {
    if lo < k {
      WaitingCallStays(cfg, ws, acts, lo, k - 1, c);
      assert StepAt(cfg, ws, acts, k - 1);
    }
  }

  /** The loser of a rotation race is about to revoke the whole family of its session's user. */
  lemma LoserTurnsToReplay(cfg: Config, ws: seq<World>, acts: seq<Action>, j: nat, h: Hash)
    requires cfg.Valid() && IsRun(cfg, ws, acts) && j < |acts|
    requires Attempts(ws[j], acts[j], h) && !Wins(ws[j], acts[j], h)
    ensures var copy := ws[j].calls[acts[j].c].copy;
      && ws[j+1].rows == ws[j].rows
      && AtReplay(ws[j+1], acts[j].c, copy.userId)
      && (copy.id in ws[j].rows ==> ws[j].rows[copy.id].userId == copy.userId)
  {
    InvRun(cfg, ws, acts, j);
    var copy := ws[j].calls[acts[j].c].copy;
    assert StepAt(cfg, ws, acts, j);
    assert CallOk(cfg, ws[j].hist, acts[j].c, ws[j].calls[acts[j].c]);
    if copy.id in ws[j].rows {
      assert RowOk(cfg, ws[j].hist, copy.id, ws[j].rows[copy.id]);
    }
  }

  /** Refresh-token replay (RFC 9700, section 4.14.2). Of two calls that reach Rotate with the same
      hash exactly the first wins; when the second gets to its revocation at step `k`, no session
      of the user is left unrevoked, and the winner's session is rejected from then on. */
  lemma ReplayKillsTheFamily(cfg: Config, ws: seq<World>, acts: seq<Action>,
                             lo: nat, i: nat, j: nat, k: nat, n: nat, id: SessionId, h: Hash, now: Time)
    requires cfg.Valid() && IsRun(cfg, ws, acts) && lo <= i < j < k < |acts| && k < n < |ws|
    requires Undisturbed(ws, acts, lo, j + 1, id) && ws[lo].rows[id].hash == h
    requires Attempts(ws[i], acts[i], h) && !AttemptedIn(ws, acts, lo, i, h)
    requires Attempts(ws[j], acts[j], h)
    requires acts[k].Advance? && acts[k].c == acts[j].c && Waits(acts, j + 1, k, acts[j].c)
    ensures Wins(ws[i], acts[i], h) && Target(ws[i], acts[i], h) == id
    ensures !Wins(ws[j], acts[j], h)
    ensures NoneActive(ws[k+1].rows, ws[j].rows[id].userId)
    ensures LockedOut(ws[n].rows, id, now)
  {
    ExactlyTheFirstAttemptWins(cfg, ws, acts, lo, j + 1, i, id, h);
    ExactlyTheFirstAttemptWins(cfg, ws, acts, lo, j + 1, j, id, h);
    LoserTurnsToReplay(cfg, ws, acts, j, h);
    WaitingCallStays(cfg, ws, acts, j + 1, k, acts[j].c);
    assert StepAt(cfg, ws, acts, k);
    ReplayStepLocksOut(cfg, ws, acts, j, k, n, id, now);
  }

  lemma ReplayStepLocksOut(cfg: Config, ws: seq<World>, acts: seq<Action>, j: nat, k: nat, n: nat,
                           id: SessionId, now: Time)
    requires cfg.Valid() && IsRun(cfg, ws, acts) && j < k < |acts| && k < n < |ws| && id in ws[j].rows
    requires RevokesAll(ws[k], acts[k], ws[j].rows[id].userId)
    ensures NoneActive(ws[k+1].rows, ws[j].rows[id].userId)
    ensures LockedOut(ws[n].rows, id, now)
  {
    assert StepAt(cfg, ws, acts, k);
    if id in ws[k].rows {
      IdentityIsFixed(cfg, ws, acts, j, k, id);
      RevokeAllIsFinal(cfg, ws, acts, k, n, ws[j].rows[id].userId, id, now);
    } else {
      SeenGrows(cfg, ws, acts, j, k, id);
      DeadRun(cfg, ws, acts, k, n, id);
      LockedOutIff(ws[n].rows, id, now);
    }
  }

  lemma SeenGrows(cfg: Config, ws: seq<World>, acts: seq<Action>, i: nat, k: nat, id: SessionId)
    requires cfg.Valid() && IsRun(cfg, ws, acts) && i <= k < |ws| && id in ws[i].rows
    ensures id in ws[k].hist.seen
  {
    InvRun(cfg, ws, acts, i);
    assert RowOk(cfg, ws[i].hist, id, ws[i].rows[id]);
    HistoryGrows(cfg, ws, acts, i, k);
  }
}

/**
 What a session call has achieved when it answers, whatever ran in between: a revocation reported as
 done has revoked, and a pair reported as issued is stored.
 */
module SessionEffects {
  import opened Prelude
  import opened SessionDomain
  import opened SessionStore
  import opened SessionProtocol
  import opened SessionInvariant
  import opened SessionTheorems
  import opened TokenCheck

  /** Some copy still to be written is of this session. */
  ghost predicate Queued(queue: seq<Session>, id: SessionId) { exists j :: 0 <= j < |queue| && queue[j].id == id }

  /** Call `c` is out to revoke `ids`, and will not answer Done before it has. */
  ghost predicate Pursues(w: World, c: CallId, ids: set<SessionId>) {
    && ids <= w.hist.seen && c in w.calls
    && match w.calls[c]
       case Logout(id, _) => ids == {id}
       case RevokeSession(id, _, _) => ids == {id}
       case WriteBack(queue, onDone, onNoRow) =>
         queue != [] && onDone == Done && onNoRow != Done && forall id :: id in ids ==> Dead(w, id) || Queued(queue, id)
       case Finished(o) => o == Done ==> forall id :: id in ids ==> Dead(w, id)
       case _ => false
  }

  /** A full-row write leaves its session revoked or gone, however stale the copy. */
  lemma WriteBackRevokes(cfg: Config, w: World, c: CallId, ch: Choice)
    requires Inv(cfg, w) && Enabled(w, Advance(c, ch)) && w.calls[c].WriteBack? && w.calls[c].queue != []
    ensures Dead(Step(cfg, w, Advance(c, ch)), w.calls[c].queue[0].id)
    ensures UpdateRow(w.rows, w.calls[c].queue[0]).1.Written? <==> w.calls[c].queue[0].id in w.rows
  {
    var s := w.calls[c].queue[0];
    assert CallOk(cfg, w.hist, c, w.calls[c]);
    OtherHoldersOf(cfg, w, s.id, s.hash);
  }

  lemma QueuedTail(queue: seq<Session>, id: SessionId)
    requires queue != [] && Queued(queue, id) && queue[0].id != id
    ensures Queued(queue[1..], id)
  {
    var j :| 0 <= j < |queue| && queue[j].id == id;
    assert queue[1..][j-1].id == id;
  }

  lemma SeenStays(cfg: Config, w: World, a: Action)
    requires cfg.Valid() && Inv(cfg, w) && Enabled(w, a)
    ensures w.hist.seen <= Step(cfg, w, a).hist.seen
  {
    InvStep(cfg, w, a);
  }

  /** The write step of a pursuing call. */
  lemma PursuesByWriting(cfg: Config, w: World, c: CallId, ch: Choice, ids: set<SessionId>)
    requires cfg.Valid() && Inv(cfg, w) && Enabled(w, Advance(c, ch)) && Pursues(w, c, ids) && w.calls[c].WriteBack?
    ensures Pursues(Step(cfg, w, Advance(c, ch)), c, ids)
  {
    var a := Advance(c, ch);
    var w' := Step(cfg, w, a);
    var queue := w.calls[c].queue;
    SeenStays(cfg, w, a);
    WriteBackRevokes(cfg, w, c, ch);
    forall id | id in ids ensures Dead(w', id) || (|queue| > 1 && Queued(queue[1..], id)) {
      if Dead(w, id) {
        DeadStep(cfg, w, a, id);
      } else if queue[0].id != id {
        QueuedTail(queue, id);
      }
    }
  }

  /** The lookup step of Logout and RevokeSession. */
  lemma PursuesByLookup(cfg: Config, w: World, c: CallId, ch: Choice, ids: set<SessionId>)
    requires cfg.Valid() && Inv(cfg, w) && Enabled(w, Advance(c, ch)) && Pursues(w, c, ids)
    requires w.calls[c].Logout? || w.calls[c].RevokeSession?
    ensures Pursues(Step(cfg, w, Advance(c, ch)), c, ids)
  {
    var w' := Step(cfg, w, Advance(c, ch));
    SeenStays(cfg, w, Advance(c, ch));
    var id := w.calls[c].id;
    assert w'.rows == w.rows;
    if w'.calls[c].WriteBack? {
      assert RowOk(cfg, w.hist, id, w.rows[id]);
      assert w'.calls[c].queue[0].id == id && Queued(w'.calls[c].queue, id);
    }
  }

  lemma PursuesStep(cfg: Config, w: World, a: Action, c: CallId, ids: set<SessionId>)
    requires cfg.Valid() && Inv(cfg, w) && Enabled(w, a) && Pursues(w, c, ids)
    ensures Pursues(Step(cfg, w, a), c, ids)
  {
    if a.Advance? && a.c == c {
      if w.calls[c].WriteBack? {
        PursuesByWriting(cfg, w, c, a.ch, ids);
      } else {
        PursuesByLookup(cfg, w, c, a.ch, ids);
      }
    } else {
      SeenStays(cfg, w, a);
      forall id | id in ids && Dead(w, id) ensures Dead(Step(cfg, w, a), id) {
        DeadStep(cfg, w, a, id);
      }
    }
  }

  lemma {:induction false} PursuesRun(cfg: Config, ws: seq<World>, acts: seq<Action>, i: nat, k: nat, c: CallId,
                                      ids: set<SessionId>)
    requires cfg.Valid() && IsRun(cfg, ws, acts) && i <= k < |ws| && Pursues(ws[i], c, ids)
    ensures Pursues(ws[k], c, ids)
  {
    if i < k {
      PursuesRun(cfg, ws, acts, i, k - 1, c, ids);
      InvRun(cfg, ws, acts, k - 1);
      assert StepAt(cfg, ws, acts, k - 1);
      PursuesStep(cfg, ws[k-1], acts[k-1], c, ids);
    }
  }

  /** When a Logout or RevokeSession of a session that existed answers Done, the session is rejected
      from then on, whatever rotations and stale writes were in flight. */
  lemma DoneMeansRevoked(cfg: Config, ws: seq<World>, acts: seq<Action>, i: nat, k: nat, n: nat, c: CallId,
                         id: SessionId, now: Time)
    requires cfg.Valid() && IsRun(cfg, ws, acts) && i < |acts| && i < k <= n < |ws|
    requires acts[i].Begin? && acts[i].c == c && id in ws[i].rows
    requires (acts[i].request.Logout? || acts[i].request.RevokeSession?) && acts[i].request.id == id
    requires c in ws[k].calls && ws[k].calls[c] == Finished(Done)
    ensures LockedOut(ws[n].rows, id, now)
  {
    assert StepAt(cfg, ws, acts, i);
    SeenGrows(cfg, ws, acts, i, i + 1, id);
    PursuesRun(cfg, ws, acts, i + 1, k, c, {id});
    DeadRun(cfg, ws, acts, k, n, id);
    LockedOutIff(ws[n].rows, id, now);
  }

  /** The caller's active sessions except the current one. */
  ghost predicate Other(t: Table, caller: UserId, current: SessionId, id: SessionId) {
    id in t && t[id].userId == caller && !t[id].IsRevoked() && id != current
  }

  lemma {:induction false} OthersHold(listing: seq<Session>, current: SessionId, now: Time, s: Session)
    requires s in listing && !s.IsRevoked() && s.id != current
    ensures Queued(Others(listing, current, now), s.id)
  {
    var queue := Others(listing, current, now);
    if listing[0] == s {
      assert queue[0].id == s.id;
    } else {
      OthersHold(listing[1..], current, now, s);
      var tail := Others(listing[1..], current, now);
      var j :| 0 <= j < |tail| && tail[j].id == s.id;
      if queue != tail { assert queue[j+1] == tail[j]; }
    }
  }

  /** When the except-current revocation answers Done, every session of the caller that was active
      when it listed them, but the current one, is rejected from then on. */
  lemma DoneMeansOthersRevoked(cfg: Config, ws: seq<World>, acts: seq<Action>, i: nat, k: nat, n: nat, c: CallId,
                               id: SessionId, now: Time)
    requires cfg.Valid() && IsRun(cfg, ws, acts) && i < |acts| && i < k <= n < |ws|
    requires acts[i].Advance? && acts[i].c == c && c in ws[i].calls && ws[i].calls[c].RevokeOthers?
    requires Other(ws[i].rows, ws[i].calls[c].caller, ws[i].calls[c].current, id)
    requires c in ws[k].calls && ws[k].calls[c] == Finished(Done)
    ensures LockedOut(ws[n].rows, id, now)
  {
    assert StepAt(cfg, ws, acts, i);
    var w, ch := ws[i], acts[i].ch;
    InvRun(cfg, ws, acts, i);
    assert RowOk(cfg, w.hist, id, w.rows[id]);
    SeenStays(cfg, w, acts[i]);
    OthersHold(ch.listing, w.calls[c].current, w.calls[c].now, w.rows[id]);
    assert Pursues(ws[i+1], c, {id});
    PursuesRun(cfg, ws, acts, i + 1, k, c, {id});
    DeadRun(cfg, ws, acts, k, n, id);
    LockedOutIff(ws[n].rows, id, now);
  }

  /** A RevokeToken whose lookup finds the token's session revokes it before it answers Done. */
  lemma DoneMeansTokenRevoked(cfg: Config, ws: seq<World>, acts: seq<Action>, i: nat, k: nat, n: nat, c: CallId,
                              now: Time)
    requires cfg.Valid() && IsRun(cfg, ws, acts) && i < |acts| && i < k <= n < |ws|
    requires acts[i].Advance? && acts[i].c == c && c in ws[i].calls && ws[i].calls[c].RevokeToken?
    requires FindByHash(ws[i].rows, ws[i].calls[c].hash).Some?
    requires c in ws[k].calls && ws[k].calls[c] == Finished(Done)
    ensures LockedOut(ws[n].rows, FindByHash(ws[i].rows, ws[i].calls[c].hash).value.id, now)
  {
    assert StepAt(cfg, ws, acts, i);
    InvRun(cfg, ws, acts, i);
    FoundIsRow(cfg, ws[i], ws[i].calls[c].hash);
    var s := FindByHash(ws[i].rows, ws[i].calls[c].hash).value;
    SeenStays(cfg, ws[i], acts[i]);
    assert Pursues(ws[i+1], c, {s.id}) by {
      if ws[i+1].calls[c].WriteBack? { assert ws[i+1].calls[c].queue[0].id == s.id; }
    }
    PursuesRun(cfg, ws, acts, i + 1, k, c, {s.id});
    DeadRun(cfg, ws, acts, k, n, s.id);
    LockedOutIff(ws[n].rows, s.id, now);
  }

  /** A RevokeToken whose lookup finds nothing answers Done at once and changes no row; one whose
      lookup finds a session of somebody else answers so and changes no row either. */
  lemma UnknownTokenRevokesNothing(cfg: Config, w: World, c: CallId, ch: Choice)
    requires cfg.Valid() && Inv(cfg, w) && Enabled(w, Advance(c, ch)) && w.calls[c].RevokeToken?
    ensures var found := FindByHash(w.rows, w.calls[c].hash); var w' := Step(cfg, w, Advance(c, ch));
      && w'.rows == w.rows
      && (found.None? ==> w'.calls[c] == Finished(Done))
      && (w'.calls[c] == Finished(Done) <==>
            found.None? || (found.value.userId == w.calls[c].caller && found.value.IsRevoked()))
      && (w'.calls[c] == Finished(NotOwned) <==> found.Some? && found.value.userId != w.calls[c].caller)
  {
  }

  /** A pair is reported as issued in the very step that stores it: the row then holds the new hash
      and the reported deadline. A new session is active from the instant the call read. */
  lemma IssuedIsStored(cfg: Config, w: World, c: CallId, ch: Choice, id: SessionId, h: Hash, deadline: Time)
    requires cfg.Valid() && Inv(cfg, w) && Enabled(w, Advance(c, ch))
    requires w.calls[c].Mint? || w.calls[c].RefreshRotate?
    requires Step(cfg, w, Advance(c, ch)).calls[c] == Finished(Issued(id, h, deadline))
    ensures var t := Step(cfg, w, Advance(c, ch)).rows;
      && id in t && t[id].hash == h && t[id].refreshExpiresAt == deadline
      && (w.calls[c].Mint? ==> t[id] == w.calls[c].row && !t[id].IsRevoked())
      && (w.calls[c].RefreshRotate? ==>
            id in w.rows && w.rows[id].hash == w.calls[c].prev && t[id].revokedAt == w.rows[id].revokedAt)
  {
    assert CallOk(cfg, w.hist, c, w.calls[c]);
  }
}

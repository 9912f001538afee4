/**
 What a call must have met before it issues a session, in every interleaving: a new session was
 inserted by a login or a password call that presented its credential for a user who was active then,
 and a refreshed pair by a call that found its session live and its user active. A refresh that met
 any other user ends the session.
 */
module SessionAuthority {
  import opened Prelude
  import opened SessionDomain
  import opened SessionStore
  import opened SessionProtocol
  import opened SessionInvariant
  import opened SessionTheorems
  import opened SessionEffects
  import opened SessionSurvivors
  import UserDomain

  lemma RequestsAreLeft(cfg: Config, t: Table, users: Users, call: Call, ch: Choice)
    requires !call.Finished?
    ensures !Exec(cfg, t, users, call, ch).1.IsRequest()
  {
  }

  lemma RequestIsNew(cfg: Config, w: World, a: Action, c: CallId)
    requires Enabled(w, a) && c in Step(cfg, w, a).calls && Step(cfg, w, a).calls[c].IsRequest()
    ensures a == Begin(c, Step(cfg, w, a).calls[c]) || (c in w.calls && w.calls[c] == Step(cfg, w, a).calls[c])
  {
    if a.Advance? { RequestsAreLeft(cfg, w.rows, w.users, w.calls[a.c], a.ch); }
  }

  /** A request that has not moved is as it was begun. */
  lemma {:induction false} BegunAs(cfg: Config, ws: seq<World>, acts: seq<Action>, k: nat, c: CallId) returns (b: nat)
    requires IsRun(cfg, ws, acts) && k < |ws| && c in ws[k].calls && ws[k].calls[c].IsRequest()
    ensures b < k && acts[b] == Begin(c, ws[k].calls[c])
  {
    assert StepAt(cfg, ws, acts, k - 1);
    RequestIsNew(cfg, ws[k-1], acts[k-1], c);
    if c in ws[k-1].calls && ws[k-1].calls[c] == ws[k].calls[c] {
      b := BegunAs(cfg, ws, acts, k - 1, c);
    } else {
      b := k - 1;
    }
  }

  // ----- new sessions ------------------------------------------------------------------------

  /** The step checks a login, a password change or a reset of this user, with the password or the code
      it takes, while the user is active. */
  ghost predicate PassesCheck(w: World, a: Action, user: UserId) {
    && a.Advance? && Enabled(w, a) && user in w.users && w.users[user] == UserDomain.Active
    && match w.calls[a.c]
       case Login(u, passwordMatches, _, _) => u == user && passwordMatches
       case ChangePassword(u, passwordMatches, _, _) => u == user && passwordMatches
       case ResetPassword(u, codeConsumed, _, _) => u == user && codeConsumed
       case _ => false
  }

  /** The step stores the new password. */
  ghost predicate StoresPassword(w: World, a: Action, user: UserId) {
    a.Advance? && Enabled(w, a) && w.calls[a.c].StorePassword? && w.calls[a.c].user == user && a.ch.passwordStored
  }

  /** Call c was begun at b with the request it had checked at i. */
  ghost predicate Authorised(ws: seq<World>, acts: seq<Action>, c: CallId, user: UserId, b: nat, i: nat)
    requires |acts| <= |ws|
  {
    && b < i < |acts| && acts[i].Advance? && acts[i].c == c && PassesCheck(ws[i], acts[i], user)
    && acts[b] == Begin(c, ws[i].calls[c])
  }

  lemma {:induction false} StoreWasAuthorised(cfg: Config, ws: seq<World>, acts: seq<Action>, k: nat, c: CallId)
    returns (b: nat, i: nat)
    requires IsRun(cfg, ws, acts) && k < |ws| && c in ws[k].calls && ws[k].calls[c].StorePassword?
    ensures i < k && Authorised(ws, acts, c, ws[k].calls[c].user, b, i) && !ws[i].calls[c].Login?
  {
    assert StepAt(cfg, ws, acts, k - 1);
    if c in ws[k-1].calls && ws[k-1].calls[c].StorePassword? {
      b, i := StoreWasAuthorised(cfg, ws, acts, k - 1, c);
    } else {
      i := k - 1;
      b := BegunAs(cfg, ws, acts, i, c);
    }
  }

  lemma {:induction false} RevocationWasAuthorised(cfg: Config, ws: seq<World>, acts: seq<Action>, k: nat, c: CallId)
    returns (b: nat, i: nat, p: nat)
    requires IsRun(cfg, ws, acts) && k < |ws| && c in ws[k].calls && ws[k].calls[c].RevokeBeforeMint?
    ensures i < p < k && Authorised(ws, acts, c, ws[k].calls[c].user, b, i) && !ws[i].calls[c].Login?
    ensures acts[p].Advance? && acts[p].c == c && StoresPassword(ws[p], acts[p], ws[k].calls[c].user)
  {
    assert StepAt(cfg, ws, acts, k - 1);
    if c in ws[k-1].calls && ws[k-1].calls[c].RevokeBeforeMint? {
      b, i, p := RevocationWasAuthorised(cfg, ws, acts, k - 1, c);
    } else {
      p := k - 1;
      b, i := StoreWasAuthorised(cfg, ws, acts, p, c);
    }
  }

  /** Call c stored the new password at p and revoked every session of the user at r. */
  ghost predicate Replaced(ws: seq<World>, acts: seq<Action>, c: CallId, user: UserId, p: nat, r: nat)
    requires |acts| <= |ws|
  {
    && p < r < |acts| && acts[p].Advance? && acts[p].c == c && StoresPassword(ws[p], acts[p], user)
    && acts[r].Advance? && acts[r].c == c && RevokesAll(ws[r], acts[r], user)
  }

  lemma {:induction false} MintWasAuthorised(cfg: Config, ws: seq<World>, acts: seq<Action>, k: nat, c: CallId)
    returns (b: nat, i: nat)
    requires IsRun(cfg, ws, acts) && k < |ws| && c in ws[k].calls && ws[k].calls[c].Mint?
    ensures i < k && Authorised(ws, acts, c, ws[k].calls[c].row.userId, b, i)
    ensures !ws[i].calls[c].Login? ==> exists p: nat, r: nat ::
      i < p && r < k && Replaced(ws, acts, c, ws[k].calls[c].row.userId, p, r)
  {
    assert StepAt(cfg, ws, acts, k - 1);
    if c in ws[k-1].calls && ws[k-1].calls[c].Mint? {
      b, i := MintWasAuthorised(cfg, ws, acts, k - 1, c);
    } else if c in ws[k-1].calls && ws[k-1].calls[c].Login? {
      i := k - 1;
      b := BegunAs(cfg, ws, acts, i, c);
    } else {
      var p;
      b, i, p := RevocationWasAuthorised(cfg, ws, acts, k - 1, c);
      assert Replaced(ws, acts, c, ws[k].calls[c].row.userId, p, k - 1);
    }
  }

  /** Every session was inserted by a call that had been begun as a login, a password change or a reset
      of its user and had passed the check of it; the two latter have stored the password and revoked
      all earlier sessions first. */
  lemma InsertWasAuthorised(cfg: Config, ws: seq<World>, acts: seq<Action>, m: nat, id: SessionId)
    requires IsRun(cfg, ws, acts) && m < |acts| && Inserts(ws[m], acts[m], id)
    ensures id in ws[m+1].rows
    ensures var c, user := acts[m].c, ws[m+1].rows[id].userId;
      exists b: nat, i: nat :: i < m && Authorised(ws, acts, c, user, b, i)
        && (!ws[i].calls[c].Login? ==> exists p: nat, r: nat :: i < p && r < m && Replaced(ws, acts, c, user, p, r))
  {
    assert StepAt(cfg, ws, acts, m);
    var b, i := MintWasAuthorised(cfg, ws, acts, m, acts[m].c);
  }

  // ----- refreshed pairs ---------------------------------------------------------------------

  /** The step finds the session of the presented hash live. */
  ghost predicate FindsLive(w: World, a: Action, id: SessionId) {
    && a.Advance? && Enabled(w, a) && w.calls[a.c].Refresh? && id in w.rows && w.rows[id].hash == w.calls[a.c].hash
    && w.rows[id].revokedAt.None? && w.calls[a.c].now < w.rows[id].expiresAt &&
         w.calls[a.c].now < w.rows[id].refreshExpiresAt
  }

  /** The step reads the owner of a refresh's session, who is active. */
  ghost predicate MeetsActive(w: World, a: Action, id: SessionId) {
    && a.Advance? && Enabled(w, a) && w.calls[a.c].RefreshUser? && w.calls[a.c].copy.id == id
    && w.calls[a.c].copy.userId in w.users && w.users[w.calls[a.c].copy.userId] == UserDomain.Active
  }

  lemma LookupFindsLive(cfg: Config, w: World, a: Action, c: CallId)
    requires Inv(cfg, w) && Enabled(w, a) && c in Step(cfg, w, a).calls && Step(cfg, w, a).calls[c].RefreshUser?
    ensures
      || (c in w.calls && w.calls[c] == Step(cfg, w, a).calls[c])
      || (a.Advance? && a.c == c && FindsLive(w, a, Step(cfg, w, a).calls[c].copy.id))
  {
    if a.Advance? && a.c == c && w.calls[c].Refresh? { FoundIsRow(cfg, w, w.calls[c].hash); }
  }

  lemma {:induction false} LoadedWasLive(cfg: Config, ws: seq<World>, acts: seq<Action>, k: nat, c: CallId)
    returns (j: nat)
    requires cfg.Valid() && IsRun(cfg, ws, acts) && k < |ws| && c in ws[k].calls && ws[k].calls[c].RefreshUser?
    ensures j < k && acts[j].Advance? && acts[j].c == c && FindsLive(ws[j], acts[j], ws[k].calls[c].copy.id)
  {
    assert StepAt(cfg, ws, acts, k - 1);
    InvRun(cfg, ws, acts, k - 1);
    LookupFindsLive(cfg, ws[k-1], acts[k-1], c);
    if c in ws[k-1].calls && ws[k-1].calls[c] == ws[k].calls[c] {
      j := LoadedWasLive(cfg, ws, acts, k - 1, c);
    } else {
      j := k - 1;
    }
  }

  /** A refresh that comes to its rotation has found the session live and, after that, its owner active. */
  lemma {:induction false} RotationWasAuthorised(cfg: Config, ws: seq<World>, acts: seq<Action>, k: nat, c: CallId)
    returns (j: nat, i: nat)
    requires cfg.Valid() && IsRun(cfg, ws, acts) && k < |ws| && c in ws[k].calls && ws[k].calls[c].RefreshRotate?
    ensures j < i < k && acts[j].Advance? && acts[j].c == c && FindsLive(ws[j], acts[j], ws[k].calls[c].copy.id)
    ensures acts[i].Advance? && acts[i].c == c && MeetsActive(ws[i], acts[i], ws[k].calls[c].copy.id)
  {
    assert StepAt(cfg, ws, acts, k - 1);
    if c in ws[k-1].calls && ws[k-1].calls[c].RefreshRotate? {
      j, i := RotationWasAuthorised(cfg, ws, acts, k - 1, c);
    } else {
      i := k - 1;
      j := LoadedWasLive(cfg, ws, acts, i, c);
    }
  }

  // ----- refused users -----------------------------------------------------------------------

  /** What a refresh answers for an owner who is not active. */
  function Refusal(users: Users, user: UserId): Outcome {
    if user in users && users[user] == UserDomain.Blocked then UserIsBlocked else InvalidToken
  }

  /** Call c is about to write the session back revoked, or has and answers x, or was cut off. */
  ghost predicate Ending(w: World, c: CallId, id: SessionId, x: Outcome) {
    && id in w.hist.seen && c in w.calls
    && match w.calls[c]
       case WriteBack(queue, onDone, onNoRow) => |queue| == 1 && queue[0].id == id && onDone == x && onNoRow == x
       case Finished(o) => o == Failed || (o == x && Dead(w, id))
       case _ => false
  }

  lemma EndingStep(cfg: Config, w: World, a: Action, c: CallId, id: SessionId, x: Outcome)
    requires cfg.Valid() && Inv(cfg, w) && Enabled(w, a) && Ending(w, c, id, x)
    ensures Ending(Step(cfg, w, a), c, id, x)
  {
    SeenStays(cfg, w, a);
    if a.Advance? && a.c == c {
      WriteBackRevokes(cfg, w, c, a.ch);
    } else if Dead(w, id) {
      DeadStep(cfg, w, a, id);
    }
  }

  lemma {:induction false} EndingRun(cfg: Config, ws: seq<World>, acts: seq<Action>, i: nat, k: nat, c: CallId,
                                     id: SessionId, x: Outcome)
    requires cfg.Valid() && IsRun(cfg, ws, acts) && i <= k < |ws| && Ending(ws[i], c, id, x)
    ensures Ending(ws[k], c, id, x)
  {
    if i < k {
      EndingRun(cfg, ws, acts, i, k - 1, c, id, x);
      InvRun(cfg, ws, acts, k - 1);
      assert StepAt(cfg, ws, acts, k - 1);
      EndingStep(cfg, ws[k-1], acts[k-1], c, id, x);
    }
  }

  /** A refresh whose read of the owner meets nobody, or a blocked or deleted user, never answers with a
      pair; when it answers, unless it was cut off, it refuses for that reason and its session is dead. */
  lemma RefusedUserGetsNothing(cfg: Config, ws: seq<World>, acts: seq<Action>, i: nat, k: nat, c: CallId)
    requires cfg.Valid() && IsRun(cfg, ws, acts) && i < |acts| && i < k < |ws|
    requires acts[i].Advance? && acts[i].c == c && c in ws[i].calls && ws[i].calls[c].RefreshUser?
    requires var user := ws[i].calls[c].copy.userId; user !in ws[i].users || ws[i].users[user] != UserDomain.Active
    ensures c in ws[k].calls
    ensures ws[k].calls[c].Finished? ==>
      var o := ws[k].calls[c].outcome;
      && !o.Issued?
      && (o != Failed ==>
            o == Refusal(ws[i].users, ws[i].calls[c].copy.userId) && Dead(ws[k], ws[i].calls[c].copy.id))
  {
    assert StepAt(cfg, ws, acts, i);
    InvRun(cfg, ws, acts, i);
    assert CallOk(cfg, ws[i].hist, c, ws[i].calls[c]);
    SeenStays(cfg, ws[i], acts[i]);
    EndingRun(cfg, ws, acts, i + 1, k, c, ws[i].calls[c].copy.id, Refusal(ws[i].users, ws[i].calls[c].copy.userId));
  }

  // ----- revocations -------------------------------------------------------------------------

  /** The lookup step of RevokeSession changes nothing; a session of somebody else is refused, and only
      that is. */
  lemma RevokeSessionNeedsOwner(cfg: Config, w: World, c: CallId, ch: Choice)
    requires Enabled(w, Advance(c, ch)) && w.calls[c].RevokeSession?
    ensures var id, caller := w.calls[c].id, w.calls[c].caller; var w' := Step(cfg, w, Advance(c, ch));
      && w'.rows == w.rows
      && (w'.calls[c] == Finished(NotFound) <==> id !in w.rows)
      && (w'.calls[c] == Finished(NotOwned) <==> id in w.rows && w.rows[id].userId != caller)
      && (w'.calls[c] == Finished(Done) <==> id in w.rows && w.rows[id].userId == caller && w.rows[id].IsRevoked())
      && (w'.calls[c].WriteBack? <==> id in w.rows && w.rows[id].userId == caller && !w.rows[id].IsRevoked())
  {
  }
}

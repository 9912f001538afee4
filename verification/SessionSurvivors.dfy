/**
 Which sessions of a user are left once all of them were revoked, by a password change or otherwise:
 those inserted since, and no other. A password change so leaves more than its own new session when a
 Login that was past its password check inserts afterwards.
 */
module SessionSurvivors {
  import opened Prelude
  import opened SessionDomain
  import opened SessionStore
  import opened SessionProtocol
  import opened SessionInvariant
  import opened SessionTheorems
  import opened SessionStaleWrite

  /** The step inserts the session. */
  ghost predicate Inserts(w: World, a: Action, id: SessionId) {
    && a.Advance? && Enabled(w, a) && w.calls[a.c].Mint? && w.calls[a.c].row.id == id
    && InsertRow(w.rows, w.calls[a.c].row, w.calls[a.c].row.userId in w.users).1.Written?
  }

  /** Nothing else brings a session into the table. */
  lemma EntersByInsert(cfg: Config, w: World, a: Action, id: SessionId)
    requires Enabled(w, a) && id !in w.rows
    ensures id in Step(cfg, w, a).rows <==> Inserts(w, a, id)
  {
  }

  lemma {:induction false} InsertedSince(cfg: Config, ws: seq<World>, acts: seq<Action>, i: nat, k: nat, id: SessionId)
    returns (m: nat)
    requires IsRun(cfg, ws, acts) && i <= k < |ws| && id !in ws[i].rows && id in ws[k].rows
    ensures i <= m < k && Inserts(ws[m], acts[m], id)
  {
    assert StepAt(cfg, ws, acts, k - 1);
    if id in ws[k-1].rows {
      m := InsertedSince(cfg, ws, acts, i, k - 1, id);
    } else {
      m := k - 1;
      EntersByInsert(cfg, ws[m], acts[m], id);
    }
  }

  /** After all sessions of a user were revoked at step i: an unrevoked session of the user was inserted
      by a later step. */
  lemma SurvivorsAreLater(cfg: Config, ws: seq<World>, acts: seq<Action>, i: nat, k: nat, user: UserId, id: SessionId)
    requires cfg.Valid() && IsRun(cfg, ws, acts) && i < |acts| && i < k < |ws|
    requires RevokesAll(ws[i], acts[i], user)
    requires id in ws[k].rows && ws[k].rows[id].userId == user && !ws[k].rows[id].IsRevoked()
    ensures exists m :: i < m < k && Inserts(ws[m], acts[m], id)
  {
    if id in ws[i].rows {
      IdentityIsFixed(cfg, ws, acts, i, k, id);
      assert StepAt(cfg, ws, acts, i);
      RevocationIsFinal(cfg, ws, acts, i + 1, k, id, 0);
      assert false;
    }
    var m := InsertedSince(cfg, ws, acts, i, k, id);
    assert m != i;
  }

  // ----- a login that outlives a password change ---------------------------------------------

  ghost predicate IsFresh(w: World, ch: Choice) { ch.hash !in w.hist.minted && ch.id !in w.hist.born }

  /** Call c has moved to the insert of a new session; the rows are `rows`. */
  ghost predicate Minting(cfg: Config, w: World, w': World, c: CallId, user: UserId, now: Time, device: Device,
                          ch: Choice, rows: Table) {
    var row := cfg.NewSession(ch.id, user, ch.hash, device.userAgent, device.ipAddress, now);
    && w'.rows == rows && w'.users == w.users && w'.calls == w.calls[c := Mint(row)]
    && w'.hist.minted.Keys == w.hist.minted.Keys + {ch.hash} && w'.hist.born.Keys == w.hist.born.Keys + {ch.id}
  }

  /** A Login past its password check. */
  lemma LoginToMint(cfg: Config, ws: seq<World>, acts: seq<Action>, user: UserId, now: Time, device: Device, x: CallId,
                    ch: Choice)
    returns (ws': seq<World>, acts': seq<Action>)
    requires IsRun(cfg, ws, acts) && x !in Last(ws).calls && IsFresh(Last(ws), ch)
    requires user in Last(ws).users && Last(ws).users[user].Active?
    ensures IsRun(cfg, ws', acts') && ws <= ws' && acts <= acts'
    ensures Minting(cfg, Last(ws), Last(ws'), x, user, now, device, ch, Last(ws).rows)
  {
    var w := Last(ws);
    var a, b := Begin(x, Login(user, true, now, device)), Advance(x, ch);
    var w1 := Step(cfg, w, a);
    Extend(cfg, ws, acts, a);
    var w2 := Step(cfg, w1, b);
    Extend(cfg, ws + [w1], acts + [a], b);
    ws', acts' := ws + [w1] + [w2], acts + [a] + [b];
  }

  /** A ChangePassword up to its StorePassword step and that step: the password is stored. */
  lemma ChangeToRevoke(cfg: Config, ws: seq<World>, acts: seq<Action>, user: UserId, now: Time, device: Device,
                       y: CallId, ch: Choice)
    returns (ws': seq<World>, acts': seq<Action>)
    requires IsRun(cfg, ws, acts) && y !in Last(ws).calls && IsFresh(Last(ws), ch) && ch.passwordStored
    requires user in Last(ws).users && Last(ws).users[user].Active?
    ensures IsRun(cfg, ws', acts') && |ws'| == |ws| + 3 && ws <= ws' && acts <= acts'
    ensures acts'[|acts|] == Begin(y, ChangePassword(user, true, now, device))
    ensures Last(ws') == Last(ws).(calls := Last(ws).calls[y := RevokeBeforeMint(user, now, device)])
  {
    var w := Last(ws);
    var a, b := Begin(y, ChangePassword(user, true, now, device)), Advance(y, ch);
    var w1 := w.(calls := w.calls[y := a.request]);
    var w2 := w.(calls := w.calls[y := StorePassword(user, now, device)]);
    var w3 := w.(calls := w.calls[y := RevokeBeforeMint(user, now, device)]);
    assert w2 == Step(cfg, w1, b) && w3 == Step(cfg, w2, b);
    ExtendThrice(cfg, ws, acts, a, b, b, w1, w2, w3);
    ws', acts' := ws + [w1, w2, w3], acts + [a, b, b];
  }

  /** The revocation of every session, and the new one made. */
  lemma RevokeToMint(cfg: Config, ws: seq<World>, acts: seq<Action>, y: CallId, ch: Choice)
    returns (ws': seq<World>, acts': seq<Action>)
    requires IsRun(cfg, ws, acts) && y in Last(ws).calls && Last(ws).calls[y].RevokeBeforeMint? && IsFresh(Last(ws), ch)
    ensures IsRun(cfg, ws', acts') && ws <= ws' && acts' == acts + [Advance(y, ch)]
    ensures var call := Last(ws).calls[y];
      && RevokesAll(Last(ws), Advance(y, ch), call.user)
      && Minting(cfg, Last(ws), Last(ws'), y, call.user, call.now, call.device, ch,
           RevokeAllRows(Last(ws).rows, call.user, call.now))
  {
    var w1 := Step(cfg, Last(ws), Advance(y, ch));
    Extend(cfg, ws, acts, Advance(y, ch));
    ws', acts' := ws + [w1], acts + [Advance(y, ch)];
  }

  /** A pending insert for a user who is there goes through in every reachable state. */
  lemma InsertPending(cfg: Config, ws: seq<World>, acts: seq<Action>, c: CallId, ch: Choice)
    returns (ws': seq<World>, acts': seq<Action>)
    requires cfg.Valid() && IsRun(cfg, ws, acts) && c in Last(ws).calls && Last(ws).calls[c].Mint?
    requires IsFresh(Last(ws), ch)
    requires Last(ws).calls[c].row.userId in Last(ws).users
    ensures IsRun(cfg, ws', acts') && ws <= ws' && acts <= acts'
    ensures var w, w' := Last(ws), Last(ws'); var row := w.calls[c].row;
      && w'.rows == w.rows[row.id := row] && row.id !in w.rows && w'.users == w.users
      && w'.calls == w.calls[c := Finished(Issued(row.id, row.hash, row.refreshExpiresAt))]
      && w'.hist.minted == w.hist.minted && w'.hist.born == w.hist.born
  {
    var w := Last(ws);
    InvRun(cfg, ws, acts, |ws| - 1);
    var row := w.calls[c].row;
    assert CallOk(cfg, w.hist, c, w.calls[c]);
    forall id | id in w.rows ensures id != row.id && w.rows[id].hash != row.hash {
      assert RowOk(cfg, w.hist, id, w.rows[id]);
    }
    var w1 := Step(cfg, w, Advance(c, ch));
    Extend(cfg, ws, acts, Advance(c, ch));
    ws', acts' := ws + [w1], acts + [Advance(c, ch)];
  }

  ghost predicate BothMint(w: World, user: UserId, now: Time, x: CallId, y: CallId) {
    && x in w.calls && y in w.calls && w.calls[x].Mint? && w.calls[y].Mint? && user in w.users
    && var r, s := w.calls[x].row, w.calls[y].row;
       r.id != s.id && r.userId == user == s.userId && r.IsActive(now) && s.IsActive(now)
  }

  /** The Login past its check, and then the password change up to its insert. */
  lemma ToBothMint(cfg: Config, ws: seq<World>, acts: seq<Action>, user: UserId, now: Time, device: Device,
                   x: CallId, y: CallId, ch: Choice, ch': Choice)
    returns (ws': seq<World>, acts': seq<Action>)
    requires cfg.Valid() && IsRun(cfg, ws, acts) && user in Last(ws).users && Last(ws).users[user].Active?
    requires x != y && x !in Last(ws).calls && y !in Last(ws).calls
    requires IsFresh(Last(ws), ch) && IsFresh(Last(ws), ch') && ch.hash != ch'.hash && ch.id != ch'.id
    requires ch'.passwordStored
    ensures IsRun(cfg, ws', acts') && ws <= ws' && acts <= acts' && BothMint(Last(ws'), user, now, x, y)
    ensures Last(ws').hist.minted.Keys == Last(ws).hist.minted.Keys + {ch.hash, ch'.hash}
    ensures Last(ws').hist.born.Keys == Last(ws).hist.born.Keys + {ch.id, ch'.id}
    ensures exists m :: |acts| <= m < |acts'| && acts'[m] == Begin(y, ChangePassword(user, true, now, device))
  {
    var v1, a1 := LoginToMint(cfg, ws, acts, user, now, device, x, ch);
    var v2, a2 := ChangeToRevoke(cfg, v1, a1, user, now, device, y, ch');
    ws', acts' := RevokeToMint(cfg, v2, a2, y, ch');
    assert acts'[|a1|] == a2[|a1|];
  }

  /** The password change `y` and the login `x` have both answered with a pair, the password was changed
      from step `lo` on, and both sessions are active. */
  ghost predicate BothLeft(ws: seq<World>, acts: seq<Action>, lo: nat, user: UserId, now: Time, x: CallId, y: CallId)
    requires |acts| < |ws|
  {
    var w := Last(ws);
    && (exists m :: lo <= m < |acts| && acts[m].Begin? && acts[m].c == y && acts[m].request.ChangePassword?)
    && x in w.calls && w.calls[x].Finished? && w.calls[x].outcome.Issued?
    && y in w.calls && w.calls[y].Finished? && w.calls[y].outcome.Issued?
    && var i, j := w.calls[x].outcome.session, w.calls[y].outcome.session;
       && i != j && i in w.rows && j in w.rows && w.rows[i].userId == user && w.rows[j].userId == user
       && w.rows[i].IsActive(now) && w.rows[j].IsActive(now)
  }

  /** In any run that reaches an active user, a Login that has checked the old password can insert its
      session after a complete password change: two sessions are active, not one. */
  lemma LoginCanOutlivePasswordChange(cfg: Config, ws: seq<World>, acts: seq<Action>, user: UserId, now: Time,
                                      device: Device, x: CallId, y: CallId, gen: seq<Choice>)
    requires cfg.Valid() && IsRun(cfg, ws, acts) && user in Last(ws).users && Last(ws).users[user].Active?
    requires x != y && x !in Last(ws).calls && y !in Last(ws).calls
    requires |gen| == 3 && (forall k :: 0 <= k < 3 ==> IsFresh(Last(ws), gen[k])) && gen[1].passwordStored
    requires forall j, k :: 0 <= j < k < 3 ==> gen[j].hash != gen[k].hash && gen[j].id != gen[k].id
    ensures exists ws', acts' :: IsRun(cfg, ws', acts') && ws <= ws' && BothLeft(ws', acts', |acts|, user, now, x, y)
  {
    var v1, a1 := ToBothMint(cfg, ws, acts, user, now, device, x, y, gen[0], gen[1]);
    var m :| |acts| <= m < |a1| && a1[m] == Begin(y, ChangePassword(user, true, now, device));
    var v2, a2 := InsertPending(cfg, v1, a1, y, gen[2]);
    var v3, a3 := InsertPending(cfg, v2, a2, x, gen[2]);
    assert a3[m] == a1[m];
    assert BothLeft(v3, a3, |acts|, user, now, x, y);
  }
}

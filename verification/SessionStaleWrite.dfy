/**
 What the session protocol does not give. From every reachable state with a live session there is a
 continuation in which one hash wins Rotate twice, so single use is only claimed for unrevoked
 sessions, and one in which RevokeToken answers Done and the session lives on.
 */
module SessionStaleWrite {
  import opened Prelude
  import opened SessionDomain
  import opened SessionStore
  import opened SessionProtocol
  import opened SessionInvariant
  import opened SessionTheorems

  lemma Extend(cfg: Config, ws: seq<World>, acts: seq<Action>, a: Action)
    requires IsRun(cfg, ws, acts) && Enabled(Last(ws), a)
    ensures IsRun(cfg, ws + [Step(cfg, Last(ws), a)], acts + [a])
  {
    var ws', acts' := ws + [Step(cfg, Last(ws), a)], acts + [a];
    forall i | 0 <= i < |acts'| ensures StepAt(cfg, ws', acts', i) {
      if i < |acts| { assert StepAt(cfg, ws, acts, i); }
    }
  }

  lemma ExtendThrice(cfg: Config, ws: seq<World>, acts: seq<Action>, a: Action, b: Action, c: Action,
                     w1: World, w2: World, w3: World)
    requires IsRun(cfg, ws, acts)
    requires Enabled(Last(ws), a) && w1 == Step(cfg, Last(ws), a)
    requires Enabled(w1, b) && w2 == Step(cfg, w1, b)
    requires Enabled(w2, c) && w3 == Step(cfg, w2, c)
    ensures IsRun(cfg, ws + [w1, w2, w3], acts + [a, b, c])
  {
    Extend(cfg, ws, acts, a);
    Extend(cfg, ws + [w1], acts + [a], b);
    Extend(cfg, ws + [w1] + [w2], acts + [a] + [b], c);
    assert ws + [w1] + [w2] + [w3] == ws + [w1, w2, w3] && acts + [a] + [b] + [c] == acts + [a, b, c];
  }

  /** Two refreshes with the session's hash and a Logout of it have all read the row. */
  ghost predicate Poised(w: World, id: SessionId, now: Time, x: CallId, y: CallId, z: CallId) {
    && id in w.rows && !w.rows[id].IsRevoked() && x in w.calls && y in w.calls && z in w.calls
    && w.calls[x].RefreshRotate? && w.calls[x].copy.id == id && w.calls[x].prev == w.rows[id].hash
    && w.calls[y].RefreshRotate? && w.calls[y].copy.id == id && w.calls[y].prev == w.rows[id].hash
    && w.calls[z] == WriteBack([w.rows[id].Revoke(now)], Done, Failed)
  }

  /** A live session of an active user. */
  ghost predicate Live(w: World, id: SessionId, now: Time) {
    id in w.rows && w.rows[id].IsActive(now) && w.rows[id].userId in w.users && w.users[w.rows[id].userId].Active?
  }

  lemma FindsLive(cfg: Config, w: World, id: SessionId)
    requires Inv(cfg, w) && id in w.rows
    ensures FindByHash(w.rows, w.rows[id].hash) == Some(w.rows[id])
  {
    forall i | i in w.rows && w.rows[i].hash == w.rows[id].hash ensures i == id {
      assert RowOk(cfg, w.hist, i, w.rows[i]) && RowOk(cfg, w.hist, id, w.rows[id]);
    }
  }

  /** The three steps of a refresh up to its rotation: begin, find the session, read the user. */
  lemma LoadSteps(cfg: Config, w: World, id: SessionId, now: Time, x: CallId, ch: Choice)
    returns (w1: World, w2: World, w3: World)
    requires cfg.Valid() && Inv(cfg, w) && Live(w, id, now) && x !in w.calls
    requires ch.hash !in w.hist.minted && ch.id !in w.hist.born
    ensures w.rows[id].id == id
    ensures var begin := Begin(x, Refresh(w.rows[id].hash, now));
      && Enabled(w, begin) && w1 == Step(cfg, w, begin)
      && Enabled(w1, Advance(x, ch)) && w2 == Step(cfg, w1, Advance(x, ch))
      && Enabled(w2, Advance(x, ch)) && w3 == Step(cfg, w2, Advance(x, ch))
    ensures var copy := w.rows[id].Rotate(ch.hash, now, cfg.SlideWindow(w.rows[id], now));
      w3 == w.(calls := w.calls[x := RefreshRotate(copy, w.rows[id].hash, now)],
               hist := w.hist.(minted := w.hist.minted[ch.hash := Origin(id, x)]))
  {
    FindsLive(cfg, w, id);
    assert RowOk(cfg, w.hist, id, w.rows[id]);
    w1 := Step(cfg, w, Begin(x, Refresh(w.rows[id].hash, now)));
    w2 := Step(cfg, w1, Advance(x, ch));
    assert w2 == w1.(calls := w1.calls[x := RefreshUser(w.rows[id], w.rows[id].hash, now)]);
    w3 := Step(cfg, w2, Advance(x, ch));
    assert w3.calls == w.calls[x := w3.calls[x]];
  }

  /** A refresh that starts on a live session and loads session and user is about to rotate; it has
      changed nothing but the list of generated hashes. */
  lemma LoadForRotation(cfg: Config, ws: seq<World>, acts: seq<Action>, id: SessionId, now: Time, x: CallId, ch: Choice)
    returns (ws': seq<World>, acts': seq<Action>)
    requires cfg.Valid() && IsRun(cfg, ws, acts) && Live(Last(ws), id, now) && x !in Last(ws).calls
    requires ch.hash !in Last(ws).hist.minted && ch.id !in Last(ws).hist.born
    ensures IsRun(cfg, ws', acts') && |ws'| == |ws| + 3 && ws <= ws' && acts <= acts'
    ensures var w, w' := Last(ws), Last(ws');
      && x in w'.calls && w'.calls == w.calls[x := w'.calls[x]]
      && w'.rows == w.rows && w'.users == w.users
      && w'.calls[x] ==
           RefreshRotate(w.rows[id].Rotate(ch.hash, now, cfg.SlideWindow(w.rows[id], now)), w.rows[id].hash, now)
      && w.rows[id].id == id
      && w'.hist.minted.Keys == w.hist.minted.Keys + {ch.hash} && w'.hist.born == w.hist.born
  {
    InvRun(cfg, ws, acts, |ws| - 1);
    var w1, w2, w3 := LoadSteps(cfg, Last(ws), id, now, x, ch);
    var a, b := Begin(x, Refresh(Last(ws).rows[id].hash, now)), Advance(x, ch);
    ExtendThrice(cfg, ws, acts, a, b, b, w1, w2, w3);
    ws', acts' := ws + [w1, w2, w3], acts + [a, b, b];
  }

  /** A Logout that starts on a live session and loads it is about to write it back, revoked. */
  lemma LoadForLogout(cfg: Config, ws: seq<World>, acts: seq<Action>, id: SessionId, now: Time, z: CallId, ch: Choice)
    returns (ws': seq<World>, acts': seq<Action>)
    requires cfg.Valid() && IsRun(cfg, ws, acts) && Live(Last(ws), id, now) && z !in Last(ws).calls
    requires ch.hash !in Last(ws).hist.minted && ch.id !in Last(ws).hist.born
    ensures IsRun(cfg, ws', acts') && |ws'| == |ws| + 2 && ws <= ws' && acts <= acts'
    ensures var w, w' := Last(ws), Last(ws');
      w' == w.(calls := w.calls[z := WriteBack([w.rows[id].Revoke(now)], Done, Failed)])
  {
    var w := Last(ws);
    var a, b := Begin(z, Logout(id, now)), Advance(z, ch);
    var w1 := Step(cfg, w, a);
    Extend(cfg, ws, acts, a);
    var w2 := Step(cfg, w1, b);
    Extend(cfg, ws + [w1], acts + [a], b);
    ws', acts' := ws + [w1] + [w2], acts + [a] + [b];
  }

  /** Two steps from `lo` on rotate h away. */
  ghost predicate WinsTwice(ws: seq<World>, acts: seq<Action>, lo: nat, h: Hash)
    requires |acts| <= |ws|
  {
    exists i, j :: lo <= i < j < |acts| && Wins(ws[i], acts[i], h) && Wins(ws[j], acts[j], h)
  }

  /** With the three calls poised, the Logout's write between the two rotations lets both win. */
  lemma ThreeWrites(cfg: Config, w: World, id: SessionId, now: Time, x: CallId, y: CallId, z: CallId, ch: Choice)
    returns (w1: World, w2: World)
    requires cfg.Valid() && Inv(cfg, w) && Poised(w, id, now, x, y, z) && x != y
    requires ch.hash !in w.hist.minted && ch.id !in w.hist.born
    ensures Wins(w, Advance(x, ch), w.rows[id].hash) && w1 == Step(cfg, w, Advance(x, ch))
    ensures Enabled(w1, Advance(z, ch)) && w2 == Step(cfg, w1, Advance(z, ch))
    ensures Wins(w2, Advance(y, ch), w.rows[id].hash)
  {
    w1 := Step(cfg, w, Advance(x, ch));
    assert Enabled(w1, Advance(z, ch)) by {
      MatchingRotateWins(cfg, w, x, ch);
      assert w1.calls[z] == w.calls[z];
    }
    w2 := Step(cfg, w1, Advance(z, ch));
    StaleWriteLetsAHashWinTwice(cfg, w, w1, w2, x, y, z, ch, id, now);
  }

  lemma AppendWins(cfg: Config, ws: seq<World>, acts: seq<Action>, a: Action, l: Action, b: Action,
                   w1: World, w2: World, h: Hash)
    returns (ws': seq<World>, acts': seq<Action>)
    requires IsRun(cfg, ws, acts)
    requires Wins(Last(ws), a, h) && w1 == Step(cfg, Last(ws), a)
    requires Enabled(w1, l) && w2 == Step(cfg, w1, l) && Wins(w2, b, h)
    ensures IsRun(cfg, ws', acts') && ws <= ws' && acts <= acts' && WinsTwice(ws', acts', |acts|, h)
  {
    var n := |acts|;
    var w3 := Step(cfg, w2, b);
    ExtendThrice(cfg, ws, acts, a, l, b, w1, w2, w3);
    ws', acts' := ws + [w1, w2, w3], acts + [a, l, b];
    assert ws'[n] == Last(ws) && acts'[n] == a && ws'[n+2] == w2 && acts'[n+2] == b;
  }

  lemma BothWin(cfg: Config, ws: seq<World>, acts: seq<Action>, id: SessionId, now: Time, x: CallId, y: CallId,
                z: CallId, ch: Choice)
    returns (ws': seq<World>, acts': seq<Action>)
    requires cfg.Valid() && IsRun(cfg, ws, acts) && Poised(Last(ws), id, now, x, y, z) && x != y
    requires ch.hash !in Last(ws).hist.minted && ch.id !in Last(ws).hist.born
    ensures IsRun(cfg, ws', acts') && ws <= ws' && acts <= acts'
    ensures WinsTwice(ws', acts', |acts|, Last(ws).rows[id].hash)
  {
    InvRun(cfg, ws, acts, |ws| - 1);
    var w1, w2 := ThreeWrites(cfg, Last(ws), id, now, x, y, z, ch);
    ws', acts' := AppendWins(cfg, ws, acts, Advance(x, ch), Advance(z, ch), Advance(y, ch), w1, w2,
      Last(ws).rows[id].hash);
  }

  /** In any run that reaches a live session, its refresh hash can still win twice: the run goes on
      with two refreshes and a Logout by the owner. */
  lemma AnyLiveHashCanWinTwice(cfg: Config, ws: seq<World>, acts: seq<Action>, id: SessionId, now: Time,
                               x: CallId, y: CallId, z: CallId, gen: seq<Choice>)
    requires cfg.Valid() && IsRun(cfg, ws, acts) && Live(Last(ws), id, now)
    requires x != y && y != z && z != x && {x, y, z} !! Last(ws).calls.Keys
    requires |gen| == 3 && gen[0].hash != gen[1].hash && gen[1].hash != gen[2].hash && gen[2].hash != gen[0].hash
    requires forall k :: 0 <= k < 3 ==> gen[k].hash !in Last(ws).hist.minted && gen[k].id !in Last(ws).hist.born
    ensures exists ws', acts' ::
      IsRun(cfg, ws', acts') && ws <= ws' && WinsTwice(ws', acts', |acts|, Last(ws).rows[id].hash)
  {
    var v1, a1 := LoadForRotation(cfg, ws, acts, id, now, x, gen[0]);
    var v2, a2 := LoadForRotation(cfg, v1, a1, id, now, y, gen[1]);
    var v3, a3 := LoadForLogout(cfg, v2, a2, id, now, z, gen[2]);
    var v4, a4 := BothWin(cfg, v3, a3, id, now, x, y, z, gen[2]);
    assert WinsTwice(v4, a4, |acts|, Last(ws).rows[id].hash);
  }

  // ----- a token revoked too late ------------------------------------------------------------

  /** After a won rotation no row holds the hash that was rotated away. */
  lemma RotatedAwayIsUnknown(cfg: Config, w: World, id: SessionId, x: CallId, ch: Choice)
    returns (w': World)
    requires cfg.Valid() && Inv(cfg, w) && id in w.rows && x in w.calls && w.calls[x].RefreshRotate?
    requires w.calls[x].copy.id == id && w.calls[x].prev == w.rows[id].hash && w.calls[x].copy.hash != w.rows[id].hash
    requires ch.hash !in w.hist.minted && ch.id !in w.hist.born
    ensures Enabled(w, Advance(x, ch)) && w' == Step(cfg, w, Advance(x, ch))
    ensures FindByHash(w'.rows, w.rows[id].hash).None?
    ensures id in w'.rows
    ensures w'.rows[id] ==
      w.rows[id].Rotate(w.calls[x].copy.hash, w.calls[x].copy.lastSeenAt, w.calls[x].copy.refreshExpiresAt)
    ensures w'.users == w.users && w'.calls.Keys == w.calls.Keys && w'.hist.minted == w.hist.minted
    ensures w'.hist.born == w.hist.born
  {
    w' := Step(cfg, w, Advance(x, ch));
    MatchingRotateWins(cfg, w, x, ch);
    forall i | i in w'.rows ensures w'.rows[i].hash != w.rows[id].hash {
      if i != id {
        assert RowOk(cfg, w.hist, i, w.rows[i]) && RowOk(cfg, w.hist, id, w.rows[id]);
      }
    }
  }

  /** A refresh of a live session, from its beginning to its stored rotation. */
  lemma RefreshAlone(cfg: Config, ws: seq<World>, acts: seq<Action>, id: SessionId, now: Time, x: CallId,
                     chx: Choice, ch: Choice)
    returns (ws': seq<World>, acts': seq<Action>)
    requires cfg.Valid() && IsRun(cfg, ws, acts) && Live(Last(ws), id, now) && x !in Last(ws).calls
    requires chx.hash !in Last(ws).hist.minted && chx.id !in Last(ws).hist.born
    requires ch.hash !in Last(ws).hist.minted && ch.id !in Last(ws).hist.born && ch.hash != chx.hash
    ensures IsRun(cfg, ws', acts') && ws <= ws' && acts <= acts'
    ensures Live(Last(ws'), id, now) && FindByHash(Last(ws').rows, Last(ws).rows[id].hash).None?
    ensures Last(ws').calls.Keys == Last(ws).calls.Keys + {x}
    ensures Last(ws').hist.minted.Keys == Last(ws).hist.minted.Keys + {chx.hash}
    ensures Last(ws').hist.born == Last(ws).hist.born
  {
    var v, b := LoadForRotation(cfg, ws, acts, id, now, x, chx);
    InvRun(cfg, ws, acts, |ws| - 1);
    assert RowOk(cfg, Last(ws).hist, id, Last(ws).rows[id]);
    InvRun(cfg, v, b, |v| - 1);
    var w' := RotatedAwayIsUnknown(cfg, Last(v), id, x, ch);
    Extend(cfg, v, b, Advance(x, ch));
    ws', acts' := v + [w'], b + [Advance(x, ch)];
  }

  /** Call `z` was a RevokeToken with hash h by the session's own user, has answered Done, and the
      session it was meant for is live. */
  ghost predicate MissedByRevokeToken(ws: seq<World>, acts: seq<Action>, lo: nat, id: SessionId, h: Hash, now: Time,
                                      z: CallId)
    requires |acts| < |ws|
  {
    && (exists m :: lo <= m < |acts| && acts[m].Begin? && acts[m].c == z && acts[m].request.RevokeToken?
                    && acts[m].request.hash == h && id in ws[m].rows && acts[m].request.caller == ws[m].rows[id].userId)
    && Live(Last(ws), id, now)
    && z in Last(ws).calls && Last(ws).calls[z] == Finished(Done)
  }

  /** In any run that reaches a live session, revoking its current token can come too late: the run
      goes on with a refresh and then a RevokeToken with the token the refresh has replaced, which
      answers Done and leaves the session live. */
  lemma RevokeTokenCanMissItsSession(cfg: Config, ws: seq<World>, acts: seq<Action>, id: SessionId, now: Time,
                                     x: CallId, z: CallId, gen: seq<Choice>)
    requires cfg.Valid() && IsRun(cfg, ws, acts) && Live(Last(ws), id, now)
    requires x != z && x !in Last(ws).calls && z !in Last(ws).calls
    requires |gen| == 2 && gen[0].hash != gen[1].hash
    requires forall k :: 0 <= k < 2 ==> gen[k].hash !in Last(ws).hist.minted && gen[k].id !in Last(ws).hist.born
    ensures exists ws', acts' ::
      IsRun(cfg, ws', acts') && ws <= ws'
      && MissedByRevokeToken(ws', acts', |acts|, id, Last(ws).rows[id].hash, now, z)
  {
    var h := Last(ws).rows[id].hash;
    var v1, a1 := RefreshAlone(cfg, ws, acts, id, now, x, gen[0], gen[1]);
    var w := Last(v1);
    var a, b := Begin(z, RevokeToken(h, w.rows[id].userId, now)), Advance(z, gen[1]);
    var w1 := Step(cfg, w, a);
    Extend(cfg, v1, a1, a);
    var w2 := Step(cfg, w1, b);
    Extend(cfg, v1 + [w1], a1 + [a], b);
    var v2, a2 := v1 + [w1] + [w2], a1 + [a] + [b];
    assert a2[|a1|] == a && v2[|a1|] == w && Last(v2) == w2;
    assert w2 == w1.(calls := w1.calls[z := Finished(Done)]);
    assert MissedByRevokeToken(v2, a2, |acts|, id, h, now, z);
  }
}

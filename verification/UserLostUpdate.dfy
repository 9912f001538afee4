/**
 Why unconditional writers must find what they loaded: from every reachable state with an active user
 there is a run in which an update with the current etag is committed and then undone by a Disable
 that had loaded the row before it.
 */
module UserLostUpdate {
  import opened Prelude
  import opened UserDomain
  import opened UserStore
  import opened UserProtocol
  import opened UserSerial

  lemma Extend(ws: seq<World>, acts: seq<Action>, a: Action)
    requires IsRun(ws, acts) && Enabled(Last(ws), a)
    ensures IsRun(ws + [Step(Last(ws), a)], acts + [a])
  {
    var ws', acts' := ws + [Step(Last(ws), a)], acts + [a];
    forall i | 0 <= i < |acts'| ensures StepAt(ws', acts', i) {
      if i < |acts| { assert StepAt(ws, acts, i); }
    }
  }

  /** Any request on a user that is there, begun and loaded; nothing else has moved. */
  lemma BeginAndLoad(ws: seq<World>, acts: seq<Action>, c: CallId, request: Request, ch: Choice)
    returns (ws': seq<World>, acts': seq<Action>)
    requires IsRun(ws, acts) && c !in Last(ws).calls && !request.CreateUser? && request.id in Last(ws).rows
    requires ch.etag !in Last(ws).hist.names && ch.id !in Last(ws).hist.born
    ensures IsRun(ws', acts') && ws <= ws' && acts <= acts'
    ensures var w, w' := Last(ws), Last(ws');
      && w'.rows == w.rows
      && w'.calls == w.calls[c := Call(request, AfterLoad(w.rows[request.id], request, ch))]
      && w'.hist.born == w.hist.born && w'.hist.shown == w.hist.shown
      && w'.hist.names.Keys <= w.hist.names.Keys + {ch.etag}
  {
    var w := Last(ws);
    InvRun(ws, acts, |ws| - 1);
    var w1 := Step(w, Begin(c, request));
    Extend(ws, acts, Begin(c, request));
    var w2 := Step(w1, Advance(c, ch));
    Extend(ws + [w1], acts + [Begin(c, request)], Advance(c, ch));
    LoadedCopy(w.rows[request.id], request, ch);
    ws', acts' := ws + [w1] + [w2], acts + [Begin(c, request)] + [Advance(c, ch)];
  }

  /** Both calls have loaded the row as it is: the update is ready to save under its etag, the Disable
      without one. */
  ghost predicate Poised(w: World, id: UserId, l: CallId, u: CallId, patch: Patch) {
    && id in w.rows && l in w.calls && u in w.calls && l != u
    && w.calls[l].stage.Save? && w.calls[l].stage.loaded == w.rows[id] && w.calls[l].stage.expected.None?
    && w.calls[l].stage.copy.id == id && w.calls[l].stage.copy.profile == w.rows[id].profile
    && w.calls[u].stage.Save? && w.calls[u].stage.loaded == w.rows[id]
    && w.calls[u].stage.expected == Some(w.rows[id].etag)
    && w.calls[u].stage.copy.id == id && w.calls[u].stage.copy.profile == patch.On(w.rows[id].profile)
  }

  /** With both poised, the update commits and the Disable then puts the old profile back. */
  lemma BothCommit(w: World, l: CallId, u: CallId, ch: Choice, id: UserId, patch: Patch)
    returns (w1: World, w2: World)
    requires Inv(w) && Consistent(w.rows) && Poised(w, id, l, u, patch)
    requires ch.etag !in w.hist.names && ch.id !in w.hist.born
    requires !NameTaken(w.rows, w.calls[u].stage.copy)
    ensures Enabled(w, Advance(u, ch)) && w1 == Step(w, Advance(u, ch))
    ensures w1.calls[u].stage == Finished(NoError) && id in w1.rows
    ensures w1.rows[id].profile == patch.On(w.rows[id].profile)
    ensures Enabled(w1, Advance(l, ch)) && w2 == Step(w1, Advance(l, ch))
    ensures w2.calls[l].stage == Finished(NoError) && id in w2.rows && w2.rows[id].profile == w.rows[id].profile
  {
    assert w.rows[id].id == id;
    w1 := Step(w, Advance(u, ch));
    assert w1.rows == w.rows[id := w1.rows[id]];
    assert !NameTaken(w1.rows, w.calls[l].stage.copy);
    w2 := Step(w1, Advance(l, ch));
  }

  /** At some step from `lo` on an update of the user's profile to `p` is answered with success, and in
      the end the profile is `q` again although nobody asked for that. */
  ghost predicate Undone(ws: seq<World>, acts: seq<Action>, lo: nat, id: UserId, p: Profile, q: Profile)
    requires |acts| < |ws|
  {
    && (exists m :: lo <= m < |acts| && CommitsRow(ws[m], acts[m], id) && ws[m].calls[acts[m].c].request.UpdateUser?
                    && id in ws[m+1].rows && ws[m+1].rows[id].profile == p)
    && id in Last(ws).rows && Last(ws).rows[id].profile == q
  }

  lemma AppendBoth(ws: seq<World>, acts: seq<Action>, l: CallId, u: CallId, ch: Choice, id: UserId, p: Profile,
                   w1: World, w2: World)
    returns (ws': seq<World>, acts': seq<Action>)
    requires IsRun(ws, acts)
    requires Enabled(Last(ws), Advance(u, ch)) && w1 == Step(Last(ws), Advance(u, ch))
    requires CommitsRow(Last(ws), Advance(u, ch), id) && Last(ws).calls[u].request.UpdateUser?
    requires id in w1.rows && w1.rows[id].profile == p
    requires Enabled(w1, Advance(l, ch)) && w2 == Step(w1, Advance(l, ch)) && id in w2.rows
    ensures IsRun(ws', acts') && ws <= ws' && acts <= acts' && Undone(ws', acts', |acts|, id, p, w2.rows[id].profile)
  {
    Extend(ws, acts, Advance(u, ch));
    Extend(ws + [w1], acts + [Advance(u, ch)], Advance(l, ch));
    ws', acts' := ws + [w1] + [w2], acts + [Advance(u, ch)] + [Advance(l, ch)];
    var n := |acts|;
    assert ws'[n] == Last(ws) && acts'[n] == Advance(u, ch) && ws'[n+1] == w1 && Last(ws') == w2;
  }

  /** The loads: first the Disable's, then the update's. */
  lemma LoadBoth(ws: seq<World>, acts: seq<Action>, id: UserId, patch: Patch, now: Time, l: CallId, u: CallId,
                 chl: Choice, chu: Choice)
    returns (ws': seq<World>, acts': seq<Action>)
    requires IsRun(ws, acts) && id in Last(ws).rows && Last(ws).rows[id].id == id && Last(ws).rows[id].status.Active?
    requires l != u && l !in Last(ws).calls && u !in Last(ws).calls && chl.etag != chu.etag
    requires chl.etag !in Last(ws).hist.names && chl.id !in Last(ws).hist.born
    requires chu.etag !in Last(ws).hist.names && chu.id !in Last(ws).hist.born
    ensures IsRun(ws', acts') && ws <= ws' && acts <= acts'
    ensures Poised(Last(ws'), id, l, u, patch) && Last(ws').rows == Last(ws).rows
    ensures Last(ws').calls[u].request == UpdateUser(id, Some(Last(ws).rows[id].etag), patch, now)
    ensures Last(ws').hist.born == Last(ws).hist.born
    ensures Last(ws').hist.names.Keys <= Last(ws).hist.names.Keys + {chl.etag, chu.etag}
  {
    var v1, a1 := BeginAndLoad(ws, acts, l, Lifecycle(id, Disable, now), chl);
    ws', acts' := BeginAndLoad(v1, a1, u, UpdateUser(id, Some(Last(ws).rows[id].etag), patch, now), chu);
  }

  /** The two saves, as a continuation of the run. */
  lemma SaveBoth(ws: seq<World>, acts: seq<Action>, id: UserId, patch: Patch, l: CallId, u: CallId, ch: Choice)
    returns (ws': seq<World>, acts': seq<Action>)
    requires IsRun(ws, acts) && Poised(Last(ws), id, l, u, patch) && Last(ws).calls[u].request.UpdateUser?
    requires ch.etag !in Last(ws).hist.names && ch.id !in Last(ws).hist.born
    requires !NameTaken(Last(ws).rows, Last(ws).calls[u].stage.copy)
    ensures IsRun(ws', acts') && ws <= ws' && acts <= acts'
    ensures Undone(ws', acts', |acts|, id, patch.On(Last(ws).rows[id].profile), Last(ws).rows[id].profile)
  {
    InvRun(ws, acts, |ws| - 1);
    RowsAreConsistent(ws, acts, |ws| - 1);
    var w1, w2 := BothCommit(Last(ws), l, u, ch, id, patch);
    ws', acts' := AppendBoth(ws, acts, l, u, ch, id, patch.On(Last(ws).rows[id].profile), w1, w2);
  }

  lemma UndoneSince(ws: seq<World>, acts: seq<Action>, lo: nat, later: nat, id: UserId, p: Profile, q: Profile)
    requires |acts| < |ws| && lo <= later && Undone(ws, acts, later, id, p, q)
    ensures Undone(ws, acts, lo, id, p, q)
  {
  }

  ghost predicate Continues(ws: seq<World>, acts: seq<Action>, ws': seq<World>, acts': seq<Action>) {
    IsRun(ws', acts') && ws <= ws' && acts <= acts'
  }

  /** In any run that reaches an active user, an update with the etag just read can be committed and
      then undone: the run goes on with a Disable that loads the user, the update, and the Disable's
      save. */
  lemma AnyActiveUserCanLoseAnUpdate(ws: seq<World>, acts: seq<Action>, id: UserId, patch: Patch, now: Time,
                                     l: CallId, u: CallId, gen: seq<Choice>)
    requires IsRun(ws, acts) && id in Last(ws).rows && Last(ws).rows[id].status.Active?
    requires l != u && l !in Last(ws).calls && u !in Last(ws).calls
    requires |gen| == 3 && gen[0].etag != gen[1].etag && gen[1].etag != gen[2].etag && gen[2].etag != gen[0].etag
    requires forall k :: 0 <= k < 3 ==> gen[k].etag !in Last(ws).hist.names && gen[k].id !in Last(ws).hist.born
    requires !NameTaken(Last(ws).rows, Last(ws).rows[id].(profile := patch.On(Last(ws).rows[id].profile)))
    ensures exists ws', acts' ::
      Continues(ws, acts, ws', acts')
      && Undone(ws', acts', |acts|, id, patch.On(Last(ws).rows[id].profile), Last(ws).rows[id].profile)
  {
    var w := Last(ws);
    var p := patch.On(w.rows[id].profile);
    assert w.rows[id].id == id by { InvRun(ws, acts, |ws| - 1); }
    var v2, a2 := LoadBoth(ws, acts, id, patch, now, l, u, gen[0], gen[1]);
    var v3, a3 := SaveBoth(v2, a2, id, patch, l, u, gen[2]);
    UndoneSince(v3, a3, |acts|, |a2|, id, p, w.rows[id].profile);
    assert Continues(ws, acts, v3, a3);
  }
}

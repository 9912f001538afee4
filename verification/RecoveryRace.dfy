/**
 Two racing generations: from every reachable state with an active user there is a run that leaves the
 user two active batches.
 */
module RecoveryRace {
  import opened Prelude
  import opened RecoveryGenerator
  import opened RecoveryStore
  import opened RecoveryProtocol
  import opened UserDomain

  lemma Extend(ws: seq<World>, acts: seq<Action>, a: Action)
    requires IsRun(ws, acts) && Enabled(Last(ws), a)
    ensures IsRun(ws + [Step(Last(ws), a)], acts + [a])
  {
    var ws', acts' := ws + [Step(Last(ws), a)], acts + [a];
    forall i | 0 <= i < |acts'| ensures StepAt(ws', acts', i) {
      if i < |acts| { assert StepAt(ws, acts, i); }
    }
  }

  /** A generation for an active user, up to the point where it has revoked and not created yet. */
  lemma BeginAndRevoke(ws: seq<World>, acts: seq<Action>, user: UserId, now: Time, c: CallId, ch: Choice)
    returns (ws': seq<World>, acts': seq<Action>)
    requires IsRun(ws, acts) && user in Last(ws).users && Last(ws).users[user].Active?
    requires c !in Last(ws).calls && ch.batch !in Last(ws).printed
    ensures IsRun(ws', acts') && ws <= ws' && acts <= acts'
    ensures var w, w' := Last(ws), Last(ws');
      && w'.users == w.users && w'.printed == w.printed
      && w'.calls == w.calls[c := GenerateCreate(user, now)]
  {
    var w := Last(ws);
    var a, b := Begin(c, Generate(user, now)), Advance(c, ch);
    var w1 := Step(w, a);
    Extend(ws, acts, a);
    var w2 := Step(w1, b);
    Extend(ws + [w1], acts + [a], b);
    var w3 := Step(w2, b);
    Extend(ws + [w1] + [w2], acts + [a] + [b], b);
    ws', acts' := ws + [w1] + [w2] + [w3], acts + [a] + [b] + [b];
    assert w3.calls == w.calls[c := GenerateCreate(user, now)];
  }

  /** The creation of a batch for a user who is there adds it as active. */
  lemma Create(ws: seq<World>, acts: seq<Action>, user: UserId, c: CallId, ch: Choice)
    returns (ws': seq<World>, acts': seq<Action>)
    requires IsRun(ws, acts) && user in Last(ws).users
    requires c in Last(ws).calls && Last(ws).calls[c].GenerateCreate? && Last(ws).calls[c].user == user
    requires ch.batch !in Last(ws).printed && ch.codes.Some? && IsBatch(ch.codes.value)
    ensures IsRun(ws', acts') && ws <= ws' && acts <= acts'
    ensures var w, w' := Last(ws), Last(ws');
      && w'.users == w.users && w'.printed == w.printed[ch.batch := ch.codes.value]
      && w'.calls == w.calls[c := Finished(Issued(ch.codes.value))]
      && IsActive(w'.db, user, ch.batch) && forall b :: IsActive(w.db, user, b) ==> IsActive(w'.db, user, b)
  {
    var w, a := Last(ws), Advance(c, ch);
    InvRun(ws, acts, |ws| - 1);
    CreateBatchNeverCollides(w, a);
    CreationActivates(w, a, user);
    Extend(ws, acts, a);
    ws', acts' := ws + [Step(w, a)], acts + [a];
  }

  /** Two Generate calls by one active user, each past its revocation when the other creates, both
      answer with codes and leave two active batches. */
  lemma RacingGeneratesLeaveTwo(ws: seq<World>, acts: seq<Action>, user: UserId, now: Time, c: CallId, ch: Choice,
                                d: CallId, dh: Choice)
    requires IsRun(ws, acts) && user in Last(ws).users && Last(ws).users[user].Active?
    requires c != d && c !in Last(ws).calls && d !in Last(ws).calls
    requires ch.batch !in Last(ws).printed && dh.batch !in Last(ws).printed && ch.batch != dh.batch
    requires ch.codes.Some? && IsBatch(ch.codes.value) && dh.codes.Some? && IsBatch(dh.codes.value)
    ensures exists ws', acts' :: IsRun(ws', acts') && ws <= ws' && acts <= acts' && !SingleActive(Last(ws').db, user)
  {
    var v1, a1 := BeginAndRevoke(ws, acts, user, now, c, ch);
    var v2, a2 := BeginAndRevoke(v1, a1, user, now, d, dh);
    var v3, a3 := Create(v2, a2, user, c, ch);
    var v4, a4 := Create(v3, a3, user, d, dh);
    assert IsActive(Last(v4).db, user, ch.batch) && IsActive(Last(v4).db, user, dh.batch);
    assert !SingleActive(Last(v4).db, user);
  }
}

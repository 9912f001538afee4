/** How long one chain of refresh tokens can be kept alive. */
module RefreshChain {
  import opened Prelude
  import opened SessionDomain
  import opened SessionStore
  import opened SessionProtocol

  /** Refresh at each of `times`, always presenting the newest token; `gen` are the generated
      hashes. True when every call returns a new pair. */
  ghost predicate Survives(cfg: Config, t: Table, users: Users, token: Hash, times: seq<Time>, gen: seq<Choice>)
    requires |times| == |gen|
    decreases |times|
  {
    if times == [] then true
    else
      var (t', o) := RunAlone(cfg, t, users, Refresh(token, times[0]), gen[0]);
      o.Issued? && Survives(cfg, t', users, o.hash, times[1..], gen[1..])
  }

  /** Refresh k comes within the sliding window of the one before, and before the cap. */
  ghost predicate Punctual(cfg: Config, previous: Time, cap: Time, times: seq<Time>, k: nat)
    requires k < |times|
  {
    && times[k] - (if k == 0 then previous else times[k-1]) < cfg.rotationTTL
    && times[k] < cap
  }

  ghost predicate InTime(cfg: Config, previous: Time, cap: Time, times: seq<Time>) {
    forall k :: 0 <= k < |times| ==> Punctual(cfg, previous, cap, times, k)
  }

  /** The generated hashes are new to the table and to each other. */
  ghost predicate Fresh(t: Table, gen: seq<Choice>) {
    && (forall k, id :: 0 <= k < |gen| && id in t ==> t[id].hash != gen[k].hash)
    && (forall i, j :: 0 <= i < j < |gen| ==> gen[i].hash != gen[j].hash)
  }

  lemma InTimeTail(cfg: Config, previous: Time, cap: Time, times: seq<Time>)
    requires times != []
    ensures InTime(cfg, previous, cap, times) <==>
      Punctual(cfg, previous, cap, times, 0) && InTime(cfg, times[0], cap, times[1..])
  {
    assert forall k :: 0 < k < |times| ==>
      (Punctual(cfg, previous, cap, times, k) <==> Punctual(cfg, times[0], cap, times[1..], k - 1));
    if InTime(cfg, previous, cap, times) {
      forall k | 0 <= k < |times[1..]| ensures Punctual(cfg, times[0], cap, times[1..], k) {
        assert Punctual(cfg, previous, cap, times, k + 1);
      }
    }
  }

  /** One refresh of a live row: it succeeds exactly inside both deadlines. */
  lemma RefreshOnce(cfg: Config, t: Table, users: Users, id: SessionId, now: Time, ch: Choice)
    requires Consistent(t) && id in t && !t[id].IsRevoked()
    requires t[id].userId in users && users[t[id].userId].Active?
    requires forall i :: i in t ==> t[i].hash != ch.hash
    ensures var s := t[id]; var (t', o) := RunAlone(cfg, t, users, Refresh(s.hash, now), ch);
      && (o.Issued? <==> now < s.expiresAt && now < s.refreshExpiresAt)
      && (o.Issued? ==> o.hash == ch.hash && t' == t[id := s.Rotate(ch.hash, now, cfg.SlideWindow(s, now))])
  {
    var s := t[id];
    assert FindByHash(t, s.hash) == Some(s);
    Unfold(cfg, t, users, Refresh(s.hash, now), ch);
    if now < s.expiresAt && now < s.refreshExpiresAt {
      assert !HashTaken(t, id, ch.hash);
      Unfold(cfg, t, users, RefreshUser(s, s.hash, now), ch);
      Unfold(cfg, t, users, RefreshRotate(s.Rotate(ch.hash, now, cfg.SlideWindow(s, now)), s.hash, now), ch);
    }
  }

  lemma {:induction false} SurvivesFrom(cfg: Config, t: Table, users: Users, id: SessionId, previous: Time,
                                        times: seq<Time>, gen: seq<Choice>)
    requires cfg.Valid() && Consistent(t) && id in t && !t[id].IsRevoked() && |times| == |gen|
    requires t[id].userId in users && users[t[id].userId].Active?
    requires t[id].refreshExpiresAt == Min(previous + cfg.rotationTTL, t[id].expiresAt)
    requires Fresh(t, gen)
    ensures Survives(cfg, t, users, t[id].hash, times, gen) <==> InTime(cfg, previous, t[id].expiresAt, times)
    decreases |times|
  {
    if times != [] {
      InTimeTail(cfg, previous, t[id].expiresAt, times);
      RefreshOnce(cfg, t, users, id, times[0], gen[0]);
      var (t', o) := RunAlone(cfg, t, users, Refresh(t[id].hash, times[0]), gen[0]);
      if o.Issued? {
        assert Fresh(t', gen[1..]);
        SurvivesFrom(cfg, t', users, id, times[0], times[1..], gen[1..]);
      }
    }
  }

  /** After a Login at `t0` with no revocation in between, a chain of refreshes succeeds
      throughout exactly when every gap, the first included, is below the rotation lifetime and
      every refresh comes before t0 + refreshTTL. */
  lemma ChainSurvivesIff(cfg: Config, t: Table, users: Users, user: UserId, t0: Time, device: Device, ch: Choice,
                         times: seq<Time>, gen: seq<Choice>)
    requires cfg.Valid() && Consistent(t) && |times| == |gen|
    requires user in users && users[user].Active?
    requires ch.id !in t && Fresh(t, [ch] + gen)
    ensures var (t', o) := RunAlone(cfg, t, users, Login(user, true, t0, device), ch);
      && o.Issued?
      && (Survives(cfg, t', users, o.hash, times, gen) <==> InTime(cfg, t0, t0 + cfg.refreshTTL, times))
  {
    var row := cfg.NewSession(ch.id, user, ch.hash, device.userAgent, device.ipAddress, t0);
    assert ([ch] + gen)[0] == ch;
    assert forall k :: 0 <= k < |gen| ==> ([ch] + gen)[k+1] == gen[k];
    assert !HashTaken(t, ch.id, ch.hash);
    Unfold(cfg, t, users, Login(user, true, t0, device), ch);
    Unfold(cfg, t, users, Mint(row), ch);
    SurvivesFrom(cfg, t[row.id := row], users, row.id, t0, times, gen);
  }
}

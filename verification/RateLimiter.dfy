/**
 Per-key token buckets with idle eviction.

 The buckets of golang.org/x/time/rate are taken as exact: they start full, refill continuously at
 `rps` tokens per second up to `burst`, Reserve may take a bucket into debt, and Cancel at the same
 instant undoes it. Instants are nanoseconds; one instant is read per Allow.
 */
module RateLimiter {
  import opened Prelude

  datatype Key = Key(text: string)

  const SECOND := 1_000_000_000

  datatype Policy = Policy(rps: real, burst: int, idleEvict: Time) {
    /** What configuration validation enforces. */
    predicate Valid() { rps > 0.0 && burst >= 1 && idleEvict >= 0 }
  }

  /** Tokens gained in `d` nanoseconds. */
  function Gain(p: Policy, d: Time): real { p.rps * (d as real) / (SECOND as real) }

  lemma GainAdds(p: Policy, a: Time, b: Time)
    ensures Gain(p, a + b) == Gain(p, a) + Gain(p, b)
  {
  }

  lemma GainGrows(p: Policy, a: Time, b: Time)
    requires p.rps > 0.0 && a <= b
    ensures Gain(p, a) <= Gain(p, b)
  {
    assert p.rps * (b as real - a as real) >= 0.0;
  }

  // ----- one bucket --------------------------------------------------------------------------

  datatype Bucket = Bucket(tokens: real, last: Time)

  function Cap(p: Policy, x: real): real { if x > p.burst as real then p.burst as real else x }

  /** Tokens at instant t; a bucket last used later than t gains nothing. */
  function TokensAt(p: Policy, b: Bucket, t: Time): real {
    Cap(p, b.tokens + Gain(p, if t < b.last then 0 else t - b.last))
  }

  function NewBucket(p: Policy, t: Time): Bucket { Bucket(p.burst as real, t) }

  /** Reserve takes one token, if need be on credit; the delay (in seconds) is how long until the
      debt is paid. */
  function Reserve(p: Policy, b: Bucket, t: Time): (Bucket, real)
    requires p.Valid()
  {
    var left := TokensAt(p, b, t) - 1.0;
    (Bucket(left, t), if left < 0.0 then -left / p.rps else 0.0)
  }

  /** Cancel at the instant of the reservation gives the token back. */
  function Cancel(p: Policy, b: Bucket, t: Time): Bucket { Bucket(Cap(p, TokensAt(p, b, t) + 1.0), t) }

  // ----- the keyed limiter -------------------------------------------------------------------

  datatype Entry = Entry(bucket: Bucket, lastSeen: Time)

  type Entries = map<Key, Entry>

  /** Tokens available to `key` at t; a key without an entry has a full bucket. */
  function Level(p: Policy, entries: Entries, key: Key, t: Time): real {
    if key in entries then TokensAt(p, entries[key].bucket, t) else p.burst as real
  }

  datatype Answer = Answer(allowed: bool, retryAfter: real)

  /** A call is allowed, and spends a token, exactly when one is there. */
  function AllowAt(p: Policy, entries: Entries, key: Key, t: Time): (Entries, Answer)
    requires p.Valid()
  {
    var level := Level(p, entries, key, t);
    if level >= 1.0 then (entries[key := Entry(Bucket(level - 1.0, t), t)], Answer(true, 0.0))
    else (entries[key := Entry(Bucket(level, t), t)], Answer(false, (1.0 - level) / p.rps))
  }

  /** The entries used within the last `idleEvict` nanoseconds before `now`. */
  function Evict(p: Policy, entries: Entries, now: Time): Entries {
    map k | k in entries && !(entries[k].lastSeen < now - p.idleEvict) :: entries[k]
  }

  class KeyedLimiter {
    const policy: Policy
    var entries: Entries

    constructor (policy: Policy)
      ensures this.policy == policy && entries == map[]
    {
      this.policy := policy;
      entries := map[];
    }

    /** Runs under the limiter's lock; the entry is marked as seen even when the call is denied. */
    method Allow(key: Key, t: Time) returns (a: Answer)
      requires policy.Valid()
      modifies this
      ensures (entries, a) == AllowAt(policy, old(entries), key, t)
    {
      var bucket := if key in entries then entries[key].bucket else NewBucket(policy, t);
      var (reserved, delay) := Reserve(policy, bucket, t);
      if delay == 0.0 {
        entries := entries[key := Entry(reserved, t)];
        return Answer(true, 0.0);
      }
      entries := entries[key := Entry(Cancel(policy, reserved, t), t)];
      return Answer(false, delay);
    }

    method EvictIdle(now: Time)
      modifies this
      ensures entries == Evict(policy, old(entries), now)
    {
      var cutoff := now - policy.idleEvict;
      var keys := entries.Keys;
      while keys != {}
        invariant keys <= entries.Keys
        invariant entries.Keys <= old(entries).Keys
        invariant forall k :: k in entries ==> entries[k] == old(entries)[k]
        invariant forall k :: k in old(entries) && k !in keys ==>
          (k in entries <==> !(old(entries)[k].lastSeen < cutoff))
        decreases keys
      {
        var k :| k in keys;
        keys := keys - {k};
        if entries[k].lastSeen < cutoff {
          entries := entries - {k};
        }
      }
    }
  }

  // ----- runs --------------------------------------------------------------------------------

  datatype Event = Call(key: Key, t: Time) | Sweep(now: Time)

  /** The instants calls read never go back. A sweep reads its instant before it gets the lock, so
      it may lag behind calls already served, but no later call reads an earlier one. */
  predicate Timely(events: seq<Event>, clock: Time) {
    if events == [] then true
    else match events[0]
      case Call(_, t) => clock <= t && Timely(events[1..], t)
      case Sweep(now) => Timely(events[1..], Max(clock, now))
  }

  /** The answers to the calls of `events`; with `evicting` false the sweeps do nothing. */
  function Answers(p: Policy, entries: Entries, events: seq<Event>, evicting: bool): seq<Answer>
    requires p.Valid()
    decreases |events|
  {
    if events == [] then []
    else match events[0]
      case Call(key, t) =>
        var (entries', a) := AllowAt(p, entries, key, t);
        [a] + Answers(p, entries', events[1..], evicting)
      case Sweep(now) =>
        Answers(p, if evicting then Evict(p, entries, now) else entries, events[1..], evicting)
  }

  /** Every bucket is within bounds and was last touched when its entry was last seen. */
  predicate EntriesOk(p: Policy, entries: Entries, clock: Time) {
    forall k :: k in entries ==>
      && 0.0 <= entries[k].bucket.tokens <= p.burst as real
      && entries[k].bucket.last == entries[k].lastSeen <= clock
  }

  /** Idle long enough to be swept means idle long enough to be full. */
  predicate Refills(p: Policy) { Gain(p, p.idleEvict + 1) >= p.burst as real }

  lemma AllowKeepsOk(p: Policy, entries: Entries, key: Key, t: Time, clock: Time)
    requires p.Valid() && EntriesOk(p, entries, clock) && clock <= t
    ensures EntriesOk(p, AllowAt(p, entries, key, t).0, t)
    ensures 0.0 <= Level(p, entries, key, t) <= p.burst as real
  {
    if key in entries { GainGrows(p, 0, t - entries[key].bucket.last); }
  }

  lemma LevelBounds(p: Policy, entries: Entries, key: Key, t: Time)
    requires p.Valid() && EntriesOk(p, entries, t)
    ensures 0.0 <= Level(p, entries, key, t) <= p.burst as real
  {
    AllowKeepsOk(p, entries, key, t, t);
  }

  /** Waiting from s to t adds what is gained in between, up to the burst. */
  lemma LevelRises(p: Policy, entries: Entries, key: Key, s: Time, t: Time)
    requires p.Valid() && EntriesOk(p, entries, s) && s <= t
    ensures Level(p, entries, key, t) == Cap(p, Level(p, entries, key, s) + Gain(p, t - s))
    ensures Level(p, entries, key, t) <= Level(p, entries, key, s) + Gain(p, t - s)
  {
    GainGrows(p, 0, t - s);
    if key in entries {
      GainAdds(p, s - entries[key].bucket.last, t - s);
    }
  }

  /** An allowed call costs its key one token, a denied one costs nothing, and no other key is
      touched; this holds at every later instant. */
  lemma AllowSpends(p: Policy, entries: Entries, key: Key, t: Time, k: Key, s: Time)
    requires p.Valid() && EntriesOk(p, entries, t) && t <= s
    ensures var (entries', a) := AllowAt(p, entries, key, t);
      && (k != key || !a.allowed ==> Level(p, entries', k, s) == Level(p, entries, k, s))
      && (k == key && a.allowed ==>
           Level(p, entries', k, s) == Cap(p, Level(p, entries, k, t) - 1.0 + Gain(p, s - t))
           && Level(p, entries', k, s) <= Level(p, entries, k, s)
           && Level(p, entries', k, t) == Level(p, entries, k, t) - 1.0)
  {
    LevelBounds(p, entries, key, t);
    LevelRises(p, entries, k, t, s);
    assert Gain(p, 0) == 0.0;
  }

  /** A call is allowed exactly when a token is there. A denied one is told exactly how long to wait:
      with nothing in between the bucket then holds one token, and a call is allowed at no instant
      before that and at every one after. */
  lemma RetryIsExact(p: Policy, entries: Entries, key: Key, t: Time, s: Time)
    requires p.Valid() && EntriesOk(p, entries, t) && t <= s
    ensures var (entries', a) := AllowAt(p, entries, key, t);
      && (a.allowed <==> Level(p, entries, key, t) >= 1.0)
      && (if a.allowed then a.retryAfter == 0.0 else
            && a.retryAfter > 0.0
            && Level(p, entries', key, t) + p.rps * a.retryAfter == 1.0
            && (AllowAt(p, entries', key, s).1.allowed <==> (s - t) as real >= a.retryAfter * (SECOND as real)))
  {
    LevelBounds(p, entries, key, t);
    if Level(p, entries, key, t) < 1.0 {
      DebtOverRate(p, Level(p, entries, key, t));
      DenialKeepsLevel(p, entries, key, t, s);
      WaitGains(p, s - t, (1.0 - Level(p, entries, key, t)) / p.rps);
    }
  }

  lemma DebtOverRate(p: Policy, level: real)
    requires p.rps > 0.0 && level < 1.0
    ensures p.rps * ((1.0 - level) / p.rps) == 1.0 - level && (1.0 - level) / p.rps > 0.0
  {
  }

  lemma DenialKeepsLevel(p: Policy, entries: Entries, key: Key, t: Time, s: Time)
    requires p.Valid() && EntriesOk(p, entries, t) && t <= s && Level(p, entries, key, t) < 1.0
    ensures var entries' := AllowAt(p, entries, key, t).0;
      && Level(p, entries', key, t) == Level(p, entries, key, t)
      && (Level(p, entries', key, s) >= 1.0 <==> Level(p, entries, key, t) + Gain(p, s - t) >= 1.0)
  {
    AllowSpends(p, entries, key, t, key, t);
    AllowSpends(p, entries, key, t, key, s);
    LevelRises(p, entries, key, t, s);
  }

  /** Waiting d nanoseconds gains as much as waiting r seconds exactly when d is at least that long. */
  lemma WaitGains(p: Policy, d: Time, r: real)
    requires p.rps > 0.0
    ensures Gain(p, d) >= p.rps * r <==> d as real >= r * (SECOND as real)
  {
    assert Gain(p, d) * (SECOND as real) == p.rps * (d as real);
    if d as real >= r * (SECOND as real) {
      assert p.rps * (d as real - r * (SECOND as real)) >= 0.0;
    } else {
      assert p.rps * (r * (SECOND as real) - d as real) > 0.0;
    }
  }

  /** A sweep changes no level from its instant on, if idle buckets refill. */
  lemma SweepKeepsLevel(p: Policy, entries: Entries, now: Time, key: Key, clock: Time, s: Time)
    requires p.Valid() && Refills(p) && EntriesOk(p, entries, clock) && Max(clock, now) <= s
    ensures Level(p, Evict(p, entries, now), key, s) == Level(p, entries, key, s)
  {
    if key in entries && entries[key].lastSeen < now - p.idleEvict {
      GainGrows(p, p.idleEvict + 1, s - entries[key].bucket.last);
    }
  }

  // ----- eviction is invisible ---------------------------------------------------------------

  /** The evicting table against the full one: what is missing is full. */
  predicate Agree(p: Policy, e: Entries, n: Entries, clock: Time) {
    && EntriesOk(p, n, clock)
    && (forall k :: k in e ==> k in n && e[k] == n[k])
    && (forall k :: k in n && k !in e ==> TokensAt(p, n[k].bucket, clock) == p.burst as real)
  }

  lemma AgreeLater(p: Policy, e: Entries, n: Entries, s: Time, t: Time, key: Key)
    requires p.Valid() && Agree(p, e, n, s) && s <= t
    ensures Agree(p, e, n, t) && Level(p, e, key, t) == Level(p, n, key, t)
  {
    forall k | k in n && k !in e ensures TokensAt(p, n[k].bucket, t) == p.burst as real {
      LevelRises(p, n, k, s, t);
      GainGrows(p, 0, t - s);
    }
  }

  lemma AgreeAfterCall(p: Policy, e: Entries, n: Entries, clock: Time, key: Key, t: Time)
    requires p.Valid() && Agree(p, e, n, clock) && clock <= t
    ensures AllowAt(p, e, key, t).1 == AllowAt(p, n, key, t).1
    ensures Agree(p, AllowAt(p, e, key, t).0, AllowAt(p, n, key, t).0, t)
  {
    AgreeLater(p, e, n, clock, t, key);
    AllowKeepsOk(p, n, key, t, clock);
  }

  lemma AgreeAfterSweep(p: Policy, e: Entries, n: Entries, clock: Time, now: Time)
    requires p.Valid() && Refills(p) && Agree(p, e, n, clock)
    ensures Agree(p, Evict(p, e, now), n, Max(clock, now))
  {
    var s := Max(clock, now);
    forall k | k in n && k !in Evict(p, e, now) ensures TokensAt(p, n[k].bucket, s) == p.burst as real {
      if k in e {
        SweepKeepsLevel(p, e, now, k, clock, s);
      } else {
        AgreeLater(p, e, n, clock, s, k);
      }
    }
  }

  lemma {:induction false} SameAnswers(p: Policy, e: Entries, n: Entries, events: seq<Event>, clock: Time)
    requires p.Valid() && Refills(p) && Agree(p, e, n, clock) && Timely(events, clock)
    ensures Answers(p, e, events, true) == Answers(p, n, events, false)
    decreases |events|
  {
    if events != [] {
      match events[0]
      case Call(key, t) =>
        AgreeAfterCall(p, e, n, clock, key, t);
        SameAnswers(p, AllowAt(p, e, key, t).0, AllowAt(p, n, key, t).0, events[1..], t);
      case Sweep(now) =>
        AgreeAfterSweep(p, e, n, clock, now);
        SameAnswers(p, Evict(p, e, now), n, events[1..], Max(clock, now));
    }
  }

  /** n calls for `key` at instant t. */
  function Burst(key: Key, t: Time, n: nat): seq<Event> {
    if n == 0 then [] else [Call(key, t)] + Burst(key, t, n - 1)
  }

  predicate AllAllowed(answers: seq<Answer>) { forall i :: 0 <= i < |answers| ==> answers[i].allowed }

  lemma AllAllowedCons(a: Answer, answers: seq<Answer>)
    ensures AllAllowed([a] + answers) <==> a.allowed && AllAllowed(answers)
  {
    var all := [a] + answers;
    if AllAllowed(all) {
      forall i | 0 <= i < |answers| ensures answers[i].allowed { assert all[i+1] == answers[i]; }
      assert all[0] == a;
    }
  }

  lemma SamePrefixCancels(xs: seq<Answer>, ys: seq<Answer>, zs: seq<Answer>)
    requires xs + ys == xs + zs
    ensures ys == zs
  {
    assert (xs + ys)[|xs|..] == ys && (xs + zs)[|xs|..] == zs;
  }

  /** The entries after `events`. */
  function After(p: Policy, entries: Entries, events: seq<Event>, evicting: bool): Entries
    requires p.Valid()
    decreases |events|
  {
    if events == [] then entries
    else match events[0]
      case Call(key, t) => After(p, AllowAt(p, entries, key, t).0, events[1..], evicting)
      case Sweep(now) => After(p, if evicting then Evict(p, entries, now) else entries, events[1..], evicting)
  }

  lemma {:induction false} AnswersSplit(p: Policy, entries: Entries, xs: seq<Event>, ys: seq<Event>, evicting: bool)
    requires p.Valid()
    ensures Answers(p, entries, xs + ys, evicting)
         == Answers(p, entries, xs, evicting) + Answers(p, After(p, entries, xs, evicting), ys, evicting)
    decreases |xs|
  {
    if xs == [] {
      assert xs + ys == ys;
    } else {
      assert (xs + ys)[0] == xs[0] && (xs + ys)[1..] == xs[1..] + ys;
      match xs[0]
      case Call(key, t) => AnswersSplit(p, AllowAt(p, entries, key, t).0, xs[1..], ys, evicting);
      case Sweep(now) =>
        AnswersSplit(p, if evicting then Evict(p, entries, now) else entries, xs[1..], ys, evicting);
    }
  }

  /** A burst is all allowed exactly when the level covers it, and then it spends just that much.
      Sweeping plays no part. */
  lemma {:induction false} BurstAnswers(p: Policy, entries: Entries, key: Key, t: Time, n: nat, evicting: bool)
    requires p.Valid() && EntriesOk(p, entries, t)
    ensures var answers := Answers(p, entries, Burst(key, t, n), evicting);
      |answers| == n && (AllAllowed(answers) <==> Level(p, entries, key, t) >= n as real)
    ensures Answers(p, entries, Burst(key, t, n), evicting) == Answers(p, entries, Burst(key, t, n), false)
    ensures Level(p, entries, key, t) >= n as real && n > 0 ==>
      After(p, entries, Burst(key, t, n), evicting)
      == entries[key := Entry(Bucket(Level(p, entries, key, t) - n as real, t), t)]
    decreases n
  {
    LevelBounds(p, entries, key, t);
    if n > 0 {
      var (entries', a) := AllowAt(p, entries, key, t);
      AllowKeepsOk(p, entries, key, t, t);
      AllowSpends(p, entries, key, t, key, t);
      BurstAnswers(p, entries', key, t, n - 1, evicting);
      assert Burst(key, t, n)[1..] == Burst(key, t, n - 1);
      var answers := Answers(p, entries', Burst(key, t, n - 1), evicting);
      AllAllowedCons(a, answers);
    }
  }

  /** A drained key, a sweep just after it became idle, and a second burst: the run that tells the
      two limiters apart when an idle bucket is swept before it is full. */
  function DrainSweepDrain(p: Policy, key: Key): seq<Event>
    requires p.Valid()
  {
    Burst(key, 0, p.burst) + ([Sweep(p.idleEvict + 1)] + Burst(key, p.idleEvict + 1, p.burst))
  }

  lemma {:induction false} BurstIsTimely(key: Key, t: Time, n: nat, rest: seq<Event>, clock: Time)
    requires clock <= t && Timely(rest, t)
    ensures Timely(Burst(key, t, n) + rest, clock) || n == 0
  {
    if n > 0 {
      var one, more := [Call(key, t)], Burst(key, t, n - 1);
      assert (one + more + rest)[1..] == more + rest && (one + more + rest)[0] == Call(key, t);
      BurstIsTimely(key, t, n - 1, rest, t);
      assert n == 1 ==> more + rest == rest;
    }
  }

  lemma DrainSweepDrainIsTimely(p: Policy, key: Key)
    requires p.Valid()
    ensures Timely(DrainSweepDrain(p, key), 0)
  {
    var t := p.idleEvict + 1;
    var again := Burst(key, t, p.burst);
    BurstIsTimely(key, t, p.burst, [], t);
    assert again + [] == again;
    var rest := [Sweep(t)] + again;
    assert rest[0] == Sweep(t) && rest[1..] == again;
    BurstIsTimely(key, 0, p.burst, rest, 0);
  }

  /** The first burst drains the key; what the second one meets depends on the sweep alone. */
  lemma SecondBurstDecides(p: Policy, key: Key, evicting: bool)
    requires p.Valid()
    ensures var drained: Entries := map[key := Entry(Bucket(0.0, 0), 0)];
      Answers(p, map[], DrainSweepDrain(p, key), evicting)
      == Answers(p, map[], Burst(key, 0, p.burst), false)
         + Answers(p, if evicting then map[] else drained, Burst(key, p.idleEvict + 1, p.burst), evicting)
  {
    var t := p.idleEvict + 1;
    var drained: Entries := map[key := Entry(Bucket(0.0, 0), 0)];
    var again := Burst(key, t, p.burst);
    var rest := [Sweep(t)] + again;
    BurstAnswers(p, map[], key, 0, p.burst, evicting);
    assert After(p, map[], Burst(key, 0, p.burst), evicting) == drained;
    AnswersSplit(p, map[], Burst(key, 0, p.burst), rest, evicting);
    assert rest[0] == Sweep(t) && rest[1..] == again;
    assert Evict(p, drained, t) == map[];
  }

  lemma EarlyEvictionShows(p: Policy, key: Key)
    requires p.Valid() && !Refills(p)
    ensures Timely(DrainSweepDrain(p, key), 0)
    ensures Answers(p, map[], DrainSweepDrain(p, key), true) != Answers(p, map[], DrainSweepDrain(p, key), false)
  {
    var t := p.idleEvict + 1;
    var drained: Entries := map[key := Entry(Bucket(0.0, 0), 0)];
    DrainSweepDrainIsTimely(p, key);
    SecondBurstDecides(p, key, true);
    SecondBurstDecides(p, key, false);
    BurstAnswers(p, map[], key, t, p.burst, true);
    BurstAnswers(p, drained, key, t, p.burst, false);
    var swept := Answers(p, map[], Burst(key, t, p.burst), true);
    var kept := Answers(p, drained, Burst(key, t, p.burst), false);
    assert AllAllowed(swept) && !AllAllowed(kept) by {
      assert Level(p, drained, key, t) < p.burst as real;
    }
    if Answers(p, map[], DrainSweepDrain(p, key), true) == Answers(p, map[], DrainSweepDrain(p, key), false) {
      SamePrefixCancels(Answers(p, map[], Burst(key, 0, p.burst), false), swept, kept);
      assert false;
    }
  }

  /** Sweeping is invisible to every caller in every run exactly when an entry that can be swept
      has had time to refill completely. */
  lemma EvictionIsInvisibleIff(p: Policy)
    requires p.Valid()
    ensures (forall events :: Timely(events, 0) ==> Answers(p, map[], events, true) == Answers(p, map[], events, false))
            <==> Refills(p)
  {
    if Refills(p) {
      forall events | Timely(events, 0)
        ensures Answers(p, map[], events, true) == Answers(p, map[], events, false)
      {
        SameAnswers(p, map[], map[], events, 0);
      }
    } else {
      EarlyEvictionShows(p, Key(""));
    }
  }

  // ----- the window bound --------------------------------------------------------------------

  /** Calls for `key` that were allowed within [lo, hi]. */
  function CountAllowed(p: Policy, entries: Entries, events: seq<Event>, key: Key, lo: Time, hi: Time): nat
    requires p.Valid()
    decreases |events|
  {
    if events == [] then 0
    else match events[0]
      case Call(k, t) =>
        var (entries', a) := AllowAt(p, entries, k, t);
        (if k == key && a.allowed && lo <= t <= hi then 1 else 0) + CountAllowed(p, entries', events[1..], key, lo, hi)
      case Sweep(now) => CountAllowed(p, Evict(p, entries, now), events[1..], key, lo, hi)
  }

  /** What can still be allowed in [lo, hi] when the clock is at `clock`. */
  function Budget(p: Policy, entries: Entries, key: Key, clock: Time, lo: Time, hi: Time): real {
    var s := Max(clock, lo);
    if s <= hi then Level(p, entries, key, s) + Gain(p, hi - s) else 0.0
  }

  /** Letting time pass from `clock` to `later` adds nothing to the budget. */
  lemma BudgetShrinks(p: Policy, entries: Entries, key: Key, clock: Time, later: Time, lo: Time, hi: Time)
    requires p.Valid() && EntriesOk(p, entries, clock) && clock <= later
    ensures 0.0 <= Budget(p, entries, key, later, lo, hi) <= Budget(p, entries, key, clock, lo, hi)
  {
    var s, s' := Max(clock, lo), Max(later, lo);
    if s <= hi {
      LevelBounds(p, entries, key, s);
      GainGrows(p, 0, hi - s);
      assert Gain(p, 0) == 0.0;
      if s' <= hi {
        LevelBounds(p, entries, key, s');
        GainGrows(p, 0, hi - s');
        LevelRises(p, entries, key, s, s');
        GainAdds(p, s' - s, hi - s');
      }
    }
  }

  /** One Allow at `t` pays for itself out of the budget. */
  lemma AllowPays(p: Policy, entries: Entries, k: Key, t: Time, key: Key, clock: Time, lo: Time, hi: Time)
    requires p.Valid() && EntriesOk(p, entries, clock) && clock <= t
    ensures var (entries', a) := AllowAt(p, entries, k, t);
      (if k == key && a.allowed && lo <= t <= hi then 1.0 else 0.0) + Budget(p, entries', key, t, lo, hi)
      <= Budget(p, entries, key, clock, lo, hi)
  {
    BudgetShrinks(p, entries, key, clock, t, lo, hi);
    AllowSpends(p, entries, k, t, key, Max(t, lo));
  }

  lemma {:induction false} CountWithinBudget(p: Policy, entries: Entries, events: seq<Event>, key: Key,
                                             clock: Time, lo: Time, hi: Time)
    requires p.Valid() && Refills(p) && EntriesOk(p, entries, clock) && Timely(events, clock)
    ensures CountAllowed(p, entries, events, key, lo, hi) as real <= Budget(p, entries, key, clock, lo, hi)
    decreases |events|
  {
    BudgetShrinks(p, entries, key, clock, clock, lo, hi);
    if events != [] {
      match events[0]
      case Call(k, t) =>
        AllowKeepsOk(p, entries, k, t, clock);
        AllowPays(p, entries, k, t, key, clock, lo, hi);
        CountWithinBudget(p, AllowAt(p, entries, k, t).0, events[1..], key, t, lo, hi);
      case Sweep(now) =>
        var s := Max(clock, now);
        SweepKeepsLevel(p, entries, now, key, clock, Max(s, lo));
        BudgetShrinks(p, entries, key, clock, s, lo, hi);
        CountWithinBudget(p, Evict(p, entries, now), events[1..], key, s, lo, hi);
    }
  }

  /** In any run with sweeps, any window of length T lets at most burst + rps * T calls of a key
      through. */
  lemma WindowBound(p: Policy, events: seq<Event>, key: Key, clock: Time, lo: Time, hi: Time)
    requires p.Valid() && Refills(p) && Timely(events, clock) && lo <= hi
    ensures CountAllowed(p, map[], events, key, lo, hi) as real <= p.burst as real + Gain(p, hi - lo)
  {
    CountWithinBudget(p, map[], events, key, clock, lo, hi);
    GainGrows(p, 0, hi - lo);
    assert Gain(p, 0) == 0.0;
    if Max(clock, lo) <= hi { GainGrows(p, hi - Max(clock, lo), hi - lo); }
  }

  /** `key` was last seen at t and has x tokens left. */
  function Left(key: Key, t: Time, x: real): Entries { map[key := Entry(Bucket(x, t), t)] }

  lemma LevelLeft(p: Policy, key: Key, t: Time, x: real)
    requires p.Valid() && 0.0 <= x <= p.burst as real
    ensures Level(p, Left(key, t, x), key, t) == x
  {
    assert Gain(p, 0) == 0.0;
  }

  /** One allowed call at an instant of the window. */
  lemma CallCounts(p: Policy, entries: Entries, key: Key, t: Time, rest: seq<Event>, lo: Time, hi: Time)
    requires p.Valid() && lo <= t <= hi && entries.Keys <= {key} && Level(p, entries, key, t) >= 1.0
    ensures CountAllowed(p, entries, [Call(key, t)] + rest, key, lo, hi)
         == 1 + CountAllowed(p, Left(key, t, Level(p, entries, key, t) - 1.0), rest, key, lo, hi)
  {
    assert ([Call(key, t)] + rest)[1..] == rest;
    assert AllowAt(p, entries, key, t).0 == Left(key, t, Level(p, entries, key, t) - 1.0);
  }

  /** A burst the level covers is allowed in full. */
  lemma {:induction false} BurstCounts(p: Policy, entries: Entries, key: Key, t: Time, n: nat, x: real,
                                       rest: seq<Event>, lo: Time, hi: Time)
    requires p.Valid() && lo <= t <= hi && entries.Keys <= {key} && n > 0
    requires 0.0 <= x && Level(p, entries, key, t) == x + n as real <= p.burst as real
    ensures CountAllowed(p, entries, Burst(key, t, n) + rest, key, lo, hi)
         == n + CountAllowed(p, Left(key, t, x), rest, key, lo, hi)
    decreases n
  {
    var level := Level(p, entries, key, t);
    var more := Burst(key, t, n - 1) + rest;
    assert Burst(key, t, n) + rest == [Call(key, t)] + more;
    CallCounts(p, entries, key, t, more, lo, hi);
    if n == 1 {
      assert more == rest;
    } else {
      LevelLeft(p, key, t, level - 1.0);
      BurstCounts(p, Left(key, t, level - 1.0), key, t, n - 1, x, rest, lo, hi);
    }
  }

  /** Draining, sweeping and draining again lets two bursts through in one idle time. */
  lemma EarlyEvictionLetsTwoBurstsThrough(p: Policy, key: Key)
    requires p.Valid()
    ensures CountAllowed(p, map[], DrainSweepDrain(p, key), key, 0, p.idleEvict + 1) == 2 * p.burst
  {
    var t := p.idleEvict + 1;
    var again := Burst(key, t, p.burst);
    var rest := [Sweep(t)] + again;
    BurstCounts(p, map[], key, 0, p.burst, 0.0, rest, 0, t);
    assert rest[0] == Sweep(t) && rest[1..] == again && Evict(p, Left(key, 0, 0.0), t) == map[];
    BurstCounts(p, map[], key, t, p.burst, 0.0, [], 0, t);
    assert again + [] == again;
  }

  /** The window bound holds of every run exactly for the same policies. */
  lemma WindowBoundIff(p: Policy)
    requires p.Valid()
    ensures (forall events, key, lo, hi :: Timely(events, 0) && lo <= hi ==> InBound(p, events, key, lo, hi)) <==>
      Refills(p)
  {
    if Refills(p) {
      forall events, key, lo, hi | Timely(events, 0) && lo <= hi ensures InBound(p, events, key, lo, hi) {
        WindowBound(p, events, key, 0, lo, hi);
      }
    } else {
      var key, hi := Key(""), p.idleEvict + 1;
      DrainSweepDrainIsTimely(p, key);
      EarlyEvictionLetsTwoBurstsThrough(p, key);
      assert !InBound(p, DrainSweepDrain(p, key), key, 0, hi);
    }
  }

  predicate InBound(p: Policy, events: seq<Event>, key: Key, lo: Time, hi: Time)
    requires p.Valid()
  {
    CountAllowed(p, map[], events, key, lo, hi) as real <= p.burst as real + Gain(p, hi - lo)
  }
}

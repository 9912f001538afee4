/**
 Requests in flight through the interceptor. Each limit of each request is a step of its own, because
 each limiter locks for itself; the steps of any number of requests and the sweeps interleave.
 */
module RateLimitTraffic {
  import opened Prelude
  import opened RateLimiter
  import opened RateLimitInterceptor

  // ----- requests in flight ------------------------------------------------------------------

  type RequestId = nat

  /** One limit of a method, with the key extracted from the request. */
  datatype Limit = Limit(policy: PolicyName, key: Option<Key>)

  /** A request between its limits: those it arrived with, those still to be evaluated, and the Allows
      it has passed. */
  datatype Flight = Flight(arrived: seq<Limit>, remaining: seq<Limit>, passed: seq<Check>)

  datatype World = World(buckets: State, flights: map<RequestId, Flight>)

  /** Proceed takes a request one step on, to its next limit or, with none left, to its handler. Each
      limiter locks for itself, so steps of other requests and sweeps may come in between. */
  datatype Event =
    | Arrive(id: RequestId, limits: seq<Limit>)
    | Proceed(id: RequestId, t: Time)
    | Sweeping(policy: PolicyName, now: Time)

  function Step(ps: map<PolicyName, Policy>, w: World, e: Event): (w': World)
    requires Policies(ps) && w.buckets.Keys == ps.Keys
    ensures w'.buckets.Keys == ps.Keys
  {
    match e
    case Arrive(id, limits) => if id in w.flights then w else w.(flights := w.flights[id := Flight(limits, limits, [])])
    case Proceed(id, t) =>
      if id !in w.flights then w
      else if w.flights[id].remaining == [] then w.(flights := w.flights - {id})
      else Evaluate(ps, w, id, w.flights[id], t)
    case Sweeping(n, now) =>
      if n in ps then w.(buckets := w.buckets[n := Evict(ps[n], w.buckets[n], now)]) else w
  }

  /** The next limit of a request. */
  function Evaluate(ps: map<PolicyName, Policy>, w: World, id: RequestId, f: Flight, t: Time): (w': World)
    requires Policies(ps) && w.buckets.Keys == ps.Keys && f.remaining != []
    ensures w'.buckets.Keys == ps.Keys
  {
    var l, rest := f.remaining[0], f.remaining[1..];
    if l.key.None? || l.policy !in ps then w.(flights := w.flights[id := f.(remaining := rest)])
    else
      var (entries, a) := AllowAt(ps[l.policy], w.buckets[l.policy], l.key.value, t);
      World(w.buckets[l.policy := entries],
            if a.allowed
            then w.flights[id := f.(remaining := rest, passed := f.passed + [Check(l.policy, l.key, t)])]
            else w.flights - {id})
  }

  function Run(ps: map<PolicyName, Policy>, w: World, events: seq<Event>): (w': World)
    requires Policies(ps) && w.buckets.Keys == ps.Keys
    ensures w'.buckets.Keys == ps.Keys
    decreases |events|
  {
    if events == [] then w else Run(ps, Step(ps, w, events[0]), events[1..])
  }

  // ----- a request with nothing in between ---------------------------------------------------

  function LimitsOf(checks: seq<Check>): (limits: seq<Limit>)
    ensures |limits| == |checks|
  {
    if checks == [] then [] else [Limit(checks[0].policy, checks[0].key)] + LimitsOf(checks[1..])
  }

  function ProceedAt(id: RequestId, checks: seq<Check>): seq<Event> {
    if checks == [] then [] else [Proceed(id, checks[0].t)] + ProceedAt(id, checks[1..])
  }

  lemma {:induction false} GoneIsIdle(ps: map<PolicyName, Policy>, w: World, id: RequestId, checks: seq<Check>)
    requires Policies(ps) && w.buckets.Keys == ps.Keys && id !in w.flights
    ensures Run(ps, w, ProceedAt(id, checks)) == w
  {
    if checks != [] {
      assert ProceedAt(id, checks)[1..] == ProceedAt(id, checks[1..]);
      GoneIsIdle(ps, w, id, checks[1..]);
    }
  }

  /** The steps of one request without anything in between are what Unary does: the same charges, and
      the request is about to run its handler exactly when Unary admits it. */
  lemma {:induction false} StepsAloneAreUnary(ps: map<PolicyName, Policy>, w: World, id: RequestId, checks: seq<Check>)
    requires Policies(ps) && w.buckets.Keys == ps.Keys
    requires id in w.flights && w.flights[id].remaining == LimitsOf(checks)
    ensures var w' := Run(ps, w, ProceedAt(id, checks)); var (st, v) := RunChecks(ps, w.buckets, checks);
      && w'.buckets == st && w'.flights - {id} == w.flights - {id}
      && (v.Admitted? <==> id in w'.flights)
      && (id in w'.flights ==> w'.flights[id].remaining == [])
    decreases |checks|
  {
    if checks != [] {
      var events := ProceedAt(id, checks);
      assert events[0] == Proceed(id, checks[0].t) && events[1..] == ProceedAt(id, checks[1..]);
      assert w.flights[id].remaining[1..] == LimitsOf(checks[1..]);
      var w1 := Step(ps, w, events[0]);
      if id in w1.flights {
        StepsAloneAreUnary(ps, w1, id, checks[1..]);
      } else {
        GoneIsIdle(ps, w1, id, checks[1..]);
      }
      assert w1.flights - {id} == w.flights - {id};
    }
  }

  // ----- the handler bound -------------------------------------------------------------------

  function ClockAfter(e: Event, clock: Time): Time {
    match e case Arrive(_, _) => clock case Proceed(_, t) => t case Sweeping(_, now) => Max(clock, now)
  }

  /** The instants that steps read never go back; a sweep may hold an older one. */
  predicate TimelyTraffic(events: seq<Event>, clock: Time) {
    events != [] ==>
      && (events[0].Proceed? ==> clock <= events[0].t)
      && TimelyTraffic(events[1..], ClockAfter(events[0], clock))
  }

  predicate IsCharge(c: Check, policy: PolicyName, key: Key, lo: Time, hi: Time) {
    c.policy == policy && c.key == Some(key) && lo <= c.t <= hi
  }

  /** The request has passed the policy's limit under this key, at an instant within [lo, hi]. */
  predicate LimitedBy(passed: seq<Check>, policy: PolicyName, key: Key, lo: Time, hi: Time) {
    exists i :: 0 <= i < |passed| && IsCharge(passed[i], policy, key, lo, hi)
  }

  /** The step runs the handler of a request that has passed that Allow. */
  predicate RunsCharged(w: World, e: Event, policy: PolicyName, key: Key, lo: Time, hi: Time) {
    && e.Proceed? && e.id in w.flights && w.flights[e.id].remaining == []
    && LimitedBy(w.flights[e.id].passed, policy, key, lo, hi)
  }

  /** Handler runs of requests that `policy` has let pass under `key` at an instant within the window. */
  function ChargedRuns(ps: map<PolicyName, Policy>, w: World, events: seq<Event>,
                       policy: PolicyName, key: Key, lo: Time, hi: Time): nat
    requires Policies(ps) && w.buckets.Keys == ps.Keys
    decreases |events|
  {
    if events == [] then 0
    else
      (if RunsCharged(w, events[0], policy, key, lo, hi) then 1 else 0)
      + ChargedRuns(ps, Step(ps, w, events[0]), events[1..], policy, key, lo, hi)
  }

  predicate AllOk(ps: map<PolicyName, Policy>, st: State, clock: Time) {
    st.Keys == ps.Keys && forall n :: n in ps ==> EntriesOk(ps[n], st[n], clock)
  }

  function Credit(ps: map<PolicyName, Policy>, st: State, policy: PolicyName, key: Key,
                  clock: Time, lo: Time, hi: Time): real
    requires policy in ps && policy in st
  {
    Budget(ps[policy], st[policy], key, clock, lo, hi)
  }

  lemma AllOkLater(ps: map<PolicyName, Policy>, st: State, clock: Time, later: Time)
    requires AllOk(ps, st, clock) && clock <= later
    ensures AllOk(ps, st, later)
  {
  }

  /** The requests in flight that have paid and not run yet. */
  function Paid(flights: map<RequestId, Flight>, policy: PolicyName, key: Key, lo: Time, hi: Time): set<RequestId> {
    set id | id in flights && LimitedBy(flights[id].passed, policy, key, lo, hi)
  }

  lemma PaidWithout(flights: map<RequestId, Flight>, id: RequestId, policy: PolicyName, key: Key, lo: Time, hi: Time)
    requires id in flights
    ensures var paid := Paid(flights, policy, key, lo, hi); var left := Paid(flights - {id}, policy, key, lo, hi);
      left == paid - {id} && |left| + (if LimitedBy(flights[id].passed, policy, key, lo, hi) then 1 else 0) == |paid|
  {
    assert Paid(flights - {id}, policy, key, lo, hi) == Paid(flights, policy, key, lo, hi) - {id};
  }

  /** One more passed Allow makes at most its own request a paying one. */
  lemma PaidWith(flights: map<RequestId, Flight>, id: RequestId, f: Flight, policy: PolicyName, key: Key, lo: Time,
                 hi: Time)
    requires id in flights && |f.passed| > 0 && f.passed[..|f.passed|-1] == flights[id].passed
    ensures |Paid(flights[id := f], policy, key, lo, hi)| <=
      |Paid(flights, policy, key, lo, hi)| + (if IsCharge(f.passed[|f.passed|-1], policy, key, lo, hi) then 1 else 0)
  {
    var n := |f.passed| - 1;
    assert LimitedBy(f.passed, policy, key, lo, hi) <==>
      LimitedBy(flights[id].passed, policy, key, lo, hi) || IsCharge(f.passed[n], policy, key, lo, hi) by
    {
      assert forall i :: 0 <= i < n ==> flights[id].passed[i] == f.passed[i];
    }
    var before, after := Paid(flights, policy, key, lo, hi), Paid(flights[id := f], policy, key, lo, hi);
    if IsCharge(f.passed[n], policy, key, lo, hi) {
      assert after == before + {id};
    } else {
      assert after == before;
    }
  }

  lemma PaidSame(flights: map<RequestId, Flight>, id: RequestId, f: Flight, policy: PolicyName, key: Key, lo: Time,
                 hi: Time)
    requires (id in flights && f.passed == flights[id].passed) || (id !in flights && f.passed == [])
    ensures Paid(flights[id := f], policy, key, lo, hi) == Paid(flights, policy, key, lo, hi)
  {
  }

  /** A limit that is evaluated: the token it takes pays for the request it lets on. */
  lemma EvaluationPays(ps: map<PolicyName, Policy>, w: World, id: RequestId, t: Time, clock: Time,
                       policy: PolicyName, key: Key, lo: Time, hi: Time)
    requires Policies(ps) && AllOk(ps, w.buckets, clock) && clock <= t && policy in ps
    requires id in w.flights && w.flights[id].remaining != []
    ensures var w' := Evaluate(ps, w, id, w.flights[id], t);
      && AllOk(ps, w'.buckets, t)
      && |Paid(w'.flights, policy, key, lo, hi)| as real + Credit(ps, w'.buckets, policy, key, t, lo, hi)
         <= |Paid(w.flights, policy, key, lo, hi)| as real + Credit(ps, w.buckets, policy, key, clock, lo, hi)
  {
    var f := w.flights[id];
    var l, rest := f.remaining[0], f.remaining[1..];
    AllOkLater(ps, w.buckets, clock, t);
    BudgetShrinks(ps[policy], w.buckets[policy], key, clock, t, lo, hi);
    if l.key.None? || l.policy !in ps {
      PaidSame(w.flights, id, f.(remaining := rest), policy, key, lo, hi);
    } else {
      var a := AllowAt(ps[l.policy], w.buckets[l.policy], l.key.value, t).1;
      AllowKeepsOk(ps[l.policy], w.buckets[l.policy], l.key.value, t, clock);
      if l.policy == policy {
        AllowPays(ps[policy], w.buckets[policy], l.key.value, t, key, clock, lo, hi);
      }
      if a.allowed {
        PaidWith(w.flights, id, f.(remaining := rest, passed := f.passed + [Check(l.policy, l.key, t)]), policy, key,
          lo, hi);
      } else {
        PaidWithout(w.flights, id, policy, key, lo, hi);
      }
    }
  }

  /** Whatever the step: handler runs are paid for by requests that had passed their limit. */
  lemma StepPays(ps: map<PolicyName, Policy>, w: World, e: Event, clock: Time,
                 policy: PolicyName, key: Key, lo: Time, hi: Time)
    requires Policies(ps) && AllOk(ps, w.buckets, clock) && (e.Proceed? ==> clock <= e.t)
    requires policy in ps && Refills(ps[policy])
    ensures var w' := Step(ps, w, e);
      && AllOk(ps, w'.buckets, ClockAfter(e, clock))
      && (if RunsCharged(w, e, policy, key, lo, hi) then 1.0 else 0.0)
         + |Paid(w'.flights, policy, key, lo, hi)| as real +
           Credit(ps, w'.buckets, policy, key, ClockAfter(e, clock), lo, hi)
         <= |Paid(w.flights, policy, key, lo, hi)| as real + Credit(ps, w.buckets, policy, key, clock, lo, hi)
  {
    var later := ClockAfter(e, clock);
    AllOkLater(ps, w.buckets, clock, later);
    BudgetShrinks(ps[policy], w.buckets[policy], key, clock, later, lo, hi);
    match e
    case Arrive(id, limits) =>
      if id !in w.flights { PaidSame(w.flights, id, Flight(limits, limits, []), policy, key, lo, hi); }
    case Proceed(id, t) =>
      if id in w.flights {
        if w.flights[id].remaining == [] {
          PaidWithout(w.flights, id, policy, key, lo, hi);
        } else {
          EvaluationPays(ps, w, id, t, clock, policy, key, lo, hi);
        }
      }
    case Sweeping(n, now) =>
      if n == policy { SweepKeepsLevel(ps[n], w.buckets[n], now, key, clock, Max(later, lo)); }
  }

  lemma {:induction false} RunsWithinCredit(ps: map<PolicyName, Policy>, w: World, events: seq<Event>, clock: Time,
                                            policy: PolicyName, key: Key, lo: Time, hi: Time)
    requires Policies(ps) && AllOk(ps, w.buckets, clock) && TimelyTraffic(events, clock)
    requires policy in ps && Refills(ps[policy])
    ensures ChargedRuns(ps, w, events, policy, key, lo, hi) as real
         <= |Paid(w.flights, policy, key, lo, hi)| as real + Credit(ps, w.buckets, policy, key, clock, lo, hi)
    decreases |events|
  {
    if events == [] {
      BudgetShrinks(ps[policy], w.buckets[policy], key, clock, clock, lo, hi);
    } else {
      StepPays(ps, w, events[0], clock, policy, key, lo, hi);
      RunsWithinCredit(ps, Step(ps, w, events[0]), events[1..], ClockAfter(events[0], clock), policy, key, lo, hi);
    }
  }

  const NO_REQUESTS: map<RequestId, Flight> := map[]

  function Initial(ps: map<PolicyName, Policy>): World { World(map n | n in ps :: map[], NO_REQUESTS) }

  /** In any window of length T at most burst + rps * T of the Allows a policy grants under a key are
      followed by a handler run, however late. */
  lemma ChargedBound(ps: map<PolicyName, Policy>, events: seq<Event>, clock: Time,
                     policy: PolicyName, key: Key, lo: Time, hi: Time)
    requires Policies(ps) && TimelyTraffic(events, clock) && policy in ps && Refills(ps[policy]) && lo <= hi
    ensures ChargedRuns(ps, Initial(ps), events, policy, key, lo, hi) as real
         <= ps[policy].burst as real + Gain(ps[policy], hi - lo)
  {
    var w := Initial(ps);
    RunsWithinCredit(ps, w, events, clock, policy, key, lo, hi);
    assert Paid(w.flights, policy, key, lo, hi) == {};
    GainGrows(ps[policy], 0, hi - lo);
    assert Gain(ps[policy], 0) == 0.0;
    if Max(clock, lo) <= hi { GainGrows(ps[policy], hi - Max(clock, lo), hi - lo); }
  }

  // ----- a handler has passed the limits its request arrived with ----------------------------

  predicate HasPassed(passed: seq<Check>, l: Limit) {
    exists i :: 0 <= i < |passed| && passed[i].policy == l.policy && passed[i].key == l.key
  }

  /** A limit that is not skipped. */
  predicate Applies(ps: map<PolicyName, Policy>, l: Limit) { l.key.Some? && l.policy in ps }

  /** What has been evaluated of the limits the request arrived with has been passed. */
  predicate FlightOk(ps: map<PolicyName, Policy>, f: Flight, clock: Time) {
    && |f.remaining| <= |f.arrived| && f.remaining == f.arrived[|f.arrived|-|f.remaining|..]
    && (forall i :: 0 <= i < |f.arrived| - |f.remaining| && Applies(ps, f.arrived[i]) ==>
         HasPassed(f.passed, f.arrived[i]))
    && (forall i :: 0 <= i < |f.passed| ==> f.passed[i].t <= clock)
  }

  predicate FlightsOk(ps: map<PolicyName, Policy>, flights: map<RequestId, Flight>, clock: Time) {
    forall id :: id in flights ==> FlightOk(ps, flights[id], clock)
  }

  lemma FlightOkLater(ps: map<PolicyName, Policy>, f: Flight, clock: Time, later: Time)
    requires FlightOk(ps, f, clock) && clock <= later
    ensures FlightOk(ps, f, later)
  {
  }

  lemma PassedOneMore(passed: seq<Check>, c: Check, l: Limit)
    ensures HasPassed(passed, l) ==> HasPassed(passed + [c], l)
    ensures c.policy == l.policy && c.key == l.key ==> HasPassed(passed + [c], l)
  {
    if i :| 0 <= i < |passed| && passed[i].policy == l.policy && passed[i].key == l.key {
      assert (passed + [c])[i] == passed[i];
    }
    assert (passed + [c])[|passed|] == c;
  }

  /** One limit on: skipped, or passed at t. */
  lemma FlightOn(ps: map<PolicyName, Policy>, f: Flight, t: Time)
    requires FlightOk(ps, f, t) && f.remaining != []
    ensures var l := f.remaining[0];
      && (!Applies(ps, l) ==> FlightOk(ps, f.(remaining := f.remaining[1..]), t))
      && FlightOk(ps, f.(remaining := f.remaining[1..], passed := f.passed + [Check(l.policy, l.key, t)]), t)
  {
    var l := f.remaining[0];
    var done := |f.arrived| - |f.remaining|;
    assert f.arrived[done] == l && f.remaining[1..] == f.arrived[done+1..];
    forall i | 0 <= i <= done && Applies(ps, f.arrived[i])
      ensures HasPassed(f.passed + [Check(l.policy, l.key, t)], f.arrived[i])
    {
      PassedOneMore(f.passed, Check(l.policy, l.key, t), f.arrived[i]);
    }
  }

  lemma FlightsOkLater(ps: map<PolicyName, Policy>, flights: map<RequestId, Flight>, clock: Time, later: Time)
    requires FlightsOk(ps, flights, clock) && clock <= later
    ensures FlightsOk(ps, flights, later)
  {
    forall id | id in flights ensures FlightOk(ps, flights[id], later) {
      FlightOkLater(ps, flights[id], clock, later);
    }
  }

  lemma EvaluateKeepsOk(ps: map<PolicyName, Policy>, w: World, id: RequestId, t: Time)
    requires Policies(ps) && w.buckets.Keys == ps.Keys && FlightsOk(ps, w.flights, t)
    requires id in w.flights && w.flights[id].remaining != []
    ensures FlightsOk(ps, Evaluate(ps, w, id, w.flights[id], t).flights, t)
  {
    FlightOn(ps, w.flights[id], t);
  }

  lemma FlightsStep(ps: map<PolicyName, Policy>, w: World, e: Event, clock: Time)
    requires Policies(ps) && w.buckets.Keys == ps.Keys && FlightsOk(ps, w.flights, clock)
    requires e.Proceed? ==> clock <= e.t
    ensures FlightsOk(ps, Step(ps, w, e).flights, ClockAfter(e, clock))
  {
    FlightsOkLater(ps, w.flights, clock, ClockAfter(e, clock));
    if e.Proceed? && e.id in w.flights && w.flights[e.id].remaining != [] {
      EvaluateKeepsOk(ps, w, e.id, e.t);
    }
  }

  /** Whatever ran before: a request that has come to its handler has passed every limit it arrived
      with that has a key and a known policy. */
  lemma {:induction false} HandlersHavePassed(ps: map<PolicyName, Policy>, w: World, events: seq<Event>, clock: Time,
                                              id: RequestId, l: Limit)
    requires Policies(ps) && w.buckets.Keys == ps.Keys && FlightsOk(ps, w.flights, clock)
    requires TimelyTraffic(events, clock)
    requires var w' := Run(ps, w, events);
      id in w'.flights && w'.flights[id].remaining == [] && l in w'.flights[id].arrived
    requires Applies(ps, l)
    ensures HasPassed(Run(ps, w, events).flights[id].passed, l)
    decreases |events|
  {
    if events != [] {
      FlightsStep(ps, w, events[0], clock);
      HandlersHavePassed(ps, Step(ps, w, events[0]), events[1..], ClockAfter(events[0], clock), id, l);
    }
  }

  // ----- the handler bound -------------------------------------------------------------------

  /** The step runs the handler of a request that arrived with the policy's limit under this key. */
  predicate IsGuarded(w: World, e: Event, policy: PolicyName, key: Key) {
    && e.Proceed? && e.id in w.flights && w.flights[e.id].remaining == []
    && Limit(policy, Some(key)) in w.flights[e.id].arrived
  }

  /** It does so at an instant within [lo, hi]. */
  predicate RunsHandler(w: World, e: Event, policy: PolicyName, key: Key, lo: Time, hi: Time) {
    IsGuarded(w, e, policy, key) && lo <= e.t <= hi
  }

  /** Handler runs within the window of requests that `policy` guards under `key`. */
  function HandlerRuns(ps: map<PolicyName, Policy>, w: World, events: seq<Event>,
                       policy: PolicyName, key: Key, lo: Time, hi: Time): nat
    requires Policies(ps) && w.buckets.Keys == ps.Keys
    decreases |events|
  {
    if events == [] then 0
    else
      (if RunsHandler(w, events[0], policy, key, lo, hi) then 1 else 0)
      + HandlerRuns(ps, Step(ps, w, events[0]), events[1..], policy, key, lo, hi)
  }

  /** When the request last passed the policy's limit under this key. */
  function LastPassed(passed: seq<Check>, policy: PolicyName, key: Key): (t: Option<Time>)
    ensures t.None? <==> !HasPassed(passed, Limit(policy, Some(key)))
    ensures t.Some? ==>
      exists i ::
        0 <= i < |passed| && passed[i].policy == policy && passed[i].key == Some(key) && passed[i].t == t.value
  {
    if passed == [] then None
    else
      var n := |passed| - 1;
      assert passed == passed[..n] + [passed[n]];
      if passed[n].policy == policy && passed[n].key == Some(key) then Some(passed[n].t)
      else
        LastPassed(passed[..n], policy, key)
  }

  /** No handler guarded so runs more than d after its request last passed that limit. */
  predicate Prompt(ps: map<PolicyName, Policy>, w: World, events: seq<Event>, policy: PolicyName, key: Key, d: Time)
    requires Policies(ps) && w.buckets.Keys == ps.Keys
    decreases |events|
  {
    events != [] ==>
      && (IsGuarded(w, events[0], policy, key) ==>
            var last := LastPassed(w.flights[events[0].id].passed, policy, key);
            last.Some? ==> events[0].t <= last.value + d)
      && Prompt(ps, Step(ps, w, events[0]), events[1..], policy, key, d)
  }

  /** A prompt handler run within [lo, hi] was paid for within [lo - d, hi]. */
  lemma HandlerIsCharged(ps: map<PolicyName, Policy>, w: World, e: Event, clock: Time,
                         policy: PolicyName, key: Key, lo: Time, hi: Time, d: Time)
    requires FlightsOk(ps, w.flights, clock) && policy in ps && RunsHandler(w, e, policy, key, lo, hi) && clock <= e.t
    requires var last := LastPassed(w.flights[e.id].passed, policy, key); last.Some? ==> e.t <= last.value + d
    ensures RunsCharged(w, e, policy, key, lo - d, hi)
  {
    var f := w.flights[e.id];
    assert FlightOk(ps, f, clock);
    var i :| 0 <= i < |f.arrived| && f.arrived[i] == Limit(policy, Some(key));
    assert Applies(ps, f.arrived[i]) && HasPassed(f.passed, f.arrived[i]);
    var j :| 0 <= j < |f.passed| && f.passed[j].policy == policy && f.passed[j].key == Some(key)
             && f.passed[j].t == LastPassed(f.passed, policy, key).value;
    assert IsCharge(f.passed[j], policy, key, lo - d, hi);
  }

  lemma {:induction false} HandlersAreCharged(ps: map<PolicyName, Policy>, w: World, events: seq<Event>, clock: Time,
                                              policy: PolicyName, key: Key, lo: Time, hi: Time, d: Time)
    requires Policies(ps) && w.buckets.Keys == ps.Keys && FlightsOk(ps, w.flights, clock)
    requires TimelyTraffic(events, clock)
    requires policy in ps && Prompt(ps, w, events, policy, key, d)
    ensures HandlerRuns(ps, w, events, policy, key, lo, hi) <= ChargedRuns(ps, w, events, policy, key, lo - d, hi)
    decreases |events|
  {
    if events != [] {
      var e := events[0];
      FlightsStep(ps, w, e, clock);
      HandlersAreCharged(ps, Step(ps, w, e), events[1..], ClockAfter(e, clock), policy, key, lo, hi, d);
      if RunsHandler(w, e, policy, key, lo, hi) { HandlerIsCharged(ps, w, e, clock, policy, key, lo, hi, d); }
    }
  }

  /** In any traffic, with the limits of any number of requests and the sweeps interleaved in any way:
      when no handler runs more than d after its request last passed the limit, at most
      burst + rps * (T + d) handlers of requests a policy guards under a key run in any window of
      length T. */
  lemma HandlerBound(ps: map<PolicyName, Policy>, events: seq<Event>, clock: Time,
                     policy: PolicyName, key: Key, lo: Time, hi: Time, d: Time)
    requires Policies(ps) && TimelyTraffic(events, clock) && policy in ps && Refills(ps[policy]) && lo <= hi && d >= 0
    requires Prompt(ps, Initial(ps), events, policy, key, d)
    ensures HandlerRuns(ps, Initial(ps), events, policy, key, lo, hi) as real
         <= ps[policy].burst as real + Gain(ps[policy], hi - lo + d)
  {
    HandlersAreCharged(ps, Initial(ps), events, clock, policy, key, lo, hi, d);
    ChargedBound(ps, events, clock, policy, key, lo - d, hi);
  }

  lemma OneMore(ps: map<PolicyName, Policy>, w: World, e: Event, rest: seq<Event>, policy: PolicyName, key: Key,
                lo: Time, hi: Time, d: Time)
    requires Policies(ps) && w.buckets.Keys == ps.Keys
    ensures HandlerRuns(ps, w, [e] + rest, policy, key, lo, hi)
         == (if RunsHandler(w, e, policy, key, lo, hi) then 1 else 0) +
           HandlerRuns(ps, Step(ps, w, e), rest, policy, key, lo, hi)
    ensures Prompt(ps, w, [e] + rest, policy, key, d) <==>
      && (IsGuarded(w, e, policy, key) ==>
            var last := LastPassed(w.flights[e.id].passed, policy, key); last.Some? ==> e.t <= last.value + d)
      && Prompt(ps, Step(ps, w, e), rest, policy, key, d)
  {
    assert ([e] + rest)[1..] == rest;
  }

  /** Two requests that have passed, one at 0 and one at 1 s, run their handlers at 1 s. */
  lemma BothRun(ps: map<PolicyName, Policy>, w: World, policy: PolicyName, key: Key)
    requires Policies(ps) && w.buckets.Keys == ps.Keys && 0 in w.flights && 1 in w.flights
    requires var l := Limit(policy, Some(key));
      && w.flights[0] == Flight([l], [], [Check(policy, Some(key), 0)])
      && w.flights[1] == Flight([l], [], [Check(policy, Some(key), SECOND)])
    ensures var events := [Proceed(0, SECOND)] + ([Proceed(1, SECOND)] + []);
      && HandlerRuns(ps, w, events, policy, key, SECOND, SECOND) == 2
      && Prompt(ps, w, events, policy, key, SECOND)
  {
    var w1 := Step(ps, w, Proceed(0, SECOND));
    OneMore(ps, w, Proceed(0, SECOND), [Proceed(1, SECOND)] + [], policy, key, SECOND, SECOND, SECOND);
    OneMore(ps, w1, Proceed(1, SECOND), [], policy, key, SECOND, SECOND, SECOND);
  }

  lemma BothPass(policy: PolicyName, key: Key, idle: Time) returns (w1: World, w2: World, w3: World, w4: World)
    requires idle >= SECOND - 1
    ensures var ps := map[policy := Policy(1.0, 1, idle)]; var l := Limit(policy, Some(key));
      && w1 == Step(ps, Initial(ps), Arrive(0, [l])) && w2 == Step(ps, w1, Arrive(1, [l]))
      && w3 == Step(ps, w2, Proceed(0, 0)) && w4 == Step(ps, w3, Proceed(1, SECOND))
      && !IsGuarded(w2, Proceed(0, 0), policy, key) && !IsGuarded(w3, Proceed(1, SECOND), policy, key)
      && w4.flights.Keys == {0, 1}
      && w4.flights[0] == Flight([l], [], [Check(policy, Some(key), 0)])
      && w4.flights[1] == Flight([l], [], [Check(policy, Some(key), SECOND)])
  {
    var p := Policy(1.0, 1, idle);
    var ps := map[policy := p];
    var l := Limit(policy, Some(key));
    assert Gain(p, SECOND) == 1.0;
    w1 := Step(ps, Initial(ps), Arrive(0, [l]));
    w2 := Step(ps, w1, Arrive(1, [l]));
    w3 := Step(ps, w2, Proceed(0, 0));
    assert w3.buckets[policy] == map[key := Entry(Bucket(0.0, 0), 0)];
    w4 := Step(ps, w3, Proceed(1, SECOND));
  }

  /** Both arrive, each passes at its instant, and then both run. */
  function Bunch(limits: seq<Limit>): seq<Event> {
    [Arrive(0, limits)] + ([Arrive(1, limits)] + ([Proceed(0, 0)] + ([Proceed(1, SECOND)] +
      ([Proceed(0, SECOND)] + ([Proceed(1, SECOND)] + [])))))
  }

  lemma BunchIsTimely(limits: seq<Limit>)
    ensures TimelyTraffic(Bunch(limits), 0)
  {
    var e4 := [Proceed(0, SECOND)] + ([Proceed(1, SECOND)] + []);
    var e3 := [Proceed(1, SECOND)] + e4;
    var e2 := [Proceed(0, 0)] + e3;
    var e1 := [Arrive(1, limits)] + e2;
    assert e4[1..] == [Proceed(1, SECOND)] && TimelyTraffic(e4, SECOND);
    assert e3[1..] == e4 && TimelyTraffic(e3, 0);
    assert e2[1..] == e3 && TimelyTraffic(e2, 0);
    assert e1[1..] == e2 && ([Arrive(0, limits)] + e1)[1..] == e1;
  }

  lemma BunchRuns(ps: map<PolicyName, Policy>, w0: World, w1: World, w2: World, w3: World, w4: World,
                  policy: PolicyName, key: Key, limits: seq<Limit>)
    requires Policies(ps) && w0.buckets.Keys == ps.Keys && w1.buckets.Keys == ps.Keys
    requires w2.buckets.Keys == ps.Keys && w3.buckets.Keys == ps.Keys
    requires w1 == Step(ps, w0, Arrive(0, limits)) && w2 == Step(ps, w1, Arrive(1, limits))
    requires w3 == Step(ps, w2, Proceed(0, 0)) && w4 == Step(ps, w3, Proceed(1, SECOND))
    requires !IsGuarded(w2, Proceed(0, 0), policy, key) && !IsGuarded(w3, Proceed(1, SECOND), policy, key)
    requires HandlerRuns(ps, w4, [Proceed(0, SECOND)] + ([Proceed(1, SECOND)] + []), policy, key, SECOND, SECOND) == 2
    requires Prompt(ps, w4, [Proceed(0, SECOND)] + ([Proceed(1, SECOND)] + []), policy, key, SECOND)
    ensures HandlerRuns(ps, w0, Bunch(limits), policy, key, SECOND, SECOND) == 2
    ensures Prompt(ps, w0, Bunch(limits), policy, key, SECOND)
  {
    var e4 := [Proceed(0, SECOND)] + ([Proceed(1, SECOND)] + []);
    var e3 := [Proceed(1, SECOND)] + e4;
    var e2 := [Proceed(0, 0)] + e3;
    OneMore(ps, w3, Proceed(1, SECOND), e4, policy, key, SECOND, SECOND, SECOND);
    OneMore(ps, w2, Proceed(0, 0), e3, policy, key, SECOND, SECOND, SECOND);
    OneMore(ps, w1, Arrive(1, limits), e2, policy, key, SECOND, SECOND, SECOND);
    OneMore(ps, w0, Arrive(0, limits), [Arrive(1, limits)] + e2, policy, key, SECOND, SECOND, SECOND);
  }

  /** The delay counts: with one token a second and a burst of one, a request that passes at 0 and one
      that passes at 1 s can both run their handlers at 1 s. That is more than the burst in no time at
      all, and exactly what HandlerBound allows for d = 1 s. */
  lemma LateHandlersBunch(policy: PolicyName, key: Key, idle: Time)
    requires idle >= SECOND - 1
    ensures var ps := map[policy := Policy(1.0, 1, idle)]; var events := Bunch([Limit(policy, Some(key))]);
      && Policies(ps) && Refills(ps[policy]) && TimelyTraffic(events, 0)
      && Prompt(ps, Initial(ps), events, policy, key, SECOND)
      && var runs := HandlerRuns(ps, Initial(ps), events, policy, key, SECOND, SECOND) as real;
         && runs > ps[policy].burst as real + Gain(ps[policy], 0)
         && runs == ps[policy].burst as real + Gain(ps[policy], SECOND)
  {
    var ps := map[policy := Policy(1.0, 1, idle)];
    var limits := [Limit(policy, Some(key))];
    assert Gain(ps[policy], SECOND) == 1.0 && Gain(ps[policy], 0) == 0.0;
    GainGrows(ps[policy], SECOND, idle + 1);
    var w1, w2, w3, w4 := BothPass(policy, key, idle);
    BothRun(ps, w4, policy, key);
    BunchRuns(ps, Initial(ps), w1, w2, w3, w4, policy, key, limits);
    BunchIsTimely(limits);
  }
}

/** The interceptor that applies several limits to one method, in order. */
module RateLimitInterceptor {
  import opened Prelude
  import opened RateLimiter

  datatype PolicyName = PolicyName(text: string)
  datatype Request = Request(context: string, message: string)

  /** None: no key can be derived, and the limit is skipped for this request. */
  type Extractor = Request -> Option<Key>

  datatype MethodLimit = MethodLimit(policy: PolicyName, extractor: Extractor)

  type Bindings = map<string, seq<MethodLimit>>

  type State = map<PolicyName, Entries>

  /** One limit of one request: the extracted key and the instant its Allow reads. */
  datatype Check = Check(policy: PolicyName, key: Option<Key>, t: Time)

  datatype Verdict = Admitted | Throttled(retryAfter: real)

  predicate Policies(ps: map<PolicyName, Policy>) { forall n :: n in ps ==> ps[n].Valid() }

  /** Evaluates the limits in order; the first denial aborts, earlier ones keep their charge. */
  function RunChecks(ps: map<PolicyName, Policy>, st: State, checks: seq<Check>): (r: (State, Verdict))
    requires Policies(ps) && st.Keys == ps.Keys
    ensures r.0.Keys == ps.Keys
    decreases |checks|
  {
    if checks == [] then (st, Admitted)
    else
      var c := checks[0];
      if c.key.None? || c.policy !in ps then RunChecks(ps, st, checks[1..])
      else
        var (entries, a) := AllowAt(ps[c.policy], st[c.policy], c.key.value, c.t);
        var st' := st[c.policy := entries];
        if !a.allowed then (st', Throttled(a.retryAfter)) else RunChecks(ps, st', checks[1..])
  }

  /** The checks a request to `method` goes through; instants[i] is read by its i-th Allow. */
  function ChecksFor(bindings: Bindings, name: string, req: Request, instants: nat -> Time): seq<Check> {
    if name !in bindings then []
    else
      var limits := bindings[name];
      seq(|limits|, i requires 0 <= i < |limits| => Check(limits[i].policy, limits[i].extractor(req), instants(i)))
  }

  // ----- one request, limit by limit ---------------------------------------------------------

  /** A limit without a key or with an unknown policy passes; any other spends from its own policy's bucket
      of its own key, and leaves every other bucket alone. */
  ghost predicate Charges(ps: map<PolicyName, Policy>, l: MethodLimit, req: Request, t: Time,
                          before: State, after: State, a: Answer)
    requires Policies(ps) && before.Keys == ps.Keys
  {
    match l.extractor(req)
    case None => after == before && a.allowed
    case Some(key) =>
      if l.policy !in ps then after == before && a.allowed
      else
        && AllowAt(ps[l.policy], before[l.policy], key, t).1 == a
        && after == before[l.policy := AllowAt(ps[l.policy], before[l.policy], key, t).0]
  }

  /** From the limit at position `from` on, answer after answer: all allowed, up to the last limit or to the
      first denial. */
  ghost predicate IsEvaluation(ps: map<PolicyName, Policy>, limits: seq<MethodLimit>, req: Request,
                               instants: nat -> Time, from: nat, states: seq<State>, answers: seq<Answer>, v: Verdict)
    requires Policies(ps)
  {
    && |states| == |answers| + 1 && from + |answers| <= |limits|
    && (forall i :: 0 <= i < |states| ==> states[i].Keys == ps.Keys)
    && (forall i :: 0 <= i < |answers| ==>
          Charges(ps, limits[from + i], req, instants(from + i), states[i], states[i+1], answers[i]))
    && (forall i :: 0 <= i < |answers| - 1 ==> answers[i].allowed)
    && match v
       case Admitted => from + |answers| == |limits| && (answers != [] ==> answers[|answers|-1].allowed)
       case Throttled(d) => answers != [] && answers[|answers|-1] == Answer(false, d)
  }

  /** What the first of several checks does to the buckets, and how the others go on from there. */
  lemma FirstCheck(ps: map<PolicyName, Policy>, st: State, checks: seq<Check>, l: MethodLimit, req: Request)
    returns (after: State, a: Answer)
    requires Policies(ps) && st.Keys == ps.Keys && checks != []
    requires checks[0].policy == l.policy && checks[0].key == l.extractor(req)
    ensures after.Keys == ps.Keys && Charges(ps, l, req, checks[0].t, st, after, a)
    ensures RunChecks(ps, st, checks) ==
      if a.allowed then RunChecks(ps, after, checks[1..]) else (after, Throttled(a.retryAfter))
  {
    var c := checks[0];
    after, a := st, Answer(true, 0.0);
    if c.key.Some? && c.policy in ps {
      var (entries, b) := AllowAt(ps[c.policy], st[c.policy], c.key.value, c.t);
      after, a := st[c.policy := entries], b;
    }
  }

  lemma Prepend(ps: map<PolicyName, Policy>, limits: seq<MethodLimit>, req: Request, instants: nat -> Time,
                from: nat, st: State, a: Answer, states: seq<State>, answers: seq<Answer>, v: Verdict)
    requires Policies(ps) && from < |limits| && st.Keys == ps.Keys && a.allowed
    requires IsEvaluation(ps, limits, req, instants, from + 1, states, answers, v)
    requires Charges(ps, limits[from], req, instants(from), st, states[0], a)
    ensures IsEvaluation(ps, limits, req, instants, from, [st] + states, [a] + answers, v)
  {
    var ss, aa := [st] + states, [a] + answers;
    forall i | 0 <= i < |aa| ensures Charges(ps, limits[from + i], req, instants(from + i), ss[i], ss[i+1], aa[i]) {
      if i > 0 { assert from + i == from + 1 + (i - 1) && ss[i] == states[i-1] && ss[i+1] == states[i-1+1]; }
    }
  }

  lemma {:induction false} EvaluatesFrom(ps: map<PolicyName, Policy>, bindings: Bindings, name: string, req: Request,
                                         instants: nat -> Time, from: nat, st: State)
    returns (states: seq<State>, answers: seq<Answer>)
    requires Policies(ps) && st.Keys == ps.Keys && name in bindings && from <= |bindings[name]|
    ensures var (after, v) := RunChecks(ps, st, ChecksFor(bindings, name, req, instants)[from..]);
      && IsEvaluation(ps, bindings[name], req, instants, from, states, answers, v)
      && states[0] == st && states[|answers|] == after
    decreases |bindings[name]| - from
  {
    var limits, checks := bindings[name], ChecksFor(bindings, name, req, instants)[from..];
    if from == |limits| { return [st], []; }
    var after, a := FirstCheck(ps, st, checks, limits[from], req);
    if !a.allowed { return [st, after], [a]; }
    assert checks[1..] == ChecksFor(bindings, name, req, instants)[from+1..];
    states, answers := EvaluatesFrom(ps, bindings, name, req, instants, from + 1, after);
    Prepend(ps, limits, req, instants, from, st, a, states, answers, RunChecks(ps, after, checks[1..]).1);
    states, answers := [st] + states, [a] + answers;
  }

  /** Unary on a method with limits: the buckets go through one state per limit, each limit charging its own
      policy under the key it extracts, until all have passed or one denies. */
  lemma UnaryEvaluates(ps: map<PolicyName, Policy>, bindings: Bindings, name: string, req: Request,
                       instants: nat -> Time, st: State)
    returns (states: seq<State>, answers: seq<Answer>)
    requires Policies(ps) && st.Keys == ps.Keys && name in bindings
    ensures var (after, v) := RunChecks(ps, st, ChecksFor(bindings, name, req, instants));
      && IsEvaluation(ps, bindings[name], req, instants, 0, states, answers, v)
      && states[0] == st && states[|answers|] == after
  {
    var checks := ChecksFor(bindings, name, req, instants);
    assert checks[0..] == checks;
    states, answers := EvaluatesFrom(ps, bindings, name, req, instants, 0, st);
  }

  predicate Bound(policies: set<PolicyName>, limits: seq<MethodLimit>) {
    forall i :: 0 <= i < |limits| ==> limits[i].policy in policies
  }

  class Interceptor {
    const limiters: map<PolicyName, KeyedLimiter>
    const bindings: Bindings

    ghost predicate Valid()
    {
      && (forall n :: n in limiters ==> limiters[n].policy.Valid())
      && (forall m, n :: m in limiters && n in limiters && m != n ==> limiters[m] != limiters[n])
    }

    ghost function PolicyTable(): map<PolicyName, Policy> {
      map n | n in limiters :: limiters[n].policy
    }

    ghost function Buckets(): State
      reads limiters.Values
    {
      map n | n in limiters :: limiters[n].entries
    }

    constructor (limiters: map<PolicyName, KeyedLimiter>, bindings: Bindings)
      ensures this.limiters == limiters && this.bindings == bindings
    {
      this.limiters, this.bindings := limiters, bindings;
    }

    /** Fails exactly when some binding names an unknown policy. */
    static method New(policies: map<PolicyName, Policy>, bindings: Bindings) returns (i: Interceptor?)
      requires Policies(policies)
      ensures i != null <==> forall m :: m in bindings ==> Bound(policies.Keys, bindings[m])
      ensures i != null ==>
        && fresh(i) && i.Valid() && i.bindings == bindings && fresh(i.limiters.Values)
        && i.PolicyTable() == policies && i.Buckets() == map n | n in policies :: map[]
    {
      var limiters: map<PolicyName, KeyedLimiter> := map[];
      var names := policies.Keys;
      while names != {}
        invariant names <= policies.Keys && limiters.Keys == policies.Keys - names
        invariant forall n :: n in limiters ==>
          fresh(limiters[n]) && limiters[n].policy == policies[n] && limiters[n].entries == map[]
        invariant forall m, n :: m in limiters && n in limiters && m != n ==> limiters[m] != limiters[n]
        decreases names
      {
        var n :| n in names;
        names := names - {n};
        var limiter := new KeyedLimiter(policies[n]);
        limiters := limiters[n := limiter];
      }
      var methods := bindings.Keys;
      while methods != {}
        invariant methods <= bindings.Keys
        invariant forall m :: m in bindings && m !in methods ==> Bound(policies.Keys, bindings[m])
        decreases methods
      {
        var m :| m in methods;
        methods := methods - {m};
        for k := 0 to |bindings[m]|
          invariant forall l :: 0 <= l < k ==> bindings[m][l].policy in policies
        {
          if bindings[m][k].policy !in limiters {
            assert !Bound(policies.Keys, bindings[m]);
            return null;
          }
        }
      }
      i := new Interceptor(limiters, bindings);
    }

    /** One policy's limiter; the others are not touched. */
    method Allow(policy: PolicyName, key: Key, t: Time) returns (a: Answer)
      requires Valid() && policy in limiters
      modifies limiters.Values
      ensures AllowAt(PolicyTable()[policy], old(Buckets())[policy], key, t).1 == a
      ensures Buckets() == old(Buckets())[policy := AllowAt(PolicyTable()[policy], old(Buckets())[policy], key, t).0]
    {
      a := limiters[policy].Allow(key, t);
    }

    /** Returns Admitted when the handler runs. */
    method Unary(name: string, req: Request, instants: nat -> Time) returns (v: Verdict)
      requires Valid()
      modifies limiters.Values
      ensures (Buckets(), v) == RunChecks(PolicyTable(), old(Buckets()), ChecksFor(bindings, name, req, instants))
    {
      if name !in bindings { return Admitted; }
      var limits := bindings[name];
      ghost var checks := ChecksFor(bindings, name, req, instants);
      ghost var goal := RunChecks(PolicyTable(), Buckets(), checks);
      assert checks[0..] == checks;
      for i := 0 to |limits|
        invariant RunChecks(PolicyTable(), Buckets(), checks[i..]) == goal
      {
        assert checks[i..][0] == checks[i] && checks[i..][1..] == checks[i+1..];
        var ml := limits[i];
        var key := ml.extractor(req);
        if key.None? { continue; }
        if ml.policy !in limiters { continue; }
        var a := Allow(ml.policy, key.value, instants(i));
        if !a.allowed { return Throttled(a.retryAfter); }
      }
      return Admitted;
    }
  }
}

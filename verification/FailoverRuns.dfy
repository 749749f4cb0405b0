/** What the failover loop guarantees, for every interleaving with other requests. */
module FailoverRuns {
  import opened Common
  import opened GatewayErrors
  import opened Balancer
  import opened Failover
  import CB = CircuitBreaker

  predicate WellWeighted(ps: seq<WeightedProvider>) {
    && (forall p :: p in ps ==> p.weight > 0)
    && TotalWeight(ps) < U64_MODULUS
  }

  function ProviderNames(ps: seq<WeightedProvider>): (names: seq<string>)
    ensures |names| == |ps|
    ensures forall i :: 0 <= i < |ps| ==> names[i] == ps[i].name
  {
    seq(|ps|, i requires 0 <= i < |ps| => ps[i].name)
  }

  // ---- safety ---------------------------------------------------------------------------

  /** What every attempt of a trace must look like in its moment. */
  ghost predicate Lawful(rq: Request, env: seq<Moment>, trace: seq<Attempt>) {
    && |trace| <= |env|
    && Distinct(Names(trace))
    && (forall k :: 0 <= k < |trace| ==>
          && trace[k].name in ProviderNames(rq.providers)
          && (trace[k].Tried? <==> Admitted(rq.cfg, env[k], trace[k].name)))
  }

  /** The verdict that attempt `k` led to. */
  function VerdictOf(rq: Request, env: seq<Moment>, trace: seq<Attempt>, k: nat): Verdict
    requires k < |trace| <= |env|
  {
    Judge(trace[k].name, rq.streaming, env[k].reply(trace[k].name))
  }

  /** Only the last attempt can have ended the request. */
  ghost predicate Continued(rq: Request, env: seq<Moment>, trace: seq<Attempt>, upTo: nat)
    requires upTo <= |trace| <= |env|
  {
    forall k :: 0 <= k < upTo && trace[k].Tried? ==> VerdictOf(rq, env, trace, k).Retry?
  }

  /** A response is the verdict of the last provider tried, and every earlier one was retryable. */
  ghost predicate Justified(rq: Request, env: seq<Moment>, trace: seq<Attempt>,
                            response: Result<Response, GatewayError>)
    requires |trace| <= |env|
  {
    if trace != [] && trace[|trace| - 1].Tried? && VerdictOf(rq, env, trace, |trace| - 1).Done?
    then response == VerdictOf(rq, env, trace, |trace| - 1).result && Continued(rq, env, trace, |trace| - 1)
    else response.Err? && Continued(rq, env, trace, |trace|)
  }

  ghost predicate Safe(rq: Request, env: seq<Moment>, trace: seq<Attempt>, response: Result<Response, GatewayError>) {
    Lawful(rq, env, trace) && Justified(rq, env, trace, response)
  }

  /** The provider selected from those left is one of them. */
  lemma SelectedIsLeft(ps: seq<WeightedProvider>, excluded: seq<string>, tick: u64)
    requires Selection(Available(ps, excluded), tick).Ok?
    ensures var p := Selection(Available(ps, excluded), tick).value;
            p in ps && p.name !in excluded && p.name in ProviderNames(ps)
  {
    var p := Selection(Available(ps, excluded), tick).value;
    assert p in Available(ps, excluded);
    AvailableMember(ps, excluded, p);
    var i :| 0 <= i < |ps| && ps[i] == p;
    assert ProviderNames(ps)[i] == p.name;
  }

  lemma LawfulAppend(rq: Request, env: seq<Moment>, trace: seq<Attempt>, a: Attempt)
    requires Lawful(rq, env, trace) && |trace| < |env|
    requires a.name !in Names(trace) && a.name in ProviderNames(rq.providers)
    requires a.Tried? <==> Admitted(rq.cfg, env[|trace|], a.name)
    ensures Lawful(rq, env, trace + [a])
  {
  }

  lemma ContinuedAppend(rq: Request, env: seq<Moment>, trace: seq<Attempt>, a: Attempt)
    requires |trace| < |env| && Continued(rq, env, trace, |trace|)
    ensures Continued(rq, env, trace + [a], |trace|)
    ensures a.Skipped? || VerdictOf(rq, env, trace + [a], |trace|).Retry? ==>
      Continued(rq, env, trace + [a], |trace| + 1)
  {
    forall k | 0 <= k < |trace| && (trace + [a])[k].Tried?
      ensures VerdictOf(rq, env, trace + [a], k).Retry?
    {
      assert VerdictOf(rq, env, trace + [a], k) == VerdictOf(rq, env, trace, k);
    }
  }

  lemma PassIsSafe(rq: Request, env: seq<Moment>, trace: seq<Attempt>, lastError: Option<GatewayError>)
    requires Lawful(rq, env, trace) && Continued(rq, env, trace, |trace|) && |trace| < |env|
    ensures match PassThrough(rq, env[|trace|], Names(trace), lastError)
            case Stop(result, None) => Safe(rq, env, trace, result)
            case Stop(result, Some(a)) => Safe(rq, env, trace + [a], result)
            case Go(a, _) =>
              Lawful(rq, env, trace + [a]) && Continued(rq, env, trace + [a], |trace| + 1)
  {
    var m, available := env[|trace|], Available(rq.providers, Names(trace));
    if available != [] && Selection(available, m.tick).Ok? {
      SelectedIsLeft(rq.providers, Names(trace), m.tick);
      var name := Selection(available, m.tick).value.name;
      var a := if Admitted(rq.cfg, m, name) then Tried(name) else Skipped(name);
      LawfulAppend(rq, env, trace, a);
      ContinuedAppend(rq, env, trace, a);
      assert VerdictOf(rq, env, trace + [a], |trace|) == Judge(name, rq.streaming, m.reply(name));
    }
  }

  /** Whatever other requests do: no name is tried twice, no provider is sent to unless the breaker
      admitted it at that moment, and the response is justified by the last attempt. */
  lemma {:induction false} LoopIsSafe(rq: Request, env: seq<Moment>, trace: seq<Attempt>,
                                      lastError: Option<GatewayError>)
    requires Lawful(rq, env, trace) && Continued(rq, env, trace, |trace|)
    ensures var (response, final) := Loop(rq, env[|trace|..], trace, lastError);
            Safe(rq, env, final, response)
    decreases |env| - |trace|
  {
    var k := |trace|;
    if k < |env| {
      PassIsSafe(rq, env, trace, lastError);
      assert env[k..][1..] == env[k + 1..];
      match PassThrough(rq, env[k], Names(trace), lastError)
      case Stop(_, _) =>
      case Go(a, e) => LoopIsSafe(rq, env, trace + [a], e);
    }
  }

  /** The loop as the handler starts it. */
  lemma ForwardIsSafe(rq: Request, env: seq<Moment>)
    ensures var (response, trace) := Loop(rq, env, [], None);
            Safe(rq, env, trace, response)
  {
    assert env[0..] == env;
    LoopIsSafe(rq, env, [], None);
  }

  // ---- which provider, and which error --------------------------------------------------

  /** Attempt `k` goes to the provider that the balancer selects from those not attempted before. */
  predicate Chosen(rq: Request, env: seq<Moment>, trace: seq<Attempt>, k: nat)
    requires k < |trace| <= |env|
  {
    var selection := Selection(Available(rq.providers, Names(trace[..k])), env[k].tick);
    selection.Ok? && selection.value.name == trace[k].name
  }

  ghost predicate FollowsBalancer(rq: Request, env: seq<Moment>, trace: seq<Attempt>)
    requires |trace| <= |env|
  {
    forall k :: 0 <= k < |trace| ==> Chosen(rq, env, trace, k)
  }

  /** The error of the last provider tried, if any was. */
  function LastErrorOf(rq: Request, env: seq<Moment>, trace: seq<Attempt>): Option<GatewayError>
    requires |trace| <= |env|
  {
    if trace == [] then None else
      var k := |trace| - 1;
      var verdict := VerdictOf(rq, env, trace, k);
      if trace[k].Tried? && verdict.Retry? then Some(verdict.error) else LastErrorOf(rq, env, trace[..k])
  }

  /** A request that no attempt ended reports the error of the last provider tried, and that the service is
      unavailable if none was tried or the balancer has nobody to select. */
  predicate ReportsError(rq: Request, env: seq<Moment>, trace: seq<Attempt>, response: Result<Response, GatewayError>)
    requires |trace| <= |env|
  {
    var last := LastErrorOf(rq, env, trace);
    || response == Err(if last.Some? then last.value else ServiceUnavailable)
    || (response == Err(ServiceUnavailable) && |trace| < |env|
        && Selection(Available(rq.providers, Names(trace)), env[|trace|].tick).Err?)
  }

  ghost predicate Reported(rq: Request, env: seq<Moment>, trace: seq<Attempt>,
                           response: Result<Response, GatewayError>)
  {
    && |trace| <= |env| && FollowsBalancer(rq, env, trace)
    && (Ended(rq, env, trace) || ReportsError(rq, env, trace, response))
  }

  lemma ChosenAppend(rq: Request, env: seq<Moment>, trace: seq<Attempt>, a: Attempt)
    requires |trace| < |env| && FollowsBalancer(rq, env, trace)
    requires var selection := Selection(Available(rq.providers, Names(trace)), env[|trace|].tick);
             selection.Ok? && selection.value.name == a.name
    ensures FollowsBalancer(rq, env, trace + [a])
  {
    forall k | 0 <= k < |trace| + 1 ensures Chosen(rq, env, trace + [a], k) {
      assert (trace + [a])[..k] == trace[..k];
      if k == |trace| { assert trace[..k] == trace; } else { assert Chosen(rq, env, trace, k); }
    }
  }

  lemma PassReports(rq: Request, env: seq<Moment>, trace: seq<Attempt>)
    requires |trace| < |env| && FollowsBalancer(rq, env, trace)
    ensures var pass := PassThrough(rq, env[|trace|], Names(trace), LastErrorOf(rq, env, trace));
            var next := trace + Made(pass);
            && |next| <= |env|
            && (pass.Stop? ==> Reported(rq, env, next, pass.result))
            && (pass.Go? ==> FollowsBalancer(rq, env, next) && pass.lastError == LastErrorOf(rq, env, next))
  {
    assert trace + [] == trace;
    var m, available := env[|trace|], Available(rq.providers, Names(trace));
    if available != [] && Selection(available, m.tick).Ok? {
      var name := Selection(available, m.tick).value.name;
      var a := if Admitted(rq.cfg, m, name) then Tried(name) else Skipped(name);
      ChosenAppend(rq, env, trace, a);
      assert (trace + [a])[..|trace|] == trace;
      assert VerdictOf(rq, env, trace + [a], |trace|) == Judge(name, rq.streaming, m.reply(name));
    }
  }

  lemma {:induction false} LoopReports(rq: Request, env: seq<Moment>, trace: seq<Attempt>)
    requires |trace| <= |env| && FollowsBalancer(rq, env, trace)
    ensures var (response, final) := Loop(rq, env[|trace|..], trace, LastErrorOf(rq, env, trace));
            Reported(rq, env, final, response)
    decreases |env| - |trace|
  {
    var k := |trace|;
    if k == |env| {
    } else {
      PassReports(rq, env, trace);
      LoopUnfolds(rq, env, k, trace, LastErrorOf(rq, env, trace));
      match PassThrough(rq, env[k], Names(trace), LastErrorOf(rq, env, trace))
      case Stop(_, _) =>
      case Go(a, e) => LoopReports(rq, env, trace + [a]);
    }
  }

  /** The handler attempts the balancer's choices in turn, and reports the last error if none ends the request. */
  lemma ForwardReports(rq: Request, env: seq<Moment>)
    ensures var (response, trace) := Loop(rq, env, [], None);
            Reported(rq, env, trace, response)
  {
    assert env[0..] == env;
    LoopReports(rq, env, []);
  }

  // ---- completeness -------------------------------------------------------------------------

  /** The request succeeds with this provider at this moment. */
  predicate Good(rq: Request, m: Moment, name: string) {
    && Admitted(rq.cfg, m, name)
    && Judge(name, rq.streaming, m.reply(name)).Done?
    && Judge(name, rq.streaming, m.reply(name)).result.Ok?
  }

  /** Trying this provider at this moment ends the request with an error. */
  predicate Terminal(rq: Request, m: Moment, name: string) {
    && Admitted(rq.cfg, m, name)
    && Judge(name, rq.streaming, m.reply(name)).Done?
    && Judge(name, rq.streaming, m.reply(name)).result.Err?
  }

  function NameSet(names: seq<string>): set<string> { set x | x in names }

  lemma {:induction false} DistinctCard(names: seq<string>)
    requires Distinct(names)
    ensures |NameSet(names)| == |names|
  {
    if names == [] {
      assert NameSet(names) == {};
    } else {
      var init, last := names[..|names| - 1], names[|names| - 1];
      DistinctCard(init);
      assert names == init + [last];
      assert NameSet(names) == NameSet(init) + {last};
      assert last !in init;
    }
  }

  lemma SubsetCard(a: set<string>, b: set<string>)
    requires a <= b
    ensures |a| <= |b|
  {
    var rest := b - a;
    assert b == a + rest;
  }

  /** Fewer attempts than providers leave somebody to select. */
  lemma SomeoneLeft(ps: seq<WeightedProvider>, excluded: seq<string>)
    requires Distinct(ProviderNames(ps)) && |excluded| < |ps|
    ensures Available(ps, excluded) != []
  {
    DistinctCard(ProviderNames(ps));
    CardAtMostLength(excluded);
    if NameSet(ProviderNames(ps)) <= NameSet(excluded) {
      SubsetCard(NameSet(ProviderNames(ps)), NameSet(excluded));
    }
    var name :| name in NameSet(ProviderNames(ps)) && name !in NameSet(excluded);
    var i :| 0 <= i < |ps| && ps[i].name == name;
    AvailableMember(ps, excluded, ps[i]);
  }

  lemma {:induction false} CardAtMostLength(names: seq<string>)
    ensures |NameSet(names)| <= |names|
  {
    if names == [] {
      assert NameSet(names) == {};
    } else {
      CardAtMostLength(names[..|names| - 1]);
      assert names == names[..|names| - 1] + [names[|names| - 1]];
      assert NameSet(names) == NameSet(names[..|names| - 1]) + {names[|names| - 1]};
    }
  }

  lemma PositiveTotal(ps: seq<WeightedProvider>)
    requires ps != [] && forall p :: p in ps ==> p.weight > 0
    ensures TotalWeight(ps) > 0
  {
    assert ps[|ps| - 1] in ps;
  }

  /** With positive weights selection inside the loop never fails. */
  lemma SelectionSucceeds(ps: seq<WeightedProvider>, excluded: seq<string>, tick: u64)
    requires Available(ps, excluded) != [] && forall p :: p in ps ==> p.weight > 0
    ensures Selection(Available(ps, excluded), tick).Ok?
  {
    var avail := Available(ps, excluded);
    forall p | p in avail ensures p.weight > 0 { AvailableMember(ps, excluded, p); }
    PositiveTotal(avail);
  }

  /** Every provider outside `bad` succeeds whenever it is tried. */
  ghost predicate GoodOutside(rq: Request, env: seq<Moment>, bad: set<string>) {
    forall m, p :: m in env && p in rq.providers && p.name !in bad ==> Good(rq, m, p.name)
  }

  /** The last attempt of a trace that uses up `env` tried a provider that answered terminally. */
  predicate EndedBadly(rq: Request, env: seq<Moment>, trace: seq<Attempt>) {
    && 0 < |trace| <= |env|
    && trace[|trace| - 1].Tried?
    && Terminal(rq, env[|trace| - 1], trace[|trace| - 1].name)
  }

  /** The loop from any point on: with fewer providers that may fail than attempts in all, it succeeds
      unless a provider that it tries answers terminally. */
  lemma {:induction false} LoopSucceeds(rq: Request, env: seq<Moment>, trace: seq<Attempt>,
                                        lastError: Option<GatewayError>, bad: set<string>)
    requires Distinct(ProviderNames(rq.providers)) && WellWeighted(rq.providers)
    requires GoodOutside(rq, env, bad)
    requires Distinct(Names(trace)) && NameSet(Names(trace)) <= bad
    requires |trace| <= |env| && |bad| < |env| <= |rq.providers|
    ensures var (response, final) := Loop(rq, env[|trace|..], trace, lastError);
            response.Ok? || EndedBadly(rq, env, final)
    decreases |env| - |trace|
  {
    var k := |trace|;
    DistinctCard(Names(trace));
    SubsetCard(NameSet(Names(trace)), bad);
    PassSucceedsOrGoesOn(rq, env, trace, lastError, bad);
    LoopUnfolds(rq, env, k, trace, lastError);
    match PassThrough(rq, env[k], Names(trace), lastError)
    case Stop(_, _) =>
    case Go(a, e) =>
      assert Names(trace + [a]) == Names(trace) + [a.name];
      LoopSucceeds(rq, env, trace + [a], e, bad);
  }

  lemma PassSucceedsOrGoesOn(rq: Request, env: seq<Moment>, trace: seq<Attempt>,
                             lastError: Option<GatewayError>, bad: set<string>)
    requires Distinct(ProviderNames(rq.providers)) && WellWeighted(rq.providers)
    requires GoodOutside(rq, env, bad) && |trace| < |env| <= |rq.providers|
    ensures match PassThrough(rq, env[|trace|], Names(trace), lastError)
            case Go(a, _) => a.name in bad && a.name !in Names(trace)
            case Stop(result, None) => false
            case Stop(result, Some(a)) => result.Ok? || EndedBadly(rq, env, trace + [a])
  {
    var m := env[|trace|];
    SomeoneLeft(rq.providers, Names(trace));
    SelectionSucceeds(rq.providers, Names(trace), m.tick);
    SelectedIsLeft(rq.providers, Names(trace), m.tick);
    assert m in env;
  }

  /** The last attempt of a trace ended the request. */
  ghost predicate Ended(rq: Request, env: seq<Moment>, trace: seq<Attempt>) {
    && 0 < |trace| <= |env|
    && trace[|trace| - 1].Tried?
    && VerdictOf(rq, env, trace, |trace| - 1).Done?
  }

  /** With distinct names and positive weights the loop never gives up early: either the last attempt
      ended the request, or every attempt was used. */
  lemma {:induction false} LoopIsExhaustive(rq: Request, env: seq<Moment>, trace: seq<Attempt>,
                                            lastError: Option<GatewayError>)
    requires Distinct(ProviderNames(rq.providers)) && WellWeighted(rq.providers)
    requires |trace| <= |env| <= |rq.providers|
    ensures var final := Loop(rq, env[|trace|..], trace, lastError).1;
            |final| == |env| || Ended(rq, env, final)
    decreases |env| - |trace|
  {
    var k := |trace|;
    if k < |env| {
      PassAttempts(rq, env, trace, lastError);
      LoopUnfolds(rq, env, k, trace, lastError);
      match PassThrough(rq, env[k], Names(trace), lastError)
      case Stop(_, _) =>
      case Go(a, e) => LoopIsExhaustive(rq, env, trace + [a], e);
    }
  }

  /** While providers are left a pass attempts one, and stops only on its verdict. */
  lemma PassAttempts(rq: Request, env: seq<Moment>, trace: seq<Attempt>, lastError: Option<GatewayError>)
    requires Distinct(ProviderNames(rq.providers)) && WellWeighted(rq.providers)
    requires |trace| < |env| <= |rq.providers|
    ensures var pass := PassThrough(rq, env[|trace|], Names(trace), lastError);
            |Made(pass)| == 1 && (pass.Stop? ==> Ended(rq, env, trace + Made(pass)))
  {
    SomeoneLeft(rq.providers, Names(trace));
    SelectionSucceeds(rq.providers, Names(trace), env[|trace|].tick);
  }

  /** Failover is complete: if fewer providers may fail than attempts are made, the request succeeds
      unless a provider that it tries answers terminally, however other requests move the counter and
      the breaker. */
  lemma FailoverCompletes(rq: Request, env: seq<Moment>, bad: set<string>)
    requires Distinct(ProviderNames(rq.providers)) && WellWeighted(rq.providers)
    requires |env| == Min(|rq.providers|, 3)
    requires GoodOutside(rq, env, bad) && |bad| < |env|
    ensures var (response, trace) := Loop(rq, env, [], None);
            response.Ok? || EndedBadly(rq, env, trace)
  {
    assert env[0..] == env;
    assert NameSet(Names([])) == {};
    LoopSucceeds(rq, env, [], None, bad);
  }

  /** With at most three providers one that keeps succeeding is enough. */
  lemma OneGoodProviderSuffices(rq: Request, env: seq<Moment>, good: string)
    requires Distinct(ProviderNames(rq.providers)) && WellWeighted(rq.providers)
    requires |env| == |rq.providers| <= 3
    requires good in ProviderNames(rq.providers) && forall m :: m in env ==> Good(rq, m, good)
    ensures var (response, trace) := Loop(rq, env, [], None);
            response.Ok? || EndedBadly(rq, env, trace)
  {
    var names := NameSet(ProviderNames(rq.providers));
    DistinctCard(ProviderNames(rq.providers));
    assert good in names;
    var bad := names - {good};
    assert names == bad + {good};
    forall m, p | m in env && p in rq.providers && p.name !in bad ensures Good(rq, m, p.name) {
      var i :| 0 <= i < |rq.providers| && rq.providers[i] == p;
      assert ProviderNames(rq.providers)[i] == p.name;
    }
    FailoverCompletes(rq, env, bad);
  }

  /** If moreover no provider ever answers terminally, the request succeeds. */
  lemma FailoverSucceeds(rq: Request, env: seq<Moment>, bad: set<string>)
    requires Distinct(ProviderNames(rq.providers)) && WellWeighted(rq.providers)
    requires |env| == Min(|rq.providers|, 3)
    requires GoodOutside(rq, env, bad) && |bad| < |env|
    requires forall m, p :: m in env && p in rq.providers ==> !Terminal(rq, m, p.name)
    ensures Loop(rq, env, [], None).0.Ok?
  {
    FailoverCompletes(rq, env, bad);
    ForwardIsSafe(rq, env);
    SomeoneEndedIt(rq, env, Loop(rq, env, [], None).1);
  }

  lemma SomeoneEndedIt(rq: Request, env: seq<Moment>, trace: seq<Attempt>)
    requires Lawful(rq, env, trace)
    ensures EndedBadly(rq, env, trace) ==> exists m, p :: m in env && p in rq.providers && Terminal(rq, m, p.name)
  {
    if EndedBadly(rq, env, trace) {
      var k := |trace| - 1;
      var i :| 0 <= i < |rq.providers| && ProviderNames(rq.providers)[i] == trace[k].name;
      assert env[k] in env && rq.providers[i] in rq.providers;
    }
  }

  // ---- the exact condition --------------------------------------------------------------------

  /** Runs that differ from `base` only in what the shared counter was at each attempt. */
  ghost predicate ScheduleOf(base: Moment, env: seq<Moment>) {
    forall k :: 0 <= k < |env| ==> env[k] == base.(tick := env[k].tick)
  }

  function Failing(rq: Request, m: Moment): set<string> {
    set p | p in rq.providers && !Good(rq, m, p.name) :: p.name
  }

  lemma {:induction false} AvailableTotal(ps: seq<WeightedProvider>, excluded: seq<string>)
    ensures TotalWeight(Available(ps, excluded)) <= TotalWeight(ps)
  {
    if ps == [] {
    } else {
      AvailableTotal(ps[1..], excluded);
      TotalCons(ps);
      var avail := Available(ps, excluded);
      if ps[0].name !in excluded {
        TotalCons(avail);
        assert avail[1..] == Available(ps[1..], excluded);
      } else {
        assert avail == Available(ps[1..], excluded);
      }
    }
  }

  lemma {:induction false} TotalCons(ps: seq<WeightedProvider>)
    requires ps != []
    ensures TotalWeight(ps) == ps[0].weight + TotalWeight(ps[1..])
  {
    if |ps| == 1 {
      assert ps[..0] == [] && ps[1..] == [];
    } else {
      TotalCons(ps[..|ps| - 1]);
      assert ps[..|ps| - 1][1..] == ps[1..][..|ps[1..]| - 1];
    }
  }

  /** Some counter value makes the balancer select any provider that is left. */
  lemma TickFor(ps: seq<WeightedProvider>, excluded: seq<string>, p: WeightedProvider) returns (tick: u64)
    requires WellWeighted(ps) && p in ps && p.name !in excluded
    ensures Available(ps, excluded) != [] && Selection(Available(ps, excluded), tick) == Ok(p)
  {
    var avail := Available(ps, excluded);
    AvailableMember(ps, excluded, p);
    var i :| 0 <= i < |avail| && avail[i] == p;
    AvailableTotal(ps, excluded);
    SlotsOf(avail, i, TotalWeight(avail[..i]));
    tick := TotalWeight(avail[..i]);
    CyclicIsMod(Expand(avail), tick);
    assert Pick(avail, tick) == i;
  }

  /** A schedule that meets a failing provider at each of `n` attempts. */
  lemma {:induction false} Adversary(rq: Request, base: Moment, n: nat, trace: seq<Attempt>,
                                     lastError: Option<GatewayError>) returns (env: seq<Moment>)
    requires WellWeighted(rq.providers)
    requires Distinct(Names(trace)) && NameSet(Names(trace)) <= Failing(rq, base)
    requires |trace| + n <= |Failing(rq, base)|
    ensures |env| == n && ScheduleOf(base, env)
    ensures Loop(rq, env, trace, lastError).0.Err?
    decreases n
  {
    if n == 0 {
      env := [];
    } else {
      var p := UntriedFailing(rq, base, trace);
      var tick := TickFor(rq.providers, Names(trace), p);
      var m := base.(tick := tick);
      var a := if Admitted(rq.cfg, m, p.name) then Tried(p.name) else Skipped(p.name);
      assert Names(trace + [a]) == Names(trace) + [p.name];
      var rest := Adversary(rq, base, n - 1, trace + [a], ErrorAfter(rq, m, p, lastError));
      env := [m] + rest;
      StepOnFailing(rq, m, rest, trace, lastError, p);
    }
  }

  lemma UntriedFailing(rq: Request, base: Moment, trace: seq<Attempt>) returns (p: WeightedProvider)
    requires Distinct(Names(trace)) && |trace| < |Failing(rq, base)|
    ensures p in rq.providers && p.name in Failing(rq, base) && p.name !in Names(trace)
    ensures forall tick: u64 :: !Good(rq, base.(tick := tick), p.name)
  {
    DistinctCard(Names(trace));
    if Failing(rq, base) <= NameSet(Names(trace)) {
      SubsetCard(Failing(rq, base), NameSet(Names(trace)));
    }
    var name :| name in Failing(rq, base) && name !in NameSet(Names(trace));
    p :| p in rq.providers && !Good(rq, base, p.name) && p.name == name;
  }

  /** The last error once provider `p` failed. */
  function ErrorAfter(rq: Request, m: Moment, p: WeightedProvider, lastError: Option<GatewayError>)
    : Option<GatewayError>
  {
    var verdict := Judge(p.name, rq.streaming, m.reply(p.name));
    if Admitted(rq.cfg, m, p.name) && verdict.Retry? then Some(verdict.error) else lastError
  }

  lemma StepOnFailing(rq: Request, m: Moment, rest: seq<Moment>, trace: seq<Attempt>,
                      lastError: Option<GatewayError>, p: WeightedProvider)
    requires Available(rq.providers, Names(trace)) != []
    requires Selection(Available(rq.providers, Names(trace)), m.tick) == Ok(p) && !Good(rq, m, p.name)
    ensures var a := if Admitted(rq.cfg, m, p.name) then Tried(p.name) else Skipped(p.name);
            (Loop(rq, rest, trace + [a], ErrorAfter(rq, m, p, lastError)).0.Err?
             ==> Loop(rq, [m] + rest, trace, lastError).0.Err?)
  {
    assert ([m] + rest)[1..] == rest;
  }

  /** If the providers behave the same at every attempt, the request succeeds under every schedule
      exactly when no provider answers terminally and fewer fail than attempts are made. */
  lemma FailoverIff(rq: Request, base: Moment)
    requires Distinct(ProviderNames(rq.providers)) && WellWeighted(rq.providers)
    ensures (forall env :: |env| == Min(|rq.providers|, 3) && ScheduleOf(base, env) ==> Loop(rq, env, [], None).0.Ok?)
            <==> (|Failing(rq, base)| < Min(|rq.providers|, 3)
                  && forall p :: p in rq.providers ==> !Terminal(rq, base, p.name))
  {
    var attempts := Min(|rq.providers|, 3);
    var bad := Failing(rq, base);
    if exists p :: p in rq.providers && Terminal(rq, base, p.name) {
      var p :| p in rq.providers && Terminal(rq, base, p.name);
      var env := TerminalFirst(rq, base, attempts, p);
    } else if |bad| >= attempts {
      var env := Adversary(rq, base, attempts, [], None);
    } else {
      forall env | |env| == attempts && ScheduleOf(base, env)
        ensures Loop(rq, env, [], None).0.Ok?
      {
        FailoverSucceeds(rq, env, bad);
      }
    }
  }

  lemma TerminalFirst(rq: Request, base: Moment, n: nat, p: WeightedProvider) returns (env: seq<Moment>)
    requires WellWeighted(rq.providers) && p in rq.providers && Terminal(rq, base, p.name) && 0 < n
    ensures |env| == n && ScheduleOf(base, env) && Loop(rq, env, [], None).0.Err?
  {
    var tick := TickFor(rq.providers, [], p);
    env := seq(n, _ => base.(tick := tick));
    assert Names([]) == [];
    assert env[0] == base.(tick := tick);
  }
}

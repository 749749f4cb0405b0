/** The provider selection and failover loop of the request handler. */
module Failover {
  import opened Common
  import opened GatewayErrors
  import opened Balancer
  import CB = CircuitBreaker

  /** What comes of trying an admitted provider. */
  datatype Reply =
    | CredentialsUnavailable
    | Untranslatable
    | Delivered
    | Garbled
    | HttpError(status: nat)
    | TimedOut
    | Unreachable

  datatype Response = Body(provider: string) | Stream(provider: string)

  /** Whether a reply ends the request or lets the loop go on, and what the breaker is told. */
  datatype Verdict =
    | Done(result: Result<Response, GatewayError>, outcome: Option<CB.CallResult>)
    | Retry(error: GatewayError, outcome: Option<CB.CallResult>)

  function Judge(name: string, streaming: bool, reply: Reply): Verdict {
    if reply.CredentialsUnavailable? then Done(Err(ServiceUnavailable), None)
    else if reply.Untranslatable? then Done(Err(Internal), None)
    else if streaming then Done(Ok(Stream(name)), Some(CB.Success))
    else if reply.Delivered? then Done(Ok(Body(name)), Some(CB.Success))
    else if reply.Garbled? then Done(Err(ProviderError), Some(CB.Success))
    else if reply.HttpError? then JudgeStatus(reply.status)
    else if reply.TimedOut? then Retry(ServiceUnavailable, Some(CB.Timeout))
    else Retry(ServiceUnavailable, Some(CB.Failure))
  }

  function JudgeStatus(status: nat): Verdict {
    if status == 400 || status == 404 then Done(Err(BadRequest), None)
    else if status == 401 || status == 403 then Done(Err(Unauthorized), None)
    else if status == 429 then Retry(RateLimited(30), Some(CB.RateLimited))
    else if status >= 500 then Retry(ServiceUnavailable, Some(CB.Failure))
    else Retry(ProviderError, None)
  }

  /** Which replies move on to another provider, which count against the provider, which of them
      the breaker never hears of, and which error each leaves behind. */
  lemma JudgeClassifies(name: string, reply: Reply)
    ensures var v := Judge(name, false, reply);
            && (v.Retry? <==>
                reply in {TimedOut, Unreachable} || (reply.HttpError? && reply.status !in {400, 401, 403, 404}))
            && (v.Done? && v.result.Ok? <==> reply.Delivered?)
            && (v.outcome == Some(CB.RateLimited) <==> reply == HttpError(429))
            && (v.outcome == Some(CB.Timeout) <==> reply.TimedOut?)
            && (v.outcome == Some(CB.Failure) <==> reply.Unreachable? || (reply.HttpError? && reply.status >= 500))
            && (v.outcome == Some(CB.Success) <==> reply.Delivered? || reply.Garbled?)
            && (v == Done(Err(Unauthorized), None) <==> reply in {HttpError(401), HttpError(403)})
            && (v == Done(Err(BadRequest), None) <==> reply in {HttpError(400), HttpError(404)})
            && (v.Retry? ==> match v.error
                case RateLimited(after) => after == 30 && reply == HttpError(429)
                case ProviderError => reply.HttpError? && reply.status < 500 && v.outcome.None?
                case ServiceUnavailable => v.outcome in {Some(CB.Timeout), Some(CB.Failure)}
                case _ => false)
            && (v.Done? ==> match v.result
                case Ok(response) => response == Body(name)
                case Err(ServiceUnavailable) => reply.CredentialsUnavailable?
                case Err(Internal) => reply.Untranslatable?
                case Err(ProviderError) => reply.Garbled?
                case Err(error) => error in {BadRequest, Unauthorized} && reply.HttpError?)
    ensures var s := Judge(name, true, reply);
            && s.Done? && (s.result.Ok? <==> !reply.CredentialsUnavailable? && !reply.Untranslatable?)
            && (s.outcome == Some(CB.Success) <==> s.result.Ok?) && (s.outcome == None <==> s.result.Err?)
            && (s.result.Ok? ==> s.result.value == Stream(name))
            && (s.result == Err(ServiceUnavailable) <==> reply.CredentialsUnavailable?)
            && (s.result == Err(Internal) <==> reply.Untranslatable?)
  {
  }

  /** What the rest of the system does around one attempt: the shared state that other requests
      left before each of its atomic steps, the clock readings, and the providers' replies. */
  datatype Moment = Moment(
    tick: u64,
    statesAtQuery: CB.States, queryTime: Instant,
    reply: string -> Reply,
    statesAtRecord: CB.States, recordTime: Instant)

  datatype Attempt = Skipped(name: string) | Tried(name: string)

  function Names(trace: seq<Attempt>): (names: seq<string>)
    ensures |names| == |trace|
    ensures forall i :: 0 <= i < |trace| ==> names[i] == trace[i].name
  {
    seq(|trace|, i requires 0 <= i < |trace| => trace[i].name)
  }

  predicate Admitted(cfg: CB.Config, m: Moment, name: string) {
    CB.Admits(CB.Lookup(cfg, m.statesAtQuery, name), m.queryTime)
  }

  datatype Request = Request(cfg: CB.Config, providers: seq<WeightedProvider>, streaming: bool)

  /** What one pass through the loop body comes to: the attempt it made, if any, and how to go on. */
  datatype Pass =
    | Stop(result: Result<Response, GatewayError>, last: Option<Attempt>)
    | Go(attempt: Attempt, lastError: Option<GatewayError>)

  function Made(pass: Pass): seq<Attempt> {
    match pass
    case Stop(_, None) => []
    case Stop(_, Some(a)) => [a]
    case Go(a, _) => [a]
  }

  function Exhausted(lastError: Option<GatewayError>): Result<Response, GatewayError> {
    Err(if lastError.Some? then lastError.value else ServiceUnavailable)
  }

  function PassThrough(rq: Request, m: Moment, excluded: seq<string>, lastError: Option<GatewayError>): Pass {
    var available := Available(rq.providers, excluded);
    if available == [] then Stop(Exhausted(lastError), None) else
      match Selection(available, m.tick)
      case Err(e) => Stop(Err(e), None)
      case Ok(p) => TryOne(rq, m, lastError, p.name)
  }

  function TryOne(rq: Request, m: Moment, lastError: Option<GatewayError>, name: string): Pass {
    if !Admitted(rq.cfg, m, name) then Go(Skipped(name), lastError) else
      match Judge(name, rq.streaming, m.reply(name))
      case Done(result, _) => Stop(result, Some(Tried(name)))
      case Retry(e, _) => Go(Tried(name), Some(e))
  }

  /** The loop over the attempts that remain, given those already made. */
  function Loop(rq: Request, env: seq<Moment>, trace: seq<Attempt>, lastError: Option<GatewayError>)
    : (Result<Response, GatewayError>, seq<Attempt>)
    decreases |env|
  {
    if env == [] then (Exhausted(lastError), trace) else
      var pass := PassThrough(rq, env[0], Names(trace), lastError);
      match pass
      case Stop(result, _) => (result, trace + Made(pass))
      case Go(_, e) => Loop(rq, env[1..], trace + Made(pass), e)
  }

  /** The breaker's map after each of the breaker calls that the attempts of `trace` made. */
  function Ledger(rq: Request, env: seq<Moment>, trace: seq<Attempt>): seq<CB.States>
    requires |trace| <= |env|
  {
    LedgerBy(EffectsOf(rq), env, trace)
  }

  function EffectsOf(rq: Request): (Moment, Attempt) -> seq<CB.States> {
    AllEffects(RecorderOf(rq.cfg), rq)
  }

  /** How the breaker takes an outcome: from a provider's state, the outcome and the time, its next state. */
  type Recorder = (CB.ProviderState, CB.CallResult, Instant) -> CB.ProviderState

  function RecorderOf(cfg: CB.Config): Recorder {
    (p, result, now) => CB.Recorded(cfg, p, result, now)
  }

  function AllEffects(recorder: Recorder, rq: Request): (Moment, Attempt) -> seq<CB.States> {
    (m, a) => EffectsBy(recorder, rq, m, a)
  }

  function LedgerBy(effects: (Moment, Attempt) -> seq<CB.States>, env: seq<Moment>, trace: seq<Attempt>): seq<CB.States>
    requires |trace| <= |env|
  {
    if trace == [] then [] else
      var k := |trace| - 1;
      LedgerBy(effects, env, trace[..k]) + effects(env[k], trace[k])
  }

  function Effects(rq: Request, m: Moment, a: Attempt): seq<CB.States> {
    EffectsBy(RecorderOf(rq.cfg), rq, m, a)
  }

  function RecordEffects(rq: Request, m: Moment, name: string, outcome: Option<CB.CallResult>): seq<CB.States> {
    RecordEffectsBy(RecorderOf(rq.cfg), rq, m, name, outcome)
  }

  /** One attempt queries its own provider, then records that provider's outcome, if it has one. */
  function EffectsBy(recorder: Recorder, rq: Request, m: Moment, a: Attempt): seq<CB.States> {
    var before := CB.Lookup(rq.cfg, m.statesAtQuery, a.name);
    [m.statesAtQuery[a.name := CB.Queried(before, m.queryTime)]] +
      if a.Skipped? then []
      else RecordEffectsBy(recorder, rq, m, a.name, Judge(a.name, rq.streaming, m.reply(a.name)).outcome)
  }

  function RecordEffectsBy(recorder: Recorder, rq: Request, m: Moment, name: string, outcome: Option<CB.CallResult>)
    : seq<CB.States>
  {
    if outcome.None? then [] else
      var before := CB.Lookup(rq.cfg, m.statesAtRecord, name);
      [m.statesAtRecord[name := recorder(before, outcome.value, m.recordTime)]]
  }

  lemma LoopUnfolds(rq: Request, env: seq<Moment>, k: nat, trace: seq<Attempt>, lastError: Option<GatewayError>)
    requires k < |env|
    ensures var pass := PassThrough(rq, env[k], Names(trace), lastError);
            Loop(rq, env[k..], trace, lastError) ==
              match pass
              case Stop(result, _) => (result, trace + Made(pass))
              case Go(_, e) => Loop(rq, env[k + 1..], trace + Made(pass), e)
  {
    assert env[k..][1..] == env[k + 1..];
  }

  lemma LedgerUnfolds(effects: (Moment, Attempt) -> seq<CB.States>, env: seq<Moment>, trace: seq<Attempt>, pass: Pass)
    requires |trace| < |env|
    ensures LedgerBy(effects, env, trace + Made(pass))
      == LedgerBy(effects, env, trace) + if Made(pass) == [] then [] else effects(env[|trace|], Made(pass)[0])
  {
    if Made(pass) == [] {
      assert trace + Made(pass) == trace;
    } else {
      assert (trace + Made(pass))[..|trace|] == trace;
    }
  }

  class Gateway {
    const balancer: WeightedRoundRobin
    const breaker: CB.LocalCircuitBreaker

    constructor (balancer: WeightedRoundRobin, breaker: CB.LocalCircuitBreaker)
      ensures this.balancer == balancer && this.breaker == breaker
    {
      this.balancer := balancer;
      this.breaker := breaker;
    }

    /** Other requests run between two atomic steps of this one. */
    method OthersRun(tick: u64, states: CB.States)
      modifies balancer, breaker
      ensures balancer.counter == tick && breaker.states == states
    {
      balancer.counter := tick;
      breaker.states := states;
    }

    /** Tells the breaker how the call went, if it is to know. */
    method Report(name: string, outcome: Option<CB.CallResult>, m: Moment, ghost rq: Request)
      returns (effects: seq<CB.States>)
      requires rq.cfg == breaker.config
      modifies balancer, breaker
      ensures effects == RecordEffects(rq, m, name, outcome)
    {
      effects := [];
      if outcome.Some? {
        OthersRun(m.tick, m.statesAtRecord);
        breaker.RecordResult(name, outcome.value, m.recordTime);
        effects := [breaker.states];
      }
    }

    /** The loop body from the breaker check on, for the selected provider. */
    method TryProvider(name: string, m: Moment, lastError: Option<GatewayError>, rq: Request)
      returns (pass: Pass, effects: seq<CB.States>)
      requires rq.cfg == breaker.config
      modifies balancer, breaker
      ensures pass == TryOne(rq, m, lastError, name)
      ensures Made(pass) == [if Admitted(rq.cfg, m, name) then Tried(name) else Skipped(name)]
      ensures effects == Effects(rq, m, Made(pass)[0])
    {
      OthersRun(m.tick, m.statesAtQuery);
      var admitted := breaker.IsAvailable(name, m.queryTime);
      effects := [breaker.states];
      if !admitted {
        return Go(Skipped(name), lastError), effects;
      }
      var verdict := Judge(name, rq.streaming, m.reply(name));
      var recorded := Report(name, verdict.outcome, m, rq);
      effects := effects + recorded;
      match verdict
      case Done(result, _) => pass := Stop(result, Some(Tried(name)));
      case Retry(e, _) => pass := Go(Tried(name), Some(e));
    }

    /** The loop body. */
    method OnePass(excluded: seq<string>, m: Moment, lastError: Option<GatewayError>, rq: Request)
      returns (pass: Pass, effects: seq<CB.States>)
      requires rq.cfg == breaker.config
      modifies balancer, breaker
      ensures pass == PassThrough(rq, m, excluded, lastError)
      ensures effects == if Made(pass) == [] then [] else Effects(rq, m, Made(pass)[0])
    {
      var available := Available(rq.providers, excluded);
      if available == [] {
        return Stop(Exhausted(lastError), None), [];
      }
      OthersRun(m.tick, m.statesAtQuery);
      var selected := balancer.SelectProvider(available);
      if selected.Err? {
        return Stop(Err(selected.error), None), [];
      }
      pass, effects := TryProvider(selected.value.name, m, lastError, rq);
    }

    /** Tries at most three providers, never one twice. */
    method Forward(rq: Request, env: seq<Moment>)
      returns (response: Result<Response, GatewayError>, trace: seq<Attempt>, ledger: seq<CB.States>)
      requires rq.cfg == breaker.config && |env| == Min(|rq.providers|, 3)
      modifies balancer, breaker
      ensures (response, trace) == Loop(rq, env, [], None)
      ensures |trace| <= |env| && ledger == Ledger(rq, env, trace)
    {
      var lastError := None;
      trace, ledger := [], [];
      assert env[0..] == env;
      for attempt := 0 to Min(|rq.providers|, 3)
        invariant |trace| == attempt
        invariant Loop(rq, env, [], None) == Loop(rq, env[attempt..], trace, lastError)
        invariant ledger == Ledger(rq, env, trace)
      {
        var pass, effects := OnePass(Names(trace), env[attempt], lastError, rq);
        LoopUnfolds(rq, env, attempt, trace, lastError);
        LedgerUnfolds(EffectsOf(rq), env, trace, pass);
        trace := trace + Made(pass);
        ledger := ledger + effects;
        match pass
        case Stop(result, _) => return result, trace, ledger;
        case Go(_, e) => lastError := e;
      }
      response := Exhausted(lastError);
    }
  }
}

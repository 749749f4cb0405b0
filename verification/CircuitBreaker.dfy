/** The in-memory circuit breaker: one timed three-state machine per provider,
    kept in a map that every request shares. */
module CircuitBreaker {
  import opened Common

  datatype CallResult = Success | Failure | RateLimited | Timeout

  datatype CircuitState = Closed | Open(until: Instant, backoffTtl: nat) | HalfOpen

  datatype ProviderState = ProviderState(
    state: CircuitState,
    failures: seq<Instant>,
    totalRequests: seq<Instant>,
    currentBackoff: nat)

  /** Durations are whole seconds; percentages and factors are exact reals. */
  datatype Config = Config(
    failureThresholdPercent: real,
    windowSecs: nat,
    minRequests: nat,
    openTtl: nat,
    maxTtl: nat,
    backoffFactor: real)
  {
    /** What start-up validation lets through. */
    predicate Validated() {
      && 0.0 < failureThresholdPercent <= 100.0
      && 0 < windowSecs
      && 0 < openTtl <= maxTtl
      && 1.0 <= backoffFactor
    }
  }

  function Fresh(cfg: Config): ProviderState {
    ProviderState(Closed, [], [], cfg.openTtl)
  }

  /** The clock cannot be moved before its origin: there the cutoff is `now` itself. */
  function Cutoff(now: Instant, windowSecs: nat): Instant {
    if now >= windowSecs as real then now - windowSecs as real else now
  }

  /** The timestamps later than `cutoff`, in order. */
  function Retain(ts: seq<Instant>, cutoff: Instant): seq<Instant> {
    if ts == [] then [] else
      var kept := Retain(ts[..|ts| - 1], cutoff);
      if ts[|ts| - 1] > cutoff then kept + [ts[|ts| - 1]] else kept
  }

  /** A state lets a caller through unless it is Open with its deadline ahead. */
  predicate Admits(p: ProviderState, now: Instant) {
    p.state.Open? ==> now >= p.state.until
  }

  /** The state a query leaves behind. */
  function Queried(p: ProviderState, now: Instant): ProviderState {
    if p.state.Open? && now >= p.state.until then p.(state := HalfOpen) else p
  }

  predicate CountsAsFailure(result: CallResult) {
    result != Success
  }

  /** The windows after a call at `now`, whatever the state. */
  function Windowed(cfg: Config, p: ProviderState, result: CallResult, now: Instant): ProviderState {
    var cutoff := Cutoff(now, cfg.windowSecs);
    var failures := if CountsAsFailure(result) then p.failures + [now] else p.failures;
    p.(totalRequests := Retain(p.totalRequests + [now], cutoff), failures := Retain(failures, cutoff))
  }

  /** Enough calls in the window, and too many of them failed. With an empty window the
      failure rate is not a number, and no comparison with it holds. */
  predicate OverThreshold(cfg: Config, p: ProviderState) {
    && |p.totalRequests| >= cfg.minRequests
    && |p.totalRequests| > 0
    && |p.failures| as real / |p.totalRequests| as real * 100.0 > cfg.failureThresholdPercent
  }

  function OpenedFor(p: ProviderState, now: Instant, ttl: nat): ProviderState {
    p.(state := Open(now + ttl as real, ttl), currentBackoff := ttl)
  }

  /** One step of the capped exponential backoff. */
  function NextBackoff(cfg: Config, backoff: nat): nat {
    var grown := (Max(backoff, 1) as real * cfg.backoffFactor).Floor;
    Min(if grown < 0 then 0 else grown, cfg.maxTtl)
  }

  /** How an outcome moves the state machine, once the windows hold it. */
  function Moved(cfg: Config, w: ProviderState, result: CallResult, now: Instant): ProviderState {
    match w.state
    case Closed =>
      if result == RateLimited || OverThreshold(cfg, w) then OpenedFor(w, now, cfg.openTtl) else w
    case HalfOpen =>
      if result == Success then Fresh(cfg) else OpenedFor(w, now, NextBackoff(cfg, w.currentBackoff))
    case Open(_, _) => w
  }

  /** The state after the outcome of a call is recorded at `now`. */
  function Recorded(cfg: Config, p: ProviderState, result: CallResult, now: Instant): ProviderState {
    Moved(cfg, Windowed(cfg, p, result, now), result, now)
  }

  type States = map<string, ProviderState>

  function Lookup(cfg: Config, states: States, id: string): ProviderState {
    if id in states then states[id] else Fresh(cfg)
  }

  /** Drops the timestamps that left the window. */
  method PruneWindow(timestamps: seq<Instant>, windowSecs: nat, now: Instant) returns (kept: seq<Instant>)
    ensures kept == Retain(timestamps, Cutoff(now, windowSecs))
  {
    var cutoff := if now >= windowSecs as real then now - windowSecs as real else now;
    kept := [];
    for i := 0 to |timestamps|
      invariant kept == Retain(timestamps[..i], cutoff)
    {
      assert timestamps[..i + 1][..i] == timestamps[..i];
      if timestamps[i] > cutoff {
        kept := kept + [timestamps[i]];
      }
    }
    assert timestamps[..|timestamps|] == timestamps;
  }

  class LocalCircuitBreaker {
    const config: Config
    var states: States

    constructor (config: Config)
      ensures this.config == config && states == map[]
    {
      this.config := config;
      states := map[];
    }

    /** The provider's entry, inserted in its initial state if it is missing. */
    method Entry(id: string) returns (provider: ProviderState)
      modifies this`states
      ensures provider == Lookup(config, old(states), id)
      ensures states == old(states)[id := provider]
    {
      if id !in states {
        states := states[id := ProviderState(Closed, [], [], config.openTtl)];
      }
      provider := states[id];
    }

    /** Whether a request may be sent to `id`; an expired deadline moves it to HalfOpen. */
    method IsAvailable(id: string, now: Instant) returns (available: bool)
      modifies this`states
      ensures available == Admits(Lookup(config, old(states), id), now)
      ensures states == old(states)[id := Queried(Lookup(config, old(states), id), now)]
    {
      var provider := Entry(id);
      match provider.state
      case Closed =>
        available := true;
      case Open(until, _) =>
        if now >= until {
          states := states[id := provider.(state := HalfOpen)];
          available := true;
        } else {
          available := false;
        }
      case HalfOpen =>
        available := true;
    }

    /** Records the outcome of a call and moves the provider's state accordingly. */
    method RecordResult(id: string, result: CallResult, now: Instant)
      modifies this`states
      ensures states == old(states)[id := Recorded(config, Lookup(config, old(states), id), result, now)]
    {
      var provider := Entry(id);
      assert provider == Lookup(config, old(states), id);
      var windowed := PushOutcome(provider, result, now);
      var moved := Transition(windowed, result, now);
      assert moved == Recorded(config, provider, result, now);
      states := states[id := moved];
    }

    /** First half of `RecordResult`: both sliding windows. */
    method PushOutcome(before: ProviderState, result: CallResult, now: Instant) returns (after: ProviderState)
      ensures after == Windowed(config, before, result, now)
    {
      var total := PruneWindow(before.totalRequests + [now], config.windowSecs, now);
      var failures := before.failures;
      if result == Failure || result == Timeout || result == RateLimited {
        failures := failures + [now];
      }
      failures := PruneWindow(failures, config.windowSecs, now);
      after := before.(totalRequests := total, failures := failures);
    }

    /** Second half of `RecordResult`: the state machine, on the windows just updated. */
    method Transition(before: ProviderState, result: CallResult, now: Instant) returns (after: ProviderState)
      ensures after == Moved(config, before, result, now)
    {
      after := before;
      match before.state
      case Closed =>
        if result == RateLimited {
          after := after.(state := Open(now + config.openTtl as real, config.openTtl),
                          currentBackoff := config.openTtl);
          return;
        }
        var total := |before.totalRequests|;
        if total >= config.minRequests && total > 0 {
          var failureRate := |before.failures| as real / total as real * 100.0;
          if failureRate > config.failureThresholdPercent {
            after := after.(state := Open(now + config.openTtl as real, config.openTtl),
                            currentBackoff := config.openTtl);
          }
        }
      case HalfOpen =>
        if result == Success {
          after := ProviderState(Closed, [], [], config.openTtl);
        } else {
          var grown := (Max(before.currentBackoff, 1) as real * config.backoffFactor).Floor;
          var capped := Min(if grown < 0 then 0 else grown, config.maxTtl);
          after := after.(state := Open(now + capped as real, capped), currentBackoff := capped);
        }
      case Open(_, _) =>
    }
  }
}

/** Whole runs of the circuit breaker: every interleaving of queries and outcomes. */
module CircuitBreakerRuns {
  import opened Common
  import opened CircuitBreaker

  datatype Call = Query | Record(result: CallResult)

  datatype Event = Event(call: Call, now: Instant)

  /** An event on one provider of the shared map. */
  datatype Addressed = Addressed(id: string, event: Event)

  function Step(cfg: Config, p: ProviderState, e: Event): ProviderState {
    match e.call
    case Query => Queried(p, e.now)
    case Record(result) => Recorded(cfg, p, result, e.now)
  }

  /** One provider after a run, last event outermost. */
  function Run(cfg: Config, p: ProviderState, es: seq<Event>): ProviderState {
    if es == [] then p else Step(cfg, Run(cfg, p, es[..|es| - 1]), es[|es| - 1])
  }

  /** The whole map after a run. */
  function RunAll(cfg: Config, states: States, es: seq<Addressed>): States {
    if es == [] then states else
      var before := RunAll(cfg, states, es[..|es| - 1]);
      var last := es[|es| - 1];
      before[last.id := Step(cfg, Lookup(cfg, before, last.id), last.event)]
  }

  function Project(es: seq<Addressed>, id: string): seq<Event> {
    if es == [] then [] else
      var rest := Project(es[..|es| - 1], id);
      if es[|es| - 1].id == id then rest + [es[|es| - 1].event] else rest
  }

  /** Providers do not affect each other: each sees exactly the run of its own events. */
  lemma {:induction false} ProvidersAreIndependent(cfg: Config, states: States, es: seq<Addressed>, id: string)
    ensures Lookup(cfg, RunAll(cfg, states, es), id) == Run(cfg, Lookup(cfg, states, id), Project(es, id))
  {
    if es == [] {
    } else {
      ProvidersAreIndependent(cfg, states, es[..|es| - 1], id);
      var rest := Project(es[..|es| - 1], id);
      var last := es[|es| - 1];
      if last.id == id {
        assert (rest + [last.event])[..|rest|] == rest;
      }
    }
  }

  /** The clock never goes back. */
  predicate Monotone(es: seq<Event>) {
    forall i, j :: 0 <= i < j < |es| ==> es[i].now <= es[j].now
  }

  // ---- the reachable-state invariant ------------------------------------------------

  /** A recorded outcome as the windows remember it. */
  datatype Entry = Entry(time: Instant, failed: bool)

  function Times(log: seq<Entry>): seq<Instant> {
    if log == [] then [] else Times(log[..|log| - 1]) + [log[|log| - 1].time]
  }

  function FailureTimes(log: seq<Entry>): seq<Instant> {
    if log == [] then [] else
      var rest := FailureTimes(log[..|log| - 1]);
      if log[|log| - 1].failed then rest + [log[|log| - 1].time] else rest
  }

  function RetainLog(log: seq<Entry>, cutoff: Instant): seq<Entry> {
    if log == [] then [] else
      var kept := RetainLog(log[..|log| - 1], cutoff);
      if log[|log| - 1].time > cutoff then kept + [log[|log| - 1]] else kept
  }

  /** Both windows are the columns of one log, so the failures are a subsequence of the requests. */
  predicate Records(p: ProviderState, log: seq<Entry>) {
    p.totalRequests == Times(log) && p.failures == FailureTimes(log)
  }

  lemma {:induction false} RetainCommutes(log: seq<Entry>, cutoff: Instant)
    ensures Retain(Times(log), cutoff) == Times(RetainLog(log, cutoff))
    ensures Retain(FailureTimes(log), cutoff) == FailureTimes(RetainLog(log, cutoff))
  {
    if log == [] {
    } else {
      var init, last := log[..|log| - 1], log[|log| - 1];
      RetainCommutes(init, cutoff);
      assert (Times(init) + [last.time])[..|Times(init)|] == Times(init);
      assert (FailureTimes(init) + [last.time])[..|FailureTimes(init)|] == FailureTimes(init);
      var kept := RetainLog(init, cutoff);
      assert (kept + [last])[..|kept|] == kept;
    }
  }

  lemma WindowedRecords(cfg: Config, p: ProviderState, log: seq<Entry>, result: CallResult, now: Instant)
    requires Records(p, log)
    ensures Records(Windowed(cfg, p, result, now),
                    RetainLog(log + [Entry(now, CountsAsFailure(result))], Cutoff(now, cfg.windowSecs)))
  {
    var e := Entry(now, CountsAsFailure(result));
    assert (log + [e])[..|log|] == log;
    RetainCommutes(log + [e], Cutoff(now, cfg.windowSecs));
  }

  ghost predicate Invariant(cfg: Config, p: ProviderState) {
    && (exists log :: Records(p, log))
    && cfg.openTtl <= p.currentBackoff <= cfg.maxTtl
    && (p.state.Open? ==> p.state.backoffTtl == p.currentBackoff)
    && (p.state.Closed? ==> p.currentBackoff == cfg.openTtl && !OverThreshold(cfg, p))
  }

  /** The backoff never shrinks on a failed probe and stays within its bounds. */
  lemma NextBackoffBounds(cfg: Config, b: nat)
    requires cfg.Validated() && b <= cfg.maxTtl
    ensures b <= NextBackoff(cfg, b) <= cfg.maxTtl
  {
    var base := Max(b, 1) as real;
    assert base * cfg.backoffFactor >= base by { MulMonotone(base, 1.0, cfg.backoffFactor); }
  }

  lemma MulMonotone(a: real, x: real, y: real)
    requires 0.0 <= a && x <= y
    ensures a * x <= a * y
  {
  }

  lemma StepInvariant(cfg: Config, p: ProviderState, e: Event)
    requires cfg.Validated() && Invariant(cfg, p)
    ensures Invariant(cfg, Step(cfg, p, e))
  {
    var log :| Records(p, log);
    match e.call
    case Query =>
      assert Records(Queried(p, e.now), log);
    case Record(result) =>
      WindowedRecords(cfg, p, log, result, e.now);
      var w := Windowed(cfg, p, result, e.now);
      var log' := RetainLog(log + [Entry(e.now, CountsAsFailure(result))], Cutoff(e.now, cfg.windowSecs));
      NextBackoffBounds(cfg, p.currentBackoff);
      if p.state.HalfOpen? && result == Success {
        assert Records(Step(cfg, p, e), []);
      } else {
        assert Records(Step(cfg, p, e), log');
      }
  }

  /** Every state a provider can reach from start-up satisfies the invariant. */
  lemma {:induction false} ReachableInvariant(cfg: Config, es: seq<Event>)
    requires cfg.Validated()
    ensures Invariant(cfg, Run(cfg, Fresh(cfg), es))
  {
    if es == [] {
      assert Records(Fresh(cfg), []);
    } else {
      ReachableInvariant(cfg, es[..|es| - 1]);
      StepInvariant(cfg, Run(cfg, Fresh(cfg), es[..|es| - 1]), es[|es| - 1]);
    }
  }

  // ---- the windows refine one filter of the whole history -----------------------------

  /** Every outcome recorded since the provider last recovered, never pruned. */
  function History(cfg: Config, es: seq<Event>): seq<Entry> {
    if es == [] then [] else
      Logged(Run(cfg, Fresh(cfg), es[..|es| - 1]), History(cfg, es[..|es| - 1]), es[|es| - 1])
  }

  function Logged(p: ProviderState, h: seq<Entry>, e: Event): seq<Entry> {
    match e.call
    case Query => h
    case Record(result) =>
      if p.state.HalfOpen? && result == Success then [] else h + [Entry(e.now, CountsAsFailure(result))]
  }

  /** When the last outcome was recorded. */
  function LastTime(h: seq<Entry>): Instant {
    if h == [] then 0.0 else h[|h| - 1].time
  }

  /** What the windows should hold at `now`: the outcomes younger than the window. */
  function Recent(log: seq<Entry>, windowSecs: nat, now: Instant): seq<Entry> {
    RetainLog(log, now - windowSecs as real)
  }

  /** What they do hold: outcomes recorded while the clock read less than one window
      were erased on arrival, because the cutoff could not be moved before the origin. */
  function Live(log: seq<Entry>, windowSecs: nat, now: Instant): seq<Entry> {
    if log == [] then [] else
      var kept := Live(log[..|log| - 1], windowSecs, now);
      var last := log[|log| - 1];
      if last.time >= windowSecs as real && last.time > now - windowSecs as real then kept + [last] else kept
  }

  predicate Sorted(log: seq<Entry>, now: Instant) {
    && (forall i, j :: 0 <= i < j < |log| ==> log[i].time <= log[j].time)
    && (forall e :: e in log ==> e.time <= now)
  }

  /** Pruning what was already pruned, later, is pruning once. */
  lemma {:induction false} LiveAdvances(log: seq<Entry>, w: nat, before: Instant, now: Instant)
    requires before <= now && Sorted(log, now)
    ensures RetainLog(Live(log, w, before), Cutoff(now, w)) == Live(log, w, now)
  {
    if log == [] {
    } else {
      var init, last := log[..|log| - 1], log[|log| - 1];
      LiveAdvances(init, w, before, now);
      var kept := Live(init, w, before);
      assert (kept + [last])[..|kept|] == kept;
    }
  }

  lemma {:induction false} HistorySorted(cfg: Config, es: seq<Event>, now: Instant)
    requires Monotone(es) && (forall e :: e in es ==> e.now <= now)
    ensures Sorted(History(cfg, es), now)
  {
    if es == [] {
    } else {
      HistorySorted(cfg, es[..|es| - 1], es[|es| - 1].now);
    }
  }

  /** A state change keeps both windows, except that a recovery clears them. */
  lemma MovedWindows(cfg: Config, w: ProviderState, result: CallResult, now: Instant, log: seq<Entry>)
    requires Records(w, log)
    ensures Records(Moved(cfg, w, result, now), if w.state.HalfOpen? && result == Success then [] else log)
  {
  }

  lemma RecordAdvances(cfg: Config, p: ProviderState, h: seq<Entry>, before: Instant, result: CallResult, now: Instant)
    requires cfg.Validated() && before <= now && Sorted(h, before)
    requires Records(p, Live(h, cfg.windowSecs, before))
    ensures Records(Windowed(cfg, p, result, now),
                    Live(h + [Entry(now, CountsAsFailure(result))], cfg.windowSecs, now))
  {
    var w, e := cfg.windowSecs, Entry(now, CountsAsFailure(result));
    var live := Live(h, w, before);
    WindowedRecords(cfg, p, live, result, now);
    assert (live + [e])[..|live|] == live;
    assert (h + [e])[..|h|] == h;
    LiveAdvances(h, w, before, now);
  }

  lemma WindowStep(cfg: Config, p: ProviderState, h: seq<Entry>, e: Event)
    requires cfg.Validated() && Sorted(h, e.now)
    requires Records(p, Live(h, cfg.windowSecs, LastTime(h)))
    ensures var h' := Logged(p, h, e);
            Records(Step(cfg, p, e), Live(h', cfg.windowSecs, LastTime(h')))
  {
    if e.call.Record? {
      var result := e.call.result;
      var before := if h == [] then e.now else LastTime(h);
      RecordAdvances(cfg, p, h, before, result, e.now);
      MovedWindows(cfg, Windowed(cfg, p, result, e.now), result, e.now,
                   Live(h + [Entry(e.now, CountsAsFailure(result))], cfg.windowSecs, e.now));
    }
  }

  /** The incrementally pruned windows are one filter of the full history, for every run. */
  lemma {:induction false} WindowRefinement(cfg: Config, es: seq<Event>)
    requires cfg.Validated() && Monotone(es)
    ensures var h := History(cfg, es);
            Records(Run(cfg, Fresh(cfg), es), Live(h, cfg.windowSecs, LastTime(h)))
  {
    if es == [] {
    } else {
      var init, last := es[..|es| - 1], es[|es| - 1];
      WindowRefinement(cfg, init);
      HistorySorted(cfg, init, last.now);
      WindowStep(cfg, Run(cfg, Fresh(cfg), init), History(cfg, init), last);
    }
  }

  /** An outcome still younger than the window, recorded before the clock passed one window length. */
  ghost predicate ErasedEarly(log: seq<Entry>, w: nat, now: Instant) {
    exists e :: e in log && now - w as real < e.time < w as real
  }

  lemma {:induction false} LiveVersusRecent(log: seq<Entry>, w: nat, now: Instant)
    ensures |Live(log, w, now)| <= |Recent(log, w, now)|
    ensures |Live(log, w, now)| == |Recent(log, w, now)| <==> !ErasedEarly(log, w, now)
    ensures !ErasedEarly(log, w, now) ==> Live(log, w, now) == Recent(log, w, now)
  {
    if log == [] {
    } else {
      var init, last := log[..|log| - 1], log[|log| - 1];
      LiveVersusRecent(init, w, now);
      assert log == init + [last];
      assert ErasedEarly(log, w, now) <==>
        ErasedEarly(init, w, now) || now - w as real < last.time < w as real;
    }
  }

  lemma {:induction false} TimesLength(log: seq<Entry>)
    ensures |Times(log)| == |log|
  {
    if log == [] {
    } else {
      TimesLength(log[..|log| - 1]);
    }
  }

  /** The windows hold exactly the outcomes younger than the window if and only if none of
      those was recorded before the clock passed one window length. */
  lemma WindowExactness(cfg: Config, es: seq<Event>)
    requires cfg.Validated() && Monotone(es) && History(cfg, es) != []
    ensures var h := History(cfg, es);
            var now := LastTime(h);
            (Records(Run(cfg, Fresh(cfg), es), Recent(h, cfg.windowSecs, now))
             <==> !ErasedEarly(h, cfg.windowSecs, now))
  {
    var h := History(cfg, es);
    var now := LastTime(h);
    WindowRefinement(cfg, es);
    LiveVersusRecent(h, cfg.windowSecs, now);
    TimesLength(Live(h, cfg.windowSecs, now));
    TimesLength(Recent(h, cfg.windowSecs, now));
  }

  /** While the clock is younger than the window, a closed provider forgets an outcome on arrival. */
  lemma ForgottenOnArrival(cfg: Config, p: ProviderState, result: CallResult, now: Instant)
    requires now < cfg.windowSecs as real && result != RateLimited
    requires p.state.Closed? && p.totalRequests == [] && p.failures == []
    ensures Step(cfg, p, Event(Record(result), now)) == p
  {
    assert [now][..0] == [];
    assert Retain([], now) == [] && Retain([now], now) == [];
    assert [] + [now] == [now];
  }

  /** The condition can fail: a timeout and a success within ten seconds, and neither is in a window
      of one minute. */
  lemma YoungOutcomesErased(cfg: Config)
    requires cfg.Validated() && cfg.windowSecs == 60
    ensures var es := [Event(Record(Timeout), 10.0), Event(Record(Success), 20.0)];
            && Monotone(es) && History(cfg, es) == [Entry(10.0, true), Entry(20.0, false)]
            && ErasedEarly(History(cfg, es), cfg.windowSecs, 20.0)
            && Run(cfg, Fresh(cfg), es) == Fresh(cfg)
  {
    var first, second := Event(Record(Timeout), 10.0), Event(Record(Success), 20.0);
    var es := [first, second];
    assert es[..1] == [first] && [first][..0] == [];
    ForgottenOnArrival(cfg, Fresh(cfg), Timeout, 10.0);
    ForgottenOnArrival(cfg, Fresh(cfg), Success, 20.0);
    assert Run(cfg, Fresh(cfg), [first]) == Fresh(cfg);
    assert History(cfg, [first]) == [Entry(10.0, true)];
    assert History(cfg, es) == [Entry(10.0, true), Entry(20.0, false)];
    assert Entry(10.0, true) in History(cfg, es);
  }

  // ---- when a closed provider trips ---------------------------------------------------

  /** What came of a call, and when. */
  datatype Outcome = Outcome(time: Instant, result: CallResult)

  /** Every outcome since the provider last recovered. */
  function Outcomes(cfg: Config, es: seq<Event>): seq<Outcome> {
    if es == [] then [] else
      var before, last := Outcomes(cfg, es[..|es| - 1]), es[|es| - 1];
      match last.call
      case Query => before
      case Record(result) =>
        if Run(cfg, Fresh(cfg), es[..|es| - 1]).state.HalfOpen? && result == Success then []
        else before + [Outcome(last.now, result)]
  }

  /** The outcomes younger than the window, but for those recorded while the clock was. */
  function InWindow(outcomes: seq<Outcome>, windowSecs: nat, now: Instant): seq<Outcome> {
    if outcomes == [] then [] else
      var earlier, last := InWindow(outcomes[..|outcomes| - 1], windowSecs, now), outcomes[|outcomes| - 1];
      if windowSecs as real <= last.time && now - windowSecs as real < last.time then earlier + [last] else earlier
  }

  /** How many of the outcomes are failures, timeouts or refusals for too many requests. */
  function FailedAmong(outcomes: seq<Outcome>): nat {
    if outcomes == [] then 0 else
      FailedAmong(outcomes[..|outcomes| - 1])
        + if outcomes[|outcomes| - 1].result in {Failure, Timeout, RateLimited} then 1 else 0
  }

  /** The log that the windows are columns of, outcome by outcome. */
  ghost predicate LogOf(outcomes: seq<Outcome>, log: seq<Entry>) {
    && |log| == |outcomes|
    && forall i :: 0 <= i < |log| ==>
         && log[i].time == outcomes[i].time
         && (log[i].failed <==> outcomes[i].result in {Failure, Timeout, RateLimited})
  }

  lemma {:induction false} HistoryIsLogOfOutcomes(cfg: Config, es: seq<Event>)
    ensures LogOf(Outcomes(cfg, es), History(cfg, es))
  {
    if es == [] {
    } else {
      HistoryIsLogOfOutcomes(cfg, es[..|es| - 1]);
    }
  }

  lemma {:induction false} LiveIsInWindow(outcomes: seq<Outcome>, log: seq<Entry>, windowSecs: nat, now: Instant)
    requires LogOf(outcomes, log)
    ensures LogOf(InWindow(outcomes, windowSecs, now), Live(log, windowSecs, now))
  {
    if log == [] {
    } else {
      LiveIsInWindow(outcomes[..|outcomes| - 1], log[..|log| - 1], windowSecs, now);
    }
  }

  lemma {:induction false} ColumnsCount(outcomes: seq<Outcome>, log: seq<Entry>)
    requires LogOf(outcomes, log)
    ensures |Times(log)| == |outcomes| && |FailureTimes(log)| == FailedAmong(outcomes)
  {
    if log == [] {
    } else {
      ColumnsCount(outcomes[..|outcomes| - 1], log[..|log| - 1]);
    }
  }

  /** Enough calls, and a failed share above the threshold, compared in percent. */
  predicate TooMany(cfg: Config, failed: nat, total: nat) {
    && 1 <= total && cfg.minRequests <= total
    && 100.0 * failed as real > cfg.failureThresholdPercent * total as real
  }

  lemma ShareAbove(failed: nat, total: nat, percent: real)
    requires 0 < total
    ensures failed as real / total as real * 100.0 > percent <==> 100.0 * failed as real > percent * total as real
  {
    var share := failed as real / total as real;
    assert share * total as real == failed as real;
    ScaleIff(percent, share * 100.0, total as real);
    assert share * 100.0 * total as real == 100.0 * failed as real;
  }

  /** The windows that a further outcome leaves are the columns of the live log. */
  lemma WindowsLive(cfg: Config, es: seq<Event>, result: CallResult, now: Instant)
    requires cfg.Validated() && Monotone(es) && forall e :: e in es ==> e.now <= now
    ensures Records(Windowed(cfg, Run(cfg, Fresh(cfg), es), result, now),
                    Live(History(cfg, es) + [Entry(now, CountsAsFailure(result))], cfg.windowSecs, now))
  {
    var h := History(cfg, es);
    WindowRefinement(cfg, es);
    HistorySorted(cfg, es, now);
    var before := if h == [] then now else LastTime(h);
    assert Sorted(h, before) && before <= now;
    RecordAdvances(cfg, Run(cfg, Fresh(cfg), es), h, before, result, now);
  }

  /** They hold the outcomes then in the window. */
  lemma WindowsCount(cfg: Config, es: seq<Event>, result: CallResult, now: Instant)
    requires cfg.Validated() && Monotone(es) && forall e :: e in es ==> e.now <= now
    ensures var w := Windowed(cfg, Run(cfg, Fresh(cfg), es), result, now);
            var recent := InWindow(Outcomes(cfg, es) + [Outcome(now, result)], cfg.windowSecs, now);
            |w.totalRequests| == |recent| && |w.failures| == FailedAmong(recent)
  {
    var outcomes := Outcomes(cfg, es) + [Outcome(now, result)];
    var log := History(cfg, es) + [Entry(now, CountsAsFailure(result))];
    HistoryIsLogOfOutcomes(cfg, es);
    assert LogOf(outcomes, log);
    LiveIsInWindow(outcomes, log, cfg.windowSecs, now);
    ColumnsCount(InWindow(outcomes, cfg.windowSecs, now), Live(log, cfg.windowSecs, now));
    WindowsLive(cfg, es, result, now);
  }

  lemma MonotoneInit(es: seq<Event>, last: Event)
    requires Monotone(es + [last])
    ensures Monotone(es) && forall e :: e in es ==> e.now <= last.now
  {
    var all := es + [last];
    forall i | 0 <= i < |es| ensures es[i].now <= last.now {
      assert all[i] == es[i] && all[|es|] == last;
    }
    forall i, j | 0 <= i < j < |es| ensures es[i].now <= es[j].now {
      assert all[i] == es[i] && all[j] == es[j];
    }
  }

  /** After every run, an outcome opens a closed provider if and only if it is a refusal for too many requests,
      or enough outcomes are then in the window and the share of the failed ones exceeds the threshold. */
  lemma ClosedTripsIff(cfg: Config, es: seq<Event>, result: CallResult, now: Instant)
    requires cfg.Validated() && Monotone(es + [Event(Record(result), now)])
    requires Run(cfg, Fresh(cfg), es).state.Closed?
    ensures var q := Run(cfg, Fresh(cfg), es + [Event(Record(result), now)]);
            var recent := InWindow(Outcomes(cfg, es) + [Outcome(now, result)], cfg.windowSecs, now);
            && (q.state.Open? <==> result == RateLimited || TooMany(cfg, FailedAmong(recent), |recent|))
            && (q.state == Closed || q.state == Open(now + cfg.openTtl as real, cfg.openTtl))
  {
    var e, p := Event(Record(result), now), Run(cfg, Fresh(cfg), es);
    assert Run(cfg, Fresh(cfg), es + [e]) == Step(cfg, p, e) by { assert (es + [e])[..|es|] == es; }
    MonotoneInit(es, e);
    WindowsCount(cfg, es, result, now);
    ClosedStep(cfg, p, result, now);
  }

  lemma ClosedStep(cfg: Config, p: ProviderState, result: CallResult, now: Instant)
    requires p.state.Closed?
    ensures var q, w := Step(cfg, p, Event(Record(result), now)), Windowed(cfg, p, result, now);
            && (q.state.Open? <==> result == RateLimited || TooMany(cfg, |w.failures|, |w.totalRequests|))
            && (q.state == Closed || q.state == Open(now + cfg.openTtl as real, cfg.openTtl))
  {
    ThresholdMeans(cfg, Windowed(cfg, p, result, now));
  }

  lemma ThresholdMeans(cfg: Config, w: ProviderState)
    ensures OverThreshold(cfg, w) <==> TooMany(cfg, |w.failures|, |w.totalRequests|)
  {
    if |w.totalRequests| > 0 {
      ShareAbove(|w.failures|, |w.totalRequests|, cfg.failureThresholdPercent);
    }
  }

  // ---- backoff --------------------------------------------------------------------------

  /** The backoff after `k` failed probes. */
  function Backoff(cfg: Config, k: nat): nat {
    if k == 0 then cfg.openTtl else NextBackoff(cfg, Backoff(cfg, k - 1))
  }

  /** The number of failed probes after one more event. */
  function CountProbe(p: ProviderState, e: Event, k: nat): nat {
    if e.call == Query || p.state.Open? then k
    else if p.state.HalfOpen? && e.call != Record(Success) then k + 1
    else 0
  }

  /** Failed probes since the provider last left the Closed state. */
  function FailedProbes(cfg: Config, es: seq<Event>): nat {
    if es == [] then 0 else
      CountProbe(Run(cfg, Fresh(cfg), es[..|es| - 1]), es[|es| - 1], FailedProbes(cfg, es[..|es| - 1]))
  }

  lemma StepBackoff(cfg: Config, p: ProviderState, e: Event, k: nat)
    requires cfg.Validated() && Invariant(cfg, p) && p.currentBackoff == Backoff(cfg, k)
    ensures Step(cfg, p, e).currentBackoff == Backoff(cfg, CountProbe(p, e, k))
  {
    if e.call.Record? {
      MovedBackoff(cfg, Windowed(cfg, p, e.call.result, e.now), e.call.result, e.now);
    }
  }

  lemma MovedBackoff(cfg: Config, w: ProviderState, result: CallResult, now: Instant)
    ensures Moved(cfg, w, result, now).currentBackoff ==
      match w.state
      case Closed => if result == RateLimited || OverThreshold(cfg, w) then cfg.openTtl else w.currentBackoff
      case Open(_, _) => w.currentBackoff
      case HalfOpen => if result == Success then cfg.openTtl else NextBackoff(cfg, w.currentBackoff)
  {
  }

  /** In every run the stored backoff depends only on the number of failed probes. */
  lemma {:induction false} BackoffCountsFailedProbes(cfg: Config, es: seq<Event>)
    requires cfg.Validated()
    ensures Run(cfg, Fresh(cfg), es).currentBackoff == Backoff(cfg, FailedProbes(cfg, es))
  {
    if es == [] {
    } else {
      var init := es[..|es| - 1];
      BackoffCountsFailedProbes(cfg, init);
      ReachableInvariant(cfg, init);
      StepBackoff(cfg, Run(cfg, Fresh(cfg), init), es[|es| - 1], FailedProbes(cfg, init));
    }
  }

  lemma {:induction false} BackoffMonotone(cfg: Config, j: nat, k: nat)
    requires cfg.Validated() && j <= k
    ensures cfg.openTtl <= Backoff(cfg, j) <= Backoff(cfg, k) <= cfg.maxTtl
    decreases k
  {
    if j < k {
      BackoffMonotone(cfg, j, k - 1);
      NextBackoffBounds(cfg, Backoff(cfg, k - 1));
    } else if 0 < k {
      BackoffMonotone(cfg, k - 1, k - 1);
      NextBackoffBounds(cfg, Backoff(cfg, k - 1));
    }
  }

  /** `n` is `grown` rounded down, up to the cap. */
  predicate RoundedAndCapped(grown: real, cap: nat, n: nat) {
    if grown >= cap as real then n == cap else n as real <= grown < n as real + 1.0
  }

  lemma NextBackoffExact(cfg: Config, b: nat)
    requires 1 <= b && cfg.backoffFactor >= 0.0
    ensures RoundedAndCapped(b as real * cfg.backoffFactor, cfg.maxTtl, NextBackoff(cfg, b))
  {
    assert Max(b, 1) == b;
    FloorAndCap(b as real * cfg.backoffFactor, cfg.maxTtl);
  }

  lemma FloorAndCap(grown: real, cap: nat)
    requires grown >= 0.0
    ensures 0 <= grown.Floor && RoundedAndCapped(grown, cap, Min(grown.Floor, cap))
  {
  }

  /** A failed probe sets the backoff to the grown one rounded down to whole seconds, up to the cap,
      and the deadline to that time from now. */
  lemma FailedProbeGrowsBackoff(cfg: Config, p: ProviderState, result: CallResult, now: Instant)
    requires cfg.Validated() && Invariant(cfg, p) && p.state.HalfOpen? && result != Success
    ensures var q := Step(cfg, p, Event(Record(result), now));
            && q.state == Open(now + q.currentBackoff as real, q.currentBackoff)
            && RoundedAndCapped(p.currentBackoff as real * cfg.backoffFactor, cfg.maxTtl, q.currentBackoff)
  {
    NextBackoffExact(cfg, p.currentBackoff);
    MovedBackoff(cfg, Windowed(cfg, p, result, now), result, now);
  }

  /** One step with an integer factor. */
  lemma NextBackoffInteger(cfg: Config, factor: nat, b: nat)
    requires cfg.backoffFactor == factor as real && 0 < b
    ensures NextBackoff(cfg, b) == Min(b * factor, cfg.maxTtl)
  {
    assert b as real * factor as real == (b * factor) as real;
  }

  /** Capping before or after growing makes no difference. */
  lemma CapCommutes(raw: nat, factor: nat, cap: nat)
    requires 0 < factor
    ensures Min(Min(raw, cap) * factor, cap) == Min(raw * factor, cap)
  {
    if raw > cap {
      assert raw * factor >= cap * factor >= cap;
    } else {
      assert Min(raw, cap) == raw;
    }
  }

  /** With an integer factor the backoff is capped exponential growth, in closed form. */
  lemma {:induction false} BackoffClosedForm(cfg: Config, factor: nat, k: nat)
    requires cfg.Validated() && cfg.backoffFactor == factor as real
    ensures Backoff(cfg, k) == Min(cfg.openTtl * Pow(factor, k), cfg.maxTtl)
  {
    if k == 0 {
      assert Pow(factor, 0) == 1;
    } else {
      BackoffClosedForm(cfg, factor, k - 1);
      BackoffMonotone(cfg, 0, k - 1);
      NextBackoffInteger(cfg, factor, Backoff(cfg, k - 1));
      CapCommutes(cfg.openTtl * Pow(factor, k - 1), factor, cfg.maxTtl);
      PowStep(cfg.openTtl, factor, k);
    }
  }

  /** So after every run the stored backoff is known from the number of failed probes alone. */
  lemma BackoffOfRun(cfg: Config, factor: nat, es: seq<Event>)
    requires cfg.Validated() && cfg.backoffFactor == factor as real
    ensures Run(cfg, Fresh(cfg), es).currentBackoff
      == Min(cfg.openTtl * Pow(factor, FailedProbes(cfg, es)), cfg.maxTtl)
  {
    BackoffCountsFailedProbes(cfg, es);
    BackoffClosedForm(cfg, factor, FailedProbes(cfg, es));
  }

  lemma PowStep(a: nat, b: nat, k: nat)
    requires 0 < k
    ensures a * Pow(b, k) == (a * Pow(b, k - 1)) * b
  {
    var p := Pow(b, k - 1);
    assert Pow(b, k) == b * p;
    assert a * (b * p) == (a * p) * b;
  }

  lemma NextBackoffDoubles(cfg: Config, b: nat)
    requires cfg.backoffFactor >= 2.0 && 0 < b
    ensures NextBackoff(cfg, b) >= Min(b * 2, cfg.maxTtl)
  {
    var grown := b as real * cfg.backoffFactor;
    MulMonotone(b as real, 2.0, cfg.backoffFactor);
    assert b as real * 2.0 == (b * 2) as real;
    assert grown.Floor >= b * 2;
  }

  /** A factor of at least two doubles the backoff until it reaches its cap. */
  lemma {:induction false} BackoffDoubles(cfg: Config, k: nat)
    requires cfg.Validated() && cfg.backoffFactor >= 2.0
    ensures Backoff(cfg, k) >= Min(cfg.openTtl * Pow(2, k), cfg.maxTtl)
  {
    if k == 0 {
      assert Pow(2, 0) == 1;
    } else {
      BackoffDoubles(cfg, k - 1);
      BackoffMonotone(cfg, 0, k - 1);
      NextBackoffDoubles(cfg, Backoff(cfg, k - 1));
      PowStep(cfg.openTtl, 2, k);
    }
  }

  /** So the cap is reached after as many failed probes as it takes to double `openTtl` up to it. */
  lemma BackoffReachesCap(cfg: Config, k: nat)
    requires cfg.Validated() && cfg.backoffFactor >= 2.0 && cfg.openTtl * Pow(2, k) >= cfg.maxTtl
    ensures Backoff(cfg, k) == cfg.maxTtl
  {
    BackoffDoubles(cfg, k);
    BackoffMonotone(cfg, k, k);
  }

  // ---- lock-out and probe rate --------------------------------------------------------------

  /** The answers of the queries of a run, in order. */
  function Answers(cfg: Config, p: ProviderState, es: seq<Event>): seq<bool> {
    if es == [] then [] else
      var init, last := es[..|es| - 1], es[|es| - 1];
      Answers(cfg, p, init) + if last.call.Query? then [Admits(Run(cfg, p, init), last.now)] else []
  }

  /** Once open, a provider stays open and refuses every query made before the deadline,
      whatever outcomes arrive meanwhile; the first query at or after it is admitted. */
  lemma {:induction false} LockOut(cfg: Config, p: ProviderState, es: seq<Event>)
    requires p.state.Open? && (forall e :: e in es ==> e.now < p.state.until)
    ensures Run(cfg, p, es).state == p.state
    ensures forall a :: a in Answers(cfg, p, es) ==> !a
    ensures forall now :: now >= p.state.until ==>
      Admits(Run(cfg, p, es), now) && Queried(Run(cfg, p, es), now).state == HalfOpen
  {
    if es == [] {
    } else {
      LockOut(cfg, p, es[..|es| - 1]);
      assert es[|es| - 1] in es;
    }
  }

  /** HalfOpen is no single-probe gate: until an outcome is recorded every query is admitted. */
  lemma {:induction false} HalfOpenAdmitsEveryQuery(cfg: Config, p: ProviderState, es: seq<Event>)
    requires p.state.HalfOpen? && (forall e :: e in es ==> e.call.Query?)
    ensures Run(cfg, p, es) == p
    ensures |Answers(cfg, p, es)| == |es| && (forall a :: a in Answers(cfg, p, es) ==> a)
  {
    if es == [] {
    } else {
      HalfOpenAdmitsEveryQuery(cfg, p, es[..|es| - 1]);
      assert es[|es| - 1] in es;
    }
  }

  /** Two queries, one second apart, both admitted by a provider whose lock-out has expired. */
  lemma TwoProbesAtOnce(cfg: Config)
    ensures var p := OpenedFor(Fresh(cfg), 0.0, 30);
            Answers(cfg, p, [Event(Query, 30.0), Event(Query, 31.0)]) == [true, true]
  {
    var p := OpenedFor(Fresh(cfg), 0.0, 30);
    var es := [Event(Query, 30.0), Event(Query, 31.0)];
    assert es[..1] == [Event(Query, 30.0)] && es[..1][..0] == [];
    assert Run(cfg, p, es[..1]).state == HalfOpen;
    assert Answers(cfg, p, es[..1]) == [true];
  }

  /** The edges of the state machine. Opening locks a provider out for exactly its new backoff, which
      is at least `openTtl`; an open provider keeps its deadline until a query passes it. */
  lemma StepDeadline(cfg: Config, p: ProviderState, e: Event)
    requires cfg.Validated() && Invariant(cfg, p)
    ensures var q := Step(cfg, p, e);
            && (q.state.Open? && p.state.Open? ==> q.state.until == p.state.until)
            && (q.state.Open? && !p.state.Open? ==>
                q.state.until == e.now + q.currentBackoff as real >= e.now + cfg.openTtl as real)
            && (q.state.Closed? <==> match e.call
                case Query => p.state.Closed?
                case Record(r) => !q.state.Open? && (p.state.Closed? || p.state.HalfOpen?))
            && (q.state.Open? <==> match e.call
                case Query => p.state.Open? && !Admits(p, e.now)
                case Record(r) =>
                  match p.state
                  case Open(_, _) => true
                  case HalfOpen => r != Success
                  case Closed => r == RateLimited || OverThreshold(cfg, Windowed(cfg, p, r, e.now)))
  {
    NextBackoffBounds(cfg, p.currentBackoff);
  }

  /** The outcome that opens a provider which is not open yet. */
  predicate Trips(cfg: Config, p: ProviderState, e: Event) {
    e.call.Record? &&
    match p.state
    case Open(_, _) => false
    case HalfOpen => e.call.result != Success
    case Closed => e.call.result == RateLimited || OverThreshold(cfg, Windowed(cfg, p, e.call.result, e.now))
  }

  /** Some outcome of the run trips the provider, in the state it finds. */
  ghost predicate Tripped(cfg: Config, p: ProviderState, es: seq<Event>) {
    exists k :: 0 <= k < |es| && Trips(cfg, Run(cfg, p, es[..k]), es[k])
  }

  predicate During(es: seq<Event>, from: Instant, length: real) {
    forall e :: e in es ==> from <= e.now < from + length
  }

  /** Within the shortest lock-out, a provider is open exactly when some outcome tripped it, and then
      it stays open beyond that time. */
  lemma {:induction false} OpenSinceTripped(cfg: Config, p: ProviderState, es: seq<Event>, from: Instant)
    requires cfg.Validated() && Invariant(cfg, p) && !p.state.Open? && During(es, from, cfg.openTtl as real)
    ensures Invariant(cfg, Run(cfg, p, es))
    ensures Run(cfg, p, es).state.Open? <==> Tripped(cfg, p, es)
    ensures Run(cfg, p, es).state.Open? ==> Run(cfg, p, es).state.until >= from + cfg.openTtl as real
  {
    if es == [] {
    } else {
      var init, last := es[..|es| - 1], es[|es| - 1];
      var before := Run(cfg, p, init);
      OpenSinceTripped(cfg, p, init, from);
      assert last in es;
      StepInvariant(cfg, before, last);
      StepDeadline(cfg, before, last);
      TrippedAppend(cfg, p, init, last);
      assert es == init + [last];
    }
  }

  lemma TrippedAppend(cfg: Config, p: ProviderState, init: seq<Event>, last: Event)
    ensures Tripped(cfg, p, init + [last]) <==> Tripped(cfg, p, init) || Trips(cfg, Run(cfg, p, init), last)
  {
    var es := init + [last];
    assert forall k :: 0 <= k < |init| ==> es[..k] == init[..k] && es[k] == init[k];
    assert es[..|init|] == init && es[|init|] == last;
    if k :| 0 <= k < |init| && Trips(cfg, Run(cfg, p, init[..k]), init[k]) {
      assert Trips(cfg, Run(cfg, p, es[..k]), es[k]);
    }
  }

  /** After a first probe, whatever queries and outcomes follow it within the shortest lock-out, a further
      query in that time is refused exactly when one of those outcomes tripped the provider. */
  lemma SecondProbeRefusedIff(cfg: Config, p: ProviderState, es: seq<Event>, from: Instant, now: Instant)
    requires cfg.Validated() && Invariant(cfg, p) && p.state.HalfOpen?
    requires During(es, from, cfg.openTtl as real) && from <= now < from + cfg.openTtl as real
    ensures !Admits(Run(cfg, p, es), now) <==> Tripped(cfg, p, es)
  {
    OpenSinceTripped(cfg, p, es, from);
  }

  /** In particular when the first outcome is not a success, whatever precedes and follows it. */
  lemma FailedProbeRefuses(cfg: Config, p: ProviderState, queries: seq<Event>, outcome: Event, rest: seq<Event>,
                           from: Instant, now: Instant)
    requires cfg.Validated() && Invariant(cfg, p) && p.state.HalfOpen?
    requires (forall e :: e in queries ==> e.call.Query?) && outcome.call.Record?
    requires During(queries + [outcome] + rest, from, cfg.openTtl as real)
    requires from <= now < from + cfg.openTtl as real
    ensures outcome.call.result != Success ==> !Admits(Run(cfg, p, queries + [outcome] + rest), now)
    ensures outcome.call.result == Success && rest == [] ==> Admits(Run(cfg, p, queries + [outcome] + rest), now)
  {
    var es, k := queries + [outcome] + rest, |queries|;
    HalfOpenAdmitsEveryQuery(cfg, p, queries);
    assert es[..k] == queries && es[k] == outcome;
    SecondProbeRefusedIff(cfg, p, es, from, now);
    if outcome.call.result == Success && rest == [] {
      assert es == queries + [outcome];
      SecondProbeRefusedIff(cfg, p, queries, from, now);
      TrippedAppend(cfg, p, queries, outcome);
    }
  }

  /** The times at which a run moved the provider from Open to HalfOpen. */
  function Probes(cfg: Config, p: ProviderState, es: seq<Event>): seq<Instant> {
    if es == [] then [] else
      var init, last := es[..|es| - 1], es[|es| - 1];
      var before := Run(cfg, p, init);
      Probes(cfg, p, init) +
        if last.call.Query? && before.state.Open? && Admits(before, last.now) then [last.now] else []
  }

  predicate Spaced(ts: seq<Instant>, gap: real) {
    forall i :: 0 < i < |ts| ==> ts[i] - ts[i - 1] >= gap
  }

  /** The next deadline already respects the spacing. */
  ghost predicate DeadlineSpaced(cfg: Config, p: ProviderState, ts: seq<Instant>) {
    ts != [] && p.state.Open? ==> p.state.until >= ts[|ts| - 1] + cfg.openTtl as real
  }

  predicate Within(ts: seq<Instant>, es: seq<Event>) {
    forall t :: t in ts ==> es != [] && es[0].now <= t <= es[|es| - 1].now
  }

  /** Probe times are spaced by `openTtl`. */
  lemma {:induction false} ProbesSpaced(cfg: Config, p: ProviderState, es: seq<Event>)
    requires cfg.Validated() && Invariant(cfg, p) && Monotone(es)
    ensures Invariant(cfg, Run(cfg, p, es)) && DeadlineSpaced(cfg, Run(cfg, p, es), Probes(cfg, p, es))
    ensures Spaced(Probes(cfg, p, es), cfg.openTtl as real)
  {
    if es == [] {
    } else {
      var init, last := es[..|es| - 1], es[|es| - 1];
      ProbesSpaced(cfg, p, init);
      StepInvariant(cfg, Run(cfg, p, init), last);
      var ts := Probes(cfg, p, init);
      assert ts != [] ==> ts[|ts| - 1] <= last.now by {
        ProbesWithin(cfg, p, init);
        assert ts != [] ==> ts[|ts| - 1] in ts;
      }
      ProbeAppended(cfg, Run(cfg, p, init), last, ts, Probes(cfg, p, es));
    }
  }

  lemma {:induction false} ProbesWithin(cfg: Config, p: ProviderState, es: seq<Event>)
    requires Monotone(es)
    ensures Within(Probes(cfg, p, es), es)
  {
    if es == [] {
    } else {
      var init, last := es[..|es| - 1], es[|es| - 1];
      ProbesWithin(cfg, p, init);
      assert init != [] ==> init[0].now <= init[|init| - 1].now <= last.now;
    }
  }

  lemma ProbeAppended(cfg: Config, p: ProviderState, e: Event, ts: seq<Instant>, ts': seq<Instant>)
    requires cfg.Validated() && Invariant(cfg, p)
    requires DeadlineSpaced(cfg, p, ts) && Spaced(ts, cfg.openTtl as real)
    requires ts != [] ==> ts[|ts| - 1] <= e.now
    requires ts' == ts + if e.call.Query? && p.state.Open? && Admits(p, e.now) then [e.now] else []
    ensures DeadlineSpaced(cfg, Step(cfg, p, e), ts') && Spaced(ts', cfg.openTtl as real)
  {
    StepDeadline(cfg, p, e);
  }

  lemma {:induction false} SpacedSpan(ts: seq<Instant>, gap: real)
    requires ts != [] && Spaced(ts, gap)
    ensures ts[|ts| - 1] - ts[0] >= (|ts| - 1) as real * gap
  {
    if 1 < |ts| {
      SpacedSpan(ts[..|ts| - 1], gap);
      assert (|ts| - 1) as real * gap == (|ts| - 2) as real * gap + gap;
    }
  }

  /** `n` events at least `gap` apart fit into `span`: that is, n <= 1 + span / gap. */
  predicate FitIn(n: nat, gap: real, span: real) {
    (n - 1) as real * gap <= span
  }

  lemma SpacedWithin(ts: seq<Instant>, gap: real, from: Instant, to: Instant)
    requires Spaced(ts, gap) && 0.0 <= gap && from <= to && (forall t :: t in ts ==> from <= t <= to)
    ensures FitIn(|ts|, gap, to - from)
  {
    if ts == [] {
      assert (|ts| - 1) as real * gap == -gap;
    } else {
      SpacedSpan(ts, gap);
      assert ts[0] in ts && ts[|ts| - 1] in ts;
    }
  }

  /** In a run that spans `T` seconds a provider is probed at most `1 + T / openTtl` times. */
  lemma ProbeRate(cfg: Config, p: ProviderState, es: seq<Event>)
    requires cfg.Validated() && Invariant(cfg, p) && Monotone(es) && es != []
    ensures FitIn(|Probes(cfg, p, es)|, cfg.openTtl as real, es[|es| - 1].now - es[0].now)
  {
    ProbesSpaced(cfg, p, es);
    ProbesWithin(cfg, p, es);
    assert es[0].now <= es[|es| - 1].now;
    SpacedWithin(Probes(cfg, p, es), cfg.openTtl as real, es[0].now, es[|es| - 1].now);
  }
}

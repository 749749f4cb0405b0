/** What the failover loop tells the circuit breaker, in terms of the providers' replies. */
module FailoverLedger {
  import opened Common
  import opened Failover
  import opened FailoverRuns
  import CB = CircuitBreaker

  /** The provider's own fault, or a sign that it is overloaded. */
  predicate CountsAgainst(streaming: bool, reply: Reply) {
    !streaming &&
    (reply.TimedOut? || reply.Unreachable? || (reply.HttpError? && (reply.status == 429 || reply.status >= 500)))
  }

  /** The provider answered; a stream counts as answered as soon as it is opened. */
  predicate CountsFor(streaming: bool, reply: Reply) {
    !reply.CredentialsUnavailable? && !reply.Untranslatable? && (streaming || reply.Delivered? || reply.Garbled?)
  }

  predicate IsHeard(streaming: bool, reply: Reply) {
    CountsAgainst(streaming, reply) || CountsFor(streaming, reply)
  }

  /** How many breaker calls an attempt makes: it always asks, and reports if it was let through and the
      breaker is to hear of the reply. */
  function CallsOf(rq: Request, m: Moment, a: Attempt): nat {
    if a.Tried? && IsHeard(rq.streaming, m.reply(a.name)) then 2 else 1
  }

  /** The number of breaker calls made before attempt `k`. */
  function CallsBefore(rq: Request, env: seq<Moment>, trace: seq<Attempt>, k: nat): nat
    requires k <= |trace| <= |env|
  {
    if k == 0 then 0 else CallsBefore(rq, env, trace, k - 1) + CallsOf(rq, env[k - 1], trace[k - 1])
  }

  predicate OnlyChanges(before: CB.States, after: CB.States, name: string) {
    && after.Keys == before.Keys + {name}
    && forall other :: other in before && other != name ==> after[other] == before[other]
  }

  /** Asking leaves the entry alone, unless its lock-out has just expired. */
  predicate Asked(cfg: CB.Config, before: CB.States, after: CB.States, name: string, now: Instant) {
    var p := CB.Lookup(cfg, before, name);
    && OnlyChanges(before, after, name)
    && after[name] == if p.state.Open? && p.state.until <= now then p.(state := CB.HalfOpen) else p
  }

  /** What a reported reply makes of a provider, from each state it can find. */
  predicate AfterReport(rq: Request, reply: Reply, p: CB.ProviderState, q: CB.ProviderState, now: Instant) {
    match p.state
    case Open(_, _) => q.state == p.state && WindowsAfter(rq, reply, p, q, now)
    case HalfOpen =>
      if CountsFor(rq.streaming, reply) then q == CB.ProviderState(CB.Closed, [], [], rq.cfg.openTtl)
      else q.state.Open? && q.state.until == now + q.currentBackoff as real && WindowsAfter(rq, reply, p, q, now)
    case Closed =>
      && WindowsAfter(rq, reply, p, q, now)
      && (!rq.streaming && reply == HttpError(429) ==>
          q.state == CB.Open(now + rq.cfg.openTtl as real, rq.cfg.openTtl))
      && (q.state == CB.Closed || q.state == CB.Open(now + rq.cfg.openTtl as real, rq.cfg.openTtl))
  }

  /** Every reported reply enters the window of requests, and one that counts against the provider
      the window of failures. */
  predicate WindowsAfter(rq: Request, reply: Reply, p: CB.ProviderState, q: CB.ProviderState, now: Instant) {
    var cutoff := CB.Cutoff(now, rq.cfg.windowSecs);
    var failures := if CountsAgainst(rq.streaming, reply) then p.failures + [now] else p.failures;
    q.totalRequests == CB.Retain(p.totalRequests + [now], cutoff) && q.failures == CB.Retain(failures, cutoff)
  }

  predicate Told(rq: Request, m: Moment, name: string, after: CB.States) {
    var p := CB.Lookup(rq.cfg, m.statesAtRecord, name);
    && OnlyChanges(m.statesAtRecord, after, name)
    && AfterReport(rq, m.reply(name), p, after[name], m.recordTime)
  }

  lemma JudgeReports(name: string, streaming: bool, reply: Reply)
    ensures var outcome := Judge(name, streaming, reply).outcome;
            && (outcome.Some? <==> IsHeard(streaming, reply))
            && (outcome == Some(CB.Success) <==> CountsFor(streaming, reply))
            && (outcome == Some(CB.RateLimited) <==> !streaming && reply == HttpError(429))
  {
  }

  /** The outcomes that the loop may report for a reply. */
  predicate Fits(rq: Request, reply: Reply, outcome: CB.CallResult) {
    && IsHeard(rq.streaming, reply)
    && (outcome == CB.Success <==> CountsFor(rq.streaming, reply))
    && (outcome == CB.RateLimited <==> !rq.streaming && reply == HttpError(429))
  }

  /** What the loop needs of the breaker to leave every provider in the state that its reply calls for. */
  ghost predicate TakesOutcomes(recorder: Recorder, rq: Request) {
    forall reply, outcome, p, now :: Fits(rq, reply, outcome) ==>
      AfterReport(rq, reply, p, recorder(p, outcome, now), now)
  }

  lemma RecordedTells(rq: Request, reply: Reply, outcome: CB.CallResult, p: CB.ProviderState, now: Instant)
    requires Fits(rq, reply, outcome)
    ensures var q := CB.Recorded(rq.cfg, p, outcome, now);
            AfterReport(rq, reply, p, q, now)
  {
  }

  /** The breaker does. */
  lemma BreakerTakesOutcomes(rq: Request)
    ensures TakesOutcomes(RecorderOf(rq.cfg), rq)
  {
    forall reply, outcome, p, now | Fits(rq, reply, outcome)
      ensures AfterReport(rq, reply, p, RecorderOf(rq.cfg)(p, outcome, now), now)
    {
      RecordedTells(rq, reply, outcome, p, now);
    }
  }

  /** The maps that one attempt leaves: after asking and, if the breaker is to hear of the reply, after
      reporting. */
  predicate AttemptLeaves(rq: Request, m: Moment, a: Attempt, effects: seq<CB.States>) {
    && |effects| == CallsOf(rq, m, a)
    && Asked(rq.cfg, m.statesAtQuery, effects[0], a.name, m.queryTime)
    && (|effects| == 2 ==> Told(rq, m, a.name, effects[1]))
  }

  lemma AskedEffect(rq: Request, m: Moment, name: string)
    ensures var p := CB.Lookup(rq.cfg, m.statesAtQuery, name);
            Asked(rq.cfg, m.statesAtQuery, m.statesAtQuery[name := CB.Queried(p, m.queryTime)], name, m.queryTime)
  {
  }

  lemma ToldBy(rq: Request, m: Moment, name: string, q: CB.ProviderState)
    requires AfterReport(rq, m.reply(name), CB.Lookup(rq.cfg, m.statesAtRecord, name), q, m.recordTime)
    ensures Told(rq, m, name, m.statesAtRecord[name := q])
  {
  }

  lemma AskedThenTold(rq: Request, m: Moment, a: Attempt, asked: CB.States, told: seq<CB.States>)
    requires Asked(rq.cfg, m.statesAtQuery, asked, a.name, m.queryTime) && a.Tried?
    requires |told| == if IsHeard(rq.streaming, m.reply(a.name)) then 1 else 0
    requires |told| == 1 ==> Told(rq, m, a.name, told[0])
    ensures AttemptLeaves(rq, m, a, [asked] + told)
  {
  }

  lemma ReportLeaves(recorder: Recorder, rq: Request, m: Moment, name: string, outcome: Option<CB.CallResult>)
    requires TakesOutcomes(recorder, rq) && outcome == Judge(name, rq.streaming, m.reply(name)).outcome
    ensures var told := RecordEffectsBy(recorder, rq, m, name, outcome);
            && |told| == (if IsHeard(rq.streaming, m.reply(name)) then 1 else 0)
            && (|told| == 1 ==> Told(rq, m, name, told[0]))
  {
    JudgeReports(name, rq.streaming, m.reply(name));
    if outcome.Some? {
      var p := CB.Lookup(rq.cfg, m.statesAtRecord, name);
      var q := recorder(p, outcome.value, m.recordTime);
      assert Fits(rq, m.reply(name), outcome.value);
      ToldBy(rq, m, name, q);
    }
  }

  lemma AttemptLeavesEffects(recorder: Recorder, rq: Request, m: Moment, a: Attempt)
    requires TakesOutcomes(recorder, rq)
    ensures AttemptLeaves(rq, m, a, EffectsBy(recorder, rq, m, a))
  {
    var asked := m.statesAtQuery[a.name := CB.Queried(CB.Lookup(rq.cfg, m.statesAtQuery, a.name), m.queryTime)];
    AskedEffect(rq, m, a.name);
    if a.Skipped? {
      assert EffectsBy(recorder, rq, m, a) == [asked];
    } else {
      var outcome := Judge(a.name, rq.streaming, m.reply(a.name)).outcome;
      ReportLeaves(recorder, rq, m, a.name, outcome);
      AskedThenTold(rq, m, a, asked, RecordEffectsBy(recorder, rq, m, a.name, outcome));
    }
  }

  lemma PrefixOfMore<T>(prefix: seq<T>, xs: seq<T>, more: seq<T>)
    requires prefix <= xs
    ensures prefix <= xs + more
  {
  }

  lemma {:induction false} EntriesOfAttempt(effects: (Moment, Attempt) -> seq<CB.States>, env: seq<Moment>,
                                            trace: seq<Attempt>, k: nat)
    requires k < |trace| <= |env|
    ensures LedgerBy(effects, env, trace[..k]) + effects(env[k], trace[k]) <= LedgerBy(effects, env, trace)
    decreases |trace|
  {
    var n := |trace| - 1;
    var init := trace[..n];
    if k == n {
    } else {
      assert init[..k] == trace[..k];
      EntriesOfAttempt(effects, env, init, k);
      PrefixOfMore(LedgerBy(effects, env, trace[..k]) + effects(env[k], trace[k]),
                   LedgerBy(effects, env, init), effects(env[n], trace[n]));
    }
  }

  lemma {:induction false} LedgerLength(effects: (Moment, Attempt) -> seq<CB.States>, rq: Request, env: seq<Moment>,
                                        trace: seq<Attempt>, k: nat)
    requires k <= |trace| <= |env|
    requires forall i :: 0 <= i < |trace| ==> AttemptLeaves(rq, env[i], trace[i], effects(env[i], trace[i]))
    ensures |LedgerBy(effects, env, trace[..k])| == CallsBefore(rq, env, trace, k)
    decreases k
  {
    if k == 0 {
    } else {
      LedgerLength(effects, rq, env, trace, k - 1);
      assert trace[..k][..k - 1] == trace[..k - 1] && trace[..k][k - 1] == trace[k - 1];
    }
  }

  /** Where the breaker's maps after attempt `k` are found, and what they are. */
  ghost predicate AttemptTold(rq: Request, env: seq<Moment>, trace: seq<Attempt>, ledger: seq<CB.States>, k: nat)
    requires k < |trace| <= |env|
  {
    var at, calls := CallsBefore(rq, env, trace, k), CallsOf(rq, env[k], trace[k]);
    && at + calls <= |ledger|
    && Asked(rq.cfg, env[k].statesAtQuery, ledger[at], trace[k].name, env[k].queryTime)
    && (calls == 2 ==> Told(rq, env[k], trace[k].name, ledger[at + 1]))
  }

  lemma EntriesAt(ledger: seq<CB.States>, before: seq<CB.States>, own: seq<CB.States>)
    requires before + own <= ledger
    ensures forall i :: 0 <= i < |own| ==> |before| + i < |ledger| && ledger[|before| + i] == own[i]
  {
    forall i | 0 <= i < |own| ensures |before| + i < |ledger| && ledger[|before| + i] == own[i] {
      assert (before + own)[|before| + i] == own[i];
    }
  }

  lemma LedgerTellsBy(effects: (Moment, Attempt) -> seq<CB.States>, rq: Request, env: seq<Moment>,
                      trace: seq<Attempt>, k: nat)
    requires k < |trace| <= |env|
    requires forall i :: 0 <= i < |trace| ==> AttemptLeaves(rq, env[i], trace[i], effects(env[i], trace[i]))
    ensures AttemptTold(rq, env, trace, LedgerBy(effects, env, trace), k)
    ensures |LedgerBy(effects, env, trace)| == CallsBefore(rq, env, trace, |trace|)
  {
    LedgerLength(effects, rq, env, trace, k);
    LedgerLength(effects, rq, env, trace, |trace|);
    assert trace[..|trace|] == trace;
    EntriesOfAttempt(effects, env, trace, k);
    EntriesAt(LedgerBy(effects, env, trace), LedgerBy(effects, env, trace[..k]), effects(env[k], trace[k]));
    assert AttemptLeaves(rq, env[k], trace[k], effects(env[k], trace[k]));
  }

  lemma RecorderTells(recorder: Recorder, rq: Request, env: seq<Moment>, trace: seq<Attempt>, k: nat)
    requires TakesOutcomes(recorder, rq) && k < |trace| <= |env|
    ensures AttemptTold(rq, env, trace, LedgerBy(AllEffects(recorder, rq), env, trace), k)
    ensures |LedgerBy(AllEffects(recorder, rq), env, trace)| == CallsBefore(rq, env, trace, |trace|)
  {
    var effects := AllEffects(recorder, rq);
    forall i | 0 <= i < |trace| ensures AttemptLeaves(rq, env[i], trace[i], effects(env[i], trace[i])) {
      AttemptLeavesEffects(recorder, rq, env[i], trace[i]);
    }
    LedgerTellsBy(effects, rq, env, trace, k);
  }

  /** Every attempt asks the breaker about its own provider only, reports exactly the replies that the breaker
      is to hear of, and leaves that provider in the state that the reply calls for. */
  lemma LedgerTells(rq: Request, env: seq<Moment>, trace: seq<Attempt>, k: nat)
    requires k < |trace| <= |env|
    ensures AttemptTold(rq, env, trace, Ledger(rq, env, trace), k)
    ensures |Ledger(rq, env, trace)| == CallsBefore(rq, env, trace, |trace|)
  {
    BreakerTakesOutcomes(rq);
    RecorderTells(RecorderOf(rq.cfg), rq, env, trace, k);
  }

  /** In particular every attempt that the handler makes. */
  lemma ForwardTells(rq: Request, env: seq<Moment>, k: nat)
    requires k < |Loop(rq, env, [], None).1|
    ensures var trace := Loop(rq, env, [], None).1;
            |trace| <= |env| && AttemptTold(rq, env, trace, Ledger(rq, env, trace), k)
  {
    ForwardIsSafe(rq, env);
    LedgerTells(rq, env, Loop(rq, env, [], None).1, k);
  }
}

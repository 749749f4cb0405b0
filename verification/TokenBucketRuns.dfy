/** Whole runs of the token bucket: how many calls it can grant, what its waits promise,
    and when both implementations agree. */
module TokenBucketRuns {
  import opened Common
  import opened TokenBucket

  // ---- arithmetic -----------------------------------------------------------------------

  lemma CeilIsLeast(x: real, n: int)
    ensures n as real >= x <==> n >= Ceil(x)
  {
    assert n as real >= x <==> (-n) as real <= -x;
  }

  /** `n` seconds of refill supply `need` tokens exactly from `Ceil(need / rate)` seconds on. */
  lemma SecondsNeeded(need: real, rate: real, n: int)
    requires 0.0 < rate
    ensures n as real * rate >= need <==> n >= Ceil(need / rate)
  {
    var q := need / rate;
    assert q * rate == need;
    CeilIsLeast(q, n);
    ScaleIff(n as real, q, rate);
  }

  // ---- runs of one client ------------------------------------------------------------------

  function Run(cfg: Config, b: Bucket, cs: seq<Call>): Bucket
    decreases |cs|
  {
    if cs == [] then b else Run(cfg, After(cfg, b, cs[0]), cs[1..])
  }

  function Accepted(cfg: Config, b: Bucket, cs: seq<Call>): nat
    decreases |cs|
  {
    if cs == [] then 0 else
      (if Accepts(cfg, b, cs[0]) then 1 else 0) + Accepted(cfg, After(cfg, b, cs[0]), cs[1..])
  }

  /** The time between the two clock readings, summed over the granted calls. */
  function Slack(cfg: Config, b: Bucket, cs: seq<Call>): real
    decreases |cs|
  {
    if cs == [] then 0.0 else
      (if Accepts(cfg, b, cs[0]) then cs[0].readAt - cs[0].now else 0.0) + Slack(cfg, After(cfg, b, cs[0]), cs[1..])
  }

  /** Calls run one after the other under the lock, on a clock that never goes back. */
  predicate Timely(cs: seq<Call>, since: Instant) {
    cs != [] ==> since <= cs[0].now <= cs[0].readAt && Timely(cs[1..], cs[0].readAt)
  }

  predicate Sound(cfg: Config, b: Bucket, now: Instant) {
    0.0 <= b.tokens <= cfg.capacity as real && b.lastRefill <= now
  }

  /** A granted call pays one token out of its balance, its refill and its clock gap, and reports
      the whole tokens that are left. */
  lemma GrantedPays(cfg: Config, b: Bucket, c: Call)
    requires cfg.Validated() && Sound(cfg, b, c.now) && c.now <= c.readAt && Accepts(cfg, b, c)
    ensures After(cfg, b, c).lastRefill == c.now && Sound(cfg, After(cfg, b, c), c.now)
    ensures After(cfg, b, c).tokens <= cfg.capacity as real - 1.0
    ensures Reply(cfg, b, c).Granted? && Reply(cfg, b, c).remaining == After(cfg, b, c).tokens.Floor
    ensures After(cfg, b, c).tokens + 1.0
      <= b.tokens + (c.now - b.lastRefill + (c.readAt - c.now)) * cfg.rate
  {
    assert Elapsed(b, c) == c.now - b.lastRefill + (c.readAt - c.now);
  }

  lemma SoundKept(cfg: Config, b: Bucket, c: Call)
    requires cfg.Validated() && Sound(cfg, b, c.now) && c.now <= c.readAt
    ensures Sound(cfg, After(cfg, b, c), c.now)
  {
    if Accepts(cfg, b, c) { GrantedPays(cfg, b, c); }
  }

  /** `granted` calls and the final balance are covered by the opening balance and the refill
      from one refill time to the other, clock gaps included. */
  predicate Covered(cfg: Config, granted: nat, slack: real, from: Bucket, to: Bucket) {
    granted as real + to.tokens <= from.tokens + (to.lastRefill - from.lastRefill + slack) * cfg.rate
  }

  /** No run grants more than its opening balance and the refill of the time it covers. */
  lemma {:induction false} TokensConserved(cfg: Config, b: Bucket, cs: seq<Call>, since: Instant)
    requires cfg.Validated() && Sound(cfg, b, since) && Timely(cs, since)
    ensures Covered(cfg, Accepted(cfg, b, cs), Slack(cfg, b, cs), b, Run(cfg, b, cs))
    decreases |cs|
  {
    if cs == [] {
    } else {
      var c, rest := cs[0], cs[1..];
      var next := After(cfg, b, c);
      SoundKept(cfg, b, c);
      TokensConserved(cfg, next, rest, c.readAt);
      if Accepts(cfg, b, c) {
        GrantedPays(cfg, b, c);
        CoveredStep(cfg, b, next, Run(cfg, next, rest), c, Accepted(cfg, next, rest), Slack(cfg, next, rest));
      }
    }
  }

  lemma CoveredStep(cfg: Config, b: Bucket, next: Bucket, final: Bucket, c: Call, granted: nat, slack: real)
    requires next.lastRefill == c.now
    requires next.tokens + 1.0 <= b.tokens + (c.now - b.lastRefill + (c.readAt - c.now)) * cfg.rate
    requires Covered(cfg, granted, slack, next, final)
    ensures Covered(cfg, 1 + granted, c.readAt - c.now + slack, b, final)
  {
    var x, y := c.now - b.lastRefill + (c.readAt - c.now), final.lastRefill - c.now + slack;
    Distribute(x, y, cfg.rate);
    assert x + y == final.lastRefill - b.lastRefill + (c.readAt - c.now + slack);
  }

  /** A run leaves the bucket sound, refilled no later than its last call. */
  lemma {:induction false} RunIsSound(cfg: Config, b: Bucket, cs: seq<Call>, since: Instant)
    requires cfg.Validated() && Sound(cfg, b, since) && Timely(cs, since)
    ensures Sound(cfg, Run(cfg, b, cs), if cs == [] then since else cs[|cs| - 1].now)
    decreases |cs|
  {
    if cs == [] {
    } else {
      SoundKept(cfg, b, cs[0]);
      RunIsSound(cfg, After(cfg, b, cs[0]), cs[1..], cs[0].readAt);
    }
  }

  lemma Distribute(a: real, b: real, r: real)
    ensures (a + b) * r == a * r + b * r
  {
  }

  /** At most the burst capacity plus the refill of `time`. */
  predicate WithinBound(cfg: Config, granted: nat, time: real) {
    granted as real <= cfg.capacity as real + time * cfg.rate
  }

  /** The grants of a stretch of calls are bounded by its length and its clock gaps. */
  predicate StretchWithinBound(cfg: Config, b: Bucket, cs: seq<Call>)
    requires cs != []
  {
    WithinBound(cfg, Accepted(cfg, b, cs), cs[|cs| - 1].now - cs[0].now + Slack(cfg, b, cs))
  }

  lemma BoundFromGrant(cfg: Config, next: Bucket, final: Bucket, granted: nat, slack: real, time: real)
    requires cfg.Validated() && Covered(cfg, granted, slack, next, final)
    requires next.tokens <= cfg.capacity as real - 1.0 && 0.0 <= final.tokens
    requires final.lastRefill - next.lastRefill + slack <= time
    ensures WithinBound(cfg, 1 + granted, time)
  {
    var covered := final.lastRefill - next.lastRefill + slack;
    MulMono(covered, time, cfg.rate);
    assert granted as real + final.tokens <= next.tokens + covered * cfg.rate;
    assert (1 + granted) as real == 1.0 + granted as real;
  }

  lemma BoundGrows(cfg: Config, granted: nat, time: real, more: real)
    requires cfg.Validated() && WithinBound(cfg, granted, time) && time <= more
    ensures WithinBound(cfg, granted, more)
  {
    MulMono(time, more, cfg.rate);
  }

  /** The classic bound: in any stretch of calls, wherever it starts, a client is granted at most its
      burst capacity plus the refill of the time covered, the clock gaps included. */
  lemma {:induction false} AdmissionBound(cfg: Config, b: Bucket, cs: seq<Call>, since: Instant)
    requires cfg.Validated() && Sound(cfg, b, since) && Timely(cs, since) && cs != []
    ensures StretchWithinBound(cfg, b, cs)
    decreases |cs|
  {
    var c, rest := cs[0], cs[1..];
    var next, time := After(cfg, b, c), cs[|cs| - 1].now - c.now + Slack(cfg, b, cs);
    TimelyOrdered(cs, since);
    if Accepts(cfg, b, c) {
      GrantedPays(cfg, b, c);
      TokensConserved(cfg, next, rest, c.readAt);
      RunIsSound(cfg, next, rest, c.readAt);
      if rest == [] {
        assert Run(cfg, next, rest) == next;
      }
      BoundFromGrant(cfg, next, Run(cfg, next, rest), Accepted(cfg, next, rest), Slack(cfg, next, rest), time);
    } else if rest == [] {
      assert Accepted(cfg, next, rest) == 0 && Slack(cfg, next, rest) == 0.0;
      BoundGrows(cfg, 0, 0.0, time);
    } else {
      AdmissionBound(cfg, b, rest, c.readAt);
      BoundGrows(cfg, Accepted(cfg, b, rest), rest[|rest| - 1].now - rest[0].now + Slack(cfg, b, rest), time);
    }
  }

  lemma {:induction false} TimelyOrdered(cs: seq<Call>, since: Instant)
    requires Timely(cs, since)
    ensures forall c :: c in cs ==> since <= c.now <= c.readAt
    ensures cs != [] ==> cs[0].now <= cs[|cs| - 1].now
    decreases |cs|
  {
    if cs == [] {
    } else {
      TimelyOrdered(cs[1..], cs[0].readAt);
      assert cs == [cs[0]] + cs[1..];
      assert cs[|cs| - 1] in cs;
    }
  }

  /** The last clock reading of a run that starts at `since`. */
  function EndOf(cs: seq<Call>, since: Instant): Instant {
    if cs == [] then since else cs[|cs| - 1].readAt
  }

  lemma {:induction false} TimelySplit(before: seq<Call>, window: seq<Call>, since: Instant)
    requires Timely(before + window, since)
    ensures Timely(before, since)
    ensures Timely(window, EndOf(before, since))
    decreases |before|
  {
    if before == [] {
      assert before + window == window;
    } else {
      assert (before + window)[1..] == before[1..] + window;
      TimelySplit(before[1..], window, before[0].readAt);
    }
  }

  /** In particular for every stretch of every run of a client, from its first call on. */
  lemma AdmissionBoundInAnyWindow(cfg: Config, first: Instant, before: seq<Call>, window: seq<Call>)
    requires cfg.Validated() && Timely(before + window, first) && window != []
    ensures StretchWithinBound(cfg, Run(cfg, NewBucket(cfg, first), before), window)
  {
    TimelySplit(before, window, first);
    SoundAtEnd(cfg, NewBucket(cfg, first), before, first);
    AdmissionBound(cfg, Run(cfg, NewBucket(cfg, first), before), window, EndOf(before, first));
  }

  lemma SoundAtEnd(cfg: Config, b: Bucket, cs: seq<Call>, since: Instant)
    requires cfg.Validated() && Sound(cfg, b, since) && Timely(cs, since)
    ensures Sound(cfg, Run(cfg, b, cs), EndOf(cs, since))
  {
    RunIsSound(cfg, b, cs, since);
    TimelyOrdered(cs, since);
    assert cs != [] ==> cs[|cs| - 1] in cs;
  }

  /** With one clock reading per call the slack vanishes and the bound is the textbook one. */
  lemma AdmissionBoundSingleClock(cfg: Config, b: Bucket, cs: seq<Call>, since: Instant)
    requires cfg.Validated() && Sound(cfg, b, since) && Timely(cs, since) && cs != []
    requires forall c :: c in cs ==> c.readAt == c.now
    ensures WithinBound(cfg, Accepted(cfg, b, cs), cs[|cs| - 1].now - cs[0].now)
  {
    AdmissionBound(cfg, b, cs, since);
    NoSlack(cfg, b, cs);
  }

  lemma {:induction false} NoSlack(cfg: Config, b: Bucket, cs: seq<Call>)
    requires forall c :: c in cs ==> c.readAt == c.now
    ensures Slack(cfg, b, cs) == 0.0
    decreases |cs|
  {
    if cs == [] {
    } else {
      assert cs[0] in cs;
      NoSlack(cfg, After(cfg, b, cs[0]), cs[1..]);
    }
  }

  /** Two readings per call can beat the textbook bound: three grants in 1.1 s at one token per second. */
  lemma SecondReadingBeatsTextbookBound()
    ensures var cfg := Config(1, 1.0);
            var cs := [Call(0.0, 0.0), Call(0.1, 1.0), Call(1.1, 1.1)];
            && Timely(cs, 0.0)
            && Accepted(cfg, NewBucket(cfg, 0.0), cs) == 3
            && !WithinBound(cfg, 3, cs[2].now - cs[0].now)
  {
    var cfg := Config(1, 1.0);
    var c0, c1, c2 := Call(0.0, 0.0), Call(0.1, 1.0), Call(1.1, 1.1);
    var cs := [c0, c1, c2];
    assert cs[1..] == [c1, c2] && [c1, c2][1..] == [c2] && [c2][1..] == [];
    assert Timely([c2], 1.0) && Timely([c1, c2], 0.0);
    var b0 := NewBucket(cfg, 0.0);
    assert After(cfg, b0, c0) == Bucket(0.0, 0.0);
    assert After(cfg, Bucket(0.0, 0.0), c1) == Bucket(0.0, 0.1);
    assert Accepts(cfg, Bucket(0.0, 0.1), c2);
    assert Accepted(cfg, Bucket(0.0, 0.1), [c2]) == 1;
    assert Accepted(cfg, Bucket(0.0, 0.0), [c1, c2]) == 2;
  }

  // ---- all clients -----------------------------------------------------------------------------

  datatype Addressed = Addressed(client: string, call: Call)

  type Buckets = map<string, Bucket>

  /** The whole map after a run, every client with its own fixed configuration. */
  function RunAll(cfgOf: string -> Config, state: Buckets, cs: seq<Addressed>): Buckets
    decreases |cs|
  {
    if cs == [] then state else
      var a := cs[0];
      var b := if a.client in state then state[a.client] else NewBucket(cfgOf(a.client), a.call.now);
      RunAll(cfgOf, state[a.client := After(cfgOf(a.client), b, a.call)], cs[1..])
  }

  function CallsOf(cs: seq<Addressed>, client: string): seq<Call> {
    if cs == [] then [] else
      (if cs[0].client == client then [cs[0].call] else []) + CallsOf(cs[1..], client)
  }

  function Held(state: Buckets, client: string): Option<Bucket> {
    if client in state then Some(state[client]) else None
  }

  /** The bucket that a client's first call finds or creates. */
  function Opening(cfg: Config, held: Option<Bucket>, calls: seq<Call>): Bucket
    requires calls != []
  {
    if held.Some? then held.value else NewBucket(cfg, calls[0].now)
  }

  /** What a client's own calls make of its bucket. */
  function AfterCalls(cfg: Config, held: Option<Bucket>, calls: seq<Call>): Option<Bucket> {
    if calls == [] then held else Some(Run(cfg, Opening(cfg, held, calls), calls))
  }

  function AcceptedOwn(cfg: Config, held: Option<Bucket>, calls: seq<Call>): nat {
    if calls == [] then 0 else Accepted(cfg, Opening(cfg, held, calls), calls)
  }

  /** The grants of one client in a run over the shared map. */
  function Grants(cfgOf: string -> Config, state: Buckets, cs: seq<Addressed>, client: string): nat
    decreases |cs|
  {
    if cs == [] then 0 else
      var a := cs[0];
      var b := if a.client in state then state[a.client] else NewBucket(cfgOf(a.client), a.call.now);
      (if a.client == client && Accepts(cfgOf(client), b, a.call) then 1 else 0)
      + Grants(cfgOf, state[a.client := After(cfgOf(a.client), b, a.call)], cs[1..], client)
  }

  /** Clients do not affect each other, from start-up on: each bucket and each client's grants are those
      of its own calls alone. */
  lemma {:induction false} ClientsAreIndependent(cfgOf: string -> Config, state: Buckets, cs: seq<Addressed>,
                                                 client: string)
    ensures Held(RunAll(cfgOf, state, cs), client)
      == AfterCalls(cfgOf(client), Held(state, client), CallsOf(cs, client))
    ensures Grants(cfgOf, state, cs, client) == AcceptedOwn(cfgOf(client), Held(state, client), CallsOf(cs, client))
    decreases |cs|
  {
    if cs == [] {
    } else {
      var a, cfg := cs[0], cfgOf(cs[0].client);
      var b := if a.client in state then state[a.client] else NewBucket(cfg, a.call.now);
      var state' := state[a.client := After(cfg, b, a.call)];
      ClientsAreIndependent(cfgOf, state', cs[1..], client);
      if a.client == client {
        OwnCall(cfg, Held(state, client), a.call, CallsOf(cs[1..], client));
      } else {
        assert CallsOf(cs, client) == CallsOf(cs[1..], client);
      }
    }
  }

  lemma OwnCall(cfg: Config, held: Option<Bucket>, c: Call, rest: seq<Call>)
    ensures var b := Opening(cfg, held, [c] + rest);
            && AfterCalls(cfg, held, [c] + rest) == AfterCalls(cfg, Some(After(cfg, b, c)), rest)
            && AcceptedOwn(cfg, held, [c] + rest)
              == (if Accepts(cfg, b, c) then 1 else 0) + AcceptedOwn(cfg, Some(After(cfg, b, c)), rest)
  {
    var b := Opening(cfg, held, [c] + rest);
    var next := After(cfg, b, c);
    assert ([c] + rest)[1..] == rest;
    assert Run(cfg, b, [c] + rest) == Run(cfg, next, rest);
    if rest == [] {
      assert Run(cfg, next, rest) == next && Accepted(cfg, next, rest) == 0;
    }
  }

  lemma {:induction false} CallsOfConcat(a: seq<Addressed>, b: seq<Addressed>, client: string)
    ensures CallsOf(a + b, client) == CallsOf(a, client) + CallsOf(b, client)
  {
    if a == [] {
      assert a + b == b;
    } else {
      assert (a + b)[1..] == a[1..] + b;
      CallsOfConcat(a[1..], b, client);
      var own := if a[0].client == client then [a[0].call] else [];
      assert own + (CallsOf(a[1..], client) + CallsOf(b, client))
        == (own + CallsOf(a[1..], client)) + CallsOf(b, client);
    }
  }

  /** Calls of all clients run one after the other under the one lock. */
  predicate TimelyAll(cs: seq<Addressed>, since: Instant) {
    cs != [] ==> since <= cs[0].call.now <= cs[0].call.readAt && TimelyAll(cs[1..], cs[0].call.readAt)
  }

  lemma {:induction false} OwnCallsTimely(cs: seq<Addressed>, client: string, since: Instant)
    requires TimelyAll(cs, since)
    ensures Timely(CallsOf(cs, client), since)
    decreases |cs|
  {
    if cs == [] {
    } else {
      OwnCallsTimely(cs[1..], client, cs[0].call.readAt);
      if cs[0].client == client {
        assert CallsOf(cs, client)[1..] == CallsOf(cs[1..], client);
      } else {
        assert CallsOf(cs, client) == CallsOf(cs[1..], client);
      }
    }
  }

  /** The admission bound of the shared limiter: in any stretch of any run from start-up, whatever other
      clients do, a client is granted at most its burst capacity plus the refill of the time between
      its first and its last call in the stretch, clock gaps included. */
  lemma SharedAdmissionBound(cfgOf: string -> Config, before: seq<Addressed>, window: seq<Addressed>,
                             client: string, since: Instant)
    requires cfgOf(client).Validated() && TimelyAll(before + window, since) && CallsOf(window, client) != []
    ensures var cfg, start, calls := cfgOf(client), RunAll(cfgOf, map[], before), CallsOf(window, client);
            WithinBound(cfg, Grants(cfgOf, start, window, client),
                        calls[|calls| - 1].now - calls[0].now
                          + Slack(cfg, Opening(cfg, Held(start, client), calls), calls))
  {
    var cfg, start := cfgOf(client), RunAll(cfgOf, map[], before);
    var earlier: seq<Call> := CallsOf(before, client);
    var calls: seq<Call> := CallsOf(window, client);
    ClientsAreIndependent(cfgOf, map[], before, client);
    ClientsAreIndependent(cfgOf, start, window, client);
    CallsOfConcat(before, window, client);
    OwnCallsTimely(before + window, client, since);
    AdmissionBoundInAnyWindow(cfg, (earlier + calls)[0].now, earlier, calls);
    OpeningIsRun(cfg, earlier, calls);
    assert StretchWithinBound(cfg, Opening(cfg, Held(start, client), calls), calls);
  }

  lemma OpeningIsRun(cfg: Config, earlier: seq<Call>, calls: seq<Call>)
    requires calls != []
    ensures Opening(cfg, AfterCalls(cfg, None, earlier), calls)
      == Run(cfg, NewBucket(cfg, (earlier + calls)[0].now), earlier)
  {
  }

  // ---- waits -------------------------------------------------------------------------------------

  /** A refused client is told the least whole number of seconds after which an undisturbed
      retry is granted; it is never zero. */
  lemma WaitIsLeast(cfg: Config, b: Bucket, c: Call, n: nat, later: Instant)
    requires cfg.Validated() && Sound(cfg, b, c.now) && c.now <= c.readAt && !Accepts(cfg, b, c)
    ensures Reply(cfg, b, c).Denied? && Reply(cfg, b, c).retryAfterSecs >= 1
    ensures Accepts(cfg, b, Call(later, c.readAt + n as real)) <==> n >= Reply(cfg, b, c).retryAfterSecs
  {
    var e := Elapsed(b, c);
    var refilled := Refilled(cfg, b, e);
    var retry := Call(later, c.readAt + n as real);
    assert Elapsed(b, retry) == e + n as real;
    Distribute(e, n as real, cfg.rate);
    SecondsNeeded(1.0 - refilled, cfg.rate, n);
    SecondsNeeded(1.0 - refilled, cfg.rate, 0);
  }

  /** The script's wait, in the same terms, as long as the key does not expire before the retry. */
  lemma ScriptWaitIsLeast(cfg: Config, e: Entry, nowMs: int, n: nat)
    requires cfg.Validated() && nowMs + 1000 * n < e.expiresMs
    requires ScriptRefilled(cfg, Some(e), nowMs) < 1.0
    ensures ScriptReply(cfg, Some(e), nowMs).Denied? && ScriptReply(cfg, Some(e), nowMs).retryAfterSecs >= 1
    ensures ScriptRefilled(cfg, Some(e), nowMs + 1000 * n) >= 1.0
      <==> n >= ScriptReply(cfg, Some(e), nowMs).retryAfterSecs
  {
    var refilled := ScriptRefilled(cfg, Some(e), nowMs);
    var s := (nowMs - e.lastMs) as real / 1000.0;
    assert (nowMs + 1000 * n - e.lastMs) as real / 1000.0 == s + n as real;
    Distribute(s, n as real, cfg.rate);
    SecondsNeeded(1.0 - refilled, cfg.rate, n);
    SecondsNeeded(1.0 - refilled, cfg.rate, 0);
  }

  /** A refusal of the bucket is enforced exactly when the refill rate is not negative, as it may be in
      an override for one client, which start-up does not validate: a negative rate makes the wait zero,
      which the middleware takes for a backend failure. */
  lemma RefusalEnforcedIff(cfg: Config, b: Bucket, c: Call)
    ensures Decide(true, Reply(cfg, b, c)).TooManyRequests? <==> !Accepts(cfg, b, c) && cfg.rate >= 0.0
    ensures !Decide(false, Reply(cfg, b, c)).TooManyRequests?
  {
    if !Accepts(cfg, b, c) && cfg.rate != 0.0 {
      var short := 1.0 - Refilled(cfg, b, Elapsed(b, c));
      QuotientSign(short, cfg.rate);
      CeilIsLeast(short / cfg.rate, 0);
    }
  }

  /** The script at a negative rate: its wait is zero, which the middleware takes for a backend failure, if less
      than one second's drain is missing, and otherwise a negative number that reads as a huge one. */
  lemma NegativeRateReads(cfg: Config, e: Option<Entry>, nowMs: int, infinity: int)
    requires cfg.rate < 0.0 && ScriptRefilled(cfg, e, nowMs) < 1.0
    requires 1.0 - ScriptRefilled(cfg, e, nowMs) < (U64_MODULUS / 2) as real * -cfg.rate
    ensures var answer := ScriptReply(cfg, e, nowMs, infinity);
            && answer.Denied?
            && (answer.retryAfterSecs == 0 <==> 1.0 - ScriptRefilled(cfg, e, nowMs) < -cfg.rate)
            && (answer.retryAfterSecs != 0 ==> answer.retryAfterSecs >= U64_MODULUS / 2)
  {
    var short := 1.0 - ScriptRefilled(cfg, e, nowMs);
    var wait := short / cfg.rate;
    assert wait * cfg.rate == short;
    NegativeWait(wait, -cfg.rate, short);
  }

  lemma NegativeWait(wait: real, drain: real, short: real)
    requires 0.0 < drain && wait * -drain == short && 0.0 < short < (U64_MODULUS / 2) as real * drain
    ensures -(U64_MODULUS / 2) < Ceil(wait) <= 0 && (Ceil(wait) == 0 <==> short < drain)
  {
    var x := -wait;
    assert x * drain == short;
    FactorBounds(x, (U64_MODULUS / 2) as real, drain, short);
    FloorBelow(x, U64_MODULUS / 2);
  }

  lemma FactorBounds(x: real, h: real, d: real, product: real)
    requires 0.0 < d && x * d == product && 0.0 < product < h * d
    ensures 0.0 < x < h && (product < d <==> x < 1.0)
  {
    FactorBelow(x, 0.0, d, product, 0.0);
    FactorBelow(x, h, d, product, h * d);
    FactorBelow(x, 1.0, d, product, d);
  }

  lemma FactorBelow(x: real, y: real, d: real, xd: real, yd: real)
    requires 0.0 < d && x * d == xd && y * d == yd
    ensures x < y <==> xd < yd
    ensures x == y <==> xd == yd
  {
    ScaleIff(x, y, d);
    ScaleIff(y, x, d);
  }

  lemma FloorBelow(x: real, h: int)
    requires 0.0 < x < h as real
    ensures 0 <= x.Floor < h && (x.Floor == 0 <==> x < 1.0)
  {
  }

  /** What the middleware tells an authenticated client: the whole tokens left after a granted call, and the
      least wait after a refusal. */
  lemma MiddlewareTells(cfg: Config, b: Bucket, c: Call, n: nat, later: Instant)
    requires cfg.Validated() && Sound(cfg, b, c.now) && c.now <= c.readAt
    ensures var told := Decide(true, Reply(cfg, b, c));
            if Accepts(cfg, b, c) then told == ProceedWithHeader(After(cfg, b, c).tokens.Floor)
            else && told.TooManyRequests? && told.retryAfterSecs >= 1
                 && (Accepts(cfg, b, Call(later, c.readAt + n as real)) <==> n >= told.retryAfterSecs)
  {
    if Accepts(cfg, b, c) {
      GrantedPays(cfg, b, c);
    } else {
      WaitIsLeast(cfg, b, c, n, later);
    }
  }

  /** Without an identity every call passes, without a header. */
  lemma UnauthenticatedPasses(answer: Answer)
    ensures Decide(false, answer) == Proceed
  {
  }

  lemma QuotientSign(a: real, b: real)
    requires 0.0 < a && b != 0.0
    ensures a / b > 0.0 <==> b > 0.0
  {
    assert (a / b) * b == a;
  }

  // ---- the script agrees with the bucket that never expires ------------------------------------------

  function Secs(ms: int): Instant { ms as real / 1000.0 }

  /** A call that reads the clock once, at a whole millisecond. */
  function At(ms: int): Call { Call(Secs(ms), Secs(ms)) }

  function LocalAnswers(cfg: Config, b: Option<Bucket>, times: seq<int>): (answers: seq<Answer>)
    ensures |answers| == |times|
    decreases |times|
  {
    if times == [] then [] else
      var bucket := if b.Some? then b.value else NewBucket(cfg, Secs(times[0]));
      [Reply(cfg, bucket, At(times[0]))] + LocalAnswers(cfg, Some(After(cfg, bucket, At(times[0]))), times[1..])
  }

  function ScriptAnswers(cfg: Config, e: Option<Entry>, times: seq<int>): (answers: seq<Answer>)
    ensures |answers| == |times|
    decreases |times|
  {
    if times == [] then [] else
      var written := ScriptAfter(cfg, e, times[0]);
      [ScriptReply(cfg, e, times[0])] + ScriptAnswers(cfg, if written.Some? then written else e, times[1..])
  }

  predicate NonDecreasing(times: seq<int>) {
    forall i, j :: 0 <= i < j < |times| ==> times[i] <= times[j]
  }

  /** The script's entry and the local bucket hold the same balance of the same moment. */
  predicate Matches(cfg: Config, b: Bucket, e: Entry, now: int) {
    && b.tokens == e.tokens && 0.0 <= b.tokens <= cfg.capacity as real
    && b.lastRefill == Secs(e.lastMs) && e.lastMs <= now
    && e.expiresMs == e.lastMs + EXPIRY_MS
  }

  predicate RefillsWithinExpiry(cfg: Config) {
    3600.0 * cfg.rate >= cfg.capacity as real
  }

  /** One step: same balance after the refill, whether or not the key has expired. */
  lemma SameRefill(cfg: Config, b: Bucket, e: Entry, now: int)
    requires cfg.Validated() && RefillsWithinExpiry(cfg) && Matches(cfg, b, e, now)
    ensures Refilled(cfg, b, Elapsed(b, At(now))) == ScriptRefilled(cfg, Some(e), now)
  {
    var s := (now - e.lastMs) as real / 1000.0;
    assert Elapsed(b, At(now)) == s;
    if now >= e.expiresMs {
      MulMono(3600.0, s, cfg.rate);
    }
  }

  lemma SameStep(cfg: Config, b: Bucket, e: Entry, now: int)
    requires cfg.Validated() && RefillsWithinExpiry(cfg) && Matches(cfg, b, e, now)
    ensures Reply(cfg, b, At(now)) == ScriptReply(cfg, Some(e), now)
    ensures var written := ScriptAfter(cfg, Some(e), now);
            Matches(cfg, After(cfg, b, At(now)), if written.Some? then written.value else e, now)
  {
    SameRefill(cfg, b, e, now);
  }

  lemma {:induction false} SameAnswersFrom(cfg: Config, b: Bucket, e: Entry, times: seq<int>)
    requires cfg.Validated() && RefillsWithinExpiry(cfg) && NonDecreasing(times)
    requires times != [] ==> Matches(cfg, b, e, times[0])
    ensures LocalAnswers(cfg, Some(b), times) == ScriptAnswers(cfg, Some(e), times)
    decreases |times|
  {
    if times == [] {
    } else {
      SameStep(cfg, b, e, times[0]);
      var written := ScriptAfter(cfg, Some(e), times[0]);
      SameAnswersFrom(cfg, After(cfg, b, At(times[0])), if written.Some? then written.value else e, times[1..]);
    }
  }

  lemma SameAnswers(cfg: Config, times: seq<int>)
    requires cfg.Validated() && RefillsWithinExpiry(cfg) && NonDecreasing(times)
    ensures LocalAnswers(cfg, None, times) == ScriptAnswers(cfg, None, times)
  {
    if times != [] {
      var now := times[0];
      var b := NewBucket(cfg, Secs(now));
      var e := Entry(cfg.capacity as real, now, now + EXPIRY_MS);
      SameStep(cfg, b, e, now);
      assert ScriptRefilled(cfg, None, now) == ScriptRefilled(cfg, Some(e), now);
      SameAnswersFrom(cfg, After(cfg, b, At(now)), ScriptAfter(cfg, None, now).value, times[1..]);
    }
  }

  /** A burst at one instant, then one call exactly when the key expires. */
  function Drain(n: nat): seq<int> {
    if n == 0 then [EXPIRY_MS] else [0] + Drain(n - 1)
  }

  lemma {:induction false} DrainOrdered(n: nat)
    ensures NonDecreasing(Drain(n)) && forall i :: 0 <= i < |Drain(n)| ==> 0 <= Drain(n)[i]
  {
    if n == 0 {
    } else {
      DrainOrdered(n - 1);
      assert Drain(n) == [0] + Drain(n - 1);
    }
  }

  /** With `n` tokens left at time zero, draining them tells the two apart. */
  lemma {:induction false} DrainDistinguishes(cfg: Config, n: nat)
    requires cfg.Validated() && !RefillsWithinExpiry(cfg) && n <= cfg.capacity
    ensures var e := Entry(n as real, 0, EXPIRY_MS);
            LocalAnswers(cfg, Some(Bucket(n as real, 0.0)), Drain(n)) != ScriptAnswers(cfg, Some(e), Drain(n))
  {
    var b, e := Bucket(n as real, 0.0), Entry(n as real, 0, EXPIRY_MS);
    if n == 0 {
      LastCallDiffers(cfg, b, e);
      assert LocalAnswers(cfg, Some(b), [EXPIRY_MS])[0] == Reply(cfg, b, At(EXPIRY_MS));
      assert ScriptAnswers(cfg, Some(e), [EXPIRY_MS])[0] == ScriptReply(cfg, Some(e), EXPIRY_MS);
    } else {
      DrainStep(cfg, b, e, n);
      DrainDistinguishes(cfg, n - 1);
      assert Drain(n)[1..] == Drain(n - 1);
      assert LocalAnswers(cfg, Some(b), Drain(n))[1..]
        == LocalAnswers(cfg, Some(Bucket((n - 1) as real, 0.0)), Drain(n - 1));
      assert ScriptAnswers(cfg, Some(e), Drain(n))[1..]
        == ScriptAnswers(cfg, Some(Entry((n - 1) as real, 0, EXPIRY_MS)), Drain(n - 1));
    }
  }

  lemma DrainStep(cfg: Config, b: Bucket, e: Entry, n: nat)
    requires cfg.Validated() && 0 < n <= cfg.capacity
    requires b == Bucket(n as real, 0.0) && e == Entry(n as real, 0, EXPIRY_MS)
    ensures After(cfg, b, At(0)) == Bucket((n - 1) as real, 0.0)
    ensures ScriptAfter(cfg, Some(e), 0) == Some(Entry((n - 1) as real, 0, EXPIRY_MS))
  {
    assert Elapsed(b, At(0)) == 0.0;
    assert Refilled(cfg, b, 0.0) == n as real;
    assert ScriptRefilled(cfg, Some(e), 0) == n as real;
  }

  lemma LastCallDiffers(cfg: Config, b: Bucket, e: Entry)
    requires cfg.Validated() && !RefillsWithinExpiry(cfg)
    requires b == Bucket(0.0, 0.0) && e == Entry(0.0, 0, EXPIRY_MS)
    ensures Reply(cfg, b, At(EXPIRY_MS)) != ScriptReply(cfg, Some(e), EXPIRY_MS)
  {
    ExpiredKeyReadsFull(cfg, e);
    EmptyBucketRefills(cfg, b);
  }

  lemma ExpiredKeyReadsFull(cfg: Config, e: Entry)
    requires cfg.Validated() && e.expiresMs == EXPIRY_MS
    ensures ScriptReply(cfg, Some(e), EXPIRY_MS) == Granted(cfg.capacity - 1)
  {
    assert ScriptRefilled(cfg, Some(e), EXPIRY_MS) == cfg.capacity as real;
    assert (cfg.capacity as real - 1.0).Floor == cfg.capacity - 1;
  }

  lemma EmptyBucketRefills(cfg: Config, b: Bucket)
    requires cfg.Validated() && !RefillsWithinExpiry(cfg) && b == Bucket(0.0, 0.0)
    ensures var r := Reply(cfg, b, At(EXPIRY_MS)); r.Granted? ==> r.remaining < cfg.capacity - 1
  {
    var refilled := 3600.0 * cfg.rate;
    assert Elapsed(b, At(EXPIRY_MS)) == 3600.0;
    assert Refilled(cfg, b, 3600.0) == refilled;
    assert refilled.Floor < cfg.capacity;
  }

  /** The script's one-hour expiry never shows, on any run, if and only if an empty bucket
      refills within that hour. */
  lemma ExpiryInvisibleIff(cfg: Config)
    requires cfg.Validated()
    ensures (forall times :: NonDecreasing(times) ==> LocalAnswers(cfg, None, times) == ScriptAnswers(cfg, None, times))
            <==> RefillsWithinExpiry(cfg)
  {
    if RefillsWithinExpiry(cfg) {
      forall times | NonDecreasing(times)
        ensures LocalAnswers(cfg, None, times) == ScriptAnswers(cfg, None, times)
      {
        SameAnswers(cfg, times);
      }
    } else {
      var n := cfg.capacity;
      DrainOrdered(n);
      DrainDistinguishes(cfg, n);
      FirstCallIsFromFull(cfg, n);
      assert LocalAnswers(cfg, None, Drain(n)) != ScriptAnswers(cfg, None, Drain(n));
    }
  }

  /** A missing bucket or key behaves as a full one of this moment. */
  lemma FirstCallIsFromFull(cfg: Config, n: nat)
    requires cfg.Validated() && 0 < n
    ensures var full := cfg.capacity as real;
            && LocalAnswers(cfg, None, Drain(n)) == LocalAnswers(cfg, Some(Bucket(full, 0.0)), Drain(n))
            && ScriptAnswers(cfg, None, Drain(n)) == ScriptAnswers(cfg, Some(Entry(full, 0, EXPIRY_MS)), Drain(n))
  {
    var e := Entry(cfg.capacity as real, 0, EXPIRY_MS);
    assert Drain(n)[0] == 0 && Secs(0) == 0.0;
    assert ScriptRefilled(cfg, None, 0) == ScriptRefilled(cfg, Some(e), 0) == cfg.capacity as real;
  }
}

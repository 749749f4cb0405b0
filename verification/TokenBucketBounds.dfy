/** What the token bucket cannot promise: the exact conditions under which each implementation meets the
    textbook bound of burst capacity plus rate times elapsed time. */
module TokenBucketBounds {
  import opened Common
  import opened TokenBucket
  import opened TokenBucketRuns

  // ---- two clock readings ---------------------------------------------------------------

  predicate GapsAtMost(cs: seq<Call>, gap: real) {
    forall c :: c in cs ==> c.readAt - c.now <= gap
  }

  /** A run of one client whose calls read the clock twice, at most `gap` apart. */
  ghost predicate RunWithGaps(cs: seq<Call>, gap: real) {
    cs != [] && Timely(cs, cs[0].now) && GapsAtMost(cs, gap)
  }

  /** The textbook bound on the last calls of a run, all but the first `k`. */
  ghost predicate MeetsTextbookBound(cfg: Config, cs: seq<Call>, k: nat)
    requires k < |cs|
  {
    var b := Run(cfg, NewBucket(cfg, cs[0].now), cs[..k]);
    WithinBound(cfg, Accepted(cfg, b, cs[k..]), cs[|cs| - 1].now - cs[k].now)
  }

  /** Without gaps every stretch of every run meets the bound. */
  lemma NoGapNoExcess(cfg: Config, cs: seq<Call>, k: nat)
    requires cfg.Validated() && RunWithGaps(cs, 0.0) && k < |cs|
    ensures MeetsTextbookBound(cfg, cs, k)
  {
    var first := cs[0].now;
    var b, window := Run(cfg, NewBucket(cfg, first), cs[..k]), cs[k..];
    assert cs == cs[..k] + window;
    TimelyOrdered(cs, first);
    AdmissionBoundInAnyWindow(cfg, first, cs[..k], window);
    forall c | c in window ensures c.readAt == c.now { assert c in cs; }
    NoSlack(cfg, b, window);
    assert StretchWithinBound(cfg, b, window);
  }

  /** As many calls as the bucket holds tokens, all at time zero. */
  function Burst(n: nat): seq<Call> {
    if n == 0 then [] else [Call(0.0, 0.0)] + Burst(n - 1)
  }

  lemma {:induction false} BurstDrains(cfg: Config, n: nat, rest: seq<Call>)
    requires cfg.Validated() && n <= cfg.capacity
    ensures Accepted(cfg, Bucket(n as real, 0.0), Burst(n) + rest) == n + Accepted(cfg, Bucket(0.0, 0.0), rest)
  {
    if n == 0 {
      assert Burst(0) + rest == rest;
    } else {
      var b, c := Bucket(n as real, 0.0), Call(0.0, 0.0);
      assert Elapsed(b, c) == 0.0 && Refilled(cfg, b, 0.0) == n as real;
      assert After(cfg, b, c) == Bucket((n - 1) as real, 0.0);
      assert (Burst(n) + rest)[0] == c && (Burst(n) + rest)[1..] == Burst(n - 1) + rest;
      BurstDrains(cfg, n - 1, rest);
    }
  }

  lemma {:induction false} BurstTimely(n: nat, rest: seq<Call>)
    requires Timely(rest, 0.0)
    ensures Timely(Burst(n) + rest, 0.0)
    ensures forall c :: c in Burst(n) ==> c == Call(0.0, 0.0)
  {
    if n == 0 {
      assert Burst(0) + rest == rest;
    } else {
      BurstTimely(n - 1, rest);
      assert (Burst(n) + rest)[1..] == Burst(n - 1) + rest;
    }
  }

  /** The run that exploits a gap: drain the bucket, then call twice. The first late call is paid for by its
      second reading but booked at its first, so the second late call can follow `gap` earlier. */
  function Exploit(cfg: Config, gap: real): seq<Call>
    requires 0.0 < cfg.rate
  {
    var period := 1.0 / cfg.rate;
    Burst(cfg.capacity) + [Call(period - gap, period), Call(2.0 * period - gap, 2.0 * period - gap)]
  }

  lemma PeriodRefillsOne(rate: real)
    requires 0.0 < rate
    ensures 0.0 < 1.0 / rate && (1.0 / rate) * rate == 1.0
  {
  }

  /** From an empty bucket both late calls are granted. */
  lemma LateCallsGranted(cfg: Config, gap: real)
    requires cfg.Validated() && 0.0 < gap <= 1.0 / cfg.rate
    ensures var period := 1.0 / cfg.rate;
            var late := [Call(period - gap, period), Call(2.0 * period - gap, 2.0 * period - gap)];
            Accepted(cfg, Bucket(0.0, 0.0), late) == 2
  {
    var period := 1.0 / cfg.rate;
    PeriodRefillsOne(cfg.rate);
    var c, d := Call(period - gap, period), Call(2.0 * period - gap, 2.0 * period - gap);
    var empty, next := Bucket(0.0, 0.0), Bucket(0.0, period - gap);
    assert Elapsed(empty, c) == period && Refilled(cfg, empty, period) == 1.0;
    assert After(cfg, empty, c) == next;
    assert Elapsed(next, d) == period && Refilled(cfg, next, period) == 1.0;
    assert [c, d][1..] == [d] && [d][1..] == [];
    assert Accepted(cfg, next, [d]) == 1;
  }

  lemma ExploitIsRun(cfg: Config, gap: real)
    requires cfg.Validated() && 0.0 < gap <= 1.0 / cfg.rate
    ensures RunWithGaps(Exploit(cfg, gap), gap) && Exploit(cfg, gap)[0] == Call(0.0, 0.0)
  {
    var period := 1.0 / cfg.rate;
    PeriodRefillsOne(cfg.rate);
    var c, d := Call(period - gap, period), Call(2.0 * period - gap, 2.0 * period - gap);
    assert [c, d][1..] == [d] && [d][1..] == [];
    assert Timely([d], c.readAt);
    assert Timely([c, d], 0.0);
    BurstTimely(cfg.capacity, [c, d]);
    assert Burst(cfg.capacity)[0] == Call(0.0, 0.0);
  }

  lemma ExploitExceeds(cfg: Config, gap: real)
    requires cfg.Validated() && 0.0 < gap <= 1.0 / cfg.rate
    ensures RunWithGaps(Exploit(cfg, gap), gap) && !MeetsTextbookBound(cfg, Exploit(cfg, gap), 0)
  {
    var cs, period := Exploit(cfg, gap), 1.0 / cfg.rate;
    PeriodRefillsOne(cfg.rate);
    ExploitIsRun(cfg, gap);
    LateCallsGranted(cfg, gap);
    BurstDrains(cfg, cfg.capacity, [Call(period - gap, period), Call(2.0 * period - gap, 2.0 * period - gap)]);
    assert cs[..0] == [] && cs[0..] == cs;
    assert Accepted(cfg, NewBucket(cfg, 0.0), cs) == cfg.capacity + 2;
    Excess(cfg, period, gap);
  }

  lemma Excess(cfg: Config, period: real, gap: real)
    requires cfg.Validated() && period * cfg.rate == 1.0 && 0.0 < gap
    ensures !WithinBound(cfg, cfg.capacity + 2, 2.0 * period - gap)
  {
    assert gap * cfg.rate > 0.0;
    assert (2.0 * period - gap) * cfg.rate == 2.0 * (period * cfg.rate) - gap * cfg.rate;
  }

  /** If the two readings of a call can lie up to `gap` apart, the textbook bound holds for every stretch of
      every run of a client if and only if there is no gap. */
  lemma TextbookBoundIff(cfg: Config, gap: real)
    requires cfg.Validated() && 0.0 <= gap
    ensures (forall cs, k: nat :: RunWithGaps(cs, gap) && k < |cs| ==> MeetsTextbookBound(cfg, cs, k)) <==> gap == 0.0
  {
    if gap == 0.0 {
      forall cs, k: nat | RunWithGaps(cs, gap) && k < |cs| ensures MeetsTextbookBound(cfg, cs, k) {
        NoGapNoExcess(cfg, cs, k);
      }
    } else {
      PeriodRefillsOne(cfg.rate);
      var g := MinReal(gap, 1.0 / cfg.rate);
      ExploitExceeds(cfg, g);
      assert RunWithGaps(Exploit(cfg, g), gap);
      assert 0 < |Exploit(cfg, g)|;
    }
  }

  // ---- the expiry of the script --------------------------------------------------------------

  function GrantedIn(answers: seq<Answer>): nat {
    if answers == [] then 0 else (if answers[0].Granted? then 1 else 0) + GrantedIn(answers[1..])
  }

  function AtAll(times: seq<int>): (cs: seq<Call>)
    ensures |cs| == |times| && forall k :: 0 <= k < |times| ==> cs[k] == At(times[k])
  {
    seq(|times|, k requires 0 <= k < |times| => At(times[k]))
  }

  /** The script's grants among the calls of a run after the first `k`. */
  function ScriptGrants(cfg: Config, times: seq<int>, k: nat): nat
    requires k <= |times|
  {
    GrantedIn(ScriptAnswers(cfg, None, times)[k..])
  }

  /** The script meets the textbook bound on the last calls of a run, all but the first `k`. */
  ghost predicate ScriptMeetsBound(cfg: Config, times: seq<int>, k: nat)
    requires k < |times|
  {
    WithinBound(cfg, ScriptGrants(cfg, times, k), Secs(times[|times| - 1]) - Secs(times[k]))
  }

  lemma {:induction false} LocalGrants(cfg: Config, b: Bucket, times: seq<int>)
    ensures GrantedIn(LocalAnswers(cfg, Some(b), times)) == Accepted(cfg, b, AtAll(times))
    decreases |times|
  {
    if times == [] {
    } else {
      var next := After(cfg, b, At(times[0]));
      LocalGrants(cfg, next, times[1..]);
      assert AtAll(times)[1..] == AtAll(times[1..]);
      assert LocalAnswers(cfg, Some(b), times)[1..] == LocalAnswers(cfg, Some(next), times[1..]);
    }
  }

  lemma {:induction false} LocalGrantsAfter(cfg: Config, b: Bucket, times: seq<int>, k: nat)
    requires k <= |times|
    ensures GrantedIn(LocalAnswers(cfg, Some(b), times)[k..])
      == Accepted(cfg, Run(cfg, b, AtAll(times)[..k]), AtAll(times)[k..])
    decreases k
  {
    var cs, answers := AtAll(times), LocalAnswers(cfg, Some(b), times);
    if k == 0 {
      assert cs[..0] == [] && cs[0..] == cs && answers[0..] == answers;
      LocalGrants(cfg, b, times);
    } else {
      var next := After(cfg, b, At(times[0]));
      LocalGrantsAfter(cfg, next, times[1..], k - 1);
      assert cs[1..] == AtAll(times[1..]);
      assert cs[..k][0] == cs[0] && cs[..k][1..] == cs[1..][..k - 1];
      assert cs[k..] == cs[1..][k - 1..];
      assert answers[1..] == LocalAnswers(cfg, Some(next), times[1..]);
      assert answers[k..] == answers[1..][k - 1..];
    }
  }

  lemma {:induction false} AtAllTimely(times: seq<int>)
    requires NonDecreasing(times)
    ensures times != [] ==> RunWithGaps(AtAll(times), 0.0)
  {
    if |times| <= 1 {
    } else {
      AtAllTimely(times[1..]);
      assert AtAll(times)[1..] == AtAll(times[1..]);
      assert times[0] <= times[1];
    }
  }

  /** If an empty bucket refills within the expiry, the script meets the bound like the bucket that never
      expires. */
  lemma RefilledScriptMeetsBound(cfg: Config, times: seq<int>, k: nat)
    requires cfg.Validated() && RefillsWithinExpiry(cfg) && NonDecreasing(times) && k < |times|
    ensures ScriptMeetsBound(cfg, times, k)
  {
    ScriptGrantsAreLocal(cfg, times, k);
    AtAllTimely(times);
    NoGapNoExcess(cfg, AtAll(times), k);
    assert MeetsTextbookBound(cfg, AtAll(times), k);
  }

  lemma ScriptGrantsAreLocal(cfg: Config, times: seq<int>, k: nat)
    requires cfg.Validated() && RefillsWithinExpiry(cfg) && NonDecreasing(times) && k < |times|
    ensures var cs := AtAll(times);
            ScriptGrants(cfg, times, k) == Accepted(cfg, Run(cfg, NewBucket(cfg, cs[0].now), cs[..k]), cs[k..])
  {
    var full := NewBucket(cfg, Secs(times[0]));
    SameAnswers(cfg, times);
    assert LocalAnswers(cfg, None, times) == LocalAnswers(cfg, Some(full), times);
    LocalGrantsAfter(cfg, full, times, k);
  }

  function Repeated(n: nat, time: int): seq<int> {
    if n == 0 then [] else [time] + Repeated(n - 1, time)
  }

  lemma {:induction false} RepeatedOrdered(m: nat, n: nat, s: int, t: int)
    requires s <= t
    ensures var times := Repeated(m, s) + Repeated(n, t);
            |times| == m + n && forall i :: 0 <= i < m + n ==> times[i] == if i < m then s else t
    decreases m + n
  {
    if 0 < m {
      RepeatedOrdered(m - 1, n, s, t);
      assert Repeated(m, s) + Repeated(n, t) == [s] + (Repeated(m - 1, s) + Repeated(n, t));
    } else if 0 < n {
      RepeatedOrdered(0, n - 1, s, t);
      assert Repeated(0, s) + Repeated(n, t) == [t] + (Repeated(0, s) + Repeated(n - 1, t));
    }
  }

  lemma ScriptGrant(cfg: Config, e: Option<Entry>, times: seq<int>, n: nat)
    requires cfg.Validated() && times != [] && 0 < n && ScriptRefilled(cfg, e, times[0]) == n as real
    ensures var next := Some(Entry((n - 1) as real, times[0], times[0] + EXPIRY_MS));
            GrantedIn(ScriptAnswers(cfg, e, times)) == 1 + GrantedIn(ScriptAnswers(cfg, next, times[1..]))
  {
    var next := Some(Entry((n - 1) as real, times[0], times[0] + EXPIRY_MS));
    assert ScriptAfter(cfg, e, times[0]) == next;
    assert ScriptAnswers(cfg, e, times)[1..] == ScriptAnswers(cfg, next, times[1..]);
  }

  /** A key that reads as `n` tokens grants a burst of `n` calls. */
  lemma {:induction false} ScriptBurst(cfg: Config, e: Option<Entry>, n: nat, time: int, rest: seq<int>)
    requires cfg.Validated() && 0 < n <= cfg.capacity && ScriptRefilled(cfg, e, time) == n as real
    ensures GrantedIn(ScriptAnswers(cfg, e, Repeated(n, time) + rest))
      == n + GrantedIn(ScriptAnswers(cfg, Some(Entry(0.0, time, time + EXPIRY_MS)), rest))
    decreases n
  {
    var later := Repeated(n - 1, time) + rest;
    var next := Some(Entry((n - 1) as real, time, time + EXPIRY_MS));
    assert Repeated(n, time) + rest == [time] + later;
    ScriptGrant(cfg, e, [time] + later, n);
    assert ([time] + later)[1..] == later;
    if n == 1 {
      assert later == rest;
    } else {
      ReadAgain(cfg, n - 1, time);
      ScriptBurst(cfg, next, n - 1, time, rest);
    }
  }

  lemma ReadAgain(cfg: Config, n: nat, time: int)
    requires cfg.Validated() && n <= cfg.capacity
    ensures ScriptRefilled(cfg, Some(Entry(n as real, time, time + EXPIRY_MS)), time) == n as real
  {
  }

  /** A burst, and another one when the key expires: twice the capacity within one hour. */
  lemma TwoBurstsExceed(cfg: Config)
    requires cfg.Validated() && !RefillsWithinExpiry(cfg)
    ensures var times := Repeated(cfg.capacity, 0) + Repeated(cfg.capacity, EXPIRY_MS);
            NonDecreasing(times) && 0 < |times| && !ScriptMeetsBound(cfg, times, 0)
  {
    RepeatedOrdered(cfg.capacity, cfg.capacity, 0, EXPIRY_MS);
    TwoBurstsGranted(cfg);
    assert Secs(EXPIRY_MS) - Secs(0) == 3600.0;
  }

  lemma TwoBurstsGranted(cfg: Config)
    requires cfg.Validated()
    ensures ScriptGrants(cfg, Repeated(cfg.capacity, 0) + Repeated(cfg.capacity, EXPIRY_MS), 0) == 2 * cfg.capacity
  {
    var n, late := cfg.capacity, Repeated(cfg.capacity, EXPIRY_MS);
    var answers := ScriptAnswers(cfg, None, Repeated(n, 0) + late);
    ScriptBurst(cfg, None, n, 0, late);
    ScriptBurst(cfg, Some(Entry(0.0, 0, EXPIRY_MS)), n, EXPIRY_MS, []);
    assert late + [] == late && answers[0..] == answers;
  }

  /** The script meets the textbook bound on every stretch of every run if and only if an empty bucket
      refills within the expiry. */
  lemma ScriptBoundIff(cfg: Config)
    requires cfg.Validated()
    ensures (forall times, k: nat :: NonDecreasing(times) && k < |times| ==> ScriptMeetsBound(cfg, times, k))
            <==> RefillsWithinExpiry(cfg)
  {
    if RefillsWithinExpiry(cfg) {
      forall times, k: nat | NonDecreasing(times) && k < |times| ensures ScriptMeetsBound(cfg, times, k) {
        RefilledScriptMeetsBound(cfg, times, k);
      }
    } else {
      TwoBurstsExceed(cfg);
    }
  }
}

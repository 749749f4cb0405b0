/** Weighted round-robin selection, driven by one wrapping counter. */
module Balancer {
  import opened Common
  import opened GatewayErrors

  datatype WeightedProvider = WeightedProvider(name: string, weight: u32, model: string)

  function TotalWeight(ps: seq<WeightedProvider>): nat {
    if ps == [] then 0 else TotalWeight(ps[..|ps| - 1]) + ps[|ps| - 1].weight
  }

  /** The flat index table the algorithm is documented by: provider `i` fills `weight` slots. */
  function Expand(ps: seq<WeightedProvider>): (table: seq<nat>)
    ensures |table| == TotalWeight(ps)
    ensures forall i :: i in table ==> i < |ps|
  {
    if ps == [] then [] else
      Expand(ps[..|ps| - 1]) + seq(ps[|ps| - 1].weight, _ => |ps| - 1)
  }

  /** The table repeated for ever. */
  function Cyclic(table: seq<nat>, t: nat): nat
    requires table != []
  {
    if t < |table| then table[t] else Cyclic(table, t - |table|)
  }

  lemma ModStep(x: nat, m: nat)
    requires 0 < m <= x
    ensures x % m == (x - m) % m
  {
    var q, q', r, r' := x / m, (x - m) / m, x % m, (x - m) % m;
    assert (q - 1 - q') * m == r' - r;
    if q - 1 > q' { MulLe(1, q - 1 - q', m); }
    if q - 1 < q' { MulLe(1, q' - (q - 1), m); }
  }

  lemma MulLe(a: int, b: int, c: nat)
    requires a <= b
    ensures a * c <= b * c
  {
  }

  lemma {:induction false} CyclicIsMod(table: seq<nat>, t: nat)
    requires table != []
    ensures Cyclic(table, t) == table[t % |table|]
    decreases t
  {
    if t >= |table| {
      CyclicIsMod(table, t - |table|);
      ModStep(t, |table|);
    }
  }

  /** The index that the counter value `tick` picks from the table. */
  function Pick(ps: seq<WeightedProvider>, tick: u64): (i: nat)
    requires TotalWeight(ps) > 0
    ensures i < |ps|
  {
    CyclicIsMod(Expand(ps), tick);
    assert Expand(ps)[tick % TotalWeight(ps)] in Expand(ps);
    Cyclic(Expand(ps), tick)
  }

  /** The outcome of one selection at counter value `tick`. */
  function Selection(ps: seq<WeightedProvider>, tick: u64): Result<WeightedProvider, GatewayError> {
    if |ps| == 0 then Err(ServiceUnavailable)
    else if |ps| == 1 then Ok(ps[0])
    else if TotalWeight(ps) == 0 then Err(ServiceUnavailable)
    else Ok(ps[Pick(ps, tick)])
  }

  function WrappingSucc(x: u64): u64 { if x + 1 == U64_MODULUS then 0 else x + 1 }

  /** Only a list that needs the table advances the counter. */
  function NextTick(ps: seq<WeightedProvider>, tick: u64): u64 {
    if |ps| >= 2 && TotalWeight(ps) > 0 then WrappingSucc(tick) else tick
  }

  lemma {:induction false} ExpandPrefix(ps: seq<WeightedProvider>, i: nat)
    requires i <= |ps|
    ensures Expand(ps[..i]) <= Expand(ps)
  {
    if i < |ps| {
      ExpandPrefix(ps[..|ps| - 1], i);
      assert ps[..|ps| - 1][..i] == ps[..i];
    } else {
      assert ps[..i] == ps;
    }
  }

  /** Provider `i` owns exactly the slots between the two running totals around it. */
  lemma SlotsOf(ps: seq<WeightedProvider>, i: nat, slot: nat)
    requires i < |ps| && TotalWeight(ps[..i]) <= slot < TotalWeight(ps[..i]) + ps[i].weight
    ensures TotalWeight(ps[..i + 1]) == TotalWeight(ps[..i]) + ps[i].weight <= TotalWeight(ps)
    ensures Expand(ps)[slot] == i
  {
    assert ps[..i + 1][..i] == ps[..i];
    ExpandPrefix(ps, i + 1);
  }

  class WeightedRoundRobin {
    var counter: u64

    constructor ()
      ensures counter == 0
    {
      counter := 0;
    }

    /** The walk over running weights selects what the expanded table holds. */
    method SelectProvider(ps: seq<WeightedProvider>) returns (r: Result<WeightedProvider, GatewayError>)
      modifies this
      ensures r == Selection(ps, old(counter))
      ensures counter == NextTick(ps, old(counter))
    {
      if |ps| == 0 {
        return Err(ServiceUnavailable);
      }
      if |ps| == 1 {
        return Ok(ps[0]);
      }
      var totalWeight := 0;
      for i := 0 to |ps|
        invariant totalWeight == TotalWeight(ps[..i])
      {
        assert ps[..i + 1][..i] == ps[..i];
        totalWeight := totalWeight + ps[i].weight;
      }
      assert ps[..|ps|] == ps;
      if totalWeight == 0 {
        return Err(ServiceUnavailable);
      }
      var tick := counter;
      counter := WrappingSucc(counter);
      var position := tick % totalWeight;

      var cumulative := 0;
      for i := 0 to |ps|
        invariant cumulative == TotalWeight(ps[..i]) <= position
      {
        assert ps[..i + 1][..i] == ps[..i];
        cumulative := cumulative + ps[i].weight;
        if position < cumulative {
          SlotsOf(ps, i, position);
          CyclicIsMod(Expand(ps), tick);
          return Ok(ps[i]);
        }
      }
      // The source's fallback to the last provider is unreachable.
      assert false;
      r := Err(ServiceUnavailable);
    }
  }

  /** The providers whose names are not excluded. */
  function Available(ps: seq<WeightedProvider>, excluded: seq<string>): seq<WeightedProvider> {
    if ps == [] then [] else
      (if ps[0].name in excluded then [] else [ps[0]]) + Available(ps[1..], excluded)
  }

  lemma {:induction false} AvailableMember(ps: seq<WeightedProvider>, excluded: seq<string>, p: WeightedProvider)
    ensures p in Available(ps, excluded) <==> p in ps && p.name !in excluded
  {
    if ps == [] {
    } else {
      AvailableMember(ps[1..], excluded, p);
    }
  }

  /** Filtering list by list, so the order of the providers is kept. */
  lemma {:induction false} AvailableConcat(a: seq<WeightedProvider>, b: seq<WeightedProvider>, excluded: seq<string>)
    ensures Available(a + b, excluded) == Available(a, excluded) + Available(b, excluded)
    ensures |a| == 1 ==> Available(a, excluded) == if a[0].name in excluded then [] else a
  {
    if a == [] {
      assert a + b == b;
    } else {
      var own := if a[0].name in excluded then [] else [a[0]];
      assert (a + b)[1..] == a[1..] + b;
      AvailableConcat(a[1..], b, excluded);
      assert own + (Available(a[1..], excluded) + Available(b, excluded))
        == (own + Available(a[1..], excluded)) + Available(b, excluded);
    }
  }

  /** Selection succeeds exactly on a single provider, whatever its weight, and on a list of some weight; it
      returns one of the list, and moves the counter exactly when the list needs the table. */
  lemma SelectionSucceedsIff(ps: seq<WeightedProvider>, tick: u64)
    ensures Selection(ps, tick).Ok? <==> |ps| == 1 || TotalWeight(ps) > 0
    ensures Selection(ps, tick).Ok? ==> Selection(ps, tick).value in ps
    ensures Selection(ps, tick).Err? ==> Selection(ps, tick) == Err(ServiceUnavailable)
    ensures NextTick(ps, tick) != tick <==> |ps| >= 2 && TotalWeight(ps) > 0
  {
  }

  // ---- fairness ---------------------------------------------------------------------------

  /** How many of the `n` slots from tick `s` on, read cyclically, hold provider `i`. */
  function Count(table: seq<nat>, i: nat, s: nat, n: nat): (c: nat)
    requires table != []
    ensures c <= n
  {
    if n == 0 then 0 else
      Count(table, i, s, n - 1) + if Cyclic(table, s + n - 1) == i then 1 else 0
  }

  function Occurrences(table: seq<nat>, i: nat): nat {
    if table == [] then 0 else
      Occurrences(table[..|table| - 1], i) + if table[|table| - 1] == i then 1 else 0
  }

  lemma {:induction false} CountSplit(table: seq<nat>, i: nat, s: nat, m: nat, n: nat)
    requires table != []
    ensures Count(table, i, s, m + n) == Count(table, i, s, m) + Count(table, i, s + m, n)
    decreases n
  {
    if n == 0 {
    } else {
      CountSplit(table, i, s, m, n - 1);
      assert s + (m + n) - 1 == (s + m) + n - 1;
    }
  }

  lemma {:induction false} CountPeriodic(table: seq<nat>, i: nat, s: nat, n: nat)
    requires table != []
    ensures Count(table, i, s + |table|, n) == Count(table, i, s, n)
    decreases n
  {
    if n == 0 {
    } else {
      CountPeriodic(table, i, s, n - 1);
      assert (s + |table|) + n - 1 == (s + n - 1) + |table|;
    }
  }

  lemma {:induction false} CountFromZero(table: seq<nat>, i: nat, n: nat)
    requires table != [] && n <= |table|
    ensures Count(table, i, 0, n) == Occurrences(table[..n], i)
    decreases n
  {
    if n == 0 {
    } else {
      CountFromZero(table, i, n - 1);
      assert table[..n][..n - 1] == table[..n - 1];
    }
  }

  /** A full round from any start meets every slot once. */
  lemma {:induction false} CountRound(table: seq<nat>, i: nat, s: nat)
    requires table != []
    ensures Count(table, i, s, |table|) == Occurrences(table, i)
    decreases s
  {
    if s == 0 {
      CountFromZero(table, i, |table|);
      assert table[..|table|] == table;
    } else {
      CountRound(table, i, s - 1);
      CountSplit(table, i, s - 1, 1, |table|);
      CountSplit(table, i, s - 1, |table|, 1);
      CountPeriodic(table, i, s - 1, 1);
    }
  }

  /** Less than a round: limited both by its own length and by what the round contains. */
  lemma CountPartial(table: seq<nat>, i: nat, s: nat, n: nat)
    requires table != [] && n <= |table|
    ensures var w := Occurrences(table, i);
            n - (|table| - w) <= Count(table, i, s, n) <= Min(n, w)
  {
    CountRound(table, i, s);
    CountSplit(table, i, s, n, |table| - n);
  }

  lemma {:induction false} CountRounds(table: seq<nat>, i: nat, s: nat, q: nat, r: nat)
    requires table != []
    ensures Count(table, i, s, q * |table| + r) == q * Occurrences(table, i) + Count(table, i, s, r)
    decreases q
  {
    if q == 0 {
      assert q * |table| + r == r;
    } else {
      var n := (q - 1) * |table| + r;
      CountRounds(table, i, s, q - 1, r);
      CountSplit(table, i, s, n, |table|);
      CountRound(table, i, s + n);
      assert n + |table| == q * |table| + r;
      assert (q - 1) * Occurrences(table, i) + Occurrences(table, i) == q * Occurrences(table, i);
    }
  }

  /** The share error of a count, scaled by the total weight so that it stays an integer. */
  function ShareError(count: nat, W: nat, w: nat, n: nat): int {
    count * W - n * w
  }

  lemma ShareErrorOfRounds(W: nat, w: nat, q: nat, r: nat, c: nat)
    ensures ShareError(q * w + c, W, w, q * W + r) == ShareError(c, W, w, r)
  {
    assert (q * w + c) * W == q * w * W + c * W;
    assert (q * W + r) * w == q * W * w + r * w;
  }

  /** Whole rounds contribute no error. */
  lemma DropRounds(table: seq<nat>, i: nat, s: nat, n: nat)
    requires table != []
    ensures var W, w := |table|, Occurrences(table, i);
            ShareError(Count(table, i, s, n), W, w, n) == ShareError(Count(table, i, s, n % W), W, w, n % W)
  {
    var W, q, r := |table|, n / |table|, n % |table|;
    assert n == q * W + r;
    CountRounds(table, i, s, q, r);
    ShareErrorOfRounds(W, Occurrences(table, i), q, r, Count(table, i, s, r));
  }

  function Abs(x: int): nat { if x < 0 then -x else x }

  /** The share error of provider `i` over the `n` selections from tick `s` on. */
  function ErrorAt(table: seq<nat>, i: nat, s: nat, n: nat): nat
    requires table != []
  {
    Abs(ShareError(Count(table, i, s, n), |table|, Occurrences(table, i), n))
  }

  /** The largest share error any start can produce for weight `w` of `W`, when `r` selections
      are left over from whole rounds. */
  function WorstError(W: nat, w: nat, r: nat): int {
    Max(ShareError(Min(r, w), W, w, r), -ShareError(Max(0, r - (W - w)), W, w, r))
  }

  /** No start does worse than `WorstError`. */
  lemma ErrorAtMostWorst(table: seq<nat>, i: nat, s: nat, n: nat)
    requires table != []
    ensures ErrorAt(table, i, s, n) <= WorstError(|table|, Occurrences(table, i), n % |table|)
  {
    var W, w := |table|, Occurrences(table, i);
    var r := n % W;
    DropRounds(table, i, s, n);
    var c := Count(table, i, s, r);
    CountPartial(table, i, s, r);
    MulLe(c, Min(r, w), W);
    MulLe(Max(0, r - (W - w)), c, W);
  }

  /** The bound behind the fairness claim: w * (W - w), whatever the run length. */
  lemma WorstErrorBound(W: nat, w: nat, r: nat)
    requires r < W && w <= W
    ensures WorstError(W, w, r) <= w * (W - w)
    ensures r == 0 ==> WorstError(W, w, r) == 0
  {
    UpperError(W, w, r);
    LowerError(W, w, r);
  }

  lemma UpperError(W: nat, w: nat, r: nat)
    requires r < W && w <= W
    ensures ShareError(Min(r, w), W, w, r) <= w * (W - w)
    ensures r == 0 ==> ShareError(Min(r, w), W, w, r) == 0
  {
    if r <= w {
      MulLe(r, w, W - w);
      assert r * W - r * w == r * (W - w);
    } else {
      MulLe(W - r, W - w, w);
      assert w * W - r * w == (W - r) * w;
    }
  }

  lemma LowerError(W: nat, w: nat, r: nat)
    requires r < W && w <= W
    ensures -ShareError(Max(0, r - (W - w)), W, w, r) <= w * (W - w)
    ensures r == 0 ==> ShareError(Max(0, r - (W - w)), W, w, r) == 0
  {
    var d, e := W - r, W - w;
    if r <= e {
      MulLe(r, e, w);
    } else {
      MulLe(d, w, e);
      assert (W - d) * (W - e) - (W - d - e) * W == d * e;
    }
  }

  /** The slots of provider `i` start at `first` and lie together. */
  ghost predicate Block(table: seq<nat>, i: nat, first: nat) {
    var w := Occurrences(table, i);
    first + w <= |table| && forall k :: first <= k < first + w ==> table[k] == i
  }

  lemma {:induction false} CountInBlock(table: seq<nat>, i: nat, first: nat, n: nat)
    requires table != [] && Block(table, i, first) && n <= Occurrences(table, i)
    ensures Count(table, i, first, n) == n
    decreases n
  {
    if n == 0 {
    } else {
      CountInBlock(table, i, first, n - 1);
    }
  }

  /** Starting where the block starts meets as many of its slots as possible. */
  lemma CountFromStart(table: seq<nat>, i: nat, first: nat, r: nat)
    requires table != [] && Block(table, i, first) && r < |table|
    ensures Count(table, i, first, r) == Min(r, Occurrences(table, i))
  {
    var m := Min(r, Occurrences(table, i));
    CountInBlock(table, i, first, m);
    CountSplit(table, i, first, m, r - m);
    CountPartial(table, i, first, r);
  }

  /** Starting where the block ends leaves the whole gap before its slots come round again. */
  lemma CountInGap(table: seq<nat>, i: nat, first: nat)
    requires table != [] && Block(table, i, first) && Occurrences(table, i) <= |table|
    ensures Count(table, i, first + Occurrences(table, i), |table| - Occurrences(table, i)) == 0
  {
    var W, w := |table|, Occurrences(table, i);
    CountRound(table, i, first + w);
    CountSplit(table, i, first + w, W - w, w);
    CountPeriodic(table, i, first, w);
    CountInBlock(table, i, first, w);
    assert (first + w) + (W - w) == first + W;
  }

  lemma CountFromEnd(table: seq<nat>, i: nat, first: nat, r: nat)
    requires table != [] && Block(table, i, first) && r < |table|
    ensures Count(table, i, first + Occurrences(table, i), r) == Max(0, r - (|table| - Occurrences(table, i)))
  {
    var w := Occurrences(table, i);
    var gap, m := |table| - w, Min(r, |table| - w);
    CountInGap(table, i, first);
    CountSplit(table, i, first + w, m, gap - m);
    CountSplit(table, i, first + w, m, r - m);
    CountPartial(table, i, first + w, r);
  }

  /** The worst error is reached from one end of the block or the other. */
  lemma WorstReached(table: seq<nat>, i: nat, first: nat, n: nat)
    requires table != [] && Block(table, i, first)
    ensures var w := Occurrences(table, i);
            WorstError(|table|, w, n % |table|) <= Max(ErrorAt(table, i, first, n), ErrorAt(table, i, first + w, n))
  {
    var W, w, r := |table|, Occurrences(table, i), n % |table|;
    CountFromStart(table, i, first, r);
    CountFromEnd(table, i, first, r);
    DropRounds(table, i, first, n);
    DropRounds(table, i, first + w, n);
  }

  // ---- fairness of the balancer -------------------------------------------------------------

  /** The indices that `n` consecutive selections on one list return. */
  function Picks(ps: seq<WeightedProvider>, tick: u64, n: nat): (picks: seq<nat>)
    requires TotalWeight(ps) > 0
    ensures |picks| == n
    decreases n
  {
    if n == 0 then [] else
      [Pick(ps, tick)] + Picks(ps, WrappingSucc(tick), n - 1)
  }

  /** The outcomes of `n` consecutive calls of `SelectProvider`. */
  function Selections(ps: seq<WeightedProvider>, tick: u64, n: nat): (rs: seq<Result<WeightedProvider, GatewayError>>)
    ensures |rs| == n
    decreases n
  {
    if n == 0 then [] else [Selection(ps, tick)] + Selections(ps, NextTick(ps, tick), n - 1)
  }

  /** On a list that needs the table, consecutive calls return what `Picks` says. */
  lemma {:induction false} SelectionsFollowPicks(ps: seq<WeightedProvider>, tick: u64, n: nat, k: nat)
    requires |ps| >= 2 && TotalWeight(ps) > 0 && k < n
    ensures Picks(ps, tick, n)[k] < |ps|
    ensures Selections(ps, tick, n)[k] == Ok(ps[Picks(ps, tick, n)[k]])
    decreases n
  {
    var tick' := WrappingSucc(tick);
    assert Picks(ps, tick, n) == [Pick(ps, tick)] + Picks(ps, tick', n - 1);
    assert Selections(ps, tick, n) == [Selection(ps, tick)] + Selections(ps, tick', n - 1);
    if k == 0 {
    } else {
      SelectionsFollowPicks(ps, tick', n - 1, k - 1);
    }
  }

  lemma {:induction false} OccurrencesAppend(a: seq<nat>, b: seq<nat>, i: nat)
    ensures Occurrences(a + b, i) == Occurrences(a, i) + Occurrences(b, i)
    decreases |b|
  {
    if b == [] {
      assert a + b == a;
    } else {
      assert (a + b)[..|a + b| - 1] == a + b[..|b| - 1];
      OccurrencesAppend(a, b[..|b| - 1], i);
    }
  }

  lemma {:induction false} OccurrencesConstant(n: nat, j: nat, i: nat)
    ensures Occurrences(seq(n, _ => j), i) == if i == j then n else 0
  {
    if n == 0 {
    } else {
      assert seq(n, _ => j)[..n - 1] == seq(n - 1, _ => j);
      OccurrencesConstant(n - 1, j, i);
    }
  }

  lemma {:induction false} OccurrencesAbsent(table: seq<nat>, i: nat)
    requires i !in table
    ensures Occurrences(table, i) == 0
  {
    if table == [] {
    } else {
      OccurrencesAbsent(table[..|table| - 1], i);
    }
  }

  /** The table gives provider `i` as many slots as its weight, all together. */
  lemma {:induction false} ExpandBlock(ps: seq<WeightedProvider>, i: nat)
    requires i < |ps|
    ensures Occurrences(Expand(ps), i) == ps[i].weight
    ensures Block(Expand(ps), i, TotalWeight(ps[..i]))
  {
    var init, last := ps[..|ps| - 1], ps[|ps| - 1];
    OccurrencesAppend(Expand(init), seq(last.weight, _ => |ps| - 1), i);
    OccurrencesConstant(last.weight, |ps| - 1, i);
    if i < |init| {
      ExpandBlock(init, i);
      assert init[..i] == ps[..i];
    } else {
      OccurrencesAbsent(Expand(init), i);
    }
  }

  /** Without wrap-around the picks are a stretch of the cyclic table. */
  lemma {:induction false} PicksFollowTable(ps: seq<WeightedProvider>, tick: u64, n: nat, i: nat)
    requires TotalWeight(ps) > 0 && tick + n <= U64_MODULUS
    ensures Occurrences(Picks(ps, tick, n), i) == Count(Expand(ps), i, tick, n)
    decreases n
  {
    if n == 0 {
    } else {
      var table := Expand(ps);
      PicksUnfold(ps, tick, n, i);
      CountSplit(table, i, tick, 1, n - 1);
      CountSingle(table, i, tick);
      if n > 1 {
        PicksFollowTable(ps, tick + 1, n - 1, i);
      }
    }
  }

  lemma PicksUnfold(ps: seq<WeightedProvider>, tick: u64, n: nat, i: nat)
    requires TotalWeight(ps) > 0 && tick + n <= U64_MODULUS && 0 < n
    ensures var first := if Pick(ps, tick) == i then 1 else 0;
            Occurrences(Picks(ps, tick, n), i)
              == first + if n == 1 then 0 else Occurrences(Picks(ps, tick + 1, n - 1), i)
  {
    var rest := Picks(ps, WrappingSucc(tick), n - 1);
    OccurrencesAppend([Pick(ps, tick)], rest, i);
    OccurrencesSingle(Pick(ps, tick), i);
  }

  lemma OccurrencesSingle(x: nat, i: nat)
    ensures Occurrences([x], i) == if x == i then 1 else 0
  {
    assert [x][..0] == [];
  }

  lemma CountSingle(table: seq<nat>, i: nat, s: nat)
    requires table != []
    ensures Count(table, i, s, 1) == if Cyclic(table, s) == i then 1 else 0
  {
    assert Count(table, i, s, 0) == 0;
  }

  /** Over any `n` consecutive selections a provider's share is off by at most w(W - w) / (nW);
      over whole rounds it is exact. The counter must not wrap in between. */
  lemma Fairness(ps: seq<WeightedProvider>, tick: u64, n: nat, i: nat)
    requires TotalWeight(ps) > 0 && i < |ps| && tick + n <= U64_MODULUS
    ensures var W, w := TotalWeight(ps), ps[i].weight;
            var c := Occurrences(Picks(ps, tick, n), i);
            && Abs(ShareError(c, W, w, n)) <= w * (W - w)
            && (n % W == 0 ==> ShareError(c, W, w, n) == 0)
  {
    PicksFollowTable(ps, tick, n, i);
    ExpandBlock(ps, i);
    ErrorAtMostWorst(Expand(ps), i, tick, n);
    WorstErrorBound(TotalWeight(ps), ps[i].weight, n % TotalWeight(ps));
  }

  /** Over `n` selections the share of provider `i` is within 5% of its configured share. */
  ghost predicate WithinFivePercent(ps: seq<WeightedProvider>, tick: u64, n: nat, i: nat)
    requires TotalWeight(ps) > 0 && i < |ps|
  {
    var c := Occurrences(Picks(ps, tick, n), i);
    20 * Abs(ShareError(c, TotalWeight(ps), ps[i].weight, n)) <= n * TotalWeight(ps)
  }

  /** The tolerance in weights alone, checkable before any selection is made. */
  predicate ToleratesFivePercent(W: nat, w: nat, n: nat)
    requires 0 < W
  {
    20 * WorstError(W, w, n % W) <= n * W
  }

  /** The documented tolerance holds from every counter value exactly when the weights meet an
      arithmetic condition. */
  lemma FivePercentIff(ps: seq<WeightedProvider>, n: nat, i: nat)
    requires TotalWeight(ps) > 0 && i < |ps| && TotalWeight(ps) + n < U64_MODULUS
    ensures (forall tick: u64 :: tick + n <= U64_MODULUS ==> WithinFivePercent(ps, tick, n, i))
            <==> ToleratesFivePercent(TotalWeight(ps), ps[i].weight, n)
  {
    if ToleratesFivePercent(TotalWeight(ps), ps[i].weight, n) {
      forall tick: u64 | tick + n <= U64_MODULUS
        ensures WithinFivePercent(ps, tick, n, i)
      {
        FivePercentHolds(ps, tick, n, i);
      }
    } else {
      var tick := FivePercentFails(ps, n, i);
    }
  }

  lemma FivePercentHolds(ps: seq<WeightedProvider>, tick: u64, n: nat, i: nat)
    requires TotalWeight(ps) > 0 && i < |ps| && tick + n <= U64_MODULUS
    requires ToleratesFivePercent(TotalWeight(ps), ps[i].weight, n)
    ensures WithinFivePercent(ps, tick, n, i)
  {
    FivePercentMeans(ps, tick, n, i);
  }

  lemma FivePercentFails(ps: seq<WeightedProvider>, n: nat, i: nat) returns (tick: u64)
    requires TotalWeight(ps) > 0 && i < |ps| && TotalWeight(ps) + n < U64_MODULUS
    requires !ToleratesFivePercent(TotalWeight(ps), ps[i].weight, n)
    ensures tick + n <= U64_MODULUS && !WithinFivePercent(ps, tick, n, i)
  {
    var first := TotalWeight(ps[..i]);
    ExpandBlock(ps, i);
    WorstReached(Expand(ps), i, first, n);
    var end: u64 := first + ps[i].weight;
    FivePercentMeans(ps, first, n, i);
    FivePercentMeans(ps, end, n, i);
    tick := if WithinFivePercent(ps, first, n, i) then end else first;
  }

  lemma FivePercentMeans(ps: seq<WeightedProvider>, tick: u64, n: nat, i: nat)
    requires TotalWeight(ps) > 0 && i < |ps| && tick + n <= U64_MODULUS
    ensures var e := ErrorAt(Expand(ps), i, tick, n);
            && (WithinFivePercent(ps, tick, n, i) <==> 20 * e <= n * TotalWeight(ps))
            && e <= WorstError(TotalWeight(ps), ps[i].weight, n % TotalWeight(ps))
  {
    ExpandBlock(ps, i);
    PicksFollowTable(ps, tick, n, i);
    ErrorAtMostWorst(Expand(ps), i, tick, n);
  }

  /** A total weight of at most a fifth of the sample is enough: 200 for 1000 requests. */
  lemma FivePercentForSmallWeights(ps: seq<WeightedProvider>, tick: u64, n: nat, i: nat)
    requires 0 < TotalWeight(ps) && 5 * TotalWeight(ps) <= n && i < |ps| && tick + n <= U64_MODULUS
    ensures WithinFivePercent(ps, tick, n, i)
  {
    ExpandBlock(ps, i);
    SmallWorst(TotalWeight(ps), ps[i].weight, n % TotalWeight(ps), n);
    FivePercentHolds(ps, tick, n, i);
  }

  lemma SmallWorst(W: nat, w: nat, r: nat, n: nat)
    requires r < W && w <= W && 5 * W <= n
    ensures 20 * WorstError(W, w, r) <= n * W
  {
    WorstErrorBound(W, w, r);
    SmallProduct(W, w, n);
  }

  lemma SmallProduct(W: nat, w: nat, n: nat)
    requires 5 * W <= n
    ensures 20 * (w * (W - w)) <= n * W
  {
    QuarterSquare(W, w);
    MulLe(5 * W, n, W);
    assert (5 * W) * W == 5 * (W * W);
  }

  lemma QuarterSquare(W: int, w: int)
    ensures 4 * (w * (W - w)) <= W * W
  {
    var d := W - 2 * w;
    assert W * W - 4 * (w * (W - w)) == d * d;
  }

  /** Two providers of weight 1000 each: some counter value sends 1000 requests in a row to one of them. */
  lemma FivePercentFailsForLargeWeights(a: WeightedProvider, b: WeightedProvider, n: nat)
    requires a.weight == 1000 && b.weight == 1000 && n == 1000
    ensures TotalWeight([a, b]) == 2000
    ensures exists tick: u64 :: tick + n <= U64_MODULUS && !WithinFivePercent([a, b], tick, n, 0)
  {
    var ps := [a, b];
    assert ps[..1] == [a] && ps[..1][..0] == [];
    assert TotalWeight(ps[..1]) == 1000;
    assert n % 2000 == 1000;
    var tick := FivePercentFails(ps, n, 0);
  }
}

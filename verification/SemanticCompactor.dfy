/** The semantic compactor: drops the lowest-scoring messages until a token budget is met. */
module SemanticCompactor {
  import opened Common
  import opened Messages

  /** `marked` tells the messages protected by a critical marker, `score` is any importance score. */
  datatype Config = Config(
    tokenThreshold: nat,
    targetTokenRatio: real,
    minFinalTokens: nat,
    marked: Message -> bool,
    score: (seq<Message>, nat) -> int)

  /** The token budget: a share of the original, but no less than the configured minimum. */
  function Target(cfg: Config, ms: seq<Message>): nat {
    Budget(TotalTokens(ms) as real * cfg.targetTokenRatio, cfg.minFinalTokens)
  }

  function Budget(share: real, minimum: nat): nat {
    Max(if share.Floor < 0 then 0 else share.Floor, minimum)
  }

  function Protected(cfg: Config, ms: seq<Message>): nat -> bool {
    (i: nat) => i < |ms| && (ms[i].role == "system" || LastUser(ms) == Some(i) || cfg.marked(ms[i]))
  }

  function Removable(cfg: Config, ms: seq<Message>): nat -> bool {
    (i: nat) => i < |ms| && !Protected(cfg, ms)(i)
  }

  // ---- ranking --------------------------------------------------------------------------

  /** Lower score first; among equals, the earlier message. */
  predicate RanksBefore(score: nat -> int, a: nat, b: nat) {
    score(a) < score(b) || (score(a) == score(b) && a < b)
  }

  predicate RankedBy(score: nat -> int, xs: seq<nat>) {
    forall i, j :: 0 <= i < j < |xs| ==> RanksBefore(score, xs[i], xs[j])
  }

  /** Puts `x` behind everything that scores no more. */
  function Insert(score: nat -> int, x: nat, xs: seq<nat>): seq<nat> {
    if xs == [] || score(xs[|xs| - 1]) <= score(x) then xs + [x]
    else Insert(score, x, xs[..|xs| - 1]) + [xs[|xs| - 1]]
  }

  /** The stable sort by score. */
  function Ranking(score: nat -> int, xs: seq<nat>): seq<nat> {
    if xs == [] then [] else Insert(score, xs[|xs| - 1], Ranking(score, xs[..|xs| - 1]))
  }

  lemma {:induction false} InsertMembers(score: nat -> int, x: nat, xs: seq<nat>)
    ensures forall y :: y in Insert(score, x, xs) <==> y == x || y in xs
    ensures |Insert(score, x, xs)| == |xs| + 1
  {
    if xs != [] && score(xs[|xs| - 1]) > score(x) {
      InsertMembers(score, x, xs[..|xs| - 1]);
      assert xs == xs[..|xs| - 1] + [xs[|xs| - 1]];
    }
  }

  lemma {:induction false} InsertRanked(score: nat -> int, x: nat, xs: seq<nat>)
    requires RankedBy(score, xs) && forall y :: y in xs ==> y < x
    ensures RankedBy(score, Insert(score, x, xs))
  {
    if xs == [] {
    } else {
      var init, last := xs[..|xs| - 1], xs[|xs| - 1];
      if score(last) <= score(x) {
        forall i | 0 <= i < |xs| ensures RanksBefore(score, xs[i], x) {
          assert i == |xs| - 1 || RanksBefore(score, xs[i], last);
          assert xs[i] in xs;
        }
      } else {
        assert forall y :: y in init ==> y in xs;
        InsertRanked(score, x, init);
        InsertMembers(score, x, init);
        var r := Insert(score, x, init);
        forall i | 0 <= i < |r| ensures RanksBefore(score, r[i], last) {
          assert r[i] in r;
          assert r[i] == x || r[i] in init;
        }
      }
    }
  }

  /** The ranking has the same members and is ordered by score, then by position. */
  lemma {:induction false} RankingSorts(score: nat -> int, xs: seq<nat>)
    requires Increasing(xs)
    ensures RankedBy(score, Ranking(score, xs)) && |Ranking(score, xs)| == |xs|
    ensures forall y :: y in Ranking(score, xs) <==> y in xs
  {
    if xs == [] {
    } else {
      var init, last := xs[..|xs| - 1], xs[|xs| - 1];
      RankingSorts(score, init);
      InsertRanked(score, last, Ranking(score, init));
      InsertMembers(score, last, Ranking(score, init));
      assert xs == init + [last];
    }
  }

  function Score(cfg: Config, ms: seq<Message>): nat -> int {
    (i: nat) => cfg.score(ms, i)
  }

  /** The removable positions, least important first. */
  function Candidates(cfg: Config, ms: seq<Message>): seq<nat> {
    Ranking(Score(cfg, ms), Where(|ms|, Removable(cfg, ms)))
  }

  lemma RankedIsDistinct(score: nat -> int, xs: seq<nat>)
    requires RankedBy(score, xs)
    ensures Distinct(xs)
  {
    forall i, j | 0 <= i < j < |xs| ensures xs[i] != xs[j] {
      assert RanksBefore(score, xs[i], xs[j]);
    }
  }

  lemma CandidatesRanked(cfg: Config, ms: seq<Message>)
    ensures RankedBy(Score(cfg, ms), Candidates(cfg, ms)) && Below(Candidates(cfg, ms), |ms|)
    ensures forall i: nat :: i in Candidates(cfg, ms) <==> Removable(cfg, ms)(i)
    ensures |Candidates(cfg, ms)| == |Where(|ms|, Removable(cfg, ms))| && Distinct(Candidates(cfg, ms))
  {
    WhereSelects(|ms|, Removable(cfg, ms));
    RankingSorts(Score(cfg, ms), Where(|ms|, Removable(cfg, ms)));
    var c := Candidates(cfg, ms);
    forall k | 0 <= k < |c| ensures c[k] < |ms| { assert c[k] in c; }
    RankedIsDistinct(Score(cfg, ms), c);
  }

  // ---- the whole compaction --------------------------------------------------------------

  function ProtectedTokens(cfg: Config, ms: seq<Message>): nat {
    TotalTokens(PickWhere(ms, Protected(cfg, ms)))
  }

  /** The positions removed once the protected messages fit the budget. */
  function Removed(cfg: Config, ms: seq<Message>): seq<nat> {
    ToPrune(ms, Candidates(cfg, ms), Target(cfg, ms))
  }

  function Compacted(cfg: Config, ms: seq<Message>): seq<Message> {
    if TotalTokens(ms) < cfg.tokenThreshold then ms
    else if ProtectedTokens(cfg, ms) >= Target(cfg, ms) then PickWhere(ms, Protected(cfg, ms))
    else PickWhere(ms, NotIn(Removed(cfg, ms)))
  }

  /** The removal loop. Its running token count is a natural number: it never underflows. */
  method RemoveLowest(ms: seq<Message>, candidates: seq<nat>, target: nat)
    returns (removed: seq<nat>, current: nat)
    requires Below(candidates, |ms|) && Distinct(candidates)
    ensures removed == ToPrune(ms, candidates, target)
    ensures current == Remaining(ms, removed)
  {
    removed, current := [], TotalTokens(ms);
    NothingRemoved(ms);
    for k := 0 to |candidates|
      invariant removed == candidates[..k]
      invariant current == Remaining(ms, candidates[..k])
      invariant PruneFrom(ms, candidates, target, 0) == PruneFrom(ms, candidates, target, k)
    {
      if current <= target {
        return;
      }
      RemainingNext(ms, candidates, k);
      PruneStep(ms, candidates, target, k);
      removed := removed + [candidates[k]];
      current := current - Tokens(ms[candidates[k]]);
    }
  }

  method Compact(cfg: Config, ms: seq<Message>) returns (r: CompactionResult)
    ensures r.originalTokens == TotalTokens(ms)
    ensures r.messages == Compacted(cfg, ms) && r.finalTokens == TotalTokens(r.messages)
    ensures r.messagesPruned == |ms| - |r.messages|
    ensures r.compressionRatio == Ratio(r.originalTokens, r.finalTokens)
    ensures r.wasCompressed <==> TotalTokens(ms) >= cfg.tokenThreshold
  {
    var original := TotalTokens(ms);
    if original < cfg.tokenThreshold {
      RatioOfUnchanged(original);
      return CompactionResult(original, original, 0, 1.0, false, ms);
    }
    var target := Target(cfg, ms);
    var protectedTokens := ProtectedTokens(cfg, ms);
    var final;
    if protectedTokens >= target {
      final := PickWhere(ms, Protected(cfg, ms));
      WhereLength(|ms|, Protected(cfg, ms));
    } else {
      CandidatesRanked(cfg, ms);
      var removed, current := RemoveLowest(ms, Candidates(cfg, ms), target);
      final := PickWhere(ms, NotIn(removed));
      WhereLength(|ms|, NotIn(removed));
    }
    var tokens := TotalTokens(final);
    r := CompactionResult(original, tokens, |ms| - |final|, Ratio(original, tokens), true, final);
  }

  // ---- who is protected, and how much fits ----------------------------------------------

  /** System messages, the last message from the user and messages with a critical marker. */
  predicate MustStay(cfg: Config, ms: seq<Message>, i: nat)
    requires i < |ms|
  {
    || ms[i].role == "system"
    || (ms[i].role == "user" && forall j :: i < j < |ms| ==> ms[j].role != "user")
    || cfg.marked(ms[i])
  }

  lemma ProtectedMustStay(cfg: Config, ms: seq<Message>)
    ensures forall i: nat :: Protected(cfg, ms)(i) <==> i < |ms| && MustStay(cfg, ms, i)
  {
    forall i: nat | i < |ms| ensures Protected(cfg, ms)(i) <==> MustStay(cfg, ms, i) {
      if ms[i].role == "user" && LastUser(ms).Some? {
        assert LastUser(ms).value < i || LastUser(ms).value == i || i < LastUser(ms).value;
      }
    }
  }

  function MustStayAt(cfg: Config, ms: seq<Message>): nat -> bool {
    (i: nat) => i < |ms| && MustStay(cfg, ms, i)
  }

  /** What the messages that must stay cost. */
  function MustStayTokens(cfg: Config, ms: seq<Message>): nat {
    TotalTokens(PickWhere(ms, MustStayAt(cfg, ms)))
  }

  lemma ProtectedCost(cfg: Config, ms: seq<Message>)
    ensures ProtectedTokens(cfg, ms) == MustStayTokens(cfg, ms)
    ensures Where(|ms|, Protected(cfg, ms)) == Where(|ms|, MustStayAt(cfg, ms))
  {
    ProtectedMustStay(cfg, ms);
    SameSelection(|ms|, Protected(cfg, ms), MustStayAt(cfg, ms));
  }

  /** `budget` is the greater of `minimum` and `share` rounded down; a negative share counts as nothing. */
  predicate BudgetFor(share: real, minimum: nat, budget: nat) {
    && budget >= minimum && budget as real > share - 1.0
    && (budget == minimum || budget as real <= share)
  }

  /** The budget is the configured share of the original tokens, but no less than the configured minimum. */
  lemma BudgetMeans(cfg: Config, ms: seq<Message>)
    ensures BudgetFor(TotalTokens(ms) as real * cfg.targetTokenRatio, cfg.minFinalTokens, Target(cfg, ms))
  {
    var share := TotalTokens(ms) as real * cfg.targetTokenRatio;
    RoundedShare(share, cfg.minFinalTokens);
    assert Target(cfg, ms) == Budget(share, cfg.minFinalTokens);
  }

  lemma RoundedShare(share: real, minimum: nat)
    ensures BudgetFor(share, minimum, Budget(share, minimum))
  {
  }

  // ---- what it guarantees --------------------------------------------------------------------

  /** With every candidate removed only the protected messages are left. */
  lemma AllRemovedLeavesProtected(cfg: Config, ms: seq<Message>)
    ensures PickWhere(ms, NotIn(Candidates(cfg, ms))) == PickWhere(ms, Protected(cfg, ms))
  {
    CandidatesRanked(cfg, ms);
    SameSelection(|ms|, NotIn(Candidates(cfg, ms)), Protected(cfg, ms));
  }

  /** The result fits the budget, or costs no more than the protected messages do; it never grows. */
  lemma BudgetMet(cfg: Config, ms: seq<Message>)
    ensures TotalTokens(Compacted(cfg, ms)) <= TotalTokens(ms)
    ensures TotalTokens(ms) >= cfg.tokenThreshold ==>
      TotalTokens(Compacted(cfg, ms)) <= Max(Target(cfg, ms), ProtectedTokens(cfg, ms))
  {
    PickCostsLess(ms, Protected(cfg, ms));
    PickCostsLess(ms, NotIn(Removed(cfg, ms)));
    AllRemovedLeavesProtected(cfg, ms);
    ToPruneIsLeast(ms, Candidates(cfg, ms), Target(cfg, ms));
  }

  /** The removed messages are the shortest prefix of the ranking that meets the budget: protected
      messages stay, and every removed one ranks below every unprotected one that stays. */
  lemma RemovesLowestRanked(cfg: Config, ms: seq<Message>, i: nat, j: nat)
    requires ProtectedTokens(cfg, ms) < Target(cfg, ms)
    requires i in Removed(cfg, ms) && j < |ms| && j !in Removed(cfg, ms)
    ensures !Protected(cfg, ms)(i)
    ensures Protected(cfg, ms)(j) || RanksBefore(Score(cfg, ms), i, j)
  {
    CandidatesRanked(cfg, ms);
    var c, n := Candidates(cfg, ms), |Removed(cfg, ms)|;
    PrefixMember(c, n, i);
    if !Protected(cfg, ms)(j) {
      assert Removable(cfg, ms)(j);
      PrefixRanksBefore(Score(cfg, ms), c, n, i, j);
    }
  }

  lemma PrefixMember(xs: seq<nat>, n: nat, x: nat)
    requires n <= |xs| && x in xs[..n]
    ensures x in xs
  {
  }

  lemma PrefixRanksBefore(score: nat -> int, xs: seq<nat>, n: nat, x: nat, y: nat)
    requires RankedBy(score, xs) && n <= |xs| && x in xs[..n] && y in xs && y !in xs[..n]
    ensures RanksBefore(score, x, y)
  {
    var p :| 0 <= p < n && xs[..n][p] == x;
    var q :| 0 <= q < |xs| && xs[q] == y;
    assert forall k :: 0 <= k < n ==> xs[..n][k] == xs[k];
  }

  /** No shorter prefix of the ranking would do, and the chosen one does. */
  lemma RemovalIsMinimal(cfg: Config, ms: seq<Message>, k: nat)
    requires ProtectedTokens(cfg, ms) < Target(cfg, ms) && k <= |Candidates(cfg, ms)|
    ensures Remaining(ms, Removed(cfg, ms)) <= Target(cfg, ms)
    ensures k < |Removed(cfg, ms)| <==> Remaining(ms, Candidates(cfg, ms)[..k]) > Target(cfg, ms)
  {
    var c := Candidates(cfg, ms);
    AllRemovedLeavesProtected(cfg, ms);
    CandidatesRanked(cfg, ms);
    MinimalPrefix(ms, c, Target(cfg, ms), k);
  }

  lemma MinimalPrefix(ms: seq<Message>, c: seq<nat>, target: nat, k: nat)
    requires Below(c, |ms|) && Distinct(c) && Remaining(ms, c) <= target && k <= |c|
    ensures var removed := ToPrune(ms, c, target);
            && Remaining(ms, removed) <= target
            && (k < |removed| <==> Remaining(ms, c[..k]) > target)
  {
    var n := |ToPrune(ms, c, target)|;
    ToPruneIsLeast(ms, c, target);
    if n <= k { RemainingShrinks(ms, c, n, k); }
  }

  /** Which messages stay, branch by branch. */
  function Keeping(cfg: Config, ms: seq<Message>): nat -> bool {
    if TotalTokens(ms) < cfg.tokenThreshold then Everything()
    else if ProtectedTokens(cfg, ms) >= Target(cfg, ms) then Protected(cfg, ms)
    else NotIn(Removed(cfg, ms))
  }

  /** The positions of the input that the output comes from. */
  function Kept(cfg: Config, ms: seq<Message>): seq<nat> {
    Where(|ms|, Keeping(cfg, ms))
  }

  /** The output is the input at strictly increasing positions, word for word. */
  lemma CompactionSelectsInOrder(cfg: Config, ms: seq<Message>)
    ensures Increasing(Kept(cfg, ms)) && Below(Kept(cfg, ms), |ms|)
    ensures Compacted(cfg, ms) == Pick(ms, Kept(cfg, ms))
  {
    WhereSelects(|ms|, Keeping(cfg, ms));
    PickEverything(ms);
  }

  /** The message at position `i` is in the output. */
  ghost predicate Survives(cfg: Config, ms: seq<Message>, i: nat)
    requires i < |ms|
  {
    && |Kept(cfg, ms)| == |Compacted(cfg, ms)|
    && exists j :: 0 <= j < |Kept(cfg, ms)| && Kept(cfg, ms)[j] == i && Compacted(cfg, ms)[j] == ms[i]
  }

  /** A history below the threshold is returned as it is. */
  lemma SmallHistoryUntouched(cfg: Config, ms: seq<Message>)
    requires TotalTokens(ms) < cfg.tokenThreshold
    ensures Compacted(cfg, ms) == ms
  {
  }

  /** If the messages that must stay use up the budget, nothing else survives. */
  lemma OnlyMustStay(cfg: Config, ms: seq<Message>, i: nat)
    requires TotalTokens(ms) >= cfg.tokenThreshold && MustStayTokens(cfg, ms) >= Target(cfg, ms) && i < |ms|
    ensures Survives(cfg, ms, i) <==> MustStay(cfg, ms, i)
  {
    ProtectedMustStay(cfg, ms);
    ProtectedCost(cfg, ms);
    if MustStay(cfg, ms, i) {
      ProtectedStays(cfg, ms, i);
    } else {
      WhereSelects(|ms|, Protected(cfg, ms));
      assert i !in Kept(cfg, ms);
    }
  }

  /** Every system message, the last message from the user and every marked message stay, in every branch. */
  lemma MustStayStays(cfg: Config, ms: seq<Message>, i: nat)
    requires i < |ms| && MustStay(cfg, ms, i)
    ensures Survives(cfg, ms, i)
  {
    ProtectedMustStay(cfg, ms);
    ProtectedStays(cfg, ms, i);
  }

  lemma ProtectedStays(cfg: Config, ms: seq<Message>, i: nat)
    requires Protected(cfg, ms)(i)
    ensures Survives(cfg, ms, i) && ms[i] in Compacted(cfg, ms)
  {
    CandidatesRanked(cfg, ms);
    ToPruneIsLeast(ms, Candidates(cfg, ms), Target(cfg, ms));
    PrefixMembers(Removed(cfg, ms), Candidates(cfg, ms));
    CompactionSelectsInOrder(cfg, ms);
    WhereSelects(|ms|, Keeping(cfg, ms));
    assert i in Kept(cfg, ms);
    var j :| 0 <= j < |Kept(cfg, ms)| && Kept(cfg, ms)[j] == i;
    assert Compacted(cfg, ms)[j] == ms[i];
  }

  ghost predicate NothingProtected(cfg: Config, ms: seq<Message>) {
    forall i: nat :: i < |ms| ==> !Protected(cfg, ms)(i)
  }

  /** The removable message that ranks highest. */
  function TopRanked(cfg: Config, ms: seq<Message>): (top: nat)
    requires ms != []
    ensures top < |ms|
  {
    CandidatesRanked(cfg, ms);
    var c := Candidates(cfg, ms);
    if c == [] then 0 else c[|c| - 1]
  }

  /** A history is compacted to nothing exactly when nothing in it is protected and either the budget
      is zero or its highest-ranked message alone exceeds the budget. */
  lemma EmptyIff(cfg: Config, ms: seq<Message>)
    requires ms != []
    ensures Compacted(cfg, ms) == [] <==>
      && TotalTokens(ms) >= cfg.tokenThreshold
      && NothingProtected(cfg, ms)
      && (Target(cfg, ms) == 0 || Tokens(ms[TopRanked(cfg, ms)]) > Target(cfg, ms))
  {
    if TotalTokens(ms) >= cfg.tokenThreshold {
      if !NothingProtected(cfg, ms) {
        var i: nat :| i < |ms| && Protected(cfg, ms)(i);
        ProtectedStays(cfg, ms, i);
      } else {
        NothingIsProtected(cfg, ms);
        if Target(cfg, ms) > 0 {
          SurvivorsCount(cfg, ms);
          TopRemains(cfg, ms);
          RemovalIsMinimal(cfg, ms, |ms| - 1);
        }
      }
    }
  }

  /** A history can be compacted to nothing: under the default settings one long answer, unless a marker
      protects it. */
  lemma EmptiedByDefault(cfg: Config, answer: Message)
    requires cfg.tokenThreshold == 4096 && cfg.targetTokenRatio == 0.45 && cfg.minFinalTokens == 200
    requires answer.role == "assistant" && answer.content == Letters(4 * cfg.tokenThreshold) && !cfg.marked(answer)
    ensures Compacted(cfg, [answer]) == []
  {
    LettersTokens(cfg.tokenThreshold);
    TokensBetween(answer);
    TokensOfOne(answer);
    ShareBelow(Tokens(answer), cfg.targetTokenRatio);
    SingleMessageEmptied(cfg, answer);
  }

  lemma SingleMessageEmptied(cfg: Config, m: Message)
    requires m.role == "assistant" && !cfg.marked(m)
    requires Tokens(m) >= cfg.tokenThreshold && Tokens(m) > Target(cfg, [m])
    ensures Compacted(cfg, [m]) == []
  {
    TokensOfOne(m);
    NotTheUser(cfg, m);
    assert [m][TopRanked(cfg, [m])] == m;
    EmptyIff(cfg, [m]);
  }

  lemma NotTheUser(cfg: Config, m: Message)
    requires m.role == "assistant" && !cfg.marked(m)
    ensures NothingProtected(cfg, [m])
  {
    forall i: nat | i < 1 ensures !Protected(cfg, [m])(i) {
      assert [m][i] == m && LastUser([m]) != Some(i);
    }
  }

  lemma ShareBelow(tokens: nat, ratio: real)
    requires 0.0 <= ratio < 1.0 && tokens > 0
    ensures 0 <= (tokens as real * ratio).Floor < tokens
  {
    assert tokens as real * ratio < tokens as real;
  }

  lemma NothingIsProtected(cfg: Config, ms: seq<Message>)
    requires NothingProtected(cfg, ms)
    ensures PickWhere(ms, Protected(cfg, ms)) == [] && ProtectedTokens(cfg, ms) == 0
    ensures |Candidates(cfg, ms)| == |ms|
  {
    WhereSelects(|ms|, Protected(cfg, ms));
    var none := Where(|ms|, Protected(cfg, ms));
    if none != [] {
      assert none[0] in none;
    }
    SameSelection(|ms|, Removable(cfg, ms), Everything());
    WhereEverything(|ms|);
    CandidatesRanked(cfg, ms);
  }

  lemma SurvivorsCount(cfg: Config, ms: seq<Message>)
    requires NothingProtected(cfg, ms)
    ensures PickWhere(ms, NotIn(Removed(cfg, ms))) == [] <==> |Removed(cfg, ms)| == |ms|
  {
    NothingIsProtected(cfg, ms);
    AllRemovedLeavesProtected(cfg, ms);
    CandidatesRanked(cfg, ms);
    var c, n := Candidates(cfg, ms), |Removed(cfg, ms)|;
    if n == |ms| {
      assert Removed(cfg, ms) == c;
    } else {
      assert c[n] !in c[..n];
      WhereSelects(|ms|, NotIn(c[..n]));
      assert c[n] in Where(|ms|, NotIn(c[..n]));
    }
  }

  /** With all but the highest-ranked message removed, its tokens remain. */
  lemma TopRemains(cfg: Config, ms: seq<Message>)
    requires NothingProtected(cfg, ms) && ms != []
    ensures |Candidates(cfg, ms)| == |ms|
    ensures Remaining(ms, Candidates(cfg, ms)[..|ms| - 1]) == Tokens(ms[TopRanked(cfg, ms)])
  {
    NothingIsProtected(cfg, ms);
    AllRemovedLeavesProtected(cfg, ms);
    CandidatesRanked(cfg, ms);
    var c := Candidates(cfg, ms);
    RemainingNext(ms, c, |ms| - 1);
    assert c[..|ms|] == c;
  }
}

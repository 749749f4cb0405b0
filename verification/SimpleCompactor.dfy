/** The default compactor: a sliding window, stop words, then pruning of the oldest messages. */
module SimpleCompactor {
  import opened Common
  import opened Messages
  import opened StopWords

  datatype Config = Config(tokenThreshold: nat, maxHistory: nat, stopWords: seq<string>, lexicon: Lexicon)

  // ---- the window -----------------------------------------------------------------------

  predicate IsSystem(m: Message) { m.role == "system" }

  /** How many non-system messages come after position `i`. */
  function Followers(ms: seq<Message>, i: nat): nat
    decreases |ms| - i
  {
    if i + 1 >= |ms| then 0
    else (if IsSystem(ms[i + 1]) then 0 else 1) + Followers(ms, i + 1)
  }

  /** The window keeps every system message and the last `maxHistory` others. */
  function InWindow(ms: seq<Message>, maxHistory: nat): nat -> bool {
    (i: nat) => i < |ms| && (IsSystem(ms[i]) || Followers(ms, i) < maxHistory)
  }

  function NonSystem(ms: seq<Message>): nat -> bool {
    (i: nat) => i < |ms| && !IsSystem(ms[i])
  }

  lemma {:induction false} FollowersCounted(ms: seq<Message>, i: nat)
    requires i < |ms|
    ensures |Where(|ms|, NonSystem(ms))| == |Where(i + 1, NonSystem(ms))| + Followers(ms, i)
    decreases |ms| - i
  {
    if i + 1 < |ms| { FollowersCounted(ms, i + 1); }
  }

  lemma {:induction false} WherePrefix(m: nat, n: nat, keep: nat -> bool)
    requires m <= n
    ensures Where(m, keep) <= Where(n, keep)
    decreases n
  {
    if m < n { WherePrefix(m, n - 1, keep); }
  }

  /** Dropping all but the last `maxHistory` of the non-system positions is what the window does. */
  lemma LastNonSystem(ms: seq<Message>, maxHistory: nat, i: nat)
    requires i < |ms| && !IsSystem(ms[i])
    ensures var ns := Where(|ms|, NonSystem(ms));
            i in ns[Max(0, |ns| - maxHistory)..] <==> Followers(ms, i) < maxHistory
  {
    var ns := Where(|ms|, NonSystem(ms));
    var position := |ns| - 1 - Followers(ms, i);
    PositionOf(ms, i);
    WhereSelects(|ms|, NonSystem(ms));
    var start := Max(0, |ns| - maxHistory);
    InSuffix(ns, start, position);
  }

  lemma InSuffix(xs: seq<nat>, start: nat, at: nat)
    requires Increasing(xs) && start <= |xs| && at < |xs|
    ensures xs[at] in xs[start..] <==> start <= at
  {
    if start <= at {
      assert xs[start..][at - start] == xs[at];
    }
  }

  /** Where a non-system message stands among its kind. */
  lemma PositionOf(ms: seq<Message>, i: nat)
    requires i < |ms| && !IsSystem(ms[i])
    ensures var ns, followers := Where(|ms|, NonSystem(ms)), Followers(ms, i);
            followers < |ns| && ns[|ns| - 1 - followers] == i
  {
    WherePrefix(i + 1, |ms|, NonSystem(ms));
    FollowersCounted(ms, i);
    var upTo := Where(i + 1, NonSystem(ms));
    assert upTo[|upTo| - 1] == i;
  }

  /** A history with at most `maxHistory` non-system messages is all window. */
  lemma ShortHistoryFits(ms: seq<Message>, maxHistory: nat)
    requires |Where(|ms|, NonSystem(ms))| <= maxHistory
    ensures PickWhere(ms, InWindow(ms, maxHistory)) == ms
  {
    forall i: nat | i < |ms| ensures InWindow(ms, maxHistory)(i) {
      if !IsSystem(ms[i]) { PositionOf(ms, i); }
    }
    SameSelection(|ms|, InWindow(ms, maxHistory), Everything());
    PickEverything(ms);
  }

  method ApplyWindow(ms: seq<Message>, maxHistory: nat) returns (windowed: seq<Message>)
    ensures windowed == PickWhere(ms, InWindow(ms, maxHistory))
  {
    var nonSystem: seq<nat> := [];
    for i := 0 to |ms|
      invariant nonSystem == Where(i, NonSystem(ms))
    {
      if ms[i].role != "system" {
        nonSystem := nonSystem + [i];
      }
    }
    if |nonSystem| > maxHistory {
      var kept := nonSystem[|nonSystem| - maxHistory..];
      windowed := [];
      for i := 0 to |ms|
        invariant windowed == Chosen(ms, i, InWindow(ms, maxHistory))
      {
        if !IsSystem(ms[i]) { LastNonSystem(ms, maxHistory, i); }
        if ms[i].role == "system" || i in kept {
          windowed := windowed + [ms[i]];
        }
      }
      ChosenIsPick(ms, |ms|, InWindow(ms, maxHistory));
    } else {
      ShortHistoryFits(ms, maxHistory);
      windowed := ms;
    }
  }

  // ---- stop words and pruning ------------------------------------------------------------------

  /** Neither a system message nor the last one from the user. */
  function Eligible(ms: seq<Message>): nat -> bool {
    (i: nat) => i < |ms| && !IsSystem(ms[i]) && LastUser(ms) != Some(i)
  }

  function Strip(cfg: Config, m: Message): Message {
    if cfg.stopWords == [] then m else m.(content := RemoveStopWords(cfg.lexicon, cfg.stopWords, m.content))
  }

  /** The window with stop words removed from its eligible messages. */
  function Working(cfg: Config, window: seq<Message>): (working: seq<Message>)
    ensures |working| == |window|
    ensures forall i :: 0 <= i < |window| ==>
      working[i] == if Eligible(window)(i) then Strip(cfg, window[i]) else window[i]
  {
    seq(|window|, i requires 0 <= i < |window| => if Eligible(window)(i) then Strip(cfg, window[i]) else window[i])
  }

  /** The pruning loop: it always removes the first eligible message, then goes on until the target
      is met. It is only entered above the target. */
  method PruneOldest(ms: seq<Message>, eligible: seq<nat>, target: nat) returns (removed: seq<nat>)
    requires TotalTokens(ms) > target
    ensures removed == ToPrune(ms, eligible, target)
  {
    removed := [];
    NothingRemoved(ms);
    for k := 0 to |eligible|
      invariant removed == eligible[..k]
      invariant PruneFrom(ms, eligible, target, 0) == PruneFrom(ms, eligible, target, k)
      invariant Remaining(ms, eligible[..k]) > target
    {
      PruneStep(ms, eligible, target, k);
      removed := removed + [eligible[k]];
      var remaining := Remaining(ms, removed);
      if remaining <= target {
        return;
      }
    }
  }

  // ---- the whole compaction ---------------------------------------------------------------------

  /** The branch a compaction takes. */
  datatype Plan = Unchanged | WindowOnly | Stripped | Pruned | LastOnly

  function Window(cfg: Config, ms: seq<Message>): seq<Message> {
    PickWhere(ms, InWindow(ms, cfg.maxHistory))
  }

  /** Three quarters of the original tokens, rounded down. */
  function Target(ms: seq<Message>): nat { 3 * TotalTokens(ms) / 4 }

  function Survivors(cfg: Config, ms: seq<Message>): seq<Message> {
    var working := Working(cfg, Window(cfg, ms));
    PickWhere(working, NotIn(RemovedPositions(cfg, ms)))
  }

  /** The pruned positions of the window. Eligibility does not depend on message texts. */
  function RemovedPositions(cfg: Config, ms: seq<Message>): seq<nat> {
    var window := Window(cfg, ms);
    var eligible := Where(|window|, Eligible(window));
    ToPrune(Working(cfg, window), eligible, Target(ms))
  }

  function ShrinkPlan(cfg: Config, ms: seq<Message>): Plan {
    var window := Window(cfg, ms);
    if TotalTokens(Working(cfg, window)) <= Target(ms) then
      if window == [] then Unchanged else Stripped
    else if Survivors(cfg, ms) != [] then Pruned
    else if ms == [] then Unchanged else LastOnly
  }

  function PlanOf(cfg: Config, ms: seq<Message>): Plan {
    var window := Window(cfg, ms);
    if TotalTokens(ms) < cfg.tokenThreshold && |ms| <= cfg.maxHistory then Unchanged
    else if TotalTokens(window) < cfg.tokenThreshold then
      if window == [] then Unchanged else WindowOnly
    else ShrinkPlan(cfg, ms)
  }

  function CompactedBy(plan: Plan, cfg: Config, ms: seq<Message>): seq<Message> {
    match plan
    case Unchanged => ms
    case WindowOnly => Window(cfg, ms)
    case Stripped => Working(cfg, Window(cfg, ms))
    case Pruned => Survivors(cfg, ms)
    case LastOnly => if ms == [] then [] else [ms[|ms| - 1]]
  }

  function Compacted(cfg: Config, ms: seq<Message>): seq<Message> {
    CompactedBy(PlanOf(cfg, ms), cfg, ms)
  }

  function PrunedCount(cfg: Config, ms: seq<Message>): int {
    match PlanOf(cfg, ms)
    case Unchanged => 0
    case WindowOnly => |ms| - |Window(cfg, ms)|
    case Stripped => |ms| - |Window(cfg, ms)|
    case Pruned => |ms| - |Window(cfg, ms)| + |RemovedPositions(cfg, ms)|
    case LastOnly => |ms| - |Window(cfg, ms)| + |RemovedPositions(cfg, ms)|
  }

  /** Whether a compaction reports that it changed the history. */
  predicate Compresses(cfg: Config, ms: seq<Message>) {
    match PlanOf(cfg, ms)
    case Unchanged => false
    case WindowOnly => |Window(cfg, ms)| < |ms|
    case _ => true
  }

  /** The part of a compaction that follows the window, when that alone is not enough. */
  method Shrink(cfg: Config, ms: seq<Message>, window: seq<Message>)
    returns (plan: Plan, tokens: nat, removed: seq<nat>, messages: seq<Message>)
    requires window == Window(cfg, ms)
    ensures plan == ShrinkPlan(cfg, ms)
    ensures messages == CompactedBy(plan, cfg, ms) && tokens == TotalTokens(messages)
    ensures removed == if plan.Pruned? || plan.LastOnly? then RemovedPositions(cfg, ms) else []
  {
    removed := [];
    var working := Working(cfg, window);
    var target := Target(ms);
    var afterStopWords := TotalTokens(working);
    if afterStopWords <= target {
      if working == [] {
        return Unchanged, TotalTokens(ms), [], ms;
      }
      return Stripped, afterStopWords, [], working;
    }
    removed, messages := PruneWorking(cfg, ms, window, working);
    if messages != [] {
      return Pruned, TotalTokens(messages), removed, messages;
    }
    if ms == [] {
      return Unchanged, TotalTokens(ms), [], ms;
    }
    messages := [ms[|ms| - 1]];
    return LastOnly, TotalTokens(messages), removed, messages;
  }

  /** The working copy without its oldest eligible messages. */
  method PruneWorking(cfg: Config, ms: seq<Message>, window: seq<Message>, working: seq<Message>)
    returns (removed: seq<nat>, survivors: seq<Message>)
    requires window == Window(cfg, ms) && working == Working(cfg, window) && TotalTokens(working) > Target(ms)
    ensures removed == RemovedPositions(cfg, ms) && survivors == Survivors(cfg, ms)
  {
    removed := PruneOldest(working, Where(|window|, Eligible(window)), Target(ms));
    survivors := PickWhere(working, NotIn(removed));
  }

  method Compact(cfg: Config, ms: seq<Message>) returns (r: CompactionResult)
    ensures r.originalTokens == TotalTokens(ms)
    ensures r.messages == Compacted(cfg, ms) && r.finalTokens == TotalTokens(r.messages)
    ensures r.messagesPruned == PrunedCount(cfg, ms)
    ensures r.compressionRatio == Ratio(r.originalTokens, r.finalTokens)
    ensures r.wasCompressed == Compresses(cfg, ms)
  {
    var original := TotalTokens(ms);
    var asIs := CompactionResult(original, original, 0, 1.0, false, ms);
    RatioOfUnchanged(original);
    if original < cfg.tokenThreshold && |ms| <= cfg.maxHistory {
      return asIs;
    }
    var window := ApplyWindow(ms, cfg.maxHistory);
    WhereLength(|ms|, InWindow(ms, cfg.maxHistory));
    var prunedByWindow: nat := |ms| - |window|;
    var afterWindow := TotalTokens(window);
    if afterWindow < cfg.tokenThreshold {
      if window == [] {
        return asIs;
      }
      assert PlanOf(cfg, ms) == WindowOnly;
      return CompactionResult(
        original, afterWindow, prunedByWindow, Ratio(original, afterWindow), prunedByWindow > 0, window);
    }
    var plan, tokens, removed, messages := Shrink(cfg, ms, window);
    assert plan == PlanOf(cfg, ms);
    if plan.Unchanged? {
      return asIs;
    }
    r := CompactionResult(
      original, tokens, prunedByWindow + |removed|, Ratio(original, tokens), true, messages);
  }
}

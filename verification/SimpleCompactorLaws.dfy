/** What the default compactor guarantees on every history. */
module SimpleCompactorLaws {
  import opened Common
  import opened Messages
  import opened StopWords
  import opened SimpleCompactor

  // ---- accounting -----------------------------------------------------------------------

  lemma StripCheaper(cfg: Config, m: Message)
    ensures Tokens(Strip(cfg, m)) <= Tokens(m)
  {
    StopWordsNeverLengthen(cfg.lexicon, cfg.stopWords, m.content);
  }

  lemma WorkingCheaper(cfg: Config, window: seq<Message>, keep: nat -> bool)
    ensures TotalTokens(PickWhere(Working(cfg, window), keep)) <= TotalTokens(window)
  {
    var working := Working(cfg, window);
    forall i: nat | i < |window| ensures Tokens(working[i]) <= Tokens(window[i]) {
      StripCheaper(cfg, window[i]);
    }
    CheaperSelection(working, window, keep, Everything());
    PickEverything(window);
  }

  lemma TokensOfLast(ms: seq<Message>)
    requires ms != []
    ensures Tokens(ms[|ms| - 1]) <= TotalTokens(ms)
    ensures TotalTokens([ms[|ms| - 1]]) == Tokens(ms[|ms| - 1])
  {
    TokensOfOne(ms[|ms| - 1]);
  }

  /** A compaction never grows a history, whichever branch it takes, so the saving that the request
      handler computes by unsigned subtraction is never negative, and the ratio is at most one. */
  lemma CompactionNeverGrows(cfg: Config, ms: seq<Message>)
    ensures TotalTokens(Compacted(cfg, ms)) <= TotalTokens(ms)
    ensures 0.0 <= Ratio(TotalTokens(ms), TotalTokens(Compacted(cfg, ms))) <= 1.0
  {
    CompactedCostsLess(cfg, ms);
    RatioWithinOne(TotalTokens(ms), TotalTokens(Compacted(cfg, ms)));
  }

  lemma CompactedCostsLess(cfg: Config, ms: seq<Message>)
    ensures TotalTokens(Compacted(cfg, ms)) <= TotalTokens(ms)
  {
    PickCostsLess(ms, InWindow(ms, cfg.maxHistory));
    match PlanOf(cfg, ms)
    case Stripped => StrippedCheaper(cfg, Window(cfg, ms));
    case Pruned => WorkingCheaper(cfg, Window(cfg, ms), NotIn(RemovedPositions(cfg, ms)));
    case LastOnly => if ms != [] { TokensOfLast(ms); }
    case _ =>
  }

  lemma StrippedCheaper(cfg: Config, window: seq<Message>)
    ensures TotalTokens(Working(cfg, window)) <= TotalTokens(window)
  {
    WorkingCheaper(cfg, window, Everything());
    PickEverything(Working(cfg, window));
  }

  // ---- an order-preserving selection ----------------------------------------------------------

  function WindowPositions(cfg: Config, ms: seq<Message>): seq<nat> {
    Where(|ms|, InWindow(ms, cfg.maxHistory))
  }

  function SurvivingPositions(cfg: Config, ms: seq<Message>): seq<nat> {
    Where(|Window(cfg, ms)|, NotIn(RemovedPositions(cfg, ms)))
  }

  /** The positions of the input that the output comes from. */
  function Kept(cfg: Config, ms: seq<Message>): seq<nat> {
    match PlanOf(cfg, ms)
    case Unchanged => Where(|ms|, Everything())
    case WindowOnly => WindowPositions(cfg, ms)
    case Stripped => WindowPositions(cfg, ms)
    case Pruned =>
      WhereSelects(|Window(cfg, ms)|, NotIn(RemovedPositions(cfg, ms)));
      Pick(WindowPositions(cfg, ms), SurvivingPositions(cfg, ms))
    case LastOnly => if ms == [] then [] else [|ms| - 1]
  }

  /** `out` is made of the messages at the positions `kept`, perhaps without stop words, in order. */
  ghost predicate Selects(cfg: Config, ms: seq<Message>, kept: seq<nat>, out: seq<Message>) {
    && Increasing(kept) && Below(kept, |ms|) && |kept| == |out|
    && forall j :: 0 <= j < |out| ==> out[j] == ms[kept[j]] || out[j] == Strip(cfg, ms[kept[j]])
  }

  /** Every output message is the input message at its kept position, perhaps without stop words,
      and the kept positions increase: nothing is added, duplicated or reordered. */
  lemma CompactionSelectsInOrder(cfg: Config, ms: seq<Message>)
    ensures Selects(cfg, ms, Kept(cfg, ms), Compacted(cfg, ms))
  {
    match PlanOf(cfg, ms)
    case Unchanged =>
      AllSelect(cfg, ms);
      assert Kept(cfg, ms) == Where(|ms|, Everything()) && Compacted(cfg, ms) == ms;
    case WindowOnly =>
      WindowSelects(cfg, ms);
      assert Kept(cfg, ms) == WindowPositions(cfg, ms) && Compacted(cfg, ms) == Window(cfg, ms);
    case Stripped =>
      WindowSelects(cfg, ms);
      assert Kept(cfg, ms) == WindowPositions(cfg, ms) && Compacted(cfg, ms) == Working(cfg, Window(cfg, ms));
    case Pruned =>
      SurvivorsSelect(cfg, ms);
      assert Compacted(cfg, ms) == Survivors(cfg, ms);
    case LastOnly =>
      LastSelects(cfg, ms);
  }

  lemma AllSelect(cfg: Config, ms: seq<Message>)
    ensures Selects(cfg, ms, Where(|ms|, Everything()), ms)
  {
    WhereEverything(|ms|);
  }

  lemma LastSelects(cfg: Config, ms: seq<Message>)
    ensures ms != [] ==> Selects(cfg, ms, [|ms| - 1], [ms[|ms| - 1]])
    ensures Selects(cfg, ms, [], [])
  {
  }

  lemma WindowSelects(cfg: Config, ms: seq<Message>)
    ensures Selects(cfg, ms, WindowPositions(cfg, ms), Window(cfg, ms))
    ensures Selects(cfg, ms, WindowPositions(cfg, ms), Working(cfg, Window(cfg, ms)))
  {
    WhereSelects(|ms|, InWindow(ms, cfg.maxHistory));
  }

  lemma SurvivorsSelect(cfg: Config, ms: seq<Message>)
    ensures Below(SurvivingPositions(cfg, ms), |WindowPositions(cfg, ms)|)
    ensures Selects(cfg, ms, Pick(WindowPositions(cfg, ms), SurvivingPositions(cfg, ms)), Survivors(cfg, ms))
  {
    WindowSelects(cfg, ms);
    WhereSelects(|Window(cfg, ms)|, NotIn(RemovedPositions(cfg, ms)));
    var w, s, working := WindowPositions(cfg, ms), SurvivingPositions(cfg, ms), Working(cfg, Window(cfg, ms));
    PickSelects(cfg, ms, w, working, s);
  }

  /** A selection from a selection is one. */
  lemma PickSelects(cfg: Config, ms: seq<Message>, kept: seq<nat>, out: seq<Message>, idx: seq<nat>)
    requires Selects(cfg, ms, kept, out) && Increasing(idx) && Below(idx, |out|)
    ensures Selects(cfg, ms, Pick(kept, idx), Pick(out, idx))
  {
  }

  // ---- what is left of each message -------------------------------------------------------

  /** A message that loses its stop words: neither a system message nor the last one from the user. */
  predicate LosesStopWords(ms: seq<Message>, i: nat)
    requires i < |ms|
  {
    ms[i].role != "system" && !(ms[i].role == "user" && forall j :: i < j < |ms| ==> ms[j].role != "user")
  }

  function WithoutStopWords(cfg: Config, m: Message): Message {
    m.(content := RemoveStopWords(cfg.lexicon, cfg.stopWords, m.content))
  }

  lemma {:induction false} FollowersShrink(ms: seq<Message>, i: nat, j: nat)
    requires i <= j < |ms|
    ensures Followers(ms, j) <= Followers(ms, i)
    decreases j
  {
    if i < j {
      FollowersShrink(ms, i, j - 1);
    }
  }

  /** A window message is the last one from the user there exactly when it is so in the whole history. */
  lemma LastUserOfWindow(cfg: Config, ms: seq<Message>, p: nat)
    requires p < |Window(cfg, ms)| == |WindowPositions(cfg, ms)|
    ensures WindowPositions(cfg, ms)[p] < |ms| && Window(cfg, ms)[p] == ms[WindowPositions(cfg, ms)[p]]
    ensures Eligible(Window(cfg, ms))(p) <==> LosesStopWords(ms, WindowPositions(cfg, ms)[p])
  {
    var w, window := WindowPositions(cfg, ms), Window(cfg, ms);
    var i := w[p];
    WhereSelects(|ms|, InWindow(ms, cfg.maxHistory));
    assert i in w;
    if ms[i].role == "user" {
      if q :| p < q < |window| && window[q].role == "user" {
        assert w[p] < w[q] && ms[w[q]].role == "user";
        assert LastUser(window) != Some(p);
      } else {
        LastUserUnique(window, p);
        forall j | i < j < |ms| ensures ms[j].role != "user" {
          if ms[j].role == "user" { LaterInWindow(cfg, ms, p, j); }
        }
      }
    } else {
      assert LastUser(window) != Some(p);
    }
  }

  lemma LaterInWindow(cfg: Config, ms: seq<Message>, p: nat, j: nat)
    requires p < |WindowPositions(cfg, ms)| && WindowPositions(cfg, ms)[p] < j < |ms|
    requires !IsSystem(ms[WindowPositions(cfg, ms)[p]])
    ensures exists q :: p < q < |WindowPositions(cfg, ms)| && WindowPositions(cfg, ms)[q] == j
  {
    var w := WindowPositions(cfg, ms);
    WhereSelects(|ms|, InWindow(ms, cfg.maxHistory));
    assert w[p] in w;
    FollowersShrink(ms, w[p], j);
    assert j in w;
    var q :| 0 <= q < |w| && w[q] == j;
    assert forall x :: 0 <= x <= p ==> w[x] <= w[p];
  }

  /** Each output message is its input message, without its stop words if the compaction went that far and the
      message is one that loses them. */
  ghost predicate EachLeft(cfg: Config, ms: seq<Message>, kept: seq<nat>, out: seq<Message>, stripping: bool) {
    && Below(kept, |ms|) && |kept| == |out|
    && forall j :: 0 <= j < |out| ==>
         out[j] == if stripping && LosesStopWords(ms, kept[j]) then WithoutStopWords(cfg, ms[kept[j]]) else ms[kept[j]]
  }

  lemma StripIsWithout(cfg: Config, m: Message)
    ensures Strip(cfg, m) == WithoutStopWords(cfg, m)
  {
    StopWordsNeverLengthen(cfg.lexicon, cfg.stopWords, m.content);
  }

  lemma WorkingLeft(cfg: Config, ms: seq<Message>)
    ensures EachLeft(cfg, ms, WindowPositions(cfg, ms), Working(cfg, Window(cfg, ms)), true)
  {
    var w, window := WindowPositions(cfg, ms), Window(cfg, ms);
    WindowSelects(cfg, ms);
    forall p | 0 <= p < |window|
      ensures Working(cfg, window)[p]
        == if LosesStopWords(ms, w[p]) then WithoutStopWords(cfg, ms[w[p]]) else ms[w[p]]
    {
      LastUserOfWindow(cfg, ms, p);
      StripIsWithout(cfg, window[p]);
    }
  }

  lemma PickLeft(cfg: Config, ms: seq<Message>, kept: seq<nat>, out: seq<Message>, idx: seq<nat>)
    requires EachLeft(cfg, ms, kept, out, true) && Below(idx, |out|)
    ensures EachLeft(cfg, ms, Pick(kept, idx), Pick(out, idx), true)
  {
  }

  /** Stop words are removed from exactly the messages that may lose them, once the window is not enough. */
  lemma StopWordsLeaveExactly(cfg: Config, ms: seq<Message>)
    ensures EachLeft(cfg, ms, Kept(cfg, ms), Compacted(cfg, ms), PlanOf(cfg, ms) in {Stripped, Pruned})
  {
    match PlanOf(cfg, ms)
    case Unchanged => WhereEverything(|ms|);
    case WindowOnly => WindowSelects(cfg, ms);
    case Stripped => WorkingLeft(cfg, ms);
    case Pruned =>
      WorkingLeft(cfg, ms);
      SurvivorsSelect(cfg, ms);
      PickLeft(cfg, ms, WindowPositions(cfg, ms), Working(cfg, Window(cfg, ms)), SurvivingPositions(cfg, ms));
    case LastOnly =>
  }

  /** The message at position `i` is in the output, word for word. */
  ghost predicate Survives(cfg: Config, ms: seq<Message>, i: nat)
    requires i < |ms|
  {
    exists j ::
      && 0 <= j < |Kept(cfg, ms)| && Kept(cfg, ms)[j] == i
      && j < |Compacted(cfg, ms)| && Compacted(cfg, ms)[j] == ms[i]
  }

  lemma ProtectedNotRemoved(cfg: Config, ms: seq<Message>, p: nat)
    requires p < |Window(cfg, ms)| && !Eligible(Window(cfg, ms))(p)
    ensures p in SurvivingPositions(cfg, ms) && !PlanOf(cfg, ms).LastOnly?
  {
    var window, removed := Window(cfg, ms), RemovedPositions(cfg, ms);
    WhereSelects(|window|, Eligible(window));
    WhereSelects(|window|, NotIn(removed));
    PrefixMembers(removed, Where(|window|, Eligible(window)));
    SurvivorsExist(cfg, ms);
  }

  lemma SurvivorsExist(cfg: Config, ms: seq<Message>)
    ensures SurvivingPositions(cfg, ms) != [] ==> !PlanOf(cfg, ms).LastOnly?
  {
  }

  /** A window position that is not eligible for pruning survives every branch. */
  lemma ProtectedSurvives(cfg: Config, ms: seq<Message>, p: nat)
    requires p < |Window(cfg, ms)| && !Eligible(Window(cfg, ms))(p)
    ensures Below(WindowPositions(cfg, ms), |ms|) && Survives(cfg, ms, WindowPositions(cfg, ms)[p])
    ensures !PlanOf(cfg, ms).LastOnly?
  {
    var w := WindowPositions(cfg, ms);
    WindowSelects(cfg, ms);
    ProtectedNotRemoved(cfg, ms, p);
    match PlanOf(cfg, ms)
    case Unchanged =>
      WhereEverything(|ms|);
      assert Kept(cfg, ms)[w[p]] == w[p] && Compacted(cfg, ms)[w[p]] == ms[w[p]];
    case Pruned =>
      SurvivorsSelect(cfg, ms);
      var q :| 0 <= q < |SurvivingPositions(cfg, ms)| && SurvivingPositions(cfg, ms)[q] == p;
      assert Kept(cfg, ms)[q] == w[p] && Compacted(cfg, ms)[q] == ms[w[p]];
    case LastOnly =>
    case _ =>
      assert Kept(cfg, ms)[p] == w[p] && Compacted(cfg, ms)[p] == ms[w[p]];
  }

  /** Every system message survives word for word. */
  lemma SystemMessagesSurvive(cfg: Config, ms: seq<Message>, i: nat)
    requires i < |ms| && IsSystem(ms[i])
    ensures Survives(cfg, ms, i)
  {
    WhereSelects(|ms|, InWindow(ms, cfg.maxHistory));
    assert i in WindowPositions(cfg, ms);
    var p :| 0 <= p < |WindowPositions(cfg, ms)| && WindowPositions(cfg, ms)[p] == i;
    assert Window(cfg, ms)[p] == ms[i];
    ProtectedSurvives(cfg, ms, p);
  }

  lemma {:induction false} FollowersBound(ms: seq<Message>, i: nat)
    requires i < |ms|
    ensures Followers(ms, i) <= |ms| - 1 - i
    decreases |ms| - i
  {
    if i + 1 < |ms| { FollowersBound(ms, i + 1); }
  }

  lemma LastUserUnique(ms: seq<Message>, p: nat)
    requires p < |ms| && ms[p].role == "user" && forall i :: p < i < |ms| ==> ms[i].role != "user"
    ensures LastUser(ms) == Some(p)
  {
  }

  /** The last user message survives word for word exactly when fewer than `maxHistory` other
      messages follow it, or when the window is empty and the history is returned as it was. */
  lemma LastUserSurvivesIff(cfg: Config, ms: seq<Message>, u: nat)
    requires LastUser(ms) == Some(u)
    ensures Survives(cfg, ms, u) <==> Followers(ms, u) < cfg.maxHistory || Window(cfg, ms) == []
  {
    if Followers(ms, u) < cfg.maxHistory {
      LastUserInWindow(cfg, ms, u);
    } else if Window(cfg, ms) == [] {
      WhereEverything(|ms|);
      assert Kept(cfg, ms)[u] == u && Compacted(cfg, ms)[u] == ms[u];
    } else if Survives(cfg, ms, u) {
      LastUserOutsideWindow(cfg, ms, u);
    }
  }

  lemma LastUserInWindow(cfg: Config, ms: seq<Message>, u: nat)
    requires LastUser(ms) == Some(u) && Followers(ms, u) < cfg.maxHistory
    ensures Survives(cfg, ms, u)
  {
    var window, w := Window(cfg, ms), WindowPositions(cfg, ms);
    WhereSelects(|ms|, InWindow(ms, cfg.maxHistory));
    assert u in w;
    var p :| 0 <= p < |w| && w[p] == u;
    forall i | p < i < |window| ensures window[i].role != "user" {
      assert w[p] < w[i];
    }
    LastUserUnique(window, p);
    ProtectedSurvives(cfg, ms, p);
  }

  lemma LastUserOutsideWindow(cfg: Config, ms: seq<Message>, u: nat)
    requires LastUser(ms) == Some(u) && Followers(ms, u) >= cfg.maxHistory && Window(cfg, ms) != []
    ensures u !in Kept(cfg, ms)
  {
    FollowersBound(ms, u);
    WhereSelects(|ms|, InWindow(ms, cfg.maxHistory));
    assert u !in WindowPositions(cfg, ms);
    match PlanOf(cfg, ms)
    case Unchanged => UnchangedMeansShort(cfg, ms);
    case WindowOnly =>
    case Stripped =>
    case Pruned =>
      SurvivorsSelect(cfg, ms);
      PickedAreMembers(WindowPositions(cfg, ms), SurvivingPositions(cfg, ms));
    case LastOnly =>
      if cfg.maxHistory == 0 { NoHistoryNoFallback(cfg, ms); }
  }

  lemma PickedAreMembers(xs: seq<nat>, idx: seq<nat>)
    requires Below(idx, |xs|)
    ensures forall x :: x in Pick(xs, idx) ==> x in xs
  {
  }

  lemma UnchangedMeansShort(cfg: Config, ms: seq<Message>)
    requires PlanOf(cfg, ms).Unchanged? && Window(cfg, ms) != []
    ensures |ms| <= cfg.maxHistory
  {
    WhereSelects(|ms|, InWindow(ms, cfg.maxHistory));
  }

  /** A window of size zero holds system messages only, and those are never pruned. */
  lemma NoHistoryNoFallback(cfg: Config, ms: seq<Message>)
    requires cfg.maxHistory == 0 && Window(cfg, ms) != []
    ensures !PlanOf(cfg, ms).LastOnly?
  {
    WhereSelects(|ms|, InWindow(ms, cfg.maxHistory));
    assert WindowPositions(cfg, ms)[0] in WindowPositions(cfg, ms);
    ProtectedSurvives(cfg, ms, 0);
  }

  /** So the documented promise to keep it fails: here an answer pushes the question out. */
  lemma LastUserCanBeLost(cfg: Config, question: Message, answer: Message)
    requires cfg.maxHistory == 1 && question.role == "user" && answer.role == "assistant"
    ensures LastUser([question, answer]) == Some(0) && !Survives(cfg, [question, answer], 0)
  {
    var ms := [question, answer];
    LastUserUnique(ms, 0);
    assert Followers(ms, 1) == 0 && Followers(ms, 0) == 1;
    WhereSelects(2, InWindow(ms, 1));
    assert 1 in WindowPositions(cfg, ms);
    LastUserSurvivesIff(cfg, ms, 0);
  }

  /** A history that is not empty is never compacted to nothing. */
  lemma CompactionKeepsSomething(cfg: Config, ms: seq<Message>)
    requires ms != []
    ensures Compacted(cfg, ms) != []
  {
  }

  // ---- the number of pruned messages -----------------------------------------------------------

  lemma SurvivorsCounted(cfg: Config, ms: seq<Message>)
    ensures |Survivors(cfg, ms)| == |Window(cfg, ms)| - |RemovedPositions(cfg, ms)|
  {
    WhereSelects(|Window(cfg, ms)|, Eligible(Window(cfg, ms)));
    WhereNotIn(|Window(cfg, ms)|, RemovedPositions(cfg, ms));
  }

  /** The reported number of pruned messages is the difference of the lengths, except that the
      fallback to the last message reports one too many. */
  lemma PrunedCountExact(cfg: Config, ms: seq<Message>)
    ensures PrunedCount(cfg, ms)
      == |ms| - |Compacted(cfg, ms)| + if PlanOf(cfg, ms).LastOnly? then 1 else 0
  {
    SurvivorsCounted(cfg, ms);
  }

  /** Pruning starts: neither the window nor the stop words were enough. */
  predicate PruningReached(cfg: Config, ms: seq<Message>) {
    var window := Window(cfg, ms);
    && !(TotalTokens(ms) < cfg.tokenThreshold && |ms| <= cfg.maxHistory)
    && TotalTokens(window) >= cfg.tokenThreshold
    && TotalTokens(Working(cfg, window)) > Target(ms)
  }

  predicate NothingProtected(window: seq<Message>) {
    forall i :: 0 <= i < |window| ==> !IsSystem(window[i]) && window[i].role != "user"
  }

  /** The fallback fires, and the report is one too large, exactly when pruning is reached, the window
      holds neither a system nor a user message, and its last message alone exceeds the target. */
  lemma FallbackIff(cfg: Config, ms: seq<Message>)
    ensures PlanOf(cfg, ms).LastOnly? <==>
      && PruningReached(cfg, ms)
      && NothingProtected(Window(cfg, ms))
      && (var working := Working(cfg, Window(cfg, ms)); Tokens(working[|working| - 1]) > Target(ms))
  {
    if PruningReached(cfg, ms) {
      var window := Window(cfg, ms);
      assert window == [] ==> TotalTokens(Working(cfg, window)) == 0;
      assert ms != [];
      SurvivorsCounted(cfg, ms);
      if NothingProtected(window) {
        AllEligible(window);
        RemovesAllIff(Working(cfg, window), Target(ms));
      } else {
        var p := SomeoneProtected(window);
        ProtectedSurvives(cfg, ms, p);
      }
    }
  }

  /** The fallback can fire: with a window of one and no stop words, a short question and an answer of a few
      more tokens than the threshold are compacted to the answer, and two messages are reported as pruned. */
  lemma FallbackReached(cfg: Config, question: Message, answer: Message)
    requires cfg.maxHistory == 1 && cfg.stopWords == []
    requires question.role == "user" && |question.content| <= 16
    requires answer.role == "assistant" && answer.content == Letters(4 * (cfg.tokenThreshold + 64))
    ensures var ms := [question, answer];
            PlanOf(cfg, ms).LastOnly? && Compacted(cfg, ms) == [answer] && PrunedCount(cfg, ms) == 2
  {
    LettersTokens(cfg.tokenThreshold + 64);
    TokensBetween(question);
    TokensBetween(answer);
    LongAnswerFallsBack(cfg, question, answer);
  }

  lemma LongAnswerFallsBack(cfg: Config, question: Message, answer: Message)
    requires cfg.maxHistory == 1 && cfg.stopWords == []
    requires question.role == "user" && answer.role == "assistant"
    requires Tokens(answer) >= cfg.tokenThreshold && Tokens(answer) > 3 * Tokens(question)
    ensures var ms := [question, answer];
            PlanOf(cfg, ms).LastOnly? && Compacted(cfg, ms) == [answer] && PrunedCount(cfg, ms) == 2
  {
    var ms := [question, answer];
    TokensOfPair(question, answer);
    OneMessageWindow(cfg, question, answer);
    assert Working(cfg, [answer]) == [answer];
    FallbackIff(cfg, ms);
    PrunedCountExact(cfg, ms);
  }

  lemma TokensOfPair(a: Message, b: Message)
    ensures TotalTokens([a, b]) == Tokens(a) + Tokens(b) && TotalTokens([b]) == Tokens(b)
  {
    assert [a, b][..1] == [a];
    TokensOfOne(a);
    TokensOfOne(b);
  }

  lemma OneMessageWindow(cfg: Config, a: Message, b: Message)
    requires cfg.maxHistory == 1 && !IsSystem(a) && !IsSystem(b)
    ensures Window(cfg, [a, b]) == [b]
  {
    var ms := [a, b];
    var keep := InWindow(ms, 1);
    assert Followers(ms, 1) == 0 && Followers(ms, 0) == 1;
    assert !keep(0) && keep(1);
    assert Where(0, keep) == [] && Where(1, keep) == [] && Where(2, keep) == [1];
  }

  lemma SomeoneProtected(window: seq<Message>) returns (p: nat)
    requires !NothingProtected(window)
    ensures p < |window| && !Eligible(window)(p)
  {
    p :| p < |window| && (IsSystem(window[p]) || window[p].role == "user");
    if !IsSystem(window[p]) {
      p := LastUser(window).value;
    }
  }

  lemma AllEligible(window: seq<Message>)
    requires NothingProtected(window)
    ensures Where(|window|, Eligible(window)) == Where(|window|, Everything())
  {
    SameSelection(|window|, Eligible(window), Everything());
  }

  /** When everything may be pruned, everything is, exactly when the last message alone is too big. */
  lemma RemovesAllIff(working: seq<Message>, target: nat)
    requires working != []
    ensures var all := Where(|working|, Everything());
            && |all| == |working|
            && (|ToPrune(working, all, target)| == |all| <==> Tokens(working[|working| - 1]) > target)
  {
    var n := |working|;
    var all := Where(n, Everything());
    WhereEverything(n);
    var k := |ToPrune(working, all, target)|;
    ToPruneIsLeast(working, all, target);
    LastRemains(working, all, n - 1);
    if k < n {
      LastRemains(working, all, k);
    }
  }

  lemma LastRemains(working: seq<Message>, all: seq<nat>, k: nat)
    requires k < |working| && all == Where(|working|, Everything()) && |all| == |working|
    ensures Remaining(working, all[..k]) >= Tokens(working[|working| - 1])
    ensures k == |working| - 1 ==> Remaining(working, all[..k]) == Tokens(working[|working| - 1])
  {
    WhereEverything(|working|);
    FirstRemoved(all, k);
    RemainingAfterPrefix(working, all[..k], k);
  }

  lemma FirstRemoved(all: seq<nat>, k: nat)
    requires k <= |all| && forall i :: 0 <= i < |all| ==> all[i] == i
    ensures forall i: nat :: i < |all| ==> (NotIn(all[..k])(i) <==> k <= i)
  {
    forall i: nat | i < |all| ensures NotIn(all[..k])(i) <==> k <= i {
      if i < k { assert all[..k][i] == i; }
    }
  }

  lemma RemainingAfterPrefix(working: seq<Message>, removed: seq<nat>, k: nat)
    requires k < |working| && forall i: nat :: i < |working| ==> (NotIn(removed)(i) <==> k <= i)
    ensures Remaining(working, removed) >= Tokens(working[|working| - 1])
    ensures k == |working| - 1 ==> Remaining(working, removed) == Tokens(working[|working| - 1])
  {
    TotalOfPick(working, |working|, NotIn(removed));
    if k == |working| - 1 { NothingKept(working, k, NotIn(removed)); }
  }

  /** The target is three quarters of the original, rounded down. */
  lemma TargetMeans(ms: seq<Message>, tokens: nat)
    ensures tokens <= Target(ms) <==> 4 * tokens <= 3 * TotalTokens(ms)
  {
  }

  /** Pruning meets its goal: it removes the shortest oldest-first prefix of the eligible messages
      that brings the history down to three quarters, or all of them if none does. */
  lemma PruningMeetsGoal(cfg: Config, ms: seq<Message>)
    requires PlanOf(cfg, ms).Pruned?
    ensures var window := Window(cfg, ms);
            var eligible, removed := Where(|window|, Eligible(window)), RemovedPositions(cfg, ms);
            && removed <= eligible
            && (4 * TotalTokens(Compacted(cfg, ms)) <= 3 * TotalTokens(ms) || removed == eligible)
            && forall j :: 0 <= j < |removed| ==>
                 4 * Remaining(Working(cfg, window), eligible[..j]) > 3 * TotalTokens(ms)
  {
    var window := Window(cfg, ms);
    var working, eligible := Working(cfg, window), Where(|window|, Eligible(window));
    ToPruneIsLeast(working, eligible, Target(ms));
    TargetMeans(ms, TotalTokens(Compacted(cfg, ms)));
    forall j | 0 <= j < |RemovedPositions(cfg, ms)|
      ensures 4 * Remaining(working, eligible[..j]) > 3 * TotalTokens(ms)
    {
      TargetMeans(ms, Remaining(working, eligible[..j]));
    }
  }

  /** If removing stop words is enough, it brings the history down to three quarters. */
  lemma StrippingMeetsGoal(cfg: Config, ms: seq<Message>)
    requires PlanOf(cfg, ms).Stripped?
    ensures Compacted(cfg, ms) == Working(cfg, Window(cfg, ms))
    ensures 4 * TotalTokens(Compacted(cfg, ms)) <= 3 * TotalTokens(ms)
  {
  }

  /** A history of few tokens and few messages is returned as it is. */
  lemma SmallHistoryUntouched(cfg: Config, ms: seq<Message>)
    requires TotalTokens(ms) < cfg.tokenThreshold && |ms| <= cfg.maxHistory
    ensures Compacted(cfg, ms) == ms && PrunedCount(cfg, ms) == 0 && !Compresses(cfg, ms)
  {
  }

  /** A compaction reports a change if and only if the history is not small, its window is not empty, and the
      window is too long or shorter than the history. */
  lemma CompressesIff(cfg: Config, ms: seq<Message>)
    ensures Compresses(cfg, ms) <==>
      && !(TotalTokens(ms) < cfg.tokenThreshold && |ms| <= cfg.maxHistory)
      && Window(cfg, ms) != []
      && (TotalTokens(Window(cfg, ms)) >= cfg.tokenThreshold || |Window(cfg, ms)| < |ms|)
  {
  }

  /** The window holds the system messages and the last `maxHistory` others. */
  lemma WindowHolds(cfg: Config, ms: seq<Message>, i: nat)
    requires i < |ms|
    ensures var others := Where(|ms|, (k: nat) => k < |ms| && ms[k].role != "system");
            i in WindowPositions(cfg, ms) <==>
              ms[i].role == "system" || i in others[Max(0, |others| - cfg.maxHistory)..]
  {
    var others := (k: nat) => k < |ms| && ms[k].role != "system";
    WhereSelects(|ms|, InWindow(ms, cfg.maxHistory));
    WhereSelects(|ms|, others);
    SameSelection(|ms|, NonSystem(ms), others);
    if ms[i].role != "system" {
      LastNonSystem(ms, cfg.maxHistory, i);
    }
  }
}

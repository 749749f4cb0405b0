/** Compaction and tool calls together: what the request handler forwards after compacting. */
module ToolLinks {
  import opened Common
  import opened Messages
  import opened Transpiler
  import Simple = SimpleCompactor
  import Laws = SimpleCompactorLaws
  import Semantic = SemanticCompactor
  import StopWords

  /** The compactor that the route's settings choose. */
  datatype Strategy = Default(simple: Simple.Config) | SemanticGuarded(semantic: Semantic.Config)

  // ---- the handler's step -------------------------------------------------------------------

  /** What the handler demands of every message: role and content are strings. */
  predicate Textual(js: seq<Json>) {
    forall k :: 0 <= k < |js| ==> AsStr(Get(js[k], Key.Role)).Some? && TextContent(js[k])
  }

  /** Role and content of the messages that have both as strings. */
  function Extracted(js: seq<Json>): seq<Message> {
    if js == [] then [] else
      var last := js[|js| - 1];
      var role, content := AsStr(Get(last, Key.Role)), AsStr(Get(last, Key.Content));
      Extracted(js[..|js| - 1])
        + if role.Some? && content.Some? then [Message(role.value, content.value)] else []
  }

  lemma {:induction false} ExtractedOfTextual(js: seq<Json>)
    requires Textual(js)
    ensures |Extracted(js)| == |js|
    ensures forall k :: 0 <= k < |js| ==> Extracted(js)[k] == Message(RoleOf(js[k]), TextOf(js[k]))
  {
    if js == [] {
    } else {
      ExtractedOfTextual(js[..|js| - 1]);
      assert AsStr(Get(js[|js| - 1], Key.Role)).Some? && TextContent(js[|js| - 1]);
    }
  }

  predicate Compresses(s: Strategy, ms: seq<Message>) {
    match s
    case Default(cfg) => Simple.Compresses(cfg, ms)
    case SemanticGuarded(cfg) => TotalTokens(ms) >= cfg.tokenThreshold
  }

  function Compacted(s: Strategy, ms: seq<Message>): seq<Message> {
    match s
    case Default(cfg) => Simple.Compacted(cfg, ms)
    case SemanticGuarded(cfg) => Semantic.Compacted(cfg, ms)
  }

  /** The positions of the conversation that survive the compaction. */
  function Kept(s: Strategy, ms: seq<Message>): seq<nat> {
    match s
    case Default(cfg) => Laws.Kept(cfg, ms)
    case SemanticGuarded(cfg) => Semantic.Kept(cfg, ms)
  }

  /** The handler rebuilds every compacted message from its role and content alone. */
  function Rebuilt(m: Message): Json {
    Obj(map[Key.Role := Str(m.role), Key.Content := Str(m.content)])
  }

  function RebuiltAll(ms: seq<Message>): (js: seq<Json>)
    ensures |js| == |ms| && forall i :: 0 <= i < |ms| ==> js[i] == Rebuilt(ms[i])
  {
    seq(|ms|, i requires 0 <= i < |ms| => Rebuilt(ms[i]))
  }

  function Forwarded(s: Strategy, js: seq<Json>): seq<Json> {
    if Compresses(s, Extracted(js)) then RebuiltAll(Compacted(s, Extracted(js))) else js
  }

  /** Extracts, compacts and, if that changed anything, replaces the messages of the request. */
  method CompactRequest(s: Strategy, js: seq<Json>) returns (messages: seq<Json>)
    ensures messages == Forwarded(s, js)
  {
    var result;
    match s {
      case Default(cfg) => result := Simple.Compact(cfg, Extracted(js));
      case SemanticGuarded(cfg) => result := Semantic.Compact(cfg, Extracted(js));
    }
    messages := if result.wasCompressed then RebuiltAll(result.messages) else js;
  }

  // ---- links ----------------------------------------------------------------------------------

  lemma RebuiltFields(m: Message)
    ensures RoleOf(Rebuilt(m)) == m.role && TextContent(Rebuilt(m)) && TextOf(Rebuilt(m)) == m.content
    ensures Rebuilt(m).Obj? && Rebuilt(m).fields.Keys == {Key.Role, Key.Content}
    ensures Calls(Rebuilt(m)) == [] && AnsweredId(Rebuilt(m)) == if m.role == "tool" then [""] else []
    ensures m.role == "tool" ==> !IsSystem(Rebuilt(m))
  {
  }

  lemma {:induction false} NonSystemMembers(js: seq<Json>, x: Json)
    ensures x in NonSystem(js) <==> x in js && !IsSystem(x)
  {
    if js == [] {
    } else {
      NonSystemMembers(js[..|js| - 1], x);
      assert js == js[..|js| - 1] + [js[|js| - 1]];
    }
  }

  lemma NonSystemIsRebuilt(ms: seq<Message>, k: nat) returns (m: Message)
    requires k < |NonSystem(RebuiltAll(ms))|
    ensures m in ms && NonSystem(RebuiltAll(ms))[k] == Rebuilt(m)
  {
    var js := RebuiltAll(ms);
    var x := NonSystem(js)[k];
    NonSystemMembers(js, x);
    var i :| 0 <= i < |js| && js[i] == x;
    m := ms[i];
  }

  /** The text that a compactor leaves of a message: the semantic one all of it, the default one all of it or
      all but its stop words. */
  predicate TextLeft(s: Strategy, original: string, left: string) {
    || left == original
    || (s.Default? && s.simple.stopWords != []
        && left == StopWords.RemoveStopWords(s.simple.lexicon, s.simple.stopWords, original))
  }

  /** What is forwarded of a compressed conversation: role and text of the messages at the kept positions, in
      order, and nothing else of them. */
  lemma ForwardedText(s: Strategy, js: seq<Json>)
    requires Textual(js) && Compresses(s, Extracted(js))
    ensures var kept, out := Kept(s, Extracted(js)), Forwarded(s, js);
            && Increasing(kept) && Below(kept, |js|) && |out| == |kept|
            && forall j :: 0 <= j < |out| ==>
                 && out[j].Obj? && out[j].fields.Keys == {Key.Role, Key.Content}
                 && RoleOf(out[j]) == RoleOf(js[kept[j]])
                 && TextLeft(s, TextOf(js[kept[j]]), TextOf(out[j]))
  {
    var ms := Extracted(js);
    var kept, left := Kept(s, ms), Compacted(s, ms);
    ExtractedOfTextual(js);
    MessagesLeft(s, ms);
    forall j | 0 <= j < |left|
      ensures RoleOf(Rebuilt(left[j])) == RoleOf(js[kept[j]])
      ensures TextLeft(s, TextOf(js[kept[j]]), TextOf(Rebuilt(left[j])))
      ensures Rebuilt(left[j]).Obj? && Rebuilt(left[j]).fields.Keys == {Key.Role, Key.Content}
    {
      RebuiltFields(left[j]);
    }
  }

  lemma MessagesLeft(s: Strategy, ms: seq<Message>)
    ensures var kept, left := Kept(s, ms), Compacted(s, ms);
            && Increasing(kept) && Below(kept, |ms|) && |left| == |kept|
            && forall j :: 0 <= j < |left| ==>
                 left[j].role == ms[kept[j]].role && TextLeft(s, ms[kept[j]].content, left[j].content)
  {
    match s
    case Default(cfg) => Laws.CompactionSelectsInOrder(cfg, ms);
    case SemanticGuarded(cfg) => Semantic.CompactionSelectsInOrder(cfg, ms);
  }

  /** Rebuilt messages link their tool results to calls exactly when they hold no tool result at all:
      they carry neither calls nor call ids. */
  lemma RebuiltLinksIff(c: Codec, ms: seq<Message>)
    ensures ResultsLinked(ConvertMessages(c, RebuiltAll(ms))) <==> forall m :: m in ms ==> m.role != "tool"
  {
    var js := RebuiltAll(ms);
    var os := NonSystem(js);
    forall k | 0 <= k < |os|
      ensures NoNativeBlocks(os[k]) && Calls(os[k]) == []
      ensures AnsweredId(os[k]) != [] <==> RoleOf(os[k]) == "tool"
    {
      var m := NonSystemIsRebuilt(ms, k);
      RebuiltFields(m);
      TextHasNoBlocks(os[k]);
    }
    LinksPreserved(c, js);
    if m :| m in ms && m.role == "tool" {
      var i :| 0 <= i < |ms| && ms[i] == m;
      RebuiltFields(m);
      assert js[i] in js;
      NonSystemMembers(js, js[i]);
      var k :| 0 <= k < |os| && os[k] == js[i];
      assert "" in AnsweredId(os[k]);
    } else {
      forall k | 0 <= k < |os| ensures AnsweredId(os[k]) == [] {
        var m := NonSystemIsRebuilt(ms, k);
        RebuiltFields(m);
      }
    }
  }

  /** Each output message has the role of the message at its kept position. */
  lemma RolesOfKept(s: Strategy, ms: seq<Message>)
    ensures var kept, out := Kept(s, ms), Compacted(s, ms);
            && |kept| == |out| && Below(kept, |ms|)
            && forall j :: 0 <= j < |out| ==> out[j].role == ms[kept[j]].role
  {
    match s
    case Default(cfg) => Laws.CompactionSelectsInOrder(cfg, ms);
    case SemanticGuarded(cfg) => Semantic.CompactionSelectsInOrder(cfg, ms);
  }

  /** No tool message is at a position that survives. */
  ghost predicate NoToolKept(s: Strategy, js: seq<Json>) {
    forall k :: k in Kept(s, Extracted(js)) && k < |js| ==> RoleOf(js[k]) != "tool"
  }

  lemma ToolSurvivesIff(s: Strategy, js: seq<Json>)
    requires Textual(js)
    ensures (forall m :: m in Compacted(s, Extracted(js)) ==> m.role != "tool") <==> NoToolKept(s, js)
  {
    var ms := Extracted(js);
    var kept, out := Kept(s, ms), Compacted(s, ms);
    ExtractedOfTextual(js);
    RolesOfKept(s, ms);
    forall j | 0 <= j < |out| ensures out[j] in out && kept[j] in kept && out[j].role == RoleOf(js[kept[j]]) {
    }
  }

  lemma NonSystemIsText(js: seq<Json>)
    requires Textual(js)
    ensures forall k :: 0 <= k < |NonSystem(js)| ==> NoNativeBlocks(NonSystem(js)[k])
  {
    forall k | 0 <= k < |NonSystem(js)| ensures NoNativeBlocks(NonSystem(js)[k]) {
      NonSystemMembers(js, NonSystem(js)[k]);
      TextHasNoBlocks(NonSystem(js)[k]);
    }
  }

  /** A conversation that passes the handler's compaction reaches the provider with its tool results linked
      to calls if and only if it was linked before and is forwarded as it was, or it is compressed and no
      tool message is at a position that survives. */
  lemma CompactionLinksIff(c: Codec, s: Strategy, js: seq<Json>)
    requires Textual(js)
    ensures ResultsLinked(ConvertMessages(c, Forwarded(s, js))) <==>
      if Compresses(s, Extracted(js)) then NoToolKept(s, js) else AnswersLinked(NonSystem(js))
  {
    if Compresses(s, Extracted(js)) {
      RebuiltLinksIff(c, Compacted(s, Extracted(js)));
      ToolSurvivesIff(s, js);
    } else {
      NonSystemIsText(js);
      LinksPreserved(c, js);
    }
  }

  // ---- a conversation that loses its link -------------------------------------------------------

  function Question(): Json {
    Obj(map[Key.Role := Str("user"), Key.Content := Str("q")])
  }

  function Call(): Json {
    Obj(map[
      Key.Role := Str("assistant"), Key.Content := Str("c"),
      Key.ToolCalls := Arr([Obj(map[Key.Id := Str("a")])])])
  }

  function Answer(): Json {
    Obj(map[Key.Role := Str("tool"), Key.Content := Str("r"), Key.ToolCallId := Str("a")])
  }

  function Lookup(): seq<Json> { [Question(), Call(), Answer()] }

  lemma ExtractedAppend(js: seq<Json>, x: Json)
    requires AsStr(Get(x, Key.Role)).Some? && AsStr(Get(x, Key.Content)).Some?
    ensures Extracted(js + [x])
      == Extracted(js) + [Message(AsStr(Get(x, Key.Role)).value, AsStr(Get(x, Key.Content)).value)]
    ensures NonSystem(js + [x]) == NonSystem(js) + if IsSystem(x) then [] else [x]
  {
    assert (js + [x])[..|js|] == js;
  }

  /** A question, a call and its result: linked as it stands. */
  lemma LookupIsLinked()
    ensures Textual(Lookup()) && NonSystem(Lookup()) == Lookup() && AnswersLinked(Lookup())
    ensures Extracted(Lookup()) == [Message("user", "q"), Message("assistant", "c"), Message("tool", "r")]
  {
    FieldsOfLookup();
    assert [] + [Question()] == [Question()] && [Question()] + [Call()] == [Question(), Call()];
    ExtractedAppend([], Question());
    ExtractedAppend([Question()], Call());
    ExtractedAppend([Question(), Call()], Answer());
    assert [Question(), Call()] + [Answer()] == Lookup();
    LookupAnswers();
  }

  lemma LookupAnswers()
    ensures AnswersLinked(Lookup())
  {
    var js := Lookup();
    FieldsOfLookup();
    forall k, id | 0 <= k < |js| && id in AnsweredId(js[k])
      ensures exists j :: 0 <= j < k && id in CallIds(Calls(js[j]))
    {
      assert k == 2 && id == "a" && "a" in CallIds(Calls(js[1]));
    }
  }

  lemma FieldsOfLookup()
    ensures AsStr(Get(Question(), Key.Role)) == Some("user") && AsStr(Get(Question(), Key.Content)) == Some("q")
    ensures AsStr(Get(Call(), Key.Role)) == Some("assistant") && AsStr(Get(Call(), Key.Content)) == Some("c")
    ensures AsStr(Get(Answer(), Key.Role)) == Some("tool") && AsStr(Get(Answer(), Key.Content)) == Some("r")
    ensures AnsweredId(Question()) == AnsweredId(Call()) == [] && AnsweredId(Answer()) == ["a"]
    ensures Calls(Call()) == [Obj(map[Key.Id := Str("a")])] && CallIds(Calls(Call())) == ["a"]
  {
    var call := Obj(map[Key.Id := Str("a")]);
    assert CallId(call) == Some("a") && [call][1..] == [];
  }

  /** A window of two keeps the call and its result. */
  lemma WindowOfTwo(cfg: Simple.Config, a: Message, b: Message, c: Message)
    requires cfg.maxHistory == 2
    requires !Simple.IsSystem(a) && !Simple.IsSystem(b) && !Simple.IsSystem(c)
    ensures Laws.WindowPositions(cfg, [a, b, c]) == [1, 2] && Simple.Window(cfg, [a, b, c]) == [b, c]
  {
    var ms := [a, b, c];
    var keep := Simple.InWindow(ms, 2);
    assert Simple.Followers(ms, 2) == 0 && Simple.Followers(ms, 1) == 1 && Simple.Followers(ms, 0) == 2;
    assert !keep(0) && keep(1) && keep(2);
    assert Where(0, keep) == [] && Where(1, keep) == [] && Where(2, keep) == [1] && Where(3, keep) == [1, 2];
  }

  /** If the window costs less than the threshold, it is what is left. */
  lemma ShortWindowSuffices(cfg: Simple.Config, ms: seq<Message>)
    requires |ms| > cfg.maxHistory && Simple.Window(cfg, ms) != [] && |Simple.Window(cfg, ms)| < |ms|
    requires TotalTokens(Simple.Window(cfg, ms)) < cfg.tokenThreshold
    ensures Compresses(Default(cfg), ms) && Kept(Default(cfg), ms) == Laws.WindowPositions(cfg, ms)
  {
  }

  /** The property fails: with a window of two messages, under any threshold that start-up accepts, the
      conversation is compressed, the call and its result survive, and the result is linked to nothing. */
  lemma LinkIsLost(c: Codec, cfg: Simple.Config)
    requires cfg.maxHistory == 2 && cfg.tokenThreshold >= 512
    ensures Textual(Lookup()) && AnswersLinked(NonSystem(Lookup()))
    ensures !ResultsLinked(ConvertMessages(c, Forwarded(Default(cfg), Lookup())))
  {
    var s, js := Default(cfg), Lookup();
    LookupIsLinked();
    FieldsOfLookup();
    var ms := Extracted(js);
    WindowOfTwo(cfg, ms[0], ms[1], ms[2]);
    FewTokens(ms[1], ms[2]);
    ShortWindowSuffices(cfg, ms);
    assert 2 in Kept(s, ms) && RoleOf(js[2]) == "tool";
    CompactionLinksIff(c, s, js);
  }

  lemma FewTokens(a: Message, b: Message)
    requires |a.role| + |a.content| + |b.role| + |b.content| <= 100
    ensures TotalTokens([a, b]) <= 100
  {
    Laws.TokensOfPair(a, b);
    TokensBetween(a);
    TokensBetween(b);
  }
}

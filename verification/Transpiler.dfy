/** Translation of tool-calling messages between the OpenAI and the Anthropic format. */
module Transpiler {
  import opened Common

  datatype Json =
    | Null
    | Bool(b: bool)
    | Num(n: real)
    | Str(s: string)
    | Arr(items: seq<Json>)
    | Obj(fields: map<Key, Json>)

  /** Field names: those the translation knows, and all others. */
  datatype Key =
    | Role | Content | ToolCalls | ToolCallId | Function | Name | Arguments
    | Id | Type | Text | Input | ToolUseId
    | Other(name: string)

  /** The JSON library, of which only its round trip matters. */
  datatype Codec = Codec(parse: string -> Option<Json>, serialize: Json -> string)

  ghost predicate RoundTrips(c: Codec) {
    forall v :: c.parse(c.serialize(v)) == Some(v)
  }

  function Get(v: Json, key: Key): Option<Json> {
    if v.Obj? && key in v.fields then Some(v.fields[key]) else None
  }

  function AsStr(v: Option<Json>): Option<string> {
    if v.Some? && v.value.Str? then Some(v.value.s) else None
  }

  function AsArr(v: Option<Json>): Option<seq<Json>> {
    if v.Some? && v.value.Arr? then Some(v.value.items) else None
  }

  function Or<T>(v: Option<T>, default: T): T {
    if v.Some? then v.value else default
  }

  // ---- OpenAI to Anthropic -----------------------------------------------------------------

  function ToolUse(id: Json, name: Json, input: Json): Json {
    Obj(map[Key.Type := Str("tool_use"), Key.Id := id, Key.Name := name, Key.Input := input])
  }

  function TextBlock(text: string): Json {
    Obj(map[Key.Type := Str("text"), Key.Text := Str(text)])
  }

  function ToolResult(id: string, content: Json): Json {
    Obj(map[Key.Type := Str("tool_result"), Key.ToolUseId := Str(id), Key.Content := content])
  }

  function MessageOf(role: string, content: Json): Json {
    Obj(map[Key.Role := Str(role), Key.Content := content])
  }

  /** What a call's argument text stands for; missing or unparseable text means no arguments. */
  function ArgumentsOf(c: Codec, call: Json): Json {
    match AsStr(Get(Or(Get(call, Key.Function), Null), Key.Arguments))
    case Some(raw) => Or(c.parse(raw), Obj(map[]))
    case None => Obj(map[])
  }

  function CallName(call: Json): Option<string> {
    AsStr(Get(Or(Get(call, Key.Function), Null), Key.Name))
  }

  function CallId(call: Json): Option<string> {
    AsStr(Get(call, Key.Id))
  }

  function ToolUseOf(c: Codec, call: Json): Json {
    ToolUse(Str(Or(CallId(call), "")), Str(Or(CallName(call), "")), ArgumentsOf(c, call))
  }

  function ToolUses(c: Codec, calls: seq<Json>): (uses: seq<Json>)
    ensures |uses| == |calls| && forall k :: 0 <= k < |calls| ==> uses[k] == ToolUseOf(c, calls[k])
  {
    if calls == [] then [] else ToolUses(c, calls[..|calls| - 1]) + [ToolUseOf(c, calls[|calls| - 1])]
  }

  /** A text block, unless the text is empty. */
  function Leading(text: string): seq<Json> {
    if text == "" then [] else [TextBlock(text)]
  }

  function TextOf(msg: Json): string { Or(AsStr(Get(msg, Key.Content)), "") }

  function TextBlocks(msg: Json): seq<Json> { Leading(TextOf(msg)) }

  function RoleOf(msg: Json): string { Or(AsStr(Get(msg, Key.Role)), "user") }

  /** The calls of an assistant message; none for any other message. */
  function Calls(msg: Json): seq<Json> {
    if RoleOf(msg) == "assistant" then Or(AsArr(Get(msg, Key.ToolCalls)), []) else []
  }

  function ConvertMessage(c: Codec, msg: Json): Json {
    if RoleOf(msg) == "tool" then
      var id := Or(AsStr(Get(msg, Key.ToolCallId)), "");
      MessageOf("user", Arr([ToolResult(id, Or(Get(msg, Key.Content), Null))]))
    else if Calls(msg) != [] then
      MessageOf("assistant", Arr(TextBlocks(msg) + ToolUses(c, Calls(msg))))
    else
      MessageOf(if RoleOf(msg) == "assistant" then "assistant" else "user", Or(Get(msg, Key.Content), Null))
  }

  predicate IsSystem(msg: Json) { AsStr(Get(msg, Key.Role)) == Some("system") }

  function NonSystem(ms: seq<Json>): seq<Json> {
    if ms == [] then [] else
      NonSystem(ms[..|ms| - 1]) + if IsSystem(ms[|ms| - 1]) then [] else [ms[|ms| - 1]]
  }

  function ConvertMessages(c: Codec, ms: seq<Json>): seq<Json> {
    if ms == [] then [] else
      ConvertMessages(c, ms[..|ms| - 1]) + if IsSystem(ms[|ms| - 1]) then [] else [ConvertMessage(c, ms[|ms| - 1])]
  }

  lemma ToolUsesStep(c: Codec, calls: seq<Json>, i: nat)
    requires i < |calls|
    ensures ToolUses(c, calls[..i + 1]) == ToolUses(c, calls[..i]) + [ToolUseOf(c, calls[i])]
  {
    assert calls[..i + 1][..i] == calls[..i];
  }

  /** The tool branch: pushes one block after the other. */
  method ConvertCalls(c: Codec, msg: Json) returns (blocks: seq<Json>)
    ensures blocks == TextBlocks(msg) + ToolUses(c, Calls(msg))
  {
    blocks := [];
    var text := AsStr(Get(msg, Key.Content));
    if text.Some? && text.value != "" {
      blocks := [TextBlock(text.value)];
    }
    var calls, uses := Calls(msg), [];
    for i := 0 to |calls|
      invariant uses == ToolUses(c, calls[..i])
    {
      var name := Or(CallName(calls[i]), "");
      var input := ArgumentsOf(c, calls[i]);
      var block := ToolUse(Str(Or(CallId(calls[i]), "")), Str(name), input);
      assert block == ToolUseOf(c, calls[i]);
      ToolUsesStep(c, calls, i);
      uses := uses + [block];
    }
    assert calls[..|calls|] == calls;
    blocks := blocks + uses;
  }

  // ---- Anthropic to OpenAI -------------------------------------------------------------------

  predicate HasType(block: Json, name: string) { AsStr(Get(block, Key.Type)) == Some(name) }

  function OpenAiCall(c: Codec, block: Json): Json {
    Obj(map[
      Key.Id := Or(Get(block, Key.Id), Null),
      Key.Type := Str("function"),
      Key.Function := Obj(map[
        Key.Name := Or(Get(block, Key.Name), Null),
        Key.Arguments := Str(c.serialize(Or(Get(block, Key.Input), Obj(map[]))))])])
  }

  function ExtractToolCalls(c: Codec, blocks: seq<Json>): seq<Json> {
    if blocks == [] then [] else
      (if HasType(blocks[0], "tool_use") then [OpenAiCall(c, blocks[0])] else []) + ExtractToolCalls(c, blocks[1..])
  }

  function ContentText(blocks: seq<Json>): string {
    if blocks == [] then "" else
      (if HasType(blocks[0], "text") then Or(AsStr(Get(blocks[0], Key.Text)), "") else "") + ContentText(blocks[1..])
  }

  function Blocks(native: Json): seq<Json> { Or(AsArr(Get(native, Key.Content)), []) }

  /** The message of a translated response. */
  function FromNative(c: Codec, response: Json): Json {
    var blocks := Blocks(response);
    var calls := ExtractToolCalls(c, blocks);
    var message := map[Key.Role := Str("assistant"), Key.Content := Str(ContentText(blocks))];
    Obj(if calls == [] then message else message[Key.ToolCalls := Arr(calls)])
  }

  // ---- round trips ---------------------------------------------------------------------------

  /** A call with string id and name and parseable arguments. */
  predicate ProperCall(c: Codec, call: Json) {
    && CallId(call).Some? && CallName(call).Some?
    && (var raw := AsStr(Get(Or(Get(call, Key.Function), Null), Key.Arguments)); raw.Some? && c.parse(raw.value).Some?)
  }

  /** The same call up to the spelling of its arguments. */
  predicate SameCall(c: Codec, a: Json, b: Json) {
    CallId(a) == CallId(b) && CallName(a) == CallName(b) && ArgumentsOf(c, a) == ArgumentsOf(c, b)
  }

  lemma CallSurvives(c: Codec, call: Json)
    requires RoundTrips(c) && ProperCall(c, call)
    ensures SameCall(c, OpenAiCall(c, ToolUseOf(c, call)), call)
    ensures ProperCall(c, OpenAiCall(c, ToolUseOf(c, call)))
  {
    var back := OpenAiCall(c, ToolUseOf(c, call));
    assert AsStr(Get(Or(Get(back, Key.Function), Null), Key.Arguments)) == Some(c.serialize(ArgumentsOf(c, call)));
  }

  /** Nothing but `tool_use` blocks. */
  ghost predicate AllUses(blocks: seq<Json>) {
    forall k :: 0 <= k < |blocks| ==> HasType(blocks[k], "tool_use")
  }

  lemma TypesDiffer(block: Json)
    requires HasType(block, "tool_use")
    ensures !HasType(block, "text") && !HasType(block, "tool_result")
  {
  }

  /** The `tool_use` blocks among others. */
  function UseBlocks(blocks: seq<Json>): seq<Json> {
    if blocks == [] then [] else
      (if HasType(blocks[0], "tool_use") then [blocks[0]] else []) + UseBlocks(blocks[1..])
  }

  /** Whatever the content is made of, every `tool_use` block becomes one call, in order. */
  lemma {:induction false} UsesExtracted(c: Codec, blocks: seq<Json>)
    ensures |ExtractToolCalls(c, blocks)| == |UseBlocks(blocks)|
    ensures forall k :: 0 <= k < |UseBlocks(blocks)| ==>
      ExtractToolCalls(c, blocks)[k] == OpenAiCall(c, UseBlocks(blocks)[k])
  {
    if blocks == [] {
    } else {
      UsesExtracted(c, blocks[1..]);
    }
  }

  /** Among nothing but `tool_use` blocks there is no text. */
  lemma {:induction false} OnlyUses(uses: seq<Json>)
    requires AllUses(uses)
    ensures UseBlocks(uses) == uses && ContentText(uses) == ""
  {
    if uses == [] {
    } else {
      TypesDiffer(uses[0]);
      OnlyUses(uses[1..]);
    }
  }

  lemma {:induction false} UseBlocksAreUses(blocks: seq<Json>)
    ensures AllUses(UseBlocks(blocks))
    ensures forall b :: b in UseBlocks(blocks) <==> b in blocks && HasType(b, "tool_use")
  {
    if blocks == [] {
    } else {
      UseBlocksAreUses(blocks[1..]);
      assert blocks == [blocks[0]] + blocks[1..];
    }
  }

  lemma ToolUsesAreUses(c: Codec, calls: seq<Json>)
    ensures AllUses(ToolUses(c, calls))
  {
    forall k | 0 <= k < |calls| ensures HasType(ToolUses(c, calls)[k], "tool_use") {
      assert Get(ToolUseOf(c, calls[k]), Key.Type) == Some(Str("tool_use"));
    }
  }

  /** A leading text block adds its text and no call. */
  lemma LeadingExtracted(c: Codec, text: string, uses: seq<Json>)
    requires ContentText(uses) == ""
    ensures ContentText(Leading(text) + uses) == text
    ensures ExtractToolCalls(c, Leading(text) + uses) == ExtractToolCalls(c, uses)
  {
    if text == "" {
      assert Leading(text) + uses == uses;
    } else {
      var block := TextBlock(text);
      assert Get(block, Key.Type) == Some(Str("text")) && Get(block, Key.Text) == Some(Str(text));
      assert (Leading(text) + uses)[1..] == uses;
      assert text + "" == text;
    }
  }

  lemma FromNativeFields(c: Codec, response: Json)
    ensures var message, blocks := FromNative(c, response), Blocks(response);
            && RoleOf(message) == "assistant"
            && AsStr(Get(message, Key.Content)) == Some(ContentText(blocks))
            && Calls(message) == ExtractToolCalls(c, blocks)
            && (Get(message, Key.ToolCalls).Some? <==> ExtractToolCalls(c, blocks) != [])
  {
  }

  lemma ConvertCalling(c: Codec, msg: Json)
    requires Calls(msg) != []
    ensures ConvertMessage(c, msg) == MessageOf("assistant", Arr(TextBlocks(msg) + ToolUses(c, Calls(msg))))
    ensures Get(ConvertMessage(c, msg), Key.Content) == Some(Arr(TextBlocks(msg) + ToolUses(c, Calls(msg))))
  {
  }

  ghost predicate ProperCalls(c: Codec, calls: seq<Json>) {
    forall k :: 0 <= k < |calls| ==> ProperCall(c, calls[k])
  }

  ghost predicate SameCalls(c: Codec, a: seq<Json>, b: seq<Json>) {
    |a| == |b| && forall k :: 0 <= k < |a| ==> SameCall(c, a[k], b[k])
  }

  lemma CallsSurvive(c: Codec, calls: seq<Json>)
    requires RoundTrips(c) && ProperCalls(c, calls)
    ensures ContentText(ToolUses(c, calls)) == ""
    ensures SameCalls(c, ExtractToolCalls(c, ToolUses(c, calls)), calls)
  {
    var uses := ToolUses(c, calls);
    ToolUsesAreUses(c, calls);
    OnlyUses(uses);
    UsesExtracted(c, uses);
    var back := ExtractToolCalls(c, uses);
    forall k | 0 <= k < |calls| ensures SameCall(c, back[k], calls[k]) {
      assert back[k] == OpenAiCall(c, ToolUseOf(c, calls[k]));
      CallSurvives(c, calls[k]);
    }
  }

  /** An assistant message with proper calls, sent through the native format and back, keeps its text
      and its calls: their number, order, ids, names and parsed arguments. */
  lemma ToolCallRoundTrip(c: Codec, msg: Json, response: Json)
    requires RoundTrips(c) && Calls(msg) != [] && ProperCalls(c, Calls(msg))
    requires Get(response, Key.Content) == Get(ConvertMessage(c, msg), Key.Content)
    ensures var back := FromNative(c, response);
            && RoleOf(back) == "assistant"
            && AsStr(Get(back, Key.Content)) == Some(TextOf(msg))
            && SameCalls(c, Calls(back), Calls(msg))
  {
    var uses := ToolUses(c, Calls(msg));
    ConvertCalling(c, msg);
    assert Blocks(response) == TextBlocks(msg) + uses;
    CallsSurvive(c, Calls(msg));
    LeadingExtracted(c, TextOf(msg), uses);
    FromNativeFields(c, response);
  }

  /** A `tool_use` block with string id and name. */
  ghost predicate ProperUse(block: Json) {
    exists id: string, name: string, input: Json :: block == ToolUse(Str(id), Str(name), input)
  }

  lemma UseSurvives(c: Codec, block: Json)
    requires RoundTrips(c) && ProperUse(block)
    ensures HasType(block, "tool_use") && ToolUseOf(c, OpenAiCall(c, block)) == block
  {
    var id, name, input :| block == ToolUse(Str(id), Str(name), input);
    var call := OpenAiCall(c, block);
    assert CallId(call) == Some(id) && CallName(call) == Some(name);
    assert AsStr(Get(Or(Get(call, Key.Function), Null), Key.Arguments)) == Some(c.serialize(input));
  }

  lemma UsesSurvive(c: Codec, blocks: seq<Json>)
    requires RoundTrips(c) && forall b :: b in UseBlocks(blocks) ==> ProperUse(b)
    ensures ToolUses(c, ExtractToolCalls(c, blocks)) == UseBlocks(blocks)
  {
    var uses := UseBlocks(blocks);
    UsesExtracted(c, blocks);
    forall k | 0 <= k < |uses| ensures ToolUseOf(c, OpenAiCall(c, uses[k])) == uses[k] {
      assert uses[k] in uses;
      UseSurvives(c, uses[k]);
    }
  }

  /** What is left of native content after both translations: its text in one leading block, then its tool
      uses; or the text alone, if there are none. */
  function Normalized(blocks: seq<Json>): Json {
    if UseBlocks(blocks) == [] then Str(ContentText(blocks))
    else Arr(Leading(ContentText(blocks)) + UseBlocks(blocks))
  }

  /** Any native answer, put into the conversation as an OpenAI message and translated again, keeps its text
      and its tool uses, in order. */
  lemma NativeRoundTrip(c: Codec, response: Json)
    requires RoundTrips(c) && forall b :: b in Blocks(response) && HasType(b, "tool_use") ==> ProperUse(b)
    ensures ConvertMessage(c, FromNative(c, response)) == MessageOf("assistant", Normalized(Blocks(response)))
  {
    var message, blocks := FromNative(c, response), Blocks(response);
    UseBlocksAreUses(blocks);
    UsesSurvive(c, blocks);
    UsesExtracted(c, blocks);
    FromNativeFields(c, response);
    if UseBlocks(blocks) != [] {
      ConvertCalling(c, message);
    }
  }

  /** At most one text block, not empty and in front, and otherwise tool uses, at least one. */
  ghost predicate Canonical(blocks: seq<Json>) {
    exists text: string, uses: seq<Json> :: blocks == Leading(text) + uses && AllUses(uses) && uses != []
  }

  /** The native content comes back the same if and only if it has that shape. */
  lemma NativeContentKeptIff(c: Codec, response: Json)
    requires RoundTrips(c) && forall b :: b in Blocks(response) && HasType(b, "tool_use") ==> ProperUse(b)
    ensures Get(ConvertMessage(c, FromNative(c, response)), Key.Content) == Some(Arr(Blocks(response)))
            <==> Canonical(Blocks(response))
  {
    var blocks := Blocks(response);
    NativeRoundTrip(c, response);
    assert Get(MessageOf("assistant", Normalized(blocks)), Key.Content) == Some(Normalized(blocks));
    UseBlocksAreUses(blocks);
    if Canonical(blocks) {
      var text, uses :| blocks == Leading(text) + uses && AllUses(uses) && uses != [];
      OnlyUses(uses);
      LeadingBlocks(text, uses);
    }
  }

  lemma LeadingBlocks(text: string, uses: seq<Json>)
    requires AllUses(uses)
    ensures UseBlocks(Leading(text) + uses) == uses && ContentText(Leading(text) + uses) == text
  {
    OnlyUses(uses);
    if text == "" {
      assert Leading(text) + uses == uses;
    } else {
      var block := TextBlock(text);
      assert Get(block, Key.Type) == Some(Str("text")) && Get(block, Key.Text) == Some(Str(text));
      assert (Leading(text) + uses)[1..] == uses;
      assert text + "" == text;
    }
  }

  /** What an OpenAI call says of a `tool_use` block. */
  predicate CallSays(c: Codec, call: Json, block: Json) {
    var function_ := Or(Get(call, Key.Function), Null);
    && Get(call, Key.Type) == Some(Str("function"))
    && Get(call, Key.Id) == Some(Or(Get(block, Key.Id), Null))
    && Get(function_, Key.Name) == Some(Or(Get(block, Key.Name), Null))
    && Get(function_, Key.Arguments) == Some(Str(c.serialize(Or(Get(block, Key.Input), Obj(map[])))))
  }

  lemma CallsSayUses(c: Codec, blocks: seq<Json>)
    ensures |ExtractToolCalls(c, blocks)| == |UseBlocks(blocks)|
    ensures forall k :: 0 <= k < |UseBlocks(blocks)| ==>
      CallSays(c, ExtractToolCalls(c, blocks)[k], UseBlocks(blocks)[k])
  {
    UsesExtracted(c, blocks);
    forall k | 0 <= k < |UseBlocks(blocks)|
      ensures CallSays(c, ExtractToolCalls(c, blocks)[k], UseBlocks(blocks)[k])
    {
      OpenAiCallSays(c, UseBlocks(blocks)[k]);
    }
  }

  lemma OpenAiCallSays(c: Codec, block: Json)
    ensures CallSays(c, OpenAiCall(c, block), block)
  {
  }

  /** Text and tool uses are gathered block by block, in order. */
  lemma {:induction false} BlocksConcat(a: seq<Json>, b: seq<Json>)
    ensures UseBlocks(a + b) == UseBlocks(a) + UseBlocks(b)
    ensures ContentText(a + b) == ContentText(a) + ContentText(b)
  {
    if a == [] {
      assert a + b == b;
    } else {
      assert (a + b)[1..] == a[1..] + b;
      BlocksConcat(a[1..], b);
      var use := if HasType(a[0], "tool_use") then [a[0]] else [];
      var text := if HasType(a[0], "text") then Or(AsStr(Get(a[0], Key.Text)), "") else "";
      assert use + (UseBlocks(a[1..]) + UseBlocks(b)) == (use + UseBlocks(a[1..])) + UseBlocks(b);
      assert text + (ContentText(a[1..]) + ContentText(b)) == (text + ContentText(a[1..])) + ContentText(b);
    }
  }

  // ---- what becomes of one message ------------------------------------------------------------

  /** A block that answers a call: its three fields, and no other. */
  predicate AnswersWith(block: Json, id: string, content: Json) {
    && block.Obj? && block.fields.Keys == {Key.Type, Key.ToolUseId, Key.Content}
    && Get(block, Key.Type) == Some(Str("tool_result"))
    && Get(block, Key.ToolUseId) == Some(Str(id))
    && Get(block, Key.Content) == Some(content)
  }

  /** A block that makes a call: its four fields, and no other. Missing parts are empty; arguments that cannot
      be parsed are none. */
  predicate MakesCall(c: Codec, block: Json, call: Json) {
    var function_ := Or(Get(call, Key.Function), Null);
    var raw := AsStr(Get(function_, Key.Arguments));
    var input := if raw.Some? then c.parse(raw.value) else None;
    && block.Obj? && block.fields.Keys == {Key.Type, Key.Id, Key.Name, Key.Input}
    && Get(block, Key.Type) == Some(Str("tool_use"))
    && Get(block, Key.Id) == Some(Str(Or(AsStr(Get(call, Key.Id)), "")))
    && Get(block, Key.Name) == Some(Str(Or(AsStr(Get(function_, Key.Name)), "")))
    && Get(block, Key.Input) == Some(Or(input, Obj(map[])))
  }

  /** A text block, if there is text, and then one block for each call. */
  predicate TextThenCalls(c: Codec, blocks: seq<Json>, text: string, calls: seq<Json>) {
    var lead := if text == "" then 0 else 1;
    && |blocks| == lead + |calls|
    && (text != "" ==> Get(blocks[0], Key.Type) == Some(Str("text")) && Get(blocks[0], Key.Text) == Some(Str(text)))
    && forall k :: 0 <= k < |calls| ==> MakesCall(c, blocks[lead + k], calls[k])
  }

  /** The native form of a message, field by field. */
  predicate NativeFormOf(c: Codec, msg: Json, native: Json) {
    var role, content := RoleOf(msg), Or(Get(msg, Key.Content), Null);
    var calls := Or(AsArr(Get(msg, Key.ToolCalls)), []);
    && native.Obj? && native.fields.Keys == {Key.Role, Key.Content}
    && Get(native, Key.Role) == Some(Str(if role == "assistant" then "assistant" else "user"))
    && if role == "tool" then
         && AsArr(Get(native, Key.Content)).Some? && |Blocks(native)| == 1
         && AnswersWith(Blocks(native)[0], Or(AsStr(Get(msg, Key.ToolCallId)), ""), content)
       else if role == "assistant" && calls != [] then
         && AsArr(Get(native, Key.Content)).Some?
         && TextThenCalls(c, Blocks(native), Or(AsStr(Get(msg, Key.Content)), ""), calls)
       else Get(native, Key.Content) == Some(content)
  }

  /** In particular a tool result is forwarded word for word, under the id of its call. */
  lemma MessageConverted(c: Codec, msg: Json)
    ensures NativeFormOf(c, msg, ConvertMessage(c, msg))
  {
    if RoleOf(msg) == "tool" {
      ToolMessageConverted(c, msg);
    } else if Calls(msg) != [] {
      CallingMessageConverted(c, msg);
    } else {
      PlainMessageConverted(c, msg);
    }
  }

  lemma MessageFields(role: string, content: Json)
    ensures var native := MessageOf(role, content);
            && native.Obj? && native.fields.Keys == {Key.Role, Key.Content}
            && Get(native, Key.Role) == Some(Str(role)) && Get(native, Key.Content) == Some(content)
            && (content.Arr? ==> Blocks(native) == content.items)
  {
  }

  lemma ToolMessageConverted(c: Codec, msg: Json)
    requires RoleOf(msg) == "tool"
    ensures NativeFormOf(c, msg, ConvertMessage(c, msg))
  {
    var id, content := Or(AsStr(Get(msg, Key.ToolCallId)), ""), Or(Get(msg, Key.Content), Null);
    MessageFields("user", Arr([ToolResult(id, content)]));
    ResultAnswers(id, content);
  }

  lemma CallingMessageConverted(c: Codec, msg: Json)
    requires Calls(msg) != []
    ensures NativeFormOf(c, msg, ConvertMessage(c, msg))
  {
    ConvertCalling(c, msg);
    MessageFields("assistant", Arr(TextBlocks(msg) + ToolUses(c, Calls(msg))));
    CallingConverted(c, msg);
  }

  lemma PlainMessageConverted(c: Codec, msg: Json)
    requires RoleOf(msg) != "tool" && Calls(msg) == []
    ensures NativeFormOf(c, msg, ConvertMessage(c, msg))
  {
    MessageFields(if RoleOf(msg) == "assistant" then "assistant" else "user", Or(Get(msg, Key.Content), Null));
  }

  lemma ResultAnswers(id: string, content: Json)
    ensures AnswersWith(ToolResult(id, content), id, content)
  {
  }

  lemma UseMakesCall(c: Codec, call: Json)
    ensures MakesCall(c, ToolUseOf(c, call), call)
  {
  }

  lemma CallingConverted(c: Codec, msg: Json)
    requires Calls(msg) != []
    ensures TextThenCalls(c, TextBlocks(msg) + ToolUses(c, Calls(msg)), TextOf(msg), Calls(msg))
  {
    TextThenUses(c, TextOf(msg), Calls(msg));
  }

  lemma TextThenUses(c: Codec, text: string, calls: seq<Json>)
    ensures TextThenCalls(c, Leading(text) + ToolUses(c, calls), text, calls)
  {
    var uses := ToolUses(c, calls);
    forall k | 0 <= k < |calls| ensures MakesCall(c, uses[k], calls[k]) {
      UseMakesCall(c, calls[k]);
    }
    if text == "" {
      assert Leading(text) + uses == uses;
    } else {
      TextBlockFields(text);
      assert Leading(text) + uses == [TextBlock(text)] + uses;
    }
  }

  lemma TextBlockFields(text: string)
    ensures Get(TextBlock(text), Key.Type) == Some(Str("text")) && Get(TextBlock(text), Key.Text) == Some(Str(text))
  {
  }

  // ---- whole conversations ---------------------------------------------------------------------

  /** Native messages correspond one to one, in order, to the non-system messages. */
  lemma {:induction false} ConversationOneToOne(c: Codec, ms: seq<Json>)
    ensures |ConvertMessages(c, ms)| == |NonSystem(ms)|
    ensures forall k :: 0 <= k < |NonSystem(ms)| ==> ConvertMessages(c, ms)[k] == ConvertMessage(c, NonSystem(ms)[k])
  {
    if ms == [] {
    } else {
      ConversationOneToOne(c, ms[..|ms| - 1]);
    }
  }

  /** And each of them is the native form of its message. */
  lemma ConversationConverted(c: Codec, ms: seq<Json>)
    ensures |ConvertMessages(c, ms)| == |NonSystem(ms)|
    ensures forall k :: 0 <= k < |NonSystem(ms)| ==> NativeFormOf(c, NonSystem(ms)[k], ConvertMessages(c, ms)[k])
  {
    ConversationOneToOne(c, ms);
    forall k | 0 <= k < |NonSystem(ms)| ensures NativeFormOf(c, NonSystem(ms)[k], ConvertMessages(c, ms)[k]) {
      MessageConverted(c, NonSystem(ms)[k]);
    }
  }

  /** System messages are left out one by one, so the order of the others is kept. */
  lemma {:induction false} NonSystemConcat(a: seq<Json>, b: seq<Json>)
    ensures NonSystem(a + b) == NonSystem(a) + NonSystem(b)
    ensures |b| == 1 ==> NonSystem(b) == if AsStr(Get(b[0], Key.Role)) == Some("system") then [] else b
    decreases |b|
  {
    if b == [] {
      assert a + b == a;
    } else {
      var init, last := b[..|b| - 1], b[|b| - 1];
      NonSystemConcat(a, init);
      var own := if IsSystem(last) then [] else [last];
      assert (a + b)[..|a + b| - 1] == a + init;
      assert (NonSystem(a) + NonSystem(init)) + own == NonSystem(a) + (NonSystem(init) + own);
    }
  }

  /** Native messages come from the user or the assistant, and from the assistant exactly when they
      did before; a message without calls keeps its content word for word. */
  lemma RolesAndContentKept(c: Codec, msg: Json)
    ensures RoleOf(ConvertMessage(c, msg)) == if RoleOf(msg) == "assistant" then "assistant" else "user"
    ensures RoleOf(msg) != "tool" && Calls(msg) == [] ==>
      Or(Get(ConvertMessage(c, msg), Key.Content), Null) == Or(Get(msg, Key.Content), Null)
  {
  }

  function CallIds(calls: seq<Json>): (ids: seq<string>)
    ensures |ids| == |calls|
  {
    if calls == [] then [] else [Or(CallId(calls[0]), "")] + CallIds(calls[1..])
  }

  /** The ids of the `tool_use` blocks of a native message. */
  function UseIds(blocks: seq<Json>): seq<string> {
    if blocks == [] then [] else
      (if HasType(blocks[0], "tool_use") then [Or(AsStr(Get(blocks[0], Key.Id)), "")] else []) + UseIds(blocks[1..])
  }

  /** The ids of the `tool_result` blocks of a native message. */
  function ResultIds(blocks: seq<Json>): seq<string> {
    if blocks == [] then [] else
      (if HasType(blocks[0], "tool_result") then [Or(AsStr(Get(blocks[0], Key.ToolUseId)), "")] else [])
      + ResultIds(blocks[1..])
  }

  function AnsweredId(msg: Json): seq<string> {
    if RoleOf(msg) == "tool" then [Or(AsStr(Get(msg, Key.ToolCallId)), "")] else []
  }

  /** The content does not already hold native tool blocks, or is not forwarded as it is. Text content,
      the only kind the request handler lets through, never does. */
  predicate NoNativeBlocks(msg: Json) {
    RoleOf(msg) == "tool" || Calls(msg) != [] || (UseIds(Blocks(msg)) == [] && ResultIds(Blocks(msg)) == [])
  }

  /** What the request handler demands of a message's content, but for its not being empty. */
  predicate TextContent(msg: Json) { AsStr(Get(msg, Key.Content)).Some? }

  lemma TextHasNoBlocks(msg: Json)
    requires TextContent(msg)
    ensures NoNativeBlocks(msg)
  {
  }

  lemma {:induction false} UseIdsOfCalls(c: Codec, uses: seq<Json>, calls: seq<Json>)
    requires |uses| == |calls| && forall k :: 0 <= k < |calls| ==> uses[k] == ToolUseOf(c, calls[k])
    ensures UseIds(uses) == CallIds(calls) && ResultIds(uses) == []
  {
    if uses == [] {
    } else {
      assert Get(uses[0], Key.Type) == Some(Str("tool_use"));
      assert Get(uses[0], Key.Id) == Some(Str(Or(CallId(calls[0]), "")));
      TypesDiffer(uses[0]);
      UseIdsOfCalls(c, uses[1..], calls[1..]);
    }
  }

  lemma LeadingHasNoIds(text: string, uses: seq<Json>)
    ensures UseIds(Leading(text) + uses) == UseIds(uses) && ResultIds(Leading(text) + uses) == ResultIds(uses)
  {
    if text == "" {
      assert Leading(text) + uses == uses;
    } else {
      assert Get(TextBlock(text), Key.Type) == Some(Str("text"));
      assert (Leading(text) + uses)[1..] == uses;
    }
  }

  lemma ResultBlockIds(id: string, content: Json)
    ensures UseIds([ToolResult(id, content)]) == [] && ResultIds([ToolResult(id, content)]) == [id]
  {
    var block := ToolResult(id, content);
    assert Get(block, Key.Type) == Some(Str("tool_result")) && Get(block, Key.ToolUseId) == Some(Str(id));
    assert [block][1..] == [];
  }

  /** Each message keeps the ids of the calls it makes and of the call it answers, in order, exactly
      when its content holds no native blocks of its own. */
  lemma IdsPreserved(c: Codec, msg: Json)
    ensures UseIds(Blocks(ConvertMessage(c, msg))) == CallIds(Calls(msg))
            && ResultIds(Blocks(ConvertMessage(c, msg))) == AnsweredId(msg)
            <==> NoNativeBlocks(msg)
  {
    if RoleOf(msg) == "tool" {
      var id, content := Or(AsStr(Get(msg, Key.ToolCallId)), ""), Or(Get(msg, Key.Content), Null);
      ResultBlockIds(id, content);
      assert Get(ConvertMessage(c, msg), Key.Content) == Some(Arr([ToolResult(id, content)]));
    } else if Calls(msg) != [] {
      ConvertCalling(c, msg);
      UseIdsOfCalls(c, ToolUses(c, Calls(msg)), Calls(msg));
      LeadingHasNoIds(TextOf(msg), ToolUses(c, Calls(msg)));
    } else {
      assert Blocks(ConvertMessage(c, msg)) == Blocks(msg);
    }
  }

  /** Every answer refers to a call of an earlier message. */
  ghost predicate AnswersLinked(ms: seq<Json>) {
    forall k, id :: 0 <= k < |ms| && id in AnsweredId(ms[k]) ==> exists j :: 0 <= j < k && id in CallIds(Calls(ms[j]))
  }

  ghost predicate ResultsLinked(ns: seq<Json>) {
    forall k, id :: 0 <= k < |ns| && id in ResultIds(Blocks(ns[k])) ==>
      exists j :: 0 <= j < k && id in UseIds(Blocks(ns[j]))
  }

  /** The native conversation links results to calls exactly when the original does. */
  lemma LinksPreserved(c: Codec, ms: seq<Json>)
    requires forall k :: 0 <= k < |NonSystem(ms)| ==> NoNativeBlocks(NonSystem(ms)[k])
    ensures ResultsLinked(ConvertMessages(c, ms)) <==> AnswersLinked(NonSystem(ms))
  {
    var ns, os := ConvertMessages(c, ms), NonSystem(ms);
    ConversationOneToOne(c, ms);
    forall k | 0 <= k < |os|
      ensures UseIds(Blocks(ns[k])) == CallIds(Calls(os[k])) && ResultIds(Blocks(ns[k])) == AnsweredId(os[k])
    {
      IdsPreserved(c, os[k]);
    }
  }
}

/** Turns the splitter's events into the events sent to the client. */
module SseStream {
  import opened Common
  import opened Text
  import opened SseSplitter

  /** UTF-8 decoding, JSON and the provider's transpiler, as far as the stream depends on them. */
  datatype Codec<!J> = Codec(
    decode: seq<byte> -> string,
    parse: string -> Option<J>,
    translate: J -> Option<J>,
    serialize: J -> Option<string>)

  datatype Event = Data(json: string) | DoneMarker

  datatype Action = Skip | Finish | Emit(json: string)

  /** The line without its `data:` prefix, if it has one. */
  function Payload(line: string): string {
    if "data: " <= line then Trim(line[6..])
    else if "data:" <= line then Trim(line[5..])
    else line
  }

  /** What one line of provider output leads to. */
  function Classify<J>(c: Codec<J>, raw: string): Action {
    var line := Trim(raw);
    if line == "" || line[0] == ':' then Skip else
      var json := Payload(line);
      if json == "[DONE]" then Finish
      else if json == "" then Skip
      else match c.parse(json)
        case None => Skip
        case Some(value) =>
          match c.translate(value)
          case None => Skip
          case Some(translated) =>
            match c.serialize(translated)
            case None => Skip
            case Some(data) => Emit(data)
  }

  lemma ShorterPrefix(a: string, b: string, s: string)
    requires a <= b && !(a <= s)
    ensures !(b <= s)
  {
  }

  /** How a provider frames its payload makes no difference: with a `data:` prefix, with or without
      a space, or bare. */
  lemma FramingIrrelevant<J>(c: Codec<J>, json: string)
    requires json != [] && Trimmed(json) && json[0] != ':' && !("data:" <= json)
    ensures Classify(c, "data: " + json) == Classify(c, json) == Classify(c, "data:" + json)
    ensures Classify(c, json) == Finish <==> json == "[DONE]"
  {
    var spaced, tight := "data: " + json, "data:" + json;
    assert spaced[0] == 'd' && tight[0] == 'd';
    assert spaced[|spaced| - 1] == json[|json| - 1] && tight[|tight| - 1] == json[|json| - 1];
    TrimIsTrimmed(json);
    TrimIsTrimmed(spaced);
    TrimIsTrimmed(tight);
    assert spaced[6..] == json && tight[5..] == json;
    assert "data: " <= spaced && "data:" <= tight;
    assert tight[5] == json[0] != ' ';
    assert "data: "[5] != tight[5];
    ShorterPrefix("data:", "data: ", json);
  }

  /** What a line carries: itself without surrounding whitespace, or what follows `data:` in it. */
  function Content(raw: string): string {
    var line := Trim(raw);
    if "data:" <= line then Trim(line[5..]) else line
  }

  /** Content that can be a chunk: not a comment, not empty, not the end marker. */
  predicate MayBeChunk(raw: string) {
    Trim(raw) != "" && Trim(raw)[0] != ':' && Content(raw) != "" && Content(raw) != "[DONE]"
  }

  /** What the client is sent for a line: its content parsed, translated by the provider's transpiler and
      serialized, if each of these succeeds. */
  function Translated<J>(c: Codec<J>, raw: string): Option<string> {
    var native := if MayBeChunk(raw) then c.parse(Content(raw)) else None;
    var chunk := if native.Some? then c.translate(native.value) else None;
    if chunk.Some? then c.serialize(chunk.value) else None
  }

  lemma PayloadIsContent(raw: string)
    ensures Payload(Trim(raw)) == Content(raw)
  {
    var line := Trim(raw);
    if "data: " <= line {
      assert "data:" == "data: "[..5] && "data: "[5] == ' ';
      assert "data:" <= line && line[5] == "data: "[5];
      assert line[5..] == [line[5]] + line[6..];
      TrimAfterWhitespace(' ', line[6..]);
    }
  }

  /** Every line is exactly one of three things: the provider's end marker, a chunk that is sent translated,
      or nothing to the client. */
  lemma LineSendsExactly<J>(c: Codec<J>, raw: string)
    ensures Classify(c, raw) == Finish <==> Content(raw) == "[DONE]"
    ensures forall d :: Classify(c, raw) == Emit(d) <==> Translated(c, raw) == Some(d)
    ensures Classify(c, raw) == Skip <==> Content(raw) != "[DONE]" && Translated(c, raw) == None
  {
    PayloadIsContent(raw);
    assert Trim(raw) == "" || Trim(raw)[0] == ':' ==> Content(raw) != "[DONE]" by {
      assert "[DONE]"[0] == '[' && (Trim(raw) != "" ==> "data:"[0] != ':');
    }
  }

  /** A payload that is neither empty, the end marker, a comment nor prefixed itself is sent translated, however
      it is framed, or skipped if it cannot be. */
  lemma PayloadSent<J>(c: Codec<J>, json: string)
    requires json != [] && Trimmed(json) && json[0] != ':' && !("data:" <= json) && json != "[DONE]"
    ensures forall line :: line in {json, "data: " + json, "data:" + json} ==>
      Classify(c, line) ==
        match c.parse(json)
        case None => Skip
        case Some(native) =>
          match c.translate(native)
          case None => Skip
          case Some(chunk) => if c.serialize(chunk).Some? then Emit(c.serialize(chunk).value) else Skip
  {
    FramingIrrelevant(c, json);
    TrimIsTrimmed(json);
    LineSendsExactly(c, json);
    assert Content(json) == json && MayBeChunk(json);
  }

  /** Comments, empty lines and empty payloads are skipped. */
  lemma SkippedLines<J>(c: Codec<J>, raw: string)
    requires Trim(raw) == "" || Trim(raw)[0] == ':' || Content(raw) == ""
    ensures Classify(c, raw) == Skip
  {
    LineSendsExactly(c, raw);
  }

  /** All the theory below needs of a codec: bytes to text, lines to actions. */
  datatype Handler = Handler(decode: seq<byte> -> string, act: string -> Action)

  function HandlerOf<J>(c: Codec<J>): Handler {
    Handler(c.decode, line => Classify(c, line))
  }

  /** The events of some lines, up to and including the provider's own end marker. */
  function Events(h: Handler, lines: seq<string>): seq<Event> {
    if lines == [] then [] else
      match h.act(lines[0])
      case Skip => Events(h, lines[1..])
      case Finish => [DoneMarker]
      case Emit(json) => [Data(json)] + Events(h, lines[1..])
  }

  /** Whether the provider's own end marker is among the lines. */
  predicate Finishes(h: Handler, lines: seq<string>) {
    lines != [] && (h.act(lines[0]) == Finish || Finishes(h, lines[1..]))
  }

  function Then(h: Handler, lines: seq<string>, more: seq<Event>): seq<Event> {
    Events(h, lines) + if Finishes(h, lines) then [] else more
  }

  /** The reference: every line of the decoded whole, then the end marker. */
  function Whole(h: Handler, s: seq<byte>): seq<Event> {
    Then(h, Lines(h.decode(s)), [DoneMarker])
  }

  /** The events for what the splitter yields, piece by piece. */
  function Deliver(h: Handler, outs: seq<Out>): seq<Event> {
    if outs == [] || outs[0] == Error then [DoneMarker]
    else Then(h, Lines(h.decode(outs[0].bytes)), Deliver(h, outs[1..]))
  }

  /** The loop over the lines of one piece. */
  method ProcessLines<J>(c: Codec<J>, lines: seq<string>) returns (events: seq<Event>, finished: bool)
    ensures events == Events(HandlerOf(c), lines)
    ensures finished == Finishes(HandlerOf(c), lines)
  {
    ghost var h := HandlerOf(c);
    events := [];
    assert lines[0..] == lines;
    for i := 0 to |lines|
      invariant Events(h, lines) == events + Events(h, lines[i..])
      invariant Finishes(h, lines) == Finishes(h, lines[i..])
    {
      assert lines[i..][1..] == lines[i + 1..];
      assert h.act(lines[i]) == Classify(c, lines[i]);
      match Classify(c, lines[i])
      case Skip =>
      case Finish => return events + [DoneMarker], true;
      case Emit(json) =>
        AppendAssociative(events, [Data(json)], Events(h, lines[i + 1..]));
        events := events + [Data(json)];
    }
    finished := false;
  }

  /** The whole stream: polls the splitter until it fails, finishes or the provider ends it. */
  method TransformSseStream<J>(splitter: SseChunkSplitter, c: Codec<J>) returns (events: seq<Event>)
    modifies splitter
    ensures events == Deliver(HandlerOf(c), Output(old(splitter.buffer), old(splitter.inner)))
  {
    ghost var h := HandlerOf(c);
    ghost var outs := Output(splitter.buffer, splitter.inner);
    ghost var all := Deliver(h, outs);
    events := [];
    while true
      invariant outs == Output(splitter.buffer, splitter.inner)
      invariant all == events + Deliver(h, outs)
      decreases |splitter.inner| + |splitter.buffer| + |Bytes(splitter.inner)|
    {
      var poll := splitter.PollNext();
      match poll {
        case NotYet =>
        case Finished => return events + [DoneMarker];
        case Failed => return events + [DoneMarker];
        case Ready(bytes) =>
          assert outs[0] == Piece(bytes);
          outs := outs[1..];
          assert outs == Output(splitter.buffer, splitter.inner);
          var produced, finished := ProcessLines(c, Lines(c.decode(bytes)));
          AppendAssociative(events, produced, if finished then [] else Deliver(h, outs));
          events := events + produced;
          if finished {
            assert events + [] == events;
            return;
          }
      }
    }
  }

  // ---- one end marker, and it is last ----------------------------------------------------

  ghost predicate EndsInOneMarker(events: seq<Event>) {
    events != [] && events[|events| - 1] == DoneMarker && DoneMarker !in events[..|events| - 1]
  }

  lemma PrependData(before: seq<Event>, events: seq<Event>)
    requires DoneMarker !in before && EndsInOneMarker(events)
    ensures EndsInOneMarker(before + events)
  {
    assert (before + events)[..|before + events| - 1] == before + events[..|events| - 1];
  }

  lemma {:induction false} EventsMarks(h: Handler, lines: seq<string>)
    ensures if Finishes(h, lines) then EndsInOneMarker(Events(h, lines)) else DoneMarker !in Events(h, lines)
  {
    if lines == [] {
    } else {
      EventsMarks(h, lines[1..]);
      var action := h.act(lines[0]);
      if action.Emit? && Finishes(h, lines[1..]) {
        PrependData([Data(action.json)], Events(h, lines[1..]));
      }
    }
  }

  /** Every stream ends in exactly one end marker: after network errors, after the provider's own
      marker and at the end of input alike. */
  lemma {:induction false} ExactlyOneDone(h: Handler, outs: seq<Out>)
    ensures EndsInOneMarker(Deliver(h, outs))
  {
    if outs != [] && outs[0] != Error {
      var lines := Lines(h.decode(outs[0].bytes));
      EventsMarks(h, lines);
      ExactlyOneDone(h, outs[1..]);
      if Finishes(h, lines) {
        assert Events(h, lines) + [] == Events(h, lines);
      } else {
        PrependData(Events(h, lines), Deliver(h, outs[1..]));
      }
    }
  }

  // ---- independence from the network's chunks ------------------------------------------------

  /** Decoding never merges a newline byte with its neighbours. Lossy UTF-8 decoding has this
      property because no multi-byte sequence contains the byte 10. */
  ghost predicate NewlinesSurvive(decode: seq<byte> -> string) {
    && decode([]) == []
    && forall a: seq<byte>, b: seq<byte> :: decode(a + [LF] + b) == decode(a) + ['\n'] + decode(b)
  }

  function ByteWise(s: seq<byte>): (t: string)
    ensures |t| == |s| && forall i :: 0 <= i < |s| ==> t[i] == s[i] as char
  {
    seq(|s|, i requires 0 <= i < |s| => s[i] as char)
  }

  /** Byte-wise decoding is one such decoder. */
  lemma ByteWiseQualifies()
    ensures NewlinesSurvive(ByteWise)
  {
    forall a: seq<byte>, b: seq<byte>
      ensures ByteWise(a + [LF] + b) == ByteWise(a) + ['\n'] + ByteWise(b)
    {
      assert LF as char == '\n';
    }
  }

  lemma {:induction false} EventsConcat(h: Handler, a: seq<string>, b: seq<string>)
    ensures Events(h, a + b) == Events(h, a) + if Finishes(h, a) then [] else Events(h, b)
    ensures Finishes(h, a + b) <==> Finishes(h, a) || Finishes(h, b)
  {
    if a == [] {
      assert a + b == b;
    } else {
      assert (a + b)[1..] == a[1..] + b;
      EventsConcat(h, a[1..], b);
    }
  }

  /** A piece that ends in a newline can be processed on its own. */
  lemma PieceThenRest(h: Handler, piece: seq<byte>, rest: seq<byte>)
    requires NewlinesSurvive(h.decode) && piece != [] && piece[|piece| - 1] == LF
    ensures Whole(h, piece + rest) == Then(h, Lines(h.decode(piece)), Whole(h, rest))
  {
    var lines, more := Lines(h.decode(piece)), Lines(h.decode(rest));
    var whole, k := h.decode(piece + rest), |h.decode(piece)|;
    DecodeCut(h.decode, piece, rest);
    LinesSplit(whole, k);
    EventsConcat(h, lines, more);
  }

  lemma DecodeCut(decode: seq<byte> -> string, piece: seq<byte>, rest: seq<byte>)
    requires NewlinesSurvive(decode) && piece != [] && piece[|piece| - 1] == LF
    ensures var whole, k := decode(piece + rest), |decode(piece)|;
            && 0 < k <= |whole| && whole[k - 1] == '\n'
            && whole[..k] == decode(piece) && whole[k..] == decode(rest)
  {
    var a := piece[..|piece| - 1];
    calc {
      decode(piece);
      { assert piece == a + [LF] + []; }
      decode(a + [LF] + []);
      decode(a) + ['\n'] + decode([]);
      decode(a) + ['\n'];
    }
    assert piece + rest == a + [LF] + rest;
    assert decode(piece + rest) == decode(piece) + decode(rest);
  }

  lemma DeliverTail(h: Handler, tail: seq<byte>)
    requires NewlinesSurvive(h.decode)
    ensures Deliver(h, AsPieces(WithTail([], tail))) == Whole(h, tail)
  {
    if tail != [] {
      assert [tail][1..] == [] && AsPieces([tail]) == [Piece(tail)];
    }
  }

  /** Piece-wise delivery of complete pieces and a tail is delivery of their concatenation. */
  lemma {:induction false} DeliverPieces(h: Handler, pieces: seq<seq<byte>>, tail: seq<byte>)
    requires NewlinesSurvive(h.decode) && forall p :: p in pieces ==> Complete(p)
    ensures Deliver(h, AsPieces(WithTail(pieces, tail))) == Whole(h, Flatten(pieces) + tail)
  {
    if pieces == [] {
      assert Flatten(pieces) + tail == tail;
      DeliverTail(h, tail);
    } else {
      var piece, rest := pieces[0], pieces[1..];
      assert piece in pieces;
      DeliverPieces(h, rest, tail);
      PieceThenRest(h, piece, Flatten(rest) + tail);
      assert Flatten(pieces) + tail == piece + (Flatten(rest) + tail);
      assert pieces == [piece] + rest;
      DeliverCons(h, piece, rest, tail);
    }
  }

  lemma DeliverCons(h: Handler, piece: seq<byte>, rest: seq<seq<byte>>, tail: seq<byte>)
    ensures Deliver(h, AsPieces(WithTail([piece] + rest, tail)))
      == Then(h, Lines(h.decode(piece)), Deliver(h, AsPieces(WithTail(rest, tail))))
  {
    var more := WithTail(rest, tail);
    assert WithTail([piece] + rest, tail) == [piece] + more;
    AsPiecesCons(piece, more);
    assert ([Piece(piece)] + AsPieces(more))[1..] == AsPieces(more);
  }

  /** End to end: without network errors the client's events are those of the whole input processed
      at once, however the network cut it. */
  lemma ChunkIndependence(h: Handler, inner: seq<Item>)
    requires NewlinesSurvive(h.decode) && FaultFree(inner)
    ensures Deliver(h, Output([], inner)) == Whole(h, Bytes(inner))
  {
    var s := Bytes(inner);
    assert [] + s == s;
    SplitterRefinesPieces([], inner);
    PiecesAreCompletePiecesAndRest(s);
    CompletePiecesPartition(s);
    CompletePiecesAreComplete(s);
    DeliverPieces(h, CompletePieces(s), Rest(s));
  }

  /** Hence two runs that carry the same bytes deliver the same events. */
  lemma SameBytesSameEvents(h: Handler, inner: seq<Item>, inner': seq<Item>)
    requires NewlinesSurvive(h.decode) && FaultFree(inner) && FaultFree(inner') && Bytes(inner) == Bytes(inner')
    ensures Deliver(h, Output([], inner)) == Deliver(h, Output([], inner'))
  {
    ChunkIndependence(h, inner);
    ChunkIndependence(h, inner');
  }

  /** After a network error the client has the events of the complete pieces received before it. */
  lemma FaultTruncates(h: Handler, inner: seq<Item>, rest: seq<Item>)
    requires NewlinesSurvive(h.decode) && FaultFree(inner)
    ensures Deliver(h, Output([], inner + [Fault] + rest)) == Whole(h, Flatten(CompletePieces(Bytes(inner))))
  {
    var s := Bytes(inner);
    assert [] + s == s;
    SplitterBeforeFault([], inner, rest);
    CompletePiecesAreComplete(s);
    DeliverPieces(h, CompletePieces(s), []);
    assert Flatten(CompletePieces(s)) + [] == Flatten(CompletePieces(s));
    ErrorEnds(h, AsPieces(CompletePieces(s)), Output(Rest(s), rest));
  }

  lemma {:induction false} ErrorEnds(h: Handler, outs: seq<Out>, more: seq<Out>)
    ensures Deliver(h, outs + ([Error] + more)) == Deliver(h, outs)
  {
    var all := outs + ([Error] + more);
    if outs != [] && outs[0] != Error {
      assert all[0] == outs[0] && all[1..] == outs[1..] + ([Error] + more);
      ErrorEnds(h, outs[1..], more);
    }
  }

  // ---- what the client is sent ----------------------------------------------------------------

  /** The number of lines before the provider's end marker. */
  function UntilDone(lines: seq<string>): (n: nat)
    ensures n <= |lines| && (n < |lines| ==> Content(lines[n]) == "[DONE]")
    ensures forall k :: 0 <= k < n ==> Content(lines[k]) != "[DONE]"
  {
    if lines == [] || Content(lines[0]) == "[DONE]" then 0 else 1 + UntilDone(lines[1..])
  }

  function Sending<J>(c: Codec<J>, lines: seq<string>): nat -> bool {
    (k: nat) => k < |lines| && Translated(c, lines[k]).Some?
  }

  /** `events` are the translations of those of the first `n` lines that have one, in order. */
  ghost predicate SentFor<J>(c: Codec<J>, lines: seq<string>, n: nat, events: seq<Event>)
    requires n <= |lines|
  {
    var idx := Where(n, Sending(c, lines));
    && |events| == |idx|
    && forall j :: 0 <= j < |idx| ==>
         && idx[j] < n && Translated(c, lines[idx[j]]).Some?
         && events[j] == Data(Translated(c, lines[idx[j]]).value)
  }

  lemma {:induction false} LinesSend<J>(c: Codec<J>, lines: seq<string>, n: nat)
    requires n <= |lines| && forall k :: 0 <= k < n ==> Content(lines[k]) != "[DONE]"
    ensures SentFor(c, lines, n, Events(HandlerOf(c), lines[..n])) && !Finishes(HandlerOf(c), lines[..n])
  {
    if n == 0 {
    } else {
      var h, last := HandlerOf(c), lines[n - 1];
      var before := lines[..n - 1];
      LinesSend(c, lines, n - 1);
      LineSends(c, last);
      EventsConcat(h, before, [last]);
      SentOneMore(c, lines, n, Events(h, before));
      assert lines[..n] == before + [last];
    }
  }

  lemma LineSends<J>(c: Codec<J>, line: string)
    requires Content(line) != "[DONE]"
    ensures Events(HandlerOf(c), [line]) == SentForLine(c, line) && !Finishes(HandlerOf(c), [line])
  {
    LineSendsExactly(c, line);
    OneLine(HandlerOf(c), line);
    assert HandlerOf(c).act(line) == Classify(c, line);
  }

  function SentForLine<J>(c: Codec<J>, line: string): seq<Event> {
    if Translated(c, line).Some? then [Data(Translated(c, line).value)] else []
  }

  lemma SentOneMore<J>(c: Codec<J>, lines: seq<string>, n: nat, events: seq<Event>)
    requires 0 < n <= |lines| && SentFor(c, lines, n - 1, events)
    ensures SentFor(c, lines, n, events + SentForLine(c, lines[n - 1]))
  {
  }

  lemma OneLine(h: Handler, line: string)
    ensures Events(h, [line]) == match h.act(line)
      case Skip => []
      case Finish => [DoneMarker]
      case Emit(json) => [Data(json)]
    ensures Finishes(h, [line]) <==> h.act(line) == Finish
  {
    assert [line][1..] == [];
  }

  /** Processed as a whole, the input is answered by the translations of the lines before the provider's end
      marker, in order, and one end marker. */
  lemma WholeSends<J>(c: Codec<J>, s: seq<byte>)
    ensures var lines, events := Lines(c.decode(s)), Whole(HandlerOf(c), s);
            && events != [] && events[|events| - 1] == DoneMarker
            && SentFor(c, lines, UntilDone(lines), events[..|events| - 1])
  {
    var lines := Lines(c.decode(s));
    var n := UntilDone(lines);
    var sent := Events(HandlerOf(c), lines[..n]);
    LinesSend(c, lines, n);
    DoneEnds(c, lines, n);
    assert Whole(HandlerOf(c), s) == sent + [DoneMarker];
    assert (sent + [DoneMarker])[..|sent|] == sent;
  }

  /** Nothing counts from the end marker on. */
  lemma DoneEnds<J>(c: Codec<J>, lines: seq<string>, n: nat)
    requires n <= |lines| && (n < |lines| ==> Content(lines[n]) == "[DONE]")
    requires !Finishes(HandlerOf(c), lines[..n])
    ensures Then(HandlerOf(c), lines, [DoneMarker]) == Events(HandlerOf(c), lines[..n]) + [DoneMarker]
  {
    var h := HandlerOf(c);
    if n == |lines| {
      assert lines[..n] == lines;
    } else {
      assert lines == lines[..n] + lines[n..];
      EventsConcat(h, lines[..n], lines[n..]);
      LineSendsExactly(c, lines[n]);
      assert lines[n..][0] == lines[n] && h.act(lines[n]) == Finish;
      assert Events(h, lines) + [] == Events(h, lines);
    }
  }

  /** End to end: without network errors that is what the client is sent, however the network cut the bytes. */
  lemma ClientIsSent<J>(c: Codec<J>, inner: seq<Item>)
    requires NewlinesSurvive(c.decode) && FaultFree(inner)
    ensures var lines, events := Lines(c.decode(Bytes(inner))), Deliver(HandlerOf(c), Output([], inner));
            && events != [] && events[|events| - 1] == DoneMarker
            && SentFor(c, lines, UntilDone(lines), events[..|events| - 1])
  {
    ChunkIndependence(HandlerOf(c), inner);
    WholeSends(c, Bytes(inner));
  }
}

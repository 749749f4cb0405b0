/** Cuts a byte stream that arrives in arbitrary chunks into SSE events. */
module SseSplitter {
  import opened Common

  type byte = x: int | 0 <= x < 256

  const LF: byte := 10

  /** What the network delivers to one poll. */
  datatype Item = Chunk(bytes: seq<byte>) | Fault | Pending

  /** What the consumer of the splitter gets from one poll. */
  datatype Poll = Ready(bytes: seq<byte>) | Failed | NotYet | Finished

  predicate BreakAt(s: seq<byte>, i: int) {
    0 <= i < |s| - 1 && s[i] == LF && s[i + 1] == LF
  }

  /** The position of the first double newline. */
  function FindDoubleNewline(buf: seq<byte>): (pos: Option<nat>)
    ensures pos.Some? ==> BreakAt(buf, pos.value) && forall i :: 0 <= i < pos.value ==> !BreakAt(buf, i)
    ensures pos.None? ==> forall i :: !BreakAt(buf, i)
  {
    FindFrom(buf, 0)
  }

  function FindFrom(buf: seq<byte>, from: nat): (pos: Option<nat>)
    ensures pos.Some? ==>
      from <= pos.value && BreakAt(buf, pos.value) && forall i :: from <= i < pos.value ==> !BreakAt(buf, i)
    ensures pos.None? ==> forall i :: from <= i ==> !BreakAt(buf, i)
    decreases |buf| - from
  {
    if from + 1 >= |buf| then None
    else if BreakAt(buf, from) then Some(from)
    else FindFrom(buf, from + 1)
  }

  // ---- the reference: one split of the whole input ------------------------------------

  /** The leftmost-greedy split at double newlines, the unfinished rest last. */
  function Pieces(s: seq<byte>): seq<seq<byte>>
    decreases |s|
  {
    match FindDoubleNewline(s)
    case Some(pos) => [s[..pos + 2]] + Pieces(s[pos + 2..])
    case None => if s == [] then [] else [s]
  }

  /** Only the pieces that end in a double newline. */
  function CompletePieces(s: seq<byte>): seq<seq<byte>>
    decreases |s|
  {
    match FindDoubleNewline(s)
    case Some(pos) => [s[..pos + 2]] + CompletePieces(s[pos + 2..])
    case None => []
  }

  /** What is left of the input after its complete pieces. */
  function Rest(s: seq<byte>): (rest: seq<byte>)
    ensures forall i :: !BreakAt(rest, i)
    decreases |s|
  {
    match FindDoubleNewline(s)
    case Some(pos) => Rest(s[pos + 2..])
    case None => s
  }

  function Flatten(pieces: seq<seq<byte>>): seq<byte> {
    if pieces == [] then [] else pieces[0] + Flatten(pieces[1..])
  }

  /** A piece that ends in its only double newline. */
  ghost predicate Complete(piece: seq<byte>) {
    BreakAt(piece, |piece| - 2) && forall i :: BreakAt(piece, i) ==> i == |piece| - 2
  }

  /** A double newline found in the buffer stays the first one whatever arrives later. */
  lemma FindStable(first: seq<byte>, rest: seq<byte>)
    requires Complete(first)
    ensures FindDoubleNewline(first + rest) == Some(|first| - 2)
    ensures (first + rest)[..|first|] == first && (first + rest)[|first|..] == rest
  {
    var s, pos := first + rest, |first| - 2;
    assert BreakAt(s, pos);
    forall i | 0 <= i < pos ensures !BreakAt(s, i) {
      assert !BreakAt(first, i);
    }
  }

  /** What is cut off at the first double newline is a complete piece. */
  lemma CutIsComplete(s: seq<byte>, pos: nat)
    requires FindDoubleNewline(s) == Some(pos)
    ensures Complete(s[..pos + 2]) && s == s[..pos + 2] + s[pos + 2..]
  {
    var first := s[..pos + 2];
    assert BreakAt(first, |first| - 2);
    forall i | BreakAt(first, i) ensures i == |first| - 2 {
      assert BreakAt(s, i);
    }
  }

  lemma {:induction false} CompletePiecesAreComplete(s: seq<byte>)
    ensures forall p :: p in CompletePieces(s) ==> Complete(p)
    decreases |s|
  {
    match FindDoubleNewline(s)
    case None =>
    case Some(pos) =>
      CompletePiecesAreComplete(s[pos + 2..]);
      CutIsComplete(s, pos);
  }

  lemma FlattenCons(first: seq<byte>, pieces: seq<seq<byte>>)
    ensures Flatten([first] + pieces) == first + Flatten(pieces)
  {
    assert ([first] + pieces)[1..] == pieces;
  }

  /** Some pieces and an unfinished one, if there is any. */
  function WithTail(pieces: seq<seq<byte>>, tail: seq<byte>): seq<seq<byte>> {
    if tail == [] then pieces else pieces + [tail]
  }

  lemma {:induction false} PiecesAreCompletePiecesAndRest(s: seq<byte>)
    ensures Pieces(s) == WithTail(CompletePieces(s), Rest(s))
    decreases |s|
  {
    match FindDoubleNewline(s)
    case None =>
    case Some(pos) => PiecesAreCompletePiecesAndRest(s[pos + 2..]);
  }

  lemma {:induction false} CompletePiecesPartition(s: seq<byte>)
    ensures Flatten(CompletePieces(s)) + Rest(s) == s
    decreases |s|
  {
    match FindDoubleNewline(s)
    case None =>
    case Some(pos) =>
      var first, rest := s[..pos + 2], s[pos + 2..];
      calc {
        Flatten(CompletePieces(s)) + Rest(s);
        { FlattenCons(first, CompletePieces(rest)); }
        (first + Flatten(CompletePieces(rest))) + Rest(rest);
        first + (Flatten(CompletePieces(rest)) + Rest(rest));
        { CompletePiecesPartition(rest); }
        first + rest;
        s;
      }
  }

  lemma {:induction false} FlattenAppend(a: seq<seq<byte>>, b: seq<seq<byte>>)
    ensures Flatten(a + b) == Flatten(a) + Flatten(b)
  {
    if a == [] {
      assert a + b == b;
    } else {
      assert (a + b)[1..] == a[1..] + b;
      FlattenAppend(a[1..], b);
    }
  }

  /** Nothing is lost, added or reordered. */
  lemma PiecesPartition(s: seq<byte>)
    ensures Flatten(Pieces(s)) == s
  {
    CompletePiecesPartition(s);
    PiecesAreCompletePiecesAndRest(s);
    FlattenAppend(CompletePieces(s), [Rest(s)]);
    assert [Rest(s)][1..] == [];
  }

  /** The split is the only one whose pieces, but for an unfinished last one, end in their only break. */
  lemma {:induction false} PiecesUnique(pieces: seq<seq<byte>>)
    requires forall k :: 0 <= k < |pieces| - 1 ==> Complete(pieces[k])
    requires pieces != [] ==>
      var last := pieces[|pieces| - 1];
      Complete(last) || (last != [] && forall i :: !BreakAt(last, i))
    ensures Pieces(Flatten(pieces)) == pieces
  {
    if pieces == [] {
    } else {
      var first, rest := pieces[0], pieces[1..];
      PiecesUnique(rest);
      if Complete(first) {
        FindStable(first, Flatten(rest));
      } else {
        assert rest == [];
        assert first + Flatten(rest) == first;
      }
    }
  }

  // ---- the buffering splitter ---------------------------------------------------------------

  datatype Out = Piece(bytes: seq<byte>) | Error

  /** Everything the splitter will still yield. */
  function Output(buffer: seq<byte>, inner: seq<Item>): seq<Out>
    decreases |inner|, |buffer|
  {
    match FindDoubleNewline(buffer)
    case Some(pos) => [Piece(buffer[..pos + 2])] + Output(buffer[pos + 2..], inner)
    case None =>
      if inner == [] then (if buffer == [] then [] else [Piece(buffer)])
      else match inner[0]
        case Chunk(bytes) => Output(buffer + bytes, inner[1..])
        case Fault => [Error] + Output(buffer, inner[1..])
        case Pending => Output(buffer, inner[1..])
  }

  function Bytes(inner: seq<Item>): seq<byte> {
    if inner == [] then [] else
      (if inner[0].Chunk? then inner[0].bytes else []) + Bytes(inner[1..])
  }

  class SseChunkSplitter {
    var inner: seq<Item>
    var buffer: seq<byte>

    constructor (inner: seq<Item>)
      ensures this.inner == inner && buffer == []
    {
      this.inner := inner;
      buffer := [];
    }

    /** Yields the next complete event, polling the network only when the buffer holds none. */
    method PollNext() returns (poll: Poll)
      modifies this
      ensures poll.Ready? ==> Output(old(buffer), old(inner)) == [Piece(poll.bytes)] + Output(buffer, inner)
      ensures poll.Failed? ==> Output(old(buffer), old(inner)) == [Error] + Output(buffer, inner)
      ensures poll.NotYet? ==> Output(old(buffer), old(inner)) == Output(buffer, inner)
      ensures poll.Finished? ==> Output(old(buffer), old(inner)) == [] && Output(buffer, inner) == []
      ensures !poll.Finished? ==>
        |inner| + |buffer| + |Bytes(inner)| < |old(inner)| + |old(buffer)| + |Bytes(old(inner))|
    {
      while true
        invariant Output(old(buffer), old(inner)) == Output(buffer, inner)
        invariant |inner| + |buffer| + |Bytes(inner)| <= |old(inner)| + |old(buffer)| + |Bytes(old(inner))|
        decreases |inner|
      {
        var found := FindDoubleNewline(buffer);
        if found.Some? {
          var event := buffer[..found.value + 2];
          buffer := buffer[found.value + 2..];
          return Ready(event);
        }
        if inner == [] {
          if buffer != [] {
            var remaining := buffer;
            buffer := [];
            return Ready(remaining);
          }
          return Finished;
        }
        var item := inner[0];
        inner := inner[1..];
        match item
        case Chunk(bytes) =>
          buffer := buffer + bytes;
        case Fault =>
          return Failed;
        case Pending =>
          return NotYet;
      }
    }
  }

  function AsPieces(pieces: seq<seq<byte>>): seq<Out> {
    if pieces == [] then [] else [Piece(pieces[0])] + AsPieces(pieces[1..])
  }

  lemma AsPiecesCons(first: seq<byte>, pieces: seq<seq<byte>>)
    ensures AsPieces([first] + pieces) == [Piece(first)] + AsPieces(pieces)
  {
    assert ([first] + pieces)[1..] == pieces;
  }

  predicate FaultFree(inner: seq<Item>) {
    forall i :: 0 <= i < |inner| ==> !inner[i].Fault?
  }

  /** A complete piece at the front of the input is the first piece. */
  lemma FirstPiece(first: seq<byte>, rest: seq<byte>)
    requires Complete(first)
    ensures AsPieces(Pieces(first + rest)) == [Piece(first)] + AsPieces(Pieces(rest))
    ensures AsPieces(CompletePieces(first + rest)) == [Piece(first)] + AsPieces(CompletePieces(rest))
    ensures Rest(first + rest) == Rest(rest)
  {
    FindStable(first, rest);
    AsPiecesCons(first, Pieces(rest));
    AsPiecesCons(first, CompletePieces(rest));
  }

  /** Without network errors the splitter yields the one split of the whole input, however
      the input is cut into chunks and however often the network was not ready. */
  lemma {:induction false} SplitterRefinesPieces(buffer: seq<byte>, inner: seq<Item>)
    requires FaultFree(inner)
    ensures Output(buffer, inner) == AsPieces(Pieces(buffer + Bytes(inner)))
    decreases |inner|, |buffer|
  {
    var s := buffer + Bytes(inner);
    match FindDoubleNewline(buffer)
    case Some(pos) =>
      var first, rest := buffer[..pos + 2], buffer[pos + 2..];
      CutIsComplete(buffer, pos);
      SplitterRefinesPieces(rest, inner);
      assert s == first + (rest + Bytes(inner));
      FirstPiece(first, rest + Bytes(inner));
    case None =>
      if inner == [] {
        assert s == buffer;
      } else {
        var more := if inner[0].Chunk? then inner[0].bytes else [];
        SplitterRefinesPieces(buffer + more, inner[1..]);
        assert s == (buffer + more) + Bytes(inner[1..]);
        assert more == [] ==> buffer + more == buffer;
      }
  }

  /** On a network error exactly the complete pieces received so far precede the error. */
  lemma {:induction false} SplitterBeforeFault(buffer: seq<byte>, inner: seq<Item>, rest: seq<Item>)
    requires FaultFree(inner)
    ensures Output(buffer, inner + [Fault] + rest) == UpToFault(buffer + Bytes(inner), rest)
    decreases |inner|, |buffer|
  {
    var s := buffer + Bytes(inner);
    var all := inner + [Fault] + rest;
    match FindDoubleNewline(buffer)
    case Some(pos) =>
      var first, tail := buffer[..pos + 2], buffer[pos + 2..];
      CutIsComplete(buffer, pos);
      SplitterBeforeFault(tail, inner, rest);
      assert s == first + (tail + Bytes(inner));
      FirstPieceUpToFault(first, tail + Bytes(inner), rest);
    case None =>
      if inner == [] {
        assert s == buffer;
        assert all[0] == Fault && all[1..] == rest;
      } else {
        assert all[0] == inner[0] && all[1..] == inner[1..] + [Fault] + rest;
        var more := if inner[0].Chunk? then inner[0].bytes else [];
        SplitterBeforeFault(buffer + more, inner[1..], rest);
        assert s == (buffer + more) + Bytes(inner[1..]);
        assert more == [] ==> buffer + more == buffer;
      }
  }

  /** The complete pieces of `s`, an error, and what the splitter makes of its rest. */
  function UpToFault(s: seq<byte>, rest: seq<Item>): seq<Out> {
    AsPieces(CompletePieces(s)) + ([Error] + Output(Rest(s), rest))
  }

  lemma FirstPieceUpToFault(first: seq<byte>, s: seq<byte>, rest: seq<Item>)
    requires Complete(first)
    ensures UpToFault(first + s, rest) == [Piece(first)] + UpToFault(s, rest)
  {
    FirstPiece(first, s);
  }
}

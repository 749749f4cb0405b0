/** The string operations the gateway takes from Rust's standard library. */
module Text {
  import opened Common

  /** Unicode `White_Space`. */
  predicate IsWhitespace(c: char) {
    || '\t' <= c <= '\r'
    || c == ' '
    || c == '\U{85}' || c == '\U{A0}' || c == '\U{1680}'
    || '\U{2000}' <= c <= '\U{200A}'
    || c == '\U{2028}' || c == '\U{2029}' || c == '\U{202F}' || c == '\U{205F}' || c == '\U{3000}'
  }

  function TrimStart(s: string): string {
    if s != [] && IsWhitespace(s[0]) then TrimStart(s[1..]) else s
  }

  function TrimEnd(s: string): string {
    if s != [] && IsWhitespace(s[|s| - 1]) then TrimEnd(s[..|s| - 1]) else s
  }

  function Trim(s: string): string {
    TrimEnd(TrimStart(s))
  }

  /** Neither starts nor ends with whitespace. */
  predicate Trimmed(s: string) {
    s == [] || (!IsWhitespace(s[0]) && !IsWhitespace(s[|s| - 1]))
  }

  lemma {:induction false} TrimEndTrims(s: string)
    requires s == [] || !IsWhitespace(s[0])
    ensures Trimmed(TrimEnd(s)) && TrimEnd(s) <= s
    decreases |s|
  {
    if s != [] && IsWhitespace(s[|s| - 1]) { TrimEndTrims(s[..|s| - 1]); }
  }

  lemma {:induction false} TrimStartTrims(s: string)
    ensures TrimStart(s) == [] || !IsWhitespace(TrimStart(s)[0])
  {
    if s != [] && IsWhitespace(s[0]) { TrimStartTrims(s[1..]); }
  }

  /** Trimming trims, and leaves what is trimmed already. */
  lemma TrimIsTrimmed(s: string)
    ensures Trimmed(Trim(s))
    ensures Trim(s) == s <==> Trimmed(s)
  {
    TrimStartTrims(s);
    TrimEndTrims(TrimStart(s));
  }

  predicate Blank(s: string) {
    forall i :: 0 <= i < |s| ==> IsWhitespace(s[i])
  }

  lemma {:induction false} TrimStartDrops(s: string)
    ensures |TrimStart(s)| <= |s|
    ensures var k := |s| - |TrimStart(s)|; Blank(s[..k]) && TrimStart(s) == s[k..]
  {
    if s != [] && IsWhitespace(s[0]) {
      TrimStartDrops(s[1..]);
      var k := |s[1..]| - |TrimStart(s[1..])|;
      assert s[..k + 1] == [s[0]] + s[1..][..k] && s[1..][k..] == s[k + 1..];
    } else {
      assert s[..0] == [] && s[0..] == s;
    }
  }

  lemma {:induction false} TrimEndDrops(s: string)
    ensures TrimEnd(s) <= s && Blank(s[|TrimEnd(s)|..])
    decreases |s|
  {
    if s != [] && IsWhitespace(s[|s| - 1]) {
      var init := s[..|s| - 1];
      TrimEndDrops(init);
      assert s[|TrimEnd(init)|..] == init[|TrimEnd(init)|..] + [s[|s| - 1]];
    }
  }

  /** Trimming drops whitespace and nothing else. */
  lemma TrimDropsWhitespace(s: string) returns (before: string, after: string)
    ensures s == before + Trim(s) + after && Blank(before) && Blank(after)
  {
    TrimStartDrops(s);
    TrimEndDrops(TrimStart(s));
    var k := |s| - |TrimStart(s)|;
    before, after := s[..k], TrimStart(s)[|Trim(s)|..];
    assert TrimStart(s) == Trim(s) + after;
  }

  /** Whitespace in front of a text makes no difference to trimming it. */
  lemma TrimAfterWhitespace(c: char, s: string)
    requires IsWhitespace(c)
    ensures Trim([c] + s) == Trim(s)
  {
    assert ([c] + s)[1..] == s;
  }

  lemma BlankTrimsToNothing(s: string)
    ensures Trim(s) == [] <==> Blank(s)
  {
    var before, after := TrimDropsWhitespace(s);
    TrimIsTrimmed(s);
    var t := Trim(s);
    if t != [] { assert s[|before|] == t[0]; }
  }

  /** The position of the first occurrence of `c`, or the length. */
  function IndexOf(s: string, c: char): (i: nat)
    ensures i <= |s|
  {
    IndexFrom(s, c, 0)
  }

  function IndexFrom(s: string, c: char, from: nat): (i: nat)
    requires from <= |s|
    ensures from <= i <= |s|
    decreases |s| - from
  {
    if from == |s| || s[from] == c then from else IndexFrom(s, c, from + 1)
  }

  lemma {:induction false} IndexFromIsFirst(s: string, c: char, from: nat)
    requires from <= |s|
    ensures var i := IndexFrom(s, c, from);
            (forall k :: from <= k < i ==> s[k] != c) && (i < |s| ==> s[i] == c)
    decreases |s| - from
  {
    if from == |s| || s[from] == c {
    } else {
      IndexFromIsFirst(s, c, from + 1);
    }
  }

  lemma IndexOfIsFirst(s: string, c: char)
    ensures var i := IndexOf(s, c);
            (forall k :: 0 <= k < i ==> s[k] != c) && (i < |s| ==> s[i] == c)
  {
    IndexFromIsFirst(s, c, 0);
  }

  function StripCr(s: string): string {
    if s != [] && s[|s| - 1] == '\r' then s[..|s| - 1] else s
  }

  /** The lines of a text: separated by newlines, a carriage return before one dropped,
      nothing after the last one. */
  function Lines(s: string): seq<string> {
    if s == [] then [] else
      var i := IndexOf(s, '\n');
      if i == |s| then [s] else [StripCr(s[..i])] + Lines(s[i + 1..])
  }

  lemma LinesUnfold(s: string)
    requires IndexOf(s, '\n') < |s|
    ensures var i := IndexOf(s, '\n');
            Lines(s) == [StripCr(s[..i])] + Lines(s[i + 1..])
  {
  }

  ghost predicate SplitsAt(s: string, k: nat)
    requires k <= |s|
  {
    Lines(s) == Lines(s[..k]) + Lines(s[k..])
  }

  /** A text cut after a newline has the lines of both parts. */
  lemma {:induction false} LinesSplit(s: string, k: nat)
    requires 0 < k <= |s| && s[k - 1] == '\n'
    ensures SplitsAt(s, k)
    decreases |s|
  {
    var i := IndexOf(s, '\n');
    FirstLine(s, k);
    if i + 1 == k {
      SplitAfterFirst(s, k);
    } else {
      LinesSplit(s[i + 1..], k - i - 1);
      SplitLater(s, k);
    }
  }

  lemma SplitAfterFirst(s: string, k: nat)
    requires 0 < k <= |s| && s[k - 1] == '\n' && IndexOf(s, '\n') + 1 == k
    ensures SplitsAt(s, k)
  {
    LinesUnfold(s);
    LinesOfHead(s, k);
    assert s[k..k] == [] && [StripCr(s[..k - 1])] + Lines([]) == [StripCr(s[..k - 1])];
  }

  lemma SplitLater(s: string, k: nat)
    requires 0 < k <= |s| && s[k - 1] == '\n' && IndexOf(s, '\n') + 1 < k
    requires var i := IndexOf(s, '\n'); SplitsAt(s[i + 1..], k - (i + 1))
    ensures SplitsAt(s, k)
  {
    var i := IndexOf(s, '\n');
    RestSplits(s, i + 1, k);
    LinesOfHead(s, k);
    LinesUnfold(s);
    JoinAfter(StripCr(s[..i]), Lines(s[i + 1..k]), Lines(s[k..]), Lines(s[i + 1..]), Lines(s[..k]), Lines(s));
  }

  lemma JoinAfter(first: string, head: seq<string>, tail: seq<string>, rest: seq<string>,
                  before: seq<string>, all: seq<string>)
    requires rest == head + tail && before == [first] + head && all == [first] + rest
    ensures all == before + tail
  {
  }

  lemma RestSplits(s: string, j: nat, k: nat)
    requires j <= k <= |s| && SplitsAt(s[j..], k - j)
    ensures Lines(s[j..]) == Lines(s[j..k]) + Lines(s[k..])
  {
    SlicesOfRest(s, j, k);
  }

  lemma SlicesOfRest(s: string, j: nat, k: nat)
    requires j <= k <= |s|
    ensures s[j..][..k - j] == s[j..k] && s[j..][k - j..] == s[k..]
  {
  }

  lemma LinesOfHead(s: string, k: nat)
    requires 0 < k <= |s| && s[k - 1] == '\n'
    ensures var i := IndexOf(s, '\n');
            i < k && Lines(s[..k]) == [StripCr(s[..i])] + Lines(s[i + 1..k])
  {
    FirstLine(s, k);
    LinesUnfold(s[..k]);
    assert s[..k][IndexOf(s, '\n') + 1..] == s[IndexOf(s, '\n') + 1..k];
  }

  lemma AppendAssociative<T>(a: seq<T>, b: seq<T>, c: seq<T>)
    ensures a + (b + c) == (a + b) + c
  {
  }

  /** Cutting after a newline does not change the first line. */
  lemma FirstLine(s: string, k: nat)
    requires 0 < k <= |s| && s[k - 1] == '\n'
    ensures IndexOf(s, '\n') == IndexOf(s[..k], '\n') < k
    ensures s[..k][..IndexOf(s, '\n')] == s[..IndexOf(s, '\n')]
  {
    var i, j := IndexOf(s, '\n'), IndexOf(s[..k], '\n');
    IndexOfIsFirst(s, '\n');
    IndexOfIsFirst(s[..k], '\n');
    assert s[..k][k - 1] == '\n';
    assert s[j] == '\n' && i <= j;
    assert s[..k][i] == '\n';
  }

  function Concat(pieces: seq<string>): string {
    if pieces == [] then [] else pieces[0] + Concat(pieces[1..])
  }

  /** The line that a piece holds: without its newline and one carriage return before that. */
  predicate LineOf(line: string, piece: string) {
    && '\n' !in line && piece != []
    && (piece == line + "\r\n" || (piece == line + "\n" && (line == [] || line[|line| - 1] != '\r')) || piece == line)
  }

  /** Each piece holds the line at its place, and only the last may lack its newline. */
  ghost predicate HoldLines(lines: seq<string>, pieces: seq<string>) {
    && |lines| == |pieces|
    && (forall k :: 0 <= k < |pieces| ==> LineOf(lines[k], pieces[k]))
    && forall k :: 0 <= k < |pieces| - 1 ==> pieces[k] != lines[k]
  }

  /** The text is the pieces, one after the other. */
  ghost predicate FallsInto(s: string, lines: seq<string>, pieces: seq<string>) {
    Concat(pieces) == s && HoldLines(lines, pieces)
  }

  lemma FallsIntoCons(line: string, piece: string, rest: string, lines: seq<string>, pieces: seq<string>)
    requires LineOf(line, piece) && piece != line && FallsInto(rest, lines, pieces)
    ensures FallsInto(piece + rest, [line] + lines, [piece] + pieces)
  {
    assert ([piece] + pieces)[1..] == pieces;
  }

  lemma OneLineText(s: string)
    requires s != [] && IndexOf(s, '\n') == |s|
    ensures FallsInto(s, Lines(s), [s])
  {
    IndexOfIsFirst(s, '\n');
    assert [s][1..] == [] && s + [] == s;
  }

  /** No line is lost, added or reordered: the text falls into pieces that hold one line each. */
  lemma {:induction false} LinesComplete(s: string) returns (pieces: seq<string>)
    ensures FallsInto(s, Lines(s), pieces)
    decreases |s|
  {
    var i := IndexOf(s, '\n');
    if s == [] {
      pieces := [];
    } else if i == |s| {
      pieces := [s];
      OneLineText(s);
    } else {
      var piece, rest := s[..i + 1], s[i + 1..];
      var more := LinesComplete(rest);
      FirstPiece(s);
      FallsIntoCons(StripCr(s[..i]), piece, rest, Lines(rest), more);
      pieces := [piece] + more;
      LinesUnfold(s);
      assert s == piece + rest;
    }
  }

  lemma FirstPiece(s: string)
    requires IndexOf(s, '\n') < |s|
    ensures var i := IndexOf(s, '\n');
            LineOf(StripCr(s[..i]), s[..i + 1]) && s[..i + 1] != StripCr(s[..i])
  {
    var i := IndexOf(s, '\n');
    IndexOfIsFirst(s, '\n');
    assert s[..i + 1] == s[..i] + "\n";
    FirstLineOf(s[..i], s[..i + 1]);
  }

  lemma FirstLineOf(s: string, piece: string)
    requires '\n' !in s && piece == s + "\n"
    ensures LineOf(StripCr(s), piece) && piece != StripCr(s)
  {
    var line := StripCr(s);
    if s != [] && s[|s| - 1] == '\r' {
      assert s == line + "\r";
      assert piece == line + "\r\n";
    }
  }
}

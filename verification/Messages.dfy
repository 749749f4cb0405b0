/** Messages, their approximate token counts, and selections from a history. */
module Messages {
  import opened Common
  import opened Text

  datatype Message = Message(role: string, content: string)

  /** What a compaction reports. */
  datatype CompactionResult = CompactionResult(
    originalTokens: nat,
    finalTokens: nat,
    messagesPruned: nat,
    compressionRatio: real,
    wasCompressed: bool,
    messages: seq<Message>)

  /** Bytes of a character in UTF-8. */
  function Utf8Width(c: char): nat {
    if c < '\U{80}' then 1 else if c < '\U{800}' then 2 else if c < '\U{10000}' then 3 else 4
  }

  function Utf8Len(s: string): nat {
    if s == [] then 0 else Utf8Width(s[0]) + Utf8Len(s[1..])
  }

  /** Four bytes to a token, rounded up. */
  function CountTokens(text: string): nat {
    (Utf8Len(text) + 3) / 4
  }

  function Tokens(m: Message): nat {
    CountTokens(m.role) + CountTokens(m.content)
  }

  function TotalTokens(ms: seq<Message>): nat {
    if ms == [] then 0 else TotalTokens(ms[..|ms| - 1]) + Tokens(ms[|ms| - 1])
  }

  /** Final over original tokens; one for a history without tokens. */
  function Ratio(original: nat, final: nat): real {
    if original > 0 then final as real / original as real else 1.0
  }

  lemma FactorWithinOne(q: real, a: real, b: real)
    requires 0.0 <= a <= b && 0.0 < b && q * b == a
    ensures 0.0 <= q <= 1.0 && (a == b ==> q == 1.0)
  {
    assert q < 0.0 ==> q * b < 0.0;
    assert q > 1.0 ==> (q - 1.0) * b > 0.0;
    assert q < 1.0 ==> (1.0 - q) * b > 0.0;
  }

  lemma RatioWithinOne(original: nat, final: nat)
    requires final <= original
    ensures 0.0 <= Ratio(original, final) <= 1.0
  {
    if original > 0 { FactorWithinOne(Ratio(original, final), final as real, original as real); }
  }

  lemma RatioOfUnchanged(original: nat)
    ensures Ratio(original, original) == 1.0
  {
    if original > 0 { FactorWithinOne(Ratio(original, original), original as real, original as real); }
  }

  // ---- sample texts -------------------------------------------------------------------------

  function Letters(n: nat): string {
    if n == 0 then [] else ['a'] + Letters(n - 1)
  }

  lemma {:induction false} LettersLength(n: nat)
    ensures Utf8Len(Letters(n)) == n
  {
    if n == 0 {
    } else {
      assert Letters(n)[1..] == Letters(n - 1);
      LettersLength(n - 1);
    }
  }

  lemma LettersTokens(n: nat)
    ensures CountTokens(Letters(4 * n)) == n
  {
    LettersLength(4 * n);
  }

  /** No text counts more tokens than it has characters. */
  lemma {:induction false} TokensAtMostLength(text: string)
    ensures Utf8Len(text) <= 4 * |text| && CountTokens(text) <= |text|
  {
    if text == [] {
    } else {
      TokensAtMostLength(text[1..]);
    }
  }

  /** Four bytes to a token, each text rounded up on its own. */
  lemma TokensRoundUp(m: Message)
    ensures 4 * CountTokens(m.content) - 4 < Utf8Len(m.content) <= 4 * CountTokens(m.content)
    ensures var bytes := Utf8Len(m.role) + Utf8Len(m.content);
            bytes <= 4 * Tokens(m) <= bytes + 6
  {
  }

  /** A text takes one byte per character exactly when it is ASCII, and never more than four. */
  lemma {:induction false} BytesPerCharacter(text: string)
    ensures |text| <= Utf8Len(text) <= 4 * |text|
    ensures Utf8Len(text) == |text| <==> forall i :: 0 <= i < |text| ==> text[i] < '\U{80}'
  {
    if text == [] {
    } else {
      BytesPerCharacter(text[1..]);
      assert text == [text[0]] + text[1..];
    }
  }

  lemma TokensBetween(m: Message)
    ensures CountTokens(m.content) <= Tokens(m) <= |m.role| + |m.content|
  {
    TokensAtMostLength(m.role);
    TokensAtMostLength(m.content);
  }

  // ---- selections ------------------------------------------------------------------------

  function Pick<T>(xs: seq<T>, idx: seq<nat>): (r: seq<T>)
    requires Below(idx, |xs|)
    ensures |r| == |idx| && forall i :: 0 <= i < |idx| ==> r[i] == xs[idx[i]]
  {
    seq(|idx|, i requires 0 <= i < |idx| => xs[idx[i]])
  }

  function PickWhere<T>(xs: seq<T>, keep: nat -> bool): seq<T> {
    WhereSelects(|xs|, keep);
    Pick(xs, Where(|xs|, keep))
  }

  lemma TotalAppend(ms: seq<Message>, m: Message)
    ensures TotalTokens(ms + [m]) == TotalTokens(ms) + Tokens(m)
  {
    assert (ms + [m])[..|ms|] == ms;
  }

  lemma TokensOfOne(m: Message)
    ensures TotalTokens([m]) == Tokens(m)
  {
    assert [m][..0] == [];
  }

  /** The tokens of a selection, summed directly. */
  function TotalWhere(ms: seq<Message>, n: nat, keep: nat -> bool): nat
    requires n <= |ms|
  {
    if n == 0 then 0 else TotalWhere(ms, n - 1, keep) + if keep(n - 1) then Tokens(ms[n - 1]) else 0
  }

  /** The same selection, built by appending. */
  function Chosen<T>(xs: seq<T>, n: nat, keep: nat -> bool): seq<T>
    requires n <= |xs|
  {
    if n == 0 then [] else
      var before := Chosen(xs, n - 1, keep);
      if keep(n - 1) then before + [xs[n - 1]] else before
  }

  lemma {:induction false} ChosenAt<T>(xs: seq<T>, n: nat, keep: nat -> bool)
    requires n <= |xs|
    ensures var idx, chosen := Where(n, keep), Chosen(xs, n, keep);
            |chosen| == |idx| && forall i :: 0 <= i < |idx| ==> idx[i] < n && chosen[i] == xs[idx[i]]
  {
    if n == 0 {
    } else {
      ChosenAt(xs, n - 1, keep);
    }
  }

  lemma ChosenIsPick<T>(xs: seq<T>, n: nat, keep: nat -> bool)
    requires n <= |xs|
    ensures Below(Where(n, keep), |xs|) && Pick(xs, Where(n, keep)) == Chosen(xs, n, keep)
  {
    ChosenAt(xs, n, keep);
  }

  lemma {:induction false} TotalOfChosen(ms: seq<Message>, n: nat, keep: nat -> bool)
    requires n <= |ms|
    ensures TotalTokens(Chosen(ms, n, keep)) == TotalWhere(ms, n, keep)
  {
    if n == 0 {
    } else {
      TotalOfChosen(ms, n - 1, keep);
      TotalAppend(Chosen(ms, n - 1, keep), ms[n - 1]);
    }
  }

  lemma TotalOfPick(ms: seq<Message>, n: nat, keep: nat -> bool)
    requires n <= |ms|
    ensures Below(Where(n, keep), |ms|) && TotalTokens(Pick(ms, Where(n, keep))) == TotalWhere(ms, n, keep)
  {
    ChosenIsPick(ms, n, keep);
    TotalOfChosen(ms, n, keep);
  }

  /** Keeping fewer messages, or shorter ones, never costs more tokens. */
  lemma {:induction false} TotalMonotone(a: seq<Message>, b: seq<Message>, n: nat,
                                         keep: nat -> bool, keep': nat -> bool)
    requires n <= |a| == |b|
    requires forall i: nat :: i < n && keep(i) ==> keep'(i) && Tokens(a[i]) <= Tokens(b[i])
    ensures TotalWhere(a, n, keep) <= TotalWhere(b, n, keep')
  {
    if n == 0 {
    } else {
      TotalMonotone(a, b, n - 1, keep, keep');
    }
  }

  lemma CheaperSelection(a: seq<Message>, b: seq<Message>, keep: nat -> bool, keep': nat -> bool)
    requires |a| == |b|
    requires forall i: nat :: i < |a| && keep(i) ==> keep'(i) && Tokens(a[i]) <= Tokens(b[i])
    ensures TotalTokens(PickWhere(a, keep)) <= TotalTokens(PickWhere(b, keep'))
  {
    TotalMonotone(a, b, |a|, keep, keep');
    TotalOfPick(a, |a|, keep);
    TotalOfPick(b, |b|, keep');
  }

  function Everything(): nat -> bool { i => true }

  lemma {:induction false} WhereEverything(n: nat)
    ensures |Where(n, Everything())| == n
    ensures forall i :: 0 <= i < n ==> Where(n, Everything())[i] == i
  {
    if n == 0 {
    } else {
      WhereEverything(n - 1);
    }
  }

  lemma PickEverything<T>(xs: seq<T>)
    ensures PickWhere(xs, Everything()) == xs
  {
    WhereEverything(|xs|);
  }

  /** A selection of messages costs at most what all of them cost. */
  lemma PickCostsLess(ms: seq<Message>, keep: nat -> bool)
    ensures TotalTokens(PickWhere(ms, keep)) <= TotalTokens(ms)
  {
    CheaperSelection(ms, ms, keep, Everything());
    PickEverything(ms);
  }

  lemma {:induction false} SameSelection(n: nat, keep: nat -> bool, keep': nat -> bool)
    requires forall i: nat :: i < n ==> keep(i) == keep'(i)
    ensures Where(n, keep) == Where(n, keep')
  {
    if n == 0 {
    } else {
      SameSelection(n - 1, keep, keep');
    }
  }

  lemma {:induction false} WhereLength(n: nat, keep: nat -> bool)
    ensures |Where(n, keep)| <= n
  {
    if n == 0 {
    } else {
      WhereLength(n - 1, keep);
    }
  }

  // ---- pruning -----------------------------------------------------------------------------

  function NotIn(removed: seq<nat>): nat -> bool {
    (i: nat) => i !in removed
  }

  function Remaining(ms: seq<Message>, removed: seq<nat>): nat {
    TotalTokens(PickWhere(ms, NotIn(removed)))
  }

  /** How many of the candidates to prune, in their order, when `k` are pruned already: the fewest
      that meet the target, or all of them if none does. */
  function PruneFrom(ms: seq<Message>, candidates: seq<nat>, target: nat, k: nat): (n: nat)
    requires k <= |candidates|
    ensures k <= n <= |candidates|
    decreases |candidates| - k
  {
    if k == |candidates| || Remaining(ms, candidates[..k]) <= target then k
    else PruneFrom(ms, candidates, target, k + 1)
  }

  /** Indeed the fewest: pruning only the first `j` of them would not do. */
  lemma {:induction false} PruneFromIsLeast(ms: seq<Message>, candidates: seq<nat>, target: nat, k: nat)
    requires k <= |candidates|
    ensures var n := PruneFrom(ms, candidates, target, k);
            && (n < |candidates| ==> Remaining(ms, candidates[..n]) <= target)
            && forall j :: k <= j < n ==> Remaining(ms, candidates[..j]) > target
    decreases |candidates| - k
  {
    if k < |candidates| && Remaining(ms, candidates[..k]) > target {
      PruneFromIsLeast(ms, candidates, target, k + 1);
    }
  }

  function ToPrune(ms: seq<Message>, candidates: seq<nat>, target: nat): seq<nat> {
    candidates[..PruneFrom(ms, candidates, target, 0)]
  }

  /** The pruned candidates are the shortest prefix that meets the target, or all of them. */
  lemma ToPruneIsLeast(ms: seq<Message>, candidates: seq<nat>, target: nat)
    ensures var removed := ToPrune(ms, candidates, target);
            && removed <= candidates
            && (Remaining(ms, removed) <= target || removed == candidates)
            && forall j :: 0 <= j < |removed| ==> Remaining(ms, candidates[..j]) > target
  {
    PruneFromIsLeast(ms, candidates, target, 0);
  }

  lemma PrefixMembers(prefix: seq<nat>, xs: seq<nat>)
    requires prefix <= xs
    ensures forall x :: x in prefix ==> x in xs
  {
  }

  /** One candidate more is pruned while the target is not met. */
  lemma PruneStep(ms: seq<Message>, candidates: seq<nat>, target: nat, k: nat)
    requires k < |candidates| && Remaining(ms, candidates[..k]) > target
    ensures PruneFrom(ms, candidates, target, k) == PruneFrom(ms, candidates, target, k + 1)
    ensures candidates[..k] + [candidates[k]] == candidates[..k + 1]
  {
  }

  /** Removing one message more takes exactly its tokens away. */
  lemma RemainingStep(ms: seq<Message>, removed: seq<nat>, i: nat)
    requires i < |ms| && i !in removed
    ensures Remaining(ms, removed) == Remaining(ms, removed + [i]) + Tokens(ms[i])
  {
    TotalOfPick(ms, |ms|, NotIn(removed));
    TotalOfPick(ms, |ms|, NotIn(removed + [i]));
    TotalWithout(ms, |ms|, removed, i);
  }

  lemma {:induction false} TotalWithout(ms: seq<Message>, n: nat, removed: seq<nat>, i: nat)
    requires n <= |ms| && i < |ms| && i !in removed
    ensures TotalWhere(ms, n, NotIn(removed))
      == TotalWhere(ms, n, NotIn(removed + [i])) + if i < n then Tokens(ms[i]) else 0
  {
    if n == 0 {
    } else {
      TotalWithout(ms, n - 1, removed, i);
      assert NotIn(removed + [i])(n - 1) <==> NotIn(removed)(n - 1) && n - 1 != i;
    }
  }

  /** Removing one candidate more, in order. */
  lemma RemainingNext(ms: seq<Message>, candidates: seq<nat>, k: nat)
    requires Below(candidates, |ms|) && Distinct(candidates) && k < |candidates|
    ensures Remaining(ms, candidates[..k]) == Remaining(ms, candidates[..k + 1]) + Tokens(ms[candidates[k]])
  {
    var removed := candidates[..k];
    assert candidates[k] !in removed;
    RemainingStep(ms, removed, candidates[k]);
    assert candidates[..k + 1] == removed + [candidates[k]];
  }

  lemma RemainingShrinks(ms: seq<Message>, candidates: seq<nat>, m: nat, n: nat)
    requires Below(candidates, |ms|) && Distinct(candidates) && m <= n <= |candidates|
    ensures Remaining(ms, candidates[..n]) <= Remaining(ms, candidates[..m])
  {
    var left := seq(|candidates| + 1, k requires 0 <= k <= |candidates| => Remaining(ms, candidates[..k]));
    forall k | 0 <= k < |candidates| ensures left[k + 1] <= left[k] {
      RemainingNext(ms, candidates, k);
    }
    Descends(left, m, n);
  }

  lemma {:induction false} Descends(xs: seq<nat>, m: nat, n: nat)
    requires m <= n < |xs| && forall k :: 0 <= k < |xs| - 1 ==> xs[k + 1] <= xs[k]
    ensures xs[n] <= xs[m]
    decreases n
  {
    if m < n {
      Descends(xs, m, n - 1);
      assert xs[n - 1 + 1] <= xs[n - 1];
    }
  }

  lemma NothingRemoved(ms: seq<Message>)
    ensures PickWhere(ms, NotIn([])) == ms && Remaining(ms, []) == TotalTokens(ms)
  {
    SameSelection(|ms|, NotIn([]), Everything());
    PickEverything(ms);
  }

  lemma {:induction false} NothingKept(ms: seq<Message>, n: nat, keep: nat -> bool)
    requires n <= |ms| && forall i: nat :: i < n ==> !keep(i)
    ensures TotalWhere(ms, n, keep) == 0
  {
    if n == 0 {
    } else {
      NothingKept(ms, n - 1, keep);
    }
  }

  lemma {:induction false} WhereNotIn(n: nat, removed: seq<nat>)
    requires Increasing(removed) && Below(removed, n)
    ensures |Where(n, NotIn(removed))| == n - |removed|
  {
    if n == 0 {
    } else {
      if removed != [] && removed[|removed| - 1] == n - 1 {
        WhereNotIn(n - 1, removed[..|removed| - 1]);
        WithoutLargest(n - 1, removed);
      } else {
        WhereNotIn(n - 1, removed);
      }
    }
  }

  lemma WithoutLargest(n: nat, removed: seq<nat>)
    requires Increasing(removed) && removed != [] && removed[|removed| - 1] == n
    ensures Where(n, NotIn(removed)) == Where(n, NotIn(removed[..|removed| - 1]))
  {
    var init := removed[..|removed| - 1];
    assert removed == init + [n];
    SameSelection(n, NotIn(removed), NotIn(init));
  }

  /** Position of the last message from the user. */
  function LastUser(ms: seq<Message>): (u: Option<nat>)
    ensures u.None? ==> forall i :: 0 <= i < |ms| ==> ms[i].role != "user"
    ensures u.Some? ==>
      u.value < |ms| && ms[u.value].role == "user" && forall i :: u.value < i < |ms| ==> ms[i].role != "user"
  {
    if ms == [] then None
    else if ms[|ms| - 1].role == "user" then Some(|ms| - 1)
    else LastUser(ms[..|ms| - 1])
  }
}

/** Stop words: their removal never lengthens a text. */
module StopWords {
  import opened Common
  import opened Text
  import opened Messages

  /** The Unicode tables behind lower-casing and the test for letters and digits. */
  datatype Lexicon = Lexicon(lowercase: string -> string, isAlphanumeric: char -> bool)

  function WordLength(s: string): (n: nat)
    ensures n <= |s| && (n < |s| ==> IsWhitespace(s[n]))
    ensures s != [] && !IsWhitespace(s[0]) ==> 0 < n
  {
    if s == [] || IsWhitespace(s[0]) then 0 else 1 + WordLength(s[1..])
  }

  /** The maximal runs of non-whitespace characters. */
  function Words(s: string): seq<string>
    decreases |s|
  {
    if s == [] then []
    else if IsWhitespace(s[0]) then Words(s[1..])
    else [s[..WordLength(s)]] + Words(s[WordLength(s)..])
  }

  function Alphanumeric(lex: Lexicon, s: string): string {
    if s == [] then [] else (if lex.isAlphanumeric(s[0]) then [s[0]] else []) + Alphanumeric(lex, s[1..])
  }

  predicate IsStopWord(lex: Lexicon, stopWords: seq<string>, word: string) {
    var clean := Alphanumeric(lex, lex.lowercase(word));
    exists i :: 0 <= i < |stopWords| && lex.lowercase(stopWords[i]) == clean
  }

  function Meaningful(lex: Lexicon, stopWords: seq<string>, words: seq<string>): seq<string> {
    if words == [] then [] else
      (if IsStopWord(lex, stopWords, words[0]) then [] else [words[0]]) + Meaningful(lex, stopWords, words[1..])
  }

  function Join(words: seq<string>): string {
    if words == [] then [] else if |words| == 1 then words[0] else words[0] + [' '] + Join(words[1..])
  }

  function RemoveStopWords(lex: Lexicon, stopWords: seq<string>, text: string): string {
    if stopWords == [] then text else Join(Meaningful(lex, stopWords, Words(text)))
  }

  lemma {:induction false} Utf8Concat(a: string, b: string)
    ensures Utf8Len(a + b) == Utf8Len(a) + Utf8Len(b)
  {
    if a == [] {
      assert a + b == b;
    } else {
      assert (a + b)[1..] == a[1..] + b;
      Utf8Concat(a[1..], b);
    }
  }

  lemma JoinCons(word: string, words: seq<string>)
    ensures Utf8Len(Join([word] + words)) <= Utf8Len(word) + (if words == [] then 0 else 1 + Utf8Len(Join(words)))
  {
    assert ([word] + words)[1..] == words;
    if words != [] {
      Utf8Concat(word + [' '], Join(words));
      Utf8Concat(word, [' ']);
      assert Utf8Len([' ']) == 1 by { assert [' '][1..] == []; }
    }
  }

  /** The words that stay, joined by single spaces, take no more bytes than the text did. */
  lemma {:induction false} JoinShrinks(lex: Lexicon, stopWords: seq<string>, s: string)
    ensures Utf8Len(Join(Meaningful(lex, stopWords, Words(s)))) <= Utf8Len(s)
    decreases |s|
  {
    if s == [] {
    } else {
      if IsWhitespace(s[0]) {
        JoinShrinks(lex, stopWords, s[1..]);
      } else {
        var word, rest := s[..WordLength(s)], s[WordLength(s)..];
        assert s == word + rest;
        Utf8Concat(word, rest);
        var kept := Meaningful(lex, stopWords, Words(rest));
        assert Words(s)[1..] == Words(rest);
        if rest != [] {
          assert Words(rest) == Words(rest[1..]);
          JoinShrinks(lex, stopWords, rest[1..]);
        }
        assert Utf8Len(rest) >= if kept == [] then 0 else 1 + Utf8Len(Join(kept));
        JoinCons(word, kept);
        if IsStopWord(lex, stopWords, word) {
          assert Meaningful(lex, stopWords, Words(s)) == [] + kept == kept;
        } else {
          assert Meaningful(lex, stopWords, Words(s)) == [word] + kept;
        }
      }
    }
  }

  /** Removing stop words never lengthens a text, so it never costs tokens. */
  lemma StopWordsNeverLengthen(lex: Lexicon, stopWords: seq<string>, text: string)
    ensures Utf8Len(RemoveStopWords(lex, stopWords, text)) <= Utf8Len(text)
    ensures CountTokens(RemoveStopWords(lex, stopWords, text)) <= CountTokens(text)
    ensures stopWords == [] ==> RemoveStopWords(lex, stopWords, text) == text
  {
    JoinShrinks(lex, stopWords, text);
  }

  /** Words are joined by single spaces. */
  lemma {:induction false} JoinConcat(a: seq<string>, b: seq<string>)
    requires a != [] && b != []
    ensures Join(a + b) == Join(a) + " " + Join(b)
  {
    assert (a + b)[1..] == a[1..] + b;
    if |a| == 1 {
      assert a[1..] + b == b;
    } else {
      JoinConcat(a[1..], b);
      assert a[0] + [' '] + (Join(a[1..]) + " " + Join(b)) == (a[0] + [' '] + Join(a[1..])) + " " + Join(b);
    }
  }

  /** What splitting yields: non-empty, free of whitespace. */
  predicate IsWord(w: string) {
    w != [] && forall i :: 0 <= i < |w| ==> !IsWhitespace(w[i])
  }

  predicate AllWords(words: seq<string>) {
    forall k :: 0 <= k < |words| ==> IsWord(words[k])
  }

  lemma {:induction false} WordLengthSpans(s: string)
    ensures forall i :: 0 <= i < WordLength(s) ==> !IsWhitespace(s[i])
  {
    if s != [] && !IsWhitespace(s[0]) { WordLengthSpans(s[1..]); }
  }

  lemma {:induction false} WordsAreWords(s: string)
    ensures AllWords(Words(s))
    decreases |s|
  {
    if s == [] {
    } else {
      if IsWhitespace(s[0]) {
        WordsAreWords(s[1..]);
      } else {
        WordLengthSpans(s);
        WordsAreWords(s[WordLength(s)..]);
      }
    }
  }

  /** A word followed by nothing or by whitespace is the first word. */
  lemma {:induction false} WordLengthOfWord(w: string, rest: string)
    requires (forall i :: 0 <= i < |w| ==> !IsWhitespace(w[i])) && (rest == [] || IsWhitespace(rest[0]))
    ensures WordLength(w + rest) == |w|
  {
    if w == [] {
      assert w + rest == rest;
    } else {
      assert (w + rest)[1..] == w[1..] + rest;
      WordLengthOfWord(w[1..], rest);
    }
  }

  /** Splitting undoes joining. */
  lemma {:induction false} SplitJoin(words: seq<string>)
    requires AllWords(words)
    ensures Words(Join(words)) == words
  {
    if words == [] {
    } else {
      var w, rest := words[0], words[1..];
      assert IsWord(w);
      SplitJoin(rest);
      var tail := if rest == [] then [] else [' '] + Join(rest);
      assert Join(words) == w + tail;
      WordLengthOfWord(w, tail);
      assert (w + tail)[..|w|] == w && (w + tail)[|w|..] == tail;
      if rest != [] {
        assert IsWhitespace(tail[0]) && tail[1..] == Join(rest);
      }
      assert Words(tail) == rest;
    }
  }

  lemma {:induction false} MeaningfulWords(lex: Lexicon, stopWords: seq<string>, words: seq<string>)
    requires AllWords(words)
    ensures AllWords(Meaningful(lex, stopWords, words))
    ensures forall w :: w in Meaningful(lex, stopWords, words) <==> w in words && !IsStopWord(lex, stopWords, w)
  {
    if words == [] {
    } else {
      MeaningfulWords(lex, stopWords, words[1..]);
      assert words == [words[0]] + words[1..];
      assert IsWord(words[0]);
    }
  }

  /** Letters and digits are picked out one by one, in order. */
  lemma {:induction false} AlphanumericConcat(lex: Lexicon, a: string, b: string)
    ensures Alphanumeric(lex, a + b) == Alphanumeric(lex, a) + Alphanumeric(lex, b)
    ensures |a| == 1 ==> Alphanumeric(lex, a) == if lex.isAlphanumeric(a[0]) then a else []
  {
    if a == [] {
      assert a + b == b;
    } else {
      var own := if lex.isAlphanumeric(a[0]) then [a[0]] else [];
      assert (a + b)[1..] == a[1..] + b;
      AlphanumericConcat(lex, a[1..], b);
      assert own + (Alphanumeric(lex, a[1..]) + Alphanumeric(lex, b))
        == (own + Alphanumeric(lex, a[1..])) + Alphanumeric(lex, b);
    }
  }

  /** A text cut at a whitespace character has the words of both parts. */
  lemma {:induction false} WordsSplit(a: string, c: char, b: string)
    requires IsWhitespace(c)
    ensures Words(a + [c] + b) == Words(a) + Words(b)
    decreases |a|
  {
    var s, n := a + [c] + b, WordLength(a);
    if a == [] {
      assert s[1..] == b;
    } else if IsWhitespace(a[0]) {
      assert s[1..] == a[1..] + [c] + b;
      WordsSplit(a[1..], c, b);
    } else {
      var word, rest := a[..n], a[n..];
      WordLengthSpans(a);
      assert a == word + rest && s == word + (rest + [c] + b);
      WordLengthOfWord(word, rest + [c] + b);
      assert s[..n] == word && s[n..] == rest + [c] + b;
      WordsSplit(rest, c, b);
      assert [word] + (Words(rest) + Words(b)) == ([word] + Words(rest)) + Words(b);
    }
  }

  /** The words of the result are the words of the text that are not stop words, in order. */
  lemma StopWordsAreGone(lex: Lexicon, stopWords: seq<string>, text: string)
    requires stopWords != []
    ensures Words(RemoveStopWords(lex, stopWords, text)) == Meaningful(lex, stopWords, Words(text))
    ensures forall w :: w in Words(RemoveStopWords(lex, stopWords, text)) <==>
      && w in Words(text)
      && forall k :: 0 <= k < |stopWords| ==> lex.lowercase(stopWords[k]) != Alphanumeric(lex, lex.lowercase(w))
  {
    WordsAreWords(text);
    MeaningfulWords(lex, stopWords, Words(text));
    SplitJoin(Meaningful(lex, stopWords, Words(text)));
  }
}

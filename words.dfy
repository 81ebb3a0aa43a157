/**
 * Whitespace tokenising and file-name suffix tests, shared by both
 * generations of the processor. `CountWords` is the counting loop that
 * both `count_words` functions run over `split_whitespace`.
 */
module Words {

  /** Rust's `char::is_whitespace`: the characters with the Unicode White_Space property. */
  predicate IsWhitespace(c: char) {
    ('\t' <= c <= '\r') || c == ' ' || c == '\U{0085}' || c == '\U{00A0}' || c == '\U{1680}'
    || ('\U{2000}' <= c <= '\U{200A}') || c == '\U{2028}' || c == '\U{2029}'
    || c == '\U{202F}' || c == '\U{205F}' || c == '\U{3000}'
  }

  /** `s.ends_with(suffix)`: a case-sensitive comparison of the last characters. */
  predicate EndsWith(s: string, suffix: string) {
    |suffix| <= |s| && s[|s| - |suffix|..] == suffix
  }

  /** Length of the leading run of non-whitespace characters of `s`. */
  function RunLength(s: string): (n: nat)
    ensures n <= |s|
  {
    if s == [] || IsWhitespace(s[0]) then 0 else 1 + RunLength(s[1..])
  }

  /** The leading run is maximal: none of its characters is whitespace and the one after it is. */
  lemma {:induction false} RunLengthMaximal(s: string)
    ensures forall i :: 0 <= i < RunLength(s) ==> !IsWhitespace(s[i])
    ensures RunLength(s) < |s| ==> IsWhitespace(s[RunLength(s)])
    decreases |s|
  {
    if s != [] && !IsWhitespace(s[0]) {
      RunLengthMaximal(s[1..]);
      assert forall i :: 1 <= i < |s| ==> s[i] == s[1..][i - 1];
    }
  }

  /** The tokens `split_whitespace` yields, in order: the maximal runs of non-whitespace characters. */
  function Tokens(s: string): seq<string>
    decreases |s|
  {
    if s == [] then []
    else if IsWhitespace(s[0]) then Tokens(s[1..])
    else
      var n := RunLength(s);
      [s[..n]] + Tokens(s[n..])
  }

  /** The number a `count_words` loop reaches: one per token, repeated tokens included. */
  function WordCount(s: string): nat {
    |Tokens(s)|
  }

  /**
   * A left-to-right scan that counts the positions where a word starts:
   * a non-whitespace character at the start of the text or right after whitespace.
   * `afterGap` says whether the character before `s` was whitespace (or absent).
   */
  function Starts(s: string, afterGap: bool): nat {
    if s == [] then 0
    else (if afterGap && !IsWhitespace(s[0]) then 1 else 0) + Starts(s[1..], IsWhitespace(s[0]))
  }

  /** Scanning across the rest of a word from inside it reaches the same count as starting right after it. */
  lemma {:induction false} SkipRun(s: string)
    requires s != [] && !IsWhitespace(s[0])
    ensures Starts(s[1..], false) == Starts(s[RunLength(s)..], true)
  {
    if |s| == 1 {
    } else if IsWhitespace(s[1]) {
      assert RunLength(s) == 1;
    } else {
      SkipRun(s[1..]);
      assert s[1..][RunLength(s[1..])..] == s[RunLength(s)..];
      assert s[1..][1..] == s[2..];
    }
  }

  /** The tokens and the word starts agree: every token is exactly one maximal run. */
  lemma {:induction false} TokensCountStarts(s: string)
    ensures |Tokens(s)| == Starts(s, true)
    decreases |s|
  {
    if s == [] {
    } else if IsWhitespace(s[0]) {
      TokensCountStarts(s[1..]);
    } else {
      SkipRun(s);
      TokensCountStarts(s[RunLength(s)..]);
    }
  }

  /** Every token is non-empty and holds no whitespace. */
  lemma {:induction false} TokensAreWords(s: string)
    ensures forall j :: 0 <= j < |Tokens(s)| ==> Tokens(s)[j] != []
    ensures forall j, k :: 0 <= j < |Tokens(s)| && 0 <= k < |Tokens(s)[j]| ==> !IsWhitespace(Tokens(s)[j][k])
    decreases |s|
  {
    if s == [] {
    } else if IsWhitespace(s[0]) {
      TokensAreWords(s[1..]);
    } else {
      RunLengthMaximal(s);
      TokensAreWords(s[RunLength(s)..]);
    }
  }

  /** Text made only of whitespace (the empty text included) has no words. */
  lemma {:induction false} AllWhitespaceHasNoWords(s: string)
    requires forall i :: 0 <= i < |s| ==> IsWhitespace(s[i])
    ensures WordCount(s) == 0
    decreases |s|
  {
    if s != [] {
      AllWhitespaceHasNoWords(s[1..]);
    }
  }

  /** A one-letter word followed by whitespace or the end of the text is one token. */
  lemma LetterThenGap(c: char, rest: string)
    requires !IsWhitespace(c) && (rest == [] || IsWhitespace(rest[0]))
    ensures Tokens([c] + rest) == [[c]] + Tokens(rest)
  {
    var s := [c] + rest;
    assert RunLength(s[1..]) == 0;
    assert s[..1] == [c] && s[1..] == rest;
  }

  /** A leading whitespace character is skipped. */
  lemma GapThen(c: char, rest: string)
    requires IsWhitespace(c)
    ensures Tokens([c] + rest) == Tokens(rest)
  {
    assert ([c] + rest)[1..] == rest;
  }

  /** A one-letter word followed by a space is one token, and the scan goes on after the space. */
  lemma LetterThenSpace(c: char, rest: string)
    requires !IsWhitespace(c)
    ensures Tokens([c, ' '] + rest) == [[c]] + Tokens(rest)
  {
    LetterThenGap(c, [' '] + rest);
    GapThen(' ', rest);
    assert [c] + ([' '] + rest) == [c, ' '] + rest;
  }

  /** A text of one letter is one token. */
  lemma OneLetter(c: char)
    requires !IsWhitespace(c)
    ensures Tokens([c]) == [[c]]
  {
    LetterThenGap(c, "");
    assert [c] + "" == [c];
    assert Tokens("") == [];
  }

  /** Three one-letter words separated by spaces are three tokens. */
  lemma SpacedLetters(a: char, b: char, c: char)
    requires !IsWhitespace(a) && !IsWhitespace(b) && !IsWhitespace(c)
    ensures Tokens([a, ' ', b, ' ', c]) == [[a], [b], [c]]
  {
    assert Tokens([b, ' ', c]) == [[b], [c]] by {
      OneLetter(c);
      LetterThenSpace(b, [c]);
      assert [b, ' '] + [c] == [b, ' ', c];
    }
    LetterThenSpace(a, [b, ' ', c]);
    assert [a, ' '] + [b, ' ', c] == [a, ' ', b, ' ', c];
  }

  /** "a b c" has three words. */
  lemma ThreeWords()
    ensures Tokens("a b c") == ["a", "b", "c"] && WordCount("a b c") == 3
  {
    SpacedLetters('a', 'b', 'c');
    assert "a b c" == ['a', ' ', 'b', ' ', 'c'];
    assert [['a'], ['b'], ['c']] == ["a", "b", "c"];
  }

  /** Extending a text keeps its leading run when the run already ends inside it or the extension starts with whitespace. */
  lemma {:induction false} RunLengthExtend(s: string, u: string)
    requires RunLength(s) < |s| || (u != [] && IsWhitespace(u[0]))
    ensures RunLength(s + u) == RunLength(s)
    decreases |s|
  {
    if s == [] {
      assert s + u == u;
    } else if !IsWhitespace(s[0]) {
      assert (s + u)[1..] == s[1..] + u;
      RunLengthExtend(s[1..], u);
    }
  }

  /** Text joined to a part that starts with whitespace: the tokens of the whole are the tokens of each part, in order. */
  lemma {:induction false} TokensAtGap(s: string, u: string)
    requires u != [] && IsWhitespace(u[0])
    ensures Tokens(s + u) == Tokens(s) + Tokens(u)
    decreases |s|
  {
    if s == [] {
      assert s + u == u;
    } else if IsWhitespace(s[0]) {
      assert (s + u)[1..] == s[1..] + u;
      TokensAtGap(s[1..], u);
    } else {
      var n := RunLength(s);
      FirstToken(s, u);
      TokensAtGap(s[n..], u);
      var w, rest, tail := [s[..n]], Tokens(s[n..]), Tokens(u);
      assert w + (rest + tail) == (w + rest) + tail;
    }
  }

  /** A word that ends inside a text, or right before whitespace that follows it, is the first token. */
  lemma {:induction false} FirstToken(s: string, u: string)
    requires s != [] && !IsWhitespace(s[0])
    requires RunLength(s) < |s| || (u != [] && IsWhitespace(u[0]))
    ensures Tokens(s + u) == [s[..RunLength(s)]] + Tokens(s[RunLength(s)..] + u)
  {
    var n := RunLength(s);
    RunLengthExtend(s, u);
    var su := s + u;
    assert su[0] == s[0];
    TokensOfWordStart(su);
    assert su[..n] == s[..n] && su[n..] == s[n..] + u;
  }

  /** A text that starts with a non-whitespace character starts with its leading run as a token. */
  lemma TokensOfWordStart(s: string)
    requires s != [] && !IsWhitespace(s[0])
    ensures Tokens(s) == [s[..RunLength(s)]] + Tokens(s[RunLength(s)..])
  {
  }

  /**
   * A repeated token is counted every time it occurs: a text repeated after
   * a space has twice its words, not the same number.
   */
  lemma RepeatsCount(s: string)
    ensures Tokens(s + " " + s) == Tokens(s) + Tokens(s)
    ensures WordCount(s + " " + s) == 2 * WordCount(s)
  {
    TokensAtGap(s, " " + s);
    assert s + " " + s == s + (" " + s);
    GapThen(' ', s);
  }

  /**
   * `count_words`: a loop that adds one for every token `split_whitespace`
   * yields. The token iterator is modelled by scanning the characters and
   * counting each place a token starts.
   */
  method CountWords(contents: string) returns (count: nat)
    ensures count == WordCount(contents)
  {
    count := 0;
    var afterGap := true;
    var i := 0;
    while i < |contents|
      invariant 0 <= i <= |contents|
      invariant count + Starts(contents[i..], afterGap) == Starts(contents, true)
    {
      assert contents[i..][1..] == contents[i + 1..];
      var c := contents[i];
      if afterGap && !IsWhitespace(c) {
        count := count + 1;
      }
      afterGap := IsWhitespace(c);
      i := i + 1;
    }
    TokensCountStarts(contents);
  }

  /** No name ends with both "txt" and "zip": which suffix is tested first never matters. */
  lemma SuffixesExclusive(name: string)
    ensures !(EndsWith(name, "txt") && EndsWith(name, "zip"))
  {
  }
}

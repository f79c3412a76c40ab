/**
 * The tokenizer `re.findall(r'\w+|[^\w\s]|\s+', text)` (main.py:89), written
 * as a left-to-right segmentation: a maximal run of word characters, a single
 * character that is neither a word character nor whitespace, or a maximal run
 * of whitespace.  Every character falls in one of the three classes, so the
 * pattern matches everywhere and nothing of the text is dropped.
 */
module Tokenizer {
  import opened Chars
  import opened Strings

  /** The shape of one token the pattern can produce: non-empty, one class
      throughout, and a single character when it is punctuation. */
  predicate WellShaped(t: string) {
    |t| > 0
    && (KindOf(t[0]) == Punct ==> |t| == 1)
    && forall k :: 0 <= k < |t| ==> KindOf(t[k]) == KindOf(t[0])
  }

  /** Two neighbouring tokens could not have been one longer match: the
      first is punctuation, or the second starts with another class. */
  predicate Separated(a: string, b: string) {
    |a| > 0 && |b| > 0 && (KindOf(a[0]) == Punct || KindOf(a[0]) != KindOf(b[0]))
  }

  /** A token list as the pattern produces it. */
  predicate Segmented(tokens: seq<string>) {
    (forall k :: 0 <= k < |tokens| ==> WellShaped(tokens[k]))
    && forall k :: 0 < k < |tokens| ==> Separated(tokens[k - 1], tokens[k])
  }

  /** Length of the longest prefix of `s` whose characters are of class `kind`. */
  function RunLength(s: string, kind: Kind): (n: nat)
    ensures n <= |s|
    ensures forall k :: 0 <= k < n ==> KindOf(s[k]) == kind
    ensures n < |s| ==> KindOf(s[n]) != kind
  {
    if s == [] || KindOf(s[0]) != kind then 0 else 1 + RunLength(s[1..], kind)
  }

  /** Length of the match the pattern finds at the start of `s`. */
  function TokenLength(s: string): (n: nat)
    requires |s| > 0
    ensures 0 < n <= |s|
    ensures KindOf(s[0]) == Punct ==> n == 1
    ensures forall k :: 0 <= k < n ==> KindOf(s[k]) == KindOf(s[0])
    ensures KindOf(s[0]) != Punct && n < |s| ==> KindOf(s[n]) != KindOf(s[0])
  {
    if KindOf(s[0]) == Punct then 1 else RunLength(s, KindOf(s[0]))
  }

  /** The match at the start of a text is a well-shaped token. */
  lemma FirstTokenShaped(s: string)
    requires |s| > 0
    ensures WellShaped(s[..TokenLength(s)])
  {
    var n := TokenLength(s);
    assert forall k :: 0 <= k < n ==> s[..n][k] == s[k];
  }

  /** The tokens join back to the text: nothing is dropped. */
  function Tokenize(s: string): (tokens: seq<string>)
    ensures Join(tokens) == s
    decreases |s|
  {
    if s == [] then []
    else
      var n := TokenLength(s);
      var rest := Tokenize(s[n..]);
      assert ([s[..n]] + rest)[1..] == rest;
      assert s[..n] + s[n..] == s;
      [s[..n]] + rest
  }

  /** The first token starts with the first character of the text. */
  lemma TokenizeHead(s: string)
    requires |s| > 0
    ensures |Tokenize(s)| > 0 && Tokenize(s)[0] == s[..TokenLength(s)]
  {
  }

  /** A well-shaped token separated from the head of a segmented list
      extends it. */
  lemma SegmentedCons(t: string, rest: seq<string>)
    requires WellShaped(t) && Segmented(rest)
    requires rest != [] ==> Separated(t, rest[0])
    ensures Segmented([t] + rest)
  {
    var tokens := [t] + rest;
    assert forall k :: 0 < k < |tokens| ==> tokens[k] == rest[k - 1];
  }

  /** Neighbouring tokens are separated: word and whitespace runs are maximal. */
  lemma {:induction false} TokenizeSegmented(s: string)
    ensures Segmented(Tokenize(s))
    decreases |s|
  {
    if s != [] {
      var n := TokenLength(s);
      var rest := Tokenize(s[n..]);
      TokenizeSegmented(s[n..]);
      FirstTokenShaped(s);
      if |rest| > 0 {
        TokenizeHead(s[n..]);
        assert rest[0][0] == s[n];
      }
      SegmentedCons(s[..n], rest);
    }
  }

  /** A run length is the only length whose prefix is of one class and is
      followed by another class (or by the end of the text). */
  lemma {:induction false} RunLengthUnique(s: string, kind: Kind, n: nat)
    requires n <= |s|
    requires forall k :: 0 <= k < n ==> KindOf(s[k]) == kind
    requires n < |s| ==> KindOf(s[n]) != kind
    ensures RunLength(s, kind) == n
  {
    if n > 0 {
      RunLengthUnique(s[1..], kind, n - 1);
    }
  }

  /** In a segmented token list, the first token is the match the pattern
      finds at the start of the joined text. */
  lemma {:induction false} FirstTokenIsMatch(tokens: seq<string>)
    requires |tokens| > 0 && Segmented(tokens)
    ensures var s := Join(tokens);
      |s| > 0 && TokenLength(s) == |tokens[0]| && s[..|tokens[0]|] == tokens[0]
      && s[|tokens[0]|..] == Join(tokens[1..])
  {
    var t, rest, s := tokens[0], tokens[1..], Join(tokens);
    assert WellShaped(t);
    assert s == t + Join(rest);
    if KindOf(t[0]) != Punct {
      if |rest| > 0 {
        assert Separated(tokens[0], tokens[1]);
        assert WellShaped(rest[0]);
        assert Join(rest) == rest[0] + Join(rest[1..]);
        assert s[|t|] == rest[0][0];
      }
      RunLengthUnique(s, KindOf(s[0]), |t|);
    }
  }

  /** The tokenization is the only token list that joins to the text, has
      well-shaped tokens and separates its neighbours. */
  lemma {:induction false} TokenizeUnique(s: string, tokens: seq<string>)
    requires Segmented(tokens)
    requires Join(tokens) == s
    ensures tokens == Tokenize(s)
    decreases |tokens|
  {
    if tokens != [] {
      var rest := tokens[1..];
      FirstTokenIsMatch(tokens);
      assert Segmented(rest) by {
        forall k | 0 < k < |rest| ensures Separated(rest[k - 1], rest[k]) {
          assert Separated(tokens[k], tokens[k + 1]);
        }
      }
      TokenizeUnique(s[|tokens[0]|..], rest);
      assert tokens == [tokens[0]] + rest;
    }
  }
}

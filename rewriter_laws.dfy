/**
 * Properties of the rewrite pass of main.py:82-138: when it fails, when words
 * pass through, why the "<word> all" rule never fires on text, and how the
 * rewrite of a text splits at a separator.
 */
module RewriterLaws {
  import opened Chars
  import opened Strings
  import opened Tokenizer
  import opened Casing
  import opened Rewriter

  /** A replacement is the word itself or a dictionary value; only a phrase
      rule whose key is present consumes more than one token. */
  lemma LookupOrigin(tokens: seq<string>, dict: map<string, string>)
    requires |tokens| > 0
    ensures var m := Lookup(tokens, dict);
      && (m.replacement == tokens[0] || m.replacement in dict.Values)
      && (m.width == 2 <==> AllAhead(tokens) && Lower(tokens[0]) + " all" in dict)
      && (m.width == 2 ==> m.replacement == dict[Lower(tokens[0]) + " all"])
      && (m.width == 3 <==> !AllAhead(tokens) && ByeAhead(tokens) && GoodBye in dict)
      && (m.width == 3 ==> m.replacement == dict[GoodBye])
  {
  }

  /** The only failure: an IndexError at a Capitalised word whose replacement
      is empty (main.py:127-128). */
  lemma {:induction false} RewriteFailsOnlyAtEmptyCapitalised(tokens: seq<string>, dict: map<string, string>)
    requires Rewrite(tokens, dict).IndexError?
    ensures var k := Rewrite(tokens, dict).at;
      && k < |tokens| && IsWord(tokens[k]) && IsCapitalised(tokens[k])
      && Lookup(tokens[k..], dict).replacement == []
    decreases |tokens|
  {
    var step := StepAt(tokens, dict);
    if step.emitted.IndexError? {
      RecaseCases(tokens[0], Lookup(tokens, dict).replacement);
      assert tokens[0..] == tokens;
    } else {
      var rest := tokens[step.width..];
      RewriteFailsOnlyAtEmptyCapitalised(rest, dict);
      var k := Rewrite(rest, dict).at;
      assert rest[k..] == tokens[step.width + k..];
    }
  }

  /** A dictionary without empty values never makes the rewrite fail. */
  lemma {:induction false} RewriteSucceeds(tokens: seq<string>, dict: map<string, string>)
    requires forall v :: v in dict.Values ==> v != []
    ensures Rewrite(tokens, dict).Ok?
    decreases |tokens|
  {
    if tokens != [] {
      if IsWord(tokens[0]) {
        var m := Lookup(tokens, dict);
        LookupOrigin(tokens, dict);
        assert m.replacement != [];
        RecaseCases(tokens[0], m.replacement);
      }
      RewriteSucceeds(tokens[StepAt(tokens, dict).width..], dict);
    }
  }

  /** A token that is not a word never reads as "all" in any case. */
  lemma NonWordIsNotAll(t: string)
    requires !IsWord(t)
    ensures Lower(t) != "all"
  {
    if |t| == 3 {
      assert Lower(t)[0] == LowerChar(t[0]);
      assert KindOf(LowerChar(t[0])) != KindOf('a');
      assert "all"[0] == 'a';
    }
  }

  /** On tokenizer output the "<word> all" guard is false at every word: the
      token after a word run is never a word, and "all" would be one. */
  lemma AllRuleNeverFires(tokens: seq<string>)
    requires Segmented(tokens) && |tokens| > 0 && IsWord(tokens[0])
    ensures !AllAhead(tokens)
  {
    if 2 < |tokens| {
      assert Separated(tokens[0], tokens[1]);
      NonWordIsNotAll(tokens[1]);
    }
  }

  /** Hence on tokenizer output a word's replacement is decided by the "-bye"
      rule, or else by the single-word rule; the "-bye" rule accepts any first
      word and, without a "good-bye" key, makes the word its own replacement
      with no single-word lookup. */
  lemma LookupOnTokens(tokens: seq<string>, dict: map<string, string>)
    requires Segmented(tokens) && |tokens| > 0 && IsWord(tokens[0])
    ensures Lookup(tokens, dict) ==
      if ByeAhead(tokens) then
        if GoodBye in dict then Match(dict[GoodBye], 3) else Match(tokens[0], 1)
      else Match(SingleWord(tokens[0], dict), 1)
  {
    AllRuleNeverFires(tokens);
  }

  /** On any token list, a phrase rule whose key is missing makes the word
      its own replacement (re-casing still follows), without trying the
      single-word lookup. */
  lemma PhraseMissKeepsWord(tokens: seq<string>, dict: map<string, string>)
    requires |tokens| > 0
    requires || (AllAhead(tokens) && Lower(tokens[0]) + " all" !in dict)
             || (!AllAhead(tokens) && ByeAhead(tokens) && GoodBye !in dict)
    ensures Lookup(tokens, dict) == Match(tokens[0], 1)
  {
  }

  predicate EndsWithAll(key: string) {
    |key| >= 4 && key[|key| - 4..] == " all"
  }

  /** The dictionary without its "<word> all" phrase keys. */
  function WithoutAllPhrases(dict: map<string, string>): (d: map<string, string>)
    ensures forall k :: k in d <==> k in dict && !EndsWithAll(k)
    ensures forall k :: k in d ==> d[k] == dict[k]
  {
    map k | k in dict && !EndsWithAll(k) :: dict[k]
  }

  lemma {:induction false} SegmentedSuffix(tokens: seq<string>, n: nat)
    requires Segmented(tokens) && n <= |tokens|
    ensures Segmented(tokens[n..])
  {
    var rest := tokens[n..];
    forall k | 0 < k < |rest| ensures Separated(rest[k - 1], rest[k]) {
      assert Separated(tokens[n + k - 1], tokens[n + k]);
    }
  }

  /** The lower-cased form of a word token has no space in it, so it never
      ends in " all". */
  lemma {:induction false} LoweredWordIsNotAllPhrase(t: string)
    requires WellShaped(t) && IsWord(t)
    ensures !EndsWithAll(Lower(t))
  {
    if |t| >= 4 {
      var j := |t| - 4;
      assert Lower(t)[j] == LowerChar(t[j]);
      assert KindOf(LowerChar(t[j])) == Word != KindOf(' ');
      assert Lower(t)[|t| - 4..][0] == Lower(t)[j];
      assert " all"[0] == ' ';
    }
  }

  /** On tokenizer output, "<word> all" keys have no effect at all. */
  lemma {:induction false} RewriteIgnoresAllPhrases(tokens: seq<string>, dict: map<string, string>)
    requires Segmented(tokens)
    ensures Rewrite(tokens, dict) == Rewrite(tokens, WithoutAllPhrases(dict))
    decreases |tokens|
  {
    if tokens != [] {
      var d := WithoutAllPhrases(dict);
      if IsWord(tokens[0]) {
        AllRuleNeverFires(tokens);
        assert WellShaped(tokens[0]);
        LoweredWordIsNotAllPhrase(tokens[0]);
        assert GoodBye[|GoodBye| - 4..] == "-bye";
        assert Lookup(tokens, dict) == Lookup(tokens, d);
      }
      var w := if IsWord(tokens[0]) then Lookup(tokens, dict).width else 1;
      SegmentedSuffix(tokens, w);
      RewriteIgnoresAllPhrases(tokens[w..], dict);
    }
  }

  lemma TranslateIgnoresAllPhrases(text: string, dict: map<string, string>)
    ensures Translate(text, dict) == Translate(text, WithoutAllPhrases(dict))
  {
    TokenizeSegmented(text);
    RewriteIgnoresAllPhrases(Tokenize(text), dict);
  }

  /** A word that re-casing leaves as it is (main.py:125-128 with the word as
      its own replacement). */
  predicate KeepsCase(t: string) {
    |t| > 0 && (!IsUpperChar(t[0]) || IsUpper(t) || HasNoUpper(t[1..]))
  }

  /** A head token with no entry whose case survives re-casing, and at which
      no phrase rule finds its key, is emitted as it is. */
  lemma UntranslatedHead(tokens: seq<string>, dict: map<string, string>)
    requires tokens != []
    requires IsWord(tokens[0]) ==>
      && Lower(tokens[0]) !in dict
      && !(AllAhead(tokens) && Lower(tokens[0]) + " all" in dict)
      && !(ByeAhead(tokens) && GoodBye in dict)
      && KeepsCase(tokens[0])
    ensures Rewrite(tokens, dict) == Chain(Ok([tokens[0]]), 1, Rewrite(tokens[1..], dict))
  {
    if IsWord(tokens[0]) {
      assert Lookup(tokens, dict) == Match(tokens[0], 1);
      RecaseKeepsToken(tokens[0]);
    }
    RewriteUnfold(tokens, dict);
  }

  /** Every word of `tokens` has no single-word entry, keeps its case under
      re-casing, and is not the start of a phrase whose key is present: a
      "<word> all" with its key, or a "-bye" with a "good-bye" key. */
  predicate AllUntranslated(tokens: seq<string>, dict: map<string, string>) {
    forall k :: 0 <= k < |tokens| && IsWord(tokens[k]) ==>
      && Lower(tokens[k]) !in dict
      && !(AllAhead(tokens[k..]) && Lower(tokens[k]) + " all" in dict)
      && !(ByeAhead(tokens[k..]) && GoodBye in dict)
      && KeepsCase(tokens[k])
  }

  lemma {:induction false} UntranslatedFrom(tokens: seq<string>, dict: map<string, string>, n: nat)
    requires n <= |tokens| && AllUntranslated(tokens, dict)
    ensures Rewrite(tokens[n..], dict) == Ok(tokens[n..])
    decreases |tokens| - n
  {
    if n < |tokens| {
      UntranslatedFrom(tokens, dict, n + 1);
      var rest := tokens[n..];
      assert rest[0] == tokens[n];
      UntranslatedHead(rest, dict);
      assert rest[1..] == tokens[n + 1..];
      assert rest == [rest[0]] + tokens[n + 1..];
    } else {
      assert tokens[n..] == [];
    }
  }

  /** A token list whose words have no entry, keep their case under
      re-casing, and start no phrase whose key is present comes out
      unchanged. */
  lemma RewriteUntranslated(tokens: seq<string>, dict: map<string, string>)
    requires AllUntranslated(tokens, dict)
    ensures Rewrite(tokens, dict) == Ok(tokens)
  {
    UntranslatedFrom(tokens, dict, 0);
    assert tokens[0..] == tokens;
  }

  /** A text whose words have no single-word entry, keep their case, and are
      not followed by "-bye" while a "good-bye" key is present comes out
      unchanged ("<word> all" keys do not matter). */
  lemma TranslateUntranslated(text: string, dict: map<string, string>)
    requires forall k :: 0 <= k < |Tokenize(text)| && IsWord(Tokenize(text)[k]) ==>
      && Lower(Tokenize(text)[k]) !in dict
      && !(ByeAhead(Tokenize(text)[k..]) && GoodBye in dict)
      && KeepsCase(Tokenize(text)[k])
    ensures Translate(text, dict) == Ok(text)
  {
    var tokens, d := Tokenize(text), WithoutAllPhrases(dict);
    TranslateIgnoresAllPhrases(text, dict);
    assert GoodBye[|GoodBye| - 4..] == "-bye";
    assert GoodBye in d <==> GoodBye in dict;
    forall k | 0 <= k < |tokens| && IsWord(tokens[k])
      ensures Lower(tokens[k]) + " all" !in d
    {
      var p := Lower(tokens[k]) + " all";
      assert p[|p| - 4..] == " all";
    }
    RewriteUntranslated(tokens, d);
  }

  /** The lookahead of a word never passes a separator that is not "-". */
  lemma LookupBeforeSeparator(a: seq<string>, b: seq<string>, dict: map<string, string>)
    requires |a| > 0 && IsWord(a[0])
    requires !IsWord(a[|a| - 1]) && a[|a| - 1] != "-"
    ensures Lookup(a + b, dict) == Lookup(a, dict)
  {
    if |a| == 2 && |b| > 0 {
      NonWordIsNotAll(a[1]);
      assert (a + b)[1] == a[1];
    } else if |a| > 2 {
      assert (a + b)[1] == a[1] && (a + b)[2] == a[2];
    }
  }

  /** Cutting a token list after a separator other than "-" cuts its
      rewrite in the same place: nothing before the cut reads past it. */
  lemma {:induction false} RewriteSplitsAfterSeparator(a: seq<string>, b: seq<string>, dict: map<string, string>)
    requires |a| > 0 && !IsWord(a[|a| - 1]) && a[|a| - 1] != "-"
    ensures Rewrite(a + b, dict) == Chain(Rewrite(a, dict), |a|, Rewrite(b, dict))
    decreases |a|
  {
    assert (a + b)[0] == a[0];
    if IsWord(a[0]) {
      LookupBeforeSeparator(a, b, dict);
    }
    var step := StepAt(a, dict);
    assert StepAt(a + b, dict) == step;
    var w := step.width;
    if w == |a| {
      assert (a + b)[w..] == b;
      assert a[w..] == [];
      ChainUnitRight(step.emitted, w);
    } else {
      assert (a + b)[w..] == a[w..] + b;
      RewriteSplitsAfterSeparator(a[w..], b, dict);
      ChainAssoc(step.emitted, w, Rewrite(a[w..], dict), |a| - w, Rewrite(b, dict));
    }
  }
}

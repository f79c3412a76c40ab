/**
 * Concrete cases, stage by stage: what the tokenizer makes of a short text,
 * which rule the lookup applies at a word, what re-casing does, and whole
 * translations of one-word texts.  Several show the code's behaviour where a
 * reader of its comments would expect another: the "-bye" rule ignores its
 * first word, a phrase miss skips the single-word lookup, "you all" is never
 * read as one phrase, and re-casing keeps only the first capital.
 */
module Scenarios {
  import opened Chars
  import opened Strings
  import opened Tokenizer
  import opened Casing
  import opened Rewriter

  /** A single well-shaped token is its own tokenization. */
  lemma OneToken(s: string)
    requires WellShaped(s)
    ensures Tokenize(s) == [s]
  {
    assert Join([s]) == s + [];
    TokenizeUnique(s, [s]);
  }

  /** The last step of a rewrite. */
  lemma Last(tokens: seq<string>, dict: map<string, string>, t: string)
    requires |tokens| > 0 && |tokens| == StepAt(tokens, dict).width
    requires StepAt(tokens, dict).emitted == Ok([t])
    ensures Rewrite(tokens, dict) == Ok([t])
  {
    assert tokens[|tokens|..] == [];
    assert [t] + [] == [t];
  }

  /** "you all" is three tokens: the space between the words is one. */
  lemma YouAllTokens()
    ensures Tokenize("you all") == ["you", " ", "all"]
  {
    var tokens := ["you", " ", "all"];
    assert Segmented(tokens) by {
      assert KindOf(' ') == Space;
      assert WellShaped("you") && WellShaped("all");
    }
    assert Join(tokens) == "you all";
    TokenizeUnique("you all", tokens);
  }

  /** A hyphen is a token of its own. */
  lemma ByeTokens()
    ensures Tokenize("Bad-bye") == ["Bad", "-", "bye"]
  {
    var tokens := ["Bad", "-", "bye"];
    assert Segmented(tokens) by {
      assert KindOf('-') == Punct;
      assert WellShaped("Bad") && WellShaped("bye");
    }
    assert Join(tokens) == "Bad-bye";
    TokenizeUnique("Bad-bye", tokens);
  }

  /** Punctuation marks are one token each, even side by side. */
  lemma PunctuationTokens()
    ensures Tokenize("?!") == ["?", "!"]
  {
    var tokens := ["?", "!"];
    assert Segmented(tokens) by {
      assert KindOf('?') == Punct && KindOf('!') == Punct;
    }
    assert Join(tokens) == "?!";
    TokenizeUnique("?!", tokens);
  }

  /** At "you" in "you all" the token ahead is the space, so the phrase key
      is never consulted and "you" is looked up alone. */
  lemma YouAllIsTwoWords()
    ensures Lookup(["you", " ", "all"], map["you all" := "yall", "you" := "yu"]) == Match("yu", 1)
  {
    assert Lower(" ") == " " && Lower("you") == "you";
  }

  /** The "-bye" rule fires after any word, not only after "good". */
  lemma ByeRuleIgnoresFirstWord()
    ensures Lookup(["Bad", "-", "bye"], map["good-bye" := "vashtu"]) == Match("vashtu", 3)
  {
    assert Lower("bye") == "bye";
  }

  /** Without a "good-bye" key the word before "-bye" is its own
      replacement, even when it has its own entry. */
  lemma ByeMissSkipsLookup()
    ensures Lookup(["so", "-", "bye"], map["so" := "xo"]) == Match("so", 1)
  {
    assert Lower("bye") == "bye";
  }

  /** Such a kept word is still re-cased: a Capitalised word loses its inner
      capitals. */
  lemma ByeMissRecasesWord()
    ensures StepAt(["McDonald", "-", "bye"], map[]) == Step(Ok(["Mcdonald"]), 1)
  {
    assert Lower("bye") == "bye";
    InnerCapitalLost();
  }

  /** On a token list not made by the tokenizer, the "<word> all" rule does
      fire, and it consumes two tokens. */
  lemma AllRuleOnHandMadeTokens()
    ensures Lookup(["you", "all", "!"], map["you all" := "yall", "you" := "yu"]) == Match("yall", 2)
  {
    assert Lower("all") == "all" && Lower("you") == "you";
    assert "you" + " all" == "you all";
  }

  /** Re-casing follows the source word: all upper, Capitalised, lower. */
  lemma RecaseExamples()
    ensures Recase("HELLO", "zorg") == Some("ZORG")
    ensures Recase("Hello", "zorg") == Some("Zorg")
    ensures Recase("hello", "zorg") == Some("zorg")
  {
    assert IsCasedChar("HELLO"[0]);
    assert Upper("zorg") == "ZORG";
    assert IsLowerChar("Hello"[1]);
    assert [UpperChar('z')] + Lower("org") == "Zorg";
    assert IsLowerChar("hello"[0]);
  }

  /** A Capitalised word keeps only its first capital, even untranslated. */
  lemma InnerCapitalLost()
    ensures Recase("McDonald", "McDonald") == Some("Mcdonald")
  {
    assert IsLowerChar("McDonald"[1]);
    assert [UpperChar('M')] + Lower("cDonald") == "Mcdonald";
  }

  lemma CapitalHelloStep()
    ensures StepAt(["Hello"], map["hello" := "zorg"]) == Step(Ok(["Zorg"]), 1)
  {
    assert Lower("Hello") == "hello";
    RecaseExamples();
  }

  /** A whole translation of a one-word text. */
  lemma HelloTranslated()
    ensures Translate("Hello", map["hello" := "zorg"]) == Ok("Zorg")
  {
    assert WellShaped("Hello");
    OneToken("Hello");
    CapitalHelloStep();
    Last(["Hello"], map["hello" := "zorg"], "Zorg");
    assert Join(["Zorg"]) == "Zorg";
  }

  lemma BlankHelloStep()
    ensures StepAt(["Hello"], map["hello" := ""]) == Step(IndexError(0), 1)
  {
    assert Lower("Hello") == "hello";
    assert IsLowerChar("Hello"[1]);
  }

  /** An empty replacement at a Capitalised word raises the IndexError. */
  lemma EmptyReplacementFails()
    ensures Translate("Hello", map["hello" := ""]) == IndexError(0)
  {
    assert WellShaped("Hello");
    OneToken("Hello");
    BlankHelloStep();
  }

  lemma BlankUpperStep()
    ensures StepAt(["HELLO"], map["hello" := ""]) == Step(Ok([""]), 1)
  {
    assert Lower("HELLO") == "hello";
    assert IsCasedChar("HELLO"[0]);
    assert Upper("") == "";
  }

  /** At an all-upper-case word the same empty replacement is harmless. */
  lemma EmptyReplacementAtUpperWord()
    ensures Translate("HELLO", map["hello" := ""]) == Ok("")
  {
    assert WellShaped("HELLO");
    OneToken("HELLO");
    BlankUpperStep();
    Last(["HELLO"], map["hello" := ""], "");
    assert Join([""]) == "";
  }
}

/**
 * The tokenize-and-rewrite pass `translate_to_conlang` (main.py:82-138).
 *
 * `Lookup` is the choice made at a word token (main.py:96-122), `Rewrite` the
 * whole cursor loop as a recursive function over the remaining tokens, and
 * `TranslateToConlang` the loop itself, proved to compute `Translate`.
 * A dictionary is a `map<string, string>`; its keys are lower case when it
 * comes from the loader, but nothing here depends on that.
 */
module Rewriter {
  import opened Chars
  import opened Strings
  import opened Tokenizer
  import opened Casing

  /** The outcome of a rewrite: the output, or the IndexError that
      `translated[0]` raises, with the index of the token being re-cased. */
  datatype Result<T> = Ok(value: T) | IndexError(at: nat)

  /** The one fixed key of the second phrase rule. */
  const GoodBye: string := "good-bye"

  /** `re.match(r'\w+', token)`: the token starts with a word character. */
  predicate IsWord(token: string) {
    |token| > 0 && IsWordChar(token[0])
  }

  /** The guard of the "<word> all" rule at the head of `tokens` (main.py:99):
      a third token exists and the immediately next one is "all" in any case. */
  predicate AllAhead(tokens: seq<string>) {
    2 < |tokens| && Lower(tokens[1]) == "all"
  }

  /** The guard of the "-bye" rule (main.py:107).  Nothing checks that the
      first word is "good". */
  predicate ByeAhead(tokens: seq<string>) {
    2 < |tokens| && tokens[1] == "-" && Lower(tokens[2]) == "bye"
  }

  /** The replacement chosen at a word (before re-casing) and how many tokens
      it consumes. */
  datatype Match = Match(replacement: string, width: nat)

  /** The single-word rule (main.py:116-121). */
  function SingleWord(token: string, dict: map<string, string>): string {
    var wordLower := Lower(token);
    if wordLower in dict then dict[wordLower] else token
  }

  /** The choice at a word token heading `tokens` (main.py:98-122). */
  function Lookup(tokens: seq<string>, dict: map<string, string>): (m: Match)
    requires |tokens| > 0
    ensures 1 <= m.width <= 3 && m.width <= |tokens|
  {
    var token := tokens[0];
    if AllAhead(tokens) then
      var phrase := Lower(token) + " all";
      if phrase in dict then Match(dict[phrase], 2) else Match(token, 1)
    else if ByeAhead(tokens) then
      if GoodBye in dict then Match(dict[GoodBye], 3) else Match(token, 1)
    else
      Match(SingleWord(token, dict), 1)
  }

  /** Puts the output of a first span before the result of the rest, where
      the rest starts `n` tokens further on (so its error indices shift). */
  function Chain(first: Result<seq<string>>, n: nat, rest: Result<seq<string>>): Result<seq<string>> {
    match first
    case IndexError(k) => IndexError(k)
    case Ok(x) =>
      match rest
      case Ok(y) => Ok(x + y)
      case IndexError(k) => IndexError(n + k)
  }

  lemma ChainAssoc(x: Result<seq<string>>, n: nat, y: Result<seq<string>>, m: nat, z: Result<seq<string>>)
    ensures Chain(Chain(x, n, y), n + m, z) == Chain(x, n, Chain(y, m, z))
  {
    if x.Ok? && y.Ok? && z.Ok? {
      assert (x.value + y.value) + z.value == x.value + (y.value + z.value);
    }
  }

  lemma ChainUnit(r: Result<seq<string>>)
    ensures Chain(Ok([]), 0, r) == r
  {
    if r.Ok? {
      assert [] + r.value == r.value;
    }
  }

  /** What one iteration of the loop emits for the token heading `tokens`,
      and how far it moves the cursor (main.py:94-136). */
  datatype Step = Step(emitted: Result<seq<string>>, width: nat)

  function StepAt(tokens: seq<string>, dict: map<string, string>): (s: Step)
    requires |tokens| > 0
    ensures 1 <= s.width <= 3 && s.width <= |tokens|
    ensures !IsWord(tokens[0]) ==> s == Step(Ok([tokens[0]]), 1)
  {
    if !IsWord(tokens[0]) then Step(Ok([tokens[0]]), 1)
    else
      var m := Lookup(tokens, dict);
      match Recase(tokens[0], m.replacement)
      case None => Step(IndexError(0), m.width)
      case Some(t) => Step(Ok([t]), m.width)
  }

  /** The cursor loop of main.py:92-136 over the tokens still to be read:
      every step emits exactly one token and consumes one to three. */
  function Rewrite(tokens: seq<string>, dict: map<string, string>): (r: Result<seq<string>>)
    ensures r.Ok? ==> |r.value| <= |tokens| <= 3 * |r.value|
    ensures r.IndexError? ==> r.at < |tokens|
    decreases |tokens|
  {
    if tokens == [] then Ok([])
    else
      var step := StepAt(tokens, dict);
      Chain(step.emitted, step.width, Rewrite(tokens[step.width..], dict))
  }

  /** One unfolding of the rewrite: the first step, then the rest. */
  lemma RewriteUnfold(tokens: seq<string>, dict: map<string, string>)
    requires tokens != []
    ensures var step := StepAt(tokens, dict);
      Rewrite(tokens, dict) == Chain(step.emitted, step.width, Rewrite(tokens[step.width..], dict))
  {
  }

  lemma ChainUnitRight(r: Result<seq<string>>, n: nat)
    ensures Chain(r, n, Ok([])) == r
  {
    if r.Ok? {
      assert r.value + [] == r.value;
    }
  }

  /** Moving one emitted token from the rest into the output. */
  lemma ChainStep(whole: Result<seq<string>>, out: seq<string>, start: nat,
                  rest: Result<seq<string>>, t: string, w: nat, tail: Result<seq<string>>)
    requires whole == Chain(Ok(out), start, rest)
    requires rest == Chain(Ok([t]), w, tail)
    ensures whole == Chain(Ok(out + [t]), start + w, tail)
  {
    ChainAssoc(Ok(out), start, Ok([t]), w, tail);
  }

  /** The step at cursor `start` emits `t` and moves the cursor to `i`: the
      rest of the rewrite from `start` is `t`, then the rewrite from `i`. */
  lemma Unroll(tokens: seq<string>, dict: map<string, string>, start: nat, t: string, i: nat)
    requires start < i <= |tokens|
    requires StepAt(tokens[start..], dict) == Step(Ok([t]), i - start)
    ensures i <= start + 3
    ensures Rewrite(tokens[start..], dict) == Chain(Ok([t]), i - start, Rewrite(tokens[i..], dict))
  {
    var rest := tokens[start..];
    RewriteUnfold(rest, dict);
    assert rest[i - start..] == tokens[i..];
  }

  /** One step of the loop: emitting `t` and moving the cursor from `start`
      to `i` keeps the loop's invariant. */
  lemma Advance(tokens: seq<string>, dict: map<string, string>, out: seq<string>, start: nat, t: string, i: nat)
    requires start < i <= |tokens|
    requires Rewrite(tokens[start..], dict) == Chain(Ok([t]), i - start, Rewrite(tokens[i..], dict))
    requires Rewrite(tokens, dict) == Chain(Ok(out), start, Rewrite(tokens[start..], dict))
    ensures Rewrite(tokens, dict) == Chain(Ok(out + [t]), i, Rewrite(tokens[i..], dict))
  {
    ChainStep(Rewrite(tokens, dict), out, start, Rewrite(tokens[start..], dict), t, i - start, Rewrite(tokens[i..], dict));
  }

  /** The step at cursor `start` fails: so does the whole rewrite, there. */
  lemma Halt(tokens: seq<string>, dict: map<string, string>, out: seq<string>, start: nat)
    requires start < |tokens|
    requires StepAt(tokens[start..], dict).emitted == IndexError(0)
    requires Rewrite(tokens, dict) == Chain(Ok(out), start, Rewrite(tokens[start..], dict))
    ensures Rewrite(tokens, dict) == IndexError(start)
  {
  }

  /** `translate_to_conlang(text, dict)` as a function: tokenize, rewrite, join. */
  function Translate(text: string, dict: map<string, string>): Result<string> {
    match Rewrite(Tokenize(text), dict)
    case Ok(out) => Ok(Join(out))
    case IndexError(k) => IndexError(k)
  }

  /** main.py:82-138: the cursor loop, appending one output token per step. */
  method TranslateToConlang(text: string, dict: map<string, string>) returns (r: Result<string>)
    ensures r == Translate(text, dict)
  {
    var tokens := Tokenize(text);
    var translatedTokens: seq<string> := [];
    var i := 0;
    assert tokens[i..] == tokens;
    ChainUnit(Rewrite(tokens, dict));
    while i < |tokens|
      invariant i <= |tokens|
      invariant |translatedTokens| <= i <= 3 * |translatedTokens|
      invariant Rewrite(tokens, dict) == Chain(Ok(translatedTokens), i, Rewrite(tokens[i..], dict))
      decreases |tokens| - i
    {
      var token := tokens[i];
      var start := i;
      var translated: string;
      if IsWord(token) {
        // Phrase rules first, then the single-word lookup (main.py:98-122).
        var m := Lookup(tokens[i..], dict);
        // Re-apply the case pattern of the source word (main.py:124-130).
        var recased := Recase(token, m.replacement);
        if recased.None? {
          Halt(tokens, dict, translatedTokens, start);
          return IndexError(start);
        }
        translated := recased.value;
        i := i + m.width;
      } else {
        translated := token;
        i := i + 1;
      }
      Unroll(tokens, dict, start, translated, i);
      Advance(tokens, dict, translatedTokens, start, translated, i);
      translatedTokens := translatedTokens + [translated];
    }
    assert tokens[i..] == [];
    assert translatedTokens + [] == translatedTokens;
    assert Rewrite(tokens, dict) == Ok(translatedTokens);
    r := Ok(Join(translatedTokens));
  }
}

# ColangTranslator: the translation pass, in Dafny

ColangTranslator turns English text into a constructed language using a
word-for-word dictionary. This project models its core,
`translate_to_conlang(text, translation_dict)` in `main.py`, and proves
properties of that model. The function works in four stages:

1. It splits the text with `re.findall(r'\w+|[^\w\s]|\s+', text)` into word
   runs, single punctuation characters and whitespace runs.
2. It walks the tokens with a cursor. At a word it tries two phrase rules,
   then a single-word lookup by the lower-cased word:
   - The `"<word> all"` rule fires when the next token is "all" in any case
     and at least one more token follows it.
   - The `"-bye"` rule fires when the next two tokens are "-" and "bye" (the
     latter in any case), and looks up the fixed key `"good-bye"`.
3. It re-applies the word's case pattern to the replacement: all upper,
   Capitalised, or left as looked up.
4. It joins the output tokens with no separator.

The model has seven modules, one per file:

- `Chars` (chars.dfy): character classes for `\w` and `\s`, plus per-character
  case maps.
- `Strings` (strings.dfy): `str.lower`, `str.upper`, `str.isupper` and
  `"".join`.
- `Tokenizer` (tokenizer.dfy): the `findall` tokenizer as a pure function.
  Lemmas show that it loses nothing, that its runs are maximal, and that it is
  the only segmentation with these properties.
- `Casing` (casing.dfy): the re-casing step. `None` stands for the
  `IndexError` that `translated[0]` raises when the replacement is empty.
- `Rewriter` (rewriter.dfy): the rules at one word (`Lookup`, `StepAt`), and
  the cursor loop as a recursive function (`Rewrite`, `Translate`). It also
  holds the loop itself as a method (`TranslateToConlang`), proved to compute
  `Translate`.
- `RewriterLaws` (rewriter_laws.dfy): failure and success conditions, the
  dead `"<word> all"` rule, pass-through of untranslated text, and splitting
  at separators.
- `Scenarios` (scenarios.dfy): concrete cases.

Where the comments in `main.py` suggest one behaviour and the code does
another, the model follows the code:

- **The `"<word> all"` rule never fires on real text.** The comment at
  `main.py:97` names "you all" as a phrase it handles. The rule at
  `main.py:99` looks for "all" in the very next token. After a word, the
  tokenizer always puts a whitespace or punctuation token next. So with
  `{"you all": …, "you": "yu"}`, the text "you all" becomes "yu all"
  (`RewriterLaws.AllRuleNeverFires`, `RewriterLaws.RewriteIgnoresAllPhrases`,
  `Scenarios.YouAllIsTwoWords`). The rule does fire on hand-made token lists,
  and `Rewrite` models it for those.
- **The `"-bye"` rule never checks for "good".** The comment at `main.py:111`
  says it skips "good", "-" and "bye". The guard at `main.py:107` accepts any
  word before "-bye", so "Bad-bye" also becomes the `"good-bye"` entry.
- **A `"-bye"` match with no `"good-bye"` key keeps the word.** The word
  itself is the replacement, without trying its own single-word entry
  (`main.py:112-114`), and it is then re-cased like any replacement, so
  "McDonald-bye" starts with "Mcdonald".
- **The branch at `main.py:129-130` is never taken.** It is reached only for
  a one-character upper-case word, and such a word already passes
  `isupper()` at `main.py:125`. Had it been reachable, it would have cut the
  replacement to its first character.
- **Re-casing a Capitalised word lower-cases the rest of the replacement.**
  This applies even to a word with no entry, so "McDonald" becomes
  "Mcdonald".
- **An empty replacement at a Capitalised word raises `IndexError`.** With
  `{"hello": ""}`, the text "Hello" raises it. `Rewrite` and `Translate` model
  this as a `Result` with the index of the word.

## Model

| member | source | states |
|---|---|---|
| `Chars.KindOf` | main.py:89 | every character is in exactly one of the pattern's three classes: word (`\w`), whitespace (`\s`), or neither |
| `Chars.LowerChar` | main.py:100 | lower-casing a character leaves no upper-case letter, turns an upper-case letter into a lower-case one, fixes every other character, and keeps the character's class |
| `Chars.UpperChar` | main.py:126 | upper-casing a character leaves no lower-case letter, turns a lower-case letter into an upper-case one, fixes every other character, and keeps the character's class |
| `Chars.CasedIsWord` | main.py:125 | upper- and lower-case letters are disjoint, and both are word characters |
| `Strings.JoinConcat` | main.py:138 | joining a concatenation of token lists is concatenating their joins |
| `Strings.LowerIdempotent` | main.py:117 | `lower()` applied twice equals `lower()` once, and its result has no upper-case letter |
| `Strings.UpperIdempotent` | main.py:126 | `upper()` applied twice equals `upper()` once, and its result has no lower-case letter |
| `Strings.LowerFixedPoint` | main.py:128 | `lower()` leaves a string unchanged exactly when the string has no upper-case letter |
| `Strings.UpperFixedPoint` | main.py:126 | `upper()` leaves a string unchanged exactly when the string has no lower-case letter |
| `Strings.UpperIsUpper` | main.py:125-126 | `upper()` of a string with a letter in it passes `isupper()` |
| `Tokenizer.RunLength` | main.py:89 | the length of the longest prefix in one class: every character before it is in the class, and the character at it is not |
| `Tokenizer.TokenLength` | main.py:89 | the match at the start of a non-empty text is non-empty and well shaped, and a word or whitespace run is maximal |
| `Tokenizer.Tokenize` | main.py:89 | the tokens join back to exactly the text, so nothing is dropped |
| `Tokenizer.TokenizeHead` | main.py:89 | the first token is the match at the start of the text |
| `Tokenizer.FirstTokenShaped` | main.py:89 | the match at the start of a text is a well-shaped token: non-empty, in one class, and a single character when it is punctuation |
| `Tokenizer.TokenizeSegmented` | main.py:89 | every token is well shaped, and neighbouring tokens could not have been one longer match |
| `Tokenizer.RunLengthUnique` | main.py:89 | a run length is the only length with the run property |
| `Tokenizer.FirstTokenIsMatch` | main.py:89 | in any segmented list, the first token is the match at the start of the joined text |
| `Tokenizer.TokenizeUnique` | main.py:89 | any segmented list of well-shaped tokens that joins to the text is the tokenization |
| `Casing.SingleUpperIsUpper` | main.py:129-130 | a one-character upper-case word passes `isupper()`, so the third re-casing branch is dead |
| `Casing.RecaseCases` | main.py:124-130 | re-casing fails exactly for a Capitalised word with an empty replacement, and never changes the length. An all-upper word upper-cases the replacement; a Capitalised word capitalises its first character and lower-cases the rest; any other word keeps it |
| `Casing.RecasePattern` | main.py:125-128 | the result carries the token's pattern: no lower case after an all-upper word, and after a Capitalised word a first character that is not lower case followed by no upper case |
| `Casing.RecaseIdempotent` | main.py:124-130 | re-casing an already re-cased replacement changes nothing |
| `Casing.RecaseKeepsToken` | main.py:121-128 | an untranslated word survives re-casing exactly when it does not start upper case, is all upper, or has no upper-case letter after the first |
| `Rewriter.Lookup` | main.py:98-122 | the rule at a word consumes one to three tokens, never more than remain |
| `Rewriter.StepAt` | main.py:94-136 | one loop iteration consumes one to three tokens, and a non-word token is emitted as it is and consumes one |
| `Rewriter.Rewrite` | main.py:92-136 | every iteration emits exactly one token, so a success has between a third of the tokens and all of them; an error points at one of the tokens |
| `Rewriter.TranslateToConlang` | main.py:82-138 | the cursor loop, with its early exit at the `IndexError`, computes `Translate`: tokenize, rewrite, join |
| `RewriterLaws.LookupOrigin` | main.py:98-122 | the replacement is the word itself or a dictionary value. Two tokens are consumed exactly when the "all" guard holds and its key is present, and three exactly when the "-bye" guard holds and "good-bye" is present; each takes that key's value |
| `RewriterLaws.RewriteFailsOnlyAtEmptyCapitalised` | main.py:127-128 | an error is always at a Capitalised word whose replacement is empty |
| `RewriterLaws.RewriteSucceeds` | main.py:124-130 | with no empty dictionary value, the rewrite always succeeds |
| `RewriterLaws.NonWordIsNotAll` | main.py:99 | a token that is not a word never lower-cases to "all" |
| `RewriterLaws.AllRuleNeverFires` | main.py:99-106 | on tokenizer output, the "all" guard is false at every word |
| `RewriterLaws.LookupOnTokens` | main.py:107-122 | on tokenizer output, the choice at a word is the "-bye" rule if its guard holds, else the single-word rule |
| `RewriterLaws.PhraseMissKeepsWord` | main.py:104-114 | a phrase rule whose key is missing makes the word itself the replacement (then re-cased) and consumes one token, with no single-word lookup |
| `RewriterLaws.LoweredWordIsNotAllPhrase` | main.py:100 | the lower-cased form of a word token never ends in " all" |
| `RewriterLaws.RewriteIgnoresAllPhrases` | main.py:99-106 | on tokenizer output, removing every " all" key leaves the rewrite unchanged |
| `RewriterLaws.TranslateIgnoresAllPhrases` | main.py:82-138 | removing every " all" key leaves every translation unchanged |
| `RewriterLaws.UntranslatedHead` | main.py:98-136 | a head word with no single-word entry, whose case survives re-casing, and at which no phrase rule finds its key (no "<word> all" key when "all" follows, no "good-bye" key when "-bye" follows), is emitted as it is and consumes one token; so is any non-word head |
| `RewriterLaws.RewriteUntranslated` | main.py:92-136 | when no word has a single-word entry, every word's case survives re-casing, and no phrase rule finds its key at any word, the tokens come out unchanged, whatever else the dictionary holds |
| `RewriterLaws.TranslateUntranslated` | main.py:82-138 | a text whose words have no single-word entry, keep their case, and are not followed by "-bye" while the dictionary holds "good-bye", is translated to itself; "<word> all" keys and a "good-bye" key elsewhere do not matter |
| `RewriterLaws.LookupBeforeSeparator` | main.py:99-114 | a word's lookahead never reads past a separator other than "-" |
| `RewriterLaws.RewriteSplitsAfterSeparator` | main.py:92-136 | cutting the tokens after a separator other than "-" cuts the rewrite in the same place, with error indices shifted |
| `Scenarios.YouAllTokens` | main.py:89 | "you all" is the three tokens "you", " ", "all" |
| `Scenarios.ByeTokens` | main.py:89 | "Bad-bye" is the three tokens "Bad", "-", "bye" |
| `Scenarios.PunctuationTokens` | main.py:89 | "?!" is two tokens |
| `Scenarios.YouAllIsTwoWords` | main.py:99-122 | at "you" in "you all", the single-word rule picks "yu", not the phrase |
| `Scenarios.ByeRuleIgnoresFirstWord` | main.py:107-111 | at "Bad" before "-" and "bye", the "good-bye" entry is taken and three tokens are consumed |
| `Scenarios.ByeMissRecasesWord` | main.py:112-128 | at "McDonald" before "-" and "bye", with no "good-bye" key, the word itself is the replacement and re-casing turns it into "Mcdonald", consuming one token |
| `Scenarios.ByeMissSkipsLookup` | main.py:112-114 | at "so" before "-" and "bye", with no "good-bye" key, "so" is kept although it has an entry |
| `Scenarios.AllRuleOnHandMadeTokens` | main.py:99-103 | on the hand-made tokens "you", "all", "!", the phrase rule takes "you all" and consumes two tokens |
| `Scenarios.RecaseExamples` | main.py:124-128 | "zorg" re-cased after "HELLO", "Hello" and "hello" is "ZORG", "Zorg" and "zorg" |
| `Scenarios.InnerCapitalLost` | main.py:127-128 | "McDonald" re-cased as its own replacement is "Mcdonald" |
| `Scenarios.HelloTranslated` | main.py:82-138 | "Hello" with `{"hello": "zorg"}` translates to "Zorg" |
| `Scenarios.EmptyReplacementFails` | main.py:127-128 | "Hello" with `{"hello": ""}` raises the `IndexError` at token 0 |
| `Scenarios.EmptyReplacementAtUpperWord` | main.py:125-126 | "HELLO" with `{"hello": ""}` translates to the empty string |

## Left out

- `get_exe_directory`, `get_available_languages` and `load_translation_dict`
  (main.py:7-80): these find and read dictionary files. File system access,
  `glob` and `ast.literal_eval` are I/O and parsing outside this model. The
  dictionary is a parameter, a `map<string, string>`.
- The lower-casing of dictionary keys at main.py:70: the model accepts any
  map, and none of its lemmas assumes the keys are lower case.
- Dictionary values that are not strings (`ast.literal_eval` allows them,
  and `upper()` would then fail): every value in the model is a string.
- The interactive loop under `__main__` (main.py:141-184): console I/O and
  process exit.
- Full Unicode character classes: `\w` and `\s` are exact for ASCII and
  Latin-1 only; `isupper`, `upper` and `lower` are exact for ASCII and for
  the Latin-1 letters with a one-to-one case pair. Above U+00FF, every
  character is a word character except whitespace and U+2000..U+206F, and
  none has a case.
- Chars.UpperChar: changes only the one-to-one mappings inside Latin-1.
  ß, ÿ, µ, ª and º are treated as having no case, though Python maps some of
  them to other characters or to longer strings (`'ß'.upper() == 'SS'`).
- Chars.IsLowerChar: Python counts ß, ÿ, µ, ª and º as lower case; the model
  does not. So `isupper()` at main.py:125 can differ for a word holding one
  of them, and so can the re-casing branch taken: Python finds "STRAßE" not
  all upper and re-cases it as Capitalised ("Straße"), while the model's
  `IsUpper` holds for it and `Recase` keeps it as "STRAßE".
- Chars.LowerChar: changes only the one-to-one mappings inside Latin-1, as
  the line above says for upper-casing.
- Python's exceptions other than the `IndexError` at main.py:128: given
  string values and a string text, no other exception can arise in this
  function.

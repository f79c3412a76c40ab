/**
 * Character classes and per-character case maps.
 *
 * The translator relies on Python's Unicode-aware `\w` and `\s` regex classes
 * and on `str.lower`, `str.upper` and `str.isupper`.  This module gives
 * concrete stand-ins for them.  The classes for `\w` and `\s` are exact for
 * ASCII and Latin-1 and approximate above U+00FF.  The case predicates and
 * maps are exact for ASCII and for the Latin-1 letters with a one-to-one
 * case pair; Python also counts ß, ÿ, µ, ª and º as lower case, which the
 * model does not.
 */
module Chars {

  /** The three classes the tokenizer's pattern `\w+|[^\w\s]|\s+` tells apart. */
  datatype Kind = Word | Space | Punct

  /** Python's `\s` (`str.isspace`): ASCII whitespace, the separators
      U+001C..U+001F and the Unicode space characters. */
  predicate IsSpaceChar(c: char) {
    c == ' ' || ('\t' <= c <= '\r') || ('\U{1C}' <= c <= '\U{1F}')
    || c == '\U{85}' || c == '\U{A0}' || c == '\U{1680}'
    || ('\U{2000}' <= c <= '\U{200A}') || c == '\U{2028}' || c == '\U{2029}'
    || c == '\U{202F}' || c == '\U{205F}' || c == '\U{3000}'
  }

  /** Letters with a case in this model: ASCII and Latin-1. */
  predicate IsUpperChar(c: char) {
    ('A' <= c <= 'Z') || ('\U{C0}' <= c <= '\U{DE}' && c != '\U{D7}')
  }

  predicate IsLowerChar(c: char) {
    ('a' <= c <= 'z') || ('\U{E0}' <= c <= '\U{FE}' && c != '\U{F7}')
  }

  /** Python's "cased" characters, restricted to this model's letters. */
  predicate IsCasedChar(c: char) {
    IsUpperChar(c) || IsLowerChar(c)
  }

  /** Latin-1 characters that `str.isalnum` accepts but that have no case
      here: ª ² ³ µ ¹ º ¼ ½ ¾ ß ÿ. */
  predicate IsUncasedLatin1Alnum(c: char) {
    c == '\U{AA}' || c == '\U{B2}' || c == '\U{B3}' || c == '\U{B5}' || c == '\U{B9}'
    || c == '\U{BA}' || ('\U{BC}' <= c <= '\U{BE}') || c == '\U{DF}' || c == '\U{FF}'
  }

  /** Python's `\w`: letters, digits and underscore.  From U+0100 on, every
      character counts as a word character except whitespace and the General
      Punctuation block U+2000..U+206F. */
  predicate IsWordChar(c: char) {
    IsCasedChar(c) || ('0' <= c <= '9') || c == '_' || IsUncasedLatin1Alnum(c)
    || (c >= '\U{100}' && !IsSpaceChar(c) && !('\U{2000}' <= c <= '\U{206F}'))
  }

  /** The class of a character; word takes precedence, as in the pattern's
      first alternative. */
  function KindOf(c: char): (k: Kind)
    ensures k == Word <==> IsWordChar(c)
    ensures k == Space <==> IsSpaceChar(c)
    ensures k == Punct <==> !IsWordChar(c) && !IsSpaceChar(c)
  {
    if IsWordChar(c) then Word else if IsSpaceChar(c) then Space else Punct
  }

  /** `str.lower` on one character. */
  function LowerChar(c: char): (l: char)
    ensures !IsUpperChar(l)
    ensures IsUpperChar(c) ==> IsLowerChar(l)
    ensures !IsUpperChar(c) ==> l == c
    ensures KindOf(l) == KindOf(c)
  {
    if IsUpperChar(c) then (c as int + 32) as char else c
  }

  /** `str.upper` on one character. */
  function UpperChar(c: char): (u: char)
    ensures !IsLowerChar(u)
    ensures IsLowerChar(c) ==> IsUpperChar(u)
    ensures !IsLowerChar(c) ==> u == c
    ensures KindOf(u) == KindOf(c)
  {
    if IsLowerChar(c) then (c as int - 32) as char else c
  }

  /** Upper- and lower-case letters are disjoint, and both are word characters. */
  lemma CasedIsWord(c: char)
    ensures IsUpperChar(c) ==> !IsLowerChar(c) && IsWordChar(c)
    ensures IsLowerChar(c) ==> IsWordChar(c)
  {
  }
}

/**
 * The Python string operations the translator uses: `str.lower`,
 * `str.upper`, `str.isupper` and `"".join`, built from the per-character
 * maps of module Chars.  All case maps here keep the length of the string.
 */
module Strings {
  import opened Chars

  /** `s.lower()` */
  function Lower(s: string): string
  {
    seq(|s|, k requires 0 <= k < |s| => LowerChar(s[k]))
  }

  /** `s.upper()` */
  function Upper(s: string): string
  {
    seq(|s|, k requires 0 <= k < |s| => UpperChar(s[k]))
  }

  predicate HasCased(s: string) {
    exists k :: 0 <= k < |s| && IsCasedChar(s[k])
  }

  predicate HasNoLower(s: string) {
    forall k :: 0 <= k < |s| ==> !IsLowerChar(s[k])
  }

  predicate HasNoUpper(s: string) {
    forall k :: 0 <= k < |s| ==> !IsUpperChar(s[k])
  }

  /** `s.isupper()`: at least one cased character and no lower-case one. */
  predicate IsUpper(s: string) {
    HasCased(s) && HasNoLower(s)
  }

  /** `"".join(tokens)` */
  function Join(tokens: seq<string>): string
  {
    if tokens == [] then [] else tokens[0] + Join(tokens[1..])
  }

  lemma {:induction false} JoinConcat(a: seq<string>, b: seq<string>)
    ensures Join(a + b) == Join(a) + Join(b)
  {
    if a != [] {
      assert (a + b)[1..] == a[1..] + b;
      JoinConcat(a[1..], b);
    } else {
      assert a + b == b;
    }
  }

  /** Lower-casing twice is lower-casing once, and leaves no upper case behind. */
  lemma LowerIdempotent(s: string)
    ensures Lower(Lower(s)) == Lower(s)
    ensures HasNoUpper(Lower(s))
  {
  }

  /** Upper-casing twice is upper-casing once, and leaves no lower case behind. */
  lemma UpperIdempotent(s: string)
    ensures Upper(Upper(s)) == Upper(s)
    ensures HasNoLower(Upper(s))
  {
  }

  /** A string with no upper-case letter is its own lower-case form, and
      conversely. */
  lemma LowerFixedPoint(s: string)
    ensures Lower(s) == s <==> HasNoUpper(s)
  {
    if Lower(s) == s {
      forall k | 0 <= k < |s| ensures !IsUpperChar(s[k]) {
        assert Lower(s)[k] == LowerChar(s[k]);
      }
    }
  }

  /** A string with no lower-case letter is its own upper-case form, and
      conversely. */
  lemma UpperFixedPoint(s: string)
    ensures Upper(s) == s <==> HasNoLower(s)
  {
    if Upper(s) == s {
      forall k | 0 <= k < |s| ensures !IsLowerChar(s[k]) {
        assert Upper(s)[k] == UpperChar(s[k]);
      }
    }
  }

  /** Upper-casing a string that has a letter gives a string `isupper` accepts. */
  lemma UpperIsUpper(s: string)
    requires HasCased(s)
    ensures IsUpper(Upper(s))
  {
    var k :| 0 <= k < |s| && IsCasedChar(s[k]);
    assert IsCasedChar(Upper(s)[k]);
  }
}

/**
 * Re-applying the case pattern of a source word to its replacement
 * (main.py:124-130).  The Python code indexes `translated[0]` in the second
 * and third branches, which raises IndexError on an empty replacement; that
 * outcome is `None` here.
 */
module Casing {
  import opened Chars
  import opened Strings

  datatype Option<T> = None | Some(value: T)

  /** The re-casing step as written, third branch included. */
  function Recase(token: string, replacement: string): Option<string>
    requires |token| > 0
  {
    if IsUpper(token) then
      Some(Upper(replacement))
    else if IsUpperChar(token[0]) && |token| > 1 then
      if replacement == [] then None
      else Some([UpperChar(replacement[0])] + Lower(replacement[1..]))
    else if IsUpperChar(token[0]) then
      if replacement == [] then None
      else Some([UpperChar(replacement[0])])
    else
      Some(replacement)
  }

  /** A "Capitalised" word: upper-case first letter, yet not all upper case. */
  predicate IsCapitalised(token: string) {
    |token| > 0 && IsUpperChar(token[0]) && !IsUpper(token)
  }

  /** A one-character token whose character is upper case is all upper case,
      so the branch at main.py:129-130 is never taken. */
  lemma {:induction false} SingleUpperIsUpper(token: string)
    requires |token| == 1 && IsUpperChar(token[0])
    ensures IsUpper(token)
  {
    CasedIsWord(token[0]);
    assert IsCasedChar(token[0]);
  }

  /** What re-casing does, with the dead branch removed: upper-case words
      upper-case the whole replacement, Capitalised words capitalise it, all
      other words keep it; only a Capitalised word with an empty replacement
      fails, and the length never changes.  An upper-case word need not start
      with an upper-case letter ("1A"). */
  lemma RecaseCases(token: string, replacement: string)
    requires |token| > 0
    ensures Recase(token, replacement).None? <==> IsCapitalised(token) && replacement == []
    ensures Recase(token, replacement).Some? ==> |Recase(token, replacement).value| == |replacement|
    ensures IsUpper(token) ==> Recase(token, replacement) == Some(Upper(replacement))
    ensures IsCapitalised(token) && replacement != [] ==>
      Recase(token, replacement) == Some([UpperChar(replacement[0])] + Lower(replacement[1..]))
    ensures !IsUpper(token) && !IsUpperChar(token[0]) ==> Recase(token, replacement) == Some(replacement)
  {
    if IsUpperChar(token[0]) && |token| == 1 {
      SingleUpperIsUpper(token);
    }
  }

  /** The result carries the token's case pattern: no lower case after an
      upper-case word, and after a Capitalised word an upper-case-free tail
      behind a first character that is not lower case. */
  lemma RecasePattern(token: string, replacement: string)
    requires |token| > 0 && Recase(token, replacement).Some?
    ensures var r := Recase(token, replacement).value;
      && (IsUpper(token) ==> HasNoLower(r) && (HasCased(replacement) ==> IsUpper(r)))
      && (IsCapitalised(token) ==> |r| > 0 && !IsLowerChar(r[0]) && HasNoUpper(r[1..]))
  {
    RecaseCases(token, replacement);
    var r := Recase(token, replacement).value;
    if IsUpper(token) {
      UpperIdempotent(replacement);
      if HasCased(replacement) {
        UpperIsUpper(replacement);
      }
    } else if IsCapitalised(token) {
      LowerIdempotent(replacement[1..]);
      assert r[1..] == Lower(replacement[1..]);
    }
  }

  /** Re-casing an already re-cased replacement changes nothing. */
  lemma RecaseIdempotent(token: string, replacement: string)
    requires |token| > 0 && Recase(token, replacement).Some?
    ensures Recase(token, Recase(token, replacement).value) == Recase(token, replacement)
  {
    var r := Recase(token, replacement).value;
    RecaseCases(token, replacement);
    RecaseCases(token, r);
    if IsUpper(token) {
      UpperIdempotent(replacement);
    } else if IsCapitalised(token) {
      LowerIdempotent(replacement[1..]);
      assert r[1..] == Lower(replacement[1..]);
      assert r[0] == UpperChar(replacement[0]);
      assert UpperChar(r[0]) == r[0];
    }
  }

  /** A word that is its own replacement comes out unchanged exactly when it
      does not start with an upper-case letter, is all upper case, or has no
      upper-case letter after the first ("McDonald" does not qualify). */
  lemma RecaseKeepsToken(token: string)
    requires |token| > 0
    ensures Recase(token, token) == Some(token) <==>
      !IsUpperChar(token[0]) || IsUpper(token) || HasNoUpper(token[1..])
  {
    RecaseCases(token, token);
    if IsUpper(token) {
      UpperFixedPoint(token);
    } else if IsCapitalised(token) {
      var r := [UpperChar(token[0])] + Lower(token[1..]);
      assert UpperChar(token[0]) == token[0];
      LowerFixedPoint(token[1..]);
      if r == token {
        assert r[1..] == Lower(token[1..]);
      } else {
        assert token == [token[0]] + token[1..];
      }
    }
  }
}

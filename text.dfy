/**
 * The three string operations of Python's `str` that the argument validator
 * relies on: `startswith` (with one prefix or with a tuple of prefixes),
 * `replace('.', '')` and `isdigit`. Digits are the ASCII digits '0'..'9'.
 */
module Text {

  /** `s.startswith(prefix)`: the comparison is exact, so it is case-sensitive. */
  predicate StartsWith(s: string, prefix: string)
  {
    |prefix| <= |s| && s[..|prefix|] == prefix
  }

  /** `s.startswith(prefixes)` with a tuple: the prefixes are tried in order. */
  function StartsWithAny(s: string, prefixes: seq<string>): (r: bool)
    ensures r <==> exists i :: 0 <= i < |prefixes| && StartsWith(s, prefixes[i])
  {
    if prefixes == [] then false
    else if StartsWith(s, prefixes[0]) then true
    else
      var rest := StartsWithAny(s, prefixes[1..]);
      assert forall i :: 1 <= i < |prefixes| ==> prefixes[i] == prefixes[1..][i - 1];
      rest
  }

  /** A prefix does not match a string that differs from it at some position. */
  lemma MismatchNotPrefix(s: string, prefix: string, k: nat)
    requires k < |prefix| && k < |s| && s[k] != prefix[k]
    ensures !StartsWith(s, prefix)
  {
  }

  /** `s.replace('.', '')`: every '.' deleted, the other characters kept in order. */
  function RemoveDots(s: string): (r: string)
    ensures |r| <= |s|
    ensures forall i :: 0 <= i < |r| ==> r[i] != '.'
    ensures (forall i :: 0 <= i < |s| ==> s[i] != '.') ==> r == s
    ensures forall c :: c != '.' ==> multiset(r)[c] == multiset(s)[c]
  {
    if s == [] then []
    else
      var rest := RemoveDots(s[1..]);
      assert s == [s[0]] + s[1..];
      if s[0] == '.' then rest else [s[0]] + rest
  }

  /** Deleting dots works piece by piece, so together with its effect on a
      single character this determines RemoveDots completely. */
  lemma {:induction false} RemoveDotsAppend(a: string, b: string)
    ensures RemoveDots(a + b) == RemoveDots(a) + RemoveDots(b)
  {
    if a == [] {
      assert a + b == b;
    } else {
      assert (a + b)[1..] == a[1..] + b;
      RemoveDotsAppend(a[1..], b);
    }
  }

  /** A single character is dropped exactly when it is '.'. */
  lemma RemoveDotsSingle(c: char)
    ensures RemoveDots([c]) == if c == '.' then [] else [c]
  {
  }

  /** An ASCII decimal digit. */
  predicate IsDigit(c: char)
  {
    '0' <= c <= '9'
  }

  /** `s.isdigit()`: at least one character, and every character a digit. */
  predicate IsDigitString(s: string)
  {
    |s| > 0 && forall i :: 0 <= i < |s| ==> IsDigit(s[i])
  }

  /** Every character of s is a digit or a '.'. */
  predicate OnlyDigitsAndDots(s: string)
  {
    forall i :: 0 <= i < |s| ==> s[i] == '.' || IsDigit(s[i])
  }

  /** Some character of s is a digit. */
  predicate HasDigit(s: string)
  {
    exists i :: 0 <= i < |s| && IsDigit(s[i])
  }

  /** What deleting the dots leaves: digits only exactly when s holds nothing
      but digits and dots, and something exactly when s holds a character
      other than '.'. */
  lemma {:induction false} RemoveDotsLeaves(s: string)
    ensures (forall i :: 0 <= i < |RemoveDots(s)| ==> IsDigit(RemoveDots(s)[i])) <==> OnlyDigitsAndDots(s)
    ensures RemoveDots(s) != [] <==> exists i :: 0 <= i < |s| && s[i] != '.'
  {
    if s != [] {
      var t := s[1..];
      RemoveDotsLeaves(t);
      assert forall i :: 1 <= i < |s| ==> s[i] == t[i - 1];
      assert OnlyDigitsAndDots(s) <==> (s[0] == '.' || IsDigit(s[0])) && OnlyDigitsAndDots(t);
      assert (exists i :: 0 <= i < |s| && s[i] != '.') <==> s[0] != '.' || exists i :: 0 <= i < |t| && t[i] != '.' by {
        if exists i :: 0 <= i < |t| && t[i] != '.' {
          var j :| 0 <= j < |t| && t[j] != '.';
          assert s[j + 1] != '.';
        }
      }
      if s[0] == '.' {
        assert RemoveDots(s) == RemoveDots(t);
      } else {
        var u := RemoveDots(t);
        var r := [s[0]] + u;
        assert RemoveDots(s) == r;
        if IsDigit(s[0]) && forall i :: 0 <= i < |u| ==> IsDigit(u[i]) {
          forall i | 0 <= i < |r| ensures IsDigit(r[i]) {
            if i > 0 { assert r[i] == u[i - 1]; }
          }
        }
        if forall i :: 0 <= i < |r| ==> IsDigit(r[i]) {
          forall i | 0 <= i < |u| ensures IsDigit(u[i]) {
            assert u[i] == r[i + 1];
          }
          assert IsDigit(r[0]);
        }
      }
    }
  }

  /** `s.replace('.', '').isdigit()` holds exactly when s is made of digits
      and dots only and holds at least one digit; the dots may stand anywhere,
      so "1..2" and ".5." pass while "." and "" do not. */
  lemma DigitsAfterRemovingDots(s: string)
    ensures IsDigitString(RemoveDots(s)) <==> OnlyDigitsAndDots(s) && HasDigit(s)
  {
    RemoveDotsLeaves(s);
  }
}

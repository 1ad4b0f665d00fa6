/**
 Phone normalisation: every character that is not an ASCII decimal digit is
 removed. Both the registration form and the login
 screen key users by the result.
 */
module Phone {
  import opened Base

  /** A decimal digit as the pattern `\d` matches it: the ten ASCII digits only. */
  predicate IsDigit(c: char) {
    '0' <= c <= '9'
  }

  predicate AllDigits(s: string) {
    forall i :: 0 <= i < |s| ==> IsDigit(s[i])
  }

  /** The phone with every non-digit removed. */
  function Normalize(s: string): (r: string)
    ensures AllDigits(r)
    ensures |r| <= |s|
  {
    if s == [] then []
    else if IsDigit(s[0]) then [s[0]] + Normalize(s[1..])
    else Normalize(s[1..])
  }

  /** Normalisation distributes over concatenation: no digit moves across the seam. */
  lemma {:induction false} NormalizeAppend(a: string, b: string)
    ensures Normalize(a + b) == Normalize(a) + Normalize(b)
    decreases |a|
  {
    if a == [] {
      assert a + b == b;
    } else {
      assert (a + b)[1..] == a[1..] + b;
      NormalizeAppend(a[1..], b);
    }
  }

  /** Normalising twice is the same as normalising once. */
  lemma NormalizeIdempotent(s: string)
    ensures Normalize(Normalize(s)) == Normalize(s)
  {
  }

  /** The output holds each digit exactly as often as the input and no other character. */
  lemma {:induction false} NormalizeKeepsDigits(s: string, c: char)
    ensures multiset(Normalize(s))[c] == if IsDigit(c) then multiset(s)[c] else 0
    decreases |s|
  {
    if s != [] {
      assert s == [s[0]] + s[1..];
      NormalizeKeepsDigits(s[1..], c);
    }
  }

  /** The digits keep their original order. */
  lemma {:induction false} NormalizeIsSubsequence(s: string)
    ensures IsSubsequence(Normalize(s), s)
    decreases |s|
  {
    if s != [] {
      NormalizeIsSubsequence(s[1..]);
      var n := Normalize(s[1..]);
      if IsDigit(s[0]) {
        assert Normalize(s) == [s[0]] + n;
        assert ([s[0]] + n)[1..] == n;
      } else {
        SubsequenceSkip(n, s);
      }
    }
  }

  /** Two inputs without any digit normalise to the same, empty, key. */
  lemma DigitFreeCollapse(a: string, b: string)
    requires forall i :: 0 <= i < |a| ==> !IsDigit(a[i])
    requires forall i :: 0 <= i < |b| ==> !IsDigit(b[i])
    ensures Normalize(a) == Normalize(b) == []
  {
    DigitFreeEmpty(a);
    DigitFreeEmpty(b);
  }

  lemma {:induction false} DigitFreeEmpty(s: string)
    requires forall i :: 0 <= i < |s| ==> !IsDigit(s[i])
    ensures Normalize(s) == []
    decreases |s|
  {
    if s != [] {
      DigitFreeEmpty(s[1..]);
    }
  }
}

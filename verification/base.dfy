/**
 Shared vocabulary of the model: an optional value (the components' `null`
 and `undefined`), and the integer percentage that the dashboards compute
 by rounding part/whole·100 to the nearest integer.
 */
module Base {

  /** A value that may be absent: `null`, `undefined` or a missing field. */
  datatype Option<+T> = None | Some(value: T)

  /** True when `r` is the nearest integer to 100·part/whole, ties rounding up.
      This is `Math.round` applied to a nonnegative percentage, read exactly. */
  ghost predicate IsRoundedPercent(part: int, whole: int, r: int)
    requires whole > 0
  {
    2 * whole * r - whole <= 200 * part < 2 * whole * r + whole
  }

  /** The percentage part/whole·100 rounded half up, on exact rationals. */
  function RoundPercent(part: nat, whole: nat): (r: nat)
    requires whole > 0
    ensures IsRoundedPercent(part, whole, r)
  {
    var n := 200 * part + whole;
    var d := 2 * whole;
    var q := n / d;
    assert d * q <= n < d * q + d;
    q
  }

  /** The rounded percentage is the only integer that is nearest with ties up. */
  lemma RoundPercentUnique(part: nat, whole: nat, r: int)
    requires whole > 0
    requires IsRoundedPercent(part, whole, r)
    ensures r == RoundPercent(part, whole)
  {
    var q := RoundPercent(part, whole);
    if r < q {
      assert 2 * whole * (q - r) < 2 * whole;
      MulLessThanFactor(whole, q - r);
      assert false;
    } else if q < r {
      assert 2 * whole * (r - q) < 2 * whole;
      MulLessThanFactor(whole, r - q);
      assert false;
    }
  }

  /** A positive multiple of a positive number is at least that number. */
  lemma {:induction false} MulLessThanFactor(w: int, k: int)
    requires w > 0 && k > 0
    ensures 2 * w * k >= 2 * w
    decreases k
  {
    if k > 1 {
      MulLessThanFactor(w, k - 1);
      assert 2 * w * k == 2 * w * (k - 1) + 2 * w;
    }
  }

  /** A part no bigger than the whole gives at most 100 percent. */
  lemma RoundPercentAtMost100(part: nat, whole: nat)
    requires whole > 0 && part <= whole
    ensures RoundPercent(part, whole) <= 100
  {
  }

  /** A larger part never gives a smaller percentage of the same whole. */
  lemma {:induction false} RoundPercentMonotone(p1: nat, p2: nat, whole: nat)
    requires whole > 0 && p1 <= p2
    ensures RoundPercent(p1, whole) <= RoundPercent(p2, whole)
  {
    var r1 := RoundPercent(p1, whole);
    var r2 := RoundPercent(p2, whole);
    if r1 > r2 {
      assert 2 * whole * (r1 - r2) < 2 * whole;
      MulLessThanFactor(whole, r1 - r2);
      assert false;
    }
  }

  /** `a` can be obtained from `b` by deleting elements: the order is kept. */
  predicate IsSubsequence<T(==)>(a: seq<T>, b: seq<T>)
    decreases |b|
  {
    if a == [] then true
    else if b == [] then false
    else if a[0] == b[0] then IsSubsequence(a[1..], b[1..])
    else IsSubsequence(a, b[1..])
  }

  /** Dropping the head of `b` after matching the tail still leaves a subsequence of `b`. */
  lemma {:induction false} SubsequenceSkip<T>(a: seq<T>, b: seq<T>)
    requires b != [] && IsSubsequence(a, b[1..])
    ensures IsSubsequence(a, b)
    decreases |b|, 0
  {
    if a != [] && a[0] == b[0] {
      SubsequenceDropHead(a, b[1..]);
    }
  }

  /** Removing the first element of a subsequence keeps it a subsequence. */
  lemma {:induction false} SubsequenceDropHead<T>(a: seq<T>, b: seq<T>)
    requires a != [] && IsSubsequence(a, b)
    ensures IsSubsequence(a[1..], b)
    decreases |b|, 1
  {
    if a[0] == b[0] {
      if a[1..] != [] {
        SubsequenceSkip(a[1..], b);
      }
    } else {
      SubsequenceDropHead(a, b[1..]);
      SubsequenceSkip(a[1..], b);
    }
  }
}

/** Integer arithmetic shared by the dashboard and analytics pages: sums, counts and
    `Math.round` percentages. */
module Numeric {

  /** `Math.round(num / den)` for a positive `den`: the nearest integer, halves rounded
      up (towards +infinity, as `Math.round` does). */
  function RoundDiv(num: int, den: int): (r: int)
    requires den > 0
    ensures 2 * den * r <= 2 * num + den < 2 * den * (r + 1)
  {
    (2 * num + den) / (2 * den)
  }

  /** `whole > 0 ? Math.round((part / whole) * 100) : 0` */
  function Percent(part: int, whole: int): (r: int)
    ensures whole <= 0 ==> r == 0
    ensures whole > 0 ==> 2 * whole * r <= 200 * part + whole < 2 * whole * (r + 1)
  {
    if whole > 0 then RoundDiv(100 * part, whole) else 0
  }

  /** Scaling by a positive factor preserves a strict order. */
  lemma ScaleLess(w: int, a: int, b: int)
    requires w > 0 && w * a < w * b
    ensures a < b
  {
  }

  /** The share of a part of a whole lies in [0, 100]. */
  lemma PercentRange(part: int, whole: int)
    requires 0 <= part <= whole
    ensures 0 <= Percent(part, whole) <= 100
  {
    if whole > 0 {
      var r := Percent(part, whole);
      assert 2 * whole * r <= 200 * part + whole <= 2 * whole * 100 + whole;
      ScaleLess(2 * whole, r, 101);
      assert 0 <= 200 * part + whole < 2 * whole * (r + 1);
      ScaleLess(2 * whole, -1, r + 1);
    }
  }

  /** Two rounded shares of disjoint parts of a whole add up to at most 101: each rounding
      can add at most one half. */
  lemma PercentPairAtMost101(a: int, b: int, whole: int)
    requires 0 <= a && 0 <= b && a + b <= whole
    ensures Percent(a, whole) + Percent(b, whole) <= 101
  {
    if whole > 0 {
      var ra, rb := Percent(a, whole), Percent(b, whole);
      assert 2 * whole * ra <= 200 * a + whole;
      assert 2 * whole * rb <= 200 * b + whole;
      assert 2 * whole * ra + 2 * whole * rb == 2 * whole * (ra + rb);
      assert 2 * whole * (ra + rb) <= 200 * whole + 2 * whole;
      assert 2 * whole * 102 == 200 * whole + 4 * whole;
      ScaleLess(2 * whole, ra + rb, 102);
    }
  }

  /** The sum of a sequence of integers (`reduce((a, b) => a + b, 0)`). */
  function Sum(s: seq<int>): int {
    if |s| == 0 then 0 else Sum(s[..|s| - 1]) + s[|s| - 1]
  }

  lemma {:induction false} SumAppend(s: seq<int>, t: seq<int>)
    ensures Sum(s + t) == Sum(s) + Sum(t)
    decreases |t|
  {
    if |t| > 0 {
      assert (s + t)[..|s + t| - 1] == s + t[..|t| - 1];
      SumAppend(s, t[..|t| - 1]);
    } else {
      assert s + t == s;
    }
  }

  lemma {:induction false} SumNonNegative(s: seq<int>)
    requires forall i :: 0 <= i < |s| ==> s[i] >= 0
    ensures Sum(s) >= 0
  {
    if |s| > 0 {
      SumNonNegative(s[..|s| - 1]);
    }
  }

  /** The number of elements of `s` that satisfy `p` (`s.filter(p).length`). */
  function Count<T>(s: seq<T>, p: T -> bool): (n: nat)
    ensures n <= |s|
  {
    if |s| == 0 then 0 else Count(s[..|s| - 1], p) + (if p(s[|s| - 1]) then 1 else 0)
  }

  /** Elements satisfying two exclusive tests are counted at most once between them. */
  lemma {:induction false} CountDisjoint<T>(s: seq<T>, p: T -> bool, q: T -> bool)
    requires forall x :: !(p(x) && q(x))
    ensures Count(s, p) + Count(s, q) <= |s|
  {
    if |s| > 0 {
      CountDisjoint(s[..|s| - 1], p, q);
    }
  }
}

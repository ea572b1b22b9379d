/** Steps of real arithmetic that proofs elsewhere use one at a time, and whole multiples of a real, defined by
    repeated addition so that proofs about them stay linear. */
module Multiples {

  lemma ScaleLessEq(a: real, b: real, f: real)
    requires f >= 0.0 && a <= b
    ensures a * f <= b * f
    ensures f * a <= f * b
  {
    assert (b - a) * f >= 0.0;
  }

  /** `k * r`; zero for a `k` that is not positive. */
  function Times(k: int, r: real): real {
    if k <= 0 then 0.0 else Times(k - 1, r) + r
  }

  lemma {:induction false} TimesGrows(k: int, l: int, r: real)
    requires k <= l && r > 0.0
    ensures 0.0 <= Times(k, r) <= Times(l, r)
    decreases if l > 0 then l else 0
  {
    if l > 0 {
      TimesGrows(if k < l then k else k - 1, l - 1, r);
    }
  }

  lemma {:induction false} TimesIsProduct(k: nat, r: real)
    ensures Times(k, r) == k as real * r
  {
    if k == 0 {
      ZeroTimes(k as real, r);
    } else {
      TimesIsProduct(k - 1, r);
      assert Times(k, r) == Times(k - 1, r) + r;
      OneMore((k - 1) as real, k as real, r);
    }
  }

  lemma ZeroTimes(x: real, r: real)
    requires x == 0.0
    ensures x * r == 0.0
  {
  }

  lemma OneMore(x: real, y: real, r: real)
    requires y == x + 1.0
    ensures y * r == x * r + r
  {
    assert y * r == (x + 1.0) * r;
  }

  lemma {:induction false} TimesOfSum(k: nat, r: real, s: real)
    ensures Times(k, r + s) == Times(k, r) + Times(k, s)
  {
    if k > 0 {
      TimesOfSum(k - 1, r, s);
    }
  }

  /** As many whole steps of `r` as fit into `t`. */
  lemma TimesFit(k: int, r: real, t: real)
    requires r > 0.0 && t >= 0.0 && Times(k, r) <= t
    ensures k <= (t / r).Floor
  {
    if k > 0 {
      TimesIsProduct(k, r);
      QuotientAtLeast(k as real, r, t);
    } else {
      assert t / r >= 0.0;
    }
  }

  lemma QuotientAtLeast(x: real, r: real, t: real)
    requires r > 0.0 && x * r <= t
    ensures x <= t / r
  {
  }

  lemma QuotientAbove(x: real, r: real, t: real)
    requires r > 0.0 && x * r < t
    ensures x < t / r
  {
  }

  function Ceil(x: real): int {
    -((-x).Floor)
  }

  /** If the first `k - 1` steps of `r` end strictly before `t`, there are at most `ceil(t / r)` steps. */
  lemma TimesBelow(k: int, r: real, t: real)
    requires r > 0.0 && k >= 1 && Times(k - 1, r) < t
    ensures k <= Ceil(t / r)
  {
    TimesIsProduct(k - 1, r);
    QuotientAbove((k - 1) as real, r, t);
  }
}

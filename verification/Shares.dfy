/**
  Numbers divided by their sum: exactly when every share stays within the range its number was drawn from.  For one of
  them, w in [l, h], only the sum r in [a, b] of the others matters.
*/
module Shares {
  import opened Rounding

  /** The share w / (w + r) lies within [l, h]. */
  predicate Fits(l: real, h: real, w: real, r: real) {
    l * (w + r) <= w <= h * (w + r)
  }

  ghost predicate AlwaysFits(l: real, h: real, a: real, b: real) {
    forall w, r :: l <= w <= h && a <= r <= b && 0.0 < w + r ==> Fits(l, h, w, r)
  }

  /**
    The same without a quantifier: if the sum is never positive nothing is divided; if it always is, the four extreme
    cases decide; and if it can vanish, either the number is always zero, or the range reaches one and nothing but
    zeros can be left to share with.
  */
  predicate ShareRange(l: real, h: real, a: real, b: real) {
    if h + b <= 0.0 then true
    else if 0.0 < l + a then Fits(l, h, l, a) && Fits(l, h, l, b) && Fits(l, h, h, a) && Fits(l, h, h, b)
    else (l == 0.0 && h == 0.0) || (a == 0.0 && 1.0 <= h && (l == 0.0 || b == 0.0))
  }

  lemma FitsBetween(l: real, h: real, a: real, b: real, w: real, r: real)
    requires l <= w <= h && a <= r <= b
    requires Fits(l, h, l, a) && Fits(l, h, l, b) && Fits(l, h, h, a) && Fits(l, h, h, b)
    ensures Fits(l, h, w, r)
  {
    FitsAsLinear(l, h, l, a);
    FitsAsLinear(l, h, l, b);
    FitsAsLinear(l, h, h, a);
    FitsAsLinear(l, h, h, b);
    FitsAsLinear(l, h, w, r);
    hide Fits, Linear;
    LinearAbove(h - 1.0, l, h, w, h, a, b, r);
    LinearAbove(1.0 - l, l, h, w, -l, a, b, r);
  }

  function Times(p: real, w: real): real {
    p * w
  }

  function Linear(p: real, w: real, q: real, r: real): real {
    Times(p, w) + Times(q, r)
  }

  lemma FitsAsLinear(l: real, h: real, w: real, r: real)
    ensures Fits(l, h, w, r) <==> 0.0 <= Linear(h - 1.0, w, h, r) && 0.0 <= Linear(1.0 - l, w, -l, r)
  {
    assert (h - 1.0) * w + h * r == h * (w + r) - w;
    assert (1.0 - l) * w + -l * r == w - l * (w + r);
  }

  /** A linear function of two variables is not negative on a rectangle if it is not at the corners. */
  lemma LinearAbove(p: real, w0: real, w1: real, w: real, q: real, r0: real, r1: real, r: real)
    requires w0 <= w <= w1 && r0 <= r <= r1
    requires 0.0 <= Linear(p, w0, q, r0) && 0.0 <= Linear(p, w0, q, r1)
    requires 0.0 <= Linear(p, w1, q, r0) && 0.0 <= Linear(p, w1, q, r1)
    ensures 0.0 <= Linear(p, w, q, r)
  {
    hide Times;
    BetweenEnds(p, w0, w1, w);
    BetweenEnds(q, r0, r1, r);
  }

  lemma BetweenEnds(p: real, w0: real, w1: real, w: real)
    requires w0 <= w <= w1
    ensures Times(p, w) >= Times(p, w0) || Times(p, w) >= Times(p, w1)
  {
    if 0.0 <= p {
      ProductIsNonNegative(p, w - w0);
      assert p * (w - w0) == p * w - p * w0;
    } else {
      ProductIsNonNegative(-p, w1 - w);
      assert -p * (w1 - w) == p * w - p * w1;
    }
  }

  // ---------- a sum that can vanish ----------

  /** A positive t, at most `room`, with c * t below m. */
  lemma SmallStep(c: real, m: real, room: real) returns (t: real)
    requires 0.0 < c && 0.0 < m && 0.0 < room
    ensures 0.0 < t <= room && c * t < m
  {
    var half := m / (2.0 * c);
    assert half * (2.0 * c) == m;
    assert c * half == m / 2.0;
    t := Min(room, half);
    ProductIsNonNegative(c, half - t);
    assert c * (half - t) == c * half - c * t;
  }

  /** Where the sum can be as small as one likes, only the number zero fits. */
  lemma NearZero(l: real, h: real, a: real, b: real, w: real)
    requires AlwaysFits(l, h, a, b) && 0.0 < h + b
    requires l <= w <= h && a <= -w <= b
    ensures w == 0.0
  {
    var room := if w < h then h - w else b + w;
    if w > 0.0 {
      var t := SmallStep(h, w, room);
      StepFits(l, h, a, b, w, t);
    } else if w < 0.0 {
      var t := SmallStep(1.0 - l, -w, room);
      assert (1.0 - l) * t == t - l * t;
      StepFits(l, h, a, b, w, t);
    }
  }

  lemma StepFits(l: real, h: real, a: real, b: real, w: real, t: real)
    requires AlwaysFits(l, h, a, b) && 0.0 < h + b
    requires l <= w <= h && a <= -w <= b && 0.0 < t <= if w < h then h - w else b + w
    ensures l * t <= w + t && w <= h * t
  {
    if w < h {
      FitsSum(l, h, w + t, -w, t);
    } else {
      FitsSum(l, h, w, t - w, t);
    }
  }

  lemma FitsSum(l: real, h: real, w: real, r: real, t: real)
    requires w + r == t && Fits(l, h, w, r)
    ensures l * t <= w <= h * t
  {
  }

  lemma VanishingSum(l: real, h: real, a: real, b: real)
    requires l <= h && a <= b && 0.0 < h + b && l + a <= 0.0
    requires AlwaysFits(l, h, a, b)
    ensures ShareRange(l, h, a, b)
  {
    var p, q := Max(l, -b), Min(h, -a);
    NearZero(l, h, a, b, p);
    NearZero(l, h, a, b, q);
    if 0.0 < h {
      assert Fits(l, h, h, 0.0);
      WholeShare(l, h);
    }
  }

  lemma WholeShare(l: real, h: real)
    requires 0.0 < h && Fits(l, h, h, 0.0)
    ensures 1.0 <= h
  {
    assert (h - 1.0) * h == h * (h + 0.0) - h;
    NotNegativeFactor(h - 1.0, h);
  }

  lemma RangeFits(l: real, h: real, a: real, b: real, w: real, r: real)
    requires ShareRange(l, h, a, b)
    requires l <= w <= h && a <= r <= b && 0.0 < w + r
    ensures Fits(l, h, w, r)
  {
    if 0.0 < l + a {
      FitsBetween(l, h, a, b, w, r);
    } else if l == 0.0 && h == 0.0 {
    } else if l == 0.0 {
      ProductIsNonNegative(h - 1.0, w + r);
      assert (h - 1.0) * (w + r) == h * (w + r) - (w + r);
    } else {
      ProductIsNonNegative(h - 1.0, w);
      ProductIsNonNegative(1.0 - l, w);
      assert (h - 1.0) * w == h * w - w && (1.0 - l) * w == w - l * w;
    }
  }

  lemma ShareRangeIsExact(l: real, h: real, a: real, b: real)
    requires l <= h && a <= b
    ensures AlwaysFits(l, h, a, b) <==> ShareRange(l, h, a, b)
  {
    if AlwaysFits(l, h, a, b) {
      if h + b > 0.0 && l + a <= 0.0 {
        VanishingSum(l, h, a, b);
      }
      hide Fits;
    }
    if ShareRange(l, h, a, b) {
      forall w, r | l <= w <= h && a <= r <= b && 0.0 < w + r
        ensures Fits(l, h, w, r)
      {
        RangeFits(l, h, a, b, w, r);
      }
    }
  }
}

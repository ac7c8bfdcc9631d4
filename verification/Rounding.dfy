/** Python's `round(x, d)`, with `scale` standing for 10^d: the nearest multiple of 1/scale, ties to even. */
module Rounding {

  function Abs(x: real): real {
    if x < 0.0 then -x else x
  }

  function Max(x: real, y: real): real {
    if x < y then y else x
  }

  function Min(x: real, y: real): real {
    if y < x then y else x
  }

  function NearestInt(y: real): int {
    var f := y.Floor;
    var d := y - f as real;
    if d < 0.5 || (d == 0.5 && f % 2 == 0) then f else f + 1
  }

  function Round(x: real, scale: nat): real
    requires scale > 0
  {
    OnGrid(x, scale as real)
  }

  function OnGrid(x: real, s: real): real
    requires 0.0 < s
  {
    NearestInt(x * s) as real / s
  }

  lemma OffsetOverScale(n: real, x: real, s: real)
    requires 0.0 < s
    ensures n / s - x == (n - x * s) / s
  {
    assert (n - x * s) / s == n / s - (x * s) / s;
  }

  lemma ProductIsPositive(x: real, y: real)
    requires 0.0 < x && 0.0 < y
    ensures 0.0 < x * y
  {
  }

  lemma ProductIsNonNegative(x: real, y: real)
    requires 0.0 <= x && 0.0 <= y
    ensures 0.0 <= x * y
  {
  }

  lemma NotNegativeFactor(y: real, s: real)
    requires 0.0 < s && 0.0 <= y * s
    ensures 0.0 <= y
  {
  }

  lemma DivMonotone(x: real, y: real, s: real)
    requires x <= y && 0.0 < s
    ensures x / s <= y / s
  {
  }

  lemma AbsDiv(x: real, s: real)
    requires 0.0 < s
    ensures Abs(x / s) == Abs(x) / s
  {
  }

  lemma NearestIntError(y: real)
    ensures Abs(NearestInt(y) as real - y) <= 0.5
  {
  }

  /** Rounding to a grid of 1/scale moves a value by at most half a grid step. */
  lemma RoundError(x: real, scale: nat)
    requires scale > 0
    ensures Abs(Round(x, scale) - x) <= 0.5 / scale as real
  {
    OnGridError(x, scale as real);
    hide OnGrid;
  }

  lemma OnGridError(x: real, s: real)
    requires 0.0 < s
    ensures Abs(OnGrid(x, s) - x) <= 0.5 / s
  {
    RoundOffset(NearestInt(x * s) as real, x, s);
    NearestIntError(x * s);
    DivMonotone(Abs(NearestInt(x * s) as real - x * s), 0.5, s);
    hide NearestInt;
  }

  lemma RoundOffset(n: real, x: real, s: real)
    requires 0.0 < s
    ensures Abs(n / s - x) == Abs(n - x * s) / s
  {
    OffsetOverScale(n, x, s);
    AbsDiv(n - x * s, s);
  }

  /** No integer is nearer to y than NearestInt(y), and of two equally near ones the even is taken. */
  lemma NearestIntIsNearest(y: real, k: int)
    ensures Abs(NearestInt(y) as real - y) <= Abs(k as real - y)
    ensures Abs(k as real - y) == Abs(NearestInt(y) as real - y) && k % 2 == 0 ==> NearestInt(y) == k
  {
    var f := y.Floor;
    if k <= f {
      assert k as real <= f as real;
    } else {
      assert k as real >= (f + 1) as real;
    }
  }

  /** w is a multiple of 1/s, and x is within half a step of it, a tie counting for the even multiple. */
  predicate RoundsTo(x: real, w: real, s: real) {
    w * s == (w * s).Floor as real
    && (Abs(x * s - w * s) < 0.5 || (Abs(x * s - w * s) == 0.5 && (w * s).Floor % 2 == 0))
  }

  lemma NearestIntExactly(y: real, n: int)
    ensures NearestInt(y) == n <==> Abs(y - n as real) < 0.5 || (Abs(y - n as real) == 0.5 && n % 2 == 0)
  {
    var f := y.Floor;
    if n < f {
      assert n as real <= f as real - 1.0;
    } else if n > f + 1 {
      assert n as real >= f as real + 2.0;
    }
  }

  lemma QuotientIs(n: real, s: real, w: real)
    requires 0.0 < s
    ensures n / s == w <==> w * s == n
  {
    var q := n / s;
    assert q * s == n;
    if w * s == n {
      assert (w - q) * s == 0.0;
    }
  }

  lemma NearestIntAsReal(y: real, m: real)
    ensures NearestInt(y) as real == m <==>
            m == m.Floor as real && (Abs(y - m) < 0.5 || (Abs(y - m) == 0.5 && m.Floor % 2 == 0))
  {
    NearestIntExactly(y, m.Floor);
    hide NearestInt;
  }

  lemma OnGridExactly(x: real, w: real, s: real)
    requires 0.0 < s
    ensures OnGrid(x, s) == w <==> RoundsTo(x, w, s)
  {
    hide NearestInt;
    QuotientIs(NearestInt(x * s) as real, s, w);
    NearestIntAsReal(x * s, w * s);
  }

  lemma RoundExactly(x: real, w: real, scale: nat)
    requires scale > 0
    ensures Round(x, scale) == w <==> RoundsTo(x, w, scale as real)
  {
    OnGridExactly(x, w, scale as real);
    hide OnGrid, RoundsTo;
  }
}

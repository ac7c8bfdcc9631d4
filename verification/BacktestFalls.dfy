/**
  When the streaming maximum drawdown is the largest fall between any two points of the equity series, and a run on
  which it is not.
*/
module BacktestFalls {
  import opened Lists
  import opened Options
  import opened Rounding
  import opened Backtest
  import opened BacktestCausality
  import opened BacktestDrawdown
  import opened BacktestRisk

  // ---------- falls from any earlier point ----------

  /** Falling from a higher point is the worse fall exactly when the equity fallen to is not negative. */
  lemma FallFromHigher(a: real, peak: real, e: real)
    requires 0.0 < a < peak
    ensures Fall(a, e) <= Fall(peak, e) <==> 0.0 <= e
  {
    FallAsShare(a, e);
    FallAsShare(peak, e);
    hide Fall;
    SharesOfTwo(a, peak, e);
  }

  lemma SharesOfTwo(a: real, peak: real, e: real)
    requires 0.0 < a < peak
    ensures e / peak <= e / a <==> 0.0 <= e
  {
    var x, y := e / a, e / peak;
    assert x * a == e && y * peak == e;
    if 0.0 <= e {
      NotNegativeFactor(y, peak);
      MulMonotone(a, peak, y);
      CancelFactor(y, x, a);
    } else {
      NegativeFactor(y, peak);
      ProductIsPositive(-y, peak - a);
      assert -y * (peak - a) == y * a - y * peak;
      if y <= x {
        MulMonotone(y, x, a);
      }
    }
  }

  lemma NegativeFactor(y: real, s: real)
    requires 0.0 < s && y * s < 0.0
    ensures y < 0.0
  {
  }

  lemma CancelFactor(x: real, y: real, s: real)
    requires 0.0 < s && x * s <= y * s
    ensures x <= y
  {
  }

  lemma FallAsShare(a: real, e: real)
    requires 0.0 < a
    ensures Fall(a, e) == (1.0 - e / a) * 100.0
  {
    assert a / a == 1.0;
    assert (a - e) / a == a / a - e / a;
  }

  // ---------- one bar ----------

  lemma PeakIsHighest(pts: seq<real>, b: nat)
    requires b < |pts| && 0.0 < pts[0]
    ensures forall a :: 0 <= a <= b ==> pts[a] <= Highest(pts[..b + 1])
    ensures 0.0 < Highest(pts[..b + 1])
    ensures exists a :: 0 <= a <= b && pts[a] == Highest(pts[..b + 1])
  {
    var upTo := pts[..b + 1];
    HighestIsHighest(upTo);
    assert forall a :: 0 <= a <= b ==> upTo[a] == pts[a];
    var a :| 0 <= a < |upTo| && upTo[a] == Highest(upTo);
    assert pts[a] == Highest(upTo);
  }

  /**
    No positive point up to a bar fell further to it than the peak did, exactly when the equity of the bar is not
    negative or every positive point before it was the peak.
  */
  lemma PeakFallsMostExactly(pts: seq<real>, b: nat)
    requires b < |pts| && 0.0 < pts[0]
    ensures (forall a :: 0 <= a <= b && 0.0 < pts[a] ==> Fall(pts[a], pts[b]) <= FallAt(pts, b))
       <==> 0.0 <= pts[b] || forall a :: 0 <= a <= b && 0.0 < pts[a] ==> pts[a] == Highest(pts[..b + 1])
  {
    hide Fall, Highest;
    PeakIsHighest(pts, b);
    var peak := Highest(pts[..b + 1]);
    forall a | 0 <= a <= b && 0.0 < pts[a]
      ensures Fall(pts[a], pts[b]) <= FallAt(pts, b) <==> 0.0 <= pts[b] || pts[a] == peak
    {
      if pts[a] < peak {
        FallFromHigher(pts[a], peak, pts[b]);
      }
    }
  }

  /** The same of every bar of a run. */
  lemma PeakFallsMostInRun(c: seq<Candle>, p: Params, strategy: Strategy, initial: real)
    requires FIRST_BAR <= |c| && 0.0 < initial
    ensures var pts := Points(initial, Final(c, p, strategy, initial));
            (forall a, b :: 0 <= a <= b < |pts| && 0.0 < pts[a] ==> Fall(pts[a], pts[b]) <= FallAt(pts, b)) <==>
            (forall a, b :: 0 <= a <= b < |pts| && pts[b] < 0.0 && 0.0 < pts[a] ==> pts[a] == Highest(pts[..b + 1]))
  {
    hide Fall, FallAt, Highest, Final;
    var pts := Points(initial, Final(c, p, strategy, initial));
    forall b | 0 <= b < |pts|
      ensures (forall a :: 0 <= a <= b && 0.0 < pts[a] ==> Fall(pts[a], pts[b]) <= FallAt(pts, b))
         <==> 0.0 <= pts[b] || forall a :: 0 <= a <= b && 0.0 < pts[a] ==> pts[a] == Highest(pts[..b + 1])
    {
      PeakFallsMostExactly(pts, b);
    }
  }

  // ---------- the whole series ----------

  /** `drop` is the largest percentage fall from a positive point to any later one. */
  ghost predicate LargestFall(pts: seq<real>, drop: real) {
    && (forall a, b :: 0 <= a <= b < |pts| && 0.0 < pts[a] ==> Fall(pts[a], pts[b]) <= drop)
    && (exists a, b :: 0 <= a <= b < |pts| && 0.0 < pts[a] && Fall(pts[a], pts[b]) == drop)
  }

  /** The lowest of the positive points. */
  function LowestPositive(pts: seq<real>): (m: real)
    requires pts != [] && 0.0 < pts[0]
    ensures 0.0 < m
  {
    if |pts| == 1 then pts[0]
    else
      var m, last := LowestPositive(pts[..|pts| - 1]), pts[|pts| - 1];
      if 0.0 < last < m then last else m
  }

  lemma {:induction false} LowestPositiveIsLowest(pts: seq<real>)
    requires pts != [] && 0.0 < pts[0]
    ensures 0.0 < LowestPositive(pts) && LowestPositive(pts) in pts
    ensures forall a :: 0 <= a < |pts| && 0.0 < pts[a] ==> LowestPositive(pts) <= pts[a]
  {
    if |pts| > 1 {
      LowestPositiveIsLowest(pts[..|pts| - 1]);
    }
  }

  /** No fall to the bar exceeds `drop`, if its equity is negative, exactly when that from the lowest positive point
      does not. */
  lemma LowestFallsMost(pts: seq<real>, b: nat, drop: real)
    requires b < |pts| && 0.0 < pts[0] && pts[b] < 0.0
    ensures (forall a :: 0 <= a <= b && 0.0 < pts[a] ==> Fall(pts[a], pts[b]) <= drop)
       <==> Fall(LowestPositive(pts[..b + 1]), pts[b]) <= drop
  {
    hide Fall, LowestPositive;
    var upTo := pts[..b + 1];
    LowestPositiveIsLowest(upTo);
    var m := LowestPositive(upTo);
    var i :| 0 <= i < |upTo| && upTo[i] == m;
    assert pts[i] == m;
    forall a | 0 <= a <= b && 0.0 < pts[a]
      ensures Fall(pts[a], pts[b]) <= Fall(m, pts[b])
    {
      assert upTo[a] == pts[a];
      if m < pts[a] {
        FallFromHigher(m, pts[a], pts[b]);
      }
    }
  }

  ghost predicate CoversNegative(pts: seq<real>, drop: real)
    requires pts != [] && 0.0 < pts[0]
  {
    forall b :: 0 <= b < |pts| && pts[b] < 0.0 ==> Fall(LowestPositive(pts[..b + 1]), pts[b]) <= drop
  }

  lemma LargestFallExactly(pts: seq<real>, drop: real)
    requires pts != [] && 0.0 < pts[0] && WorstFall(pts, drop)
    ensures LargestFall(pts, drop) <==> CoversNegative(pts, drop)
  {
    hide Fall, FallAt, Highest, LowestPositive;
    WorstFallIsAFall(pts, drop);
    forall b | 0 <= b < |pts| && pts[b] < 0.0
      ensures (forall a :: 0 <= a <= b && 0.0 < pts[a] ==> Fall(pts[a], pts[b]) <= drop)
         <==> Fall(LowestPositive(pts[..b + 1]), pts[b]) <= drop
    {
      LowestFallsMost(pts, b, drop);
    }
    forall a, b | 0 <= a <= b < |pts| && 0.0 < pts[a] && 0.0 <= pts[b]
      ensures Fall(pts[a], pts[b]) <= drop
    {
      PeakFallsMostExactly(pts, b);
    }
  }

  lemma WorstFallIsAFall(pts: seq<real>, drop: real)
    requires pts != [] && 0.0 < pts[0] && WorstFall(pts, drop)
    ensures exists a, b :: 0 <= a <= b < |pts| && 0.0 < pts[a] && Fall(pts[a], pts[b]) == drop
  {
    hide Fall, Highest;
    var b :| 0 <= b < |pts| && FallAt(pts, b) == drop;
    PeakIsHighest(pts, b);
    var a :| 0 <= a <= b && pts[a] == Highest(pts[..b + 1]);
    assert Fall(pts[a], pts[b]) == drop;
  }

  /** The worst percentage fall from the running peak. */
  function WorstPeakFall(pts: seq<real>): real
    requires pts != [] && 0.0 < pts[0]
  {
    if |pts| == 1 then 0.0 else Max(WorstPeakFall(pts[..|pts| - 1]), FallAt(pts, |pts| - 1))
  }

  lemma {:induction false} WorstPeakFallIsWorst(pts: seq<real>)
    requires pts != [] && 0.0 < pts[0]
    ensures WorstFall(pts, WorstPeakFall(pts))
  {
    if |pts| == 1 {
      assert pts[..1] == pts;
      assert FallAt(pts, 0) == 0.0;
    } else {
      var n := |pts| - 1;
      WorstPeakFallIsWorst(pts[..n]);
      WorstFallGrows(pts[..n], WorstPeakFall(pts[..n]), pts[n]);
      assert pts == pts[..n] + [pts[n]];
    }
  }

  lemma WorstFallIsUnique(pts: seq<real>, a: real, b: real)
    requires pts != [] && 0.0 < pts[0] && WorstFall(pts, a) && WorstFall(pts, b)
    ensures a == b
  {
    hide FallAt;
  }

  /**
    The maximum drawdown of a run is the largest percentage fall from any positive point, the initial balance
    included, to any later one, exactly when at every bar with negative equity the fall from the lowest positive point
    so far is no worse than the worst from the peak.
  */
  lemma DrawdownIsLargestFallExactly(c: seq<Candle>, p: Params, strategy: Strategy, initial: real)
    requires FIRST_BAR <= |c| && 0.0 < initial
    ensures var s := Final(c, p, strategy, initial);
            var pts := Points(initial, s);
            && s.maxDrop == WorstPeakFall(pts)
            && (LargestFall(pts, s.maxDrop) <==> CoversNegative(pts, WorstPeakFall(pts)))
  {
    hide *;
    DrawdownIsWorstFall(c, p, strategy, initial);
    var s := Final(c, p, strategy, initial);
    PointsStart(initial, s);
    LargestFallExactly(Points(initial, s), s.maxDrop);
    WorstPeakFallIsWorst(Points(initial, s));
    WorstFallIsUnique(Points(initial, s), s.maxDrop, WorstPeakFall(Points(initial, s)));
  }

  lemma PointsStart(initial: real, s: State)
    ensures Points(initial, s) != [] && Points(initial, s)[0] == initial
  {
  }

  /** So it is whenever the equity never goes negative. */
  lemma DrawdownOverPairs(c: seq<Candle>, p: Params, strategy: Strategy, initial: real)
    requires FIRST_BAR <= |c| && 0.0 < initial
    requires forall e :: e in Final(c, p, strategy, initial).equities ==> 0.0 <= e
    ensures var s := Final(c, p, strategy, initial);
            LargestFall(Points(initial, s), s.maxDrop)
  {
    hide Final, LargestFall, Fall, LowestPositive;
    DrawdownIsLargestFallExactly(c, p, strategy, initial);
    var s := Final(c, p, strategy, initial);
    forall b | 0 <= b < |Points(initial, s)|
      ensures 0.0 <= Points(initial, s)[b]
    {
      if b > 0 {
        assert Points(initial, s)[b] == s.equities[b - 1];
        assert s.equities[b - 1] in s.equities;
      }
    }
  }

  // ---------- a run with a larger fall ----------

  const FLAT := Candle(10.0, 10.0, 10.0, 10.0)
  const UP := Candle(10.0, 11.0, 10.0, 11.0)
  const CRASH := Candle(11.0, 11.0, 1.0, 1.0)
  const RUIN := Params(0.0, 14.0, 14.0, 100)

  function Ruinous(): (c: seq<Candle>)
    ensures |c| == 63
  {
    seq(63, i requires 0 <= i < 63 => if i < 61 then FLAT else if i == 61 then UP else CRASH)
  }

  /** Until the look-back window is full a run only records its initial balance. */
  lemma {:induction false} IdleBeforeWindow(c: seq<Candle>, atrs: seq<real>, p: Params, strategy: Strategy,
                                            initial: real, n: nat)
    requires FIRST_BAR <= n <= |c| && n <= WINDOW && 0.0 < initial
    ensures Replay(c, atrs, p, strategy, initial, n) ==
            State(initial, None, [], seq(n - FIRST_BAR, _ => initial), initial, 0.0)
  {
    if n > FIRST_BAR {
      IdleBeforeWindow(c, atrs, p, strategy, initial, n - 1);
      assert seq(n - FIRST_BAR, _ => initial) == seq(n - 1 - FIRST_BAR, _ => initial) + [initial];
    }
  }

  lemma RuinousRanges(t: nat)
    requires 47 <= t < 62
    ensures TrueRanges(Ruinous())[t] == if t == 60 then 1.0 else if t == 61 then 10.0 else 0.0
  {
  }

  lemma RuinousAtrs()
    ensures AtrAt(AtrTable(Ruinous()), 60) == 1.0 / 14.0 && AtrAt(AtrTable(Ruinous()), 61) == 11.0 / 14.0
  {
    hide Ruinous, TrueRange;
    forall t | 47 <= t < 62
      ensures TrueRanges(Ruinous())[t] == if t == 60 then 1.0 else if t == 61 then 10.0 else 0.0
    {
      RuinousRanges(t);
    }
    var u, v := TrueRanges(Ruinous())[47..61], TrueRanges(Ruinous())[48..62];
    SumOfZeros(u[..13]);
    SumOfZeros(v[..12]);
    assert u[13] == 1.0 && v[12] == 1.0 && v[13] == 10.0;
    assert v[..13][..12] == v[..12];
    assert Sum(v[..13]) == Sum(v[..12]) + 1.0;
    assert Sum(u) == 1.0 && Sum(v) == 11.0;
  }

  lemma SmallestLot(balance: real, distance: real)
    requires 0.0 < distance
    ensures LotSize(balance, 0.0, distance) == 0.01
  {
    assert balance * 0.0 / (distance * CONTRACT) == 0.0;
    RoundExactly(0.0, 0.0, 100);
    hide Round;
  }

  lemma OpenWithSmallestLot(price: real, balance: real, atr: real, bar: int)
    requires 0.0 < atr
    ensures Open(Long, price, balance, atr, RUIN, bar) ==
            Position(Long, price, price - 14.0 * atr, price + 14.0 * atr, 0.01, bar)
  {
    SmallestLot(balance, atr * 14.0);
    hide LotSize;
  }

  /** A long position of the smallest lot gains or loses 1000 for each unit of price. */
  lemma SmallestLotPnl(q: Position, price: real)
    requires q.dir == Long && q.lots == 0.01
    ensures Pnl(q, price) == 1000.0 * (price - q.entry)
  {
  }

  lemma RuinousOpening(strategy: Strategy)
    requires forall w :: strategy(w) == Signal(Buy, 100.0)
    ensures Replay(Ruinous(), AtrTable(Ruinous()), RUIN, strategy, 1000.0, 61) ==
            State(1000.0, Some(Position(Long, 10.0, 9.0, 11.0, 0.01, 60)), [], seq(11, _ => 1000.0), 1000.0, 0.0)
  {
    hide Open, AtrTable, AtrAt, Ruinous, Pnl;
    var c := Ruinous();
    IdleBeforeWindow(c, AtrTable(c), RUIN, strategy, 1000.0, 60);
    RuinousAtrs();
    RuinousCandles();
    OpenWithSmallestLot(10.0, 1000.0, 1.0 / 14.0, 60);
    SmallestLotPnl(Position(Long, 10.0, 9.0, 11.0, 0.01, 60), 10.0);
    assert seq(11, _ => 1000.0) == seq(10, _ => 1000.0) + [1000.0];
  }

  lemma RuinousCandles()
    ensures Ruinous()[60] == FLAT && Ruinous()[61] == UP && Ruinous()[62] == CRASH
  {
  }

  lemma TargetHit(s: State, strategy: Strategy)
    requires forall w :: strategy(w) == Signal(Buy, 100.0)
    requires s == State(1000.0, Some(Position(Long, 10.0, 9.0, 11.0, 0.01, 60)), [], s.equities, 1000.0, 0.0)
    ensures Step(s, Ruinous(), 11.0 / 14.0, RUIN, strategy, 61) ==
            State(2000.0, Some(Position(Long, 11.0, 0.0, 22.0, 0.01, 61)), [Fill(s.position.value, 61, 11.0)],
                  s.equities + [2000.0], 2000.0, 0.0)
  {
    hide Open, Ruinous, Pnl;
    RuinousCandles();
    OpenWithSmallestLot(11.0, 2000.0, 11.0 / 14.0, 61);
    SmallestLotPnl(Position(Long, 10.0, 9.0, 11.0, 0.01, 60), 11.0);
    SmallestLotPnl(Position(Long, 11.0, 0.0, 22.0, 0.01, 61), 11.0);
  }

  lemma EquityCrashes(s: State, strategy: Strategy)
    requires s.position == Some(Position(Long, 11.0, 0.0, 22.0, 0.01, 61))
    requires s.balance == s.peak == 2000.0 && s.maxDrop == 0.0
    ensures Step(s, Ruinous(), 11.0 / 14.0, RUIN, strategy, 62) ==
            s.(equities := s.equities + [-8000.0], maxDrop := 500.0)
  {
    hide Open, Ruinous, Pnl;
    RuinousCandles();
    SmallestLotPnl(Position(Long, 11.0, 0.0, 22.0, 0.01, 61), 1.0);
  }

  /**
    On these candles a run is reported to have lost at most 500% of its peak of 2000; from its initial 1000 it lost
    900%.
  */
  lemma RuinousRun(strategy: Strategy)
    requires forall w :: strategy(w) == Signal(Buy, 100.0)
    ensures var s := Final(Ruinous(), RUIN, strategy, 1000.0);
            var pts := Points(1000.0, s);
            && s.maxDrop == 500.0 && |pts| == 14 && pts[0] == 1000.0 && pts[13] == -8000.0
            && Fall(pts[0], pts[13]) == 900.0 && !LargestFall(pts, s.maxDrop)
  {
    hide Step, Ruinous, AtrTable, Pnl;
    var c := Ruinous();
    var atrs := AtrTable(c);
    RuinousOpening(strategy);
    RuinousAtrs();
    var s61 := Replay(c, atrs, RUIN, strategy, 1000.0, 61);
    TargetHit(s61, strategy);
    var s62 := Replay(c, atrs, RUIN, strategy, 1000.0, 62);
    assert s62 == Step(s61, c, 11.0 / 14.0, RUIN, strategy, 61);
    EquityCrashes(s62, strategy);
    LastAtr(c);
    var s63 := Replay(c, atrs, RUIN, strategy, 1000.0, 63);
    assert s63 == Step(s62, c, 11.0 / 14.0, RUIN, strategy, 62);
    var pts := Points(1000.0, Final(c, RUIN, strategy, 1000.0));
    assert pts == [1000.0] + seq(11, _ => 1000.0) + [2000.0] + [-8000.0];
    assert Fall(pts[0], pts[13]) == 900.0;
  }

  lemma LastAtr(c: seq<Candle>)
    requires |c| == 63
    ensures AtrAt(AtrTable(c), 62) == AtrAt(AtrTable(c), 61)
  {
  }
}

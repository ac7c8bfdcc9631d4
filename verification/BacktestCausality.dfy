/**
  Which candles the replay engine may look at.  Its ATR list is indexed one bar late, so bar k sees the range of
  candle k+1; nothing else reaches past bar k.
*/
module BacktestCausality {
  import opened Options
  import opened Rounding
  import opened Backtest

  /** Two candle lists that agree up to bar n-1, and are given the same ATRs there, are replayed alike. */
  lemma {:induction false} SameBarsSameState(c: seq<Candle>, d: seq<Candle>, atrsC: seq<real>, atrsD: seq<real>,
                                             p: Params, strategy: Strategy, initial: real, n: nat)
    requires FIRST_BAR <= n <= |c| && n <= |d| && c[..n] == d[..n]
    requires forall i: nat :: i < n ==> AtrAt(atrsC, i) == AtrAt(atrsD, i)
    ensures Replay(c, atrsC, p, strategy, initial, n) == Replay(d, atrsD, p, strategy, initial, n)
    decreases n
  {
    hide Step;
    if n > FIRST_BAR {
      assert c[..n - 1] == c[..n][..n - 1] && d[..n - 1] == d[..n][..n - 1];
      SameBarsSameState(c, d, atrsC, atrsD, p, strategy, initial, n - 1);
      SameStep(Replay(c, atrsC, p, strategy, initial, n - 1), c, d, AtrAt(atrsC, n - 1), p, strategy, n - 1);
    }
  }

  lemma SameStep(s: State, c: seq<Candle>, d: seq<Candle>, atr: real, p: Params, strategy: Strategy, bar: nat)
    requires bar < |c| && bar < |d| && c[..bar + 1] == d[..bar + 1]
    ensures Step(s, c, atr, p, strategy, bar) == Step(s, d, atr, p, strategy, bar)
  {
    hide Manage, Track, Open;
    assert c[bar] == c[..bar + 1][bar] && d[bar] == d[..bar + 1][bar];
    if bar >= WINDOW {
      assert c[bar - WINDOW..bar + 1] == c[..bar + 1][bar - WINDOW..];
      assert d[bar - WINDOW..bar + 1] == d[..bar + 1][bar - WINDOW..];
    }
  }

  lemma SameAtrs(c: seq<Candle>, d: seq<Candle>, i: nat)
    requires FIRST_BAR <= |c| && FIRST_BAR <= |d| && i + 1 < |c| && i + 1 < |d| && c[..i + 2] == d[..i + 2]
    ensures AtrAt(AtrTable(c), i) == AtrAt(AtrTable(d), i)
  {
    if i >= 14 {
      var u, v := TrueRanges(c)[i - 13..i + 1], TrueRanges(d)[i - 13..i + 1];
      forall j | 0 <= j < 14
        ensures u[j] == v[j]
      {
        var t := i - 13 + j;
        assert c[t] == c[..i + 2][t] == d[t] && c[t + 1] == c[..i + 2][t + 1] == d[..i + 2][t + 1] == d[t + 1];
      }
      assert u == v;
    }
  }

  /** Candles 0 to k+1 decide the state after bar k. */
  lemma OneCandleAheadSuffices(c: seq<Candle>, d: seq<Candle>, p: Params, strategy: Strategy, initial: real, k: nat)
    requires FIRST_BAR <= k && k + 2 <= |c| && k + 2 <= |d| && c[..k + 2] == d[..k + 2]
    ensures Replay(c, AtrTable(c), p, strategy, initial, k + 1) == Replay(d, AtrTable(d), p, strategy, initial, k + 1)
  {
    forall i: nat | i < k + 1
      ensures AtrAt(AtrTable(c), i) == AtrAt(AtrTable(d), i)
    {
      assert c[..i + 2] == c[..k + 2][..i + 2] && d[..i + 2] == d[..k + 2][..i + 2];
      SameAtrs(c, d, i);
    }
    assert c[..k + 1] == c[..k + 2][..k + 1] && d[..k + 1] == d[..k + 2][..k + 1];
    SameBarsSameState(c, d, AtrTable(c), AtrTable(d), p, strategy, initial, k + 1);
  }

  /** The ATR list moved one bar later, so that entry i averages candles up to i and no further. */
  function ShiftedAtrTable(c: seq<Candle>): seq<real>
    requires FIRST_BAR <= |c|
  {
    [0.0] + AtrTable(c)
  }

  /** With the ATR index moved by one bar the engine is causal: candles 0 to k decide the state after bar k. */
  lemma ShiftedEngineIsCausal(c: seq<Candle>, d: seq<Candle>, p: Params, strategy: Strategy, initial: real, k: nat)
    requires FIRST_BAR <= k && k + 1 <= |c| && k + 1 <= |d| && c[..k + 1] == d[..k + 1]
    ensures Replay(c, ShiftedAtrTable(c), p, strategy, initial, k + 1)
         == Replay(d, ShiftedAtrTable(d), p, strategy, initial, k + 1)
  {
    forall i: nat | i < k + 1
      ensures AtrAt(ShiftedAtrTable(c), i) == AtrAt(ShiftedAtrTable(d), i)
    {
      if i > 0 {
        assert c[..i + 1] == c[..k + 1][..i + 1] && d[..i + 1] == d[..k + 1][..i + 1];
        SameAtrs(c, d, i - 1);
      }
    }
    SameBarsSameState(c, d, ShiftedAtrTable(c), ShiftedAtrTable(d), p, strategy, initial, k + 1);
  }

  // ---------- exactly when the look-ahead matters ----------

  /** Bar `bar` opens a position whenever its ATR is positive. */
  predicate CanOpen(s: State, c: seq<Candle>, p: Params, strategy: Strategy, bar: nat)
    requires bar < |c|
  {
    Manage(s, c[bar], p.maxBars, bar).position.None? && Advised(c, strategy, bar).Some?
  }

  /** The two ATRs lead to the same entry: both allow none, or they put stop and target at the same prices. */
  predicate SameEntry(a: real, b: real, p: Params) {
    Max(a, 0.0) == Max(b, 0.0) || (0.0 < a && 0.0 < b && p.slMult == 0.0 && p.tpMult == 0.0)
  }

  /** The ATR of a bar changes the state after it exactly when the bar can open a position and the entry differs. */
  lemma AtrMattersExactlyAtEntries(s: State, c: seq<Candle>, a: real, b: real, p: Params, strategy: Strategy, bar: nat)
    requires bar < |c|
    ensures Step(s, c, a, p, strategy, bar) == Step(s, c, b, p, strategy, bar)
       <==> !CanOpen(s, c, p, strategy, bar) || SameEntry(a, b, p)
  {
    hide Manage, Track, Open;
    var m := Manage(s, c[bar], p.maxBars, bar);
    var x, y := Enter(m, c, a, p, strategy, bar), Enter(m, c, b, p, strategy, bar);
    TrackKeepsPosition(x, c[bar].close);
    TrackKeepsPosition(y, c[bar].close);
    if CanOpen(s, c, p, strategy, bar) && 0.0 < a && 0.0 < b {
      SameOpening(Advised(c, strategy, bar).value, c[bar].close, m.balance, a, b, p, bar);
    }
  }

  lemma SameOpening(dir: Direction, price: real, balance: real, a: real, b: real, p: Params, bar: int)
    requires 0.0 < a && 0.0 < b
    ensures Open(dir, price, balance, a, p, bar) == Open(dir, price, balance, b, p, bar) <==> SameEntry(a, b, p)
  {
    hide LotSize;
    if a != b {
      if p.slMult != 0.0 {
        StopsDiffer(a, b, p.slMult);
      }
      if p.tpMult != 0.0 {
        StopsDiffer(a, b, p.tpMult);
      }
    }
  }

  /**
    Two candle lists that agree up to bar k lead to the same state after it exactly when the bar cannot open a
    position or the two ATRs, which may differ by what candle k+1 holds, lead to the same entry.
  */
  lemma RunsDivergeExactlyAtEntries(c: seq<Candle>, d: seq<Candle>, p: Params, strategy: Strategy, initial: real, k: nat)
    requires FIRST_BAR <= k && k + 1 <= |c| && k + 1 <= |d| && c[..k + 1] == d[..k + 1]
    ensures Replay(c, AtrTable(c), p, strategy, initial, k + 1) == Replay(d, AtrTable(d), p, strategy, initial, k + 1)
       <==> !CanOpen(Replay(c, AtrTable(c), p, strategy, initial, k), c, p, strategy, k)
            || SameEntry(AtrAt(AtrTable(c), k), AtrAt(AtrTable(d), k), p)
  {
    hide Step, CanOpen, SameEntry;
    var s := Replay(c, AtrTable(c), p, strategy, initial, k);
    assert s == Replay(d, AtrTable(d), p, strategy, initial, k) by {
      if k > FIRST_BAR {
        OneCandleAheadSuffices(c, d, p, strategy, initial, k - 1);
      }
    }
    SameStep(s, c, d, AtrAt(AtrTable(d), k), p, strategy, k);
    AtrMattersExactlyAtEntries(s, c, AtrAt(AtrTable(c), k), AtrAt(AtrTable(d), k), p, strategy, k);
  }

  lemma TrackKeepsPosition(s: State, close: real)
    ensures Track(s, close).position == s.position
  {
  }

  lemma StopsDiffer(a: real, b: real, m: real)
    requires a != b && m != 0.0
    ensures a * m != b * m
  {
    assert (a - b) * m != 0.0;
  }

  /** Nothing is opened before the look-back window is full. */
  lemma {:induction false} FlatBeforeWindow(c: seq<Candle>, atrs: seq<real>, p: Params, strategy: Strategy,
                                            initial: real, n: nat)
    requires FIRST_BAR <= n <= |c| && n <= WINDOW
    ensures Replay(c, atrs, p, strategy, initial, n).position == None
    decreases n
  {
    hide Track;
    if n > FIRST_BAR {
      FlatBeforeWindow(c, atrs, p, strategy, initial, n - 1);
      var s := Replay(c, atrs, p, strategy, initial, n - 1);
      TrackKeepsPosition(Enter(Manage(s, c[n - 1], p.maxBars, n - 1), c, AtrAt(atrs, n - 1), p, strategy, n - 1),
                         c[n - 1].close);
    }
  }

  lemma SumOfZeros(s: seq<real>)
    requires forall i :: 0 <= i < |s| ==> s[i] == 0.0
    ensures Sum(s) == 0.0
  {
  }

  /** Agreement on candles 0 to k alone is not enough: a spike on candle 61 decides whether bar 60 opens. */
  lemma LookAheadIsReal(strategy: Strategy, p: Params, initial: real)
    requires forall w :: strategy(w) == Signal(Buy, 100.0)
    ensures exists c: seq<Candle>, d: seq<Candle> ::
              |c| == |d| == 62 && c[..61] == d[..61]
              && Replay(c, AtrTable(c), p, strategy, initial, 61) != Replay(d, AtrTable(d), p, strategy, initial, 61)
  {
    hide Step;
    var flat := Candle(1.0, 1.0, 1.0, 1.0);
    var c := seq(62, _ => flat);
    var d := c[61 := Candle(1.0, 2.0, 1.0, 1.0)];
    forall t | 47 <= t < 61
      ensures TrueRanges(c)[t] == 0.0
      ensures TrueRanges(d)[t] == if t == 60 then 1.0 else 0.0
    {
      assert c[t] == c[t + 1] == d[t] == flat;
    }
    var u, v := TrueRanges(c)[47..61], TrueRanges(d)[47..61];
    SumOfZeros(u);
    SumOfZeros(v[..13]);
    assert |v| == 14 && v[13] == 1.0;
    assert Sum(v) == Sum(v[..13]) + v[13];
    assert AtrTable(c)[60] == 0.0 && AtrTable(d)[60] == 1.0 / 14.0;
    assert c[..61] == d[..61];
    assert c[..60] == c[..61][..60] && d[..60] == d[..61][..60];
    OneBarBack(c, d, p, strategy, initial);
    var s := Replay(c, AtrTable(c), p, strategy, initial, 60);
    FlatBeforeWindow(c, AtrTable(c), p, strategy, initial, 60);
    FlatBeforeWindow(d, AtrTable(d), p, strategy, initial, 60);
    SameStep(s, c, d, 1.0 / 14.0, p, strategy, 60);
    AtrMattersExactlyAtEntries(s, c, 0.0, 1.0 / 14.0, p, strategy, 60);
  }

  lemma OneBarBack(c: seq<Candle>, d: seq<Candle>, p: Params, strategy: Strategy, initial: real)
    requires |c| == |d| == 62 && c[..61] == d[..61]
    ensures Replay(c, AtrTable(c), p, strategy, initial, 60) == Replay(d, AtrTable(d), p, strategy, initial, 60)
  {
    OneCandleAheadSuffices(c, d, p, strategy, initial, 59);
  }
}

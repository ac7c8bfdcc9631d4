/** What the streaming `peak_equity` / `max_drawdown_pct` pair of the replay loop measures over a whole run. */
module BacktestDrawdown {
  import opened Lists
  import opened Rounding
  import opened Backtest

  /** The equity series with the initial balance in front. */
  function Points(initial: real, s: State): seq<real> {
    [initial] + s.equities
  }

  /** How far point b lies below the highest point up to it, in percent; the points start positive. */
  function FallAt(pts: seq<real>, b: nat): real
    requires b < |pts| && 0.0 < pts[0]
  {
    HighestIsHighest(pts[..b + 1]);
    assert pts[..b + 1][0] == pts[0];
    Fall(Highest(pts[..b + 1]), pts[b])
  }

  ghost predicate WorstFall(pts: seq<real>, drop: real)
    requires pts != [] && 0.0 < pts[0]
  {
    && (forall b :: 0 <= b < |pts| ==> FallAt(pts, b) <= drop)
    && (exists b :: 0 <= b < |pts| && FallAt(pts, b) == drop)
  }

  lemma FallAtPrefix(pts: seq<real>, e: real, b: nat)
    requires b < |pts| && 0.0 < pts[0]
    ensures FallAt(pts + [e], b) == FallAt(pts, b)
  {
    assert (pts + [e])[..b + 1] == pts[..b + 1];
  }

  lemma WorstFallGrows(pts: seq<real>, drop: real, e: real)
    requires pts != [] && 0.0 < pts[0] && WorstFall(pts, drop)
    ensures WorstFall(pts + [e], Max(drop, FallAt(pts + [e], |pts|)))
  {
    hide FallAt;
    var all := pts + [e];
    var drop' := Max(drop, FallAt(all, |pts|));
    forall b | 0 <= b < |all|
      ensures FallAt(all, b) <= drop'
    {
      if b < |pts| {
        FallAtPrefix(pts, e, b);
        assert FallAt(pts, b) <= drop;
      }
    }
    var b :| 0 <= b < |pts| && FallAt(pts, b) == drop;
    FallAtPrefix(pts, e, b);
    assert FallAt(all, if drop' == drop then b else |pts|) == drop';
  }

  ghost predicate Tracked(s: State, initial: real)
    requires 0.0 < initial
  {
    s.peak == Highest(Points(initial, s)) && WorstFall(Points(initial, s), s.maxDrop)
  }

  lemma TrackKeepsTracking(s: State, close: real, initial: real)
    requires 0.0 < initial && Tracked(s, initial)
    ensures Tracked(Track(s, close), initial)
  {
    hide Fall, Pnl, WorstFall;
    var pts, e := Points(initial, s), Equity(s, close);
    assert Points(initial, Track(s, close)) == pts + [e];
    assert (pts + [e])[..|pts|] == pts && (pts + [e])[..|pts| + 1] == pts + [e];
    HighestIsHighest(pts + [e]);
    assert (pts + [e])[0] == initial;
    WorstFallGrows(pts, s.maxDrop, e);
  }

  lemma StartIsTracked(initial: real)
    requires 0.0 < initial
    ensures Tracked(Start(initial), initial)
  {
    var pts := Points(initial, Start(initial));
    assert pts[..1] == pts && FallAt(pts, 0) == 0.0;
  }

  lemma {:induction false} ReplayIsTracked(c: seq<Candle>, atrs: seq<real>, p: Params, strategy: Strategy,
                                           initial: real, n: nat)
    requires FIRST_BAR <= n <= |c| && 0.0 < initial
    ensures Tracked(Replay(c, atrs, p, strategy, initial, n), initial)
    decreases n
  {
    hide Track, Tracked, Manage, Enter;
    StartIsTracked(initial);
    if n > FIRST_BAR {
      var bar, s := n - 1, Replay(c, atrs, p, strategy, initial, n - 1);
      ReplayIsTracked(c, atrs, p, strategy, initial, n - 1);
      var entered := Enter(Manage(s, c[bar], p.maxBars, bar), c, AtrAt(atrs, bar), p, strategy, bar);
      SettlingKeepsTracking(s, c, AtrAt(atrs, bar), p, strategy, bar, initial);
      TrackKeepsTracking(entered, c[bar].close, initial);
    }
  }

  lemma SettlingKeepsTracking(s: State, c: seq<Candle>, atr: real, p: Params, strategy: Strategy, bar: nat,
                              initial: real)
    requires bar < |c| && 0.0 < initial && Tracked(s, initial)
    ensures Tracked(Enter(Manage(s, c[bar], p.maxBars, bar), c, atr, p, strategy, bar), initial)
  {
    hide WorstFall, Highest, Pnl, LotSize;
  }

  /** The maximum drawdown is the worst percentage fall from the running peak, over every bar of the run. */
  lemma DrawdownIsWorstFall(c: seq<Candle>, p: Params, strategy: Strategy, initial: real)
    requires FIRST_BAR <= |c| && 0.0 < initial
    ensures var s := Final(c, p, strategy, initial);
            WorstFall(Points(initial, s), s.maxDrop)
  {
    hide Tracked;
    var s := Replay(c, AtrTable(c), p, strategy, initial, |c|);
    ReplayIsTracked(c, AtrTable(c), p, strategy, initial, |c|);
    FinishKeepsEquities(s, c, initial);
  }

  lemma FinishKeepsEquities(s: State, c: seq<Candle>, initial: real)
    requires 1 <= |c| && 0.0 < initial && Tracked(s, initial)
    ensures var t := Finish(s, c);
            WorstFall(Points(initial, t), t.maxDrop)
  {
    hide WorstFall, Highest, Pnl;
  }
}

/** What every run of the replay engine keeps: the money adds up, and trades do not overlap. */
module BacktestProofs {
  import opened Options
  import opened Rounding
  import opened Backtest

  // ---------- conservation ----------

  function TotalPnl(fills: seq<Fill>): real {
    if fills == [] then 0.0
    else TotalPnl(fills[..|fills| - 1]) + Pnl(fills[|fills| - 1].position, fills[|fills| - 1].exit)
  }

  function TotalRecorded(trades: seq<Trade>): real {
    if trades == [] then 0.0 else TotalRecorded(trades[..|trades| - 1]) + trades[|trades| - 1].pnl
  }

  lemma CloseKeepsBalance(s: State, f: Fill, initial: real)
    requires s.balance == initial + TotalPnl(s.fills)
    ensures Close(s, f).balance == initial + TotalPnl(Close(s, f).fills)
  {
    assert (s.fills + [f])[..|s.fills|] == s.fills;
  }

  lemma {:induction false} ReplayConserves(c: seq<Candle>, atrs: seq<real>, p: Params, strategy: Strategy,
                                           initial: real, n: nat)
    requires FIRST_BAR <= n <= |c|
    ensures var s := Replay(c, atrs, p, strategy, initial, n);
            s.balance == initial + TotalPnl(s.fills) && |s.equities| == n - FIRST_BAR
    decreases n
  {
    hide Step;
    if n > FIRST_BAR {
      ReplayConserves(c, atrs, p, strategy, initial, n - 1);
      StepConserves(Replay(c, atrs, p, strategy, initial, n - 1), c, AtrAt(atrs, n - 1), p, strategy, n - 1, initial);
    }
  }

  lemma StepConserves(s: State, c: seq<Candle>, atr: real, p: Params, strategy: Strategy, bar: nat, initial: real)
    requires bar < |c| && s.balance == initial + TotalPnl(s.fills)
    ensures var t := Step(s, c, atr, p, strategy, bar);
            t.balance == initial + TotalPnl(t.fills) && |t.equities| == |s.equities| + 1
  {
    hide Pnl, Fall, LotSize, Round;
    if s.position.Some? {
      var q := s.position.value;
      var exit := ExitPrice(q, c[bar], bar - q.bar, p.maxBars);
      if exit.Some? {
        CloseKeepsBalance(s, Fill(q, bar, exit.value), initial);
      }
    }
  }

  /** The money made is exactly what the trades made; if any bar was replayed it is also the last equity seen. */
  lemma FinalBalanceIsConserved(c: seq<Candle>, p: Params, strategy: Strategy, initial: real)
    requires FIRST_BAR <= |c|
    ensures var s := Final(c, p, strategy, initial);
            && s.balance - initial == TotalPnl(s.fills)
            && s.position == None
            && (|c| > FIRST_BAR ==> s.equities != [] && s.equities[|s.equities| - 1] == s.balance)
  {
    var s := Replay(c, AtrTable(c), p, strategy, initial, |c|);
    ReplayConserves(c, AtrTable(c), p, strategy, initial, |c|);
    if s.position.Some? {
      CloseKeepsBalance(s, Fill(s.position.value, |c| - 1, c[|c| - 1].close), initial);
    }
    if |c| > FIRST_BAR {
      LastEquity(Replay(c, AtrTable(c), p, strategy, initial, |c| - 1), c, AtrAt(AtrTable(c), |c| - 1), p, strategy);
    }
  }

  lemma LastEquity(s: State, c: seq<Candle>, atr: real, p: Params, strategy: Strategy)
    requires 1 <= |c|
    ensures var t := Step(s, c, atr, p, strategy, |c| - 1);
            t.equities != [] && t.equities[|t.equities| - 1] == Finish(t, c).balance
  {
  }

  /** The recorded P&L figures are rounded to cents; their sum is within half a cent a trade of the exact one. */
  lemma {:induction false} RecordedPnlIsClose(fills: seq<Fill>)
    ensures Abs(TotalRecorded(Records(fills)) - TotalPnl(fills)) <= 0.005 * |fills| as real
  {
    if fills != [] {
      var front, f := fills[..|fills| - 1], fills[|fills| - 1];
      RecordedPnlIsClose(front);
      RoundError(Pnl(f.position, f.exit), 100);
      assert Records(fills)[..|fills| - 1] == Records(front);
    }
  }

  // ---------- order of trades ----------

  function Horizon(p: Params): int {
    if p.maxBars < 1 then 1 else p.maxBars
  }

  ghost predicate Ordered(fills: seq<Fill>, p: Params, last: int) {
    && (forall k :: 0 <= k < |fills| ==>
          WINDOW <= fills[k].position.bar <= fills[k].exitBar <= last
          && fills[k].exitBar <= fills[k].position.bar + Horizon(p))
    && (forall j, k :: 0 <= j < k < |fills| ==> fills[j].exitBar <= fills[k].position.bar)
  }

  ghost predicate WellTimed(s: State, p: Params, last: int) {
    && Ordered(s.fills, p, last)
    && (s.position.Some? ==>
          && WINDOW <= s.position.value.bar <= last
          && last - s.position.value.bar < Horizon(p)
          && forall k :: 0 <= k < |s.fills| ==> s.fills[k].exitBar <= s.position.value.bar)
  }

  lemma ManageKeepsTime(s: State, c: Candle, p: Params, bar: int)
    requires WellTimed(s, p, bar - 1)
    ensures WellTimed(Manage(s, c, p.maxBars, bar), p, bar)
  {
  }

  lemma TrackKeepsTime(s: State, close: real, p: Params, bar: int)
    requires WellTimed(s, p, bar)
    ensures WellTimed(Track(s, close), p, bar)
  {
  }

  lemma EnterKeepsTime(s: State, c: seq<Candle>, atr: real, p: Params, strategy: Strategy, bar: nat)
    requires bar < |c| && WellTimed(s, p, bar)
    ensures WellTimed(Enter(s, c, atr, p, strategy, bar), p, bar)
  {
  }

  lemma StepKeepsTime(s: State, c: seq<Candle>, atr: real, p: Params, strategy: Strategy, bar: nat)
    requires bar < |c| && WellTimed(s, p, bar - 1)
    ensures WellTimed(Step(s, c, atr, p, strategy, bar), p, bar)
  {
    hide Manage, Enter, Track, WellTimed;
    var managed := Manage(s, c[bar], p.maxBars, bar);
    ManageKeepsTime(s, c[bar], p, bar);
    EnterKeepsTime(managed, c, atr, p, strategy, bar);
    TrackKeepsTime(Enter(managed, c, atr, p, strategy, bar), c[bar].close, p, bar);
  }

  lemma {:induction false} ReplayIsWellTimed(c: seq<Candle>, atrs: seq<real>, p: Params, strategy: Strategy,
                                             initial: real, n: nat)
    requires FIRST_BAR <= n <= |c|
    ensures WellTimed(Replay(c, atrs, p, strategy, initial, n), p, n - 1)
    decreases n
  {
    hide Step;
    if n > FIRST_BAR {
      ReplayIsWellTimed(c, atrs, p, strategy, initial, n - 1);
      StepKeepsTime(Replay(c, atrs, p, strategy, initial, n - 1), c, AtrAt(atrs, n - 1), p, strategy, n - 1);
    }
  }

  /** Trades never overlap, none is held past the time-out, and none starts before the look-back window is full. */
  lemma TradesAreOrdered(c: seq<Candle>, p: Params, strategy: Strategy, initial: real)
    requires FIRST_BAR <= |c|
    ensures Ordered(Final(c, p, strategy, initial).fills, p, |c| - 1)
  {
    ReplayIsWellTimed(c, AtrTable(c), p, strategy, initial, |c|);
  }
}

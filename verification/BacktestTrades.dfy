/**
  Which trades a run makes, said of the candles and of what the strategy advises: where they start, what is staked,
  which bar and price end them, and that no advice is missed; and what the report says of them.
*/
module BacktestTrades {
  import opened Options
  import opened Rounding
  import opened Backtest
  import opened BacktestProofs
  import opened BacktestRisk

  // ---------- exits ----------

  /** Bar b leaves q open: it reaches neither stop nor target, and the time-out is not due. */
  predicate Quiet(c: seq<Candle>, q: Position, b: int, maxBars: int)
    requires 0 <= b < |c|
  {
    && (q.dir == Long ==> q.sl < c[b].low && c[b].high < q.tp)
    && (q.dir == Short ==> c[b].high < q.sl && q.tp < c[b].low)
    && b - q.bar < maxBars
  }

  /** The exit bar decides the price: the stop first, then the target, then the close if the time-out is due. */
  predicate FirstTouch(c: seq<Candle>, f: Fill, maxBars: int)
    requires 0 <= f.exitBar < |c|
  {
    var q, x := f.position, c[f.exitBar];
    var due := f.exitBar - q.bar >= maxBars;
    && (q.dir == Long ==>
          if x.low <= q.sl then f.exit == q.sl
          else if x.high >= q.tp then f.exit == q.tp
          else due && f.exit == x.close)
    && (q.dir == Short ==>
          if x.high >= q.sl then f.exit == q.sl
          else if x.low <= q.tp then f.exit == q.tp
          else due && f.exit == x.close)
  }

  ghost predicate QuietBetween(c: seq<Candle>, q: Position, n: int, maxBars: int)
    requires n <= |c| && 0 <= q.bar
  {
    forall b :: q.bar < b < n ==> Quiet(c, q, b, maxBars)
  }

  /** The fill ended on the first bar after its entry that did not leave it open. */
  ghost predicate Touched(c: seq<Candle>, f: Fill, n: int, maxBars: int)
    requires n <= |c|
  {
    0 <= f.position.bar < f.exitBar < n
    && QuietBetween(c, f.position, f.exitBar, maxBars) && FirstTouch(c, f, maxBars)
  }

  /** Or no bar ended it, and it was closed at the last close. */
  ghost predicate ClosedAtEnd(c: seq<Candle>, f: Fill, maxBars: int) {
    0 <= f.position.bar <= f.exitBar == |c| - 1
    && QuietBetween(c, f.position, |c|, maxBars) && f.exit == c[|c| - 1].close
  }

  ghost predicate ExitsTold(c: seq<Candle>, s: State, n: nat, maxBars: int)
    requires n <= |c|
  {
    && (forall k :: 0 <= k < |s.fills| ==> Touched(c, s.fills[k], n, maxBars))
    && (s.position.Some? ==> 0 <= s.position.value.bar && QuietBetween(c, s.position.value, n, maxBars))
  }

  lemma TouchedLater(c: seq<Candle>, f: Fill, n: int, m: int, maxBars: int)
    requires n <= m <= |c| && Touched(c, f, n, maxBars)
    ensures Touched(c, f, m, maxBars)
  {
  }

  lemma ManageTellsExits(c: seq<Candle>, s: State, bar: nat, maxBars: int)
    requires bar < |c| && ExitsTold(c, s, bar, maxBars) && (s.position.Some? ==> s.position.value.bar < bar)
    ensures ExitsTold(c, Manage(s, c[bar], maxBars, bar), bar + 1, maxBars)
  {
    hide Pnl;
    forall k | 0 <= k < |s.fills|
      ensures Touched(c, s.fills[k], bar + 1, maxBars)
    {
      TouchedLater(c, s.fills[k], bar, bar + 1, maxBars);
    }
  }

  lemma EnterTellsExits(c: seq<Candle>, s: State, atr: real, p: Params, strategy: Strategy, bar: nat)
    requires bar < |c| && ExitsTold(c, s, bar + 1, p.maxBars)
    ensures ExitsTold(c, Enter(s, c, atr, p, strategy, bar), bar + 1, p.maxBars)
  {
    hide LotSize, Touched;
  }

  lemma TrackTellsExits(c: seq<Candle>, s: State, close: real, n: nat, maxBars: int)
    requires n <= |c| && ExitsTold(c, s, n, maxBars)
    ensures ExitsTold(c, Track(s, close), n, maxBars)
  {
    hide Pnl, Fall, Touched;
  }

  lemma {:induction false} ReplayTellsExits(c: seq<Candle>, atrs: seq<real>, p: Params, strategy: Strategy,
                                            initial: real, n: nat)
    requires FIRST_BAR <= n <= |c|
    ensures ExitsTold(c, Replay(c, atrs, p, strategy, initial, n), n, p.maxBars)
    decreases n
  {
    hide Manage, Enter, Track, Touched, QuietBetween, WellTimed;
    if n > FIRST_BAR {
      var bar, s := n - 1, Replay(c, atrs, p, strategy, initial, n - 1);
      ReplayTellsExits(c, atrs, p, strategy, initial, bar);
      ReplayIsWellTimed(c, atrs, p, strategy, initial, bar);
      OpenIsPast(s, p, bar - 1);
      var managed := Manage(s, c[bar], p.maxBars, bar);
      ManageTellsExits(c, s, bar, p.maxBars);
      EnterTellsExits(c, managed, AtrAt(atrs, bar), p, strategy, bar);
      TrackTellsExits(c, Enter(managed, c, AtrAt(atrs, bar), p, strategy, bar), c[bar].close, n, p.maxBars);
    }
  }

  lemma OpenIsPast(s: State, p: Params, last: int)
    requires WellTimed(s, p, last)
    ensures s.position.Some? ==> WINDOW <= s.position.value.bar <= last
    ensures forall k :: 0 <= k < |s.fills| ==> s.fills[k].position.bar <= last
  {
  }

  /**
    How every trade of every run ends: on the first bar after its entry that reaches its stop or its target or on which
    its time-out is due, at the stop if that is reached, else at the target if that is, else at the close; or, if there
    is no such bar, at the last close.
  */
  lemma ExitsAreFirstTouches(c: seq<Candle>, p: Params, strategy: Strategy, initial: real, k: nat)
    requires FIRST_BAR <= |c| && k < |Final(c, p, strategy, initial).fills|
    ensures var f := Final(c, p, strategy, initial).fills[k];
            Touched(c, f, |c|, p.maxBars) || ClosedAtEnd(c, f, p.maxBars)
  {
    hide Replay, Touched, QuietBetween, WellTimed, Pnl;
    var s := Replay(c, AtrTable(c), p, strategy, initial, |c|);
    ReplayTellsExits(c, AtrTable(c), p, strategy, initial, |c|);
    ReplayIsWellTimed(c, AtrTable(c), p, strategy, initial, |c|);
    OpenIsPast(s, p, |c| - 1);
  }

  // ---------- entries ----------

  /** The strategy, shown candles b-60 to b, advises a side with a strength of at least 60. */
  predicate Advises(c: seq<Candle>, strategy: Strategy, b: int, dir: Direction)
    requires 0 <= b < |c|
  {
    b >= 60
    && var signal := strategy(c[b - 60..b + 1]);
       signal.strength >= 60.0
       && match dir
          case Long => signal.advice == Buy || signal.advice == StrongBuy
          case Short => signal.advice == Sell || signal.advice == StrongSell
  }

  /** The lots staked with a stop at distance d: the nearest hundredth of what the stake buys, but at least 0.01. */
  ghost predicate Staked(lots: real, balance: real, risk: real, d: real) {
    if d <= 0.0 then lots == 0.01
    else
      var exact := balance * risk / (d * 100000.0);
      || (lots > 0.01 && RoundsTo(exact, lots, 100.0))
      || (lots == 0.01 && exact * 100.0 <= 1.5)
  }

  /** The position was opened at the close of its bar, as advised, with stop and target at multiples of the ATR. */
  ghost predicate Placed(c: seq<Candle>, atrs: seq<real>, p: Params, strategy: Strategy, q: Position, balance: real) {
    && 60 <= q.bar < |c|
    && var atr := AtrAt(atrs, q.bar);
       && atr > 0.0 && q.entry == c[q.bar].close && Advises(c, strategy, q.bar, q.dir)
       && Staked(q.lots, balance, p.risk, StopDistance(q))
       && match q.dir
          case Long => q.sl == q.entry - atr * p.slMult && q.tp == q.entry + atr * p.tpMult
          case Short => q.sl == q.entry + atr * p.slMult && q.tp == q.entry - atr * p.tpMult
  }

  /** Every position of a run so far, the open one last. */
  ghost function Opened(s: State): (r: seq<Position>)
    ensures |r| == |s.fills| + if s.position.Some? then 1 else 0
    ensures forall k :: 0 <= k < |s.fills| ==> r[k] == s.fills[k].position
    ensures s.position.Some? ==> r[|s.fills|] == s.position.value
  {
    seq(|s.fills|, k requires 0 <= k < |s.fills| => s.fills[k].position)
    + if s.position.Some? then [s.position.value] else []
  }

  ghost predicate AllPlaced(c: seq<Candle>, atrs: seq<real>, p: Params, strategy: Strategy, initial: real, s: State) {
    && s.balance == initial + TotalPnl(s.fills)
    && forall k :: 0 <= k < |Opened(s)| ==>
         Placed(c, atrs, p, strategy, Opened(s)[k], BalanceAfter(initial, s.fills, k))
  }

  lemma ManageKeepsOpened(s: State, c: Candle, maxBars: int, bar: int, initial: real)
    requires s.balance == initial + TotalPnl(s.fills)
    ensures var t := Manage(s, c, maxBars, bar);
            && Opened(t) == Opened(s) && t.balance == initial + TotalPnl(t.fills)
            && forall k :: 0 <= k < |Opened(s)| ==>
                 k <= |t.fills| && BalanceAfter(initial, t.fills, k) == BalanceAfter(initial, s.fills, k)
  {
    hide Pnl;
    var t := Manage(s, c, maxBars, bar);
    if t != s {
      var f := t.fills[|s.fills|];
      CloseKeepsBalance(s, f, initial);
      assert t.fills == s.fills + [f];
      assert forall k :: 0 <= k <= |s.fills| ==> t.fills[..k] == s.fills[..k];
      assert Opened(t) == Opened(s);
    }
  }

  lemma ManageKeepsPlaced(c: seq<Candle>, atrs: seq<real>, p: Params, strategy: Strategy, initial: real, s: State,
                          x: Candle, bar: int)
    requires AllPlaced(c, atrs, p, strategy, initial, s)
    ensures AllPlaced(c, atrs, p, strategy, initial, Manage(s, x, p.maxBars, bar))
  {
    hide Placed, Manage, Opened, BalanceAfter;
    ManageKeepsOpened(s, x, p.maxBars, bar, initial);
  }

  lemma LotsAreStaked(balance: real, risk: real, d: real)
    ensures Staked(LotSize(balance, risk, d), balance, risk, d)
  {
    if d > 0.0 {
      var exact := balance * risk / (d * 100000.0);
      RoundExactly(exact, Round(exact, 100), 100);
      NearestFromBelow(exact);
      hide Round, RoundsTo;
    }
  }

  lemma NearestFromBelow(x: real)
    ensures Round(x, 100) <= 0.01 ==> x * 100.0 <= 1.5
  {
    RoundError(x, 100);
    hide Round;
  }

  lemma AdvisedAdvises(c: seq<Candle>, strategy: Strategy, bar: nat)
    requires bar < |c|
    ensures match Advised(c, strategy, bar)
            case None => forall dir :: !Advises(c, strategy, bar, dir)
            case Some(dir) => 60 <= bar && Advises(c, strategy, bar, dir)
  {
  }

  lemma OpenStakes(dir: Direction, price: real, balance: real, atr: real, p: Params, bar: int)
    ensures var q := Open(dir, price, balance, atr, p, bar);
            && Staked(q.lots, balance, p.risk, StopDistance(q))
            && q.bar == bar && q.dir == dir && q.entry == price
            && match dir
               case Long => q.sl == price - atr * p.slMult && q.tp == price + atr * p.tpMult
               case Short => q.sl == price + atr * p.slMult && q.tp == price - atr * p.tpMult
  {
    hide LotSize, Staked;
    LotsAreStaked(balance, p.risk, StopDistance(Open(dir, price, balance, atr, p, bar)));
  }

  lemma OpenIsPlaced(c: seq<Candle>, atrs: seq<real>, p: Params, strategy: Strategy, balance: real, bar: nat,
                     dir: Direction)
    requires bar < |c| && AtrAt(atrs, bar) > 0.0 && Advised(c, strategy, bar) == Some(dir)
    ensures Placed(c, atrs, p, strategy, Open(dir, c[bar].close, balance, AtrAt(atrs, bar), p, bar), balance)
  {
    hide Staked, AtrAt, Advised, Advises, Open;
    AdvisedAdvises(c, strategy, bar);
    OpenStakes(dir, c[bar].close, balance, AtrAt(atrs, bar), p, bar);
  }

  lemma EnterKeepsPlaced(c: seq<Candle>, atrs: seq<real>, p: Params, strategy: Strategy, initial: real, s: State,
                         bar: nat)
    requires bar < |c| && AllPlaced(c, atrs, p, strategy, initial, s)
    ensures AllPlaced(c, atrs, p, strategy, initial, Enter(s, c, AtrAt(atrs, bar), p, strategy, bar))
  {
    hide Placed, Open, Advised, AtrAt;
    var t := Enter(s, c, AtrAt(atrs, bar), p, strategy, bar);
    if t != s {
      OpenIsPlaced(c, atrs, p, strategy, s.balance, bar, Advised(c, strategy, bar).value);
      assert s.fills[..|s.fills|] == s.fills;
    }
  }

  lemma TrackKeepsPlaced(c: seq<Candle>, atrs: seq<real>, p: Params, strategy: Strategy, initial: real, s: State,
                         close: real)
    requires AllPlaced(c, atrs, p, strategy, initial, s)
    ensures AllPlaced(c, atrs, p, strategy, initial, Track(s, close))
    ensures Opened(Track(s, close)) == Opened(s)
  {
    hide Placed, Pnl, Fall;
    assert Opened(Track(s, close)) == Opened(s);
  }

  // ---------- none is missed ----------

  ghost predicate Begins(begun: seq<Position>, b: int) {
    exists k :: 0 <= k < |begun| && begun[k].bar == b
  }

  /** A trade that began before bar b is still open when b asks for an entry. */
  ghost predicate OpenOver(c: seq<Candle>, fills: seq<Fill>, b: int, maxBars: int)
    requires 0 <= b < |c|
  {
    exists k :: 0 <= k < |fills| && fills[k].position.bar < b <= fills[k].exitBar
                && Quiet(c, fills[k].position, b, maxBars)
  }

  ghost predicate Wanted(c: seq<Candle>, atrs: seq<real>, strategy: Strategy, b: nat)
    requires b < |c|
  {
    AtrAt(atrs, b) > 0.0 && exists dir :: Advises(c, strategy, b, dir)
  }

  ghost predicate NoneMissed(c: seq<Candle>, atrs: seq<real>, strategy: Strategy, s: State, n: nat, maxBars: int)
    requires n <= |c|
  {
    forall b: nat :: FIRST_BAR <= b < n ==>
      (Begins(Opened(s), b) <==>
       && Wanted(c, atrs, strategy, b)
       && !OpenOver(c, s.fills, b, maxBars)
       && !(s.position.Some? && s.position.value.bar < b))
  }

  /** Closing a position does not change over which bars it was open. */
  lemma OpenOverGrows(c: seq<Candle>, fills: seq<Fill>, f: Fill, b: nat, maxBars: int)
    requires b < |c|
    ensures OpenOver(c, fills + [f], b, maxBars) <==>
            OpenOver(c, fills, b, maxBars)
            || (f.position.bar < b <= f.exitBar && Quiet(c, f.position, b, maxBars))
  {
    hide Quiet;
    var all := fills + [f];
    if k :| 0 <= k < |fills| && fills[k].position.bar < b <= fills[k].exitBar
            && Quiet(c, fills[k].position, b, maxBars) {
      assert all[k] == fills[k];
    }
    assert all[|fills|] == f;
  }

  lemma ManageMissesNone(c: seq<Candle>, atrs: seq<real>, p: Params, strategy: Strategy, initial: real, s: State,
                         bar: nat)
    requires bar < |c| && ExitsTold(c, s, bar, p.maxBars) && s.balance == initial + TotalPnl(s.fills)
    requires NoneMissed(c, atrs, strategy, s, bar, p.maxBars)
    ensures NoneMissed(c, atrs, strategy, Manage(s, c[bar], p.maxBars, bar), bar, p.maxBars)
  {
    hide Pnl, Begins, Wanted, OpenOver, Quiet, Touched, Opened;
    var t := Manage(s, c[bar], p.maxBars, bar);
    ManageKeepsOpened(s, c[bar], p.maxBars, bar, initial);
    if t != s {
      var f := t.fills[|s.fills|];
      assert t.fills == s.fills + [f];
      forall b: nat | FIRST_BAR <= b < bar
        ensures OpenOver(c, t.fills, b, p.maxBars) <==>
                OpenOver(c, s.fills, b, p.maxBars) || s.position.value.bar < b
      {
        OpenOverGrows(c, s.fills, f, b, p.maxBars);
      }
    }
  }

  lemma EndedByItsBar(c: seq<Candle>, f: Fill, n: int, maxBars: int)
    requires n <= |c| && Touched(c, f, n, maxBars)
    ensures !Quiet(c, f.position, f.exitBar, maxBars)
  {
  }

  /** On the bar just managed, only the position left open is open over it. */
  lemma OnlyTheOpenOne(c: seq<Candle>, s: State, bar: nat, maxBars: int)
    requires bar < |c| && ExitsTold(c, s, bar + 1, maxBars)
    ensures !OpenOver(c, s.fills, bar, maxBars)
  {
    hide Touched, Quiet;
    forall k | 0 <= k < |s.fills|
      ensures !(bar <= s.fills[k].exitBar && Quiet(c, s.fills[k].position, bar, maxBars))
    {
      EndedByItsBar(c, s.fills[k], bar + 1, maxBars);
      TouchedIsPast(c, s.fills[k], bar + 1, maxBars);
    }
  }

  lemma TouchedIsPast(c: seq<Candle>, f: Fill, n: int, maxBars: int)
    requires n <= |c| && Touched(c, f, n, maxBars)
    ensures f.exitBar < n
  {
  }

  lemma EnterMissesNone(c: seq<Candle>, atrs: seq<real>, p: Params, strategy: Strategy, s: State, bar: nat)
    requires FIRST_BAR <= bar < |c| && ExitsTold(c, s, bar + 1, p.maxBars)
    requires NoneMissed(c, atrs, strategy, s, bar, p.maxBars)
    requires forall k :: 0 <= k < |Opened(s)| ==> Opened(s)[k].bar < bar
    ensures NoneMissed(c, atrs, strategy, Enter(s, c, AtrAt(atrs, bar), p, strategy, bar), bar + 1, p.maxBars)
  {
    hide OpenOver, Advises, Advised, ExitsTold, LotSize, AtrAt, Opened;
    OnlyTheOpenOne(c, s, bar, p.maxBars);
    AdvisedAdvises(c, strategy, bar);
    var t := Enter(s, c, AtrAt(atrs, bar), p, strategy, bar);
    if t != s {
      assert Opened(t)[|s.fills|].bar == bar;
      forall b: nat | b < bar
        ensures Begins(Opened(t), b) <==> Begins(Opened(s), b)
      {
        SameBeginnings(s, t, b);
      }
    } else if s.position.Some? {
      assert Opened(s)[|s.fills|].bar < bar;
    }
  }

  lemma SameBeginnings(s: State, t: State, b: nat)
    requires s.position.None? && t.fills == s.fills && t.position.Some? && t.position.value.bar != b
    ensures Begins(Opened(t), b) <==> Begins(Opened(s), b)
  {
    hide Opened;
    if k :| 0 <= k < |Opened(s)| && Opened(s)[k].bar == b {
      assert Opened(t)[k].bar == b;
    }
    if k :| 0 <= k < |Opened(t)| && Opened(t)[k].bar == b {
      assert Opened(s)[k].bar == b;
    }
  }

  lemma TrackMissesNone(c: seq<Candle>, atrs: seq<real>, strategy: Strategy, s: State, close: real, n: nat,
                        maxBars: int)
    requires n <= |c| && NoneMissed(c, atrs, strategy, s, n, maxBars)
    ensures NoneMissed(c, atrs, strategy, Track(s, close), n, maxBars)
  {
    hide Wanted, OpenOver, Begins, Pnl, Fall;
    assert Opened(Track(s, close)) == Opened(s);
  }

  lemma OpenedArePast(s: State, p: Params, last: int)
    requires WellTimed(s, p, last)
    ensures forall k :: 0 <= k < |Opened(s)| ==> Opened(s)[k].bar <= last
  {
    OpenIsPast(s, p, last);
    hide WellTimed;
  }

  lemma StepTellsEntries(c: seq<Candle>, atrs: seq<real>, p: Params, strategy: Strategy, initial: real, s: State,
                         bar: nat)
    requires FIRST_BAR <= bar < |c| && ExitsTold(c, s, bar, p.maxBars) && WellTimed(s, p, bar - 1)
    requires AllPlaced(c, atrs, p, strategy, initial, s) && NoneMissed(c, atrs, strategy, s, bar, p.maxBars)
    ensures var t := Step(s, c, AtrAt(atrs, bar), p, strategy, bar);
            AllPlaced(c, atrs, p, strategy, initial, t) && NoneMissed(c, atrs, strategy, t, bar + 1, p.maxBars)
  {
    StepInParts(s, c, AtrAt(atrs, bar), p, strategy, bar);
    BalanceOfPlaced(c, atrs, p, strategy, initial, s);
    OpenIsPast(s, p, bar - 1);
    OpenedArePast(s, p, bar - 1);
    hide *;
    var managed := Manage(s, c[bar], p.maxBars, bar);
    var entered := Enter(managed, c, AtrAt(atrs, bar), p, strategy, bar);
    ManageKeepsOpened(s, c[bar], p.maxBars, bar, initial);
    ManageTellsExits(c, s, bar, p.maxBars);
    ManageMissesNone(c, atrs, p, strategy, initial, s, bar);
    ManageKeepsPlaced(c, atrs, p, strategy, initial, s, c[bar], bar);
    EnterMissesNone(c, atrs, p, strategy, managed, bar);
    EnterKeepsPlaced(c, atrs, p, strategy, initial, managed, bar);
    TrackKeepsPlaced(c, atrs, p, strategy, initial, entered, c[bar].close);
    TrackMissesNone(c, atrs, strategy, entered, c[bar].close, bar + 1, p.maxBars);
  }

  lemma StepInParts(s: State, c: seq<Candle>, atr: real, p: Params, strategy: Strategy, bar: nat)
    requires bar < |c|
    ensures Step(s, c, atr, p, strategy, bar)
         == Track(Enter(Manage(s, c[bar], p.maxBars, bar), c, atr, p, strategy, bar), c[bar].close)
  {
    hide Manage, Enter, Track;
  }

  lemma BalanceOfPlaced(c: seq<Candle>, atrs: seq<real>, p: Params, strategy: Strategy, initial: real, s: State)
    requires AllPlaced(c, atrs, p, strategy, initial, s)
    ensures s.balance == initial + TotalPnl(s.fills)
  {
    hide Placed, Opened;
  }

  lemma {:induction false} ReplayTellsEntries(c: seq<Candle>, atrs: seq<real>, p: Params, strategy: Strategy,
                                              initial: real, n: nat)
    requires FIRST_BAR <= n <= |c|
    ensures var s := Replay(c, atrs, p, strategy, initial, n);
            AllPlaced(c, atrs, p, strategy, initial, s) && NoneMissed(c, atrs, strategy, s, n, p.maxBars)
    decreases n
  {
    hide Step, AllPlaced, NoneMissed, ExitsTold, WellTimed;
    if n == FIRST_BAR {
      NothingMissedYet(c, atrs, p, strategy, initial);
    } else {
      ReplayTellsEntries(c, atrs, p, strategy, initial, n - 1);
      ReplayTellsExits(c, atrs, p, strategy, initial, n - 1);
      ReplayIsWellTimed(c, atrs, p, strategy, initial, n - 1);
      StepTellsEntries(c, atrs, p, strategy, initial, Replay(c, atrs, p, strategy, initial, n - 1), n - 1);
    }
  }

  lemma NothingMissedYet(c: seq<Candle>, atrs: seq<real>, p: Params, strategy: Strategy, initial: real)
    requires FIRST_BAR <= |c|
    ensures NoneMissed(c, atrs, strategy, Start(initial), FIRST_BAR, p.maxBars)
    ensures AllPlaced(c, atrs, p, strategy, initial, Start(initial))
  {
  }

  /** Every trade of every run was placed as its bar advised. */
  lemma EntriesAreAdvised(c: seq<Candle>, p: Params, strategy: Strategy, initial: real, k: nat)
    requires FIRST_BAR <= |c| && k < |Final(c, p, strategy, initial).fills|
    ensures var fills := Final(c, p, strategy, initial).fills;
            Placed(c, AtrTable(c), p, strategy, fills[k].position, BalanceAfter(initial, fills, k))
  {
    hide Replay, Placed, Opened, Pnl, TotalPnl, AtrTable, NoneMissed;
    var s := Replay(c, AtrTable(c), p, strategy, initial, |c|);
    ReplayTellsEntries(c, AtrTable(c), p, strategy, initial, |c|);
    var fills := Finish(s, c).fills;
    assert fills[..k] == s.fills[..k];
    assert Opened(s)[k] == fills[k].position;
  }

  /** And a trade begins on exactly the bars that advise one while none is open over them. */
  lemma NoEntryIsMissed(c: seq<Candle>, p: Params, strategy: Strategy, initial: real, b: nat)
    requires FIRST_BAR <= b < |c|
    ensures var fills := Final(c, p, strategy, initial).fills;
            (exists k :: 0 <= k < |fills| && fills[k].position.bar == b) <==>
            Wanted(c, AtrTable(c), strategy, b) && !OpenOver(c, fills, b, p.maxBars)
  {
    hide Replay, Pnl, AtrTable, Wanted, Quiet, OpenOver, ExitsTold, AllPlaced, WellTimed, Opened;
    var s := Replay(c, AtrTable(c), p, strategy, initial, |c|);
    var fills := Final(c, p, strategy, initial).fills;
    ReplayTellsEntries(c, AtrTable(c), p, strategy, initial, |c|);
    ReplayTellsExits(c, AtrTable(c), p, strategy, initial, |c|);
    FinishedTradesAreOpened(c, s);
    assert Begins(Opened(s), b) <==> exists k :: 0 <= k < |fills| && fills[k].position.bar == b;
    if s.position.Some? {
      var f := Fill(s.position.value, |c| - 1, c[|c| - 1].close);
      OpenOverGrows(c, s.fills, f, b, p.maxBars);
      OpenIsQuiet(c, s, b, p.maxBars);
    }
  }

  lemma FinishedTradesAreOpened(c: seq<Candle>, s: State)
    requires 1 <= |c|
    ensures var fills := Finish(s, c).fills;
            |fills| == |Opened(s)| && forall k :: 0 <= k < |fills| ==> fills[k].position == Opened(s)[k]
  {
    hide Pnl;
  }

  lemma OpenIsQuiet(c: seq<Candle>, s: State, b: nat, maxBars: int)
    requires b < |c| && ExitsTold(c, s, |c|, maxBars) && s.position.Some?
    ensures s.position.value.bar < b ==> Quiet(c, s.position.value, b, maxBars)
  {
    hide Touched;
  }

  // ---------- the range behind the stops ----------

  /** What candle t spans, the close before it included. */
  function Span(c: seq<Candle>, t: int): real
    requires 1 <= t < |c|
  {
    Max(c[t].high, c[t - 1].close) - Min(c[t].low, c[t - 1].close)
  }

  function Spans(c: seq<Candle>, t: int, n: nat): real
    requires 1 <= t && t + n <= |c|
  {
    if n == 0 then 0.0 else Spans(c, t, n - 1) + Span(c, t + n - 1)
  }

  lemma {:induction false} SumOfSpans(c: seq<Candle>, j: nat, n: nat)
    requires 1 <= |c| && j + n <= |c| - 1 && forall t :: 0 <= t < |c| ==> c[t].low <= c[t].high
    ensures Sum(TrueRanges(c)[j..j + n]) == Spans(c, j + 1, n)
  {
    if n > 0 {
      var s := TrueRanges(c)[j..j + n];
      SumOfSpans(c, j, n - 1);
      assert s[..n - 1] == TrueRanges(c)[j..j + n - 1] && s[n - 1] == TrueRange(c, j + n);
    }
  }

  /** The ATR that bar i reads is the mean of the fourteen spans up to the next candle, or to the last. */
  lemma AtrIsMeanSpan(c: seq<Candle>, i: nat)
    requires FIRST_BAR <= |c| && 14 <= i < |c| && forall t :: 0 <= t < |c| ==> c[t].low <= c[t].high
    ensures var last := if i + 1 < |c| then i + 1 else i;
            AtrAt(AtrTable(c), i) == Spans(c, last - 13, 14) / 14.0
  {
    hide Sum, Spans, TrueRanges;
    var last := if i + 1 < |c| then i + 1 else i;
    SumOfSpans(c, last - 14, 14);
  }

  /** The table has an entry a candle but the last, zero for the first fourteen; the fallback is for no entries at
      all. */
  lemma AtrTableStarts(c: seq<Candle>)
    requires FIRST_BAR <= |c|
    ensures |AtrTable(c)| == |c| - 1 && forall i :: 0 <= i < 14 ==> AtrTable(c)[i] == 0.0
    ensures AtrAt([], |c|) == 0.0001
  {
    hide Sum, TrueRanges;
  }

  // ---------- the money ----------

  /** A lot is 100000 units, and a short position earns what the price falls. */
  lemma PnlIsGain(q: Position, price: real)
    ensures Pnl(q, price) == (if q.dir == Long then price - q.entry else q.entry - price) * q.lots * 100000.0
  {
  }

  // ---------- the report ----------

  ghost predicate Tells(t: Trade, f: Fill) {
    var pnl := Pnl(f.position, f.exit);
    && t.entryBar == f.position.bar && t.exitBar == f.exitBar && t.dir == f.position.dir
    && RoundsTo(f.position.entry, t.entry, 1000000.0) && RoundsTo(f.exit, t.exit, 1000000.0)
    && RoundsTo(f.position.sl, t.sl, 1000000.0) && RoundsTo(f.position.tp, t.tp, 1000000.0)
    && RoundsTo(pnl, t.pnl, 100.0)
    && t.outcome == if pnl > 0.0 then Win else if pnl < 0.0 then Loss else BreakEven
  }

  lemma RecordTells(f: Fill)
    ensures Tells(Record(f), f)
  {
    hide Round, RoundsTo, Pnl;
    var t, q := Record(f), f.position;
    RoundExactly(q.entry, t.entry, 1000000);
    RoundExactly(f.exit, t.exit, 1000000);
    RoundExactly(q.sl, t.sl, 1000000);
    RoundExactly(q.tp, t.tp, 1000000);
    RoundExactly(Pnl(q, f.exit), t.pnl, 100);
  }

  lemma {:induction false} RecordsTell(fills: seq<Fill>)
    ensures forall k :: 0 <= k < |fills| ==> Tells(Records(fills)[k], fills[k])
  {
    hide Tells, Record;
    if fills != [] {
      RecordsTell(fills[..|fills| - 1]);
      RecordTells(fills[|fills| - 1]);
    }
  }

  /** The trades that made money, and those that lost some. */
  ghost function Gainers(fills: seq<Fill>): set<nat> {
    set k: nat | k < |fills| && Pnl(fills[k].position, fills[k].exit) > 0.0
  }

  ghost function Losers(fills: seq<Fill>): set<nat> {
    set k: nat | k < |fills| && Pnl(fills[k].position, fills[k].exit) < 0.0
  }

  function Indices(trades: seq<Trade>, o: Outcome): set<nat> {
    set k: nat | k < |trades| && trades[k].outcome == o
  }

  lemma {:induction false} CountAppends(trades: seq<Trade>, t: Trade, o: Outcome)
    ensures Count(trades + [t], o) == Count(trades, o) + if t.outcome == o then 1 else 0
  {
    if trades != [] {
      CountAppends(trades[1..], t, o);
      assert (trades + [t])[1..] == trades[1..] + [t];
    }
  }

  lemma {:induction false} CountIsCardinality(trades: seq<Trade>, o: Outcome)
    ensures Count(trades, o) == |Indices(trades, o)|
  {
    if trades == [] {
      assert Indices(trades, o) == {};
    } else {
      var n := |trades| - 1;
      CountIsCardinality(trades[..n], o);
      assert trades == trades[..n] + [trades[n]];
      CountAppends(trades[..n], trades[n], o);
      IndicesGrow(trades, o);
      hide Indices, Count;
    }
  }

  lemma IndicesGrow(trades: seq<Trade>, o: Outcome)
    requires trades != []
    ensures var n := |trades| - 1;
            && n !in Indices(trades[..n], o)
            && Indices(trades, o) == Indices(trades[..n], o) + if trades[n].outcome == o then {n} else {}
  {
  }

  /** The trades whose recorded P&L is of the given sign. */
  function Keep(trades: seq<Trade>, positive: bool): seq<Trade> {
    if trades == [] then []
    else
      var n := |trades| - 1;
      Keep(trades[..n], positive)
      + if (if positive then trades[n].pnl > 0.0 else trades[n].pnl < 0.0) then [trades[n]] else []
  }

  lemma TotalAppends(trades: seq<Trade>, t: Trade)
    ensures TotalRecorded(trades + [t]) == TotalRecorded(trades) + t.pnl
  {
    assert (trades + [t])[..|trades|] == trades;
  }

  lemma {:induction false} GrossAppends(trades: seq<Trade>, t: Trade)
    ensures GrossWin(trades + [t]) == GrossWin(trades) + Max(t.pnl, 0.0)
    ensures GrossLoss(trades + [t]) == GrossLoss(trades) + Max(-t.pnl, 0.0)
  {
    if trades != [] {
      GrossAppends(trades[1..], t);
      assert (trades + [t])[1..] == trades[1..] + [t];
    }
  }

  lemma KeepGrows(trades: seq<Trade>, positive: bool)
    requires trades != []
    ensures var front, t := trades[..|trades| - 1], trades[|trades| - 1];
            TotalRecorded(Keep(trades, positive)) == TotalRecorded(Keep(front, positive))
              + if (if positive then t.pnl > 0.0 else t.pnl < 0.0) then t.pnl else 0.0
  {
    hide TotalRecorded;
    var front, t := trades[..|trades| - 1], trades[|trades| - 1];
    TotalAppends(Keep(front, positive), t);
    assert Keep(front, positive) + [] == Keep(front, positive);
  }

  lemma {:induction false} GrossIsOfKept(trades: seq<Trade>)
    ensures GrossWin(trades) == TotalRecorded(Keep(trades, true))
    ensures GrossLoss(trades) == -TotalRecorded(Keep(trades, false))
  {
    if trades != [] {
      var n := |trades| - 1;
      GrossIsOfKept(trades[..n]);
      assert trades == trades[..n] + [trades[n]];
      GrossAppends(trades[..n], trades[n]);
      KeepGrows(trades, true);
      KeepGrows(trades, false);
      hide Keep, TotalRecorded, GrossWin, GrossLoss;
    }
  }

  lemma CentsExactly(x: real)
    ensures RoundsTo(x, Round(x, 100), 100.0)
  {
    RoundExactly(x, Round(x, 100), 100);
    hide Round, RoundsTo;
  }

  lemma {:induction false} CurveTells(initial: real, equities: seq<real>)
    ensures var r := Curve(initial, equities);
            && r[0] == CurvePoint(0, initial)
            && forall i :: 1 <= i < |r| ==> r[i].bar == 49 + i && RoundsTo(equities[i - 1], r[i].equity, 100.0)
  {
    hide Round, RoundsTo;
    if equities != [] {
      var n := |equities| - 1;
      CurveTells(initial, equities[..n]);
      CentsExactly(equities[n]);
    }
  }

  /** A part of a whole in percent, or nothing of nothing. */
  ghost predicate PercentOf(part: real, whole: real, shown: real) {
    if whole > 0.0 then RoundsTo(part / whole * 100.0, shown, 100.0) else shown == 0.0
  }

  ghost predicate RatioOf(part: real, whole: real, shown: real) {
    if whole > 0.0 then RoundsTo(part / whole, shown, 100.0) else shown == 0.0
  }

  lemma Percents(part: real, whole: real)
    ensures PercentOf(part, whole, if whole > 0.0 then Round(part / whole * 100.0, 100) else 0.0)
    ensures RatioOf(part, whole, if whole > 0.0 then Round(part / whole, 100) else 0.0)
  {
    if whole > 0.0 {
      CentsExactly(part / whole * 100.0);
      CentsExactly(part / whole);
      hide Round, RoundsTo;
    }
  }

  /** What every figure of the report of a run means. */
  lemma ReportTells(c: seq<Candle>, p: Params, strategy: Strategy, initial: real)
    requires FIRST_BAR <= |c|
    ensures var s := Final(c, p, strategy, initial);
            var r := Summarise(initial, s.balance, s.maxDrop, Records(s.fills), Curve(initial, s.equities));
            && |r.trades| == r.totalTrades == |s.fills|
            && (forall k :: 0 <= k < |s.fills| ==> Tells(r.trades[k], s.fills[k]))
            && r.winning == |Gainers(s.fills)| && r.losing == |Losers(s.fills)|
            && RoundsTo(initial + TotalPnl(s.fills), r.finalBalance, 100.0)
            && RoundsTo(TotalPnl(s.fills), r.totalPnl, 100.0)
            && PercentOf(TotalPnl(s.fills), initial, r.totalPnlPercent)
            && PercentOf(r.winning as real, r.totalTrades as real, r.winRate)
            && RatioOf(TotalRecorded(Keep(r.trades, true)), -TotalRecorded(Keep(r.trades, false)), r.profitFactor)
            && RoundsTo(s.maxDrop, r.maxDrawdown, 100.0)
            && |r.curve| == |s.equities| + 1 && r.curve[0] == CurvePoint(0, initial)
            && forall i :: 1 <= i < |r.curve| ==>
                 r.curve[i].bar == 49 + i && RoundsTo(s.equities[i - 1], r.curve[i].equity, 100.0)
  {
    hide *;
    var s := Final(c, p, strategy, initial);
    FinalBalanceIsConserved(c, p, strategy, initial);
    RecordsTell(s.fills);
    SummaryTells(initial, s.balance, TotalPnl(s.fills), s.maxDrop, Records(s.fills), Curve(initial, s.equities));
    WinnersAreGainers(s.fills);
    CurveTells(initial, s.equities);
  }

  lemma WinnersAreGainers(fills: seq<Fill>)
    ensures Indices(Records(fills), Win) == Gainers(fills) && Indices(Records(fills), Loss) == Losers(fills)
  {
    hide Records, Pnl, RoundsTo;
    RecordsTell(fills);
  }

  lemma SummaryTells(initial: real, balance: real, gain: real, maxDrop: real, trades: seq<Trade>,
                     curve: seq<CurvePoint>)
    requires balance - initial == gain
    ensures var r := Summarise(initial, balance, maxDrop, trades, curve);
            && r.trades == trades && r.curve == curve && r.totalTrades == |trades|
            && r.winning == |Indices(trades, Win)| && r.losing == |Indices(trades, Loss)|
            && RoundsTo(initial + gain, r.finalBalance, 100.0) && RoundsTo(gain, r.totalPnl, 100.0)
            && PercentOf(gain, initial, r.totalPnlPercent)
            && PercentOf(r.winning as real, r.totalTrades as real, r.winRate)
            && RatioOf(TotalRecorded(Keep(trades, true)), -TotalRecorded(Keep(trades, false)), r.profitFactor)
            && RoundsTo(maxDrop, r.maxDrawdown, 100.0)
  {
    hide Round, RoundsTo, PercentOf, RatioOf, Count, GrossWin, GrossLoss, Indices, Keep, TotalRecorded;
    CountIsCardinality(trades, Win);
    CountIsCardinality(trades, Loss);
    GrossIsOfKept(trades);
    CentsExactly(balance);
    CentsExactly(gain);
    CentsExactly(maxDrop);
    Percents(gain, initial);
    Percents(Count(trades, Win) as real, |trades| as real);
    Percents(GrossWin(trades), GrossLoss(trades));
  }
}

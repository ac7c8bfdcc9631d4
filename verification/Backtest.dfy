/**
  The bar-by-bar replay of `run_backtest` (backend/config/tasks.py).  `Replay` says what state the engine is in
  after each bar; `RunBacktest` is the loop that computes it.  Prices and money are real numbers; the strategy is
  an arbitrary function of the look-back window it is shown.
*/
module Backtest {
  import opened Options
  import opened Rounding

  datatype Candle = Candle(open: real, high: real, low: real, close: real)

  datatype Advice = Buy | StrongBuy | Sell | StrongSell | Neutral
  datatype Signal = Signal(advice: Advice, strength: real)
  type Strategy = seq<Candle> -> Signal

  /** `risk` is the fraction of the balance put at risk, that is risk_per_trade / 100. */
  datatype Params = Params(risk: real, slMult: real, tpMult: real, maxBars: int)

  datatype Direction = Long | Short
  datatype Position = Position(dir: Direction, entry: real, sl: real, tp: real, lots: real, bar: int)

  /** A closed position before anything is rounded. */
  datatype Fill = Fill(position: Position, exitBar: int, exit: real)

  datatype Outcome = Win | Loss | BreakEven
  datatype Trade = Trade(entryBar: int, exitBar: int, dir: Direction, entry: real, exit: real,
                         sl: real, tp: real, pnl: real, outcome: Outcome)
  datatype CurvePoint = CurvePoint(bar: int, equity: real)

  datatype State = State(balance: real, position: Option<Position>, fills: seq<Fill>, equities: seq<real>,
                         peak: real, maxDrop: real)

  datatype Report = Report(finalBalance: real, totalPnl: real, totalPnlPercent: real, totalTrades: nat,
                           winning: nat, losing: nat, winRate: real, profitFactor: real, maxDrawdown: real,
                           trades: seq<Trade>, curve: seq<CurvePoint>)

  const FIRST_BAR := 50
  const WINDOW := 60
  const CONTRACT := 100000.0

  // ---------- average true range ----------

  function TrueRange(c: seq<Candle>, i: int): real
    requires 1 <= i < |c|
  {
    Max(Max(c[i].high - c[i].low, Abs(c[i].high - c[i - 1].close)), Abs(c[i].low - c[i - 1].close))
  }

  function TrueRanges(c: seq<Candle>): seq<real>
    requires 1 <= |c|
  {
    seq(|c| - 1, t requires 0 <= t < |c| - 1 => TrueRange(c, t + 1))
  }

  function Sum(s: seq<real>): real {
    if s == [] then 0.0 else Sum(s[..|s| - 1]) + s[|s| - 1]
  }

  /** The ATR list: fourteen zeros, then entry i averages the fourteen true ranges of candles i-12 to i+1. */
  function AtrTable(c: seq<Candle>): seq<real>
    requires FIRST_BAR <= |c|
  {
    seq(|c| - 1, i requires 0 <= i < |c| - 1 =>
      if i < 14 then 0.0 else Sum(TrueRanges(c)[i - 13..i + 1]) / 14.0)
  }

  function AtrAt(atrs: seq<real>, i: nat): real {
    if i < |atrs| then atrs[i] else if atrs != [] then atrs[|atrs| - 1] else 0.0001
  }

  // ---------- one bar ----------

  function Sign(d: Direction): real {
    if d == Long then 1.0 else -1.0
  }

  function Pnl(p: Position, price: real): real {
    (price - p.entry) * Sign(p.dir) * p.lots * CONTRACT
  }

  predicate HitsStop(p: Position, c: Candle) {
    if p.dir == Long then c.low <= p.sl else c.high >= p.sl
  }

  predicate HitsTarget(p: Position, c: Candle) {
    if p.dir == Long then c.high >= p.tp else c.low <= p.tp
  }

  /** The price at which a position held for `held` bars is closed on bar c, if it is: stop, target, time-out. */
  function ExitPrice(p: Position, c: Candle, held: int, maxBars: int): Option<real> {
    if HitsStop(p, c) then Some(p.sl)
    else if HitsTarget(p, c) then Some(p.tp)
    else if held >= maxBars then Some(c.close)
    else None
  }

  function Close(s: State, f: Fill): State {
    s.(balance := s.balance + Pnl(f.position, f.exit), position := None, fills := s.fills + [f])
  }

  function Manage(s: State, c: Candle, maxBars: int, bar: int): State {
    if s.position.None? then s
    else
      match ExitPrice(s.position.value, c, bar - s.position.value.bar, maxBars)
      case None => s
      case Some(price) => Close(s, Fill(s.position.value, bar, price))
  }

  function Side(signal: Signal): Option<Direction> {
    if signal.strength < 60.0 then None
    else match signal.advice
      case Buy | StrongBuy => Some(Long)
      case Sell | StrongSell => Some(Short)
      case Neutral => None
  }

  function LotSize(balance: real, risk: real, distance: real): real {
    Max(if distance > 0.0 then Round(balance * risk / (distance * CONTRACT), 100) else 0.01, 0.01)
  }

  function Open(dir: Direction, price: real, balance: real, atr: real, p: Params, bar: int): Position {
    var sl, tp := atr * p.slMult, atr * p.tpMult;
    var lots := LotSize(balance, p.risk, sl);
    if dir == Long then Position(Long, price, price - sl, price + tp, lots, bar)
    else Position(Short, price, price + sl, price - tp, lots, bar)
  }

  function Advised(c: seq<Candle>, strategy: Strategy, bar: nat): Option<Direction>
    requires bar < |c|
  {
    if bar < WINDOW then None else Side(strategy(c[bar - WINDOW..bar + 1]))
  }

  function Enter(s: State, c: seq<Candle>, atr: real, p: Params, strategy: Strategy, bar: nat): State
    requires bar < |c|
  {
    if s.position.Some? || atr <= 0.0 then s
    else
      match Advised(c, strategy, bar)
      case None => s
      case Some(dir) => s.(position := Some(Open(dir, c[bar].close, s.balance, atr, p, bar)))
  }

  function Equity(s: State, close: real): real {
    s.balance + if s.position.Some? then Pnl(s.position.value, close) else 0.0
  }

  /** The percentage by which `equity` is below `peak`. */
  function Fall(peak: real, equity: real): real
    requires peak != 0.0
  {
    (peak - equity) / peak * 100.0
  }

  function Track(s: State, close: real): State {
    var equity := Equity(s, close);
    var peak := Max(s.peak, equity);
    s.(equities := s.equities + [equity],
       peak := peak,
       maxDrop := if peak > 0.0 then Max(s.maxDrop, Fall(peak, equity)) else s.maxDrop)
  }

  function Step(s: State, c: seq<Candle>, atr: real, p: Params, strategy: Strategy, bar: nat): State
    requires bar < |c|
  {
    Track(Enter(Manage(s, c[bar], p.maxBars, bar), c, atr, p, strategy, bar), c[bar].close)
  }

  // ---------- the whole run ----------

  function Start(initial: real): State {
    State(initial, None, [], [], initial, 0.0)
  }

  /** The state once bars 50 to n-1 have been replayed with the given ATR list. */
  function Replay(c: seq<Candle>, atrs: seq<real>, p: Params, strategy: Strategy, initial: real, n: nat): State
    requires FIRST_BAR <= n <= |c|
    decreases n
  {
    if n == FIRST_BAR then Start(initial)
    else Step(Replay(c, atrs, p, strategy, initial, n - 1), c, AtrAt(atrs, n - 1), p, strategy, n - 1)
  }

  /** Closes whatever is still open at the last close. */
  function Finish(s: State, c: seq<Candle>): State
    requires 1 <= |c|
  {
    if s.position.None? then s else Close(s, Fill(s.position.value, |c| - 1, c[|c| - 1].close))
  }

  function Final(c: seq<Candle>, p: Params, strategy: Strategy, initial: real): State
    requires FIRST_BAR <= |c|
  {
    Finish(Replay(c, AtrTable(c), p, strategy, initial, |c|), c)
  }

  // ---------- what is reported ----------

  function Record(f: Fill): Trade {
    var p := f.position;
    var pnl := Pnl(p, f.exit);
    Trade(p.bar, f.exitBar, p.dir, Round(p.entry, 1000000), Round(f.exit, 1000000), Round(p.sl, 1000000),
          Round(p.tp, 1000000), Round(pnl, 100), if pnl > 0.0 then Win else if pnl < 0.0 then Loss else BreakEven)
  }

  function Records(fills: seq<Fill>): (r: seq<Trade>)
    ensures |r| == |fills|
  {
    if fills == [] then [] else Records(fills[..|fills| - 1]) + [Record(fills[|fills| - 1])]
  }

  function Curve(initial: real, equities: seq<real>): (r: seq<CurvePoint>)
    ensures |r| == |equities| + 1
  {
    if equities == [] then [CurvePoint(0, initial)]
    else
      var n := |equities| - 1;
      Curve(initial, equities[..n]) + [CurvePoint(FIRST_BAR + n, Round(equities[n], 100))]
  }

  function Count(trades: seq<Trade>, o: Outcome): nat {
    if trades == [] then 0 else Count(trades[1..], o) + if trades[0].outcome == o then 1 else 0
  }

  function GrossWin(trades: seq<Trade>): real {
    if trades == [] then 0.0 else GrossWin(trades[1..]) + Max(trades[0].pnl, 0.0)
  }

  function GrossLoss(trades: seq<Trade>): real {
    if trades == [] then 0.0 else GrossLoss(trades[1..]) + Max(-trades[0].pnl, 0.0)
  }

  function Summarise(initial: real, balance: real, maxDrop: real, trades: seq<Trade>, curve: seq<CurvePoint>): Report {
    var wins, gross := Count(trades, Win), GrossLoss(trades);
    Report(Round(balance, 100), Round(balance - initial, 100),
           if initial > 0.0 then Round((balance - initial) / initial * 100.0, 100) else 0.0,
           |trades|, wins, Count(trades, Loss),
           if trades != [] then Round(wins as real / |trades| as real * 100.0, 100) else 0.0,
           if gross > 0.0 then Round(GrossWin(trades) / gross, 100) else 0.0,
           Round(maxDrop, 100), trades, curve)
  }

  function NoData(initial: real): Report {
    Report(initial, 0.0, 0.0, 0, 0, 0, 0.0, 0.0, 0.0, [], [CurvePoint(0, initial)])
  }

  // ---------- the loop ----------

  method ComputeAtrs(candles: seq<Candle>) returns (atrs: seq<real>)
    requires FIRST_BAR <= |candles|
    ensures atrs == AtrTable(candles)
  {
    var trs := [];
    for i := 1 to |candles|
      invariant trs == TrueRanges(candles)[..i - 1]
    {
      trs := trs + [TrueRange(candles, i)];
    }
    atrs := seq(14, _ => 0.0);
    for i := 14 to |trs|
      invariant trs == TrueRanges(candles)
      invariant atrs == AtrTable(candles)[..i]
    {
      atrs := atrs + [Sum(trs[i - 13..i + 1]) / 14.0];
    }
  }

  /** The balance, position and trade list of the running loop agree with the state s. */
  ghost predicate Books(s: State, balance: real, position: Option<Position>, trades: seq<Trade>) {
    balance == s.balance && position == s.position && trades == Records(s.fills)
  }

  method ManagePosition(balance0: real, position0: Option<Position>, trades0: seq<Trade>, candle: Candle,
                        maxBars: int, bar: int, ghost s: State)
    returns (balance: real, position: Option<Position>, trades: seq<Trade>)
    requires Books(s, balance0, position0, trades0)
    ensures Books(Manage(s, candle, maxBars, bar), balance, position, trades)
    ensures position0.Some? ==>
      var q := position0.value;
      var stopped := if q.dir == Long then candle.low <= q.sl else q.sl <= candle.high;
      var reached := if q.dir == Long then q.tp <= candle.high else candle.low <= q.tp;
      if stopped || reached || maxBars <= bar - q.bar then
        var exit := if stopped then q.sl else if reached then q.tp else candle.close;
        && position == None && trades == trades0 + [Record(Fill(q, bar, exit))] && balance == balance0 + Pnl(q, exit)
      else position == position0 && trades == trades0 && balance == balance0
  {
    balance, position, trades := balance0, position0, trades0;
    if position.Some? {
      var q := position.value;
      var price := ExitPrice(q, candle, bar - q.bar, maxBars);
      if price.Some? {
        balance := balance + Pnl(q, price.value);
        trades := trades + [Record(Fill(q, bar, price.value))];
        position := None;
        assert (s.fills + [Fill(q, bar, price.value)])[..|s.fills|] == s.fills;
      }
    }
  }

  method CheckEntry(balance: real, position0: Option<Position>, candles: seq<Candle>, atr: real, p: Params,
                    strategy: Strategy, bar: nat, ghost s: State)
    returns (position: Option<Position>)
    requires bar < |candles| && balance == s.balance && position0 == s.position
    ensures position == Enter(s, candles, atr, p, strategy, bar).position
  {
    position := position0;
    if position.None? && atr > 0.0 {
      var side := Advised(candles, strategy, bar);
      if side.Some? {
        position := Some(Open(side.value, candles[bar].close, balance, atr, p, bar));
      }
    }
  }

  method CloseRemaining(balance0: real, position: Option<Position>, trades0: seq<Trade>, candles: seq<Candle>,
                        ghost s: State)
    returns (balance: real, trades: seq<Trade>)
    requires 1 <= |candles| && Books(s, balance0, position, trades0)
    ensures Books(Finish(s, candles), balance, None, trades)
  {
    balance, trades := balance0, trades0;
    if position.Some? {
      var f := Fill(position.value, |candles| - 1, candles[|candles| - 1].close);
      balance := balance + Pnl(f.position, f.exit);
      trades := trades + [Record(f)];
      assert (s.fills + [f])[..|s.fills|] == s.fills;
    }
  }

  method TrackEquity(balance: real, position: Option<Position>, peak0: real, maxDrawdown0: real, close: real,
                     ghost s: State)
    returns (equity: real, peak: real, maxDrawdown: real)
    requires balance == s.balance && position == s.position && peak0 == s.peak && maxDrawdown0 == s.maxDrop
    ensures Track(s, close) == s.(equities := s.equities + [equity], peak := peak, maxDrop := maxDrawdown)
  {
    equity := balance + if position.Some? then Pnl(position.value, close) else 0.0;
    peak, maxDrawdown := peak0, maxDrawdown0;
    if equity > peak {
      peak := equity;
    }
    if peak > 0.0 {
      var fall := Fall(peak, equity);
      if fall > maxDrawdown {
        maxDrawdown := fall;
      }
    }
  }

  method ReplayBar(balance0: real, position0: Option<Position>, trades0: seq<Trade>, peak0: real, maxDrawdown0: real,
                   candles: seq<Candle>, atr: real, p: Params, strategy: Strategy, bar: nat, ghost s: State)
    returns (balance: real, position: Option<Position>, trades: seq<Trade>, equity: real, peak: real,
             maxDrawdown: real)
    requires bar < |candles| && Books(s, balance0, position0, trades0)
    requires peak0 == s.peak && maxDrawdown0 == s.maxDrop
    ensures var t := Step(s, candles, atr, p, strategy, bar);
            && Books(t, balance, position, trades) && peak == t.peak && maxDrawdown == t.maxDrop
            && t.equities == s.equities + [equity]
  {
    ghost var managed := Manage(s, candles[bar], p.maxBars, bar);
    balance, position, trades := ManagePosition(balance0, position0, trades0, candles[bar], p.maxBars, bar, s);
    ghost var entered := Enter(managed, candles, atr, p, strategy, bar);
    position := CheckEntry(balance, position, candles, atr, p, strategy, bar, managed);
    equity, peak, maxDrawdown := TrackEquity(balance, position, peak0, maxDrawdown0, candles[bar].close, entered);
  }

  method ReplayBars(candles: seq<Candle>, atrs: seq<real>, p: Params, strategy: Strategy, initial: real)
    returns (balance: real, position: Option<Position>, trades: seq<Trade>, curve: seq<CurvePoint>, maxDrawdown: real)
    requires FIRST_BAR <= |candles|
    ensures var s := Replay(candles, atrs, p, strategy, initial, |candles|);
            && Books(s, balance, position, trades) && maxDrawdown == s.maxDrop
            && curve == Curve(initial, s.equities)
  {
    hide Step;
    var peakEquity, equity := initial, initial;
    balance, maxDrawdown, position, trades, curve := initial, 0.0, None, [], [CurvePoint(0, initial)];
    for bar := FIRST_BAR to |candles|
      invariant var s := Replay(candles, atrs, p, strategy, initial, bar);
                && Books(s, balance, position, trades) && peakEquity == s.peak && maxDrawdown == s.maxDrop
                && curve == Curve(initial, s.equities) && |s.equities| == bar - FIRST_BAR
    {
      ghost var s := Replay(candles, atrs, p, strategy, initial, bar);
      balance, position, trades, equity, peakEquity, maxDrawdown := ReplayBar(
        balance, position, trades, peakEquity, maxDrawdown, candles, AtrAt(atrs, bar), p, strategy, bar, s);
      curve := curve + [CurvePoint(bar, Round(equity, 100))];
      assert (s.equities + [equity])[..|s.equities|] == s.equities;
    }
  }

  method RunBacktest(candles: seq<Candle>, p: Params, strategy: Strategy, initial: real) returns (report: Report)
    ensures |candles| < FIRST_BAR ==> report == NoData(initial)
    ensures |candles| < 50 ==>
      report == Report(initial, 0.0, 0.0, 0, 0, 0, 0.0, 0.0, 0.0, [], [CurvePoint(0, initial)])
    ensures |candles| >= FIRST_BAR ==>
      var s := Final(candles, p, strategy, initial);
      report == Summarise(initial, s.balance, s.maxDrop, Records(s.fills), Curve(initial, s.equities))
  {
    if |candles| < FIRST_BAR {
      return NoData(initial);
    }
    var atrs := ComputeAtrs(candles);
    var balance, position, trades, curve, maxDrawdown := ReplayBars(candles, atrs, p, strategy, initial);
    balance, trades := CloseRemaining(balance, position, trades, candles,
                                      Replay(candles, atrs, p, strategy, initial, |candles|));
    report := Summarise(initial, balance, maxDrawdown, trades, curve);
  }
}

/**
  How much a run of the replay engine can lose: the bound each trade's stop gives, and the floor it puts under the
  balance.
*/
module BacktestRisk {
  import opened Options
  import opened Rounding
  import opened Backtest
  import opened BacktestProofs

  // ---------- one trade ----------

  ghost predicate Proper(c: seq<Candle>) {
    forall i :: 0 <= i < |c| ==> c[i].low <= c[i].close <= c[i].high
  }

  /** The distance from entry to stop, positive when the stop is on the losing side. */
  function StopDistance(q: Position): real {
    if q.dir == Long then q.entry - q.sl else q.sl - q.entry
  }

  function TargetDistance(q: Position): real {
    if q.dir == Long then q.tp - q.entry else q.entry - q.tp
  }

  predicate Bracketed(q: Position, price: real) {
    if q.dir == Long then q.sl <= price <= q.tp else q.tp <= price <= q.sl
  }

  /** A position opened by the engine when the balance was `balance`. */
  predicate Shaped(q: Position, p: Params, balance: real) {
    StopDistance(q) > 0.0 && TargetDistance(q) > 0.0 && q.lots == LotSize(balance, p.risk, StopDistance(q))
  }

  /** What a trade may lose: the risked fraction of the balance, plus what rounding the lots may add. */
  function Allowance(q: Position, risk: real, balance: real): real {
    Max(balance, 0.0) * risk + 1000.0 * StopDistance(q)
  }

  lemma LotCost(balance: real, risk: real, d: real)
    requires 0.0 < d && 0.0 <= risk
    ensures LotSize(balance, risk, d) >= 0.01
    ensures LotSize(balance, risk, d) * (d * CONTRACT) <= Max(balance, 0.0) * risk + 1000.0 * d
  {
    hide LotSize, Round;
    var unit := d * CONTRACT;
    var z := balance * risk / unit;
    LotsFromQuotient(balance, risk, d);
    RoundsUpLittle(z);
    TimesQuotient(balance * risk, unit);
    StakeIsCapped(balance, risk);
    RoundedCost(Round(z, 100), z, unit, Max(balance, 0.0) * risk);
  }

  lemma LotsFromQuotient(balance: real, risk: real, d: real)
    requires 0.0 < d
    ensures LotSize(balance, risk, d) == Max(Round(balance * risk / (d * CONTRACT), 100), 0.01)
  {
    hide Round;
  }

  lemma RoundsUpLittle(z: real)
    ensures Round(z, 100) <= z + 0.005
  {
    RoundError(z, 100);
    hide Round;
  }

  lemma StakeIsCapped(balance: real, risk: real)
    requires 0.0 <= risk
    ensures balance * risk <= Max(balance, 0.0) * risk && 0.0 <= Max(balance, 0.0) * risk
  {
    MulMonotone(balance, Max(balance, 0.0), risk);
    MulMonotone(0.0, Max(balance, 0.0), risk);
  }

  lemma TimesQuotient(x: real, y: real)
    requires y != 0.0
    ensures x / y * y == x
  {
  }

  lemma RoundedCost(rounded: real, z: real, unit: real, stake: real)
    requires rounded <= z + 0.005 && 0.0 < unit && z * unit <= stake && 0.0 <= stake
    ensures Max(rounded, 0.01) * unit <= stake + 0.01 * unit
  {
    if 0.01 <= rounded {
      MulMonotone(rounded, z + 0.005, unit);
      assert (z + 0.005) * unit == z * unit + 0.005 * unit;
    }
  }

  lemma MulMonotone(x: real, y: real, s: real)
    requires x <= y && 0.0 <= s
    ensures x * s <= y * s
  {
  }

  lemma TradeLossBound(q: Position, p: Params, balance: real, price: real)
    requires Shaped(q, p, balance) && Bracketed(q, price) && 0.0 <= p.risk
    ensures Pnl(q, price) >= -Allowance(q, p.risk, balance)
  {
    LotCost(balance, p.risk, StopDistance(q));
    hide LotSize;
    PnlAtStop(q, price);
    hide Pnl;
  }

  lemma PnlAtStop(q: Position, price: real)
    requires Bracketed(q, price) && 0.0 <= q.lots
    ensures -(q.lots * (StopDistance(q) * CONTRACT)) <= Pnl(q, price)
  {
    var move := if q.dir == Long then price - q.entry else q.entry - price;
    assert (price - q.entry) * Sign(q.dir) == move;
    MoveCost(StopDistance(q), move, q.lots, CONTRACT);
  }

  lemma MoveCost(d: real, move: real, lots: real, contract: real)
    requires -d <= move && 0.0 <= lots && 0.0 <= contract
    ensures -(lots * (d * contract)) <= move * lots * contract
  {
    var x, y := -d * lots, move * lots;
    MulMonotone(-d, move, lots);
    MulMonotone(x, y, contract);
    assert x * contract == -(lots * (d * contract));
  }

  // ---------- every trade of a run ----------

  function BalanceAfter(initial: real, fills: seq<Fill>, k: nat): real
    requires k <= |fills|
  {
    initial + TotalPnl(fills[..k])
  }

  ghost predicate GuardedFills(fills: seq<Fill>, p: Params, initial: real) {
    forall k :: 0 <= k < |fills| ==>
      && Shaped(fills[k].position, p, BalanceAfter(initial, fills, k))
      && Bracketed(fills[k].position, fills[k].exit)
  }

  ghost predicate Guarded(s: State, p: Params, initial: real, price: real) {
    && GuardedFills(s.fills, p, initial)
    && s.balance == initial + TotalPnl(s.fills)
    && (s.position.Some? ==> Shaped(s.position.value, p, s.balance) && Bracketed(s.position.value, price))
  }

  lemma CloseKeepsGuard(s: State, p: Params, initial: real, price: real, f: Fill)
    requires Guarded(s, p, initial, price) && s.position == Some(f.position) && Bracketed(f.position, f.exit)
    ensures Guarded(Close(s, f), p, initial, price)
  {
    hide Pnl, LotSize;
    CloseKeepsBalance(s, f, initial);
    var fills := s.fills + [f];
    forall k | 0 <= k < |fills|
      ensures Shaped(fills[k].position, p, BalanceAfter(initial, fills, k))
      ensures Bracketed(fills[k].position, fills[k].exit)
    {
      assert fills[..k] == s.fills[..k];
      assert s.fills[..|s.fills|] == s.fills;
    }
  }

  lemma ManageKeepsGuard(s: State, c: Candle, p: Params, bar: int, initial: real, price: real)
    requires Guarded(s, p, initial, price) && c.low <= c.close <= c.high
    ensures Guarded(Manage(s, c, p.maxBars, bar), p, initial, c.close)
  {
    hide Pnl, LotSize, GuardedFills, Close;
    if s.position.Some? {
      var q := s.position.value;
      var exit := ExitPrice(q, c, bar - q.bar, p.maxBars);
      if exit.Some? {
        assert Bracketed(q, exit.value);
        CloseKeepsGuard(s, p, initial, price, Fill(q, bar, exit.value));
        CloseEndsPosition(s, Fill(q, bar, exit.value));
      }
    }
  }

  lemma CloseEndsPosition(s: State, f: Fill)
    ensures Close(s, f).position == None
  {
  }

  lemma EnterKeepsGuard(s: State, c: seq<Candle>, atr: real, p: Params, strategy: Strategy, bar: nat, initial: real)
    requires bar < |c| && Guarded(s, p, initial, c[bar].close) && 0.0 < p.slMult && 0.0 < p.tpMult
    ensures Guarded(Enter(s, c, atr, p, strategy, bar), p, initial, c[bar].close)
  {
    hide LotSize, GuardedFills;
    if 0.0 < atr {
      assert 0.0 < atr * p.slMult && 0.0 < atr * p.tpMult;
    }
  }

  lemma TrackKeepsGuard(s: State, p: Params, initial: real, price: real)
    requires Guarded(s, p, initial, price)
    ensures Guarded(Track(s, price), p, initial, price)
  {
    hide Pnl, LotSize, GuardedFills, Fall;
  }

  lemma {:induction false} ReplayIsGuarded(c: seq<Candle>, atrs: seq<real>, p: Params, strategy: Strategy,
                                           initial: real, n: nat)
    requires FIRST_BAR <= n <= |c| && Proper(c) && 0.0 < p.slMult && 0.0 < p.tpMult
    ensures Guarded(Replay(c, atrs, p, strategy, initial, n), p, initial, c[n - 1].close)
    decreases n
  {
    hide Manage, Enter, Track, LotSize, Pnl;
    if n > FIRST_BAR {
      ReplayIsGuarded(c, atrs, p, strategy, initial, n - 1);
      var bar, s := n - 1, Replay(c, atrs, p, strategy, initial, n - 1);
      var managed := Manage(s, c[bar], p.maxBars, bar);
      var entered := Enter(managed, c, AtrAt(atrs, bar), p, strategy, bar);
      ManageKeepsGuard(s, c[bar], p, bar, initial, c[bar - 1].close);
      EnterKeepsGuard(managed, c, AtrAt(atrs, bar), p, strategy, bar, initial);
      TrackKeepsGuard(entered, p, initial, c[bar].close);
    }
  }

  /**
    On proper candles with positive multipliers every trade of a run, however it ends, exits between its stop and
    its target, and loses at most its allowance.
  */
  lemma EveryTradeIsBounded(c: seq<Candle>, p: Params, strategy: Strategy, initial: real, k: nat)
    requires FIRST_BAR <= |c| && Proper(c) && 0.0 < p.slMult && 0.0 < p.tpMult && 0.0 <= p.risk
    requires k < |Final(c, p, strategy, initial).fills|
    ensures var fills := Final(c, p, strategy, initial).fills;
            var q := fills[k].position;
            && Bracketed(q, fills[k].exit)
            && Pnl(q, fills[k].exit) >= -Allowance(q, p.risk, BalanceAfter(initial, fills, k))
  {
    FinalIsGuarded(c, p, strategy, initial);
    var fills := Final(c, p, strategy, initial).fills;
    TradeLossBound(fills[k].position, p, BalanceAfter(initial, fills, k), fills[k].exit);
  }

  lemma FinalIsGuarded(c: seq<Candle>, p: Params, strategy: Strategy, initial: real)
    requires FIRST_BAR <= |c| && Proper(c) && 0.0 < p.slMult && 0.0 < p.tpMult
    ensures GuardedFills(Final(c, p, strategy, initial).fills, p, initial)
  {
    hide LotSize, Pnl, GuardedFills, Replay;
    var n := |c|;
    var s := Replay(c, AtrTable(c), p, strategy, initial, n);
    ReplayIsGuarded(c, AtrTable(c), p, strategy, initial, n);
    if s.position.Some? {
      CloseKeepsGuard(s, p, initial, c[n - 1].close, Fill(s.position.value, n - 1, c[n - 1].close));
    }
  }

  // ---------- the floor under the balance ----------

  function Power(x: real, k: nat): real {
    if k == 0 then 1.0 else Power(x, k - 1) * x
  }

  /** What rounding the lots may have cost over a list of trades. */
  function Slack(fills: seq<Fill>): real {
    if fills == [] then 0.0
    else Slack(fills[..|fills| - 1]) + 1000.0 * StopDistance(fills[|fills| - 1].position)
  }

  lemma PowerStep(x: real, k: nat)
    requires 0.0 <= x <= 1.0
    ensures 0.0 <= Power(x, k + 1) <= Power(x, k)
  {
    if k > 0 {
      PowerStep(x, k - 1);
    }
    MulMonotone(0.0, Power(x, k), x);
    MulMonotone(x, 1.0, Power(x, k));
  }

  lemma FloorStep(b: real, r: real, floor: real, slack: real, d: real)
    requires 0.0 <= r <= 1.0 && 0.0 <= floor && 0.0 <= slack && 0.0 < d && b >= floor - slack
    ensures b - (Max(b, 0.0) * r + 1000.0 * d) >= floor * (1.0 - r) - (slack + 1000.0 * d)
  {
    if b >= 0.0 {
      MulMonotone(floor - slack, b, 1.0 - r);
      MulMonotone(0.0, slack, r);
      assert Max(b, 0.0) == b;
      assert b * (1.0 - r) == b - b * r;
      assert b - b * r >= (floor - slack) * (1.0 - r);
      assert (floor - slack) * (1.0 - r) == floor * (1.0 - r) - slack + slack * r;
    } else {
      MulMonotone(0.0, floor, r);
    }
  }

  lemma {:induction false} SlackGrows(fills: seq<Fill>)
    requires forall k :: 0 <= k < |fills| ==> StopDistance(fills[k].position) > 0.0
    ensures Slack(fills) >= 0.0
  {
    if fills != [] {
      SlackGrows(fills[..|fills| - 1]);
    }
  }

  lemma EmptySums()
    ensures Slack([]) == 0.0 && TotalPnl([]) == 0.0
  {
  }

  lemma LastSums(fills: seq<Fill>, k: nat)
    requires 0 < k <= |fills|
    ensures TotalPnl(fills[..k]) == TotalPnl(fills[..k - 1]) + Pnl(fills[k - 1].position, fills[k - 1].exit)
    ensures Slack(fills[..k]) == Slack(fills[..k - 1]) + 1000.0 * StopDistance(fills[k - 1].position)
  {
    hide Pnl, StopDistance;
    assert fills[..k][..k - 1] == fills[..k - 1];
  }

  lemma {:induction false} GuardedFloor(fills: seq<Fill>, p: Params, initial: real, k: nat)
    requires GuardedFills(fills, p, initial) && k <= |fills| && 0.0 <= p.risk <= 1.0 && 0.0 <= initial
    ensures BalanceAfter(initial, fills, k) >= initial * Power(1.0 - p.risk, k) - Slack(fills[..k])
  {
    hide LotSize, Pnl, Slack, TotalPnl, StopDistance;
    if k == 0 {
      assert Slack([]) == 0.0 && TotalPnl([]) == 0.0 by { EmptySums(); }
    } else {
      GuardedFloor(fills, p, initial, k - 1);
      var f, b, r := fills[k - 1], BalanceAfter(initial, fills, k - 1), p.risk;
      var power, slack := Power(1.0 - r, k - 1), Slack(fills[..k - 1]);
      TradeLossBound(f.position, p, b, f.exit);
      LastSums(fills, k);
      SlackGrows(fills[..k - 1]);
      PowerStep(1.0 - r, k - 1);
      MulMonotone(0.0, power, initial);
      FloorStep(b, r, initial * power, slack, StopDistance(f.position));
      assert initial * power * (1.0 - r) == initial * (power * (1.0 - r));
    }
  }

  /** After k trades the balance is at least initial * (1-r)^k, less the rounding slack of those trades. */
  lemma CompoundingFloor(c: seq<Candle>, p: Params, strategy: Strategy, initial: real, k: nat)
    requires FIRST_BAR <= |c| && Proper(c) && 0.0 < p.slMult && 0.0 < p.tpMult
    requires 0.0 <= p.risk <= 1.0 && 0.0 <= initial && k <= |Final(c, p, strategy, initial).fills|
    ensures var fills := Final(c, p, strategy, initial).fills;
            BalanceAfter(initial, fills, k) >= initial * Power(1.0 - p.risk, k) - Slack(fills[..k])
  {
    FinalIsGuarded(c, p, strategy, initial);
    GuardedFloor(Final(c, p, strategy, initial).fills, p, initial, k);
  }
}

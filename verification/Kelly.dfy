/** Position sizing from the trade history (backend/ml/dynamic_kelly.py). */
module Kelly {
  import opened Lists
  import opened Rounding

  datatype Trade = Trade(won: bool, pnl: real)

  const LEAST := 0.01
  const MOST := 0.25
  const KEPT := 200

  function Wins(trades: seq<Trade>): nat {
    if trades == [] then 0 else Wins(trades[1..]) + if trades[0].won then 1 else 0
  }

  /** The summed P&L of the trades flagged as won, or of those not. */
  function PnlOf(trades: seq<Trade>, won: bool): real {
    if trades == [] then 0.0 else PnlOf(trades[1..], won) + if trades[0].won == won then trades[0].pnl else 0.0
  }

  function Net(trades: seq<Trade>): real {
    if trades == [] then 0.0 else Net(trades[1..]) + trades[0].pnl
  }

  lemma {:induction false} WinsAtMostAll(trades: seq<Trade>)
    ensures Wins(trades) <= |trades|
  {
    if trades != [] {
      WinsAtMostAll(trades[1..]);
    }
  }

  function Clip(x: real, lo: real, hi: real): real {
    Min(Max(x, lo), hi)
  }

  /** The raw fraction p - (1-p)/b, as the source computes it. */
  function RawKelly(winRate: real, b: real): real
    requires b != 0.0
  {
    (b * winRate - (1.0 - winRate)) / b
  }

  /** A zero average win divides by zero; numpy's negative infinity is then clipped to the least fraction. */
  function KellyFraction(trades: seq<Trade>): real {
    var n, w := |trades|, Wins(trades);
    if n < 10 || w == 0 || w >= n then LEAST
    else
      var avgWin, avgLoss := AverageWin(trades), AverageLoss(trades);
      if avgLoss <= 0.0 || avgWin == 0.0 then LEAST
      else Clip(Max(0.0, RawKelly(w as real / n as real, avgWin / avgLoss)) * 0.5, LEAST, MOST)
  }

  lemma FractionInRange(trades: seq<Trade>)
    ensures 0.01 <= KellyFraction(trades) <= 0.25
  {
  }

  /** There are enough trades, of both kinds, and neither side sums to nothing. */
  predicate Informative(trades: seq<Trade>) {
    |trades| >= 10 && 0 < Wins(trades) < |trades| && PnlOf(trades, true) != 0.0 && PnlOf(trades, false) != 0.0
  }

  /** The share of the gross winnings that the losses left, weighted by the win rate. */
  function Edge(trades: seq<Trade>): real
    requires Informative(trades)
  {
    Wins(trades) as real / |trades| as real * (1.0 - Abs(PnlOf(trades, false)) / PnlOf(trades, true))
  }

  lemma RawKellyIsEdge(g: real, l: real, w: real, n: real)
    requires 0.0 < w < n && g != 0.0 && 0.0 < l
    ensures (g / w) / (l / (n - w)) != 0.0
    ensures RawKelly(w / n, (g / w) / (l / (n - w))) == w / n * (1.0 - l / g)
  {
    var p, m := w / n, n - w;
    var a, c := g / w, l / m;
    var b := a / c;
    assert a * w == g && c * m == l && p * n == w;
    assert a != 0.0 && c > 0.0;
    assert b * c == a;
    assert b != 0.0;
    // (1-p)/b = (m/n) * (c/a), and l/g = (c*m)/(a*w)
    var x, y := (1.0 - p) / b, l / g;
    assert x * b == 1.0 - p && y * g == l;
    assert (1.0 - p) * n == m;
    InverseOdds(p, a, b, c, m, n, w, x, y, g, l);
    SplitQuotient(b, p, 1.0 - p);
    FactorOut(p, y);
  }

  lemma FactorOut(p: real, y: real)
    ensures p - p * y == p * (1.0 - y)
  {
  }

  lemma SplitQuotient(b: real, p: real, q: real)
    requires b != 0.0
    ensures (b * p - q) / b == p - q / b
  {
    assert (p - q / b) * b == b * p - q;
  }

  lemma InverseOdds(p: real, a: real, b: real, c: real, m: real, n: real, w: real, x: real, y: real, g: real, l: real)
    requires a * w == g && c * m == l && p * n == w && b * c == a && x * b == 1.0 - p && y * g == l
    requires (1.0 - p) * n == m && 0.0 < w && 0.0 < n && a != 0.0 && b != 0.0 && 0.0 < c
    ensures x == p * y
  {
    // both sides times b*n equal m
    assert (x * b) * n == m;
    assert y * (a * w) == c * m;
    assert (y * w) * (b * c) == c * m;
    assert ((y * w) * b) * c == m * c;
    Cancel((y * w) * b, m, c);
    assert (p * y * b) * n == (p * n) * y * b == m;
    assert (x * b) * n == (p * y * b) * n;
    Cancel(x * b, p * y * b, n);
    Cancel(x, p * y, b);
  }

  lemma Cancel(x: real, y: real, s: real)
    requires s != 0.0 && x * s == y * s
    ensures x == y
  {
    assert (x - y) * s == 0.0;
  }

  function AverageWin(trades: seq<Trade>): real
    requires 0 < Wins(trades)
  {
    PnlOf(trades, true) / Wins(trades) as real
  }

  function AverageLoss(trades: seq<Trade>): real
    requires Wins(trades) < |trades|
  {
    Abs(PnlOf(trades, false) / (|trades| - Wins(trades)) as real)
  }

  lemma RawIsEdge(trades: seq<Trade>)
    requires Informative(trades)
    ensures AverageLoss(trades) > 0.0 && AverageWin(trades) != 0.0 && AverageWin(trades) / AverageLoss(trades) != 0.0
    ensures RawKelly(Wins(trades) as real / |trades| as real, AverageWin(trades) / AverageLoss(trades)) == Edge(trades)
  {
    var n, w := |trades| as real, Wins(trades) as real;
    var g, l := PnlOf(trades, true), PnlOf(trades, false);
    assert (|trades| - Wins(trades)) as real == n - w;
    AbsDiv(l, n - w);
    RawKellyIsEdge(g, Abs(l), w, n);
    hide RawKelly;
    assert AverageLoss(trades) == Abs(l) / (n - w);
  }

  lemma FractionIsClipped(trades: seq<Trade>)
    requires Informative(trades)
    ensures KellyFraction(trades) == Clip(Max(0.0, Edge(trades)) * 0.5, LEAST, MOST)
  {
    hide Clip, AverageWin, AverageLoss, RawKelly, Edge;
    RawIsEdge(trades);
  }

  /** The fraction is half the edge, kept between one and twenty-five percent. */
  lemma FractionIsHalfTheEdge(trades: seq<Trade>)
    requires Informative(trades)
    ensures var half := Edge(trades) / 2.0;
            KellyFraction(trades) == if half < 0.01 then 0.01 else if half > 0.25 then 0.25 else half
  {
    hide KellyFraction, Edge;
    FractionIsClipped(trades);
  }

  lemma {:induction false} NetSplits(trades: seq<Trade>)
    ensures Net(trades) == PnlOf(trades, true) + PnlOf(trades, false)
  {
    if trades != [] {
      NetSplits(trades[1..]);
    }
  }

  /** The fraction exceeds the least exactly when there is something to go by and the edge exceeds two percent. */
  lemma MoreThanLeastExactly(trades: seq<Trade>)
    ensures KellyFraction(trades) > 0.01 <==> Informative(trades) && Edge(trades) > 0.02
  {
    if Informative(trades) {
      FractionIsHalfTheEdge(trades);
      hide KellyFraction, Edge;
    } else {
      UninformativeIsLeast(trades);
      hide KellyFraction, Edge;
    }
  }

  lemma UninformativeIsLeast(trades: seq<Trade>)
    requires !Informative(trades)
    ensures KellyFraction(trades) == 0.01
  {
    WinsAtMostAll(trades);
    hide Edge, RawKelly, Clip;
  }

  /** If what was won sums to a gain, only a net profit earns more than the least. */
  lemma MoreThanLeastNeedsProfit(trades: seq<Trade>)
    requires PnlOf(trades, true) > 0.0 && KellyFraction(trades) > 0.01
    ensures Net(trades) > 0.0
  {
    hide KellyFraction, Edge;
    NetSplits(trades);
    MoreThanLeastExactly(trades);
    EdgeNeedsProfit(trades);
  }

  lemma EdgeNeedsProfit(trades: seq<Trade>)
    requires Informative(trades) && PnlOf(trades, true) > 0.0 && Edge(trades) > 0.0
    ensures PnlOf(trades, true) + PnlOf(trades, false) > 0.0
  {
    var g, l := PnlOf(trades, true), Abs(PnlOf(trades, false));
    var rate := Wins(trades) as real / |trades| as real;
    assert 0.0 <= rate;
    PositiveFactor(rate, 1.0 - l / g);
    ShareBelowOne(l, g);
  }

  /**
    More than the least is earned without a net profit exactly when the trades say enough to go by, what was won sums
    to a loss, there is no net profit, and the edge exceeds two percent.
  */
  lemma ProfitNeededExactly(trades: seq<Trade>)
    ensures KellyFraction(trades) > 0.01 && Net(trades) <= 0.0 <==>
            Informative(trades) && PnlOf(trades, true) < 0.0 && Net(trades) <= 0.0 && Edge(trades) > 0.02
  {
    hide KellyFraction, Edge;
    MoreThanLeastExactly(trades);
    if PnlOf(trades, true) > 0.0 && KellyFraction(trades) > 0.01 {
      MoreThanLeastNeedsProfit(trades);
    }
  }

  /** With one trade in fifty flagged as won, the sums alone decide. */
  lemma ProfitNeededExactlyBySums(trades: seq<Trade>)
    requires Informative(trades) && 50 * Wins(trades) >= |trades|
    ensures (KellyFraction(trades) > 0.01 ==> Net(trades) > 0.0) <==> PnlOf(trades, true) > 0.0 || Net(trades) > 0.0
  {
    hide KellyFraction, Edge;
    ProfitNeededExactly(trades);
    if PnlOf(trades, true) < 0.0 {
      NegativeWinsHaveEdge(trades);
    }
  }

  /** Ten trades that each lost 1, half of them flagged as won, earn the greatest fraction. */
  lemma MislabelledWinsPay(trades: seq<Trade>)
    requires |trades| == 10 && forall i :: 0 <= i < 10 ==> trades[i] == Trade(i < 5, -1.0)
    ensures Net(trades) == -10.0 && KellyFraction(trades) == 0.25
  {
    hide KellyFraction;
    SameTrades(trades[5..], false);
    SameSums(trades, 5);
    NetSplits(trades);
    FractionIsHalfTheEdge(trades);
    assert Edge(trades) == 1.0;
  }

  /** The sums over trades that all lost 1 under the same flag. */
  lemma {:induction false} SameTrades(trades: seq<Trade>, won: bool)
    requires forall i :: 0 <= i < |trades| ==> trades[i] == Trade(won, -1.0)
    ensures Wins(trades) == if won then |trades| else 0
    ensures PnlOf(trades, won) == -(|trades| as real) && PnlOf(trades, !won) == 0.0
  {
    if trades != [] {
      SameTrades(trades[1..], won);
    }
  }

  lemma {:induction false} SameSums(trades: seq<Trade>, n: nat)
    requires n <= |trades| && forall i :: 0 <= i < n ==> trades[i] == Trade(true, -1.0)
    ensures Wins(trades) == Wins(trades[n..]) + n
    ensures PnlOf(trades, true) == PnlOf(trades[n..], true) - n as real
    ensures PnlOf(trades, false) == PnlOf(trades[n..], false)
    decreases n
  {
    if n > 0 {
      SameSums(trades[1..], n - 1);
      assert trades[1..][n - 1..] == trades[n..];
    }
  }

  lemma ShareBelowOne(l: real, g: real)
    requires 0.0 < g && l / g < 1.0
    ensures l < g
  {
    assert (l / g) * g == l;
  }

  lemma PositiveFactor(x: real, y: real)
    requires 0.0 <= x && 0.0 < x * y
    ensures 0.0 < y
  {
  }

  lemma NegativeWinsHaveEdge(trades: seq<Trade>)
    requires Informative(trades) && PnlOf(trades, true) < 0.0
    requires 50 * Wins(trades) >= |trades|
    ensures Edge(trades) > 0.02
  {
    hide KellyFraction;
    var g, l, rate := PnlOf(trades, true), Abs(PnlOf(trades, false)), Wins(trades) as real / |trades| as real;
    var y := l / g;
    assert y * g == l;
    assert y < 0.0;
    assert rate * |trades| as real == Wins(trades) as real;
    assert (50 * Wins(trades)) as real == 50.0 * Wins(trades) as real;
    ShareAtLeast(rate, Wins(trades) as real, |trades| as real);
    assert rate * (1.0 - y) == rate - rate * y;
    assert rate * y < 0.0;
  }

  lemma ShareAtLeast(rate: real, w: real, n: real)
    requires 0.0 < n && rate * n == w && 50.0 * w >= n
    ensures rate >= 0.02
  {
    var over := rate - 0.02;
    assert over * n == w - 0.02 * n;
    NotNegativeFactor(over, n);
  }

  // ---------- the object ----------

  function TradesOf(history: map<string, seq<Trade>>, symbol: string): seq<Trade> {
    if symbol in history then history[symbol] else []
  }

  datatype Allocation = Allocation(symbol: string, weight: real)

  function Exposure(equity: real, weight: real): real {
    equity * weight
  }

  datatype Breakdown = Breakdown(symbol: string, fraction: real, weight: real, risk: real)

  function Share(history: map<string, seq<Trade>>, equity: real, a: Allocation): Breakdown {
    var kelly := KellyFraction(TradesOf(history, a.symbol));
    Breakdown(a.symbol, kelly, a.weight, Exposure(equity, a.weight) * kelly)
  }

  lemma ShareIsRisk(history: map<string, seq<Trade>>, equity: real, a: Allocation)
    ensures Share(history, equity, a).risk == equity * a.weight * KellyFraction(TradesOf(history, a.symbol))
  {
    hide KellyFraction;
  }

  function PortfolioRisk(history: map<string, seq<Trade>>, equity: real, allocations: seq<Allocation>): real {
    if allocations == [] then 0.0
    else
      var a := allocations[|allocations| - 1];
      PortfolioRisk(history, equity, allocations[..|allocations| - 1]) + Share(history, equity, a).risk
  }

  lemma NoRisk(history: map<string, seq<Trade>>, equity: real, allocations: seq<Allocation>)
    ensures PortfolioRisk(history, equity, allocations[..0]) == 0.0
  {
  }

  lemma OneMoreRisk(history: map<string, seq<Trade>>, equity: real, allocations: seq<Allocation>, i: nat)
    requires i < |allocations|
    ensures PortfolioRisk(history, equity, allocations[..i + 1]) ==
            PortfolioRisk(history, equity, allocations[..i]) + Share(history, equity, allocations[i]).risk
  {
    hide Share;
    assert allocations[..i + 1][..i] == allocations[..i];
  }

  function TotalWeight(allocations: seq<Allocation>): real {
    if allocations == [] then 0.0
    else TotalWeight(allocations[..|allocations| - 1]) + allocations[|allocations| - 1].weight
  }

  lemma OneMoreStake(e: real, w: real, a: real, r: real, k: real)
    requires 0.0 <= e && 0.0 <= a && LEAST <= k <= MOST
    requires LEAST * Exposure(e, w) <= r <= MOST * Exposure(e, w)
    ensures LEAST * Exposure(e, w + a) <= r + Exposure(e, a) * k <= MOST * Exposure(e, w + a)
  {
    var stake := e * a;
    ProductIsNonNegative(e, a);
    assert Exposure(e, w + a) == Exposure(e, w) + stake;
    ProductIsNonNegative(stake, k - LEAST);
    ProductIsNonNegative(stake, MOST - k);
    assert stake * (k - LEAST) == stake * k - LEAST * stake;
    assert stake * (MOST - k) == MOST * stake - stake * k;
  }

  /** The portfolio risks between one and twenty-five percent of the equity per unit of weight. */
  lemma {:induction false} PortfolioRiskBounds(history: map<string, seq<Trade>>, equity: real,
                                               allocations: seq<Allocation>)
    requires 0.0 <= equity && forall i :: 0 <= i < |allocations| ==> 0.0 <= allocations[i].weight
    ensures 0.01 * (equity * TotalWeight(allocations)) <= PortfolioRisk(history, equity, allocations)
         <= 0.25 * (equity * TotalWeight(allocations))
  {
    hide KellyFraction;
    if allocations != [] {
      var front, a := allocations[..|allocations| - 1], allocations[|allocations| - 1];
      PortfolioRiskBounds(history, equity, front);
      FractionInRange(TradesOf(history, a.symbol));
      OneMoreStake(equity, TotalWeight(front), a.weight, PortfolioRisk(history, equity, front),
                   KellyFraction(TradesOf(history, a.symbol)));
    }
  }

  /** The fractions weighted as allocated. */
  function WeightedFraction(history: map<string, seq<Trade>>, allocations: seq<Allocation>): real {
    if allocations == [] then 0.0
    else
      var a := allocations[|allocations| - 1];
      WeightedFraction(history, allocations[..|allocations| - 1])
      + a.weight * KellyFraction(TradesOf(history, a.symbol))
  }

  lemma OneMoreFraction(equity: real, sum: real, weight: real, kelly: real)
    ensures equity * (sum + weight * kelly) == equity * sum + Exposure(equity, weight) * kelly
  {
  }

  /** The portfolio risks the equity times the weighted fraction. */
  lemma {:induction false} PortfolioRiskIsWeighted(history: map<string, seq<Trade>>, equity: real,
                                                   allocations: seq<Allocation>)
    ensures PortfolioRisk(history, equity, allocations) == equity * WeightedFraction(history, allocations)
  {
    hide KellyFraction, Exposure;
    if allocations != [] {
      var front, a := allocations[..|allocations| - 1], allocations[|allocations| - 1];
      PortfolioRiskIsWeighted(history, equity, front);
      OneMoreFraction(equity, WeightedFraction(history, front), a.weight, KellyFraction(TradesOf(history, a.symbol)));
    }
  }

  class DynamicKelly {
    var history: map<string, seq<Trade>>
    /** Every trade ever recorded. */
    ghost var recorded: map<string, seq<Trade>>

    ghost predicate Valid()
      reads this
    {
      && history.Keys == recorded.Keys
      && forall s :: s in history ==> history[s] == LastOf(recorded[s], KEPT)
    }

    constructor ()
      ensures Valid() && recorded == map[]
    {
      history, recorded := map[], map[];
    }

    method RecordTrade(symbol: string, won: bool, pnl: real)
      requires Valid()
      modifies this
      ensures Valid()
      ensures recorded == old(recorded)[symbol := TradesOf(old(recorded), symbol) + [Trade(won, pnl)]]
    {
      ghost var all := TradesOf(recorded, symbol);
      var trades := TradesOf(history, symbol) + [Trade(won, pnl)];
      if |trades| > KEPT {
        trades := trades[|trades| - KEPT..];
      }
      assert trades == LastOf(all + [Trade(won, pnl)], KEPT);
      history := history[symbol := trades];
      recorded := recorded[symbol := all + [Trade(won, pnl)]];
    }

    method CalculateKelly(symbol: string) returns (fraction: real)
      requires Valid()
      ensures fraction == KellyFraction(LastOf(TradesOf(recorded, symbol), 200))
    {
      fraction := KellyFraction(TradesOf(history, symbol));
    }

    method PortfolioKelly(equity: real, allocations: seq<Allocation>)
      returns (risk: real, percent: real, breakdowns: seq<Breakdown>)
      requires Valid()
      ensures risk == PortfolioRisk(history, equity, allocations)
      ensures |breakdowns| == |allocations|
      ensures forall i :: 0 <= i < |allocations| ==> breakdowns[i] == Share(history, equity, allocations[i])
      ensures forall i :: 0 <= i < |allocations| ==>
        var fraction := KellyFraction(TradesOf(history, allocations[i].symbol));
        && breakdowns[i].symbol == allocations[i].symbol && breakdowns[i].weight == allocations[i].weight
        && breakdowns[i].fraction == fraction
        && breakdowns[i].risk == equity * allocations[i].weight * fraction
      ensures percent == if equity > 0.0 then risk / equity * 100.0 else 0.0
    {
      hide KellyFraction, Exposure, PortfolioRisk;
      NoRisk(history, equity, allocations);
      risk, breakdowns := 0.0, [];
      for i := 0 to |allocations|
        invariant risk == PortfolioRisk(history, equity, allocations[..i])
        invariant |breakdowns| == i
        invariant forall j :: 0 <= j < i ==> breakdowns[j] == Share(history, equity, allocations[j])
      {
        OneMoreRisk(history, equity, allocations, i);
        var a := allocations[i];
        var kelly := KellyFraction(TradesOf(history, a.symbol));
        var stake := Exposure(equity, a.weight) * kelly;
        risk := risk + stake;
        breakdowns := breakdowns + [Breakdown(a.symbol, kelly, a.weight, stake)];
      }
      assert allocations[..|allocations|] == allocations;
      forall i | 0 <= i < |allocations|
        ensures var fraction := KellyFraction(TradesOf(history, allocations[i].symbol));
                breakdowns[i].risk == equity * allocations[i].weight * fraction
      {
        ShareIsRisk(history, equity, allocations[i]);
      }
      percent := if equity > 0.0 then risk / equity * 100.0 else 0.0;
    }
  }
}

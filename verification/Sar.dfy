/** The Parabolic SAR loop (`_parabolic_sar`, backend/ml/features.py). */
module Sar {
  import opened Lists
  import opened Rounding

  /** The loop's variables after a bar. */
  datatype Bar = Bar(psar: real, af: real, ep: real, hp: real, lp: real, bull: bool)

  datatype Pace = Pace(start: real, step: real, most: real)

  /** A value moved toward another by a share of the way. */
  function Moved(p: real, e: real, af: real): real {
    p + af * (e - p)
  }

  /** The SAR before a flip is considered: moved toward the extreme point, held outside the last two bars. */
  function Proposed(b: Bar, high: seq<real>, low: seq<real>, i: nat): real
    requires 1 <= i < |high| == |low|
  {
    var moved := Moved(b.psar, b.ep, b.af);
    var j := if i < 2 then 0 else i - 2;
    if b.bull then Min(Min(moved, low[i - 1]), low[j]) else Max(Max(moved, high[i - 1]), high[j])
  }

  predicate Flips(b: Bar, high: seq<real>, low: seq<real>, i: nat)
    requires 1 <= i < |high| == |low|
  {
    if b.bull then low[i] < Proposed(b, high, low, i) else high[i] > Proposed(b, high, low, i)
  }

  function Next(b: Bar, high: seq<real>, low: seq<real>, pace: Pace, i: nat): Bar
    requires 1 <= i < |high| == |low|
  {
    var p := Proposed(b, high, low, i);
    if Flips(b, high, low, i) then
      if b.bull then Bar(b.ep, pace.start, b.ep, b.hp, low[i], false)
      else Bar(b.ep, pace.start, b.ep, high[i], b.lp, true)
    else if b.bull then
      if high[i] > b.hp then Bar(p, Min(b.af + pace.step, pace.most), high[i], high[i], b.lp, true)
      else b.(psar := p)
    else
      if low[i] < b.lp then Bar(p, Min(b.af + pace.step, pace.most), low[i], b.hp, low[i], false)
      else b.(psar := p)
  }

  function At(high: seq<real>, low: seq<real>, pace: Pace, i: nat): Bar
    requires i < |high| == |low|
  {
    if i == 0 then Bar(high[0], pace.start, low[0], high[0], low[0], true)
    else Next(At(high, low, pace, i - 1), high, low, pace, i)
  }

  // ---------- range ----------

  predicate Proper(high: seq<real>, low: seq<real>, pace: Pace) {
    && |high| == |low|
    && (forall k :: 0 <= k < |low| ==> low[k] <= high[k])
    && 0.0 <= pace.start <= pace.most <= 1.0 && 0.0 <= pace.step
  }

  predicate Within(b: Bar, lo: real, hi: real, pace: Pace) {
    lo <= b.psar <= hi && lo <= b.ep <= hi && pace.start <= b.af <= pace.most
  }

  lemma MovedStaysBetween(p: real, e: real, af: real, lo: real, hi: real)
    requires lo <= p <= hi && lo <= e <= hi && 0.0 <= af <= 1.0
    ensures lo <= Moved(p, e, af) <= hi
  {
    SignedShare(e - p, af);
    var step := af * (e - p);
    assert Moved(p, e, af) == p + step;
  }

  lemma SignedShare(x: real, af: real)
    requires 0.0 <= af <= 1.0
    ensures Min(0.0, x) <= af * x <= Max(0.0, x)
  {
    if 0.0 <= x {
      ShareOf(x, af);
    } else {
      ShareOf(-x, af);
      assert af * -x == -(af * x);
    }
  }

  lemma ShareOf(x: real, af: real)
    requires 0.0 <= x && 0.0 <= af <= 1.0
    ensures 0.0 <= af * x <= x
  {
  }

  lemma NextStaysWithin(b: Bar, high: seq<real>, low: seq<real>, pace: Pace, i: nat, lo: real, hi: real)
    requires Proper(high, low, pace) && 1 <= i < |high| && Within(b, lo, hi, pace)
    requires forall k :: 0 <= k <= i ==> lo <= low[k] <= high[k] <= hi
    ensures Within(Next(b, high, low, pace, i), lo, hi, pace)
  {
    ProposedStaysBetween(b, high, low, pace, i, lo, hi);
    hide Proposed, Flips;
  }

  lemma ProposedStaysBetween(b: Bar, high: seq<real>, low: seq<real>, pace: Pace, i: nat, lo: real, hi: real)
    requires Proper(high, low, pace) && 1 <= i < |high| && Within(b, lo, hi, pace)
    requires forall k :: 0 <= k <= i ==> lo <= low[k] <= high[k] <= hi
    ensures lo <= Proposed(b, high, low, i) <= hi
  {
    hide Moved;
    MovedStaysBetween(b.psar, b.ep, b.af, lo, hi);
  }

  /** The SAR and the extreme point never leave the range of the prices seen, nor the factor its bounds. */
  lemma {:induction false} StaysInRange(high: seq<real>, low: seq<real>, pace: Pace, i: nat)
    requires Proper(high, low, pace) && i < |high|
    ensures Within(At(high, low, pace, i), Lowest(low[..i + 1]), Highest(high[..i + 1]), pace)
  {
    var lo, hi := Lowest(low[..i + 1]), Highest(high[..i + 1]);
    LowestIsLowest(low[..i + 1]);
    HighestIsHighest(high[..i + 1]);
    forall k | 0 <= k <= i
      ensures lo <= low[k] <= high[k] <= hi
    {
      assert low[..i + 1][k] == low[k] && high[..i + 1][k] == high[k];
    }
    if i > 0 {
      StaysInRange(high, low, pace, i - 1);
      assert low[..i + 1][..i] == low[..i] && high[..i + 1][..i] == high[..i];
      NextStaysWithin(At(high, low, pace, i - 1), high, low, pace, i, lo, hi);
    }
  }

  // ---------- sides ----------

  /** While the trend lasts the SAR is on the far side of the bar and of the two before it; at a flip it is the old
      extreme point. */
  lemma KeepsItsSide(high: seq<real>, low: seq<real>, pace: Pace, i: nat)
    requires 1 <= i < |high| == |low|
    ensures var b, c, j := At(high, low, pace, i - 1), At(high, low, pace, i), if i < 2 then 0 else i - 2;
            && (b.bull && c.bull ==> c.psar <= low[i] && c.psar <= low[i - 1] && c.psar <= low[j])
            && (!b.bull && !c.bull ==> c.psar >= high[i] && c.psar >= high[i - 1] && c.psar >= high[j])
            && (b.bull != c.bull <==> Flips(b, high, low, i))
            && (b.bull != c.bull ==> c.psar == b.ep && c.af == pace.start)
  {
    var b := At(high, low, pace, i - 1);
    hide At, Moved;
    assert At(high, low, pace, i) == Next(b, high, low, pace, i) by { AtStep(high, low, pace, i); }
  }

  lemma AtStart(high: seq<real>, low: seq<real>, pace: Pace)
    requires 0 < |high| == |low|
    ensures At(high, low, pace, 0) == Bar(high[0], pace.start, low[0], high[0], low[0], true)
  {
  }

  lemma AtStep(high: seq<real>, low: seq<real>, pace: Pace, i: nat)
    requires 1 <= i < |high| == |low|
    ensures At(high, low, pace, i) == Next(At(high, low, pace, i - 1), high, low, pace, i)
  {
  }

  /** The SAR's next place: nearer to the extreme point by the factor's share of the way. */
  function Toward(b: Bar): real {
    b.psar + b.af * (b.ep - b.psar)
  }

  lemma MovedIsToward(b: Bar)
    ensures Moved(b.psar, b.ep, b.af) == Toward(b)
  {
  }

  /**
    A bar ends the trend exactly if it goes beyond the SAR's next place and the two bars before it.  While the trend
    lasts the SAR moves toward the extreme point by its share of the way, but not past either of those bars.
  */
  lemma MovesExactly(high: seq<real>, low: seq<real>, pace: Pace, i: nat)
    requires 1 <= i < |high| == |low|
    ensures var b, c, j := At(high, low, pace, i - 1), At(high, low, pace, i), if i == 1 then 0 else i - 2;
            var moved := Toward(b);
            && (b.bull ==> (!c.bull <==> low[i] < moved && low[i] < low[i - 1] && low[i] < low[j]))
            && (!b.bull ==> (c.bull <==> high[i] > moved && high[i] > high[i - 1] && high[i] > high[j]))
            && (b.bull && c.bull ==> c.psar <= moved && c.psar <= low[i - 1] && c.psar <= low[j]
                                     && (c.psar == moved || c.psar == low[i - 1] || c.psar == low[j]))
            && (!b.bull && !c.bull ==> c.psar >= moved && c.psar >= high[i - 1] && c.psar >= high[j]
                                       && (c.psar == moved || c.psar == high[i - 1] || c.psar == high[j]))
  {
    hide *;
    AtStep(high, low, pace, i);
    MovedIsToward(At(high, low, pace, i - 1));
    NextMoves(At(high, low, pace, i - 1), high, low, pace, i);
  }

  lemma NextMoves(b: Bar, high: seq<real>, low: seq<real>, pace: Pace, i: nat)
    requires 1 <= i < |high| == |low|
    ensures var c, j, moved := Next(b, high, low, pace, i), if i == 1 then 0 else i - 2, Moved(b.psar, b.ep, b.af);
            && (b.bull ==> (!c.bull <==> low[i] < moved && low[i] < low[i - 1] && low[i] < low[j]))
            && (!b.bull ==> (c.bull <==> high[i] > moved && high[i] > high[i - 1] && high[i] > high[j]))
            && (b.bull && c.bull ==> c.psar <= moved && c.psar <= low[i - 1] && c.psar <= low[j]
                                     && (c.psar == moved || c.psar == low[i - 1] || c.psar == low[j]))
            && (!b.bull && !c.bull ==> c.psar >= moved && c.psar >= high[i - 1] && c.psar >= high[j]
                                       && (c.psar == moved || c.psar == high[i - 1] || c.psar == high[j]))
  {
    hide Moved;
  }

  /** The bar at which the current trend began: the last flip, or bar 0. */
  function TrendStart(high: seq<real>, low: seq<real>, pace: Pace, i: nat): (r: nat)
    requires i < |high| == |low|
    ensures r <= i
  {
    if i == 0 then 0
    else if At(high, low, pace, i).bull != At(high, low, pace, i - 1).bull then i
    else TrendStart(high, low, pace, i - 1)
  }

  lemma OneMoreBar(high: seq<real>, low: seq<real>, pace: Pace, i: nat)
    requires 1 <= i < |high| == |low|
    ensures var s := TrendStart(high, low, pace, i);
            if At(high, low, pace, i).bull != At(high, low, pace, i - 1).bull then s == i
            else s == TrendStart(high, low, pace, i - 1) < i
  {
    hide At;
  }

  /** What a bar does to the tracked extremes. */
  lemma NextTracks(b: Bar, high: seq<real>, low: seq<real>, pace: Pace, i: nat)
    requires 1 <= i < |high| == |low|
    ensures var c := Next(b, high, low, pace, i);
            && (c.bull ==> c.hp == if b.bull then Max(b.hp, high[i]) else high[i])
            && (!c.bull ==> c.lp == if b.bull then low[i] else Min(b.lp, low[i]))
  {
    hide Proposed;
  }

  lemma HighestGrows(s: seq<real>, a: nat, i: nat)
    requires a < i < |s|
    ensures Highest(s[a..i + 1]) == Max(Highest(s[a..i]), s[i]) && Lowest(s[a..i + 1]) == Min(Lowest(s[a..i]), s[i])
  {
    assert s[a..i + 1][..i - a] == s[a..i];
  }

  /** In an up-trend `hp` is the highest high since the trend began, in a down-trend `lp` the lowest low. */
  lemma {:induction false} ExtremesOfTheTrend(high: seq<real>, low: seq<real>, pace: Pace, i: nat)
    requires i < |high| == |low|
    ensures var b, s := At(high, low, pace, i), TrendStart(high, low, pace, i);
            && (b.bull ==> b.hp == Highest(high[s..i + 1]))
            && (!b.bull ==> b.lp == Lowest(low[s..i + 1]))
  {
    if i > 0 {
      hide At, Next, TrendStart;
      ExtremesOfTheTrend(high, low, pace, i - 1);
      AtStep(high, low, pace, i);
      NextTracks(At(high, low, pace, i - 1), high, low, pace, i);
      OneMoreBar(high, low, pace, i);
      var s := TrendStart(high, low, pace, i);
      if s < i {
        HighestGrows(high, s, i);
        HighestGrows(low, s, i);
        hide Highest, Lowest;
      }
    }
  }

  /** How many bars of a trend that began at bar s went beyond all its earlier ones. */
  function NewExtremes(high: seq<real>, low: seq<real>, s: nat, i: nat, bull: bool): nat
    requires s <= i < |high| == |low|
  {
    if i == s then 0
    else NewExtremes(high, low, s, i - 1, bull)
         + if (if bull then high[i] > Highest(high[s..i]) else low[i] < Lowest(low[s..i])) then 1 else 0
  }

  function Capped(pace: Pace, n: nat): real {
    Min(pace.start + n as real * pace.step, pace.most)
  }

  lemma CappedGrows(pace: Pace, n: nat)
    requires 0.0 <= pace.step
    ensures Capped(pace, n + 1) == Min(Capped(pace, n) + pace.step, pace.most)
  {
    assert (n + 1) as real * pace.step == n as real * pace.step + pace.step;
  }

  /** What a bar does to the factor: a flip starts it over, a new extreme adds a step. */
  lemma NextFactor(b: Bar, high: seq<real>, low: seq<real>, pace: Pace, i: nat)
    requires 1 <= i < |high| == |low|
    ensures var c := Next(b, high, low, pace, i);
            c.af == if c.bull != b.bull then pace.start
                    else if (if b.bull then high[i] > b.hp else low[i] < b.lp) then Min(b.af + pace.step, pace.most)
                    else b.af
  {
    hide Proposed;
  }

  /** The factor counts the new extremes of the trend: it starts over at a flip and grows by a step at each, up to the
      most. */
  lemma {:induction false} FactorCountsExtremes(high: seq<real>, low: seq<real>, pace: Pace, i: nat)
    requires i < |high| == |low| && 0.0 <= pace.step && pace.start <= pace.most
    ensures var b, s := At(high, low, pace, i), TrendStart(high, low, pace, i);
            b.af == Capped(pace, NewExtremes(high, low, s, i, b.bull))
  {
    CappedStart(pace);
    if i == 0 {
      AtStart(high, low, pace);
      hide At, Capped;
    } else {
      hide At, Next, TrendStart, Capped, Highest, Lowest;
      FactorCountsExtremes(high, low, pace, i - 1);
      ExtremesOfTheTrend(high, low, pace, i - 1);
      AtStep(high, low, pace, i);
      NextFactor(At(high, low, pace, i - 1), high, low, pace, i);
      OneMoreBar(high, low, pace, i);
      var s := TrendStart(high, low, pace, i);
      if s < i {
        CappedGrows(pace, NewExtremes(high, low, s, i - 1, At(high, low, pace, i).bull));
      }
    }
  }

  lemma CappedStart(pace: Pace)
    requires pace.start <= pace.most
    ensures Capped(pace, 0) == pace.start
  {
  }

  /** The extreme point that a trend starts out with: the old trend's, or the first low. */
  function Inherited(high: seq<real>, low: seq<real>, pace: Pace, i: nat): real
    requires i < |high| == |low|
  {
    var s := TrendStart(high, low, pace, i);
    if s == 0 then low[0] else At(high, low, pace, s - 1).ep
  }

  /** The extreme point is the extreme of the trend once that has gone beyond its first bar, and inherited until then. */
  lemma {:induction false} ExtremePointOfTheTrend(high: seq<real>, low: seq<real>, pace: Pace, i: nat)
    requires i < |high| == |low|
    ensures var b, s := At(high, low, pace, i), TrendStart(high, low, pace, i);
            && (b.bull ==> b.ep == if b.hp > high[s] then b.hp else Inherited(high, low, pace, i))
            && (!b.bull ==> b.ep == if b.lp < low[s] then b.lp else Inherited(high, low, pace, i))
            && (b.bull ==> b.hp >= high[s]) && (!b.bull ==> b.lp <= low[s])
  {
    hide Proposed;
    if i > 0 {
      ExtremePointOfTheTrend(high, low, pace, i - 1);
    }
  }

  /** So it is the trend's extreme exactly when a new extreme has been made or the inherited point equals the first. */
  lemma ExtremePointExactly(high: seq<real>, low: seq<real>, pace: Pace, i: nat)
    requires i < |high| == |low|
    ensures var b, s := At(high, low, pace, i), TrendStart(high, low, pace, i);
            && (b.bull ==> (b.ep == Highest(high[s..i + 1]) <==>
                            Highest(high[s..i + 1]) > high[s] || Inherited(high, low, pace, i) == high[s]))
            && (!b.bull ==> (b.ep == Lowest(low[s..i + 1]) <==>
                             Lowest(low[s..i + 1]) < low[s] || Inherited(high, low, pace, i) == low[s]))
  {
    hide At, Inherited, Highest, Lowest;
    ExtremePointOfTheTrend(high, low, pace, i);
    ExtremesOfTheTrend(high, low, pace, i);
  }

  // ---------- the loop ----------

  /** The body of the loop: the variables of bar i from those of the bar before. */
  method Advance(previous: real, af0: real, ep0: real, hp0: real, lp0: real, bull0: bool,
                 high: seq<real>, low: seq<real>, pace: Pace, i: nat)
    returns (p: real, af: real, ep: real, hp: real, lp: real, bull: bool)
    requires 1 <= i < |high| == |low|
    ensures Bar(p, af, ep, hp, lp, bull) == Next(Bar(previous, af0, ep0, hp0, lp0, bull0), high, low, pace, i)
  {
    hide Moved;
    af, ep, hp, lp, bull := af0, ep0, hp0, lp0, bull0;
    var j := if i < 2 then 0 else i - 2;
    p := Moved(previous, ep, af);
    if bull {
      p := Min(Min(p, low[i - 1]), low[j]);
      if low[i] < p {
        bull := false;
        p := ep;
        lp := low[i];
        af := pace.start;
      } else if high[i] > hp {
        hp := high[i];
        ep := hp;
        af := Min(af + pace.step, pace.most);
      }
    } else {
      p := Max(Max(p, high[i - 1]), high[j]);
      if high[i] > p {
        bull := true;
        p := ep;
        hp := high[i];
        af := pace.start;
      } else if low[i] < lp {
        lp := low[i];
        ep := lp;
        af := Min(af + pace.step, pace.most);
      }
    }
  }

  method ParabolicSar(high: seq<real>, low: seq<real>, pace: Pace) returns (psar: array<real>)
    requires 0 < |high| == |low|
    ensures psar.Length == |high| && forall i :: 0 <= i < psar.Length ==> psar[i] == At(high, low, pace, i).psar
  {
    hide Next, At;
    AtStart(high, low, pace);
    psar := new real[|high|](_ => 0.0);
    var af, bull, ep, hp, lp := pace.start, true, low[0], high[0], low[0];
    psar[0] := high[0];
    for i := 1 to |high|
      invariant forall k :: 0 <= k < i ==> psar[k] == At(high, low, pace, k).psar
      invariant At(high, low, pace, i - 1) == Bar(psar[i - 1], af, ep, hp, lp, bull)
    {
      AtStep(high, low, pace, i);
      psar[i], af, ep, hp, lp, bull := Advance(psar[i - 1], af, ep, hp, lp, bull, high, low, pace, i);
    }
  }
}

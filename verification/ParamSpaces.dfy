/**
  The parameter spaces handed to the optimizer (backend/ml/genetic_optimizer.py), and the bounds within which the
  projection can never push a gene out.
*/
module ParamSpaces {
  import opened Dicts
  import opened Options
  import opened Projection
  import opened Rounding
  import opened Shares
  import opened Sorting

  /** Genes as every operator of the optimizer builds them: exactly the parameters of the space, each in its range. */
  ghost predicate InSpace(g: Genes, bounds: Bounds) {
    g.Keys == bounds.vals.Keys && forall k :: k in g ==> bounds.vals[k].low <= g[k] <= bounds.vals[k].high
  }

  /** No range is empty. */
  ghost predicate Ordered(bounds: Bounds) {
    forall k :: k in bounds.vals ==> bounds.vals[k].low <= bounds.vals[k].high
  }

  // ---------- which ranges survive the repairs ----------

  predicate HasWeightRanges(b: map<Gene, Range>) {
    MomentumWeight in b && TrendWeight in b && VolatilityWeight in b && DxyWeight in b
  }

  /** The sums of the least, and of the greatest, values of the four weights. */
  function LowSum(b: map<Gene, Range>): real
    requires HasWeightRanges(b)
  {
    b[MomentumWeight].low + b[TrendWeight].low + b[VolatilityWeight].low + b[DxyWeight].low
  }

  function HighSum(b: map<Gene, Range>): real
    requires HasWeightRanges(b)
  {
    b[MomentumWeight].high + b[TrendWeight].high + b[VolatilityWeight].high + b[DxyWeight].high
  }

  predicate ShareTidy(r: Range, lowSum: real, highSum: real) {
    ShareRange(r.low, r.high, lowSum - r.low, highSum - r.high)
  }

  predicate WeightsTidy(b: map<Gene, Range>) {
    HasWeightRanges(b) ==>
      && ShareTidy(b[MomentumWeight], LowSum(b), HighSum(b)) && ShareTidy(b[TrendWeight], LowSum(b), HighSum(b))
      && ShareTidy(b[VolatilityWeight], LowSum(b), HighSum(b)) && ShareTidy(b[DxyWeight], LowSum(b), HighSum(b))
  }

  predicate BordersTidy(b: map<Gene, Range>) {
    (Core in b && Inner in b && Outer in b && Extended in b) ==>
      && b[Core].low <= b[Inner].low <= b[Outer].low <= b[Extended].low
      && b[Core].high <= b[Inner].high <= b[Outer].high <= b[Extended].high
  }

  predicate AtrTidy(b: map<Gene, Range>) {
    (AtrMin in b && AtrMax in b) ==> b[AtrMin].high < b[AtrMax].low || b[AtrMin].low <= b[AtrMax].low - 0.05
  }

  predicate TargetTidy(b: map<Gene, Range>) {
    (SlMult in b && TpMult in b) ==> b[SlMult].high < b[TpMult].low || b[SlMult].high + 0.5 <= b[TpMult].high
  }

  /**
    The ranges whose genes survive every repair: each weight's share of the sum keeps within its range, the ranges of
    the borders ascend at both ends, and where the ATR thresholds, or stop and target, may collide, the repaired value
    is within its range.
  */
  predicate Tidy(bounds: Bounds) {
    WeightsTidy(bounds.vals) && BordersTidy(bounds.vals) && AtrTidy(bounds.vals) && TargetTidy(bounds.vals)
  }

  /** Genes of the space, each at the low end of its range or at the high. */
  function Corner(bounds: Bounds, low: bool): Genes {
    map k | k in bounds.vals :: if low then bounds.vals[k].low else bounds.vals[k].high
  }

  lemma CornerInSpace(bounds: Bounds, low: bool)
    requires Ordered(bounds)
    ensures InSpace(Corner(bounds, low), bounds)
  {
  }

  // ---------- one repair at a time ----------

  lemma BordersExactly(bounds: Bounds)
    requires Ordered(bounds)
    ensures (forall g :: InSpace(g, bounds) ==> InSpace(FixBorders(g), bounds)) <==> BordersTidy(bounds.vals)
  {
    if forall g :: InSpace(g, bounds) ==> InSpace(FixBorders(g), bounds) {
      BordersMustBeTidy(bounds);
    }
    if BordersTidy(bounds.vals) {
      forall g | InSpace(g, bounds)
        ensures InSpace(FixBorders(g), bounds)
      {
        BordersStay(g, bounds);
      }
    }
  }

  lemma BordersMustBeTidy(bounds: Bounds)
    requires Ordered(bounds)
    requires forall g :: InSpace(g, bounds) ==> InSpace(FixBorders(g), bounds)
    ensures BordersTidy(bounds.vals)
  {
    var low, high := Corner(bounds, true), Corner(bounds, false);
    CornerInSpace(bounds, true);
    CornerInSpace(bounds, false);
    if HasBorders(low) {
      SortedCorner(low, bounds);
      SortedCorner(high, bounds);
      var l, h := Borders(low), Borders(high);
      OwnBoundsAreAscending(l);
      OwnBoundsAreAscending(h);
      assert l[0] <= l[1] <= l[2] <= l[3] && h[0] <= h[1] <= h[2] <= h[3];
    }
  }

  lemma SortedCorner(g: Genes, bounds: Bounds)
    requires HasBorders(g) && InSpace(g, bounds) && InSpace(FixBorders(g), bounds)
    ensures g == Corner(bounds, true) ==> AllAtLeast(Sorted(Borders(g)), Borders(g))
    ensures g == Corner(bounds, false) ==> AllAtMost(Sorted(Borders(g)), Borders(g))
  {
    hide Sorted;
    BordersAsGiven(g, Sorted(Borders(g)));
  }

  lemma BordersStay(g: Genes, bounds: Bounds)
    requires InSpace(g, bounds) && BordersTidy(bounds.vals)
    ensures InSpace(FixBorders(g), bounds)
  {
    if HasBorders(g) {
      var b := bounds.vals;
      var low := [b[Core].low, b[Inner].low, b[Outer].low, b[Extended].low];
      var high := [b[Core].high, b[Inner].high, b[Outer].high, b[Extended].high];
      SortedKeepsRanges(Borders(g), low, high);
      hide Sorted;
      BordersInSpace(g, bounds, Sorted(Borders(g)), low, high);
    }
  }

  lemma BordersInSpace(g: Genes, bounds: Bounds, v: seq<real>, low: seq<real>, high: seq<real>)
    requires InSpace(g, bounds) && HasBorders(g) && |v| == 4 && AllAtLeast(v, low) && AllAtMost(v, high)
    requires var b := bounds.vals;
             && low == [b[Core].low, b[Inner].low, b[Outer].low, b[Extended].low]
             && high == [b[Core].high, b[Inner].high, b[Outer].high, b[Extended].high]
    ensures InSpace(WithBorders(g, v), bounds)
  {
  }

  predicate InWeightRanges(b: map<Gene, Range>, m: real, t: real, v: real, d: real)
    requires HasWeightRanges(b)
  {
    && b[MomentumWeight].low <= m <= b[MomentumWeight].high && b[TrendWeight].low <= t <= b[TrendWeight].high
    && b[VolatilityWeight].low <= v <= b[VolatilityWeight].high && b[DxyWeight].low <= d <= b[DxyWeight].high
  }

  lemma ShareInRange(r: Range, w: real, total: real)
    requires 0.0 < total
    ensures r.low <= w / total <= r.high <==> Fits(r.low, r.high, w, total - w)
  {
    var q := w / total;
    assert q * total == w;
    if r.low <= q <= r.high {
      ProductIsNonNegative(q - r.low, total);
      ProductIsNonNegative(r.high - q, total);
      assert (q - r.low) * total == w - r.low * total;
      assert (r.high - q) * total == r.high * total - w;
    }
    if Fits(r.low, r.high, w, total - w) {
      assert (q - r.low) * total == w - r.low * total;
      assert (r.high - q) * total == r.high * total - w;
      NotNegativeFactor(q - r.low, total);
      NotNegativeFactor(r.high - q, total);
    }
  }

  lemma WeightStays(r: Range, w: real, total: real, lowSum: real, highSum: real)
    requires ShareTidy(r, lowSum, highSum) && r.low <= w <= r.high && 0.0 < total
    requires lowSum - r.low <= total - w <= highSum - r.high
    ensures r.low <= w / total <= r.high
  {
    RangeFits(r.low, r.high, lowSum - r.low, highSum - r.high, w, total - w);
    ShareInRange(r, w, total);
  }

  lemma WeightsStay(g: Genes, bounds: Bounds)
    requires InSpace(g, bounds) && WeightsTidy(bounds.vals)
    ensures InSpace(FixWeights(g), bounds)
  {
    hide ShareTidy, Fits, InSpace;
    if HasWeights(g) && TotalWeight(g) > 0.0 {
      var b, t := bounds.vals, TotalWeight(g);
      InRangesFromSpace(g, bounds);
      WeightStays(b[MomentumWeight], g[MomentumWeight], t, LowSum(b), HighSum(b));
      WeightStays(b[TrendWeight], g[TrendWeight], t, LowSum(b), HighSum(b));
      WeightStays(b[VolatilityWeight], g[VolatilityWeight], t, LowSum(b), HighSum(b));
      WeightStays(b[DxyWeight], g[DxyWeight], t, LowSum(b), HighSum(b));
      WithSharesInSpace(g, bounds, g[MomentumWeight] / t, g[TrendWeight] / t, g[VolatilityWeight] / t, g[DxyWeight] / t);
    }
  }

  lemma WithSharesInSpace(g: Genes, bounds: Bounds, m: real, t: real, v: real, d: real)
    requires InSpace(g, bounds) && HasWeights(g)
    requires InWeightRanges(bounds.vals, m, t, v, d)
    ensures InSpace(WithWeights(g, m, t, v, d), bounds)
  {
  }

  /** Three numbers of given ranges with a given sum. */
  lemma Spread(p: Range, q: Range, r: Range, sum: real) returns (x: real, y: real, z: real)
    requires p.low <= p.high && q.low <= q.high && r.low <= r.high
    requires p.low + q.low + r.low <= sum <= p.high + q.high + r.high
    ensures p.low <= x <= p.high && q.low <= y <= q.high && r.low <= z <= r.high && x + y + z == sum
  {
    x := Min(p.high, sum - q.low - r.low);
    y := Min(q.high, sum - x - r.low);
    z := sum - x - y;
  }

  lemma SharesFit(bounds: Bounds, m: real, t: real, v: real, d: real, sum: real)
    requires Ordered(bounds) && HasWeightRanges(bounds.vals)
    requires forall g :: InSpace(g, bounds) ==> InSpace(FixWeights(g), bounds)
    requires InWeightRanges(bounds.vals, m, t, v, d) && sum == m + t + v + d && 0.0 < sum
    ensures InWeightRanges(bounds.vals, m / sum, t / sum, v / sum, d / sum)
  {
    var low := Corner(bounds, true);
    CornerInSpace(bounds, true);
    WithSharesInSpace(low, bounds, m, t, v, d);
    SharesOf(low, m, t, v, d, sum);
    InRangesFromSpace(FixWeights(WithWeights(low, m, t, v, d)), bounds);
    hide FixWeights, Corner;
  }

  lemma InRangesFromSpace(g: Genes, bounds: Bounds)
    requires InSpace(g, bounds) && HasWeights(g)
    ensures HasWeightRanges(bounds.vals)
    ensures InWeightRanges(bounds.vals, g[MomentumWeight], g[TrendWeight], g[VolatilityWeight], g[DxyWeight])
  {
  }

  lemma SharesOf(g: Genes, m: real, t: real, v: real, d: real, sum: real)
    requires sum == m + t + v + d && 0.0 < sum
    ensures var r := FixWeights(WithWeights(g, m, t, v, d));
            && HasWeights(r) && r[MomentumWeight] == m / sum && r[TrendWeight] == t / sum
            && r[VolatilityWeight] == v / sum && r[DxyWeight] == d / sum
  {
  }

  /** The other three weights can be chosen to sum to r, so a share that does not fit is reached. */
  lemma WeightMustFit(bounds: Bounds, k: Gene, w: real, r: real)
    requires Ordered(bounds) && HasWeightRanges(bounds.vals) && IsWeight(k)
    requires forall g :: InSpace(g, bounds) ==> InSpace(FixWeights(g), bounds)
    requires bounds.vals[k].low <= w <= bounds.vals[k].high && 0.0 < w + r
    requires LowSum(bounds.vals) - bounds.vals[k].low <= r <= HighSum(bounds.vals) - bounds.vals[k].high
    ensures Fits(bounds.vals[k].low, bounds.vals[k].high, w, r)
  {
    hide Fits, InSpace, FixWeights;
    var b := bounds.vals;
    ShareInRange(b[k], w, w + r);
    match k
    case MomentumWeight =>
      var x, y, z := Spread(b[TrendWeight], b[VolatilityWeight], b[DxyWeight], r);
      SharesFit(bounds, w, x, y, z, w + r);
    case TrendWeight =>
      var x, y, z := Spread(b[MomentumWeight], b[VolatilityWeight], b[DxyWeight], r);
      SharesFit(bounds, x, w, y, z, w + r);
    case VolatilityWeight =>
      var x, y, z := Spread(b[MomentumWeight], b[TrendWeight], b[DxyWeight], r);
      SharesFit(bounds, x, y, w, z, w + r);
    case DxyWeight =>
      var x, y, z := Spread(b[MomentumWeight], b[TrendWeight], b[VolatilityWeight], r);
      SharesFit(bounds, x, y, z, w, w + r);
  }

  lemma WeightMustBeTidy(bounds: Bounds, k: Gene)
    requires Ordered(bounds) && HasWeightRanges(bounds.vals) && IsWeight(k)
    requires forall g :: InSpace(g, bounds) ==> InSpace(FixWeights(g), bounds)
    ensures ShareTidy(bounds.vals[k], LowSum(bounds.vals), HighSum(bounds.vals))
  {
    hide ShareRange, InSpace, FixWeights, Fits;
    var b := bounds.vals;
    var l, h, a, c := b[k].low, b[k].high, LowSum(b) - b[k].low, HighSum(b) - b[k].high;
    forall w, r | l <= w <= h && a <= r <= c && 0.0 < w + r
      ensures Fits(l, h, w, r)
    {
      WeightMustFit(bounds, k, w, r);
    }
    ShareRangeIsExact(l, h, a, c);
  }

  lemma WeightsExactly(bounds: Bounds)
    requires Ordered(bounds)
    ensures (forall g :: InSpace(g, bounds) ==> InSpace(FixWeights(g), bounds)) <==> WeightsTidy(bounds.vals)
  {
    hide ShareTidy, InSpace, FixWeights, Ordered;
    if (forall g :: InSpace(g, bounds) ==> InSpace(FixWeights(g), bounds)) && HasWeightRanges(bounds.vals) {
      WeightMustBeTidy(bounds, MomentumWeight);
      WeightMustBeTidy(bounds, TrendWeight);
      WeightMustBeTidy(bounds, VolatilityWeight);
      WeightMustBeTidy(bounds, DxyWeight);
    }
    if WeightsTidy(bounds.vals) {
      forall g | InSpace(g, bounds)
        ensures InSpace(FixWeights(g), bounds)
      {
        WeightsStay(g, bounds);
      }
    }
  }

  lemma AtrExactly(bounds: Bounds)
    requires Ordered(bounds)
    ensures (forall g :: InSpace(g, bounds) ==> InSpace(FixAtr(g), bounds)) <==> AtrTidy(bounds.vals)
  {
    var b := bounds.vals;
    if AtrMin in b && AtrMax in b && b[AtrMax].low <= b[AtrMin].high {
      CornerInSpace(bounds, true);
      var g := Corner(bounds, true)[AtrMin := b[AtrMin].high];
      assert InSpace(g, bounds);
      assert FixAtr(g)[AtrMin] == b[AtrMax].low - 0.05;
    }
  }

  lemma TargetExactly(bounds: Bounds)
    requires Ordered(bounds)
    ensures (forall g :: InSpace(g, bounds) ==> InSpace(FixTarget(g), bounds)) <==> TargetTidy(bounds.vals)
  {
    var b := bounds.vals;
    if SlMult in b && TpMult in b && b[TpMult].low <= b[SlMult].high {
      CornerInSpace(bounds, true);
      var g := Corner(bounds, true)[SlMult := b[SlMult].high];
      assert InSpace(g, bounds);
      assert FixTarget(g)[TpMult] == b[SlMult].high + 0.5;
    }
  }

  // ---------- the whole repair, and the projection ----------

  lemma FirstTwoParts(g: Genes)
    ensures var b := FixBorders(FixWeights(g));
            && b.Keys == g.Keys == FixWeights(g).Keys == FixBorders(g).Keys
            && forall k :: k in g ==>
                 b[k] == if IsWeight(k) then FixWeights(g)[k] else if IsBorder(k) then FixBorders(g)[k] else g[k]
  {
    hide FixWeights, FixBorders, IsWeight, IsBorder;
    OneKind();
    WeightsAlone(g);
    BordersAlone(FixWeights(g));
    BordersFromBorders(g, FixWeights(g));
  }

  /** The repairs touch different genes, so each sees what the original held. */
  lemma RepairByParts(g: Genes)
    ensures Repair(g).Keys == g.Keys
    ensures forall k :: k in g ==>
      Repair(g)[k] == if IsWeight(k) then FixWeights(g)[k]
                      else if IsBorder(k) then FixBorders(g)[k]
                      else if k == AtrMin then FixAtr(g)[k]
                      else if k == TpMult then FixTarget(g)[k] else g[k]
  {
    hide FixWeights, FixBorders, FixAtr, FixTarget, IsWeight, IsBorder;
    var b := FixBorders(FixWeights(g));
    OneKind();
    FirstTwoParts(g);
    AtrAlone(g, b);
    TargetAlone(g, FixAtr(b));
  }

  lemma AtrAlone(g: Genes, b: Genes)
    requires g.Keys == b.Keys && forall k :: k in g && !IsWeight(k) && !IsBorder(k) ==> b[k] == g[k]
    ensures FixAtr(b).Keys == g.Keys && forall k :: k in g && k != AtrMin ==> FixAtr(b)[k] == b[k]
    ensures FixAtr(g).Keys == g.Keys && (AtrMin in g ==> FixAtr(b)[AtrMin] == FixAtr(g)[AtrMin])
  {
  }

  lemma TargetAlone(g: Genes, b: Genes)
    requires g.Keys == b.Keys && forall k :: k in g && !IsWeight(k) && !IsBorder(k) && k != AtrMin ==> b[k] == g[k]
    ensures FixTarget(b).Keys == g.Keys && forall k :: k in g && k != TpMult ==> FixTarget(b)[k] == b[k]
    ensures FixTarget(g).Keys == g.Keys && (TpMult in g ==> FixTarget(b)[TpMult] == FixTarget(g)[TpMult])
  {
  }

  lemma BordersAlone(g: Genes)
    ensures FixBorders(g).Keys == g.Keys && forall k :: k in g && !IsBorder(k) ==> FixBorders(g)[k] == g[k]
  {
    if HasBorders(g) {
      SortedBordersAreSame(g);
    }
    hide Sorted, WithBorders, IsBorder;
  }

  lemma BordersFromBorders(g: Genes, w: Genes)
    requires g.Keys == w.Keys && forall k :: k in g && IsBorder(k) ==> w[k] == g[k]
    ensures FixBorders(w).Keys == g.Keys == FixBorders(g).Keys
    ensures forall k :: k in g && IsBorder(k) ==> FixBorders(w)[k] == FixBorders(g)[k]
  {
    BordersAlone(g);
    BordersAlone(w);
    if HasBorders(g) {
      assert Borders(w) == Borders(g);
      BordersAsGiven(g, Sorted(Borders(g)));
      BordersAsGiven(w, Sorted(Borders(g)));
      SameBorderValues(FixBorders(g), FixBorders(w));
    }
    hide Sorted, WithBorders, Borders;
  }

  lemma SameBorderValues(g: Genes, w: Genes)
    requires HasBorders(g) && HasBorders(w) && Borders(g) == Borders(w)
    ensures forall k :: IsBorder(k) ==> k in g && k in w && g[k] == w[k]
  {
    assert Borders(g)[0] == Borders(w)[0] && Borders(g)[1] == Borders(w)[1];
    assert Borders(g)[2] == Borders(w)[2] && Borders(g)[3] == Borders(w)[3];
  }

  /** How one repair appears in the whole: as it is, on the genes it may change. */
  ghost predicate Contributes(g: Genes, part: Genes, whole: Genes, mine: Gene -> bool) {
    && part.Keys == g.Keys == whole.Keys
    && forall k :: k in g ==> part[k] == if mine(k) then whole[k] else g[k]
  }

  lemma PartInSpace(g: Genes, part: Genes, whole: Genes, mine: Gene -> bool, bounds: Bounds)
    requires Contributes(g, part, whole, mine) && InSpace(g, bounds) && InSpace(whole, bounds)
    ensures InSpace(part, bounds)
  {
  }

  lemma WeightsContribute(g: Genes)
    ensures Contributes(g, FixWeights(g), Repair(g), IsWeight)
  {
    hide Repair, FixWeights, FixBorders, FixAtr, FixTarget, IsWeight, IsBorder;
    RepairByParts(g);
    WeightsAlone(g);
    OneKind();
  }

  lemma BordersContribute(g: Genes)
    ensures Contributes(g, FixBorders(g), Repair(g), IsBorder)
  {
    hide Repair, FixWeights, FixBorders, FixAtr, FixTarget, IsWeight, IsBorder;
    RepairByParts(g);
    BordersAlone(g);
    OneKind();
  }

  lemma ThresholdsContribute(g: Genes)
    ensures Contributes(g, FixAtr(g), Repair(g), (k: Gene) => k == AtrMin)
  {
    hide Repair, FixWeights, FixBorders, FixAtr, FixTarget, IsWeight, IsBorder;
    RepairByParts(g);
    AtrAlone(g, g);
    OneKind();
  }

  lemma TargetsContribute(g: Genes)
    ensures Contributes(g, FixTarget(g), Repair(g), (k: Gene) => k == TpMult)
  {
    hide Repair, FixWeights, FixBorders, FixAtr, FixTarget, IsWeight, IsBorder;
    RepairByParts(g);
    TargetAlone(g, g);
    OneKind();
  }

  /** If no repair on its own leaves the space, all of them together do not. */
  lemma WholeInSpace(g: Genes, bounds: Bounds)
    requires InSpace(g, bounds) && InSpace(FixWeights(g), bounds) && InSpace(FixBorders(g), bounds)
    requires InSpace(FixAtr(g), bounds) && InSpace(FixTarget(g), bounds)
    ensures InSpace(Repair(g), bounds)
  {
    hide Repair, FixWeights, FixBorders, FixAtr, FixTarget, IsWeight, IsBorder;
    RepairByParts(g);
    forall k | k in g
      ensures bounds.vals[k].low <= Repair(g)[k] <= bounds.vals[k].high
    {
    }
  }

  lemma PartsInSpace(g: Genes, bounds: Bounds)
    requires InSpace(g, bounds) && InSpace(Repair(g), bounds)
    ensures InSpace(FixWeights(g), bounds) && InSpace(FixBorders(g), bounds)
    ensures InSpace(FixAtr(g), bounds) && InSpace(FixTarget(g), bounds)
  {
    hide *;
    WeightsContribute(g);
    BordersContribute(g);
    ThresholdsContribute(g);
    TargetsContribute(g);
    PartInSpace(g, FixWeights(g), Repair(g), IsWeight, bounds);
    PartInSpace(g, FixBorders(g), Repair(g), IsBorder, bounds);
    PartInSpace(g, FixAtr(g), Repair(g), (k: Gene) => k == AtrMin, bounds);
    PartInSpace(g, FixTarget(g), Repair(g), (k: Gene) => k == TpMult, bounds);
  }

  lemma OneKind()
    ensures forall k :: IsWeight(k) ==> !IsBorder(k) && k != AtrMin && k != TpMult
    ensures forall k :: IsBorder(k) ==> k != AtrMin && k != TpMult
  {
  }

  /** A repair never takes genes out of the space exactly when the space is tidy. */
  lemma RepairExactly(bounds: Bounds)
    requires Ordered(bounds)
    ensures (forall g :: InSpace(g, bounds) ==> InSpace(Repair(g), bounds)) <==> Tidy(bounds)
  {
    hide InSpace, Repair, FixWeights, FixBorders, FixAtr, FixTarget, WeightsTidy, BordersTidy, AtrTidy, TargetTidy;
    WeightsExactly(bounds);
    BordersExactly(bounds);
    AtrExactly(bounds);
    TargetExactly(bounds);
    if Tidy(bounds) {
      forall g | InSpace(g, bounds)
        ensures InSpace(Repair(g), bounds)
      {
        WholeInSpace(g, bounds);
      }
    }
    if forall g :: InSpace(g, bounds) ==> InSpace(Repair(g), bounds) {
      forall g | InSpace(g, bounds)
        ensures InSpace(FixWeights(g), bounds) && InSpace(FixBorders(g), bounds)
        ensures InSpace(FixAtr(g), bounds) && InSpace(FixTarget(g), bounds)
      {
        PartsInSpace(g, bounds);
      }
    }
  }

  // ---------- one repair is all ----------

  lemma WeightsTwice(g: Genes)
    ensures FixWeights(FixWeights(g)) == FixWeights(g)
  {
    if HasWeights(g) && TotalWeight(g) > 0.0 {
      var t := TotalWeight(g);
      SharesSumToOne(g[MomentumWeight], g[TrendWeight], g[VolatilityWeight], g[DxyWeight], t);
      FixedWeightsStay(FixWeights(g));
    }
  }

  lemma WeightsFromWeights(g: Genes, w: Genes)
    requires g.Keys == w.Keys && forall k :: k in g && IsWeight(k) ==> w[k] == g[k]
    ensures forall k :: k in g && IsWeight(k) ==>
              k in FixWeights(g) && k in FixWeights(w) && FixWeights(w)[k] == FixWeights(g)[k]
  {
  }

  lemma AscendingIsOrdered(r: Genes)
    requires HasBorders(r) && Ascending(Borders(r))
    ensures r[Core] <= r[Inner] <= r[Outer] <= r[Extended]
  {
    var v := Borders(r);
    assert v[0] <= v[1] && v[1] <= v[2] && v[2] <= v[3];
  }

  lemma BordersTwice(g: Genes)
    ensures FixBorders(FixBorders(g)) == FixBorders(g)
  {
    if HasBorders(g) {
      hide FixBorders, Sorted, Ascending, Borders, IsBorder;
      SortedBordersAreSame(g);
      AscendingIsOrdered(FixBorders(g));
      OrderedBordersStay(FixBorders(g));
    }
  }

  lemma AtrAndTargetTwice(g: Genes, r: Genes)
    requires g.Keys == r.Keys
    requires AtrMin in g ==> r[AtrMin] == FixAtr(g)[AtrMin]
    requires TpMult in g ==> r[TpMult] == FixTarget(g)[TpMult]
    requires (AtrMax in g ==> r[AtrMax] == g[AtrMax]) && (SlMult in g ==> r[SlMult] == g[SlMult])
    ensures FixAtr(r) == r && FixTarget(r) == r
  {
  }

  /** The repaired weights, and the repaired borders, need no second repair. */
  lemma PartsStay(g: Genes)
    ensures var r := Repair(g);
            && r.Keys == FixWeights(r).Keys == FixBorders(r).Keys
            && (forall k :: k in r && IsWeight(k) ==> FixWeights(r)[k] == r[k])
            && (forall k :: k in r && IsBorder(k) ==> FixBorders(r)[k] == r[k])
  {
    hide FixWeights, FixBorders, FixAtr, FixTarget, IsWeight, IsBorder, Repair;
    var r := Repair(g);
    OneKind();
    RepairByParts(g);
    WeightsAlone(g);
    WeightsAlone(r);
    WeightsTwice(g);
    WeightsFromWeights(FixWeights(g), r);
    BordersAlone(g);
    BordersTwice(g);
    BordersFromBorders(FixBorders(g), r);
  }

  lemma OrdersStay(g: Genes)
    ensures FixAtr(Repair(g)) == Repair(g) && FixTarget(Repair(g)) == Repair(g)
  {
    hide FixWeights, FixBorders, FixAtr, FixTarget, IsWeight, IsBorder, Repair;
    Unrepaired();
    RepairByParts(g);
    AtrAndTargetTwice(g, Repair(g));
  }

  /** A second repair changes nothing, whatever the genes. */
  lemma RepairIsIdempotent(g: Genes)
    ensures Repair(Repair(g)) == Repair(g)
  {
    hide FixWeights, FixBorders, FixAtr, FixTarget, IsWeight, IsBorder, Repair;
    RepairByParts(Repair(g));
    PartsStay(g);
    OrdersStay(g);
  }

  lemma Unrepaired()
    ensures !IsWeight(AtrMax) && !IsBorder(AtrMax) && !IsWeight(SlMult) && !IsBorder(SlMult)
    ensures !IsWeight(AtrMin) && !IsBorder(AtrMin) && !IsWeight(TpMult) && !IsBorder(TpMult)
  {
  }

  lemma {:induction false} SettledIsClamped(r: Genes, bounds: Bounds, constraints: seq<Constraint>, attempts: nat)
    requires Repair(r) == r
    ensures Project(r, bounds, constraints, attempts) ==
            if attempts > 0 && AllHold(r, constraints) then r else Clamp(r, bounds)
  {
    hide Repair, Clamp, AllHold;
    if attempts > 0 {
      SettledIsClamped(r, bounds, constraints, attempts - 1);
    }
  }

  /** So of the twenty attempts at most one repairs: then either the constraints hold, or the repaired genes are put into
      their ranges. */
  lemma ProjectionRepairsOnce(g: Genes, bounds: Bounds, constraints: seq<Constraint>)
    ensures Project(g, bounds, constraints, 20) ==
            if AllHold(g, constraints) then g
            else if AllHold(Repair(g), constraints) then Repair(g) else Clamp(Repair(g), bounds)
    ensures ATTEMPTS == 20
  {
    hide Repair, Clamp, AllHold;
    RepairIsIdempotent(g);
    if !AllHold(g, constraints) {
      SettledIsClamped(Repair(g), bounds, constraints, 19);
    }
  }

  lemma {:induction false} TidyStays(g: Genes, bounds: Bounds, constraints: seq<Constraint>, attempts: nat)
    requires InSpace(g, bounds) && Ordered(bounds) && Tidy(bounds)
    ensures InSpace(Project(g, bounds, constraints, attempts), bounds)
  {
    hide Repair, Tidy, AllHold;
    if attempts > 0 {
      RepairExactly(bounds);
      TidyStays(Repair(g), bounds, constraints, attempts - 1);
    }
  }

  /** Whatever the constraints, the projection keeps the genes of a tidy space within it. */
  lemma ProjectionStaysInSpace(g: Genes, bounds: Bounds, constraints: seq<Constraint>)
    requires InSpace(g, bounds) && Ordered(bounds) && Tidy(bounds)
    ensures InSpace(Project(g, bounds, constraints, ATTEMPTS), bounds)
  {
    TidyStays(g, bounds, constraints, ATTEMPTS);
  }

  /** And of no other: where a repair leaves the space, a constraint that it satisfies ends the projection there. */
  lemma ProjectionStaysExactlyIfTidy(bounds: Bounds)
    requires Ordered(bounds)
    ensures (forall g, constraints :: InSpace(g, bounds) ==> InSpace(Project(g, bounds, constraints, ATTEMPTS), bounds))
       <==> Tidy(bounds)
  {
    hide InSpace, Repair, Tidy, Ordered;
    RepairExactly(bounds);
    if !Tidy(bounds) {
      var g :| InSpace(g, bounds) && !InSpace(Repair(g), bounds);
      var constraints := [(x: Genes) => x != g];
      ProjectionToRepair(g, bounds, constraints);
      assert !InSpace(Project(g, bounds, constraints, ATTEMPTS), bounds);
    } else {
      forall g, constraints | InSpace(g, bounds)
        ensures InSpace(Project(g, bounds, constraints, ATTEMPTS), bounds)
      {
        ProjectionStaysInSpace(g, bounds, constraints);
      }
    }
  }

  lemma ProjectionToRepair(g: Genes, bounds: Bounds, constraints: seq<Constraint>)
    requires Repair(g) != g && |constraints| == 1 && forall x: Genes :: constraints[0](x) <==> x != g
    ensures Project(g, bounds, constraints, ATTEMPTS) == Repair(g)
  {
    hide Repair;
    assert !constraints[0](g) && constraints[0](Repair(g));
    assert Project(Repair(g), bounds, constraints, ATTEMPTS - 1) == Repair(g);
  }

  // ---------- spaces whose weights are normal already ----------

  predicate SinglePoint(r: Range) {
    r.low == r.high
  }

  /**
    The spaces in which normalising the weights changes nothing: a weight is missing, or their sum is never positive,
    or each can take one value only and those are normal.
  */
  predicate Normal(bounds: Bounds) {
    var b := bounds.vals;
    HasWeightRanges(b) && 0.0 < HighSum(b) ==>
      && SinglePoint(b[MomentumWeight]) && SinglePoint(b[TrendWeight])
      && SinglePoint(b[VolatilityWeight]) && SinglePoint(b[DxyWeight])
      && NormaliseGec(Corner(bounds, false)) == Corner(bounds, false)
  }

  lemma SameWeightsNormaliseAlike(g: Genes, h: Genes)
    requires HasWeights(g) && HasWeights(h)
    requires g[MomentumWeight] == h[MomentumWeight] && g[TrendWeight] == h[TrendWeight]
    requires g[VolatilityWeight] == h[VolatilityWeight] && g[DxyWeight] == h[DxyWeight]
    ensures NormaliseGec(g) == g <==> NormaliseGec(h) == h
  {
    hide NormaliseGec, RoundsTo;
    NormalisedAlready(g);
    NormalisedAlready(h);
  }

  lemma NormalSpacesStay(g: Genes, bounds: Bounds)
    requires InSpace(g, bounds) && Normal(bounds) && Ordered(bounds)
    ensures NormaliseGec(g) == g
  {
    if HasWeights(g) && 0.0 < HighSum(bounds.vals) {
      CornerInSpace(bounds, false);
      InRangesFromSpace(g, bounds);
      InRangesFromSpace(Corner(bounds, false), bounds);
      SameWeightsNormaliseAlike(g, Corner(bounds, false));
      hide NormaliseGec, Corner;
    } else if HasWeights(g) {
      InRangesFromSpace(g, bounds);
    }
  }

  lemma BetweenIntegers(y: real, z: real)
    requires y == y.Floor as real && 0.0 < z < 1.0
    ensures y - z != (y - z).Floor as real
  {
    var n, m := y.Floor, (y - z).Floor;
    assert (n - 1) as real == n as real - 1.0;
    assert m >= n ==> m as real >= n as real;
    assert m <= n - 1 ==> m as real <= (n - 1) as real;
  }

  /** A number just below one on the grid, and still in the range, is off the grid. */
  lemma OffTheGrid(high: real, room: real) returns (v: real)
    requires 0.0 < room && high * 10000.0 == (high * 10000.0).Floor as real
    ensures high - room <= v < high && v * 10000.0 != (v * 10000.0).Floor as real
  {
    var step := Min(room, 0.00005);
    v := high - step;
    BetweenIntegers(high * 10000.0, step * 10000.0);
    assert v * 10000.0 == high * 10000.0 - step * 10000.0;
  }

  lemma RoundedIsOnGrid(x: real, w: real)
    requires RoundsTo(x, w, 10000.0)
    ensures w * 10000.0 == (w * 10000.0).Floor as real
  {
  }

  lemma OnGridIfNormal(g: Genes, k: Gene)
    requires HasWeights(g) && TotalWeight(g) > 0.0 && NormaliseGec(g) == g && IsWeight(k)
    ensures k in g && g[k] * 10000.0 == (g[k] * 10000.0).Floor as real
  {
    hide NormaliseGec, RoundsTo, TotalWeight;
    NormalisedAlready(g);
    RoundedIsOnGrid(g[k] / TotalWeight(g), g[k]);
  }

  /** A weight that can vary can take a value off the grid, beside the others at their greatest. */
  lemma VaryingWeightIsMoved(bounds: Bounds, k: Gene) returns (g: Genes)
    requires Ordered(bounds) && HasWeightRanges(bounds.vals) && 0.0 < HighSum(bounds.vals) && IsWeight(k)
    requires bounds.vals[k].low < bounds.vals[k].high
    ensures InSpace(g, bounds) && NormaliseGec(g) != g
  {
    var high := Corner(bounds, false);
    CornerInSpace(bounds, false);
    if NormaliseGec(high) != high {
      return high;
    }
    OnGridIfNormal(high, k);
    var r := bounds.vals[k];
    var v := OffTheGrid(r.high, Min(r.high - r.low, HighSum(bounds.vals) / 2.0));
    g := high[k := v];
    TotalWithOne(high, k, v);
    if NormaliseGec(g) == g {
      OnGridIfNormal(g, k);
    }
  }

  lemma TotalWithOne(g: Genes, k: Gene, v: real)
    requires HasWeights(g) && IsWeight(k)
    ensures HasWeights(g[k := v]) && TotalWeight(g[k := v]) == TotalWeight(g) + v - g[k]
  {
  }

  /** Normalising changes no genes of a space exactly when the space is normal. */
  lemma NormalisingIsIdleExactly(bounds: Bounds)
    requires Ordered(bounds)
    ensures (forall g :: InSpace(g, bounds) ==> NormaliseGec(g) == g) <==> Normal(bounds)
  {
    hide NormaliseGec, InSpace, Corner;
    if Normal(bounds) {
      forall g | InSpace(g, bounds)
        ensures NormaliseGec(g) == g
      {
        NormalSpacesStay(g, bounds);
      }
    } else {
      var g := NotNormal(bounds);
    }
  }

  lemma NotNormal(bounds: Bounds) returns (g: Genes)
    requires Ordered(bounds) && !Normal(bounds)
    ensures InSpace(g, bounds) && NormaliseGec(g) != g
  {
    hide NormaliseGec, InSpace, Corner;
    var b := bounds.vals;
    g := Corner(bounds, false);
    CornerInSpace(bounds, false);
    if !SinglePoint(b[MomentumWeight]) {
      g := VaryingWeightIsMoved(bounds, MomentumWeight);
    } else if !SinglePoint(b[TrendWeight]) {
      g := VaryingWeightIsMoved(bounds, TrendWeight);
    } else if !SinglePoint(b[VolatilityWeight]) {
      g := VaryingWeightIsMoved(bounds, VolatilityWeight);
    } else if !SinglePoint(b[DxyWeight]) {
      g := VaryingWeightIsMoved(bounds, DxyWeight);
    }
  }

  // ---------- the spaces of the tuner ----------

  function RiskBounds(): Bounds {
    RawDict([MaxRisk, KellyShare, SlMult, TpMult, Other("max_daily_trades"), Other("max_correlation")],
            map[MaxRisk := Range(0.005, 0.10), KellyShare := Range(0.05, 0.75), SlMult := Range(0.5, 5.0),
                TpMult := Range(1.0, 8.0), Other("max_daily_trades") := Range(3.0, 20.0),
                Other("max_correlation") := Range(0.3, 0.9)])
  }

  function EnsembleBounds(): Bounds {
    RawDict([Other("lstm_weight"), Other("regime_weight"), Other("sr_levels_weight"), VolatilityWeight],
            map[Other("lstm_weight") := Range(0.0, 1.0), Other("regime_weight") := Range(0.0, 1.0),
                Other("sr_levels_weight") := Range(0.0, 1.0), VolatilityWeight := Range(0.0, 1.0)])
  }

  predicate Between(g: Genes, k: Gene, low: real, high: real) {
    k in g && low <= g[k] <= high
  }

  lemma GoldNames()
    ensures forall k :: GoldRange(k).Some? <==> !k.Other?
  {
  }

  lemma GoldWeightsAndFilters()
    ensures GoldRange(MomentumWeight) == GoldRange(TrendWeight) == GoldRange(VolatilityWeight) == GoldRange(DxyWeight)
         == Some(Range(0.0, 1.0))
    ensures GoldRange(AtrMin) == Some(Range(0.1, 0.3)) && GoldRange(AtrMax) == Some(Range(0.8, 1.5))
    ensures GoldRange(Core) == Some(Range(0.3, 0.7)) && GoldRange(Inner) == Some(Range(0.8, 1.2))
    ensures GoldRange(Outer) == Some(Range(1.3, 1.7)) && GoldRange(Extended) == Some(Range(1.8, 2.2))
  {
  }

  lemma GoldThresholdsAndRisk()
    ensures GoldRange(MinGec) == Some(Range(0.3, 0.8)) && GoldRange(MinCombined) == Some(Range(0.4, 0.85))
    ensures GoldRange(MaxRisk) == Some(Range(0.01, 0.05)) && GoldRange(KellyShare) == Some(Range(0.1, 0.5))
    ensures GoldRange(SlMult) == Some(Range(1.0, 3.5)) && GoldRange(TpMult) == Some(Range(1.5, 5.0))
  {
  }

  /** What genes of the Gold Edge space may be. */
  lemma GoldSpaceSays(g: Genes)
    requires InSpace(g, GoldBounds())
    ensures (forall k :: k in g <==> !k.Other?)
    ensures Between(g, MomentumWeight, 0.0, 1.0) && Between(g, TrendWeight, 0.0, 1.0)
    ensures Between(g, VolatilityWeight, 0.0, 1.0) && Between(g, DxyWeight, 0.0, 1.0)
    ensures Between(g, AtrMin, 0.1, 0.3) && Between(g, AtrMax, 0.8, 1.5)
    ensures Between(g, Core, 0.3, 0.7) && Between(g, Inner, 0.8, 1.2)
    ensures Between(g, Outer, 1.3, 1.7) && Between(g, Extended, 1.8, 2.2)
    ensures Between(g, MinGec, 0.3, 0.8) && Between(g, MinCombined, 0.4, 0.85)
    ensures Between(g, MaxRisk, 0.01, 0.05) && Between(g, KellyShare, 0.1, 0.5)
    ensures Between(g, SlMult, 1.0, 3.5) && Between(g, TpMult, 1.5, 5.0)
  {
    hide GoldRange, GoldBounds;
    GoldNames();
    GoldWeightsAndFilters();
    GoldThresholdsAndRisk();
  }

  /** The space of the risk parameters. */
  lemma RiskSpaceExactly(g: Genes)
    ensures InSpace(g, RiskBounds()) <==>
      && g.Keys == {MaxRisk, KellyShare, SlMult, TpMult, Other("max_daily_trades"), Other("max_correlation")}
      && Between(g, MaxRisk, 0.005, 0.1) && Between(g, KellyShare, 0.05, 0.75)
      && Between(g, SlMult, 0.5, 5.0) && Between(g, TpMult, 1.0, 8.0)
      && Between(g, Other("max_daily_trades"), 3.0, 20.0) && Between(g, Other("max_correlation"), 0.3, 0.9)
  {
    RiskRanges();
    hide RiskBounds;
    var b := RiskBounds();
    assert InSpace(g, b) <==> g.Keys == b.vals.Keys && forall k :: k in b.vals ==>
      Between(g, k, b.vals[k].low, b.vals[k].high);
  }

  lemma RiskRanges()
    ensures var b, trades, correlation := RiskBounds().vals, Other("max_daily_trades"), Other("max_correlation");
            && b.Keys == {MaxRisk, KellyShare, SlMult, TpMult, trades, correlation}
            && b[MaxRisk] == Range(0.005, 0.1) && b[KellyShare] == Range(0.05, 0.75) && b[SlMult] == Range(0.5, 5.0)
            && b[TpMult] == Range(1.0, 8.0) && b[trades] == Range(3.0, 20.0) && b[correlation] == Range(0.3, 0.9)
  {
    assert Other("max_daily_trades") != Other("max_correlation") by {
      assert |"max_daily_trades"| != |"max_correlation"|;
    }
  }

  /** The space of the ensemble weights. */
  lemma EnsembleSpaceExactly(g: Genes)
    ensures InSpace(g, EnsembleBounds()) <==>
      && g.Keys == {Other("lstm_weight"), Other("regime_weight"), Other("sr_levels_weight"), VolatilityWeight}
      && forall k :: k in g ==> 0.0 <= g[k] <= 1.0
  {
    EnsembleRanges();
    hide EnsembleBounds;
  }

  lemma EnsembleRanges()
    ensures var b := EnsembleBounds().vals;
            && b.Keys == {Other("lstm_weight"), Other("regime_weight"), Other("sr_levels_weight"), VolatilityWeight}
            && forall k :: k in b ==> b[k] == Range(0.0, 1.0)
  {
  }

  /** The three spaces the tuner optimizes over are tidy. */
  lemma TunedSpacesAreTidy(bounds: Bounds)
    requires bounds in [GoldBounds(), RiskBounds(), EnsembleBounds()]
    ensures Tidy(bounds) && Ordered(bounds)
  {
    hide *;
    GoldIsTidy();
    RiskIsTidy();
    EnsembleIsTidy();
  }

  lemma GoldIsTidy()
    ensures Tidy(GoldBounds()) && Ordered(GoldBounds())
  {
    hide GoldBounds, Tidy, Ordered;
    LikeGoldIsOrdered(GoldBounds());
    LikeGoldIsTidy(GoldBounds());
  }

  lemma LikeGoldIsOrdered(bounds: Bounds)
    requires forall k :: k in bounds.vals <==> GoldRange(k).Some?
    requires forall k :: k in bounds.vals ==> bounds.vals[k] == GoldRange(k).value
    ensures Ordered(bounds)
  {
  }

  lemma LikeGoldIsTidy(bounds: Bounds)
    requires forall k :: k in bounds.vals <==> GoldRange(k).Some?
    requires forall k :: k in bounds.vals ==> bounds.vals[k] == GoldRange(k).value
    ensures Tidy(bounds)
  {
    hide ShareRange;
    LikeGoldWeightsAreTidy(bounds);
  }

  lemma LikeGoldWeightsAreTidy(bounds: Bounds)
    requires forall k :: k in bounds.vals <==> GoldRange(k).Some?
    requires forall k :: k in bounds.vals ==> bounds.vals[k] == GoldRange(k).value
    ensures WeightsTidy(bounds.vals)
  {
    assert HasWeightRanges(bounds.vals) && LowSum(bounds.vals) == 0.0 && HighSum(bounds.vals) == 4.0;
  }

  lemma RiskIsTidy()
    ensures Tidy(RiskBounds()) && Ordered(RiskBounds())
  {
    RiskRanges();
    hide RiskBounds;
  }

  lemma EnsembleIsTidy()
    ensures Tidy(EnsembleBounds()) && Ordered(EnsembleBounds())
  {
  }

  /** Of the tuner's spaces the risk and ensemble spaces are normal, the Gold Edge space is not. */
  lemma TunedSpacesNormal()
    ensures Normal(RiskBounds()) && Normal(EnsembleBounds()) && !Normal(GoldBounds())
  {
    hide *;
    WithoutWeightsIsNormal(RiskBounds());
    WithoutWeightsIsNormal(EnsembleBounds());
    RiskLacksWeights();
    EnsembleLacksWeights();
    GoldIsNotNormal();
  }

  lemma WithoutWeightsIsNormal(bounds: Bounds)
    ensures !HasWeightRanges(bounds.vals) ==> Normal(bounds)
  {
  }

  lemma RiskLacksWeights()
    ensures !HasWeightRanges(RiskBounds().vals)
  {
  }

  lemma EnsembleLacksWeights()
    ensures !HasWeightRanges(EnsembleBounds().vals)
  {
  }

  lemma GoldIsNotNormal()
    ensures !Normal(GoldBounds())
  {
    hide GoldBounds, Normal;
    LikeGoldIsNotNormal(GoldBounds());
  }

  lemma LikeGoldIsNotNormal(bounds: Bounds)
    requires forall k :: k in bounds.vals <==> GoldRange(k).Some?
    requires forall k :: k in bounds.vals ==> bounds.vals[k] == GoldRange(k).value
    ensures !Normal(bounds)
  {
    hide NormaliseGec, Corner;
    assert HasWeightRanges(bounds.vals) && HighSum(bounds.vals) == 4.0 && !SinglePoint(bounds.vals[MomentumWeight]);
  }

  lemma NothingToRepair(g: Genes)
    requires !HasWeights(g) && !HasBorders(g) && AtrMin !in g && TpMult !in g
    ensures Repair(g) == g
  {
    hide Sorted;
  }

  lemma EnsembleKeys(g: Genes)
    requires g.Keys == EnsembleBounds().vals.Keys
    ensures !HasWeights(g) && !HasBorders(g) && AtrMin !in g && TpMult !in g
  {
  }

  lemma ClampInSpace(g: Genes, bounds: Bounds)
    requires InSpace(g, bounds)
    ensures Clamp(g, bounds) == g
  {
  }

  /** The weights of the ensemble space are never repaired: it lacks three of those that the projection normalises. */
  lemma EnsembleIsNeverRepaired(g: Genes, constraints: seq<Constraint>)
    requires InSpace(g, EnsembleBounds())
    ensures Project(g, EnsembleBounds(), constraints, ATTEMPTS) == g
  {
    hide Repair, Clamp, EnsembleBounds, HasWeights, HasBorders, Project;
    EnsembleKeys(g);
    NothingToRepair(g);
    ClampInSpace(g, EnsembleBounds());
    SettledStays(g, EnsembleBounds(), constraints, ATTEMPTS);
  }
}

/**
  Genes of a chromosome and their repair (backend/ml/genetic_optimizer.py): the Gold Edge parameter space, the
  projection toward its constraints, and the final normalisation of the weights.
*/
module Projection {
  import opened Options
  import opened Rounding
  import opened Dicts
  import opened Sorting

  /** Parameter names: the sixteen of the Gold Edge space, and any other. */
  datatype Gene =
    | MomentumWeight | TrendWeight | VolatilityWeight | DxyWeight
    | AtrMin | AtrMax
    | Core | Inner | Outer | Extended
    | MinGec | MinCombined
    | MaxRisk | KellyShare | SlMult | TpMult
    | Other(name: string)

  type Genes = map<Gene, real>

  datatype Range = Range(low: real, high: real)

  type Bounds = Dict<Gene, Range>

  type Constraint = Genes -> bool

  function Get(g: Genes, k: Gene, default: real): real {
    if k in g then g[k] else default
  }

  predicate AllHold(g: Genes, constraints: seq<Constraint>) {
    forall i :: 0 <= i < |constraints| ==> constraints[i](g)
  }

  // ---------- repairs ----------

  const WEIGHTS := [MomentumWeight, TrendWeight, VolatilityWeight, DxyWeight]

  predicate IsWeight(k: Gene) {
    k.MomentumWeight? || k.TrendWeight? || k.VolatilityWeight? || k.DxyWeight?
  }

  predicate IsBorder(k: Gene) {
    k.Core? || k.Inner? || k.Outer? || k.Extended?
  }

  predicate HasWeights(g: Genes) {
    MomentumWeight in g && TrendWeight in g && VolatilityWeight in g && DxyWeight in g
  }

  predicate HasBorders(g: Genes) {
    Core in g && Inner in g && Outer in g && Extended in g
  }

  function TotalWeight(g: Genes): real
    requires HasWeights(g)
  {
    g[MomentumWeight] + g[TrendWeight] + g[VolatilityWeight] + g[DxyWeight]
  }

  function WithWeights(g: Genes, m: real, t: real, v: real, d: real): Genes {
    g[MomentumWeight := m][TrendWeight := t][VolatilityWeight := v][DxyWeight := d]
  }

  function FixWeights(g: Genes): Genes {
    if !HasWeights(g) || TotalWeight(g) <= 0.0 then g
    else
      var t := TotalWeight(g);
      WithWeights(g, g[MomentumWeight] / t, g[TrendWeight] / t, g[VolatilityWeight] / t, g[DxyWeight] / t)
  }

  function Borders(g: Genes): (v: seq<real>)
    requires HasBorders(g)
    ensures |v| == 4
  {
    [g[Core], g[Inner], g[Outer], g[Extended]]
  }

  function WithBorders(g: Genes, v: seq<real>): Genes
    requires |v| == 4
  {
    g[Core := v[0]][Inner := v[1]][Outer := v[2]][Extended := v[3]]
  }

  function FixBorders(g: Genes): Genes {
    if HasBorders(g) then WithBorders(g, Sorted(Borders(g))) else g
  }

  function FixAtr(g: Genes): Genes {
    if AtrMin in g && AtrMax in g && g[AtrMin] >= g[AtrMax] then g[AtrMin := g[AtrMax] - 0.05] else g
  }

  function FixTarget(g: Genes): Genes {
    if TpMult in g && SlMult in g && g[TpMult] <= g[SlMult] then g[TpMult := g[SlMult] + 0.5] else g
  }

  function Repair(g: Genes): Genes {
    FixTarget(FixAtr(FixBorders(FixWeights(g))))
  }

  function Clamp(g: Genes, bounds: Bounds): Genes {
    map k | k in g :: if k in bounds.vals then Max(bounds.vals[k].low, Min(bounds.vals[k].high, g[k])) else g[k]
  }

  /** The projection: repair until the constraints hold, and clamp only if they never did. */
  function Project(g: Genes, bounds: Bounds, constraints: seq<Constraint>, attempts: nat): Genes {
    if attempts == 0 then Clamp(g, bounds)
    else if AllHold(g, constraints) then g
    else Project(Repair(g), bounds, constraints, attempts - 1)
  }

  const ATTEMPTS := 20

  // ---------- the Gold Edge space ----------

  function GoldRange(k: Gene): Option<Range> {
    match k
    case MomentumWeight | TrendWeight | VolatilityWeight | DxyWeight => Some(Range(0.0, 1.0))
    case AtrMin => Some(Range(0.10, 0.30))
    case AtrMax => Some(Range(0.80, 1.50))
    case Core => Some(Range(0.3, 0.7))
    case Inner => Some(Range(0.8, 1.2))
    case Outer => Some(Range(1.3, 1.7))
    case Extended => Some(Range(1.8, 2.2))
    case MinGec => Some(Range(0.30, 0.80))
    case MinCombined => Some(Range(0.40, 0.85))
    case MaxRisk => Some(Range(0.01, 0.05))
    case KellyShare => Some(Range(0.1, 0.5))
    case SlMult => Some(Range(1.0, 3.5))
    case TpMult => Some(Range(1.5, 5.0))
    case Other(_) => None
  }

  const GOLD_NAMES := [MomentumWeight, TrendWeight, VolatilityWeight, DxyWeight, AtrMin, AtrMax, Core, Inner, Outer,
                       Extended, MinGec, MinCombined, MaxRisk, KellyShare, SlMult, TpMult]

  /** The place of a parameter in the space. */
  function Place(k: Gene): nat {
    match k
    case MomentumWeight => 0 case TrendWeight => 1 case VolatilityWeight => 2 case DxyWeight => 3
    case AtrMin => 4 case AtrMax => 5
    case Core => 6 case Inner => 7 case Outer => 8 case Extended => 9
    case MinGec => 10 case MinCombined => 11
    case MaxRisk => 12 case KellyShare => 13 case SlMult => 14 case TpMult => 15
    case Other(_) => 16
  }

  lemma GoldNamesInPlace()
    ensures forall i :: 0 <= i < |GOLD_NAMES| ==> Place(GOLD_NAMES[i]) == i
  {
  }

  lemma GoldNamesAreDistinct()
    ensures forall i, j :: 0 <= i < j < |GOLD_NAMES| ==> GOLD_NAMES[i] != GOLD_NAMES[j]
  {
    GoldNamesInPlace();
    hide Place;
  }

  lemma PlaceIsInjective(a: Gene, b: Gene)
    ensures Place(a) == Place(b) < 16 ==> a == b
    ensures GoldRange(a).Some? <==> Place(a) < 16
  {
  }

  lemma GoldNamesAreTheKeys()
    ensures forall k :: k in GOLD_NAMES <==> GoldRange(k).Some?
  {
    hide Place, GoldRange;
    GoldNamesInPlace();
    forall k
      ensures k in GOLD_NAMES <==> GoldRange(k).Some?
    {
      PlaceIsInjective(k, k);
      if GoldRange(k).Some? {
        PlaceIsInjective(k, GOLD_NAMES[Place(k)]);
      }
    }
  }

  function GoldBounds(): (b: Bounds)
    ensures forall k :: k in b.vals <==> GoldRange(k).Some?
    ensures forall k :: k in b.vals ==> b.vals[k] == GoldRange(k).value
  {
    GoldNamesAreTheKeys();
    GoldNamesAreDistinct();
    RawDict(GOLD_NAMES, map k | k in GOLD_NAMES :: GoldRange(k).value)
  }

  predicate WeightsSumToOne(g: Genes) {
    Abs(Get(g, MomentumWeight, 0.3) + Get(g, TrendWeight, 0.3) + Get(g, VolatilityWeight, 0.2) + Get(g, DxyWeight, 0.2)
        - 1.0) < 0.02
  }

  predicate BordersOrdered(g: Genes) {
    Get(g, Core, 0.5) < Get(g, Inner, 1.0) < Get(g, Outer, 1.5) < Get(g, Extended, 2.0)
  }

  predicate AtrOrdered(g: Genes) {
    Get(g, AtrMin, 0.15) < Get(g, AtrMax, 1.0)
  }

  predicate TargetBeyondStop(g: Genes) {
    Get(g, TpMult, 3.0) > Get(g, SlMult, 2.0)
  }

  predicate ThresholdsOrdered(g: Genes) {
    Get(g, MinGec, 0.5) < Get(g, MinCombined, 0.6)
  }

  const GOLD_CONSTRAINTS: seq<Constraint> :=
    [WeightsSumToOne, BordersOrdered, AtrOrdered, TargetBeyondStop, ThresholdsOrdered]

  predicate InBounds(g: Genes, bounds: Bounds) {
    forall k :: k in bounds.vals ==> k in g && bounds.vals[k].low <= g[k] <= bounds.vals[k].high
  }

  ghost predicate InGold(g: Genes) {
    forall k :: GoldRange(k).Some? ==> k in g && GoldRange(k).value.low <= g[k] <= GoldRange(k).value.high
  }

  lemma InGoldIsInBounds(g: Genes)
    ensures InGold(g) <==> InBounds(g, GoldBounds())
  {
    var b := GoldBounds();
    if InBounds(g, b) {
      forall k | GoldRange(k).Some?
        ensures k in g && GoldRange(k).value.low <= g[k] <= GoldRange(k).value.high
      {
        assert k in b.vals;
      }
    }
  }

  lemma GoldHasWeights(g: Genes)
    requires InGold(g)
    ensures HasWeights(g)
    ensures 0.0 <= g[MomentumWeight] <= 1.0 && 0.0 <= g[TrendWeight] <= 1.0
    ensures 0.0 <= g[VolatilityWeight] <= 1.0 && 0.0 <= g[DxyWeight] <= 1.0
  {
    assert GoldRange(MomentumWeight).Some? && GoldRange(TrendWeight).Some?;
    assert GoldRange(VolatilityWeight).Some? && GoldRange(DxyWeight).Some?;
  }

  lemma GoldOrders(g: Genes)
    requires InGold(g)
    ensures HasBorders(g) && g[Core] < g[Inner] < g[Outer] < g[Extended]
    ensures AtrMin in g && AtrMax in g && g[AtrMin] < g[AtrMax]
    ensures SlMult in g && TpMult in g && 1.0 <= g[SlMult] <= 3.5 && 1.5 <= g[TpMult] <= 5.0
    ensures MinGec in g && MinCombined in g
  {
    assert GoldRange(Core).Some? && GoldRange(Inner).Some? && GoldRange(Outer).Some? && GoldRange(Extended).Some?;
    assert GoldRange(AtrMin).Some? && GoldRange(AtrMax).Some? && GoldRange(SlMult).Some? && GoldRange(TpMult).Some?;
    assert GoldRange(MinGec).Some? && GoldRange(MinCombined).Some?;
  }

  /** Inside the Gold Edge bounds only the weights and the target can need repair. */
  lemma GoldRepair(g: Genes)
    requires InGold(g)
    ensures Repair(g) == FixTarget(FixWeights(g))
  {
    GoldOrders(g);
    WeightsAlone(g);
    hide InGold, FixWeights;
    var w := FixWeights(g);
    OrderedBordersStay(w);
    hide FixBorders;
  }

  lemma BordersAsGiven(g: Genes, v: seq<real>)
    requires |v| == 4
    ensures HasBorders(WithBorders(g, v)) && Borders(WithBorders(g, v)) == v
  {
  }

  lemma OthersAsBefore(g: Genes, v: seq<real>)
    requires |v| == 4 && HasBorders(g)
    ensures WithBorders(g, v).Keys == g.Keys
    ensures forall k :: k in g && !IsBorder(k) ==> WithBorders(g, v)[k] == g[k]
  {
  }

  /** The four borders come out in order, the same four values; nothing else changes. */
  lemma SortedBordersAreSame(g: Genes)
    requires HasBorders(g)
    ensures var r := FixBorders(g);
            && HasBorders(r) && Ascending(Borders(r)) && multiset(Borders(r)) == multiset(Borders(g))
            && r.Keys == g.Keys && forall k :: k in g && !IsBorder(k) ==> r[k] == g[k]
  {
    hide Sorted, WithBorders, Borders, HasBorders, IsBorder, Ascending;
    var v := Sorted(Borders(g));
    SortedSorts(Borders(g));
    BordersAsGiven(g, v);
    OthersAsBefore(g, v);
  }

  /** Sorting the borders leaves them in strict order exactly when no two of them were equal. */
  lemma SortedBordersAreOrdered(g: Genes)
    requires HasBorders(g)
    ensures BordersOrdered(FixBorders(g)) <==> Distinct(Borders(g))
  {
    StrictExactlyIfDistinct(Borders(g));
    hide Sorted;
    var r := FixBorders(g);
    assert Borders(r) == Sorted(Borders(g));
    var v := Borders(r);
    assert Strict(v) <==> v[0] < v[1] < v[2] < v[3];
    hide FixBorders;
  }

  lemma OrderedBordersStay(g: Genes)
    requires HasBorders(g) && g[Core] <= g[Inner] <= g[Outer] <= g[Extended]
    ensures FixBorders(g) == g
  {
    SortedOfAscending(Borders(g));
    hide Sorted;
  }

  /** Fixing the weights changes nothing but the weights. */
  lemma WeightsAlone(g: Genes)
    ensures FixWeights(g).Keys == g.Keys && forall k :: k in g && !IsWeight(k) ==> FixWeights(g)[k] == g[k]
  {
  }

  lemma ShareInUnit(x: real, t: real)
    requires 0.0 <= x <= t && 0.0 < t
    ensures 0.0 <= x / t <= 1.0
  {
  }

  lemma SharesSumToOne(a: real, b: real, c: real, d: real, t: real)
    requires 0.0 < t && t == a + b + c + d
    ensures a / t + b / t + c / t + d / t == 1.0
  {
    assert a / t + b / t == (a + b) / t;
    assert (a + b) / t + c / t == (a + b + c) / t;
    assert (a + b + c) / t + d / t == (a + b + c + d) / t;
  }

  /** What fixing the weights of genes within the Gold Edge bounds does. */
  lemma GoldWeights(g: Genes)
    requires InGold(g)
    ensures HasWeights(g) && HasWeights(FixWeights(g)) && InGold(FixWeights(g))
    ensures TotalWeight(FixWeights(g)) == if TotalWeight(g) > 0.0 then 1.0 else 0.0
  {
    GoldHasWeights(g);
    var t := TotalWeight(g);
    if t > 0.0 {
      ShareInUnit(g[MomentumWeight], t);
      ShareInUnit(g[TrendWeight], t);
      ShareInUnit(g[VolatilityWeight], t);
      ShareInUnit(g[DxyWeight], t);
      SharesSumToOne(g[MomentumWeight], g[TrendWeight], g[VolatilityWeight], g[DxyWeight], t);
      WithSharesInGold(g, g[MomentumWeight] / t, g[TrendWeight] / t, g[VolatilityWeight] / t, g[DxyWeight] / t);
    }
  }

  lemma WithSharesInGold(g: Genes, m: real, t: real, v: real, d: real)
    requires InGold(g) && 0.0 <= m <= 1.0 && 0.0 <= t <= 1.0 && 0.0 <= v <= 1.0 && 0.0 <= d <= 1.0
    ensures InGold(WithWeights(g, m, t, v, d))
  {
  }

  /** Weights that sum to one, or to nothing, need no fixing. */
  lemma FixedWeightsStay(g: Genes)
    requires HasWeights(g) && (TotalWeight(g) == 1.0 || TotalWeight(g) <= 0.0)
    ensures FixWeights(g) == g
  {
    var t := TotalWeight(g);
    if t == 1.0 {
      assert g[MomentumWeight] / t == g[MomentumWeight] && g[TrendWeight] / t == g[TrendWeight];
      assert g[VolatilityWeight] / t == g[VolatilityWeight] && g[DxyWeight] / t == g[DxyWeight];
      assert WithWeights(g, g[MomentumWeight], g[TrendWeight], g[VolatilityWeight], g[DxyWeight]) == g;
    }
  }

  /** One repair keeps the genes in bounds, settles every constraint it can, and a second changes nothing. */
  lemma GoldRepairSettles(g: Genes)
    requires InGold(g)
    ensures var r := Repair(g);
            && InGold(r) && Repair(r) == r && TargetBeyondStop(r)
            && r.Keys == g.Keys && (forall k :: k in g && !IsWeight(k) && k != TpMult ==> r[k] == g[k])
            && HasWeights(g) && HasWeights(r)
            && TotalWeight(r) == if TotalWeight(g) > 0.0 then 1.0 else 0.0
  {
    hide Repair, FixWeights, FixTarget, InGold, TargetBeyondStop, IsWeight;
    GoldRepair(g);
    GoldWeights(g);
    WeightsAlone(g);
    var w := FixWeights(g);
    GoldOrders(w);
    TargetInGold(w);
    TargetSettles(w);
    var r := FixTarget(w);
    GoldRepair(r);
    FixedWeightsStay(r);
  }

  lemma TargetSettles(g: Genes)
    requires TpMult in g && SlMult in g && HasWeights(g)
    ensures var r := FixTarget(g);
            && FixTarget(r) == r && TargetBeyondStop(r) && r.Keys == g.Keys
            && (forall k :: k in g && k != TpMult ==> r[k] == g[k])
            && HasWeights(r) && TotalWeight(r) == TotalWeight(g)
  {
  }

  lemma TargetInGold(g: Genes)
    requires InGold(g)
    ensures InGold(FixTarget(g))
  {
    GoldOrders(g);
  }

  lemma GoldClamp(g: Genes)
    requires InGold(g)
    ensures Clamp(g, GoldBounds()) == g
  {
    InGoldIsInBounds(g);
  }

  lemma {:induction false} SettledStays(g: Genes, bounds: Bounds, constraints: seq<Constraint>, attempts: nat)
    requires Repair(g) == g && Clamp(g, bounds) == g
    ensures Project(g, bounds, constraints, attempts) == g
  {
    hide Repair, Clamp, AllHold;
    if attempts > 0 {
      SettledStays(g, bounds, constraints, attempts - 1);
    }
  }

  /** Within the Gold Edge bounds the whole projection is a single repair, made only if a constraint fails. */
  lemma ProjectionIsOneRepair(g: Genes)
    requires InGold(g)
    ensures Project(g, GoldBounds(), GOLD_CONSTRAINTS, ATTEMPTS) ==
            if AllHold(g, GOLD_CONSTRAINTS) then g else Repair(g)
  {
    hide Repair, AllHold, InGold, GoldBounds, Clamp;
    if !AllHold(g, GOLD_CONSTRAINTS) {
      GoldRepairSettles(g);
      GoldClamp(Repair(g));
      SettledStays(Repair(g), GoldBounds(), GOLD_CONSTRAINTS, ATTEMPTS - 1);
    }
  }

  lemma AllHoldGold(g: Genes)
    ensures AllHold(g, GOLD_CONSTRAINTS) <==>
            WeightsSumToOne(g) && BordersOrdered(g) && AtrOrdered(g) && TargetBeyondStop(g) && ThresholdsOrdered(g)
  {
    var c := GOLD_CONSTRAINTS;
    assert |c| == 5 && c[0] == WeightsSumToOne && c[1] == BordersOrdered && c[2] == AtrOrdered
           && c[3] == TargetBeyondStop && c[4] == ThresholdsOrdered;
    if AllHold(g, c) {
      assert c[0](g) && c[1](g) && c[2](g) && c[3](g) && c[4](g);
    }
  }

  /** A missing gene counts as its default: what one gene alone may be for the constraints to hold. */
  lemma SingleGeneAccepted(k: Gene, x: real)
    ensures AllHold(map[k := x], GOLD_CONSTRAINTS) <==>
            match k
            case MomentumWeight | TrendWeight => 0.28 < x < 0.32
            case VolatilityWeight | DxyWeight => 0.18 < x < 0.22
            case Core => x < 1.0
            case Inner => 0.5 < x < 1.5
            case Outer => 1.0 < x < 2.0
            case Extended => 1.5 < x
            case AtrMin => x < 1.0
            case AtrMax => 0.15 < x
            case SlMult => x < 3.0
            case TpMult => 2.0 < x
            case MinGec => x < 0.6
            case MinCombined => 0.5 < x
            case _ => true
  {
    AllHoldGold(map[k := x]);
    hide AllHold;
  }

  /** Genes within the Gold Edge bounds that the projection returns as they are: weights near one, target beyond stop,
      entry thresholds in order. */
  predicate Accepted(g: Genes)
    requires HasWeights(g) && SlMult in g && TpMult in g && MinGec in g && MinCombined in g
  {
    var sum := g[MomentumWeight] + g[TrendWeight] + g[VolatilityWeight] + g[DxyWeight];
    -0.02 < sum - 1.0 < 0.02 && g[SlMult] < g[TpMult] && g[MinGec] < g[MinCombined]
  }

  lemma AcceptedExactly(g: Genes)
    requires InGold(g)
    ensures HasWeights(g) && SlMult in g && TpMult in g && MinGec in g && MinCombined in g
    ensures AllHold(g, GOLD_CONSTRAINTS) <==> Accepted(g)
  {
    GoldHasWeights(g);
    GoldOrders(g);
    AllHoldGold(g);
    hide InGold, AllHold;
  }

  /** What the projection makes of every gene: the weights divided by their sum, the target half a unit beyond the
      stop. */
  lemma ProjectionOutcome(g: Genes)
    requires InGold(g)
    ensures var r := Project(g, GoldBounds(), GOLD_CONSTRAINTS, ATTEMPTS);
            && HasWeights(g) && SlMult in g && TpMult in g && MinGec in g && MinCombined in g
            && var sum := g[MomentumWeight] + g[TrendWeight] + g[VolatilityWeight] + g[DxyWeight];
               && r.Keys == g.Keys
               && (Accepted(g) ==> r == g)
               && (!Accepted(g) ==> forall k :: k in g ==>
                     r[k] == if IsWeight(k) && sum > 0.0 then g[k] / sum
                             else if k == TpMult && g[TpMult] <= g[SlMult] then g[SlMult] + 0.5 else g[k])
  {
    hide Repair, AllHold, InGold, FixWeights, GoldBounds, Accepted;
    ProjectionIsOneRepair(g);
    AcceptedExactly(g);
    GoldRepair(g);
    WeightsAlone(g);
    FixedWeight(g);
  }

  lemma FixedWeight(g: Genes)
    requires HasWeights(g)
    ensures var sum := g[MomentumWeight] + g[TrendWeight] + g[VolatilityWeight] + g[DxyWeight];
            forall k :: k in g && IsWeight(k) ==>
              k in FixWeights(g) && FixWeights(g)[k] == if sum > 0.0 then g[k] / sum else g[k]
  {
  }

  /**
    For genes within the Gold Edge bounds the projection ends within them, with the borders, the ATR thresholds and
    target over stop in order; the weights sum to one, within 0.02, exactly if they had anything to divide by, and to
    one exactly if they were divided; the entry thresholds, which no repair touches, are in order exactly if they were.
  */
  lemma ProjectionIsSound(g: Genes)
    requires InGold(g)
    ensures var r := Project(g, GoldBounds(), GOLD_CONSTRAINTS, ATTEMPTS);
            && InGold(r) && r.Keys == g.Keys && HasWeights(g) && HasBorders(g)
            && AtrMin in g && AtrMax in g && SlMult in g && TpMult in g && MinGec in g && MinCombined in g
            && r[Core] < r[Inner] < r[Outer] < r[Extended] && r[AtrMin] < r[AtrMax] && r[SlMult] < r[TpMult]
            && (r[MinGec] < r[MinCombined] <==> g[MinGec] < g[MinCombined])
            && var before := g[MomentumWeight] + g[TrendWeight] + g[VolatilityWeight] + g[DxyWeight];
               var after := r[MomentumWeight] + r[TrendWeight] + r[VolatilityWeight] + r[DxyWeight];
               && (-0.02 < after - 1.0 < 0.02 <==> before > 0.0)
               && (before > 0.0 && !Accepted(g) ==> after == 1.0)
  {
    hide Repair, InGold, AllHold, Accepted, GoldBounds, Project;
    ProjectionIsOneRepair(g);
    AcceptedExactly(g);
    AcceptedIsInOrder(g);
    GoldRepairSettles(g);
    GoldOrders(g);
    GoldOrders(Repair(g));
  }

  lemma AcceptedIsInOrder(g: Genes)
    requires InGold(g)
    ensures HasWeights(g) && SlMult in g && TpMult in g && MinGec in g && MinCombined in g
    ensures 0.0 <= TotalWeight(g)
    ensures Accepted(g) ==> -0.02 < TotalWeight(g) - 1.0 < 0.02 && g[SlMult] < g[TpMult]
  {
    GoldHasWeights(g);
    GoldOrders(g);
  }

  /** It changes nothing exactly if the genes are accepted, or their weights cannot be improved and the target is
      right. */
  lemma ProjectionIsIdleExactly(g: Genes)
    requires InGold(g)
    ensures HasWeights(g) && SlMult in g && TpMult in g && MinGec in g && MinCombined in g
    ensures var sum := g[MomentumWeight] + g[TrendWeight] + g[VolatilityWeight] + g[DxyWeight];
            Project(g, GoldBounds(), GOLD_CONSTRAINTS, ATTEMPTS) == g <==>
            Accepted(g) || ((sum == 1.0 || sum <= 0.0) && g[SlMult] < g[TpMult])
  {
    hide Repair, InGold, FixWeights, Accepted, GoldBounds, Project, AllHold;
    ProjectionIsSound(g);
    ProjectionIsOneRepair(g);
    AcceptedExactly(g);
    GoldRepair(g);
    FixedWeightsStayOnce(g);
  }

  lemma FixedWeightsStayOnce(g: Genes)
    requires HasWeights(g)
    ensures TotalWeight(g) == 1.0 || TotalWeight(g) <= 0.0 ==> FixWeights(g) == g
  {
    hide FixWeights;
    if TotalWeight(g) == 1.0 || TotalWeight(g) <= 0.0 {
      FixedWeightsStay(g);
    }
  }

  /** In other bounds it may leave them: a repaired target is not clamped once the constraints hold. */
  lemma RepairMayLeaveBounds(g: Genes, bounds: Bounds)
    requires g == map[TpMult := 2.0, SlMult := 3.0]
    requires bounds.vals == map[TpMult := Range(1.5, 2.0), SlMult := Range(1.0, 3.5)]
    ensures InBounds(g, bounds) && !InBounds(Project(g, bounds, [TargetBeyondStop], ATTEMPTS), bounds)
  {
    var r := map[TpMult := 3.5, SlMult := 3.0];
    assert Repair(g) == r;
    var c := [TargetBeyondStop];
    assert !c[0](g) && c[0](r);
    assert !AllHold(g, c) && AllHold(r, c);
    assert Project(r, bounds, c, ATTEMPTS - 1) == r;
  }

  // ---------- the final normalisation ----------

  function NormaliseGec(g: Genes): Genes {
    if !HasWeights(g) || TotalWeight(g) <= 0.0 then g
    else
      var t := TotalWeight(g);
      WithWeights(g, Round(g[MomentumWeight] / t, 10000), Round(g[TrendWeight] / t, 10000),
                  Round(g[VolatilityWeight] / t, 10000), Round(g[DxyWeight] / t, 10000))
  }

  /**
    Normalising changes nothing exactly when a weight is missing, or the weights have no positive sum, or each weight
    is a multiple of 1/10000 to which its own share of the sum rounds.
  */
  lemma NormalisedAlready(g: Genes)
    ensures NormaliseGec(g) == g <==>
            !HasWeights(g) || TotalWeight(g) <= 0.0
            || (var t := TotalWeight(g);
                RoundsTo(g[MomentumWeight] / t, g[MomentumWeight], 10000.0)
                && RoundsTo(g[TrendWeight] / t, g[TrendWeight], 10000.0)
                && RoundsTo(g[VolatilityWeight] / t, g[VolatilityWeight], 10000.0)
                && RoundsTo(g[DxyWeight] / t, g[DxyWeight], 10000.0))
  {
    hide Round, RoundsTo;
    if HasWeights(g) && TotalWeight(g) > 0.0 {
      var t := TotalWeight(g);
      RoundExactly(g[MomentumWeight] / t, g[MomentumWeight], 10000);
      RoundExactly(g[TrendWeight] / t, g[TrendWeight], 10000);
      RoundExactly(g[VolatilityWeight] / t, g[VolatilityWeight], 10000);
      RoundExactly(g[DxyWeight] / t, g[DxyWeight], 10000);
    }
  }

  /** The check of the GoldEdgeComposite constructor. */
  predicate CompositeAccepts(g: Genes)
    requires HasWeights(g)
  {
    Abs(TotalWeight(g) - 1.0) <= 0.01
  }

  lemma CompositeAcceptsExactly(g: Genes)
    requires HasWeights(g)
    ensures CompositeAccepts(g) <==>
            0.99 <= g[MomentumWeight] + g[TrendWeight] + g[VolatilityWeight] + g[DxyWeight] <= 1.01
  {
  }

  lemma RoundedSum(a: real, b: real, c: real, d: real)
    ensures Abs(Round(a, 10000) + Round(b, 10000) + Round(c, 10000) + Round(d, 10000) - (a + b + c + d)) <= 0.0002
  {
    RoundError(a, 10000);
    RoundError(b, 10000);
    RoundError(c, 10000);
    RoundError(d, 10000);
    hide Round;
  }

  /** Normalised weights sum to one within 0.0002, and the composite accepts them exactly if their sum was positive. */
  lemma NormalisedIsAccepted(g: Genes)
    requires HasWeights(g)
    ensures HasWeights(NormaliseGec(g))
    ensures TotalWeight(g) > 0.0 ==> Abs(TotalWeight(NormaliseGec(g)) - 1.0) <= 0.0002
    ensures CompositeAccepts(NormaliseGec(g)) <==> TotalWeight(g) > 0.0
  {
    hide Round;
    var t := TotalWeight(g);
    if t > 0.0 {
      SharesSumToOne(g[MomentumWeight], g[TrendWeight], g[VolatilityWeight], g[DxyWeight], t);
      RoundedSum(g[MomentumWeight] / t, g[TrendWeight] / t, g[VolatilityWeight] / t, g[DxyWeight] / t);
    }
  }

  // ---------- the dictionary of genes, changed in place ----------

  class GeneTable {
    var genes: Genes

    constructor (genes: Genes)
      ensures this.genes == genes
    {
      this.genes := genes;
    }

    method FixWeightsInPlace()
      modifies this
      ensures genes == FixWeights(old(genes))
    {
      if HasWeights(genes) {
        var total := TotalWeight(genes);
        if total > 0.0 {
          ghost var g := genes;
          for i := 0 to 4
            invariant HasWeights(g) && genes == Shared(g, total, i)
          {
            var k := WEIGHTS[i];
            genes := genes[k := genes[k] / total];
          }
        }
      }
    }

    method FixBordersInPlace()
      modifies this
      ensures genes == FixBorders(old(genes))
      ensures HasBorders(genes) <==> HasBorders(old(genes))
      ensures HasBorders(genes) ==>
        Ascending(Borders(genes)) && multiset(Borders(genes)) == multiset(Borders(old(genes)))
      ensures genes.Keys == old(genes).Keys
      ensures forall k :: k in genes && !IsBorder(k) ==> genes[k] == old(genes)[k]
    {
      hide Sorted;
      if HasBorders(genes) {
        var v := Sorted(Borders(genes));
        SortedBordersAreSame(genes);
        genes := genes[Core := v[0]];
        genes := genes[Inner := v[1]];
        genes := genes[Outer := v[2]];
        genes := genes[Extended := v[3]];
      }
    }

    method ClampInPlace(bounds: Bounds)
      modifies this
      ensures genes == Clamp(old(genes), bounds)
    {
      ghost var g := genes;
      for i := 0 to |bounds.keys|
        invariant genes.Keys == g.Keys
        invariant forall k :: k in g ==> genes[k] == if k in bounds.keys[..i] then Clamp(g, bounds)[k] else g[k]
      {
        var k := bounds.keys[i];
        assert k !in bounds.keys[..i] && bounds.keys[..i + 1] == bounds.keys[..i] + [k];
        if k in genes {
          genes := genes[k := Max(bounds.vals[k].low, Min(bounds.vals[k].high, genes[k]))];
        }
      }
      assert bounds.keys[..|bounds.keys|] == bounds.keys;
      assert genes == Clamp(g, bounds);
    }

    /** The final normalisation, in place. */
    method NormaliseInPlace()
      modifies this
      ensures genes == NormaliseGec(old(genes))
    {
      hide Round;
      if HasWeights(genes) {
        var total := TotalWeight(genes);
        if total > 0.0 {
          ghost var g := genes;
          for i := 0 to 4
            invariant HasWeights(g) && genes == RoundedShares(g, total, i)
          {
            var k := WEIGHTS[i];
            genes := genes[k := Round(genes[k] / total, 10000)];
          }
        }
      }
    }

    /** The projection, in place. */
    method ProjectToFeasible(bounds: Bounds, constraints: seq<Constraint>, attempts: nat)
      modifies this
      ensures genes == Project(old(genes), bounds, constraints, attempts)
    {
      hide FixWeights, FixBorders, Clamp, AllHold;
      for i := 0 to attempts
        invariant Project(genes, bounds, constraints, attempts - i) == Project(old(genes), bounds, constraints, attempts)
      {
        if AllHold(genes, constraints) {
          return;
        }
        FixWeightsInPlace();
        FixBordersInPlace();
        if AtrMin in genes && AtrMax in genes && genes[AtrMin] >= genes[AtrMax] {
          genes := genes[AtrMin := genes[AtrMax] - 0.05];
        }
        if TpMult in genes && SlMult in genes && genes[TpMult] <= genes[SlMult] {
          genes := genes[TpMult := genes[SlMult] + 0.5];
        }
      }
      ClampInPlace(bounds);
    }
  }

  /** The genes once the first i weights have been divided by the total. */
  ghost function Shared(g: Genes, t: real, i: nat): Genes
    requires HasWeights(g) && i <= 4 && t != 0.0
  {
    WithWeights(g, if i > 0 then g[MomentumWeight] / t else g[MomentumWeight],
                if i > 1 then g[TrendWeight] / t else g[TrendWeight],
                if i > 2 then g[VolatilityWeight] / t else g[VolatilityWeight],
                if i > 3 then g[DxyWeight] / t else g[DxyWeight])
  }

  /** The genes once the first i weights have been divided by the total and rounded. */
  ghost function RoundedShares(g: Genes, t: real, i: nat): Genes
    requires HasWeights(g) && i <= 4 && t != 0.0
  {
    WithWeights(g, if i > 0 then Round(g[MomentumWeight] / t, 10000) else g[MomentumWeight],
                if i > 1 then Round(g[TrendWeight] / t, 10000) else g[TrendWeight],
                if i > 2 then Round(g[VolatilityWeight] / t, 10000) else g[VolatilityWeight],
                if i > 3 then Round(g[DxyWeight] / t, 10000) else g[DxyWeight])
  }
}

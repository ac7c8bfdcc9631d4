/**
  The genetic optimizer (backend/ml/genetic_optimizer.py): chromosomes, selection, crossover, mutation and the
  elitist step from one generation to the next.
*/
module Evolution {
  import opened Options
  import opened Dicts
  import opened Rounding
  import opened Projection
  import opened ParamSpaces

  /** A fitness; a chromosome starts out with minus infinity. */
  datatype Fitness = MinusInf | Finite(value: real)

  predicate AtLeast(a: Fitness, b: Fitness) {
    b.MinusInf? || (a.Finite? && b.value <= a.value)
  }

  lemma AtLeastReflexive(a: Fitness)
    ensures AtLeast(a, a)
  {
  }

  lemma AtLeastTransitive(a: Fitness, b: Fitness, c: Fitness)
    requires AtLeast(a, b) && AtLeast(b, c)
    ensures AtLeast(a, c)
  {
  }

  predicate Above(a: Fitness, b: Fitness) {
    !AtLeast(b, a)
  }

  type Objective = Genes -> real

  // ---------- genes of children ----------

  /** A uniform crossover: every gene of either parent, with the value it has in one of them. */
  ghost predicate Crossed(x: Genes, p: Genes, q: Genes) {
    x.Keys == p.Keys + q.Keys && forall k :: k in x ==> (k in p && x[k] == p[k]) || (k in q && x[k] == q[k])
  }

  /** A mutation: some genes of the space are replaced by values of their range. */
  ghost predicate Mutated(m: Genes, x: Genes, bounds: Bounds) {
    && x.Keys <= m.Keys <= x.Keys + bounds.vals.Keys
    && forall k :: k in m ==> (k in x && m[k] == x[k]) || (k in bounds.vals && InRange(m[k], bounds.vals[k]))
  }

  /** The values that clamping can give: the range, or its lower end if the range is empty. */
  predicate InRange(v: real, r: Range) {
    r.low <= v <= Max(r.low, r.high)
  }

  /** The genes of a child: two parents crossed, mutated and projected. */
  ghost predicate Offspring(c: Genes, parents: seq<Genes>, bounds: Bounds, constraints: seq<Constraint>) {
    exists p, q, x, m :: p in parents && q in parents && Crossed(x, p, q) && Mutated(m, x, bounds)
                         && c == Project(m, bounds, constraints, ATTEMPTS)
  }

  /** A child of parents within a tidy space is within it. */
  lemma OffspringInSpace(c: Genes, parents: seq<Genes>, bounds: Bounds, constraints: seq<Constraint>)
    requires Offspring(c, parents, bounds, constraints)
    requires Ordered(bounds) && Tidy(bounds)
    requires forall p :: p in parents ==> InSpace(p, bounds)
    ensures InSpace(c, bounds)
  {
    var p, q, x, m :| p in parents && q in parents && Crossed(x, p, q) && Mutated(m, x, bounds)
                      && c == Project(m, bounds, constraints, ATTEMPTS);
    hide *;
    MutantInSpace(p, q, x, m, bounds);
    ProjectionStaysInSpace(m, bounds, constraints);
  }

  lemma MutantInSpace(p: Genes, q: Genes, x: Genes, m: Genes, bounds: Bounds)
    requires InSpace(p, bounds) && InSpace(q, bounds) && Ordered(bounds)
    requires Crossed(x, p, q) && Mutated(m, x, bounds)
    ensures InSpace(m, bounds)
  {
    assert InSpace(x, bounds);
  }

  // ---------- random draws ----------

  /** random.random() */
  method Random() returns (r: real)
    ensures 0.0 <= r < 1.0
  {
    r := *;
    if !(0.0 <= r < 1.0) {
      r := 0.0;
    }
  }

  /** random.sample(range(n), size) */
  method Sample(n: nat, size: nat) returns (indices: seq<nat>)
    requires size <= n
    ensures |indices| == size
    ensures forall i :: 0 <= i < size ==> indices[i] < n
    ensures forall i, j :: 0 <= i < j < size ==> indices[i] != indices[j]
  {
    var pool: seq<nat> := seq(n, i requires 0 <= i < n => i);
    indices := [];
    while |indices| < size
      invariant |indices| <= size && |pool| == n - |indices|
      invariant forall i :: 0 <= i < |pool| ==> pool[i] < n && pool[i] !in indices
      invariant forall i, j :: 0 <= i < j < |pool| ==> pool[i] != pool[j]
      invariant forall i :: 0 <= i < |indices| ==> indices[i] < n
      invariant forall i, j :: 0 <= i < j < |indices| ==> indices[i] != indices[j]
    {
      var at: nat :| at < |pool|;
      var drawn := pool[at];
      pool := pool[..at] + pool[at + 1..];
      indices := indices + [drawn];
    }
  }

  lemma UniformInRange(low: real, high: real, r: real)
    requires low <= high && 0.0 <= r < 1.0
    ensures low <= low + (high - low) * r <= high
  {
    ProductIsNonNegative(high - low, r);
    ProductIsNonNegative(high - low, 1.0 - r);
    assert (high - low) * (1.0 - r) == (high - low) - (high - low) * r;
  }

  /** random.uniform(low, high) */
  method Uniform(low: real, high: real) returns (v: real)
    ensures low <= high ==> low <= v <= high
  {
    var r := Random();
    if low <= high {
      UniformInRange(low, high, r);
    }
    v := low + (high - low) * r;
  }

  // ---------- ranking ----------

  /** max(range(n), key = scores): the first of the greatest. */
  method FirstBest(scores: seq<Fitness>) returns (b: nat)
    requires |scores| > 0
    ensures b < |scores|
    ensures forall j :: 0 <= j < |scores| ==> AtLeast(scores[b], scores[j])
    ensures forall j :: 0 <= j < b ==> Above(scores[b], scores[j])
  {
    b := 0;
    for i := 1 to |scores|
      invariant b < i
      invariant forall j :: 0 <= j < i ==> AtLeast(scores[b], scores[j])
      invariant forall j :: 0 <= j < b ==> Above(scores[b], scores[j])
    {
      if Above(scores[i], scores[b]) {
        b := i;
      }
    }
  }

  /** Fitter, or as fit and earlier in the population. */
  predicate Before(scores: seq<Fitness>, a: nat, b: nat)
    requires a < |scores| && b < |scores|
  {
    Above(scores[a], scores[b]) || (scores[a] == scores[b] && a < b)
  }

  /** Member b wins a tournament among as many distinct members as it admits, or among all of fewer. */
  ghost predicate Won(entrants: seq<nat>, b: nat, scores: seq<Fitness>, size: nat) {
    && |entrants| == (if size < |scores| then size else |scores|)
    && (forall i :: 0 <= i < |entrants| ==> entrants[i] < |scores|)
    && (forall i, j :: 0 <= i < j < |entrants| ==> entrants[i] != entrants[j])
    && b < |scores| && b in entrants
    && (forall i :: 0 <= i < |entrants| ==> AtLeast(scores[b], scores[entrants[i]]))
  }

  /** Member b may become a parent: it wins a tournament of three. */
  ghost predicate MayParent(scores: seq<Fitness>, b: nat) {
    b < |scores| && exists entrants: seq<nat> :: Won(entrants, b, scores, 3)
  }

  /** So of three or more members a parent has two others that are no fitter: the two worst never breed. */
  lemma ParentsOutrankTwo(scores: seq<Fitness>, b: nat)
    requires MayParent(scores, b) && |scores| >= 3
    ensures exists i, j :: 0 <= i < |scores| && 0 <= j < |scores| && i != j && i != b && j != b
                           && AtLeast(scores[b], scores[i]) && AtLeast(scores[b], scores[j])
  {
    var entrants: seq<nat> :| Won(entrants, b, scores, 3);
    var at :| 0 <= at < 3 && entrants[at] == b;
    var i, j := entrants[if at == 0 then 1 else 0], entrants[if at == 2 then 1 else 2];
    assert i != j && i != b && j != b;
  }

  /** How a child comes about: two tournaments, a crossover at its rate, a mutation at its rate, and the projection. */
  ghost predicate Bred(c: Genes, parents: seq<Genes>, scores: seq<Fitness>, bounds: Bounds,
                       constraints: seq<Constraint>, crossoverRate: real, mutationRate: real)
    requires |scores| == |parents|
  {
    exists a: nat, b: nat, x, m ::
      && MayParent(scores, a) && MayParent(scores, b)
      && Crossed(x, parents[a], parents[b]) && (crossoverRate <= 0.0 ==> x == parents[a])
      && Mutated(m, x, bounds) && (mutationRate <= 0.0 ==> m == x)
      && c == Project(m, bounds, constraints, 20)
  }

  lemma BredFrom(c: Genes, parents: seq<Genes>, scores: seq<Fitness>, bounds: Bounds, constraints: seq<Constraint>,
                 crossoverRate: real, mutationRate: real, a: nat, b: nat, x: Genes, m: Genes)
    requires |scores| == |parents| && MayParent(scores, a) && MayParent(scores, b)
    requires a < |parents| && b < |parents|
    requires Crossed(x, parents[a], parents[b]) && (crossoverRate <= 0.0 ==> x == parents[a])
    requires Mutated(m, x, bounds) && (mutationRate <= 0.0 ==> m == x) && c == Project(m, bounds, constraints, 20)
    ensures Bred(c, parents, scores, bounds, constraints, crossoverRate, mutationRate)
    ensures Offspring(c, parents, bounds, constraints)
  {
    hide Project, Crossed, Mutated;
    assert parents[a] in parents && parents[b] in parents;
  }

  lemma WinnerIsMember(entrants: seq<nat>, b: nat, scores: seq<Fitness>)
    requires Won(entrants, b, scores, 3)
    ensures b < |scores| && MayParent(scores, b)
  {
  }

  ghost predicate Ranking(order: seq<nat>, scores: seq<Fitness>, n: nat)
    requires n <= |scores|
  {
    && |order| == n
    && (forall i :: 0 <= i < |order| ==> order[i] < n)
    && (forall x: nat :: x < n ==> x in order)
    && (forall i, j :: 0 <= i < j < |order| ==> Before(scores, order[i], order[j]))
  }

  lemma RankingIsInRange(order: seq<nat>, scores: seq<Fitness>, n: nat)
    requires n <= |scores| && Ranking(order, scores, n)
    ensures |order| == n && forall i :: 0 <= i < n ==> order[i] < n
  {
  }

  /** sorted(..., reverse = True): stable, fittest first. */
  method Rank(scores: seq<Fitness>) returns (order: seq<nat>)
    ensures Ranking(order, scores, |scores|)
  {
    order := [];
    for i := 0 to |scores|
      invariant Ranking(order, scores, i)
    {
      var at := |order|;
      while at > 0 && Above(scores[i], scores[order[at - 1]])
        invariant 0 <= at <= |order| == i
        invariant forall j :: at <= j < |order| ==> Before(scores, i, order[j])
      {
        at := at - 1;
      }
      RankInsert(order, scores, i, at);
      order := order[..at] + [i] + order[at..];
    }
  }

  lemma RankInsert(order: seq<nat>, scores: seq<Fitness>, i: nat, at: nat)
    requires i < |scores| && Ranking(order, scores, i) && at <= i
    requires forall j :: at <= j < i ==> Before(scores, i, order[j])
    requires at > 0 ==> !Above(scores[i], scores[order[at - 1]])
    ensures Ranking(order[..at] + [i] + order[at..], scores, i + 1)
  {
    var r := order[..at] + [i] + order[at..];
    assert r[at] == i;
    forall x: nat | x < i + 1
      ensures x in r
    {
      if x < i {
        assert x in order;
        var j :| 0 <= j < |order| && order[j] == x;
        assert r[if j < at then j else j + 1] == x;
      }
    }
    forall j | 0 <= j < at
      ensures Before(scores, order[j], i)
    {
      assert order[at - 1] == order[j] || Before(scores, order[j], order[at - 1]);
    }
    forall j, k | 0 <= j < k < |r|
      ensures Before(scores, r[j], r[k])
    {
      if j < at && k > at {
        assert Before(scores, order[j], order[k - 1]);
      }
    }
  }

  // ---------- chromosomes ----------

  class Chromosome {
    const genes: GeneTable
    var fitness: Fitness

    constructor (genes: GeneTable, fitness: Fitness)
      ensures this.genes == genes && this.fitness == fitness
    {
      this.genes := genes;
      this.fitness := fitness;
    }

    /** A deep copy: it shares no gene table with the original. */
    method Clone() returns (c: Chromosome)
      ensures fresh(c) && fresh(c.genes)
      ensures c.genes.genes == genes.genes && c.fitness == fitness
    {
      var table := new GeneTable(genes.genes);
      c := new Chromosome(table, fitness);
    }
  }

  /** No two members share an object or a gene table. */
  ghost predicate Separate(population: seq<Chromosome>) {
    forall i, j :: 0 <= i < j < |population| ==>
      population[i] != population[j] && population[i].genes != population[j].genes
  }

  ghost function Tables(population: seq<Chromosome>): set<object> {
    set i | 0 <= i < |population| :: population[i].genes
  }

  ghost function GenesOf(population: seq<Chromosome>): (gs: seq<Genes>)
    reads Tables(population)
    ensures |gs| == |population|
    ensures forall i :: 0 <= i < |gs| ==> gs[i] == population[i].genes.genes
  {
    seq(|population|, i requires 0 <= i < |population| reads Tables(population) => population[i].genes.genes)
  }

  ghost function FitnessOf(population: seq<Chromosome>): (fs: seq<Fitness>)
    reads population
    ensures |fs| == |population|
    ensures forall i :: 0 <= i < |fs| ==> fs[i] == population[i].fitness
  {
    seq(|population|, i requires 0 <= i < |population| reads population => population[i].fitness)
  }

  /** [c.fitness for c in population] */
  method ListFitness(population: seq<Chromosome>) returns (scores: seq<Fitness>)
    ensures scores == FitnessOf(population)
  {
    scores := [];
    for i := 0 to |population|
      invariant |scores| == i && forall j :: 0 <= j < i ==> scores[j] == population[j].fitness
    {
      scores := scores + [population[i].fitness];
    }
  }

  // ---------- scores of a generation ----------

  const PENALTY := 5.0

  function Score(objective: Objective, constraints: seq<Constraint>, g: Genes): real {
    if AllHold(g, constraints) then objective(g) else objective(g) - PENALTY
  }

  ghost function Scores(objective: Objective, constraints: seq<Constraint>, generation: seq<Genes>): (fs: seq<Fitness>)
    ensures |fs| == |generation|
    ensures forall i :: 0 <= i < |fs| ==> fs[i] == Finite(Score(objective, constraints, generation[i]))
  {
    seq(|generation|, i requires 0 <= i < |generation| => Finite(Score(objective, constraints, generation[i])))
  }

  lemma ScoresAreFinite(objective: Objective, constraints: seq<Constraint>, generation: seq<Genes>)
    ensures forall x :: x in Scores(objective, constraints, generation) ==> x.Finite?
  {
  }

  lemma ScoreAt(objective: Objective, constraints: seq<Constraint>, generation: seq<Genes>, i: nat)
    requires i < |generation|
    ensures generation[i] in generation
    ensures Scores(objective, constraints, generation)[i] == Finite(Score(objective, constraints, generation[i]))
  {
  }

  datatype Entry = Entry(generation: nat, best: real, average: real, worst: real)

  datatype Outcome = Outcome(params: Genes, fitness: Fitness, history: seq<Entry>, evaluations: int)

  function Total(scores: seq<Fitness>): real
    requires forall x :: x in scores ==> x.Finite?
  {
    if scores == [] then 0.0 else Total(scores[..|scores| - 1]) + scores[|scores| - 1].value
  }

  /** What the history says of a generation: its greatest and least scores, both attained, and their mean. */
  ghost predicate Summary(e: Entry, generation: nat, scores: seq<Fitness>) {
    && |scores| > 0 && (forall x :: x in scores ==> x.Finite?)
    && e.generation == generation
    && Finite(e.best) in scores && Finite(e.worst) in scores
    && (forall x :: x in scores ==> e.worst <= x.value <= e.best)
    && e.average == Total(scores) / |scores| as real
  }

  method Statistics(scores: seq<Fitness>) returns (best: real, average: real, worst: real)
    requires |scores| > 0 && forall x :: x in scores ==> x.Finite?
    ensures forall generation :: Summary(Entry(generation, best, average, worst), generation, scores)
  {
    best, worst := scores[0].value, scores[0].value;
    var sum := 0.0;
    for i := 0 to |scores|
      invariant Finite(best) in scores && Finite(worst) in scores
      invariant forall j :: 0 <= j < i ==> worst <= scores[j].value <= best
      invariant sum == Total(scores[..i])
    {
      var x := scores[i].value;
      assert scores[..i + 1][..i] == scores[..i];
      best, worst, sum := Max(best, x), Min(worst, x), sum + x;
    }
    assert scores[..|scores|] == scores;
    average := sum / |scores| as real;
  }

  // ---------- a run, generation by generation ----------

  /** The greatest score of a generation. */
  function BestScore(objective: Objective, constraints: seq<Constraint>, generation: seq<Genes>): real
    requires |generation| > 0
  {
    var last := Score(objective, constraints, generation[|generation| - 1]);
    if |generation| == 1 then last else Max(BestScore(objective, constraints, generation[..|generation| - 1]), last)
  }

  /** The next generation holds a best member of this one; all its members are survivors or children of this one. */
  ghost predicate Succession(objective: Objective, constraints: seq<Constraint>, bounds: Bounds,
                             prev: seq<Genes>, next: seq<Genes>) {
    && |next| == |prev| > 0
    && (exists g ::
          g in prev && g in next && Score(objective, constraints, g) == BestScore(objective, constraints, prev))
    && (forall g :: g in next ==> g in prev || Offspring(g, prev, bounds, constraints))
  }

  ghost predicate MayFollow(objective: Objective, constraints: seq<Constraint>, bounds: Bounds,
                            evaluated: seq<seq<Genes>>, next: seq<Genes>) {
    && |next| > 0
    && if |evaluated| == 0 then Ordered(bounds) ==> forall g :: g in next ==> InSpace(g, bounds)
       else Succession(objective, constraints, bounds, evaluated[|evaluated| - 1], next)
  }

  ghost predicate Lineage(objective: Objective, constraints: seq<Constraint>, bounds: Bounds,
                          evaluated: seq<seq<Genes>>) {
    forall i :: 0 <= i < |evaluated| ==> MayFollow(objective, constraints, bounds, evaluated[..i], evaluated[i])
  }

  ghost predicate Summaries(history: seq<Entry>, objective: Objective, constraints: seq<Constraint>,
                            evaluated: seq<seq<Genes>>) {
    && |history| == |evaluated|
    && forall i :: 0 <= i < |history| ==> Summary(history[i], i, Scores(objective, constraints, evaluated[i]))
  }

  /** At least every score of the run. */
  ghost predicate Beats(best: Fitness, objective: Objective, constraints: seq<Constraint>, evaluated: seq<seq<Genes>>) {
    forall i, k :: 0 <= i < |evaluated| && 0 <= k < |evaluated[i]| ==>
      AtLeast(best, Finite(Score(objective, constraints, evaluated[i][k])))
  }

  /** The score of genes evaluated in the run. */
  ghost predicate Achieved(g: Genes, best: Fitness, objective: Objective, constraints: seq<Constraint>,
                           evaluated: seq<seq<Genes>>) {
    best == Finite(Score(objective, constraints, g)) && exists i :: 0 <= i < |evaluated| && g in evaluated[i]
  }

  /** The genes break none of the constraints. */
  ghost predicate Feasible(g: Genes, constraints: seq<Constraint>) {
    forall constraint :: constraint in constraints ==> constraint(g)
  }

  /** What genes are worth in a run: breaking any constraint costs five. */
  lemma ScoreExactly(objective: Objective, constraints: seq<Constraint>, g: Genes)
    ensures Score(objective, constraints, g) ==
            if Feasible(g, constraints) then objective(g) else objective(g) - 5.0
    ensures Feasible(g, constraints) <==> AllHold(g, constraints)
  {
  }

  /** What a first run reports is worth at least what anything it evaluated is, broken constraints counted in. */
  lemma ReportedIsWorthMost(objective: Objective, constraints: seq<Constraint>, evaluated: seq<seq<Genes>>,
                            g: Genes, best: Fitness, i: nat, x: Genes)
    requires Beats(best, objective, constraints, evaluated) && Achieved(g, best, objective, constraints, evaluated)
    requires i < |evaluated| && x in evaluated[i]
    ensures (if Feasible(x, constraints) then objective(x) else objective(x) - 5.0)
         <= (if Feasible(g, constraints) then objective(g) else objective(g) - 5.0)
    ensures best == Finite(if Feasible(g, constraints) then objective(g) else objective(g) - 5.0)
  {
    hide Score, Feasible;
    ScoreExactly(objective, constraints, g);
    ScoreExactly(objective, constraints, x);
    var k :| 0 <= k < |evaluated[i]| && evaluated[i][k] == x;
    assert AtLeast(best, Finite(Score(objective, constraints, evaluated[i][k])));
  }

  /**
    So a first run reports genes that satisfy every constraint if it evaluated some whose objective beats that of all
    the infeasible ones less five; and genes that break one if the objective of some such, less five, beats that of all
    the feasible ones.
  */
  lemma FeasibleIsReported(objective: Objective, constraints: seq<Constraint>, evaluated: seq<seq<Genes>>,
                           g: Genes, best: Fitness)
    requires Beats(best, objective, constraints, evaluated) && Achieved(g, best, objective, constraints, evaluated)
    ensures (exists i, x :: 0 <= i < |evaluated| && x in evaluated[i] && Feasible(x, constraints)
               && forall j, y :: 0 <= j < |evaluated| && y in evaluated[j] && !Feasible(y, constraints) ==>
                    objective(x) > objective(y) - 5.0)
            ==> Feasible(g, constraints)
    ensures (exists j, y :: 0 <= j < |evaluated| && y in evaluated[j] && !Feasible(y, constraints)
               && forall i, x :: 0 <= i < |evaluated| && x in evaluated[i] && Feasible(x, constraints) ==>
                    objective(y) - 5.0 > objective(x))
            ==> !Feasible(g, constraints)
  {
    hide Beats, Feasible, Score;
    var at :| 0 <= at < |evaluated| && g in evaluated[at];
    forall i, x | 0 <= i < |evaluated| && x in evaluated[i]
      ensures (if Feasible(x, constraints) then objective(x) else objective(x) - 5.0)
           <= (if Feasible(g, constraints) then objective(g) else objective(g) - 5.0)
    {
      ReportedIsWorthMost(objective, constraints, evaluated, g, best, i, x);
    }
  }

  lemma {:induction false} BestScoreIsGreatest(objective: Objective, constraints: seq<Constraint>,
                                               generation: seq<Genes>)
    requires |generation| > 0
    ensures forall g ::
      g in generation ==> Score(objective, constraints, g) <= BestScore(objective, constraints, generation)
    ensures exists g ::
      g in generation && Score(objective, constraints, g) == BestScore(objective, constraints, generation)
  {
    hide Score;
    var n := |generation|;
    assert generation == generation[..n - 1] + [generation[n - 1]];
    if n > 1 {
      BestScoreIsGreatest(objective, constraints, generation[..n - 1]);
    }
    assert generation[n - 1] in generation;
  }

  lemma NothingYet(best: Fitness, objective: Objective, constraints: seq<Constraint>, bounds: Bounds)
    ensures Lineage(objective, constraints, bounds, []) && Summaries([], objective, constraints, [])
    ensures Beats(best, objective, constraints, [])
  {
  }

  lemma SuccessionNeverWorsens(objective: Objective, constraints: seq<Constraint>, bounds: Bounds,
                               prev: seq<Genes>, next: seq<Genes>)
    requires Succession(objective, constraints, bounds, prev, next)
    ensures BestScore(objective, constraints, prev) <= BestScore(objective, constraints, next)
  {
    hide Score, BestScore, Offspring;
    BestScoreIsGreatest(objective, constraints, next);
  }

  /** Over any run, whatever the random draws, the best score of a generation never falls. */
  lemma {:induction false} BestNeverFalls(objective: Objective, constraints: seq<Constraint>, bounds: Bounds,
                                          evaluated: seq<seq<Genes>>, i: nat, j: nat)
    requires Lineage(objective, constraints, bounds, evaluated) && i <= j < |evaluated|
    ensures |evaluated[i]| > 0 && |evaluated[j]| > 0
    ensures BestScore(objective, constraints, evaluated[i]) <= BestScore(objective, constraints, evaluated[j])
    decreases j
  {
    hide Succession, BestScore;
    assert MayFollow(objective, constraints, bounds, evaluated[..i], evaluated[i]);
    assert MayFollow(objective, constraints, bounds, evaluated[..j], evaluated[j]);
    if i < j {
      BestNeverFalls(objective, constraints, bounds, evaluated, i, j - 1);
      SuccessionNeverWorsens(objective, constraints, bounds, evaluated[j - 1], evaluated[j]);
    }
  }

  /** So the last generation holds a score as good as any of the run. */
  lemma LastGenerationHoldsTheBest(objective: Objective, constraints: seq<Constraint>, bounds: Bounds,
                                   evaluated: seq<seq<Genes>>, i: nat, g: Genes)
    requires Lineage(objective, constraints, bounds, evaluated) && i < |evaluated| && g in evaluated[i]
    ensures |evaluated[|evaluated| - 1]| > 0
    ensures Score(objective, constraints, g) <= BestScore(objective, constraints, evaluated[|evaluated| - 1])
  {
    hide *;
    BestNeverFalls(objective, constraints, bounds, evaluated, i, |evaluated| - 1);
    BestScoreIsGreatest(objective, constraints, evaluated[i]);
  }

  /** The best fitness of a run that began without one is the best score of its last generation. */
  lemma BestEverIsTheLastBest(objective: Objective, constraints: seq<Constraint>, bounds: Bounds,
                              evaluated: seq<seq<Genes>>, g: Genes, best: Fitness)
    requires Lineage(objective, constraints, bounds, evaluated) && |evaluated| > 0
    requires Beats(best, objective, constraints, evaluated) && Achieved(g, best, objective, constraints, evaluated)
    ensures |evaluated[|evaluated| - 1]| > 0
    ensures best == Finite(BestScore(objective, constraints, evaluated[|evaluated| - 1]))
  {
    hide Lineage, Score, BestScore;
    var n := |evaluated| - 1;
    var i :| 0 <= i <= n && g in evaluated[i];
    LastGenerationHoldsTheBest(objective, constraints, bounds, evaluated, i, g);
    BestScoreIsGreatest(objective, constraints, evaluated[n]);
    var h :| h in evaluated[n] && Score(objective, constraints, h) == BestScore(objective, constraints, evaluated[n]);
    var k :| 0 <= k < |evaluated[n]| && evaluated[n][k] == h;
    assert AtLeast(best, Finite(Score(objective, constraints, evaluated[n][k])));
  }

  /** The histories of two generations of a run compare as their best scores do. */
  lemma HistoryNeverWorsens(history: seq<Entry>, objective: Objective, constraints: seq<Constraint>, bounds: Bounds,
                            evaluated: seq<seq<Genes>>, i: nat, j: nat)
    requires Lineage(objective, constraints, bounds, evaluated)
    requires Summaries(history, objective, constraints, evaluated) && i <= j < |history|
    ensures history[i].best <= history[j].best
    ensures history[i].worst <= history[i].average <= history[i].best
  {
    hide Lineage, Summary, Score, BestScore, Scores;
    BestNeverFalls(objective, constraints, bounds, evaluated, i, j);
    SummaryBest(history[i], i, objective, constraints, evaluated[i]);
    SummaryBest(history[j], j, objective, constraints, evaluated[j]);
    MeanIsBetween(history[i], i, Scores(objective, constraints, evaluated[i]));
  }

  lemma SummaryBest(e: Entry, at: nat, objective: Objective, constraints: seq<Constraint>, generation: seq<Genes>)
    requires |generation| > 0 && Summary(e, at, Scores(objective, constraints, generation))
    ensures e.best == BestScore(objective, constraints, generation)
  {
    hide Score, BestScore;
    BestScoreIsGreatest(objective, constraints, generation);
    var scores := Scores(objective, constraints, generation);
    var g :| g in generation && Score(objective, constraints, g) == BestScore(objective, constraints, generation);
    var k :| 0 <= k < |generation| && generation[k] == g;
    assert scores[k] in scores;
    var b :| 0 <= b < |scores| && scores[b] == Finite(e.best);
    assert generation[b] in generation;
  }

  lemma MeanIsBetween(e: Entry, at: nat, scores: seq<Fitness>)
    requires Summary(e, at, scores)
    ensures e.worst <= e.average <= e.best
  {
    hide Total;
    var n := |scores| as real;
    TotalIsBetween(e.worst, e.best, scores);
    DivMonotone(n * e.worst, Total(scores), n);
    DivMonotone(Total(scores), n * e.best, n);
    MulThenDiv(n, e.worst);
    MulThenDiv(n, e.best);
  }

  lemma MulThenDiv(n: real, x: real)
    requires 0.0 < n
    ensures n * x / n == x
  {
  }

  lemma {:induction false} TotalIsBetween(low: real, high: real, scores: seq<Fitness>)
    requires forall x :: x in scores ==> x.Finite? && low <= x.value <= high
    ensures |scores| as real * low <= Total(scores) <= |scores| as real * high
  {
    var n := |scores|;
    if n > 0 {
      TotalIsBetween(low, high, scores[..n - 1]);
      assert scores[n - 1] in scores;
      OneMoreReal(n, low);
      OneMoreReal(n, high);
    }
  }

  lemma OneMoreReal(n: nat, x: real)
    requires n > 0
    ensures n as real * x == (n - 1) as real * x + x
  {
    assert n as real == (n - 1) as real + 1.0;
  }

  /** In a tidy space everything the run evaluates is within the space. */
  lemma {:induction false} RunStaysInSpace(objective: Objective, constraints: seq<Constraint>, bounds: Bounds,
                                           evaluated: seq<seq<Genes>>, i: nat, g: Genes)
    requires Lineage(objective, constraints, bounds, evaluated) && i < |evaluated| && g in evaluated[i]
    requires Ordered(bounds) && Tidy(bounds)
    ensures InSpace(g, bounds)
    decreases i
  {
    hide Score, BestScore, InSpace, Tidy, Ordered, Offspring;
    assert MayFollow(objective, constraints, bounds, evaluated[..i], evaluated[i]);
    if i > 0 {
      forall p | p in evaluated[i - 1]
        ensures InSpace(p, bounds)
      {
        RunStaysInSpace(objective, constraints, bounds, evaluated, i - 1, p);
      }
      assert evaluated[..i][i - 1] == evaluated[i - 1];
      if g !in evaluated[i - 1] {
        OffspringInSpace(g, evaluated[i - 1], bounds, constraints);
      }
    }
  }

  /** A run over the space may end with g as its best chromosome. */
  ghost predicate MayReport(objective: Objective, constraints: seq<Constraint>, bounds: Bounds,
                            evaluated: seq<seq<Genes>>, g: Genes) {
    && Lineage(objective, constraints, bounds, evaluated)
    && exists best :: Beats(best, objective, constraints, evaluated)
                      && Achieved(g, best, objective, constraints, evaluated)
  }

  /**
    The reported fitness belongs to the weights before they are normalised.  In a tidy space it is that of the reported
    ones in every run, whatever is optimized, exactly when normalising changes no genes of the space.
  */
  lemma ReportsAgreeExactly(bounds: Bounds)
    requires Ordered(bounds) && Tidy(bounds)
    ensures (forall objective, constraints, evaluated, g ::
               MayReport(objective, constraints, bounds, evaluated, g) ==>
                 Score(objective, constraints, NormaliseGec(g)) == Score(objective, constraints, g))
       <==> Normal(bounds)
  {
    hide *;
    if Normal(bounds) {
      forall objective, constraints, evaluated, g | MayReport(objective, constraints, bounds, evaluated, g)
        ensures Score(objective, constraints, NormaliseGec(g)) == Score(objective, constraints, g)
      {
        ReportedIsInSpace(objective, constraints, bounds, evaluated, g);
        NormalSpacesStay(g, bounds);
      }
    } else {
      var g := NotNormal(bounds);
      var objective: Objective := x => if x == g then 10.0 else 0.0;
      SingletonRun(objective, bounds, g);
      TellsApart(objective, g, NormaliseGec(g));
    }
  }

  lemma ReportedIsInSpace(objective: Objective, constraints: seq<Constraint>, bounds: Bounds,
                          evaluated: seq<seq<Genes>>, g: Genes)
    requires Ordered(bounds) && Tidy(bounds) && MayReport(objective, constraints, bounds, evaluated, g)
    ensures InSpace(g, bounds)
  {
    hide Lineage, Beats, Score, InSpace, Tidy, Ordered;
    var best :| Beats(best, objective, constraints, evaluated) && Achieved(g, best, objective, constraints, evaluated);
    var i :| 0 <= i < |evaluated| && g in evaluated[i];
    RunStaysInSpace(objective, constraints, bounds, evaluated, i, g);
  }

  /** A population of one, for one generation, reports whatever genes of the space it starts with. */
  lemma SingletonRun(objective: Objective, bounds: Bounds, g: Genes)
    requires InSpace(g, bounds)
    ensures MayReport(objective, [], bounds, [[g]], g)
  {
    hide InSpace, Score, Ordered;
    var evaluated := [[g]];
    var best := Finite(Score(objective, [], g));
    assert evaluated[0] == [g] && evaluated[..0] == [];
    assert Achieved(g, best, objective, [], evaluated);
    assert Beats(best, objective, [], evaluated);
  }

  lemma TellsApart(objective: Objective, g: Genes, h: Genes)
    requires g != h && forall x: Genes :: objective(x) == if x == g then 10.0 else 0.0
    ensures Score(objective, [], h) != Score(objective, [], g)
  {
  }

  /** So reports agree in the risk and ensemble spaces, and need not in the Gold Edge space. */
  lemma TunedReports(bounds: Bounds)
    requires bounds in [GoldBounds(), RiskBounds(), EnsembleBounds()]
    ensures (forall objective, constraints, evaluated, g ::
               MayReport(objective, constraints, bounds, evaluated, g) ==>
                 Score(objective, constraints, NormaliseGec(g)) == Score(objective, constraints, g))
       <==> bounds != GoldBounds()
  {
    hide *;
    TunedSpacesAreTidy(bounds);
    TunedSpacesNormal();
    ReportsAgreeExactly(bounds);
  }

  lemma LineageExtends(objective: Objective, constraints: seq<Constraint>, bounds: Bounds,
                       evaluated: seq<seq<Genes>>, next: seq<Genes>)
    requires Lineage(objective, constraints, bounds, evaluated)
    requires MayFollow(objective, constraints, bounds, evaluated, next)
    ensures Lineage(objective, constraints, bounds, evaluated + [next])
  {
    hide MayFollow;
    var longer := evaluated + [next];
    forall i | 0 <= i < |longer|
      ensures MayFollow(objective, constraints, bounds, longer[..i], longer[i])
    {
      assert longer[..i] == evaluated[..i];
      assert evaluated[..|evaluated|] == evaluated;
    }
  }

  lemma SuccessorMayFollow(objective: Objective, constraints: seq<Constraint>, bounds: Bounds,
                           evaluated: seq<seq<Genes>>, prev: seq<Genes>, next: seq<Genes>)
    requires Succession(objective, constraints, bounds, prev, next)
    ensures MayFollow(objective, constraints, bounds, evaluated + [prev], next)
  {
  }

  lemma OneMore(k: nat, n: int)
    ensures (k + 1) * n == k * n + n
  {
  }

  lemma SummariesExtend(history: seq<Entry>, e: Entry, objective: Objective, constraints: seq<Constraint>,
                        evaluated: seq<seq<Genes>>, next: seq<Genes>)
    requires Summaries(history, objective, constraints, evaluated)
    requires Summary(e, |history|, Scores(objective, constraints, next))
    ensures Summaries(history + [e], objective, constraints, evaluated + [next])
  {
    hide Summary, Scores;
  }

  lemma BeatsExtends(before: Fitness, after: Fitness, objective: Objective, constraints: seq<Constraint>,
                     evaluated: seq<seq<Genes>>, next: seq<Genes>)
    requires Beats(before, objective, constraints, evaluated) || |evaluated| == 0
    requires |evaluated| == 0 || AtLeast(after, before)
    requires forall x :: x in Scores(objective, constraints, next) ==> AtLeast(after, x)
    ensures Beats(after, objective, constraints, evaluated + [next])
  {
    hide Score;
    var longer := evaluated + [next];
    forall i, k | 0 <= i < |longer| && 0 <= k < |longer[i]|
      ensures AtLeast(after, Finite(Score(objective, constraints, longer[i][k])))
    {
      if i == |evaluated| {
        assert Scores(objective, constraints, next)[k] in Scores(objective, constraints, next);
      } else {
        assert AtLeast(before, Finite(Score(objective, constraints, evaluated[i][k])));
      }
    }
  }

  lemma AchievedExtends(g: Genes, best: Fitness, objective: Objective, constraints: seq<Constraint>,
                        evaluated: seq<seq<Genes>>, next: seq<Genes>)
    requires Achieved(g, best, objective, constraints, evaluated)
             || (g in next && best == Finite(Score(objective, constraints, g)))
    ensures Achieved(g, best, objective, constraints, evaluated + [next])
  {
    hide Score;
    var longer := evaluated + [next];
    if Achieved(g, best, objective, constraints, evaluated) {
      var i :| 0 <= i < |evaluated| && g in evaluated[i];
      assert longer[i] == evaluated[i];
    } else {
      assert longer[|evaluated|] == next;
    }
  }

  /** The front of a ranking holds a best score. */
  lemma FrontIsBest(order: seq<nat>, objective: Objective, constraints: seq<Constraint>, generation: seq<Genes>)
    requires |generation| > 0 && Ranking(order, Scores(objective, constraints, generation), |generation|)
    ensures Score(objective, constraints, generation[order[0]]) == BestScore(objective, constraints, generation)
  {
    hide Score, BestScore;
    BestScoreIsGreatest(objective, constraints, generation);
    var scores := Scores(objective, constraints, generation);
    var g :| g in generation && Score(objective, constraints, g) == BestScore(objective, constraints, generation);
    var at :| 0 <= at < |generation| && generation[at] == g;
    assert at in order;
    var i :| 0 <= i < |order| && order[i] == at;
    assert i > 0 ==> Before(scores, order[0], order[i]);
    assert scores[order[0]] == Finite(Score(objective, constraints, generation[order[0]]));
  }

  // ---------- operators ----------

  class GeneticOptimizer {
    var populationSize: int
    var generations: int
    var mutationRate: real
    var crossoverRate: real
    var eliteRatio: real
    var history: seq<Entry>
    var bestEver: Chromosome?

    constructor (populationSize: int, generations: int, mutationRate: real, crossoverRate: real, eliteRatio: real)
      ensures this.populationSize == populationSize && this.generations == generations
      ensures this.mutationRate == mutationRate && this.crossoverRate == crossoverRate && this.eliteRatio == eliteRatio
      ensures history == [] && bestEver == null
    {
      this.populationSize := populationSize;
      this.generations := generations;
      this.mutationRate := mutationRate;
      this.crossoverRate := crossoverRate;
      this.eliteRatio := eliteRatio;
      history := [];
      bestEver := null;
    }

    method InitializePopulation(bounds: Bounds) returns (population: seq<Chromosome>)
      ensures |population| == if populationSize > 0 then populationSize else 0
      ensures Separate(population)
      ensures forall c :: c in population ==> fresh(c) && fresh(c.genes)
      ensures Ordered(bounds) ==> forall c :: c in population ==> InSpace(c.genes.genes, bounds)
    {
      population := [];
      while |population| < populationSize
        invariant |population| <= if populationSize > 0 then populationSize else 0
        invariant Separate(population)
        invariant forall c :: c in population ==> fresh(c) && fresh(c.genes)
        invariant Ordered(bounds) ==> forall c :: c in population ==> InSpace(c.genes.genes, bounds)
      {
        var table := RandomGenes(bounds);
        var c := new Chromosome(table, MinusInf);
        population := population + [c];
      }
    }

    method RandomGenes(bounds: Bounds) returns (table: GeneTable)
      ensures fresh(table)
      ensures Ordered(bounds) ==> InSpace(table.genes, bounds)
    {
      table := new GeneTable(map[]);
      for i := 0 to |bounds.keys|
        invariant table.genes.Keys == set k | k in bounds.keys[..i]
        invariant Ordered(bounds) ==>
          forall k :: k in table.genes ==> bounds.vals[k].low <= table.genes[k] <= bounds.vals[k].high
      {
        var k := bounds.keys[i];
        assert k in bounds.vals && bounds.keys[..i + 1] == bounds.keys[..i] + [k];
        var v := Uniform(bounds.vals[k].low, bounds.vals[k].high);
        table.genes := table.genes[k := v];
      }
      assert bounds.keys[..|bounds.keys|] == bounds.keys;
    }

    /** random.sample, then the fittest of the sample. */
    method SelectParents(population: seq<Chromosome>, fitnessScores: seq<Fitness>, tournamentSize: nat)
      returns (parent: Chromosome)
      requires |population| == |fitnessScores| > 0 && tournamentSize > 0
      ensures exists entrants: seq<nat>, b: nat :: Won(entrants, b, fitnessScores, tournamentSize)
                                                   && parent == population[b]
    {
      var n := |population|;
      var indices := Sample(n, if tournamentSize < n then tournamentSize else n);
      var drawn := seq(|indices|, i requires 0 <= i < |indices| => fitnessScores[indices[i]]);
      var best := FirstBest(drawn);
      parent := population[indices[best]];
      forall i | 0 <= i < |indices|
        ensures AtLeast(fitnessScores[indices[best]], fitnessScores[indices[i]])
      {
        assert AtLeast(drawn[best], drawn[i]);
      }
      assert Won(indices, indices[best], fitnessScores, tournamentSize);
    }

    method Crossover(parent1: Chromosome, parent2: Chromosome) returns (child: GeneTable)
      ensures fresh(child) && Crossed(child.genes, parent1.genes.genes, parent2.genes.genes)
    {
      child := new GeneTable(map[]);
      var p, q := parent1.genes.genes, parent2.genes.genes;
      var rest := p.Keys + q.Keys;
      while rest != {}
        invariant rest <= p.Keys + q.Keys && child.genes.Keys == p.Keys + q.Keys - rest
        invariant p == parent1.genes.genes && q == parent2.genes.genes
        invariant forall k :: k in child.genes ==>
          (k in p && child.genes[k] == p[k]) || (k in q && child.genes[k] == q[k])
        decreases |rest|
      {
        var k :| k in rest;
        rest := rest - {k};
        var r := Random();
        child.genes := child.genes[k := if r < 0.5 then Get(p, k, Get(q, k, 0.0)) else Get(q, k, Get(p, k, 0.0))];
      }
    }

    method Mutate(individual: GeneTable, bounds: Bounds) returns (mutated: GeneTable)
      ensures fresh(mutated) && Mutated(mutated.genes, individual.genes, bounds)
      ensures mutationRate <= 0.0 ==> mutated.genes == individual.genes
      ensures mutationRate >= 1.0 ==>
        forall k :: k in bounds.vals ==> k in mutated.genes && InRange(mutated.genes[k], bounds.vals[k])
    {
      mutated := new GeneTable(individual.genes);
      for i := 0 to |bounds.keys|
        invariant Mutated(mutated.genes, individual.genes, bounds)
        invariant mutationRate <= 0.0 ==> mutated.genes == individual.genes
        invariant mutationRate >= 1.0 ==> forall k :: k in bounds.keys[..i] ==>
          k in bounds.vals && k in mutated.genes && InRange(mutated.genes[k], bounds.vals[k])
      {
        assert bounds.keys[..i + 1] == bounds.keys[..i] + [bounds.keys[i]];
        var r := Random();
        if r < mutationRate {
          var k := bounds.keys[i];
          assert k in bounds.vals;
          var low, high := bounds.vals[k].low, bounds.vals[k].high;
          var noise: real := *;
          mutated.genes := mutated.genes[k := Max(low, Min(high, Get(mutated.genes, k, (low + high) / 2.0) + noise))];
        }
      }
    }

    /** A winner of a tournament of three, and its place. */
    method DrawParent(population: seq<Chromosome>) returns (parent: Chromosome, ghost place: nat)
      requires |population| > 0
      ensures place < |population| && parent == population[place] && MayParent(FitnessOf(population), place)
    {
      var scores := ListFitness(population);
      parent := SelectParents(population, scores, 3);
      hide Won;
      ghost var entrants: seq<nat>, b: nat :| Won(entrants, b, scores, 3) && parent == population[b];
      WinnerIsMember(entrants, b, scores);
      place := b;
    }

    /** The genes of a child before they are mutated: a crossover, or a copy of the first parent's. */
    method Recombine(parent1: Chromosome, parent2: Chromosome) returns (table: GeneTable, ghost second: bool)
      ensures fresh(table)
      ensures Crossed(table.genes, parent1.genes.genes, if second then parent2.genes.genes else parent1.genes.genes)
      ensures crossoverRate <= 0.0 ==> table.genes == parent1.genes.genes
    {
      var r := Random();
      second := r < crossoverRate;
      if r < crossoverRate {
        table := Crossover(parent1, parent2);
      } else {
        table := new GeneTable(parent1.genes.genes);
      }
    }

    /** One child, built without touching the parents. */
    method Breed(population: seq<Chromosome>, bounds: Bounds, constraints: seq<Constraint>) returns (child: Chromosome)
      requires |population| > 0
      ensures fresh(child) && fresh(child.genes) && child.fitness == MinusInf
      ensures Bred(child.genes.genes, GenesOf(population), FitnessOf(population), bounds, constraints, crossoverRate,
                   mutationRate)
      ensures Offspring(child.genes.genes, GenesOf(population), bounds, constraints)
    {
      hide Project, Crossed, Mutated, MayParent, Offspring;
      ghost var parents, scores := GenesOf(population), FitnessOf(population);
      var parent1, a := DrawParent(population);
      var parent2, b := DrawParent(population);
      var table, second := Recombine(parent1, parent2);
      ghost var x, other := table.genes, if second then b else a;
      assert Crossed(x, parents[a], parents[other]);
      table := Mutate(table, bounds);
      child := new Chromosome(table, MinusInf);
      ghost var m := table.genes;
      table.ProjectToFeasible(bounds, constraints, ATTEMPTS);
      assert GenesOf(population) == parents && FitnessOf(population) == scores;
      assert child.genes.genes == Project(m, bounds, constraints, 20);
      BredFrom(child.genes.genes, parents, scores, bounds, constraints, crossoverRate, mutationRate, a, other, x, m);
    }

    /** How many members survive: at least one, at most all. */
    function EliteCount(n: nat): (e: nat)
      reads this
      ensures e <= n && (n > 0 ==> e > 0)
      ensures 1 < e ==> e as real <= n as real * eliteRatio
      ensures e < n ==> n as real * eliteRatio < (e + 1) as real
    {
      var wanted := (n as real * eliteRatio).Floor;
      if wanted < 1 then (if n == 0 then 0 else 1) else if wanted < n then wanted else n
    }

    /** Copies of the first members of a ranking. */
    method CopyElite(population: seq<Chromosome>, ranks: seq<nat>, count: nat) returns (elite: seq<Chromosome>)
      requires count <= |ranks| && forall i :: 0 <= i < |ranks| ==> ranks[i] < |population|
      ensures |elite| == count && Separate(elite)
      ensures forall c :: c in elite ==> fresh(c) && fresh(c.genes)
      ensures forall i :: 0 <= i < count ==>
        elite[i].genes.genes == population[ranks[i]].genes.genes && elite[i].fitness == population[ranks[i]].fitness
    {
      elite := [];
      for i := 0 to count
        invariant |elite| == i && Separate(elite)
        invariant forall c :: c in elite ==> fresh(c) && fresh(c.genes)
        invariant forall j :: 0 <= j < i ==>
          elite[j].genes.genes == population[ranks[j]].genes.genes && elite[j].fitness == population[ranks[j]].fitness
      {
        var c := population[ranks[i]].Clone();
        elite := elite + [c];
      }
    }

    /** Children until the next generation is as large as this one. */
    method AddChildren(elite: seq<Chromosome>, population: seq<Chromosome>, bounds: Bounds,
                       constraints: seq<Constraint>)
      returns (next: seq<Chromosome>)
      requires |elite| <= |population| && Separate(elite)
      ensures |next| == |population| && Separate(next) && elite <= next
      ensures forall i :: |elite| <= i < |next| ==> fresh(next[i]) && fresh(next[i].genes)
      ensures forall i :: |elite| <= i < |next| ==>
        next[i].fitness == MinusInf && Offspring(next[i].genes.genes, GenesOf(population), bounds, constraints)
      ensures forall i :: |elite| <= i < |next| ==>
        Bred(next[i].genes.genes, GenesOf(population), FitnessOf(population), bounds, constraints, crossoverRate,
             mutationRate)
    {
      hide Offspring, Bred;
      ghost var parents, scores := GenesOf(population), FitnessOf(population);
      next := elite;
      while |next| < |population|
        invariant |elite| <= |next| <= |population| && Separate(next) && elite <= next
        invariant GenesOf(population) == parents && FitnessOf(population) == scores
        invariant forall i :: |elite| <= i < |next| ==> fresh(next[i]) && fresh(next[i].genes)
        invariant forall i :: |elite| <= i < |next| ==>
          next[i].fitness == MinusInf && Offspring(next[i].genes.genes, parents, bounds, constraints)
        invariant forall i :: |elite| <= i < |next| ==>
          Bred(next[i].genes.genes, parents, scores, bounds, constraints, crossoverRate, mutationRate)
      {
        var child := Breed(population, bounds, constraints);
        next := next + [child];
      }
    }

    /**
      One generation. The survivors are copies of the fittest, in order of fitness; the others are children. Nothing
      in the next population is shared with the old one, which is left as it was.
    */
    method Evolve(population: seq<Chromosome>, bounds: Bounds, constraints: seq<Constraint>)
      returns (next: seq<Chromosome>, ghost order: seq<nat>)
      ensures |next| == |population| && Separate(next)
      ensures forall c :: c in next ==> fresh(c) && fresh(c.genes)
      ensures Ranking(order, FitnessOf(population), |population|)
      ensures forall i :: 0 <= i < EliteCount(|population|) ==>
        next[i].genes.genes == population[order[i]].genes.genes && next[i].fitness == population[order[i]].fitness
      ensures forall i :: EliteCount(|population|) <= i < |next| ==>
        next[i].fitness == MinusInf && Offspring(next[i].genes.genes, GenesOf(population), bounds, constraints)
      ensures forall i :: EliteCount(|population|) <= i < |next| ==>
        Bred(next[i].genes.genes, GenesOf(population), FitnessOf(population), bounds, constraints, crossoverRate,
             mutationRate)
    {
      var scores := ListFitness(population);
      var ranks := Rank(scores);
      order := ranks;
      hide Offspring, Bred, EliteCount, Before;
      var elite := CopyElite(population, ranks, EliteCount(|population|));
      next := AddChildren(elite, population, bounds, constraints);
      assert forall i :: 0 <= i < |elite| ==> next[i] == elite[i];
    }

    /** Evaluates the members one after another, then penalises those that break a constraint. */
    method Assess(population: seq<Chromosome>, objective: Objective, constraints: seq<Constraint>)
      requires Separate(population)
      modifies population
      ensures FitnessOf(population) == Scores(objective, constraints, GenesOf(population))
      ensures forall c :: c in population ==>
        c.fitness == Finite(if Feasible(c.genes.genes, constraints) then objective(c.genes.genes)
                            else objective(c.genes.genes) - 5.0)
    {
      hide Score, Feasible, AllHold;
      for i := 0 to |population|
        invariant forall j :: 0 <= j < i ==> population[j].fitness == Finite(objective(population[j].genes.genes))
      {
        population[i].fitness := Finite(objective(population[i].genes.genes));
      }
      for i := 0 to |population|
        invariant forall j :: i <= j < |population| ==>
          population[j].fitness == Finite(objective(population[j].genes.genes))
        invariant forall j :: 0 <= j < i ==>
          population[j].fitness == Finite(Score(objective, constraints, population[j].genes.genes))
      {
        ScoreExactly(objective, constraints, population[i].genes.genes);
        var ok := CheckConstraints(population[i].genes.genes, constraints);
        if !ok {
          population[i].fitness := Finite(population[i].fitness.value - PENALTY);
        }
      }
      forall c | c in population
        ensures c.fitness == Finite(if Feasible(c.genes.genes, constraints) then objective(c.genes.genes)
                                    else objective(c.genes.genes) - 5.0)
      {
        ScoreExactly(objective, constraints, c.genes.genes);
      }
    }

    method CheckConstraints(genes: Genes, constraints: seq<Constraint>) returns (ok: bool)
      ensures ok <==> AllHold(genes, constraints)
    {
      for i := 0 to |constraints|
        invariant forall j :: 0 <= j < i ==> constraints[j](genes)
      {
        if !constraints[i](genes) {
          return false;
        }
      }
      return true;
    }

    /** Notes the statistics of an assessed generation, and its best member if it beats the best so far. */
    method Record(population: seq<Chromosome>, generation: nat)
      requires |population| > 0 && forall x :: x in FitnessOf(population) ==> x.Finite?
      modifies this`history, this`bestEver
      ensures |history| == |old(history)| + 1 && history[..|old(history)|] == old(history)
      ensures Summary(history[|old(history)|], generation, FitnessOf(population))
      ensures bestEver != null && forall x :: x in FitnessOf(population) ==> AtLeast(bestEver.fitness, x)
      ensures old(bestEver) != null ==> AtLeast(bestEver.fitness, old(bestEver.fitness))
      ensures if old(bestEver) != null && forall x :: x in FitnessOf(population) ==> AtLeast(old(bestEver.fitness), x)
              then bestEver == old(bestEver)
              else fresh(bestEver) && fresh(bestEver.genes)
                   && exists i :: 0 <= i < |population| && bestEver.genes.genes == GenesOf(population)[i]
                                  && bestEver.fitness == FitnessOf(population)[i]
    {
      hide Summary, Total;
      var scores := ListFitness(population);
      var best, average, worst := Statistics(scores);
      history := history + [Entry(generation, best, average, worst)];
      var at := FirstBest(scores);
      assert scores[at] in scores;
      assert GenesOf(population)[at] == population[at].genes.genes;
      if bestEver == null || Above(population[at].fitness, bestEver.fitness) {
        bestEver := population[at].Clone();
      }
    }

    /** Evolves an assessed generation. */
    method Succeed(population: seq<Chromosome>, objective: Objective, bounds: Bounds, constraints: seq<Constraint>)
      returns (next: seq<Chromosome>)
      requires |population| > 0 && FitnessOf(population) == Scores(objective, constraints, GenesOf(population))
      ensures |next| == |population| && Separate(next)
      ensures forall c :: c in next ==> fresh(c) && fresh(c.genes)
      ensures Succession(objective, constraints, bounds, old(GenesOf(population)), GenesOf(next))
    {
      hide Offspring, Bred, Score, BestScore, EliteCount, Ranking;
      ghost var prev := GenesOf(population);
      ghost var order;
      next, order := Evolve(population, bounds, constraints);
      assert GenesOf(population) == prev;
      ghost var elite := EliteCount(|population|);
      assert elite > 0;
      RankingIsInRange(order, FitnessOf(population), |population|);
      FrontIsBest(order, objective, constraints, prev);
      assert GenesOf(next)[0] == prev[order[0]];
      forall g | g in GenesOf(next)
        ensures g in prev || Offspring(g, prev, bounds, constraints)
      {
        var i :| 0 <= i < |next| && GenesOf(next)[i] == g;
        assert i < elite ==> g == prev[order[i]];
      }
    }

    /** Assesses a generation and records it. */
    method Play(population: seq<Chromosome>, generation: nat, objective: Objective, bounds: Bounds,
                constraints: seq<Constraint>, ghost evaluated: seq<seq<Genes>>)
      requires |population| > 0 && Separate(population) && bestEver !in population
      requires bestEver != null ==> Beats(bestEver.fitness, objective, constraints, evaluated)
      requires bestEver == null ==> |evaluated| == 0
      modifies population, this`history, this`bestEver
      ensures GenesOf(population) == old(GenesOf(population))
      ensures FitnessOf(population) == Scores(objective, constraints, GenesOf(population))
      ensures |history| == |old(history)| + 1 && history[..|old(history)|] == old(history)
      ensures Summary(history[|old(history)|], generation, Scores(objective, constraints, GenesOf(population)))
      ensures bestEver != null && Beats(bestEver.fitness, objective, constraints, evaluated + [GenesOf(population)])
      ensures old(bestEver) != null ==> AtLeast(bestEver.fitness, old(bestEver.fitness))
      ensures bestEver == old(bestEver)
              || (fresh(bestEver) && fresh(bestEver.genes)
                  && Achieved(bestEver.genes.genes, bestEver.fitness, objective, constraints,
                              evaluated + [GenesOf(population)]))
    {
      hide Score, Achieved, Beats, Summary, Scores, AtLeast;
      ghost var genes, before := GenesOf(population), bestEver;
      ghost var bar := if before == null then MinusInf else before.fitness;
      Assess(population, objective, constraints);
      assert before != null ==> before.fitness == bar;
      ghost var scores := FitnessOf(population);
      assert GenesOf(population) == genes;
      ScoresAreFinite(objective, constraints, genes);
      Record(population, generation);
      assert FitnessOf(population) == scores && GenesOf(population) == genes;
      assert before != null ==> AtLeast(bestEver.fitness, bar);
      assert forall x :: x in scores ==> AtLeast(bestEver.fitness, x);
      BeatsExtends(bar, bestEver.fitness, objective, constraints, evaluated, genes);
      if bestEver != before {
        ghost var i :| 0 <= i < |population| && bestEver.genes.genes == genes[i] && bestEver.fitness == scores[i];
        ScoreAt(objective, constraints, genes, i);
        AchievedExtends(genes[i], scores[i], objective, constraints, evaluated, genes);
      }
    }

    method Founders(ghost objective: Objective, ghost constraints: seq<Constraint>, bounds: Bounds)
      returns (population: seq<Chromosome>)
      ensures |population| == if populationSize > 0 then populationSize else 0
      ensures Separate(population)
      ensures forall c :: c in population ==> fresh(c) && fresh(c.genes)
      ensures |population| > 0 ==> MayFollow(objective, constraints, bounds, [], GenesOf(population))
    {
      population := InitializePopulation(bounds);
      hide Ordered, InSpace;
      forall g | Ordered(bounds) && g in GenesOf(population)
        ensures InSpace(g, bounds)
      {
        var i :| 0 <= i < |population| && GenesOf(population)[i] == g;
        assert population[i] in population;
      }
    }

    /**
      The whole run. It fails only for want of a population or of any best chromosome; `evaluated` is what it
      evaluated, generation by generation.
    */
    method Optimize(objective: Objective, bounds: Bounds, constraints: seq<Constraint>)
      returns (result: Option<Outcome>, ghost evaluated: seq<seq<Genes>>)
      modifies this`history, this`bestEver
      ensures result.None? <==> if generations > 0 then populationSize <= 0 else old(bestEver) == null
      ensures result.None? ==> history == old(history) && bestEver == old(bestEver) && evaluated == []
      ensures result.Some? ==>
        && |evaluated| == (if generations > 0 then generations else 0)
        && (forall i :: 0 <= i < |evaluated| ==> |evaluated[i]| == populationSize)
        && Lineage(objective, constraints, bounds, evaluated)
        && |history| == |old(history)| + |evaluated| && history[..|old(history)|] == old(history)
        && Summaries(history[|old(history)|..], objective, constraints, evaluated)
        && bestEver != null && Beats(bestEver.fitness, objective, constraints, evaluated)
        && (old(bestEver) != null ==> AtLeast(bestEver.fitness, old(bestEver.fitness)))
        && (bestEver == old(bestEver)
            || (fresh(bestEver) && Achieved(bestEver.genes.genes, bestEver.fitness, objective, constraints, evaluated)))
        && result.value == Outcome(NormaliseGec(bestEver.genes.genes), bestEver.fitness, history,
                                   |evaluated| * populationSize)
    {
      hide *;
      result := None;
      evaluated := [];
      if generations > 0 && populationSize <= 0 {
        return;
      }
      var population := Founders(objective, constraints, bounds);
      var evaluations := 0;
      var generation := 0;
      ghost var past := history;
      NothingYet(if bestEver == null then MinusInf else bestEver.fitness, objective, constraints, bounds);
      assert history[|past|..] == [];
      if bestEver != null {
        AtLeastReflexive(bestEver.fitness);
      }
      while generation < generations
        invariant generation == |evaluated| && generation <= (if generations > 0 then generations else 0)
        invariant forall i :: 0 <= i < |evaluated| ==> |evaluated[i]| == populationSize
        invariant evaluations == |evaluated| * populationSize
        invariant Lineage(objective, constraints, bounds, evaluated)
        invariant generation < generations ==>
          && |population| == populationSize && Separate(population)
          && (forall c :: c in population ==> fresh(c) && fresh(c.genes)) && bestEver !in population
          && MayFollow(objective, constraints, bounds, evaluated, GenesOf(population))
        invariant |history| == |past| + |evaluated| && history[..|past|] == past
        invariant Summaries(history[|past|..], objective, constraints, evaluated)
        invariant bestEver == null <==> generation == 0 && old(bestEver) == null
        invariant bestEver != null ==> Beats(bestEver.fitness, objective, constraints, evaluated)
        invariant old(bestEver) != null ==> AtLeast(bestEver.fitness, old(bestEver.fitness))
        invariant bestEver == old(bestEver) || (bestEver != null && fresh(bestEver)
          && Achieved(bestEver.genes.genes, bestEver.fitness, objective, constraints, evaluated))
      {
        label Round:
        ghost var genes := GenesOf(population);
        ghost var best := bestEver;
        Play(population, generation, objective, bounds, constraints, evaluated);
        evaluations := evaluations + |population|;
        OneMore(|evaluated|, populationSize);
        if old(bestEver) != null {
          AtLeastTransitive(bestEver.fitness, best.fitness, old(bestEver.fitness));
        }
        assert history[|past|..] == old@Round(history)[|past|..] + [history[|history| - 1]];
        LineageExtends(objective, constraints, bounds, evaluated, genes);
        SummariesExtend(old@Round(history)[|past|..], history[|history| - 1], objective, constraints, evaluated, genes);
        if best != null && bestEver == best && best != old(bestEver) {
          AchievedExtends(best.genes.genes, best.fitness, objective, constraints, evaluated, genes);
        }
        evaluated := evaluated + [genes];
        if generation < generations - 1 {
          population := Succeed(population, objective, bounds, constraints);
          SuccessorMayFollow(objective, constraints, bounds, evaluated[..generation], genes, GenesOf(population));
          assert evaluated == evaluated[..generation] + [genes];
        }
        generation := generation + 1;
      }
      if bestEver == null {
        return;
      }
      var params := new GeneTable(bestEver.genes.genes);
      params.NormaliseInPlace();
      result := Some(Outcome(params.genes, bestEver.fitness, history, evaluations));
    }
  }

  // ---------- a run whose report is wrong ----------

  function Ones(): Genes {
    map[MomentumWeight := 1.0, TrendWeight := 1.0, VolatilityWeight := 1.0, DxyWeight := 1.0]
  }

  function OnesOnly(): Bounds {
    RawDict([MomentumWeight, TrendWeight, VolatilityWeight, DxyWeight],
            map[MomentumWeight := Range(1.0, 1.0), TrendWeight := Range(1.0, 1.0),
                VolatilityWeight := Range(1.0, 1.0), DxyWeight := Range(1.0, 1.0)])
  }

  lemma OnlyOnes(g: Genes)
    requires InSpace(g, OnesOnly())
    ensures g == Ones()
  {
    assert g.Keys == Ones().Keys;
    assert forall k :: k in g ==> g[k] == 1.0;
  }

  lemma OnesNormalised()
    ensures Get(Ones(), MomentumWeight, 0.0) == 1.0 && Get(NormaliseGec(Ones()), MomentumWeight, 0.0) == 0.25
  {
    var g := Ones();
    assert TotalWeight(g) == 4.0 && g[MomentumWeight] / 4.0 == 0.25;
    assert RoundsTo(0.25, 0.25, 10000.0);
    RoundExactly(0.25, 0.25, 10000);
    hide Round;
  }

  /** Asked to maximise the first of four weights that can only be one, every run reports 1.0 with weights worth 0.25. */
  method OptimizeOnes(optimizer: GeneticOptimizer) returns (fitness: Fitness, worth: real)
    requires optimizer.populationSize > 0 && optimizer.generations == 1 && optimizer.bestEver == null
    modifies optimizer
    ensures fitness == Finite(1.0) && worth == 0.25
  {
    hide Summaries, Beats, NormaliseGec, OnesOnly, Ones, InSpace;
    var objective: Objective := x => Get(x, MomentumWeight, 0.0);
    var result, evaluated := optimizer.Optimize(objective, OnesOnly(), []);
    ghost var g := optimizer.bestEver.genes.genes;
    assert MayFollow(objective, [], OnesOnly(), evaluated[..0], evaluated[0]);
    OnesAreOrdered();
    OnlyOnes(g);
    OnesNormalised();
    fitness, worth := result.value.fitness, objective(result.value.params);
  }

  lemma OnesAreOrdered()
    ensures Ordered(OnesOnly())
  {
  }
}

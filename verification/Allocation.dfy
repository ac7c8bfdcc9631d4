/** Capital allocation by recent performance (`DynamicAssetAllocation`, backend/ml/dynamic_allocation.py). */
module Allocation {
  import opened Rounding
  import opened Dicts

  datatype Perf = Perf(sharpe: real, winRate: real, profitFactor: real, riskReward: real)

  const LEAST := 0.01
  const MOST := 0.25

  function Score(p: Perf): real {
    p.sharpe * 0.35 + p.winRate * 0.25 + p.profitFactor * 0.20 + p.riskReward * 0.20
  }

  function Clip(x: real): real {
    Max(LEAST, Min(MOST, x))
  }

  type Weights = Dict<string, real>

  // ---------- the three passes ----------

  /** The raw scores of the first n assets written over the old weights. */
  function Scored(w: Weights, perf: Dict<string, Perf>, n: nat): Weights
    requires n <= |perf.keys|
  {
    if n == 0 then w
    else Put(Scored(w, perf, n - 1), perf.keys[n - 1], Max(0.0, Score(perf.vals[perf.keys[n - 1]])))
  }

  function TotalScore(perf: Dict<string, Perf>, n: nat): real
    requires n <= |perf.keys|
  {
    if n == 0 then 0.0 else TotalScore(perf, n - 1) + Max(0.0, Score(perf.vals[perf.keys[n - 1]]))
  }

  function SumOver(keys: seq<string>, vals: map<string, real>): real
    requires forall i :: 0 <= i < |keys| ==> keys[i] in vals
  {
    if keys == [] then 0.0 else SumOver(keys[..|keys| - 1], vals) + vals[keys[|keys| - 1]]
  }

  function Clipped(w: Weights, total: real): Weights
    requires total != 0.0
  {
    RawDict(w.keys, map k | k in w.vals :: Clip(w.vals[k] / total))
  }

  function Divided(w: Weights, total: real): Weights
    requires total != 0.0
  {
    RawDict(w.keys, map k | k in w.vals :: w.vals[k] / total)
  }

  function NewWeights(w: Weights, perf: Dict<string, Perf>): Weights {
    var n := |perf.keys|;
    var total := TotalScore(perf, n);
    if total > 0.0 then
      var clipped := Clipped(Scored(w, perf, n), total);
      var sum := SumOver(clipped.keys, clipped.vals);
      if sum > 0.0 then Divided(clipped, sum) else clipped
    else Scored(w, perf, n)
  }

  function Multiplier(w: Weights, symbol: string): real {
    var sum, weight := SumOver(w.keys, w.vals), if symbol in w.vals then w.vals[symbol] else 0.05;
    if w.keys == [] || sum / |w.keys| as real == 0.0 then 1.0 else weight / (sum / |w.keys| as real)
  }

  // ---------- the shape of the first pass ----------

  lemma NothingScoredYet(w: Weights, perf: Dict<string, Perf>)
    ensures Scored(w, perf, 0) == w && TotalScore(perf, 0) == 0.0
  {
  }

  lemma OneMoreScored(w: Weights, perf: Dict<string, Perf>, i: nat)
    requires i < |perf.keys|
    ensures var weight := Max(0.0, Score(perf.vals[perf.keys[i]]));
            && Scored(w, perf, i + 1) == Put(Scored(w, perf, i), perf.keys[i], weight)
            && TotalScore(perf, i + 1) == TotalScore(perf, i) + weight
  {
    hide Score;
  }

  lemma {:induction false} ScoredKeys(w: Weights, perf: Dict<string, Perf>, n: nat)
    requires n <= |perf.keys|
    ensures var r := Scored(w, perf, n);
            && w.keys <= r.keys
            && (forall i :: |w.keys| <= i < |r.keys| ==> r.keys[i] in perf.vals)
  {
    hide *;
    if n == 0 {
      NothingScoredYet(w, perf);
    } else {
      ScoredKeys(w, perf, n - 1);
      OneMoreScored(w, perf, n - 1);
      KeyIsScored(perf, n - 1);
    }
  }

  lemma KeyIsScored(perf: Dict<string, Perf>, i: nat)
    requires i < |perf.keys|
    ensures perf.keys[i] in perf.vals
  {
  }

  lemma PutSets(w: Weights, key: string, weight: real)
    ensures key in Put(w, key, weight).vals && Put(w, key, weight).vals[key] == weight
  {
  }

  lemma PutKeeps(w: Weights, key: string, weight: real, k: string)
    requires k in w.vals && k != key
    ensures k in Put(w, key, weight).vals && Put(w, key, weight).vals[k] == w.vals[k]
  {
  }

  lemma {:induction false} ScoredOld(w: Weights, perf: Dict<string, Perf>, n: nat, k: string)
    requires n <= |perf.keys| && k in w.vals && k !in perf.vals
    ensures k in Scored(w, perf, n).vals && Scored(w, perf, n).vals[k] == w.vals[k]
  {
    hide *;
    if n == 0 {
      NothingScoredYet(w, perf);
    } else {
      ScoredOld(w, perf, n - 1, k);
      OneMoreScored(w, perf, n - 1);
      KeyIsScored(perf, n - 1);
      PutKeeps(Scored(w, perf, n - 1), perf.keys[n - 1], Max(0.0, Score(perf.vals[perf.keys[n - 1]])), k);
    }
  }

  lemma KeysDiffer(perf: Dict<string, Perf>, i: nat, j: nat)
    requires i < j < |perf.keys|
    ensures perf.keys[i] != perf.keys[j]
  {
  }

  lemma {:induction false} ScoredNew(w: Weights, perf: Dict<string, Perf>, n: nat, i: nat)
    requires i < n <= |perf.keys|
    ensures var k, r := perf.keys[i], Scored(w, perf, n);
            k in r.vals && r.vals[k] == Max(0.0, Score(perf.vals[k]))
  {
    hide *;
    OneMoreScored(w, perf, n - 1);
    KeyIsScored(perf, n - 1);
    KeyIsScored(perf, i);
    var before, key := Scored(w, perf, n - 1), perf.keys[n - 1];
    PutSets(before, key, Max(0.0, Score(perf.vals[key])));
    if i < n - 1 {
      ScoredNew(w, perf, n - 1, i);
      KeysDiffer(perf, i, n - 1);
      PutKeeps(before, key, Max(0.0, Score(perf.vals[key])), perf.keys[i]);
    }
  }

  lemma {:induction false} TotalIsNotNegative(perf: Dict<string, Perf>, n: nat)
    requires n <= |perf.keys|
    ensures 0.0 <= TotalScore(perf, n)
    ensures forall i :: 0 <= i < n ==> Max(0.0, Score(perf.vals[perf.keys[i]])) <= TotalScore(perf, n)
  {
    if n > 0 {
      TotalIsNotNegative(perf, n - 1);
    }
  }

  // ---------- sums ----------

  lemma {:induction false} SumAtLeast(keys: seq<string>, vals: map<string, real>, least: real)
    requires forall i :: 0 <= i < |keys| ==> keys[i] in vals && least <= vals[keys[i]]
    ensures least * |keys| as real <= SumOver(keys, vals)
  {
    if keys != [] {
      SumAtLeast(keys[..|keys| - 1], vals, least);
      assert |keys| as real == (|keys| - 1) as real + 1.0;
      assert least * |keys| as real == least * (|keys| - 1) as real + least;
    }
  }

  lemma {:induction false} SumDivides(keys: seq<string>, vals: map<string, real>, quotients: map<string, real>, d: real)
    requires d != 0.0
    requires forall i :: 0 <= i < |keys| ==>
      keys[i] in vals && keys[i] in quotients && quotients[keys[i]] == vals[keys[i]] / d
    ensures SumOver(keys, quotients) == SumOver(keys, vals) / d
  {
    if keys != [] {
      var last := keys[|keys| - 1];
      SumDivides(keys[..|keys| - 1], vals, quotients, d);
      AddQuotients(SumOver(keys[..|keys| - 1], vals), vals[last], d);
    }
  }

  lemma AddQuotients(x: real, y: real, d: real)
    requires d != 0.0
    ensures x / d + y / d == (x + y) / d
  {
  }

  // ---------- what the weights guarantee ----------

  /** With a positive total score: the weights sum to one, every weight is positive and no two differ by more than a
      factor of 25, and a better score never gets the smaller weight. */
  ghost predicate Fair(w: Weights, perf: Dict<string, Perf>) {
    && SumOver(w.keys, w.vals) == 1.0
    && (forall j, k :: j in w.vals && k in w.vals ==> 0.0 < w.vals[k] && w.vals[j] <= 25.0 * w.vals[k])
    && (forall j, k :: j in perf.vals && k in perf.vals && Score(perf.vals[j]) <= Score(perf.vals[k]) ==>
          j in w.vals && k in w.vals && w.vals[j] <= w.vals[k])
  }

  predicate Bounded(w: Weights) {
    forall k :: k in w.vals ==> LEAST <= w.vals[k] <= MOST
  }

  lemma ClippedIsBounded(w: Weights, total: real)
    requires total != 0.0
    ensures Bounded(Clipped(w, total))
  {
  }

  lemma BoundedSum(w: Weights)
    requires w.keys != [] && Bounded(w)
    ensures SumOver(w.keys, w.vals) > 0.0
  {
    forall i | 0 <= i < |w.keys|
      ensures LEAST <= w.vals[w.keys[i]]
    {
      assert w.keys[i] in w.keys;
    }
    SumAtLeast(w.keys, w.vals, LEAST);
    assert LEAST * |w.keys| as real >= LEAST;
  }

  lemma DividedSumsToOne(w: Weights)
    requires SumOver(w.keys, w.vals) > 0.0
    ensures var r := Divided(w, SumOver(w.keys, w.vals));
            SumOver(r.keys, r.vals) == 1.0
  {
    var sum := SumOver(w.keys, w.vals);
    SumDivides(w.keys, w.vals, Divided(w, sum).vals, sum);
    assert sum / sum == 1.0;
  }

  lemma DividedIsBalanced(w: Weights, sum: real, j: string, k: string)
    requires Bounded(w) && 0.0 < sum && j in w.vals && k in w.vals
    ensures var r := Divided(w, sum);
            0.0 < r.vals[k] && r.vals[j] <= 25.0 * r.vals[k]
  {
    RatioKept(w.vals[j], w.vals[k], sum);
  }

  lemma ClipMonotone(x: real, y: real, total: real)
    requires x <= y && 0.0 < total
    ensures Clip(x / total) <= Clip(y / total)
  {
    DivMonotone(x, y, total);
  }

  /** A better score, scored this time, never ends with the smaller weight. */
  lemma BetterScoreBetterWeight(w: Weights, perf: Dict<string, Perf>, total: real, sum: real, i: nat, j: nat)
    requires i < |perf.keys| && j < |perf.keys| && 0.0 < total && 0.0 < sum
    requires Score(perf.vals[perf.keys[i]]) <= Score(perf.vals[perf.keys[j]])
    ensures var r, x, y := Divided(Clipped(Scored(w, perf, |perf.keys|), total), sum), perf.keys[i], perf.keys[j];
            x in r.vals && y in r.vals && r.vals[x] <= r.vals[y]
  {
    hide Score, Clip;
    var n, x, y := |perf.keys|, perf.keys[i], perf.keys[j];
    ScoredNew(w, perf, n, i);
    ScoredNew(w, perf, n, j);
    var scored := Scored(w, perf, n);
    ClipMonotone(scored.vals[x], scored.vals[y], total);
    DivMonotone(Clip(scored.vals[x] / total), Clip(scored.vals[y] / total), sum);
  }

  lemma WeightsAreFair(w: Weights, perf: Dict<string, Perf>)
    requires TotalScore(perf, |perf.keys|) > 0.0
    ensures Fair(NewWeights(w, perf), perf)
  {
    hide Score, Clipped, Divided, SumOver, Scored, Bounded, Fair;
    var total, scored := TotalScore(perf, |perf.keys|), Scored(w, perf, |perf.keys|);
    var clipped := Clipped(scored, total);
    ScoredNotEmpty(w, perf);
    ClippedKeys(scored, total);
    ClippedIsBounded(scored, total);
    BoundedSum(clipped);
    RenormalisedIsFair(w, perf, total, clipped);
  }

  lemma RenormalisedIsFair(w: Weights, perf: Dict<string, Perf>, total: real, c: Weights)
    requires 0.0 < total && c == Clipped(Scored(w, perf, |perf.keys|), total)
    requires Bounded(c) && SumOver(c.keys, c.vals) > 0.0
    ensures Fair(Divided(c, SumOver(c.keys, c.vals)), perf)
  {
    hide Score, Clipped, Divided, SumOver, Scored, Bounded;
    var sum := SumOver(c.keys, c.vals);
    var r := Divided(c, sum);
    DividedSumsToOne(c);
    DividedKeys(c, sum);
    forall j, k | j in r.vals && k in r.vals
      ensures 0.0 < r.vals[k] && r.vals[j] <= 25.0 * r.vals[k]
    {
      DividedIsBalanced(c, sum, j, k);
    }
    forall j, k | j in perf.vals && k in perf.vals && Score(perf.vals[j]) <= Score(perf.vals[k])
      ensures j in r.vals && k in r.vals && r.vals[j] <= r.vals[k]
    {
      assert j in perf.keys && k in perf.keys;
      var x: nat :| x < |perf.keys| && perf.keys[x] == j;
      var y: nat :| y < |perf.keys| && perf.keys[y] == k;
      BetterScoreBetterWeight(w, perf, total, sum, x, y);
    }
  }

  lemma ScoredNotEmpty(w: Weights, perf: Dict<string, Perf>)
    requires TotalScore(perf, |perf.keys|) > 0.0
    ensures Scored(w, perf, |perf.keys|).keys != []
  {
    hide Score;
    ScoredNew(w, perf, |perf.keys|, 0);
  }

  lemma DividedKeys(w: Weights, sum: real)
    requires sum != 0.0
    ensures Divided(w, sum).keys == w.keys && Divided(w, sum).vals.Keys == w.vals.Keys
  {
  }

  lemma ClippedKeys(w: Weights, total: real)
    requires total != 0.0
    ensures Clipped(w, total).keys == w.keys
  {
  }

  lemma RatioKept(x: real, y: real, sum: real)
    requires LEAST <= x <= MOST && LEAST <= y <= MOST && 0.0 < sum
    ensures 0.0 < y / sum && x / sum <= 25.0 * (y / sum)
  {
    DivMonotone(x, 25.0 * y, sum);
    assert (25.0 * y) / sum == 25.0 * (y / sum);
  }

  /** The part of the old weights that belongs to assets no longer scored. */
  function Stale(w: Weights, perf: Dict<string, Perf>, keys: seq<string>): real
    requires forall i :: 0 <= i < |keys| ==> keys[i] in w.vals
  {
    if keys == [] then 0.0
    else
      var k := keys[|keys| - 1];
      Stale(w, perf, keys[..|keys| - 1]) + if k in perf.vals then 0.0 else w.vals[k]
  }

  lemma {:induction false} SumOfStale(w: Weights, perf: Dict<string, Perf>, r: map<string, real>, keys: seq<string>)
    requires forall i :: 0 <= i < |keys| ==>
      keys[i] in w.vals && keys[i] in r && r[keys[i]] == if keys[i] in perf.vals then 0.0 else w.vals[keys[i]]
    ensures SumOver(keys, r) == Stale(w, perf, keys)
  {
    if keys != [] {
      SumOfStale(w, perf, r, keys[..|keys| - 1]);
    }
  }

  // ---------- what the first pass sums to ----------

  /** The old weights with those of the assets scored this time set to zero. */
  function Outdated(w: Weights, perf: Dict<string, Perf>): Weights {
    RawDict(w.keys, map k | k in w.vals :: if k in perf.vals then 0.0 else w.vals[k])
  }

  lemma {:induction false} SumUnchanged(keys: seq<string>, vals: map<string, real>, k: string, v: real)
    requires (forall i :: 0 <= i < |keys| ==> keys[i] in vals && keys[i] != k)
    ensures SumOver(keys, vals[k := v]) == SumOver(keys, vals)
  {
    if keys != [] {
      SumUnchanged(keys[..|keys| - 1], vals, k, v);
    }
  }

  lemma {:induction false} SumChanged(keys: seq<string>, vals: map<string, real>, i: nat, v: real)
    requires i < |keys| && (forall j :: 0 <= j < |keys| ==> keys[j] in vals)
    requires forall j, l :: 0 <= j < l < |keys| ==> keys[j] != keys[l]
    ensures SumOver(keys, vals[keys[i] := v]) == SumOver(keys, vals) + v - vals[keys[i]]
  {
    var n := |keys| - 1;
    if i == n {
      SumUnchanged(keys[..n], vals, keys[n], v);
    } else {
      SumChanged(keys[..n], vals, i, v);
    }
  }

  lemma SumAppend(keys: seq<string>, vals: map<string, real>, k: string)
    requires k in vals && forall i :: 0 <= i < |keys| ==> keys[i] in vals
    ensures (forall i :: 0 <= i < |keys + [k]| ==> (keys + [k])[i] in vals)
            && SumOver(keys + [k], vals) == SumOver(keys, vals) + vals[k]
  {
    assert (keys + [k])[..|keys|] == keys;
  }

  lemma SumOfAdded(keys: seq<string>, vals: map<string, real>, k: string, v: real)
    requires forall i :: 0 <= i < |keys| ==> keys[i] in vals && keys[i] != k
    ensures (forall i :: 0 <= i < |keys + [k]| ==> (keys + [k])[i] in vals[k := v])
            && SumOver(keys + [k], vals[k := v]) == SumOver(keys, vals) + v
  {
    hide SumOver;
    SumUnchanged(keys, vals, k, v);
    SumAppend(keys, vals[k := v], k);
  }

  /** Assigning a key of weight zero, or a new one, adds the weight to the sum. */
  lemma SumOfPut(w: Weights, k: string, v: real)
    requires k in w.vals ==> w.vals[k] == 0.0
    ensures var r := Put(w, k, v);
            SumOver(r.keys, r.vals) == SumOver(w.keys, w.vals) + v
  {
    hide SumOver;
    if k in w.vals {
      var i: nat :| i < |w.keys| && w.keys[i] == k;
      SumChanged(w.keys, w.vals, i, v);
    } else {
      SumOfAdded(w.keys, w.vals, k, v);
    }
  }

  lemma {:induction false} NextIsNotScored(w: Weights, perf: Dict<string, Perf>, n: nat, i: nat)
    requires n <= i < |perf.keys| && (perf.keys[i] in w.vals ==> w.vals[perf.keys[i]] == 0.0)
    ensures perf.keys[i] in Scored(w, perf, n).vals ==> Scored(w, perf, n).vals[perf.keys[i]] == 0.0
  {
    hide *;
    if n == 0 {
      NothingScoredYet(w, perf);
    } else {
      NextIsNotScored(w, perf, n - 1, i);
      KeyIsScored(perf, n - 1);
      OneMoreScored(w, perf, n - 1);
      KeysDiffer(perf, n - 1, i);
    }
  }

  lemma {:induction false} ScoredOver(w: Weights, perf: Dict<string, Perf>, n: nat)
    requires n <= |perf.keys| && forall k :: k in perf.vals && k in w.vals ==> w.vals[k] == 0.0
    ensures var r := Scored(w, perf, n);
            SumOver(r.keys, r.vals) == SumOver(w.keys, w.vals) + TotalScore(perf, n)
  {
    hide *;
    if n == 0 {
      NothingScoredYet(w, perf);
    } else {
      ScoredOver(w, perf, n - 1);
      KeyIsScored(perf, n - 1);
      OneMoreScored(w, perf, n - 1);
      NextIsNotScored(w, perf, n - 1, n - 1);
      SumOfPut(Scored(w, perf, n - 1), perf.keys[n - 1], Max(0.0, Score(perf.vals[perf.keys[n - 1]])));
    }
  }

  lemma PutKeysAlike(w: Weights, z: Weights, key: string, weight: real)
    requires w.keys == z.keys && w.vals.Keys == z.vals.Keys
    ensures Put(w, key, weight).keys == Put(z, key, weight).keys
    ensures Put(w, key, weight).vals.Keys == Put(z, key, weight).vals.Keys
  {
  }

  lemma {:induction false} SameScoredKeys(w: Weights, z: Weights, perf: Dict<string, Perf>, n: nat)
    requires n <= |perf.keys| && w.keys == z.keys && w.vals.Keys == z.vals.Keys
    ensures Scored(w, perf, n).keys == Scored(z, perf, n).keys
    ensures Scored(w, perf, n).vals.Keys == Scored(z, perf, n).vals.Keys
  {
    hide *;
    if n == 0 {
      NothingScoredYet(w, perf);
      NothingScoredYet(z, perf);
    } else {
      KeyIsScored(perf, n - 1);
      SameScoredKeys(w, z, perf, n - 1);
      OneMoreScored(w, perf, n - 1);
      OneMoreScored(z, perf, n - 1);
      PutKeysAlike(Scored(w, perf, n - 1), Scored(z, perf, n - 1), perf.keys[n - 1],
                   Max(0.0, Score(perf.vals[perf.keys[n - 1]])));
    }
  }

  /** The first pass forgets what scored assets weighed before. */
  lemma OutdatedScoresAlike(w: Weights, perf: Dict<string, Perf>)
    ensures Scored(w, perf, |perf.keys|) == Scored(Outdated(w, perf), perf, |perf.keys|)
  {
    hide Score, Scored;
    var n, z := |perf.keys|, Outdated(w, perf);
    SameScoredKeys(w, z, perf, n);
    var r, q := Scored(w, perf, n), Scored(z, perf, n);
    forall k | k in r.vals
      ensures r.vals[k] == q.vals[k]
    {
      if k in perf.vals {
        assert k in perf.keys;
        var i: nat :| i < n && perf.keys[i] == k;
        ScoredNew(w, perf, n, i);
        ScoredNew(z, perf, n, i);
      } else {
        NotScoredIsOld(w, perf, k);
        ScoredOld(w, perf, n, k);
        ScoredOld(z, perf, n, k);
      }
    }
  }

  lemma NotScoredIsOld(w: Weights, perf: Dict<string, Perf>, k: string)
    requires k in Scored(w, perf, |perf.keys|).vals && k !in perf.vals
    ensures k in w.vals
  {
    hide Score, Scored;
    var r := Scored(w, perf, |perf.keys|);
    ScoredKeys(w, perf, |perf.keys|);
    assert k in r.keys;
    var i: nat :| i < |r.keys| && r.keys[i] == k;
    assert i < |w.keys| && w.keys[i] == k;
  }

  /** The first pass leaves the scores and what stale assets still weigh. */
  lemma ScoredSum(w: Weights, perf: Dict<string, Perf>)
    ensures var r := Scored(w, perf, |perf.keys|);
            SumOver(r.keys, r.vals) == TotalScore(perf, |perf.keys|) + Stale(w, perf, w.keys)
  {
    hide Score, Scored, SumOver, TotalScore, Stale;
    var z := Outdated(w, perf);
    OutdatedScoresAlike(w, perf);
    ScoredOver(z, perf, |perf.keys|);
    assert forall i :: 0 <= i < |w.keys| ==> w.keys[i] in w.keys;
    SumOfStale(w, perf, z.vals, w.keys);
  }

  /** The new weights sum to one exactly when some asset scores above zero, or the weights of assets that were not
      scored this time already did. */
  lemma SumToOneExactly(w: Weights, perf: Dict<string, Perf>)
    ensures var r := NewWeights(w, perf);
            SumOver(r.keys, r.vals) == 1.0 <==>
            TotalScore(perf, |perf.keys|) > 0.0 || Stale(w, perf, w.keys) == 1.0
  {
    hide Score, Fair;
    if TotalScore(perf, |perf.keys|) > 0.0 {
      WeightsAreFair(w, perf);
      FairSumsToOne(NewWeights(w, perf), perf);
    } else {
      NothingScored(w, perf);
    }
  }

  lemma FairSumsToOne(w: Weights, perf: Dict<string, Perf>)
    requires Fair(w, perf)
    ensures SumOver(w.keys, w.vals) == 1.0
  {
  }

  lemma NothingScored(w: Weights, perf: Dict<string, Perf>)
    requires TotalScore(perf, |perf.keys|) <= 0.0
    ensures var r := Scored(w, perf, |perf.keys|);
            SumOver(r.keys, r.vals) == Stale(w, perf, w.keys)
  {
    hide Score, Scored, SumOver, Stale;
    TotalIsNotNegative(perf, |perf.keys|);
    ScoredSum(w, perf);
  }

  function SumOfMultipliers(w: Weights, keys: seq<string>): real {
    if keys == [] then 0.0
    else SumOfMultipliers(w, keys[..|keys| - 1]) + Multiplier(w, keys[|keys| - 1])
  }

  lemma {:induction false} MultipliersAsQuotient(w: Weights, keys: seq<string>, d: real)
    requires w.keys != [] && d == SumOver(w.keys, w.vals) / |w.keys| as real && d != 0.0
    requires forall i :: 0 <= i < |keys| ==> keys[i] in w.vals
    ensures SumOfMultipliers(w, keys) == SumOver(keys, w.vals) / d
  {
    if keys != [] {
      MultipliersAsQuotient(w, keys[..|keys| - 1], d);
      AddQuotients(SumOver(keys[..|keys| - 1], w.vals), w.vals[keys[|keys| - 1]], d);
    }
  }

  lemma {:induction false} MultipliersOfNothing(w: Weights, keys: seq<string>)
    requires w.keys == [] || SumOver(w.keys, w.vals) / |w.keys| as real == 0.0
    ensures SumOfMultipliers(w, keys) == |keys| as real
  {
    if keys != [] {
      MultipliersOfNothing(w, keys[..|keys| - 1]);
    }
  }

  lemma QuotientOfQuotient(x: real, n: real)
    requires 0.0 < n && x / n != 0.0
    ensures x / (x / n) == n
  {
    var d := x / n;
    var q := x / d;
    assert d * n == x;
    assert q * d == x;
    assert (q - n) * d == q * d - d * n;
  }

  /** Whatever the weights, the position multipliers of the known assets average exactly one. */
  lemma MultipliersAverageOne(w: Weights)
    requires w.keys != []
    ensures SumOfMultipliers(w, w.keys) / |w.keys| as real == 1.0
  {
    hide Multiplier, SumOver, SumOfMultipliers;
    var n := |w.keys| as real;
    var d := SumOver(w.keys, w.vals) / n;
    if d == 0.0 {
      MultipliersOfNothing(w, w.keys);
      assert SumOfMultipliers(w, w.keys) == n;
    } else {
      MultipliersAsQuotient(w, w.keys, d);
      QuotientOfQuotient(SumOver(w.keys, w.vals), n);
      assert SumOfMultipliers(w, w.keys) == n;
    }
    SelfQuotient(SumOfMultipliers(w, w.keys), n);
  }

  lemma SelfQuotient(x: real, n: real)
    requires x == n && 0.0 < n
    ensures x / n == 1.0
  {
  }

  // ---------- the limits after renormalising ----------

  lemma {:induction false} SumAtMost(keys: seq<string>, vals: map<string, real>, most: real)
    requires forall i :: 0 <= i < |keys| ==> keys[i] in vals && vals[keys[i]] <= most
    ensures SumOver(keys, vals) <= most * |keys| as real
  {
    if keys != [] {
      SumAtMost(keys[..|keys| - 1], vals, most);
      OneMoreTimes(most, |keys| - 1);
    }
  }

  lemma OneMoreTimes(x: real, n: nat)
    ensures x * (n + 1) as real == x * n as real + x
  {
    assert (n + 1) as real == n as real + 1.0;
  }

  /** The sum of all the weights but one. */
  lemma {:induction false} SumOfOthers(keys: seq<string>, vals: map<string, real>, i: nat)
    requires i < |keys|
    requires forall j :: 0 <= j < |keys| ==> keys[j] in vals && LEAST <= vals[keys[j]] <= MOST
    ensures LEAST * (|keys| - 1) as real <= SumOver(keys, vals) - vals[keys[i]] <= MOST * (|keys| - 1) as real
  {
    var n := |keys| - 1;
    if i == n {
      SumAtLeast(keys[..n], vals, LEAST);
      SumAtMost(keys[..n], vals, MOST);
    } else {
      SumOfOthers(keys[..n], vals, i);
      OneMoreTimes(LEAST, n - 1);
      OneMoreTimes(MOST, n - 1);
    }
  }

  /** The least, and the greatest, share that a clipped weight can have beside that many others. */
  function LeastShare(others: real): real
    requires 0.0 <= others
  {
    0.01 / (0.01 + 0.25 * others)
  }

  function MostShare(others: real): real
    requires 0.0 <= others
  {
    0.25 / (0.25 + 0.01 * others)
  }

  lemma ShareBetween(c: real, others: real, rest: real)
    requires LEAST <= c <= MOST && LEAST * rest <= others <= MOST * rest && 0.0 <= rest
    ensures LeastShare(rest) <= c / (c + others) <= MostShare(rest)
  {
    ProductIsNonNegative(c - LEAST, MOST * rest);
    assert (c - LEAST) * (MOST * rest) == c * (MOST * rest) - LEAST * (MOST * rest);
    QuotientsCompare(LEAST, LEAST + MOST * rest, c, c + others);
    ProductIsNonNegative(MOST - c, LEAST * rest);
    assert (MOST - c) * (LEAST * rest) == MOST * (LEAST * rest) - c * (LEAST * rest);
    QuotientsCompare(c, c + others, MOST, MOST + LEAST * rest);
  }

  lemma QuotientsCompare(a: real, b: real, c: real, d: real)
    requires 0.0 < b && 0.0 < d && a * d <= c * b
    ensures a / b <= c / d
  {
    var x, y := a / b, c / d;
    assert x * b == a && y * d == c;
    ProductIsPositive(b, d);
    assert (y - x) * (b * d) == c * b - a * d;
    NotNegativeFactor(y - x, b * d);
  }

  lemma BoundedShare(c: Weights, k: string)
    requires Bounded(c) && k in c.vals
    ensures var sum, rest := SumOver(c.keys, c.vals), (|c.keys| - 1) as real;
            && 0.0 < sum && 0.0 <= rest
            && LeastShare(rest) <= c.vals[k] / sum <= MostShare(rest)
  {
    hide SumOver, LeastShare, MostShare;
    assert k in c.keys;
    var i: nat :| i < |c.keys| && c.keys[i] == k;
    assert forall j :: 0 <= j < |c.keys| ==> c.keys[j] in c.keys;
    SumOfOthers(c.keys, c.vals, i);
    BoundedSum(c);
    ShareBetween(c.vals[k], SumOver(c.keys, c.vals) - c.vals[k], (|c.keys| - 1) as real);
  }

  /**
    Renormalising takes weights out of the limits they were just clipped to: with n assets known each lies between
    0.01 / (0.01 + 0.25 (n-1)) and 0.25 / (0.25 + 0.01 (n-1)), which is 1 for a single asset.
  */
  lemma WeightBounds(w: Weights, perf: Dict<string, Perf>, k: string)
    requires TotalScore(perf, |perf.keys|) > 0.0 && k in NewWeights(w, perf).vals
    ensures var r := NewWeights(w, perf);
            var rest := (|r.keys| - 1) as real;
            && 0.0 <= rest && LeastShare(rest) <= r.vals[k] <= MostShare(rest)
  {
    hide *;
    var n := |perf.keys|;
    var scored, total := Scored(w, perf, n), TotalScore(perf, n);
    var c := Clipped(scored, total);
    ClippedIsBounded(scored, total);
    ScoredNotEmpty(w, perf);
    ClippedKeys(scored, total);
    BoundedSum(c);
    NewWeightsAreDivided(w, perf, c);
    BoundedShare(c, k);
  }

  lemma NewWeightsAreDivided(w: Weights, perf: Dict<string, Perf>, c: Weights)
    requires TotalScore(perf, |perf.keys|) > 0.0 && SumOver(c.keys, c.vals) > 0.0
    requires c == Clipped(Scored(w, perf, |perf.keys|), TotalScore(perf, |perf.keys|))
    ensures var r, sum := NewWeights(w, perf), SumOver(c.keys, c.vals);
            r.keys == c.keys && r.vals.Keys == c.vals.Keys && forall k :: k in c.vals ==> r.vals[k] == c.vals[k] / sum
  {
    hide Score, Scored, Clipped, SumOver;
  }

  lemma WithinLimitsExactly(c: Weights, k: string)
    requires SumOver(c.keys, c.vals) > 0.0 && k in c.vals
    ensures var sum := SumOver(c.keys, c.vals);
            LEAST <= Divided(c, sum).vals[k] <= MOST <==> LEAST * sum <= c.vals[k] <= MOST * sum
  {
    hide SumOver;
    var sum, x := SumOver(c.keys, c.vals), c.vals[k];
    var q := x / sum;
    assert q * sum == x;
    if LEAST * sum <= x <= MOST * sum {
      NotNegativeFactor(q - LEAST, sum);
      NotNegativeFactor(MOST - q, sum);
    }
    if LEAST <= q <= MOST {
      ProductIsNonNegative(q - LEAST, sum);
      ProductIsNonNegative(MOST - q, sum);
    }
  }

  lemma {:induction false} SumsCompare(keys: seq<string>, a: map<string, real>, b: map<string, real>)
    requires forall i :: 0 <= i < |keys| ==> keys[i] in a && keys[i] in b && a[keys[i]] <= b[keys[i]]
    ensures SumOver(keys, a) <= SumOver(keys, b)
  {
    if keys != [] {
      SumsCompare(keys[..|keys| - 1], a, b);
    }
  }

  /** If clipping lowers the sum some share was cut to the greatest, and if it raises it some was raised to the least. */
  lemma ClippingShows(q: Weights, c: Weights)
    requires c.keys == q.keys && c.vals.Keys == q.vals.Keys && forall k :: k in q.vals ==> c.vals[k] == Clip(q.vals[k])
    ensures SumOver(c.keys, c.vals) < SumOver(q.keys, q.vals) ==> exists k :: k in c.vals && c.vals[k] == MOST
    ensures SumOver(c.keys, c.vals) > SumOver(q.keys, q.vals) ==> exists k :: k in c.vals && c.vals[k] == LEAST
  {
    hide SumOver;
    assert forall i :: 0 <= i < |q.keys| ==> q.keys[i] in q.keys;
    if forall k :: k in q.vals ==> c.vals[k] != MOST {
      SumsCompare(q.keys, q.vals, c.vals);
    }
    if forall k :: k in q.vals ==> c.vals[k] != LEAST {
      SumsCompare(q.keys, c.vals, q.vals);
    }
  }

  /** Clipped shares that sum to at least one before clipping keep the limits, once divided by their new sum, exactly
      when that is one, or is more and no share is too small for it. */
  lemma DividedKeepsLimitsExactly(q: Weights, c: Weights)
    requires c.keys == q.keys && c.vals.Keys == q.vals.Keys && forall k :: k in q.vals ==> c.vals[k] == Clip(q.vals[k])
    requires 1.0 <= SumOver(q.keys, q.vals) && SumOver(c.keys, c.vals) > 0.0
    ensures var sum := SumOver(c.keys, c.vals);
            && (Bounded(Divided(c, sum)) <==>
                sum == 1.0 || (1.0 < sum && forall k :: k in c.vals ==> LEAST * sum <= c.vals[k]))
            && (SumOver(q.keys, q.vals) == 1.0 ==> (Bounded(Divided(c, sum)) <==> sum == 1.0))
  {
    hide SumOver;
    var sum := SumOver(c.keys, c.vals);
    ClippingShows(q, c);
    forall k | k in c.vals
      ensures LEAST <= c.vals[k] / sum <= MOST <==> LEAST * sum <= c.vals[k] <= MOST * sum
    {
      WithinLimitsExactly(c, k);
    }
  }

  /** The shares of the total score, clipped: the weights before they are renormalised. */
  function ClippedShares(w: Weights, perf: Dict<string, Perf>): Weights
    requires TotalScore(perf, |perf.keys|) > 0.0
  {
    Clipped(Scored(w, perf, |perf.keys|), TotalScore(perf, |perf.keys|))
  }

  /**
    The new weights keep the limits they were clipped to exactly when the clipped shares sum to one, or to more with no
    share too small for that sum.  Old weights are never negative, so nor is what stale assets weigh.
  */
  lemma LimitsKeptExactly(w: Weights, perf: Dict<string, Perf>)
    requires TotalScore(perf, |perf.keys|) > 0.0 && Stale(w, perf, w.keys) >= 0.0
    ensures var c := ClippedShares(w, perf);
            var sum := SumOver(c.keys, c.vals);
            && (Bounded(NewWeights(w, perf)) <==>
                sum == 1.0 || (1.0 < sum && forall k :: k in c.vals ==> LEAST * sum <= c.vals[k]))
            && (Stale(w, perf, w.keys) == 0.0 ==> (Bounded(NewWeights(w, perf)) <==> sum == 1.0))
  {
    hide Score, Scored, SumOver, TotalScore, Stale, Bounded, Clip;
    var n := |perf.keys|;
    var scored, total := Scored(w, perf, n), TotalScore(perf, n);
    var q, c := Divided(scored, total), ClippedShares(w, perf);
    ScoredSum(w, perf);
    SharesSum(scored, total);
    DivMonotone(total, SumOver(scored.keys, scored.vals), total);
    SelfQuotient(total, total);
    ScoredNotEmpty(w, perf);
    ClippedIsBounded(scored, total);
    BoundedSum(c);
    DividedKeepsLimitsExactly(q, c);
  }

  lemma SharesSum(w: Weights, total: real)
    requires total != 0.0
    ensures var q := Divided(w, total);
            SumOver(q.keys, q.vals) == SumOver(w.keys, w.vals) / total
  {
    SumDivides(w.keys, w.vals, Divided(w, total).vals, total);
  }

  /** With no stale asset: exactly when what clipping cut off equals what it added. */
  lemma LimitsKeptExactlyWithoutStale(w: Weights, perf: Dict<string, Perf>)
    requires TotalScore(perf, |perf.keys|) > 0.0 && forall k :: k in w.vals ==> k in perf.vals
    ensures var c := ClippedShares(w, perf);
            Bounded(NewWeights(w, perf)) <==> SumOver(c.keys, c.vals) == 1.0
  {
    hide Score, Scored, SumOver, TotalScore, Stale, Bounded, Clip, NewWeights, ClippedShares;
    assert forall i :: 0 <= i < |w.keys| ==> w.keys[i] in w.keys;
    NothingStale(w, perf, w.keys);
    LimitsKeptExactly(w, perf);
  }

  lemma {:induction false} NothingStale(w: Weights, perf: Dict<string, Perf>, keys: seq<string>)
    requires forall i :: 0 <= i < |keys| ==> keys[i] in w.vals
    ensures (forall k :: k in w.vals ==> k in perf.vals) ==> Stale(w, perf, keys) == 0.0
    ensures (forall k :: k in w.vals ==> 0.0 <= w.vals[k]) ==> Stale(w, perf, keys) >= 0.0
  {
    if keys != [] {
      NothingStale(w, perf, keys[..|keys| - 1]);
    }
  }

  ghost predicate NonNegative(w: Weights) {
    forall k :: k in w.vals ==> 0.0 <= w.vals[k]
  }

  /** Weights that were not negative stay so, whatever the scores. */
  lemma WeightsStayNonNegative(w: Weights, perf: Dict<string, Perf>)
    requires NonNegative(w)
    ensures NonNegative(NewWeights(w, perf))
  {
    hide Score, Fair, Scored, TotalScore, SumOver;
    if TotalScore(perf, |perf.keys|) > 0.0 {
      forall k | k in NewWeights(w, perf).vals
        ensures 0.0 <= NewWeights(w, perf).vals[k]
      {
        PositiveWeight(w, perf, k);
      }
    } else {
      ScoredNonNegative(w, perf, |perf.keys|);
    }
  }

  lemma PositiveWeight(w: Weights, perf: Dict<string, Perf>, k: string)
    requires TotalScore(perf, |perf.keys|) > 0.0 && k in NewWeights(w, perf).vals
    ensures 0.0 < NewWeights(w, perf).vals[k]
  {
    hide Score, NewWeights, SumOver, TotalScore;
    WeightsAreFair(w, perf);
  }

  lemma {:induction false} ScoredNonNegative(w: Weights, perf: Dict<string, Perf>, n: nat)
    requires n <= |perf.keys| && NonNegative(w)
    ensures NonNegative(Scored(w, perf, n))
  {
    hide *;
    if n == 0 {
      NothingScoredYet(w, perf);
    } else {
      ScoredNonNegative(w, perf, n - 1);
      OneMoreScored(w, perf, n - 1);
      KeyIsScored(perf, n - 1);
      FlooredIsMax(Score(perf.vals[perf.keys[n - 1]]));
      PutNonNegative(Scored(w, perf, n - 1), perf.keys[n - 1], Max(0.0, Score(perf.vals[perf.keys[n - 1]])));
    }
  }

  lemma FlooredIsMax(x: real)
    ensures Max(0.0, x) == if 0.0 < x then x else 0.0
  {
  }

  lemma PutNonNegative(w: Weights, key: string, weight: real)
    requires NonNegative(w) && 0.0 <= weight
    ensures NonNegative(Put(w, key, weight))
  {
  }

  // ---------- what a score is worth ----------

  /** A point of the Sharpe ratio is worth 0.35, of the win rate 0.25, of the profit factor and the risk-reward ratio 0.2
      each; together they make one. */
  lemma ScoreWeighs(p: Perf, d: real)
    ensures Score(p.(sharpe := p.sharpe + d)) == Score(p) + 0.35 * d
    ensures Score(p.(winRate := p.winRate + d)) == Score(p) + 0.25 * d
    ensures Score(p.(profitFactor := p.profitFactor + d)) == Score(p) + 0.2 * d
    ensures Score(p.(riskReward := p.riskReward + d)) == Score(p) + 0.2 * d
    ensures Score(Perf(d, d, d, d)) == d
  {
  }

  /** An asset's part of the total score; a stale one keeps its old weight in place of a score. */
  function PartOf(w: Weights, perf: Dict<string, Perf>, k: string): real
    requires TotalScore(perf, |perf.keys|) > 0.0 && (k in w.vals || k in perf.vals)
  {
    (if k !in perf.vals then w.vals[k] else if Score(perf.vals[k]) > 0.0 then Score(perf.vals[k]) else 0.0)
    / TotalScore(perf, |perf.keys|)
  }

  function Clamped(x: real): real {
    if x < 0.01 then 0.01 else if x > 0.25 then 0.25 else x
  }

  lemma ClippedAt(w: Weights, total: real, k: string)
    requires total != 0.0
    ensures var c := Clipped(w, total);
            (k in c.vals <==> k in w.vals) && (k in c.vals ==> c.vals[k] == Clamped(w.vals[k] / total))
  {
  }

  lemma ClippedSharesAreBounded(w: Weights, perf: Dict<string, Perf>)
    requires TotalScore(perf, |perf.keys|) > 0.0
    ensures var c := ClippedShares(w, perf);
            && c == Clipped(Scored(w, perf, |perf.keys|), TotalScore(perf, |perf.keys|))
            && SumOver(c.keys, c.vals) > 0.0
  {
    hide Score, Scored, TotalScore, SumOver, Bounded, Clip;
    var scored, total := Scored(w, perf, |perf.keys|), TotalScore(perf, |perf.keys|);
    ScoredNotEmpty(w, perf);
    ClippedIsBounded(scored, total);
    ClippedKeys(scored, total);
    BoundedSum(ClippedShares(w, perf));
  }

  function ClippedSum(w: Weights, perf: Dict<string, Perf>): real
    requires TotalScore(perf, |perf.keys|) > 0.0
  {
    var c := ClippedShares(w, perf);
    SumOver(c.keys, c.vals)
  }

  lemma ClippedPart(w: Weights, perf: Dict<string, Perf>, k: string)
    requires TotalScore(perf, |perf.keys|) > 0.0 && k in NewWeights(w, perf).vals
    ensures k in w.vals || k in perf.vals
    ensures ClippedSum(w, perf) > 0.0
    ensures NewWeights(w, perf).vals[k] == Clamped(PartOf(w, perf, k)) / ClippedSum(w, perf)
  {
    hide Score, Scored, TotalScore, SumOver, NewWeights, Clipped, ClippedShares, Clamped;
    var scored, total := Scored(w, perf, |perf.keys|), TotalScore(perf, |perf.keys|);
    ClippedSharesAreBounded(w, perf);
    NewWeightsAreDivided(w, perf, ClippedShares(w, perf));
    ClippedAt(scored, total, k);
    ScoredValue(w, perf, k);
  }

  lemma ScoredValue(w: Weights, perf: Dict<string, Perf>, k: string)
    requires k in Scored(w, perf, |perf.keys|).vals
    ensures k in w.vals || k in perf.vals
    ensures Scored(w, perf, |perf.keys|).vals[k] ==
            if k !in perf.vals then w.vals[k] else if Score(perf.vals[k]) > 0.0 then Score(perf.vals[k]) else 0.0
  {
    hide Score, Scored;
    var n := |perf.keys|;
    if k in perf.vals {
      assert k in perf.keys;
      var i: nat :| i < n && perf.keys[i] == k;
      ScoredNew(w, perf, n, i);
      FlooredIsMax(Score(perf.vals[k]));
    } else {
      NotScoredIsOld(w, perf, k);
      ScoredOld(w, perf, n, k);
    }
  }

  /**
    The new weights stand to each other as the assets' parts of the total score, each put between 0.01 and 0.25; as they
    sum to one, that says what they are.
  */
  lemma WeightsAreProportional(w: Weights, perf: Dict<string, Perf>, j: string, k: string)
    requires TotalScore(perf, |perf.keys|) > 0.0
    requires j in NewWeights(w, perf).vals && k in NewWeights(w, perf).vals
    ensures (j in w.vals || j in perf.vals) && (k in w.vals || k in perf.vals)
    ensures var r := NewWeights(w, perf).vals;
            r[j] * Clamped(PartOf(w, perf, k)) == r[k] * Clamped(PartOf(w, perf, j))
  {
    hide *;
    ClippedPart(w, perf, j);
    ClippedPart(w, perf, k);
    CrossQuotients(Clamped(PartOf(w, perf, j)), Clamped(PartOf(w, perf, k)), ClippedSum(w, perf));
  }

  lemma CrossQuotients(x: real, y: real, s: real)
    requires s != 0.0
    ensures x / s * y == y / s * x
  {
    assert x / s * s == x && y / s * s == y;
  }

  /** A position is sized by the asset's weight over the average, an unknown asset's counting as 0.05; by one where
      there is no average. */
  lemma MultiplierExactly(w: Weights, symbol: string)
    ensures var average := if w.keys == [] then 0.0 else SumOver(w.keys, w.vals) / |w.keys| as real;
            if average == 0.0 then Multiplier(w, symbol) == 1.0
            else Multiplier(w, symbol) * average == if symbol in w.vals then w.vals[symbol] else 0.05
  {
    hide SumOver;
  }

  // ---------- the bounds are reached ----------

  lemma {:induction false} SumOfEqual(keys: seq<string>, vals: map<string, real>, v: real)
    requires forall i :: 0 <= i < |keys| ==> keys[i] in vals && vals[keys[i]] == v
    ensures SumOver(keys, vals) == v * |keys| as real
  {
    if keys != [] {
      SumOfEqual(keys[..|keys| - 1], vals, v);
      OneMoreTimes(v, |keys| - 1);
    }
  }

  lemma SumOfOld(w: Weights, vals: map<string, real>, v: real)
    requires forall k :: k in w.vals ==> k in vals && vals[k] == v
    ensures (forall i :: 0 <= i < |w.keys| ==> w.keys[i] in vals) && SumOver(w.keys, vals) == v * |w.keys| as real
  {
    hide SumOver;
    assert forall i :: 0 <= i < |w.keys| ==> w.keys[i] in w.keys;
    SumOfEqual(w.keys, vals, v);
  }

  lemma SumBesideOne(w: Weights, c: Weights, a: string, v: real)
    requires c.keys == w.keys + [a] && a in c.vals && forall k :: k in w.vals ==> k in c.vals && c.vals[k] == v
    ensures SumOver(c.keys, c.vals) == v * |w.keys| as real + c.vals[a]
  {
    hide *;
    SumOfOld(w, c.vals, v);
    SumAppend(w.keys, c.vals, a);
  }

  lemma SumBesideTwo(w: Weights, c: Weights, a: string, b: string, v: real)
    requires c.keys == w.keys + [a] + [b] && a in c.vals && c.vals[a] == v && b in c.vals
    requires forall k :: k in w.vals ==> k in c.vals && c.vals[k] == v
    ensures SumOver(c.keys, c.vals) == v * (|w.keys| + 1) as real + c.vals[b]
  {
    hide *;
    SumOfOld(w, c.vals, v);
    SumAppend(w.keys, c.vals, a);
    SumAppend(w.keys + [a], c.vals, b);
    OneMoreTimes(v, |w.keys|);
  }

  lemma NextScored(w: Weights, perf: Dict<string, Perf>, i: nat, a: string)
    requires i < |perf.keys| && perf.keys[i] == a
    ensures a in perf.vals
    ensures var s := Score(perf.vals[a]);
            var x := if 0.0 < s then s else 0.0;
            && Scored(w, perf, i + 1) == Put(Scored(w, perf, i), a, x)
            && TotalScore(perf, i + 1) == TotalScore(perf, i) + x
  {
    hide *;
    KeyIsScored(perf, i);
    OneMoreScored(w, perf, i);
    FlooredIsMax(Score(perf.vals[a]));
  }

  lemma OneScored(w: Weights, perf: Dict<string, Perf>, a: string)
    requires perf.keys == [a] && Score(perf.vals[a]) > 0.0
    ensures TotalScore(perf, 1) == Score(perf.vals[a]) && Scored(w, perf, 1) == Put(w, a, Score(perf.vals[a]))
  {
    hide *;
    NothingScoredYet(w, perf);
    NextScored(w, perf, 0, a);
  }

  lemma TwoScored(w: Weights, perf: Dict<string, Perf>, a: string, b: string)
    requires perf.keys == [a, b] && Score(perf.vals[a]) == 1.0 && Score(perf.vals[b]) <= 0.0
    ensures TotalScore(perf, 2) == 1.0 && Scored(w, perf, 2) == Put(Put(w, a, 1.0), b, 0.0)
  {
    hide *;
    NothingScoredYet(w, perf);
    NextScored(w, perf, 0, a);
    NextScored(w, perf, 1, b);
  }

  /** A clipped weight, once divided by the clipped sum. */
  lemma ShareOfClipped(w: Weights, perf: Dict<string, Perf>, c: Weights, k: string, sum: real)
    requires TotalScore(perf, |perf.keys|) > 0.0 && k in c.vals && SumOver(c.keys, c.vals) == sum > 0.0
    requires c == Clipped(Scored(w, perf, |perf.keys|), TotalScore(perf, |perf.keys|))
    ensures var r := NewWeights(w, perf);
            r.keys == c.keys && k in r.vals && r.vals[k] == c.vals[k] / sum
  {
    hide *;
    NewWeightsAreDivided(w, perf, c);
  }

  lemma LeastBesideOne(w: Weights, a: string, x: real)
    requires a !in w.vals && x > 0.0 && forall k :: k in w.vals ==> w.vals[k] == 0.0
    ensures var c := Clipped(Put(w, a, x), x);
            && c.keys == w.keys + [a] && a in c.vals && c.vals[a] == MOST
            && forall k :: k in w.vals ==> k in c.vals && c.vals[k] == LEAST
  {
    SelfQuotient(x, x);
    ZeroQuotient(x);
  }

  /** One asset scored beside any number of stale ones of weight zero gets the greatest share. */
  lemma MostShareIsReached(w: Weights, perf: Dict<string, Perf>, a: string)
    requires perf.keys == [a] && Score(perf.vals[a]) > 0.0
    requires a !in w.vals && forall k :: k in w.vals ==> w.vals[k] == 0.0
    ensures var r := NewWeights(w, perf);
            |r.keys| == |w.keys| + 1 && a in r.vals && r.vals[a] == MostShare(|w.keys| as real)
  {
    hide *;
    KeyIsScored(perf, 0);
    var x := Score(perf.vals[a]);
    OneScored(w, perf, a);
    LeastBesideOne(w, a, x);
    SumBesideOne(w, Clipped(Put(w, a, x), x), a, LEAST);
    MostQuotient(|w.keys| as real);
    ShareOfClipped(w, perf, Clipped(Put(w, a, x), x), a, LEAST * |w.keys| as real + MOST);
  }

  lemma ZeroQuotient(x: real)
    requires x != 0.0
    ensures 0.0 / x == 0.0
  {
  }

  lemma MostQuotient(others: real)
    requires 0.0 <= others
    ensures LEAST * others + MOST > 0.0 && MOST / (LEAST * others + MOST) == MostShare(others)
  {
    ProductIsNonNegative(LEAST, others);
    assert LEAST * others + MOST == MOST + LEAST * others;
  }

  lemma MostButOne(w: Weights, a: string, b: string)
    requires a != b && a !in w.vals && b !in w.vals && forall k :: k in w.vals ==> w.vals[k] == 1.0
    ensures var c := Clipped(Put(Put(w, a, 1.0), b, 0.0), 1.0);
            && c.keys == w.keys + [a] + [b] && b in c.vals && c.vals[b] == LEAST && a in c.vals && c.vals[a] == MOST
            && forall k :: k in w.vals ==> k in c.vals && c.vals[k] == MOST
  {
  }

  /** One of no score beside one of score one and any number of stale ones of weight one gets the least. */
  lemma LeastShareIsReached(w: Weights, perf: Dict<string, Perf>, a: string, b: string)
    requires perf.keys == [a, b] && Score(perf.vals[a]) == 1.0 && Score(perf.vals[b]) <= 0.0
    requires a !in w.vals && b !in w.vals && forall k :: k in w.vals ==> w.vals[k] == 1.0
    ensures var r := NewWeights(w, perf);
            |r.keys| == |w.keys| + 2 && b in r.vals && r.vals[b] == LeastShare((|w.keys| + 1) as real)
  {
    hide *;
    TwoScored(w, perf, a, b);
    KeysDiffer(perf, 0, 1);
    MostButOne(w, a, b);
    SumBesideTwo(w, Clipped(Put(Put(w, a, 1.0), b, 0.0), 1.0), a, b, MOST);
    LeastQuotient((|w.keys| + 1) as real);
    ShareOfClipped(w, perf, Clipped(Put(Put(w, a, 1.0), b, 0.0), 1.0), b, MOST * (|w.keys| + 1) as real + LEAST);
  }

  lemma LeastQuotient(others: real)
    requires 0.0 <= others
    ensures MOST * others + LEAST > 0.0 && LEAST / (MOST * others + LEAST) == LeastShare(others)
  {
    ProductIsNonNegative(MOST, others);
    assert MOST * others + LEAST == LEAST + MOST * others;
  }

  /** With fewer than four assets some weight always exceeds the greatest allowed. */
  lemma FewAssetsExceedTheMost(w: Weights, perf: Dict<string, Perf>)
    ensures TotalScore(perf, |perf.keys|) > 0.0 && |NewWeights(w, perf).keys| < 4 ==>
              exists k :: k in NewWeights(w, perf).vals && NewWeights(w, perf).vals[k] > 0.25
  {
    hide *;
    if TotalScore(perf, |perf.keys|) > 0.0 && |NewWeights(w, perf).keys| < 4 {
      WeightsAreFair(w, perf);
      FairSumsToOne(NewWeights(w, perf), perf);
      FewSmallWeights(NewWeights(w, perf));
    }
  }

  lemma FewSmallWeights(w: Weights)
    requires |w.keys| < 4
    ensures (forall k :: k in w.vals ==> w.vals[k] <= 0.25) ==> SumOver(w.keys, w.vals) < 1.0
  {
    hide SumOver;
    if forall k :: k in w.vals ==> w.vals[k] <= 0.25 {
      assert forall j :: 0 <= j < |w.keys| ==> w.keys[j] in w.keys;
      SumAtMost(w.keys, w.vals, 0.25);
    }
  }

  // ---------- the object ----------

  class DynamicAssetAllocation {
    var assetWeights: Weights

    constructor ()
      ensures assetWeights == Empty()
    {
      assetWeights := Empty();
    }

    method ScoreAssets(perf: Dict<string, Perf>) returns (total: real)
      modifies this
      ensures assetWeights == Scored(old(assetWeights), perf, |perf.keys|)
      ensures total == TotalScore(perf, |perf.keys|)
    {
      hide Score, Scored, TotalScore;
      ghost var w := assetWeights;
      NothingScoredYet(w, perf);
      total := 0.0;
      for i := 0 to |perf.keys|
        invariant assetWeights == Scored(w, perf, i)
        invariant total == TotalScore(perf, i)
      {
        OneMoreScored(w, perf, i);
        var asset := perf.keys[i];
        var weight := Max(0.0, Score(perf.vals[asset]));
        assetWeights := Put(assetWeights, asset, weight);
        total := total + weight;
      }
    }

    /** Divides every weight by the total and clips it. */
    method ClipAll(total: real)
      requires total != 0.0
      modifies this
      ensures assetWeights == Clipped(old(assetWeights), total)
    {
      hide Clip;
      ghost var w := assetWeights;
      for i := 0 to |assetWeights.keys|
        invariant assetWeights.keys == w.keys
        invariant forall j :: 0 <= j < |w.keys| ==>
          assetWeights.vals[w.keys[j]] == if j < i then Clip(w.vals[w.keys[j]] / total) else w.vals[w.keys[j]]
      {
        var asset := assetWeights.keys[i];
        assetWeights := Put(assetWeights, asset, Clip(assetWeights.vals[asset] / total));
      }
      assert assetWeights.vals == Clipped(w, total).vals;
    }

    method DivideAll(total: real)
      requires total != 0.0
      modifies this
      ensures assetWeights == Divided(old(assetWeights), total)
    {
      ghost var w := assetWeights;
      for i := 0 to |assetWeights.keys|
        invariant assetWeights.keys == w.keys
        invariant forall j :: 0 <= j < |w.keys| ==>
          assetWeights.vals[w.keys[j]] == if j < i then w.vals[w.keys[j]] / total else w.vals[w.keys[j]]
      {
        var asset := assetWeights.keys[i];
        assetWeights := Put(assetWeights, asset, assetWeights.vals[asset] / total);
      }
      assert assetWeights.vals == Divided(w, total).vals;
    }

    method CalculateWeights(perf: Dict<string, Perf>)
      modifies this
      ensures assetWeights == NewWeights(old(assetWeights), perf)
      ensures TotalScore(perf, |perf.keys|) > 0.0 ==> Fair(assetWeights, perf)
      ensures NonNegative(old(assetWeights)) ==> NonNegative(assetWeights)
    {
      hide Score, Fair, NonNegative;
      if NonNegative(assetWeights) {
        WeightsStayNonNegative(assetWeights, perf);
      }
      if TotalScore(perf, |perf.keys|) > 0.0 {
        WeightsAreFair(assetWeights, perf);
      }
      var totalScore := ScoreAssets(perf);
      if totalScore > 0.0 {
        ClipAll(totalScore);
        var total := SumOver(assetWeights.keys, assetWeights.vals);
        if total > 0.0 {
          DivideAll(total);
        }
      }
    }

    method GetPositionSizeMultiplier(symbol: string) returns (m: real)
      ensures m == Multiplier(assetWeights, symbol)
    {
      var weight := if symbol in assetWeights.vals then assetWeights.vals[symbol] else 0.05;
      if assetWeights.keys == [] {
        return 1.0;
      }
      var average := SumOver(assetWeights.keys, assetWeights.vals) / |assetWeights.keys| as real;
      if average == 0.0 {
        return 1.0;
      }
      return weight / average;
    }
  }
}

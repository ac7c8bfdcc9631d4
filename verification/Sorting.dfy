/** Python's `sorted` on numbers, and the ranges it keeps a list within. */
module Sorting {

  function Insert(s: seq<real>, x: real): seq<real> {
    if s == [] || x < s[0] then [x] + s else [s[0]] + Insert(s[1..], x)
  }

  function Sorted(s: seq<real>): (r: seq<real>)
    ensures |r| == |s|
  {
    if s == [] then []
    else
      InsertLength(Sorted(s[..|s| - 1]), s[|s| - 1]);
      Insert(Sorted(s[..|s| - 1]), s[|s| - 1])
  }

  lemma InsertLength(s: seq<real>, x: real)
    ensures |Insert(s, x)| == |s| + 1
  {
  }

  predicate Ascending(s: seq<real>) {
    forall i, j :: 0 <= i < j < |s| ==> s[i] <= s[j]
  }

  predicate Strict(s: seq<real>) {
    forall i, j :: 0 <= i < j < |s| ==> s[i] < s[j]
  }

  predicate Distinct(s: seq<real>) {
    forall i, j :: 0 <= i < j < |s| ==> s[i] != s[j]
  }

  // ---------- what sorting does ----------

  lemma {:induction false} InsertAdds(s: seq<real>, x: real)
    ensures multiset(Insert(s, x)) == multiset(s) + multiset{x}
  {
    if s != [] {
      InsertAdds(s[1..], x);
      assert s == [s[0]] + s[1..];
    }
  }

  lemma {:induction false} InsertSorts(s: seq<real>, x: real)
    requires Ascending(s)
    ensures Ascending(Insert(s, x))
  {
    if s != [] && s[0] <= x {
      InsertSorts(s[1..], x);
      InsertAdds(s[1..], x);
      var rest := Insert(s[1..], x);
      forall i | 0 <= i < |rest|
        ensures s[0] <= rest[i]
      {
        assert rest[i] in multiset(rest);
        assert rest[i] == x || rest[i] in s[1..];
      }
    }
  }

  /** The result is in order and holds the same numbers, each as often. */
  lemma {:induction false} SortedSorts(s: seq<real>)
    ensures Ascending(Sorted(s)) && multiset(Sorted(s)) == multiset(s)
  {
    if s != [] {
      var n := |s| - 1;
      SortedSorts(s[..n]);
      InsertSorts(Sorted(s[..n]), s[n]);
      InsertAdds(Sorted(s[..n]), s[n]);
      assert s == s[..n] + [s[n]];
    }
  }

  lemma {:induction false} InsertLargest(s: seq<real>, x: real)
    requires forall i :: 0 <= i < |s| ==> s[i] <= x
    ensures Insert(s, x) == s + [x]
  {
    if s != [] {
      InsertLargest(s[1..], x);
    }
  }

  lemma {:induction false} SortedOfAscending(s: seq<real>)
    requires Ascending(s)
    ensures Sorted(s) == s
  {
    if s != [] {
      var n := |s| - 1;
      SortedOfAscending(s[..n]);
      InsertLargest(s[..n], s[n]);
    }
  }

  lemma {:induction false} OnceEach(s: seq<real>)
    ensures Distinct(s) <==> forall x :: multiset(s)[x] <= 1
  {
    if s != [] {
      var n := |s| - 1;
      OnceEach(s[..n]);
      assert s == s[..n] + [s[n]];
      assert multiset(s) == multiset(s[..n]) + multiset{s[n]};
      if Distinct(s[..n]) {
        assert s[n] in s[..n] <==> multiset(s)[s[n]] > 1;
        assert s[n] in s[..n] <==> exists i :: 0 <= i < n && s[i] == s[n];
      } else {
        var x :| multiset(s[..n])[x] > 1;
        assert multiset(s)[x] > 1;
      }
    }
  }

  /** Sorting leaves neighbours strictly in order exactly when no number occurs twice. */
  lemma StrictExactlyIfDistinct(s: seq<real>)
    ensures Strict(Sorted(s)) <==> Distinct(s)
  {
    SortedSorts(s);
    OnceEach(s);
    OnceEach(Sorted(s));
    var r := Sorted(s);
    assert Distinct(s) <==> Distinct(r);
    hide Sorted;
    assert Strict(r) <==> Distinct(r);
  }

  // ---------- ranges ----------

  predicate AllAtLeast(s: seq<real>, low: seq<real>) {
    |s| == |low| && forall i :: 0 <= i < |s| ==> low[i] <= s[i]
  }

  predicate AllAtMost(s: seq<real>, high: seq<real>) {
    |s| == |high| && forall i :: 0 <= i < |s| ==> s[i] <= high[i]
  }

  lemma {:induction false} InsertKeepsLow(s: seq<real>, x: real, low: seq<real>)
    requires |low| == |s| + 1 && Ascending(s) && Ascending(low) && AllAtLeast(s, low[..|s|]) && low[|s|] <= x
    ensures AllAtLeast(Insert(s, x), low)
  {
    if s != [] && s[0] <= x {
      InsertKeepsLow(s[1..], x, low[1..]);
    }
  }

  lemma {:induction false} InsertKeepsHigh(s: seq<real>, x: real, high: seq<real>)
    requires |high| == |s| + 1 && Ascending(high) && AllAtMost(s, high[..|s|]) && x <= high[|s|]
    ensures AllAtMost(Insert(s, x), high)
  {
    if s != [] && s[0] <= x {
      InsertKeepsHigh(s[1..], x, high[1..]);
    }
  }

  lemma {:induction false} SortedKeepsRanges(s: seq<real>, low: seq<real>, high: seq<real>)
    requires Ascending(low) && Ascending(high) && AllAtLeast(s, low) && AllAtMost(s, high)
    ensures AllAtLeast(Sorted(s), low) && AllAtMost(Sorted(s), high)
  {
    if s != [] {
      var n := |s| - 1;
      SortedKeepsRanges(s[..n], low[..n], high[..n]);
      SortedSorts(s[..n]);
      InsertKeepsLow(Sorted(s[..n]), s[n], low);
      InsertKeepsHigh(Sorted(s[..n]), s[n], high);
    }
  }

  function Total(s: seq<real>): real {
    if s == [] then 0.0 else s[0] + Total(s[1..])
  }

  lemma {:induction false} InsertKeepsTotal(s: seq<real>, x: real)
    ensures Total(Insert(s, x)) == Total(s) + x
  {
    if s == [] {
    } else if x < s[0] {
      assert ([x] + s)[1..] == s;
    } else {
      InsertKeepsTotal(s[1..], x);
      assert ([s[0]] + Insert(s[1..], x))[1..] == Insert(s[1..], x);
    }
  }

  lemma {:induction false} TotalGrows(s: seq<real>, x: real)
    ensures Total(s + [x]) == Total(s) + x
  {
    if s == [] {
      assert Total([x]) == x + Total([]);
    } else {
      TotalGrows(s[1..], x);
      assert (s + [x])[1..] == s[1..] + [x];
    }
  }

  lemma {:induction false} SortedKeepsTotal(s: seq<real>)
    ensures Total(Sorted(s)) == Total(s)
  {
    if s != [] {
      var n := |s| - 1;
      SortedKeepsTotal(s[..n]);
      InsertKeepsTotal(Sorted(s[..n]), s[n]);
      TotalGrows(s[..n], s[n]);
      assert s == s[..n] + [s[n]];
    }
  }

  lemma {:induction false} AtLeastWithSameTotal(s: seq<real>, low: seq<real>)
    requires AllAtLeast(s, low)
    ensures Total(low) <= Total(s) && (Total(s) == Total(low) ==> s == low)
  {
    if s != [] {
      assert forall i :: 0 <= i < |s| - 1 ==> low[1..][i] <= s[1..][i];
      AtLeastWithSameTotal(s[1..], low[1..]);
      assert s == [s[0]] + s[1..] && low == [low[0]] + low[1..];
    }
  }

  /** A list that stays, once sorted, at or above (at or below) itself is in order. */
  lemma OwnBoundsAreAscending(s: seq<real>)
    ensures AllAtLeast(Sorted(s), s) || AllAtMost(Sorted(s), s) ==> Ascending(s)
  {
    SortedSorts(s);
    SortedKeepsTotal(s);
    if AllAtLeast(Sorted(s), s) {
      AtLeastWithSameTotal(Sorted(s), s);
    } else if AllAtMost(Sorted(s), s) {
      assert AllAtLeast(s, Sorted(s));
      AtLeastWithSameTotal(s, Sorted(s));
    }
  }
}

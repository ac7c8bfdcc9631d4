/** The extremes and the end of a list. */
module Lists {
  import opened Rounding

  function Lowest(s: seq<real>): real
    requires s != []
  {
    if |s| == 1 then s[0] else Min(Lowest(s[..|s| - 1]), s[|s| - 1])
  }

  function Highest(s: seq<real>): real
    requires s != []
  {
    if |s| == 1 then s[0] else Max(Highest(s[..|s| - 1]), s[|s| - 1])
  }

  lemma {:induction false} LowestIsLowest(s: seq<real>)
    requires s != []
    ensures Lowest(s) in s && forall k :: 0 <= k < |s| ==> Lowest(s) <= s[k]
  {
    if |s| > 1 {
      LowestIsLowest(s[..|s| - 1]);
    }
  }

  lemma {:induction false} HighestIsHighest(s: seq<real>)
    requires s != []
    ensures Highest(s) in s && forall k :: 0 <= k < |s| ==> s[k] <= Highest(s)
  {
    if |s| > 1 {
      HighestIsHighest(s[..|s| - 1]);
    }
  }

  /** The last elements of a list, at most `most` of them. */
  function LastOf<T>(s: seq<T>, most: nat): seq<T> {
    if |s| <= most then s else s[|s| - most..]
  }
}

/**
  The sliding-window rate limiter (backend/config/middleware.py).  It keeps one list of admission times a client and
  prunes it on every request; `Admitted` is the log it would keep if it never pruned.
*/
module RateLimit {

  datatype Request = Request(client: string, authenticated: bool, at: real)

  const WINDOW := 60.0

  function Limit(authenticated: bool): nat {
    if authenticated then 1000 else 100
  }

  /** The times less than a window before `now`, in order. */
  function Recent(times: seq<real>, now: real): seq<real> {
    if times == [] then []
    else
      var t := times[|times| - 1];
      Recent(times[..|times| - 1], now) + if now - t < WINDOW then [t] else []
  }

  /** The times at which the client's requests were let through, judged on the whole log. */
  function Admitted(reqs: seq<Request>, client: string): seq<real> {
    if reqs == [] then []
    else
      var front, r := reqs[..|reqs| - 1], reqs[|reqs| - 1];
      if r.client == client && Admits(front, r) then Admitted(front, client) + [r.at] else Admitted(front, client)
  }

  /** The full-history rule: fewer than the limit were let through in the last window. */
  predicate Admits(reqs: seq<Request>, r: Request) {
    |Recent(Admitted(reqs, r.client), r.at)| < Limit(r.authenticated)
  }

  ghost predicate Timely(reqs: seq<Request>) {
    forall i, j :: 0 <= i <= j < |reqs| ==> reqs[i].at <= reqs[j].at
  }

  // ---------- pruning is harmless ----------

  lemma {:induction false} PruningTwice(times: seq<real>, a: real, b: real)
    requires a <= b
    ensures Recent(Recent(times, a), b) == Recent(times, b)
  {
    if times != [] {
      var front, t := times[..|times| - 1], times[|times| - 1];
      PruningTwice(front, a, b);
      if a - t < WINDOW {
        assert (Recent(front, a) + [t])[..|Recent(front, a)|] == Recent(front, a);
      } else {
        assert Recent(times, a) == Recent(front, a);
      }
    }
  }

  lemma KeepingTheNewest(times: seq<real>, now: real)
    ensures Recent(times + [now], now) == Recent(times, now) + [now]
  {
    assert (times + [now])[..|times|] == times;
  }

  /** The time of the client's latest request. */
  function LastSeen(reqs: seq<Request>, client: string): real {
    if reqs == [] then 0.0
    else if reqs[|reqs| - 1].client == client then reqs[|reqs| - 1].at
    else LastSeen(reqs[..|reqs| - 1], client)
  }

  lemma {:induction false} LastSeenIsPast(reqs: seq<Request>, client: string, now: real)
    requires exists i :: 0 <= i < |reqs| && reqs[i].client == client
    requires forall i :: 0 <= i < |reqs| ==> reqs[i].at <= now
    ensures LastSeen(reqs, client) <= now
  {
    if reqs[|reqs| - 1].client != client {
      var front := reqs[..|reqs| - 1];
      var i :| 0 <= i < |reqs| && reqs[i].client == client;
      assert front[i].client == client;
      LastSeenIsPast(front, client, now);
    }
  }

  // ---------- what the limiter guarantees ----------

  /** How many of the times lie in the half-open window that starts at x. */
  function InWindow(times: seq<real>, x: real): nat {
    if times == [] then 0
    else InWindow(times[..|times| - 1], x) + if x <= times[|times| - 1] < x + WINDOW then 1 else 0
  }

  lemma {:induction false} WindowWithinRecent(times: seq<real>, x: real, now: real)
    requires x <= now < x + WINDOW
    ensures InWindow(times, x) <= |Recent(times, now)|
  {
    if times != [] {
      WindowWithinRecent(times[..|times| - 1], x, now);
    }
  }

  /** No window of 60 seconds, wherever it starts, holds more admissions than the largest limit the client has. */
  lemma {:induction false} WindowBound(reqs: seq<Request>, client: string, x: real, most: nat)
    requires forall i :: 0 <= i < |reqs| && reqs[i].client == client ==> Limit(reqs[i].authenticated) <= most
    ensures InWindow(Admitted(reqs, client), x) <= most
  {
    if reqs != [] {
      var front, r := reqs[..|reqs| - 1], reqs[|reqs| - 1];
      WindowBound(front, client, x, most);
      var before := Admitted(front, client);
      if r.client == client && Admits(front, r) {
        assert (before + [r.at])[..|before|] == before;
        if x <= r.at < x + WINDOW {
          WindowWithinRecent(before, x, r.at);
        }
      }
    }
  }

  /** At most 1000 in any window, and at most 100 for a client that never authenticates. */
  lemma WindowBounds(reqs: seq<Request>, client: string, x: real)
    ensures InWindow(Admitted(reqs, client), x) <= 1000
    ensures (forall i :: 0 <= i < |reqs| && reqs[i].client == client ==> !reqs[i].authenticated)
            ==> InWindow(Admitted(reqs, client), x) <= 100
  {
    WindowBound(reqs, client, x, 1000);
    if forall i :: 0 <= i < |reqs| && reqs[i].client == client ==> !reqs[i].authenticated {
      WindowBound(reqs, client, x, 100);
    }
  }

  /** The admissions less than 60 seconds before `now`, by their places in the log. */
  ghost function LastMinute(times: seq<real>, now: real): set<nat> {
    set i: nat | i < |times| && times[i] > now - 60.0
  }

  lemma {:induction false} RecentIsLastMinute(times: seq<real>, now: real)
    ensures |Recent(times, now)| == |LastMinute(times, now)|
  {
    if times == [] {
      assert LastMinute(times, now) == {};
    } else {
      var n := |times| - 1;
      RecentIsLastMinute(times[..n], now);
      LastMinuteGrows(times, now);
      hide LastMinute;
    }
  }

  lemma LastMinuteGrows(times: seq<real>, now: real)
    requires times != []
    ensures var n := |times| - 1;
            && n !in LastMinute(times[..n], now)
            && LastMinute(times, now) == LastMinute(times[..n], now) + if times[n] > now - 60.0 then {n} else {}
  {
  }

  /** A request passes exactly if fewer than 1000 of its client's, or 100 if it is anonymous, passed in the last
      minute. */
  lemma AdmitsExactly(reqs: seq<Request>, r: Request)
    ensures Admits(reqs, r) <==>
            |LastMinute(Admitted(reqs, r.client), r.at)| < if r.authenticated then 1000 else 100
  {
    hide Recent, Admitted, LastMinute;
    RecentIsLastMinute(Admitted(reqs, r.client), r.at);
  }

  // ---------- longer spans ----------

  /** How many of the times lie in the half-open span of m windows that starts at x. */
  function InSpan(times: seq<real>, x: real, m: nat): nat {
    if times == [] then 0
    else InSpan(times[..|times| - 1], x, m) + if x <= times[|times| - 1] < x + WINDOW * m as real then 1 else 0
  }

  lemma {:induction false} NoSpan(times: seq<real>, x: real)
    ensures InSpan(times, x, 0) == 0
  {
    if times != [] {
      NoSpan(times[..|times| - 1], x);
    }
  }

  lemma {:induction false} SpanGrows(times: seq<real>, x: real, m: nat)
    ensures InSpan(times, x, m + 1) == InSpan(times, x, m) + InWindow(times, x + WINDOW * m as real)
  {
    assert WINDOW * (m + 1) as real == WINDOW * m as real + WINDOW;
    if times != [] {
      SpanGrows(times[..|times| - 1], x, m);
    }
  }

  /** A span of m windows holds at most m times the largest limit: an hour 60 times, not once. */
  lemma {:induction false} SpanBound(reqs: seq<Request>, client: string, x: real, m: nat, most: nat)
    requires forall i :: 0 <= i < |reqs| && reqs[i].client == client ==> Limit(reqs[i].authenticated) <= most
    ensures InSpan(Admitted(reqs, client), x, m) <= m * most
    decreases m
  {
    var times := Admitted(reqs, client);
    if m == 0 {
      NoSpan(times, x);
    } else {
      SpanBound(reqs, client, x, m - 1, most);
      SpanGrows(times, x, m - 1);
      WindowBound(reqs, client, x + WINDOW * (m - 1) as real, most);
      assert m * most == (m - 1) * most + most;
    }
  }

  /** n more requests of an authenticated client, all at one time. */
  function Burst(reqs: seq<Request>, client: string, at: real, n: nat): seq<Request> {
    if n == 0 then reqs else Burst(reqs, client, at, n - 1) + [Request(client, true, at)]
  }

  /** A full burst at the start of each of m windows. */
  function Bursts(client: string, m: nat): seq<Request> {
    if m == 0 then [] else Burst(Bursts(client, m - 1), client, WINDOW * (m - 1) as real, 1000)
  }

  lemma {:induction false} RecentOfBurst(times: seq<real>, at: real, n: nat)
    requires forall i :: 0 <= i < |times| ==> times[i] <= at - WINDOW
    ensures |Recent(times + seq(n, _ => at), at)| == n
    decreases n, |times|
  {
    var all := times + seq(n, _ => at);
    if n > 0 {
      RecentOfBurst(times, at, n - 1);
      assert all[..|all| - 1] == times + seq(n - 1, _ => at);
    } else if times != [] {
      RecentOfBurst(times[..|times| - 1], at, 0);
      assert all[..|all| - 1] == times[..|times| - 1] + seq(0, _ => at);
    }
  }

  lemma AdmittedGrows(reqs: seq<Request>, r: Request)
    ensures Admitted(reqs + [r], r.client) ==
            if Admits(reqs, r) then Admitted(reqs, r.client) + [r.at] else Admitted(reqs, r.client)
  {
    hide Recent;
    assert (reqs + [r])[..|reqs|] == reqs;
  }

  lemma {:induction false} BurstPasses(reqs: seq<Request>, client: string, at: real, n: nat)
    requires n <= 1000
    requires forall i :: 0 <= i < |Admitted(reqs, client)| ==> Admitted(reqs, client)[i] <= at - WINDOW
    ensures Admitted(Burst(reqs, client, at, n), client) == Admitted(reqs, client) + seq(n, _ => at)
  {
    hide Admitted, Recent;
    if n > 0 {
      BurstPasses(reqs, client, at, n - 1);
      RecentOfBurst(Admitted(reqs, client), at, n - 1);
      AdmittedGrows(Burst(reqs, client, at, n - 1), Request(client, true, at));
      assert seq(n, _ => at) == seq(n - 1, _ => at) + [at];
    }
  }

  lemma NothingAdmitted(client: string)
    ensures Admitted([], client) == []
  {
  }

  lemma {:induction false} BurstsPass(client: string, m: nat)
    ensures var times := Admitted(Bursts(client, m), client);
            && |times| == 1000 * m
            && forall i :: 0 <= i < |times| ==> 0.0 <= times[i] <= WINDOW * m as real - WINDOW
  {
    hide Admitted, Burst;
    if m == 0 {
      NothingAdmitted(client);
    } else {
      BurstsPass(client, m - 1);
      assert WINDOW * m as real == WINDOW * (m - 1) as real + WINDOW;
      BurstPasses(Bursts(client, m - 1), client, WINDOW * (m - 1) as real, 1000);
    }
  }

  lemma {:induction false} AllInSpan(times: seq<real>, x: real, m: nat)
    requires forall i :: 0 <= i < |times| ==> x <= times[i] < x + WINDOW * m as real
    ensures InSpan(times, x, m) == |times|
  {
    if times != [] {
      AllInSpan(times[..|times| - 1], x, m);
    }
  }

  /** And the bound is reached: in an hour of full bursts 60000 requests pass, where 1000 are promised. */
  lemma HourOfBursts(client: string)
    ensures InSpan(Admitted(Bursts(client, 60), client), 0.0, 60) == 60000
  {
    BurstsPass(client, 60);
    AllInSpan(Admitted(Bursts(client, 60), client), 0.0, 60);
  }

  lemma {:induction false} BurstIsTimely(reqs: seq<Request>, client: string, at: real, n: nat)
    requires Timely(reqs) && forall i :: 0 <= i < |reqs| ==> reqs[i].at <= at
    ensures Timely(Burst(reqs, client, at, n))
    ensures forall i :: 0 <= i < |Burst(reqs, client, at, n)| ==> Burst(reqs, client, at, n)[i].at <= at
  {
    if n > 0 {
      BurstIsTimely(reqs, client, at, n - 1);
    }
  }

  /** The clock of those bursts never runs back. */
  lemma {:induction false} BurstsAreTimely(client: string, m: nat)
    ensures Timely(Bursts(client, m))
    ensures forall i :: 0 <= i < |Bursts(client, m)| ==> Bursts(client, m)[i].at <= WINDOW * m as real
  {
    if m > 0 {
      BurstsAreTimely(client, m - 1);
      assert WINDOW * m as real == WINDOW * (m - 1) as real + WINDOW;
      BurstIsTimely(Bursts(client, m - 1), client, WINDOW * (m - 1) as real, 1000);
    }
  }

  // ---------- other clients ----------

  /** The requests of one client alone. */
  function Only(reqs: seq<Request>, client: string): seq<Request> {
    if reqs == [] then []
    else Only(reqs[..|reqs| - 1], client) + if reqs[|reqs| - 1].client == client then [reqs[|reqs| - 1]] else []
  }

  /** What other clients do never changes what a client is allowed. */
  lemma {:induction false} ClientsAreIsolated(reqs: seq<Request>, client: string)
    ensures Admitted(reqs, client) == Admitted(Only(reqs, client), client)
    ensures forall r: Request :: r.client == client ==> Admits(reqs, r) == Admits(Only(reqs, client), r)
  {
    if reqs != [] {
      var front, r := reqs[..|reqs| - 1], reqs[|reqs| - 1];
      ClientsAreIsolated(front, client);
      if r.client == client {
        assert (Only(front, client) + [r])[..|Only(front, client)|] == Only(front, client);
      } else {
        assert Only(reqs, client) == Only(front, client);
      }
    }
  }

  // ---------- the middleware ----------

  ghost predicate Seen(reqs: seq<Request>, client: string) {
    exists i :: 0 <= i < |reqs| && reqs[i].client == client
  }

  /** Each client's list is its whole admission log, less what its latest request pruned. */
  ghost predicate Pruned(lists: map<string, seq<real>>, reqs: seq<Request>) {
    && (forall c :: c in lists <==> Seen(reqs, c))
    && (forall c :: c in lists ==> lists[c] == Recent(Admitted(reqs, c), LastSeen(reqs, c)))
  }

  lemma {:induction false} NeverSeen(reqs: seq<Request>, client: string)
    requires !Seen(reqs, client)
    ensures Admitted(reqs, client) == []
  {
    if reqs != [] {
      assert reqs[|reqs| - 1].client != client;
      assert forall i :: 0 <= i < |reqs| - 1 ==> reqs[..|reqs| - 1][i] == reqs[i];
      NeverSeen(reqs[..|reqs| - 1], client);
    }
  }

  /** Pruning the pruned list gives what pruning the whole log would. */
  lemma PrunedListSuffices(lists: map<string, seq<real>>, reqs: seq<Request>, r: Request)
    requires Pruned(lists, reqs) && Timely(reqs + [r])
    ensures Recent(if r.client in lists then lists[r.client] else [], r.at) == Recent(Admitted(reqs, r.client), r.at)
  {
    if r.client in lists {
      forall i | 0 <= i < |reqs|
        ensures reqs[i].at <= r.at
      {
        assert (reqs + [r])[i] == reqs[i] && (reqs + [r])[|reqs|] == r;
      }
      LastSeenIsPast(reqs, r.client, r.at);
      PruningTwice(Admitted(reqs, r.client), LastSeen(reqs, r.client), r.at);
    } else {
      NeverSeen(reqs, r.client);
    }
  }

  lemma OthersUntouched(reqs: seq<Request>, r: Request, c: string)
    requires c != r.client
    ensures Seen(reqs + [r], c) <==> Seen(reqs, c)
    ensures Admitted(reqs + [r], c) == Admitted(reqs, c) && LastSeen(reqs + [r], c) == LastSeen(reqs, c)
  {
    var all := reqs + [r];
    assert all[..|reqs|] == reqs && all[|reqs|] == r;
    if i :| 0 <= i < |reqs| && reqs[i].client == c {
      assert all[i].client == c;
    }
  }

  lemma OneMoreRequest(reqs: seq<Request>, r: Request)
    ensures var kept := Recent(Admitted(reqs, r.client), r.at);
            && Seen(reqs + [r], r.client) && LastSeen(reqs + [r], r.client) == r.at
            && Recent(Admitted(reqs + [r], r.client), r.at) == if Admits(reqs, r) then kept + [r.at] else kept
  {
    var all := reqs + [r];
    assert all[..|reqs|] == reqs && all[|reqs|] == r;
    KeepingTheNewest(Admitted(reqs, r.client), r.at);
  }

  lemma PrunedStep(lists: map<string, seq<real>>, reqs: seq<Request>, r: Request)
    requires Pruned(lists, reqs)
    ensures var kept := Recent(Admitted(reqs, r.client), r.at);
            Pruned(lists[r.client := if Admits(reqs, r) then kept + [r.at] else kept], reqs + [r])
  {
    hide Recent, Admitted, LastSeen, Seen, Admits;
    OneMoreRequest(reqs, r);
    forall c | c != r.client
      ensures Seen(reqs + [r], c) <==> Seen(reqs, c)
      ensures Admitted(reqs + [r], c) == Admitted(reqs, c) && LastSeen(reqs + [r], c) == LastSeen(reqs, c)
    {
      OthersUntouched(reqs, r, c);
    }
  }

  class RateLimitMiddleware {
    var requests: map<string, seq<real>>
    /** Every limited request so far. */
    ghost var seen: seq<Request>

    ghost predicate Valid()
      reads this
    {
      Timely(seen) && Pruned(requests, seen)
    }

    constructor ()
      ensures Valid() && seen == []
    {
      requests, seen := map[], [];
    }

    /** Drops the client's times that have left the window. */
    method Prune(client: string, now: real)
      modifies `requests
      ensures requests == old(requests)[client :=
        Recent(if client in old(requests) then old(requests)[client] else [], now)]
    {
      if client !in requests {
        requests := requests[client := []];
      }
      requests := requests[client := Recent(requests[client], now)];
    }

    /** Answers whether the request is passed on; in debug mode every request is. */
    method Call(r: Request, debug: bool) returns (passed: bool)
      requires Valid() && Timely(seen + [r])
      modifies this
      ensures Valid()
      ensures seen == if debug then old(seen) else old(seen) + [r]
      ensures passed <==> debug || Admits(old(seen), r)
      ensures debug ==> requests == old(requests)
      ensures !debug ==> r.client in requests && requests == old(requests)[r.client := requests[r.client]]
    {
      hide Pruned, Admitted, Recent, Timely;
      if debug {
        return true;
      }
      PrunedListSuffices(requests, seen, r);
      PrunedStep(requests, seen, r);
      Prune(r.client, r.at);
      var maxRequests := if r.authenticated then 1000 else 100;
      passed := |requests[r.client]| < maxRequests;
      if passed {
        requests := requests[r.client := requests[r.client] + [r.at]];
      }
      seen := seen + [r];
      assert requests == old(requests)[r.client := requests[r.client]];
    }
  }
}

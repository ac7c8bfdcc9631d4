/**
  The two circuit breakers: the one in front of the MT5 bridge (backend/mcp_integration/services.py) and the one of
  the self-healing system (backend/infrastructure/self_healing.py).  Time is passed in.
*/
module Breakers {
  import opened Options

  datatype Mode = Closed | Open | HalfOpen

  datatype Limits = Limits(threshold: int, timeout: real)

  /** What may happen to a breaker.  `Recover` is the self-healing system's forced recovery. */
  datatype Event = Failure(at: real) | Success(at: real) | Ask(at: real) | Recover(at: real)

  // ---------- the MT5 breaker ----------

  datatype Mcp = Mcp(mode: Mode, failures: nat, lastFailure: Option<real>)

  function McpStart(): Mcp {
    Mcp(Closed, 0, None)
  }

  function McpFail(s: Mcp, now: real, lim: Limits): Mcp {
    Mcp(if s.failures + 1 >= lim.threshold then Open else s.mode, s.failures + 1, Some(now))
  }

  predicate McpAllows(s: Mcp, now: real, lim: Limits) {
    s.mode == Open ==> s.lastFailure.Some? && now - s.lastFailure.value > lim.timeout
  }

  function McpAsk(s: Mcp, now: real, lim: Limits): Mcp {
    if s.mode == Open && McpAllows(s, now, lim) then s.(mode := HalfOpen) else s
  }

  function McpStep(s: Mcp, e: Event, lim: Limits): Mcp {
    match e
    case Failure(now) => McpFail(s, now, lim)
    case Success(_) => s.(mode := Closed, failures := 0)
    case Ask(now) => McpAsk(s, now, lim)
    case Recover(_) => s
  }

  function McpRun(trace: seq<Event>, lim: Limits): Mcp {
    if trace == [] then McpStart() else McpStep(McpRun(trace[..|trace| - 1], lim), trace[|trace| - 1], lim)
  }

  // ---------- the self-healing breaker ----------

  datatype Health = Health(mode: Mode, failures: nat, lastFailure: real, successes: nat)

  function HealStart(): Health {
    Health(Closed, 0, 0.0, 0)
  }

  predicate HealAllows(s: Health, now: real, lim: Limits) {
    s.mode == Open ==> now - s.lastFailure > lim.timeout
  }

  function HealStep(s: Health, e: Event, lim: Limits): Health {
    match e
    case Failure(now) =>
      Health(if s.failures + 1 >= lim.threshold then Open else s.mode, s.failures + 1, now, s.successes)
    case Success(_) =>
      s.(failures := 0, successes := s.successes + 1, mode := if s.mode == HalfOpen then Closed else s.mode)
    case Ask(now) => if s.mode == Open && HealAllows(s, now, lim) then s.(mode := HalfOpen) else s
    case Recover(_) => if s.mode == Open then s.(mode := HalfOpen) else s
  }

  function HealRun(trace: seq<Event>, lim: Limits): Health {
    if trace == [] then HealStart() else HealStep(HealRun(trace[..|trace| - 1], lim), trace[|trace| - 1], lim)
  }

  // ---------- what the history alone says ----------

  function FailuresSince(trace: seq<Event>): nat {
    if trace == [] then 0
    else match trace[|trace| - 1]
      case Failure(_) => FailuresSince(trace[..|trace| - 1]) + 1
      case Success(_) => 0
      case _ => FailuresSince(trace[..|trace| - 1])
  }

  function LastFailure(trace: seq<Event>): Option<real> {
    if trace == [] then None
    else match trace[|trace| - 1]
      case Failure(now) => Some(now)
      case _ => LastFailure(trace[..|trace| - 1])
  }

  /** The clock never runs backwards, and does not stand later than `now`. */
  ghost predicate Timely(trace: seq<Event>, now: real) {
    && (forall i, j :: 0 <= i <= j < |trace| ==> trace[i].at <= trace[j].at)
    && (forall i :: 0 <= i < |trace| ==> trace[i].at <= now)
  }

  /** The stateless rule: few enough failures since the last success, or long enough since the last failure. */
  predicate ShouldAllow(trace: seq<Event>, now: real, lim: Limits) {
    FailuresSince(trace) < lim.threshold
    || (LastFailure(trace).Some? && now - LastFailure(trace).value > lim.timeout)
  }

  ghost predicate Explained(s: Mcp, trace: seq<Event>, lim: Limits) {
    && s.failures == FailuresSince(trace) && s.lastFailure == LastFailure(trace)
    && (s.mode == Closed <==> s.failures < lim.threshold)
    && (s.failures > 0 ==> s.lastFailure.Some?)
    && (s.mode == HalfOpen ==>
          s.lastFailure.Some? && exists i :: 0 <= i < |trace| && trace[i].at - s.lastFailure.value > lim.timeout)
  }

  lemma {:induction false} McpIsExplained(trace: seq<Event>, now: real, lim: Limits)
    requires lim.threshold >= 1 && Timely(trace, now)
    ensures Explained(McpRun(trace, lim), trace, lim)
  {
    if trace != [] {
      var front, e := trace[..|trace| - 1], trace[|trace| - 1];
      McpIsExplained(front, e.at, lim);
      var s, t := McpRun(front, lim), McpRun(trace, lim);
      if t.mode == HalfOpen {
        if s.mode == HalfOpen {
          var i :| 0 <= i < |front| && front[i].at - s.lastFailure.value > lim.timeout;
          assert trace[i] == front[i];
        } else {
          assert trace[|trace| - 1].at - s.lastFailure.value > lim.timeout;
        }
      }
    }
  }

  /** The MT5 breaker answers as the stateless rule does, on every history with a clock that does not run back. */
  lemma McpFollowsRule(trace: seq<Event>, now: real, lim: Limits)
    requires lim.threshold >= 1 && Timely(trace, now)
    ensures McpAllows(McpRun(trace, lim), now, lim) <==> ShouldAllow(trace, now, lim)
  {
    McpIsExplained(trace, now, lim);
    var s := McpRun(trace, lim);
    if s.mode == HalfOpen {
      var i :| 0 <= i < |trace| && trace[i].at - s.lastFailure.value > lim.timeout;
      assert trace[i].at <= now;
    }
  }

  /** The last failure is longer ago than the time-out. */
  predicate TimedOut(trace: seq<Event>, now: real, lim: Limits) {
    LastFailure(trace).Some? && now - LastFailure(trace).value > lim.timeout
  }

  /** What is left of that explanation when the threshold is below one, and one failure opens the breaker. */
  ghost predicate ExplainedBelowOne(s: Mcp, trace: seq<Event>, lim: Limits) {
    && s.failures == FailuresSince(trace) && s.lastFailure == LastFailure(trace)
    && (s.mode == Closed <==> s.failures == 0)
    && (s.failures > 0 ==> s.lastFailure.Some?)
    && (s.mode == HalfOpen ==>
          s.lastFailure.Some? && exists i :: 0 <= i < |trace| && trace[i].at - s.lastFailure.value > lim.timeout)
  }

  lemma {:induction false} McpIsExplainedBelowOne(trace: seq<Event>, now: real, lim: Limits)
    requires lim.threshold < 1 && Timely(trace, now)
    ensures ExplainedBelowOne(McpRun(trace, lim), trace, lim)
  {
    if trace != [] {
      var front, e := trace[..|trace| - 1], trace[|trace| - 1];
      McpIsExplainedBelowOne(front, e.at, lim);
      var s, t := McpRun(front, lim), McpRun(trace, lim);
      if t.mode == HalfOpen {
        if s.mode == HalfOpen {
          var i :| 0 <= i < |front| && front[i].at - s.lastFailure.value > lim.timeout;
          assert trace[i] == front[i];
        } else {
          assert trace[|trace| - 1].at - s.lastFailure.value > lim.timeout;
        }
      }
    }
  }

  /** With a threshold below one the breaker follows the rule exactly once there is a failure since the last success, or
      the last one has timed out: with none on record it lets through what the rule refuses. */
  lemma ThresholdBelowOneExactly(trace: seq<Event>, now: real, lim: Limits)
    requires lim.threshold < 1 && Timely(trace, now)
    ensures (McpAllows(McpRun(trace, lim), now, lim) <==> ShouldAllow(trace, now, lim))
       <==> FailuresSince(trace) > 0 || TimedOut(trace, now, lim)
  {
    McpIsExplainedBelowOne(trace, now, lim);
    var s := McpRun(trace, lim);
    if s.mode == HalfOpen {
      var i :| 0 <= i < |trace| && trace[i].at - s.lastFailure.value > lim.timeout;
      assert trace[i].at <= now;
    }
  }

  /** Requests alone never change the answer: nothing limits a half-open breaker to one of them. */
  lemma {:induction false} RequestsChangeNothing(trace: seq<Event>, asks: seq<Event>, now: real, lim: Limits)
    requires forall e :: e in asks ==> e.Ask?
    ensures ShouldAllow(trace + asks, now, lim) <==> ShouldAllow(trace, now, lim)
  {
    if asks == [] {
      assert trace + asks == trace;
    } else {
      var n := |asks| - 1;
      RequestsChangeNothing(trace, asks[..n], now, lim);
      assert asks[n] in asks;
      assert (trace + asks)[..|trace + asks| - 1] == trace + asks[..n];
    }
  }

  /** However many requests a half-open breaker, of either kind, has let through, it lets the next one through. */
  lemma {:induction false} HalfOpenAdmitsAll(trace: seq<Event>, asks: seq<Event>, now: real, lim: Limits)
    requires forall e :: e in asks ==> e.Ask?
    ensures McpRun(trace, lim).mode == HalfOpen ==>
              McpRun(trace + asks, lim).mode == HalfOpen && McpAllows(McpRun(trace + asks, lim), now, lim)
    ensures HealRun(trace, lim).mode == HalfOpen ==>
              HealRun(trace + asks, lim).mode == HalfOpen && HealAllows(HealRun(trace + asks, lim), now, lim)
  {
    if asks == [] {
      assert trace + asks == trace;
    } else {
      var n := |asks| - 1;
      HalfOpenAdmitsAll(trace, asks[..n], now, lim);
      assert asks[n] in asks;
      assert (trace + asks)[..|trace + asks| - 1] == trace + asks[..n];
    }
  }

  // ---------- the two compared ----------

  /** No success arrives while the self-healing breaker is open, and no recovery is forced. */
  predicate Clean(trace: seq<Event>, lim: Limits) {
    trace != [] ==>
      var front, e := trace[..|trace| - 1], trace[|trace| - 1];
      Clean(front, lim) && !e.Recover? && (e.Success? ==> HealRun(front, lim).mode != Open)
  }

  predicate Alike(s: Mcp, h: Health) {
    s.mode == h.mode && s.failures == h.failures
    && (s.mode == Open ==> s.lastFailure == Some(h.lastFailure))
    && (s.lastFailure.Some? ==> s.lastFailure.value == h.lastFailure)
  }

  lemma {:induction false} CleanTracesAgree(trace: seq<Event>, lim: Limits)
    requires lim.threshold >= 1 && Clean(trace, lim)
    ensures Alike(McpRun(trace, lim), HealRun(trace, lim))
    ensures forall now :: McpAllows(McpRun(trace, lim), now, lim) <==> HealAllows(HealRun(trace, lim), now, lim)
  {
    if trace != [] {
      CleanTracesAgree(trace[..|trace| - 1], lim);
    }
  }

  /** On a clean history the self-healing breaker follows the stateless rule too. */
  lemma HealFollowsRule(trace: seq<Event>, now: real, lim: Limits)
    requires lim.threshold >= 1 && Timely(trace, now) && Clean(trace, lim)
    ensures HealAllows(HealRun(trace, lim), now, lim) <==> ShouldAllow(trace, now, lim)
  {
    McpFollowsRule(trace, now, lim);
    CleanTracesAgree(trace, lim);
  }

  // ---------- the self-healing breaker on every history ----------

  /** Event i is a failure that reaches the threshold. */
  predicate Opens(trace: seq<Event>, i: nat, lim: Limits)
    requires i < |trace|
  {
    trace[i].Failure? && FailuresSince(trace[..i]) + 1 >= lim.threshold
  }

  /** Event j half-opens a breaker that is open: a forced recovery, or a request after the time-out. */
  predicate Reopens(trace: seq<Event>, j: nat, lim: Limits)
    requires j < |trace|
  {
    trace[j].Recover? || (trace[j].Ask? && TimedOut(trace[..j], trace[j].at, lim))
  }

  /** Some failure reached the threshold, and nothing after it half-opened the breaker. */
  ghost predicate StillOpen(trace: seq<Event>, lim: Limits) {
    exists i :: 0 <= i < |trace| && Opens(trace, i, lim) && forall j :: i < j < |trace| ==> !Reopens(trace, j, lim)
  }

  function SuccessesIn(trace: seq<Event>): nat {
    if trace == [] then 0
    else SuccessesIn(trace[..|trace| - 1]) + if trace[|trace| - 1].Success? then 1 else 0
  }

  lemma {:induction false} HealBooks(trace: seq<Event>, lim: Limits)
    ensures var s := HealRun(trace, lim);
            && s.failures == FailuresSince(trace) && s.successes == SuccessesIn(trace)
            && (LastFailure(trace).Some? ==> s.lastFailure == LastFailure(trace).value)
            && (LastFailure(trace).None? ==> s.failures == 0 && s.mode == Closed)
  {
    if trace != [] {
      HealBooks(trace[..|trace| - 1], lim);
    }
  }

  /** What the last event does to `StillOpen`. */
  lemma StillOpenGrows(trace: seq<Event>, lim: Limits)
    requires trace != []
    ensures var n := |trace| - 1;
            StillOpen(trace, lim) <==> Opens(trace, n, lim) || (StillOpen(trace[..n], lim) && !Reopens(trace, n, lim))
  {
    hide FailuresSince, TimedOut;
    var n := |trace| - 1;
    var front := trace[..n];
    forall i | 0 <= i < n
      ensures Opens(front, i, lim) <==> Opens(trace, i, lim)
      ensures Reopens(front, i, lim) <==> Reopens(trace, i, lim)
    {
      assert front[..i] == trace[..i] && front[i] == trace[i];
    }
    if StillOpen(front, lim) && !Reopens(trace, n, lim) {
      var i :| 0 <= i < n && Opens(front, i, lim) && forall j :: i < j < n ==> !Reopens(front, j, lim);
      assert Opens(trace, i, lim) && forall j :: i < j < |trace| ==> !Reopens(trace, j, lim);
    }
    if StillOpen(trace, lim) && !Opens(trace, n, lim) {
      var i :| 0 <= i < |trace| && Opens(trace, i, lim) && forall j :: i < j < |trace| ==> !Reopens(trace, j, lim);
      assert Opens(front, i, lim) && forall j :: i < j < n ==> !Reopens(front, j, lim);
    }
  }

  /** When the self-healing breaker is open, said of the history alone. */
  lemma {:induction false} OpenExactlyIfStillOpen(trace: seq<Event>, lim: Limits)
    ensures HealRun(trace, lim).mode == Open <==> StillOpen(trace, lim)
  {
    hide StillOpen;
    if trace == [] {
      NothingStillOpen(lim);
    } else {
      var front := trace[..|trace| - 1];
      OpenExactlyIfStillOpen(front, lim);
      HealBooks(front, lim);
      StillOpenGrows(trace, lim);
    }
  }

  lemma NothingStillOpen(lim: Limits)
    ensures !StillOpen([], lim)
  {
  }

  /** It was half-opened while still open, and since then nothing succeeded and no failure reached the threshold. */
  ghost predicate OnTrial(trace: seq<Event>, lim: Limits) {
    exists j :: 0 <= j < |trace| && Reopens(trace, j, lim) && StillOpen(trace[..j], lim)
                && forall l :: j < l < |trace| ==> !trace[l].Success? && !Opens(trace, l, lim)
  }

  lemma OnTrialGrows(trace: seq<Event>, lim: Limits)
    requires trace != []
    ensures var n := |trace| - 1;
            OnTrial(trace, lim) <==>
            (Reopens(trace, n, lim) && StillOpen(trace[..n], lim))
            || (OnTrial(trace[..n], lim) && !trace[n].Success? && !Opens(trace, n, lim))
  {
    hide FailuresSince, TimedOut, StillOpen;
    var n := |trace| - 1;
    var front := trace[..n];
    forall i | 0 <= i < n
      ensures Opens(front, i, lim) <==> Opens(trace, i, lim)
      ensures Reopens(front, i, lim) <==> Reopens(trace, i, lim)
      ensures front[..i] == trace[..i] && front[i] == trace[i]
    {
      assert front[..i] == trace[..i] && front[i] == trace[i];
    }
    if OnTrial(front, lim) && !trace[n].Success? && !Opens(trace, n, lim) {
      var j :| 0 <= j < n && Reopens(front, j, lim) && StillOpen(front[..j], lim)
               && forall l :: j < l < n ==> !front[l].Success? && !Opens(front, l, lim);
      assert Reopens(trace, j, lim) && StillOpen(trace[..j], lim);
    }
    if OnTrial(trace, lim) {
      var j :| 0 <= j < |trace| && Reopens(trace, j, lim) && StillOpen(trace[..j], lim)
               && forall l :: j < l < |trace| ==> !trace[l].Success? && !Opens(trace, l, lim);
      if j < n {
        assert Reopens(front, j, lim) && StillOpen(front[..j], lim);
      }
    }
  }

  /** When it is half-open, said of the history alone; otherwise, and when not still open, it is closed. */
  lemma {:induction false} HalfOpenExactlyIfOnTrial(trace: seq<Event>, lim: Limits)
    ensures HealRun(trace, lim).mode == HalfOpen <==> OnTrial(trace, lim)
  {
    hide StillOpen, OnTrial;
    if trace == [] {
      NothingOnTrial(lim);
    } else {
      var front := trace[..|trace| - 1];
      HalfOpenExactlyIfOnTrial(front, lim);
      OpenExactlyIfStillOpen(front, lim);
      HealBooks(front, lim);
      OnTrialGrows(trace, lim);
    }
  }

  lemma NothingOnTrial(lim: Limits)
    ensures !OnTrial([], lim)
  {
  }

  /** Its own stateless rule, on every history: not still open, or the last failure has timed out. */
  lemma HealAnswersExactly(trace: seq<Event>, now: real, lim: Limits)
    ensures HealAllows(HealRun(trace, lim), now, lim) <==> !StillOpen(trace, lim) || TimedOut(trace, now, lim)
  {
    hide StillOpen;
    HealBooks(trace, lim);
    OpenExactlyIfStillOpen(trace, lim);
  }

  /**
    It answers as the other breaker's rule does exactly when the last failure has timed out, or it is still open just
    when the failures since the last success reach the threshold.
  */
  lemma HealFollowsRuleExactly(trace: seq<Event>, now: real, lim: Limits)
    requires lim.threshold >= 1
    ensures (HealAllows(HealRun(trace, lim), now, lim) <==> ShouldAllow(trace, now, lim))
       <==> TimedOut(trace, now, lim) || (StillOpen(trace, lim) <==> FailuresSince(trace) >= lim.threshold)
  {
    hide StillOpen;
    HealAnswersExactly(trace, now, lim);
  }

  /** So a success while it is open makes it differ until the time-out has passed. */
  lemma SuccessWhileOpenDiverges(trace: seq<Event>, at: real, now: real, lim: Limits)
    requires lim.threshold >= 1 && StillOpen(trace, lim)
    ensures var after := trace + [Success(at)];
            (HealAllows(HealRun(after, lim), now, lim) <==> ShouldAllow(after, now, lim)) <==> TimedOut(trace, now, lim)
  {
    hide StillOpen;
    var after := trace + [Success(at)];
    assert after[..|trace|] == trace;
    StillOpenGrows(after, lim);
    HealFollowsRuleExactly(after, now, lim);
  }

  /** And so does a forced recovery, unless a success had already been recorded. */
  lemma RecoveryWhileOpenDiverges(trace: seq<Event>, at: real, now: real, lim: Limits)
    requires lim.threshold >= 1 && StillOpen(trace, lim)
    ensures var after := trace + [Recover(at)];
            (HealAllows(HealRun(after, lim), now, lim) <==> ShouldAllow(after, now, lim)) <==>
            TimedOut(trace, now, lim) || FailuresSince(trace) < lim.threshold
  {
    hide StillOpen;
    var after := trace + [Recover(at)];
    assert after[..|trace|] == trace;
    StillOpenGrows(after, lim);
    HealFollowsRuleExactly(after, now, lim);
  }

  /** Five failures, a success and one more failure: the rule allows the next request, the breaker refuses it. */
  lemma LateSuccessIsForgotten(trace: seq<Event>)
    requires trace == [Failure(0.0), Failure(0.0), Failure(0.0), Failure(0.0), Failure(0.0), Success(1.0), Failure(2.0)]
    ensures var lim := Limits(5, 60.0);
            ShouldAllow(trace, 3.0, lim) && !HealAllows(HealRun(trace, lim), 3.0, lim)
  {
    var lim := Limits(5, 60.0);
    assert trace[..6][..5] == trace[..5] && trace[..5][..4] == trace[..4] && trace[..4][..3] == trace[..3];
    assert trace[..3][..2] == trace[..2] && trace[..2][..1] == trace[..1] && trace[..1][..0] == [];
    assert FailuresSince(trace[..1]) == 1 && FailuresSince(trace[..2]) == 2 && FailuresSince(trace[..3]) == 3;
    assert FailuresSince(trace[..4]) == 4 && FailuresSince(trace[..6]) == 0;
    assert Opens(trace, 4, lim);
    HealAnswersExactly(trace, 3.0, lim);
  }

  // ---------- the objects ----------

  class McpBreaker {
    const lim: Limits
    var failureCount: nat
    var mode: Mode
    var lastFailureTime: Option<real>
    ghost var trace: seq<Event>

    ghost function View(): Mcp
      reads this
    {
      Mcp(mode, failureCount, lastFailureTime)
    }

    ghost predicate Valid()
      reads this
    {
      lim.threshold >= 1 && View() == McpRun(trace, lim) && (mode == Open ==> lastFailureTime.Some?)
    }

    constructor (threshold: int, timeout: real)
      requires threshold >= 1
      ensures Valid() && trace == [] && lim == Limits(threshold, timeout)
    {
      lim := Limits(threshold, timeout);
      failureCount, mode, lastFailureTime, trace := 0, Closed, None, [];
    }

    method RecordFailure(now: real)
      requires Valid()
      modifies this
      ensures Valid() && trace == old(trace) + [Failure(now)]
    {
      failureCount := failureCount + 1;
      lastFailureTime := Some(now);
      if failureCount >= lim.threshold {
        mode := Open;
      }
      trace := trace + [Failure(now)];
      assert trace[..|trace| - 1] == old(trace);
    }

    method RecordSuccess(now: real)
      requires Valid()
      modifies this
      ensures Valid() && trace == old(trace) + [Success(now)]
    {
      failureCount := 0;
      mode := Closed;
      trace := trace + [Success(now)];
      assert trace[..|trace| - 1] == old(trace);
    }

    method AllowRequest(now: real) returns (allowed: bool)
      requires Valid() && Timely(trace, now)
      modifies this
      ensures Valid() && trace == old(trace) + [Ask(now)]
      ensures allowed <==> ShouldAllow(old(trace), now, lim)
    {
      McpFollowsRule(trace, now, lim);
      allowed := true;
      if mode == Open {
        if now - lastFailureTime.value > lim.timeout {
          mode := HalfOpen;
        } else {
          allowed := false;
        }
      }
      trace := trace + [Ask(now)];
      assert trace[..|trace| - 1] == old(trace);
    }
  }

  class HealingBreaker {
    const lim: Limits
    var mode: Mode
    var failureCount: nat
    var lastFailureTime: real
    var successCount: nat

    ghost function View(): Health
      reads this
    {
      Health(mode, failureCount, lastFailureTime, successCount)
    }

    constructor (threshold: int, timeout: real)
      ensures View() == HealStart() == Health(Closed, 0, 0.0, 0) && lim == Limits(threshold, timeout)
    {
      lim := Limits(threshold, timeout);
      mode, failureCount, lastFailureTime, successCount := Closed, 0, 0.0, 0;
    }

    method RecordSuccess(now: real)
      modifies this
      ensures View() == HealStep(old(View()), Success(now), lim)
    {
      failureCount := 0;
      successCount := successCount + 1;
      if mode == HalfOpen {
        mode := Closed;
      }
    }

    method RecordFailure(now: real)
      modifies this
      ensures View() == HealStep(old(View()), Failure(now), lim)
    {
      failureCount := failureCount + 1;
      lastFailureTime := now;
      if failureCount >= lim.threshold {
        mode := Open;
      }
    }

    method Record(success: bool, now: real)
      modifies this
      ensures View() == HealStep(old(View()), if success then Success(now) else Failure(now), lim)
    {
      if success {
        RecordSuccess(now);
      } else {
        RecordFailure(now);
      }
    }

    method ShouldAllowRequest(now: real) returns (allowed: bool)
      modifies this
      ensures View() == HealStep(old(View()), Ask(now), lim)
      ensures allowed <==> HealAllows(old(View()), now, lim)
    {
      if mode == Closed {
        return true;
      } else if mode == Open {
        if now - lastFailureTime > lim.timeout {
          mode := HalfOpen;
          return true;
        }
        return false;
      } else {
        return true;
      }
    }
  }

  const DEFAULT := Limits(5, 60.0)

  /** One breaker a service, created on first use; no operation on one service touches another's. */
  class SelfHealingSystem {
    var breakers: map<string, HealingBreaker>

    ghost predicate Valid()
      reads this, breakers.Values
    {
      && (forall n :: n in breakers ==> breakers[n].lim == DEFAULT)
      && (forall m, n :: m in breakers && n in breakers && m != n ==> breakers[m] != breakers[n])
    }

    ghost function Healths(): map<string, Health>
      reads this, breakers.Values
    {
      map n | n in breakers :: breakers[n].View()
    }

    ghost function HealthOf(name: string): Health
      reads this, breakers.Values
    {
      if name in breakers then breakers[name].View() else HealStart()
    }

    constructor ()
      ensures Valid() && Healths() == map[]
    {
      breakers := map[];
    }

    lemma HealthsAreViews()
      ensures Healths().Keys == breakers.Keys && forall n :: n in breakers ==> Healths()[n] == breakers[n].View()
    {
    }

    lemma OneHealthChanged(before: map<string, Health>, name: string)
      requires name in breakers && breakers.Keys == before.Keys
      requires forall n :: n in breakers && n != name ==> breakers[n].View() == before[n]
      ensures Healths() == before[name := breakers[name].View()]
    {
    }

    method GetCircuitBreaker(name: string) returns (b: HealingBreaker)
      requires Valid()
      modifies this
      ensures Valid() && name in breakers && breakers[name] == b
      ensures breakers == old(breakers)[name := b]
      ensures if name in old(breakers) then b == old(breakers)[name] else fresh(b)
      ensures b.View() == old(HealthOf(name)) && b.lim == DEFAULT == Limits(5, 60.0)
      ensures Healths() == old(Healths())[name := old(HealthOf(name))]
    {
      if name !in breakers {
        b := new HealingBreaker(5, 60.0);
        breakers := breakers[name := b];
      } else {
        b := breakers[name];
      }
    }

    method CanExecute(name: string, now: real) returns (allowed: bool)
      requires Valid()
      modifies this, breakers.Values
      ensures Valid() && Healths() == old(Healths())[name := HealStep(old(HealthOf(name)), Ask(now), DEFAULT)]
      ensures allowed <==> HealAllows(old(HealthOf(name)), now, DEFAULT)
    {
      var b := GetCircuitBreaker(name);
      assert name in old(breakers) ==> b in old(breakers).Values;
      allowed := b.ShouldAllowRequest(now);
    }

    method RecordServiceResult(name: string, success: bool, now: real)
      requires Valid()
      modifies this, breakers.Values
      ensures Valid()
      ensures Healths() == old(Healths())[name :=
        HealStep(old(HealthOf(name)), if success then Success(now) else Failure(now), DEFAULT)]
    {
      hide Healths, HealthOf, HealStep;
      var b := GetCircuitBreaker(name);
      assert name in old(breakers) ==> b in old(breakers).Values;
      ghost var healths := Healths();
      HealthsAreViews();
      b.Record(success, now);
      OneHealthChanged(healths, name);
    }

    method AttemptRecovery(name: string, now: real) returns (recovered: bool)
      requires Valid()
      modifies this, breakers.Values
      ensures Valid() && Healths() == old(Healths())[name := HealStep(old(HealthOf(name)), Recover(now), DEFAULT)]
      ensures recovered <==> old(HealthOf(name)).mode == Open
      ensures recovered ==> Healths()[name] == old(HealthOf(name)).(mode := HalfOpen)
    {
      var b := GetCircuitBreaker(name);
      assert name in old(breakers) ==> b in old(breakers).Values;
      if b.mode == Open {
        b.mode := HalfOpen;
        return true;
      }
      return false;
    }
  }
}

/**
  Which connections the pool keeps and which it prefers, said of their fields: the health check, the selection, and how
  long a connection that does not fail stays pooled.
*/
module ConnectionPoolHealth {
  import opened Options
  import opened ConnectionPool
  import opened ConnectionPoolProofs

  // ---------- the health check ----------

  /** Neither failed nor closed, with fewer than five errors, and not older than `maxAge`. */
  predicate Fit(c: Conn, now: real, maxAge: real) {
    && (c.state == Idle || c.state == InUse || c.state == Reconnecting)
    && c.errorCount <= 4
    && c.createdAt >= now - maxAge
  }

  ghost predicate Ascending(places: seq<nat>) {
    forall i, j :: 0 <= i < j < |places| ==> places[i] < places[j]
  }

  /** The list r holds exactly the fit connections of conns, as they are and in their order. */
  ghost predicate KeepsTheFit(conns: seq<Conn>, places: seq<nat>, r: seq<Conn>, now: real, maxAge: real) {
    && (forall p: nat :: p in places <==> p < |conns| && Fit(conns[p], now, maxAge))
    && Ascending(places)
    && |r| == |places| && forall i :: 0 <= i < |r| ==> places[i] < |conns| && r[i] == conns[places[i]]
  }

  lemma KeepsLess(conns: seq<Conn>, places: seq<nat>, r: seq<Conn>, c: Conn, now: real, maxAge: real)
    requires KeepsTheFit(conns, places, r, now, maxAge) && !Fit(c, now, maxAge)
    ensures KeepsTheFit(conns + [c], places, r, now, maxAge)
  {
    hide Fit;
  }

  lemma KeepsMore(conns: seq<Conn>, places: seq<nat>, r: seq<Conn>, c: Conn, now: real, maxAge: real)
    requires KeepsTheFit(conns, places, r, now, maxAge) && Fit(c, now, maxAge)
    ensures KeepsTheFit(conns + [c], places + [|conns|], r + [c], now, maxAge)
  {
    hide Fit;
  }

  lemma {:induction false} SurvivorsAreTheFit(conns: seq<Conn>, now: real, maxAge: real) returns (places: seq<nat>)
    ensures KeepsTheFit(conns, places, Survivors(conns, now, maxAge), now, maxAge)
  {
    if conns == [] {
      places := [];
    } else {
      var n := |conns| - 1;
      var front := SurvivorsAreTheFit(conns[..n], now, maxAge);
      FitExactly(conns[n], now, maxAge);
      SurvivorsSplit(conns, now, maxAge);
      hide *;
      assert conns == conns[..n] + [conns[n]];
      places := front;
      if Fit(conns[n], now, maxAge) {
        KeepsMore(conns[..n], front, Survivors(conns[..n], now, maxAge), conns[n], now, maxAge);
        places := front + [n];
      } else {
        KeepsLess(conns[..n], front, Survivors(conns[..n], now, maxAge), conns[n], now, maxAge);
        assert Survivors(conns[..n], now, maxAge) + [] == Survivors(conns[..n], now, maxAge);
      }
    }
  }

  /** The check keeps exactly the fit connections, and touches nothing else. */
  lemma CheckKeepsTheFit(pool: Pool, now: real, maxAge: real) returns (places: seq<nat>)
    ensures var r := HealthCheck(pool, now, maxAge);
            r.counter == pool.counter && r.turn == pool.turn && KeepsTheFit(pool.conns, places, r.conns, now, maxAge)
  {
    hide KeepsTheFit;
    places := SurvivorsAreTheFit(pool.conns, now, maxAge);
  }

  lemma FitExactly(c: Conn, now: real, maxAge: real)
    ensures Survives(c, now, maxAge) <==> Fit(c, now, maxAge)
  {
  }

  /** So with distinct ids a connection leaves the pool at a check exactly if it is not fit. */
  lemma CheckDropsTheUnfit(pool: Pool, p: nat, now: real, maxAge: real)
    requires Increasing(pool.conns) && p < |pool.conns|
    ensures Pooled(HealthCheck(pool, now, maxAge), pool.conns[p].id) <==> Fit(pool.conns[p], now, maxAge)
  {
    var r := HealthCheck(pool, now, maxAge).conns;
    FitExactly(pool.conns[p], now, maxAge);
    hide Fit, Survives;
    var q := Find(r, pool.conns[p].id);
    if q < |r| {
      assert r[q] in r;
      var i :| 0 <= i < |pool.conns| && pool.conns[i] == r[q];
      assert i == p;
    }
    if Survives(pool.conns[p], now, maxAge) {
      assert pool.conns[p] in r;
      var i :| 0 <= i < |r| && r[i] == pool.conns[p];
      PooledIfThere(HealthCheck(pool, now, maxAge), i);
    }
  }

  /** The places of the connections in a state. */
  ghost function PlacesIn(conns: seq<Conn>, state: ConnState): set<nat> {
    set p: nat | p < |conns| && conns[p].state == state
  }

  /** What the check counts. */
  lemma {:induction false} InStateIsCardinality(conns: seq<Conn>, state: ConnState)
    ensures InState(conns, state) == |PlacesIn(conns, state)|
  {
    if conns == [] {
      assert PlacesIn(conns, state) == {};
    } else {
      InStateIsCardinality(conns[..|conns| - 1], state);
      PlacesGrow(conns, state);
      hide PlacesIn;
    }
  }

  lemma PlacesGrow(conns: seq<Conn>, state: ConnState)
    requires conns != []
    ensures var n := |conns| - 1;
            && n !in PlacesIn(conns[..n], state)
            && PlacesIn(conns, state) == PlacesIn(conns[..n], state) + if conns[n].state == state then {n} else {}
  {
  }

  // ---------- one connection ----------

  /** A connection made for an acquisition has been used once, has no error and no latency yet, and is as old as that. */
  lemma CreatedExactly(pool: Pool, cfg: Settings, dice: nat, now: real)
    requires (forall i :: 0 <= i < |pool.conns| ==> !Free(pool.conns[i])) && |pool.conns| < cfg.maxConnections
    ensures var (after, id) := Acquire(pool, cfg, dice, now);
            && id == Some(pool.counter + 1) && after.counter == pool.counter + 1 && after.turn == pool.turn
            && after.conns == pool.conns + [Conn(pool.counter + 1, InUse, 1, 0, 0.0, now, 0)]
  {
    ChoiceIsPreferred(pool, cfg.strategy, dice);
    hide Select;
  }

  /** A reconnection that succeeds frees the connection and forgives one error; one that fails leaves it failed. */
  lemma ReconnectionExactly(c: Conn)
    ensures AfterReconnect(c, true) ==
            Conn(c.id, Idle, c.useCount, if c.errorCount <= 1 then 0 else c.errorCount - 1, c.latency, c.createdAt,
                 c.reconnects + 1)
    ensures AfterReconnect(c, false) ==
            Conn(c.id, Errored, c.useCount, c.errorCount, c.latency, c.createdAt, c.reconnects)
  {
  }

  // ---------- how long a connection stays ----------

  /** The first connection of this id is up: it has not failed, has fewer than five errors, and was made at `born`. */
  ghost predicate Up(pool: Pool, id: nat, born: real) {
    var p := Find(pool.conns, id);
    && p < |pool.conns|
    && (pool.conns[p].state == Idle || pool.conns[p].state == InUse || pool.conns[p].state == Reconnecting)
    && pool.conns[p].errorCount <= 4 && pool.conns[p].createdAt == born
  }

  /** The step does not fail the connection, and any check in it finds it young enough. */
  predicate Spares(step: Step, id: nat, born: real, maxAge: real) {
    match step
    case DoMarkError(i, _) => i != id
    case DoEndReconnect(i, ok) => i != id || ok
    case DoHealthCheck(now) => now - born <= maxAge
    case _ => true
  }

  lemma UpIfUpdated(pool: Pool, after: Pool, id: nat, born: real, p: nat, c: Conn)
    requires Up(pool, id, born) && p < |pool.conns| && after.conns == pool.conns[p := c] && c.id == pool.conns[p].id
    requires c.createdAt == pool.conns[p].createdAt && (pool.conns[p].id == id ==>
      c.errorCount <= pool.conns[p].errorCount && (c.state == Idle || c.state == InUse || c.state == Reconnecting))
    ensures Up(after, id, born)
  {
    var q := Find(pool.conns, id);
    SameFind(pool.conns, after.conns, q, id);
  }

  /** The first place of an id, from what is before it. */
  lemma SameFind(conns: seq<Conn>, other: seq<Conn>, q: nat, id: nat)
    requires q < |conns| && q < |other| && conns[q].id == id && (forall i :: 0 <= i < q ==> conns[i].id != id)
    requires forall i :: 0 <= i <= q ==> other[i].id == conns[i].id
    ensures Find(other, id) == q
  {
    FirstIsFound(other, q, id);
  }

  lemma SurvivorsSplit(conns: seq<Conn>, now: real, maxAge: real)
    requires conns != []
    ensures var n := |conns| - 1;
            Survivors(conns, now, maxAge)
            == Survivors(conns[..n], now, maxAge) + if Survives(conns[n], now, maxAge) then [conns[n]] else []
  {
  }

  /** The first survivor of an id is the first connection of it, if that survives. */
  lemma {:induction false} SurvivorsHold(conns: seq<Conn>, now: real, maxAge: real, id: nat, q: nat)
    requires q < |conns| && conns[q].id == id && (forall i :: 0 <= i < q ==> conns[i].id != id)
    requires Survives(conns[q], now, maxAge)
    ensures var r := Survivors(conns, now, maxAge);
            Find(r, id) < |r| && r[Find(r, id)] == conns[q]
  {
    hide Survives, Survivors, Find;
    var n := |conns| - 1;
    var front := Survivors(conns[..n], now, maxAge);
    SurvivorsSplit(conns, now, maxAge);
    if q < n {
      SurvivorsHold(conns[..n], now, maxAge, id, q);
      FirstIsFound(Survivors(conns, now, maxAge), Find(front, id), id);
    } else {
      SurvivorsAreOthers(conns[..n], now, maxAge, id);
      FirstIsFound(Survivors(conns, now, maxAge), |front|, id);
    }
  }

  lemma SurvivorsAreOthers(conns: seq<Conn>, now: real, maxAge: real, id: nat)
    requires forall i :: 0 <= i < |conns| ==> conns[i].id != id
    ensures var r := Survivors(conns, now, maxAge);
            forall i :: 0 <= i < |r| ==> r[i].id != id
  {
    hide Survives;
    var r := Survivors(conns, now, maxAge);
    forall i | 0 <= i < |r|
      ensures r[i].id != id
    {
      assert r[i] in r;
    }
  }

  lemma FirstIsFound(conns: seq<Conn>, p: nat, id: nat)
    requires p < |conns| && conns[p].id == id && forall i :: 0 <= i < p ==> conns[i].id != id
    ensures Find(conns, id) == p
  {
    var r := Find(conns, id);
    assert !(r < p) && !(p < r);
  }

  lemma CheckSpares(pool: Pool, id: nat, born: real, now: real, maxAge: real)
    requires Up(pool, id, born) && now - born <= maxAge
    ensures Up(HealthCheck(pool, now, maxAge), id, born)
  {
    var q := Find(pool.conns, id);
    SurvivorsHold(pool.conns, now, maxAge, id, q);
  }

  lemma AcquireSpares(pool: Pool, id: nat, born: real, cfg: Settings, dice: nat, now: real)
    requires Up(pool, id, born)
    ensures Up(Acquire(pool, cfg, dice, now).0, id, born)
  {
    hide Select;
    var choice := Select(pool, cfg.strategy, dice);
    var after := Acquire(pool, cfg, dice, now).0;
    if choice.Some? {
      SelectIsUsable(pool, cfg.strategy, dice);
      UpIfUpdated(pool, after, id, born, choice.value, Take(pool.conns[choice.value]));
    } else {
      var q := Find(pool.conns, id);
      SameFind(pool.conns, after.conns, q, id);
    }
  }

  lemma ApplySpares(w: World, step: Step, cfg: Settings, id: nat, born: real)
    requires Up(w.pool, id, born) && Spares(step, id, born, cfg.maxAge)
    ensures Up(Apply(w, step, cfg).pool, id, born)
  {
    hide Acquire, HealthCheck, SetLatency, Up;
    match step
    case DoAcquire(dice, now) => AcquireSpares(w.pool, id, born, cfg, dice, now);
    case DoHealthCheck(now) => CheckSpares(w.pool, id, born, now, cfg.maxAge);
    case DoRelease(i, _) => SetSpares(w.pool, id, born, i, Idle);
    case DoBeginReconnect(i) => SetSpares(w.pool, id, born, i, Reconnecting);
    case DoMarkError(i, _) => MarkSpares(w.pool, id, born, i);
    case DoEndReconnect(i, ok) => EndSpares(w.pool, id, born, i, ok);
    case DoLatency(i, latency) => LatencySpares(w.pool, id, born, i, latency);
  }

  lemma SetSpares(pool: Pool, id: nat, born: real, i: nat, state: ConnState)
    requires Up(pool, id, born) && (state == Idle || state == Reconnecting)
    ensures Up(SetState(pool, i, state), id, born)
  {
    var p := Find(pool.conns, i);
    if p < |pool.conns| {
      UpIfUpdated(pool, SetState(pool, i, state), id, born, p, pool.conns[p].(state := state));
    }
  }

  lemma MarkSpares(pool: Pool, id: nat, born: real, i: nat)
    requires Up(pool, id, born) && i != id
    ensures Up(MarkError(pool, i), id, born)
  {
    var p := Find(pool.conns, i);
    if p < |pool.conns| {
      var c := pool.conns[p];
      UpIfUpdated(pool, MarkError(pool, i), id, born, p, c.(state := Errored, errorCount := c.errorCount + 1));
    }
  }

  lemma EndSpares(pool: Pool, id: nat, born: real, i: nat, ok: bool)
    requires Up(pool, id, born) && (i != id || ok)
    ensures Up(EndReconnect(pool, i, ok), id, born)
  {
    var p := Find(pool.conns, i);
    if p < |pool.conns| {
      UpIfUpdated(pool, EndReconnect(pool, i, ok), id, born, p, AfterReconnect(pool.conns[p], ok));
    }
  }

  lemma LatencySpares(pool: Pool, id: nat, born: real, i: nat, latency: real)
    requires Up(pool, id, born)
    ensures Up(SetLatency(pool, i, latency), id, born)
  {
    var p := Find(pool.conns, i);
    if p < |pool.conns| {
      UpIfUpdated(pool, SetLatency(pool, i, latency), id, born, p, pool.conns[p].(latency := latency));
    }
  }

  ghost predicate AllSpare(steps: seq<Step>, id: nat, born: real, maxAge: real) {
    forall i :: 0 <= i < |steps| ==> Spares(steps[i], id, born, maxAge)
  }

  /**
    A connection that is up stays pooled, through whatever else happens, until it is marked failed, fails a
    reconnection, or is found too old by a check.
  */
  lemma {:induction false} UpStaysPooled(steps: seq<Step>, more: seq<Step>, cfg: Settings, id: nat, born: real)
    requires Up(Run(steps, cfg).pool, id, born) && AllSpare(more, id, born, cfg.maxAge)
    ensures Up(Run(steps + more, cfg).pool, id, born) && Pooled(Run(steps + more, cfg).pool, id)
    decreases |more|
  {
    hide Apply, Spares;
    if more == [] {
      assert steps + more == steps;
    } else {
      var n := |more| - 1;
      UpStaysPooled(steps, more[..n], cfg, id, born);
      assert (steps + more)[..|steps + more| - 1] == steps + more[..n];
      assert Spares(more[n], id, born, cfg.maxAge);
      ApplySpares(Run(steps + more[..n], cfg), more[n], cfg, id, born);
    }
  }

  // ---------- the selection ----------

  /** The latency a connection is compared by; one that was never measured comes last. */
  predicate Faster(c: Conn, d: Conn) {
    0.0 < c.latency && (d.latency <= 0.0 || c.latency < d.latency)
  }

  predicate Free(c: Conn) {
    c.state == Idle && c.errorCount <= 4
  }

  /** Connection p is not to be passed over for connection i, nor an earlier one for it. */
  predicate AtLeastAsGood(conns: seq<Conn>, p: nat, i: nat, strategy: Strategy)
    requires p < |conns| && i < |conns|
  {
    match strategy
    case LeastConnections => conns[p].useCount <= conns[i].useCount && (i < p ==> conns[p].useCount < conns[i].useCount)
    case LatencyBased => !Faster(conns[i], conns[p]) && (i < p ==> Faster(conns[p], conns[i]))
    case _ => true
  }

  lemma {:induction false} BestIsPreferred(conns: seq<Conn>, ps: seq<nat>, strategy: Strategy)
    requires ps != [] && Ascending(ps) && forall i :: 0 <= i < |ps| ==> ps[i] < |conns|
    requires strategy == LeastConnections || strategy == LatencyBased
    ensures forall p :: p in ps ==> AtLeastAsGood(conns, Best(conns, ps, strategy), p, strategy)
  {
    if |ps| > 1 {
      var n := |ps| - 1;
      BestIsPreferred(conns, ps[..n], strategy);
      var before := Best(conns, ps[..n], strategy);
      forall p | p in ps
        ensures AtLeastAsGood(conns, Best(conns, ps, strategy), p, strategy)
      {
        if p != ps[n] {
          assert p in ps[..n];
        }
        assert before in ps[..n];
      }
    }
  }

  /** What is chosen is idle and healthy, and the first of the least used, or of the fastest, that are. */
  lemma ChoiceIsPreferred(pool: Pool, strategy: Strategy, dice: nat)
    ensures var choice := Select(pool, strategy, dice);
            && (choice.None? <==> forall i :: 0 <= i < |pool.conns| ==> !Free(pool.conns[i]))
            && (choice.Some? ==>
                  && choice.value < |pool.conns| && Free(pool.conns[choice.value])
                  && forall i :: 0 <= i < |pool.conns| && Free(pool.conns[i]) ==>
                       AtLeastAsGood(pool.conns, choice.value, i, strategy))
  {
    hide Available, Best, AtLeastAsGood;
    var ps := Available(pool.conns);
    SelectIsUsable(pool, strategy, dice);
    forall i | 0 <= i < |pool.conns|
      ensures Free(pool.conns[i]) <==> i in ps
    {
      assert Free(pool.conns[i]) <==> Usable(pool.conns[i]);
    }
    if ps != [] {
      assert ps[0] in ps;
      if strategy == LeastConnections || strategy == LatencyBased {
        BestIsPreferred(pool.conns, ps, strategy);
      } else {
        AnyIsAsGood(pool.conns, strategy);
      }
    }
  }

  lemma AnyIsAsGood(conns: seq<Conn>, strategy: Strategy)
    requires strategy == RoundRobin || strategy == Random
    ensures forall p, i :: 0 <= p < |conns| && 0 <= i < |conns| ==> AtLeastAsGood(conns, p, i, strategy)
  {
  }
}

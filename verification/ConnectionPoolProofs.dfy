/** Runs of the connection pool: leases are exclusive, the pool stays within its size, round robin is fair. */
module ConnectionPoolProofs {
  import opened Options
  import opened ConnectionPool

  /** The pool, the ids its callers hold, and the ids being reconnected. */
  datatype World = World(pool: Pool, leases: set<nat>, reconnecting: set<nat>)

  /** `byHolder` says that whoever held the connection gives it up with this call; otherwise its lease goes on. */
  datatype Step =
    | DoAcquire(dice: nat, now: real)
    | DoRelease(id: nat, byHolder: bool)
    | DoMarkError(id: nat, byHolder: bool)
    | DoHealthCheck(now: real)
    | DoBeginReconnect(id: nat)
    | DoEndReconnect(id: nat, ok: bool)
    | DoLatency(id: nat, latency: real)

  function Apply(w: World, step: Step, cfg: Settings): World {
    match step
    case DoAcquire(dice, now) =>
      var (pool, id) := Acquire(w.pool, cfg, dice, now);
      World(pool, if id.Some? then w.leases + {id.value} else w.leases, w.reconnecting)
    case DoRelease(id, byHolder) =>
      World(Release(w.pool, id), if byHolder then w.leases - {id} else w.leases, w.reconnecting)
    case DoMarkError(id, byHolder) =>
      World(MarkError(w.pool, id), if byHolder then w.leases - {id} else w.leases, w.reconnecting)
    case DoHealthCheck(now) => w.(pool := HealthCheck(w.pool, now, cfg.maxAge))
    case DoBeginReconnect(id) =>
      if Pooled(w.pool, id) then World(BeginReconnect(w.pool, id), w.leases, w.reconnecting + {id}) else w
    case DoEndReconnect(id, ok) => World(EndReconnect(w.pool, id, ok), w.leases, w.reconnecting - {id})
    case DoLatency(id, latency) => w.(pool := SetLatency(w.pool, id, latency))
  }

  function Run(steps: seq<Step>, cfg: Settings): World {
    if steps == [] then World(Pool([], 0, 0), {}, {})
    else Apply(Run(steps[..|steps| - 1], cfg), steps[|steps| - 1], cfg)
  }

  predicate Pooled(pool: Pool, id: nat) {
    Find(pool.conns, id) < |pool.conns|
  }

  /**
    What callers must respect about a pooled connection: nobody but its holder releases it or marks it failed, nobody
    releases it while it is being reconnected, and nobody reconnects it while it is leased.
  */
  predicate Allowed(w: World, step: Step) {
    match step
    case DoRelease(id, byHolder) => Pooled(w.pool, id) ==> id !in w.reconnecting && (byHolder || id !in w.leases)
    case DoMarkError(id, byHolder) => Pooled(w.pool, id) ==> byHolder || id !in w.leases
    case DoBeginReconnect(id) => Pooled(w.pool, id) ==> id !in w.leases
    case DoEndReconnect(id, _) => Pooled(w.pool, id) ==> id !in w.leases
    case _ => true
  }

  predicate AllAllowed(steps: seq<Step>, cfg: Settings) {
    steps != [] ==>
      AllAllowed(steps[..|steps| - 1], cfg) && Allowed(Run(steps[..|steps| - 1], cfg), steps[|steps| - 1])
  }

  /** A pooled connection agrees with who holds it and who reconnects it. */
  ghost predicate Fits(c: Conn, w: World) {
    && 1 <= c.id <= w.pool.counter
    && (c.state == InUse <==> c.id in w.leases)
    && (c.id in w.reconnecting ==> c.state == Reconnecting || c.state == Errored)
    && c.state != Closed
  }

  ghost predicate Sound(w: World, cfg: Settings) {
    && Increasing(w.pool.conns)
    && (forall i :: 0 <= i < |w.pool.conns| ==> Fits(w.pool.conns[i], w))
    && (forall id :: id in w.leases + w.reconnecting ==> id <= w.pool.counter)
    && (w.pool.conns == [] || |w.pool.conns| <= cfg.maxConnections)
  }

  lemma FindPosition(conns: seq<Conn>, p: nat)
    requires p < |conns| && Increasing(conns)
    ensures Find(conns, conns[p].id) == p
  {
  }

  /** The two worlds have the same books but for one id. */
  ghost predicate SameButFor(v: World, w: World, id: nat) {
    && v.pool.counter == w.pool.counter
    && w.leases - {id} == v.leases - {id}
    && w.reconnecting - {id} == v.reconnecting - {id}
  }

  lemma ReplaceIsSound(v: World, w: World, p: nat, cfg: Settings)
    requires Sound(v, cfg) && p < |v.pool.conns| == |w.pool.conns| && w.pool.conns == v.pool.conns[p := w.pool.conns[p]]
    requires w.pool.conns[p].id == v.pool.conns[p].id && SameButFor(v, w, w.pool.conns[p].id) && Fits(w.pool.conns[p], w)
    ensures Sound(w, cfg)
  {
    var id := v.pool.conns[p].id;
    forall i | 0 <= i < |w.pool.conns|
      ensures Fits(w.pool.conns[i], w)
    {
      if i != p {
        assert Fits(v.pool.conns[i], v);
        var other := w.pool.conns[i].id;
        assert other in w.leases <==> other in w.leases - {id};
        assert other in w.reconnecting <==> other in w.reconnecting - {id};
        assert other in v.leases <==> other in v.leases - {id};
        assert other in v.reconnecting <==> other in v.reconnecting - {id};
      }
    }
    forall x | x in w.leases + w.reconnecting
      ensures x <= w.pool.counter
    {
      assert x != id ==> x in (w.leases - {id}) + (w.reconnecting - {id});
      assert x != id ==> x in v.leases + v.reconnecting;
      assert Fits(v.pool.conns[p], v);
    }
  }

  /** Whatever is done about an id that is not pooled leaves the pool sound. */
  lemma UnpooledIsSound(v: World, w: World, id: nat, cfg: Settings)
    requires Sound(v, cfg) && w.pool == v.pool && Find(v.pool.conns, id) == |v.pool.conns|
    requires SameButFor(v, w, id) && w.leases <= v.leases && w.reconnecting <= v.reconnecting
    ensures Sound(w, cfg)
  {
    assert forall x :: x in w.leases + w.reconnecting ==> x in v.leases + v.reconnecting;
    forall i | 0 <= i < |w.pool.conns|
      ensures Fits(w.pool.conns[i], w)
    {
      assert Fits(v.pool.conns[i], v);
      var other := w.pool.conns[i].id;
      assert other in v.leases <==> other in v.leases - {id};
      assert other in w.leases <==> other in w.leases - {id};
    }
  }

  lemma AcquireIsSound(w: World, cfg: Settings, dice: nat, now: real)
    requires Sound(w, cfg)
    ensures Sound(Apply(w, DoAcquire(dice, now), cfg), cfg)
    ensures var id := Acquire(w.pool, cfg, dice, now).1;
            id.Some? ==> id.value !in w.leases
  {
    hide Best;
    var choice, v := Select(w.pool, cfg.strategy, dice), Apply(w, DoAcquire(dice, now), cfg);
    if choice.Some? {
      var ps, p := Available(w.pool.conns), choice.value;
      var i :| 0 <= i < |ps| && ps[i] == p;
      assert Usable(w.pool.conns[p]) && Fits(w.pool.conns[p], w);
      var id := w.pool.conns[p].id;
      assert v.leases - {id} == w.leases - {id};
      ReplaceIsSound(w, v, p, cfg);
    } else if |w.pool.conns| < cfg.maxConnections {
      CreateIsSound(w, now, cfg);
    }
  }

  lemma CreateIsSound(w: World, now: real, cfg: Settings)
    requires Sound(w, cfg) && |w.pool.conns| < cfg.maxConnections
    ensures var id := w.pool.counter + 1;
            && id !in w.leases
            && Sound(World(Pool(w.pool.conns + [Take(NewConn(id, now))], id, w.pool.turn), w.leases + {id},
                           w.reconnecting), cfg)
  {
    var id := w.pool.counter + 1;
    assert id !in w.leases + w.reconnecting;
    var v := World(Pool(w.pool.conns + [Take(NewConn(id, now))], id, w.pool.turn), w.leases + {id}, w.reconnecting);
    forall i | 0 <= i < |v.pool.conns|
      ensures Fits(v.pool.conns[i], v)
    {
      if i < |w.pool.conns| {
        assert Fits(w.pool.conns[i], w);
      }
    }
    forall i, j | 0 <= i < j < |v.pool.conns|
      ensures v.pool.conns[i].id < v.pool.conns[j].id
    {
      assert Fits(w.pool.conns[i], w);
    }
  }

  lemma HealthCheckIsSound(w: World, cfg: Settings, now: real)
    requires Sound(w, cfg)
    ensures Sound(Apply(w, DoHealthCheck(now), cfg), cfg)
  {
    hide Survives, Fits;
    var r, v := Survivors(w.pool.conns, now, cfg.maxAge), Apply(w, DoHealthCheck(now), cfg);
    SurvivorsKeepOrder(w.pool.conns, now, cfg.maxAge);
    forall i | 0 <= i < |r|
      ensures Fits(r[i], v)
    {
      assert r[i] in r;
      var j :| 0 <= j < |w.pool.conns| && w.pool.conns[j] == r[i];
      assert Fits(w.pool.conns[j], w);
      SameBooks(r[i], w, v);
    }
  }

  lemma SameBooks(c: Conn, v: World, w: World)
    requires v.pool.counter == w.pool.counter && v.leases == w.leases && v.reconnecting == w.reconnecting
    requires Fits(c, v)
    ensures Fits(c, w)
  {
  }

  /** A step about one id keeps the pool sound exactly when that id's connection fits its books, if it is pooled. */
  lemma OneIdExactly(v: World, w: World, id: nat, cfg: Settings)
    requires Sound(v, cfg) && SameButFor(v, w, id)
    requires var p := Find(v.pool.conns, id);
             if p == |v.pool.conns| then
               w.pool == v.pool && w.leases <= v.leases && w.reconnecting <= v.reconnecting
             else
               |w.pool.conns| == |v.pool.conns| && w.pool.conns == v.pool.conns[p := w.pool.conns[p]]
               && w.pool.conns[p].id == id
    ensures var p := Find(v.pool.conns, id);
            Sound(w, cfg) <==> p == |v.pool.conns| || Fits(w.pool.conns[p], w)
  {
    var p := Find(v.pool.conns, id);
    if p == |v.pool.conns| {
      UnpooledIsSound(v, w, id, cfg);
    } else if Fits(w.pool.conns[p], w) {
      ReplaceIsSound(v, w, p, cfg);
    }
  }

  /** An allowed operation keeps the pool sound, and any other breaks it at once. */
  lemma SoundExactlyIfAllowed(w: World, step: Step, cfg: Settings)
    requires Sound(w, cfg)
    ensures Sound(Apply(w, step, cfg), cfg) <==> Allowed(w, step)
  {
    hide Select, Survivors, Increasing, Acquire, HealthCheck;
    var v := Apply(w, step, cfg);
    match step
    case DoAcquire(dice, now) => AcquireIsSound(w, cfg, dice, now);
    case DoHealthCheck(now) => HealthCheckIsSound(w, cfg, now);
    case DoRelease(id, _) => OneIdExactly(w, v, id, cfg);
    case DoMarkError(id, _) => OneIdExactly(w, v, id, cfg);
    case DoBeginReconnect(id) => OneIdExactly(w, v, id, cfg);
    case DoEndReconnect(id, ok) => OneIdExactly(w, v, id, cfg);
    case DoLatency(id, _) => OneIdExactly(w, v, id, cfg);
  }

  /**
    In every allowed run a pooled connection is in use exactly when it is leased, ids are never given twice, and the
    pool never holds more connections than it may.
  */
  lemma {:induction false} RunIsSound(steps: seq<Step>, cfg: Settings)
    requires AllAllowed(steps, cfg)
    ensures Sound(Run(steps, cfg), cfg)
  {
    hide Apply;
    if steps != [] {
      RunIsSound(steps[..|steps| - 1], cfg);
      SoundExactlyIfAllowed(Run(steps[..|steps| - 1], cfg), steps[|steps| - 1], cfg);
    }
  }

  /** What an acquisition hands out is leased to nobody, and is either an idle healthy connection or a new id. */
  lemma LeasesAreExclusive(steps: seq<Step>, cfg: Settings, dice: nat, now: real)
    requires AllAllowed(steps, cfg)
    ensures var w := Run(steps, cfg);
            var id := Acquire(w.pool, cfg, dice, now).1;
            && (id.Some? ==> id.value !in w.leases)
            && (id.Some? && (forall i :: 0 <= i < |w.pool.conns| ==> w.pool.conns[i].id != id.value)
                ==> id.value > w.pool.counter)
  {
    RunIsSound(steps, cfg);
    AcquireIsSound(Run(steps, cfg), cfg, dice, now);
  }

  /** An acquisition fails exactly when the pool is full and nothing in it is idle and healthy. */
  lemma AcquireFailsExactlyWhenExhausted(pool: Pool, cfg: Settings, dice: nat, now: real)
    ensures Acquire(pool, cfg, dice, now).1 == None <==>
            |pool.conns| >= cfg.maxConnections && forall i :: 0 <= i < |pool.conns| ==> !Usable(pool.conns[i])
  {
    var ps := Available(pool.conns);
    if ps != [] {
      assert Usable(pool.conns[ps[0]]);
    }
  }

  /** Giving up what one holds is always allowed. */
  lemma HoldersMayGiveUp(w: World, id: nat, cfg: Settings)
    requires Sound(w, cfg) && id in w.leases
    ensures Allowed(w, DoRelease(id, true)) && Allowed(w, DoMarkError(id, true))
  {
    var p := Find(w.pool.conns, id);
    if p < |w.pool.conns| {
      assert Fits(w.pool.conns[p], w);
    }
  }

  /** A release by anyone but the holder puts a leased connection up for a second lease. */
  lemma StrayReleaseLeasesTwice(c: Conn, cfg: Settings, now: real)
    requires c.state == InUse && c.errorCount < 5
    ensures var w := World(Pool([c], c.id, 0), {c.id}, {});
            Acquire(Apply(w, DoRelease(c.id, false), cfg).pool, cfg, 0, now).1 == Some(c.id) && c.id in w.leases
  {
    var conns := Release(Pool([c], c.id, 0), c.id).conns;
    assert conns == [c.(state := Idle)];
    assert Available(conns) == [0];
  }

  /** So does reconnecting a connection that is in use. */
  lemma ReconnectInUseLeasesTwice(c: Conn, cfg: Settings, now: real)
    requires c.state == InUse && c.errorCount < 5
    ensures var w := World(Pool([c], c.id, 0), {c.id}, {});
            var v := Apply(Apply(w, DoBeginReconnect(c.id), cfg), DoEndReconnect(c.id, true), cfg);
            Acquire(v.pool, cfg, 0, now).1 == Some(c.id) && c.id in v.leases
  {
    hide *;
    var w, begun := World(Pool([c], c.id, 0), {c.id}, {}), c.(state := Reconnecting);
    OneBegins(w, c, cfg);
    OneEnds(Apply(w, DoBeginReconnect(c.id), cfg), begun, cfg);
    EndsUsable(begun);
    OneIsLeased(Apply(Apply(w, DoBeginReconnect(c.id), cfg), DoEndReconnect(c.id, true), cfg),
                AfterReconnect(begun, true), cfg, now);
  }

  /** And so does a release while a reconnection is under way, if the connection is leased before that ends. */
  lemma ReleaseInReconnectLeasesTwice(c: Conn, cfg: Settings, now: real)
    requires c.state == Errored && c.errorCount < 5
    ensures var w := World(Pool([c], c.id, 0), {}, {});
            var begun := Apply(w, DoBeginReconnect(c.id), cfg);
            var leased := Apply(Apply(begun, DoRelease(c.id, false), cfg), DoAcquire(0, now), cfg);
            var v := Apply(leased, DoEndReconnect(c.id, true), cfg);
            && leased.leases == {c.id}
            && Acquire(v.pool, cfg, 0, now).1 == Some(c.id) && c.id in v.leases
  {
    hide *;
    var w, idle := World(Pool([c], c.id, 0), {}, {}), c.(state := Idle);
    var begun := Apply(w, DoBeginReconnect(c.id), cfg);
    var released := Apply(begun, DoRelease(c.id, false), cfg);
    var leased := Apply(released, DoAcquire(0, now), cfg);
    OneBegins(w, c, cfg);
    OneIsReleased(begun, c.(state := Reconnecting), cfg);
    TakenIsLive(c);
    OneIsLeased(released, idle, cfg, now);
    OneEnds(leased, Take(idle), cfg);
    EndsUsable(Take(idle));
    OneIsLeased(Apply(leased, DoEndReconnect(c.id, true), cfg), AfterReconnect(Take(idle), true), cfg, now);
  }

  lemma TakenIsLive(c: Conn)
    requires c.errorCount < 5
    ensures var idle := c.(state := Idle);
            Usable(idle) && Take(idle).id == c.id && Take(idle).errorCount < 5
  {
  }

  lemma EndsUsable(c: Conn)
    requires c.errorCount < 5
    ensures Usable(AfterReconnect(c, true)) && AfterReconnect(c, true).id == c.id
  {
  }

  // ---------- the steps on a pool of one ----------

  lemma OneBegins(w: World, c: Conn, cfg: Settings)
    requires w.pool.conns == [c]
    ensures var v := Apply(w, DoBeginReconnect(c.id), cfg);
            v.pool.conns == [c.(state := Reconnecting)] && v.leases == w.leases
  {
    assert [c][0 := c.(state := Reconnecting)] == [c.(state := Reconnecting)];
  }

  lemma OneIsReleased(w: World, c: Conn, cfg: Settings)
    requires w.pool.conns == [c]
    ensures var v := Apply(w, DoRelease(c.id, false), cfg);
            v.pool.conns == [c.(state := Idle)] && v.leases == w.leases
  {
    assert [c][0 := c.(state := Idle)] == [c.(state := Idle)];
  }

  lemma OneEnds(w: World, c: Conn, cfg: Settings)
    requires w.pool.conns == [c]
    ensures var v := Apply(w, DoEndReconnect(c.id, true), cfg);
            v.pool.conns == [AfterReconnect(c, true)] && v.leases == w.leases
  {
    assert [c][0 := AfterReconnect(c, true)] == [AfterReconnect(c, true)];
  }

  lemma OneIsLeased(w: World, c: Conn, cfg: Settings, now: real)
    requires w.pool.conns == [c] && Usable(c)
    ensures Acquire(w.pool, cfg, 0, now).1 == Some(c.id)
    ensures var v := Apply(w, DoAcquire(0, now), cfg);
            v.pool.conns == [Take(c)] && v.leases == w.leases + {c.id}
  {
    OnlyChoice(w.pool, c, cfg);
    hide Select;
    assert [c][0 := Take(c)] == [Take(c)];
  }

  lemma OnlyChoice(pool: Pool, c: Conn, cfg: Settings)
    requires pool.conns == [c] && Usable(c)
    ensures Select(pool, cfg.strategy, 0) == Some(0)
  {
    hide *;
    OnlyAvailable(c);
    SelectIsUsable(pool, cfg.strategy, 0);
    SelectsSome(pool, cfg.strategy, 0);
  }

  lemma OnlyAvailable(c: Conn)
    requires Usable(c)
    ensures Available([c]) == [0]
  {
  }

  lemma SelectsSome(pool: Pool, strategy: Strategy, dice: nat)
    ensures Select(pool, strategy, dice).Some? <==> Available(pool.conns) != []
  {
    hide Available, Best;
  }

  // ---------- ids ----------

  /** Every id handed out by the acquisitions of a run. */
  function HandedOut(steps: seq<Step>, cfg: Settings): set<nat> {
    if steps == [] then {}
    else
      var front, last := steps[..|steps| - 1], steps[|steps| - 1];
      HandedOut(front, cfg)
      + match last
        case DoAcquire(dice, now) =>
          var id := Acquire(Run(front, cfg).pool, cfg, dice, now).1;
          if id.Some? then {id.value} else {}
        case _ => {}
  }

  ghost predicate IdsWithin(pool: Pool) {
    forall i :: 0 <= i < |pool.conns| ==> pool.conns[i].id <= pool.counter
  }

  /** No operation takes the counter back, and what it pools was pooled already or has a new number. */
  ghost predicate Onward(before: Pool, after: Pool) {
    && before.counter <= after.counter
    && forall i :: 0 <= i < |after.conns| ==>
         after.conns[i].id > before.counter
         || exists j :: 0 <= j < |before.conns| && before.conns[j].id == after.conns[i].id
  }

  lemma ApplyIsOnward(w: World, step: Step, cfg: Settings)
    requires IdsWithin(w.pool)
    ensures IdsWithin(Apply(w, step, cfg).pool) && Onward(w.pool, Apply(w, step, cfg).pool)
  {
    hide Acquire, HealthCheck, MarkError, SetState, EndReconnect, SetLatency, IdsWithin, Onward;
    SameIsOnward(w.pool);
    match step
    case DoAcquire(dice, now) => AcquireIsOnward(w.pool, cfg, dice, now);
    case DoHealthCheck(now) => SurvivorsWerePooled(w.pool, now, cfg.maxAge);
    case DoRelease(id, _) => StateIsOnward(w.pool, id, Idle);
    case DoBeginReconnect(id) => StateIsOnward(w.pool, id, Reconnecting);
    case DoMarkError(id, _) => ErrorIsOnward(w.pool, id);
    case DoEndReconnect(id, ok) => EndIsOnward(w.pool, id, ok);
    case DoLatency(id, latency) => LatencyIsOnward(w.pool, id, latency);
  }

  lemma SameIsOnward(pool: Pool)
    ensures Onward(pool, pool)
  {
  }

  /** A pooled connection replaced by one of the same id. */
  lemma UpdateIsOnward(pool: Pool, p: nat, c: Conn, turn: nat)
    requires IdsWithin(pool) && p < |pool.conns| && c.id == pool.conns[p].id
    ensures var r := pool.(conns := pool.conns[p := c], turn := turn);
            IdsWithin(r) && Onward(pool, r)
  {
    var r := pool.conns[p := c];
    assert forall i :: 0 <= i < |r| ==> r[i].id == pool.conns[i].id;
  }

  lemma AcquireIsOnward(pool: Pool, cfg: Settings, dice: nat, now: real)
    requires IdsWithin(pool)
    ensures IdsWithin(Acquire(pool, cfg, dice, now).0) && Onward(pool, Acquire(pool, cfg, dice, now).0)
  {
    hide Select;
    SelectIsUsable(pool, cfg.strategy, dice);
    var choice := Select(pool, cfg.strategy, dice);
    if choice.Some? {
      UpdateIsOnward(pool, choice.value, Take(pool.conns[choice.value]),
                     if cfg.strategy == RoundRobin then pool.turn + 1 else pool.turn);
      hide IdsWithin, Onward;
    }
  }

  lemma StateIsOnward(pool: Pool, id: nat, state: ConnState)
    requires IdsWithin(pool)
    ensures IdsWithin(SetState(pool, id, state)) && Onward(pool, SetState(pool, id, state))
  {
    var p := Find(pool.conns, id);
    if p < |pool.conns| {
      UpdateIsOnward(pool, p, pool.conns[p].(state := state), pool.turn);
      hide IdsWithin, Onward;
    }
  }

  lemma ErrorIsOnward(pool: Pool, id: nat)
    requires IdsWithin(pool)
    ensures IdsWithin(MarkError(pool, id)) && Onward(pool, MarkError(pool, id))
  {
    var p := Find(pool.conns, id);
    if p < |pool.conns| {
      var c := pool.conns[p];
      UpdateIsOnward(pool, p, c.(state := Errored, errorCount := c.errorCount + 1), pool.turn);
      hide IdsWithin, Onward;
    }
  }

  lemma EndIsOnward(pool: Pool, id: nat, ok: bool)
    requires IdsWithin(pool)
    ensures IdsWithin(EndReconnect(pool, id, ok)) && Onward(pool, EndReconnect(pool, id, ok))
  {
    var p := Find(pool.conns, id);
    if p < |pool.conns| {
      UpdateIsOnward(pool, p, AfterReconnect(pool.conns[p], ok), pool.turn);
      hide IdsWithin, Onward;
    }
  }

  lemma LatencyIsOnward(pool: Pool, id: nat, latency: real)
    requires IdsWithin(pool)
    ensures IdsWithin(SetLatency(pool, id, latency)) && Onward(pool, SetLatency(pool, id, latency))
  {
    var p := Find(pool.conns, id);
    if p < |pool.conns| {
      UpdateIsOnward(pool, p, pool.conns[p].(latency := latency), pool.turn);
      hide IdsWithin, Onward;
    }
  }

  lemma SurvivorsWerePooled(pool: Pool, now: real, maxAge: real)
    requires IdsWithin(pool)
    ensures IdsWithin(HealthCheck(pool, now, maxAge)) && Onward(pool, HealthCheck(pool, now, maxAge))
  {
    hide Survives;
    var r := Survivors(pool.conns, now, maxAge);
    forall i | 0 <= i < |r|
      ensures exists j :: 0 <= j < |pool.conns| && pool.conns[j].id == r[i].id
    {
      assert r[i] in r;
      var j :| 0 <= j < |pool.conns| && pool.conns[j] == r[i];
    }
  }

  lemma OnwardTransitive(a: Pool, b: Pool, c: Pool)
    requires Onward(a, b) && Onward(b, c)
    ensures Onward(a, c)
  {
    forall i | 0 <= i < |c.conns| && c.conns[i].id <= a.counter
      ensures exists j :: 0 <= j < |a.conns| && a.conns[j].id == c.conns[i].id
    {
      var k :| 0 <= k < |b.conns| && b.conns[k].id == c.conns[i].id;
    }
  }

  /** Over any run, allowed or not, the counter never falls, and an id once dropped from the pool never comes back. */
  lemma {:induction false} RunIsOnward(steps: seq<Step>, more: seq<Step>, cfg: Settings)
    ensures IdsWithin(Run(steps + more, cfg).pool)
    ensures Onward(Run(steps, cfg).pool, Run(steps + more, cfg).pool)
    decreases |more|, |steps|
  {
    hide Apply, Onward;
    if more != [] {
      var front, last := more[..|more| - 1], more[|more| - 1];
      RunIsOnward(steps, front, cfg);
      assert (steps + more)[..|steps + more| - 1] == steps + front;
      ApplyIsOnward(Run(steps + front, cfg), last, cfg);
      OnwardTransitive(Run(steps, cfg).pool, Run(steps + front, cfg).pool, Run(steps + more, cfg).pool);
    } else {
      assert steps + more == steps;
      AllIdsWithin(steps, cfg);
      OnwardReflexive(Run(steps, cfg).pool);
    }
  }

  lemma {:induction false} AllIdsWithin(steps: seq<Step>, cfg: Settings)
    ensures IdsWithin(Run(steps, cfg).pool)
  {
    hide Apply;
    if steps != [] {
      AllIdsWithin(steps[..|steps| - 1], cfg);
      ApplyIsOnward(Run(steps[..|steps| - 1], cfg), steps[|steps| - 1], cfg);
    }
  }

  lemma OnwardReflexive(pool: Pool)
    ensures Onward(pool, pool)
  {
  }

  lemma {:induction false} HandedOutWithin(steps: seq<Step>, cfg: Settings)
    ensures forall id :: id in HandedOut(steps, cfg) ==> id <= Run(steps, cfg).pool.counter
  {
    hide Select;
    if steps != [] {
      var front, last := steps[..|steps| - 1], steps[|steps| - 1];
      HandedOutWithin(front, cfg);
      AllIdsWithin(front, cfg);
      ApplyIsOnward(Run(front, cfg), last, cfg);
    }
  }

  /** A newly created connection gets an id that was handed out at no earlier point of the run. */
  lemma NewIdsAreNew(steps: seq<Step>, cfg: Settings, dice: nat, now: real)
    ensures var pool := Run(steps, cfg).pool;
            var id := Acquire(pool, cfg, dice, now).1;
            id.Some? && !Pooled(pool, id.value) ==> id.value !in HandedOut(steps, cfg)
  {
    HandedOutWithin(steps, cfg);
    var pool := Run(steps, cfg).pool;
    var choice := Select(pool, cfg.strategy, dice);
    if choice.Some? {
      SelectIsUsable(pool, cfg.strategy, dice);
      PooledIfThere(pool, choice.value);
    }
    hide Select, HandedOut, Run;
  }

  lemma PooledIfThere(pool: Pool, p: nat)
    requires p < |pool.conns|
    ensures Pooled(pool, pool.conns[p].id)
  {
  }

  // ---------- round robin ----------

  /** How many of the turns first, first+1, ..., first+n-1 fall on place j of k. */
  function Hits(first: nat, n: nat, k: nat, j: nat): nat
    requires j < k
  {
    if n == 0 then 0 else Hits(first, n - 1, k, j) + if (first + n - 1) % k == j then 1 else 0
  }

  /** How many turns before x fall on place j of k. */
  function HitsBefore(x: nat, k: nat, j: nat): nat
    requires j < k
  {
    x / k + if x % k > j then 1 else 0
  }

  lemma NextQuotient(x: nat, k: nat)
    requires 0 < k
    ensures if x % k + 1 == k then (x + 1) / k == x / k + 1 && (x + 1) % k == 0
            else (x + 1) / k == x / k && (x + 1) % k == x % k + 1
  {
    var q, r := x / k, x % k;
    assert x == q * k + r;
    if r + 1 == k {
      assert x + 1 == (q + 1) * k;
      QuotientOf(x + 1, q + 1, 0, k);
    } else {
      QuotientOf(x + 1, q, r + 1, k);
    }
  }

  lemma TimesMonotone(a: int, b: int, k: nat)
    requires a <= b
    ensures a * k <= b * k
  {
  }

  lemma QuotientOf(x: nat, q: nat, r: nat, k: nat)
    requires r < k && x == q * k + r
    ensures x / k == q && x % k == r
  {
    var d := x / k;
    assert d * k <= x < d * k + k;
    if d < q {
      TimesMonotone(d + 1, q, k);
    } else if q < d {
      TimesMonotone(q + 1, d, k);
    }
    assert d == q;
  }

  lemma {:induction false} HitsAsDifference(first: nat, n: nat, k: nat, j: nat)
    requires j < k
    ensures Hits(first, n, k, j) == HitsBefore(first + n, k, j) - HitsBefore(first, k, j)
  {
    if n > 0 {
      HitsAsDifference(first, n - 1, k, j);
      NextQuotient(first + n - 1, k);
    }
  }

  /** Any k turns in a row hit each place once, and any number of turns hits no two places unevenly. */
  lemma TurnsAreFair(first: nat, n: nat, k: nat, i: nat, j: nat)
    requires i < k && j < k
    ensures Hits(first, k, k, j) == 1
    ensures Hits(first, n, k, i) <= Hits(first, n, k, j) + 1
  {
    hide Hits, HitsBefore;
    HitsAsDifference(first, k, k, j);
    HitsOfARound(first, k, j);
    HitsAsDifference(first, n, k, i);
    HitsAsDifference(first, n, k, j);
    HitsFallWithPlace(first, k, i, j);
    HitsFallWithPlace(first + n, k, i, j);
    HitsFallWithPlace(first, k, j, i);
    HitsFallWithPlace(first + n, k, j, i);
  }

  lemma HitsOfARound(x: nat, k: nat, j: nat)
    requires j < k
    ensures HitsBefore(x + k, k, j) == HitsBefore(x, k, j) + 1
  {
    QuotientOf(x + k, x / k + 1, x % k, k);
  }

  lemma HitsFallWithPlace(x: nat, k: nat, i: nat, j: nat)
    requires i < k && j < k
    ensures i <= j ==> HitsBefore(x, k, j) <= HitsBefore(x, k, i) <= HitsBefore(x, k, j) + 1
  {
  }

  /** One acquisition followed by the release of what it gave. */
  function AcquireAndRelease(pool: Pool, cfg: Settings, now: real): Pool {
    var (taken, id) := Acquire(pool, cfg, 0, now);
    if id.None? then taken else Release(taken, id.value)
  }

  function Repeat(pool: Pool, cfg: Settings, now: real, n: nat): Pool {
    if n == 0 then pool else AcquireAndRelease(Repeat(pool, cfg, now, n - 1), cfg, now)
  }

  lemma OnePair(pool: Pool, cfg: Settings, now: real)
    requires cfg.strategy == RoundRobin && Increasing(pool.conns) && Available(pool.conns) != []
    ensures var ps := Available(pool.conns);
            var p := ps[pool.turn % |ps|];
            AcquireAndRelease(pool, cfg, now) ==
              Pool(pool.conns[p := pool.conns[p].(useCount := pool.conns[p].useCount + 1)], pool.counter, pool.turn + 1)
  {
    var ps := Available(pool.conns);
    var p := ps[pool.turn % |ps|];
    var taken := Acquire(pool, cfg, 0, now).0;
    assert Usable(pool.conns[p]);
    assert Increasing(taken.conns);
    FindPosition(taken.conns, p);
  }

  lemma {:induction false} UseCountsDoNotMatter(conns: seq<Conn>, other: seq<Conn>)
    requires |conns| == |other| && forall i :: 0 <= i < |conns| ==> Usable(conns[i]) == Usable(other[i])
    ensures Available(conns) == Available(other)
  {
    if conns != [] {
      UseCountsDoNotMatter(conns[..|conns| - 1], other[..|conns| - 1]);
    }
  }

  /** What n pairs do: the turn moves on by n, and each available connection is used once for each turn that hits it. */
  ghost predicate Used(pool: Pool, after: Pool, n: nat) {
    var ps := Available(pool.conns);
    && |after.conns| == |pool.conns| && after.turn == pool.turn + n && after.counter == pool.counter
    && (forall p :: 0 <= p < |pool.conns| ==>
          after.conns[p] == pool.conns[p].(useCount := after.conns[p].useCount))
    && (forall j :: 0 <= j < |ps| ==>
          after.conns[ps[j]].useCount == pool.conns[ps[j]].useCount + Hits(pool.turn, n, |ps|, j))
    && (forall p :: 0 <= p < |pool.conns| && !Usable(pool.conns[p]) ==> after.conns[p] == pool.conns[p])
  }

  lemma OneMoreTurn(first: nat, n: nat, k: nat, j: nat)
    requires j < k
    ensures Hits(first, n + 1, k, j) == Hits(first, n, k, j) + if (first + n) % k == j then 1 else 0
  {
  }

  lemma UsedOnceMore(pool: Pool, before: Pool, n: nat, t: nat)
    requires var k := |Available(pool.conns)|; k > 0 && Used(pool, before, n) && t == before.turn % k < k
    ensures var p := Available(pool.conns)[t];
            Used(pool, Pool(before.conns[p := before.conns[p].(useCount := before.conns[p].useCount + 1)],
                            before.counter, before.turn + 1), n + 1)
  {
    hide Hits, Usable;
    var ps := Available(pool.conns);
    var p := ps[t];
    var after := before.conns[p := before.conns[p].(useCount := before.conns[p].useCount + 1)];
    forall j | 0 <= j < |ps|
      ensures after[ps[j]].useCount == pool.conns[ps[j]].useCount + Hits(pool.turn, n + 1, |ps|, j)
    {
      OneMoreTurn(pool.turn, n, |ps|, j);
      assert ps[j] == p <==> j == t;
    }
  }

  lemma NothingUsed(pool: Pool)
    ensures Used(pool, pool, 0)
  {
  }

  lemma UsedKeepsShape(pool: Pool, after: Pool, n: nat)
    requires Used(pool, after, n) && Increasing(pool.conns)
    ensures Increasing(after.conns) && Available(after.conns) == Available(pool.conns)
  {
    hide Hits;
    UseCountsDoNotMatter(pool.conns, after.conns);
  }

  lemma {:induction false} RepeatedPairs(pool: Pool, cfg: Settings, now: real, n: nat)
    requires cfg.strategy == RoundRobin && Increasing(pool.conns) && Available(pool.conns) != []
    ensures Used(pool, Repeat(pool, cfg, now, n), n)
  {
    hide AcquireAndRelease, Used;
    if n == 0 {
      NothingUsed(pool);
    } else {
      RepeatedPairs(pool, cfg, now, n - 1);
      var before := Repeat(pool, cfg, now, n - 1);
      UsedKeepsShape(pool, before, n - 1);
      OnePair(before, cfg, now);
      UsedOnceMore(pool, before, n - 1, before.turn % |Available(pool.conns)|);
    }
  }

  /**
    Round robin is fair: over k idle healthy connections any k acquire/release pairs use each of them exactly once,
    and after any number of pairs their added uses differ by at most one.
  */
  lemma RoundRobinIsFair(pool: Pool, cfg: Settings, now: real, n: nat, i: nat, j: nat)
    requires cfg.strategy == RoundRobin && Increasing(pool.conns)
    requires i < |Available(pool.conns)| && j < |Available(pool.conns)|
    ensures var ps := Available(pool.conns);
            var once, after := Repeat(pool, cfg, now, |ps|), Repeat(pool, cfg, now, n);
            && |once.conns| == |after.conns| == |pool.conns|
            && once.conns[ps[j]].useCount == pool.conns[ps[j]].useCount + 1
            && after.conns[ps[i]].useCount - pool.conns[ps[i]].useCount
               <= after.conns[ps[j]].useCount - pool.conns[ps[j]].useCount + 1
  {
    var ps := Available(pool.conns);
    RepeatedPairs(pool, cfg, now, |ps|);
    RepeatedPairs(pool, cfg, now, n);
    TurnsAreFair(pool.turn, n, |ps|, i, j);
  }
}

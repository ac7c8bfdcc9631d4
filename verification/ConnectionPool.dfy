/**
  The MT5 connection pool (backend/infrastructure/mt5_pool.py): what each operation does to the list of pooled
  connections, and the objects that do it.  The pool's dictionary is kept as its values in order of insertion.
*/
module ConnectionPool {
  import opened Options

  datatype ConnState = Idle | InUse | Closed | Errored | Reconnecting

  /** The number stands for the id "mt5-<number>". */
  datatype Conn = Conn(id: nat, state: ConnState, useCount: nat, errorCount: nat, latency: real,
                       createdAt: real, reconnects: nat)

  datatype Strategy = RoundRobin | LeastConnections | Random | LatencyBased

  datatype Pool = Pool(conns: seq<Conn>, counter: nat, turn: nat)

  datatype Settings = Settings(maxConnections: int, maxAge: real, strategy: Strategy)

  predicate Healthy(c: Conn) {
    c.state != Errored && c.state != Closed && c.errorCount < 5
  }

  predicate Usable(c: Conn) {
    c.state == Idle && Healthy(c)
  }

  /** The positions of the idle, healthy connections, in order. */
  function Available(conns: seq<Conn>): (r: seq<nat>)
    ensures forall i :: 0 <= i < |r| ==> r[i] < |conns| && Usable(conns[r[i]])
    ensures forall p: nat :: p < |conns| && Usable(conns[p]) ==> p in r
    ensures forall i, j :: 0 <= i < j < |r| ==> r[i] < r[j]
  {
    if conns == [] then []
    else
      var n := |conns| - 1;
      Available(conns[..n]) + if Usable(conns[n]) then [n] else []
  }

  /** Whether a connection is to be preferred to another that comes before it. */
  predicate Better(c: Conn, d: Conn, strategy: Strategy) {
    if strategy == LeastConnections then c.useCount < d.useCount
    else 0.0 < c.latency && (d.latency <= 0.0 || c.latency < d.latency)
  }

  /** The first of the best connections among the given positions, as Python's min finds it. */
  function Best(conns: seq<Conn>, ps: seq<nat>, strategy: Strategy): (p: nat)
    requires ps != [] && forall i :: 0 <= i < |ps| ==> ps[i] < |conns|
    ensures p < |conns|
    ensures p in ps
  {
    var q := ps[|ps| - 1];
    if |ps| == 1 then q
    else
      var p := Best(conns, ps[..|ps| - 1], strategy);
      if Better(conns[q], conns[p], strategy) then q else p
  }

  /** The position chosen; `dice` is what the random choice comes up with. */
  function Select(pool: Pool, strategy: Strategy, dice: nat): (p: Option<nat>)
    ensures p.Some? <==> Available(pool.conns) != []
    ensures p.Some? ==> p.value in Available(pool.conns)
  {
    var ps := Available(pool.conns);
    if ps == [] then None
    else match strategy
      case RoundRobin => Some(ps[pool.turn % |ps|])
      case Random => Some(ps[dice % |ps|])
      case _ => Some(Best(pool.conns, ps, strategy))
  }

  lemma SelectIsUsable(pool: Pool, strategy: Strategy, dice: nat)
    ensures var p := Select(pool, strategy, dice);
            p.Some? ==> p.value < |pool.conns| && Usable(pool.conns[p.value])
  {
    hide Select;
    var ps := Available(pool.conns);
    assert forall q :: q in ps ==> q < |pool.conns| && Usable(pool.conns[q]);
  }

  function Take(c: Conn): Conn {
    c.(state := InUse, useCount := c.useCount + 1)
  }

  function NewConn(id: nat, now: real): Conn {
    Conn(id, Idle, 0, 0, 0.0, now, 0)
  }

  /** The pool after an acquisition, and the id of the connection handed out, if any. */
  function Acquire(pool: Pool, cfg: Settings, dice: nat, now: real): (Pool, Option<nat>) {
    var choice := Select(pool, cfg.strategy, dice);
    if choice.Some? then
      var c := pool.conns[choice.value];
      (pool.(conns := pool.conns[choice.value := Take(c)],
             turn := if cfg.strategy == RoundRobin then pool.turn + 1 else pool.turn), Some(c.id))
    else if |pool.conns| < cfg.maxConnections then
      var id := pool.counter + 1;
      (Pool(pool.conns + [Take(NewConn(id, now))], id, pool.turn), Some(id))
    else (pool, None)
  }

  /** The position of an id, or the length of the list if it is not pooled. */
  function Find(conns: seq<Conn>, id: nat): (p: nat)
    ensures p <= |conns|
    ensures p < |conns| ==> conns[p].id == id
    ensures forall q :: 0 <= q < p ==> conns[q].id != id
  {
    if conns == [] then 0
    else if conns[0].id == id then 0
    else 1 + Find(conns[1..], id)
  }

  function SetState(pool: Pool, id: nat, state: ConnState): Pool {
    var p := Find(pool.conns, id);
    if p == |pool.conns| then pool
    else pool.(conns := pool.conns[p := pool.conns[p].(state := state)])
  }

  function Release(pool: Pool, id: nat): Pool {
    SetState(pool, id, Idle)
  }

  function MarkError(pool: Pool, id: nat): Pool {
    var p := Find(pool.conns, id);
    if p == |pool.conns| then pool
    else pool.(conns := pool.conns[p := pool.conns[p].(state := Errored, errorCount := pool.conns[p].errorCount + 1)])
  }

  function SetLatency(pool: Pool, id: nat, latency: real): Pool {
    var p := Find(pool.conns, id);
    if p == |pool.conns| then pool else pool.(conns := pool.conns[p := pool.conns[p].(latency := latency)])
  }

  predicate Survives(c: Conn, now: real, maxAge: real) {
    Healthy(c) && now - c.createdAt <= maxAge
  }

  /** A connection after the health check has looked at it. */
  function Marked(c: Conn, now: real, maxAge: real): Conn {
    if Survives(c, now, maxAge) then c else c.(state := Closed)
  }

  function Survivors(conns: seq<Conn>, now: real, maxAge: real): (r: seq<Conn>)
    ensures forall c :: c in r <==> c in conns && Survives(c, now, maxAge)
    ensures |r| <= |conns|
  {
    if conns == [] then []
    else
      var n := |conns| - 1;
      Survivors(conns[..n], now, maxAge) + if Survives(conns[n], now, maxAge) then [conns[n]] else []
  }

  ghost predicate Increasing(conns: seq<Conn>) {
    forall i, j :: 0 <= i < j < |conns| ==> conns[i].id < conns[j].id
  }

  lemma {:induction false} SurvivorsKeepOrder(conns: seq<Conn>, now: real, maxAge: real)
    requires Increasing(conns)
    ensures Increasing(Survivors(conns, now, maxAge))
  {
    hide Survives;
    if conns != [] {
      var n := |conns| - 1;
      var front := Survivors(conns[..n], now, maxAge);
      SurvivorsKeepOrder(conns[..n], now, maxAge);
      forall i | 0 <= i < |front|
        ensures front[i].id < conns[n].id
      {
        assert front[i] in front;
      }
      assert Increasing(front + [conns[n]]);
    }
  }

  function InState(conns: seq<Conn>, state: ConnState): nat {
    if conns == [] then 0
    else
      var n := |conns| - 1;
      InState(conns[..n], state) + if conns[n].state == state then 1 else 0
  }

  function Unhealthy(conns: seq<Conn>): nat {
    if conns == [] then 0
    else
      var n := |conns| - 1;
      Unhealthy(conns[..n]) + if Healthy(conns[n]) then 0 else 1
  }

  lemma {:induction false} NoneUnhealthy(conns: seq<Conn>)
    requires forall c :: c in conns ==> Healthy(c)
    ensures Unhealthy(conns) == 0
  {
    if conns != [] {
      assert conns[|conns| - 1] in conns;
      NoneUnhealthy(conns[..|conns| - 1]);
    }
  }

  lemma SurvivorsAreHealthy(conns: seq<Conn>, now: real, maxAge: real)
    ensures Unhealthy(Survivors(conns, now, maxAge)) == 0
  {
    NoneUnhealthy(Survivors(conns, now, maxAge));
  }

  lemma SurvivorsExactly(conns: seq<Conn>, now: real, maxAge: real)
    ensures forall c :: c in Survivors(conns, now, maxAge) <==>
      c in conns && c.state != Errored && c.state != Closed && c.errorCount < 5 && now - c.createdAt <= maxAge
  {
  }

  lemma SurvivorsGrow(conns: seq<Conn>, i: nat, now: real, maxAge: real)
    requires i < |conns|
    ensures Survivors(conns[..i + 1], now, maxAge) ==
            Survivors(conns[..i], now, maxAge) + if Survives(conns[i], now, maxAge) then [conns[i]] else []
    ensures if Survives(conns[i], now, maxAge) then Marked(conns[i], now, maxAge) == conns[i] && conns[i].state != Closed
            else Marked(conns[i], now, maxAge).state == Closed
  {
    assert conns[..i + 1][..i] == conns[..i];
  }

  function HealthCheck(pool: Pool, now: real, maxAge: real): Pool {
    pool.(conns := Survivors(pool.conns, now, maxAge))
  }

  function BeginReconnect(pool: Pool, id: nat): Pool {
    SetState(pool, id, Reconnecting)
  }

  /** A connection whose reconnection succeeded or failed. */
  function AfterReconnect(c: Conn, ok: bool): Conn {
    if ok then c.(state := Idle, errorCount := if c.errorCount == 0 then 0 else c.errorCount - 1,
                  reconnects := c.reconnects + 1)
    else c.(state := Errored)
  }

  function EndReconnect(pool: Pool, id: nat, ok: bool): Pool {
    var p := Find(pool.conns, id);
    if p == |pool.conns| then pool else pool.(conns := pool.conns[p := AfterReconnect(pool.conns[p], ok)])
  }

  // ---------- the objects ----------

  class MT5Connection {
    const id: nat
    const createdAt: real
    var state: ConnState
    var useCount: nat
    var errorCount: nat
    var latency: real
    var reconnectCount: nat

    function View(): Conn
      reads this
    {
      Conn(id, state, useCount, errorCount, latency, createdAt, reconnectCount)
    }

    constructor (id: nat, now: real)
      ensures View() == NewConn(id, now) == Conn(id, Idle, 0, 0, 0.0, now, 0)
    {
      this.id, createdAt := id, now;
      state, useCount, errorCount, latency, reconnectCount := Idle, 0, 0, 0.0, 0;
    }

    method Acquire() returns (ok: bool)
      modifies this
      ensures ok <==> old(state) == Idle
      ensures View() == if ok then Take(old(View())) else old(View())
    {
      if state == Idle {
        state := InUse;
        useCount := useCount + 1;
        return true;
      }
      return false;
    }

    method Release()
      modifies this
      ensures View() == old(View()).(state := Idle)
    {
      state := Idle;
    }

    /** Called by whoever holds the connection. */
    method MarkError()
      modifies this
      ensures View() == old(View()).(state := Errored, errorCount := old(errorCount) + 1)
    {
      errorCount := errorCount + 1;
      state := Errored;
    }

    method CheckHealth(now: real, maxAge: real)
      modifies this
      ensures View() == Marked(old(View()), now, maxAge)
    {
      if !Healthy(View()) {
        state := Closed;
      }
      if now - createdAt > maxAge {
        state := Closed;
      }
    }

    method Reconnected(ok: bool)
      modifies this
      ensures View() == AfterReconnect(old(View()), ok)
    {
      if ok {
        state := Idle;
        errorCount := if errorCount == 0 then 0 else errorCount - 1;
        reconnectCount := reconnectCount + 1;
      } else {
        state := Errored;
      }
    }

    method MarkReconnecting()
      modifies this
      ensures View() == old(View()).(state := Reconnecting)
    {
      state := Reconnecting;
    }
  }

  ghost function Views(cs: seq<MT5Connection>): (r: seq<Conn>)
    reads cs
    ensures |r| == |cs| && forall i :: 0 <= i < |cs| ==> r[i] == cs[i].View()
  {
    seq(|cs|, i requires 0 <= i < |cs| reads cs => cs[i].View())
  }

  lemma ViewsGrow(cs: seq<MT5Connection>, c: MT5Connection)
    ensures Views(cs + [c]) == Views(cs) + [c.View()]
  {
  }

  lemma IdsOfViews(cs: seq<MT5Connection>, counter: nat)
    requires Increasing(Views(cs)) && forall c :: c in Views(cs) ==> c.id <= counter
    ensures forall i, j :: 0 <= i < j < |cs| ==> cs[i].id < cs[j].id
    ensures forall i :: 0 <= i < |cs| ==> cs[i].id <= counter
  {
    assert forall i :: 0 <= i < |cs| ==> Views(cs)[i].id == cs[i].id && Views(cs)[i] in Views(cs);
  }

  lemma ViewsOfIds(cs: seq<MT5Connection>, counter: nat)
    requires forall i, j :: 0 <= i < j < |cs| ==> cs[i].id < cs[j].id
    requires forall i :: 0 <= i < |cs| ==> cs[i].id <= counter
    ensures Increasing(Views(cs)) && forall c :: c in Views(cs) ==> c.id <= counter
  {
  }

  lemma SurvivorsKeepIds(conns: seq<Conn>, now: real, maxAge: real, counter: nat)
    requires Increasing(conns) && forall c :: c in conns ==> c.id <= counter
    ensures var r := Survivors(conns, now, maxAge);
            Increasing(r) && forall c :: c in r ==> c.id <= counter
  {
    hide Survives;
    SurvivorsKeepOrder(conns, now, maxAge);
  }

  lemma NoViews(conns: seq<Conn>, now: real, maxAge: real)
    ensures Views([]) == Survivors(conns[..0], now, maxAge) == []
  {
  }

  class MT5ConnectionPool {
    const cfg: Settings
    var connections: seq<MT5Connection>
    var connCounter: nat
    var roundRobinIndex: nat

    ghost predicate Valid()
      reads this
    {
      && (forall i, j :: 0 <= i < j < |connections| ==> connections[i].id < connections[j].id)
      && (forall i :: 0 <= i < |connections| ==> connections[i].id <= connCounter)
    }

    ghost function View(): Pool
      reads this, connections
    {
      Pool(Views(connections), connCounter, roundRobinIndex)
    }

    constructor (cfg: Settings)
      ensures Valid() && this.cfg == cfg && View() == Pool([], 0, 0)
    {
      this.cfg := cfg;
      connections, connCounter, roundRobinIndex := [], 0, 0;
    }

    /** The positions of the idle, healthy connections. */
    method FindAvailable() returns (ps: seq<nat>)
      ensures ps == Available(Views(connections))
    {
      ghost var conns := Views(connections);
      ps := [];
      for i := 0 to |connections|
        invariant ps == Available(conns[..i])
      {
        assert conns[..i + 1][..i] == conns[..i];
        var c := connections[i].View();
        if Usable(c) {
          ps := ps + [i];
        }
      }
      assert conns[..|conns|] == conns;
    }

    /** The first of the best, by use count or by latency. */
    method FindBest(ps: seq<nat>) returns (p: nat)
      requires ps != [] && forall i :: 0 <= i < |ps| ==> ps[i] < |connections|
      ensures p == Best(Views(connections), ps, cfg.strategy)
    {
      p := ps[0];
      for i := 1 to |ps|
        invariant p in ps[..i] && p == Best(Views(connections), ps[..i], cfg.strategy)
      {
        assert ps[..i + 1][..i] == ps[..i];
        if Better(connections[ps[i]].View(), connections[p].View(), cfg.strategy) {
          p := ps[i];
        }
      }
      assert ps[..|ps|] == ps;
    }

    method SelectConnection(dice: nat) returns (p: Option<nat>)
      modifies `roundRobinIndex
      ensures p == Select(old(View()), cfg.strategy, dice)
      ensures roundRobinIndex == old(roundRobinIndex) + if p.Some? && cfg.strategy == RoundRobin then 1 else 0
    {
      hide Available, Best, Views;
      var ps := FindAvailable();
      if ps == [] {
        return None;
      }
      match cfg.strategy
      case RoundRobin =>
        p := Some(ps[roundRobinIndex % |ps|]);
        roundRobinIndex := roundRobinIndex + 1;
      case Random =>
        p := Some(ps[dice % |ps|]);
      case _ =>
        var best := FindBest(ps);
        p := Some(best);
    }

    /** Hands out a pooled connection. */
    method TakePooled(p: nat) returns (c: MT5Connection)
      requires Valid() && p < |connections| && connections[p].state == Idle
      modifies connections
      ensures c == connections[p]
      ensures Views(connections) == old(Views(connections))[p := Take(old(Views(connections)[p]))]
    {
      c := connections[p];
      var ok := c.Acquire();
      assert forall q :: 0 <= q < |connections| && q != p ==> connections[q] != c;
    }

    /** Adds a connection and hands it out. */
    method TakeNew(now: real) returns (c: MT5Connection)
      requires Valid()
      modifies this
      ensures Valid() && connCounter == old(connCounter) + 1 && roundRobinIndex == old(roundRobinIndex)
      ensures fresh(c) && c.id == connCounter && connections == old(connections) + [c]
      ensures c.View() == Take(NewConn(connCounter, now))
    {
      connCounter := connCounter + 1;
      c := new MT5Connection(connCounter, now);
      connections := connections + [c];
      var ok := c.Acquire();
    }

    method AcquireConnection(dice: nat, now: real) returns (c: MT5Connection?)
      requires Valid()
      modifies this, connections
      ensures Valid() && View() == Acquire(old(View()), cfg, dice, now).0
      ensures Acquire(old(View()), cfg, dice, now).1 == if c == null then None else Some(c.id)
      ensures c != null ==> c in connections
    {
      hide Select, Views;
      SelectIsUsable(View(), cfg.strategy, dice);
      var choice := SelectConnection(dice);
      if choice.Some? {
        c := TakePooled(choice.value);
        return c;
      }
      if |connections| < cfg.maxConnections {
        ghost var views := Views(connections);
        c := TakeNew(now);
        assert Views(connections) == views + [c.View()];
        return c;
      }
      return null;
    }

    /** The position of an id, or the number of connections when it is not pooled. */
    method FindById(id: nat) returns (p: nat)
      ensures p == Find(Views(connections), id)
    {
      p := 0;
      while p < |connections| && connections[p].id != id
        invariant p <= |connections| && forall q :: 0 <= q < p ==> connections[q].id != id
      {
        p := p + 1;
      }
    }

    method ReleaseConnection(id: nat)
      requires Valid()
      modifies connections
      ensures Valid() && View() == Release(old(View()), id)
    {
      var p := FindById(id);
      if p < |connections| {
        connections[p].Release();
        assert Views(connections) == old(Views(connections))[p := connections[p].View()];
      }
    }

    method UpdateLatency(id: nat, latency: real)
      requires Valid()
      modifies connections
      ensures Valid() && View() == SetLatency(old(View()), id, latency)
    {
      var p := FindById(id);
      if p < |connections| {
        connections[p].latency := latency;
        assert Views(connections) == old(Views(connections))[p := connections[p].View()];
      }
    }

    /** Closes what is unhealthy or too old. */
    method CloseUnfit(now: real)
      requires Valid()
      modifies connections
      ensures |Views(connections)| == |old(Views(connections))|
      ensures forall i :: 0 <= i < |connections| ==>
        connections[i].View() == Marked(old(connections[i].View()), now, cfg.maxAge)
    {
      hide Marked;
      for i := 0 to |connections|
        invariant forall j :: 0 <= j < i ==> connections[j].View() == Marked(old(connections[j].View()), now, cfg.maxAge)
        invariant forall j :: i <= j < |connections| ==> connections[j].View() == old(connections[j].View())
      {
        connections[i].CheckHealth(now, cfg.maxAge);
      }
    }

    /** The connections that are still open once the list `conns` has been marked. */
    method OpenOnes(ghost conns: seq<Conn>, now: real) returns (kept: seq<MT5Connection>)
      requires Valid() && |conns| == |connections|
      requires forall i :: 0 <= i < |connections| ==> connections[i].View() == Marked(conns[i], now, cfg.maxAge)
      ensures Views(kept) == Survivors(conns, now, cfg.maxAge)
      ensures forall c :: c in kept ==> c in connections
    {
      hide Marked, Survives, Survivors, Views;
      kept := [];
      assert Views(kept) == Survivors(conns[..0], now, cfg.maxAge) by { NoViews(conns, now, cfg.maxAge); }
      for i := 0 to |connections|
        invariant forall c :: c in kept ==> c in connections
        invariant Views(kept) == Survivors(conns[..i], now, cfg.maxAge)
      {
        SurvivorsGrow(conns, i, now, cfg.maxAge);
        if connections[i].state != Closed {
          ViewsGrow(kept, connections[i]);
          kept := kept + [connections[i]];
        }
      }
      assert conns[..|conns|] == conns;
    }

    /** How many pooled connections are in a state. */
    method CountIn(state: ConnState) returns (n: nat)
      ensures n == InState(Views(connections), state)
    {
      ghost var conns := Views(connections);
      n := 0;
      for i := 0 to |connections|
        invariant n == InState(conns[..i], state)
      {
        assert conns[..i + 1][..i] == conns[..i];
        if connections[i].state == state {
          n := n + 1;
        }
      }
      assert conns[..|conns|] == conns;
    }

    method CountUnhealthy() returns (n: nat)
      ensures n == Unhealthy(Views(connections))
    {
      ghost var conns := Views(connections);
      n := 0;
      for i := 0 to |connections|
        invariant n == Unhealthy(conns[..i])
      {
        assert conns[..i + 1][..i] == conns[..i];
        if !Healthy(connections[i].View()) {
          n := n + 1;
        }
      }
      assert conns[..|conns|] == conns;
    }

    /** Closes what is unhealthy or too old, then drops what is closed. */
    method DropUnfit(now: real)
      requires Valid()
      modifies this, connections
      ensures Valid() && View() == HealthCheck(old(View()), now, cfg.maxAge)
    {
      hide Survivors, Views, Marked, Increasing;
      ghost var conns := Views(connections);
      ViewsOfIds(connections, connCounter);
      SurvivorsKeepIds(conns, now, cfg.maxAge, connCounter);
      CloseUnfit(now);
      var kept := OpenOnes(conns, now);
      IdsOfViews(kept, connCounter);
      connections := kept;
    }

    /** The health check with what it reports; of what is left nothing is ever unhealthy. */
    method RunHealthCheck(now: real) returns (total: nat, idle: nat, inUse: nat, unhealthy: nat)
      requires Valid()
      modifies this, connections
      ensures Valid() && View() == HealthCheck(old(View()), now, cfg.maxAge)
      ensures total == |View().conns| && idle == InState(View().conns, Idle) && inUse == InState(View().conns, InUse)
      ensures unhealthy == 0
      ensures forall c :: c in View().conns <==>
        && c in old(View()).conns && c.state != Errored && c.state != Closed && c.errorCount < 5
        && now - c.createdAt <= cfg.maxAge
    {
      hide Survivors, Views, InState, Unhealthy, Increasing;
      ghost var conns := Views(connections);
      SurvivorsExactly(conns, now, cfg.maxAge);
      DropUnfit(now);
      total := |connections|;
      idle := CountIn(Idle);
      inUse := CountIn(InUse);
      unhealthy := CountUnhealthy();
      SurvivorsAreHealthy(conns, now, cfg.maxAge);
    }

    /** The look-up of a reconnection, under the lock, which is not held after it. */
    method LookUp(id: nat) returns (c: MT5Connection?)
      ensures c == null <==> Find(Views(connections), id) == |connections|
      ensures c != null ==> c in connections && c.id == id
    {
      var p := FindById(id);
      c := if p == |connections| then null else connections[p];
    }

    /** The start of a reconnection; the connection may have been dropped since it was looked up. */
    method StartReconnect(c: MT5Connection)
      requires Valid()
      modifies c
      ensures Valid() && View() == if c in connections then BeginReconnect(old(View()), c.id) else old(View())
    {
      hide Find, Views;
      ghost var p := Find(Views(connections), c.id);
      if c in connections {
        OnlyAt(c);
      }
      c.MarkReconnecting();
      if c in connections {
        assert Views(connections) == old(Views(connections))[p := c.View()];
      } else {
        assert Views(connections) == old(Views(connections));
      }
    }

    lemma OnlyAt(c: MT5Connection)
      requires Valid() && c in connections
      ensures var p := Find(Views(connections), c.id);
              && p < |connections| && connections[p] == c
              && forall q :: 0 <= q < |connections| && q != p ==> connections[q] != c
    {
      hide Find;
      var q :| 0 <= q < |connections| && connections[q] == c;
      assert Views(connections)[q].id == c.id;
    }

    /** The end of a reconnection; the connection may have been dropped from the pool meanwhile. */
    method FinishReconnect(c: MT5Connection, ok: bool)
      requires Valid()
      modifies c
      ensures Valid() && View() == if c in connections then EndReconnect(old(View()), c.id, ok) else old(View())
    {
      hide Find, Views;
      ghost var p := Find(Views(connections), c.id);
      if c in connections {
        OnlyAt(c);
      }
      c.Reconnected(ok);
      if c in connections {
        assert Views(connections) == old(Views(connections))[p := c.View()];
      } else {
        assert Views(connections) == old(Views(connections));
      }
    }
  }
}

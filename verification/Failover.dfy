/**
  The failover manager (backend/infrastructure/failover_manager.py): first what each critical section does to the
  node table, as functions on a `Table`; then the object whose methods do it in place.
*/
module Failover {
  import opened Options
  import opened Dicts

  datatype Status = Standby | Active | Failed | Recovering
  datatype Details = Details(host: string, port: int, metadata: map<string, string>)
  datatype Node = Node(details: Details, priority: int, status: Status, lastHeartbeat: real, missed: int,
                       failoverCount: nat)

  /** Of the four states the source declares, only these two are ever assigned. */
  datatype Phase = Normal | InProgress

  datatype Table = Table(nodes: Dict<string, Node>, active: Option<string>, phase: Phase)

  datatype Settings = Settings(threshold: int, interval: real)

  // ---------- the critical sections ----------

  function Register(t: Table, id: string, details: Details, priority: int, now: real): Table {
    t.(nodes := Put(t.nodes, id, Node(details, priority, Standby, now, 0, 0)))
  }

  function WithStatus(nodes: Dict<string, Node>, id: string, status: Status): Dict<string, Node>
    requires id in nodes.vals
  {
    Put(nodes, id, nodes.vals[id].(status := status))
  }

  function SetActive(t: Table, id: string): Table {
    if id !in t.nodes.vals then t
    else
      var demoted := if Given(t.active) && t.active.value in t.nodes.vals
                     then WithStatus(t.nodes, t.active.value, Standby) else t.nodes;
      t.(nodes := WithStatus(demoted, id, Active), active := Some(id))
  }

  function Heartbeat(t: Table, id: string, now: real): Table {
    if id !in t.nodes.vals then t
    else
      var n := t.nodes.vals[id];
      t.(nodes := Put(t.nodes, id, n.(lastHeartbeat := now, missed := 0,
                                      status := if n.status == Failed then Standby else n.status)))
  }

  /** Python's int(): truncation toward zero. */
  function Truncate(x: real): int {
    if x < 0.0 then -(-x).Floor else x.Floor
  }

  function MissedBeats(n: Node, now: real, cfg: Settings): real
    requires cfg.interval != 0.0
  {
    (now - n.lastHeartbeat) / cfg.interval
  }

  /** A node marked active that is not the active node is passed over by the check. */
  predicate Overdue(id: string, n: Node, active: Option<string>, now: real, cfg: Settings)
    requires cfg.interval != 0.0
  {
    !(n.status == Active && active != Some(id)) && MissedBeats(n, now, cfg) > cfg.threshold as real
  }

  function Checked(id: string, n: Node, active: Option<string>, now: real, cfg: Settings): Node
    requires cfg.interval != 0.0
  {
    if !Overdue(id, n, active, now, cfg) then n
    else n.(missed := Truncate(MissedBeats(n, now, cfg)), status := Failed,
            failoverCount := if n.status == Failed then n.failoverCount else n.failoverCount + 1)
  }

  function CheckAll(t: Table, now: real, cfg: Settings): Table
    requires cfg.interval != 0.0
  {
    t.(nodes := RawDict(t.nodes.keys, map id | id in t.nodes.vals :: Checked(id, t.nodes.vals[id], t.active, now, cfg)))
  }

  predicate NewlyFailed(id: string, n: Node, active: Option<string>, now: real, cfg: Settings)
    requires cfg.interval != 0.0
  {
    n.status != Failed && Overdue(id, n, active, now, cfg)
  }

  /** The ids among `ids` that the check newly fails, in order. */
  function NewFailures(t: Table, ids: seq<string>, now: real, cfg: Settings): (r: seq<string>)
    requires cfg.interval != 0.0 && forall id :: id in ids ==> id in t.nodes.vals
    ensures forall id :: id in r <==> id in ids && NewlyFailed(id, t.nodes.vals[id], t.active, now, cfg)
  {
    if ids == [] then []
    else
      var last := ids[|ids| - 1];
      NewFailures(t, ids[..|ids| - 1], now, cfg)
      + if NewlyFailed(last, t.nodes.vals[last], t.active, now, cfg) then [last] else []
  }

  /** The source a failover would start from, or None when it is refused. */
  function FailoverSource(t: Table, source: Option<string>): Option<string> {
    var from := if Given(source) then source else t.active;
    if t.phase == InProgress || !Given(from) || from.value !in t.nodes.vals then None else from
  }

  predicate Eligible(t: Table, id: string, exclude: string)
    requires id in t.nodes.vals
  {
    id != exclude && t.nodes.vals[id].status != Failed && t.nodes.vals[id].priority >= 0
  }

  /** The scan of `_select_backup_node` over the first nodes registered. */
  function Select(t: Table, ids: seq<string>, exclude: string): (r: Option<string>)
    requires forall id :: id in ids ==> id in t.nodes.vals
    ensures r.Some? ==> r.value in ids && Eligible(t, r.value, exclude)
  {
    if ids == [] then None
    else
      var best, id := Select(t, ids[..|ids| - 1], exclude), ids[|ids| - 1];
      if Eligible(t, id, exclude)
         && (best.None? || t.nodes.vals[id].priority > t.nodes.vals[best.value].priority)
      then Some(id) else best
  }

  function ChooseTarget(t: Table, source: string, target: Option<string>): Option<string> {
    if Given(target) then target else Select(t, t.nodes.keys, source)
  }

  /** The second critical section; an unregistered target raises after the source has been failed. */
  function Commit(t: Table, source: string, target: string): Table
    requires source in t.nodes.vals
  {
    var n := t.nodes.vals[source];
    var failed := Put(t.nodes, source, n.(status := Failed, failoverCount := n.failoverCount + 1));
    if target !in failed.vals then t.(nodes := failed)
    else t.(nodes := WithStatus(failed, target, Active), active := Some(target), phase := Normal)
  }

  /** A failover that nothing interleaves with. */
  function Trigger(t: Table, source: Option<string>, target: Option<string>): Table {
    var from := FailoverSource(t, source);
    if from.None? then t
    else
      var chosen := ChooseTarget(t.(phase := InProgress), from.value, target);
      if !Given(chosen) then t.(phase := Normal)
      else Commit(t.(phase := InProgress), from.value, chosen.value)
  }

  /** What a failover does: hands over, or is refused, or raises after its source has been failed. */
  datatype Handover = HandedOver(target: string) | Refused | Raised

  function Outcome(t: Table, source: Option<string>, target: Option<string>): Handover {
    var from := FailoverSource(t, source);
    if from.None? then Refused
    else
      var chosen := ChooseTarget(t.(phase := InProgress), from.value, target);
      if !Given(chosen) then Refused else if chosen.value in t.nodes.vals then HandedOver(chosen.value) else Raised
  }

  function Recover(t: Table, id: string): Table {
    if id !in t.nodes.vals || t.nodes.vals[id].status != Failed then t
    else t.(nodes := Put(t.nodes, id, t.nodes.vals[id].(status := Recovering, missed := 0)))
  }

  /** The reaction of one monitor round to the nodes the check has newly failed. */
  function React(t: Table, failed: seq<string>): Table {
    if failed == [] then t
    else
      var id, before := failed[|failed| - 1], React(t, failed[..|failed| - 1]);
      if Some(id) == before.active then Trigger(before, Some(id), None) else before
  }

  function MonitorRound(t: Table, now: real, cfg: Settings): Table
    requires cfg.interval != 0.0
  {
    React(CheckAll(t, now, cfg), NewFailures(t, t.nodes.keys, now, cfg))
  }

  /** The first i nodes of t have been checked, the others are untouched. */
  ghost predicate PartlyChecked(t: Table, vals: map<string, Node>, i: nat, now: real, cfg: Settings)
    requires cfg.interval != 0.0
  {
    && vals.Keys == t.nodes.vals.Keys
    && forall j :: 0 <= j < |t.nodes.keys| ==>
         var id := t.nodes.keys[j];
         vals[id] == if j < i then Checked(id, t.nodes.vals[id], t.active, now, cfg) else t.nodes.vals[id]
  }

  lemma PartlyCheckedStep(t: Table, vals: map<string, Node>, i: nat, now: real, cfg: Settings)
    requires cfg.interval != 0.0 && i < |t.nodes.keys| && PartlyChecked(t, vals, i, now, cfg)
    ensures var id := t.nodes.keys[i];
            && vals[id] == t.nodes.vals[id]
            && PartlyChecked(t, vals[id := Checked(id, vals[id], t.active, now, cfg)], i + 1, now, cfg)
            && NewFailures(t, t.nodes.keys[..i + 1], now, cfg)
            == NewFailures(t, t.nodes.keys[..i], now, cfg)
               + if NewlyFailed(id, t.nodes.vals[id], t.active, now, cfg) then [id] else []
  {
    hide Checked, Overdue, NewlyFailed, NewFailures;
    OneMoreFailure(t, i, now, cfg);
  }

  lemma OneMoreFailure(t: Table, i: nat, now: real, cfg: Settings)
    requires cfg.interval != 0.0 && i < |t.nodes.keys|
    ensures var id := t.nodes.keys[i];
            NewFailures(t, t.nodes.keys[..i + 1], now, cfg)
            == NewFailures(t, t.nodes.keys[..i], now, cfg)
               + if NewlyFailed(id, t.nodes.vals[id], t.active, now, cfg) then [id] else []
  {
    hide NewlyFailed;
    assert t.nodes.keys[..i + 1][..i] == t.nodes.keys[..i];
  }

  lemma PartlyCheckedEnds(t: Table, vals: map<string, Node>, i: nat, now: real, cfg: Settings)
    requires cfg.interval != 0.0
    ensures i == 0 && vals == t.nodes.vals ==>
              PartlyChecked(t, vals, i, now, cfg) && NewFailures(t, t.nodes.keys[..0], now, cfg) == []
    ensures i == |t.nodes.keys| && PartlyChecked(t, vals, i, now, cfg) ==> vals == CheckAll(t, now, cfg).nodes.vals
  {
    hide Checked, Overdue;
  }

  lemma NothingSelected(t: Table, exclude: string)
    ensures Select(t, t.nodes.keys[..0], exclude) == None
  {
  }

  lemma OneMoreCandidate(t: Table, i: nat, exclude: string)
    requires i < |t.nodes.keys|
    ensures var best, id := Select(t, t.nodes.keys[..i], exclude), t.nodes.keys[i];
            Select(t, t.nodes.keys[..i + 1], exclude) ==
              if Eligible(t, id, exclude)
                 && (best.None? || t.nodes.vals[id].priority > t.nodes.vals[best.value].priority)
              then Some(id) else best
  {
    assert t.nodes.keys[..i + 1][..i] == t.nodes.keys[..i];
  }

  // ---------- the object ----------

  class FailoverManager {
    const cfg: Settings
    var nodes: Dict<string, Node>
    var activeNodeId: Option<string>
    var phase: Phase

    ghost predicate Valid() {
      cfg.interval != 0.0
    }

    ghost function View(): Table
      reads this
    {
      Table(nodes, activeNodeId, phase)
    }

    constructor (threshold: int, interval: real)
      requires interval != 0.0
      ensures Valid() && cfg == Settings(threshold, interval)
      ensures View() == Table(Empty(), None, Normal)
    {
      cfg := Settings(threshold, interval);
      nodes, activeNodeId, phase := Empty(), None, Normal;
    }

    method RegisterNode(id: string, details: Details, priority: int, now: real)
      modifies this
      ensures View() == Register(old(View()), id, details, priority, now)
    {
      nodes := Put(nodes, id, Node(details, priority, Standby, now, 0, 0));
    }

    method SetActiveNode(id: string)
      modifies this
      ensures View() == SetActive(old(View()), id)
    {
      if id !in nodes.vals {
        return;
      }
      if Given(activeNodeId) && activeNodeId.value in nodes.vals {
        nodes := Put(nodes, activeNodeId.value, nodes.vals[activeNodeId.value].(status := Standby));
      }
      nodes := Put(nodes, id, nodes.vals[id].(status := Active));
      activeNodeId := Some(id);
    }

    method RecordHeartbeat(id: string, now: real) returns (known: bool)
      modifies this
      ensures View() == Heartbeat(old(View()), id, now)
      ensures known <==> id in old(nodes.vals)
      ensures known ==>
        && id in nodes.vals && nodes.vals[id].lastHeartbeat == now && nodes.vals[id].missed == 0
        && nodes.vals[id].status == if old(nodes).vals[id].status == Failed then Standby else old(nodes).vals[id].status
    {
      if id !in nodes.vals {
        return false;
      }
      var node := nodes.vals[id];
      var wasFailed := node.status == Failed;
      node := node.(lastHeartbeat := now, missed := 0);
      if wasFailed {
        node := node.(status := Standby);
      }
      nodes := Put(nodes, id, node);
      return true;
    }

    method CheckNode(id: string, now: real) returns (newlyFailed: bool)
      requires Valid() && id in nodes.vals
      modifies this
      ensures activeNodeId == old(activeNodeId) && phase == old(phase) && nodes.keys == old(nodes.keys)
      ensures nodes.vals == old(nodes.vals)[id := Checked(id, old(nodes.vals)[id], activeNodeId, now, cfg)]
      ensures newlyFailed == NewlyFailed(id, old(nodes.vals)[id], activeNodeId, now, cfg)
    {
      var node := nodes.vals[id];
      newlyFailed := false;
      if node.status == Active && Some(id) != activeNodeId {
        return;
      }
      var expected := (now - node.lastHeartbeat) / cfg.interval;
      if expected > cfg.threshold as real {
        node := node.(missed := Truncate(expected));
        if node.status != Failed {
          node := node.(status := Failed, failoverCount := node.failoverCount + 1);
          newlyFailed := true;
        }
        nodes := Put(nodes, id, node);
      }
    }

    method CheckFailures(now: real) returns (failed: seq<string>)
      requires Valid()
      modifies this
      ensures View() == CheckAll(old(View()), now, cfg)
      ensures failed == NewFailures(old(View()), old(nodes.keys), now, cfg)
    {
      hide Checked, Overdue, NewFailures, NewlyFailed, PartlyChecked;
      ghost var t := View();
      var ids := nodes.keys;
      failed := [];
      PartlyCheckedEnds(t, nodes.vals, 0, now, cfg);
      for i := 0 to |ids|
        invariant activeNodeId == t.active && phase == t.phase && nodes.keys == ids == t.nodes.keys
        invariant PartlyChecked(t, nodes.vals, i, now, cfg)
        invariant failed == NewFailures(t, ids[..i], now, cfg)
      {
        PartlyCheckedStep(t, nodes.vals, i, now, cfg);
        var newlyFailed := CheckNode(ids[i], now);
        if newlyFailed {
          failed := failed + [ids[i]];
        }
      }
      PartlyCheckedEnds(t, nodes.vals, |ids|, now, cfg);
      assert ids[..|ids|] == ids;
    }

    method SelectBackupNode(exclude: string) returns (best: Option<string>)
      ensures best == Select(View(), nodes.keys, exclude)
    {
      hide Select;
      NothingSelected(View(), exclude);
      best := None;
      var bestPriority := -1;
      for i := 0 to |nodes.keys|
        invariant best == Select(View(), nodes.keys[..i], exclude)
        invariant bestPriority == if best.None? then -1 else nodes.vals[best.value].priority
      {
        var id := nodes.keys[i];
        OneMoreCandidate(View(), i, exclude);
        if id != exclude && nodes.vals[id].status != Failed && nodes.vals[id].priority > bestPriority {
          bestPriority := nodes.vals[id].priority;
          best := Some(id);
        }
      }
      assert nodes.keys[..|nodes.keys|] == nodes.keys;
    }

    /** The first critical section of a failover: the source it starts from, or None when it is refused. */
    method BeginFailover(source: Option<string>) returns (from: Option<string>)
      modifies this
      ensures from == FailoverSource(old(View()), source)
      ensures View() == if from.None? then old(View()) else old(View()).(phase := InProgress)
    {
      if phase == InProgress {
        return None;
      }
      from := if Given(source) then source else activeNodeId;
      if !Given(from) || from.value !in nodes.vals {
        return None;
      }
      phase := InProgress;
    }

    /** The second critical section. */
    method CommitFailover(source: string, target: string) returns (ok: bool)
      requires source in nodes.vals
      modifies this
      ensures View() == Commit(old(View()), source, target)
      ensures ok <==> target in old(nodes.vals)
    {
      var node := nodes.vals[source];
      nodes := Put(nodes, source, node.(status := Failed, failoverCount := node.failoverCount + 1));
      if target !in nodes.vals {
        return false;
      }
      nodes := Put(nodes, target, nodes.vals[target].(status := Active));
      activeNodeId := Some(target);
      phase := Normal;
      return true;
    }

    method TriggerFailover(source: Option<string>, target: Option<string>) returns (outcome: Handover)
      modifies this
      ensures View() == Trigger(old(View()), source, target)
      ensures outcome == Outcome(old(View()), source, target)
    {
      hide Select;
      var from := BeginFailover(source);
      if from.None? {
        return Refused;
      }
      var chosen := target;
      if !Given(target) {
        chosen := SelectBackupNode(from.value);
      }
      if !Given(chosen) {
        phase := Normal;
        return Refused;
      }
      var ok := CommitFailover(from.value, chosen.value);
      outcome := if ok then HandedOver(chosen.value) else Raised;
    }

    method TriggerRecovery(id: string) returns (ok: bool)
      modifies this
      ensures View() == Recover(old(View()), id)
      ensures ok <==> id in old(nodes.vals) && old(nodes.vals)[id].status == Failed
    {
      if id !in nodes.vals || nodes.vals[id].status != Failed {
        return false;
      }
      nodes := Put(nodes, id, nodes.vals[id].(status := Recovering, missed := 0));
      return true;
    }

    /** One pass of the monitoring loop, run without interleaving. */
    method RunMonitorRound(now: real)
      requires Valid()
      modifies this
      ensures View() == MonitorRound(old(View()), now, cfg)
    {
      var failed := CheckFailures(now);
      ghost var t := View();
      for i := 0 to |failed|
        invariant View() == React(t, failed[..i])
      {
        assert failed[..i + 1][..i] == failed[..i];
        if Some(failed[i]) == activeNodeId {
          var _ := TriggerFailover(Some(failed[i]), None);
        }
      }
      assert failed[..|failed|] == failed;
    }
  }
}

/**
  Failovers as a protocol.  A failover takes the lock twice, and chooses its target between the two without it; any
  other operation may run in the gaps.  `Apply` is one atomic step, `Run` any sequence of them.
*/
module FailoverProofs {
  import opened Options
  import opened Dicts
  import opened Failover

  /** Where a failover stands once its first critical section is over. */
  datatype Job = Began(source: string, wanted: Option<string>) | Chosen(source: string, target: Option<string>)

  datatype World = World(table: Table, jobs: map<nat, Job>)

  datatype Step =
    | DoRegister(id: string, details: Details, priority: int, now: real)
    | DoSetActive(id: string)
    | DoHeartbeat(id: string, now: real)
    | DoCheck(now: real)
    | DoRecover(id: string)
    | DoBegin(job: nat, from: Option<string>, to: Option<string>)
    | DoChoose(job: nat)
    | DoFinish(job: nat)

  /** A step that its job is not ready for changes nothing. */
  function Apply(w: World, step: Step, cfg: Settings): World
    requires cfg.interval != 0.0
  {
    match step
    case DoRegister(id, details, priority, now) => w.(table := Register(w.table, id, details, priority, now))
    case DoSetActive(id) => w.(table := SetActive(w.table, id))
    case DoHeartbeat(id, now) => w.(table := Heartbeat(w.table, id, now))
    case DoCheck(now) => w.(table := CheckAll(w.table, now, cfg))
    case DoRecover(id) => w.(table := Recover(w.table, id))
    case DoBegin(job, from, to) =>
      var source := FailoverSource(w.table, from);
      if job in w.jobs || source.None? then w
      else World(w.table.(phase := InProgress), w.jobs[job := Began(source.value, to)])
    case DoChoose(job) =>
      if job !in w.jobs || w.jobs[job].Chosen? then w
      else w.(jobs := w.jobs[job := Chosen(w.jobs[job].source,
                                           ChooseTarget(w.table, w.jobs[job].source, w.jobs[job].wanted))])
    case DoFinish(job) =>
      if job !in w.jobs || w.jobs[job].Began? || w.jobs[job].source !in w.table.nodes.vals then w
      else
        var Chosen(source, target) := w.jobs[job];
        World(if Given(target) then Commit(w.table, source, target.value) else w.table.(phase := Normal),
              w.jobs - {job})
  }

  function Run(w: World, steps: seq<Step>, cfg: Settings): World
    requires cfg.interval != 0.0
  {
    if steps == [] then w else Apply(Run(w, steps[..|steps| - 1], cfg), steps[|steps| - 1], cfg)
  }

  function Initial(): World {
    World(Table(Empty(), None, Normal), map[])
  }

  /** What the callers must respect: ids are not empty, a failover that is not refused leaves the active node, and while
      one is under way nobody moves the active node by hand. */
  predicate Allowed(w: World, step: Step) {
    match step
    case DoRegister(id, _, _, _) => id != ""
    case DoSetActive(id) => w.jobs == map[] || id !in w.table.nodes.vals || w.table.active == Some(id)
    case DoBegin(job, from, _) =>
      Given(from) && job !in w.jobs && FailoverSource(w.table, from).Some? ==> from == w.table.active
    case _ => true
  }

  predicate AllAllowed(w: World, steps: seq<Step>, cfg: Settings)
    requires cfg.interval != 0.0
  {
    steps != [] ==>
      AllAllowed(w, steps[..|steps| - 1], cfg) && Allowed(Run(w, steps[..|steps| - 1], cfg), steps[|steps| - 1])
  }

  // ---------- safety ----------

  ghost predicate SingleActive(t: Table) {
    forall id :: id in t.nodes.vals && t.nodes.vals[id].status == Active ==> t.active == Some(id)
  }

  ghost predicate Safe(w: World) {
    && SingleActive(w.table)
    && "" !in w.table.nodes.vals
    && (w.table.active.Some? ==> w.table.active.value in w.table.nodes.vals)
    && (forall j, k :: j in w.jobs && k in w.jobs ==> j == k)
    && (forall j :: j in w.jobs ==> w.table.phase == InProgress && w.table.active == Some(w.jobs[j].source))
  }

  lemma ApplyKeepsSafe(w: World, step: Step, cfg: Settings)
    requires cfg.interval != 0.0 && Safe(w) && Allowed(w, step)
    ensures Safe(Apply(w, step, cfg))
  {
    hide Apply;
    match step
    case DoFinish(job) => FinishKeepsSafe(w, job, cfg);
    case DoCheck(now) => CheckKeepsSafe(w, now, cfg);
    case DoBegin(_, _, _) => BeginKeepsSafe(w, step, cfg);
    case DoChoose(job) => ChooseKeepsSafe(w, job, cfg);
    case _ => TableStepKeepsSafe(w, step, cfg);
  }

  lemma TableStepKeepsSafe(w: World, step: Step, cfg: Settings)
    requires cfg.interval != 0.0 && Safe(w) && Allowed(w, step)
    requires step.DoRegister? || step.DoSetActive? || step.DoHeartbeat? || step.DoRecover?
    ensures Safe(Apply(w, step, cfg))
  {
    hide Commit, CheckAll, Select;
  }

  lemma BeginKeepsSafe(w: World, step: Step, cfg: Settings)
    requires cfg.interval != 0.0 && Safe(w) && Allowed(w, step) && step.DoBegin?
    ensures Safe(Apply(w, step, cfg))
  {
    hide Commit, CheckAll, Select;
  }

  lemma ChooseKeepsSafe(w: World, job: nat, cfg: Settings)
    requires cfg.interval != 0.0 && Safe(w)
    ensures Safe(Apply(w, DoChoose(job), cfg))
  {
    hide Commit, CheckAll, ChooseTarget;
  }

  lemma FinishKeepsSafe(w: World, job: nat, cfg: Settings)
    requires cfg.interval != 0.0 && Safe(w)
    ensures Safe(Apply(w, DoFinish(job), cfg))
  {
    hide CheckAll, Select;
    if job in w.jobs && w.jobs[job].Chosen? {
      assert forall j :: j in w.jobs - {job} ==> j in w.jobs;
    }
  }

  lemma CheckKeepsSafe(w: World, now: real, cfg: Settings)
    requires cfg.interval != 0.0 && Safe(w)
    ensures Safe(Apply(w, DoCheck(now), cfg))
  {
    hide MissedBeats, Commit, Select;
  }

  /** A step that is not allowed ends the safety at once. */
  lemma OtherStepsBreakSafety(w: World, step: Step, cfg: Settings)
    requires cfg.interval != 0.0 && Safe(w) && !Allowed(w, step)
    ensures !Safe(Apply(w, step, cfg))
  {
    hide Commit, CheckAll, Select;
    var v := Apply(w, step, cfg);
    match step
    case DoRegister(_, _, _, _) => assert "" in v.table.nodes.vals;
    case DoSetActive(id) =>
      var job :| job in w.jobs;
      assert job in v.jobs && v.table.active != Some(v.jobs[job].source);
    case DoBegin(job, from, _) => assert job in v.jobs && v.table.active != Some(v.jobs[job].source);
  }

  lemma SafeExactlyIfAllowed(w: World, step: Step, cfg: Settings)
    requires cfg.interval != 0.0 && Safe(w)
    ensures Safe(Apply(w, step, cfg)) <==> Allowed(w, step)
  {
    hide *;
    if Allowed(w, step) {
      ApplyKeepsSafe(w, step, cfg);
    } else {
      OtherStepsBreakSafety(w, step, cfg);
    }
  }

  /** In every allowed run, at any moment: at most one node is active, and at most one failover is under way. */
  lemma {:induction false} RunIsSafe(steps: seq<Step>, cfg: Settings)
    requires cfg.interval != 0.0 && AllAllowed(Initial(), steps, cfg)
    ensures Safe(Run(Initial(), steps, cfg))
  {
    hide Apply;
    if steps != [] {
      var front := steps[..|steps| - 1];
      RunIsSafe(front, cfg);
      ApplyKeepsSafe(Run(Initial(), front, cfg), steps[|steps| - 1], cfg);
    }
  }

  lemma AtMostOneActive(steps: seq<Step>, cfg: Settings, a: string, b: string)
    requires cfg.interval != 0.0 && AllAllowed(Initial(), steps, cfg)
    ensures var w := Run(Initial(), steps, cfg);
            && !TwoActive(w.table, a, b)
            && |w.jobs| <= 1
  {
    RunIsSafe(steps, cfg);
    var jobs := Run(Initial(), steps, cfg).jobs;
    if j :| j in jobs {
      assert jobs.Keys == {j};
    }
  }

  // ---------- heartbeats ----------

  /** When a node was last registered or heard of, if it is registered. */
  function LastSign(steps: seq<Step>, id: string): Option<real> {
    if steps == [] then None
    else
      var before := LastSign(steps[..|steps| - 1], id);
      match steps[|steps| - 1]
      case DoRegister(i, _, _, now) => if i == id then Some(now) else before
      case DoHeartbeat(i, now) => if i == id && before.Some? then Some(now) else before
      case _ => before
  }

  ghost predicate SignIs(t: Table, id: string, sign: Option<real>) {
    if id in t.nodes.vals then sign == Some(t.nodes.vals[id].lastHeartbeat) else sign == None
  }

  lemma ApplyKeepsSign(w: World, step: Step, cfg: Settings, id: string, sign: Option<real>)
    requires cfg.interval != 0.0 && SignIs(w.table, id, sign)
    ensures SignIs(Apply(w, step, cfg).table, id,
                   match step
                   case DoRegister(i, _, _, now) => if i == id then Some(now) else sign
                   case DoHeartbeat(i, now) => if i == id && sign.Some? then Some(now) else sign
                   case _ => sign)
  {
    hide MissedBeats, ChooseTarget, FailoverSource;
  }

  /** Over any run, allowed or not, a node's recorded heartbeat is the time it was last registered or heard of. */
  lemma {:induction false} HeartbeatsCount(steps: seq<Step>, cfg: Settings, id: string)
    requires cfg.interval != 0.0
    ensures SignIs(Run(Initial(), steps, cfg).table, id, LastSign(steps, id))
  {
    hide Apply, SignIs;
    if steps == [] {
      NoSignYet(id);
    } else {
      var front := steps[..|steps| - 1];
      HeartbeatsCount(front, cfg, id);
      ApplyKeepsSign(Run(Initial(), front, cfg), steps[|steps| - 1], cfg, id, LastSign(front, id));
    }
  }

  lemma NoSignYet(id: string)
    ensures SignIs(Initial().table, id, None)
  {
  }

  /**
    So after any allowed run a check newly fails a node exactly if it is registered, has not failed already, and was
    last heard of longer ago than the threshold allows.
  */
  lemma SilenceFailsExactly(steps: seq<Step>, cfg: Settings, now: real, id: string)
    requires cfg.interval > 0.0 && AllAllowed(Initial(), steps, cfg)
    ensures var t := Run(Initial(), steps, cfg).table;
            id in NewFailures(t, t.nodes.keys, now, cfg) <==>
            && LastSign(steps, id).Some?
            && now - LastSign(steps, id).value > cfg.threshold as real * cfg.interval
            && id in t.nodes.vals && t.nodes.vals[id].status != Failed
  {
    hide NewFailures, CheckAll, Run, AllAllowed, LastSign;
    var t := Run(Initial(), steps, cfg).table;
    HeartbeatsCount(steps, cfg, id);
    RunIsSafe(steps, cfg);
    if id in t.nodes.vals {
      CheckFailsExactlyTheStale(t, now, cfg, id);
    }
    NewFailuresAreNodes(t, now, cfg);
  }

  lemma NewFailuresAreNodes(t: Table, now: real, cfg: Settings)
    requires cfg.interval != 0.0
    ensures forall id :: id in NewFailures(t, t.nodes.keys, now, cfg) ==> id in t.nodes.vals
  {
  }

  /** A heartbeat puts a failed node, and no other, back to standby, and clears what it had missed. */
  lemma HeartbeatRevives(t: Table, id: string, now: real)
    requires id in t.nodes.vals
    ensures var n, r := t.nodes.vals[id], Heartbeat(t, id, now);
            && r.active == t.active && r.phase == t.phase && r.nodes.keys == t.nodes.keys
            && r.nodes.vals.Keys == t.nodes.vals.Keys
            && (forall k :: k in t.nodes.vals && k != id ==> r.nodes.vals[k] == t.nodes.vals[k])
            && r.nodes.vals[id] == Node(n.details, n.priority, if n.status == Failed then Standby else n.status, now, 0,
                                        n.failoverCount)
  {
  }

  /** A commit leaves a single active node exactly when the active node, if still active, is its source or target. */
  lemma CommitKeepsSingleActive(t: Table, source: string, target: string)
    requires SingleActive(t) && source in t.nodes.vals && target in t.nodes.vals
    ensures SingleActive(Commit(t, source, target)) <==>
            t.active == Some(source) || t.active == Some(target)
            || t.active.None? || t.active.value !in t.nodes.vals || t.nodes.vals[t.active.value].status != Active
  {
    var u := Commit(t, source, target);
    if t.active.Some? && t.active.value in t.nodes.vals {
      var a := t.active.value;
      assert a != source && a != target ==> u.nodes.vals[a] == t.nodes.vals[a];
    }
  }

  // ---------- each condition is needed ----------

  predicate TwoActive(t: Table, a: string, b: string) {
    && a != b && a in t.nodes.vals && b in t.nodes.vals
    && t.nodes.vals[a].status == t.nodes.vals[b].status == Active
  }

  /** A failover begun from `from` toward `to`, with `between` happening before its target is chosen. */
  function FailoverAround(w: World, from: Option<string>, to: string, between: Step, cfg: Settings): World
    requires cfg.interval != 0.0
  {
    var begun := Apply(w, DoBegin(0, from, Some(to)), cfg);
    Apply(Apply(Apply(begun, between, cfg), DoChoose(0), cfg), DoFinish(0), cfg)
  }

  /** Failing over from a node that is not the active one, to another that is not, leaves two active nodes. */
  lemma SourceMustBeActive(t: Table, a: string, b: string, c: string, cfg: Settings)
    requires cfg.interval != 0.0 && t.phase == Normal && {a, b, c} <= t.nodes.vals.Keys
    requires t.active == Some(a) && t.nodes.vals[a].status == Active
    requires a != b && a != c && b != "" && c != ""
    ensures TwoActive(FailoverAround(World(t, map[]), Some(b), c, DoRecover(a), cfg).table, a, c)
  {
    var begun := World(t.(phase := InProgress), map[0 := Began(b, Some(c))]);
    assert Apply(World(t, map[]), DoBegin(0, Some(b), Some(c)), cfg) == begun;
    assert Apply(begun, DoRecover(a), cfg) == begun;
    FinishFrom(begun, b, c, cfg);
  }

  /** So does moving the active node by hand between the two critical sections. */
  lemma ActiveMustNotMove(t: Table, a: string, b: string, c: string, cfg: Settings)
    requires cfg.interval != 0.0 && t.phase == Normal && {a, b, c} <= t.nodes.vals.Keys
    requires t.active == Some(a) && c != a && c != b && a != "" && b != ""
    ensures TwoActive(FailoverAround(World(t, map[]), None, b, DoSetActive(c), cfg).table, b, c)
  {
    var begun := World(t.(phase := InProgress), map[0 := Began(a, Some(b))]);
    assert Apply(World(t, map[]), DoBegin(0, None, Some(b)), cfg) == begun;
    var moved := begun.(table := SetActive(begun.table, c));
    assert Apply(begun, DoSetActive(c), cfg) == moved;
    FinishFrom(moved, a, b, cfg);
  }

  lemma FinishFrom(w: World, source: string, target: string, cfg: Settings)
    requires cfg.interval != 0.0 && w.jobs == map[0 := Began(source, Some(target))] && target != ""
    requires source in w.table.nodes.vals
    ensures Apply(Apply(w, DoChoose(0), cfg), DoFinish(0), cfg).table == Commit(w.table, source, target)
  {
    hide Commit, Select;
  }

  /** Promoting a node leaves one active node exactly when the active node, if still active, can be demoted: an empty id
      counts as "no active node". */
  lemma SetActiveKeepsSingleActive(t: Table, id: string)
    requires SingleActive(t)
    ensures SingleActive(SetActive(t, id)) <==>
            id !in t.nodes.vals || id == "" || t.active != Some("")
            || "" !in t.nodes.vals || t.nodes.vals[""].status != Active
  {
    var u := SetActive(t, id);
    if id in t.nodes.vals && id != "" && "" in t.nodes.vals && t.active == Some("") {
      assert u.nodes.vals[""] == t.nodes.vals[""];
    }
  }

  /** A node with the empty id stays active beside the next. */
  lemma IdMustNotBeEmpty(t: Table, a: string)
    requires "" in t.nodes.vals && a in t.nodes.vals && a != ""
    ensures TwoActive(SetActive(SetActive(t, ""), a), "", a)
  {
  }

  // ---------- an unregistered target ----------

  /** No failover is under way, yet the manager believes one is. */
  predicate Wedged(w: World) {
    w.jobs == map[] && w.table.phase == InProgress
  }

  /** Committing to a target wedges the manager exactly when the target is not registered. */
  lemma UnregisteredTargetWedges(w: World, job: nat, cfg: Settings)
    requires cfg.interval != 0.0 && w.jobs.Keys == {job} && w.jobs[job].Chosen? && Given(w.jobs[job].target)
    requires w.jobs[job].source in w.table.nodes.vals && w.table.phase == InProgress
    ensures Wedged(Apply(w, DoFinish(job), cfg)) <==> w.jobs[job].target.value !in w.table.nodes.vals
  {
    assert (w.jobs - {job}).Keys == {};
  }

  /** Once wedged, whatever is done, no failover can begin again. */
  lemma {:induction false} WedgedForever(w: World, steps: seq<Step>, cfg: Settings)
    requires cfg.interval != 0.0 && Wedged(w)
    ensures Wedged(Run(w, steps, cfg))
  {
    hide Register, SetActive, Heartbeat, CheckAll, Recover;
    if steps != [] {
      var v, step := Run(w, steps[..|steps| - 1], cfg), steps[|steps| - 1];
      WedgedForever(w, steps[..|steps| - 1], cfg);
      TableStepsKeepPhase(v, step, cfg);
    }
  }

  lemma TableStepsKeepPhase(w: World, step: Step, cfg: Settings)
    requires cfg.interval != 0.0 && Wedged(w)
    ensures Wedged(Apply(w, step, cfg))
  {
    hide MissedBeats;
  }

  // ---------- a target that fails before the commit ----------

  /**
    A check between the choice of a target and the commit leaves the target failed exactly when it already was or is
    overdue.  The commit promotes it all the same.
  */
  lemma FailedTargetIsPromoted(w: World, job: nat, now: real, cfg: Settings)
    requires cfg.interval != 0.0 && job in w.jobs && w.jobs[job].Chosen? && Given(w.jobs[job].target)
    requires w.jobs[job].source in w.table.nodes.vals && w.jobs[job].target.value in w.table.nodes.vals
    ensures var b := w.jobs[job].target.value;
            var checked := Apply(w, DoCheck(now), cfg);
            var done := Apply(checked, DoFinish(job), cfg);
            && b in checked.table.nodes.vals && b in done.table.nodes.vals
            && (checked.table.nodes.vals[b].status == Failed <==>
                w.table.nodes.vals[b].status == Failed || Overdue(b, w.table.nodes.vals[b], w.table.active, now, cfg))
            && done.table.active == Some(b) && done.table.nodes.vals[b].status == Active
  {
    hide MissedBeats;
  }

  lemma RunGrows(w: World, steps: seq<Step>, step: Step, cfg: Settings)
    requires cfg.interval != 0.0
    ensures Run(w, steps + [step], cfg) == Apply(Run(w, steps, cfg), step, cfg)
    ensures AllAllowed(w, steps + [step], cfg) <==> AllAllowed(w, steps, cfg) && Allowed(Run(w, steps, cfg), step)
  {
    hide Apply, Allowed;
    assert (steps + [step])[..|steps|] == steps;
  }

  function Quiet(status: Status): Node {
    Node(Details("", 0, map[]), 0, status, 0.0, 0, 0)
  }

  const NOWHERE := Details("", 0, map[])

  function OnlyA(): World {
    World(Table(RawDict(["a"], map["a" := Quiet(Standby)]), None, Normal), map[])
  }

  function AAndB(active: Option<string>, phase: Phase, jobs: map<nat, Job>): World {
    World(Table(RawDict(["a", "b"], map["a" := Quiet(if active == Some("a") then Active else Standby),
                                        "b" := Quiet(Standby)]), active, phase), jobs)
  }

  lemma RegisterA(cfg: Settings)
    requires cfg.interval != 0.0
    ensures var step := DoRegister("a", NOWHERE, 0, 0.0);
            Allowed(Initial(), step) && Apply(Initial(), step, cfg) == OnlyA()
  {
  }

  lemma RegisterB(cfg: Settings)
    requires cfg.interval != 0.0
    ensures var step := DoRegister("b", NOWHERE, 0, 0.0);
            Allowed(OnlyA(), step) && Apply(OnlyA(), step, cfg) == AAndB(None, Normal, map[])
  {
  }

  lemma ActivateA(cfg: Settings)
    requires cfg.interval != 0.0
    ensures var w := AAndB(None, Normal, map[]);
            Allowed(w, DoSetActive("a")) && Apply(w, DoSetActive("a"), cfg) == AAndB(Some("a"), Normal, map[])
  {
  }

  lemma BeginToB(cfg: Settings)
    requires cfg.interval != 0.0
    ensures var w, step := AAndB(Some("a"), Normal, map[]), DoBegin(0, None, Some("b"));
            && Allowed(w, step)
            && Apply(w, step, cfg) == AAndB(Some("a"), InProgress, map[0 := Began("a", Some("b"))])
  {
  }

  lemma ChooseB(cfg: Settings)
    requires cfg.interval != 0.0
    ensures var w := AAndB(Some("a"), InProgress, map[0 := Began("a", Some("b"))]);
            && Allowed(w, DoChoose(0))
            && Apply(w, DoChoose(0), cfg) == AAndB(Some("a"), InProgress, map[0 := Chosen("a", Some("b"))])
  {
  }

  /** Nodes a and b, with a active, and a failover from a that has chosen b. */
  lemma TwoNodesFailover(cfg: Settings) returns (steps: seq<Step>)
    requires cfg.interval != 0.0
    ensures AllAllowed(Initial(), steps, cfg)
    ensures Run(Initial(), steps, cfg) == AAndB(Some("a"), InProgress, map[0 := Chosen("a", Some("b"))])
  {
    hide *;
    NoSteps(cfg);
    RegisterA(cfg);
    RunGrows(Initial(), [], DoRegister("a", NOWHERE, 0, 0.0), cfg);
    steps := [] + [DoRegister("a", NOWHERE, 0, 0.0)];
    RegisterB(cfg);
    RunGrows(Initial(), steps, DoRegister("b", NOWHERE, 0, 0.0), cfg);
    steps := steps + [DoRegister("b", NOWHERE, 0, 0.0)];
    ActivateA(cfg);
    RunGrows(Initial(), steps, DoSetActive("a"), cfg);
    steps := steps + [DoSetActive("a")];
    BeginToB(cfg);
    RunGrows(Initial(), steps, DoBegin(0, None, Some("b")), cfg);
    steps := steps + [DoBegin(0, None, Some("b"))];
    ChooseB(cfg);
    RunGrows(Initial(), steps, DoChoose(0), cfg);
    steps := steps + [DoChoose(0)];
  }

  lemma NoSteps(cfg: Settings)
    requires cfg.interval != 0.0
    ensures Run(Initial(), [], cfg) == Initial() && AllAllowed(Initial(), [], cfg)
  {
  }

  /** So an allowed run may hand over to a node it has just found to be down. */
  lemma HandoverToFailedNode() returns (steps: seq<Step>)
    ensures var cfg := Settings(3, 10.0);
            var w := Run(Initial(), steps, cfg);
            && AllAllowed(Initial(), steps + [DoFinish(0)], cfg)
            && "b" in w.table.nodes.vals && w.table.nodes.vals["b"].status == Failed
            && Run(Initial(), steps + [DoFinish(0)], cfg).table.active == Some("b")
  {
    hide Run, AllAllowed, Apply, Overdue;
    var cfg := Settings(3, 10.0);
    var before := TwoNodesFailover(cfg);
    var w := Run(Initial(), before, cfg);
    RunGrows(Initial(), before, DoCheck(31.0), cfg);
    steps := before + [DoCheck(31.0)];
    RunGrows(Initial(), steps, DoFinish(0), cfg);
    SilentForTooLong(cfg);
    FailedTargetIsPromoted(w, 0, 31.0, cfg);
  }

  lemma SilentForTooLong(cfg: Settings)
    requires cfg == Settings(3, 10.0)
    ensures Overdue("b", Quiet(Standby), Some("a"), 31.0, cfg)
  {
  }

  /** A recovery is begun of a failed node alone, of which nothing then counts as missed. */
  lemma RecoveryIsOfTheFailed(t: Table, id: string)
    ensures if id in t.nodes.vals && t.nodes.vals[id].status == Failed
            then var n := t.nodes.vals[id];
                 Recover(t, id) == Table(Put(t.nodes, id, Node(n.details, n.priority, Recovering, n.lastHeartbeat, 0,
                                                               n.failoverCount)), t.active, t.phase)
            else Recover(t, id) == t
  {
  }

  // ---------- one monitor round ----------

  /** The check newly fails exactly the non-failed nodes whose heartbeat is older than threshold * interval. */
  lemma CheckFailsExactlyTheStale(t: Table, now: real, cfg: Settings, id: string)
    requires cfg.interval > 0.0 && SingleActive(t) && id in t.nodes.vals
    ensures id in NewFailures(t, t.nodes.keys, now, cfg) <==>
            t.nodes.vals[id].status != Failed
            && now - t.nodes.vals[id].lastHeartbeat > cfg.threshold as real * cfg.interval
    ensures CheckAll(t, now, cfg).nodes.vals[id].status ==
            if id in NewFailures(t, t.nodes.keys, now, cfg) then Failed else t.nodes.vals[id].status
  {
    hide MissedBeats;
    StaleExactly(t.nodes.vals[id], now, cfg);
  }

  lemma StaleExactly(n: Node, now: real, cfg: Settings)
    requires cfg.interval > 0.0
    ensures MissedBeats(n, now, cfg) > cfg.threshold as real <==>
            now - n.lastHeartbeat > cfg.threshold as real * cfg.interval
  {
    QuotientAbove(now - n.lastHeartbeat, cfg.interval, cfg.threshold as real);
  }

  lemma QuotientAbove(x: real, s: real, k: real)
    requires 0.0 < s
    ensures x / s > k <==> x > k * s
  {
    var q := x / s;
    assert q * s == x;
    if q > k {
      assert (q - k) * s > 0.0;
    } else {
      assert (k - q) * s >= 0.0;
    }
  }

  /** The beats a silence of x has missed: whole intervals, truncated toward zero. */
  ghost predicate WholeBeats(missed: int, x: real, interval: real) {
    if x >= 0.0 then missed as real * interval <= x < (missed + 1) as real * interval
    else (missed - 1) as real * interval < x <= missed as real * interval
  }

  lemma TruncatedQuotient(x: real, s: real)
    requires 0.0 < s
    ensures WholeBeats(Truncate(x / s), x, s)
  {
    var q := x / s;
    var m := Truncate(q);
    assert q * s == x;
    assert x >= 0.0 <==> q >= 0.0 by { QuotientSign(x, s); }
    if q >= 0.0 {
      Scaled(m as real, q, s);
      ScaledBelow(q, (m + 1) as real, s);
    } else {
      Scaled(q, m as real, s);
      ScaledBelow((m - 1) as real, q, s);
    }
  }

  lemma QuotientSign(x: real, s: real)
    requires 0.0 < s
    ensures x / s >= 0.0 <==> x >= 0.0
  {
  }

  lemma Scaled(a: real, b: real, s: real)
    requires a <= b && 0.0 < s
    ensures a * s <= b * s
  {
  }

  lemma ScaledBelow(a: real, b: real, s: real)
    requires a < b && 0.0 < s
    ensures a * s < b * s
  {
  }

  /** What a check does to a node: nothing, unless it is overdue; then it is failed, and counted if it was not before. */
  lemma CheckCounts(t: Table, now: real, cfg: Settings, id: string)
    requires cfg.interval > 0.0 && id in t.nodes.vals
    ensures var n, r := t.nodes.vals[id], CheckAll(t, now, cfg).nodes.vals[id];
            var silence := now - n.lastHeartbeat;
            if (n.status == Active && t.active != Some(id)) || silence <= cfg.threshold as real * cfg.interval
            then r == n
            else
              && r.status == Failed && WholeBeats(r.missed, silence, cfg.interval)
              && r.failoverCount == (if n.status == Failed then n.failoverCount else n.failoverCount + 1)
              && r.details == n.details && r.priority == n.priority && r.lastHeartbeat == n.lastHeartbeat
    ensures CheckAll(t, now, cfg).active == t.active && CheckAll(t, now, cfg).phase == t.phase
    ensures CheckAll(t, now, cfg).nodes.keys == t.nodes.keys
  {
    hide Truncate, WholeBeats;
    StaleExactly(t.nodes.vals[id], now, cfg);
    TruncatedQuotient(now - t.nodes.vals[id].lastHeartbeat, cfg.interval);
  }

  /** Any node but the one excluded that has not failed and is not barred by a negative priority. */
  predicate MayTakeOver(t: Table, id: string, exclude: string)
    requires id in t.nodes.vals
  {
    id != exclude && t.nodes.vals[id].priority > -1
    && match t.nodes.vals[id].status
       case Standby | Active | Recovering => true
       case Failed => false
  }

  /** The selected backup is the first registered among the eligible nodes of highest priority. */
  ghost predicate IsBest(t: Table, ids: seq<string>, exclude: string, best: Option<string>)
    requires forall id :: id in ids ==> id in t.nodes.vals
  {
    match best
    case None => forall id :: id in ids ==> !MayTakeOver(t, id, exclude)
    case Some(b) =>
      exists i :: 0 <= i < |ids| && ids[i] == b && MayTakeOver(t, b, exclude)
        && (forall j :: 0 <= j < |ids| && MayTakeOver(t, ids[j], exclude) ==>
              t.nodes.vals[ids[j]].priority <= t.nodes.vals[b].priority)
        && (forall j :: 0 <= j < i && MayTakeOver(t, ids[j], exclude) ==>
              t.nodes.vals[ids[j]].priority < t.nodes.vals[b].priority)
  }

  lemma NewBest(t: Table, ids: seq<string>, id: string, exclude: string, best: Option<string>)
    requires (forall x :: x in ids + [id] ==> x in t.nodes.vals) && IsBest(t, ids, exclude, best)
    requires MayTakeOver(t, id, exclude)
    requires best.Some? ==> best.value in ids && t.nodes.vals[id].priority > t.nodes.vals[best.value].priority
    ensures IsBest(t, ids + [id], exclude, Some(id))
  {
    hide MayTakeOver;
    var all := ids + [id];
    assert all[|ids|] == id;
    forall j | 0 <= j < |ids| && MayTakeOver(t, all[j], exclude)
      ensures t.nodes.vals[all[j]].priority < t.nodes.vals[id].priority
    {
      assert all[j] == ids[j] && ids[j] in ids;
    }
  }

  lemma SameBest(t: Table, ids: seq<string>, id: string, exclude: string, best: Option<string>)
    requires (forall x :: x in ids + [id] ==> x in t.nodes.vals) && IsBest(t, ids, exclude, best)
    requires MayTakeOver(t, id, exclude) ==>
      best.Some? && best.value in ids && t.nodes.vals[id].priority <= t.nodes.vals[best.value].priority
    ensures IsBest(t, ids + [id], exclude, best)
  {
    hide MayTakeOver;
    var all := ids + [id];
    if best.Some? {
      var i :| 0 <= i < |ids| && ids[i] == best.value
               && (forall j :: 0 <= j < |ids| && MayTakeOver(t, ids[j], exclude) ==>
                     t.nodes.vals[ids[j]].priority <= t.nodes.vals[best.value].priority)
               && (forall j :: 0 <= j < i && MayTakeOver(t, ids[j], exclude) ==>
                     t.nodes.vals[ids[j]].priority < t.nodes.vals[best.value].priority);
      assert all[i] == best.value;
      assert forall j :: 0 <= j < |ids| ==> all[j] == ids[j];
    }
  }

  lemma EligibleExactly(t: Table, id: string, exclude: string)
    requires id in t.nodes.vals
    ensures Eligible(t, id, exclude) <==> MayTakeOver(t, id, exclude)
  {
  }

  lemma {:induction false} SelectIsBest(t: Table, ids: seq<string>, exclude: string)
    requires forall id :: id in ids ==> id in t.nodes.vals
    ensures IsBest(t, ids, exclude, Select(t, ids, exclude))
  {
    if ids != [] {
      var n := |ids| - 1;
      var best := Select(t, ids[..n], exclude);
      SelectIsBest(t, ids[..n], exclude);
      EligibleExactly(t, ids[n], exclude);
      assert ids == ids[..n] + [ids[n]];
      hide IsBest, MayTakeOver, Eligible;
      if MayTakeOver(t, ids[n], exclude)
         && (best.None? || t.nodes.vals[ids[n]].priority > t.nodes.vals[best.value].priority) {
        NewBest(t, ids[..n], ids[n], exclude, best);
      } else {
        SameBest(t, ids[..n], ids[n], exclude, best);
      }
    }
  }

  /** Reacting to failed nodes that do not include the active one changes nothing. */
  lemma {:induction false} ReactIgnoresOthers(t: Table, failed: seq<string>)
    requires forall id :: id in failed ==> t.active != Some(id)
    ensures React(t, failed) == t
  {
    hide Trigger;
    if failed != [] {
      ReactIgnoresOthers(t, failed[..|failed| - 1]);
      assert failed[|failed| - 1] in failed;
    }
  }

  lemma {:induction false} ReactSplits(t: Table, a: seq<string>, b: seq<string>)
    ensures React(t, a + b) == React(React(t, a), b)
  {
    hide Trigger;
    if b == [] {
      assert a + b == a;
    } else {
      ReactSplits(t, a, b[..|b| - 1]);
      assert (a + b)[..|a + b| - 1] == a + b[..|b| - 1];
    }
  }

  ghost predicate Distinct(s: seq<string>) {
    forall i, j :: 0 <= i < j < |s| ==> s[i] != s[j]
  }

  lemma {:induction false} NewFailuresDistinct(t: Table, ids: seq<string>, now: real, cfg: Settings)
    requires cfg.interval != 0.0 && (forall id :: id in ids ==> id in t.nodes.vals) && Distinct(ids)
    ensures Distinct(NewFailures(t, ids, now, cfg))
  {
    hide NewlyFailed, Distinct;
    if ids == [] {
      NoneDistinct();
    } else {
      var n := |ids| - 1;
      DistinctFront(ids);
      NewFailuresDistinct(t, ids[..n], now, cfg);
      var front := NewFailures(t, ids[..n], now, cfg);
      assert front + [] == front;
      DistinctGrows(front, ids[n]);
    }
  }

  lemma NoneDistinct()
    ensures Distinct([])
  {
  }

  lemma DistinctFront(s: seq<string>)
    requires Distinct(s) && s != []
    ensures Distinct(s[..|s| - 1]) && s[|s| - 1] !in s[..|s| - 1]
  {
  }

  lemma DistinctGrows(s: seq<string>, x: string)
    requires Distinct(s)
    ensures x !in s ==> Distinct(s + [x])
  {
  }

  /** One monitor round, when the active node is not newly failed or a failover is already under way: only the check. */
  lemma QuietRound(t: Table, now: real, cfg: Settings)
    requires cfg.interval != 0.0
    requires t.phase == InProgress || forall id :: id in NewFailures(t, t.nodes.keys, now, cfg) ==> t.active != Some(id)
    ensures MonitorRound(t, now, cfg) == CheckAll(t, now, cfg)
  {
    var u := CheckAll(t, now, cfg);
    if t.phase == InProgress {
      ReactWhileInProgress(u, NewFailures(t, t.nodes.keys, now, cfg));
    } else {
      ReactIgnoresOthers(u, NewFailures(t, t.nodes.keys, now, cfg));
    }
  }

  lemma {:induction false} ReactWhileInProgress(t: Table, failed: seq<string>)
    requires t.phase == InProgress
    ensures React(t, failed) == t
  {
    if failed != [] {
      ReactWhileInProgress(t, failed[..|failed| - 1]);
    }
  }

  /** Node b has taken over from the failed active node a; nothing else has changed. */
  ghost predicate TakenOver(u: Table, r: Table, a: string, b: string)
    requires a in u.nodes.vals && b in u.nodes.vals
  {
    && r.active == Some(b) && r.phase == Normal && SingleActive(r) && r.nodes.keys == u.nodes.keys
    && r.nodes.vals == u.nodes.vals[a := u.nodes.vals[a].(failoverCount := u.nodes.vals[a].failoverCount + 1)]
                                   [b := u.nodes.vals[b].(status := Active)]
  }

  /** A failover succeeds only by making its target the active node; refused it changes nothing; and if it raises, its
      source has been failed and it still counts as in progress. */
  lemma TriggerDoesWhatItSays(t: Table, source: Option<string>, target: Option<string>)
    ensures var r := Trigger(t, source, target);
            match Outcome(t, source, target)
            case HandedOver(b) => r.active == Some(b) && b in r.nodes.vals && r.nodes.vals[b].status == Active
                                  && r.phase == Normal
            case Refused => r == t
            case Raised => var a := FailoverSource(t, source).value;
                           r.phase == InProgress && r.active == t.active
                           && a in r.nodes.vals && r.nodes.vals[a].status == Failed
  {
    hide Select;
  }

  lemma AutomaticFailover(u: Table, a: string)
    requires u.phase == Normal && "" !in u.nodes.vals && SingleActive(u)
    requires u.active == Some(a) && a in u.nodes.vals && u.nodes.vals[a].status == Failed
    ensures var best, r := Select(u, u.nodes.keys, a), Trigger(u, Some(a), None);
            && IsBest(u, u.nodes.keys, a, best)
            && match best { case None => r == u case Some(b) => TakenOver(u, r, a, b) }
  {
    hide Select, IsBest, MayTakeOver;
    SelectIsBest(u, u.nodes.keys, a);
    SameSelection(u, a);
  }

  /**
    One monitor round when the active node is newly failed: the best fresh node takes over, and is then the only
    active one; when there is none the round does no more than the check, and the active node keeps its place.
  */
  lemma FailingRound(t: Table, now: real, cfg: Settings, a: string)
    requires cfg.interval != 0.0 && t.phase == Normal && "" !in t.nodes.vals && SingleActive(t)
    requires t.active == Some(a) && a in NewFailures(t, t.nodes.keys, now, cfg)
    ensures var u, r := CheckAll(t, now, cfg), MonitorRound(t, now, cfg);
            var best := Select(u, u.nodes.keys, a);
            && IsBest(u, u.nodes.keys, a, best)
            && match best { case None => r == u case Some(b) => TakenOver(u, r, a, b) }
  {
    hide Select, Checked, Overdue, React, Trigger, IsBest;
    var failed := NewFailures(t, t.nodes.keys, now, cfg);
    var u := CheckAll(t, now, cfg);
    NewFailuresDistinct(t, t.nodes.keys, now, cfg);
    FailedAreFailed(t, now, cfg);
    AutomaticFailover(u, a);
    var i :| 0 <= i < |failed| && failed[i] == a;
    forall j | 0 <= j < |failed| && j != i
      ensures failed[j] != a && Trigger(u, Some(a), None).active != Some(failed[j])
    {
      assert failed[j] in failed;
    }
    ReactAround(u, failed, i);
  }

  /** Reacting to a list that names the active node once, and otherwise only nodes the failover would not pick. */
  lemma ReactAround(u: Table, failed: seq<string>, i: nat)
    requires i < |failed| && u.active == Some(failed[i])
    requires forall j :: 0 <= j < |failed| && j != i ==> failed[j] != failed[i]
    requires forall j :: 0 <= j < |failed| ==> Trigger(u, Some(failed[i]), None).active != Some(failed[j]) || j == i
    ensures React(u, failed) == Trigger(u, Some(failed[i]), None)
  {
    hide Trigger;
    var a, before, after := failed[i], failed[..i], failed[i + 1..];
    var v := Trigger(u, Some(a), None);
    ReactIgnoresOthers(u, before);
    assert React(u, before + [a]) == v by {
      assert (before + [a])[..|before|] == before;
    }
    ReactIgnoresOthers(v, after);
    ReactSplits(u, before + [a], after);
    assert failed == before + [a] + after;
  }

  lemma FailedAreFailed(t: Table, now: real, cfg: Settings)
    requires cfg.interval != 0.0
    ensures forall id :: id in NewFailures(t, t.nodes.keys, now, cfg) ==>
              id in t.nodes.vals && CheckAll(t, now, cfg).nodes.vals[id].status == Failed
    ensures forall id :: id in t.nodes.vals && CheckAll(t, now, cfg).nodes.vals[id].status == Active ==>
              t.nodes.vals[id].status == Active
  {
    hide MissedBeats;
  }

  /** Marking a failover as begun does not change what is selected. */
  lemma SameSelection(u: Table, exclude: string)
    ensures ChooseTarget(u.(phase := InProgress), exclude, None) == Select(u, u.nodes.keys, exclude)
  {
    SelectReadsNodes(u, u.(phase := InProgress), u.nodes.keys, exclude);
  }

  lemma {:induction false} SelectReadsNodes(t: Table, u: Table, ids: seq<string>, exclude: string)
    requires t.nodes == u.nodes && forall id :: id in ids ==> id in t.nodes.vals
    ensures Select(t, ids, exclude) == Select(u, ids, exclude)
  {
    if ids != [] {
      SelectReadsNodes(t, u, ids[..|ids| - 1], exclude);
    }
  }
}

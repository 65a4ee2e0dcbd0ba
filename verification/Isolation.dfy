/**
 * Device isolation of live processes: the scheduler's passes over the job table joined with the agents
 * that run what the table says.
 */
module Isolation {
  import opened Types
  import opened Resources
  import opened FreeViews
  import opened Orders
  import opened Planning
  import opened PlanProperties
  import opened Stores
  import opened Executors
  import Protocol
  import Execution

  datatype World = World(nodes: NodeTable, phase: Protocol.Phase, sys: Execution.Sys)

  /** The tables and the scheduler, without the agents. */
  function ClusterOf(w: World): Protocol.Cluster {
    Protocol.Cluster(w.nodes, w.sys.jobs, w.phase)
  }

  datatype Move = Schedule(p: Protocol.Event) | Act(e: Execution.Event)

  /** The statements on nodes and of the scheduler; rows are granted by its commits only. */
  predicate OfScheduler(p: Protocol.Event) {
    !p.Submit? && !p.Cancel? && !p.Report?
  }

  ghost predicate Takes(w: World, m: Move, w': World) {
    match m
    case Schedule(p) =>
      && OfScheduler(p) && (p.Register? ==> p.n.id != "")
      && Protocol.Next(ClusterOf(w), p, ClusterOf(w')) && w'.sys == w.sys.(jobs := w'.sys.jobs)
    case Act(e) =>
      && !e.Assign? && (e.Submit? ==> e.j.devices == [])
      && Execution.Enabled(w.sys, e) && w' == w.(sys := Execution.Apply(w.sys, e))
  }

  const NOTHING := World(map[], Protocol.Idle, Execution.INITIAL)

  /** A run of everything together, in which no start is stale. */
  ghost predicate Behavior(ws: seq<World>, ms: seq<Move>) {
    && |ws| == |ms| + 1 && ws[0] == NOTHING
    && forall i | 0 <= i < |ms| :: Takes(ws[i], ms[i], ws[i + 1]) && Timely(ws[i], ms[i])
  }

  ghost predicate Timely(w: World, m: Move) {
    m.Act? ==> !Execution.Stale(w.sys, m.e)
  }

  // --- Both halves keep their invariants ---

  /** No node is known, and nothing is granted, under an empty id. */
  ghost predicate Named(w: World) {
    && (forall id | id in w.nodes :: id != "" && w.nodes[id].id == id)
    && match w.phase
       case Idle => true
       case SawNodes(ns) => forall n | n in ns :: n.id != ""
       case SawActive(ns, _) => forall n | n in ns :: n.id != ""
       case Committing(rest) => forall p | p in rest :: p.nodeId != ""
  }

  ghost predicate Inv(w: World) {
    Protocol.Inv(ClusterOf(w)) && Execution.Inv(w.sys) && Named(w)
  }

  /** What an agent or a user does is, to the tables, one of the protocol's statements. */
  lemma ActIsStatement(w: World, e: Execution.Event, w': World) returns (p: Protocol.Event)
    requires Takes(w, Act(e), w')
    ensures Protocol.Next(ClusterOf(w), p, ClusterOf(w')) && !p.Commit?
  {
    match e
    case Submit(j) => p := Protocol.Event.Submit(j);
    case CancelJob(id, t) => p := Protocol.Event.Cancel(id, t);
    case ReportRunning(x, t) => p := Protocol.Event.Report(x.job, JobState.Running, 0, "", t);
    case Fail(x, why, t) => p := Protocol.Event.Report(x.job, Failed, -1, why, t);
    case Exit(x, how, t) =>
      var proc := Execution.ProcAt(w.sys, x);
      var v := Classify(how, proc.killed, proc.timedOut);
      p := Protocol.Event.Report(x.job, v.state, v.code, v.reason, t);
    case _ => p := Protocol.Event.Report("", Failed, 0, "", 0);
  }

  lemma PlacedAreNamed(s: Snapshot, pending: seq<Job>)
    requires UniqueNodes(s.nodes) && forall n | n in s.nodes :: n.id != ""
    ensures forall p | p in Placed(s, pending) :: p.nodeId != ""
  {
    PassIsSound(s, Ranked(pending, s.now, s.policy.ageWeight));
  }

  lemma StaysNamed(w: World, p: Protocol.Event, w': World)
    requires Inv(w) && Takes(w, Schedule(p), w')
    ensures Named(w')
  {
    hide Execution.Inv, Placed;
    match p
    case ReadPendingAndPlan(now, policy, pending) =>
      PlacedAreNamed(Snapshot(now, w.phase.nodes, w.phase.active, policy), pending);
    case _ =>
  }

  lemma CommitIsAssign(w: World, w': World) returns (e: Execution.Event)
    requires Inv(w) && Takes(w, Schedule(Protocol.Commit), w')
    ensures e.Assign? && Execution.Enabled(w.sys, e) && w'.sys == Execution.Apply(w.sys, e)
  {
    hide Protocol.Inv, Execution.Inv;
    var j := w.phase.rest[0];
    assert j in w.phase.rest;
    e := Execution.Assign(j.id, j.nodeId, j.nodeName, j.devices);
  }

  lemma ScheduleLeavesSystem(w: World, p: Protocol.Event, w': World)
    requires Takes(w, Schedule(p), w') && !p.Commit?
    ensures w'.sys == w.sys
  {
    hide Placed, Lists, ListsNodes, Registered;
  }

  lemma InvNext(w: World, m: Move, w': World)
    requires Inv(w) && Takes(w, m, w') && Timely(w, m)
    ensures Inv(w')
  {
    hide Protocol.Inv, Execution.Inv, Protocol.Next, Execution.Apply, Execution.Enabled;
    match m
    case Act(e) =>
      Execution.InvNext(w.sys, e);
      var p := ActIsStatement(w, e, w');
      Protocol.InvNext(ClusterOf(w), p, ClusterOf(w'));
    case Schedule(p) =>
      Protocol.InvNext(ClusterOf(w), p, ClusterOf(w'));
      StaysNamed(w, p, w');
      if p.Commit? {
        var e := CommitIsAssign(w, w');
        NoStaleAssign(w.sys, e);
        Execution.InvNext(w.sys, e);
      } else {
        ScheduleLeavesSystem(w, p, w');
      }
  }

  lemma NoStaleAssign(s: Execution.Sys, e: Execution.Event)
    requires e.Assign?
    ensures !Execution.Stale(s, e)
  {
  }

  lemma {:induction false} InvAlways(ws: seq<World>, ms: seq<Move>, k: nat)
    requires Behavior(ws, ms) && k <= |ms|
    ensures Inv(ws[k])
  {
    hide Takes, Timely, Protocol.Inv, Execution.Inv;
    if k == 0 {
      NothingInv();
    } else {
      InvAlways(ws, ms, k - 1);
      InvNext(ws[k - 1], ms[k - 1], ws[k]);
    }
  }

  lemma NothingInv()
    ensures Inv(NOTHING)
  {
  }

  // --- Isolation ---

  /** A run that has begun and not yet made its final report. */
  ghost predicate Alive(s: Execution.Sys, x: Execution.Slot) {
    Execution.Runs(s, x) && !Execution.ProcAt(s, x).stage.Reported?
  }

  lemma AliveRow(s: Execution.Sys, x: Execution.Slot)
    requires Execution.Inv(s) && Alive(s, x)
    ensures x.job in s.jobs && s.jobs[x.job].nodeId == x.node
    ensures Active(s.jobs[x.job]) || s.jobs[x.job].state.Cancelling?
  {
    assert Execution.SlotInv(s, x);
  }

  /**
   * Two live runs on a node see the same device only if one of them is being cancelled: the scheduler
   * may hand its devices on before it is dead.
   */
  lemma SharedOnlyWhileCancelling(
      ws: seq<World>, ms: seq<Move>, k: nat, x: Execution.Slot, y: Execution.Slot, d: AllocDevice)
    requires Behavior(ws, ms) && k <= |ms| && x != y && x.node == y.node
    requires Alive(ws[k].sys, x) && Alive(ws[k].sys, y)
    ensures x.job in ws[k].sys.jobs && y.job in ws[k].sys.jobs
    ensures var a, b := ws[k].sys.jobs[x.job], ws[k].sys.jobs[y.job];
            d in a.devices && d in b.devices ==> a.state.Cancelling? || b.state.Cancelling?
  {
    hide Takes, Execution.Inv;
    var s := ws[k].sys;
    InvAlways(ws, ms, k);
    AliveRow(s, x);
    AliveRow(s, y);
    if Active(s.jobs[x.job]) && Active(s.jobs[y.job]) {
      assert Protocol.Apart(s.jobs[x.job], s.jobs[y.job]);
    }
  }

  // --- It does happen: a run in which a device is handed on before its holder is dead ---

  const DEV := Device("gpu", 0, "")
  const NODE := Node("n", "n", "", Up, 1, 1, [DEV], None)
  const POLICY := Policy(true, 0.0)

  /** A job for one device of any type. */
  function Wants(id: string): Job {
    Job(id, "", "", Pending, 0, 0, 0, 1, Any, 0, "", "", [], 0, "", None, None, None)
  }

  function Granted(id: string): Job {
    Wants(id).(state := Assigned, nodeId := "n", nodeName := "n", devices := [Key(DEV)])
  }

  /** A pass over the idle node places the only pending job on its only device. */
  lemma PlacedAlone(id: string)
    ensures Placed(Snapshot(0, [NODE], [], POLICY), [Wants(id)]) == [Granted(id).(startAt := Some(0))]
  {
    var s, job := Snapshot(0, [NODE], [], POLICY), Wants(id);
    assert Ranked([job], 0, 0.0) == [job];
    assert [] + [job] == [job];
    RunSnoc(s, [], job);
    FleetOfOne();
    OfferOfOne(id);
    assert Frees([NODE], []) == [FreeOf(NODE, [])];
    FirstOfOne(job, FreeOf(NODE, []));
  }

  lemma FleetOfOne()
    ensures Fleet([NODE]) == [NODE]
  {
    assert [NODE][..0] == [];
  }

  lemma OfferOfOne(id: string)
    ensures Offer(Wants(id), FreeOf(NODE, [])) == Some([Key(DEV)])
  {
    FreeOfNobody(NODE);
    MatchingSnoc([], DEV, Any);
    assert [] + [DEV] == [DEV];
    assert Matching([DEV], Any) == [DEV];
    assert [DEV][..1] == [DEV] && Keys([DEV]) == [Key(DEV)];
  }

  lemma FirstOfOne(job: Job, v: FreeView)
    requires Offer(job, v).Some?
    ensures FirstFit(job, [v]) == Some(0)
  {
    assert v in [v];
  }

  lemma OneMore(ws: seq<World>, ms: seq<Move>, m: Move, w: World)
    requires Behavior(ws, ms) && Takes(ws[|ms|], m, w) && Timely(ws[|ms|], m)
    ensures Behavior(ws + [w], ms + [m])
  {
    hide Takes, Timely;
  }

  /** The scheduler is between passes, the only node is idle, and `id` is the only row that is pending or active. */
  ghost predicate Waits(w: World, id: string) {
    && w.nodes == map["n" := NODE] && w.phase.Idle?
    && id in w.sys.jobs && w.sys.jobs[id] == Wants(id)
    && (forall k | k in w.sys.jobs && k != id :: !w.sys.jobs[k].state.Pending? && !Active(w.sys.jobs[k]))
  }

  /** One undisturbed pass grants the device. */
  lemma PassGrants(ws: seq<World>, ms: seq<Move>, id: string) returns (ws': seq<World>, ms': seq<Move>)
    requires Behavior(ws, ms) && Waits(ws[|ms|], id)
    ensures Behavior(ws', ms')
    ensures var w := ws[|ms|]; ws'[|ms'|] == w.(sys := w.sys.(jobs := w.sys.jobs[id := Granted(id)]))
  {
    var w := ws[|ms|];
    var plan := [Granted(id).(startAt := Some(0))];
    PlacedAlone(id);
    var w1 := w.(phase := Protocol.SawNodes([NODE]));
    var w2 := w.(phase := Protocol.SawActive([NODE], []));
    var w3 := w.(phase := Protocol.Committing(plan));
    PassReads(w, id, w1, w2, w3);
    var w4 := w.(phase := Protocol.Committing([]), sys := w.sys.(jobs := w.sys.jobs[id := Granted(id)]));
    PassCommits(w3, id, w4);
    var w5 := w4.(phase := Protocol.Idle);
    PassEnds(w4, w5);
    hide Takes, Waits;
    ws', ms' := ws, ms;
    OneMore(ws', ms', Schedule(Protocol.ReadNodes([NODE])), w1);
    ws', ms' := ws' + [w1], ms' + [Schedule(Protocol.ReadNodes([NODE]))];
    OneMore(ws', ms', Schedule(Protocol.ReadActive([])), w2);
    ws', ms' := ws' + [w2], ms' + [Schedule(Protocol.ReadActive([]))];
    OneMore(ws', ms', Schedule(Protocol.ReadPendingAndPlan(0, POLICY, [Wants(id)])), w3);
    ws', ms' := ws' + [w3], ms' + [Schedule(Protocol.ReadPendingAndPlan(0, POLICY, [Wants(id)]))];
    OneMore(ws', ms', Schedule(Protocol.Commit), w4);
    ws', ms' := ws' + [w4], ms' + [Schedule(Protocol.Commit)];
    OneMore(ws', ms', Schedule(Protocol.EndPass), w5);
    ws', ms' := ws' + [w5], ms' + [Schedule(Protocol.EndPass)];
  }

  lemma PassReads(w: World, id: string, w1: World, w2: World, w3: World)
    requires Waits(w, id) && w1 == w.(phase := Protocol.SawNodes([NODE]))
    requires w2 == w.(phase := Protocol.SawActive([NODE], []))
    requires w3 == w.(phase := Protocol.Committing(Placed(Snapshot(0, [NODE], [], POLICY), [Wants(id)])))
    ensures Takes(w, Schedule(Protocol.ReadNodes([NODE])), w1)
    ensures Takes(w1, Schedule(Protocol.ReadActive([])), w2)
    ensures Takes(w2, Schedule(Protocol.ReadPendingAndPlan(0, POLICY, [Wants(id)])), w3)
  {
    hide Placed;
    assert NODE in [NODE] && Wants(id) in [Wants(id)];
  }

  lemma PassCommits(w: World, id: string, w': World)
    requires id in w.sys.jobs && w.sys.jobs[id] == Wants(id)
    requires w.phase == Protocol.Committing([Granted(id).(startAt := Some(0))])
    requires w' == w.(phase := Protocol.Committing([]), sys := w.sys.(jobs := w.sys.jobs[id := Granted(id)]))
    ensures Takes(w, Schedule(Protocol.Commit), w')
  {
    assert w.phase.rest[1..] == [];
  }

  lemma PassEnds(w: World, w': World)
    requires w' == w.(phase := Protocol.Idle)
    ensures Takes(w, Schedule(Protocol.EndPass), w')
  {
  }

  /** One step of an agent or a user. */
  lemma Acts(ws: seq<World>, ms: seq<Move>, e: Execution.Event) returns (ws': seq<World>, ms': seq<Move>)
    requires Behavior(ws, ms) && Execution.Enabled(ws[|ms|].sys, e) && !Execution.Stale(ws[|ms|].sys, e)
    requires !e.Assign? && (e.Submit? ==> e.j.devices == [])
    ensures Behavior(ws', ms')
    ensures var w := ws[|ms|]; ws'[|ms'|] == w.(sys := Execution.Apply(w.sys, e))
  {
    var w := ws[|ms|];
    var w' := w.(sys := Execution.Apply(w.sys, e));
    OneMore(ws, ms, Act(e), w');
    ws', ms' := ws + [w'], ms + [Act(e)];
  }

  /** `id` is the one assigned row of the node, `cancels` its cancelling ones, and no poll is in progress. */
  ghost predicate ReadyToStart(s: Execution.Sys, id: string, cancels: seq<string>) {
    && "n" !in s.polls && id in s.jobs && s.jobs[id] == Granted(id)
    && Execution.ListsIds([id], s.jobs, "n", Assigned) && Execution.ListsIds(cancels, s.jobs, "n", Cancelling)
    && !Execution.Runs(s, Execution.Slot("n", id))
  }

  ghost predicate Spawned(s: Execution.Sys, id: string) {
    Execution.InStage(s, Execution.Slot("n", id), Executors.Spawned)
  }

  /** Everyone else's runs go on as they were. */
  ghost predicate OthersRun(s: Execution.Sys, s': Execution.Sys, id: string) {
    forall k | k != id ::
      var x := Execution.Slot("n", k);
      && (Execution.Runs(s', x) <==> Execution.Runs(s, x))
      && (Execution.Runs(s, x) ==> Execution.ProcAt(s', x) == Execution.ProcAt(s, x))
  }

  /** The agent polls and starts the granted job. */
  lemma PollStarts(ws: seq<World>, ms: seq<Move>, id: string, cancels: seq<string>)
    returns (ws': seq<World>, ms': seq<Move>)
    requires Behavior(ws, ms) && ReadyToStart(ws[|ms|].sys, id, cancels)
    ensures Behavior(ws', ms')
    ensures var w, s, s' := ws[|ms|], ws[|ms|].sys, ws'[|ms'|].sys;
            && ws'[|ms'|] == w.(sys := s') && s'.jobs == s.jobs && Spawned(s', id) && OthersRun(s, s', id)
            && "n" in s'.polls && s'.polls["n"] == Execution.Poll([], Some(cancels))
  {
    var s := ws[|ms|].sys;
    var s1 := PollReads(s, id, cancels);
    var s2 := PolledStarts(s1, id, cancels);
    ws', ms' := Acts(ws, ms, Execution.PollRun("n", [id]));
    ws', ms' := Acts(ws', ms', Execution.PollCancels("n", cancels));
    ws', ms' := Acts(ws', ms', Execution.Launch("n"));
    ws', ms' := Acts(ws', ms', Execution.Spawn(Execution.Slot("n", id)));
    assert ws'[|ms'|].sys == s2;
  }

  lemma PollReads(s: Execution.Sys, id: string, cancels: seq<string>) returns (s1: Execution.Sys)
    requires ReadyToStart(s, id, cancels)
    ensures Execution.Enabled(s, Execution.PollRun("n", [id]))
    ensures Execution.Enabled(Execution.Apply(s, Execution.PollRun("n", [id])), Execution.PollCancels("n", cancels))
    ensures s1 == Execution.Apply(Execution.Apply(s, Execution.PollRun("n", [id])), Execution.PollCancels("n", cancels))
    ensures s1 == s.(polls := s.polls["n" := Execution.Poll([id], Some(cancels))])
  {
    s1 := Execution.Apply(Execution.Apply(s, Execution.PollRun("n", [id])), Execution.PollCancels("n", cancels));
  }

  lemma PolledStarts(s: Execution.Sys, id: string, cancels: seq<string>) returns (s': Execution.Sys)
    requires "n" in s.polls && s.polls["n"] == Execution.Poll([id], Some(cancels))
    requires id in s.jobs && s.jobs[id] == Granted(id) && !Execution.Runs(s, Execution.Slot("n", id))
    ensures var e, x := Execution.Launch("n"), Execution.Slot("n", id);
            && Execution.Enabled(s, e) && !Execution.Stale(s, e)
            && Execution.Enabled(Execution.Apply(s, e), Execution.Spawn(x))
            && s' == Execution.Apply(Execution.Apply(s, e), Execution.Spawn(x))
    ensures s'.jobs == s.jobs && Spawned(s', id) && OthersRun(s, s', id)
    ensures "n" in s'.polls && s'.polls["n"] == Execution.Poll([], Some(cancels))
  {
    s' := Execution.Apply(Execution.Apply(s, Execution.Launch("n")), Execution.Spawn(Execution.Slot("n", id)));
  }

  /** A node has registered and a first job is waiting for it. */
  lemma FirstWaits() returns (ws: seq<World>, ms: seq<Move>)
    ensures Behavior(ws, ms) && Waits(ws[|ms|], "a")
    ensures ws[|ms|].sys == Execution.INITIAL.(jobs := map["a" := Wants("a")])
  {
    var w1 := NOTHING.(nodes := map["n" := NODE]);
    assert Takes(NOTHING, Schedule(Protocol.Register(NODE, Some("n"))), w1);
    ws, ms := [NOTHING, w1], [Schedule(Protocol.Register(NODE, Some("n")))];
    ws, ms := Acts(ws, ms, Execution.Submit(Wants("a")));
  }

  /** The first job runs. */
  lemma FirstRuns() returns (ws: seq<World>, ms: seq<Move>)
    ensures Behavior(ws, ms) && ws[|ms|].nodes == map["n" := NODE] && ws[|ms|].phase.Idle?
    ensures var s := ws[|ms|].sys;
            s.jobs == map["a" := Granted("a")] && Spawned(s, "a") && "n" !in s.polls
            && !Execution.Runs(s, Execution.Slot("n", "b"))
  {
    ws, ms := FirstWaits();
    ws, ms := PassGrants(ws, ms, "a");
    assert ws[|ms|].sys.jobs == map["a" := Granted("a")];
    ws, ms := PollStarts(ws, ms, "a", []);
    ws, ms := Acts(ws, ms, Execution.PollDone("n"));
  }

  /** It is cancelled, and a second job is submitted. */
  lemma SecondWaits() returns (ws: seq<World>, ms: seq<Move>)
    ensures Behavior(ws, ms) && Waits(ws[|ms|], "b")
    ensures var s := ws[|ms|].sys;
            && s.jobs == map["a" := Granted("a").(state := Cancelling), "b" := Wants("b")]
            && Spawned(s, "a") && "n" !in s.polls && !Execution.Runs(s, Execution.Slot("n", "b"))
  {
    ws, ms := FirstRuns();
    ws, ms := Acts(ws, ms, Execution.CancelJob("a", 0));
    assert ws[|ms|].sys.jobs == map["a" := Granted("a").(state := Cancelling)];
    ws, ms := Acts(ws, ms, Execution.Submit(Wants("b")));
  }

  /** The second is granted the device of the first, and the agent starts it before it handles the cancel. */
  lemma DeviceHandedOnTooEarly() returns (ws: seq<World>, ms: seq<Move>)
    ensures Behavior(ws, ms)
    ensures var s := ws[|ms|].sys;
            && Alive(s, Execution.Slot("n", "a")) && Alive(s, Execution.Slot("n", "b"))
            && "a" in s.jobs && "b" in s.jobs && Key(DEV) in s.jobs["a"].devices && Key(DEV) in s.jobs["b"].devices
  {
    hide Takes, Waits, Execution.Enabled, Execution.Apply;
    ws, ms := SecondWaits();
    ws, ms := PassGrants(ws, ms, "b");
    var s := ws[|ms|].sys;
    assert s.jobs["b"] == Granted("b") && s.jobs["a"] == Granted("a").(state := Cancelling);
    ws, ms := PollStarts(ws, ms, "b", ["a"]);
    assert OthersRun(s, ws[|ms|].sys, "b");
  }
}

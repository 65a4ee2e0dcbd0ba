/**
 * The job table under concurrency: a pass reads nodes, active and pending jobs in three statements and
 * then commits its decisions one guarded update at a time, while every other writer interleaves.
 */
module Protocol {
  import opened Types
  import opened Slices
  import opened Orders
  import opened Planning
  import opened PlanProperties
  import opened Stores

  /** Where the scheduler is in its pass; the node and job lists it holds may be stale. */
  datatype Phase =
    | Idle
    | SawNodes(nodes: seq<Node>)
    | SawActive(nodes: seq<Node>, active: seq<Job>)
    | Committing(rest: seq<Job>)

  datatype Cluster = Cluster(nodes: NodeTable, jobs: JobTable, phase: Phase)

  datatype Event =
    | Submit(j: Job)
    | Cancel(id: string, t: Time)
    | Report(id: string, state: JobState, code: int, reason: string, t: Time)
    | Register(n: Node, result: Option<string>)
    | Heartbeat(n: Node, t: Time)
    | Reap(olderThan: Time)
    | ReadNodes(ns: seq<Node>)
    | ReadActive(js: seq<Job>)
    | ReadPendingAndPlan(now: Time, policy: Policy, pending: seq<Job>)
    | Commit
    | EndPass

  ghost predicate Next(c: Cluster, e: Event, c': Cluster) {
    match e
    case Submit(j) => j.state.Pending? && j.nodeId == "" && j.devices == [] && c' == c.(jobs := CreateRow(c.jobs, j))
    case Cancel(id, t) => c' == c.(jobs := CancelRow(c.jobs, id, t))
    case Report(id, st, code, why, t) => c' == c.(jobs := ReportRow(c.jobs, id, st, code, why, t))
    case Register(n, result) => Registered(c.nodes, n, c'.nodes, result) && c' == c.(nodes := c'.nodes)
    case Heartbeat(n, t) => c' == c.(nodes := BeatRow(c.nodes, n, t))
    case Reap(olderThan) => c' == c.(nodes := ReapRows(c.nodes, olderThan))
    case ReadNodes(ns) => c.phase.Idle? && ListsNodes(ns, c.nodes) && c' == c.(phase := SawNodes(ns))
    case ReadActive(js) =>
      && c.phase.SawNodes? && Lists(js, c.jobs, {Assigned, JobState.Running})
      && c' == c.(phase := SawActive(c.phase.nodes, js))
    case ReadPendingAndPlan(now, policy, pending) =>
      && c.phase.SawActive? && Lists(pending, c.jobs, {Pending})
      && c' == c.(phase := Committing(Placed(Snapshot(now, c.phase.nodes, c.phase.active, policy), pending)))
    case Commit =>
      && c.phase.Committing? && c.phase.rest != []
      && var p := c.phase.rest[0];
         c' == c.(jobs := AssignRow(c.jobs, p.id, p.nodeId, p.nodeName, p.devices),
                  phase := Committing(c.phase.rest[1..]))
    case EndPass => c' == c.(phase := Idle)
  }

  ghost predicate Step(c: Cluster, c': Cluster) {
    exists e :: Next(c, e, c')
  }

  /** Any interleaving of the writers and the scheduler, from empty tables. */
  ghost predicate Behavior(cs: seq<Cluster>) {
    && cs != [] && cs[0] == Cluster(map[], map[], Idle)
    && forall i | 0 <= i < |cs| - 1 :: Step(cs[i], cs[i + 1])
  }

  // --- What one statement does to one row ---

  /** A change that grants nothing. */
  ghost predicate QuietRow(a: Job, b: Job) {
    SameRequest(a, b) && (Active(b) ==> Active(a) && b.nodeId == a.nodeId && b.devices == a.devices)
  }

  ghost predicate QuietUpdate(jobs: JobTable, id: string, v: Job) {
    v.id == id && if id in jobs then QuietRow(jobs[id], v) else !Active(v)
  }

  ghost predicate Quiet(jobs: JobTable, jobs': JobTable) {
    jobs' == jobs || exists id, v :: QuietUpdate(jobs, id, v) && jobs' == jobs[id := v]
  }

  /** Only a commit ever grants anything. */
  lemma OnlyCommitGrants(c: Cluster, e: Event, c': Cluster)
    requires Keyed(c.jobs) && Next(c, e, c') && !e.Commit?
    ensures Quiet(c.jobs, c'.jobs)
  {
    if c'.jobs != c.jobs {
      var id := match e case Submit(j) => j.id case Cancel(id, _) => id case Report(id, _, _, _, _) => id case _ => "";
      var v := c'.jobs[id];
      assert QuietUpdate(c.jobs, id, v) && c'.jobs == c.jobs[id := v];
    }
  }

  // --- Exclusivity of devices ---

  ghost predicate Disjoint(x: seq<AllocDevice>, y: seq<AllocDevice>) {
    forall d | d in x :: d !in y
  }

  /** No two active jobs on a node share a device. */
  ghost predicate Exclusive(jobs: JobTable) {
    forall a, b | a in jobs && b in jobs && a != b && Active(jobs[a]) && Active(jobs[b]) :: Apart(jobs[a], jobs[b])
  }

  ghost predicate Apart(a: Job, b: Job) {
    a.nodeId == b.nodeId ==> Disjoint(a.devices, b.devices) && Disjoint(b.devices, a.devices)
  }

  /** No active row holds what `p` is to get. */
  ghost predicate Clear(jobs: JobTable, p: Job) {
    forall a | a in jobs && Active(jobs[a]) :: Apart(jobs[a], p)
  }

  /** Whatever is active now was in the list: jobs may have left it since, but none has joined. */
  ghost predicate Covers(active: seq<Job>, jobs: JobTable) {
    forall id | id in jobs && Active(jobs[id]) ::
      exists a :: a in active && a.nodeId == jobs[id].nodeId && a.devices == jobs[id].devices
  }

  ghost predicate Requested(jobs: JobTable, p: Job) {
    p.id in jobs && SameRequest(jobs[p.id], p)
  }

  ghost predicate Committable(jobs: JobTable, rest: seq<Job>) {
    && (forall p | p in rest :: Clear(jobs, p) && Requested(jobs, p))
    && (forall i, k | 0 <= i < k < |rest| :: Apart(rest[i], rest[k]))
  }

  ghost predicate PhaseInv(jobs: JobTable, phase: Phase) {
    match phase
    case Idle => true
    case SawNodes(ns) => UniqueNodes(ns)
    case SawActive(ns, active) => UniqueNodes(ns) && Covers(active, jobs)
    case Committing(rest) => Committable(jobs, rest)
  }

  ghost predicate Inv(c: Cluster) {
    Keyed(c.jobs) && NodesKeyed(c.nodes) && Exclusive(c.jobs) && PhaseInv(c.jobs, c.phase)
  }

  lemma QuietKeepsTable(jobs: JobTable, jobs': JobTable)
    requires Keyed(jobs) && Exclusive(jobs) && Quiet(jobs, jobs')
    ensures Keyed(jobs') && Exclusive(jobs')
    ensures forall id | id in jobs :: id in jobs' && SameRequest(jobs[id], jobs'[id])
    ensures forall id | id in jobs' && Active(jobs'[id]) ::
              && id in jobs && Active(jobs[id])
              && jobs'[id].nodeId == jobs[id].nodeId && jobs'[id].devices == jobs[id].devices
  {
  }

  lemma QuietKeepsPhase(jobs: JobTable, jobs': JobTable, phase: Phase)
    requires Keyed(jobs) && Exclusive(jobs) && Quiet(jobs, jobs') && PhaseInv(jobs, phase)
    ensures PhaseInv(jobs', phase)
  {
    QuietKeepsTable(jobs, jobs');
    match phase
    case SawActive(_, active) =>
      forall id | id in jobs' && Active(jobs'[id])
        ensures exists a :: a in active && a.nodeId == jobs'[id].nodeId && a.devices == jobs'[id].devices
      {
        assert Active(jobs[id]);
      }
    case Committing(rest) =>
      forall p | p in rest ensures Clear(jobs', p) && Requested(jobs', p) {
        assert Clear(jobs, p) && Requested(jobs, p);
      }
    case _ =>
  }

  lemma RegisterKeepsKeys(nodes: NodeTable, n: Node, nodes': NodeTable, id: Option<string>)
    requires NodesKeyed(nodes) && Registered(nodes, n, nodes', id)
    ensures NodesKeyed(nodes')
  {
    if n.id !in nodes {
      if known :| known in nodes && nodes[known].name == n.name {
        assert nodes'.Keys == nodes.Keys;
        assert forall a | a in nodes :: nodes'[a].name == nodes[a].name;
      }
    }
  }

  lemma NodeStepsKeepKeys(c: Cluster, e: Event, c': Cluster)
    requires NodesKeyed(c.nodes) && Next(c, e, c')
    ensures NodesKeyed(c'.nodes)
  {
    match e
    case Register(n, result) => RegisterKeepsKeys(c.nodes, n, c'.nodes, result);
    case Heartbeat(n, t) => assert forall a | a in c'.nodes :: a in c.nodes && c'.nodes[a].name == c.nodes[a].name;
    case Reap(t) => assert forall a | a in c'.nodes :: a in c.nodes && c'.nodes[a].name == c.nodes[a].name;
    case _ =>
  }

  /** A plan computed from stale lists can still be committed in full. */
  lemma PlanIsCommittable(jobs: JobTable, s: Snapshot, pending: seq<Job>)
    requires Keyed(jobs) && UniqueNodes(s.nodes) && Covers(s.active, jobs) && Lists(pending, jobs, {Pending})
    ensures Committable(jobs, Placed(s, pending))
  {
    var queue, placed := Ranked(pending, s.now, s.policy.ageWeight), Placed(s, pending);
    PassIsSound(s, queue);
    RankedPermutes(pending, s.now, s.policy.ageWeight);
    SameMembers(queue, pending);
    forall i | 0 <= i < |placed| ensures Clear(jobs, placed[i]) && Requested(jobs, placed[i]) {
      DevicesAreExclusive(s, placed, i);
      var q := PlacedFromQueue(s, queue, placed[i]);
      assert q in pending;
      forall id | id in jobs && Active(jobs[id]) ensures Apart(jobs[id], placed[i]) {
        var a :| a in s.active && a.nodeId == jobs[id].nodeId && a.devices == jobs[id].devices;
      }
    }
    forall i, k | 0 <= i < k < |placed| ensures Apart(placed[i], placed[k]) {
      DevicesAreExclusive(s, placed, k);
    }
  }

  lemma CommitKeepsInv(jobs: JobTable, rest: seq<Job>)
    requires Keyed(jobs) && Exclusive(jobs) && Committable(jobs, rest) && rest != []
    ensures var p := rest[0]; var jobs' := AssignRow(jobs, p.id, p.nodeId, p.nodeName, p.devices);
            Keyed(jobs') && Exclusive(jobs') && Committable(jobs', rest[1..])
  {
    var p := rest[0];
    var jobs' := AssignRow(jobs, p.id, p.nodeId, p.nodeName, p.devices);
    assert Clear(jobs, p);
    assert forall a | a in jobs' && a != p.id :: a in jobs && jobs'[a] == jobs[a];
    forall i | 0 <= i < |rest[1..]| ensures Clear(jobs', rest[1..][i]) && Requested(jobs', rest[1..][i]) {
      var q := rest[i + 1];
      assert q in rest && Apart(rest[0], q);
      assert Clear(jobs, q) && Requested(jobs, q);
    }
  }

  lemma InvNext(c: Cluster, e: Event, c': Cluster)
    requires Inv(c) && Next(c, e, c')
    ensures Inv(c')
  {
    NodeStepsKeepKeys(c, e, c');
    if e.Commit? {
      CommitKeepsInv(c.jobs, c.phase.rest);
    } else {
      OnlyCommitGrants(c, e, c');
      QuietKeepsTable(c.jobs, c'.jobs);
      QuietKeepsPhase(c.jobs, c'.jobs, c.phase);
      match e
      case ReadNodes(ns) => ListedNodesAreUnique(ns, c.nodes);
      case ReadActive(js) =>
        forall id | id in c.jobs && Active(c.jobs[id])
          ensures exists a :: a in js && a.nodeId == c.jobs[id].nodeId && a.devices == c.jobs[id].devices
        {
          assert c.jobs[id] in js;
        }
      case ReadPendingAndPlan(now, policy, pending) =>
        PlanIsCommittable(c.jobs, Snapshot(now, c.phase.nodes, c.phase.active, policy), pending);
      case _ =>
    }
  }

  lemma {:induction false} InvAlways(cs: seq<Cluster>, k: nat)
    requires Behavior(cs) && k < |cs|
    ensures Inv(cs[k])
  {
    if k > 0 {
      InvAlways(cs, k - 1);
      assert Step(cs[k - 1], cs[k]);
      var e :| Next(cs[k - 1], e, cs[k]);
      InvNext(cs[k - 1], e, cs[k]);
    }
  }

  /**
   * Stale-snapshot safety: under every interleaving, and however inventories change, no two active
   * jobs on a node ever hold the same device.
   */
  lemma DevicesNeverShared(cs: seq<Cluster>, k: nat, a: string, b: string, d: AllocDevice)
    requires Behavior(cs) && k < |cs|
    requires a in cs[k].jobs && cs[k].jobs[a].state in {Assigned, JobState.Running}
    requires b in cs[k].jobs && cs[k].jobs[b].state in {Assigned, JobState.Running}
    requires cs[k].jobs[a].nodeId == cs[k].jobs[b].nodeId
    requires d in cs[k].jobs[a].devices && d in cs[k].jobs[b].devices
    ensures a == b
  {
    InvAlways(cs, k);
  }
}

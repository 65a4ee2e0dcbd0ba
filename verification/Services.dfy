/** The server-side callers of the store: the scheduler's pass and the two job calls of the agent service. */
module Services {
  import opened Types
  import opened Resources
  import opened Reservations
  import opened Orders
  import opened Planning
  import opened PlanProperties
  import opened Stores
  import opened Protocol
  import opened ProtocolRuns
  import Execution

  /** The table holds what the protocol keeps true of it in every run. */
  ghost predicate TablesInv(jobs: JobTable, nodes: NodeTable) {
    && Keyed(jobs) && NodesKeyed(nodes) && Exclusive(jobs)
    && forall n: Node :: TableLoad(jobs, n, Cpu) < U32 && TableLoad(jobs, n, Mem) < U64
  }

  /** Every state of every run has such tables. */
  lemma TablesAlways(cs: seq<Cluster>, k: nat)
    requires Behavior(cs) && k < |cs|
    ensures TablesInv(cs[k].jobs, cs[k].nodes)
  {
    InvAlways(cs, k);
    forall n: Node ensures TableLoad(cs[k].jobs, n, Cpu) < U32 && TableLoad(cs[k].jobs, n, Mem) < U64 {
      BoundedAlways(cs, k, n, Cpu, U32 - 1);
      BoundedAlways(cs, k, n, Mem, U64 - 1);
    }
  }

  function CommitAll(jobs: JobTable, ds: seq<Decision>): JobTable {
    if ds == [] then jobs
    else
      var d := ds[|ds| - 1];
      AssignRow(CommitAll(jobs, ds[..|ds| - 1]), d.jobId, d.nodeId, d.nodeName, d.devices)
  }

  lemma {:induction false} CommitAllKeepsExclusive(jobs: JobTable, placed: seq<Job>, i: nat)
    requires Keyed(jobs) && Exclusive(jobs) && Committable(jobs, placed) && i <= |placed|
    ensures var jobs' := CommitAll(jobs, Decided(placed)[..i]);
            Keyed(jobs') && Exclusive(jobs') && Committable(jobs', placed[i..])
  {
    if i > 0 {
      CommitAllKeepsExclusive(jobs, placed, i - 1);
      var ds := Decided(placed);
      CommitKeepsInv(CommitAll(jobs, ds[..i - 1]), placed[i - 1..]);
      assert ds[..i][..i - 1] == ds[..i - 1];
      assert placed[i - 1..][1..] == placed[i..];
    } else {
      assert placed[0..] == placed;
    }
  }

  /** What a commit makes of a row: the placed job's claim, and nothing else of it changed. */
  function Granted(row: Job, p: Job): Job {
    row.(state := Assigned, nodeId := p.nodeId, nodeName := p.nodeName, devices := p.devices)
  }

  /** Every planned row is there to be assigned, once. */
  ghost predicate AllPending(jobs: JobTable, placed: seq<Job>) {
    && (forall k | 0 <= k < |placed| :: placed[k].id in jobs && jobs[placed[k].id].state.Pending?)
    && forall i, k | 0 <= i < k < |placed| :: placed[i].id != placed[k].id
  }

  lemma CommitAllSnoc(jobs: JobTable, placed: seq<Job>, i: nat)
    requires 0 < i <= |placed|
    ensures var ds, p := Decided(placed), placed[i - 1];
            CommitAll(jobs, ds[..i]) == AssignRow(CommitAll(jobs, ds[..i - 1]), p.id, p.nodeId, p.nodeName, p.devices)
  {
    assert Decided(placed)[..i][..i - 1] == Decided(placed)[..i - 1];
  }

  /** The first `i` planned rows are assigned, and all others are as they were. */
  ghost predicate Committed(jobs: JobTable, jobs': JobTable, placed: seq<Job>, i: nat)
    requires i <= |placed|
  {
    && jobs'.Keys == jobs.Keys
    && (forall k | 0 <= k < i ::
          placed[k].id in jobs && jobs'[placed[k].id] == Granted(jobs[placed[k].id], placed[k]))
    && forall id | id in jobs && (forall k | 0 <= k < i :: placed[k].id != id) :: jobs'[id] == jobs[id]
  }

  lemma CommittedStep(jobs: JobTable, before: JobTable, placed: seq<Job>, i: nat)
    requires AllPending(jobs, placed) && i < |placed| && Committed(jobs, before, placed, i)
    ensures var p := placed[i];
            Committed(jobs, AssignRow(before, p.id, p.nodeId, p.nodeName, p.devices), placed, i + 1)
  {
    var p := placed[i];
    assert forall k | 0 <= k < i :: placed[k].id != p.id;
    assert before[p.id] == jobs[p.id];
    var after := AssignRow(before, p.id, p.nodeId, p.nodeName, p.devices);
    assert after == before[p.id := Granted(jobs[p.id], p)];
  }

  /** Committing a plan assigns exactly the planned rows. */
  lemma {:induction false} CommitAllRows(jobs: JobTable, placed: seq<Job>, i: nat)
    requires AllPending(jobs, placed) && i <= |placed|
    ensures Committed(jobs, CommitAll(jobs, Decided(placed)[..i]), placed, i)
  {
    hide Committed, AllPending, AssignRow;
    if i > 0 {
      CommitAllRows(jobs, placed, i - 1);
      CommitAllSnoc(jobs, placed, i);
      CommittedStep(jobs, CommitAll(jobs, Decided(placed)[..i - 1]), placed, i - 1);
    } else {
      NoneCommitted(jobs, placed);
    }
  }

  lemma NoneCommitted(jobs: JobTable, placed: seq<Job>)
    ensures Committed(jobs, jobs, placed, 0)
  {
  }

  /** The jobs a pass places are pending rows of the table it read, each once. */
  lemma PlanIsPending(jobs: JobTable, s: Snapshot, pending: seq<Job>)
    requires Lists(pending, jobs, {Pending})
    ensures AllPending(jobs, Placed(s, pending))
  {
    hide Run, Ranked;
    var queue := Ranked(pending, s.now, s.policy.ageWeight);
    RankedPermutes(pending, s.now, s.policy.ageWeight);
    ListsPermutation(pending, queue, jobs, {Pending});
    PlacedOnce(s, queue);
    var placed := Placed(s, pending);
    forall k | 0 <= k < |placed| ensures placed[k].id in jobs && jobs[placed[k].id].state.Pending? {
      var q := PlacedFromQueue(s, queue, placed[k]);
    }
  }

  /** Committing a plan adds no more to a total than the plan holds. */
  lemma {:induction false} CommitAllLoad(jobs: JobTable, placed: seq<Job>, n: Node, r: Res, i: nat)
    requires Keyed(jobs) && Exclusive(jobs) && Committable(jobs, placed) && i <= |placed| && !r.Match?
    ensures TableLoad(CommitAll(jobs, Decided(placed)[..i]), n, r) + Load(placed[i..], n, r, Always)
            <= TableLoad(jobs, n, r) + Load(placed, n, r, Always)
  {
    hide Exclusive, Committable, TableLoad, AssignRow;
    if i > 0 {
      var ds := Decided(placed);
      CommitAllLoad(jobs, placed, n, r, i - 1);
      CommitAllKeepsExclusive(jobs, placed, i - 1);
      assert ds[..i][..i - 1] == ds[..i - 1];
      assert placed[i - 1..][1..] == placed[i..] && placed[i - 1..][0] == placed[i - 1];
      FirstIsRequested(CommitAll(jobs, ds[..i - 1]), placed[i - 1..]);
      CommitLoad(CommitAll(jobs, ds[..i - 1]), placed[i - 1..], n, r);
    } else {
      assert placed[0..] == placed;
    }
  }

  lemma FirstIsRequested(jobs: JobTable, rest: seq<Job>)
    requires Committable(jobs, rest) && rest != []
    ensures Requested(jobs, rest[0])
  {
  }

  /** After a pass the totals of the table still fit their counters. */
  lemma PassKeepsLoads(jobs: JobTable, s: Snapshot, pending: seq<Job>)
    requires Keyed(jobs) && Exclusive(jobs) && Committable(jobs, Placed(s, pending))
    requires UniqueNodes(s.nodes) && Lists(s.active, jobs, {Assigned, JobState.Running})
    requires forall n: Node :: TableLoad(jobs, n, Cpu) < U32 && TableLoad(jobs, n, Mem) < U64
    ensures var jobs' := CommitAll(jobs, Decided(Placed(s, pending)));
            forall n: Node :: TableLoad(jobs', n, Cpu) < U32 && TableLoad(jobs', n, Mem) < U64
  {
    var placed := Placed(s, pending);
    var jobs' := CommitAll(jobs, Decided(placed));
    forall n: Node ensures TableLoad(jobs', n, Cpu) < U32 && TableLoad(jobs', n, Mem) < U64 {
      PassKeepsLoad(jobs, s, pending, n, Cpu, U32 - 1);
      PassKeepsLoad(jobs, s, pending, n, Mem, U64 - 1);
    }
  }

  lemma PassKeepsLoad(jobs: JobTable, s: Snapshot, pending: seq<Job>, n: Node, r: Res, bound: nat)
    requires Keyed(jobs) && Exclusive(jobs) && Committable(jobs, Placed(s, pending))
    requires UniqueNodes(s.nodes) && Lists(s.active, jobs, {Assigned, JobState.Running})
    requires !r.Match? && TableLoad(jobs, n, r) <= bound && CapsWithin(s.nodes, n, r, bound)
    ensures TableLoad(CommitAll(jobs, Decided(Placed(s, pending))), n, r) <= bound
  {
    hide Placed, Exclusive, Committable, CommitAll, TableLoad, Load, CapsWithin;
    var placed := Placed(s, pending);
    ListingLoad(s.active, jobs, n, r);
    PlanLoad(s, pending, n, r, bound);
    CommitAllLoad(jobs, placed, n, r, |placed|);
    assert Decided(placed)[..|placed|] == Decided(placed);
  }

  /**
   * Between the two tables every planned row went from PENDING to ASSIGNED with the plan's node and devices
   * and the rest of it unchanged, and every other row stayed as it was.
   */
  ghost predicate Assigns(jobs: JobTable, jobs': JobTable, placed: seq<Job>) {
    && jobs'.Keys == jobs.Keys
    && (forall p | p in placed ::
          && p.id in jobs && jobs[p.id].state == Pending
          && jobs'[p.id] == jobs[p.id].(state := Assigned, nodeId := p.nodeId, nodeName := p.nodeName,
                                        devices := p.devices))
    && forall id | id in jobs && (forall p | p in placed :: p.id != id) :: jobs'[id] == jobs[id]
  }

  lemma CommittedAssigns(jobs: JobTable, jobs': JobTable, placed: seq<Job>)
    requires AllPending(jobs, placed) && Committed(jobs, jobs', placed, |placed|)
    ensures Assigns(jobs, jobs', placed)
  {
  }

  /** What committing the plan of a pass makes of the tables it read. */
  lemma PassOutcome(jobs: JobTable, nodes: NodeTable, s: Snapshot, pending: seq<Job>)
    requires TablesInv(jobs, nodes) && UniqueNodes(s.nodes) && Covers(s.active, jobs)
    requires Lists(s.active, jobs, {Assigned, JobState.Running}) && Lists(pending, jobs, {Pending})
    ensures var jobs' := CommitAll(jobs, Decided(Placed(s, pending)));
            TablesInv(jobs', nodes) && Assigns(jobs, jobs', Placed(s, pending))
  {
    hide Placed, Exclusive, AllPending, Committed, Assigns, Committable, CommitAll;
    var placed := Placed(s, pending);
    PlanIsCommittable(jobs, s, pending);
    CommitAllKeepsExclusive(jobs, placed, |placed|);
    PassKeepsLoads(jobs, s, pending);
    PlanIsPending(jobs, s, pending);
    CommitAllRows(jobs, placed, |placed|);
    assert Decided(placed)[..|placed|] == Decided(placed);
    CommittedAssigns(jobs, CommitAll(jobs, Decided(placed)), placed);
  }

  class Scheduler {
    const policy: Policy

    constructor (policy: Policy)
      ensures this.policy == policy
    {
      this.policy := policy;
    }

    /** One pass with nobody writing in between: read three lists, plan, commit every decision. */
    method Pass(st: JobStore, now: Time)
      requires TablesInv(st.jobs, st.nodes)
      modifies st`jobs
      ensures TablesInv(st.jobs, st.nodes)
      ensures exists ns, active, pending ::
                && ListsNodes(ns, st.nodes) && NameSorted(ns)
                && Lists(active, old(st.jobs), {Assigned, JobState.Running})
                && Lists(pending, old(st.jobs), {Pending}) && InQueueOrder(pending)
                && Assigns(old(st.jobs), st.jobs, Placed(Snapshot(now, ns, active, policy), pending))
    {
      hide Placed, Exclusive, Assigns, TableLoad, Lists, ListsNodes;
      var ns := st.ListNodes();
      var active := st.ListActiveJobs();
      var pending := st.ListPendingJobs();
      ghost var jobs := st.jobs;
      ListsAreReadable(jobs, st.nodes, ns, active);
      var ds := Plan(now, ns, active, pending, policy);
      for i := 0 to |ds|
        invariant st.jobs == CommitAll(jobs, ds[..i])
      {
        assert ds[..i + 1][..i] == ds[..i];
        var ok := st.AssignJob(ds[i].jobId, ds[i].nodeId, ds[i].nodeName, ds[i].devices);
      }
      assert ds[..|ds|] == ds;
      PassOutcome(jobs, st.nodes, Snapshot(now, ns, active, policy), pending);
    }
  }

  lemma ListsAreReadable(jobs: JobTable, nodes: NodeTable, ns: seq<Node>, active: seq<Job>)
    requires TablesInv(jobs, nodes) && ListsNodes(ns, nodes) && Lists(active, jobs, {Assigned, JobState.Running})
    ensures Readable(ns, active) && Covers(active, jobs)
  {
    ListedNodesAreUnique(ns, nodes);
    forall n | n in ns ensures NoWrap(active, n) {
      ListingLoad(active, jobs, n, Cpu);
      ListingLoad(active, jobs, n, Mem);
    }
    forall id | id in jobs && Active(jobs[id])
      ensures exists a :: a in active && a.nodeId == jobs[id].nodeId && a.devices == jobs[id].devices
    {
      assert jobs[id] in active;
    }
  }

  datatype PollAnswer = InvalidArgument | ShouldReregister | Entries(run: seq<Job>, cancels: seq<string>)

  function Ids(js: seq<Job>): seq<string> {
    seq(|js|, i requires 0 <= i < |js| => js[i].id)
  }

  /** What the answer lists is what the agent's side takes a poll to read. */
  lemma EntriesAreListed(js: seq<Job>, jobs: JobTable, node: string, state: JobState)
    requires Keyed(jobs) && ListsOn(js, jobs, node, state)
    ensures Execution.ListsIds(Ids(js), jobs, node, state)
  {
    forall id | id in jobs && jobs[id].nodeId == node && jobs[id].state == state ensures id in Ids(js) {
      var i :| 0 <= i < |js| && js[i] == jobs[id];
      assert Ids(js)[i] == id;
    }
  }

  class AgentService {
    const st: JobStore

    constructor (st: JobStore)
      ensures this.st == st
    {
      this.st := st;
    }

    /** What a polling agent is told: to start the node's assigned jobs and to cancel its cancelling ones. */
    method PollAssignments(node: string) returns (a: PollAnswer)
      requires Keyed(st.jobs)
      ensures a.InvalidArgument? <==> node == ""
      ensures a.ShouldReregister? <==> node != "" && node !in st.nodes
      ensures a.Entries? ==> ListsOn(a.run, st.jobs, node, Assigned) && InSubmitOrder(a.run)
      ensures a.Entries? ==>
                exists js :: ListsOn(js, st.jobs, node, Cancelling) && InSubmitOrder(js) && a.cancels == Ids(js)
    {
      if node == "" {
        return InvalidArgument;
      }
      if node !in st.nodes {
        return ShouldReregister;
      }
      var run := st.ListJobsByNodeState(node, Assigned);
      var cancelling := st.ListJobsByNodeState(node, Cancelling);
      return Entries(run, Ids(cancelling));
    }

    /** The reported state selects the statement; an unknown state or an empty id changes nothing. */
    method UpdateJobStatus(id: string, state: JobState, code: int, reason: string, now: Time) returns (ok: bool)
      modifies st`jobs
      ensures st.jobs == ReportRow(old(st.jobs), id, state, code, reason, now)
      ensures id == "" || id !in old(st.jobs) || state in {Pending, Assigned, Cancelling} ==> st.jobs == old(st.jobs)
      ensures id != "" && id in old(st.jobs) && state == JobState.Running ==>
                var was := old(st.jobs)[id];
                st.jobs == old(st.jobs)[id := if was.state != Assigned then was
                                              else was.(state := JobState.Running, startAt := Stored(Some(now)))]
      ensures id != "" && id in old(st.jobs) && state in {Completed, Failed, Cancelled, TimedOut} ==>
                st.jobs == old(st.jobs)[id := old(st.jobs)[id].(state := state, exitCode := code, reason := reason,
                                                                endAt := Stored(Some(now)))]
      ensures ok <==> id != "" && state in {JobState.Running, Completed, Failed, Cancelled, TimedOut}
    {
      if id == "" {
        return false;
      }
      match state {
        case Running =>
          st.MarkJobRunning(id, now);
          return true;
        case Completed =>
          st.FinishJob(id, state, code, reason, now);
          return true;
        case Failed =>
          st.FinishJob(id, state, code, reason, now);
          return true;
        case Cancelled =>
          st.FinishJob(id, state, code, reason, now);
          return true;
        case TimedOut =>
          st.FinishJob(id, state, code, reason, now);
          return true;
        case _ =>
          return false;
      }
    }
  }
}

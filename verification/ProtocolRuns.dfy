/** More of what holds over every run of the protocol: capacity, machine widths, and the life of a row. */
module ProtocolRuns {
  import opened Types
  import opened Resources
  import opened Reservations
  import opened Orders
  import opened Planning
  import opened PlanProperties
  import opened Stores
  import opened Protocol

  // --- Totals over the job table ---

  function RowLoad(j: Job, n: Node, r: Res): nat {
    if Active(j) then Share(j, n, r, Always) else 0
  }

  /** What the active rows hold on the node with `n`'s id. */
  ghost function TableLoad(jobs: JobTable, n: Node, r: Res): nat
    decreases |jobs|
  {
    if jobs == map[] then 0
    else
      var k :| k in jobs;
      RowLoad(jobs[k], n, r) + TableLoad(jobs - {k}, n, r)
  }

  lemma {:induction false} TableRemove(jobs: JobTable, k: string, n: Node, r: Res)
    requires k in jobs
    ensures TableLoad(jobs, n, r) == RowLoad(jobs[k], n, r) + TableLoad(jobs - {k}, n, r)
    decreases |jobs|
  {
    var first :| first in jobs && TableLoad(jobs, n, r) == RowLoad(jobs[first], n, r) + TableLoad(jobs - {first}, n, r);
    if first != k {
      TableRemove(jobs - {first}, k, n, r);
      TableRemove(jobs - {k}, first, n, r);
      assert jobs - {first} - {k} == jobs - {k} - {first};
    }
  }

  lemma TableUpdate(jobs: JobTable, k: string, v: Job, n: Node, r: Res)
    ensures TableLoad(jobs[k := v], n, r) + (if k in jobs then RowLoad(jobs[k], n, r) else 0)
            == TableLoad(jobs, n, r) + RowLoad(v, n, r)
  {
    TableRemove(jobs[k := v], k, n, r);
    assert jobs[k := v] - {k} == jobs - {k};
    if k in jobs {
      TableRemove(jobs, k, n, r);
    } else {
      assert jobs - {k} == jobs;
    }
  }

  /** A list with distinct ids that has every active row of the table accounts for the whole table. */
  lemma {:induction false} ListingLoad(js: seq<Job>, jobs: JobTable, n: Node, r: Res)
    requires forall i | 0 <= i < |js| :: js[i].id in jobs && jobs[js[i].id] == js[i] && Active(js[i])
    requires forall i, k | 0 <= i < k < |js| :: js[i].id != js[k].id
    requires forall id | id in jobs && Active(jobs[id]) :: jobs[id] in js
    requires Keyed(jobs)
    ensures TableLoad(jobs, n, r) == Load(js, n, r, Always)
    decreases |js|
  {
    if js == [] {
      NoneActive(jobs, n, r);
    } else {
      var init, last := js[..|js| - 1], js[|js| - 1];
      assert js == init + [last];
      ListingLoad(init, jobs - {last.id}, n, r);
      TableRemove(jobs, last.id, n, r);
    }
  }

  lemma {:induction false} NoneActive(jobs: JobTable, n: Node, r: Res)
    requires forall id | id in jobs :: !Active(jobs[id])
    ensures TableLoad(jobs, n, r) == 0
    decreases |jobs|
  {
    if jobs != map[] {
      var k :| k in jobs && TableLoad(jobs, n, r) == RowLoad(jobs[k], n, r) + TableLoad(jobs - {k}, n, r);
      assert RowLoad(jobs[k], n, r) == 0;
      NoneActive(jobs - {k}, n, r);
    }
  }

  // --- Capacity under stale snapshots ---

  /** No node of the list with `n`'s id offers more than `bound`. */
  ghost predicate CapsWithin(ns: seq<Node>, n: Node, r: Res, bound: nat) {
    forall m | m in ns && m.id == n.id :: Cap(m, r) <= bound
  }

  ghost predicate Bounded(c: Cluster, n: Node, r: Res, bound: nat) {
    match c.phase
    case Idle => TableLoad(c.jobs, n, r) <= bound
    case SawNodes(ns) => TableLoad(c.jobs, n, r) <= bound && CapsWithin(ns, n, r, bound)
    case SawActive(ns, active) =>
      && TableLoad(c.jobs, n, r) <= Load(active, n, r, Always) <= bound
      && CapsWithin(ns, n, r, bound)
    case Committing(rest) => TableLoad(c.jobs, n, r) + Load(rest, n, r, Always) <= bound
  }

  lemma QuietLoad(jobs: JobTable, jobs': JobTable, n: Node, r: Res)
    requires Quiet(jobs, jobs') && !r.Match?
    ensures TableLoad(jobs', n, r) <= TableLoad(jobs, n, r)
  {
    if jobs' != jobs {
      var id, v :| QuietUpdate(jobs, id, v) && jobs' == jobs[id := v];
      TableUpdate(jobs, id, v, n, r);
    }
  }

  /** What a pass adds to a node, with what its snapshot already counts there, stays within the bound. */
  lemma PlanLoad(s: Snapshot, pending: seq<Job>, n: Node, r: Res, bound: nat)
    requires UniqueNodes(s.nodes) && !r.Match? && CapsWithin(s.nodes, n, r, bound)
    requires Load(s.active, n, r, Always) <= bound
    ensures Load(s.active, n, r, Always) + Load(Placed(s, pending), n, r, Always) <= bound
  {
    var placed := Placed(s, pending);
    PassIsSound(s, Ranked(pending, s.now, s.policy.ageWeight));
    if m :| m in s.nodes && m.id == n.id {
      CapacityBound(s, placed, m, r);
      LoadById(placed, m, n, r);
      LoadById(s.active, m, n, r);
    } else {
      NothingPlacedElsewhere(s, placed, n, r);
    }
  }

  lemma {:induction false} NothingPlacedElsewhere(s: Snapshot, placed: seq<Job>, n: Node, r: Res)
    requires AllSound(s, placed) && forall m | m in s.nodes :: m.id != n.id
    ensures Load(placed, n, r, Always) == 0
  {
    if placed != [] {
      var init, j := placed[..|placed| - 1], placed[|placed| - 1];
      assert placed == init + [j];
      AllSoundInit(s, init, j);
      NothingPlacedElsewhere(s, init, n, r);
    }
  }

  lemma CommitLoad(jobs: JobTable, rest: seq<Job>, n: Node, r: Res)
    requires rest != [] && Requested(jobs, rest[0]) && !r.Match?
    ensures var p := rest[0]; var jobs' := AssignRow(jobs, p.id, p.nodeId, p.nodeName, p.devices);
            TableLoad(jobs', n, r) + Load(rest[1..], n, r, Always) <= TableLoad(jobs, n, r) + Load(rest, n, r, Always)
  {
    var p := rest[0];
    assert rest == [p] + rest[1..];
    LoadConcat([p], rest[1..], n, r, Always);
    LoadSnoc([], p, n, r, Always);
    assert [] + [p] == [p];
    if jobs[p.id].state.Pending? {
      var row := jobs[p.id].(state := Assigned, nodeId := p.nodeId, nodeName := p.nodeName, devices := p.devices);
      TableUpdate(jobs, p.id, row, n, r);
    }
  }

  lemma BoundedCommit(c: Cluster, c': Cluster, n: Node, r: Res, bound: nat)
    requires Inv(c) && Next(c, Commit, c') && Bounded(c, n, r, bound) && !r.Match?
    ensures Bounded(c', n, r, bound)
  {
    assert c.phase.rest[0] in c.phase.rest;
    CommitLoad(c.jobs, c.phase.rest, n, r);
  }

  lemma BoundedRead(c: Cluster, e: Event, c': Cluster, n: Node, r: Res, bound: nat)
    requires Inv(c) && Next(c, e, c') && Bounded(c, n, r, bound) && !r.Match?
    requires e.ReadNodes? || e.ReadActive? || e.ReadPendingAndPlan?
    requires n.id in c.nodes ==> Cap(c.nodes[n.id], r) <= bound
    ensures Bounded(c', n, r, bound)
  {
    match e
    case ReadActive(js) => ListingLoad(js, c.jobs, n, r);
    case ReadPendingAndPlan(now, policy, pending) =>
      PlanLoad(Snapshot(now, c.phase.nodes, c.phase.active, policy), pending, n, r, bound);
    case _ =>
  }

  lemma BoundedNext(c: Cluster, e: Event, c': Cluster, n: Node, r: Res, bound: nat)
    requires Inv(c) && Next(c, e, c') && Bounded(c, n, r, bound) && !r.Match?
    requires n.id in c.nodes ==> Cap(c.nodes[n.id], r) <= bound
    ensures Bounded(c', n, r, bound)
  {
    if e.Commit? {
      BoundedCommit(c, c', n, r, bound);
    } else if e.ReadNodes? || e.ReadActive? || e.ReadPendingAndPlan? {
      BoundedRead(c, e, c', n, r, bound);
    } else {
      OnlyCommitGrants(c, e, c');
      QuietLoad(c.jobs, c'.jobs, n, r);
    }
  }

  lemma {:induction false} BoundedAlways(cs: seq<Cluster>, k: nat, n: Node, r: Res, bound: nat)
    requires Behavior(cs) && k < |cs| && !r.Match?
    requires forall i | 0 <= i < k && n.id in cs[i].nodes :: Cap(cs[i].nodes[n.id], r) <= bound
    ensures Bounded(cs[k], n, r, bound)
  {
    if k == 0 {
      NoneActive(cs[0].jobs, n, r);
    } else {
      BoundedAlways(cs, k - 1, n, r, bound);
      InvAlways(cs, k - 1);
      assert Step(cs[k - 1], cs[k]);
      var e :| Next(cs[k - 1], e, cs[k]);
      BoundedNext(cs[k - 1], e, cs[k], n, r, bound);
    }
  }

  /**
   * The requests of the active jobs on a node never exceed the largest capacity the node has ever had;
   * with a fixed inventory, never its capacity.
   */
  lemma CapacityNeverExceeded(cs: seq<Cluster>, k: nat, n: Node, r: Res, bound: nat)
    requires Behavior(cs) && k < |cs| && !r.Match?
    requires forall i | 0 <= i < k && n.id in cs[i].nodes :: Cap(cs[i].nodes[n.id], r) <= bound
    ensures TableLoad(cs[k].jobs, n, r) <= bound
    ensures forall js | Lists(js, cs[k].jobs, {Assigned, JobState.Running}) :: Load(js, n, r, Always) <= bound
  {
    BoundedAlways(cs, k, n, r, bound);
    InvAlways(cs, k);
    hide Behavior, TableLoad, Load;
    forall js | Lists(js, cs[k].jobs, {Assigned, JobState.Running}) ensures Load(js, n, r, Always) <= bound {
      ListingLoad(js, cs[k].jobs, n, r);
    }
  }

  /** Every pass is handed lists on which the scheduler's arithmetic cannot wrap. */
  lemma PassesAreReadable(cs: seq<Cluster>, k: nat)
    requires Behavior(cs) && k < |cs| && cs[k].phase.SawActive?
    ensures Readable(cs[k].phase.nodes, cs[k].phase.active)
  {
    InvAlways(cs, k);
    forall n | n in cs[k].phase.nodes ensures NoWrap(cs[k].phase.active, n) {
      BoundedAlways(cs, k, n, Cpu, U32 - 1);
      BoundedAlways(cs, k, n, Mem, U64 - 1);
    }
  }

  // --- The life of a row ---

  function Rank(s: JobState): nat {
    match s
    case Pending => 0
    case Assigned => 1
    case Running => 2
    case Cancelling => 3
    case _ => 4
  }

  /** `b` is a later state of the row `a`: it never goes back, and its claim is written at most once. */
  ghost predicate LaterRow(a: Job, b: Job) {
    && SameRequest(a, b)
    && Rank(a.state) <= Rank(b.state)
    && (!a.state.Pending? ==> b.nodeId == a.nodeId && b.nodeName == a.nodeName && b.devices == a.devices)
  }

  ghost predicate LaterTable(jobs: JobTable, jobs': JobTable) {
    forall id | id in jobs :: id in jobs' && LaterRow(jobs[id], jobs'[id])
  }

  lemma RowsOnlyAdvance(c: Cluster, e: Event, c': Cluster)
    requires Next(c, e, c')
    ensures LaterTable(c.jobs, c'.jobs)
  {
    hide Placed, Lists, ListsNodes, Registered, BeatRow, ReapRows;
  }

  /**
   * Lifecycle: over any run a row keeps its request, its state never moves back, and its node and
   * devices never change once they are written.
   */
  lemma {:induction false} Lifecycle(cs: seq<Cluster>, i: nat, k: nat)
    requires Behavior(cs) && i <= k < |cs|
    ensures LaterTable(cs[i].jobs, cs[k].jobs)
  {
    hide Next;
    if i < k {
      Lifecycle(cs, i, k - 1);
      assert Step(cs[k - 1], cs[k]);
      var e :| Next(cs[k - 1], e, cs[k]);
      RowsOnlyAdvance(cs[k - 1], e, cs[k]);
      forall id | id in cs[i].jobs ensures id in cs[k].jobs && LaterRow(cs[i].jobs[id], cs[k].jobs[id]) {
        assert LaterRow(cs[i].jobs[id], cs[k - 1].jobs[id]) && LaterRow(cs[k - 1].jobs[id], cs[k].jobs[id]);
      }
    }
  }

  /** The same in plain states: which states a row can be in, given where it was, and what never changes. */
  lemma RowsNeverGoBack(cs: seq<Cluster>, i: nat, k: nat, id: string)
    requires Behavior(cs) && i <= k < |cs| && id in cs[i].jobs
    ensures id in cs[k].jobs
    ensures var a, b := cs[i].jobs[id], cs[k].jobs[id];
            && (b.state == Pending ==> a.state == Pending)
            && (b.state == Assigned ==> a.state in {Pending, Assigned})
            && (b.state == JobState.Running ==> a.state in {Pending, Assigned, JobState.Running})
            && (b.state == Cancelling ==> a.state in {Pending, Assigned, JobState.Running, Cancelling})
            && (a.state != Pending ==> b.nodeId == a.nodeId && b.nodeName == a.nodeName && b.devices == a.devices)
            && b.owner == a.owner && b.reqCpus == a.reqCpus && b.reqMem == a.reqMem && b.reqGpus == a.reqGpus
            && b.gpuType == a.gpuType && b.partition == a.partition && b.priority == a.priority
            && b.walltime == a.walltime && b.submitAt == a.submitAt
  {
    hide Next, Behavior;
    Lifecycle(cs, i, k);
    assert LaterRow(cs[i].jobs[id], cs[k].jobs[id]);
  }

  lemma CancelsPending(c: Cluster, id: string, t: Time, c': Cluster)
    requires Next(c, Event.Cancel(id, t), c') && id in c.jobs && c.jobs[id].state.Pending?
    ensures id in c'.jobs && c'.jobs[id] == c.jobs[id].(state := Cancelled, endAt := Stored(Some(t)))
  {
  }

  /** A job cancelled while pending is never assigned, even if a plan made before contains it. */
  lemma CancelledWhilePendingStaysSo(cs: seq<Cluster>, i: nat, k: nat, id: string, t: Time)
    requires Behavior(cs) && i < k < |cs| && Next(cs[i], Event.Cancel(id, t), cs[i + 1])
    requires id in cs[i].jobs && cs[i].jobs[id].state.Pending?
    ensures id in cs[k].jobs && Terminal(cs[k].jobs[id].state)
    ensures cs[k].jobs[id].nodeId == cs[i].jobs[id].nodeId && cs[k].jobs[id].devices == cs[i].jobs[id].devices
  {
    hide Next, Behavior;
    CancelsPending(cs[i], id, t, cs[i + 1]);
    Lifecycle(cs, i + 1, k);
    assert LaterRow(cs[i + 1].jobs[id], cs[k].jobs[id]);
  }
}

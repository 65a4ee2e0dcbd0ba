/** The job and node tables: each statement or transaction is one atomic, guarded step. */
module Stores {
  import opened Types
  import opened Slices
  import opened Orders

  type JobTable = map<string, Job>
  type NodeTable = map<string, Node>

  const NANOS: int := 1_000_000_000

  /** A time column holds whole seconds; zero and anything before the epoch read back as no time. */
  function Stored(t: Option<Time>): Option<Time> {
    if t.None? || t.value / NANOS <= 0 then None else Some(t.value / NANOS * NANOS)
  }

  /** The whole seconds of a time, if there are any since the epoch. */
  lemma StoredIs(t: Option<Time>)
    ensures Stored(t).None? <==> t.None? || t.value < 1_000_000_000
    ensures Stored(t).Some? ==>
              Stored(t).value % 1_000_000_000 == 0 && Stored(t).value <= t.value < Stored(t).value + 1_000_000_000
  {
    if t.Some? {
      assert t.value == t.value / NANOS * NANOS + t.value % NANOS;
      assert t.value / NANOS * NANOS % NANOS == 0;
    }
  }

  // --- Statements on the job table ---

  /** INSERT: a duplicate id is refused. */
  function CreateRow(jobs: JobTable, j: Job): JobTable {
    if j.id in jobs then jobs
    else jobs[j.id := j.(submitAt := Stored(j.submitAt), startAt := Stored(j.startAt), endAt := Stored(j.endAt))]
  }

  function AssignRow(
      jobs: JobTable, id: string, nodeId: string, nodeName: string, devices: seq<AllocDevice>): JobTable
  {
    if id in jobs && jobs[id].state.Pending?
    then jobs[id := jobs[id].(state := Assigned, nodeId := nodeId, nodeName := nodeName, devices := devices)]
    else jobs
  }

  function RunRow(jobs: JobTable, id: string, t: Time): JobTable {
    if id in jobs && jobs[id].state.Assigned?
    then jobs[id := jobs[id].(state := Running, startAt := Stored(Some(t)))]
    else jobs
  }

  /** The statement has no guard on the state. */
  function FinishRow(jobs: JobTable, id: string, state: JobState, code: int, reason: string, t: Time): JobTable {
    if id in jobs
    then jobs[id := jobs[id].(state := state, exitCode := code, reason := reason, endAt := Stored(Some(t)))]
    else jobs
  }

  function CancelRow(jobs: JobTable, id: string, t: Time): JobTable {
    if id !in jobs then jobs
    else match jobs[id].state
      case Pending => jobs[id := jobs[id].(state := Cancelled, endAt := Stored(Some(t)))]
      case Assigned => jobs[id := jobs[id].(state := Cancelling)]
      case Running => jobs[id := jobs[id].(state := Cancelling)]
      case _ => jobs
  }

  /** Which statement an agent's report reaches; any other reported state is refused. */
  function ReportRow(jobs: JobTable, id: string, state: JobState, code: int, reason: string, t: Time): JobTable {
    if id == "" then jobs
    else if state.Running? then RunRow(jobs, id, t)
    else if Terminal(state) then FinishRow(jobs, id, state, code, reason, t)
    else jobs
  }

  // --- Statements on the node table ---

  /**
   * INSERT ... ON CONFLICT(name) DO UPDATE: a known name keeps its id and takes every other column.
   * An id already in the table is refused.
   */
  ghost predicate Registered(nodes: NodeTable, n: Node, nodes': NodeTable, id: Option<string>) {
    var row := n.(lastHeartbeat := Stored(n.lastHeartbeat));
    if n.id in nodes then nodes' == nodes && id == None
    else
      && (forall known | known in nodes && nodes[known].name == n.name ::
            nodes' == nodes[known := row.(id := known)] && id == Some(known))
      && ((forall known | known in nodes :: nodes[known].name != n.name) ==>
            nodes' == nodes[n.id := row] && id == Some(n.id))
  }

  function BeatRow(nodes: NodeTable, n: Node, t: Time): NodeTable {
    if n.id in nodes
    then nodes[n.id := nodes[n.id].(state := Up, cpus := n.cpus, mem := n.mem, devices := n.devices,
                                    lastHeartbeat := Stored(Some(t)))]
    else nodes
  }

  predicate Overdue(n: Node, olderThan: Time) {
    (if n.lastHeartbeat.Some? then n.lastHeartbeat.value / NANOS else 0) < olderThan / NANOS && n.state != Down
  }

  function ReapRows(nodes: NodeTable, olderThan: Time): NodeTable {
    map id | id in nodes :: if Overdue(nodes[id], olderThan) then nodes[id].(state := Down) else nodes[id]
  }

  // --- Queries ---

  ghost predicate Keyed(jobs: JobTable) {
    forall id | id in jobs :: jobs[id].id == id
  }

  /** Ids key the table and no two rows share a name. */
  ghost predicate NodesKeyed(nodes: NodeTable) {
    && (forall id | id in nodes :: nodes[id].id == id)
    && (forall a, b | a in nodes && b in nodes && a != b :: nodes[a].name != nodes[b].name)
  }

  /** Exactly the rows in one of the states, each once. */
  ghost predicate Lists(js: seq<Job>, jobs: JobTable, states: set<JobState>) {
    && (forall i | 0 <= i < |js| :: js[i].id in jobs && jobs[js[i].id] == js[i] && js[i].state in states)
    && (forall i, k | 0 <= i < k < |js| :: js[i].id != js[k].id)
    && (forall id | id in jobs && jobs[id].state in states :: jobs[id] in js)
  }

  ghost predicate ListsNodes(ns: seq<Node>, nodes: NodeTable) {
    && (forall i | 0 <= i < |ns| :: ns[i].id in nodes && nodes[ns[i].id] == ns[i])
    && (forall i, k | 0 <= i < k < |ns| :: ns[i].id != ns[k].id)
    && (forall id | id in nodes :: nodes[id] in ns)
  }

  /** Exactly the rows of the node in this state, each once. */
  ghost predicate ListsOn(js: seq<Job>, jobs: JobTable, node: string, state: JobState) {
    && (forall i | 0 <= i < |js| ::
          js[i].id in jobs && jobs[js[i].id] == js[i] && js[i].nodeId == node && js[i].state == state)
    && (forall i, k | 0 <= i < k < |js| :: js[i].id != js[k].id)
    && (forall id | id in jobs && jobs[id].nodeId == node && jobs[id].state == state :: jobs[id] in js)
  }

  /** A statement on the job with this id leaves every other row as it was, and adds and removes none. */
  ghost predicate OnlyRow(jobs: JobTable, jobs': JobTable, id: string) {
    jobs'.Keys == jobs.Keys && forall k | k in jobs && k != id :: jobs'[k] == jobs[k]
  }

  /** What was asked for and what was granted are the same. */
  ghost predicate SameClaim(a: Job, b: Job) {
    SameRequest(a, b) && b.nodeId == a.nodeId && b.nodeName == a.nodeName && b.devices == a.devices
  }

  lemma ListedNodesAreUnique(ns: seq<Node>, nodes: NodeTable)
    requires NodesKeyed(nodes) && ListsNodes(ns, nodes)
    ensures UniqueNodes(ns)
  {
  }

  lemma ListsPermutation(a: seq<Job>, b: seq<Job>, jobs: JobTable, states: set<JobState>)
    requires Lists(a, jobs, states) && multiset(a) == multiset(b)
    ensures Lists(b, jobs, states)
  {
    SameMembers(a, b);
    forall x | x in b ensures multiset(b)[x] == 1 {
      CountOnce(a, x);
    }
    OnceEach(b);
    forall i, k | 0 <= i < k < |b| ensures b[i].id != b[k].id {
      assert b[i] in a && b[k] in a;
    }
    forall i | 0 <= i < |b| ensures b[i].id in jobs && jobs[b[i].id] == b[i] && b[i].state in states {
      assert b[i] in a;
    }
  }

  lemma OnPermutation(a: seq<Job>, b: seq<Job>, jobs: JobTable, node: string, state: JobState)
    requires ListsOn(a, jobs, node, state) && multiset(a) == multiset(b)
    ensures ListsOn(b, jobs, node, state)
  {
    SameMembers(a, b);
    forall x | x in b ensures multiset(b)[x] == 1 {
      CountOnce(a, x);
    }
    OnceEach(b);
    forall i, k | 0 <= i < k < |b| ensures b[i].id != b[k].id {
      assert b[i] in a && b[k] in a;
    }
    forall i | 0 <= i < |b|
      ensures b[i].id in jobs && jobs[b[i].id] == b[i] && b[i].nodeId == node && b[i].state == state
    {
      assert b[i] in a;
    }
  }

  lemma NodesPermutation(a: seq<Node>, b: seq<Node>, nodes: NodeTable)
    requires ListsNodes(a, nodes) && multiset(a) == multiset(b)
    ensures ListsNodes(b, nodes)
  {
    SameMembers(a, b);
    forall x | x in b ensures multiset(b)[x] == 1 {
      CountOnce(a, x);
    }
    OnceEach(b);
    forall i, k | 0 <= i < k < |b| ensures b[i].id != b[k].id {
      assert b[i] in a && b[k] in a;
    }
    forall i | 0 <= i < |b| ensures b[i].id in nodes && nodes[b[i].id] == b[i] {
      assert b[i] in a;
    }
  }

  /** ORDER BY submit_at ASC, id. */
  predicate SubmittedBefore(a: Job, b: Job) {
    Before(a.submitAt, b.submitAt) || (a.submitAt == b.submitAt && StrLt(a.id, b.id))
  }

  ghost predicate InQueueOrder(js: seq<Job>) {
    forall i, k | 0 <= i < k < |js| :: !QueuedBefore(js[k], js[i])
  }

  ghost predicate InSubmitOrder(js: seq<Job>) {
    forall i, k | 0 <= i < k < |js| :: !SubmittedBefore(js[k], js[i])
  }

  /** ORDER BY priority DESC, submit_at ASC, id. */
  predicate QueuedBefore(a: Job, b: Job) {
    a.priority > b.priority || (a.priority == b.priority && SubmittedBefore(a, b))
  }

  lemma SubmitAsymmetric(a: Job, b: Job)
    ensures !SubmittedBefore(a, b) || !SubmittedBefore(b, a)
  {
    StrLtTotal(a.id, b.id);
  }

  lemma SubmitSplit(a: Job, b: Job, c: Job)
    requires SubmittedBefore(a, c)
    ensures SubmittedBefore(a, b) || SubmittedBefore(b, c)
  {
    if StrLt(a.id, c.id) {
      NameSplit(a.id, b.id, c.id);
    }
  }

  lemma QueueAsymmetric(a: Job, b: Job)
    ensures !QueuedBefore(a, b) || !QueuedBefore(b, a)
  {
    SubmitAsymmetric(a, b);
  }

  lemma QueueSplit(a: Job, b: Job, c: Job)
    requires QueuedBefore(a, c)
    ensures QueuedBefore(a, b) || QueuedBefore(b, c)
  {
    if a.priority == c.priority {
      SubmitSplit(a, b, c);
    }
  }

  class JobStore {
    var jobs: JobTable
    var nodes: NodeTable

    constructor ()
      ensures jobs == map[] && nodes == map[]
    {
      jobs, nodes := map[], map[];
    }

    method CreateJob(j: Job) returns (ok: bool)
      modifies this`jobs
      ensures jobs == CreateRow(old(jobs), j) && ok == (j.id !in old(jobs))
      ensures jobs.Keys == old(jobs).Keys + {j.id} && forall k | k in old(jobs) :: jobs[k] == old(jobs)[k]
      ensures ok ==>
                jobs[j.id] == j.(submitAt := Stored(j.submitAt), startAt := Stored(j.startAt), endAt := Stored(j.endAt))
    {
      if j.id in jobs {
        return false;
      }
      jobs := jobs[j.id := j.(submitAt := Stored(j.submitAt), startAt := Stored(j.startAt), endAt := Stored(j.endAt))];
      return true;
    }

    method AssignJob(id: string, nodeId: string, nodeName: string, devices: seq<AllocDevice>) returns (ok: bool)
      modifies this`jobs
      ensures jobs == AssignRow(old(jobs), id, nodeId, nodeName, devices) && OnlyRow(old(jobs), jobs, id)
      ensures ok == (id in old(jobs) && old(jobs)[id].state.Pending?)
      ensures ok ==>
                && jobs[id].state.Assigned? && SameRequest(old(jobs)[id], jobs[id])
                && jobs[id].nodeId == nodeId && jobs[id].nodeName == nodeName && jobs[id].devices == devices
      ensures !ok ==> jobs == old(jobs)
    {
      if id !in jobs || jobs[id].state != Pending {
        return false;
      }
      jobs := jobs[id := jobs[id].(state := Assigned, nodeId := nodeId, nodeName := nodeName, devices := devices)];
      return true;
    }

    method MarkJobRunning(id: string, t: Time)
      modifies this`jobs
      ensures jobs == RunRow(old(jobs), id, t) && OnlyRow(old(jobs), jobs, id)
      ensures id in jobs && old(jobs)[id].state.Assigned? ==>
                jobs[id].state.Running? && jobs[id].startAt == Stored(Some(t)) && SameClaim(old(jobs)[id], jobs[id])
      ensures id in jobs && !old(jobs)[id].state.Assigned? ==> jobs[id] == old(jobs)[id]
    {
      if id in jobs && jobs[id].state == Assigned {
        jobs := jobs[id := jobs[id].(state := Running, startAt := Stored(Some(t)))];
      }
    }

    method FinishJob(id: string, state: JobState, code: int, reason: string, t: Time)
      modifies this`jobs
      ensures jobs == FinishRow(old(jobs), id, state, code, reason, t) && OnlyRow(old(jobs), jobs, id)
      ensures id in jobs ==>
                && jobs[id].state == state && jobs[id].exitCode == code && jobs[id].reason == reason
                && jobs[id].endAt == Stored(Some(t)) && jobs[id].startAt == old(jobs)[id].startAt
                && SameClaim(old(jobs)[id], jobs[id])
    {
      if id in jobs {
        jobs := jobs[id := jobs[id].(state := state, exitCode := code, reason := reason, endAt := Stored(Some(t)))];
      }
    }

    /** Reads the state, writes the row and reports the new state; None when there is no such job. */
    method CancelJob(id: string, t: Time) returns (newState: Option<JobState>)
      modifies this`jobs
      ensures jobs == CancelRow(old(jobs), id, t) && OnlyRow(old(jobs), jobs, id)
      ensures id in jobs ==>
                var was, row := old(jobs)[id], jobs[id];
                && SameClaim(was, row)
                && (was.state.Pending? ==> row.state.Cancelled? && row.endAt == Stored(Some(t)))
                && (was.state in {Assigned, JobState.Running} ==> row == was.(state := Cancelling))
                && (was.state !in {Pending, Assigned, JobState.Running} ==> row == was)
      ensures newState == if id in jobs then Some(jobs[id].state) else None
    {
      if id !in jobs {
        return None;
      }
      var state := jobs[id].state;
      match state {
        case Pending =>
          jobs := jobs[id := jobs[id].(state := Cancelled, endAt := Stored(Some(t)))];
          return Some(Cancelled);
        case Assigned =>
          jobs := jobs[id := jobs[id].(state := Cancelling)];
          return Some(Cancelling);
        case Running =>
          jobs := jobs[id := jobs[id].(state := Cancelling)];
          return Some(Cancelling);
        case _ =>
          return Some(state);
      }
    }

    method RegisterNode(n: Node) returns (id: Option<string>)
      requires NodesKeyed(nodes)
      modifies this`nodes
      ensures Registered(old(nodes), n, nodes, id) && NodesKeyed(nodes)
      ensures id.None? <==> n.id in old(nodes)
      ensures id.None? ==> nodes == old(nodes)
      ensures id.Some? ==>
                && id.value in nodes && nodes[id.value] == n.(id := id.value, lastHeartbeat := Stored(n.lastHeartbeat))
                && (if id.value in old(nodes) then old(nodes)[id.value].name == n.name
                    else id.value == n.id && forall k | k in old(nodes) :: old(nodes)[k].name != n.name)
                && nodes.Keys == old(nodes).Keys + {id.value}
                && forall k | k in old(nodes) && k != id.value :: nodes[k] == old(nodes)[k]
    {
      var row := n.(lastHeartbeat := Stored(n.lastHeartbeat));
      if n.id in nodes {
        return None;
      }
      if known :| known in nodes && nodes[known].name == n.name {
        nodes := nodes[known := row.(id := known)];
        return Some(known);
      }
      nodes := nodes[n.id := row];
      return Some(n.id);
    }

    method Heartbeat(n: Node, t: Time) returns (found: bool)
      modifies this`nodes
      ensures nodes == BeatRow(old(nodes), n, t) && found == (n.id in old(nodes))
      ensures nodes.Keys == old(nodes).Keys && forall id | id in nodes && id != n.id :: nodes[id] == old(nodes)[id]
      ensures found ==>
                var was, row := old(nodes)[n.id], nodes[n.id];
                && row.state.Up? && row.lastHeartbeat == Stored(Some(t))
                && row.cpus == n.cpus && row.mem == n.mem && row.devices == n.devices
                && row.id == was.id && row.name == was.name && row.partition == was.partition
    {
      found := n.id in nodes;
      if found {
        nodes := nodes[n.id := nodes[n.id].(state := Up, cpus := n.cpus, mem := n.mem, devices := n.devices,
                                            lastHeartbeat := Stored(Some(t)))];
      }
    }

    /** Returns how many nodes went down. */
    method MarkStaleDown(olderThan: Time) returns (affected: nat)
      modifies this`nodes
      ensures nodes == ReapRows(old(nodes), olderThan) && nodes.Keys == old(nodes).Keys
      ensures forall id | id in nodes :: nodes[id].(state := Down) == old(nodes)[id].(state := Down)
      ensures forall id | id in nodes ::
                var was := old(nodes)[id];
                var lastBeat := if was.lastHeartbeat.Some? then was.lastHeartbeat.value / 1_000_000_000 else 0;
                nodes[id].state == if lastBeat < olderThan / 1_000_000_000 then Down else was.state
      ensures affected == |set id | id in nodes && nodes[id] != old(nodes)[id]|
    {
      ghost var before := nodes;
      affected := |set id | id in nodes && Overdue(nodes[id], olderThan)|;
      nodes := map id | id in nodes :: if Overdue(nodes[id], olderThan) then nodes[id].(state := Down) else nodes[id];
      assert (set id | id in before && Overdue(before[id], olderThan))
          == (set id | id in nodes && nodes[id] != before[id]);
    }

    /** SELECT ... WHERE state IN (states), in whatever order the rows come. */
    method ListInStates(states: set<JobState>) returns (js: seq<Job>)
      requires Keyed(jobs)
      ensures Lists(js, jobs, states)
    {
      js := [];
      var rest := jobs.Keys;
      while rest != {}
        invariant rest <= jobs.Keys
        invariant Lists(js, map id | id in jobs && id !in rest :: jobs[id], states)
      {
        var id :| id in rest;
        if jobs[id].state in states {
          js := js + [jobs[id]];
        }
        rest := rest - {id};
      }
      assert (map id | id in jobs && id !in rest :: jobs[id]) == jobs;
    }

    method ListActiveJobs() returns (js: seq<Job>)
      requires Keyed(jobs)
      ensures Lists(js, jobs, {Assigned, Running})
    {
      js := ListInStates({Assigned, Running});
    }

    method ListPendingJobs() returns (js: seq<Job>)
      requires Keyed(jobs)
      ensures Lists(js, jobs, {Pending})
      ensures InQueueOrder(js)
      ensures forall i, k | 0 <= i < k < |js| ::
                js[i].priority > js[k].priority
                || (js[i].priority == js[k].priority && (js[i].submitAt.None? || js[k].submitAt.Some?)
                    && (js[i].submitAt.Some? && js[k].submitAt.Some? ==> js[i].submitAt.value <= js[k].submitAt.value)
                    && (js[i].submitAt == js[k].submitAt ==> StrLt(js[i].id, js[k].id)))
    {
      var rows := ListInStates({Pending});
      forall a, b | a in rows && b in rows { QueueAsymmetric(a, b); }
      forall a, b, c | a in rows && b in rows && c in rows && QueuedBefore(a, c)
        ensures QueuedBefore(a, b) || QueuedBefore(b, c)
      {
        QueueSplit(a, b, c);
      }
      js := SortSlice(rows, QueuedBefore);
      ListsPermutation(rows, js, jobs, {Pending});
      forall i, k | 0 <= i < k < |js| { StrLtTotal(js[i].id, js[k].id); }
    }

    /** SELECT ... ORDER BY submit_at ASC, id. */
    method ListJobsByNodeState(node: string, state: JobState) returns (js: seq<Job>)
      requires Keyed(jobs)
      ensures ListsOn(js, jobs, node, state) && InSubmitOrder(js)
      ensures forall i, k | 0 <= i < k < |js| ::
                && (js[i].submitAt.None? || js[k].submitAt.Some?)
                && (js[i].submitAt.Some? && js[k].submitAt.Some? ==> js[i].submitAt.value <= js[k].submitAt.value)
                && (js[i].submitAt == js[k].submitAt ==> StrLt(js[i].id, js[k].id))
    {
      var rows := RowsOn(node, state);
      forall a, b | a in rows && b in rows { SubmitAsymmetric(a, b); }
      forall a, b, c | a in rows && b in rows && c in rows && SubmittedBefore(a, c)
        ensures SubmittedBefore(a, b) || SubmittedBefore(b, c)
      {
        SubmitSplit(a, b, c);
      }
      js := SortSlice(rows, SubmittedBefore);
      OnPermutation(rows, js, jobs, node, state);
      forall i, k | 0 <= i < k < |js| { StrLtTotal(js[i].id, js[k].id); }
    }

    method RowsOn(node: string, state: JobState) returns (js: seq<Job>)
      requires Keyed(jobs)
      ensures ListsOn(js, jobs, node, state)
    {
      var rows := ListInStates({state});
      js := [];
      for i := 0 to |rows|
        invariant forall k | 0 <= k < |js| :: js[k] in rows[..i] && js[k].nodeId == node
        invariant forall k | 0 <= k < i && rows[k].nodeId == node :: rows[k] in js
        invariant forall k, m | 0 <= k < m < |js| :: js[k].id != js[m].id
      {
        if rows[i].nodeId == node {
          js := js + [rows[i]];
        }
      }
    }

    /** SELECT ... ORDER BY name. */
    method ListNodes() returns (ns: seq<Node>)
      requires NodesKeyed(nodes)
      ensures ListsNodes(ns, nodes) && NameSorted(ns)
      ensures forall i, k | 0 <= i < k < |ns| :: StrLt(ns[i].name, ns[k].name)
    {
      var rows := AllNodes();
      forall a, b | a in rows && b in rows { StrLtTotal(a.name, b.name); }
      forall a, b, c | a in rows && b in rows && c in rows && StrLt(a.name, c.name)
        ensures StrLt(a.name, b.name) || StrLt(b.name, c.name)
      {
        NameSplit(a.name, b.name, c.name);
      }
      ns := SortSlice(rows, (a: Node, b: Node) => StrLt(a.name, b.name));
      NodesPermutation(rows, ns, nodes);
      forall i, k | 0 <= i < k < |ns| ensures StrLt(ns[i].name, ns[k].name) {
        StrLtTotal(ns[i].name, ns[k].name);
      }
    }

    method AllNodes() returns (ns: seq<Node>)
      requires NodesKeyed(nodes)
      ensures ListsNodes(ns, nodes)
    {
      ns := [];
      var rest := nodes.Keys;
      while rest != {}
        invariant rest <= nodes.Keys
        invariant forall n | n in ns :: n.id in nodes && n.id !in rest && nodes[n.id] == n
        invariant forall i, k | 0 <= i < k < |ns| :: ns[i].id != ns[k].id
        invariant forall id | id in nodes && id !in rest :: nodes[id] in ns
      {
        var id :| id in rest;
        ns := ns + [nodes[id]];
        rest := rest - {id};
      }
    }
  }
}

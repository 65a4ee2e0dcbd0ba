/** When the next pass can give a live run's device to another job: exactly when the run is being cancelled. */
module Handovers {
  import opened Types
  import opened Resources
  import opened FreeViews
  import opened Starts
  import opened Orders
  import opened Planning
  import opened PlanProperties
  import opened Stores
  import opened Isolation
  import Protocol
  import Execution

  // --- A job that takes every free device of a node ---

  lemma {:induction false} WithoutConcat(a: seq<Device>, b: seq<Device>, taken: set<AllocDevice>)
    ensures Without(a + b, taken) == Without(a, taken) + Without(b, taken)
  {
    if b == [] {
      assert a + b == a;
    } else {
      assert (a + b)[..|a + b| - 1] == a + b[..|b| - 1];
      WithoutConcat(a, b[..|b| - 1], taken);
    }
  }

  lemma {:induction false} WithoutShrinks(devs: seq<Device>, taken: set<AllocDevice>)
    ensures |Without(devs, taken)| <= |devs|
    ensures (forall d | d in devs :: Key(d) in taken) ==> Without(devs, taken) == []
  {
    if devs != [] {
      WithoutShrinks(devs[..|devs| - 1], taken);
    }
  }

  lemma {:induction false} MatchingAny(devs: seq<Device>)
    ensures Matching(devs, Any) == devs
  {
    if devs != [] {
      MatchingAny(devs[..|devs| - 1]);
    }
  }

  lemma FirstGoneWith(free: seq<Device>, f: nat, given: set<AllocDevice>)
    requires f <= |free| && given == KeySet(Keys(free[..f]))
    ensures |Without(free, given)| + f <= |free|
  {
    forall d | d in free[..f] ensures Key(d) in given {
      var i :| 0 <= i < f && free[..f][i] == d;
      assert Keys(free[..f])[i] == Key(d);
    }
    hide Without;
    assert free == free[..f] + free[f..];
    WithoutConcat(free[..f], free[f..], given);
    WithoutShrinks(free[..f], given);
    WithoutShrinks(free[f..], given);
  }

  /** Devices that are given away are no longer free. */
  lemma GivenAway(devs: seq<Device>, taken: set<AllocDevice>, f: nat)
    requires f <= |Without(devs, taken)|
    ensures Left(devs, taken + KeySet(Keys(Without(devs, taken)[..f])), Any) + f <= Left(devs, taken, Any)
  {
    hide Without, Matching;
    var free := Without(devs, taken);
    var given := KeySet(Keys(free[..f]));
    WithoutUnion(devs, taken, given);
    MatchingAny(free);
    MatchingAny(Without(free, given));
    FirstGoneWith(free, f, given);
  }

  function Seeker(id: string, f: u32, priority: int): Job {
    Asking(0, 0).(id := id, priority := priority, reqGpus := f, gpuType := Any)
  }

  /** A node makes it an offer when that many devices are free there: the first ones. */
  lemma SeekerOffer(id: string, f: u32, priority: int, n: Node, occ: seq<Job>)
    ensures var free := Without(n.devices, Taken(occ, n.id));
            Offer(Seeker(id, f, priority), FreeOf(n, occ)) == if f <= |free| then Some(Keys(free[..f])) else None
  {
    MatchingAny(Without(n.devices, Taken(occ, n.id)));
  }

  // --- Reaching a node past the ones before it ---

  /** The free devices of the first `i` nodes of the fleet. */
  function FreeBefore(fleet: seq<Node>, i: nat, occ: seq<Job>): nat
    requires i <= |fleet|
  {
    if i == 0 then 0
    else FreeBefore(fleet, i - 1, occ) + Left(fleet[i - 1].devices, Taken(occ, fleet[i - 1].id), Any)
  }

  /** Placing a job elsewhere leaves a node's free devices as they were. */
  lemma ElsewhereUntouched(n: Node, occ: seq<Job>, j: Job)
    requires j.nodeId != n.id
    ensures Taken(occ + [j], n.id) == Taken(occ, n.id)
  {
    TakenSnoc(occ, j, n.id);
  }

  lemma {:induction false} OneFilled(fleet: seq<Node>, i: nat, at: nat, occ: seq<Job>, j: Job, f: nat)
    requires at < |fleet| && i <= |fleet| && forall a, b | 0 <= a < b < |fleet| :: fleet[a].id != fleet[b].id
    requires j.nodeId == fleet[at].id && f <= |Without(fleet[at].devices, Taken(occ, fleet[at].id))|
    requires j.devices == Keys(Without(fleet[at].devices, Taken(occ, fleet[at].id))[..f])
    ensures FreeBefore(fleet, i, occ + [j]) + (if at < i then f else 0) <= FreeBefore(fleet, i, occ)
  {
    hide Left, Taken, Without;
    if i > 0 {
      OneFilled(fleet, i - 1, at, occ, j, f);
      if i - 1 == at {
        GivenAway(fleet[at].devices, Taken(occ, fleet[at].id), f);
        TakenSnoc(occ, j, fleet[at].id);
      } else {
        assert fleet[i - 1].id != fleet[at].id;
        ElsewhereUntouched(fleet[i - 1], occ, j);
      }
    }
  }

  /** Ids longer than any in use. */
  function FreshId(base: nat, i: nat): (id: string)
    ensures |id| == base + i
  {
    seq(base + i, _ => 'x')
  }

  function Seekers(base: nat, k: nat, f: u32, priority: int): seq<Job> {
    seq(k, i requires 0 <= i < k => Seeker(FreshId(base, i), f, priority))
  }

  lemma SeekersSnoc(base: nat, k: nat, f: u32, priority: int)
    ensures Seekers(base, k + 1, f, priority) == Seekers(base, k, f, priority) + [Seeker(FreshId(base, k), f, priority)]
  {
  }

  /** The pass places all `k` of them, none on `n`, and holds no reservation. */
  ghost predicate Filling(s: Snapshot, queue: seq<Job>, n: Node) {
    && Run(s, queue).res.None?
    && Taken(s.active + Run(s, queue).placed, n.id) == Taken(s.active, n.id)
  }

  ghost predicate Grants(placed: seq<Job>, node: string, d: AllocDevice) {
    exists p :: p in placed && p.nodeId == node && d in p.devices
  }

  /** One more of them goes to `n` with every device free there, or to a node before it. */
  lemma SeekerChoice(s: Snapshot, occ: seq<Job>, at: nat, id: string, f: u32, priority: int) returns (i: nat, j: Job)
    requires at < |Fleet(s.nodes)|
    requires var n := Fleet(s.nodes)[at]; f == |Without(n.devices, Taken(occ, n.id))|
    ensures i <= at && Choice(s, occ, Seeker(id, f, priority)) == Some(j)
    ensures var n := Fleet(s.nodes)[i];
            && j.nodeId == n.id && f <= |Without(n.devices, Taken(occ, n.id))|
            && j.devices == Keys(Without(n.devices, Taken(occ, n.id))[..f])
            && j == Place(Seeker(id, f, priority), n, j.devices, s.now)
  {
    hide FreeOf, Offer, Taken, Without, Fleet;
    var fleet, job := Fleet(s.nodes), Seeker(id, f, priority);
    SeekerOffer(id, f, priority, fleet[at], occ);
    assert Frees(fleet, occ)[at] in Frees(fleet, occ);
    i := FirstFit(job, Frees(fleet, occ)).value;
    SeekerOffer(id, f, priority, fleet[i], occ);
    j := Choice(s, occ, job).value;
  }

  /** Sent to `n` it grants the device; sent elsewhere it fills up a node before `n`. */
  lemma OneMoreSeeker(s: Snapshot, queue: seq<Job>, at: nat, id: string, f: u32, priority: int, d: AllocDevice)
    requires UniqueNodes(s.nodes) && at < |Fleet(s.nodes)| && Filling(s, queue, Fleet(s.nodes)[at])
    requires var n := Fleet(s.nodes)[at];
             && f == |Without(n.devices, Taken(s.active, n.id))| && f > 0
             && InInventory(d, n.devices) && d !in Taken(s.active, n.id)
    ensures var n, queue' := Fleet(s.nodes)[at], queue + [Seeker(id, f, priority)];
            || Grants(Run(s, queue').placed, n.id, d)
            || (Filling(s, queue', n)
                && FreeBefore(Fleet(s.nodes), at, s.active + Run(s, queue').placed)
                   < FreeBefore(Fleet(s.nodes), at, s.active + Run(s, queue).placed))
  {
    hide Run, Choice, Taken, Without, Fleet, FreeBefore, Place;
    var fleet, job, p := Fleet(s.nodes), Seeker(id, f, priority), Run(s, queue);
    var n, occ := fleet[at], s.active + p.placed;
    FleetIds(s.nodes);
    var i, j := SeekerChoice(s, occ, at, id, f, priority);
    RunSnoc(s, queue, job);
    SeekerPlaced(s, p, job, j);
    assert s.active + (p.placed + [j]) == occ + [j];
    if i == at {
      AllGiven(n, Taken(s.active, n.id), d);
      assert j in p.placed + [j];
    } else {
      assert fleet[i].id != n.id;
      ElsewhereUntouched(n, occ, j);
      OneFilled(fleet, at, i, occ, j, f);
    }
  }

  lemma SeekerPlaced(s: Snapshot, p: Pass, job: Job, j: Job)
    requires p.res.None? && Choice(s, s.active + p.placed, job) == Some(j)
    ensures Visit(s, p, job) == p.(placed := p.placed + [j])
  {
  }

  lemma AllGiven(n: Node, taken: set<AllocDevice>, d: AllocDevice)
    requires InInventory(d, n.devices) && d !in taken
    ensures var free := Without(n.devices, taken); d in Keys(free[..|free|])
  {
    var free := Without(n.devices, taken);
    WithoutMembers(n.devices, taken);
    var k :| 0 <= k < |n.devices| && Key(n.devices[k]) == d;
    assert n.devices[k] in free && free[..|free|] == free;
    var i :| 0 <= i < |free| && free[i] == n.devices[k];
    assert Keys(free)[i] == d;
  }

  /** Enough of them reach it. */
  lemma {:induction false} EnoughSeekers(
      s: Snapshot, at: nat, base: nat, k: nat, f: u32, priority: int, d: AllocDevice) returns (m: nat)
    requires UniqueNodes(s.nodes) && at < |Fleet(s.nodes)|
    requires Filling(s, Seekers(base, k, f, priority), Fleet(s.nodes)[at])
    requires var n := Fleet(s.nodes)[at];
             && f == |Without(n.devices, Taken(s.active, n.id))| && f > 0
             && InInventory(d, n.devices) && d !in Taken(s.active, n.id)
    ensures Grants(Run(s, Seekers(base, m, f, priority)).placed, Fleet(s.nodes)[at].id, d)
    decreases FreeBefore(Fleet(s.nodes), at, s.active + Run(s, Seekers(base, k, f, priority)).placed)
  {
    hide Run, Filling, Grants, FreeBefore, Fleet, Seekers, Without, Taken;
    var queue, id := Seekers(base, k, f, priority), FreshId(base, k);
    OneMoreSeeker(s, queue, at, id, f, priority, d);
    SeekersSnoc(base, k, f, priority);
    if Grants(Run(s, Seekers(base, k + 1, f, priority)).placed, Fleet(s.nodes)[at].id, d) {
      m := k + 1;
    } else {
      m := EnoughSeekers(s, at, base, k + 1, f, priority, d);
    }
  }

  // --- Ahead of everyone else ---

  lemma {:induction false} HighPriority(js: seq<Job>, now: Time, w: real) returns (p: int)
    ensures forall j | j in js :: EffPriority(j, now, w) < p as real
  {
    hide EffPriority;
    p := 0;
    if js != [] {
      p := HighPriority(js[..|js| - 1], now, w);
      var e := EffPriority(js[|js| - 1], now, w);
      p := if (p as real) <= e then e.Floor + 1 else p;
    }
  }

  lemma SeekerPriority(id: string, f: u32, priority: int, now: Time, w: real)
    ensures EffPriority(Seeker(id, f, priority), now, w) == priority as real
  {
  }

  /** Jobs that outrank nobody ahead of them leave the head of the queue as it is. */
  lemma {:induction false} InsertBehind(j: Job, head: seq<Job>, s: seq<Job>, now: Time, w: real)
    requires head <= s && forall h | h in head :: !Outranks(j, h, now, w)
    ensures head <= Insert(j, s, now, w)
  {
    hide Outranks;
    if |s| > |head| && Outranks(j, s[|s| - 1], now, w) {
      InsertBehind(j, head, s[..|s| - 1], now, w);
    }
  }

  lemma {:induction false} HeadStays(head: seq<Job>, rest: seq<Job>, now: Time, w: real)
    requires forall h, j | h in head && j in head + rest :: !Outranks(j, h, now, w)
    ensures head <= Ranked(head + rest, now, w)
  {
    hide Outranks, Insert;
    var all := head + rest;
    if rest == [] {
      assert all == head;
      UnrankedStays(head, now, w);
    } else {
      var j := rest[|rest| - 1];
      assert all[..|all| - 1] == head + rest[..|rest| - 1];
      HeadStays(head, rest[..|rest| - 1], now, w);
      assert j in all;
      InsertBehind(j, head, Ranked(head + rest[..|rest| - 1], now, w), now, w);
    }
  }

  // --- The next pass of a run ---

  /** Submissions, and then one pass as far as its plan. */
  ghost predicate NextPass(moves: seq<Move>, now: Time, policy: Policy) {
    && |moves| >= 3 && SubmitsOnly(moves[..|moves| - 3])
    && moves[|moves| - 3].Schedule? && moves[|moves| - 3].p.ReadNodes?
    && moves[|moves| - 2].Schedule? && moves[|moves| - 2].p.ReadActive?
    && moves[|moves| - 1].Schedule? && moves[|moves| - 1].p.ReadPendingAndPlan?
    && moves[|moves| - 1].p.now == now && moves[|moves| - 1].p.policy == policy
  }

  ghost predicate SubmitsOnly(moves: seq<Move>) {
    forall m | m in moves :: m.Act? && m.e.Submit?
  }

  ghost predicate Extends(ws: seq<World>, ms: seq<Move>, ws': seq<World>, ms': seq<Move>) {
    Behavior(ws', ms') && ws <= ws' && ms <= ms'
  }

  /** Some submissions make the next pass, at this time and under this policy, plan a job on the device. */
  ghost predicate CanBeGranted(
      ws: seq<World>, ms: seq<Move>, now: Time, policy: Policy, node: string, d: AllocDevice)
  {
    exists ws': seq<World>, ms': seq<Move> ::
      && Extends(ws, ms, ws', ms') && NextPass(ms'[|ms|..], now, policy)
      && ws'[|ms'|].phase.Committing? && Grants(ws'[|ms'|].phase.rest, node, d)
  }

  /** No active row holds the device. */
  ghost predicate Unheld(jobs: JobTable, node: string, d: AllocDevice) {
    forall id | id in jobs && Active(jobs[id]) && jobs[id].nodeId == node :: d !in jobs[id].devices
  }

  // --- Only a device nobody active holds is granted ---

  /** Submissions leave nodes, scheduler and every known row alone. */
  ghost predicate OnlySubmitted(w: World, v: World) {
    && v.nodes == w.nodes && v.phase == w.phase
    && forall id | id in w.sys.jobs :: id in v.sys.jobs && v.sys.jobs[id] == w.sys.jobs[id]
  }

  lemma SubmitKeeps(w: World, m: Move, w': World)
    requires Takes(w, m, w') && m.Act? && m.e.Submit?
    ensures OnlySubmitted(w, w')
  {
  }

  lemma {:induction false} SubmitsKeep(ws: seq<World>, ms: seq<Move>, i: nat, k: nat)
    requires Behavior(ws, ms) && i <= k <= |ms| && SubmitsOnly(ms[i..k])
    ensures OnlySubmitted(ws[i], ws[k])
  {
    hide Takes, Timely;
    if i < k {
      assert ms[i..k] == ms[i..k - 1] + [ms[k - 1]];
      SubmitsKeep(ws, ms, i, k - 1);
      assert ms[k - 1] in ms[i..k];
      SubmitKeeps(ws[k - 1], ms[k - 1], ws[k]);
    }
  }

  /** The three reads of a pass, from one state of the tables. */
  lemma PassPlans(
      w: World, m1: Move, w1: World, m2: Move, w2: World, m3: Move, w3: World) returns (s: Snapshot, pending: seq<Job>)
    requires Takes(w, m1, w1) && Takes(w1, m2, w2) && Takes(w2, m3, w3)
    requires m1.Schedule? && m1.p.ReadNodes? && m2.Schedule? && m2.p.ReadActive?
    requires m3.Schedule? && m3.p.ReadPendingAndPlan?
    ensures w3.phase == Protocol.Committing(Placed(s, pending))
    ensures w2.phase == Protocol.SawActive(s.nodes, s.active)
    ensures Lists(s.active, w.sys.jobs, {Assigned, JobState.Running})
  {
    hide Placed;
    s := Snapshot(m3.p.now, w2.phase.nodes, w2.phase.active, m3.p.policy);
    pending := m3.p.pending;
  }

  lemma GrantedIsUnheld(s: Snapshot, pending: seq<Job>, jobs: JobTable, node: string, d: AllocDevice)
    requires UniqueNodes(s.nodes) && Lists(s.active, jobs, {Assigned, JobState.Running})
    requires Grants(Placed(s, pending), node, d)
    ensures Unheld(jobs, node, d)
  {
    hide Run, Ranked, AllSound;
    var placed := Placed(s, pending);
    PassIsSound(s, Ranked(pending, s.now, s.policy.ageWeight));
    var p :| p in placed && p.nodeId == node && d in p.devices;
    var i :| 0 <= i < |placed| && placed[i] == p;
    DevicesAreExclusive(s, placed, i);
    forall id | id in jobs && Active(jobs[id]) && jobs[id].nodeId == node ensures d !in jobs[id].devices {
      assert jobs[id] in s.active;
    }
  }

  lemma OnlyUnheldIsGranted(
      ws: seq<World>, ms: seq<Move>, ws': seq<World>, ms': seq<Move>, now: Time, policy: Policy,
      node: string, d: AllocDevice)
    requires Behavior(ws, ms) && Extends(ws, ms, ws', ms') && NextPass(ms'[|ms|..], now, policy)
    requires ws'[|ms'|].phase.Committing? && Grants(ws'[|ms'|].phase.rest, node, d)
    ensures Unheld(ws[|ms|].sys.jobs, node, d)
  {
    hide Takes, Timely, Inv, Placed, Grants, Unheld;
    var k := |ms'| - 3;
    assert ms'[|ms|..][..|ms'| - |ms| - 3] == ms'[|ms|..k];
    SubmitsKeep(ws', ms', |ms|, k);
    assert ms'[|ms|..][|ms'| - |ms| - 3] == ms'[k] && ms'[|ms|..][|ms'| - |ms| - 2] == ms'[k + 1];
    assert ms'[|ms|..][|ms'| - |ms| - 1] == ms'[k + 2];
    var s, pending := PassPlans(ws'[k], ms'[k], ws'[k + 1], ms'[k + 1], ws'[k + 2], ms'[k + 2], ws'[k + 3]);
    InvAlways(ws', ms', k + 2);
    ReadNodesAreUnique(ws'[k + 2]);
    GrantedIsUnheld(s, pending, ws'[k].sys.jobs, node, d);
    UnheldEarlier(ws[|ms|], ws'[k], node, d);
  }

  lemma ReadNodesAreUnique(w: World)
    requires Inv(w) && w.phase.SawActive?
    ensures UniqueNodes(w.phase.nodes)
  {
  }

  lemma UnheldEarlier(w: World, v: World, node: string, d: AllocDevice)
    requires OnlySubmitted(w, v) && Unheld(v.sys.jobs, node, d)
    ensures Unheld(w.sys.jobs, node, d)
  {
  }

  // --- Every such device can be granted ---

  lemma {:induction false} RowsExist(jobs: JobTable, states: set<JobState>) returns (js: seq<Job>)
    requires Keyed(jobs)
    ensures Lists(js, jobs, states)
    decreases |jobs|
  {
    js := [];
    if jobs != map[] {
      var k :| k in jobs;
      var rest := jobs - {k};
      var others := RowsExist(rest, states);
      js := if jobs[k].state in states then others + [jobs[k]] else others;
      forall id | id in jobs && jobs[id].state in states ensures jobs[id] in js {
        assert id != k ==> id in rest && rest[id] in others;
      }
    }
  }

  lemma {:induction false} NodesExist(nodes: NodeTable) returns (ns: seq<Node>)
    requires forall id | id in nodes :: nodes[id].id == id
    ensures ListsNodes(ns, nodes)
    decreases |nodes|
  {
    ns := [];
    if nodes != map[] {
      var k :| k in nodes;
      var rest := nodes - {k};
      var others := NodesExist(rest);
      ns := others + [nodes[k]];
      forall id | id in nodes ensures nodes[id] in ns {
        assert id != k ==> id in rest && rest[id] in others;
      }
    }
  }

  lemma {:induction false} LongerThanAll(ids: set<string>) returns (base: nat)
    ensures base > 0 && forall id | id in ids :: |id| < base
  {
    base := 1;
    if ids != {} {
      var id :| id in ids;
      base := LongerThanAll(ids - {id});
      if |id| >= base {
        base := |id| + 1;
      }
    }
  }

  /** The table with the first `k` seekers submitted. */
  ghost predicate WithSeekers(jobs: JobTable, jobs': JobTable, base: nat, k: nat, f: u32, priority: int) {
    && (forall id | id in jobs :: id in jobs' && jobs'[id] == jobs[id])
    && (forall i | 0 <= i < k ::
          FreshId(base, i) in jobs' && jobs'[FreshId(base, i)] == Seeker(FreshId(base, i), f, priority))
    && (forall id | id in jobs' && id !in jobs :: exists i :: 0 <= i < k && id == FreshId(base, i))
  }

  lemma FreshIdIsNew(jobs: JobTable, before: JobTable, base: nat, k: nat, f: u32, priority: int)
    requires WithSeekers(jobs, before, base, k, f, priority) && forall id | id in jobs :: |id| < base
    ensures FreshId(base, k) !in before && FreshId(base, k) !in jobs
    ensures forall i | 0 <= i < k :: FreshId(base, i) != FreshId(base, k)
  {
    assert forall i | 0 <= i < k :: |FreshId(base, i)| != |FreshId(base, k)|;
  }

  lemma OneMoreSubmitted(jobs: JobTable, before: JobTable, base: nat, k: nat, f: u32, priority: int)
    requires WithSeekers(jobs, before, base, k, f, priority) && forall id | id in jobs :: |id| < base
    ensures WithSeekers(jobs, CreateRow(before, Seeker(FreshId(base, k), f, priority)), base, k + 1, f, priority)
  {
    hide FreshId;
    FreshIdIsNew(jobs, before, base, k, f, priority);
    var id := FreshId(base, k);
    var after := CreateRow(before, Seeker(id, f, priority));
    assert after == before[id := Seeker(id, f, priority)];
    forall other | other in after && other !in jobs ensures exists i :: 0 <= i < k + 1 && other == FreshId(base, i) {
      if other != id {
        var i :| 0 <= i < k && other == FreshId(base, i);
      }
    }
  }

  lemma SubmitOne(ws: seq<World>, ms: seq<Move>, id: string, f: u32, priority: int)
    returns (ws': seq<World>, ms': seq<Move>)
    requires Behavior(ws, ms) && id != ""
    ensures Extends(ws, ms, ws', ms') && |ms'| == |ms| + 1 && SubmitsOnly(ms'[|ms|..])
    ensures var w := ws[|ms|];
            ws'[|ms'|] == w.(sys := w.sys.(jobs := CreateRow(w.sys.jobs, Seeker(id, f, priority))))
  {
    hide Takes, Timely;
    var w := ws[|ms|];
    var e := Execution.Submit(Seeker(id, f, priority));
    SubmitIsTaken(w, id, f, priority);
    var w' := w.(sys := Execution.Apply(w.sys, e));
    OneMore(ws, ms, Act(e), w');
    ws', ms' := ws + [w'], ms + [Act(e)];
    assert ms'[|ms|..] == [Act(e)];
  }

  /** They can all be submitted. */
  lemma {:induction false} SubmitAll(
      ws: seq<World>, ms: seq<Move>, base: nat, k: nat, f: u32, priority: int)
    returns (ws': seq<World>, ms': seq<Move>)
    requires Behavior(ws, ms) && base > 0 && forall id | id in ws[|ms|].sys.jobs :: |id| < base
    ensures Extends(ws, ms, ws', ms') && SubmitsOnly(ms'[|ms|..])
    ensures ws'[|ms'|] == ws[|ms|].(sys := ws[|ms|].sys.(jobs := ws'[|ms'|].sys.jobs))
    ensures WithSeekers(ws[|ms|].sys.jobs, ws'[|ms'|].sys.jobs, base, k, f, priority)
  {
    hide WithSeekers, CreateRow, Extends, SubmitsOnly;
    if k == 0 {
      ws', ms' := ws, ms;
      NoneSubmitted(ws, ms, base, f, priority);
    } else {
      var mid, made := SubmitAll(ws, ms, base, k - 1, f, priority);
      assert Behavior(mid, made) by { ExtendsIsRun(ws, ms, mid, made); }
      OneMoreSubmitted(ws[|ms|].sys.jobs, mid[|made|].sys.jobs, base, k - 1, f, priority);
      ws', ms' := SubmitOne(mid, made, FreshId(base, k - 1), f, priority);
      ExtendsFurther(ws, ms, mid, made, ws', ms');
    }
  }

  lemma ExtendsIsRun(ws: seq<World>, ms: seq<Move>, ws': seq<World>, ms': seq<Move>)
    requires Behavior(ws, ms) && Extends(ws, ms, ws', ms')
    ensures Behavior(ws', ms') && |ms| <= |ms'| && |ws'| == |ms'| + 1
  {
    hide Takes, Timely;
  }

  lemma ExtendsFurther(
      ws: seq<World>, ms: seq<Move>, mid: seq<World>, made: seq<Move>, ws': seq<World>, ms': seq<Move>)
    requires Behavior(ws, ms) && Extends(ws, ms, mid, made) && Extends(mid, made, ws', ms')
    requires SubmitsOnly(made[|ms|..]) && SubmitsOnly(ms'[|made|..])
    ensures Extends(ws, ms, ws', ms') && SubmitsOnly(ms'[|ms|..])
  {
    hide Takes, Timely, Behavior;
    assert ms'[|ms|..] == made[|ms|..] + ms'[|made|..];
  }

  lemma NoneSubmitted(ws: seq<World>, ms: seq<Move>, base: nat, f: u32, priority: int)
    requires Behavior(ws, ms)
    ensures Extends(ws, ms, ws, ms) && SubmitsOnly(ms[|ms|..])
    ensures WithSeekers(ws[|ms|].sys.jobs, ws[|ms|].sys.jobs, base, 0, f, priority)
  {
    hide Takes, Timely;
  }

  lemma SubmitIsTaken(w: World, id: string, f: u32, priority: int)
    requires id != ""
    ensures var j := Seeker(id, f, priority);
            && Execution.Enabled(w.sys, Execution.Submit(j))
            && Takes(w, Act(Execution.Submit(j)), w.(sys := Execution.Apply(w.sys, Execution.Submit(j))))
            && Timely(w, Act(Execution.Submit(j)))
            && Execution.Apply(w.sys, Execution.Submit(j)) == w.sys.(jobs := CreateRow(w.sys.jobs, j))
  {
  }

  lemma SeekersPending(
      jobs: JobTable, jobs': JobTable, rest: seq<Job>, base: nat, k: nat, f: u32, priority: int)
    requires WithSeekers(jobs, jobs', base, k, f, priority) && forall id | id in jobs :: |id| < base
    requires Lists(rest, jobs, {Pending})
    ensures Lists(Seekers(base, k, f, priority) + rest, jobs', {Pending})
  {
    SeekersAreRows(jobs, jobs', rest, base, k, f, priority);
    SeekersDistinct(jobs, rest, base, k, f, priority);
    SeekersAreAll(jobs, jobs', rest, base, k, f, priority);
    hide Seekers, WithSeekers;
  }

  lemma SeekersAreAll(
      jobs: JobTable, jobs': JobTable, rest: seq<Job>, base: nat, k: nat, f: u32, priority: int)
    requires WithSeekers(jobs, jobs', base, k, f, priority) && Lists(rest, jobs, {Pending})
    ensures forall id | id in jobs' && jobs'[id].state == Pending :: jobs'[id] in Seekers(base, k, f, priority) + rest
  {
    hide FreshId, Seeker;
    var seekers := Seekers(base, k, f, priority);
    forall id | id in jobs' && jobs'[id].state == Pending ensures jobs'[id] in seekers || jobs'[id] in rest {
      if id in jobs {
        assert jobs[id] in rest;
      } else {
        var i :| 0 <= i < k && id == FreshId(base, i);
        assert seekers[i] == jobs'[id];
      }
    }
  }

  lemma SeekersAreRows(
      jobs: JobTable, jobs': JobTable, rest: seq<Job>, base: nat, k: nat, f: u32, priority: int)
    requires WithSeekers(jobs, jobs', base, k, f, priority) && Lists(rest, jobs, {Pending})
    ensures var all := Seekers(base, k, f, priority) + rest;
            forall i | 0 <= i < |all| :: all[i].id in jobs' && jobs'[all[i].id] == all[i] && all[i].state == Pending
  {
    hide FreshId;
    var all := Seekers(base, k, f, priority) + rest;
    forall i | 0 <= i < |all| ensures all[i].id in jobs' && jobs'[all[i].id] == all[i] && all[i].state == Pending {
      assert i < k ==> all[i] == Seeker(FreshId(base, i), f, priority);
      assert i >= k ==> all[i] == rest[i - k];
    }
  }

  lemma SeekersDistinct(jobs: JobTable, rest: seq<Job>, base: nat, k: nat, f: u32, priority: int)
    requires Lists(rest, jobs, {Pending}) && forall id | id in jobs :: |id| < base
    ensures var all := Seekers(base, k, f, priority) + rest;
            forall i, m | 0 <= i < m < |all| :: all[i].id != all[m].id
  {
    var all := Seekers(base, k, f, priority) + rest;
    forall i, m | 0 <= i < m < |all| ensures all[i].id != all[m].id {
      assert i < k ==> all[i].id == FreshId(base, i);
      assert m < k ==> all[m].id == FreshId(base, m);
      assert i >= k ==> all[i] == rest[i - k];
      assert m >= k ==> all[m] == rest[m - k] && all[m].id in jobs;
    }
  }

  lemma ActiveAsBefore(
      jobs: JobTable, jobs': JobTable, active: seq<Job>, base: nat, k: nat, f: u32, priority: int)
    requires WithSeekers(jobs, jobs', base, k, f, priority)
    requires Lists(active, jobs, {Assigned, JobState.Running})
    ensures Lists(active, jobs', {Assigned, JobState.Running})
  {
    forall id | id in jobs' && jobs'[id].state in {Assigned, JobState.Running} ensures jobs'[id] in active {
      assert id in jobs;
    }
  }

  /** The three reads of a pass, and its plan. */
  lemma Reads(
      ws: seq<World>, ms: seq<Move>, ns: seq<Node>, active: seq<Job>, pending: seq<Job>, now: Time, policy: Policy)
    returns (ws': seq<World>, ms': seq<Move>)
    requires Behavior(ws, ms) && ws[|ms|].phase.Idle? && ListsNodes(ns, ws[|ms|].nodes)
    requires Lists(active, ws[|ms|].sys.jobs, {Assigned, JobState.Running})
    requires Lists(pending, ws[|ms|].sys.jobs, {Pending})
    ensures Extends(ws, ms, ws', ms') && |ms'| == |ms| + 3
    ensures ms'[|ms|..] == [Schedule(Protocol.ReadNodes(ns)), Schedule(Protocol.ReadActive(active)),
                            Schedule(Protocol.ReadPendingAndPlan(now, policy, pending))]
    ensures ws'[|ms'|].phase == Protocol.Committing(Placed(Snapshot(now, ns, active, policy), pending))
  {
    var w := ws[|ms|];
    var w1 := w.(phase := Protocol.SawNodes(ns));
    var w2 := w.(phase := Protocol.SawActive(ns, active));
    var w3 := w.(phase := Protocol.Committing(Placed(Snapshot(now, ns, active, policy), pending)));
    ReadsTaken(w, ns, active, pending, now, policy, w1, w2, w3);
    hide Takes, Placed, ListsNodes, Lists;
    OneMore(ws, ms, Schedule(Protocol.ReadNodes(ns)), w1);
    ws', ms' := ws + [w1], ms + [Schedule(Protocol.ReadNodes(ns))];
    OneMore(ws', ms', Schedule(Protocol.ReadActive(active)), w2);
    ws', ms' := ws' + [w2], ms' + [Schedule(Protocol.ReadActive(active))];
    OneMore(ws', ms', Schedule(Protocol.ReadPendingAndPlan(now, policy, pending)), w3);
    ws', ms' := ws' + [w3], ms' + [Schedule(Protocol.ReadPendingAndPlan(now, policy, pending))];
  }

  lemma ReadsTaken(w: World, ns: seq<Node>, active: seq<Job>, pending: seq<Job>, now: Time, policy: Policy,
                   w1: World, w2: World, w3: World)
    requires w.phase.Idle? && ListsNodes(ns, w.nodes)
    requires Lists(active, w.sys.jobs, {Assigned, JobState.Running}) && Lists(pending, w.sys.jobs, {Pending})
    requires w1 == w.(phase := Protocol.SawNodes(ns)) && w2 == w.(phase := Protocol.SawActive(ns, active))
    requires w3 == w.(phase := Protocol.Committing(Placed(Snapshot(now, ns, active, policy), pending)))
    ensures Takes(w, Schedule(Protocol.ReadNodes(ns)), w1) && Takes(w1, Schedule(Protocol.ReadActive(active)), w2)
    ensures Takes(w2, Schedule(Protocol.ReadPendingAndPlan(now, policy, pending)), w3)
  {
    hide Placed, Lists, ListsNodes;
  }

  /** Ahead of everyone, enough seekers make the plan grant the device. */
  lemma SeekersAreGranted(s: Snapshot, n: Node, rest: seq<Job>, base: nat, priority: int, d: AllocDevice)
    returns (k: nat, f: u32)
    requires UniqueNodes(s.nodes) && n in s.nodes && n.state.Up? && |n.devices| < U32
    requires InInventory(d, n.devices) && d !in Taken(s.active, n.id)
    requires forall j | j in rest :: EffPriority(j, s.now, s.policy.ageWeight) < priority as real
    ensures Grants(Placed(s, Seekers(base, k, f, priority) + rest), n.id, d)
  {
    FleetSorted(s.nodes);
    var fleet := Fleet(s.nodes);
    var at :| 0 <= at < |fleet| && fleet[at] == n;
    f := FreeCount(n, Taken(s.active, n.id), d);
    NoneFilled(s, n, base, f, priority);
    k := EnoughSeekers(s, at, base, 0, f, priority, d);
    var head := Seekers(base, k, f, priority);
    SeekersLead(head, base, k, f, priority, rest, s.now, s.policy.ageWeight);
    HeadStays(head, rest, s.now, s.policy.ageWeight);
    var queue := Ranked(head + rest, s.now, s.policy.ageWeight);
    RunGrows(s, queue, k);
    assert queue[..k] == head;
    GrantsMore(Run(s, head).placed, Run(s, queue).placed, n.id, d);
  }

  lemma FreeCount(n: Node, taken: set<AllocDevice>, d: AllocDevice) returns (f: u32)
    requires |n.devices| < U32 && InInventory(d, n.devices) && d !in taken
    ensures f == |Without(n.devices, taken)| && f > 0
  {
    WithoutShrinks(n.devices, taken);
    AllGiven(n, taken, d);
    f := |Without(n.devices, taken)|;
  }

  lemma NoneFilled(s: Snapshot, n: Node, base: nat, f: u32, priority: int)
    ensures Filling(s, Seekers(base, 0, f, priority), n)
  {
    assert Seekers(base, 0, f, priority) == [];
    assert s.active + [] == s.active;
  }

  lemma SeekerIs(j: Job, base: nat, k: nat, f: u32, priority: int)
    requires j in Seekers(base, k, f, priority)
    ensures j == Seeker(j.id, f, priority)
  {
  }

  lemma SeekersLead(
      head: seq<Job>, base: nat, k: nat, f: u32, priority: int, rest: seq<Job>, now: Time, w: real)
    requires head == Seekers(base, k, f, priority) && forall j | j in rest :: EffPriority(j, now, w) < priority as real
    ensures forall h, j | h in head && j in head + rest :: !Outranks(j, h, now, w)
  {
    forall h, j | h in head && j in head + rest ensures !Outranks(j, h, now, w) {
      SeekerPriority(h.id, f, priority, now, w);
      SeekerPriority(j.id, f, priority, now, w);
      hide EffPriority;
      SeekerIs(h, base, k, f, priority);
      if j in head {
        SeekerIs(j, base, k, f, priority);
      }
    }
  }

  lemma GrantsMore(a: seq<Job>, b: seq<Job>, node: string, d: AllocDevice)
    requires Grants(a, node, d) && a <= b
    ensures Grants(b, node, d)
  {
    var p :| p in a && p.nodeId == node && d in p.devices;
    assert p in b;
  }

  lemma UnheldIsFree(jobs: JobTable, active: seq<Job>, node: string, d: AllocDevice)
    requires Unheld(jobs, node, d) && Lists(active, jobs, {Assigned, JobState.Running})
    ensures d !in Taken(active, node)
  {
  }

  /** The snapshot a pass takes, and what is pending besides. */
  lemma TablesRead(w: World, now: Time, policy: Policy) returns (s: Snapshot, rest: seq<Job>)
    requires Keyed(w.sys.jobs) && NodesKeyed(w.nodes)
    ensures s.now == now && s.policy == policy && ListsNodes(s.nodes, w.nodes) && UniqueNodes(s.nodes)
    ensures Lists(s.active, w.sys.jobs, {Assigned, JobState.Running}) && Lists(rest, w.sys.jobs, {Pending})
  {
    var ns := NodesExist(w.nodes);
    ListedNodesAreUnique(ns, w.nodes);
    var active := RowsExist(w.sys.jobs, {Assigned, JobState.Running});
    rest := RowsExist(w.sys.jobs, {Pending});
    s := Snapshot(now, ns, active, policy);
  }

  /** Submitted and read, the seekers are planned ahead of what else is pending. */
  lemma SubmitAndRead(
      ws: seq<World>, ms: seq<Move>, s: Snapshot, rest: seq<Job>, base: nat, k: nat, f: u32, priority: int)
    returns (ws': seq<World>, ms': seq<Move>)
    requires Behavior(ws, ms) && ws[|ms|].phase.Idle? && ListsNodes(s.nodes, ws[|ms|].nodes)
    requires Lists(s.active, ws[|ms|].sys.jobs, {Assigned, JobState.Running})
    requires Lists(rest, ws[|ms|].sys.jobs, {Pending})
    requires base > 0 && forall id | id in ws[|ms|].sys.jobs :: |id| < base
    ensures Extends(ws, ms, ws', ms') && NextPass(ms'[|ms|..], s.now, s.policy)
    ensures ws'[|ms'|].phase == Protocol.Committing(Placed(s, Seekers(base, k, f, priority) + rest))
  {
    hide Takes, Timely, Placed, WithSeekers, Lists, ListsNodes, Seekers;
    var pending := Seekers(base, k, f, priority) + rest;
    var mid, made := SubmitAll(ws, ms, base, k, f, priority);
    SeekersPending(ws[|ms|].sys.jobs, mid[|made|].sys.jobs, rest, base, k, f, priority);
    ActiveAsBefore(ws[|ms|].sys.jobs, mid[|made|].sys.jobs, s.active, base, k, f, priority);
    ws', ms' := Reads(mid, made, s.nodes, s.active, pending, s.now, s.policy);
    var moves := ms'[|ms|..];
    assert moves == made[|ms|..] + ms'[|made|..];
    assert moves[..|moves| - 3] == made[|ms|..];
  }

  lemma UnheldCanBeGranted(
      ws: seq<World>, ms: seq<Move>, now: Time, policy: Policy, n: Node, d: AllocDevice)
    requires Behavior(ws, ms) && ws[|ms|].phase.Idle? && n.id in ws[|ms|].nodes && ws[|ms|].nodes[n.id] == n
    requires n.state.Up? && |n.devices| < U32 && InInventory(d, n.devices) && Unheld(ws[|ms|].sys.jobs, n.id, d)
    ensures CanBeGranted(ws, ms, now, policy, n.id, d)
  {
    hide Takes, Timely, Placed, Grants, Unheld, Taken, EffPriority, NextPass, Lists;
    TablesOf(ws, ms);
    var s, rest := TablesRead(ws[|ms|], now, policy);
    var base := LongerThanAll(ws[|ms|].sys.jobs.Keys);
    var priority := HighPriority(rest, now, policy.ageWeight);
    UnheldIsFree(ws[|ms|].sys.jobs, s.active, n.id, d);
    var k, f := SeekersAreGranted(s, n, rest, base, priority, d);
    var ws', ms' := SubmitAndRead(ws, ms, s, rest, base, k, f, priority);
    assert Extends(ws, ms, ws', ms');
  }

  lemma TablesOf(ws: seq<World>, ms: seq<Move>)
    requires Behavior(ws, ms)
    ensures Keyed(ws[|ms|].sys.jobs) && NodesKeyed(ws[|ms|].nodes)
  {
    hide Takes, Timely, Execution.Inv;
    InvAlways(ws, ms, |ms|);
  }

  // --- The iff ---

  /**
   * Between passes, take a live run that holds a device its UP node still lists. Some submissions make the
   * next pass, whatever its time and policy, plan another job on that device if and only if the run's row
   * is CANCELLING and the device has not been handed on already.
   */
  lemma HandedOnIffCancelling(
      ws: seq<World>, ms: seq<Move>, x: Execution.Slot, n: Node, d: AllocDevice, now: Time, policy: Policy)
    requires Behavior(ws, ms) && ws[|ms|].phase.Idle? && n.id in ws[|ms|].nodes && ws[|ms|].nodes[n.id] == n
    requires n.state.Up? && |n.devices| < U32 && InInventory(d, n.devices)
    requires Alive(ws[|ms|].sys, x) && x.node == n.id
    requires x.job in ws[|ms|].sys.jobs && d in ws[|ms|].sys.jobs[x.job].devices
    ensures CanBeGranted(ws, ms, now, policy, n.id, d) <==>
            ws[|ms|].sys.jobs[x.job].state.Cancelling? && Unheld(ws[|ms|].sys.jobs, n.id, d)
  {
    hide Takes, Timely, Protocol.Inv, Execution.Inv, NextPass, Grants;
    var s := ws[|ms|].sys;
    InvAlways(ws, ms, |ms|);
    AliveRow(s, x);
    if CanBeGranted(ws, ms, now, policy, n.id, d) {
      var ws': seq<World>, ms': seq<Move> :| Extends(ws, ms, ws', ms') && NextPass(ms'[|ms|..], now, policy)
        && ws'[|ms'|].phase.Committing? && Grants(ws'[|ms'|].phase.rest, n.id, d);
      OnlyUnheldIsGranted(ws, ms, ws', ms', now, policy, n.id, d);
    } else if Unheld(s.jobs, n.id, d) {
      UnheldCanBeGranted(ws, ms, now, policy, n, d);
    }
  }
}

/** One scheduling pass: its specification as a fold over the ranked queue, and the method that runs it. */
module Planning {
  import opened Types
  import opened Slices
  import opened Resources
  import opened FreeViews
  import opened Reservations
  import opened Orders

  datatype Policy = Policy(backfill: bool, ageWeight: real)

  datatype Decision = Decision(jobId: string, nodeId: string, nodeName: string, devices: seq<AllocDevice>)

  /** What a pass reads. */
  datatype Snapshot = Snapshot(now: Time, nodes: seq<Node>, active: seq<Job>, policy: Policy)

  /** What a pass has decided so far: the jobs placed, in order, and the reservation if one is held. */
  datatype Pass = Pass(placed: seq<Job>, res: Option<Time>)

  /** `job` as an occupant of `n` from `now` on. */
  function Place(job: Job, n: Node, devices: seq<AllocDevice>, now: Time): Job {
    job.(state := Assigned, nodeId := n.id, nodeName := n.name, devices := devices, startAt := Some(now))
  }

  predicate BackfillAllowed(now: Time, job: Job, resTime: Time) {
    job.walltime > 0 && now + Seconds(job.walltime) <= resTime
  }

  /** The longest walltime, in seconds, whose duration in nanoseconds does not wrap. */
  const LONGEST := 9_223_372_036

  lemma SecondsWrap(w: i64)
    requires w > 0
    ensures w <= LONGEST <==> Seconds(w) == w * 1_000_000_000
    ensures Seconds(w) < w * 1_000_000_000 || w <= LONGEST
    ensures Seconds(w) <= 0 <==> w * 1_000_000_000 % U64 == 0 || w * 1_000_000_000 % U64 >= I63
  {
    var ns := w * 1_000_000_000;
    var q, m := ns / U64, ns % U64;
    assert ns == q * U64 + m;
    if m < I63 {
      DivModIs(ns + I63, q, m + I63);
    } else {
      DivModIs(ns + I63, q + 1, m - I63);
    }
  }

  function OfWalltime(w: i64): Job {
    Job("", "", "", Pending, 0, 0, 0, 0, Any, w, "", "", [], 0, "", None, None, None)
  }

  /**
   * The test is the one intended - the job ends by the reservation - for exactly the walltimes whose
   * duration does not wrap.
   */
  lemma BackfillTestIsExact(w: i64)
    requires w > 0
    ensures w <= LONGEST <==>
            forall now, job: Job, resTime | job.walltime == w ::
              BackfillAllowed(now, job, resTime) <==> now + w * 1_000_000_000 <= resTime
  {
    SecondsWrap(w);
    if w > LONGEST {
      assert BackfillAllowed(0, OfWalltime(w), Seconds(w));
    }
  }

  /** A walltime lets its job jump every reservation exactly when it wraps to zero or to the past. */
  lemma WrappedWalltimeIsAllowed(w: i64)
    requires w > 0
    ensures w * 1_000_000_000 % U64 == 0 || w * 1_000_000_000 % U64 >= I63 <==>
            forall now, job: Job, resTime | job.walltime == w && now <= resTime :: BackfillAllowed(now, job, resTime)
  {
    SecondsWrap(w);
    if Seconds(w) > 0 {
      assert !BackfillAllowed(0, OfWalltime(w), 0);
    }
  }

  function Frees(fleet: seq<Node>, occ: seq<Job>): seq<FreeView> {
    seq(|fleet|, i requires 0 <= i < |fleet| => FreeOf(fleet[i], occ))
  }

  /** Where `job` goes beside the occupants `occ`: the first node in name order with room for it. */
  function Choice(s: Snapshot, occ: seq<Job>, job: Job): (c: Option<Job>)
    ensures c.Some? <==> FirstFit(job, Frees(Fleet(s.nodes), occ)).Some?
  {
    var fleet := Fleet(s.nodes);
    match FirstFit(job, Frees(fleet, occ))
    case Some(i) => Some(Place(job, fleet[i], Offer(job, FreeOf(fleet[i], occ)).value, s.now))
    case None => None
  }

  /** One turn of the loop. Note that the reservation is estimated from the active jobs alone. */
  ghost function Visit(s: Snapshot, p: Pass, job: Job): Pass {
    match Choice(s, s.active + p.placed, job)
    case Some(j) =>
      if s.policy.backfill && p.res.Some? && !BackfillAllowed(s.now, job, p.res.value) then p
      else p.(placed := p.placed + [j])
    case None =>
      if s.policy.backfill && p.res.None? then p.(res := EarliestStart(job, s.nodes, s.active, s.now)) else p
  }

  ghost function Run(s: Snapshot, queue: seq<Job>): Pass {
    if queue == [] then Pass([], None) else Visit(s, Run(s, queue[..|queue| - 1]), queue[|queue| - 1])
  }

  function Decided(placed: seq<Job>): seq<Decision> {
    seq(|placed|, i requires 0 <= i < |placed| =>
      Decision(placed[i].id, placed[i].nodeId, placed[i].nodeName, placed[i].devices))
  }

  /** The jobs a pass over this queue places. */
  ghost function Placed(s: Snapshot, pending: seq<Job>): seq<Job> {
    Run(s, Ranked(pending, s.now, s.policy.ageWeight)).placed
  }

  ghost predicate Readable(nodes: seq<Node>, active: seq<Job>) {
    UniqueNodes(nodes) && forall n | n in nodes :: NoWrap(active, n)
  }

  lemma ChoiceIs(s: Snapshot, occ: seq<Job>, job: Job, at: nat, devs: seq<AllocDevice>)
    requires FirstFit(job, Frees(Fleet(s.nodes), occ)) == Some(at)
    requires Offer(job, Frees(Fleet(s.nodes), occ)[at]) == Some(devs)
    ensures Choice(s, occ, job) == Some(Place(job, Fleet(s.nodes)[at], devs, s.now))
  {
  }

  lemma RunSnoc(s: Snapshot, queue: seq<Job>, job: Job)
    ensures Run(s, queue + [job]) == Visit(s, Run(s, queue), job)
  {
    assert (queue + [job])[..|queue|] == queue;
  }

  /** The mutable views show what the occupants leave of the fleet. */
  ghost predicate Shows(order: seq<FreeNode>, fleet: seq<Node>, occ: seq<Job>)
    reads order
  {
    |order| == |fleet| && forall i | 0 <= i < |order| :: order[i].View() == FreeOf(fleet[i], occ)
  }

  /** Debiting the chosen node in place keeps every view equal to one rebuilt with the job among the occupants. */
  lemma DebitRebuilds(order: seq<FreeNode>, fleet: seq<Node>, occ: seq<Job>, j: Job, at: nat)
    requires at < |fleet| == |order| && j.nodeId == fleet[at].id
    requires forall a, b | 0 <= a < b < |fleet| :: fleet[a].id != fleet[b].id
    requires forall i | 0 <= i < |order| && i != at :: order[i].View() == FreeOf(fleet[i], occ)
    requires order[at].View() == Debit(FreeOf(fleet[at], occ), j.reqCpus, j.reqMem, KeySet(j.devices))
    ensures Shows(order, fleet, occ + [j])
  {
    forall k | 0 <= k < |order| ensures order[k].View() == FreeOf(fleet[k], occ + [j]) {
      FreeOfSnoc(fleet[k], occ, j);
    }
  }

  method ConsumeChosen(fn: FreeNode, job: Job, devs: seq<AllocDevice>, order: seq<FreeNode>,
                       ghost fleet: seq<Node>, ghost occ: seq<Job>, ghost j: Job, ghost at: nat)
    requires Shows(order, fleet, occ) && at < |order| && fn == order[at]
    requires j.nodeId == fleet[at].id && j.devices == devs && j.reqCpus == job.reqCpus && j.reqMem == job.reqMem
    requires forall a, b | 0 <= a < b < |fleet| :: fleet[a].id != fleet[b].id
    modifies fn
    ensures Shows(order, fleet, occ + [j])
  {
    forall i | 0 <= i < |order| && i != at ensures order[i] != fn {
      assert order[i].View().id == fleet[i].id && fn.View().id == fleet[at].id;
    }
    Consume(fn, job, devs);
    DebitRebuilds(order, fleet, occ, j, at);
  }

  lemma FleetIds(nodes: seq<Node>)
    requires UniqueNodes(nodes)
    ensures forall a, b | 0 <= a < b < |Fleet(nodes)| :: Fleet(nodes)[a].id != Fleet(nodes)[b].id
  {
    FleetSorted(nodes);
    var fleet := Fleet(nodes);
    forall a, b | 0 <= a < b < |fleet| ensures fleet[a].id != fleet[b].id {
      assert fleet[a] in nodes && fleet[b] in nodes;
      var i :| 0 <= i < |nodes| && nodes[i] == fleet[a];
      var k :| 0 <= k < |nodes| && nodes[k] == fleet[b];
      StrLtTotal(fleet[a].name, fleet[b].name);
    }
  }

  ghost function NodeById(nodes: seq<Node>, id: string): (n: Node)
    requires exists n :: n in nodes && n.state.Up? && n.id == id
    ensures n in nodes && n.state.Up? && n.id == id
  {
    var n :| n in nodes && n.state.Up? && n.id == id;
    n
  }

  /** Sorted by name, the views line up with the fleet. */
  lemma Aligned(order: seq<FreeNode>, frees: map<string, FreeNode>, nodes: seq<Node>, active: seq<Job>)
    requires UniqueNodes(nodes)
    requires forall id | id in frees :: exists n :: n in nodes && n.state.Up? && n.id == id
    requires forall n | n in nodes && n.state.Up? :: n.id in frees && frees[n.id].View() == FreeOf(n, active)
    requires forall fn | fn in order :: fn.id in frees && fn == frees[fn.id]
    requires forall id | id in frees :: frees[id] in order && frees[id].id == id
    requires forall i, k | 0 <= i < k < |order| :: order[i] != order[k] && !StrLt(order[k].name, order[i].name)
    ensures |order| == |Fleet(nodes)|
    ensures forall i | 0 <= i < |order| :: order[i].View() == FreeOf(Fleet(nodes)[i], active)
  {
    var ns := seq(|order|, i requires 0 <= i < |order| => NodeById(nodes, order[i].id));
    forall i | 0 <= i < |order|
      ensures ns[i] in nodes && ns[i].state.Up? && order[i].View() == FreeOf(ns[i], active)
    {
      assert order[i] in order;
    }
    forall i, k | 0 <= i < k < |ns| ensures StrLt(ns[i].name, ns[k].name) {
      assert order[i].id == ns[i].id && order[k].id == ns[k].id;
      assert order[i].id != order[k].id by { assert order[i] in order && order[k] in order; }
      UniqueNames(nodes, ns[i], ns[k]);
      StrLtTotal(ns[i].name, ns[k].name);
    }
    FleetSorted(nodes);
    forall n | n in nodes && n.state.Up? ensures n in ns {
      var i :| 0 <= i < |order| && order[i] == frees[n.id];
      UniqueNames(nodes, ns[i], n);
      assert ns[i] == n;
    }
    SortedUnique(ns, Fleet(nodes));
  }

  lemma UniqueNames(nodes: seq<Node>, a: Node, b: Node)
    requires UniqueNodes(nodes) && a in nodes && b in nodes
    ensures a.id == b.id || a.name == b.name ==> a == b
  {
    var i :| 0 <= i < |nodes| && nodes[i] == a;
    var k :| 0 <= k < |nodes| && nodes[k] == b;
  }

  /** The views in the order the map happens to be walked. */
  method WalkFrees(frees: map<string, FreeNode>) returns (walked: seq<FreeNode>)
    requires forall id | id in frees :: frees[id].id == id
    ensures forall fn | fn in walked :: fn.id in frees && fn == frees[fn.id]
    ensures forall id | id in frees :: frees[id] in walked
    ensures forall fn | fn in walked :: multiset(walked)[fn] == 1
  {
    walked := [];
    var rest := frees.Keys;
    while rest != {}
      invariant rest <= frees.Keys
      invariant forall fn | fn in walked :: fn.id in frees && fn == frees[fn.id] && fn.id !in rest
      invariant forall id | id in frees && id !in rest :: frees[id] in walked
      invariant forall fn | fn in walked :: multiset(walked)[fn] == 1
    {
      var id :| id in rest;
      MultisetAppend(walked, frees[id]);
      walked := walked + [frees[id]];
      rest := rest - {id};
    }
  }

  method OrderByName(frees: map<string, FreeNode>, ghost nodes: seq<Node>, ghost active: seq<Job>)
    returns (order: seq<FreeNode>)
    requires UniqueNodes(nodes)
    requires forall id | id in frees :: frees[id].id == id
    requires forall id | id in frees :: exists n :: n in nodes && n.state.Up? && n.id == id
    requires forall n | n in nodes && n.state.Up? :: n.id in frees && frees[n.id].View() == FreeOf(n, active)
    ensures Shows(order, Fleet(nodes), active)
    ensures forall i | 0 <= i < |order| :: order[i].id in frees && order[i] == frees[order[i].id]
  {
    var walked := WalkFrees(frees);
    forall x: string, y: string, z: string | StrLt(x, z) ensures StrLt(x, y) || StrLt(y, z) {
      NameSplit(x, y, z);
    }
    forall x: string, y: string { StrLtTotal(x, y); }
    order := SortSlice(walked, (x: FreeNode, y: FreeNode) => StrLt(x.name, y.name));
    SameMembers(walked, order);
    OnceEach(order);
    Aligned(order, frees, nodes, active);
  }

  /** One turn of the loop: what is appended, and the reservation held afterwards. */
  method Turn(job: Job, order: seq<FreeNode>, resTime: Option<Time>, now: Time, nodes: seq<Node>, active: seq<Job>,
              policy: Policy, ghost s: Snapshot, ghost p: Pass)
    returns (decided: seq<Decision>, res: Option<Time>, ghost p': Pass)
    requires Readable(nodes, active) && resTime == p.res && s == Snapshot(now, nodes, active, policy)
    requires Shows(order, Fleet(nodes), active + p.placed)
    modifies order
    ensures p' == Visit(s, p, job) && res == p'.res
    ensures Decided(p'.placed) == Decided(p.placed) + decided
    ensures Shows(order, Fleet(nodes), active + p'.placed)
  {
    ghost var fleet, occ := Fleet(nodes), active + p.placed;
    decided, res, p' := [], resTime, p;
    var fn, devs, ok := SelectFit(job, order, Frees(fleet, occ));
    if ok {
      ghost var at := FirstFit(job, Frees(fleet, occ)).value;
      ghost var j := Place(job, fleet[at], devs, now);
      assert fn.View() == FreeOf(fleet[at], occ);
      ChoiceIs(s, occ, job, at, devs);
      if policy.backfill && resTime.Some? && !BackfillAllowed(now, job, resTime.value) {
        return;
      }
      decided := [Decision(job.id, fn.id, fn.name, devs)];
      p' := p.(placed := p.placed + [j]);
      DecidedSnoc(p.placed, j);
      assert active + p'.placed == occ + [j];
      FleetIds(nodes);
      ConsumeChosen(fn, job, devs, order, fleet, occ, j, at);
      return;
    }
    if policy.backfill && resTime.None? {
      res := ReservationTime(now, job, nodes, active);
      p' := p.(res := res);
    }
  }

  /** The loop has taken `i` turns. */
  ghost predicate Reached(s: Snapshot, queue: seq<Job>, i: nat, p: Pass, decisions: seq<Decision>)
    requires i <= |queue|
  {
    p == Run(s, queue[..i]) && decisions == Decided(p.placed)
  }

  lemma ReachedNext(
      s: Snapshot, queue: seq<Job>, i: nat, p: Pass, p': Pass, decisions: seq<Decision>, more: seq<Decision>)
    requires i < |queue| && Reached(s, queue, i, p, decisions)
    requires p' == Visit(s, p, queue[i]) && Decided(p'.placed) == Decided(p.placed) + more
    ensures Reached(s, queue, i + 1, p', decisions + more)
  {
    assert queue[..i + 1] == queue[..i] + [queue[i]];
    RunSnoc(s, queue[..i], queue[i]);
  }

  /** The loop over the ranked queue. */
  method RunTurns(queue: seq<Job>, order: seq<FreeNode>, now: Time, nodes: seq<Node>, active: seq<Job>, policy: Policy)
    returns (decisions: seq<Decision>)
    requires Readable(nodes, active) && Shows(order, Fleet(nodes), active)
    modifies order
    ensures decisions == Decided(Run(Snapshot(now, nodes, active, policy), queue).placed)
  {
    ghost var s := Snapshot(now, nodes, active, policy);
    ghost var p := Pass([], None);
    assert active + p.placed == active;
    decisions := [];
    var resTime: Option<Time> := None;
    for i := 0 to |queue|
      invariant Reached(s, queue, i, p, decisions) && resTime == p.res
      invariant Shows(order, Fleet(nodes), active + p.placed)
    {
      ghost var before := p;
      var decided;
      decided, resTime, p := Turn(queue[i], order, resTime, now, nodes, active, policy, s, p);
      ReachedNext(s, queue, i, before, p, decisions, decided);
      decisions := decisions + decided;
    }
    assert queue[..|queue|] == queue;
  }

  /**
   * The pass as the source runs it, over free views it debits in place. Its result is the
   * specification's, so it depends neither on map iteration nor on the order among equal ends.
   */
  method Plan(now: Time, nodes: seq<Node>, active: seq<Job>, pending: seq<Job>, policy: Policy)
    returns (decisions: seq<Decision>)
    requires Readable(nodes, active)
    ensures decisions == Decided(Placed(Snapshot(now, nodes, active, policy), pending))
    ensures var placed := Placed(Snapshot(now, nodes, active, policy), pending);
            && |decisions| == |placed|
            && forall i | 0 <= i < |placed| ::
                 && decisions[i].jobId == placed[i].id && decisions[i].nodeId == placed[i].nodeId
                 && decisions[i].nodeName == placed[i].nodeName && decisions[i].devices == placed[i].devices
  {
    hide Placed;
    var frees := BuildFree(nodes, active);
    var order := OrderByName(frees, nodes, active);
    decisions := RunTurns(Ranked(pending, now, policy.ageWeight), order, now, nodes, active, policy);
    PlacedIs(Snapshot(now, nodes, active, policy), pending);
  }

  lemma PlacedIs(s: Snapshot, pending: seq<Job>)
    ensures Placed(s, pending) == Run(s, Ranked(pending, s.now, s.policy.ageWeight)).placed
  {
  }

  lemma DecidedSnoc(placed: seq<Job>, j: Job)
    ensures Decided(placed + [j]) == Decided(placed) + [Decision(j.id, j.nodeId, j.nodeName, j.devices)]
  {
  }
}

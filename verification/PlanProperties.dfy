/** What every pass guarantees about its placements, whatever it read. */
module PlanProperties {
  import opened Types
  import opened Resources
  import opened FreeViews
  import opened Reservations
  import opened Orders
  import opened Planning

  // --- Where an offer comes from ---

  ghost predicate FromInventory(k: AllocDevice, n: Node, occ: seq<Job>, g: GpuType) {
    && (exists d :: d in n.devices && Key(d) == k && MatchName(d.name, g))
    && k !in Taken(occ, n.id)
  }

  lemma {:induction false} WithoutMembers(devs: seq<Device>, taken: set<AllocDevice>)
    ensures forall d :: d in Without(devs, taken) <==> d in devs && Key(d) !in taken
  {
    if devs != [] {
      WithoutMembers(devs[..|devs| - 1], taken);
      assert devs == devs[..|devs| - 1] + [devs[|devs| - 1]];
    }
  }

  lemma {:induction false} WithoutDistinct(devs: seq<Device>, taken: set<AllocDevice>)
    requires DistinctKeys(devs)
    ensures DistinctKeys(Without(devs, taken))
  {
    if devs != [] {
      var init, last := devs[..|devs| - 1], devs[|devs| - 1];
      WithoutDistinct(init, taken);
      WithoutMembers(init, taken);
      var w := Without(init, taken);
      forall i | 0 <= i < |w| ensures Key(w[i]) != Key(last) {
        assert w[i] in init;
        var k :| 0 <= k < |init| && init[k] == w[i];
      }
    }
  }

  lemma {:induction false} MatchingMembers(devs: seq<Device>, g: GpuType)
    ensures forall d :: d in Matching(devs, g) <==> d in devs && MatchName(d.name, g)
  {
    if devs != [] {
      MatchingMembers(devs[..|devs| - 1], g);
      assert devs == devs[..|devs| - 1] + [devs[|devs| - 1]];
    }
  }

  lemma {:induction false} MatchingDistinct(devs: seq<Device>, g: GpuType)
    requires DistinctKeys(devs)
    ensures DistinctKeys(Matching(devs, g))
  {
    if devs != [] {
      var init, last := devs[..|devs| - 1], devs[|devs| - 1];
      MatchingDistinct(init, g);
      MatchingMembers(init, g);
      var m := Matching(init, g);
      forall i | 0 <= i < |m| ensures Key(m[i]) != Key(last) {
        assert m[i] in init;
        var k :| 0 <= k < |init| && init[k] == m[i];
      }
    }
  }

  /** A placement that respects the partition, the capacity left, and every claim already made on the node. */
  ghost predicate Sound(n: Node, occ: seq<Job>, j: Job) {
    && j.nodeId == n.id && j.nodeName == n.name && n.state.Up?
    && (j.partition == "" || j.partition == n.partition)
    && j.reqCpus <= SatSub(n.cpus, Load(occ, n, Cpu, Always))
    && j.reqMem <= SatSub(n.mem, Load(occ, n, Mem, Always))
    && |j.devices| == j.reqGpus
    && (forall k | k in j.devices :: FromInventory(k, n, occ, j.gpuType))
    && (DistinctKeys(n.devices) ==> Distinct(j.devices))
  }

  lemma OfferIsSound(job: Job, n: Node, occ: seq<Job>, now: Time)
    requires n.state.Up? && Offer(job, FreeOf(n, occ)).Some?
    ensures Sound(n, occ, Place(job, n, Offer(job, FreeOf(n, occ)).value, now))
  {
    var free := Without(n.devices, Taken(occ, n.id));
    var m := Matching(free, job.gpuType);
    var keys := Offer(job, FreeOf(n, occ)).value;
    WithoutMembers(n.devices, Taken(occ, n.id));
    MatchingMembers(free, job.gpuType);
    forall k | k in keys ensures FromInventory(k, n, occ, job.gpuType) {
      var i :| 0 <= i < |keys| && keys[i] == k;
      assert m[i] in m && Key(m[i]) == k;
    }
    if DistinctKeys(n.devices) {
      WithoutDistinct(n.devices, Taken(occ, n.id));
      MatchingDistinct(free, job.gpuType);
    }
  }

  ghost predicate SoundSomewhere(s: Snapshot, occ: seq<Job>, j: Job) {
    exists n :: n in s.nodes && Sound(n, occ, j)
  }

  lemma ChoiceIsSound(s: Snapshot, occ: seq<Job>, job: Job)
    requires UniqueNodes(s.nodes) && Choice(s, occ, job).Some?
    ensures SoundSomewhere(s, occ, Choice(s, occ, job).value)
  {
    var fleet := Fleet(s.nodes);
    FleetSorted(s.nodes);
    var i := FirstFit(job, Frees(fleet, occ)).value;
    assert fleet[i] in fleet;
    OfferIsSound(job, fleet[i], occ, s.now);
  }

  /** Every placement is sound beside the active jobs and the placements before it. */
  ghost predicate AllSound(s: Snapshot, placed: seq<Job>) {
    forall i | 0 <= i < |placed| :: SoundSomewhere(s, s.active + placed[..i], placed[i])
  }

  lemma {:induction false} PassIsSound(s: Snapshot, queue: seq<Job>)
    requires UniqueNodes(s.nodes)
    ensures AllSound(s, Run(s, queue).placed)
  {
    if queue != [] {
      var init, job := queue[..|queue| - 1], queue[|queue| - 1];
      PassIsSound(s, init);
      var before, after := Run(s, init).placed, Run(s, queue).placed;
      if after != before {
        ChoiceIsSound(s, s.active + before, job);
        forall i | 0 <= i < |after| ensures SoundSomewhere(s, s.active + after[..i], after[i]) {
          assert after[..i] == before[..i];
        }
      }
    }
  }

  /** A pass places jobs of its queue, and changes nothing of what they asked for. */
  lemma {:induction false} PlacedFromQueue(s: Snapshot, queue: seq<Job>, p: Job) returns (q: Job)
    requires p in Run(s, queue).placed
    ensures q in queue && SameRequest(q, p)
  {
    var init, job := queue[..|queue| - 1], queue[|queue| - 1];
    if p in Run(s, init).placed {
      q := PlacedFromQueue(s, init, p);
    } else {
      q := job;
    }
  }

  /** Devices go to one job only: not to two placements of a pass, nor to one and an active job. */
  lemma DevicesAreExclusive(s: Snapshot, placed: seq<Job>, i: nat)
    requires AllSound(s, placed) && i < |placed|
    ensures forall j, k | j in s.active && j.nodeId == placed[i].nodeId && k in j.devices :: k !in placed[i].devices
    ensures forall h, k | 0 <= h < i && placed[h].nodeId == placed[i].nodeId && k in placed[h].devices ::
              k !in placed[i].devices
  {
    var occ := s.active + placed[..i];
    var n :| n in s.nodes && Sound(n, occ, placed[i]);
    forall j, k | j in s.active && j.nodeId == placed[i].nodeId && k in j.devices ensures k !in placed[i].devices {
      assert j in occ && k in Taken(occ, n.id);
    }
    forall h, k | 0 <= h < i && placed[h].nodeId == placed[i].nodeId && k in placed[h].devices
      ensures k !in placed[i].devices
    {
      assert placed[h] in placed[..i];
      assert placed[h] in occ && k in Taken(occ, n.id);
    }
  }

  /** One sound placement keeps the total within what the active jobs leave. */
  lemma CapacityStep(m: Node, n: Node, active: seq<Job>, before: seq<Job>, j: Job, r: Res)
    requires !r.Match? && Sound(m, active + before, j) && (m.id == n.id ==> m == n)
    requires Load(before, n, r, Always) <= SatSub(Cap(n, r), Load(active, n, r, Always))
    ensures Load(before + [j], n, r, Always) <= SatSub(Cap(n, r), Load(active, n, r, Always))
  {
    LoadSnoc(before, j, n, r, Always);
    LoadConcat(active, before, n, r, Always);
  }

  lemma AllSoundInit(s: Snapshot, init: seq<Job>, j: Job)
    requires AllSound(s, init + [j])
    ensures AllSound(s, init) && SoundSomewhere(s, s.active + init, j)
  {
    var placed := init + [j];
    assert placed[..|init|] == init;
    forall i | 0 <= i < |init| ensures SoundSomewhere(s, s.active + init[..i], init[i]) {
      assert init[..i] == placed[..i] && init[i] == placed[i];
    }
  }

  lemma LastIsSound(s: Snapshot, placed: seq<Job>, n: Node) returns (m: Node)
    requires UniqueNodes(s.nodes) && n in s.nodes && AllSound(s, placed) && placed != []
    ensures AllSound(s, placed[..|placed| - 1])
    ensures Sound(m, s.active + placed[..|placed| - 1], placed[|placed| - 1]) && (m.id == n.id ==> m == n)
    ensures s.active + placed == s.active + placed[..|placed| - 1] + [placed[|placed| - 1]]
  {
    hide Sound;
    var init, j := placed[..|placed| - 1], placed[|placed| - 1];
    assert placed == init + [j];
    AllSoundInit(s, init, j);
    m :| m in s.nodes && Sound(m, s.active + init, j);
    UniqueNames(s.nodes, m, n);
  }

  /** The requests placed on a node never exceed what the active jobs leave of its CPUs or memory. */
  lemma {:induction false} CapacityBound(s: Snapshot, placed: seq<Job>, n: Node, r: Res)
    requires UniqueNodes(s.nodes) && n in s.nodes && !r.Match? && AllSound(s, placed)
    ensures Load(placed, n, r, Always) <= SatSub(Cap(n, r), Load(s.active, n, r, Always))
  {
    hide Sound, Share;
    if placed != [] {
      var m := LastIsSound(s, placed, n);
      CapacityBound(s, placed[..|placed| - 1], n, r);
      CapacityStep(m, n, s.active, placed[..|placed| - 1], placed[|placed| - 1], r);
      assert placed == placed[..|placed| - 1] + [placed[|placed| - 1]];
    }
  }

  /**
   * The sweep's test for starting at once agrees with placement: with well-formed claims the counts
   * fit exactly when the node makes an offer.
   */
  lemma FitsIffOffered(job: Job, n: Node, occ: seq<Job>)
    requires WellClaimed(occ, n) && Worthwhile(job, n)
    ensures (forall r | Relevant(job, r) :: Need(job, r) <= Base(n, occ, r)) <==> Offer(job, FreeOf(n, occ)).Some?
  {
    CountingAgreesWithPicking(occ, n, job.gpuType);
    RelevantNeeds(job);
  }

  lemma ClaimStep(m: Node, n: Node, occ: seq<Job>, j: Job, all: seq<Job>)
    requires Sound(m, occ, j) && (m.id == n.id ==> m == n) && WellClaimed(occ, n) && all == occ + [j]
    ensures WellClaimed(all, n)
  {
    if m.id == n.id {
      forall k | k in j.devices ensures InInventory(k, n.devices) {
        assert FromInventory(k, n, occ, j.gpuType);
        var d :| d in n.devices && Key(d) == k;
        var i :| 0 <= i < |n.devices| && n.devices[i] == d;
      }
      forall i, k | 0 <= i < |occ| && occ[i].nodeId == n.id && k in occ[i].devices ensures k !in j.devices {
        assert occ[i] in occ && k in Taken(occ, n.id);
      }
    }
    forall i, k | 0 <= i < k < |all| && all[i].nodeId == n.id && all[k].nodeId == n.id
      ensures forall d | d in all[i].devices :: d !in all[k].devices
    {
      assert all[i] == occ[i] && (k < |occ| ==> all[k] == occ[k]) && (k == |occ| ==> all[k] == j);
    }
    forall x | x in all && x.nodeId == n.id
      ensures Distinct(x.devices) && forall d | d in x.devices :: InInventory(d, n.devices)
    {
      assert x in occ || x == j;
    }
  }

  /** A pass keeps claims well-formed: distinct devices of the inventory, disjoint from job to job. */
  lemma {:induction false} ClaimsStayWellFormed(s: Snapshot, placed: seq<Job>, n: Node)
    requires UniqueNodes(s.nodes) && n in s.nodes && AllSound(s, placed) && WellClaimed(s.active, n)
    ensures WellClaimed(s.active + placed, n)
  {
    if placed == [] {
      assert s.active + placed == s.active;
    } else {
      var m := LastIsSound(s, placed, n);
      ClaimsStayWellFormed(s, placed[..|placed| - 1], n);
      ClaimStep(m, n, s.active + placed[..|placed| - 1], placed[|placed| - 1], s.active + placed);
    }
  }

  // --- The same in the fields of jobs, nodes and devices ---

  /** Where a job goes: the first UP node by name that makes it an offer, with what that node offers. */
  lemma ChoiceIs(s: Snapshot, occ: seq<Job>, job: Job)
    requires UniqueNodes(s.nodes)
    ensures Choice(s, occ, job).None? <==>
            forall n | n in s.nodes && n.state.Up? :: Offer(job, FreeOf(n, occ)).None?
    ensures Choice(s, occ, job).Some? ==>
              exists n :: n in s.nodes && n.state.Up? && Offer(job, FreeOf(n, occ)).Some?
                && Choice(s, occ, job).value == job.(state := Assigned, nodeId := n.id, nodeName := n.name,
                     devices := Offer(job, FreeOf(n, occ)).value, startAt := Some(s.now))
                && forall m | m in s.nodes && m.state.Up? && StrLt(m.name, n.name) :: Offer(job, FreeOf(m, occ)).None?
  {
    hide FreeOf, Offer, Fleet, StrLt;
    var fleet := Fleet(s.nodes);
    var views := Frees(fleet, occ);
    FleetSorted(s.nodes);
    forall n | n in s.nodes && n.state.Up? ensures FreeOf(n, occ) in views {
      var i :| 0 <= i < |fleet| && fleet[i] == n;
      assert views[i] == FreeOf(n, occ);
    }
    if Choice(s, occ, job).Some? {
      var at := FirstFit(job, views).value;
      var n := fleet[at];
      assert n in fleet;
      forall m | m in s.nodes && m.state.Up? && StrLt(m.name, n.name) ensures Offer(job, FreeOf(m, occ)).None? {
        var k :| 0 <= k < |fleet| && fleet[k] == m;
        EarlierByName(fleet, k, at);
        assert views[k] == FreeOf(m, occ);
      }
    }
  }

  lemma EarlierByName(fleet: seq<Node>, k: nat, at: nat)
    requires NameSorted(fleet) && k < |fleet| && at < |fleet| && StrLt(fleet[k].name, fleet[at].name)
    ensures k < at
  {
    hide StrLt;
    StrLtTotal(fleet[k].name, fleet[at].name);
  }

  /** What a device of a placement is: one of the node's inventory that the constraint accepts. */
  lemma DeviceIs(n: Node, occ: seq<Job>, j: Job, k: AllocDevice)
    requires Sound(n, occ, j) && k in j.devices
    ensures exists d :: d in n.devices && k == AllocDevice(d.kind, d.index)
              && (j.gpuType.Any? || (d.name != "" && d.name in j.gpuType.names))
    ensures forall o | o in occ && o.nodeId == n.id :: k !in o.devices
  {
    assert FromInventory(k, n, occ, j.gpuType);
    var d :| d in n.devices && Key(d) == k && MatchName(d.name, j.gpuType);
    forall o | o in occ && o.nodeId == n.id ensures k !in o.devices {
      TakenIs(occ, n.id, k);
    }
  }

  /**
   * What a pass places, field by field: on an UP node of the job's partition that is large enough, with as
   * many devices as asked for, each of the inventory, accepted by the constraint and held by nobody else.
   */
  lemma PlacementIs(s: Snapshot, queue: seq<Job>, i: nat) returns (n: Node)
    requires UniqueNodes(s.nodes) && i < |Run(s, queue).placed|
    ensures var p := Run(s, queue).placed[i];
            && n in s.nodes && n.state.Up? && p.nodeId == n.id && p.nodeName == n.name
            && (p.partition == "" || p.partition == n.partition)
            && p.reqCpus <= n.cpus && p.reqMem <= n.mem && |p.devices| == p.reqGpus
            && (forall k | k in p.devices ::
                  && (exists d :: d in n.devices && k == AllocDevice(d.kind, d.index)
                        && (p.gpuType.Any? || (d.name != "" && d.name in p.gpuType.names)))
                  && (forall o | o in s.active + Run(s, queue).placed[..i] && o.nodeId == n.id :: k !in o.devices))
  {
    var placed := Run(s, queue).placed;
    PassIsSound(s, queue);
    hide Run, Sound;
    assert SoundSomewhere(s, s.active + placed[..i], placed[i]);
    n :| n in s.nodes && Sound(n, s.active + placed[..i], placed[i]);
    SoundIs(n, s.active + placed[..i], placed[i]);
    forall k | k in placed[i].devices {
      DeviceIs(n, s.active + placed[..i], placed[i], k);
    }
  }

  lemma SoundIs(n: Node, occ: seq<Job>, p: Job)
    requires Sound(n, occ, p)
    ensures n.state.Up? && p.nodeId == n.id && p.nodeName == n.name
    ensures (p.partition == "" || p.partition == n.partition) && |p.devices| == p.reqGpus
    ensures p.reqCpus <= n.cpus && p.reqMem <= n.mem
  {
  }

  /** No two placements of a pass are for the same job. */
  lemma {:induction false} PlacedOnce(s: Snapshot, queue: seq<Job>)
    requires forall i, k | 0 <= i < k < |queue| :: queue[i].id != queue[k].id
    ensures var placed := Run(s, queue).placed; forall i, k | 0 <= i < k < |placed| :: placed[i].id != placed[k].id
  {
    if queue != [] {
      var init, job := queue[..|queue| - 1], queue[|queue| - 1];
      PlacedOnce(s, init);
      var before, after := Run(s, init).placed, Run(s, queue).placed;
      VisitAddsAtMostOne(s, Run(s, init), job);
      hide Run, Visit;
      assert queue == init + [job];
      RunSnoc(s, init, job);
      forall i | 0 <= i < |before| ensures before[i].id != job.id {
        var q := PlacedFromQueue(s, init, before[i]);
      }
    }
  }

  lemma VisitAddsAtMostOne(s: Snapshot, p: Pass, job: Job)
    ensures Visit(s, p, job).placed == p.placed
            || (Visit(s, p, job).placed == p.placed + [Visit(s, p, job).placed[|p.placed|]]
                && Visit(s, p, job).placed[|p.placed|].id == job.id)
  {
  }

  // --- Who is left undecided, and why ---

  /** The pass finds no room for the job at position `i` of the queue when it reaches it. */
  ghost predicate Blocked(s: Snapshot, queue: seq<Job>, i: nat)
    requires i < |queue|
  {
    Choice(s, s.active + Run(s, queue[..i]).placed, queue[i]).None?
  }

  ghost predicate HoldsBack(s: Snapshot, res: Option<Time>, job: Job) {
    s.policy.backfill && res.Some? && !BackfillAllowed(s.now, job, res.value)
  }

  lemma OfferShrinks(job: Job, n: Node, occ: seq<Job>, more: seq<Job>)
    requires Offer(job, FreeOf(n, occ)).None?
    ensures Offer(job, FreeOf(n, occ + more)).None?
  {
    LoadConcat(occ, more, n, Cpu, Always);
    LoadConcat(occ, more, n, Mem, Always);
    LeftShrinks(n.devices, Taken(occ, n.id), Taken(occ + more, n.id), job.gpuType);
  }

  lemma ChoiceShrinks(s: Snapshot, occ: seq<Job>, more: seq<Job>, job: Job)
    requires Choice(s, occ, job).None?
    ensures Choice(s, occ + more, job).None?
  {
    var fleet := Fleet(s.nodes);
    if i :| 0 <= i < |fleet| && Offer(job, Frees(fleet, occ + more)[i]).Some? {
      assert Frees(fleet, occ)[i] in Frees(fleet, occ);
      OfferShrinks(job, fleet[i], occ, more);
      assert false;
    }
  }

  /** A pass only ever appends to its placements, and keeps a reservation once it has one. */
  lemma {:induction false} RunGrows(s: Snapshot, queue: seq<Job>, i: nat)
    requires i <= |queue|
    ensures Run(s, queue[..i]).placed <= Run(s, queue).placed
    ensures Run(s, queue[..i]).res.Some? ==> Run(s, queue).res == Run(s, queue[..i]).res
  {
    hide Run, EarliestStart, Choice;
    if i == |queue| {
      assert queue[..i] == queue;
    } else {
      var init, last := queue[..|queue| - 1], queue[|queue| - 1];
      RunGrows(s, init, i);
      assert init[..i] == queue[..i] && queue == init + [last];
      RunSnoc(s, init, last);
    }
  }

  /** What became of the job at position `i`, judged by the placements before it, just after it and at the end. */
  ghost predicate Conserving(s: Snapshot, job: Job, before: Pass, after: Pass, end: Pass) {
    var choice := Choice(s, s.active + before.placed, job);
    || (choice.Some? && after.placed == before.placed + [choice.value] && after.placed <= end.placed)
    || (after.placed == before.placed && HoldsBack(s, before.res, job))
    || (after.placed == before.placed && Choice(s, s.active + end.placed, job).None?)
  }

  lemma VisitConserves(s: Snapshot, job: Job, before: Pass, end: Pass)
    requires Visit(s, before, job).placed <= end.placed
    ensures Conserving(s, job, before, Visit(s, before, job), end)
  {
    if Choice(s, s.active + before.placed, job).None? {
      var more := end.placed[|before.placed|..];
      assert s.active + end.placed == (s.active + before.placed) + more;
      ChoiceShrinks(s, s.active + before.placed, more, job);
    }
  }

  /**
   * Work conservation: a job the pass passes over fits nowhere even at the end, or a reservation
   * held when it was reached forbids it.
   */
  lemma WorkConservation(s: Snapshot, queue: seq<Job>, i: nat)
    requires i < |queue|
    ensures var job, before, after, end := queue[i], Run(s, queue[..i]), Run(s, queue[..i + 1]), Run(s, queue);
            var choice := Choice(s, s.active + before.placed, job);
            || (choice.Some? && after.placed == before.placed + [choice.value] && after.placed <= end.placed)
            || (after.placed == before.placed && s.policy.backfill && before.res.Some?
                && !(job.walltime > 0 && s.now + Seconds(job.walltime) <= before.res.value))
            || (after.placed == before.placed && Choice(s, s.active + end.placed, job).None?)
  {
    hide Run, Choice;
    assert queue[..i + 1] == queue[..i] + [queue[i]];
    RunSnoc(s, queue[..i], queue[i]);
    RunGrows(s, queue, i + 1);
    VisitConserves(s, queue[i], Run(s, queue[..i]), Run(s, queue));
  }

  ghost predicate Holdable(s: Snapshot, job: Job) {
    exists n :: n in s.nodes && Eligible(job, n)
  }

  /** The job at position `i` is the first blocked one that some node could ever hold. */
  ghost predicate FirstHoldable(s: Snapshot, queue: seq<Job>, i: nat)
    requires i < |queue|
  {
    && Blocked(s, queue, i) && Holdable(s, queue[i])
    && forall k | 0 <= k < i && Blocked(s, queue, k) :: !Holdable(s, queue[k])
  }

  lemma ReservedIffHoldable(s: Snapshot, job: Job)
    ensures EarliestStart(job, s.nodes, s.active, s.now).Some? <==> Holdable(s, job)
  {
    FoundIffEligible(job, s.nodes, s.active, s.now);
  }

  lemma BlockedInPrefix(s: Snapshot, queue: seq<Job>, job: Job)
    ensures forall i | 0 <= i < |queue| :: Blocked(s, queue + [job], i) <==> Blocked(s, queue, i)
  {
    forall i | 0 <= i < |queue| ensures Blocked(s, queue + [job], i) <==> Blocked(s, queue, i) {
      assert (queue + [job])[..i] == queue[..i];
    }
  }

  /**
   * The single reservation goes to the first blocked job that some node could ever hold; blocked
   * jobs that can never run do not take it.
   */
  lemma {:induction false} ReservationHolder(s: Snapshot, queue: seq<Job>)
    ensures var res := Run(s, queue).res;
            && (res.None? && s.policy.backfill ==>
                  forall i | 0 <= i < |queue| && Blocked(s, queue, i) :: !Holdable(s, queue[i]))
            && (res.Some? ==> s.policy.backfill && exists i | 0 <= i < |queue| ::
                  FirstHoldable(s, queue, i) && res == EarliestStart(queue[i], s.nodes, s.active, s.now))
  {
    hide EarliestStart, Choice, Holdable;
    if queue != [] {
      var init, job := queue[..|queue| - 1], queue[|queue| - 1];
      assert queue == init + [job];
      ReservationHolder(s, init);
      BlockedInPrefix(s, init, job);
      RunSnoc(s, init, job);
      ReservedIffHoldable(s, job);
      assert queue[..|init|] == init;
      if Run(s, init).res.Some? {
        var i :| 0 <= i < |init| && FirstHoldable(s, init, i)
          && Run(s, init).res == EarliestStart(init[i], s.nodes, s.active, s.now);
        assert FirstHoldable(s, queue, i);
      } else if Run(s, queue).res.Some? {
        assert FirstHoldable(s, queue, |init|);
      }
    }
  }
}

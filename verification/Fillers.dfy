/** When jobs placed under a reservation can delay the reserved job: the exact condition, and a pass that does. */
module Fillers {
  import opened Types
  import opened Resources
  import opened FreeViews
  import opened Reservations
  import opened Starts
  import opened Orders
  import opened Planning
  import opened Backfilling

  /** Fitting somewhere is being placed by a pass that has only the occupants still there. */
  lemma FitsIffChosen(s: Snapshot, b: Job, occ: seq<Job>, t: Time)
    requires UniqueNodes(s.nodes)
    ensures FitsSomewhereAt(b, s.nodes, occ, s.now, t) <==> Choice(s, StillThere(occ, s.now, t), b).Some?
  {
    var fleet, there := Fleet(s.nodes), StillThere(occ, s.now, t);
    var views := Frees(fleet, there);
    FleetSorted(s.nodes);
    if n :| n in s.nodes && Worthwhile(b, n) && FitsAt(b, n, occ, s.now, t) {
      var i :| 0 <= i < |fleet| && fleet[i] == n;
      assert views[i] in views;
    }
    if FirstFit(b, views).Some? {
      var n := fleet[FirstFit(b, views).value];
      assert n in fleet && Worthwhile(b, n) && FitsAt(b, n, occ, s.now, t);
    }
  }

  // --- Which limits are safe ---

  /** The job asks for something. */
  predicate Demanding(b: Job) {
    b.reqCpus > 0 || b.reqMem > 0 || b.reqGpus > 0
  }

  /** A job on all of `n` that ends at `limit`. */
  function Hog(n: Node, limit: Time): Job {
    Asking(n.cpus, n.mem).(nodeId := n.id, devices := Keys(n.devices), walltime := 1,
                           startAt := Some(limit - Seconds(1)))
  }

  function Hogs(ns: seq<Node>, limit: Time): seq<Job> {
    seq(|ns|, i requires 0 <= i < |ns| => Hog(ns[i], limit))
  }

  lemma HogsEndBy(ns: seq<Node>, now: Time, limit: Time)
    requires now <= limit
    ensures EndBy(now, Hogs(ns, limit), 0, limit)
    ensures forall j | j in Hogs(ns, limit) :: EstEnd(now, j) == limit
  {
  }

  lemma {:induction false} LoadOfMember(js: seq<Job>, j: Job, n: Node, r: Res, s: Span)
    requires j in js
    ensures Share(j, n, r, s) <= Load(js, n, r, s)
  {
    if j != js[|js| - 1] {
      LoadOfMember(js[..|js| - 1], j, n, r, s);
    }
  }

  lemma {:induction false} AllTaken(devs: seq<Device>, taken: set<AllocDevice>)
    requires forall d | d in devs :: Key(d) in taken
    ensures Without(devs, taken) == []
  {
    if devs != [] {
      AllTaken(devs[..|devs| - 1], taken);
    }
  }

  lemma NothingLeft(devs: seq<Device>, taken: set<AllocDevice>, g: GpuType)
    requires KeySet(Keys(devs)) <= taken
    ensures Left(devs, taken, g) == 0
  {
    forall d | d in devs ensures Key(d) in taken {
      var i :| 0 <= i < |devs| && devs[i] == d;
      assert Keys(devs)[i] == Key(d);
    }
    AllTaken(devs, taken);
  }

  /** Beside them nothing that asks for anything fits before the limit. */
  lemma HogsBlock(b: Job, ns: seq<Node>, n: Node, occ: seq<Job>, now: Time, limit: Time, t: Time)
    requires Demanding(b) && n in ns && Worthwhile(b, n) && now <= t < limit
    ensures !FitsAt(b, n, occ + Hogs(ns, limit), now, t)
  {
    var hogs, hog := Hogs(ns, limit), Hog(n, limit);
    var all := occ + hogs;
    HogsEndBy(ns, now, limit);
    var i :| 0 <= i < |ns| && ns[i] == n;
    assert hogs[i] == hog && hog in all && t < EstEnd(now, hog);
    LoadOfMember(all, hog, n, Cpu, Past(now, t));
    LoadOfMember(all, hog, n, Mem, Past(now, t));
    StillThereMembers(all, now, t);
    assert hog in StillThere(all, now, t);
    NothingLeft(n.devices, Taken(StillThere(all, now, t), n.id), b.gpuType);
    FitsIffFree(b, n, all, now, t);
    RelevantNeeds(b);
  }

  /** No occupants that end by `limit` change when `b` can start. */
  ghost predicate Safe(b: Job, ns: seq<Node>, occ: seq<Job>, now: Time, limit: Time) {
    forall later, t | EndBy(now, later, 0, limit) && now <= t ::
      FitsSomewhereAt(b, ns, occ, now, t) <==> FitsSomewhereAt(b, ns, occ + later, now, t)
  }

  /**
   * Placing whatever ends by a limit is safe for a job that asks for something if and only if the job
   * can start nowhere before the limit.
   */
  lemma LimitIsSafeIff(b: Job, ns: seq<Node>, occ: seq<Job>, now: Time, limit: Time)
    requires Demanding(b) && now <= limit
    ensures Safe(b, ns, occ, now, limit) <==> forall t | now <= t < limit :: !FitsSomewhereAt(b, ns, occ, now, t)
  {
    hide FitsAt, EndBy;
    if forall t | now <= t < limit :: !FitsSomewhereAt(b, ns, occ, now, t) {
      forall later, t | EndBy(now, later, 0, limit) && now <= t
        ensures FitsSomewhereAt(b, ns, occ, now, t) <==> FitsSomewhereAt(b, ns, occ + later, now, t)
      {
        EndersChangeNothing(b, ns, occ, later, now, limit, t);
      }
    } else {
      var t :| now <= t < limit && FitsSomewhereAt(b, ns, occ, now, t);
      HogsEndBy(ns, now, limit);
      forall n | n in ns && Worthwhile(b, n) ensures !FitsAt(b, n, occ + Hogs(ns, limit), now, t) {
        HogsBlock(b, ns, n, occ, now, limit, t);
      }
      assert !FitsSomewhereAt(b, ns, occ + Hogs(ns, limit), now, t);
    }
  }

  lemma EndersChangeNothing(b: Job, ns: seq<Node>, occ: seq<Job>, later: seq<Job>, now: Time, limit: Time, t: Time)
    requires EndBy(now, later, 0, limit) && now <= t
    requires t < limit ==> !FitsSomewhereAt(b, ns, occ, now, t)
    ensures FitsSomewhereAt(b, ns, occ, now, t) <==> FitsSomewhereAt(b, ns, occ + later, now, t)
  {
    hide FitsAt, EndBy;
    if n :| n in ns && Worthwhile(b, n) && FitsAt(b, n, occ + later, now, t) {
      FitsBesideFewer(b, n, occ, later, now, t);
    }
    if n :| n in ns && Worthwhile(b, n) && FitsAt(b, n, occ, now, t) {
      FitsOnceGone(b, n, occ, later, now, limit, t);
    }
  }

  /** A job that asks for nothing is never blocked where some node could hold it. */
  lemma BlockedIsDemanding(s: Snapshot, occ: seq<Job>, b: Job)
    requires UniqueNodes(s.nodes) && Choice(s, occ, b).None? && exists n :: n in s.nodes && Eligible(b, n)
    ensures Demanding(b)
  {
    var n :| n in s.nodes && Eligible(b, n);
    FleetSorted(s.nodes);
    var fleet := Fleet(s.nodes);
    var i :| 0 <= i < |fleet| && fleet[i] == n;
    assert Frees(fleet, occ)[i] in Frees(fleet, occ);
    assert Offer(b, FreeOf(n, occ)).None?;
  }

  /**
   * The reservation a pass holds is a safe limit, whatever is placed under it, if and only if the job
   * it is held for could not start before it beside the active jobs and the placements made first.
   */
  lemma ReservationIsSafeIff(s: Snapshot, queue: seq<Job>, i: nat)
    requires UniqueNodes(s.nodes) && i < |queue| && TakesReservation(s, queue, i)
    ensures Run(s, queue).res.Some?
    ensures var b, occ, res := queue[i], s.active + Run(s, queue[..i]).placed, Run(s, queue).res.value;
            Safe(b, s.nodes, occ, s.now, res) <==>
              forall t | s.now <= t < res :: !FitsSomewhereAt(b, s.nodes, occ, s.now, t)
  {
    hide Run, Choice, Eligible, FitsSomewhereAt, Safe, EndBy, TakesReservation;
    var b, occ := queue[i], s.active + Run(s, queue[..i]).placed;
    var later := AfterReservation(s, queue, i);
    FoundIffEligible(b, s.nodes, s.active, s.now);
    BlockedIsDemanding(s, occ, b);
    LimitIsSafeIff(b, s.nodes, occ, s.now, Run(s, queue).res.value);
  }

  // --- A pass that delays the job it reserves for ---

  /** The reservation is too late, and a job of 15 seconds waits behind. */
  const STALE := Snapshot(0, [PARTIAL], [ON0, ON1], Policy(true, 0.0))
  const FILLER := Asking(1, 0).(id := "f", walltime := 15)

  lemma {:induction false} EveryoneStays(js: seq<Job>, now: Time, t: Time)
    requires forall j | j in js :: t < EstEnd(now, j)
    ensures StillThere(js, now, t) == js
  {
    if js != [] {
      EveryoneStays(js[..|js| - 1], now, t);
    }
  }

  lemma WideFitsNowhere()
    ensures !FitsSomewhereAt(WIDE, [PARTIAL], [ON0, ON1], 0, 0)
  {
    hide FitsSomewhereAt, EarliestStart, Eligible, NotOvercommitted, DistinctKeys;
    ReservationTooLate();
  }

  lemma WideIsReserved()
    ensures EarliestStart(WIDE, [PARTIAL], [ON0, ON1], 0) == Some(Seconds(20))
  {
    hide FitsSomewhereAt, EarliestStart, Eligible, NotOvercommitted, DistinctKeys;
    ReservationTooLate();
  }

  lemma WideIsBlocked()
    ensures Choice(STALE, [ON0, ON1], WIDE).None?
  {
    hide FitsSomewhereAt, Choice, StillThere;
    WideFitsNowhere();
    FitsIffChosen(STALE, WIDE, [ON0, ON1], 0);
    EveryoneStays([ON0, ON1], 0, 0);
  }

  lemma FleetIsPartial()
    ensures Fleet([PARTIAL]) == [PARTIAL]
  {
    assert [PARTIAL][..0] == [];
  }

  lemma FillerOffer()
    ensures Offer(FILLER, FreeOf(PARTIAL, [ON0, ON1])) == Some([])
  {
    LoadOfTwo(ON0, ON1, PARTIAL, Cpu, Always);
    var m := Matching(FreeOf(PARTIAL, [ON0, ON1]).devices, Like({}));
    assert m[..0] == [] && Keys(m[..0]) == [];
  }

  lemma FillerIsChosen()
    ensures Choice(STALE, [ON0, ON1], FILLER) == Some(Place(FILLER, PARTIAL, [], 0))
  {
    hide FreeOf, Offer, Fleet;
    FleetIsPartial();
    FillerOffer();
    var v := FreeOf(PARTIAL, [ON0, ON1]);
    assert Frees([PARTIAL], [ON0, ON1]) == [v];
    assert v in [v];
    ChoiceIs(STALE, [ON0, ON1], FILLER, 0, []);
  }

  lemma FillerIsPlaced()
    ensures TakesReservation(STALE, [WIDE, FILLER], 0)
    ensures Run(STALE, []).placed == [] && Run(STALE, [WIDE, FILLER]).placed == [Place(FILLER, PARTIAL, [], 0)]
  {
    hide Choice, EarliestStart;
    var queue := [WIDE, FILLER];
    assert queue[..0] == [] && queue[..1] == [] + [WIDE] && queue == [WIDE] + [FILLER];
    assert STALE.active + [] == [ON0, ON1];
    RunSnoc(STALE, [], WIDE);
    RunSnoc(STALE, [WIDE], FILLER);
    WideIsBlocked();
    FillerIsChosen();
    WideIsReserved();
    assert [] + [WIDE] == [WIDE];
  }

  lemma FillerTakesCpu(t: Time)
    requires 0 <= t < Seconds(15)
    ensures Free(PARTIAL, [ON0, ON1] + [Place(FILLER, PARTIAL, [], 0)], Cpu, 0, t) <= 2
  {
    var f, occ := Place(FILLER, PARTIAL, [], 0), [ON0, ON1];
    LoadSnoc(occ, f, PARTIAL, Cpu, Past(0, t));
    LoadOfTwo(ON0, ON1, PARTIAL, Cpu, Past(0, t));
    assert Load(occ + [f], PARTIAL, Cpu, Past(0, t)) >= 2;
  }

  lemma FillerEnds()
    ensures EndBy(0, [Place(FILLER, PARTIAL, [], 0)], 0, Seconds(15))
  {
  }

  lemma FillerDelays(t: Time)
    requires 0 <= t
    ensures var f := Place(FILLER, PARTIAL, [], 0);
            FitsSomewhereAt(WIDE, [PARTIAL], [ON0, ON1] + [f], 0, t) <==> Seconds(15) <= t
  {
    hide FitsAt, Free, EndBy, Load;
    var f, occ := Place(FILLER, PARTIAL, [], 0), [ON0, ON1];
    if Seconds(15) <= t {
      ReservationTooLate();
      FillerEnds();
      EndersChangeNothing(WIDE, [PARTIAL], occ, [f], 0, Seconds(15), t);
    } else {
      FillerTakesCpu(t);
      FitsIffFree(WIDE, PARTIAL, occ + [f], 0, t);
      assert Relevant(WIDE, Cpu) && Need(WIDE, Cpu) == 3;
    }
  }

  /**
   * The pass reserves for the wide job and backfills the filler under that reservation; the wide job,
   * which fitted from the tenth second on, now fits only from the fifteenth.
   */
  lemma BackfillDelays()
    ensures TakesReservation(STALE, [WIDE, FILLER], 0)
    ensures forall t | 0 <= t ::
              && (FitsSomewhereAt(WIDE, [PARTIAL], STALE.active + Run(STALE, []).placed, 0, t) <==> Seconds(10) <= t)
              && (FitsSomewhereAt(WIDE, [PARTIAL], STALE.active + Run(STALE, [WIDE, FILLER]).placed, 0, t)
                  <==> Seconds(15) <= t)
  {
    hide FitsSomewhereAt, Run, TakesReservation;
    FillerIsPlaced();
    ReservationTooLate();
    assert STALE.active + [] == [ON0, ON1];
    forall t | 0 <= t
      ensures FitsSomewhereAt(WIDE, [PARTIAL], STALE.active + Run(STALE, [WIDE, FILLER]).placed, 0, t)
              <==> Seconds(15) <= t
    {
      FillerDelays(t);
    }
  }
}

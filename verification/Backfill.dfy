/** The promise of EASY backfill: within a pass, and over any run of passes. */
module Backfilling {
  import opened Types
  import opened Resources
  import opened FreeViews
  import opened Reservations
  import opened Starts
  import opened Orders
  import opened Planning
  import opened PlanProperties

  // --- Within one pass ---

  /** From `from` on, every placement has a walltime and is estimated to end by `limit`. */
  ghost predicate EndBy(now: Time, placed: seq<Job>, from: nat, limit: Time) {
    forall i | from <= i < |placed| :: placed[i].walltime > 0 && EstEnd(now, placed[i]) <= limit
  }

  /** A turn taken while a reservation is held keeps it, and adds at most one job that ends by it. */
  lemma TurnUnderReservation(s: Snapshot, p: Pass, job: Job)
    requires s.policy.backfill && p.res.Some? && s.now <= p.res.value
    ensures var p' := Visit(s, p, job);
            p'.res == p.res && p.placed <= p'.placed && EndBy(s.now, p'.placed, |p.placed|, p.res.value)
  {
  }

  lemma EndByExtends(now: Time, before: seq<Job>, after: seq<Job>, from: nat, limit: Time)
    requires from <= |before| && before <= after
    requires EndBy(now, before, from, limit) && EndBy(now, after, |before|, limit)
    ensures EndBy(now, after, from, limit)
  {
    hide EstEnd;
    forall i | from <= i < |after| ensures after[i].walltime > 0 && EstEnd(now, after[i]) <= limit {
      assert i < |before| ==> after[i] == before[i];
    }
  }

  /** Once a reservation is held, only jobs that end by it are placed. */
  lemma {:induction false} BackfilledEndInTime(s: Snapshot, queue: seq<Job>, i: nat)
    requires i <= |queue| && s.policy.backfill
    requires Run(s, queue[..i]).res.Some? && s.now <= Run(s, queue[..i]).res.value
    ensures Run(s, queue).res == Run(s, queue[..i]).res
    ensures Run(s, queue[..i]).placed <= Run(s, queue).placed
    ensures EndBy(s.now, Run(s, queue).placed, |Run(s, queue[..i]).placed|, Run(s, queue[..i]).res.value)
  {
    hide Run, Visit, EndBy;
    if i == |queue| {
      assert queue[..i] == queue;
      NoneYet(s.now, Run(s, queue).placed, Run(s, queue).res.value);
    } else {
      var init, job := queue[..|queue| - 1], queue[|queue| - 1];
      assert init[..i] == queue[..i] && queue == init + [job];
      BackfilledEndInTime(s, init, i);
      RunSnoc(s, init, job);
      var from, p := Run(s, queue[..i]), Run(s, init);
      TurnUnderReservation(s, p, job);
      EndByExtends(s.now, p.placed, Visit(s, p, job).placed, |from.placed|, from.res.value);
    }
  }

  lemma NoneYet(now: Time, placed: seq<Job>, limit: Time)
    ensures EndBy(now, placed, |placed|, limit)
  {
  }

  lemma {:induction false} NoneLeft(now: Time, js: seq<Job>, n: Node, r: Res, t: Time)
    requires EndBy(now, js, 0, t)
    ensures Load(js, n, r, Past(now, t)) == 0 && Load(js, n, r, Staying(now, t)) == 0
  {
    if js != [] {
      NoneLeft(now, js[..|js| - 1], n, r, t);
    }
  }

  /** Where the job fits beside more occupants it fits beside fewer. */
  lemma FitsBesideFewer(b: Job, n: Node, occ: seq<Job>, more: seq<Job>, now: Time, t: Time)
    requires FitsAt(b, n, occ + more, now, t)
    ensures FitsAt(b, n, occ, now, t)
  {
    hide FreeOf, Offer;
    StillThereConcat(occ, more, now, t);
    if !FitsAt(b, n, occ, now, t) {
      OfferShrinks(b, n, StillThere(occ, now, t), StillThere(more, now, t));
    }
  }

  lemma {:induction false} NobodyStays(now: Time, js: seq<Job>, t: Time)
    requires EndBy(now, js, 0, t)
    ensures StillThere(js, now, t) == []
  {
    if js != [] {
      NobodyStays(now, js[..|js| - 1], t);
    }
  }

  /** Jobs that end by an instant are not in the way from then on. */
  lemma FitsOnceGone(b: Job, n: Node, occ: seq<Job>, later: seq<Job>, now: Time, limit: Time, t: Time)
    requires EndBy(now, later, 0, limit) && limit <= t
    ensures FitsAt(b, n, occ, now, t) <==> FitsAt(b, n, occ + later, now, t)
  {
    NobodyStays(now, later, t);
    StillThereConcat(occ, later, now, t);
    assert StillThere(occ, now, t) + [] == StillThere(occ, now, t);
  }

  /**
   * Adding occupants that end by the reservation changes nothing about when the job can start: before
   * it the job fits nowhere anyway, because the sweep knows of whatever fits.
   */
  lemma LateStartUnchanged(b: Job, s: Snapshot, earlier: seq<Job>, later: seq<Job>, t: Time)
    requires s.now <= t && Known(s, b)
    requires var res := EarliestStart(b, s.nodes, s.active, s.now); res.Some? && EndBy(s.now, later, 0, res.value)
    ensures FitsSomewhereAt(b, s.nodes, s.active + earlier, s.now, t)
            <==> FitsSomewhereAt(b, s.nodes, s.active + earlier + later, s.now, t)
  {
    hide FitsAt, EndBy, Ready, WellClaimed;
    var res := EarliestStart(b, s.nodes, s.active, s.now).value;
    var occ := s.active + earlier;
    if n :| n in s.nodes && Worthwhile(b, n) && FitsAt(b, n, occ, s.now, t) {
      FitsBesideFewer(b, n, s.active, earlier, s.now, t);
      FitsOnlyIfEligible(b, n, s.active, s.now, t);
      FittingIsReady(b, n, s.active, s.now, t);
      assert ReadySomewhere(b, s.nodes, s.active, s.now, t);
      FitsOnceGone(b, n, occ, later, s.now, res, t);
    }
    if n :| n in s.nodes && Worthwhile(b, n) && FitsAt(b, n, occ + later, s.now, t) {
      FitsBesideFewer(b, n, occ, later, s.now, t);
    }
  }

  /**
   * On the nodes that could hold `b`, the active jobs expected to last claim distinct devices of the
   * inventory, and no inventory outgrows its counter.
   */
  ghost predicate Known(s: Snapshot, b: Job) {
    && (forall n | n in s.nodes :: |n.devices| < U32)
    && forall n | n in s.nodes && Eligible(b, n) :: WellClaimed(StillThere(s.active, s.now, s.now), n)
  }

  /** The job at position `i` takes the pass's reservation. */
  ghost predicate TakesReservation(s: Snapshot, queue: seq<Job>, i: nat)
    requires i < |queue|
  {
    Run(s, queue[..i]).res.None? && Run(s, queue[..i + 1]).res.Some?
  }

  lemma ReservationTurn(s: Snapshot, p: Pass, job: Job)
    requires p.res.None? && Visit(s, p, job).res.Some?
    ensures s.policy.backfill && Choice(s, s.active + p.placed, job).None?
    ensures Visit(s, p, job) == p.(res := EarliestStart(job, s.nodes, s.active, s.now))
  {
  }

  /** It is blocked, and whatever is placed afterwards ends by its earliest start beside the active jobs. */
  lemma AfterReservation(s: Snapshot, queue: seq<Job>, i: nat) returns (later: seq<Job>)
    requires i < |queue| && TakesReservation(s, queue, i)
    ensures s.policy.backfill && Blocked(s, queue, i)
    ensures Run(s, queue).placed == Run(s, queue[..i]).placed + later
    ensures var res := EarliestStart(queue[i], s.nodes, s.active, s.now);
            Run(s, queue).res == res && res.Some? && EndBy(s.now, later, 0, res.value)
  {
    hide Run, EarliestStart, Choice;
    var before, after := Run(s, queue[..i]), Run(s, queue[..i + 1]);
    assert queue[..i + 1] == queue[..i] + [queue[i]];
    RunSnoc(s, queue[..i], queue[i]);
    ReservationTurn(s, before, queue[i]);
    BackfilledEndInTime(s, queue, i + 1);
    later := Run(s, queue).placed[|before.placed|..];
  }

  /**
   * Backfill never delays the reserved job, given claims the sweep can account for. If the job at
   * position `i` takes the reservation, then at every instant placement accepts it somewhere beside the
   * active jobs and the placements made before it exactly when it does beside those and everything the
   * pass places after it.
   */
  lemma BackfillNeverDelays(s: Snapshot, queue: seq<Job>, i: nat, t: Time)
    requires i < |queue| && s.now <= t && TakesReservation(s, queue, i) && Known(s, queue[i])
    ensures FitsSomewhereAt(queue[i], s.nodes, s.active + Run(s, queue[..i]).placed, s.now, t)
            <==> FitsSomewhereAt(queue[i], s.nodes, s.active + Run(s, queue).placed, s.now, t)
  {
    hide Run, TakesReservation, FitsSomewhereAt, Known, EarliestStart, EndBy, Blocked;
    var later := AfterReservation(s, queue, i);
    var before := Run(s, queue[..i]).placed;
    assert s.active + Run(s, queue).placed == s.active + before + later;
    LateStartUnchanged(queue[i], s, before, later, t);
  }

  // --- Over a run of passes ---

  /**
   * What stays the same from pass to pass: the nodes, the policy, and how long after the pass that placed
   * it a job may start.
   */
  datatype Site = Site(nodes: seq<Node>, policy: Policy, lag: Time)

  /** What one pass reads besides. */
  datatype Round = Round(now: Time, active: seq<Job>, pending: seq<Job>)

  function At(r: Round, c: Site): Snapshot {
    Snapshot(r.now, c.nodes, r.active, c.policy)
  }

  ghost function PlacedIn(r: Round, c: Site): seq<Job> {
    Placed(At(r, c), r.pending)
  }

  /**
   * Occupant `e` after the pass at `now` is still there, as `l`, at the pass at `later`: the same claim,
   * started, or still not started, no more than `lag` after that pass assumed, and not past its walltime.
   */
  ghost predicate Persists(e: Job, l: Job, now: Time, later: Time, lag: Time) {
    && l.nodeId == e.nodeId && l.devices == e.devices
    && l.reqCpus == e.reqCpus && l.reqMem == e.reqMem && l.walltime == e.walltime
    && (l.walltime > 0 ==>
          var from := if l.startAt.Some? then l.startAt.value else later;
          && from <= (if e.startAt.Some? then e.startAt.value else now) + lag
          && later < from + Seconds(l.walltime))
  }

  /** Every job in `after` is one of `before` that persists; jobs may end at any time and come in any order. */
  ghost predicate Survivors(after: seq<Job>, before: seq<Job>, now: Time, later: Time, lag: Time) {
    after == [] ||
    exists i :: 0 <= i < |before| && Persists(before[i], after[|after| - 1], now, later, lag)
                && Survivors(after[..|after| - 1], before[..i] + before[i + 1..], now, later, lag)
  }

  function Max(a: Time, b: Time): Time {
    if a < b then b else a
  }

  /** One occupant, counted at the later pass and as the earlier one counted it. */
  lemma PersistsCountsLess(e: Job, l: Job, n: Node, r: Res, now: Time, later: Time, lag: Time, t: Time)
    requires 0 <= lag && now <= later && now <= t && Persists(e, l, now, later, lag)
    ensures Share(l, n, r, Staying(later, Max(t + lag, later))) <= Share(e, n, r, Staying(now, t))
    ensures t + lag <= later ==> Share(l, n, r, Always) <= Share(e, n, r, Staying(now, t))
    ensures Share(l, n, r, Always) <= Share(e, n, r, Always)
    ensures Share(l, n, r, Unbounded) <= Share(e, n, r, Unbounded)
  {
  }

  /** What survives holds no more than its origins, in any two measures in which no single job does. */
  lemma {:induction false} SurvivorsHoldLess(
      after: seq<Job>, before: seq<Job>, n: Node, r: Res, now: Time, later: Time, lag: Time, s': Span, s: Span)
    requires Survivors(after, before, now, later, lag)
    requires forall e, l | Persists(e, l, now, later, lag) :: Share(l, n, r, s') <= Share(e, n, r, s)
    ensures Load(after, n, r, s') <= Load(before, n, r, s)
    decreases |after|
  {
    hide Persists, Share;
    if after != [] {
      var init, l := after[..|after| - 1], after[|after| - 1];
      var i :| 0 <= i < |before| && Persists(before[i], l, now, later, lag)
        && Survivors(init, before[..i] + before[i + 1..], now, later, lag);
      SurvivorsHoldLess(init, before[..i] + before[i + 1..], n, r, now, later, lag, s', s);
      LoadRemove(before, i, n, r, s);
    }
  }

  /** `b` is first in the order of the round. */
  ghost predicate Heads(r: Round, c: Site, b: Job) {
    var queue := Ranked(r.pending, r.now, c.policy.ageWeight);
    queue != [] && queue[0] == b
  }

  /** `b` is first and no node has room for it. */
  ghost predicate Waiting(r: Round, c: Site, b: Job) {
    Heads(r, c, b) && Choice(At(r, c), r.active, b).None?
  }

  /** The next round sees what is left of this one's active jobs and placements. */
  ghost predicate Follows(r: Round, r': Round, c: Site) {
    r.now <= r'.now && Survivors(r'.active, r.active + PlacedIn(r, c), r.now, r'.now, c.lag)
  }

  ghost function Reservation(r: Round, c: Site, b: Job): Option<Time> {
    EarliestStart(b, c.nodes, r.active, r.now)
  }

  /** A run of rounds in which `b` heads every queue and waits in all but the last. */
  ghost predicate Queueing(rounds: seq<Round>, c: Site, b: Job) {
    && (forall i | 0 <= i < |rounds| :: Heads(rounds[i], c, b))
    && (forall i | 0 <= i < |rounds| - 1 :: Waiting(rounds[i], c, b) && Follows(rounds[i], rounds[i + 1], c))
  }

  /** The inventories have distinct device keys, and no more devices than their counter can hold. */
  ghost predicate Inventoried(nodes: seq<Node>) {
    UniqueNodes(nodes) && forall n | n in nodes :: DistinctKeys(n.devices) && |n.devices| < U32
  }

  // --- Bounded wait: the head of the queue is placed when the bounded occupants are gone ---

  /** From `t` on `n` has room for `b` whatever the unbounded occupants do. */
  ghost predicate RoomFrom(b: Job, n: Node, occ: seq<Job>, now: Time, t: Time) {
    forall r | Relevant(b, r) :: Load(occ, n, r, Staying(now, t)) + Need(b, r) <= Cap(n, r)
  }

  /** The node could hold `b` beside its unbounded occupants. */
  ghost predicate RoomBesideUnbounded(b: Job, n: Node, occ: seq<Job>) {
    forall r | Relevant(b, r) :: Load(occ, n, r, Unbounded) + Need(b, r) <= Cap(n, r)
  }

  ghost predicate Hospitable(b: Job, nodes: seq<Node>, occ: seq<Job>) {
    exists n :: n in nodes && Eligible(b, n) && RoomBesideUnbounded(b, n, occ)
  }

  /** Unbounded occupants are all that can keep a node from ever having room. */
  lemma RoomComesIffBesideUnbounded(b: Job, n: Node, occ: seq<Job>, now: Time)
    ensures RoomBesideUnbounded(b, n, occ) <==> exists t :: now <= t && RoomFrom(b, n, occ, now, t)
  {
    var t := EveryoneEnds(occ, now);
    forall r ensures Load(occ, n, r, Staying(now, t)) <= Load(occ, n, r, Unbounded) {
      LoadShrinks(occ, n, r, Staying(now, t), Unbounded);
    }
    assert RoomBesideUnbounded(b, n, occ) ==> RoomFrom(b, n, occ, now, t);
    forall u, r ensures Load(occ, n, r, Unbounded) <= Load(occ, n, r, Staying(now, u)) {
      LoadShrinks(occ, n, r, Unbounded, Staying(now, u));
    }
  }

  /** A reservation is never later than the first instant of room. */
  lemma ReservationWithin(b: Job, nodes: seq<Node>, n: Node, occ: seq<Job>, now: Time, t: Time)
    requires n in nodes && Eligible(b, n) && now <= t && RoomFrom(b, n, occ, now, t)
    ensures var res := EarliestStart(b, nodes, occ, now); res.Some? && res.value <= t
  {
    forall r | Relevant(b, r) ensures Load(occ, n, r, Past(now, t)) + Need(b, r) <= Cap(n, r) {
      LoadShrinks(occ, n, r, Past(now, t), Staying(now, t));
    }
    CountedIsReady(b, n, occ, now, t);
    assert ReadySomewhere(b, nodes, occ, now, t);
  }

  /** While the head of the queue waits, everything placed in the round ends by its reservation. */
  lemma RoundUnderReservation(r: Round, c: Site, b: Job)
    requires c.policy.backfill && Waiting(r, c, b) && Reservation(r, c, b).Some?
    ensures EndBy(r.now, PlacedIn(r, c), 0, Reservation(r, c, b).value)
  {
    var s, queue := At(r, c), Ranked(r.pending, r.now, c.policy.ageWeight);
    assert queue[..0] == [] && queue[..1] == [] + [b];
    assert r.active + [] == r.active;
    RunSnoc(s, [], b);
    assert TakesReservation(s, queue, 0);
    var later := AfterReservation(s, queue, 0);
    assert Run(s, queue).placed == later;
  }

  /** Nothing the round places while `b` waits puts off the room that is coming. */
  lemma RoundKeepsRoom(r: Round, c: Site, b: Job, n: Node, t: Time)
    requires c.policy.backfill && Waiting(r, c, b)
    requires n in c.nodes && Eligible(b, n) && r.now <= t && RoomFrom(b, n, r.active, r.now, t)
    ensures RoomFrom(b, n, r.active + PlacedIn(r, c), r.now, t)
  {
    ReservationWithin(b, c.nodes, n, r.active, r.now, t);
    RoundUnderReservation(r, c, b);
    var placed := PlacedIn(r, c);
    forall q | Relevant(b, q)
      ensures Load(r.active + placed, n, q, Staying(r.now, t)) == Load(r.active, n, q, Staying(r.now, t))
    {
      LoadConcat(r.active, placed, n, q, Staying(r.now, t));
      NoneLeft(r.now, placed, n, q, t);
    }
  }

  /** A node with room for `b` by the counts gets it. */
  lemma RoomMeansChoice(s: Snapshot, b: Job, n: Node)
    requires UniqueNodes(s.nodes) && n in s.nodes && Eligible(b, n) && DistinctKeys(n.devices)
    requires forall q | Relevant(b, q) :: Load(s.active, n, q, Always) + Need(b, q) <= Cap(n, q)
    ensures Choice(s, s.active, b).Some?
  {
    RelevantNeeds(b);
    CountingNeverOverstates(s.active, n, b.gpuType);
    assert Offer(b, FreeOf(n, s.active)).Some?;
    FleetSorted(s.nodes);
    var fleet := Fleet(s.nodes);
    var i :| 0 <= i < |fleet| && fleet[i] == n;
    assert Frees(fleet, s.active)[i] in Frees(fleet, s.active);
  }

  /**
   * One round to the next: the room that is coming to `n` comes at most the start lag later, the
   * reservation stays within that or the pass time, and once that is past the head has a node.
   */
  lemma NextRound(r: Round, r': Round, c: Site, b: Job, n: Node, t: Time)
    requires c.policy.backfill && 0 <= c.lag && Inventoried(c.nodes) && Waiting(r, c, b) && Follows(r, r', c)
    requires n in c.nodes && Eligible(b, n) && r.now <= t && RoomFrom(b, n, r.active, r.now, t)
    ensures RoomFrom(b, n, r'.active, r'.now, Max(t + c.lag, r'.now))
    ensures Reservation(r', c, b).Some? && Reservation(r', c, b).value <= Max(t + c.lag, r'.now)
    ensures t + c.lag <= r'.now ==> Choice(At(r', c), r'.active, b).Some?
  {
    hide Persists, Share;
    var occ, t' := r.active + PlacedIn(r, c), Max(t + c.lag, r'.now);
    RoundKeepsRoom(r, c, b, n, t);
    forall q | Relevant(b, q)
      ensures Load(r'.active, n, q, Staying(r'.now, t')) + Need(b, q) <= Cap(n, q)
      ensures t + c.lag <= r'.now ==> Load(r'.active, n, q, Always) + Need(b, q) <= Cap(n, q)
    {
      forall e, l | Persists(e, l, r.now, r'.now, c.lag)
        ensures Share(l, n, q, Staying(r'.now, t')) <= Share(e, n, q, Staying(r.now, t))
        ensures t + c.lag <= r'.now ==> Share(l, n, q, Always) <= Share(e, n, q, Staying(r.now, t))
      {
        PersistsCountsLess(e, l, n, q, r.now, r'.now, c.lag, t);
      }
      SurvivorsHoldLess(r'.active, occ, n, q, r.now, r'.now, c.lag, Staying(r'.now, t'), Staying(r.now, t));
      if t + c.lag <= r'.now {
        SurvivorsHoldLess(r'.active, occ, n, q, r.now, r'.now, c.lag, Always, Staying(r.now, t));
      }
    }
    ReservationWithin(b, c.nodes, n, r'.active, r'.now, t');
    if t + c.lag <= r'.now {
      RoomMeansChoice(At(r', c), b, n);
    }
  }

  /** An instant put off by one start lag a round, for `k` rounds. */
  function Lagged(t: Time, c: Site, k: nat): Time {
    t + k * c.lag
  }

  lemma LaggedNext(t: Time, c: Site, k: nat)
    requires k > 0
    ensures Lagged(t, c, 0) == t && Lagged(t, c, k) == Lagged(t, c, k - 1) + c.lag
  {
  }

  /**
   * The reservation of the waiting head never moves past the pass time or the instant at which room was
   * first seen to come, plus one start lag for every round since.
   */
  lemma {:induction false} ReservationNeverRecedes(rounds: seq<Round>, c: Site, b: Job, n: Node, t: Time, k: nat)
    requires c.policy.backfill && 0 <= c.lag && Inventoried(c.nodes) && k < |rounds| && Queueing(rounds, c, b)
    requires n in c.nodes && Eligible(b, n)
    requires rounds[0].now <= t && RoomFrom(b, n, rounds[0].active, rounds[0].now, t)
    ensures RoomFrom(b, n, rounds[k].active, rounds[k].now, Max(Lagged(t, c, k), rounds[k].now))
    ensures var res := Reservation(rounds[k], c, b); res.Some? && res.value <= Max(Lagged(t, c, k), rounds[k].now)
    ensures k > 0 && Lagged(t, c, k) <= rounds[k].now ==> Choice(At(rounds[k], c), rounds[k].active, b).Some?
  {
    hide RoomFrom, Follows, Reservation, Choice, Lagged;
    if k == 0 {
      LaggedNext(t, c, 1);
      ReservationAtFirst(rounds[0], c, b, n, t);
    } else {
      ReservationNeverRecedes(rounds, c, b, n, t, k - 1);
      var r, r' := rounds[k - 1], rounds[k];
      assert Waiting(r, c, b) && Follows(r, r', c);
      LaggedNext(t, c, k);
      NextRound(r, r', c, b, n, Lagged(t, c, k - 1));
    }
  }

  lemma ReservationAtFirst(r: Round, c: Site, b: Job, n: Node, t: Time)
    requires n in c.nodes && Eligible(b, n) && r.now <= t && RoomFrom(b, n, r.active, r.now, t)
    ensures Reservation(r, c, b).Some? && Reservation(r, c, b).value <= t
  {
    ReservationWithin(b, c.nodes, n, r.active, r.now, t);
  }

  /** `b` is the first job the round places. */
  ghost predicate PlacedFirst(r: Round, c: Site, b: Job) {
    PlacedIn(r, c) != [] && PlacedIn(r, c)[0].id == b.id
  }

  /** The head of the queue, once some node has room for it, is the first job placed. */
  lemma ChosenHeadIsPlaced(r: Round, c: Site, b: Job)
    requires Heads(r, c, b) && Choice(At(r, c), r.active, b).Some?
    ensures PlacedFirst(r, c, b)
  {
    var s, queue := At(r, c), Ranked(r.pending, r.now, c.policy.ageWeight);
    assert queue[..1] == [] + [b] && r.active + [] == r.active;
    RunSnoc(s, [], b);
    RunGrows(s, queue, 1);
  }

  /** Some eligible node has room from `t` on. */
  ghost predicate RoomSomewhereFrom(b: Job, nodes: seq<Node>, occ: seq<Job>, now: Time, t: Time) {
    now <= t && exists n :: n in nodes && Eligible(b, n) && RoomFrom(b, n, occ, now, t)
  }

  /**
   * Bounded wait. The head of the queue is placed no later than the first pass after the instant at
   * which its first pass saw room coming, plus one start lag a pass, whatever is backfilled.
   */
  lemma BoundedWait(rounds: seq<Round>, c: Site, b: Job, t: Time)
    requires c.policy.backfill && 0 <= c.lag && Inventoried(c.nodes) && |rounds| > 1 && Queueing(rounds, c, b)
    requires RoomSomewhereFrom(b, c.nodes, rounds[0].active, rounds[0].now, t)
    requires Lagged(t, c, |rounds| - 1) <= rounds[|rounds| - 1].now
    ensures PlacedFirst(rounds[|rounds| - 1], c, b)
  {
    hide RoomFrom, Reservation, Choice, Follows;
    var n :| n in c.nodes && Eligible(b, n) && RoomFrom(b, n, rounds[0].active, rounds[0].now, t);
    ReservationNeverRecedes(rounds, c, b, n, t, |rounds| - 1);
    ChosenHeadIsPlaced(rounds[|rounds| - 1], c, b);
  }
}

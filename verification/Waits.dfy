/** When the wait of the head of the queue is bounded, and for how long: both directions. */
module Waits {
  import opened Types
  import opened Resources
  import opened FreeViews
  import opened Reservations
  import opened Orders
  import opened Planning
  import opened PlanProperties
  import opened Backfilling

  // --- From the first reservation ---

  /**
   * A first reservation less than a century away, or one among bounded jobs only, is an instant from
   * which there is room.
   */
  lemma FirstReservationIsRoom(b: Job, nodes: seq<Node>, active: seq<Job>, now: Time)
    requires forall n | n in nodes :: NotOvercommitted(active, n)
    requires EarliestStart(b, nodes, active, now).Some?
    requires EarliestStart(b, nodes, active, now).value < now + 3_153_600_000_000_000_000
             || forall j | j in active :: j.walltime > 0
    ensures RoomSomewhereFrom(b, nodes, active, now, EarliestStart(b, nodes, active, now).value)
  {
    var t := EarliestStart(b, nodes, active, now).value;
    var n :| n in nodes && Eligible(b, n) && Ready(b, n, active, now, t);
    ReadyIffCounted(b, n, active, now, t);
    forall r | Relevant(b, r) ensures Load(active, n, r, Staying(now, t)) + Need(b, r) <= Cap(n, r) {
      LoadShrinks(active, n, r, Staying(now, t), Past(now, t));
    }
    assert RoomFrom(b, n, active, now, t);
  }

  /** From one pass to the next the reservation moves by no more than the start lag, unless time has passed it. */
  lemma ReservationStep(r: Round, r': Round, c: Site, b: Job)
    requires c.policy.backfill && 0 <= c.lag && Inventoried(c.nodes) && Waiting(r, c, b) && Follows(r, r', c)
    requires forall n | n in c.nodes :: NotOvercommitted(r.active, n)
    requires var res := Reservation(r, c, b);
             res.Some? && (res.value < r.now + 3_153_600_000_000_000_000 || forall j | j in r.active :: j.walltime > 0)
    ensures var res, res' := Reservation(r, c, b), Reservation(r', c, b);
            res'.Some? && res'.value <= Max(res.value + c.lag, r'.now)
  {
    var t := Reservation(r, c, b).value;
    FirstReservationIsRoom(b, c.nodes, r.active, r.now);
    var n :| n in c.nodes && Eligible(b, n) && RoomFrom(b, n, r.active, r.now, t);
    NextRound(r, r', c, b, n, t);
  }

  /** The head of the queue is placed no later than the first pass at or after its first reservation, lag apart. */
  lemma PlacedByFirstReservation(rounds: seq<Round>, c: Site, b: Job)
    requires c.policy.backfill && 0 <= c.lag && Inventoried(c.nodes) && |rounds| > 1 && Queueing(rounds, c, b)
    requires forall n | n in c.nodes :: NotOvercommitted(rounds[0].active, n)
    requires var res := Reservation(rounds[0], c, b);
             && res.Some? && Lagged(res.value, c, |rounds| - 1) <= rounds[|rounds| - 1].now
             && (res.value < rounds[0].now + 3_153_600_000_000_000_000
                 || forall j | j in rounds[0].active :: j.walltime > 0)
    ensures PlacedFirst(rounds[|rounds| - 1], c, b)
  {
    FirstReservationIsRoom(b, c.nodes, rounds[0].active, rounds[0].now);
    BoundedWait(rounds, c, b, Reservation(rounds[0], c, b).value);
  }

  /** Passes come more than the start lag apart, by at least `gap`. */
  ghost predicate Spaced(rounds: seq<Round>, c: Site, gap: Time) {
    forall i | 0 <= i < |rounds| - 1 :: rounds[i].now + c.lag + gap <= rounds[i + 1].now
  }

  lemma {:induction false} SpacedNow(rounds: seq<Round>, c: Site, gap: Time, k: nat)
    requires Spaced(rounds, c, gap) && k < |rounds|
    ensures Lagged(rounds[0].now, c, k) + k * gap <= rounds[k].now
  {
    hide Lagged;
    LaggedNext(rounds[0].now, c, 1);
    if k > 0 {
      SpacedNow(rounds, c, gap, k - 1);
      assert (k - 1) * gap + gap == k * gap;
      LaggedNext(rounds[0].now, c, k);
    }
  }

  /** With passes further apart than jobs take to start, the number of passes it waits is bounded. */
  lemma BoundedRounds(rounds: seq<Round>, c: Site, b: Job, t: Time, gap: Time)
    requires c.policy.backfill && 0 <= c.lag && Inventoried(c.nodes) && |rounds| > 1 && Queueing(rounds, c, b)
    requires Spaced(rounds, c, gap) && t - rounds[0].now <= (|rounds| - 1) * gap
    requires RoomSomewhereFrom(b, c.nodes, rounds[0].active, rounds[0].now, t)
    ensures PlacedFirst(rounds[|rounds| - 1], c, b)
  {
    SpacedNow(rounds, c, gap, |rounds| - 1);
    BoundedWait(rounds, c, b, t);
  }

  // --- When unbounded jobs leave no room ---

  /** No node is overcommitted, and devices are held by one job each. */
  ghost predicate WellHeld(nodes: seq<Node>, active: seq<Job>) {
    forall n | n in nodes :: NotOvercommitted(active, n) && WellClaimed(active, n)
  }

  function UnboundedOf(js: seq<Job>): seq<Job> {
    if js == [] then []
    else
      var init, j := js[..|js| - 1], js[|js| - 1];
      if j.walltime <= 0 then UnboundedOf(init) + [j] else UnboundedOf(init)
  }

  /** The unbounded jobs are still there at the next round. */
  ghost predicate KeepsUnbounded(r: Round, r': Round, c: Site) {
    Survivors(UnboundedOf(r.active), r'.active, r.now, r'.now, c.lag)
  }

  lemma {:induction false} UnboundedLoad(js: seq<Job>, n: Node, r: Res)
    ensures Load(UnboundedOf(js), n, r, Unbounded) == Load(js, n, r, Unbounded)
  {
    if js != [] {
      var init, j := js[..|js| - 1], js[|js| - 1];
      UnboundedLoad(init, n, r);
      if j.walltime <= 0 {
        LoadSnoc(UnboundedOf(init), j, n, r, Unbounded);
      }
    }
  }

  /** Where no eligible node has room beside its unbounded jobs, none ever will while they stay. */
  lemma StaysInhospitable(r: Round, r': Round, c: Site, b: Job)
    requires KeepsUnbounded(r, r', c) && !Hospitable(b, c.nodes, r.active)
    ensures !Hospitable(b, c.nodes, r'.active)
  {
    forall n, q ensures Load(r.active, n, q, Unbounded) <= Load(r'.active, n, q, Unbounded) {
      UnboundedLoad(r.active, n, q);
      forall e, l | Persists(e, l, r.now, r'.now, c.lag)
        ensures Share(l, n, q, Unbounded) <= Share(e, n, q, Unbounded) {}
      SurvivorsHoldLess(UnboundedOf(r.active), r'.active, n, q, r.now, r'.now, c.lag, Unbounded, Unbounded);
    }
    forall n | n in c.nodes && Eligible(b, n) ensures !RoomBesideUnbounded(b, n, r'.active) {
      assert !RoomBesideUnbounded(b, n, r.active);
    }
  }

  /** An offer is made only by an eligible node with room beside all its occupants. */
  lemma OfferMeansRoom(b: Job, n: Node, occ: seq<Job>)
    requires Worthwhile(b, n) && |n.devices| < U32 && NotOvercommitted(occ, n) && WellClaimed(occ, n)
    requires Offer(b, FreeOf(n, occ)).Some?
    ensures Eligible(b, n) && RoomBesideUnbounded(b, n, occ)
  {
    FitsIffOffered(b, n, occ);
    forall r | Relevant(b, r) ensures Load(occ, n, r, Unbounded) + Need(b, r) <= Cap(n, r) {
      LoadShrinks(occ, n, r, Unbounded, Always);
      assert Need(b, r) <= Base(n, occ, r);
    }
    RelevantNeeds(b);
  }

  lemma InhospitableIsBlocked(r: Round, c: Site, b: Job)
    requires Inventoried(c.nodes) && WellHeld(c.nodes, r.active) && !Hospitable(b, c.nodes, r.active)
    ensures Choice(At(r, c), r.active, b).None?
  {
    var fleet := Fleet(c.nodes);
    FleetSorted(c.nodes);
    if Choice(At(r, c), r.active, b).Some? {
      var n := fleet[FirstFit(b, Frees(fleet, r.active)).value];
      assert n in fleet;
      OfferMeansRoom(b, n, r.active);
    }
  }

  /** Less than a century ahead the unbounded jobs are still counted. */
  lemma CountedSoonIsRoom(b: Job, n: Node, occ: seq<Job>, now: Time, t: Time)
    requires FitsByCount(b, n, occ, now, t) && t < now + CENTURY
    ensures RoomBesideUnbounded(b, n, occ)
  {
    forall q | Relevant(b, q) ensures Load(occ, n, q, Unbounded) + Need(b, q) <= Cap(n, q) {
      LoadShrinks(occ, n, q, Unbounded, Past(now, t));
    }
  }

  lemma InhospitableReservation(r: Round, c: Site, b: Job)
    requires WellHeld(c.nodes, r.active) && !Hospitable(b, c.nodes, r.active)
    ensures var res := Reservation(r, c, b); res.Some? ==> r.now + CENTURY <= res.value
  {
    hide FitsByCount, Ready, RoomBesideUnbounded;
    var res := Reservation(r, c, b);
    forall n, t | n in c.nodes && Eligible(b, n) && Ready(b, n, r.active, r.now, t) ensures r.now + CENTURY <= t {
      ReadyIffCounted(b, n, r.active, r.now, t);
      if t < r.now + CENTURY {
        CountedSoonIsRoom(b, n, r.active, r.now, t);
      }
    }
    assert res.Some? ==> ReadySomewhere(b, c.nodes, r.active, r.now, res.value);
  }

  /**
   * Under a reservation held because of unbounded jobs every job with a walltime of up to 3153600000
   * seconds passes the backfill test.
   */
  lemma ShortJobsPassBehindUnbounded(r: Round, c: Site, b: Job, job: Job)
    requires WellHeld(c.nodes, r.active) && !Hospitable(b, c.nodes, r.active) && Reservation(r, c, b).Some?
    requires 1 <= job.walltime <= 3_153_600_000
    ensures r.now + 3_153_600_000_000_000_000 <= Reservation(r, c, b).value
    ensures BackfillAllowed(r.now, job, Reservation(r, c, b).value)
  {
    hide Reservation, Hospitable, WellHeld;
    InhospitableReservation(r, c, b);
    EstEndIs(r.now, b, r.now);
    SecondsIs(job.walltime);
  }

  // --- Claims along a run ---

  lemma WellClaimedRemove(js: seq<Job>, i: nat, n: Node)
    requires WellClaimed(js, n) && i < |js|
    ensures var rest := js[..i] + js[i + 1..];
            && WellClaimed(rest, n)
            && (js[i].nodeId == n.id ==> forall j | j in rest && j.nodeId == n.id ::
                  forall d | d in js[i].devices :: d !in j.devices)
  {
    var rest := js[..i] + js[i + 1..];
    forall k | 0 <= k < |rest| ensures rest[k] == js[if k < i then k else k + 1] {}
    forall j | j in rest ensures j in js {
      var k :| 0 <= k < |rest| && rest[k] == j;
    }
    forall j | j in rest && j.nodeId == n.id && js[i].nodeId == n.id
      ensures forall d | d in js[i].devices :: d !in j.devices
    {
      var k :| 0 <= k < |rest| && rest[k] == j;
      var k' := if k < i then k else k + 1;
      assert js[k'] == j;
    }
  }

  ghost predicate SameHold(e: Job, j: Job) {
    e.nodeId == j.nodeId && e.devices == j.devices
  }

  lemma PersistsHold(e: Job, l: Job, now: Time, later: Time, lag: Time)
    requires Persists(e, l, now, later, lag)
    ensures SameHold(e, l)
  {
  }

  lemma RestIsPart(js: seq<Job>, i: nat)
    requires i < |js|
    ensures js[i] in js && forall j | j in js[..i] + js[i + 1..] :: j in js
  {
  }

  /** Survivors claim what their origins claimed, so they stay apart. */
  lemma {:induction false} SurvivorsKeepClaims(
      after: seq<Job>, before: seq<Job>, n: Node, now: Time, later: Time, lag: Time)
    requires Survivors(after, before, now, later, lag) && WellClaimed(before, n)
    ensures WellClaimed(after, n)
    ensures forall j | j in after :: exists e :: e in before && SameHold(e, j)
    decreases |after|
  {
    hide Persists, WellClaimed;
    if after == [] {
      assert WellClaimed(after, n) by { NoneClaimed(before, n); }
    } else {
      var init, l := after[..|after| - 1], after[|after| - 1];
      assert after == init + [l];
      var i :| 0 <= i < |before| && Persists(before[i], l, now, later, lag)
        && Survivors(init, before[..i] + before[i + 1..], now, later, lag);
      var rest := before[..i] + before[i + 1..];
      WellClaimedRemove(before, i, n);
      RestIsPart(before, i);
      SurvivorsKeepClaims(init, rest, n, now, later, lag);
      PersistsHold(before[i], l, now, later, lag);
      HoldsApart(before, before[i], rest, init, l, n);
      WellClaimedSnoc(init, l, n);
    }
  }

  lemma NoneClaimed(js: seq<Job>, n: Node)
    requires WellClaimed(js, n)
    ensures WellClaimed([], n)
  {
  }

  lemma HoldsApart(before: seq<Job>, e: Job, rest: seq<Job>, init: seq<Job>, l: Job, n: Node)
    requires WellClaimed(before, n) && e in before && SameHold(e, l)
    requires forall j | j in init :: exists e' :: e' in rest && SameHold(e', j)
    requires e.nodeId == n.id ==>
               forall j | j in rest && j.nodeId == n.id :: forall d | d in e.devices :: d !in j.devices
    ensures l.nodeId == n.id ==> Distinct(l.devices) && forall d | d in l.devices :: InInventory(d, n.devices)
    ensures l.nodeId == n.id ==>
              forall j | j in init && j.nodeId == n.id :: forall d | d in l.devices :: d !in j.devices
  {
  }

  lemma PlacementsStayWithinCapacity(s: Snapshot, pending: seq<Job>, n: Node)
    requires UniqueNodes(s.nodes) && n in s.nodes && NotOvercommitted(s.active, n)
    ensures NotOvercommitted(s.active + Placed(s, pending), n)
  {
    var queue := Ranked(pending, s.now, s.policy.ageWeight);
    PassIsSound(s, queue);
    CapacityBound(s, Placed(s, pending), n, Cpu);
    CapacityBound(s, Placed(s, pending), n, Mem);
    LoadConcat(s.active, Placed(s, pending), n, Cpu, Always);
    LoadConcat(s.active, Placed(s, pending), n, Mem, Always);
  }

  lemma RoundKeepsWellHeld(r: Round, r': Round, c: Site)
    requires Inventoried(c.nodes) && WellHeld(c.nodes, r.active) && Follows(r, r', c)
    ensures WellHeld(c.nodes, r'.active)
  {
    var s, placed := At(r, c), PlacedIn(r, c);
    PassIsSound(s, Ranked(r.pending, r.now, c.policy.ageWeight));
    forall n | n in c.nodes ensures NotOvercommitted(r'.active, n) && WellClaimed(r'.active, n) {
      PlacementsStayWithinCapacity(s, r.pending, n);
      SurvivorsHoldLess(r'.active, r.active + placed, n, Cpu, r.now, r'.now, c.lag, Always, Always);
      SurvivorsHoldLess(r'.active, r.active + placed, n, Mem, r.now, r'.now, c.lag, Always, Always);
      ClaimsStayWellFormed(s, placed, n);
      SurvivorsKeepClaims(r'.active, r.active + placed, n, r.now, r'.now, c.lag);
    }
  }

  /** Rounds one after another in which no unbounded job ends. */
  ghost predicate Unending(rounds: seq<Round>, c: Site) {
    forall i | 0 <= i < |rounds| - 1 ::
      Follows(rounds[i], rounds[i + 1], c) && KeepsUnbounded(rounds[i], rounds[i + 1], c)
  }

  /**
   * If no eligible node has room for `b` beside its unbounded jobs, then while they stay no node has room
   * for it at any pass, and every pass estimates its start a century ahead.
   */
  lemma {:induction false} StuckForever(rounds: seq<Round>, c: Site, b: Job, k: nat)
    requires Inventoried(c.nodes) && k < |rounds| && Unending(rounds, c)
    requires WellHeld(c.nodes, rounds[0].active) && !Hospitable(b, c.nodes, rounds[0].active)
    ensures WellHeld(c.nodes, rounds[k].active) && !Hospitable(b, c.nodes, rounds[k].active)
    ensures Choice(At(rounds[k], c), rounds[k].active, b).None?
    ensures var res := Reservation(rounds[k], c, b);
            res.Some? ==> rounds[k].now + 3_153_600_000_000_000_000 <= res.value
  {
    hide WellHeld, Hospitable, Follows, KeepsUnbounded, Choice;
    if k > 0 {
      StuckForever(rounds, c, b, k - 1);
      assert Follows(rounds[k - 1], rounds[k], c) && KeepsUnbounded(rounds[k - 1], rounds[k], c);
      RoundKeepsWellHeld(rounds[k - 1], rounds[k], c);
      StaysInhospitable(rounds[k - 1], rounds[k], c, b);
    }
    InhospitableIsBlocked(rounds[k], c, b);
    InhospitableReservation(rounds[k], c, b);
  }

  // --- Both directions ---

  /** Every run of passes from here that is still going at `t`, lag apart, has placed `b`. */
  ghost predicate ServedBy(c: Site, b: Job, active: seq<Job>, now: Time, t: Time) {
    forall rounds: seq<Round> |
      && |rounds| > 1 && rounds[0].now == now && rounds[0].active == active && Queueing(rounds, c, b)
      && Lagged(t, c, |rounds| - 1) <= rounds[|rounds| - 1].now ::
      PlacedFirst(rounds[|rounds| - 1], c, b)
  }

  lemma OneMoreSurvives(
      after: seq<Job>, j: Job, before: seq<Job>, more: seq<Job>, now: Time, later: Time, lag: Time)
    requires Survivors(after, before + more, now, later, lag) && j.walltime <= 0
    ensures Survivors(after + [j], before + ([j] + more), now, later, lag)
  {
    hide Persists;
    var all := before + ([j] + more);
    assert all[..|before|] + all[|before| + 1..] == before + more;
    assert (after + [j])[..|after|] == after;
    assert Persists(all[|before|], j, now, later, lag) by {
      UnboundedPersists(j, now, later, lag);
    }
  }

  lemma UnboundedPersists(j: Job, now: Time, later: Time, lag: Time)
    requires j.walltime <= 0
    ensures Persists(j, j, now, later, lag)
  {
  }

  lemma {:induction false} UnboundedSurvive(js: seq<Job>, more: seq<Job>, now: Time, later: Time, lag: Time)
    ensures Survivors(UnboundedOf(js), js + more, now, later, lag)
  {
    hide Survivors;
    if js == [] {
      assert UnboundedOf(js) == [] && js + more == more;
      NoneSurvive(more, now, later, lag);
    } else {
      var init, j := js[..|js| - 1], js[|js| - 1];
      assert js + more == init + ([j] + more);
      if j.walltime <= 0 {
        UnboundedSurvive(init, more, now, later, lag);
        OneMoreSurvives(UnboundedOf(init), j, init, more, now, later, lag);
      } else {
        UnboundedSurvive(init, [j] + more, now, later, lag);
      }
    }
  }

  lemma NoneSurvive(before: seq<Job>, now: Time, later: Time, lag: Time)
    ensures Survivors([], before, now, later, lag)
  {
  }

  lemma {:induction false} UnboundedTwice(js: seq<Job>)
    ensures UnboundedOf(UnboundedOf(js)) == UnboundedOf(js)
  {
    if js != [] {
      var init := UnboundedOf(js[..|js| - 1]);
      UnboundedTwice(js[..|js| - 1]);
      if js[|js| - 1].walltime <= 0 {
        assert (init + [js[|js| - 1]])[..|init|] == init;
      }
    }
  }

  /** At any later time there may be a round in which only the unbounded jobs are left and `b` still waits. */
  lemma StillWaiting(c: Site, b: Job, active: seq<Job>, now: Time, later: Time) returns (rounds: seq<Round>)
    requires Inventoried(c.nodes) && WellHeld(c.nodes, active) && !Hospitable(b, c.nodes, active) && now <= later
    ensures |rounds| == 2 && rounds[0].now == now && rounds[0].active == active && rounds[1].now == later
    ensures Queueing(rounds, c, b) && PlacedIn(rounds[1], c) == []
  {
    hide Survivors, UnboundedOf, Choice, Heads, WellHeld, Hospitable, Reservation, Placed;
    var r, r' := Round(now, active, [b]), Round(later, UnboundedOf(active), [b]);
    rounds := [r, r'];
    UnboundedSurvive(active, PlacedIn(r, c), now, later, c.lag);
    UnboundedSurvive(UnboundedOf(active), [], now, later, c.lag);
    UnboundedTwice(active);
    assert UnboundedOf(active) + [] == UnboundedOf(active);
    assert Follows(r, r', c) && KeepsUnbounded(r, r', c);
    StuckForever(rounds, c, b, 0);
    StuckForever(rounds, c, b, 1);
    AloneInQueue(r, c, b);
    AloneInQueue(r', c, b);
  }

  lemma AloneInQueue(r: Round, c: Site, b: Job)
    requires r.pending == [b] && Choice(At(r, c), r.active, b).None?
    ensures Heads(r, c, b) && PlacedIn(r, c) == []
  {
    var s := At(r, c);
    assert Ranked([b], r.now, c.policy.ageWeight) == [b];
    assert [] + [b] == [b] && r.active + [] == r.active;
    RunSnoc(s, [], b);
  }

  /**
   * The wait of the head of the queue is bounded, whatever else is submitted, starts late or is
   * backfilled, if and only if some eligible node has room for it beside its unbounded jobs.
   */
  lemma WaitIsBoundedIff(c: Site, b: Job, active: seq<Job>, now: Time)
    requires c.policy.backfill && 0 <= c.lag && Inventoried(c.nodes) && WellHeld(c.nodes, active)
    ensures Hospitable(b, c.nodes, active) <==> exists t :: ServedBy(c, b, active, now, t)
  {
    if Hospitable(b, c.nodes, active) {
      var n :| n in c.nodes && Eligible(b, n) && RoomBesideUnbounded(b, n, active);
      RoomComesIffBesideUnbounded(b, n, active, now);
      var t :| now <= t && RoomFrom(b, n, active, now, t);
      forall rounds: seq<Round> |
        && |rounds| > 1 && rounds[0].now == now && rounds[0].active == active && Queueing(rounds, c, b)
        && Lagged(t, c, |rounds| - 1) <= rounds[|rounds| - 1].now
        ensures PlacedFirst(rounds[|rounds| - 1], c, b)
      {
        BoundedWait(rounds, c, b, t);
      }
      assert ServedBy(c, b, active, now, t);
    } else if t :| ServedBy(c, b, active, now, t) {
      var rounds := StillWaiting(c, b, active, now, Max(t + c.lag, now));
    }
  }
}

/**
 * What the release sweep promises against what placement accepts: when a job really fits, and exactly
 * when the sweep knows.
 */
module Starts {
  import opened Types
  import opened Resources
  import opened FreeViews
  import opened Reservations

  /** The occupants expected to be there after `t`. */
  function StillThere(occ: seq<Job>, now: Time, t: Time): seq<Job> {
    if occ == [] then []
    else
      var init, j := occ[..|occ| - 1], occ[|occ| - 1];
      if t < EstEnd(now, j) then StillThere(init, now, t) + [j] else StillThere(init, now, t)
  }

  /** Placement would accept `b` on `n` once every occupant that ends by `t` is gone. */
  ghost predicate FitsAt(b: Job, n: Node, occ: seq<Job>, now: Time, t: Time) {
    Offer(b, FreeOf(n, StillThere(occ, now, t))).Some?
  }

  ghost predicate FitsSomewhereAt(b: Job, ns: seq<Node>, occ: seq<Job>, now: Time, t: Time) {
    exists n :: n in ns && Worthwhile(b, n) && FitsAt(b, n, occ, now, t)
  }

  /** What placement would find of `r` on `n` then. */
  function Free(n: Node, occ: seq<Job>, r: Res, now: Time, t: Time): nat {
    match r
    case Match(g) => Left(n.devices, Taken(StillThere(occ, now, t), n.id), g)
    case _ => SatSub(Cap(n, r), Load(occ, n, r, Past(now, t)))
  }

  lemma {:induction false} StillThereLoad(occ: seq<Job>, n: Node, r: Res, now: Time, t: Time)
    ensures Load(StillThere(occ, now, t), n, r, Always) == Load(occ, n, r, Past(now, t))
  {
    hide EstEnd, Use;
    if occ != [] {
      var init, j := occ[..|occ| - 1], occ[|occ| - 1];
      StillThereLoad(init, n, r, now, t);
      if t < EstEnd(now, j) {
        LoadSnoc(StillThere(init, now, t), j, n, r, Always);
      }
    }
  }

  lemma {:induction false} StillThereMembers(occ: seq<Job>, now: Time, t: Time)
    ensures forall j :: j in StillThere(occ, now, t) <==> j in occ && t < EstEnd(now, j)
  {
    if occ != [] {
      StillThereMembers(occ[..|occ| - 1], now, t);
      assert occ == occ[..|occ| - 1] + [occ[|occ| - 1]];
    }
  }

  lemma {:induction false} StillThereConcat(a: seq<Job>, b: seq<Job>, now: Time, t: Time)
    ensures StillThere(a + b, now, t) == StillThere(a, now, t) + StillThere(b, now, t)
  {
    if b == [] {
      assert a + b == a;
    } else {
      assert (a + b)[..|a + b| - 1] == a + b[..|b| - 1];
      StillThereConcat(a, b[..|b| - 1], now, t);
    }
  }

  lemma {:induction false} StillThereLater(occ: seq<Job>, now: Time, t: Time, u: Time)
    requires t <= u
    ensures StillThere(StillThere(occ, now, t), now, u) == StillThere(occ, now, u)
  {
    if occ != [] {
      var init, j := occ[..|occ| - 1], occ[|occ| - 1];
      StillThereLater(init, now, t, u);
      if t < EstEnd(now, j) {
        var there := StillThere(init, now, t);
        assert (there + [j])[..|there|] == there;
      }
    }
  }

  lemma {:induction false} StillThereWellClaimed(js: seq<Job>, n: Node, now: Time, t: Time)
    requires WellClaimed(js, n)
    ensures WellClaimed(StillThere(js, now, t), n)
  {
    if js != [] {
      var init, j := js[..|js| - 1], js[|js| - 1];
      assert js == init + [j];
      WellClaimedInit(init, j, n);
      StillThereWellClaimed(init, n, now, t);
      StillThereMembers(init, now, t);
      if t < EstEnd(now, j) {
        WellClaimedSnoc(StillThere(init, now, t), j, n);
      }
    }
  }

  lemma OfferIffFree(b: Job, n: Node, occ: seq<Job>)
    requires Worthwhile(b, n)
    ensures Offer(b, FreeOf(n, occ)).Some? <==>
            && b.reqCpus <= SatSub(n.cpus, Load(occ, n, Cpu, Always))
            && b.reqMem <= SatSub(n.mem, Load(occ, n, Mem, Always))
            && b.reqGpus <= Left(n.devices, Taken(occ, n.id), b.gpuType)
  {
    hide Load, Taken, Without, Matching;
  }

  /** Placement goes by what is free of each resource the job needs. */
  lemma FitsIffFree(b: Job, n: Node, occ: seq<Job>, now: Time, t: Time)
    requires Worthwhile(b, n)
    ensures FitsAt(b, n, occ, now, t) <==> forall r | Relevant(b, r) :: Need(b, r) <= Free(n, occ, r, now, t)
  {
    hide Load, Left, StillThere, Taken, Offer, FreeOf;
    StillThereLoad(occ, n, Cpu, now, t);
    StillThereLoad(occ, n, Mem, now, t);
    OfferIffFree(b, n, StillThere(occ, now, t));
    RelevantNeeds(b);
  }

  lemma FreeWithinCap(n: Node, occ: seq<Job>, r: Res, now: Time, t: Time)
    ensures Free(n, occ, r, now, t) <= Cap(n, r)
  {
    if r.Match? {
      LeftShrinks(n.devices, {}, Taken(StillThere(occ, now, t), n.id), r.g);
      WithoutNothing(n.devices);
    }
  }

  /** Where a job fits at some time it fits at full capacity. */
  lemma FitsOnlyIfEligible(b: Job, n: Node, occ: seq<Job>, now: Time, t: Time)
    requires Worthwhile(b, n) && |n.devices| < U32 && FitsAt(b, n, occ, now, t)
    ensures Eligible(b, n)
  {
    hide Free, FitsAt, Matching;
    FitsIffFree(b, n, occ, now, t);
    forall r | Relevant(b, r) ensures Need(b, r) <= Cap(n, r) {
      FreeWithinCap(n, occ, r, now, t);
    }
    RelevantNeeds(b);
  }

  // --- CPUs and memory: never understated, overstated by overcommit ---

  function Least(a: int, b: int): int {
    if a < b then a else b
  }

  /** The sweep overstates CPUs and memory by the overcommit, or by all that has ended if that is less. */
  lemma SweepOverstates(n: Node, occ: seq<Job>, r: Res, now: Time, t: Time)
    requires !r.Match?
    ensures var load := Load(occ, n, r, Always);
            Avail(n, occ, r, now, t) - Free(n, occ, r, now, t)
            == Least(SatSub(load, Cap(n, r)), load - Load(occ, n, r, Past(now, t)))
  {
    LoadSpan(occ, n, r, now, t, t);
  }

  /** `r` is not overcommitted, or the node has none of it, or everything held of it ends at once. */
  ghost predicate Even(n: Node, occ: seq<Job>, r: Res, now: Time) {
    var load := Load(occ, n, r, Always);
    load <= Cap(n, r) || Cap(n, r) == 0 ||
    forall t | now <= t :: Load(occ, n, r, Past(now, t)) == 0 || Load(occ, n, r, Past(now, t)) == load
  }

  lemma EvenIsExact(n: Node, occ: seq<Job>, r: Res, now: Time, t: Time, need: nat)
    requires !r.Match? && Even(n, occ, r, now) && now <= t && need <= Cap(n, r)
    ensures need <= Avail(n, occ, r, now, t) <==> need <= Free(n, occ, r, now, t)
  {
    SweepOverstates(n, occ, r, now, t);
    LoadSpan(occ, n, r, now, t, t);
  }

  // --- Devices: never overstated, understated by claims that take nothing ---

  /** Every claim that is counted takes one device only if the claims are distinct, in the inventory and new. */
  lemma {:induction false} ExactLossIsFresh(devs: seq<Device>, taken: set<AllocDevice>, claims: seq<AllocDevice>)
    requires DistinctKeys(devs)
    requires Left(devs, taken, Any) == Left(devs, taken + KeySet(claims), Any) + CountClaims(claims, devs, Any)
    ensures Distinct(claims) && forall k | k in claims :: InInventory(k, devs) && k !in taken
  {
    if claims != [] {
      var init, k := claims[..|claims| - 1], claims[|claims| - 1];
      var before := taken + KeySet(init);
      assert claims == init + [k];
      assert before + {k} == taken + KeySet(claims);
      LeftLosesAtMost(devs, taken, init, Any);
      OneClaimLoses(devs, before, k);
      ExactLossIsFresh(devs, taken, init);
    }
  }

  /** One more claim takes a device exactly when it is in the inventory and not yet taken. */
  lemma OneClaimLoses(devs: seq<Device>, before: set<AllocDevice>, k: AllocDevice)
    requires DistinctKeys(devs)
    ensures Left(devs, before, Any)
            == Left(devs, before + {k}, Any) + (if k !in before && InInventory(k, devs) then 1 else 0)
  {
    if k in before {
      assert before + {k} == before;
    } else if InInventory(k, devs) {
      var i :| 0 <= i < |devs| && Key(devs[i]) == k;
      LeftLosesOne(devs, before, i, Any);
    } else {
      SetAsideElsewhere(devs, before, k);
    }
  }

  lemma {:induction false} ExactCountIsWellClaimed(js: seq<Job>, n: Node)
    requires DistinctKeys(n.devices)
    requires Cap(n, Match(Any)) == Left(n.devices, Taken(js, n.id), Any) + Load(js, n, Match(Any), Always)
    ensures WellClaimed(js, n)
  {
    if js != [] {
      var init, j := js[..|js| - 1], js[|js| - 1];
      assert js == init + [j];
      CountingNeverOverstates(init, n, Any);
      TakenSnoc(init, j, n.id);
      if j.nodeId == n.id {
        LeftLosesAtMost(n.devices, Taken(init, n.id), j.devices, Any);
        ExactLossIsFresh(n.devices, Taken(init, n.id), j.devices);
      } else {
        assert Taken(js, n.id) == Taken(init, n.id);
      }
      ExactCountIsWellClaimed(init, n);
      WellClaimedSnoc(init, j, n);
    }
  }

  /** The sweep never overstates devices. */
  lemma SweepUnderstatesDevices(n: Node, occ: seq<Job>, g: GpuType, now: Time, t: Time)
    requires DistinctKeys(n.devices)
    ensures Avail(n, occ, Match(g), now, t) <= Free(n, occ, Match(g), now, t)
  {
    StillThereLoad(occ, n, Match(g), now, t);
    CountingNeverOverstates(StillThere(occ, now, t), n, g);
  }

  /** It states them exactly, for every type and from `now` on, if and only if the claims that last are well-formed. */
  lemma DevicesExactIff(n: Node, occ: seq<Job>, now: Time)
    requires DistinctKeys(n.devices)
    ensures WellClaimed(StillThere(occ, now, now), n) <==>
            forall g, t | now <= t :: Avail(n, occ, Match(g), now, t) == Free(n, occ, Match(g), now, t)
  {
    if WellClaimed(StillThere(occ, now, now), n) {
      forall g, t | now <= t ensures Avail(n, occ, Match(g), now, t) == Free(n, occ, Match(g), now, t) {
        WellClaimedDevices(n, occ, g, now, t);
      }
    } else {
      StillThereLoad(occ, n, Match(Any), now, now);
      if Avail(n, occ, Match(Any), now, now) == Free(n, occ, Match(Any), now, now) {
        ExactCountIsWellClaimed(StillThere(occ, now, now), n);
      }
    }
  }

  lemma WellClaimedDevices(n: Node, occ: seq<Job>, g: GpuType, now: Time, t: Time)
    requires WellClaimed(StillThere(occ, now, now), n) && now <= t
    ensures Avail(n, occ, Match(g), now, t) == Free(n, occ, Match(g), now, t)
  {
    StillThereWellClaimed(StillThere(occ, now, now), n, now, t);
    StillThereLater(occ, now, now, t);
    StillThereLoad(occ, n, Match(g), now, t);
    CountingAgreesWithPicking(StillThere(occ, now, t), n, g);
  }

  // --- The exact conditions ---

  /** A job that asks for CPUs and memory only. */
  function Asking(cpus: u32, mem: u64): Job {
    Job("", "", "", Pending, 0, cpus, mem, 0, Like({}), 0, "", "", [], 0, "", None, None, None)
  }

  lemma {:induction false} NothingMatches(devs: seq<Device>, claims: seq<AllocDevice>)
    ensures Matching(devs, Like({})) == [] && CountClaims(claims, devs, Like({})) == 0
  {
    if devs != [] {
      NothingMatches(devs[..|devs| - 1], []);
    }
    if claims != [] {
      NothingMatches(devs, claims[..|claims| - 1]);
    }
  }

  lemma {:induction false} NoLoad(occ: seq<Job>, n: Node, s: Span)
    ensures Load(occ, n, Match(Like({})), s) == 0
  {
    if occ != [] {
      NoLoad(occ[..|occ| - 1], n, s);
      NothingMatches(n.devices, occ[|occ| - 1].devices);
    }
  }

  /** Where `r` is uneven, a job for some of it that the sweep promises at an instant at which it does not fit. */
  lemma UnevenPromisesTooMuch(n: Node, occ: seq<Job>, r: Res, now: Time) returns (b: Job, t: Time)
    requires n.state.Up? && !r.Match? && !Even(n, occ, r, now)
    ensures now <= t && Need(b, r) > 0 && Eligible(b, n)
    ensures Ready(b, n, occ, now, t) && !FitsAt(b, n, occ, now, t)
  {
    var load := Load(occ, n, r, Always);
    t :| now <= t && Load(occ, n, r, Past(now, t)) != 0 && Load(occ, n, r, Past(now, t)) != load;
    LoadSpan(occ, n, r, now, t, t);
    var ask := Least(Cap(n, r), load - Load(occ, n, r, Past(now, t)));
    b := if r.Cpu? then Asking(ask, 0) else Asking(0, ask);
    NothingMatches(n.devices, []);
    NoLoad(occ, n, Always);
    NoLoad(occ, n, Past(now, t));
    forall q | Relevant(b, q) ensures Need(b, q) <= Avail(n, occ, q, now, t) {
      LoadSpan(occ, n, q, now, t, t);
    }
    FitsIffFree(b, n, occ, now, t);
    assert Relevant(b, r) && Need(b, r) == ask;
  }

  /** Where the claims that last are not well-formed, a job that fits now although the sweep denies it. */
  lemma StaleClaimsDeny(n: Node, occ: seq<Job>, now: Time) returns (b: Job)
    requires n.state.Up? && DistinctKeys(n.devices) && |n.devices| < U32
    requires !WellClaimed(StillThere(occ, now, now), n)
    ensures Eligible(b, n) && FitsAt(b, n, occ, now, now) && !Ready(b, n, occ, now, now)
  {
    var free := Free(n, occ, Match(Any), now, now);
    FreeWithinCap(n, occ, Match(Any), now, now);
    b := Asking(0, 0).(reqGpus := free, gpuType := Any);
    FitsIffFree(b, n, occ, now, now);
    assert Relevant(b, Match(Any)) && Need(b, Match(Any)) == free;
    StillThereLoad(occ, n, Match(Any), now, now);
    SweepUnderstatesDevices(n, occ, Any, now, now);
    if Avail(n, occ, Match(Any), now, now) == free {
      ExactCountIsWellClaimed(StillThere(occ, now, now), n);
    }
  }

  /** What the sweep promises is there, and what it denies is not. */
  lemma EvenAndWellClaimedIsExact(b: Job, n: Node, occ: seq<Job>, now: Time, t: Time)
    requires Even(n, occ, Cpu, now) && Even(n, occ, Mem, now) && WellClaimed(StillThere(occ, now, now), n)
    requires Eligible(b, n) && now <= t
    ensures Ready(b, n, occ, now, t) <==> FitsAt(b, n, occ, now, t)
  {
    FitsIffFree(b, n, occ, now, t);
    forall r | Relevant(b, r)
      ensures Need(b, r) <= Avail(n, occ, r, now, t) <==> Need(b, r) <= Free(n, occ, r, now, t)
    {
      match r
      case Match(g) => WellClaimedDevices(n, occ, g, now, t);
      case _ => EvenIsExact(n, occ, r, now, t, Need(b, r));
    }
  }

  /**
   * On an UP node the sweep agrees with placement, for every job the node could hold and every instant
   * from now on, if and only if CPUs and memory are even and the claims that last are well-formed.
   */
  lemma SweepExactIff(n: Node, occ: seq<Job>, now: Time)
    requires n.state.Up? && DistinctKeys(n.devices) && |n.devices| < U32
    ensures Even(n, occ, Cpu, now) && Even(n, occ, Mem, now) && WellClaimed(StillThere(occ, now, now), n) <==>
            forall b, t | Eligible(b, n) && now <= t :: Ready(b, n, occ, now, t) <==> FitsAt(b, n, occ, now, t)
  {
    if !WellClaimed(StillThere(occ, now, now), n) {
      var b := StaleClaimsDeny(n, occ, now);
    } else if !Even(n, occ, Cpu, now) {
      var b, t := UnevenPromisesTooMuch(n, occ, Cpu, now);
    } else if !Even(n, occ, Mem, now) {
      var b, t := UnevenPromisesTooMuch(n, occ, Mem, now);
    } else {
      forall b, t | Eligible(b, n) && now <= t
        ensures Ready(b, n, occ, now, t) <==> FitsAt(b, n, occ, now, t)
      {
        EvenAndWellClaimedIsExact(b, n, occ, now, t);
      }
    }
  }

  /** With well-formed claims that last, whatever fits the sweep knows of. */
  lemma FittingIsReady(b: Job, n: Node, occ: seq<Job>, now: Time, t: Time)
    requires WellClaimed(StillThere(occ, now, now), n) && Worthwhile(b, n) && now <= t && FitsAt(b, n, occ, now, t)
    ensures Ready(b, n, occ, now, t)
  {
    FitsIffFree(b, n, occ, now, t);
    forall r | Relevant(b, r) ensures Need(b, r) <= Avail(n, occ, r, now, t) {
      match r
      case Match(g) => WellClaimedDevices(n, occ, g, now, t);
      case _ =>
        SweepOverstates(n, occ, r, now, t);
        LoadSpan(occ, n, r, now, t, t);
    }
  }

  /** The sweep never denies what placement would accept if and only if the claims that last are well-formed. */
  lemma NeverLateIff(n: Node, occ: seq<Job>, now: Time)
    requires n.state.Up? && DistinctKeys(n.devices) && |n.devices| < U32
    ensures WellClaimed(StillThere(occ, now, now), n) <==>
            forall b, t | Eligible(b, n) && now <= t && FitsAt(b, n, occ, now, t) :: Ready(b, n, occ, now, t)
  {
    if WellClaimed(StillThere(occ, now, now), n) {
      forall b, t | Eligible(b, n) && now <= t && FitsAt(b, n, occ, now, t) ensures Ready(b, n, occ, now, t) {
        FittingIsReady(b, n, occ, now, t);
      }
    } else {
      var b := StaleClaimsDeny(n, occ, now);
    }
  }

  /**
   * Where that holds of every node the job could be on, the reservation is the first instant at which
   * placement accepts it somewhere.
   */
  lemma ReservationIsTrueStart(b: Job, ns: seq<Node>, occ: seq<Job>, now: Time)
    requires forall n | n in ns :: |n.devices| < U32
    requires forall n | n in ns && Eligible(b, n) ::
               Even(n, occ, Cpu, now) && Even(n, occ, Mem, now) && WellClaimed(StillThere(occ, now, now), n)
    ensures var res := EarliestStart(b, ns, occ, now);
            && (res.Some? ==> FitsSomewhereAt(b, ns, occ, now, res.value))
            && forall t | now <= t && FitsSomewhereAt(b, ns, occ, now, t) :: res.Some? && res.value <= t
  {
    hide Ready, FitsAt, Even, WellClaimed;
    forall t | now <= t ensures ReadySomewhere(b, ns, occ, now, t) <==> FitsSomewhereAt(b, ns, occ, now, t) {
      if n :| n in ns && Eligible(b, n) && Ready(b, n, occ, now, t) {
        EvenAndWellClaimedIsExact(b, n, occ, now, t);
      }
      if n :| n in ns && Worthwhile(b, n) && FitsAt(b, n, occ, now, t) {
        FitsOnlyIfEligible(b, n, occ, now, t);
        EvenAndWellClaimedIsExact(b, n, occ, now, t);
      }
    }
  }

  // --- A reservation that is too early ---

  /** A node that re-registered with one CPU while two jobs of one CPU each run on it, for 10 and 20 seconds. */
  const SHRUNK := Node("n", "n", "", Up, 1, 0, [], None)
  const SHORT := Asking(1, 0).(id := "s", state := JobState.Running, nodeId := "n", walltime := 10, startAt := Some(0))
  const LONG := SHORT.(id := "l", walltime := 20)

  lemma LoadOfTwo(a: Job, b: Job, n: Node, r: Res, span: Span)
    ensures Load([a, b], n, r, span) == Share(a, n, r, span) + Share(b, n, r, span)
  {
    assert [a, b] == ([] + [a]) + [b];
    LoadSnoc([] + [a], b, n, r, span);
    LoadSnoc([], a, n, r, span);
  }

  lemma ShrunkCpus(t: Time)
    requires 0 <= t
    ensures Avail(SHRUNK, [SHORT, LONG], Cpu, 0, t) == if t < Seconds(10) then 0 else if t < Seconds(20) then 1 else 2
    ensures Free(SHRUNK, [SHORT, LONG], Cpu, 0, t) == if t < Seconds(20) then 0 else 1
    ensures Load([SHORT, LONG], SHRUNK, Cpu, Past(0, t)) ==
            if t < Seconds(10) then 2 else if t < Seconds(20) then 1 else 0
    ensures Load([SHORT, LONG], SHRUNK, Cpu, Always) == 2
  {
    LoadOfTwo(SHORT, LONG, SHRUNK, Cpu, Always);
    LoadOfTwo(SHORT, LONG, SHRUNK, Cpu, Past(0, t));
  }

  lemma ShrunkReady(t: Time)
    requires 0 <= t
    ensures Ready(Asking(1, 0), SHRUNK, [SHORT, LONG], 0, t) <==> Seconds(10) <= t
    ensures FitsAt(Asking(1, 0), SHRUNK, [SHORT, LONG], 0, t) <==> Seconds(20) <= t
  {
    hide Load, FitsAt;
    var b, occ := Asking(1, 0), [SHORT, LONG];
    assert Relevant(b, Cpu) && Need(b, Cpu) == 1;
    ShrunkCpus(t);
    NoLoad(occ, SHRUNK, Always);
    NoLoad(occ, SHRUNK, Past(0, t));
    forall r | Relevant(b, r) && r != Cpu ensures Need(b, r) <= Avail(SHRUNK, occ, r, 0, t) {
      LoadSpan(occ, SHRUNK, r, 0, t, t);
    }
    FitsIffFree(b, SHRUNK, occ, 0, t);
  }

  /** When the first of them ends the sweep counts its CPU as free, though the other still needs the only one left. */
  lemma ReservationTooEarly()
    ensures !Even(SHRUNK, [SHORT, LONG], Cpu, 0)
    ensures EarliestStart(Asking(1, 0), [SHRUNK], [SHORT, LONG], 0) == Some(Seconds(10))
    ensures forall t | 0 <= t :: FitsSomewhereAt(Asking(1, 0), [SHRUNK], [SHORT, LONG], 0, t) <==> Seconds(20) <= t
  {
    hide Load, Ready, FitsAt;
    var b, occ := Asking(1, 0), [SHORT, LONG];
    assert SHRUNK in [SHRUNK] && Eligible(b, SHRUNK);
    ShrunkCpus(Seconds(10));
    forall t | 0 <= t
      ensures ReadySomewhere(b, [SHRUNK], occ, 0, t) <==> Seconds(10) <= t
      ensures FitsSomewhereAt(b, [SHRUNK], occ, 0, t) <==> Seconds(20) <= t
    {
      ShrunkReady(t);
    }
    EarliestIsUnique(b, [SHRUNK], occ, 0, EarliestStart(b, [SHRUNK], occ, 0), Some(Seconds(10)));
  }

  // --- A reservation that is too late ---

  const GPU0 := Device("gpu", 0, "")
  const GPU1 := Device("gpu", 1, "")

  /** A node that no longer lists the second of its devices, while one job runs on each, for 10 and 20 seconds. */
  const PARTIAL := Node("n", "n", "", Up, 4, 0, [GPU0], None)
  const ON0 := SHORT.(id := "a", reqGpus := 1, gpuType := Any, devices := [Key(GPU0)])
  const ON1 := SHORT.(id := "b", reqGpus := 1, gpuType := Any, devices := [Key(GPU1)], walltime := 20)
  const WIDE := Asking(3, 0).(reqGpus := 1, gpuType := Any)

  lemma PartialClaims()
    ensures CountClaims(ON0.devices, PARTIAL.devices, Any) == 1 && CountClaims(ON1.devices, PARTIAL.devices, Any) == 1
    ensures Matching([GPU0], Any) == [GPU0] && Matching([], Any) == []
  {
    assert [Key(GPU0)][..0] == [] && [Key(GPU1)][..0] == [] && [GPU0][..0] == [];
  }

  /** One device is left once the first job is gone, whatever becomes of the second. */
  lemma PartialDevices(t: Time)
    requires 0 <= t
    ensures Left(PARTIAL.devices, Taken(StillThere([ON0, ON1], 0, t), "n"), Any) == if t < Seconds(10) then 0 else 1
  {
    StillThereMembers([ON0, ON1], 0, t);
    var there := StillThere([ON0, ON1], 0, t);
    var taken := Taken(there, "n");
    assert Key(GPU0) in ON0.devices && Key(GPU0) !in ON1.devices;
    if Key(GPU0) in taken {
      var j :| j in there && Key(GPU0) in j.devices;
      assert j in [ON0, ON1];
    }
    assert ON0 in there <==> ON0 in [ON0, ON1] && t < Seconds(10);
    assert ON0 in there ==> Key(GPU0) in taken;
    PartialClaims();
    assert [GPU0] == [] + [GPU0];
    LeftSnoc([], GPU0, taken, Any);
    assert Left([], taken, Any) == 0;
  }

  lemma PartialShares(r: Res, t: Time)
    requires 0 <= t && (r == Cpu || r == Match(Any))
    ensures Load([ON0, ON1], PARTIAL, r, Always) == 2
    ensures Load([ON0, ON1], PARTIAL, r, Past(0, t)) ==
            if t < Seconds(10) then 2 else if t < Seconds(20) then 1 else 0
  {
    PartialClaims();
    LoadOfTwo(ON0, ON1, PARTIAL, r, Always);
    LoadOfTwo(ON0, ON1, PARTIAL, r, Past(0, t));
  }

  lemma PartialMemory(t: Time)
    ensures 0 <= Avail(PARTIAL, [ON0, ON1], Mem, 0, t)
  {
    LoadSpan([ON0, ON1], PARTIAL, Mem, 0, t, t);
  }

  lemma PartialFree(r: Res, t: Time)
    requires Relevant(WIDE, r) && 0 <= t
    ensures Need(WIDE, r) <= Avail(PARTIAL, [ON0, ON1], r, 0, t) <==>
            r == Mem || Seconds(if r == Cpu then 10 else 20) <= t
    ensures Need(WIDE, r) <= Free(PARTIAL, [ON0, ON1], r, 0, t) <==> r == Mem || Seconds(10) <= t
  {
    hide Load, Left, StillThere;
    PartialClaims();
    match r
    case Mem => PartialMemory(t);
    case _ =>
      PartialShares(r, t);
      PartialDevices(t);
  }

  lemma PartialReady(t: Time)
    requires 0 <= t
    ensures Ready(WIDE, PARTIAL, [ON0, ON1], 0, t) <==> Seconds(20) <= t
    ensures FitsAt(WIDE, PARTIAL, [ON0, ON1], 0, t) <==> Seconds(10) <= t
  {
    hide Load, FitsAt;
    forall r | Relevant(WIDE, r)
      ensures Need(WIDE, r) <= Avail(PARTIAL, [ON0, ON1], r, 0, t) <==>
              r == Mem || Seconds(if r == Cpu then 10 else 20) <= t
      ensures Need(WIDE, r) <= Free(PARTIAL, [ON0, ON1], r, 0, t) <==> r == Mem || Seconds(10) <= t
    {
      PartialFree(r, t);
    }
    assert Relevant(WIDE, Cpu) && Relevant(WIDE, Match(Any));
    FitsIffFree(WIDE, PARTIAL, [ON0, ON1], 0, t);
  }

  lemma PartialIsEligible()
    ensures Eligible(WIDE, PARTIAL) && DistinctKeys(PARTIAL.devices) && NotOvercommitted([ON0, ON1], PARTIAL)
  {
    PartialClaims();
    LoadOfTwo(ON0, ON1, PARTIAL, Cpu, Always);
    LoadOfTwo(ON0, ON1, PARTIAL, Mem, Always);
  }

  /**
   * The sweep counts the device that is gone as held, so it puts the blocked job's start at the end of
   * the second job, though placement accepts it from the end of the first.
   */
  lemma ReservationTooLate()
    ensures Eligible(WIDE, PARTIAL) && DistinctKeys(PARTIAL.devices) && NotOvercommitted([ON0, ON1], PARTIAL)
    ensures EarliestStart(WIDE, [PARTIAL], [ON0, ON1], 0) == Some(Seconds(20))
    ensures forall t | 0 <= t :: FitsSomewhereAt(WIDE, [PARTIAL], [ON0, ON1], 0, t) <==> Seconds(10) <= t
  {
    hide Load, Ready, FitsAt, Eligible, NotOvercommitted;
    var occ := [ON0, ON1];
    assert PARTIAL in [PARTIAL];
    PartialIsEligible();
    forall t | 0 <= t
      ensures ReadySomewhere(WIDE, [PARTIAL], occ, 0, t) <==> Seconds(20) <= t
      ensures FitsSomewhereAt(WIDE, [PARTIAL], occ, 0, t) <==> Seconds(10) <= t
    {
      PartialReady(t);
    }
    EarliestIsUnique(WIDE, [PARTIAL], occ, 0, EarliestStart(WIDE, [PARTIAL], occ, 0), Some(Seconds(20)));
  }
}

/** When a blocked job could start: the declarative answer and the release sweep that computes it. */
module Reservations {
  import opened Types
  import opened Slices
  import opened Resources

  /** What `n` has for `r` at `t` in the source's bookkeeping: free now, plus all that ends by `t`. */
  function Avail(n: Node, occ: seq<Job>, r: Res, now: Time, t: Time): int {
    Base(n, occ, r) + Load(occ, n, r, Always) - Load(occ, n, r, Past(now, t))
  }

  /** Free now; CPUs and memory saturate at zero, the device count does not. */
  function Base(n: Node, occ: seq<Job>, r: Res): int {
    var load := Load(occ, n, r, Always);
    if r.Match? then Cap(n, r) - load else SatSub(Cap(n, r), load)
  }

  ghost predicate Ready(b: Job, n: Node, occ: seq<Job>, now: Time, t: Time) {
    forall r | Relevant(b, r) :: Need(b, r) <= Avail(n, occ, r, now, t)
  }

  /** With every occupant that ends by `t` gone, the totals leave room for `b`. */
  ghost predicate FitsByCount(b: Job, n: Node, occ: seq<Job>, now: Time, t: Time) {
    forall r | Relevant(b, r) :: Load(occ, n, r, Past(now, t)) + Need(b, r) <= Cap(n, r)
  }

  /** The node is UP and in the job's partition. */
  predicate Worthwhile(b: Job, n: Node) {
    n.state.Up? && (b.partition == "" || b.partition == n.partition)
  }

  /** The node may ever hold `b`: it is worthwhile and large enough when empty. */
  predicate Eligible(b: Job, n: Node) {
    && Worthwhile(b, n)
    && b.reqCpus <= n.cpus && b.reqMem <= n.mem
    && b.reqGpus <= |Matching(n.devices, b.gpuType)| % U32
  }

  ghost predicate ReadySomewhere(b: Job, ns: seq<Node>, occ: seq<Job>, now: Time, t: Time) {
    exists n :: n in ns && Eligible(b, n) && Ready(b, n, occ, now, t)
  }

  /** `r` is the least instant from `now` on at which some eligible node is ready; None if there is none. */
  ghost predicate IsEarliest(b: Job, ns: seq<Node>, occ: seq<Job>, now: Time, r: Option<Time>) {
    && (r.Some? ==> now <= r.value && ReadySomewhere(b, ns, occ, now, r.value))
    && forall t | now <= t && ReadySomewhere(b, ns, occ, now, t) :: r.Some? && r.value <= t
  }

  /** The earliest start of `b`; the contract fixes it uniquely. */
  ghost function EarliestStart(b: Job, ns: seq<Node>, occ: seq<Job>, now: Time): (r: Option<Time>)
    ensures IsEarliest(b, ns, occ, now, r)
  {
    if t :| now <= t && ReadySomewhere(b, ns, occ, now, t) then
      var r := LeastOf(b, ns, occ, now, t);
      Some(r)
    else None
  }

  ghost function LeastOf(b: Job, ns: seq<Node>, occ: seq<Job>, now: Time, t: Time): (r: Time)
    requires now <= t && ReadySomewhere(b, ns, occ, now, t)
    ensures IsEarliest(b, ns, occ, now, Some(r))
    decreases t - now
  {
    if u :| now <= u < t && ReadySomewhere(b, ns, occ, now, u) then LeastOf(b, ns, occ, now, u) else t
  }

  lemma EarliestIsUnique(b: Job, ns: seq<Node>, occ: seq<Job>, now: Time, x: Option<Time>, y: Option<Time>)
    requires IsEarliest(b, ns, occ, now, x) && IsEarliest(b, ns, occ, now, y)
    ensures x == y
  {
  }

  /** No sum of requests held on the node exceeds what its counter can represent. */
  ghost predicate NoWrap(occ: seq<Job>, n: Node) {
    Load(occ, n, Cpu, Always) < U32 && Load(occ, n, Mem, Always) < U64
  }

  /** CPUs and memory held on the node stay within its capacity. */
  ghost predicate NotOvercommitted(occ: seq<Job>, n: Node) {
    Load(occ, n, Cpu, Always) <= n.cpus && Load(occ, n, Mem, Always) <= n.mem
  }

  /** The bookkeeping is off from the totals by the overcommit of CPUs and of memory, at every instant. */
  lemma AvailByTotals(n: Node, occ: seq<Job>, r: Res, now: Time, t: Time)
    ensures Avail(n, occ, r, now, t) == Cap(n, r) - Load(occ, n, r, Past(now, t))
                                        + (if r.Match? then 0 else SatSub(Load(occ, n, r, Always), Cap(n, r)))
  {
  }

  lemma CountedIsReady(b: Job, n: Node, occ: seq<Job>, now: Time, t: Time)
    requires FitsByCount(b, n, occ, now, t)
    ensures Ready(b, n, occ, now, t)
  {
    forall r | Relevant(b, r) ensures Need(b, r) <= Avail(n, occ, r, now, t) {
      AvailByTotals(n, occ, r, now, t);
    }
  }

  lemma ReadyIffCounted(b: Job, n: Node, occ: seq<Job>, now: Time, t: Time)
    requires NotOvercommitted(occ, n)
    ensures Ready(b, n, occ, now, t) <==> FitsByCount(b, n, occ, now, t)
  {
    forall r | Relevant(b, r)
      ensures Avail(n, occ, r, now, t) == Cap(n, r) - Load(occ, n, r, Past(now, t))
    {
      AvailByTotals(n, occ, r, now, t);
    }
  }

  lemma {:induction false} EveryoneEnds(occ: seq<Job>, now: Time) returns (t: Time)
    ensures now <= t && forall j | j in occ :: EstEnd(now, j) <= t
  {
    t := now;
    if occ != [] {
      t := EveryoneEnds(occ[..|occ| - 1], now);
      var last := EstEnd(now, occ[|occ| - 1]);
      t := if last > t then last else t;
    }
  }

  /** Ready means each request is met by what is free now and what is given back by `t`. */
  lemma ReadyIs(b: Job, n: Node, occ: seq<Job>, now: Time, t: Time)
    ensures Ready(b, n, occ, now, t) <==>
            var cpus, mem := Load(occ, n, Cpu, Always), Load(occ, n, Mem, Always);
            && b.reqCpus + Load(occ, n, Cpu, Past(now, t)) <= (if cpus <= n.cpus then n.cpus else cpus)
            && b.reqMem + Load(occ, n, Mem, Past(now, t)) <= (if mem <= n.mem then n.mem else mem)
            && b.reqGpus + Load(occ, n, Match(b.gpuType), Past(now, t)) <=
                 |set i | 0 <= i < |n.devices| &&
                   (b.gpuType.Any? || (n.devices[i].name != "" && n.devices[i].name in b.gpuType.names))|
  {
    hide Load, Matching;
    MatchingIs(n.devices, b.gpuType);
    RelevantNeeds(b);
  }

  lemma EligibleIs(b: Job, n: Node)
    ensures Eligible(b, n) <==>
            && n.state.Up? && (b.partition == "" || b.partition == n.partition)
            && b.reqCpus <= n.cpus && b.reqMem <= n.mem
            && b.reqGpus <= |set i | 0 <= i < |n.devices| &&
                 (b.gpuType.Any? || (n.devices[i].name != "" && n.devices[i].name in b.gpuType.names))| % 0x1_0000_0000
  {
    hide Matching;
    MatchingIs(n.devices, b.gpuType);
  }

  /**
   * A reservation is found exactly when some UP node in the partition is large enough when empty; the
   * number of its matching devices is cut to 32 bits.
   */
  lemma FoundIffLargeEnough(b: Job, ns: seq<Node>, occ: seq<Job>, now: Time)
    ensures EarliestStart(b, ns, occ, now).Some? <==>
            exists n :: n in ns && n.state.Up? && (b.partition == "" || b.partition == n.partition)
              && b.reqCpus <= n.cpus && b.reqMem <= n.mem
              && b.reqGpus <= |set i | 0 <= i < |n.devices| &&
                   (b.gpuType.Any? || (n.devices[i].name != "" && n.devices[i].name in b.gpuType.names))|
                 % 0x1_0000_0000
  {
    hide Eligible, EarliestStart;
    FoundIffEligible(b, ns, occ, now);
    forall n { EligibleIs(b, n); }
  }

  lemma FoundIffEligible(b: Job, ns: seq<Node>, occ: seq<Job>, now: Time)
    ensures EarliestStart(b, ns, occ, now).Some? <==> exists n :: n in ns && Eligible(b, n)
  {
    if n :| n in ns && Eligible(b, n) {
      var t := EveryoneEnds(occ, now);
      forall r | Relevant(b, r) ensures Need(b, r) <= Avail(n, occ, r, now, t) {
        LoadSpan(occ, n, r, now, t, t);
        AvailByTotals(n, occ, r, now, t);
        assert Need(b, r) <= Cap(n, r);
      }
      assert ReadySomewhere(b, ns, occ, now, t);
    }
  }

  // --- The release sweep ---

  datatype Occupation = Occupation(end: Time, cpus: u32, mem: u64, matching: nat)

  function OccUse(o: Occupation, r: Res): nat {
    match r
    case Cpu => o.cpus
    case Mem => o.mem
    case Match(_) => o.matching
  }

  function OccShare(o: Occupation, r: Res, until: Option<Time>): nat {
    if until.None? || o.end <= until.value then OccUse(o, r) else 0
  }

  /** What the occupations ending by `until` give back; all of them when it is None. */
  function Freed(os: seq<Occupation>, r: Res, until: Option<Time>): nat {
    if os == [] then 0 else Freed(os[..|os| - 1], r, until) + OccShare(os[|os| - 1], r, until)
  }

  function OccOf(j: Job, n: Node, now: Time, g: GpuType): Occupation {
    Occupation(EstEnd(now, j), j.reqCpus, j.reqMem, CountClaims(j.devices, n.devices, g))
  }

  function OccsOf(js: seq<Job>, n: Node, now: Time, g: GpuType): seq<Occupation> {
    if js == [] then []
    else
      OccsOf(js[..|js| - 1], n, now, g)
      + (if js[|js| - 1].nodeId == n.id then [OccOf(js[|js| - 1], n, now, g)] else [])
  }

  lemma {:induction false} FreedConcat(a: seq<Occupation>, b: seq<Occupation>, r: Res, until: Option<Time>)
    ensures Freed(a + b, r, until) == Freed(a, r, until) + Freed(b, r, until)
  {
    if b == [] {
      assert a + b == a;
    } else {
      assert (a + b)[..|a + b| - 1] == a + b[..|b| - 1];
      FreedConcat(a, b[..|b| - 1], r, until);
    }
  }

  lemma {:induction false} FreedPermutation(a: seq<Occupation>, b: seq<Occupation>, r: Res, until: Option<Time>)
    requires multiset(a) == multiset(b)
    ensures Freed(a, r, until) == Freed(b, r, until)
    decreases |a|
  {
    if a == [] {
      assert |multiset(b)| == 0;
    } else {
      var k := PermutationStep(a, b);
      FreedPermutation(a[..|a| - 1], b[..k] + b[k + 1..], r, until);
      assert b == b[..k] + ([b[k]] + b[k + 1..]);
      FreedConcat(b[..k], [b[k]] + b[k + 1..], r, until);
      FreedConcat([b[k]], b[k + 1..], r, until);
      FreedConcat(b[..k], b[k + 1..], r, until);
    }
  }

  lemma {:induction false} FreedBounds(os: seq<Occupation>, r: Res, t: Time)
    ensures Freed(os, r, Some(t)) <= Freed(os, r, None)
    ensures (forall o | o in os :: o.end <= t) ==> Freed(os, r, Some(t)) == Freed(os, r, None)
    ensures (forall o | o in os :: t < o.end) ==> Freed(os, r, Some(t)) == 0
  {
    if os != [] {
      FreedBounds(os[..|os| - 1], r, t);
    }
  }

  lemma OccsSnoc(js: seq<Job>, j: Job, n: Node, now: Time, g: GpuType, r: Res, until: Option<Time>)
    ensures Freed(OccsOf(js + [j], n, now, g), r, until)
            == Freed(OccsOf(js, n, now, g), r, until)
               + (if j.nodeId == n.id then OccShare(OccOf(j, n, now, g), r, until) else 0)
  {
    assert (js + [j])[..|js|] == js;
    var os := OccsOf(js, n, now, g);
    if j.nodeId == n.id {
      assert (os + [OccOf(j, n, now, g)])[..|os|] == os;
    } else {
      assert os + [] == os;
    }
  }

  lemma OccShareIsShare(j: Job, b: Job, n: Node, now: Time, r: Res, t: Time)
    requires Relevant(b, r) && j.nodeId == n.id
    ensures OccShare(OccOf(j, n, now, b.gpuType), r, None) == Share(j, n, r, Always)
    ensures OccShare(OccOf(j, n, now, b.gpuType), r, Some(t)) == Share(j, n, r, Always) - Share(j, n, r, Past(now, t))
  {
  }

  lemma {:induction false} FreedIsTotal(js: seq<Job>, b: Job, n: Node, now: Time, r: Res)
    requires Relevant(b, r)
    ensures Freed(OccsOf(js, n, now, b.gpuType), r, None) == Load(js, n, r, Always)
  {
    if js != [] {
      var init, j := js[..|js| - 1], js[|js| - 1];
      assert js == init + [j];
      FreedIsTotal(init, b, n, now, r);
      OccsSnoc(init, j, n, now, b.gpuType, r, None);
      LoadSnoc(init, j, n, r, Always);
      if j.nodeId == n.id {
        OccShareIsShare(j, b, n, now, r, now);
      }
    }
  }

  /** The occupations built from the jobs give back exactly what the jobs hold. */
  lemma {:induction false} FreedIsLoad(js: seq<Job>, b: Job, n: Node, now: Time, r: Res, t: Time)
    requires Relevant(b, r)
    ensures Freed(OccsOf(js, n, now, b.gpuType), r, Some(t))
            == Load(js, n, r, Always) - Load(js, n, r, Past(now, t))
  {
    if js != [] {
      var init, j := js[..|js| - 1], js[|js| - 1];
      assert js == init + [j];
      FreedIsLoad(init, b, n, now, r, t);
      OccsSnoc(init, j, n, now, b.gpuType, r, Some(t));
      LoadSnoc(init, j, n, r, Always);
      LoadSnoc(init, j, n, r, Past(now, t));
      if j.nodeId == n.id {
        OccShareIsShare(j, b, n, now, r, t);
      }
    }
  }

  ghost predicate SortedByEnd(os: seq<Occupation>) {
    forall i, k | 0 <= i < k < |os| :: os[i].end <= os[k].end
  }

  /** The counters after the first `i` releases of the sweep. */
  ghost function Counter(n: Node, occ: seq<Job>, os: seq<Occupation>, i: nat, r: Res): int
    requires i <= |os|
  {
    Base(n, occ, r) + Freed(os[..i], r, None)
  }

  ghost predicate FitsAfter(b: Job, n: Node, occ: seq<Job>, os: seq<Occupation>, i: nat)
    requires i <= |os|
  {
    forall r | Relevant(b, r) :: Need(b, r) <= Counter(n, occ, os, i, r)
  }

  lemma AvailBySweep(b: Job, n: Node, occ: seq<Job>, now: Time, os: seq<Occupation>, i: nat, t: Time, r: Res)
    requires multiset(os) == multiset(OccsOf(occ, n, now, b.gpuType)) && i <= |os| && Relevant(b, r)
    ensures Avail(n, occ, r, now, t) == Base(n, occ, r) + Freed(os[..i], r, Some(t)) + Freed(os[i..], r, Some(t))
  {
    FreedIsLoad(occ, b, n, now, r, t);
    FreedPermutation(os, OccsOf(occ, n, now, b.gpuType), r, Some(t));
    assert os == os[..i] + os[i..];
    FreedConcat(os[..i], os[i..], r, Some(t));
  }

  /** A prefix of a sorted sweep has given back no more than the clock has, and no less. */
  lemma PrefixMeetsClock(b: Job, n: Node, occ: seq<Job>, now: Time, os: seq<Occupation>, i: nat, t: Time, r: Res)
    requires multiset(os) == multiset(OccsOf(occ, n, now, b.gpuType)) && SortedByEnd(os) && i <= |os|
    requires Relevant(b, r)
    ensures (i > 0 ==> os[i - 1].end <= t) ==> Counter(n, occ, os, i, r) <= Avail(n, occ, r, now, t)
    ensures (i < |os| ==> t < os[i].end) ==> Avail(n, occ, r, now, t) <= Counter(n, occ, os, i, r)
  {
    hide Freed, Load, OccsOf, Base;
    AvailBySweep(b, n, occ, now, os, i, t, r);
    FreedBounds(os[..i], r, t);
    FreedBounds(os[i..], r, t);
  }

  /** A sorted sweep is ahead of no instant after its prefix and behind no instant its prefix has reached. */
  lemma SweepMeetsClock(b: Job, n: Node, occ: seq<Job>, now: Time, os: seq<Occupation>, i: nat, t: Time)
    requires multiset(os) == multiset(OccsOf(occ, n, now, b.gpuType)) && SortedByEnd(os) && i <= |os|
    ensures (i > 0 ==> os[i - 1].end <= t) && FitsAfter(b, n, occ, os, i) ==> Ready(b, n, occ, now, t)
    ensures (i < |os| ==> t < os[i].end) && Ready(b, n, occ, now, t) ==> FitsAfter(b, n, occ, os, i)
  {
    forall r | Relevant(b, r)
      ensures (i > 0 ==> os[i - 1].end <= t) ==> Counter(n, occ, os, i, r) <= Avail(n, occ, r, now, t)
      ensures (i < |os| ==> t < os[i].end) ==> Avail(n, occ, r, now, t) <= Counter(n, occ, os, i, r)
    {
      PrefixMeetsClock(b, n, occ, now, os, i, t, r);
    }
  }

  /** Adding a released occupation back never wraps, because base plus total is at most the larger of the two. */
  lemma CounterStaysInRange(b: Job, n: Node, occ: seq<Job>, now: Time, os: seq<Occupation>, i: nat, r: Res)
    requires multiset(os) == multiset(OccsOf(occ, n, now, b.gpuType)) && i < |os| && Relevant(b, r)
    ensures Counter(n, occ, os, i + 1, r) == Counter(n, occ, os, i, r) + OccUse(os[i], r)
    ensures var load := Load(occ, n, r, Always);
            Counter(n, occ, os, i + 1, r) <= if load <= Cap(n, r) then Cap(n, r) else load
  {
    assert os[..i + 1] == os[..i] + [os[i]] && os == os[..i + 1] + os[i + 1..];
    FreedConcat(os[..i], [os[i]], r, None);
    FreedConcat(os[..i + 1], os[i + 1..], r, None);
    FreedIsTotal(occ, b, n, now, r);
    FreedPermutation(os, OccsOf(occ, n, now, b.gpuType), r, None);
  }

  /** One release in machine arithmetic. */
  lemma SweepStep(b: Job, n: Node, occ: seq<Job>, now: Time, os: seq<Occupation>, i: nat)
    requires multiset(os) == multiset(OccsOf(occ, n, now, b.gpuType)) && i < |os|
    ensures NoWrap(occ, n) ==> Counter(n, occ, os, i + 1, Cpu) == (Counter(n, occ, os, i, Cpu) + os[i].cpus) % U32
    ensures NoWrap(occ, n) ==> Counter(n, occ, os, i + 1, Mem) == (Counter(n, occ, os, i, Mem) + os[i].mem) % U64
    ensures Counter(n, occ, os, i + 1, Match(b.gpuType)) == Counter(n, occ, os, i, Match(b.gpuType)) + os[i].matching
  {
    hide Freed, OccsOf, Load;
    CounterStaysInRange(b, n, occ, now, os, i, Cpu);
    CounterStaysInRange(b, n, occ, now, os, i, Mem);
    CounterStaysInRange(b, n, occ, now, os, i, Match(b.gpuType));
  }

  method CountMatchingDevices(devs: seq<Device>, g: GpuType) returns (c: nat)
    ensures c == |Matching(devs, g)|
    ensures c == |set i | 0 <= i < |devs| && (g.Any? || (devs[i].name != "" && devs[i].name in g.names))|
  {
    MatchingIs(devs, g);
    c := 0;
    for i := 0 to |devs|
      invariant c == |Matching(devs[..i], g)|
    {
      assert devs[..i + 1] == devs[..i] + [devs[i]];
      MatchingSnoc(devs[..i], devs[i], g);
      if MatchName(devs[i].name, g) {
        c := c + 1;
      }
    }
    assert devs[..|devs|] == devs;
  }

  method CountJobMatching(j: Job, n: Node, g: GpuType) returns (c: nat)
    ensures c == CountClaims(j.devices, n.devices, g)
  {
    var names: map<AllocDevice, string> := map[];
    for i := 0 to |n.devices|
      invariant forall k :: NameOf(n.devices[..i], k) == if k in names then names[k] else ""
    {
      assert n.devices[..i + 1][..i] == n.devices[..i];
      names := names[Key(n.devices[i]) := n.devices[i].name];
    }
    assert n.devices[..|n.devices|] == n.devices;
    c := 0;
    for i := 0 to |j.devices|
      invariant c == CountClaims(j.devices[..i], n.devices, g)
    {
      assert j.devices[..i + 1][..i] == j.devices[..i];
      var k := j.devices[i];
      if MatchName(if k in names then names[k] else "", g) {
        c := c + 1;
      }
    }
    assert j.devices[..|j.devices|] == j.devices;
  }

  lemma {:induction false} OccsEndLater(js: seq<Job>, n: Node, now: Time, g: GpuType)
    ensures forall o | o in OccsOf(js, n, now, g) :: now <= o.end
  {
    if js != [] {
      OccsEndLater(js[..|js| - 1], n, now, g);
    }
  }

  /** The first half of the source's function: the occupations of the jobs on `n`. */
  method Occupations(now: Time, g: GpuType, n: Node, active: seq<Job>) returns (occs: seq<Occupation>)
    ensures occs == OccsOf(active, n, now, g)
  {
    occs := [];
    for i := 0 to |active|
      invariant occs == OccsOf(active[..i], n, now, g)
    {
      assert active[..i + 1][..i] == active[..i];
      var j := active[i];
      if j.nodeId != n.id {
        continue;
      }
      var m := CountJobMatching(j, n, g);
      occs := occs + [Occupation(EstEnd(now, j), j.reqCpus, j.reqMem, m)];
    }
    assert active[..|active|] == active;
  }

  /** The counters before any release: capacity less every occupation, one saturating step at a time. */
  method FreeNow(n: Node, g: GpuType, occs: seq<Occupation>)
    returns (cpus: u32, mem: u64, matching: int)
    ensures cpus == SatSub(n.cpus, Freed(occs, Cpu, None))
    ensures mem == SatSub(n.mem, Freed(occs, Mem, None))
    ensures matching == Cap(n, Match(g)) - Freed(occs, Match(g), None)
  {
    cpus, mem := n.cpus, n.mem;
    matching := CountMatchingDevices(n.devices, g);
    for i := 0 to |occs|
      invariant cpus == SatSub(n.cpus, Freed(occs[..i], Cpu, None))
      invariant mem == SatSub(n.mem, Freed(occs[..i], Mem, None))
      invariant matching == Cap(n, Match(g)) - Freed(occs[..i], Match(g), None)
    {
      assert occs[..i + 1][..i] == occs[..i];
      cpus := SatSub(cpus, occs[i].cpus);
      mem := SatSub(mem, occs[i].mem);
      matching := matching - occs[i].matching;
    }
    assert occs[..|occs|] == occs;
  }

  /** Between two releases nothing changes: a sweep that fails before release `i` fails at every instant before it. */
  lemma NotReadyBefore(b: Job, n: Node, occ: seq<Job>, now: Time, os: seq<Occupation>, i: nat)
    requires multiset(os) == multiset(OccsOf(occ, n, now, b.gpuType)) && SortedByEnd(os) && i <= |os|
    requires !FitsAfter(b, n, occ, os, i)
    ensures forall t | now <= t && (i < |os| ==> t < os[i].end) :: !Ready(b, n, occ, now, t)
  {
    forall t | now <= t && (i < |os| ==> t < os[i].end) ensures !Ready(b, n, occ, now, t) {
      SweepMeetsClock(b, n, occ, now, os, i, t);
    }
  }

  /** The release at which the job first fits is the least ready instant. */
  lemma LeastAt(b: Job, n: Node, occ: seq<Job>, now: Time, os: seq<Occupation>, i: nat)
    requires multiset(os) == multiset(OccsOf(occ, n, now, b.gpuType)) && SortedByEnd(os) && i < |os|
    requires !FitsAfter(b, n, occ, os, i) && FitsAfter(b, n, occ, os, i + 1)
    ensures Ready(b, n, occ, now, os[i].end)
    ensures forall t | now <= t < os[i].end :: !Ready(b, n, occ, now, t)
  {
    NotReadyBefore(b, n, occ, now, os, i);
    SweepMeetsClock(b, n, occ, now, os, i + 1, os[i].end);
  }

  lemma FitsByCounters(b: Job, n: Node, occ: seq<Job>, os: seq<Occupation>, i: nat)
    requires i <= |os|
    ensures FitsAfter(b, n, occ, os, i) <==>
            && b.reqCpus <= Counter(n, occ, os, i, Cpu)
            && b.reqMem <= Counter(n, occ, os, i, Mem)
            && b.reqGpus <= Counter(n, occ, os, i, Match(b.gpuType))
  {
    assert Relevant(b, Cpu) && Relevant(b, Mem) && Relevant(b, Match(b.gpuType));
    assert Need(b, Cpu) == b.reqCpus && Need(b, Mem) == b.reqMem && Need(b, Match(b.gpuType)) == b.reqGpus;
  }

  /**
   * The release sweep. The 32- and 64-bit additions are written with their wrap-around; unless the
   * requests held on the node already exceed those widths, the result is the least ready instant.
   */
  method NodeReservationTime(now: Time, blocked: Job, n: Node, active: seq<Job>) returns (r: Option<Time>)
    ensures NoWrap(active, n) && r.Some? ==>
              now <= r.value && Ready(blocked, n, active, now, r.value)
              && forall t | now <= t < r.value :: !Ready(blocked, n, active, now, t)
    ensures NoWrap(active, n) && r.None? ==> forall t | now <= t :: !Ready(blocked, n, active, now, t)
  {
    var g := blocked.gpuType;
    var occs := Occupations(now, g, n, active);
    var freeCpus, freeMem, freeMatch := FreeNow(n, g, occs);
    ghost var jobs := occs;
    FreedIsTotal(active, blocked, n, now, Cpu);
    FreedIsTotal(active, blocked, n, now, Mem);
    FreedIsTotal(active, blocked, n, now, Match(g));
    if freeCpus >= blocked.reqCpus && freeMem >= blocked.reqMem && freeMatch >= blocked.reqGpus {
      ReadyAtOnce(blocked, n, active, now);
      return Some(now);
    }
    OccsEndLater(active, n, now, g);
    occs := SortSlice(occs, (x: Occupation, y: Occupation) => x.end < y.end);
    assert forall o | o in occs :: o in multiset(jobs);
    r := Sweep(now, blocked, n, active, occs, freeCpus, freeMem, freeMatch);
  }

  lemma ReadyAtOnce(b: Job, n: Node, occ: seq<Job>, now: Time)
    requires forall r | Relevant(b, r) :: Need(b, r) <= Base(n, occ, r)
    ensures Ready(b, n, occ, now, now)
  {
    forall r | Relevant(b, r) ensures Need(b, r) <= Avail(n, occ, r, now, now) {
      LoadSpan(occ, n, r, now, now, now);
    }
  }

  /** The second half: give the occupations back in order of their end until the job fits. */
  method Sweep(now: Time, blocked: Job, n: Node, ghost active: seq<Job>, occs: seq<Occupation>,
               cpus: u32, mem: u64, matching: int)
    returns (r: Option<Time>)
    requires multiset(occs) == multiset(OccsOf(active, n, now, blocked.gpuType)) && SortedByEnd(occs)
    requires forall o | o in occs :: now <= o.end
    requires cpus == Base(n, active, Cpu) && mem == Base(n, active, Mem)
    requires matching == Base(n, active, Match(blocked.gpuType))
    requires !(cpus >= blocked.reqCpus && mem >= blocked.reqMem && matching >= blocked.reqGpus)
    ensures NoWrap(active, n) && r.Some? ==>
              now <= r.value && Ready(blocked, n, active, now, r.value)
              && forall t | now <= t < r.value :: !Ready(blocked, n, active, now, t)
    ensures NoWrap(active, n) && r.None? ==> forall t | now <= t :: !Ready(blocked, n, active, now, t)
  {
    hide OccsOf, Load, Ready, NoWrap;
    ghost var ok, g := NoWrap(active, n), blocked.gpuType;
    var freeCpus, freeMem, freeMatch := cpus, mem, matching;
    FitsByCounters(blocked, n, active, occs, 0);
    for i := 0 to |occs|
      invariant ok ==> freeCpus == Counter(n, active, occs, i, Cpu) && freeMem == Counter(n, active, occs, i, Mem)
      invariant freeMatch == Counter(n, active, occs, i, Match(g))
      invariant ok ==> !FitsAfter(blocked, n, active, occs, i)
    {
      SweepStep(blocked, n, active, now, occs, i);
      FitsByCounters(blocked, n, active, occs, i + 1);
      freeCpus := (freeCpus + occs[i].cpus) % U32;
      freeMem := (freeMem + occs[i].mem) % U64;
      freeMatch := freeMatch + occs[i].matching;
      if freeCpus >= blocked.reqCpus && freeMem >= blocked.reqMem && freeMatch >= blocked.reqGpus {
        if ok {
          LeastAt(blocked, n, active, now, occs, i);
        }
        return Some(occs[i].end);
      }
    }
    if ok {
      NotReadyBefore(blocked, n, active, now, occs, |occs|);
    }
    return None;
  }

  /** One more node that is never an option leaves the answer as it was. */
  lemma SkipNode(b: Job, ns: seq<Node>, n: Node, occ: seq<Job>, now: Time, best: Option<Time>)
    requires IsEarliest(b, ns, occ, now, best)
    requires Eligible(b, n) ==> forall t | now <= t :: !Ready(b, n, occ, now, t)
    ensures IsEarliest(b, ns + [n], occ, now, best)
  {
    forall t | now <= t
      ensures ReadySomewhere(b, ns + [n], occ, now, t) <==> ReadySomewhere(b, ns, occ, now, t)
    {
      if ReadySomewhere(b, ns, occ, now, t) {
        var m :| m in ns && Eligible(b, m) && Ready(b, m, occ, now, t);
        assert m in ns + [n];
      }
    }
  }

  /** One more node, ready first at `t`. */
  lemma TakeNode(b: Job, ns: seq<Node>, n: Node, occ: seq<Job>, now: Time, best: Option<Time>, t: Time)
    requires IsEarliest(b, ns, occ, now, best) && Eligible(b, n)
    requires now <= t && Ready(b, n, occ, now, t) && forall u | now <= u < t :: !Ready(b, n, occ, now, u)
    ensures IsEarliest(b, ns + [n], occ, now, if best.None? || t < best.value then Some(t) else best)
  {
    assert n in ns + [n];
    assert ReadySomewhere(b, ns + [n], occ, now, t);
    forall u | now <= u
      ensures ReadySomewhere(b, ns + [n], occ, now, u) ==> t <= u || ReadySomewhere(b, ns, occ, now, u)
      ensures ReadySomewhere(b, ns, occ, now, u) ==> ReadySomewhere(b, ns + [n], occ, now, u)
    {
      if ReadySomewhere(b, ns, occ, now, u) {
        var m :| m in ns && Eligible(b, m) && Ready(b, m, occ, now, u);
        assert m in ns + [n];
      }
    }
  }

  /** The least reservation over the nodes. */
  method ReservationTime(now: Time, blocked: Job, nodes: seq<Node>, active: seq<Job>) returns (best: Option<Time>)
    ensures (forall n | n in nodes :: NoWrap(active, n)) ==> best == EarliestStart(blocked, nodes, active, now)
  {
    best := None;
    ghost var ok := forall n | n in nodes :: NoWrap(active, n);
    for i := 0 to |nodes|
      invariant ok ==> IsEarliest(blocked, nodes[..i], active, now, best)
    {
      var n := nodes[i];
      assert nodes[..i + 1] == nodes[..i] + [n];
      var t := None;
      if Worthwhile(blocked, n) {
        var count := CountMatchingDevices(n.devices, blocked.gpuType);
        if !(n.cpus < blocked.reqCpus || n.mem < blocked.reqMem || count % U32 < blocked.reqGpus) {
          t := NodeReservationTime(now, blocked, n, active);
        }
      }
      if ok {
        if t.None? {
          SkipNode(blocked, nodes[..i], n, active, now, best);
        } else {
          TakeNode(blocked, nodes[..i], n, active, now, best, t.value);
        }
      }
      if t.Some? && (best.None? || t.value < best.value) {
        best := t;
      }
    }
    assert nodes[..|nodes|] == nodes;
    if ok {
      EarliestIsUnique(blocked, nodes, active, now, best, EarliestStart(blocked, nodes, active, now));
    }
  }
}

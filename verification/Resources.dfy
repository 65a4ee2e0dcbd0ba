/** What a set of jobs holds on a node, measured the same way for CPUs, memory and matching devices. */
module Resources {
  import opened Types
  import opened Slices

  /** A measurable resource; `Match(g)` counts the devices a gpu_type constraint accepts. */
  datatype Res = Cpu | Mem | Match(g: GpuType)

  /**
   * Which occupants count: all; those still running after `t` as estimated at `now`; those of them that
   * may really be, an unbounded one at any time; or the unbounded ones only.
   */
  datatype Span = Always | Past(now: Time, t: Time) | Staying(now: Time, t: Time) | Unbounded

  /** The estimated end of an occupant. */
  function EstEnd(now: Time, j: Job): (end: Time)
    ensures now <= end
  {
    if j.walltime <= 0 then now + CENTURY
    else
      var end := (if j.startAt.Some? then j.startAt.value else now) + Seconds(j.walltime);
      if end < now then now else end
  }

  /** The devices a constraint accepts, in inventory order. */
  function Matching(devs: seq<Device>, g: GpuType): (m: seq<Device>)
    ensures |m| <= |devs|
  {
    if devs == [] then []
    else
      var d := devs[|devs| - 1];
      Matching(devs[..|devs| - 1], g) + (if MatchName(d.name, g) then [d] else [])
  }

  /** The device list without the keys in `taken`; the order of the rest is kept. */
  function Without(devs: seq<Device>, taken: set<AllocDevice>): seq<Device> {
    if devs == [] then []
    else
      var d := devs[|devs| - 1];
      Without(devs[..|devs| - 1], taken) + (if Key(d) in taken then [] else [d])
  }

  /** The name the inventory records under a key (the last one, if repeated); "" when there is none. */
  function NameOf(devs: seq<Device>, k: AllocDevice): string {
    if devs == [] then ""
    else if Key(devs[|devs| - 1]) == k then devs[|devs| - 1].name
    else NameOf(devs[..|devs| - 1], k)
  }

  /** How many of the claimed devices satisfy `g`, by the names in the inventory. */
  function CountClaims(claims: seq<AllocDevice>, inventory: seq<Device>, g: GpuType): (c: nat)
    ensures c <= |claims|
  {
    if claims == [] then 0
    else
      CountClaims(claims[..|claims| - 1], inventory, g)
      + (if MatchName(NameOf(inventory, claims[|claims| - 1]), g) then 1 else 0)
  }

  function Use(j: Job, n: Node, r: Res): nat {
    match r
    case Cpu => j.reqCpus
    case Mem => j.reqMem
    case Match(g) => CountClaims(j.devices, n.devices, g)
  }

  function Need(j: Job, r: Res): nat {
    match r
    case Cpu => j.reqCpus
    case Mem => j.reqMem
    case Match(_) => j.reqGpus
  }

  function Cap(n: Node, r: Res): nat {
    match r
    case Cpu => n.cpus
    case Mem => n.mem
    case Match(g) => |Matching(n.devices, g)|
  }

  /** The resources whose shortage can block `j`. */
  predicate Relevant(j: Job, r: Res) {
    r.Match? ==> r.g == j.gpuType
  }

  lemma RelevantNeeds(b: Job)
    ensures Relevant(b, Cpu) && Need(b, Cpu) == b.reqCpus
    ensures Relevant(b, Mem) && Need(b, Mem) == b.reqMem
    ensures Relevant(b, Match(b.gpuType)) && Need(b, Match(b.gpuType)) == b.reqGpus
    ensures forall r | Relevant(b, r) :: r == Cpu || r == Mem || r == Match(b.gpuType)
  {
  }

  predicate Counts(j: Job, n: Node, s: Span) {
    j.nodeId == n.id &&
    match s
    case Always => true
    case Past(now, t) => t < EstEnd(now, j)
    case Staying(now, t) => j.walltime <= 0 || t < EstEnd(now, j)
    case Unbounded => j.walltime <= 0
  }

  function Share(j: Job, n: Node, r: Res, s: Span): nat {
    if Counts(j, n, s) then Use(j, n, r) else 0
  }

  /** The total that the jobs counted by `s` hold on `n`. */
  function Load(js: seq<Job>, n: Node, r: Res, s: Span): nat {
    if js == [] then 0 else Load(js[..|js| - 1], n, r, s) + Share(js[|js| - 1], n, r, s)
  }

  function KeySet(claims: seq<AllocDevice>): set<AllocDevice> {
    set k | k in claims
  }

  /** The device keys held on the node with this id. */
  function Taken(js: seq<Job>, id: string): set<AllocDevice> {
    set j, d | j in js && j.nodeId == id && d in j.devices :: d
  }

  lemma LoadSnoc(js: seq<Job>, j: Job, n: Node, r: Res, s: Span)
    ensures Load(js + [j], n, r, s) == Load(js, n, r, s) + Share(j, n, r, s)
  {
    assert (js + [j])[..|js|] == js;
  }

  lemma {:induction false} LoadConcat(a: seq<Job>, b: seq<Job>, n: Node, r: Res, s: Span)
    ensures Load(a + b, n, r, s) == Load(a, n, r, s) + Load(b, n, r, s)
  {
    if b == [] {
      assert a + b == a;
    } else {
      var init, last := b[..|b| - 1], b[|b| - 1];
      assert a + b == (a + init) + [last];
      LoadSnoc(a + init, last, n, r, s);
      LoadConcat(a, init, n, r, s);
    }
  }

  lemma LoadRemove(js: seq<Job>, i: nat, n: Node, r: Res, s: Span)
    requires i < |js|
    ensures Load(js, n, r, s) == Load(js[..i] + js[i + 1..], n, r, s) + Share(js[i], n, r, s)
  {
    assert js == js[..i] + [js[i]] + js[i + 1..];
    LoadConcat(js[..i] + [js[i]], js[i + 1..], n, r, s);
    LoadSnoc(js[..i], js[i], n, r, s);
    LoadConcat(js[..i], js[i + 1..], n, r, s);
  }

  /** A total does not depend on the order of the jobs. */
  lemma {:induction false} LoadPermutation(a: seq<Job>, b: seq<Job>, n: Node, r: Res, s: Span)
    requires multiset(a) == multiset(b)
    ensures Load(a, n, r, s) == Load(b, n, r, s)
    decreases |a|
  {
    if a == [] {
      assert |multiset(b)| == 0;
    } else {
      var k := PermutationStep(a, b);
      LoadPermutation(a[..|a| - 1], b[..k] + b[k + 1..], n, r, s);
      LoadRemove(b, k, n, r, s);
    }
  }

  /** Counting fewer occupants never raises a total, and later instants count fewer. */
  lemma {:induction false} LoadSpan(js: seq<Job>, n: Node, r: Res, now: Time, t: Time, u: Time)
    requires t <= u
    ensures Load(js, n, r, Past(now, u)) <= Load(js, n, r, Past(now, t)) <= Load(js, n, r, Always)
    ensures (forall j | j in js :: j.nodeId == n.id ==> t < EstEnd(now, j)) ==>
              Load(js, n, r, Past(now, t)) == Load(js, n, r, Always)
    ensures (forall j | j in js :: EstEnd(now, j) <= t) ==> Load(js, n, r, Past(now, t)) == 0
  {
    if js != [] {
      LoadSpan(js[..|js| - 1], n, r, now, t, u);
    }
  }

  /** Counting fewer occupants never raises a total. */
  lemma {:induction false} LoadShrinks(js: seq<Job>, n: Node, r: Res, s: Span, s': Span)
    requires forall j | j in js :: Share(j, n, r, s) <= Share(j, n, r, s')
    ensures Load(js, n, r, s) <= Load(js, n, r, s')
  {
    if js != [] {
      LoadShrinks(js[..|js| - 1], n, r, s, s');
    }
  }

  /** CPU and memory totals depend on a node only through its id. */
  lemma {:induction false} LoadById(js: seq<Job>, n: Node, m: Node, r: Res)
    requires n.id == m.id && !r.Match?
    ensures Load(js, n, r, Always) == Load(js, m, r, Always)
  {
    if js != [] {
      LoadById(js[..|js| - 1], n, m, r);
    }
  }

  lemma {:induction false} WithoutUnion(devs: seq<Device>, a: set<AllocDevice>, b: set<AllocDevice>)
    ensures Without(Without(devs, a), b) == Without(devs, a + b)
  {
    if devs != [] {
      var init, d := devs[..|devs| - 1], devs[|devs| - 1];
      WithoutUnion(init, a, b);
      if Key(d) !in a {
        assert (Without(init, a) + [d])[..|Without(init, a)|] == Without(init, a);
      } else {
        assert Without(devs, a) == Without(init, a);
      }
    }
  }

  lemma {:induction false} WithoutNothing(devs: seq<Device>)
    ensures Without(devs, {}) == devs
  {
    if devs != [] {
      WithoutNothing(devs[..|devs| - 1]);
    }
  }

  /** How many matching devices are left once `taken` is set aside. */
  function Left(devs: seq<Device>, taken: set<AllocDevice>, g: GpuType): nat {
    |Matching(Without(devs, taken), g)|
  }

  lemma MatchingSnoc(devs: seq<Device>, d: Device, g: GpuType)
    ensures Matching(devs + [d], g) == Matching(devs, g) + (if MatchName(d.name, g) then [d] else [])
  {
    assert (devs + [d])[..|devs|] == devs;
  }

  lemma LeftSnoc(devs: seq<Device>, d: Device, taken: set<AllocDevice>, g: GpuType)
    ensures Left(devs + [d], taken, g)
            == Left(devs, taken, g) + (if Key(d) !in taken && MatchName(d.name, g) then 1 else 0)
  {
    assert (devs + [d])[..|devs|] == devs;
    var rest := Without(devs, taken);
    if Key(d) in taken {
      assert rest + [] == rest;
    } else {
      MatchingSnoc(rest, d, g);
    }
  }

  /** Setting more devices aside leaves no more matches. */
  lemma {:induction false} LeftShrinks(devs: seq<Device>, a: set<AllocDevice>, b: set<AllocDevice>, g: GpuType)
    requires a <= b
    ensures Left(devs, b, g) <= Left(devs, a, g)
  {
    if devs != [] {
      var init, d := devs[..|devs| - 1], devs[|devs| - 1];
      assert devs == init + [d];
      LeftShrinks(init, a, b, g);
      LeftSnoc(init, d, a, g);
      LeftSnoc(init, d, b, g);
    }
  }

  // --- Well-formed device claims ---

  ghost predicate DistinctKeys(devs: seq<Device>) {
    forall i, k | 0 <= i < k < |devs| :: Key(devs[i]) != Key(devs[k])
  }

  ghost predicate Distinct(claims: seq<AllocDevice>) {
    forall i, k | 0 <= i < k < |claims| :: claims[i] != claims[k]
  }

  ghost predicate InInventory(k: AllocDevice, devs: seq<Device>) {
    exists i :: 0 <= i < |devs| && Key(devs[i]) == k
  }

  /** Every job on `n` holds distinct devices of its inventory, and no two jobs share one. */
  ghost predicate WellClaimed(js: seq<Job>, n: Node) {
    && DistinctKeys(n.devices)
    && (forall j | j in js && j.nodeId == n.id ::
          Distinct(j.devices) && forall d | d in j.devices :: InInventory(d, n.devices))
    && (forall i, k | 0 <= i < k < |js| && js[i].nodeId == n.id && js[k].nodeId == n.id ::
          forall d | d in js[i].devices :: d !in js[k].devices)
  }

  lemma {:induction false} NameOfKey(devs: seq<Device>, i: nat)
    requires DistinctKeys(devs) && i < |devs|
    ensures NameOf(devs, Key(devs[i])) == devs[i].name
  {
    if i < |devs| - 1 {
      NameOfKey(devs[..|devs| - 1], i);
    }
  }

  /** Setting one more inventory device aside costs one match exactly when its name matches. */
  lemma {:induction false} LeftLosesOne(devs: seq<Device>, taken: set<AllocDevice>, i: nat, g: GpuType)
    requires DistinctKeys(devs) && i < |devs| && Key(devs[i]) !in taken
    ensures Left(devs, taken, g)
            == Left(devs, taken + {Key(devs[i])}, g) + (if MatchName(devs[i].name, g) then 1 else 0)
  {
    hide Without, Matching;
    var init, last := devs[..|devs| - 1], devs[|devs| - 1];
    assert devs == init + [last];
    LeftSnoc(init, last, taken, g);
    LeftSnoc(init, last, taken + {Key(devs[i])}, g);
    if i == |devs| - 1 {
      SetAsideElsewhere(init, taken, Key(last));
    } else {
      LeftLosesOne(init, taken, i, g);
    }
  }

  lemma {:induction false} SetAsideElsewhere(devs: seq<Device>, taken: set<AllocDevice>, k: AllocDevice)
    requires forall i | 0 <= i < |devs| :: Key(devs[i]) != k
    ensures Without(devs, taken + {k}) == Without(devs, taken)
  {
    if devs != [] {
      SetAsideElsewhere(devs[..|devs| - 1], taken, k);
    }
  }

  lemma {:induction false} ClaimsLeave(devs: seq<Device>, taken: set<AllocDevice>, claims: seq<AllocDevice>, g: GpuType)
    requires DistinctKeys(devs) && Distinct(claims)
    requires forall k | k in claims :: InInventory(k, devs) && k !in taken
    ensures Left(devs, taken, g) == Left(devs, taken + KeySet(claims), g) + CountClaims(claims, devs, g)
  {
    if claims == [] {
      assert taken + KeySet(claims) == taken;
    } else {
      var init, k := claims[..|claims| - 1], claims[|claims| - 1];
      var before := taken + KeySet(init);
      assert claims == init + [k];
      assert before + {k} == taken + KeySet(claims);
      ClaimsLeave(devs, taken, init, g);
      var i :| 0 <= i < |devs| && Key(devs[i]) == k;
      NameOfKey(devs, i);
      LeftLosesOne(devs, before, i, g);
    }
  }

  lemma TakenSnoc(js: seq<Job>, j: Job, id: string)
    ensures Taken(js + [j], id) == Taken(js, id) + (if j.nodeId == id then KeySet(j.devices) else {})
  {
  }

  lemma WellClaimedInit(js: seq<Job>, j: Job, n: Node)
    requires WellClaimed(js + [j], n)
    ensures WellClaimed(js, n)
    ensures j.nodeId == n.id ==>
              Distinct(j.devices) && forall d | d in j.devices :: InInventory(d, n.devices) && d !in Taken(js, n.id)
  {
    var all := js + [j];
    assert all[|js|] == j;
    assert forall i | 0 <= i < |js| :: all[i] == js[i];
    assert forall x | x in js :: x in all;
    if j.nodeId == n.id {
      assert j in all;
      forall i, d | 0 <= i < |js| && js[i].nodeId == n.id && d in j.devices
        ensures d !in js[i].devices
      {
        assert all[i].nodeId == all[|js|].nodeId;
      }
    }
  }

  lemma WellClaimedSnoc(init: seq<Job>, l: Job, n: Node)
    requires WellClaimed(init, n)
    requires l.nodeId == n.id ==> Distinct(l.devices) && forall d | d in l.devices :: InInventory(d, n.devices)
    requires l.nodeId == n.id ==>
               forall j | j in init && j.nodeId == n.id :: forall d | d in l.devices :: d !in j.devices
    ensures WellClaimed(init + [l], n)
  {
    var all := init + [l];
    forall i, k | 0 <= i < k < |all| && all[i].nodeId == n.id && all[k].nodeId == n.id
      ensures forall d | d in all[i].devices :: d !in all[k].devices
    {
      assert all[i] == init[i] && all[i] in init && (k < |init| ==> all[k] == init[k]) && (k == |init| ==> all[k] == l);
    }
    forall x | x in all && x.nodeId == n.id
      ensures Distinct(x.devices) && forall d | d in x.devices :: InInventory(d, n.devices)
    {
      assert x in init || x == l;
    }
  }

  /**
   * Counting agrees with picking: the inventory's matches minus what the jobs are counted to hold
   * is the number of matching devices left once their devices are set aside.
   */
  lemma {:induction false} CountingAgreesWithPicking(js: seq<Job>, n: Node, g: GpuType)
    requires WellClaimed(js, n)
    ensures Cap(n, Match(g)) == Left(n.devices, Taken(js, n.id), g) + Load(js, n, Match(g), Always)
  {
    if js == [] {
      assert Taken(js, n.id) == {};
      WithoutNothing(n.devices);
    } else {
      var init, j := js[..|js| - 1], js[|js| - 1];
      assert js == init + [j];
      WellClaimedInit(init, j, n);
      CountingAgreesWithPicking(init, n, g);
      TakenSnoc(init, j, n.id);
      if j.nodeId == n.id {
        ClaimsLeave(n.devices, Taken(init, n.id), j.devices, g);
      } else {
        assert Taken(js, n.id) == Taken(init, n.id);
      }
    }
  }

  lemma {:induction false} LeftLosesAtMost(
      devs: seq<Device>, taken: set<AllocDevice>, claims: seq<AllocDevice>, g: GpuType)
    requires DistinctKeys(devs)
    ensures Left(devs, taken, g) <= Left(devs, taken + KeySet(claims), g) + CountClaims(claims, devs, g)
  {
    if claims == [] {
      assert taken + KeySet(claims) == taken;
    } else {
      var init, k := claims[..|claims| - 1], claims[|claims| - 1];
      var before := taken + KeySet(init);
      assert claims == init + [k];
      assert before + {k} == taken + KeySet(claims);
      LeftLosesAtMost(devs, taken, init, g);
      if k in before {
        assert before + {k} == before;
      } else if InInventory(k, devs) {
        var i :| 0 <= i < |devs| && Key(devs[i]) == k;
        NameOfKey(devs, i);
        LeftLosesOne(devs, before, i, g);
      } else {
        SetAsideElsewhere(devs, before, k);
      }
    }
  }

  /** Whatever the jobs claim, the devices really left are never fewer than the count says. */
  lemma {:induction false} CountingNeverOverstates(js: seq<Job>, n: Node, g: GpuType)
    requires DistinctKeys(n.devices)
    ensures Cap(n, Match(g)) <= Left(n.devices, Taken(js, n.id), g) + Load(js, n, Match(g), Always)
  {
    if js == [] {
      assert Taken(js, n.id) == {};
      WithoutNothing(n.devices);
    } else {
      var init, j := js[..|js| - 1], js[|js| - 1];
      assert js == init + [j];
      CountingNeverOverstates(init, n, g);
      TakenSnoc(init, j, n.id);
      if j.nodeId == n.id {
        LeftLosesAtMost(n.devices, Taken(init, n.id), j.devices, g);
      } else {
        assert Taken(js, n.id) == Taken(init, n.id);
      }
    }
  }

  // --- The measures in the fields of jobs, nodes and devices ---

  /** An unbounded job ends 100 years of 365 days from now; a bounded one a walltime after its start, or now. */
  lemma EstEndIs(now: Time, j: Job, t: Time)
    ensures j.walltime <= 0 ==> EstEnd(now, j) == now + 3_153_600_000_000_000_000
    ensures 0 < j.walltime <= 9_223_372_036 ==>
              (EstEnd(now, j) <= t <==>
                now <= t && (if j.startAt.Some? then j.startAt.value else now) + j.walltime * 1_000_000_000 <= t)
    ensures j.walltime > 0 ==>
              (EstEnd(now, j) <= t <==>
                now <= t && (if j.startAt.Some? then j.startAt.value else now) + Seconds(j.walltime) <= t)
  {
    SecondsIs(j.walltime);
  }

  /** A total starts at nothing, and one more job on the node adds what it asked for, if the span counts it. */
  lemma LoadIs(js: seq<Job>, j: Job, n: Node, s: Span)
    ensures forall r :: Load([], n, r, s) == 0
    ensures var counted := j.nodeId == n.id && match s
              case Always => true
              case Past(now, t) => t < EstEnd(now, j)
              case Staying(now, t) => j.walltime <= 0 || t < EstEnd(now, j)
              case Unbounded => j.walltime <= 0;
            && Load(js + [j], n, Cpu, s) == Load(js, n, Cpu, s) + (if counted then j.reqCpus else 0)
            && Load(js + [j], n, Mem, s) == Load(js, n, Mem, s) + (if counted then j.reqMem else 0)
            && forall g :: Load(js + [j], n, Match(g), s)
                 == Load(js, n, Match(g), s) + (if counted then CountClaims(j.devices, n.devices, g) else 0)
  {
    forall r ensures Load(js + [j], n, r, s) == Load(js, n, r, s) + Share(j, n, r, s) {
      LoadSnoc(js, j, n, r, s);
    }
  }

  /** What is left starts at nothing, and one more device counts if it is not taken and the constraint accepts it. */
  lemma LeftGrows(devs: seq<Device>, d: Device, taken: set<AllocDevice>, g: GpuType)
    ensures Left([], taken, g) == 0
    ensures var counted := AllocDevice(d.kind, d.index) !in taken && (g.Any? || (d.name != "" && d.name in g.names));
            Left(devs + [d], taken, g) == Left(devs, taken, g) + (if counted then 1 else 0)
  {
    LeftSnoc(devs, d, taken, g);
  }

  lemma OneMoreAccepted(devs: seq<Device>, d: Device, g: GpuType)
    ensures var all := devs + [d];
            |set i | 0 <= i < |all| && (g.Any? || (all[i].name != "" && all[i].name in g.names))|
            == |set i | 0 <= i < |devs| && (g.Any? || (devs[i].name != "" && devs[i].name in g.names))|
               + (if g.Any? || (d.name != "" && d.name in g.names) then 1 else 0)
  {
    var all := devs + [d];
    var before := set i | 0 <= i < |devs| && (g.Any? || (devs[i].name != "" && devs[i].name in g.names));
    var after := set i | 0 <= i < |all| && (g.Any? || (all[i].name != "" && all[i].name in g.names));
    assert forall i | 0 <= i < |devs| :: all[i] == devs[i];
    forall i ensures i in after <==> i in before || (i == |devs| && (g.Any? || (d.name != "" && d.name in g.names))) {}
    OneMoreMember(before, after, |devs|);
  }

  lemma OneMoreMember(before: set<nat>, after: set<nat>, x: nat)
    requires x !in before && forall i :: i in before ==> i in after
    requires forall i :: i in after ==> i in before || i == x
    ensures |after| == |before| + (if x in after then 1 else 0)
  {
    assert after == before + (if x in after then {x} else {});
  }

  /** How many devices the constraint accepts. */
  lemma {:induction false} MatchingIs(devs: seq<Device>, g: GpuType)
    ensures |Matching(devs, g)|
            == |set i | 0 <= i < |devs| && (g.Any? || (devs[i].name != "" && devs[i].name in g.names))|
  {
    if devs != [] {
      hide Matching;
      var init, d := devs[..|devs| - 1], devs[|devs| - 1];
      assert devs == init + [d];
      MatchingIs(init, g);
      MatchingGrows(init, d, g);
      OneMoreAccepted(init, d, g);
    }
  }

  /** Which devices the constraint accepts, in order. */
  lemma MatchingGrows(devs: seq<Device>, d: Device, g: GpuType)
    ensures Matching([], g) == []
    ensures Matching(devs + [d], g)
            == Matching(devs, g) + (if g.Any? || (d.name != "" && d.name in g.names) then [d] else [])
  {
    MatchingSnoc(devs, d, g);
  }

  /** Which devices are left, in order. */
  lemma WithoutGrows(devs: seq<Device>, d: Device, taken: set<AllocDevice>)
    ensures Without([], taken) == []
    ensures Without(devs + [d], taken)
            == Without(devs, taken) + (if AllocDevice(d.kind, d.index) in taken then [] else [d])
  {
    assert (devs + [d])[..|devs|] == devs;
  }

  /** The name recorded under a key is that of the last device with it. */
  lemma {:induction false} NameOfIs(devs: seq<Device>, k: AllocDevice)
    ensures (forall i | 0 <= i < |devs| :: AllocDevice(devs[i].kind, devs[i].index) != k) ==> NameOf(devs, k) == ""
    ensures forall i | 0 <= i < |devs| && AllocDevice(devs[i].kind, devs[i].index) == k
              && (forall m | i < m < |devs| :: AllocDevice(devs[m].kind, devs[m].index) != k) ::
              NameOf(devs, k) == devs[i].name
  {
    if devs != [] && Key(devs[|devs| - 1]) != k {
      NameOfIs(devs[..|devs| - 1], k);
    }
  }

  /** One more claim counts if the constraint accepts the name recorded under it. */
  lemma CountClaimsGrows(claims: seq<AllocDevice>, k: AllocDevice, devs: seq<Device>, g: GpuType)
    ensures CountClaims([], devs, g) == 0
    ensures CountClaims(claims + [k], devs, g) == CountClaims(claims, devs, g) +
              (if g.Any? || (NameOf(devs, k) != "" && NameOf(devs, k) in g.names) then 1 else 0)
  {
    assert (claims + [k])[..|claims|] == claims;
  }

  lemma TakenIs(js: seq<Job>, id: string, d: AllocDevice)
    ensures d in Taken(js, id) <==> exists j :: j in js && j.nodeId == id && d in j.devices
  {
  }
}

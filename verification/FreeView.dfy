/** The free-resource view of the nodes: built from the active jobs, searched, and debited in place. */
module FreeViews {
  import opened Types
  import opened Resources

  datatype FreeView = FreeView(
    id: string, name: string, partition: string, cpus: u32, mem: u64, devices: seq<Device>)

  /** What is left of `n` beside the occupants `occ`, computed at once from their totals. */
  function FreeOf(n: Node, occ: seq<Job>): FreeView {
    FreeView(n.id, n.name, n.partition,
             SatSub(n.cpus, Load(occ, n, Cpu, Always)),
             SatSub(n.mem, Load(occ, n, Mem, Always)),
             Without(n.devices, Taken(occ, n.id)))
  }

  /** One saturating step of the accounting. */
  function Debit(v: FreeView, cpus: u32, mem: u64, keys: set<AllocDevice>): FreeView {
    v.(cpus := SatSub(v.cpus, cpus), mem := SatSub(v.mem, mem), devices := Without(v.devices, keys))
  }

  function Keys(devs: seq<Device>): seq<AllocDevice> {
    seq(|devs|, i requires 0 <= i < |devs| => Key(devs[i]))
  }

  /** The first `n` matching devices, when there are that many. */
  function Pick(devs: seq<Device>, n: u32, g: GpuType): Option<seq<AllocDevice>> {
    var m := Matching(devs, g);
    if n <= |m| then Some(Keys(m[..n])) else None
  }

  /** The devices `job` would get on the node behind `v`; None when it does not fit. */
  function Offer(job: Job, v: FreeView): Option<seq<AllocDevice>> {
    if job.partition != "" && job.partition != v.partition then None
    else if v.cpus < job.reqCpus || v.mem < job.reqMem then None
    else Pick(v.devices, job.reqGpus, job.gpuType)
  }

  /** The first view on which `job` fits. */
  function FirstFit(job: Job, views: seq<FreeView>): (r: Option<nat>)
    ensures r.Some? ==> r.value < |views| && Offer(job, views[r.value]).Some?
                        && forall k | 0 <= k < r.value :: Offer(job, views[k]).None?
    ensures r.None? ==> forall v | v in views :: Offer(job, v).None?
  {
    if views == [] then None
    else
      var earlier := FirstFit(job, views[..|views| - 1]);
      if earlier.Some? then earlier
      else if Offer(job, views[|views| - 1]).Some? then Some(|views| - 1)
      else None
  }

  /** Folding the saturating steps one job at a time gives the view computed at once. */
  lemma FreeOfSnoc(n: Node, occ: seq<Job>, j: Job)
    ensures FreeOf(n, occ + [j]) ==
            if j.nodeId == n.id then Debit(FreeOf(n, occ), j.reqCpus, j.reqMem, KeySet(j.devices))
            else FreeOf(n, occ)
  {
    LoadSnoc(occ, j, n, Cpu, Always);
    LoadSnoc(occ, j, n, Mem, Always);
    TakenSnoc(occ, j, n.id);
    if j.nodeId == n.id {
      WithoutUnion(n.devices, Taken(occ, n.id), KeySet(j.devices));
    } else {
      assert Taken(occ + [j], n.id) == Taken(occ, n.id);
    }
  }

  lemma FreeOfNobody(n: Node)
    ensures FreeOf(n, []) == FreeView(n.id, n.name, n.partition, n.cpus, n.mem, n.devices)
  {
    assert Taken([], n.id) == {};
    WithoutNothing(n.devices);
  }

  /** Increasing positions of devices that the constraint accepts. */
  ghost predicate Accepted(at: seq<nat>, devs: seq<Device>, g: GpuType) {
    && (forall k | 0 <= k < |at| ::
          at[k] < |devs| && (g.Any? || (devs[at[k]].name != "" && devs[at[k]].name in g.names)))
    && forall k, m | 0 <= k < m < |at| :: at[k] < at[m]
  }

  /** No accepted position is left out. */
  ghost predicate Complete(at: seq<nat>, devs: seq<Device>, g: GpuType) {
    forall i | 0 <= i < |devs| && (g.Any? || (devs[i].name != "" && devs[i].name in g.names)) :: i in at
  }

  lemma AcceptedGrows(at: seq<nat>, devs: seq<Device>, d: Device, g: GpuType, yes: bool)
    requires Accepted(at, devs, g) && yes == (g.Any? || (d.name != "" && d.name in g.names))
    ensures Accepted(if yes then at + [|devs|] else at, devs + [d], g)
    ensures forall k | 0 <= k < |at| :: at[k] < |devs|
  {
  }

  lemma CompleteGrows(at: seq<nat>, devs: seq<Device>, d: Device, g: GpuType, yes: bool)
    requires Complete(at, devs, g) && yes == (g.Any? || (d.name != "" && d.name in g.names))
    ensures Complete(if yes then at + [|devs|] else at, devs + [d], g)
  {
    var all, at' := devs + [d], if yes then at + [|devs|] else at;
    forall i | 0 <= i < |all| && (g.Any? || (all[i].name != "" && all[i].name in g.names)) ensures i in at' {
      assert i < |devs| ==> all[i] == devs[i] && i in at;
      assert yes ==> at'[|at|] == |devs|;
    }
  }

  ghost predicate PointsAt(at: seq<nat>, devs: seq<Device>, chosen: seq<Device>) {
    |at| == |chosen| && forall k | 0 <= k < |at| :: at[k] < |devs| && chosen[k] == devs[at[k]]
  }

  lemma PointsFurther(at: seq<nat>, devs: seq<Device>, chosen: seq<Device>, d: Device)
    requires PointsAt(at, devs, chosen)
    ensures PointsAt(at, devs + [d], chosen) && PointsAt(at + [|devs|], devs + [d], chosen + [d])
  {
  }

  lemma NothingAccepted(g: GpuType)
    ensures Accepted([], [], g) && Complete([], [], g) && PointsAt([], [], Matching([], g))
  {
  }

  lemma {:induction false} AcceptedPositions(devs: seq<Device>, g: GpuType) returns (at: seq<nat>)
    ensures Accepted(at, devs, g) && Complete(at, devs, g) && PointsAt(at, devs, Matching(devs, g))
  {
    hide Matching, Accepted, Complete, PointsAt;
    at := [];
    if devs == [] {
      NothingAccepted(g);
    } else {
      var init, d := devs[..|devs| - 1], devs[|devs| - 1];
      var before := AcceptedPositions(init, g);
      assert devs == init + [d];
      var yes := g.Any? || (d.name != "" && d.name in g.names);
      MatchingGrows(init, d, g);
      AcceptedGrows(before, init, d, g, yes);
      CompleteGrows(before, init, d, g, yes);
      PointsFurther(before, init, Matching(init, g), d);
      assert Matching(init, g) + [] == Matching(init, g);
      at := if yes then before + [|init|] else before;
    }
  }

  /** The first `n` accepted devices, by kind and index; none exactly when there are fewer. */
  lemma PickIs(devs: seq<Device>, n: u32, g: GpuType) returns (at: seq<nat>)
    ensures Pick(devs, n, g).Some? <==>
            n <= |set i | 0 <= i < |devs| && (g.Any? || (devs[i].name != "" && devs[i].name in g.names))|
    ensures Pick(devs, n, g).Some? ==> TakesFirst(Pick(devs, n, g).value, n, at, devs, g)
  {
    hide Accepted, Complete, Matching;
    MatchingIs(devs, g);
    at := AcceptedPositions(devs, g);
  }

  ghost predicate TakesFirst(keys: seq<AllocDevice>, n: nat, at: seq<nat>, devs: seq<Device>, g: GpuType) {
    && Accepted(at, devs, g) && Complete(at, devs, g) && |keys| == n <= |at|
    && forall k | 0 <= k < n :: keys[k] == AllocDevice(devs[at[k]].kind, devs[at[k]].index)
  }

  /** A node is offered for a job when the partition fits and each request is met by what is free. */
  lemma OfferIs(job: Job, v: FreeView) returns (at: seq<nat>)
    ensures Offer(job, v).Some? <==>
            && (job.partition == "" || job.partition == v.partition)
            && job.reqCpus <= v.cpus && job.reqMem <= v.mem
            && job.reqGpus <= |set i | 0 <= i < |v.devices| &&
                 (job.gpuType.Any? || (v.devices[i].name != "" && v.devices[i].name in job.gpuType.names))|
    ensures Offer(job, v).Some? ==> TakesFirst(Offer(job, v).value, job.reqGpus, at, v.devices, job.gpuType)
  {
    hide Pick;
    at := PickIs(v.devices, job.reqGpus, job.gpuType);
  }

  // --- The mutable view ---

  class FreeNode {
    const id: string
    const name: string
    const partition: string
    var cpus: u32
    var mem: u64
    var devices: seq<Device>

    constructor (n: Node)
      ensures View() == FreeOf(n, [])
      ensures id == n.id && name == n.name && partition == n.partition
    {
      id, name, partition := n.id, n.name, n.partition;
      cpus, mem, devices := n.cpus, n.mem, n.devices;
      new;
      FreeOfNobody(n);
    }

    ghost function View(): FreeView
      reads this
    {
      FreeView(id, name, partition, cpus, mem, devices)
    }
  }

  method RemoveFreeDevices(list: seq<Device>, used: seq<AllocDevice>) returns (out: seq<Device>)
    ensures out == Without(list, KeySet(used))
  {
    if |used| == 0 {
      WithoutNothing(list);
      assert KeySet(used) == {};
      return list;
    }
    var usedSet: set<AllocDevice> := {};
    for i := 0 to |used|
      invariant usedSet == KeySet(used[..i])
    {
      usedSet := usedSet + {used[i]};
    }
    assert used[..|used|] == used;
    out := [];
    for i := 0 to |list|
      invariant out == Without(list[..i], usedSet)
    {
      assert list[..i + 1][..i] == list[..i];
      if Key(list[i]) in usedSet {
        continue;
      }
      out := out + [list[i]];
    }
    assert list[..|list|] == list;
  }

  method PickDevices(devs: seq<Device>, n: u32, g: GpuType) returns (picked: Option<seq<AllocDevice>>)
    ensures picked == Pick(devs, n, g)
    ensures picked.Some? <==>
            n <= |set i | 0 <= i < |devs| && (g.Any? || (devs[i].name != "" && devs[i].name in g.names))|
    ensures picked.Some? ==> exists at :: TakesFirst(picked.value, n, at, devs, g)
  {
    hide TakesFirst, Matching, Pick, Picked;
    ghost var at := PickIs(devs, n, g);
    var out: seq<AllocDevice> := [];
    PickStart(devs, n, g);
    if n == 0 {
      return Some(out);
    }
    for i := 0 to |devs|
      invariant out == Picked(devs, i, g) && |out| < n
    {
      PickStep(devs, i, n, g);
      if !MatchName(devs[i].name, g) {
        continue;
      }
      out := out + [Key(devs[i])];
      if |out| % U32 == n {
        return Some(out);
      }
    }
    PickEnd(devs, n, g);
    return None;
  }

  /** The keys of the matches among the first `i` devices. */
  function Picked(devs: seq<Device>, i: nat, g: GpuType): seq<AllocDevice>
    requires i <= |devs|
  {
    Keys(Matching(devs[..i], g))
  }

  lemma PickStart(devs: seq<Device>, n: u32, g: GpuType)
    ensures Picked(devs, 0, g) == []
    ensures n == 0 ==> Pick(devs, n, g) == Some([])
  {
    PickedAt(devs, 0, 0, g);
  }

  lemma PickStep(devs: seq<Device>, i: nat, n: u32, g: GpuType)
    requires i < |devs|
    ensures Picked(devs, i + 1, g)
            == if MatchName(devs[i].name, g) then Picked(devs, i, g) + [Key(devs[i])] else Picked(devs, i, g)
    ensures |Picked(devs, i + 1, g)| == n ==> Pick(devs, n, g) == Some(Picked(devs, i + 1, g))
  {
    assert devs[..i + 1] == devs[..i] + [devs[i]];
    MatchingSnoc(devs[..i], devs[i], g);
    if |Picked(devs, i + 1, g)| == n {
      PickedAt(devs, i + 1, n, g);
    }
  }

  lemma PickEnd(devs: seq<Device>, n: u32, g: GpuType)
    ensures |Picked(devs, |devs|, g)| < n ==> Pick(devs, n, g).None?
  {
    assert devs[..|devs|] == devs;
  }

  /** Once a prefix holds `n` matches, the rest of the list is irrelevant. */
  lemma PickedAt(devs: seq<Device>, i: nat, n: u32, g: GpuType)
    requires i <= |devs| && |Matching(devs[..i], g)| == n
    ensures Pick(devs, n, g) == Some(Keys(Matching(devs[..i], g)))
  {
    MatchingPrefix(devs, i, g);
    assert Matching(devs, g)[..n] == Matching(devs[..i], g);
  }

  lemma {:induction false} MatchingPrefix(devs: seq<Device>, i: nat, g: GpuType)
    requires i <= |devs|
    ensures Matching(devs[..i], g) <= Matching(devs, g)
  {
    if i < |devs| {
      MatchingPrefix(devs[..|devs| - 1], i, g);
      assert devs[..|devs| - 1][..i] == devs[..i];
    } else {
      assert devs[..i] == devs;
    }
  }

  /** Searches the nodes in order; `views` are the values the nodes hold when it is called. */
  method SelectFit(job: Job, nodes: seq<FreeNode>, ghost views: seq<FreeView>)
    returns (fn: FreeNode?, devs: seq<AllocDevice>, ok: bool)
    requires |views| == |nodes| && forall i | 0 <= i < |nodes| :: nodes[i].View() == views[i]
    ensures ok <==> FirstFit(job, views).Some?
    ensures ok ==> var i := FirstFit(job, views).value; fn == nodes[i] && Offer(job, views[i]) == Some(devs)
  {
    for i := 0 to |nodes|
      invariant forall k | 0 <= k < i :: Offer(job, views[k]).None?
    {
      var cand := nodes[i];
      assert views[i] == cand.View();
      if job.partition != "" && job.partition != cand.partition {
        continue;
      }
      if cand.cpus < job.reqCpus || cand.mem < job.reqMem {
        continue;
      }
      var picked := PickDevices(cand.devices, job.reqGpus, job.gpuType);
      if picked.None? {
        continue;
      }
      assert Offer(job, views[i]) == picked;
      return cand, picked.value, true;
    }
    return null, [], false;
  }

  method Consume(fn: FreeNode, job: Job, devs: seq<AllocDevice>)
    modifies fn
    ensures fn.View() == Debit(old(fn.View()), job.reqCpus, job.reqMem, KeySet(devs))
  {
    fn.cpus := SatSub(fn.cpus, job.reqCpus);
    fn.mem := SatSub(fn.mem, job.reqMem);
    fn.devices := RemoveFreeDevices(fn.devices, devs);
  }

  /** First half of the source's function: one full view per UP node. */
  method FullViews(nodes: seq<Node>) returns (frees: map<string, FreeNode>)
    requires UniqueNodes(nodes)
    ensures forall id | id in frees :: fresh(frees[id]) && frees[id].id == id
    ensures forall id | id in frees :: exists n :: n in nodes && n.state.Up? && n.id == id
    ensures forall n | n in nodes && n.state.Up? :: n.id in frees && frees[n.id].View() == FreeOf(n, [])
  {
    hide FreeOf, FreeNode.View;
    frees := map[];
    for i := 0 to |nodes|
      invariant forall id | id in frees :: fresh(frees[id]) && frees[id].id == id
      invariant forall id | id in frees :: exists k :: 0 <= k < i && nodes[k].state.Up? && nodes[k].id == id
      invariant forall k | 0 <= k < i && nodes[k].state.Up? ::
          nodes[k].id in frees && frees[nodes[k].id].View() == FreeOf(nodes[k], [])
    {
      if nodes[i].state != Up {
        continue;
      }
      var fn := new FreeNode(nodes[i]);
      frees := frees[nodes[i].id := fn];
    }
  }

  /** The UP nodes by id, each showing what the active jobs leave of it. */
  method BuildFree(nodes: seq<Node>, active: seq<Job>) returns (frees: map<string, FreeNode>)
    requires UniqueNodes(nodes)
    ensures forall id | id in frees :: fresh(frees[id]) && frees[id].id == id
    ensures forall id | id in frees :: exists n :: n in nodes && n.state.Up? && n.id == id
    ensures forall n | n in nodes && n.state.Up? :: n.id in frees && frees[n.id].View() == FreeOf(n, active)
  {
    frees := FullViews(nodes);
    for i := 0 to |active|
      invariant forall n | n in nodes && n.state.Up? ::
          n.id in frees && frees[n.id].View() == FreeOf(n, active[..i])
    {
      ghost var before := active[..i];
      ghost var j := active[i];
      assert active[..i + 1] == before + [j];
      forall n | n in nodes {
        FreeOfSnoc(n, before, j);
      }
      if active[i].nodeId !in frees {
        continue;
      }
      Consume(frees[active[i].nodeId], active[i], active[i].devices);
    }
    assert active[..|active|] == active;
  }
}

/** Persistent entities of the cluster: devices, nodes, jobs and the clock they share. */
module Types {
  datatype Option<+T> = None | Some(value: T)

  const U32: int := 0x1_0000_0000
  const U64: int := 0x1_0000_0000_0000_0000
  const I63: int := 0x8000_0000_0000_0000

  type u32 = x: int | 0 <= x < U32
  type u64 = x: int | 0 <= x < U64
  type i64 = x: int | -I63 <= x < I63

  /** Instants and durations are nanoseconds; the zero time of the source is `None`. */
  type Time = int

  /** One hundred years of 365 days: the distance at which an unbounded job is assumed to end. */
  const CENTURY: Time := 100 * 365 * 24 * 3600 * 1_000_000_000

  /** A whole number of seconds as a 64-bit nanosecond duration; the product wraps. */
  function Seconds(s: i64): Time {
    (s * 1_000_000_000 + I63) % U64 - I63
  }

  /** The wrapped product is the one 64-bit value that differs from the real one by a multiple of 2^64. */
  lemma SecondsIs(s: i64)
    ensures -0x8000_0000_0000_0000 <= Seconds(s) < 0x8000_0000_0000_0000
    ensures (Seconds(s) - s * 1_000_000_000) % 0x1_0000_0000_0000_0000 == 0
    ensures -9_223_372_036 <= s <= 9_223_372_036 ==> Seconds(s) == s * 1_000_000_000
  {
    var x := s * 1_000_000_000 + I63;
    var q := x / U64;
    assert x == q * U64 + x % U64;
    DivModIs(-q * U64, -q, 0);
    assert Seconds(s) - s * 1_000_000_000 == -q * U64;
    if -9_223_372_036 <= s <= 9_223_372_036 {
      DivModIs(x, 0, x);
    }
  }

  lemma DivModIs(x: int, q: int, m: int)
    requires x == q * U64 + m && 0 <= m < U64
    ensures x % U64 == m
  {
    assert x / U64 == q;
  }

  /** A gpu_type constraint, known only by the device names it accepts; `Any` is the empty constraint. */
  datatype GpuType = Any | Like(names: set<string>)

  /** No non-empty constraint accepts a device without a name. */
  predicate MatchName(name: string, g: GpuType) {
    g.Any? || (name != "" && name in g.names)
  }

  /** An allocated device; also the key that identifies a device inside its node. */
  datatype AllocDevice = AllocDevice(kind: string, index: u32)

  datatype Device = Device(kind: string, index: u32, name: string)

  function Key(d: Device): AllocDevice {
    AllocDevice(d.kind, d.index)
  }

  datatype NodeState = Up | Down | Drain

  datatype Node = Node(
    id: string, name: string, partition: string, state: NodeState,
    cpus: u32, mem: u64, devices: seq<Device>, lastHeartbeat: Option<Time>)

  datatype JobState = Pending | Assigned | Running | Completed | Failed | Cancelling | Cancelled | TimedOut

  datatype Job = Job(
    id: string, owner: string, partition: string, state: JobState, priority: int,
    reqCpus: u32, reqMem: u64, reqGpus: u32, gpuType: GpuType, walltime: i64,
    nodeId: string, nodeName: string, devices: seq<AllocDevice>, exitCode: int, reason: string,
    submitAt: Option<Time>, startAt: Option<Time>, endAt: Option<Time>)

  /** The states that hold resources in the scheduler's accounting. */
  predicate Active(j: Job) {
    j.state.Assigned? || j.state.Running?
  }

  /** The same job as submitted: nothing but its progress may differ. */
  predicate SameRequest(a: Job, b: Job) {
    && a.id == b.id && a.owner == b.owner && a.partition == b.partition && a.priority == b.priority
    && a.reqCpus == b.reqCpus && a.reqMem == b.reqMem && a.reqGpus == b.reqGpus && a.gpuType == b.gpuType
    && a.walltime == b.walltime && a.submitAt == b.submitAt
  }

  predicate Terminal(s: JobState) {
    s.Completed? || s.Failed? || s.Cancelled? || s.TimedOut?
  }

  /** Saturating subtraction, as the source writes it for either width. */
  function SatSub(a: nat, b: nat): (r: nat)
    ensures r <= a && r + b == if b <= a then a else b
  {
    if b > a then 0 else a - b
  }

  /** Node ids and node names are both unique. */
  ghost predicate UniqueNodes(nodes: seq<Node>) {
    forall i, k | 0 <= i < k < |nodes| :: nodes[i].id != nodes[k].id && nodes[i].name != nodes[k].name
  }
}

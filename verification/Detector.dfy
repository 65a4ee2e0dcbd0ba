/** Idle-device detection, tied to the readings it has seen. */
module Detectors {
  import opened Types

  /** One reading of a device: when, and whether its utilization was below the threshold. */
  datatype Obs = Obs(at: Time, below: bool)

  /** When the unbroken run of below-threshold readings at the end of the history began. */
  function RunStart(h: seq<Obs>): Option<Time> {
    if h == [] || !h[|h| - 1].below then None
    else
      var earlier := RunStart(h[..|h| - 1]);
      if earlier.Some? then earlier else Some(h[|h| - 1].at)
  }

  /** The run ending with the last reading began with reading `i`. */
  ghost predicate RunsFrom(h: seq<Obs>, i: nat) {
    && i < |h|
    && (forall k | i <= k < |h| :: h[k].below)
    && (i > 0 ==> !h[i - 1].below)
  }

  lemma {:induction false} RunStartIsLatestRun(h: seq<Obs>, i: nat)
    requires RunsFrom(h, i)
    ensures RunStart(h) == Some(h[i].at)
  {
    var init := h[..|h| - 1];
    if i < |h| - 1 {
      RunStartIsLatestRun(init, i);
    } else if i > 0 {
      assert init[|init| - 1] == h[i - 1];
    }
  }

  lemma {:induction false} EveryRunStarts(h: seq<Obs>) returns (i: nat)
    requires RunStart(h).Some?
    ensures RunsFrom(h, i)
  {
    var init := h[..|h| - 1];
    if RunStart(init).Some? {
      i := EveryRunStarts(init);
    } else {
      i := |h| - 1;
    }
  }

  /** The detector's verdict on the last reading of `h`. */
  predicate Idle(h: seq<Obs>, duration: Time) {
    h != [] && h[|h| - 1].below && var first := RunStart(h[..|h| - 1]);
    first.Some? && h[|h| - 1].at - first.value >= duration
  }

  lemma IdleIffRun(h: seq<Obs>, duration: Time)
    ensures Idle(h, duration) <==>
            exists i: nat :: RunsFrom(h, i) && i < |h| - 1 && h[|h| - 1].at - h[i].at >= duration
  {
    if Idle(h, duration) {
      var init := h[..|h| - 1];
      var i := EveryRunStarts(init);
      RunStartIsLatestRun(init, i);
      assert RunsFrom(h, i);
    }
    if i: nat :| RunsFrom(h, i) && i < |h| - 1 && h[|h| - 1].at - h[i].at >= duration {
      assert RunsFrom(h[..|h| - 1], i);
      RunStartIsLatestRun(h[..|h| - 1], i);
    }
  }

  /**
   * A reading raises device.idle exactly when the latest unbroken run of below-threshold readings
   * began at an earlier reading, at least the configured duration ago.
   */
  lemma IdleMatchesHistory(h: seq<Obs>, duration: Time)
    ensures Idle(h, duration) <==>
            exists i: nat :: i < |h| - 1 && (forall k | i <= k < |h| :: h[k].below) && (i > 0 ==> !h[i - 1].below)
              && h[|h| - 1].at - h[i].at >= duration
  {
    hide Idle, RunStart;
    IdleIffRun(h, duration);
    if i: nat :| RunsFrom(h, i) && i < |h| - 1 && h[|h| - 1].at - h[i].at >= duration {
      assert forall k | i <= k < |h| :: h[k].below;
    }
    forall i: nat | i < |h| - 1 && (forall k | i <= k < |h| :: h[k].below) && (i > 0 ==> !h[i - 1].below)
      ensures RunsFrom(h, i) {}
  }

  /** One more reading: what it makes of the run so far, and the verdict on it. */
  lemma OneMoreReading(h: seq<Obs>, o: Obs, duration: Time)
    ensures RunStart(h + [o]) == if !o.below then None else if RunStart(h).Some? then RunStart(h) else Some(o.at)
    ensures Idle(h + [o], duration) <==>
            o.below && RunStart(h).Some? && o.at - RunStart(h).value >= duration
  {
    assert (h + [o])[..|h|] == h;
  }

  datatype Reading = Reading(kind: string, index: u32, utilization: real)

  datatype IdleEvent = IdleEvent(key: string, inUse: bool, owner: string)

  function Decimal(n: nat): string {
    (if n < 10 then [] else Decimal(n / 10)) + [['0', '1', '2', '3', '4', '5', '6', '7', '8', '9'][n % 10]]
  }

  function Digit(c: char): nat {
    if '0' <= c <= '9' then (c - '0') as nat else 0
  }

  function Value(s: string): nat {
    if s == [] then 0 else 10 * Value(s[..|s| - 1]) + Digit(s[|s| - 1])
  }

  lemma LastDigit(n: nat) returns (c: char)
    ensures Decimal(n) == (if n < 10 then [] else Decimal(n / 10)) + [c]
    ensures '0' <= c <= '9' && Digit(c) == n % 10
  {
    c := ['0', '1', '2', '3', '4', '5', '6', '7', '8', '9'][n % 10];
  }

  /** Digits only, the value they stand for, and no leading zero. */
  lemma {:induction false} DecimalIs(n: nat)
    ensures var s := Decimal(n);
            && s != [] && (forall i | 0 <= i < |s| :: '0' <= s[i] <= '9') && Value(s) == n
            && (n > 0 ==> s[0] != '0') && (n == 0 ==> s == "0")
  {
    hide Decimal, Digit;
    var c := LastDigit(n);
    if n < 10 {
      assert Value([c]) == Digit(c);
      DigitIsZero(c);
    } else {
      DecimalIs(n / 10);
      ValueGrows(Decimal(n / 10), c);
    }
  }

  lemma DigitIsZero(c: char)
    requires '0' <= c <= '9'
    ensures Digit(c) == 0 <==> c == '0'
  {
  }

  lemma ValueGrows(s: string, c: char)
    ensures Value(s + [c]) == 10 * Value(s) + Digit(c)
  {
    assert (s + [c])[..|s|] == s;
  }

  /** The key is the node name, the kind and the index in decimal, separated by bars. */
  lemma DeviceKeyIs(node: string, r: Reading) returns (digits: string)
    ensures DeviceKey(node, r) == node + "|" + r.kind + "|" + digits
    ensures digits != [] && (forall i | 0 <= i < |digits| :: '0' <= digits[i] <= '9') && Value(digits) == r.index
  {
    digits := Decimal(r.index);
    DecimalIs(r.index);
  }

  function DeviceKey(node: string, r: Reading): string {
    node + "|" + r.kind + "|" + Decimal(r.index)
  }

  /** Whether an active job holds the device, and the owner of the first that does. */
  method AllocationOf(nodeId: string, d: AllocDevice, active: seq<Job>) returns (inUse: bool, owner: string)
    ensures inUse <==> exists j :: j in active && j.nodeId == nodeId && d in j.devices
    ensures inUse ==>
              exists i: nat :: i < |active| && active[i].nodeId == nodeId && d in active[i].devices
                && owner == active[i].owner
                && forall k | 0 <= k < i :: !(active[k].nodeId == nodeId && d in active[k].devices)
    ensures !inUse ==> owner == ""
  {
    for i := 0 to |active|
      invariant forall k | 0 <= k < i :: !(active[k].nodeId == nodeId && d in active[k].devices)
    {
      if active[i].nodeId != nodeId {
        continue;
      }
      for k := 0 to |active[i].devices|
        invariant d !in active[i].devices[..k]
      {
        if active[i].devices[k] == d {
          return true, active[i].owner;
        }
      }
      assert active[i].devices[..|active[i].devices|] == active[i].devices;
    }
    return false, "";
  }

  class Detector {
    const idleUtil: real
    const duration: Time
    var idleSince: map<string, Time>
    ghost var seen: map<string, seq<Obs>>

    constructor (idleUtil: real, duration: Time)
      ensures Valid() && seen == map[] && this.idleUtil == idleUtil && this.duration == duration
    {
      this.idleUtil, this.duration := idleUtil, duration;
      idleSince, seen := map[], map[];
    }

    ghost predicate Valid()
      reads this
    {
      forall key :: RunStart(Readings(seen, key)) == if key in idleSince then Some(idleSince[key]) else None
    }

    /** One device of one scan; the result says whether an event is due. */
    method Observe(key: string, utilization: real, now: Time) returns (due: bool)
      requires Valid()
      modifies this
      ensures Valid()
      ensures seen == old(seen)[key := Readings(old(seen), key) + [Obs(now, utilization < idleUtil * 100.0)]]
      ensures due <==> Idle(Readings(seen, key), duration)
      ensures due <==> utilization < idleUtil * 100.0 && key in old(idleSince) && now - old(idleSince)[key] >= duration
      ensures idleSince == if utilization >= idleUtil * 100.0 then old(idleSince) - {key}
                           else if key in old(idleSince) then old(idleSince) else old(idleSince)[key := now]
    {
      hide RunStart, Idle;
      ghost var before := Readings(seen, key);
      ghost var o := Obs(now, utilization < idleUtil * 100.0);
      seen := seen[key := before + [o]];
      OneMoreReading(before, o, duration);
      if utilization >= idleUtil * 100.0 {
        idleSince := idleSince - {key};
        return false;
      }
      if key !in idleSince {
        idleSince := idleSince[key := now];
        return false;
      }
      return now - idleSince[key] >= duration;
    }

    ghost function SeenWith(h: map<string, seq<Obs>>, node: string, r: Reading, now: Time): map<string, seq<Obs>> {
      var key := DeviceKey(node, r);
      h[key := Readings(h, key) + [Obs(now, r.utilization < idleUtil * 100.0)]]
    }

    /** The reading, with the history it completes, is due. */
    ghost predicate DueWith(h: map<string, seq<Obs>>, node: string, r: Reading, now: Time) {
      Idle(Readings(SeenWith(h, node, r, now), DeviceKey(node, r)), duration)
    }

    ghost function SeenAfter(
        h: map<string, seq<Obs>>, node: string, rs: seq<Reading>, now: Time): map<string, seq<Obs>>
    {
      if rs == [] then h else SeenWith(SeenAfter(h, node, rs[..|rs| - 1], now), node, rs[|rs| - 1], now)
    }

    /** The readings of the scan that raise an event, judged by the history each one completes. */
    ghost function DueIn(h: map<string, seq<Obs>>, node: string, rs: seq<Reading>, now: Time): seq<Reading> {
      if rs == [] then []
      else
        var init, r := rs[..|rs| - 1], rs[|rs| - 1];
        DueIn(h, node, init, now) + (if DueWith(SeenAfter(h, node, init, now), node, r, now) then [r] else [])
    }

    /** A low reading of a device that has been low for long enough. */
    ghost predicate Due(since: map<string, Time>, node: string, r: Reading, now: Time) {
      var key := DeviceKey(node, r);
      r.utilization < idleUtil * 100.0 && key in since && now - since[key] >= duration
    }

    /** The scan so far leaves the history of a device it has not come to as it was. */
    lemma {:induction false} NotYetSeen(
        h: map<string, seq<Obs>>, node: string, rs: seq<Reading>, key: string, now: Time)
      requires forall r | r in rs :: DeviceKey(node, r) != key
      ensures Readings(SeenAfter(h, node, rs, now), key) == Readings(h, key)
    {
      hide DeviceKey;
      if rs != [] {
        NotYetSeen(h, node, rs[..|rs| - 1], key, now);
      }
    }

    /** A reading whose device this scan has not come to is due by what was stored before the scan. */
    lemma DueAsStored(
        h: map<string, seq<Obs>>, since: map<string, Time>, node: string, init: seq<Reading>, r: Reading, now: Time)
      requires forall key :: RunStart(Readings(h, key)) == if key in since then Some(since[key]) else None
      requires forall q | q in init :: DeviceKey(node, q) != DeviceKey(node, r)
      ensures DueWith(SeenAfter(h, node, init, now), node, r, now) <==> Due(since, node, r, now)
    {
      hide RunStart, Idle, DeviceKey;
      var key := DeviceKey(node, r);
      NotYetSeen(h, node, init, key, now);
      OneMoreReading(Readings(h, key), Obs(now, r.utilization < idleUtil * 100.0), duration);
    }

    ghost predicate EachOnce(node: string, rs: seq<Reading>) {
      forall i, k | 0 <= i < k < |rs| :: DeviceKey(node, rs[i]) != DeviceKey(node, rs[k])
    }

    lemma EachOnceInit(node: string, init: seq<Reading>, r: Reading)
      requires EachOnce(node, init + [r])
      ensures EachOnce(node, init) && forall q | q in init :: DeviceKey(node, q) != DeviceKey(node, r)
    {
      hide DeviceKey;
      var rs := init + [r];
      forall i | 0 <= i < |init| ensures DeviceKey(node, init[i]) != DeviceKey(node, r) {
        assert rs[i] == init[i] && rs[|init|] == r;
      }
      forall i, k | 0 <= i < k < |init| ensures DeviceKey(node, init[i]) != DeviceKey(node, init[k]) {
        assert rs[i] == init[i] && rs[k] == init[k];
      }
    }

    /** In a scan that reads every device once, exactly the due readings raise an event. */
    lemma {:induction false} DueInIs(
        h: map<string, seq<Obs>>, since: map<string, Time>, node: string, rs: seq<Reading>, now: Time)
      requires forall key :: RunStart(Readings(h, key)) == if key in since then Some(since[key]) else None
      requires EachOnce(node, rs)
      ensures forall r :: r in DueIn(h, node, rs, now) <==> r in rs && Due(since, node, r, now)
    {
      hide RunStart, Due, DueWith, EachOnce;
      if rs != [] {
        var init, last := rs[..|rs| - 1], rs[|rs| - 1];
        assert rs == init + [last];
        EachOnceInit(node, init, last);
        DueInIs(h, since, node, init, now);
        DueAsStored(h, since, node, init, last, now);
      }
    }

    /** One reading of a scan; at most one event. */
    method ScanOne(node: Node, r: Reading, active: seq<Job>, now: Time) returns (hit: seq<IdleEvent>)
      requires Valid()
      modifies this
      ensures Valid() && seen == SeenWith(old(seen), node.name, r, now)
      ensures DescribesAll(hit, node, if DueWith(old(seen), node.name, r, now) then [r] else [], active)
      ensures hit != [] <==> Due(old(idleSince), node.name, r, now)
    {
      var key := DeviceKey(node.name, r);
      var isDue := Observe(key, r.utilization, now);
      if !isDue {
        return [];
      }
      var inUse, owner := AllocationOf(node.id, AllocDevice(r.kind, r.index), active);
      return [IdleEvent(key, inUse, owner)];
    }

    /** A scan of one node's devices: exactly the due readings raise events, each saying who holds the device. */
    method CheckDevices(node: Node, rs: seq<Reading>, active: seq<Job>, now: Time) returns (events: seq<IdleEvent>)
      requires Valid()
      modifies this
      ensures Valid() && seen == SeenAfter(old(seen), node.name, rs, now)
      ensures DescribesAll(events, node, DueIn(old(seen), node.name, rs, now), active)
      ensures EachOnce(node.name, rs) ==>
                forall r :: r in DueIn(old(seen), node.name, rs, now) <==>
                  r in rs && Due(old(idleSince), node.name, r, now)
    {
      hide RunStart, Idle, DueWith, Due, EachOnce, DescribesAll, DeviceKey;
      if EachOnce(node.name, rs) {
        DueInIs(seen, idleSince, node.name, rs, now);
      }
      NothingDescribed(node, active);
      events := [];
      for i := 0 to |rs|
        invariant Valid() && seen == SeenAfter(old(seen), node.name, rs[..i], now)
        invariant DescribesAll(events, node, DueIn(old(seen), node.name, rs[..i], now), active)
      {
        assert rs[..i + 1][..i] == rs[..i];
        ghost var more := if DueWith(seen, node.name, rs[i], now) then [rs[i]] else [];
        var hit := ScanOne(node, rs[i], active, now);
        MoreDescribed(events, hit, node, DueIn(old(seen), node.name, rs[..i], now), more, active);
        events := events + hit;
      }
      assert rs[..|rs|] == rs;
    }
  }

  ghost function Readings(h: map<string, seq<Obs>>, key: string): seq<Obs> {
    if key in h then h[key] else []
  }

  ghost predicate Describes(e: IdleEvent, node: Node, r: Reading, active: seq<Job>) {
    && e.key == DeviceKey(node.name, r)
    && (e.inUse <==> exists j :: j in active && j.nodeId == node.id && AllocDevice(r.kind, r.index) in j.devices)
    && (e.inUse ==> exists i: nat ::
          i < |active| && active[i].nodeId == node.id && AllocDevice(r.kind, r.index) in active[i].devices
          && e.owner == active[i].owner
          && forall k | 0 <= k < i ::
               !(active[k].nodeId == node.id && AllocDevice(r.kind, r.index) in active[k].devices))
    && (!e.inUse ==> e.owner == "")
  }

  lemma NothingDescribed(node: Node, active: seq<Job>)
    ensures DescribesAll([], node, [], active)
  {
  }

  lemma MoreDescribed(
      es: seq<IdleEvent>, more: seq<IdleEvent>, node: Node, rs: seq<Reading>, later: seq<Reading>, active: seq<Job>)
    requires DescribesAll(es, node, rs, active) && DescribesAll(more, node, later, active)
    ensures DescribesAll(es + more, node, rs + later, active)
  {
    hide Describes;
  }

  ghost predicate DescribesAll(es: seq<IdleEvent>, node: Node, rs: seq<Reading>, active: seq<Job>) {
    |es| == |rs| && forall i | 0 <= i < |rs| :: Describes(es[i], node, rs[i], active)
  }
}

/** The diagnoser's per-node cooldown with reset on recovery, tied to what its checks have seen. */
module Diagnosers {
  import opened Types
  import opened Cooldowns

  class Diagnoser {
    const afterDown: Time
    const cooldown: Time
    const managed: set<string>
    var lastRun: map<string, Time>
    ghost var seen: map<string, seq<Tick>>

    constructor (afterDown: Time, cooldown: Time, managed: set<string>)
      ensures Valid() && seen == map[]
      ensures this.afterDown == afterDown && this.cooldown == cooldown && this.managed == managed
    {
      this.afterDown, this.cooldown, this.managed := afterDown, cooldown, managed;
      lastRun, seen := map[], map[];
    }

    /** What a check makes of a node: nothing, a reset, or an attempt. */
    function TickOf(n: Node, now: Time): Option<Tick> {
      if n.name !in managed || n.state.Drain? || n.lastHeartbeat.None? then None
      else if now - n.lastHeartbeat.value < afterDown then Some(Reset)
      else Some(Try(now, now, cooldown))
    }

    /** A managed node that is not drained, silent for long enough, and not diagnosed within the cooldown. */
    ghost predicate Due(last: map<string, Time>, n: Node, now: Time) {
      && n.name in managed && n.state != Drain && n.lastHeartbeat.Some?
      && now - n.lastHeartbeat.value >= afterDown
      && (n.name !in last || now - last[n.name] >= cooldown)
    }

    ghost predicate Valid()
      reads this
    {
      forall name :: Cell(History(seen, name)) == if name in lastRun then Some(lastRun[name]) else None
    }

    /** Visits the nodes in order; `fired` names those whose diagnosis is triggered. */
    method Check(nodes: seq<Node>, now: Time) returns (fired: seq<string>)
      requires Valid()
      modifies this
      ensures Valid()
      ensures seen == SeenAfter(old(seen), nodes, now)
      ensures fired == FiredIn(old(seen), nodes, now)
      ensures EachOnce(nodes) ==>
                forall n | n in nodes :: n.name in fired <==> Due(old(lastRun), n, now)
    {
      hide Cell, Fired, EachOnce, Due;
      if EachOnce(nodes) {
        FiredInIs(seen, lastRun, nodes, now);
      }
      fired := [];
      for i := 0 to |nodes|
        invariant Valid() && seen == SeenAfter(old(seen), nodes[..i], now)
        invariant fired == FiredIn(old(seen), nodes[..i], now)
      {
        assert nodes[..i + 1][..i] == nodes[..i];
        var hit := CheckOne(nodes[i], now);
        fired := fired + hit;
      }
      assert nodes[..|nodes|] == nodes;
    }

    ghost predicate EachOnce(nodes: seq<Node>) {
      forall i, k | 0 <= i < k < |nodes| :: nodes[i].name != nodes[k].name
    }

    /** The checks so far leave the history of a node they have not come to as it was. */
    lemma {:induction false} NotYetSeen(h: map<string, seq<Tick>>, nodes: seq<Node>, name: string, now: Time)
      requires forall n | n in nodes :: n.name != name
      ensures History(SeenAfter(h, nodes, now), name) == History(h, name)
    {
      if nodes != [] {
        NotYetSeen(h, nodes[..|nodes| - 1], name, now);
      }
    }

    /** A node this round has not come to is diagnosed by what was stored before the round. */
    lemma DueAsStored(h: map<string, seq<Tick>>, last: map<string, Time>, init: seq<Node>, n: Node, now: Time)
      requires forall name :: Cell(History(h, name)) == if name in last then Some(last[name]) else None
      requires forall m | m in init :: m.name != n.name
      ensures Triggers(SeenAfter(h, init, now), n, now) <==> Due(last, n, now)
    {
      hide Cell, Fired;
      NotYetSeen(h, init, n.name, now);
      if TickOf(n, now).Some? {
        OneMoreTick(History(h, n.name), TickOf(n, now).value);
      }
    }

    /** In a round that visits every node once, exactly the due ones are diagnosed. */
    lemma {:induction false} FiredInIs(h: map<string, seq<Tick>>, last: map<string, Time>, nodes: seq<Node>, now: Time)
      requires forall name :: Cell(History(h, name)) == if name in last then Some(last[name]) else None
      requires EachOnce(nodes)
      ensures forall n | n in nodes :: n.name in FiredIn(h, nodes, now) <==> Due(last, n, now)
      ensures forall name | name in FiredIn(h, nodes, now) :: exists n :: n in nodes && n.name == name
    {
      hide Cell, Due, Triggers;
      if nodes != [] {
        var init, n := nodes[..|nodes| - 1], nodes[|nodes| - 1];
        assert nodes == init + [n];
        assert forall m | m in init :: m.name != n.name;
        FiredInIs(h, last, init, now);
        DueAsStored(h, last, init, n, now);
      }
    }

    method CheckOne(n: Node, now: Time) returns (hit: seq<string>)
      requires Valid()
      modifies this
      ensures Valid()
      ensures seen == Observed(old(seen), n, now)
      ensures hit == if Triggers(old(seen), n, now) then [n.name] else []
      ensures n.name !in managed || n.state == Drain || n.lastHeartbeat == None ==>
                hit == [] && lastRun == old(lastRun)
      ensures n.name in managed && n.state != Drain && n.lastHeartbeat.Some? ==>
                if now - n.lastHeartbeat.value < afterDown then hit == [] && lastRun == old(lastRun) - {n.name}
                else if n.name in old(lastRun) && now - old(lastRun)[n.name] < cooldown then
                  hit == [] && lastRun == old(lastRun)
                else hit == [n.name] && lastRun == old(lastRun)[n.name := now]
    {
      hide Cell, Fired;
      if n.name !in managed || n.state.Drain? || n.lastHeartbeat.None? {
        return [];
      }
      ghost var before := History(seen, n.name);
      seen := Observed(seen, n, now);
      OneMoreTick(before, TickOf(n, now).value);
      var downFor := now - n.lastHeartbeat.value;
      if downFor < afterDown {
        lastRun := lastRun - {n.name};
        return [];
      }
      if n.name in lastRun && now - lastRun[n.name] < cooldown {
        return [];
      }
      lastRun := lastRun[n.name := now];
      return [n.name];
    }

    ghost function Observed(h: map<string, seq<Tick>>, n: Node, now: Time): map<string, seq<Tick>> {
      var tick := TickOf(n, now);
      if tick.None? then h else h[n.name := History(h, n.name) + [tick.value]]
    }

    ghost predicate Triggers(h: map<string, seq<Tick>>, n: Node, now: Time) {
      var h' := History(Observed(h, n, now), n.name);
      TickOf(n, now).Some? && Fired(h', |h'| - 1)
    }

    ghost function SeenAfter(h: map<string, seq<Tick>>, nodes: seq<Node>, now: Time): map<string, seq<Tick>> {
      if nodes == [] then h else Observed(SeenAfter(h, nodes[..|nodes| - 1], now), nodes[|nodes| - 1], now)
    }

    ghost function FiredIn(h: map<string, seq<Tick>>, nodes: seq<Node>, now: Time): seq<string> {
      if nodes == [] then []
      else
        var init, n := nodes[..|nodes| - 1], nodes[|nodes| - 1];
        FiredIn(h, init, now) + (if Triggers(SeenAfter(h, init, now), n, now) then [n.name] else [])
    }
  }

  ghost function History(h: map<string, seq<Tick>>, name: string): seq<Tick> {
    if name in h then h[name] else []
  }
}

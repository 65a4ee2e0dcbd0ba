/** The two orders of a pass: nodes by name, pending jobs by aged priority. */
module Orders {
  import opened Types

  // --- Nodes by name ---

  /** Lexicographic order of strings. */
  predicate StrLt(a: string, b: string) {
    if b == [] then false
    else if a == [] then true
    else a[0] < b[0] || (a[0] == b[0] && StrLt(a[1..], b[1..]))
  }

  /** The order is by the first character that differs, a proper prefix coming first. */
  lemma {:induction false} StrLtIff(a: string, b: string)
    ensures StrLt(a, b) <==>
            exists i :: 0 <= i <= |a| && i < |b| && a[..i] == b[..i] && (i == |a| || a[i] < b[i])
  {
    if a != [] && b != [] && a[0] == b[0] {
      StrLtIff(a[1..], b[1..]);
      forall i | 1 <= i <= |a| && i <= |b|
        ensures a[..i] == b[..i] <==> a[1..][..i - 1] == b[1..][..i - 1]
      {
        assert a[..i] == [a[0]] + a[1..][..i - 1] && b[..i] == [b[0]] + b[1..][..i - 1];
      }
      var x, y := a[1..], b[1..];
      if i :| 0 <= i <= |x| && i < |y| && x[..i] == y[..i] && (i == |x| || x[i] < y[i]) {
        assert a[..i + 1] == b[..i + 1];
      }
      if i :| 0 <= i <= |a| && i < |b| && a[..i] == b[..i] && (i == |a| || a[i] < b[i]) {
        assert i > 0;
        assert a[1..][..i - 1] == b[1..][..i - 1];
      }
    } else if b != [] {
      assert a[..0] == b[..0];
      forall i | 0 < i <= |a| && i <= |b| ensures a[..i] != b[..i] {
        assert a[..i][0] == a[0] && b[..i][0] == b[0];
      }
    }
  }

  lemma {:induction false} StrLtTotal(a: string, b: string)
    ensures StrLt(a, b) ==> !StrLt(b, a) && a != b
    ensures !StrLt(a, b) && !StrLt(b, a) ==> a == b
  {
    if a != [] && b != [] {
      StrLtTotal(a[1..], b[1..]);
      assert a == [a[0]] + a[1..] && b == [b[0]] + b[1..];
    }
  }

  lemma {:induction false} StrLtTransitive(a: string, b: string, c: string)
    requires StrLt(a, b) && StrLt(b, c)
    ensures StrLt(a, c)
  {
    if a != [] && a[0] == b[0] == c[0] {
      StrLtTransitive(a[1..], b[1..], c[1..]);
    }
  }

  lemma NameSplit(x: string, y: string, z: string)
    requires StrLt(x, z)
    ensures StrLt(x, y) || StrLt(y, z)
  {
    StrLtTotal(x, y);
    if StrLt(y, x) {
      StrLtTransitive(y, x, z);
    }
  }

  /** Strictly by name. */
  ghost predicate NameSorted(ns: seq<Node>) {
    forall i, k | 0 <= i < k < |ns| :: StrLt(ns[i].name, ns[k].name)
  }

  function InsertByName(n: Node, ns: seq<Node>): seq<Node> {
    if ns != [] && StrLt(n.name, ns[|ns| - 1].name) then InsertByName(n, ns[..|ns| - 1]) + [ns[|ns| - 1]]
    else ns + [n]
  }

  /** The UP nodes in name order. */
  function Fleet(nodes: seq<Node>): seq<Node> {
    if nodes == [] then []
    else
      var rest, n := Fleet(nodes[..|nodes| - 1]), nodes[|nodes| - 1];
      if n.state.Up? then InsertByName(n, rest) else rest
  }

  lemma {:induction false} InsertByNameSorts(n: Node, ns: seq<Node>)
    requires NameSorted(ns) && forall m | m in ns :: m.name != n.name
    ensures NameSorted(InsertByName(n, ns))
    ensures forall m :: m in InsertByName(n, ns) <==> m == n || m in ns
  {
    if ns == [] {
      assert InsertByName(n, ns) == [n];
    } else {
      var init, last := ns[..|ns| - 1], ns[|ns| - 1];
      assert ns == init + [last];
      if StrLt(n.name, last.name) {
        InsertByNameSorts(n, init);
        var r := InsertByName(n, init);
        forall i | 0 <= i < |r| ensures StrLt(r[i].name, last.name) {
          assert r[i] == n || r[i] in init;
        }
      } else {
        forall i | 0 <= i < |ns| ensures StrLt(ns[i].name, n.name) {
          StrLtTotal(n.name, last.name);
          assert ns[i] in ns;
          if i < |ns| - 1 {
            StrLtTransitive(ns[i].name, last.name, n.name);
          }
        }
      }
    }
  }

  lemma {:induction false} FleetSorted(nodes: seq<Node>)
    requires UniqueNodes(nodes)
    ensures NameSorted(Fleet(nodes))
    ensures forall n :: n in Fleet(nodes) <==> n in nodes && n.state.Up?
  {
    if nodes != [] {
      var init, last := nodes[..|nodes| - 1], nodes[|nodes| - 1];
      assert nodes == init + [last];
      FleetSorted(init);
      if last.state.Up? {
        forall m | m in Fleet(init) ensures m.name != last.name {
          var i :| 0 <= i < |init| && init[i] == m;
          assert nodes[i].name != nodes[|nodes| - 1].name;
        }
        InsertByNameSorts(last, Fleet(init));
      }
    }
  }

  /** A strictly sorted list is determined by its members. */
  lemma {:induction false} SortedUnique(a: seq<Node>, b: seq<Node>)
    requires NameSorted(a) && NameSorted(b)
    requires forall n :: n in a <==> n in b
    ensures a == b
    decreases |a|
  {
    if a != [] { assert a[0] in b; }
    if b != [] { assert b[0] in a; }
    if a != [] {
      var x, y := a[|a| - 1], b[|b| - 1];
      assert x in b && y in a;
      var i :| 0 <= i < |b| && b[i] == x;
      var k :| 0 <= k < |a| && a[k] == y;
      StrLtTotal(x.name, y.name);
      assert x == y;
      LastIsOnlyAtEnd(a);
      LastIsOnlyAtEnd(b);
      var a', b' := a[..|a| - 1], b[..|b| - 1];
      assert forall n :: n in a' <==> n in b' by {
        assert forall n :: n in a' <==> n in a && n != x;
        assert forall n :: n in b' <==> n in b && n != y;
      }
      SortedUnique(a', b');
      assert a == a' + [x] && b == b' + [y];
    }
  }

  lemma LastIsOnlyAtEnd(a: seq<Node>)
    requires NameSorted(a) && a != []
    ensures forall n :: n in a[..|a| - 1] <==> n in a && n != a[|a| - 1]
  {
    var init, x := a[..|a| - 1], a[|a| - 1];
    assert a == init + [x];
    if x in init {
      var i :| 0 <= i < |init| && init[i] == x;
      assert StrLt(a[i].name, a[|a| - 1].name);
      StrLtTotal(x.name, x.name);
    }
  }

  // --- Pending jobs by aged priority ---

  function Minutes(d: Time): real {
    d as real / 60_000_000_000.0
  }

  /** Base priority plus the weighted minutes in the queue; a job without a submit time does not age. */
  function EffPriority(j: Job, now: Time, w: real): real {
    var p := j.priority as real;
    if w > 0.0 && j.submitAt.Some? && Minutes(now - j.submitAt.value) > 0.0
    then p + w * Minutes(now - j.submitAt.value)
    else p
  }

  /** The zero time is before every other. */
  predicate Before(a: Option<Time>, b: Option<Time>) {
    b.Some? && (a.None? || a.value < b.value)
  }

  /** `a` must be considered before `b`. */
  predicate Outranks(a: Job, b: Job, now: Time, w: real) {
    var pa, pb := EffPriority(a, now, w), EffPriority(b, now, w);
    if pa != pb then pa > pb else Before(a.submitAt, b.submitAt)
  }

  function Insert(j: Job, s: seq<Job>, now: Time, w: real): seq<Job> {
    if s != [] && Outranks(j, s[|s| - 1], now, w) then Insert(j, s[..|s| - 1], now, w) + [s[|s| - 1]]
    else s + [j]
  }

  /** The stable sort of the queue. */
  function Ranked(p: seq<Job>, now: Time, w: real): seq<Job> {
    if p == [] then [] else Insert(p[|p| - 1], Ranked(p[..|p| - 1], now, w), now, w)
  }

  ghost predicate IsRanked(s: seq<Job>, now: Time, w: real) {
    forall i, k | 0 <= i < k < |s| :: !Outranks(s[k], s[i], now, w)
  }

  function Drop(s: seq<Job>, gone: set<Job>): seq<Job> {
    if s == [] then []
    else Drop(s[..|s| - 1], gone) + (if s[|s| - 1] in gone then [] else [s[|s| - 1]])
  }

  lemma {:induction false} InsertPermutes(j: Job, s: seq<Job>, now: Time, w: real)
    ensures multiset(Insert(j, s, now, w)) == multiset(s) + multiset{j}
  {
    if s != [] && Outranks(j, s[|s| - 1], now, w) {
      var init, last := s[..|s| - 1], s[|s| - 1];
      assert s == init + [last];
      InsertPermutes(j, init, now, w);
    }
  }

  lemma {:induction false} InsertRanks(j: Job, s: seq<Job>, now: Time, w: real)
    requires IsRanked(s, now, w)
    ensures IsRanked(Insert(j, s, now, w), now, w)
  {
    if s == [] {
    } else if Outranks(j, s[|s| - 1], now, w) {
      var init, last := s[..|s| - 1], s[|s| - 1];
      InsertRanks(j, init, now, w);
      InsertPermutes(j, init, now, w);
      var r := Insert(j, init, now, w);
      forall i | 0 <= i < |r| ensures !Outranks(last, r[i], now, w) {
        assert r[i] in multiset(init) + multiset{j};
        assert r[i] == j || r[i] in init;
      }
    } else {
      NothingOutranked(j, s, now, w);
    }
  }

  /** A job that does not outrank the last of a ranked list outranks none of it. */
  lemma NothingOutranked(j: Job, s: seq<Job>, now: Time, w: real)
    requires IsRanked(s, now, w) && s != [] && !Outranks(j, s[|s| - 1], now, w)
    ensures forall x | x in s :: !Outranks(j, x, now, w)
  {
    forall i | 0 <= i < |s| ensures !Outranks(j, s[i], now, w) {
      assert i < |s| - 1 ==> !Outranks(s[|s| - 1], s[i], now, w);
    }
  }

  lemma {:induction false} RankedPermutes(p: seq<Job>, now: Time, w: real)
    ensures multiset(Ranked(p, now, w)) == multiset(p)
  {
    hide Insert;
    if p != [] {
      var init, j := p[..|p| - 1], p[|p| - 1];
      RankedPermutes(init, now, w);
      InsertPermutes(j, Ranked(init, now, w), now, w);
      assert p == init + [j];
    }
  }

  lemma {:induction false} RankedSorts(p: seq<Job>, now: Time, w: real)
    ensures IsRanked(Ranked(p, now, w), now, w)
  {
    if p != [] {
      RankedSorts(p[..|p| - 1], now, w);
      InsertRanks(p[|p| - 1], Ranked(p[..|p| - 1], now, w), now, w);
    }
  }

  lemma {:induction false} DropMembers(s: seq<Job>, gone: set<Job>)
    ensures forall j :: j in Drop(s, gone) <==> j in s && j !in gone
  {
    if s != [] {
      DropMembers(s[..|s| - 1], gone);
      assert s == s[..|s| - 1] + [s[|s| - 1]];
    }
  }

  lemma DropSnoc(s: seq<Job>, j: Job, gone: set<Job>)
    ensures Drop(s + [j], gone) == Drop(s, gone) + (if j in gone then [] else [j])
  {
    assert (s + [j])[..|s|] == s;
  }

  lemma {:induction false} DropConcat(a: seq<Job>, b: seq<Job>, gone: set<Job>)
    ensures Drop(a + b, gone) == Drop(a, gone) + Drop(b, gone)
  {
    if b == [] {
      assert a + b == a;
    } else {
      var init, last := b[..|b| - 1], b[|b| - 1];
      assert a + b == (a + init) + [last] && b == init + [last];
      DropConcat(a, init, gone);
      DropSnoc(a + init, last, gone);
    }
  }

  lemma {:induction false} DropNothing(s: seq<Job>, gone: set<Job>)
    requires forall j | j in s :: j !in gone
    ensures Drop(s, gone) == s
  {
    if s != [] {
      DropNothing(s[..|s| - 1], gone);
    }
  }

  lemma {:induction false} InsertDrop(j: Job, s: seq<Job>, gone: set<Job>, now: Time, w: real)
    requires IsRanked(s, now, w)
    ensures Drop(Insert(j, s, now, w), gone)
            == if j in gone then Drop(s, gone) else Insert(j, Drop(s, gone), now, w)
  {
    if s != [] && Outranks(j, s[|s| - 1], now, w) {
      var init, last := s[..|s| - 1], s[|s| - 1];
      InsertDrop(j, init, gone, now, w);
      DropSnoc(Insert(j, init, now, w), last, gone);
      assert last !in gone ==> (Drop(init, gone) + [last])[..|Drop(init, gone)|] == Drop(init, gone);
      assert last in gone ==> Drop(s, gone) == Drop(init, gone);
    } else {
      DropSnoc(s, j, gone);
      DropMembers(s, gone);
      var d := Drop(s, gone);
      if d != [] {
        assert d[|d| - 1] in s;
        NothingOutranked(j, s, now, w);
      }
    }
  }

  /** Sorting after removing jobs is removing them after sorting; in particular the sort is stable. */
  lemma {:induction false} RankedDrop(p: seq<Job>, gone: set<Job>, now: Time, w: real)
    ensures Ranked(Drop(p, gone), now, w) == Drop(Ranked(p, now, w), gone)
  {
    if p != [] {
      var init, j := p[..|p| - 1], p[|p| - 1];
      RankedDrop(init, gone, now, w);
      RankedSorts(init, now, w);
      InsertDrop(j, Ranked(init, now, w), gone, now, w);
      if j !in gone {
        assert (Drop(init, gone) + [j])[..|Drop(init, gone)|] == Drop(init, gone);
      } else {
        assert Drop(p, gone) == Drop(init, gone);
      }
    }
  }

  lemma {:induction false} UnrankedStays(q: seq<Job>, now: Time, w: real)
    requires forall a, b | a in q && b in q :: !Outranks(a, b, now, w)
    ensures Ranked(q, now, w) == q
  {
    if q != [] {
      UnrankedStays(q[..|q| - 1], now, w);
    }
  }

  /** The sort is stable: jobs none of which outranks another keep the order they were listed in. */
  lemma RankedIsStable(p: seq<Job>, others: set<Job>, now: Time, w: real)
    requires forall a, b | a in p && b in p && a !in others && b !in others :: !Outranks(a, b, now, w)
    ensures Drop(Ranked(p, now, w), others) == Drop(p, others)
  {
    RankedDrop(p, others, now, w);
    DropMembers(p, others);
    UnrankedStays(Drop(p, others), now, w);
  }

  /** Without aging the effective priority is the priority; with it, a minute in the queue is worth `w`. */
  lemma EffPriorityIs(j: Job, now: Time, w: real)
    ensures w <= 0.0 || j.submitAt.None? || now <= j.submitAt.value ==> EffPriority(j, now, w) == j.priority as real
    ensures w > 0.0 && j.submitAt.Some? && j.submitAt.value < now ==>
              EffPriority(j, now, w) == j.priority as real + w * ((now - j.submitAt.value) as real / 60_000_000_000.0)
  {
  }

  /** A job goes ahead of another by effective priority, and among equals by submit time, none being the earliest. */
  lemma OutranksIff(a: Job, b: Job, now: Time, w: real)
    ensures Outranks(a, b, now, w) <==>
            || EffPriority(a, now, w) > EffPriority(b, now, w)
            || (EffPriority(a, now, w) == EffPriority(b, now, w) && b.submitAt.Some?
                && (a.submitAt.None? || a.submitAt.value < b.submitAt.value))
  {
    hide EffPriority;
  }

  /** Without aging the queue is by priority, highest first; equals by submit time, a missing time before all. */
  lemma RankedWithoutAging(p: seq<Job>, now: Time, w: real, i: nat, k: nat)
    requires w <= 0.0 && i < k < |Ranked(p, now, w)|
    ensures var a, b := Ranked(p, now, w)[i], Ranked(p, now, w)[k];
            && a.priority >= b.priority
            && (a.priority == b.priority && a.submitAt.Some? ==>
                  b.submitAt.Some? && a.submitAt.value <= b.submitAt.value)
  {
    hide EffPriority, Insert;
    RankedSorts(p, now, w);
    var a, b := Ranked(p, now, w)[i], Ranked(p, now, w)[k];
    OutranksIff(b, a, now, w);
    EffPriorityIs(a, now, w);
    EffPriorityIs(b, now, w);
  }

  /**
   * In general it is by priority, plus a positive `w` for every minute since the submit time for jobs that
   * have one in the past; equals again by submit time.
   */
  lemma RankedByPriority(p: seq<Job>, now: Time, w: real, i: nat, k: nat)
    requires i < k < |Ranked(p, now, w)|
    ensures var aged := (j: Job) =>
              if w > 0.0 && j.submitAt.Some? && j.submitAt.value < now
              then j.priority as real + w * ((now - j.submitAt.value) as real / 60_000_000_000.0)
              else j.priority as real;
            var a, b := Ranked(p, now, w)[i], Ranked(p, now, w)[k];
            && aged(a) >= aged(b)
            && (aged(a) == aged(b) && a.submitAt.Some? ==> b.submitAt.Some? && a.submitAt.value <= b.submitAt.value)
  {
    hide EffPriority, Insert;
    RankedSorts(p, now, w);
    var a, b := Ranked(p, now, w)[i], Ranked(p, now, w)[k];
    OutranksIff(b, a, now, w);
    EffPriorityIs(a, now, w);
    EffPriorityIs(b, now, w);
  }

  lemma MinutesAdd(x: Time, y: Time)
    ensures Minutes(x + y) == Minutes(x) + Minutes(y)
  {
  }

  lemma {:induction false} ScaleAdd(w: real, x: real, y: real)
    ensures w * (x + y) == w * x + w * y
  {
  }

  /** A job in the queue by `now` gains the same amount as any other up to a later pass. */
  lemma AgesAlike(j: Job, now: Time, later: Time, w: real)
    requires j.submitAt.Some? && j.submitAt.value <= now <= later && w > 0.0
    ensures EffPriority(j, later, w) == EffPriority(j, now, w) + w * Minutes(later - now)
  {
    var waited := now - j.submitAt.value;
    assert later - j.submitAt.value == waited + (later - now);
    MinutesAdd(waited, later - now);
    ScaleAdd(w, Minutes(waited), Minutes(later - now));
  }

  /** The relative order of two queued jobs is the same at every later pass. */
  lemma AgingKeepsOrder(a: Job, b: Job, now: Time, later: Time, w: real)
    requires a.submitAt.Some? && a.submitAt.value <= now <= later
    requires b.submitAt.Some? && b.submitAt.value <= now
    ensures Outranks(a, b, now, w) <==> Outranks(a, b, later, w)
  {
    if w > 0.0 {
      AgesAlike(a, now, later, w);
      AgesAlike(b, now, later, w);
    }
  }

  /**
   * With aging on, the later-submitted `b` is behind `a` in effective priority exactly when it came
   * more than (priority gap / weight) minutes after it.
   */
  lemma OvertakingIsBounded(a: Job, b: Job, now: Time, w: real)
    requires a.submitAt.Some? && b.submitAt.Some? && a.submitAt.value <= b.submitAt.value <= now && w > 0.0
    ensures EffPriority(a, now, w) > EffPriority(b, now, w)
            <==> (b.submitAt.value - a.submitAt.value) as real / 60_000_000_000.0
                 > (b.priority - a.priority) as real / w
  {
    var head := b.submitAt.value - a.submitAt.value;
    AgesAlike(b, b.submitAt.value, now, w);
    AgesAlike(a, b.submitAt.value, now, w);
    var gap := (b.priority - a.priority) as real;
    assert EffPriority(a, now, w) - EffPriority(b, now, w) == w * Minutes(head) - gap;
    Quotient(gap, w, Minutes(head));
  }

  lemma Quotient(gap: real, w: real, m: real)
    requires w > 0.0
    ensures m > gap / w <==> w * m > gap
  {
    var q := gap / w;
    assert q * w == gap;
    if m > q {
      assert (m - q) * w > 0.0;
    } else {
      assert (q - m) * w >= 0.0;
    }
  }
}

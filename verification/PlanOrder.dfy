/** What the outcome of a pass does not depend on: the order of its inputs, and lower-ranked jobs. */
module PlanOrder {
  import opened Types
  import opened Slices
  import opened Resources
  import opened FreeViews
  import opened Reservations
  import opened Orders
  import opened Planning
  import opened PlanProperties

  lemma UniqueInAnyOrder(a: seq<Node>, b: seq<Node>)
    requires UniqueNodes(a) && multiset(a) == multiset(b)
    ensures UniqueNodes(b)
  {
    SameMembers(a, b);
    forall x | x in b ensures multiset(b)[x] == 1 {
      CountOnce(a, x);
    }
    OnceEach(b);
    forall i, k | 0 <= i < k < |b| ensures b[i].id != b[k].id && b[i].name != b[k].name {
      assert b[i] in a && b[k] in a;
      UniqueNames(a, b[i], b[k]);
    }
  }

  lemma FleetInAnyOrder(a: seq<Node>, b: seq<Node>)
    requires UniqueNodes(a) && multiset(a) == multiset(b)
    ensures Fleet(a) == Fleet(b)
  {
    UniqueInAnyOrder(a, b);
    SameMembers(a, b);
    FleetSorted(a);
    FleetSorted(b);
    SortedUnique(Fleet(a), Fleet(b));
  }

  lemma FreeOfInAnyOrder(n: Node, a: seq<Job>, b: seq<Job>)
    requires multiset(a) == multiset(b)
    ensures FreeOf(n, a) == FreeOf(n, b)
  {
    LoadPermutation(a, b, n, Cpu, Always);
    LoadPermutation(a, b, n, Mem, Always);
    SameMembers(a, b);
    assert Taken(a, n.id) == Taken(b, n.id);
  }

  lemma ReadyInAnyOrder(b: Job, n: Node, x: seq<Job>, y: seq<Job>, now: Time, t: Time)
    requires multiset(x) == multiset(y)
    ensures Ready(b, n, x, now, t) <==> Ready(b, n, y, now, t)
  {
    forall r ensures Avail(n, x, r, now, t) == Avail(n, y, r, now, t) {
      LoadPermutation(x, y, n, r, Always);
      LoadPermutation(x, y, n, r, Past(now, t));
    }
  }

  lemma EarliestInAnyOrder(b: Job, ns: seq<Node>, ms: seq<Node>, x: seq<Job>, y: seq<Job>, now: Time)
    requires multiset(ns) == multiset(ms) && multiset(x) == multiset(y)
    ensures EarliestStart(b, ns, x, now) == EarliestStart(b, ms, y, now)
  {
    SameMembers(ns, ms);
    forall t ensures ReadySomewhere(b, ns, x, now, t) <==> ReadySomewhere(b, ms, y, now, t) {
      forall n ensures Ready(b, n, x, now, t) <==> Ready(b, n, y, now, t) {
        ReadyInAnyOrder(b, n, x, y, now, t);
      }
    }
    EarliestIsUnique(b, ns, x, now, EarliestStart(b, ns, x, now), EarliestStart(b, ms, y, now));
  }

  /** The two snapshots differ at most in the order of their nodes and of their active jobs. */
  ghost predicate SameUpToOrder(s: Snapshot, s': Snapshot) {
    && s.now == s'.now && s.policy == s'.policy
    && multiset(s.nodes) == multiset(s'.nodes) && multiset(s.active) == multiset(s'.active)
  }

  lemma ChoiceInAnyOrder(s: Snapshot, s': Snapshot, placed: seq<Job>, job: Job)
    requires UniqueNodes(s.nodes) && SameUpToOrder(s, s')
    ensures Choice(s, s.active + placed, job) == Choice(s', s'.active + placed, job)
  {
    FleetInAnyOrder(s.nodes, s'.nodes);
    forall n ensures FreeOf(n, s.active + placed) == FreeOf(n, s'.active + placed) {
      FreeOfInAnyOrder(n, s.active + placed, s'.active + placed);
    }
    assert Frees(Fleet(s.nodes), s.active + placed) == Frees(Fleet(s.nodes), s'.active + placed);
  }

  /** Permuting the nodes and the active jobs changes nothing in a pass. */
  lemma {:induction false} OrderIndependence(s: Snapshot, s': Snapshot, queue: seq<Job>)
    requires UniqueNodes(s.nodes) && SameUpToOrder(s, s')
    ensures Run(s, queue) == Run(s', queue)
  {
    if queue != [] {
      var init, job := queue[..|queue| - 1], queue[|queue| - 1];
      OrderIndependence(s, s', init);
      ChoiceInAnyOrder(s, s', Run(s, init).placed, job);
      EarliestInAnyOrder(job, s.nodes, s'.nodes, s.active, s'.active, s.now);
    }
  }

  lemma PrefixSurvives(queue: seq<Job>, gone: set<Job>, now: Time, w: real, i: nat)
    requires IsRanked(queue, now, w) && i < |queue|
    requires forall d | d in gone :: Outranks(queue[i], d, now, w)
    ensures queue[..i + 1] <= Drop(queue, gone)
  {
    var head := queue[..i + 1];
    forall k | 0 <= k < |head| ensures head[k] !in gone {
      assert k < i ==> !Outranks(queue[i], queue[k], now, w);
    }
    DropNothing(head, gone);
    assert queue == head + queue[i + 1..];
    DropConcat(head, queue[i + 1..], gone);
  }

  /** Dropping jobs that the one at position `i` outranks leaves the ranked queue as it was up to it. */
  lemma RankedUpTo(pending: seq<Job>, gone: set<Job>, now: Time, w: real, i: nat)
    requires i < |Ranked(pending, now, w)|
    requires forall d | d in gone :: Outranks(Ranked(pending, now, w)[i], d, now, w)
    ensures Ranked(pending, now, w)[..i + 1] <= Ranked(Drop(pending, gone), now, w)
  {
    RankedSorts(pending, now, w);
    RankedDrop(pending, gone, now, w);
    PrefixSurvives(Ranked(pending, now, w), gone, now, w, i);
  }

  /**
   * Lower-ranked jobs cannot interfere: remove any jobs that the one at position `i` outranks, and the
   * placements made up to it - jobs, nodes and devices - are still the first the pass makes.
   */
  lemma LowerRankedCannotInterfere(s: Snapshot, pending: seq<Job>, gone: set<Job>, i: nat)
    requires var queue := Ranked(pending, s.now, s.policy.ageWeight);
             i < |queue| && forall d | d in gone :: Outranks(queue[i], d, s.now, s.policy.ageWeight)
    ensures var upTo := Run(s, Ranked(pending, s.now, s.policy.ageWeight)[..i + 1]).placed;
            upTo <= Placed(s, pending) && upTo <= Placed(s, Drop(pending, gone))
  {
    hide Run, Ranked, Outranks, Drop;
    var queue := Ranked(pending, s.now, s.policy.ageWeight);
    var fewer := Ranked(Drop(pending, gone), s.now, s.policy.ageWeight);
    RankedUpTo(pending, gone, s.now, s.policy.ageWeight, i);
    assert fewer[..i + 1] == queue[..i + 1];
    RunGrows(s, queue, i + 1);
    RunGrows(s, fewer, i + 1);
  }
}

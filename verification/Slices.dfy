/** Library facts and the library sort: permutations, and sort.Slice by its documented promise. */
module Slices {
  lemma MultisetRemove<T>(s: seq<T>, i: nat)
    requires i < |s|
    ensures multiset(s[..i] + s[i + 1..]) == multiset(s) - multiset{s[i]}
  {
    assert s == s[..i] + ([s[i]] + s[i + 1..]);
  }

  /** The last element of a sequence occurs in each of its permutations; both lose it alike. */
  lemma PermutationStep<T>(a: seq<T>, b: seq<T>) returns (k: nat)
    requires multiset(a) == multiset(b) && a != []
    ensures k < |b| && b[k] == a[|a| - 1]
    ensures multiset(a[..|a| - 1]) == multiset(b[..k] + b[k + 1..])
  {
    assert a[|a| - 1] in multiset(b);
    k :| 0 <= k < |b| && b[k] == a[|a| - 1];
    MultisetRemove(a, |a| - 1);
    MultisetRemove(b, k);
    assert a[..|a| - 1] + a[|a| - 1 + 1..] == a[..|a| - 1];
  }

  lemma SameMembers<T>(a: seq<T>, b: seq<T>)
    requires multiset(a) == multiset(b)
    ensures forall x :: x in a <==> x in b
  {
    assert forall x :: x in a <==> x in multiset(a);
    assert forall x :: x in b <==> x in multiset(b);
  }

  lemma CountOnce<T>(s: seq<T>, x: T)
    requires x in s && forall i, k | 0 <= i < k < |s| :: s[i] != s[k]
    ensures multiset(s)[x] == 1
  {
    var i :| 0 <= i < |s| && s[i] == x;
    var rest := s[..i] + s[i + 1..];
    MultisetRemove(s, i);
    assert x !in rest;
    assert x !in multiset(rest);
  }

  lemma OnceEach<T>(s: seq<T>)
    requires forall x | x in s :: multiset(s)[x] == 1
    ensures forall i, k | 0 <= i < k < |s| :: s[i] != s[k]
  {
    forall i, k | 0 <= i < k < |s| ensures s[i] != s[k] {
      assert s == s[..k] + s[k..];
      assert s[i] in s[..k] && s[k] in s[k..];
      assert multiset(s)[s[k]] == multiset(s[..k])[s[k]] + multiset(s[k..])[s[k]];
    }
  }

  lemma MultisetAppend<T>(s: seq<T>, x: T)
    ensures multiset(s + [x]) == multiset(s) + multiset{x}
  {
  }

  /** A permutation in which no element is less than one before it; equal elements come in any order. */
  method SortSlice<T>(s: seq<T>, less: (T, T) -> bool) returns (r: seq<T>)
    requires forall x, y | x in s && y in s :: !less(x, y) || !less(y, x)
    requires forall x, y, z | x in s && y in s && z in s && less(x, z) :: less(x, y) || less(y, z)
    ensures multiset(r) == multiset(s)
    ensures forall i, k | 0 <= i < k < |r| :: !less(r[k], r[i])
  {
    r := [];
    for i := 0 to |s|
      invariant multiset(r) == multiset(s[..i])
      invariant forall x | x in r :: x in s
      invariant forall a, b | 0 <= a < b < |r| :: !less(r[b], r[a])
    {
      assert s[..i + 1] == s[..i] + [s[i]];
      var p := |r|;
      while p > 0 && less(s[i], r[p - 1])
        invariant 0 <= p <= |r|
        invariant forall a | p <= a < |r| :: less(s[i], r[a])
      {
        p := p - 1;
      }
      if p > 0 {
        forall a | 0 <= a < p ensures !less(s[i], r[a]) {
          assert !less(s[i], r[p - 1]) && (a < p - 1 ==> !less(r[p - 1], r[a]));
        }
      }
      InsertKeepsOrder(r, p, s[i], less);
      r := r[..p] + [s[i]] + r[p..];
    }
    assert s[..|s|] == s;
  }

  lemma InsertKeepsOrder<T>(r: seq<T>, p: nat, x: T, less: (T, T) -> bool)
    requires p <= |r|
    requires forall a, b | 0 <= a < b < |r| :: !less(r[b], r[a])
    requires forall a | 0 <= a < p :: !less(x, r[a])
    requires forall a | p <= a < |r| :: !less(r[a], x)
    ensures var r' := r[..p] + [x] + r[p..];
            && multiset(r') == multiset(r) + multiset{x}
            && (forall y | y in r' :: y in r || y == x)
            && forall a, b | 0 <= a < b < |r'| :: !less(r'[b], r'[a])
  {
    assert r == r[..p] + r[p..];
    var r' := r[..p] + [x] + r[p..];
    forall a, b | 0 <= a < b < |r'| ensures !less(r'[b], r'[a]) {
      var a', b' := if a < p then a else a - 1, if b < p then b else b - 1;
      assert a != p && b != p ==> r'[a] == r[a'] && r'[b] == r[b'];
    }
  }
}

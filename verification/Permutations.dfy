/** Permutations of 0..n-1 held in sequences, and sorted rearrangements. */
module Permutations {

  /** 0, 1, ..., n-1. */
  function Iota(n: nat): (r: seq<int>)
    ensures |r| == n && forall i :: 0 <= i < n ==> r[i] == i
  {
    if n == 0 then [] else Iota(n - 1) + [n - 1]
  }

  ghost predicate IsPermutation(p: seq<int>, n: nat) {
    multiset(p) == multiset(Iota(n))
  }

  ghost predicate Injective(p: seq<int>, n: nat) {
    && |p| == n
    && (forall k :: 0 <= k < n ==> 0 <= p[k] < n)
    && (forall j, k :: 0 <= j < k < n ==> p[j] != p[k])
  }

  lemma {:induction false} IotaCounts(n: nat, x: int)
    ensures multiset(Iota(n))[x] == if 0 <= x < n then 1 else 0
  {
    if n > 0 { IotaCounts(n - 1, x); }
  }

  /** A duplicate would be counted twice. */
  lemma TwiceCounted(p: seq<int>, j: int, k: int)
    requires 0 <= j < k < |p| && p[j] == p[k]
    ensures multiset(p)[p[j]] >= 2
  {
    assert p == p[..k] + p[k..];
    assert p[j] in p[..k] && p[j] in p[k..] by {
      assert p[..k][j] == p[j] && p[k..][0] == p[k];
    }
    assert multiset(p) == multiset(p[..k]) + multiset(p[k..]);
  }

  lemma PermutationFacts(p: seq<int>, n: nat)
    requires IsPermutation(p, n)
    ensures Injective(p, n)
    ensures forall x :: 0 <= x < n ==> x in p
  {
    assert |multiset(p)| == |p| && |multiset(Iota(n))| == n;
    forall k | 0 <= k < n ensures 0 <= p[k] < n {
      assert p[k] in multiset(p);
      IotaCounts(n, p[k]);
    }
    forall j, k | 0 <= j < k < n ensures p[j] != p[k] {
      IotaCounts(n, p[j]);
      if p[j] == p[k] { TwiceCounted(p, j, k); }
    }
    forall x | 0 <= x < n ensures x in p {
      IotaCounts(n, x);
      assert x in multiset(p);
    }
  }

  /** Removing one element. */
  function Without<T>(s: seq<T>, k: nat): (r: seq<T>)
    requires k < |s|
    ensures |r| == |s| - 1
    ensures multiset(r) == multiset(s) - multiset{s[k]}
  {
    assert s == s[..k] + [s[k]] + s[k + 1..];
    s[..k] + s[k + 1..]
  }

  /** n distinct values below n are all of them. */
  lemma {:induction false} InjectiveIsPermutation(p: seq<int>, n: nat)
    requires Injective(p, n)
    ensures IsPermutation(p, n)
    decreases n
  {
    hide *;
    if n == 0 {
      NothingPermuted(p);
    } else {
      var k := TopAt(p, n);
      WithoutTop(p, k, n);
      InjectiveIsPermutation(Without(p, k), n - 1);
      WithTop(p, k, n);
    }
  }

  lemma NothingPermuted(p: seq<int>)
    ensures Injective(p, 0) ==> IsPermutation(p, 0)
  {
    if p == [] { assert p == Iota(0); }
  }

  lemma TopAt(p: seq<int>, n: nat) returns (k: nat)
    requires n > 0 && Injective(p, n)
    ensures k < n == |p| && p[k] == n - 1
  {
    if n - 1 !in p {
      PigeonHole(p, n - 1);
    }
    k :| 0 <= k < n && p[k] == n - 1;
  }

  lemma WithTop(p: seq<int>, k: nat, n: nat)
    requires k < n == |p| && p[k] == n - 1 && IsPermutation(Without(p, k), n - 1)
    ensures IsPermutation(p, n)
  {
    hide Without, Iota;
    IotaNext(n);
    PutBack(multiset(p), p[k]);
  }

  lemma IotaNext(n: nat)
    requires n > 0
    ensures multiset(Iota(n)) == multiset(Iota(n - 1)) + multiset{n - 1}
  {
  }

  lemma PutBack<T>(m: multiset<T>, x: T)
    ensures x in m ==> m - multiset{x} + multiset{x} == m
  {
  }

  lemma WithoutTop(p: seq<int>, k: nat, n: nat)
    requires k < n && Injective(p, n) && p[k] == n - 1
    ensures Injective(Without(p, k), n - 1)
  {
    var q := Without(p, k);
    forall i | 0 <= i < n - 1 ensures q[i] == p[if i < k then i else i + 1] {
    }
  }

  /** No more distinct values below m than m. */
  lemma {:induction false} PigeonHole(p: seq<int>, m: nat)
    requires forall k :: 0 <= k < |p| ==> 0 <= p[k] < m
    requires forall j, k :: 0 <= j < k < |p| ==> p[j] != p[k]
    ensures |p| <= m
    decreases m
  {
    if p != [] {
      assert 0 <= p[0] < m;
      if k :| 0 <= k < |p| && p[k] == m - 1 {
        PigeonHole(Without(p, k), m - 1);
      } else {
        PigeonHole(p, m - 1);
      }
    }
  }

  /** Every permutation has an inverse. */
  ghost predicate Inverse(p: seq<int>, q: seq<int>, n: nat) {
    && Injective(p, n) && Injective(q, n)
    && (forall k :: 0 <= k < n ==> q[p[k]] == k)
    && (forall k :: 0 <= k < n ==> p[q[k]] == k)
  }

  /** Filling q[p[k]] := k for an injective p gives the inverse. */
  lemma InverseFromOneSide(p: seq<int>, q: seq<int>, n: nat)
    requires Injective(p, n) && |q| == n
    requires forall k :: 0 <= k < n ==> q[p[k]] == k
    ensures Inverse(p, q, n)
  {
    InjectiveIsPermutation(p, n);
    PermutationFacts(p, n);
    forall k | 0 <= k < n ensures 0 <= q[k] < n && p[q[k]] == k {
      assert k in p;
      var j :| 0 <= j < n && p[j] == k;
    }
  }

  // --- Rearranging by a permutation keeps the elements ---

  function Pick<T>(f: int -> T, p: seq<int>): (r: seq<T>)
    ensures |r| == |p| && forall k :: 0 <= k < |p| ==> r[k] == f(p[k])
  {
    seq(|p|, k requires 0 <= k < |p| => f(p[k]))
  }

  lemma PickWithout<T>(f: int -> T, p: seq<int>, k: nat)
    requires k < |p|
    ensures multiset(Pick(f, p)) == multiset(Pick(f, Without(p, k))) + multiset{f(p[k])}
  {
    var r := Pick(f, p);
    assert r[k] == f(p[k]) && r[k] in r;
    var s := Without(r, k);
    assert Pick(f, Without(p, k)) == s;
  }

  lemma {:induction false} PickMultiset<T>(f: int -> T, p: seq<int>, q: seq<int>)
    requires multiset(p) == multiset(q)
    ensures multiset(Pick(f, p)) == multiset(Pick(f, q))
    decreases |p|
  {
    hide Pick, Without;
    if p == [] {
      assert |multiset(q)| == 0;
    } else {
      assert p[0] in multiset(q);
      var k :| 0 <= k < |q| && q[k] == p[0];
      PickWithout(f, p, 0);
      PickWithout(f, q, k);
      PickMultiset(f, Without(p, 0), Without(q, k));
    }
  }
}

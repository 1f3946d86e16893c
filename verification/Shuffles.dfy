/** Rearranging part of a pointer array: what every in-place step of the sorts keeps. */
module Shuffles {
  import opened Permutations

  /** g is f with some of the entries lo..hi moved among themselves. */
  ghost predicate Shuffled(f: seq<int>, g: seq<int>, lo: int, hi: int) {
    && |f| == |g| && 0 <= lo <= hi + 1 <= |f|
    && (Distinct(f, lo, hi) ==> Distinct(g, lo, hi))
    && (forall k :: 0 <= k < |f| && !(lo <= k <= hi) ==> g[k] == f[k])
    && Within(g, f, lo, hi) && Within(f, g, lo, hi)
  }

  /** Every entry g has there, f has there. */
  ghost predicate Within(g: seq<int>, f: seq<int>, lo: int, hi: int)
    requires |f| == |g| && 0 <= lo <= hi + 1 <= |f|
  {
    forall k :: lo <= k <= hi ==> g[k] in f[lo..hi + 1]
  }

  ghost predicate Distinct(f: seq<int>, lo: int, hi: int)
    requires 0 <= lo <= hi + 1 <= |f|
  {
    forall j, k :: lo <= j < k <= hi ==> f[j] != f[k]
  }

  function Swapped(f: seq<int>, i: nat, j: nat): (g: seq<int>)
    requires i < |f| && j < |f|
    ensures |g| == |f|
  {
    f[i := f[j]][j := f[i]]
  }

  lemma InSlice(f: seq<int>, lo: nat, hi: int, k: int)
    requires lo <= k <= hi < |f|
    ensures f[k] in f[lo..hi + 1]
  {
    assert f[lo..hi + 1][k - lo] == f[k];
  }

  lemma SwapShuffles(f: seq<int>, i: nat, j: nat, lo: nat, hi: int)
    requires lo <= i <= hi < |f| && lo <= j <= hi
    ensures Shuffled(f, Swapped(f, i, j), lo, hi)
  {
    var g := Swapped(f, i, j);
    if Distinct(f, lo, hi) { SwapDistinct(f, i, j, lo, hi); }
    assert forall k :: 0 <= k < |f| && !(lo <= k <= hi) ==> g[k] == f[k];
    hide Distinct, Swapped;
    forall k | lo <= k <= hi ensures g[k] in f[lo..hi + 1] && f[k] in g[lo..hi + 1] {
      SwapFound(f, i, j, lo, hi, k);
    }
  }

  lemma SwapFound(f: seq<int>, i: nat, j: nat, lo: nat, hi: int, k: int)
    requires lo <= i <= hi < |f| && lo <= j <= hi && lo <= k <= hi
    ensures Swapped(f, i, j)[k] in f[lo..hi + 1] && f[k] in Swapped(f, i, j)[lo..hi + 1]
  {
    var g, m := Swapped(f, i, j), if k == i then j else if k == j then i else k;
    assert g[k] == f[m] && g[m] == f[k];
    hide Swapped;
    InSlice(f, lo, hi, m);
    InSlice(g, lo, hi, m);
  }

  lemma SwapDistinct(f: seq<int>, i: nat, j: nat, lo: nat, hi: int)
    requires lo <= i <= hi < |f| && lo <= j <= hi && Distinct(f, lo, hi)
    ensures Distinct(Swapped(f, i, j), lo, hi)
  {
    var g := Swapped(f, i, j);
    forall a, b | lo <= a < b <= hi ensures g[a] != g[b] {
      var m := if a == i then j else if a == j then i else a;
      var n := if b == i then j else if b == j then i else b;
      assert g[a] == f[m] && g[b] == f[n];
    }
  }

  lemma ShuffleNothing(f: seq<int>, lo: nat, hi: int)
    requires lo <= hi + 1 <= |f|
    ensures Shuffled(f, f, lo, hi)
  {
    forall k | lo <= k <= hi ensures f[k] in f[lo..hi + 1] {
      InSlice(f, lo, hi, k);
    }
  }

  lemma WithinAgain(f: seq<int>, g: seq<int>, h: seq<int>, lo: int, hi: int)
    requires |f| == |g| == |h| && 0 <= lo <= hi + 1 <= |f| && Within(f, g, lo, hi) && Within(g, h, lo, hi)
    ensures Within(f, h, lo, hi)
  {
    forall k | lo <= k <= hi ensures f[k] in h[lo..hi + 1] {
      assert f[k] in g[lo..hi + 1];
      var m :| 0 <= m < hi + 1 - lo && g[lo..hi + 1][m] == f[k];
      assert g[lo + m] in h[lo..hi + 1];
    }
  }

  lemma ShuffleAgain(f: seq<int>, g: seq<int>, h: seq<int>, lo: int, hi: int)
    requires Shuffled(f, g, lo, hi) && Shuffled(g, h, lo, hi)
    ensures Shuffled(f, h, lo, hi)
  {
    hide Within;
    WithinAgain(h, g, f, lo, hi);
    WithinAgain(f, g, h, lo, hi);
  }

  lemma WithinWider(f: seq<int>, g: seq<int>, lo: int, hi: int, a: nat, b: int)
    requires |f| == |g| && 0 <= lo <= hi + 1 <= |f| && Within(g, f, lo, hi) && a <= lo && hi <= b < |f| && a <= b + 1
    requires forall k :: 0 <= k < |f| && !(lo <= k <= hi) ==> g[k] == f[k]
    ensures Within(g, f, a, b)
  {
    forall k | a <= k <= b ensures g[k] in f[a..b + 1] {
      if lo <= k <= hi {
        assert g[k] in f[lo..hi + 1];
        var m :| 0 <= m < hi + 1 - lo && f[lo..hi + 1][m] == g[k];
        InSlice(f, a, b, lo + m);
      } else {
        InSlice(f, a, b, k);
      }
    }
  }

  /** A shuffle of a part is a shuffle of the whole. */
  lemma ShuffleWider(f: seq<int>, g: seq<int>, lo: int, hi: int, a: nat, b: int)
    requires Shuffled(f, g, lo, hi) && a <= lo && hi <= b < |f| && a <= b + 1
    ensures Shuffled(f, g, a, b)
  {
    WithinWider(f, g, lo, hi, a, b);
    WithinWider(g, f, lo, hi, a, b);
    if Distinct(f, a, b) {
      forall j, k | a <= j < k <= b ensures g[j] != g[k] {
        DistinctPair(f, g, lo, hi, a, b, j, k);
      }
    }
  }

  lemma DistinctPair(f: seq<int>, g: seq<int>, lo: int, hi: int, a: nat, b: int, j: int, k: int)
    requires Shuffled(f, g, lo, hi) && a <= lo && hi <= b < |f| && a <= b + 1 && Distinct(f, a, b) && a <= j < k <= b
    ensures g[j] != g[k]
  {
    assert Distinct(f, lo, hi);
    var m := ShuffleSource(f, g, lo, hi, j);
    var n := ShuffleSource(f, g, lo, hi, k);
    hide Shuffled, Within;
  }

  /** Where an entry came from. */
  lemma ShuffleSource(f: seq<int>, g: seq<int>, lo: int, hi: int, k: int) returns (m: int)
    requires Shuffled(f, g, lo, hi) && 0 <= k < |f|
    ensures 0 <= m < |f| && g[k] == f[m] && (lo <= k <= hi <==> lo <= m <= hi)
    ensures !(lo <= k <= hi) ==> m == k
  {
    m := k;
    if lo <= k <= hi {
      assert g[k] in f[lo..hi + 1];
      var i :| 0 <= i < hi + 1 - lo && f[lo..hi + 1][i] == g[k];
      m := lo + i;
    }
  }

  /** And where it went. */
  lemma ShuffleTarget(f: seq<int>, g: seq<int>, lo: int, hi: int, k: int) returns (m: int)
    requires Shuffled(f, g, lo, hi) && lo <= k <= hi
    ensures lo <= m <= hi && g[m] == f[k]
  {
    assert f[k] in g[lo..hi + 1];
    var i :| 0 <= i < hi + 1 - lo && g[lo..hi + 1][i] == f[k];
    m := lo + i;
  }
}

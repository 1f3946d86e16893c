/** The pointer scans of mainSort (blocksort.c), Step 2: what each small bucket [c, ss] holds while it is
    filled from both ends. */
module ScanColumns {
  import opened Basics
  import opened Permutations
  import opened Rotations
  import opened Ranks
  import opened Shuffles
  import opened FallbackQSort
  import opened RotationRanks
  import opened MainRadix
  import opened Slopes

  /** Part lo..hi-1 of the pointers is made of rotations, in rank order and without repetition. */
  ghost predicate Listed(b: seq<Byte>, g: seq<int>, lo: int, hi: int) {
    && b != [] && |g| == |b| && 0 <= lo <= hi <= |g|
    && Ordered(g, Ranking(b), lo, hi - 1) && Distinct(g, lo, hi - 1)
  }

  /** Part lo..hi-1 holds, in order, exactly those rotations with first byte c whose next rotation has been
      scanned in a..z-1. */
  ghost predicate Column(b: seq<Byte>, g: seq<int>, lo: int, hi: int, c: int, a: int, z: int) {
    && Listed(b, g, lo, hi) && 0 <= a <= z <= |g|
    && (forall p :: lo <= p < hi ==> b[g[p]] == c && After(g[p], |b|) in g[a..z])
    && (forall q :: a <= q < z ==> 0 <= g[q] < |b| && (b[Before(g[q], |b|)] == c ==> Before(g[q], |b|) in g[lo..hi]))
  }

  /** Nothing scanned, nothing found. */
  lemma EmptyColumn(b: seq<Byte>, g: seq<int>, lo: int, c: int, a: int)
    requires b != [] && |g| == |b| && 0 <= lo <= |g| && 0 <= a <= |g|
    ensures Column(b, g, lo, lo, c, a, a)
  {
    hide Ranking;
  }

  lemma ListedAt(b: seq<Byte>, g: seq<int>, lo: int, hi: int, p: int)
    requires Listed(b, g, lo, hi) && lo <= p < hi
    ensures 0 <= g[p] < |b|
  {
    hide Ranking;
  }

  lemma ListedSame(b: seq<Byte>, g: seq<int>, h: seq<int>, lo: int, hi: int)
    requires Listed(b, g, lo, hi) && |h| == |g| && forall p :: lo <= p < hi ==> h[p] == g[p]
    ensures Listed(b, h, lo, hi)
  {
    hide Ranking;
  }

  /** A part of a part. */
  lemma ListedPart(b: seq<Byte>, g: seq<int>, lo: int, hi: int, l: int, h: int)
    requires Listed(b, g, lo, hi) && lo <= l <= h <= hi
    ensures Listed(b, g, l, h)
  {
    hide Ranking;
  }

  lemma ListedLast(b: seq<Byte>, g: seq<int>, lo: int, hi: int)
    requires Listed(b, g, lo, hi) && hi < |g| && 0 <= g[hi] < |b|
    requires forall p :: lo <= p < hi ==> 0 <= g[p] < |b| && g[p] != g[hi] && Ranking(b)[g[p]] <= Ranking(b)[g[hi]]
    ensures Listed(b, g, lo, hi + 1)
  {
    hide Ranking;
  }

  lemma ListedFirst(b: seq<Byte>, g: seq<int>, lo: int, hi: int)
    requires Listed(b, g, lo, hi) && 0 < lo && 0 <= g[lo - 1] < |b|
    requires forall p :: lo <= p < hi ==> 0 <= g[p] < |b| && g[p] != g[lo - 1] && Ranking(b)[g[lo - 1]] <= Ranking(b)[g[p]]
    ensures Listed(b, g, lo - 1, hi)
  {
    hide Ranking;
  }

  /** A column is not touched by a write elsewhere, and a scanned rotation that belongs elsewhere adds nothing. */
  lemma ColumnStays(b: seq<Byte>, g: seq<int>, h: seq<int>, lo: int, hi: int, c: int, a: int, z: int, a': int, z': int)
    requires Column(b, g, lo, hi, c, a, z) && |h| == |g| && 0 <= a' <= a && z <= z' <= |g|
    requires forall p :: lo <= p < hi || a' <= p < z' ==> h[p] == g[p]
    requires forall q :: a' <= q < a || z <= q < z' ==> 0 <= g[q] < |b| && b[Before(g[q], |b|)] != c
    ensures Column(b, h, lo, hi, c, a', z')
  {
    hide Ranking, Listed, Before, After;
    ListedBounds(b, g, lo, hi);
    ListedSame(b, g, h, lo, hi);
    forall p | lo <= p < hi ensures 0 <= h[p] < |b| && b[h[p]] == c && After(h[p], |b|) in h[a'..z'] {
      ListedAt(b, g, lo, hi, p);
      var q := FindIn(g, a, z, After(g[p], |b|));
      IsIn(h, a', z', q);
    }
    forall q | a' <= q < z' ensures 0 <= h[q] < |b| && (b[Before(h[q], |b|)] == c ==> Before(h[q], |b|) in h[lo..hi]) {
      if a <= q < z && b[Before(g[q], |b|)] == c {
        var p := FindIn(g, lo, hi, Before(g[q], |b|));
        IsIn(h, lo, hi, p);
      }
    }
  }

  lemma ListedBounds(b: seq<Byte>, g: seq<int>, lo: int, hi: int)
    requires Listed(b, g, lo, hi)
    ensures b != [] && |g| == |b| && 0 <= lo <= hi <= |g|
  {
  }

  lemma FindIn(g: seq<int>, lo: int, hi: int, x: int) returns (p: int)
    requires 0 <= lo <= hi <= |g| && x in g[lo..hi]
    ensures lo <= p < hi && g[p] == x
  {
    var i :| 0 <= i < hi - lo && g[lo..hi][i] == x;
    p := lo + i;
  }

  lemma IsIn(g: seq<int>, lo: int, hi: int, p: int)
    requires 0 <= lo <= p < hi <= |g|
    ensures g[p] in g[lo..hi]
  {
    assert g[lo..hi][p - lo] == g[p];
  }

  /** The predecessor of what is scanned next comes after those of what was scanned before. */
  lemma NextInOrder(b: seq<Byte>, g: seq<int>, lo: int, hi: int, c: int, a: int, z: int, p: int)
    requires Column(b, g, lo, hi, c, a, z) && z < |g| && Listed(b, g, a, z + 1) && lo <= p < hi
    requires 0 <= g[z] < |b| && b[Before(g[z], |b|)] == c
    ensures 0 <= g[p] < |b| && g[p] != Before(g[z], |b|) && Ranking(b)[g[p]] <= Ranking(b)[Before(g[z], |b|)]
  {
    hide Ranking, Listed, Before, After;
    ListedBounds(b, g, lo, hi);
    BeforeAfter(g[z], |b|);
    ListedAt(b, g, lo, hi, p);
    var q := FindIn(g, a, z, After(g[p], |b|));
    ListedPair(b, g, a, z + 1, q, z);
    FirstByteAfter(b, g[p], Before(g[z], |b|));
  }

  lemma LastInOrder(b: seq<Byte>, g: seq<int>, lo: int, hi: int, c: int, a: int, z: int, p: int)
    requires Column(b, g, lo, hi, c, a, z) && 0 < a && Listed(b, g, a - 1, z) && lo <= p < hi
    requires 0 <= g[a - 1] < |b| && b[Before(g[a - 1], |b|)] == c
    ensures 0 <= g[p] < |b| && g[p] != Before(g[a - 1], |b|) && Ranking(b)[Before(g[a - 1], |b|)] <= Ranking(b)[g[p]]
  {
    hide Ranking, Listed, Before, After;
    ListedBounds(b, g, lo, hi);
    BeforeAfter(g[a - 1], |b|);
    ListedAt(b, g, lo, hi, p);
    var q := FindIn(g, a, z, After(g[p], |b|));
    ListedPair(b, g, a - 1, z, a - 1, q);
    FirstByteAfter(b, Before(g[a - 1], |b|), g[p]);
  }

  /** One more scanned on the right, and its predecessor appended. */
  lemma ColumnGrowsRight(b: seq<Byte>, g: seq<int>, h: seq<int>, lo: int, hi: int, c: int, a: int, z: int)
    requires Column(b, g, lo, hi, c, a, z) && hi < |g| && z < |g| && Listed(b, g, a, z + 1)
    requires 0 <= g[z] < |b| && b[Before(g[z], |b|)] == c
    requires h == g[hi := Before(g[z], |b|)] && !(a <= hi <= z)
    ensures Column(b, h, lo, hi + 1, c, a, z + 1)
  {
    hide Ranking, Listed, Before, After;
    ListedBounds(b, g, lo, hi);
    ListedSame(b, g, h, lo, hi);
    forall p | lo <= p < hi
      ensures 0 <= h[p] < |b| && h[p] != h[hi] && Ranking(b)[h[p]] <= Ranking(b)[h[hi]]
    {
      NextInOrder(b, g, lo, hi, c, a, z, p);
    }
    ListedLast(b, h, lo, hi);
    forall p | lo <= p < hi + 1 ensures 0 <= h[p] < |b| && b[h[p]] == c && After(h[p], |b|) in h[a..z + 1] {
      SourceRight(b, g, h, lo, hi, c, a, z, p);
    }
    forall q | a <= q < z + 1 ensures 0 <= h[q] < |b| && (b[Before(h[q], |b|)] == c ==> Before(h[q], |b|) in h[lo..hi + 1]) {
      if b[Before(h[q], |b|)] == c { FoundRight(b, g, h, lo, hi, c, a, z, q); }
    }
  }

  lemma SourceRight(b: seq<Byte>, g: seq<int>, h: seq<int>, lo: int, hi: int, c: int, a: int, z: int, p: int)
    requires Column(b, g, lo, hi, c, a, z) && hi < |g| && z < |g| && 0 <= g[z] < |b| && b[Before(g[z], |b|)] == c
    requires h == g[hi := Before(g[z], |b|)] && !(a <= hi <= z) && lo <= p <= hi
    ensures 0 <= h[p] < |b| && b[h[p]] == c && After(h[p], |b|) in h[a..z + 1]
  {
    hide Ranking, Listed, Before, After;
    ListedBounds(b, g, lo, hi);
    BeforeAfter(g[z], |b|);
    var q := z;
    if p < hi {
      ListedAt(b, g, lo, hi, p);
      q := FindIn(g, a, z, After(g[p], |b|));
    }
    IsIn(h, a, z + 1, q);
  }

  lemma FoundRight(b: seq<Byte>, g: seq<int>, h: seq<int>, lo: int, hi: int, c: int, a: int, z: int, q: int)
    requires Column(b, g, lo, hi, c, a, z) && hi < |g| && z < |g| && 0 <= g[z] < |b|
    requires h == g[hi := Before(g[z], |b|)] && !(a <= hi <= z) && a <= q <= z
    requires 0 <= g[q] < |b| && b[Before(g[q], |b|)] == c
    ensures Before(h[q], |b|) in h[lo..hi + 1]
  {
    hide Ranking, Listed, Before, After;
    ListedBounds(b, g, lo, hi);
    var p := hi;
    if q < z { p := FindIn(g, lo, hi, Before(g[q], |b|)); }
    IsIn(h, lo, hi + 1, p);
  }

  lemma BeforeAfter(x: nat, n: nat)
    requires x < n
    ensures After(Before(x, n), n) == x && Before(After(x, n), n) == x
  {
  }

  lemma ListedPair(b: seq<Byte>, g: seq<int>, lo: int, hi: int, p: int, q: int)
    requires Listed(b, g, lo, hi) && lo <= p < q < hi
    ensures 0 <= g[p] < |b| && 0 <= g[q] < |b| && g[p] != g[q] && Ranking(b)[g[p]] <= Ranking(b)[g[q]]
  {
    hide Ranking;
  }

  /** One more scanned on the left, and its predecessor put in front. */
  lemma ColumnGrowsLeft(b: seq<Byte>, g: seq<int>, h: seq<int>, lo: int, hi: int, c: int, a: int, z: int)
    requires Column(b, g, lo, hi, c, a, z) && 0 < lo && 0 < a && Listed(b, g, a - 1, z)
    requires 0 <= g[a - 1] < |b| && b[Before(g[a - 1], |b|)] == c
    requires h == g[lo - 1 := Before(g[a - 1], |b|)] && !(a - 1 <= lo - 1 < z)
    ensures Column(b, h, lo - 1, hi, c, a - 1, z)
  {
    hide Ranking, Listed, Before, After;
    ListedBounds(b, g, lo, hi);
    ListedSame(b, g, h, lo, hi);
    var k := Before(g[a - 1], |b|);
    BeforeAfter(g[a - 1], |b|);
    forall p | lo <= p < hi ensures 0 <= h[p] < |b| && h[p] != k && Ranking(b)[k] <= Ranking(b)[h[p]]
    {
      LastInOrder(b, g, lo, hi, c, a, z, p);
    }
    ListedFirst(b, h, lo, hi);
    forall p | lo - 1 <= p < hi ensures 0 <= h[p] < |b| && b[h[p]] == c && After(h[p], |b|) in h[a - 1..z] {
      if lo <= p {
        ListedAt(b, g, lo, hi, p);
        var q := FindIn(g, a, z, After(g[p], |b|));
        IsIn(h, a - 1, z, q);
      } else {
        IsIn(h, a - 1, z, a - 1);
      }
    }
    forall q | a - 1 <= q < z ensures 0 <= h[q] < |b| && (b[Before(h[q], |b|)] == c ==> Before(h[q], |b|) in h[lo - 1..hi]) {
      if q == a - 1 {
        IsIn(h, lo - 1, hi, lo - 1);
      } else if b[Before(g[q], |b|)] == c {
        var p := FindIn(g, lo, hi, Before(g[q], |b|));
        IsIn(h, lo - 1, hi, p);
      }
    }
  }

  // --- Counting ---

  ghost predicate NoRepeats(xs: seq<int>) { forall i, j :: 0 <= i < j < |xs| ==> xs[i] != xs[j] }

  /** Values without repetition, all found in ys, are no more than ys. */
  lemma {:induction false} DistinctWithin(xs: seq<int>, ys: seq<int>)
    requires NoRepeats(xs) && forall i :: 0 <= i < |xs| ==> xs[i] in ys
    ensures |xs| <= |ys|
    decreases |xs|
  {
    if xs != [] {
      var x, rest := xs[|xs| - 1], xs[..|xs| - 1];
      var k :| 0 <= k < |ys| && ys[k] == x;
      var zs := ys[..k] + ys[k + 1..];
      forall i | 0 <= i < |rest| ensures rest[i] in zs {
        assert rest[i] == xs[i] && xs[i] in ys;
        var m :| 0 <= m < |ys| && ys[m] == xs[i];
        assert m < k ==> zs[m] == xs[i];
        assert m > k ==> zs[m - 1] == xs[i];
      }
      DistinctWithin(rest, zs);
    }
  }

  /** Every rotation of a small bucket stands there. */
  lemma InItsBucket(b: seq<Byte>, f: seq<int>, x: nat)
    requires Bucketed(b, f) && x < |b|
    ensures First(b, PairAt(b, x)) <= First(b, PairAt(b, x) + 1) && x in f[First(b, PairAt(b, x))..First(b, PairAt(b, x) + 1)]
  {
    hide First, PairAt, IsPermutation;
    InjectiveIsPermutation(f, |b|);
    PermutationFacts(f, |b|);
    assert x in f;
    var p :| 0 <= p < |b| && f[p] == x;
    assert InBucket(b, p, x);
    IsIn(f, First(b, PairAt(b, x)), First(b, PairAt(b, x) + 1), p);
  }

  /** So no bucket holds more than its share. */
  lemma BucketRoom(b: seq<Byte>, f: seq<int>, s: nat, xs: seq<int>)
    requires Bucketed(b, f) && NoRepeats(xs) && forall i :: 0 <= i < |xs| ==> 0 <= xs[i] < |b| && PairAt(b, xs[i]) == s
    ensures |xs| <= First(b, s + 1) - First(b, s)
  {
    hide Below, PairAt, InBucket;
    FirstMono(b, s, s + 1);
    forall i | 0 <= i < |xs| ensures xs[i] in f[First(b, s)..First(b, s + 1)] {
      InItsBucket(b, f, xs[i]);
    }
    DistinctWithin(xs, f[First(b, s)..First(b, s + 1)]);
  }
}

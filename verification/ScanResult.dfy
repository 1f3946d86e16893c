/** The pointer scans of mainSort (blocksort.c) from beginning to end: every small bucket [c, ss] not yet
    sorted is filled completely, and in order. */
module ScanResult {
  import opened Basics
  import opened Permutations
  import opened Rotations
  import opened Shuffles
  import opened FallbackQSort
  import opened RotationRanks
  import opened MainRadix
  import opened Slopes
  import opened ScanColumns
  import opened ScanSteps
  import opened ScanInvariant

  /** Small bucket [c, d] is in rank order. */
  ghost predicate SmallSorted(b: seq<Byte>, g: seq<int>, c: nat, d: nat) {
    b != [] && Ordered(g, Ranking(b), Lo(b, c, d), Hi(b, c, d) - 1)
  }

  lemma SmallSortedPair(b: seq<Byte>, g: seq<int>, c: nat, d: nat, p: int, q: int)
    requires SmallSorted(b, g, c, d) && Lo(b, c, d) <= p < q < Hi(b, c, d)
    ensures 0 <= p < q < |g| && 0 <= g[p] < |b| && 0 <= g[q] < |b| && Ranking(b)[g[p]] <= Ranking(b)[g[q]]
  {
    hide Ranking, Lo, Hi;
  }

  lemma OwnBucket(b: seq<Byte>, p: int, x: int)
    requires InBucket(b, p, x)
    ensures 0 <= x < |b| && PairAt(b, x) == Pair(b[x], b[After(x, |b|)])
    ensures Lo(b, b[x], b[After(x, |b|)]) <= p < Hi(b, b[x], b[After(x, |b|)])
  {
    hide First;
  }

  lemma BucketedAt(b: seq<Byte>, f: seq<int>, p: int)
    requires Bucketed(b, f) && 0 <= p < |b|
    ensures |f| == |b| && InBucket(b, p, f[p])
    ensures forall q :: p < q < |b| ==> f[p] != f[q]
  {
    hide InBucket;
  }

  lemma BucketOrder(b: seq<Byte>, p: int, q: int, x: int, y: int)
    requires InBucket(b, p, x) && InBucket(b, q, y) && p <= q
    ensures 0 <= x < |b| && 0 <= y < |b| && PairAt(b, x) <= PairAt(b, y)
  {
    hide First, PairAt;
    if PairAt(b, y) < PairAt(b, x) { FirstMono(b, PairAt(b, y) + 1, PairAt(b, x)); }
  }

  lemma PairNames(b: seq<Byte>, x: nat, y: nat)
    requires x < |b| && y < |b| && PairAt(b, x) == PairAt(b, y)
    ensures b[x] == b[y] && b[After(x, |b|)] == b[After(y, |b|)]
  {
  }

  /** Positions in order hold pairs in order; within a sorted small bucket, rotations in order. */
  lemma PairsInOrder(b: seq<Byte>, f: seq<int>, p: int, q: int)
    requires Bucketed(b, f) && 0 <= p < q < |b|
    ensures |f| == |b| && 0 <= f[p] < |b| && 0 <= f[q] < |b| && f[p] != f[q] && PairAt(b, f[p]) <= PairAt(b, f[q])
    ensures PairAt(b, f[p]) == PairAt(b, f[q]) ==> Lo(b, b[f[p]], b[After(f[p], |b|)]) <= p < q < Hi(b, b[f[p]], b[After(f[p], |b|)])
  {
    hide Bucketed, PairAt, InBucket, Lo, Hi, After;
    BucketedAt(b, f, p);
    BucketedAt(b, f, q);
    OwnBucket(b, p, f[p]);
    OwnBucket(b, q, f[q]);
    BucketOrder(b, p, q, f[p], f[q]);
    if PairAt(b, f[p]) == PairAt(b, f[q]) { PairNames(b, f[p], f[q]); }
  }

  lemma RanksInOrder(b: seq<Byte>, f: seq<int>, p: int, q: int)
    requires Bucketed(b, f) && 0 <= p < q < |b| == |f| && 0 <= f[p] < |b| && SmallSorted(b, f, b[f[p]], b[After(f[p], |b|)])
    ensures 0 <= f[q] < |b| && Ranking(b)[f[p]] <= Ranking(b)[f[q]]
  {
    PairsInOrder(b, f, p, q);
    hide Ranking, Lo, Hi, PairAt, InBucket, SmallSorted, After;
    if PairAt(b, f[p]) == PairAt(b, f[q]) {
      SmallSortedPair(b, f, b[f[p]], b[After(f[p], |b|)], p, q);
    } else {
      PairDecides(b, f[p], f[q]);
    }
  }

  // --- Before the scans ---

  /** A stretch of big bucket ss made of sorted small buckets. */
  lemma OuterListed(b: seq<Byte>, f: seq<int>, ss: nat, l: int, h: int)
    requires Bucketed(b, f) && b != [] && ss < 256 && BigLo(b, ss) <= l <= h <= BigHi(b, ss) && (h <= Lo(b, ss, ss) || Hi(b, ss, ss) <= l)
    requires forall d: nat :: d < 256 && d != ss ==> SmallSorted(b, f, ss, d)
    ensures Listed(b, f, l, h)
  {
    hide Ranking, Lo, Hi, PairAt, InBucket, SmallSorted, After, BigLo;
    assert h <= |b|;
    forall p | l <= p < h ensures 0 <= f[p] < |b| { OuterPart(b, f, ss, p); }
    forall p, q | l <= p < q < h ensures Ranking(b)[f[p]] <= Ranking(b)[f[q]] && f[p] != f[q] {
      OuterPart(b, f, ss, p);
      RanksInOrder(b, f, p, q);
    }
  }

  lemma ScansStart(b: seq<Byte>, f: seq<int>, done: seq<bool>, ss: nat, cs: seq<int>, ce: seq<int>)
    requires Bucketed(b, f) && b != [] && ss < 256 && |done| == |cs| == |ce| == 256 && !done[ss]
    requires forall d: nat :: d < 256 && d != ss ==> SmallSorted(b, f, ss, d)
    requires forall c: nat :: c < 256 ==> cs[c] == Lo(b, c, ss) && ce[c] == Hi(b, c, ss) - 1
    ensures Scans(b, f, f, done, ss, cs, ce, BigLo(b, ss), BigHi(b, ss))
  {
    BucketsInOrder(b, ss, ss, ss, ss);
    hide Ranking, PairAt, InBucket, SmallSorted, After, First, Listed, Falls, Rises;
    OuterListed(b, f, ss, BigLo(b, ss), cs[ss]);
    OuterListed(b, f, ss, ce[ss] + 1, BigHi(b, ss));
    forall p | BigLo(b, ss) <= p < cs[ss] ensures 0 <= p < |f| && Falls(b, f[p]) && b[f[p]] == ss {
      OuterPart(b, f, ss, p);
      SlopeBytes(b, f[p]);
    }
    forall p | ce[ss] + 1 <= p < BigHi(b, ss) ensures 0 <= p < |f| && Rises(b, f[p]) && b[f[p]] == ss {
      OuterPart(b, f, ss, p);
      SlopeBytes(b, f[p]);
    }
    forall c: nat | c < 256 ensures Filling(b, f, ss, c, cs[c], ce[c], BigLo(b, ss), BigHi(b, ss)) {
      StartFilling(b, f, ss, c);
    }
    forall c: nat | c < 256 ensures Between(b, ss, c, cs[c], ce[c]) { BucketsInOrder(b, c, ss, c, ss); }
    hide Lo, Hi, BigLo, BigHi, Filling, Between, Bucketed, Untouched;
  }

  lemma StartFilling(b: seq<Byte>, f: seq<int>, ss: nat, c: nat)
    requires b != [] && |f| == |b|
    ensures Filling(b, f, ss, c, Lo(b, c, ss), Hi(b, c, ss) - 1, BigLo(b, ss), BigHi(b, ss))
  {
    hide Column, First;
    StartColumns(b, f, First(b, Pair(c, ss)), First(b, Pair(c, ss) + 1), First(b, Pair(ss, 0)), First(b, Pair(ss + 1, 0)), c, ss);
  }

  lemma StartColumns(b: seq<Byte>, f: seq<int>, lo: int, hi: int, a: int, z: int, c: nat, ss: nat)
    requires b != [] && |f| == |b|
    requires lo == First(b, Pair(c, ss)) && hi == First(b, Pair(c, ss) + 1) && a == First(b, Pair(ss, 0)) && z == First(b, Pair(ss + 1, 0))
    ensures Column(b, f, lo, lo, c, a, a) && Column(b, f, hi, hi, c, z, z)
  {
    hide Column;
    EmptyColumn(b, f, lo, c, a);
    EmptyColumn(b, f, hi, c, z);
  }

  // --- After the scans ---

  /** Both scans have met what they were filling. */
  ghost predicate Finished(b: seq<Byte>, f: seq<int>, g: seq<int>, done: seq<bool>, ss: nat, cs: seq<int>, ce: seq<int>) {
    |cs| == |ce| == 256 && ss < 256 && Scans(b, f, g, done, ss, cs, ce, cs[ss], ce[ss] + 1)
  }

  /** Where a rotation of big bucket ss outside [ss, ss] stands. */
  lemma OuterFound(b: seq<Byte>, f: seq<int>, g: seq<int>, done: seq<bool>, ss: nat, cs: seq<int>, ce: seq<int>, x: nat) returns (p: int)
    requires Finished(b, f, g, done, ss, cs, ce) && x < |b| && b[x] == ss && b[After(x, |b|)] != ss
    ensures 0 <= p < |g| == |b| && g[p] == x
    ensures b[After(x, |b|)] < ss ==> BigLo(b, ss) <= p < Lo(b, ss, ss)
    ensures ss < b[After(x, |b|)] ==> Hi(b, ss, ss) <= p < BigHi(b, ss)
  {
    ScanShape(b, f, g, done, ss, cs, ce, cs[ss], ce[ss] + 1);
    InItsBucket(b, f, x);
    PairOf(b, x);
    var d := b[After(x, |b|)];
    BucketsInOrder(b, ss, d, ss, ss);
    BucketsInOrder(b, ss, ss, ss, d);
    p := FindIn(f, Lo(b, ss, d), Hi(b, ss, d), x);
    hide First, Bucketed, Sides, PairAt, Scans;
    OuterKept(b, f, g, done, ss, cs, ce, cs[ss], ce[ss] + 1, p);
  }

  /** The left scan has read every falling rotation of big bucket ss. */
  lemma {:induction false} FallsFound(b: seq<Byte>, f: seq<int>, g: seq<int>, done: seq<bool>, ss: nat, cs: seq<int>, ce: seq<int>, x: nat) returns (p: int)
    requires Finished(b, f, g, done, ss, cs, ce) && x < |b| && b[x] == ss && Falls(b, x)
    ensures BigLo(b, ss) <= p < cs[ss] && 0 <= p < |g| && g[p] == x
    decreases Ranking(b)[x]
  {
    ScanShape(b, f, g, done, ss, cs, ce, cs[ss], ce[ss] + 1);
    SlopeBytes(b, x);
    var y := After(x, |b|);
    assert Ranking(b)[y] < Ranking(b)[x];
    hide Bucketed, Sides, PairAt, Scans, Ranking, Lo, Hi, BigLo, BigHi;
    if b[y] != ss {
      p := OuterFound(b, f, g, done, ss, cs, ce, x);
    } else {
      SlopeInherited(b, x);
      var q := FallsFound(b, f, g, done, ss, cs, ce, y);
      ScanBucket(b, f, g, done, ss, cs, ce, cs[ss], ce[ss] + 1, ss);
      BeforeAfter(x, |b|);
      p := PredecessorLeft(b, g, ss, ss, cs[ss], ce[ss], cs[ss], ce[ss] + 1, q);
    }
  }

  lemma PredecessorLeft(b: seq<Byte>, g: seq<int>, ss: nat, c: nat, s: int, e: int, i: int, j: int, q: int) returns (p: int)
    requires Filling(b, g, ss, c, s, e, i, j) && BigLo(b, ss) <= q < i && q < |g| && 0 <= g[q] < |b| && b[Before(g[q], |b|)] == c
    ensures Lo(b, c, ss) <= p < s && 0 <= p < |g| && g[p] == Before(g[q], |b|)
  {
    FillingBounds(b, g, ss, c, s, e, i, j);
    hide Lo, Hi, BigLo, BigHi, Listed, Before;
    p := FindIn(g, Lo(b, c, ss), s, Before(g[q], |b|));
  }

  lemma PredecessorRight(b: seq<Byte>, g: seq<int>, ss: nat, c: nat, s: int, e: int, i: int, j: int, q: int) returns (p: int)
    requires Filling(b, g, ss, c, s, e, i, j) && j <= q < BigHi(b, ss) && 0 <= q < |g| && 0 <= g[q] < |b| && b[Before(g[q], |b|)] == c
    ensures e + 1 <= p < Hi(b, c, ss) && 0 <= p < |g| && g[p] == Before(g[q], |b|)
  {
    FillingBounds(b, g, ss, c, s, e, i, j);
    ColumnBounds(b, g, e + 1, Hi(b, c, ss), c, j, BigHi(b, ss));
    hide Lo, Hi, BigLo, BigHi, Listed, Before;
    p := FindIn(g, e + 1, Hi(b, c, ss), Before(g[q], |b|));
  }

  /** And the right scan every rising one. */
  lemma {:induction false} RisesFound(b: seq<Byte>, f: seq<int>, g: seq<int>, done: seq<bool>, ss: nat, cs: seq<int>, ce: seq<int>, x: nat) returns (p: int)
    requires Finished(b, f, g, done, ss, cs, ce) && x < |b| && b[x] == ss && Rises(b, x)
    ensures ce[ss] + 1 <= p < BigHi(b, ss) && 0 <= p < |g| && g[p] == x
    decreases |b| - Ranking(b)[x]
  {
    ScanShape(b, f, g, done, ss, cs, ce, cs[ss], ce[ss] + 1);
    SlopeBytes(b, x);
    var y := After(x, |b|);
    assert Ranking(b)[x] < Ranking(b)[y] <= |b|;
    hide Bucketed, Sides, PairAt, Scans, Ranking, Lo, Hi, BigLo, BigHi;
    if b[y] != ss {
      p := OuterFound(b, f, g, done, ss, cs, ce, x);
    } else {
      SlopeInherited(b, x);
      var q := RisesFound(b, f, g, done, ss, cs, ce, y);
      ScanBucket(b, f, g, done, ss, cs, ce, cs[ss], ce[ss] + 1, ss);
      BeforeAfter(x, |b|);
      p := PredecessorRight(b, g, ss, ss, cs[ss], ce[ss], cs[ss], ce[ss] + 1, q);
    }
  }

  /** So every rotation of [c, ss] whose next rotation is not equal to the one after has been placed. */
  lemma PlacedFound(b: seq<Byte>, f: seq<int>, g: seq<int>, done: seq<bool>, ss: nat, cs: seq<int>, ce: seq<int>, c: nat, k: nat)
    requires Finished(b, f, g, done, ss, cs, ce) && c < 256 && !done[c] && k < |b| && PairAt(b, k) == Pair(c, ss)
    requires Falls(b, After(k, |b|)) || Rises(b, After(k, |b|))
    ensures |g| == |b| && Lo(b, c, ss) <= cs[c] <= |g| && 0 <= ce[c] + 1 <= Hi(b, c, ss) && k in PlacedIn(b, g, ss, c, cs[c], ce[c])
  {
    hide *;
    FinishedBucket(b, f, g, done, ss, cs, ce, c, k);
    var i, j := cs[ss], ce[ss] + 1;
    if Falls(b, After(k, |b|)) {
      var q := FallsFound(b, f, g, done, ss, cs, ce, After(k, |b|));
      var p := PredecessorLeft(b, g, ss, c, cs[c], ce[c], i, j, q);
      InPlacedIn(b, g, ss, c, cs[c], ce[c], p);
    } else {
      var q := RisesFound(b, f, g, done, ss, cs, ce, After(k, |b|));
      var p := PredecessorRight(b, g, ss, c, cs[c], ce[c], i, j, q);
      InPlacedIn(b, g, ss, c, cs[c], ce[c], p);
    }
  }

  /** What the scans' end says of one bucket, and of the rotation before one in bucket ss. */
  lemma FinishedBucket(b: seq<Byte>, f: seq<int>, g: seq<int>, done: seq<bool>, ss: nat, cs: seq<int>, ce: seq<int>, c: nat, k: nat)
    requires Finished(b, f, g, done, ss, cs, ce) && c < 256 && !done[c] && k < |b| && PairAt(b, k) == Pair(c, ss)
    ensures |cs| == |ce| == 256 && ss < 256 && |g| == |b|
    ensures Lo(b, c, ss) <= cs[c] <= |g| && 0 <= ce[c] + 1 <= Hi(b, c, ss)
    ensures Filling(b, g, ss, c, cs[c], ce[c], cs[ss], ce[ss] + 1)
    ensures After(k, |b|) < |b| && b[After(k, |b|)] == ss && Before(After(k, |b|), |b|) == k && b[k] == c
  {
    hide *;
    FinishedScans(b, f, g, done, ss, cs, ce);
    var i, j := cs[ss], ce[ss] + 1;
    ScanShape(b, f, g, done, ss, cs, ce, i, j);
    ScanBucket(b, f, g, done, ss, cs, ce, i, j, c);
    FillingBounds(b, g, ss, c, cs[c], ce[c], i, j);
    PairBytes(b, k, c, ss);
    BeforeAfter(k, |b|);
  }

  lemma FinishedScans(b: seq<Byte>, f: seq<int>, g: seq<int>, done: seq<bool>, ss: nat, cs: seq<int>, ce: seq<int>)
    requires Finished(b, f, g, done, ss, cs, ce)
    ensures |cs| == |ce| == 256 && ss < 256 && Scans(b, f, g, done, ss, cs, ce, cs[ss], ce[ss] + 1)
  {
    hide Scans;
  }

  lemma PairBytes(b: seq<Byte>, k: nat, c: nat, d: nat)
    requires k < |b| && c < 256 && d < 256 && PairAt(b, k) == Pair(c, d)
    ensures b[k] == c && After(k, |b|) < |b| && b[After(k, |b|)] == d
  {
  }

  lemma InPlacedIn(b: seq<Byte>, g: seq<int>, ss: nat, c: nat, s: int, e: int, p: int)
    requires |g| == |b| && Lo(b, c, ss) <= s <= |g| && 0 <= e + 1 <= Hi(b, c, ss)
    requires Lo(b, c, ss) <= p < s || e + 1 <= p < Hi(b, c, ss)
    ensures 0 <= p < |g| && g[p] in PlacedIn(b, g, ss, c, s, e)
  {
    hide First;
    var xs, m := PlacedIn(b, g, ss, c, s, e), s - Lo(b, c, ss);
    if p < s && Lo(b, c, ss) <= p { assert xs[p - Lo(b, c, ss)] == g[p]; } else { assert xs[m + p - (e + 1)] == g[p]; }
  }

  /** No rotation of big bucket ss equals the next. */
  ghost predicate Sloped(b: seq<Byte>, ss: nat) {
    forall x: nat :: x < |b| && b[x] == ss ==> Falls(b, x) || Rises(b, x)
  }

  lemma SlopedAt(b: seq<Byte>, ss: nat, x: nat)
    requires Sloped(b, ss) && x < |b| && b[x] == ss
    ensures Falls(b, x) || Rises(b, x)
  {
  }

  lemma SliceDistinct(b: seq<Byte>, f: seq<int>, lo: int, hi: int)
    requires Bucketed(b, f) && 0 <= lo <= hi <= |b|
    ensures |f| == |b| && |f[lo..hi]| == hi - lo && NoRepeats(f[lo..hi])
  {
    hide InBucket;
  }

  /** Then every bucket is full: the two ends have met. */
  lemma EndsMeet(b: seq<Byte>, f: seq<int>, g: seq<int>, done: seq<bool>, ss: nat, cs: seq<int>, ce: seq<int>, c: nat)
    requires Finished(b, f, g, done, ss, cs, ce) && Sloped(b, ss) && c < 256 && !done[c]
    ensures cs[c] - 1 == ce[c]
  {
    var i, j := cs[ss], ce[ss] + 1;
    ScanShape(b, f, g, done, ss, cs, ce, i, j);
    ScanBucket(b, f, g, done, ss, cs, ce, i, j, c);
    FillingBounds(b, g, ss, c, cs[c], ce[c], i, j);
    BetweenBounds(b, ss, c, cs[c], ce[c]);
    var lo, hi, placed := Lo(b, c, ss), Hi(b, c, ss), PlacedIn(b, g, ss, c, cs[c], ce[c]);
    assert |placed| == (cs[c] - lo) + (hi - (ce[c] + 1));
    hide *;
    SliceDistinct(b, f, lo, hi);
    forall t | 0 <= t < |f[lo..hi]| ensures f[lo..hi][t] in placed {
      MemberPlaced(b, f, g, done, ss, cs, ce, c, lo + t);
    }
    DistinctWithin(f[lo..hi], placed);
  }

  lemma MemberPlaced(b: seq<Byte>, f: seq<int>, g: seq<int>, done: seq<bool>, ss: nat, cs: seq<int>, ce: seq<int>, c: nat, p: int)
    requires Finished(b, f, g, done, ss, cs, ce) && Sloped(b, ss) && c < 256 && !done[c] && Lo(b, c, ss) <= p < Hi(b, c, ss)
    ensures 0 <= p < |f| == |g| == |b| && Lo(b, c, ss) <= cs[c] <= |g| && 0 <= ce[c] + 1 <= Hi(b, c, ss)
    ensures f[p] in PlacedIn(b, g, ss, c, cs[c], ce[c])
  {
    ScanShape(b, f, g, done, ss, cs, ce, cs[ss], ce[ss] + 1);
    PlaceOf(b, f, c, ss, p);
    PairOf(b, f[p]);
    SlopedAt(b, ss, After(f[p], |b|));
    hide InBucket, Sides, PairAt, Scans, Falls, Rises, Lo, Hi, BigLo, BigHi, After, Sloped;
    PlacedFound(b, f, g, done, ss, cs, ce, c, f[p]);
  }
}

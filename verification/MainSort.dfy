/** mainSort (blocksort.c): buckets of two bytes, sorted by quicksort or filled by the pointer scans, with
    quadrants that remember the order of finished big buckets. */
module MainSort {
  import opened Basics
  import opened Permutations
  import opened Rotations
  import opened Shuffles
  import opened FallbackQSort
  import opened Depths
  import opened RotationRanks
  import opened MainCompare
  import opened MainQSort3
  import opened MainRadix
  import opened MainOrder
  import opened Slopes
  import opened ScanColumns
  import opened ScanSteps
  import opened ScanInvariant
  import opened ScanResult
  import opened MainScan
  import opened MainQuadrants

  /** Every marked small bucket is in order. */
  ghost predicate MarkedSorted(b: seq<Byte>, g: seq<int>, t: seq<nat>) {
    |t| == 0x1_0001 && forall c: nat, d: nat {:trigger SmallSorted(b, g, c, d)} :: c < 256 && d < 256 && Marked(t[Pair(c, d)]) ==> SmallSorted(b, g, c, d)
  }

  /** Every small bucket of a finished big bucket, on either side, is marked. */
  ghost predicate DoneMarked(t: seq<nat>, done: seq<bool>) {
    |t| == 0x1_0001 && |done| == 256
    && forall c: nat, d: nat {:trigger Pair(c, d)} :: c < 256 && d < 256 && (done[c] || done[d]) ==> Marked(t[Pair(c, d)])
  }

  /** What the pointers and ftab keep throughout. */
  ghost predicate Sorting(b: seq<Byte>, g: seq<int>, t: seq<nat>) {
    b != [] && Bucketed(b, g) && Tabled(t, b) && MarkedSorted(b, g, t)
  }

  lemma PairDistinct(c: nat, d: nat, c': nat, d': nat)
    requires d < 256 && d' < 256 && Pair(c, d) == Pair(c', d')
    ensures c == c' && d == d'
  {
  }

  /** Marking a sorted bucket. */
  lemma MarkBucket(b: seq<Byte>, g: seq<int>, t: seq<nat>, c: nat, d: nat)
    requires Sorting(b, g, t) && c < 256 && d < 256 && SmallSorted(b, g, c, d)
    ensures |t| == 0x1_0001 && Pair(c, d) < |t|
    ensures var t' := t[Pair(c, d) := Mark(t[Pair(c, d)])]; Sorting(b, g, t') && Marked(t'[Pair(c, d)])
  {
    hide SmallSorted, Bucketed, First, Clear, Mark, Marked;
    var t' := t[Pair(c, d) := Mark(t[Pair(c, d)])];
    MarkOnly(t[Pair(c, d)]);
    forall c': nat, d': nat | c' < 256 && d' < 256 && Marked(t'[Pair(c', d')]) ensures SmallSorted(b, g, c', d') {
      if Pair(c', d') == Pair(c, d) { PairDistinct(c', d', c, d); }
    }
  }

  lemma StaysMarked(t: seq<nat>, k: nat, s: nat)
    requires k < |t| && s < |t| && Marked(t[s])
    ensures Marked(t[k := Mark(t[k])][s])
  {
    MarkOnly(t[k]);
  }

  lemma DoneStaysMarked(t: seq<nat>, done: seq<bool>, k: nat)
    requires DoneMarked(t, done) && k < |t|
    ensures DoneMarked(t[k := Mark(t[k])], done)
  {
    hide Marked, Mark;
    forall c: nat, d: nat | c < 256 && d < 256 && (done[c] || done[d]) ensures Marked(t[k := Mark(t[k])][Pair(c, d)]) {
      StaysMarked(t, k, Pair(c, d));
    }
  }

  // --- Step 1 ---

  /** Rotations of one small bucket agree on two bytes. */
  lemma SamePair(b: seq<Byte>, x: nat, y: nat)
    requires x < |b| && y < |b| && PairAt(b, x) == PairAt(b, y)
    ensures Same(b, x, y, 2)
  {
    NoPrefix(b, x, y);
    PairOf(b, x);
    PairOf(b, y);
    assert b[x] == b[y] && b[After(x, |b|)] == b[After(y, |b|)];
    assert At(b, x + 1) == b[After(x, |b|)] && At(b, y + 1) == b[After(y, |b|)];
    assert Same(b, x, y, 1);
  }

  lemma BucketComparable(b: seq<Byte>, f: seq<int>, n: nat, c: nat, d: nat)
    requires n == |b| <= |f| && 34 < |b| && Bucketed(b, f[..n]) && c < 256 && d < 256
    ensures Comparable(b, f, Lo(b, c, d), Hi(b, c, d) - 1, 2)
  {
    BucketBounds(b, c, d);
    hide Same, Lo, Hi, Bucketed;
    forall k | Lo(b, c, d) <= k < Hi(b, c, d) ensures 0 <= f[k] < |b| && PairAt(b, f[k]) == Pair(c, d) {
      PlaceOf(b, f[..n], c, d, k);
      PairOf(b, f[k]);
    }
    forall j, k | Lo(b, c, d) <= j < Hi(b, c, d) && Lo(b, c, d) <= k < Hi(b, c, d) ensures Same(b, f[j], f[k], 2) {
      SamePair(b, f[j], f[k]);
    }
  }

  /** Sorting one small bucket disturbs nothing else. */
  lemma BucketShuffled(b: seq<Byte>, f: seq<int>, g: seq<int>, n: nat, c: nat, d: nat)
    requires n == |b| <= |f| && c < 256 && d < 256 && Bucketed(b, f[..n]) && Shuffled(f, g, Lo(b, c, d), Hi(b, c, d) - 1)
    ensures |g| == |f| && Bucketed(b, g[..n])
    ensures forall p :: 0 <= p < n && !(Lo(b, c, d) <= p < Hi(b, c, d)) ==> g[p] == f[p]
  {
    BucketBounds(b, c, d);
    var lo, hi := Lo(b, c, d), Hi(b, c, d) - 1;
    hide Shuffled, Lo, Hi, First, PairAt;
    ShuffleBounds(f, g, lo, hi);
    forall p | 0 <= p < n ensures InBucket(b, p, g[p]) && (!(lo <= p <= hi) ==> g[p] == f[p]) {
      var m := ShuffleSource(f, g, lo, hi, p);
      assert InBucket(b, m, f[..n][m]);
      if lo <= p <= hi { MovedWithin(b, f[..n], c, d, m, p); }
    }
    WholeDistinct(b, f, g, n, lo, hi);
  }

  lemma MovedWithin(b: seq<Byte>, f: seq<int>, c: nat, d: nat, m: int, p: int)
    requires Bucketed(b, f) && c < 256 && d < 256 && Lo(b, c, d) <= m < Hi(b, c, d) && Lo(b, c, d) <= p < Hi(b, c, d)
    ensures 0 <= m < |f| && InBucket(b, p, f[m])
  {
    PlaceOf(b, f, c, d, m);
    PairOf(b, f[m]);
    hide PairAt, First;
  }

  lemma WholeDistinct(b: seq<Byte>, f: seq<int>, g: seq<int>, n: nat, lo: int, hi: int)
    requires n == |b| <= |f| && Injective(f[..n], n) && Shuffled(f, g, lo, hi) && hi < n
    requires |g| == |f| && forall p :: 0 <= p < n ==> 0 <= g[p] < n
    ensures Injective(g[..n], n)
  {
    if n > 0 {
      ShuffleWider(f, g, lo, hi, 0, n - 1);
      assert Distinct(f, 0, n - 1) by { assert forall p :: 0 <= p < n ==> f[..n][p] == f[p]; }
      hide Within;
    }
  }

  lemma SortedElsewhere(b: seq<Byte>, f: seq<int>, g: seq<int>, c: nat, d: nat)
    requires SmallSorted(b, f, c, d) && |f| == |g| == |b| && forall p :: Lo(b, c, d) <= p < Hi(b, c, d) ==> g[p] == f[p]
    ensures SmallSorted(b, g, c, d)
  {
    BucketBounds(b, c, d);
    hide Lo, Hi, Ranking;
  }

  lemma SortedSlice(b: seq<Byte>, g: seq<int>, n: nat, c: nat, d: nat)
    requires b != [] && n == |b| <= |g| && Ordered(g, Ranking(b), Lo(b, c, d), Hi(b, c, d) - 1)
    ensures SmallSorted(b, g[..n], c, d)
  {
    BucketBounds(b, c, d);
    hide Lo, Hi, Ranking;
  }

  lemma FewSorted(b: seq<Byte>, g: seq<int>, c: nat, d: nat)
    requires b != [] && Bucketed(b, g) && Hi(b, c, d) - 1 <= Lo(b, c, d)
    ensures SmallSorted(b, g, c, d)
  {
    BucketBounds(b, c, d);
    hide Lo, Hi, Ranking, InBucket;
  }

  lemma QSorted(b: seq<Byte>, f: seq<int>, g: seq<int>, n: nat, t: seq<nat>, c: nat, d: nat)
    requires n == |b| <= |f| && c < 256 && d < 256 && Sorting(b, f[..n], t)
    requires Shuffled(f, g, Lo(b, c, d), Hi(b, c, d) - 1) && Ordered(g, Ranking(b), Lo(b, c, d), Hi(b, c, d) - 1)
    ensures |g| == |f| && Sorting(b, g[..n], t) && SmallSorted(b, g[..n], c, d)
  {
    BucketShuffled(b, f, g, n, c, d);
    hide Shuffled, Ordered, Lo, Hi, First, Bucketed, SmallSorted, Marked, Ranking, Tabled;
    SortedSlice(b, g, n, c, d);
    forall c': nat, d': nat | c' < 256 && d' < 256 && Marked(t[Pair(c', d')]) ensures SmallSorted(b, g[..n], c', d') {
      if c' != c || d' != d { OthersStay(b, f, g, n, c, d, c', d'); }
    }
  }

  lemma OthersStay(b: seq<Byte>, f: seq<int>, g: seq<int>, n: nat, c: nat, d: nat, c': nat, d': nat)
    requires n == |b| <= |f| == |g| && c < 256 && d < 256 && c' < 256 && d' < 256 && (c' != c || d' != d)
    requires forall p :: 0 <= p < n && !(Lo(b, c, d) <= p < Hi(b, c, d)) ==> g[p] == f[p]
    requires SmallSorted(b, f[..n], c', d')
    ensures SmallSorted(b, g[..n], c', d')
  {
    OtherBucket(b, c, d, c', d');
    hide Lo, Hi, SmallSorted;
    SortedElsewhere(b, f[..n], g[..n], c', d');
  }

  lemma OtherBucket(b: seq<Byte>, c: nat, d: nat, c': nat, d': nat)
    requires c < 256 && d < 256 && c' < 256 && d' < 256 && (c' != c || d' != d)
    ensures Hi(b, c', d') <= Lo(b, c, d) || Hi(b, c, d) <= Lo(b, c', d')
    ensures 0 <= Lo(b, c', d') && Hi(b, c', d') <= |b|
  {
    BucketBounds(b, c', d');
    BucketsInOrder(b, c, d, c', d');
    BucketsInOrder(b, c', d', c, d);
    if Pair(c, d) == Pair(c', d') { PairDistinct(c, d, c', d'); }
    hide Lo, Hi;
  }

  lemma BucketWidth(t: seq<nat>, b: seq<Byte>, c: nat, d: nat)
    requires Tabled(t, b) && c < 256 && d < 256
    ensures |t| == 0x1_0001 && Pair(c, d) + 1 < |t| && Clear(t[Pair(c, d)]) == Lo(b, c, d) <= Clear(t[Pair(c, d) + 1]) == Hi(b, c, d) <= |b|
  {
    TableAt(t, b, c, d);
    BucketBounds(b, c, d);
    PairRange(c, d);
  }

  lemma SortingParts(b: seq<Byte>, g: seq<int>, t: seq<nat>, c: nat, d: nat)
    requires Sorting(b, g, t) && c < 256 && d < 256
    ensures b != [] && Bucketed(b, g) && Tabled(t, b) && |t| == 0x1_0001 && |g| == |b| && Pair(c, d) < |t|
    ensures Marked(t[Pair(c, d)]) ==> SmallSorted(b, g, c, d)
  {
    hide SmallSorted, Marked, Tabled, InBucket;
  }

  /** Small bucket [ss, j]: quicksort it unless it is marked, and mark it. */
  method SortSmall(ptr: array<Word>, block: array<Byte>, quadrant: array<nat>, ftab: array<nat>, n: nat, ss: nat, j: nat, budget: int,
                   ghost b: seq<Byte>) returns (budget': int)
    requires Mirrored(block[..], b) && Quadrants(quadrant[..], b) && n == |b| <= 900000 && n <= ptr.Length
    requires ss < 256 && j < 256 && ftab.Length == 0x1_0001 && ftab != quadrant && Sorting(b, ptr[..n], ftab[..]) && budget >= 0
    modifies ptr, ftab
    ensures budget' <= budget && Pair(ss, j) < 0x1_0001
    ensures budget' >= 0 ==> Sorting(b, ptr[..n], ftab[..]) && Marked(ftab[Pair(ss, j)])
    ensures budget' >= 0 ==> ftab[..] == old(ftab[..])[Pair(ss, j) := Mark(old(ftab[..])[Pair(ss, j)])]
  {
    hide Sorting, Mirrored, Quadrants, Lo, Hi, Bucketed, SmallSorted, Tabled, Shuffled, Ordered, Comparable, Clear, Mark, Marked, Ranking;
    ghost var f, t := ptr[..], ftab[..];
    budget' := budget;
    var sb := Pair(ss, j);
    SortingParts(b, f[..n], t, ss, j);
    BucketWidth(t, b, ss, j);
    assert f[..n] == ptr[..n] && t[sb] == ftab[sb] && t[sb + 1] == ftab[sb + 1];
    if !Marked(ftab[sb]) {
      var lo := Clear(ftab[sb]);
      var hi := Clear(ftab[sb + 1]) - 1;
      if hi > lo {
        MirrorSize(block[..], b);
        BucketComparable(b, f, n, ss, j);
        budget' := QSort3(ptr, block, quadrant, n, lo, hi, 2, budget', b);
        if budget' < 0 { return; }
        assert ftab[..] == t;
        QSorted(b, f, ptr[..], n, t, ss, j);
        assert ptr[..][..n] == ptr[..n];
      } else {
        FewSorted(b, ptr[..n], ss, j);
      }
    }
    MarkBucket(b, ptr[..n], t, ss, j);
    ftab[sb] := Mark(ftab[sb]);
    assert ftab[..] == t[sb := Mark(t[sb])];
  }

  /** Step 1: every small bucket [ss, j] but [ss, ss]. */
  method SortRow(ptr: array<Word>, block: array<Byte>, quadrant: array<nat>, ftab: array<nat>, n: nat, ss: nat, budget: int,
                 ghost b: seq<Byte>, ghost done: seq<bool>) returns (budget': int)
    requires Mirrored(block[..], b) && Quadrants(quadrant[..], b) && n == |b| <= 900000 && n <= ptr.Length
    requires ss < 256 && ftab.Length == 0x1_0001 && ftab != quadrant && Sorting(b, ptr[..n], ftab[..]) && budget >= 0
    requires DoneMarked(ftab[..], done)
    modifies ptr, ftab
    ensures budget' <= budget
    ensures budget' >= 0 ==> Sorting(b, ptr[..n], ftab[..]) && DoneMarked(ftab[..], done)
    ensures budget' >= 0 ==> forall d: nat {:trigger Pair(ss, d)} :: d < 256 && d != ss ==> Pair(ss, d) < 0x1_0001 && Marked(ftab[Pair(ss, d)])
  {
    hide Sorting, Mirrored, Quadrants, Mark, Marked, DoneMarked;
    ghost var bl, qu := block[..], quadrant[..];
    budget' := budget;
    for j := 0 to 256
      invariant 0 <= budget' <= budget && block[..] == bl && quadrant[..] == qu
      invariant Sorting(b, ptr[..n], ftab[..]) && DoneMarked(ftab[..], done)
      invariant forall d: nat {:trigger Pair(ss, d)} :: d < j && d != ss ==> Pair(ss, d) < 0x1_0001 && Marked(ftab[Pair(ss, d)])
    {
      if j != ss {
        ghost var t := ftab[..];
        budget' := SortSmall(ptr, block, quadrant, ftab, n, ss, j, budget', b);
        if budget' < 0 { return; }
        ghost var t' := ftab[..];
        DoneStaysMarked(t, done, Pair(ss, j));
        forall d: nat | d < j && d != ss ensures Pair(ss, d) < 0x1_0001 && Marked(ftab[Pair(ss, d)]) {
          PairRange(ss, d);
          StaysMarked(t, Pair(ss, j), Pair(ss, d));
          assert t'[Pair(ss, d)] == ftab[Pair(ss, d)];
        }
        PairRange(ss, j);
      }
    }
  }

  // --- Step 2 ---

  lemma AfterScan(b: seq<Byte>, f: seq<int>, g: seq<int>, t: seq<nat>, done: seq<bool>, ss: nat)
    requires Sorting(b, f, t) && DoneMarked(t, done) && ss < 256 && Synthesised(b, f, g, done, ss) && |g| == |b|
    ensures Sorting(b, g, t) && forall c: nat :: c < 256 ==> SmallSorted(b, g, c, ss)
  {
    hide Bucketed, SmallSorted, Tabled, Marked, Outside;
    forall c: nat, d: nat | c < 256 && d < 256 && Marked(t[Pair(c, d)]) ensures SmallSorted(b, g, c, d) {
      if d != ss || done[c] { KeptSorted(b, f, g, done, ss, c, d); }
    }
    forall c: nat | c < 256 ensures SmallSorted(b, g, c, ss) {
      if done[c] { assert Marked(t[Pair(c, ss)]); }
    }
  }

  lemma KeptSorted(b: seq<Byte>, f: seq<int>, g: seq<int>, done: seq<bool>, ss: nat, c: nat, d: nat)
    requires Bucketed(b, f) && Synthesised(b, f, g, done, ss) && |g| == |b| && c < 256 && d < 256 && ss < 256
    requires SmallSorted(b, f, c, d) && (d != ss || done[c])
    ensures SmallSorted(b, g, c, d)
  {
    BucketBounds(b, c, d);
    hide Bucketed, SmallSorted, Lo, Hi;
    forall p | Lo(b, c, d) <= p < Hi(b, c, d) ensures 0 <= p < |b| && g[p] == f[p] {
      PlaceOf(b, f, c, d, p);
      assert Outside(b, f[p], done, ss);
    }
    SortedElsewhere(b, f, g, c, d);
  }

  /** The small buckets [j, ss] are now sorted. */
  method MarkColumn(ftab: array<nat>, ss: nat, ghost b: seq<Byte>, ghost g: seq<int>, ghost done: seq<bool>)
    requires ftab.Length == 0x1_0001 && ss < 256 && Sorting(b, g, ftab[..]) && DoneMarked(ftab[..], done)
    requires forall c: nat :: c < 256 ==> SmallSorted(b, g, c, ss)
    requires forall d: nat {:trigger Pair(ss, d)} :: d < 256 && d != ss ==> Pair(ss, d) < 0x1_0001 && Marked(ftab[Pair(ss, d)])
    modifies ftab
    ensures Sorting(b, g, ftab[..]) && DoneMarked(ftab[..], done[ss := true])
  {
    hide Sorting, Mark, Marked, DoneMarked, SmallSorted;
    DoneSize(ftab[..], done);
    for j := 0 to 256
      invariant Sorting(b, g, ftab[..]) && DoneMarked(ftab[..], done)
      invariant forall d: nat {:trigger Pair(ss, d)} :: d < 256 && d != ss ==> Pair(ss, d) < 0x1_0001 && Marked(ftab[Pair(ss, d)])
      invariant forall c: nat {:trigger Pair(c, ss)} :: c < j ==> Pair(c, ss) < 0x1_0001 && Marked(ftab[Pair(c, ss)])
    {
      ghost var t := ftab[..];
      MarkBucket(b, g, t, j, ss);
      DoneStaysMarked(t, done, Pair(j, ss));
      ftab[Pair(j, ss)] := Mark(ftab[Pair(j, ss)]);
      ghost var t' := ftab[..];
      assert t' == t[Pair(j, ss) := Mark(t[Pair(j, ss)])];
      forall d: nat | d < 256 && d != ss ensures Pair(ss, d) < 0x1_0001 && Marked(ftab[Pair(ss, d)]) {
        StaysMarked(t, Pair(j, ss), Pair(ss, d));
        assert t'[Pair(ss, d)] == ftab[Pair(ss, d)];
      }
      forall c: nat | c < j ensures Pair(c, ss) < 0x1_0001 && Marked(ftab[Pair(c, ss)]) {
        StaysMarked(t, Pair(j, ss), Pair(c, ss));
        assert t'[Pair(c, ss)] == ftab[Pair(c, ss)];
      }
    }
    DoneMore(ftab[..], done, ss);
  }

  lemma DoneSize(t: seq<nat>, done: seq<bool>)
    requires DoneMarked(t, done)
    ensures |done| == 256
  {
    hide Marked;
  }

  lemma DoneMore(t: seq<nat>, done: seq<bool>, ss: nat)
    requires DoneMarked(t, done) && ss < 256
    requires forall d: nat {:trigger Pair(ss, d)} :: d < 256 && d != ss ==> Pair(ss, d) < |t| && Marked(t[Pair(ss, d)])
    requires forall c: nat {:trigger Pair(c, ss)} :: c < 256 ==> Pair(c, ss) < |t| && Marked(t[Pair(c, ss)])
    ensures DoneMarked(t, done[ss := true])
  {
    hide Marked;
    var done' := done[ss := true];
    forall c: nat, d: nat | c < 256 && d < 256 && (done'[c] || done'[d]) ensures Pair(c, d) < |t| && Marked(t[Pair(c, d)]) {
      PairRange(c, d);
    }
  }

  // --- Step 3 ---

  /** A big bucket whose small buckets are sorted is sorted. */
  lemma BigFromSmall(b: seq<Byte>, g: seq<int>, t: seq<nat>, done: seq<bool>, ss: nat)
    requires Sorting(b, g, t) && ss < 256 && DoneMarked(t, done) && done[ss]
    ensures BigLo(b, ss) <= BigHi(b, ss) && BigSorted(b, g, ss, BigLo(b, ss), BigHi(b, ss) - BigLo(b, ss))
  {
    BucketsInOrder(b, ss, ss, ss, ss);
    var from, to := BigLo(b, ss), BigHi(b, ss);
    forall p | 0 <= p < |b| ensures 0 <= g[p] < |b| && (from <= p < to <==> b[g[p]] == ss) { BigPlace(b, g, ss, p); }
    forall p, q | from <= p < q < to ensures Ranking(b)[g[p]] <= Ranking(b)[g[q]] {
      DoneOrder(b, g, t, done, p, q);
    }
    hide MarkedSorted, Tabled, InBucket, Ranking, BigLo, BigHi, DoneMarked;
  }

  lemma BigPlace(b: seq<Byte>, g: seq<int>, ss: nat, p: int)
    requires Bucketed(b, g) && ss < 256 && 0 <= p < |b|
    ensures |g| == |b| && 0 <= g[p] < |b| && (BigLo(b, ss) <= p < BigHi(b, ss) <==> b[g[p]] == ss)
  {
    assert InBucket(b, p, g[p]);
    var c, d := b[g[p]], b[After(g[p], |b|)];
    OwnBucket(b, p, g[p]);
    BucketsInOrder(b, c, d, ss, ss);
    BucketsInOrder(b, ss, ss, c, d);
    hide Bucketed, InBucket, First, Lo, Hi, BigLo, BigHi;
  }

  /** Two places whose first holds a rotation of a finished big bucket. */
  lemma DoneOrder(b: seq<Byte>, g: seq<int>, t: seq<nat>, done: seq<bool>, p: int, q: int)
    requires Sorting(b, g, t) && DoneMarked(t, done) && 0 <= p < q < |b|
    ensures |g| == |b| && 0 <= g[p] < |b| && 0 <= g[q] < |b| && |done| == 256
    ensures done[b[g[p]]] ==> Ranking(b)[g[p]] <= Ranking(b)[g[q]]
  {
    SortingParts(b, g, t, 0, 0);
    PairsInOrder(b, g, p, q);
    if done[b[g[p]]] {
      var c, d := b[g[p]], b[After(g[p], |b|)];
      assert Marked(t[Pair(c, d)]);
      hide Sorting, DoneMarked, Marked, Bucketed, SmallSorted, Ranking, PairAt, Lo, Hi;
      SortingParts(b, g, t, c, d);
      RanksInOrder(b, g, p, q);
    }
  }

  // --- The whole sort ---

  lemma StartSorting(b: seq<Byte>, g: seq<int>, t: seq<nat>, done: seq<bool>)
    requires 0 < |b| <= 900000 && Bucketed(b, g) && |t| == 0x1_0001 && (forall s: nat :: s <= 0x1_0000 ==> t[s] == First(b, s))
    requires |done| == 256 && forall c :: 0 <= c < 256 ==> !done[c]
    ensures Sorting(b, g, t) && DoneMarked(t, done)
  {
    hide Bucketed, SmallSorted, PairAt, Ranks.Below;
    forall s: nat | s <= 0x1_0000 ensures !Marked(t[s]) && Clear(t[s]) == First(b, s) {
      assert First(b, s) <= |b|;
    }
    forall c: nat, d: nat | c < 256 && d < 256 ensures Pair(c, d) < |t| && !Marked(t[Pair(c, d)]) { PairRange(c, d); }
    hide First, Marked, Clear;
  }

  lemma AllSorted(b: seq<Byte>, g: seq<int>, t: seq<nat>, done: seq<bool>)
    requires Sorting(b, g, t) && DoneMarked(t, done) && forall c: nat :: c < 256 ==> done[c]
    ensures SortsRotations(b, g)
  {
    SortingParts(b, g, t, 0, 0);
    DoneSize(t, done);
    hide Sorting, DoneMarked, InBucket, Ranking;
    forall p, q | 0 <= p < q < |b| ensures 0 <= g[p] < |b| && 0 <= g[q] < |b| && Ranking(b)[g[p]] <= Ranking(b)[g[q]] {
      DoneOrder(b, g, t, done, p, q);
    }
    hide Ranking;
    RankedIsSorted(b, g);
  }

  lemma EveryBucketTaken(order: seq<int>, done: seq<bool>)
    requires Injective(order, 256) && |done| == 256 && forall k :: 0 <= k < 256 ==> done[order[k]]
    ensures forall c: nat :: c < 256 ==> done[c]
  {
    hide IsPermutation;
    InjectiveIsPermutation(order, 256);
    PermutationFacts(order, 256);
    forall c: nat | c < 256 ensures done[c] {
      assert c in order;
      var k :| 0 <= k < 256 && order[k] == c;
    }
  }

  lemma TakenDiffer(order: seq<int>, i: nat)
    requires Injective(order, 256) && i < 256
    ensures forall k :: 0 <= k < 256 ==> 0 <= order[k] < 256 && (k != i ==> order[k] != order[i])
  {
  }

  /** One round of the main loop: big bucket ss, with assertion 1006. The last round leaves the quadrants. */
  method OneBigBucket(ptr: array<Word>, block: array<Byte>, quadrant: array<nat>, ftab: array<nat>, bigDone: array<bool>, n: nat, ss: nat,
                      budget: int, more: bool, ghost b: seq<Byte>) returns (budget': int)
    requires Mirrored(block[..], b) && Quadrants(quadrant[..], b) && n == |b| <= 900000 && n <= ptr.Length
    requires ss < 256 && ftab.Length == 0x1_0001 && ftab != quadrant && ptr as object != quadrant && ptr as object != ftab && budget >= 0
    requires bigDone.Length == 256 && !bigDone[ss] && Sorting(b, ptr[..n], ftab[..]) && DoneMarked(ftab[..], bigDone[..])
    modifies ptr, quadrant, ftab, bigDone
    ensures budget' >= 0 ==> Sorting(b, ptr[..n], ftab[..]) && DoneMarked(ftab[..], bigDone[..])
    ensures budget' >= 0 ==> bigDone[..] == old(bigDone[..])[ss := true] && (more ==> Quadrants(quadrant[..], b))
  {
    hide Sorting, DoneMarked, Mirrored, Quadrants, Bucketed, SmallSorted, BigLo, BigHi, Clear, Marked, Synthesised, Tabled, BigSorted, Lo, Hi;
    ghost var bl, done := block[..], bigDone[..];
    budget' := SortRow(ptr, block, quadrant, ftab, n, ss, budget, b, done);
    if budget' < 0 { return; }
    assert !bigDone[ss];
    assert bigDone[..] == done && block[..] == bl;
    ghost var f := ptr[..n];
    RowSorted(b, f, ftab[..], ss);
    Scan(ptr, block, ftab, bigDone, ss, n, b);
    AfterScan(b, f, ptr[..n], ftab[..], done, ss);
    ghost var g := ptr[..n];
    MarkColumn(ftab, ss, b, g, done);
    bigDone[ss] := true;
    assert bigDone[..] == done[ss := true] && ptr[..n] == g;
    if more {
      ghost var t := ftab[..];
      SortingParts(b, g, t, ss, ss);
      BigFromSmall(b, g, t, bigDone[..], ss);
      TableAt(t, b, ss, ss);
      PairRange(ss, ss);
      BucketsInOrder(b, ss, ss, ss, ss);
      assert t[Pair(ss, 0)] == ftab[Pair(ss, 0)] && t[Pair(ss + 1, 0)] == ftab[Pair(ss + 1, 0)];
      var bbStart := Clear(ftab[Pair(ss, 0)]);
      var bbSize := Clear(ftab[Pair(ss + 1, 0)]) - bbStart;
      UpdateQuadrants(ptr, quadrant, n, bbStart, bbSize, b, ss);
      assert ftab[..] == t && ptr[..n] == g;
    }
  }

  lemma RowSorted(b: seq<Byte>, g: seq<int>, t: seq<nat>, ss: nat)
    requires Sorting(b, g, t) && ss < 256
    requires forall d: nat {:trigger Pair(ss, d)} :: d < 256 && d != ss ==> Pair(ss, d) < |t| && Marked(t[Pair(ss, d)])
    ensures Bucketed(b, g) && Tabled(t, b) && forall d: nat :: d < 256 && d != ss ==> SmallSorted(b, g, ss, d)
  {
    SortingParts(b, g, t, 0, 0);
    hide Sorting, SmallSorted, Marked, Bucketed, Tabled;
    forall d: nat | d < 256 && d != ss ensures SmallSorted(b, g, ss, d) { SortingParts(b, g, t, ss, d); }
  }

  /** mainSort: unless the budget runs out, the rotations end up sorted. The block itself stays. */
  method Sort(ptr: array<Word>, block: array<Byte>, quadrant: array<nat>, ftab: array<nat>, n: nat, budget: int) returns (budget': int)
    requires 34 < n <= 900000 && n + 34 <= block.Length && n + 34 <= quadrant.Length && n <= ptr.Length
    requires ftab.Length == 0x1_0001 && ftab != quadrant && budget >= 0
    requires block as object != ftab && block as object != quadrant && block as object != ptr && ptr as object != ftab && ptr as object != quadrant
    modifies ptr, block, quadrant, ftab
    ensures block[..n] == old(block[..n])
    ensures budget' >= 0 ==> SortsRotations(block[..n], ptr[..n])
  {
    hide Sorting, DoneMarked, Mirrored, Quadrants, Bucketed, SortsRotations, First, Ranking, BigLo, BigHi, Clear, Marked, Synthesised, Tabled, Injective;
    ghost var b := block[..n];
    Totals(ftab, block, quadrant, n);
    Overshoot(block, quadrant, n);
    ZeroQuadrants(quadrant[..], b);
    ghost var bl, qu := block[..], quadrant[..];
    Place(ptr, ftab, block, n);
    var order := RunningOrder(ftab, b);
    ghost var taken := order[..];
    TakenDiffer(taken, 0);
    var bigDone := new bool[256](_ => false);
    StartSorting(b, ptr[..n], ftab[..], bigDone[..]);
    budget' := budget;
    for i := 0 to 256
      invariant budget' >= 0 && block[..] == bl && order[..] == taken
      invariant Sorting(b, ptr[..n], ftab[..]) && DoneMarked(ftab[..], bigDone[..])
      invariant forall k :: 0 <= k < 256 ==> 0 <= taken[k] < 256 && bigDone[taken[k]] == (k < i)
      invariant i < 256 ==> Quadrants(quadrant[..], b)
    {
      var ss := order[i];
      ghost var done := bigDone[..];
      budget' := OneBigBucket(ptr, block, quadrant, ftab, bigDone, n, ss, budget', i < 255, b);
      if budget' < 0 { return; }
      TakenDiffer(taken, i);
    }
    EveryBucketTaken(taken, bigDone[..]);
    AllSorted(b, ptr[..n], ftab[..], bigDone[..]);
    assert block[..n] == b;
  }
}

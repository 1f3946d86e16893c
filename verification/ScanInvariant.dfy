/** The invariant of the pointer scans of mainSort (blocksort.c), and its preservation. */
module ScanInvariant {
  import opened Basics
  import opened Permutations
  import opened Rotations
  import opened Shuffles
  import opened FallbackQSort
  import opened RotationRanks
  import opened MainRadix
  import opened Slopes
  import opened ScanColumns
  import opened ScanSteps

  // --- A bucket while others are written ---

  /** A write at w (none if w < 0) outside everything the bucket's invariant speaks of. */
  ghost predicate Elsewhere(b: seq<Byte>, g: seq<int>, h: seq<int>, ss: nat, c: nat, s: int, e: int, i: int, j: int, w: int) {
    && |h| == |g| && (forall p :: 0 <= p < |g| && p != w ==> h[p] == g[p])
    && !(Lo(b, c, ss) <= w < s) && !(e + 1 <= w < Hi(b, c, ss)) && !(BigLo(b, ss) <= w < i) && !(j <= w < BigHi(b, ss))
  }

  lemma WroteElsewhere(b: seq<Byte>, g: seq<int>, x: int, ss: nat, c: nat, s: int, e: int, i: int, j: int, w: int)
    requires 0 <= w < |g|
    requires !(Lo(b, c, ss) <= w < s) && !(e + 1 <= w < Hi(b, c, ss)) && !(BigLo(b, ss) <= w < i) && !(j <= w < BigHi(b, ss))
    ensures Elsewhere(b, g, g[w := x], ss, c, s, e, i, j, w)
  {
    hide Lo, Hi, BigLo, BigHi;
  }

  /** A column while w is written elsewhere, and the scan reads at most one rotation that belongs elsewhere. */
  lemma ColumnKept(b: seq<Byte>, g: seq<int>, h: seq<int>, lo: int, hi: int, c: int, a: int, z: int, a': int, z': int, w: int)
    requires Column(b, g, lo, hi, c, a, z) && |h| == |g| == |b| && a - 1 <= a' <= a && z <= z' <= z + 1 && 0 <= a' && z' <= |g|
    requires (forall p :: 0 <= p < |g| && p != w ==> h[p] == g[p]) && !(lo <= w < hi) && !(a' <= w < z')
    requires a' < a ==> 0 <= g[a'] < |b| && b[Before(g[a'], |b|)] != c
    requires z < z' ==> 0 <= g[z] < |b| && b[Before(g[z], |b|)] != c
    ensures Column(b, h, lo, hi, c, a', z')
  {
    ColumnBounds(b, g, lo, hi, c, a, z);
    hide *;
    ColumnStays(b, g, h, lo, hi, c, a, z, a', z');
  }

  lemma FillingSkipLeft(b: seq<Byte>, g: seq<int>, h: seq<int>, ss: nat, c: nat, s: int, e: int, i: int, j: int, w: int)
    requires Filling(b, g, ss, c, s, e, i, j) && Elsewhere(b, g, h, ss, c, s, e, i + 1, j, w)
    requires i < |b| == |g| && 0 <= i && 0 <= g[i] < |b| && b[Before(g[i], |b|)] != c
    ensures Filling(b, h, ss, c, s, e, i + 1, j)
  {
    FillingBounds(b, g, ss, c, s, e, i, j);
    hide Column, Before, Lo, Hi, BigLo, BigHi;
    ColumnKept(b, g, h, Lo(b, c, ss), s, c, BigLo(b, ss), i, BigLo(b, ss), i + 1, w);
    ColumnKept(b, g, h, e + 1, Hi(b, c, ss), c, j, BigHi(b, ss), j, BigHi(b, ss), w);
  }

  lemma FillingSkipRight(b: seq<Byte>, g: seq<int>, h: seq<int>, ss: nat, c: nat, s: int, e: int, i: int, j: int, w: int)
    requires Filling(b, g, ss, c, s, e, i, j) && Elsewhere(b, g, h, ss, c, s, e, i, j - 1, w)
    requires 0 < j <= |b| == |g| && 0 <= g[j - 1] < |b| && b[Before(g[j - 1], |b|)] != c
    ensures Filling(b, h, ss, c, s, e, i, j - 1)
  {
    FillingBounds(b, g, ss, c, s, e, i, j);
    hide Column, Before, Lo, Hi, BigLo, BigHi;
    ColumnKept(b, g, h, Lo(b, c, ss), s, c, BigLo(b, ss), i, BigLo(b, ss), i, w);
    ColumnKept(b, g, h, e + 1, Hi(b, c, ss), c, j, BigHi(b, ss), j - 1, BigHi(b, ss), w);
  }

  lemma FillingPutLeft(b: seq<Byte>, g: seq<int>, ss: nat, c: nat, s: int, e: int, i: int, j: int)
    requires Filling(b, g, ss, c, s, e, i, j) && 0 <= s <= e && s < |g| == |b| && !(BigLo(b, ss) <= s <= i) && !(j <= s < BigHi(b, ss))
    requires 0 <= i < |g| && 0 <= g[i] < |b| && b[Before(g[i], |b|)] == c && Listed(b, g, BigLo(b, ss), i + 1)
    ensures Filling(b, g[s := Before(g[i], |b|)], ss, c, s + 1, e, i + 1, j)
  {
    FillingBounds(b, g, ss, c, s, e, i, j);
    hide Column, Before, Lo, Hi, BigLo, BigHi, Listed;
    var h := g[s := Before(g[i], |b|)];
    ColumnGrowsRight(b, g, h, Lo(b, c, ss), s, c, BigLo(b, ss), i);
    ColumnStays(b, g, h, e + 1, Hi(b, c, ss), c, j, BigHi(b, ss), j, BigHi(b, ss));
  }

  lemma FillingPutRight(b: seq<Byte>, g: seq<int>, ss: nat, c: nat, s: int, e: int, i: int, j: int)
    requires Filling(b, g, ss, c, s, e, i, j) && 0 <= s <= e < |g| == |b| && !(BigLo(b, ss) <= e < i) && !(j - 1 <= e < BigHi(b, ss))
    requires 0 < j <= |g| && 0 <= g[j - 1] < |b| && b[Before(g[j - 1], |b|)] == c && Listed(b, g, j - 1, BigHi(b, ss))
    ensures Filling(b, g[e := Before(g[j - 1], |b|)], ss, c, s, e - 1, i, j - 1)
  {
    hide Column, Before, Lo, Hi, BigLo, BigHi, Listed;
    PutInFront(b, g, e, e + 1, Hi(b, c, ss), c, j, BigHi(b, ss));
    WroteBehind(b, g, e, Before(g[j - 1], |b|), Lo(b, c, ss), s, c, BigLo(b, ss), i);
  }

  lemma PutInFront(b: seq<Byte>, g: seq<int>, w: nat, lo: int, hi: int, c: int, j: int, z: int)
    requires Column(b, g, lo, hi, c, j, z) && lo == w + 1 && w < |g| == |b| && !(j - 1 <= w < z)
    requires 0 < j <= |g| && 0 <= g[j - 1] < |b| && b[Before(g[j - 1], |b|)] == c && Listed(b, g, j - 1, z)
    ensures Column(b, g[w := Before(g[j - 1], |b|)], w, hi, c, j - 1, z)
  {
    hide *;
    ColumnGrowsLeft(b, g, g[w := Before(g[j - 1], |b|)], lo, hi, c, j, z);
  }

  lemma WroteBehind(b: seq<Byte>, g: seq<int>, w: nat, x: int, lo: int, hi: int, c: int, a: int, z: int)
    requires Column(b, g, lo, hi, c, a, z) && w < |g| == |b| && hi <= w && !(a <= w < z)
    ensures Column(b, g[w := x], lo, hi, c, a, z)
  {
    ColumnBounds(b, g, lo, hi, c, a, z);
    hide *;
    ColumnStays(b, g, g[w := x], lo, hi, c, a, z, a, z);
  }

  lemma ColumnBounds(b: seq<Byte>, g: seq<int>, lo: int, hi: int, c: int, a: int, z: int)
    requires Column(b, g, lo, hi, c, a, z)
    ensures |g| == |b| && 0 <= lo <= hi <= |g| && 0 <= a <= z <= |g|
  {
    hide Ranking;
  }

  // --- The whole state ---

  ghost predicate Between(b: seq<Byte>, ss: nat, c: nat, s: int, e: int) {
    Lo(b, c, ss) <= s <= e + 1 <= Hi(b, c, ss)
  }

  /** Not written by the scans so far. */
  ghost predicate Untouched(b: seq<Byte>, x: int, done: seq<bool>, ss: nat, cs: seq<int>, ce: seq<int>, p: int)
    requires |done| == |cs| == |ce| == 256
  {
    0 <= x < |b| && (b[After(x, |b|)] != ss || done[b[x]] || cs[b[x]] <= p <= ce[b[x]])
  }

  /** f: the pointers before the scans; g: now; cs, ce: copyStart, copyEnd; big bucket ss has been read up
      to i from the left and down to j from the right. */
  ghost predicate Scans(b: seq<Byte>, f: seq<int>, g: seq<int>, done: seq<bool>, ss: nat, cs: seq<int>, ce: seq<int>, i: int, j: int) {
    && |done| == |cs| == |ce| == 256 && |g| == |b| && b != [] && ss < 256 && !done[ss] && Bucketed(b, f)
    && i <= cs[ss] && ce[ss] + 1 <= j
    && (forall c: nat :: c < 256 ==> Between(b, ss, c, cs[c], ce[c]))
    && Sides(b, g, ss, cs[ss], ce[ss])
    && (forall c: nat :: c < 256 && !done[c] ==> Filling(b, g, ss, c, cs[c], ce[c], i, j))
    && forall p :: 0 <= p < |b| && Untouched(b, f[p], done, ss, cs, ce, p) ==> g[p] == f[p]
  }

  /** Positions of big bucket ss outside [ss, ss] hold what they held: rotations with another second byte. */
  lemma OuterPart(b: seq<Byte>, f: seq<int>, ss: nat, p: int)
    requires Bucketed(b, f) && ss < 256 && BigLo(b, ss) <= p < BigHi(b, ss)
    ensures |f| == |b| && 0 <= p < |f| && 0 <= f[p] < |b| && b[f[p]] == ss && PairAt(b, f[p]) == Pair(ss, b[After(f[p], |b|)])
    ensures p < Lo(b, ss, ss) ==> b[After(f[p], |b|)] < ss
    ensures Hi(b, ss, ss) <= p ==> ss < b[After(f[p], |b|)]
  {
    hide First;
    assert InBucket(b, p, f[p]);
    var x := f[p];
    PairOf(b, x);
    BucketsInOrder(b, ss, ss, b[x], b[After(x, |b|)]);
    BucketsInOrder(b, b[x], b[After(x, |b|)], ss, ss);
  }

  /** Ranks across [ss, ss] and the rest of its big bucket. */
  lemma OuterRanks(b: seq<Byte>, f: seq<int>, ss: nat, p: int, k: nat)
    requires Bucketed(b, f) && ss < 256 && BigLo(b, ss) <= p < BigHi(b, ss) && k < |b| && PairAt(b, k) == Pair(ss, ss)
    ensures |f| == |b| && 0 <= p < |f| && 0 <= f[p] < |b|
    ensures p < Lo(b, ss, ss) ==> Ranking(b)[f[p]] < Ranking(b)[k]
    ensures Hi(b, ss, ss) <= p ==> Ranking(b)[k] < Ranking(b)[f[p]]
  {
    hide First, Ranking, PairAt, Lo, Hi, BigLo, BigHi;
    OuterPart(b, f, ss, p);
    PairDecides(b, f[p], k);
    PairDecides(b, k, f[p]);
  }

  /** The left side grows by a falling rotation. */
  lemma SidesPutLeft(b: seq<Byte>, f: seq<int>, g: seq<int>, ss: nat, s: int, e: int, i: int, j: int)
    requires Sides(b, g, ss, s, e) && Filling(b, g, ss, ss, s, e, i, j) && Bucketed(b, f) && ss < 256 && |g| == |b|
    requires Between(b, ss, ss, s, e) && BigLo(b, ss) <= i < s <= e && 0 <= g[i] < |b| && b[Before(g[i], |b|)] == ss
    requires forall p :: BigLo(b, ss) <= p < Lo(b, ss, ss) ==> g[p] == f[p]
    ensures Sides(b, g[s := Before(g[i], |b|)], ss, s + 1, e)
  {
    FillingBounds(b, g, ss, ss, s, e, i, j);
    SidesBounds(b, g, ss, s, e);
    BucketsInOrder(b, ss, ss, ss, ss);
    hide Before, After, Lo, Hi, BigLo, BigHi, Listed, Ranking, Bucketed, Falls, Rises, Filling, PairAt, InBucket;
    var h := g[s := Before(g[i], |b|)];
    BackFalls(b, g, ss, s, e, i);
    ListedSame(b, g, h, BigLo(b, ss), s);
    ListedSame(b, g, h, e + 1, BigHi(b, ss));
    forall p | BigLo(b, ss) <= p < s ensures 0 <= h[p] < |b| && h[p] != h[s] && Ranking(b)[h[p]] <= Ranking(b)[h[s]] {
      LeftOrder(b, f, g, ss, s, e, i, j, p);
    }
    ListedLast(b, h, BigLo(b, ss), s);
  }

  lemma BackFalls(b: seq<Byte>, g: seq<int>, ss: nat, s: int, e: int, i: int)
    requires Sides(b, g, ss, s, e) && BigLo(b, ss) <= i < s && |g| == |b| && i < |g| && 0 <= g[i] < |b| && b[Before(g[i], |b|)] == ss
    ensures Falls(b, Before(g[i], |b|)) && PairAt(b, Before(g[i], |b|)) == Pair(ss, ss)
  {
    BeforeAfter(g[i], |b|);
    SidesLeft(b, g, ss, s, e, i);
    PairOf(b, Before(g[i], |b|));
    SlopeInherited(b, Before(g[i], |b|));
    hide Sides, Falls, PairAt, BigLo, Ranking;
  }

  lemma LeftOrder(b: seq<Byte>, f: seq<int>, g: seq<int>, ss: nat, s: int, e: int, i: int, j: int, p: int)
    requires Sides(b, g, ss, s, e) && Filling(b, g, ss, ss, s, e, i, j) && Bucketed(b, f) && ss < 256 && |g| == |b|
    requires BigLo(b, ss) <= i < s <= BigHi(b, ss) && i < |g| && 0 <= g[i] < |b| && b[Before(g[i], |b|)] == ss
    requires |f| == |b| && BigLo(b, ss) <= p < s && p < |g| && (p < Lo(b, ss, ss) ==> g[p] == f[p])
    ensures 0 <= g[p] < |b| && g[p] != Before(g[i], |b|) && Ranking(b)[g[p]] <= Ranking(b)[Before(g[i], |b|)]
  {
    hide Before, Lo, Hi, BigLo, BigHi, Listed, Ranking, Bucketed, Falls, Rises, Column, PairAt;
    BackFalls(b, g, ss, s, e, i);
    if p < Lo(b, ss, ss) {
      OuterRanks(b, f, ss, p, Before(g[i], |b|));
    } else {
      SidesListed(b, g, ss, s, e, BigLo(b, ss), i + 1, true);
      NextInOrder(b, g, Lo(b, ss, ss), s, ss, BigLo(b, ss), i, p);
    }
  }

  /** The right side grows by a rising one. */
  lemma SidesPutRight(b: seq<Byte>, f: seq<int>, g: seq<int>, ss: nat, s: int, e: int, i: int, j: int)
    requires Sides(b, g, ss, s, e) && Filling(b, g, ss, ss, s, e, i, j) && Bucketed(b, f) && ss < 256 && |g| == |b|
    requires Between(b, ss, ss, s, e) && s <= e < j - 1 && j <= BigHi(b, ss) && 0 <= g[j - 1] < |b| && b[Before(g[j - 1], |b|)] == ss
    requires forall p :: Hi(b, ss, ss) <= p < BigHi(b, ss) ==> g[p] == f[p]
    ensures Sides(b, g[e := Before(g[j - 1], |b|)], ss, s, e - 1)
  {
    FillingBounds(b, g, ss, ss, s, e, i, j);
    SidesBounds(b, g, ss, s, e);
    BucketsInOrder(b, ss, ss, ss, ss);
    hide Before, After, Lo, Hi, BigLo, BigHi, Listed, Ranking, Bucketed, Falls, Rises, Filling, PairAt, InBucket;
    var k, h := Before(g[j - 1], |b|), g[e := Before(g[j - 1], |b|)];
    FrontRises(b, g, ss, s, e, j);
    PairOf(b, k);
    ListedSame(b, g, h, BigLo(b, ss), s);
    ListedSame(b, g, h, e + 1, BigHi(b, ss));
    forall p | e + 1 <= p < BigHi(b, ss) ensures 0 <= h[p] < |b| && h[p] != h[e] && Ranking(b)[h[e]] <= Ranking(b)[h[p]] {
      RightOrder(b, f, g, ss, s, e, i, j, p);
    }
    ListedFirst(b, h, e + 1, BigHi(b, ss));
    SidesWithFront(b, g, h, ss, s, e);
  }

  lemma SidesWithFront(b: seq<Byte>, g: seq<int>, h: seq<int>, ss: nat, s: int, e: int)
    requires Sides(b, g, ss, s, e) && |h| == |g| && s <= e < |g| && 0 <= e && h == g[e := h[e]] && s <= |g|
    requires 0 <= h[e] < |b| && Rises(b, h[e]) && b[h[e]] == ss
    requires Listed(b, h, BigLo(b, ss), s) && Listed(b, h, e, BigHi(b, ss))
    ensures Sides(b, h, ss, s, e - 1)
  {
    SidesBounds(b, g, ss, s, e);
    hide Listed, Falls, Rises, BigLo, BigHi;
  }

  lemma FrontRises(b: seq<Byte>, g: seq<int>, ss: nat, s: int, e: int, j: int)
    requires Sides(b, g, ss, s, e) && 0 <= e + 1 < j <= BigHi(b, ss) && |g| == |b| && j <= |g| && 0 <= g[j - 1] < |b| && b[Before(g[j - 1], |b|)] == ss
    ensures Rises(b, Before(g[j - 1], |b|)) && PairAt(b, Before(g[j - 1], |b|)) == Pair(ss, ss)
  {
    BeforeAfter(g[j - 1], |b|);
    SidesRight(b, g, ss, s, e, j - 1);
    PairOf(b, Before(g[j - 1], |b|));
    SlopeInherited(b, Before(g[j - 1], |b|));
    hide Sides, Rises, PairAt, BigHi, Ranking;
  }

  lemma RightOrder(b: seq<Byte>, f: seq<int>, g: seq<int>, ss: nat, s: int, e: int, i: int, j: int, p: int)
    requires Sides(b, g, ss, s, e) && Filling(b, g, ss, ss, s, e, i, j) && Bucketed(b, f) && ss < 256 && |g| == |b|
    requires 0 <= e + 1 < j <= BigHi(b, ss) && 0 <= g[j - 1] < |b| && b[Before(g[j - 1], |b|)] == ss
    requires |f| == |b| && BigLo(b, ss) <= e + 1 <= p < BigHi(b, ss) && (Hi(b, ss, ss) <= p ==> g[p] == f[p])
    ensures 0 <= g[p] < |b| && g[p] != Before(g[j - 1], |b|) && Ranking(b)[Before(g[j - 1], |b|)] <= Ranking(b)[g[p]]
  {
    hide Before, Lo, Hi, BigLo, BigHi, Listed, Ranking, Bucketed, Falls, Rises, Column, PairAt;
    FrontRises(b, g, ss, s, e, j);
    if Hi(b, ss, ss) <= p {
      OuterRanks(b, f, ss, p, Before(g[j - 1], |b|));
    } else {
      SidesListed(b, g, ss, s, e, j - 1, BigHi(b, ss), false);
      LastInOrder(b, g, e + 1, Hi(b, ss, ss), ss, j, BigHi(b, ss), p);
    }
  }

  lemma SidesElsewhere(b: seq<Byte>, g: seq<int>, h: seq<int>, ss: nat, s: int, e: int, w: int)
    requires Sides(b, g, ss, s, e) && |h| == |g| && (forall p :: 0 <= p < |g| && p != w ==> h[p] == g[p])
    requires !(BigLo(b, ss) <= w < s) && !(e + 1 <= w < BigHi(b, ss))
    ensures Sides(b, h, ss, s, e)
  {
    SidesBounds(b, g, ss, s, e);
    hide Listed, Falls, Rises, BigLo, BigHi;
    ListedSame(b, g, h, BigLo(b, ss), s);
    ListedSame(b, g, h, e + 1, BigHi(b, ss));
  }

  lemma SidesBounds(b: seq<Byte>, g: seq<int>, ss: nat, s: int, e: int)
    requires Sides(b, g, ss, s, e)
    ensures b != [] && |g| == |b| && BigLo(b, ss) <= s <= |g| && 0 <= e + 1 <= BigHi(b, ss)
  {
    hide Ranking, Falls, Rises, BigLo, BigHi;
  }

  lemma ScanBucket(b: seq<Byte>, f: seq<int>, g: seq<int>, done: seq<bool>, ss: nat, cs: seq<int>, ce: seq<int>, i: int, j: int, c: nat)
    requires Scans(b, f, g, done, ss, cs, ce, i, j) && c < 256
    ensures Between(b, ss, c, cs[c], ce[c]) && (!done[c] ==> Filling(b, g, ss, c, cs[c], ce[c], i, j))
  {
    hide Between, Filling, Sides, Bucketed, Untouched;
  }

  lemma ScanShape(b: seq<Byte>, f: seq<int>, g: seq<int>, done: seq<bool>, ss: nat, cs: seq<int>, ce: seq<int>, i: int, j: int)
    requires Scans(b, f, g, done, ss, cs, ce, i, j)
    ensures |done| == |cs| == |ce| == 256 && |f| == |g| == |b| && b != [] && ss < 256 && !done[ss] && Bucketed(b, f)
    ensures i <= cs[ss] && ce[ss] + 1 <= j && Sides(b, g, ss, cs[ss], ce[ss])
    ensures BigLo(b, ss) <= i && j <= BigHi(b, ss) && BigLo(b, ss) <= Lo(b, ss, ss) <= cs[ss] <= ce[ss] + 1 <= Hi(b, ss, ss) <= BigHi(b, ss)
  {
    ScanBucket(b, f, g, done, ss, cs, ce, i, j, ss);
    FillingBounds(b, g, ss, ss, cs[ss], ce[ss], i, j);
    BucketsInOrder(b, ss, ss, ss, ss);
    hide Filling, Sides, InBucket, Untouched, Lo, Hi, BigLo, BigHi;
  }

  lemma ScanKept(b: seq<Byte>, f: seq<int>, g: seq<int>, done: seq<bool>, ss: nat, cs: seq<int>, ce: seq<int>, i: int, j: int, p: int)
    requires Scans(b, f, g, done, ss, cs, ce, i, j) && 0 <= p < |b|
    ensures |f| == |g| == |b| && |done| == |cs| == |ce| == 256 && (Untouched(b, f[p], done, ss, cs, ce, p) ==> g[p] == f[p])
  {
    hide Between, Filling, Sides, InBucket, Untouched;
  }

  /** Outside [ss, ss] big bucket ss is as it was. */
  lemma OuterKept(b: seq<Byte>, f: seq<int>, g: seq<int>, done: seq<bool>, ss: nat, cs: seq<int>, ce: seq<int>, i: int, j: int, p: int)
    requires Scans(b, f, g, done, ss, cs, ce, i, j)
    requires BigLo(b, ss) <= p < Lo(b, ss, ss) || Hi(b, ss, ss) <= p < BigHi(b, ss)
    ensures 0 <= p < |g| == |f| && g[p] == f[p]
  {
    ScanShape(b, f, g, done, ss, cs, ce, i, j);
    OuterPart(b, f, ss, p);
    ScanKept(b, f, g, done, ss, cs, ce, i, j, p);
    hide Scans, Lo, Hi, BigLo, BigHi, Bucketed, PairAt, Sides;
  }

  /** A place in bucket [c, ss] is in no other, and holds a rotation of [c, ss]. */
  lemma PlaceOf(b: seq<Byte>, f: seq<int>, c: nat, ss: nat, w: int)
    requires Bucketed(b, f) && c < 256 && ss < 256 && Lo(b, c, ss) <= w < Hi(b, c, ss)
    ensures 0 <= w < |f| == |b| && 0 <= f[w] < |b| && b[f[w]] == c && b[After(f[w], |b|)] == ss
  {
    hide First;
    assert InBucket(b, w, f[w]);
    BucketNames(b, w, f[w], Pair(c, ss));
    PairOf(b, f[w]);
  }

  lemma Apart(b: seq<Byte>, ss: nat, c: nat, c1: nat, w: int)
    requires c < 256 && c1 < 256 && ss < 256 && Lo(b, c1, ss) <= w < Hi(b, c1, ss)
    ensures c != c1 ==> !(Lo(b, c, ss) <= w < Hi(b, c, ss))
    ensures c1 != ss ==> !(BigLo(b, ss) <= w < BigHi(b, ss))
  {
    BucketsInOrder(b, c, ss, c1, ss);
    BucketsInOrder(b, c1, ss, c, ss);
    BucketsInOrder(b, ss, ss, c1, ss);
    BucketsInOrder(b, c1, ss, ss, ss);
    hide Lo, Hi, BigLo, BigHi;
  }

  /** What a write into bucket [c1, ss] leaves alone. */
  lemma KeptAfter(b: seq<Byte>, f: seq<int>, g: seq<int>, done: seq<bool>, ss: nat, cs: seq<int>, ce: seq<int>, i: int, j: int,
                  c1: nat, w: int, x: int, cs': seq<int>, ce': seq<int>, p: int)
    requires Scans(b, f, g, done, ss, cs, ce, i, j) && c1 < 256 && !done[c1] && Lo(b, c1, ss) <= w < Hi(b, c1, ss) && w < |g|
    requires (cs' == cs[c1 := w + 1] && cs[c1] == w && ce' == ce) || (ce' == ce[c1 := w - 1] && ce[c1] == w && cs' == cs)
    requires 0 <= p < |b| && |f| == |b| && Untouched(b, f[p], done, ss, cs', ce', p)
    ensures g[w := x][p] == f[p]
  {
    ScanShape(b, f, g, done, ss, cs, ce, i, j);
    ScanKept(b, f, g, done, ss, cs, ce, i, j, p);
    PlaceOf(b, f, c1, ss, w);
    hide Scans, Lo, Hi, BigLo, BigHi, Bucketed, Sides;
  }

  /** The left scan reads a rotation whose predecessor is in place already. */
  lemma SkipLeft(b: seq<Byte>, f: seq<int>, g: seq<int>, done: seq<bool>, ss: nat, cs: seq<int>, ce: seq<int>, i: int, j: int)
    requires Scans(b, f, g, done, ss, cs, ce, i, j) && i < cs[ss]
    ensures 0 <= i < |g| && 0 <= g[i] < |b|
    ensures done[b[Before(g[i], |b|)]] ==> Scans(b, f, g, done, ss, cs, ce, i + 1, j)
  {
    ScanShape(b, f, g, done, ss, cs, ce, i, j);
    SidesLeft(b, g, ss, cs[ss], ce[ss], i);
    hide Lo, Hi, BigLo, BigHi, Bucketed, Sides, Filling, Before, Untouched;
    if done[b[Before(g[i], |b|)]] {
      forall c: nat | c < 256 && !done[c] ensures Filling(b, g, ss, c, cs[c], ce[c], i + 1, j) {
        FillingSkipLeft(b, g, g, ss, c, cs[c], ce[c], i, j, -1);
      }
    }
  }

  lemma BetweenBounds(b: seq<Byte>, ss: nat, c: nat, s: int, e: int)
    requires Between(b, ss, c, s, e)
    ensures 0 <= Lo(b, c, ss) <= s <= e + 1 <= Hi(b, c, ss) <= |b|
  {
    hide First;
  }

  lemma BetweenAfterLeft(b: seq<Byte>, ss: nat, c: nat, s: int, e: int)
    requires Between(b, ss, c, s, e)
    ensures s <= e ==> Between(b, ss, c, s + 1, e) && Lo(b, c, ss) <= s < Hi(b, c, ss)
  {
    hide Lo, Hi;
  }

  lemma BetweenAfterRight(b: seq<Byte>, ss: nat, c: nat, s: int, e: int)
    requires Between(b, ss, c, s, e)
    ensures s <= e ==> Between(b, ss, c, s, e - 1) && Lo(b, c, ss) <= e < Hi(b, c, ss)
  {
    hide Lo, Hi;
  }

  /** It puts the predecessor next in its bucket, where there is room. */
  lemma PutLeft(b: seq<Byte>, f: seq<int>, g: seq<int>, done: seq<bool>, ss: nat, cs: seq<int>, ce: seq<int>, i: int, j: int, k: nat, c1: nat)
    requires Scans(b, f, g, done, ss, cs, ce, i, j) && i < cs[ss] && 0 <= i < |g| && 0 <= g[i] < |b|
    requires k == Before(g[i], |b|) && c1 == b[k] && !done[c1]
    ensures 0 <= cs[c1] <= ce[c1] && cs[c1] < |g|
    ensures Scans(b, f, g[cs[c1] := k], done, ss, cs[c1 := cs[c1] + 1], ce, i + 1, j)
  {
    hide Between, Filling, Sides, Bucketed, Untouched, Before, Lo, Hi, BigLo, BigHi;
    ScanShape(b, f, g, done, ss, cs, ce, i, j);
    ScanBucket(b, f, g, done, ss, cs, ce, i, j, c1);
    RoomLeft(b, f, g, ss, c1, cs[c1], ce[c1], i, j, cs[ss], ce[ss]);
    BetweenBounds(b, ss, c1, cs[c1], ce[c1]);
    var w := cs[c1];
    var h, cs' := g[w := k], cs[c1 := w + 1];
    forall c: nat | c < 256 ensures Between(b, ss, c, cs'[c], ce[c]) {
      ScanBucket(b, f, g, done, ss, cs, ce, i, j, c);
      BetweenAfterLeft(b, ss, c, cs[c], ce[c]);
    }
    Apart(b, ss, ss, c1, w);
    SidesAfterLeft(b, f, g, done, ss, cs, ce, i, j, k, c1);
    forall c: nat | c < 256 && !done[c] ensures Filling(b, h, ss, c, cs'[c], ce[c], i + 1, j) {
      FillingAfterLeft(b, f, g, done, ss, cs, ce, i, j, k, c1, c);
    }
    forall p | 0 <= p < |b| && Untouched(b, f[p], done, ss, cs', ce, p) ensures h[p] == f[p] {
      KeptAfter(b, f, g, done, ss, cs, ce, i, j, c1, w, k, cs', ce, p);
    }
  }

  lemma SidesAfterLeft(b: seq<Byte>, f: seq<int>, g: seq<int>, done: seq<bool>, ss: nat, cs: seq<int>, ce: seq<int>, i: int, j: int, k: nat, c1: nat)
    requires Scans(b, f, g, done, ss, cs, ce, i, j) && i < cs[ss] && 0 <= i < |g| && 0 <= g[i] < |b|
    requires k == Before(g[i], |b|) && c1 == b[k] && !done[c1] && 0 <= cs[c1] <= ce[c1] && cs[c1] < |g|
    ensures Sides(b, g[cs[c1] := k], ss, cs[c1 := cs[c1] + 1][ss], ce[ss])
  {
    hide *;
    ScanShape(b, f, g, done, ss, cs, ce, i, j);
    ScanBucket(b, f, g, done, ss, cs, ce, i, j, c1);
    BetweenBounds(b, ss, c1, cs[c1], ce[c1]);
    if c1 == ss {
      forall p | BigLo(b, ss) <= p < Lo(b, ss, ss) ensures g[p] == f[p] { OuterKept(b, f, g, done, ss, cs, ce, i, j, p); }
      SidesPutLeft(b, f, g, ss, cs[ss], ce[ss], i, j);
    } else {
      Apart(b, ss, ss, c1, cs[c1]);
      SidesElsewhere(b, g, g[cs[c1] := k], ss, cs[ss], ce[ss], cs[c1]);
    }
  }

  lemma FillingAfterLeft(b: seq<Byte>, f: seq<int>, g: seq<int>, done: seq<bool>, ss: nat, cs: seq<int>, ce: seq<int>, i: int, j: int,
                         k: nat, c1: nat, c: nat)
    requires Scans(b, f, g, done, ss, cs, ce, i, j) && i < cs[ss] && 0 <= i < |g| && 0 <= g[i] < |b|
    requires k == Before(g[i], |b|) && c1 == b[k] && !done[c1] && 0 <= cs[c1] <= ce[c1] && cs[c1] < |g| && c < 256 && !done[c]
    ensures Filling(b, g[cs[c1] := k], ss, c, cs[c1 := cs[c1] + 1][c], ce[c], i + 1, j)
  {
    hide *;
    ScanShape(b, f, g, done, ss, cs, ce, i, j);
    ScanBucket(b, f, g, done, ss, cs, ce, i, j, c1);
    ScanBucket(b, f, g, done, ss, cs, ce, i, j, c);
    BetweenBounds(b, ss, c1, cs[c1], ce[c1]);
    BetweenBounds(b, ss, c, cs[c], ce[c]);
    Apart(b, ss, c, c1, cs[c1]);
    if c == c1 {
      SidesListed(b, g, ss, cs[ss], ce[ss], BigLo(b, ss), i + 1, true);
      FillingPutLeft(b, g, ss, c, cs[c], ce[c], i, j);
    } else {
      WroteElsewhere(b, g, k, ss, c, cs[c], ce[c], i + 1, j, cs[c1]);
      FillingSkipLeft(b, g, g[cs[c1] := k], ss, c, cs[c], ce[c], i, j, cs[c1]);
    }
  }

  /** The same for the right scan. */
  lemma SkipRight(b: seq<Byte>, f: seq<int>, g: seq<int>, done: seq<bool>, ss: nat, cs: seq<int>, ce: seq<int>, i: int, j: int)
    requires Scans(b, f, g, done, ss, cs, ce, i, j) && ce[ss] + 1 < j
    ensures 0 < j <= |g| && 0 <= g[j - 1] < |b|
    ensures done[b[Before(g[j - 1], |b|)]] ==> Scans(b, f, g, done, ss, cs, ce, i, j - 1)
  {
    ScanShape(b, f, g, done, ss, cs, ce, i, j);
    SidesRight(b, g, ss, cs[ss], ce[ss], j - 1);
    hide Lo, Hi, BigLo, BigHi, Bucketed, Sides, Filling, Before, Untouched;
    if done[b[Before(g[j - 1], |b|)]] {
      forall c: nat | c < 256 && !done[c] ensures Filling(b, g, ss, c, cs[c], ce[c], i, j - 1) {
        FillingSkipRight(b, g, g, ss, c, cs[c], ce[c], i, j, -1);
      }
    }
  }

  lemma PutRight(b: seq<Byte>, f: seq<int>, g: seq<int>, done: seq<bool>, ss: nat, cs: seq<int>, ce: seq<int>, i: int, j: int, k: nat, c1: nat)
    requires Scans(b, f, g, done, ss, cs, ce, i, j) && ce[ss] + 1 < j && 0 < j <= |g| && 0 <= g[j - 1] < |b|
    requires k == Before(g[j - 1], |b|) && c1 == b[k] && !done[c1]
    ensures 0 <= cs[c1] <= ce[c1] < |g|
    ensures Scans(b, f, g[ce[c1] := k], done, ss, cs, ce[c1 := ce[c1] - 1], i, j - 1)
  {
    hide Between, Filling, Sides, Bucketed, Untouched, Before, Lo, Hi, BigLo, BigHi;
    ScanShape(b, f, g, done, ss, cs, ce, i, j);
    ScanBucket(b, f, g, done, ss, cs, ce, i, j, c1);
    RoomRight(b, f, g, ss, c1, cs[c1], ce[c1], i, j, cs[ss], ce[ss]);
    BetweenBounds(b, ss, c1, cs[c1], ce[c1]);
    var w := ce[c1];
    var h, ce' := g[w := k], ce[c1 := w - 1];
    forall c: nat | c < 256 ensures Between(b, ss, c, cs[c], ce'[c]) {
      ScanBucket(b, f, g, done, ss, cs, ce, i, j, c);
      BetweenAfterRight(b, ss, c, cs[c], ce[c]);
    }
    Apart(b, ss, ss, c1, w);
    SidesAfterRight(b, f, g, done, ss, cs, ce, i, j, k, c1);
    forall c: nat | c < 256 && !done[c] ensures Filling(b, h, ss, c, cs[c], ce'[c], i, j - 1) {
      FillingAfterRight(b, f, g, done, ss, cs, ce, i, j, k, c1, c);
    }
    forall p | 0 <= p < |b| && Untouched(b, f[p], done, ss, cs, ce', p) ensures h[p] == f[p] {
      KeptAfter(b, f, g, done, ss, cs, ce, i, j, c1, w, k, cs, ce', p);
    }
  }

  lemma SidesAfterRight(b: seq<Byte>, f: seq<int>, g: seq<int>, done: seq<bool>, ss: nat, cs: seq<int>, ce: seq<int>, i: int, j: int, k: nat, c1: nat)
    requires Scans(b, f, g, done, ss, cs, ce, i, j) && ce[ss] + 1 < j && 0 < j <= |g| && 0 <= g[j - 1] < |b|
    requires k == Before(g[j - 1], |b|) && c1 == b[k] && !done[c1] && 0 <= cs[c1] <= ce[c1] < |g|
    ensures Sides(b, g[ce[c1] := k], ss, cs[ss], ce[c1 := ce[c1] - 1][ss])
  {
    hide *;
    ScanShape(b, f, g, done, ss, cs, ce, i, j);
    ScanBucket(b, f, g, done, ss, cs, ce, i, j, c1);
    BetweenBounds(b, ss, c1, cs[c1], ce[c1]);
    if c1 == ss {
      forall p | Hi(b, ss, ss) <= p < BigHi(b, ss) ensures g[p] == f[p] { OuterKept(b, f, g, done, ss, cs, ce, i, j, p); }
      SidesPutRight(b, f, g, ss, cs[ss], ce[ss], i, j);
    } else {
      Apart(b, ss, ss, c1, ce[c1]);
      SidesElsewhere(b, g, g[ce[c1] := k], ss, cs[ss], ce[ss], ce[c1]);
    }
  }

  lemma FillingAfterRight(b: seq<Byte>, f: seq<int>, g: seq<int>, done: seq<bool>, ss: nat, cs: seq<int>, ce: seq<int>, i: int, j: int,
                          k: nat, c1: nat, c: nat)
    requires Scans(b, f, g, done, ss, cs, ce, i, j) && ce[ss] + 1 < j && 0 < j <= |g| && 0 <= g[j - 1] < |b|
    requires k == Before(g[j - 1], |b|) && c1 == b[k] && !done[c1] && 0 <= cs[c1] <= ce[c1] < |g| && c < 256 && !done[c]
    ensures Filling(b, g[ce[c1] := k], ss, c, cs[c], ce[c1 := ce[c1] - 1][c], i, j - 1)
  {
    hide *;
    ScanShape(b, f, g, done, ss, cs, ce, i, j);
    ScanBucket(b, f, g, done, ss, cs, ce, i, j, c1);
    ScanBucket(b, f, g, done, ss, cs, ce, i, j, c);
    BetweenBounds(b, ss, c1, cs[c1], ce[c1]);
    BetweenBounds(b, ss, c, cs[c], ce[c]);
    Apart(b, ss, c, c1, ce[c1]);
    if c == c1 {
      SidesListed(b, g, ss, cs[ss], ce[ss], j - 1, BigHi(b, ss), false);
      FillingPutRight(b, g, ss, c, cs[c], ce[c], i, j);
    } else {
      WroteElsewhere(b, g, k, ss, c, cs[c], ce[c], i, j - 1, ce[c1]);
      FillingSkipRight(b, g, g[ce[c1] := k], ss, c, cs[c], ce[c], i, j, ce[c1]);
    }
  }
}

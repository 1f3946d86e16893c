/** One step of the pointer scans of mainSort (blocksort.c): what both scans keep for every small bucket
    [c, ss] not yet sorted. */
module ScanSteps {
  import opened Basics
  import opened Permutations
  import opened Rotations
  import opened Ranks
  import opened Shuffles
  import opened FallbackQSort
  import opened RotationRanks
  import opened MainRadix
  import opened Slopes
  import opened ScanColumns

  /** Where the small bucket [c, d] begins, and where the next one does. */
  ghost function Lo(b: seq<Byte>, c: nat, d: nat): (r: nat)
    ensures r <= |b|
  {
    First(b, Pair(c, d))
  }

  ghost function Hi(b: seq<Byte>, c: nat, d: nat): (r: nat)
    ensures r <= |b|
  {
    First(b, Pair(c, d) + 1)
  }

  /** The big bucket of byte c. */
  ghost function BigLo(b: seq<Byte>, c: nat): (r: nat)
    ensures r <= |b|
  {
    First(b, Pair(c, 0))
  }

  ghost function BigHi(b: seq<Byte>, c: nat): (r: nat)
    ensures r <= |b|
  {
    First(b, Pair(c + 1, 0))
  }

  lemma BucketsInOrder(b: seq<Byte>, c: nat, d: nat, c': nat, d': nat)
    requires c < 256 && d < 256 && c' < 256 && d' < 256
    ensures BigLo(b, c) <= Lo(b, c, d) <= Hi(b, c, d) <= BigHi(b, c)
    ensures Pair(c, d) < Pair(c', d') ==> Hi(b, c, d) <= Lo(b, c', d')
    ensures c < c' ==> BigHi(b, c) <= BigLo(b, c')
  {
    hide First;
    FirstMono(b, Pair(c, 0), Pair(c, d));
    FirstMono(b, Pair(c, d), Pair(c, d) + 1);
    FirstMono(b, Pair(c, d) + 1, Pair(c + 1, 0));
    if Pair(c, d) < Pair(c', d') { FirstMono(b, Pair(c, d) + 1, Pair(c', d')); }
    if c < c' { FirstMono(b, Pair(c + 1, 0), Pair(c', 0)); }
  }

  /** Bucket [c, ss] while the scans have filled it up to s from the left and down to e from the right;
      i and j say how far the scans of big bucket ss have come. */
  ghost predicate Filling(b: seq<Byte>, g: seq<int>, ss: nat, c: nat, s: int, e: int, i: int, j: int) {
    && Column(b, g, Lo(b, c, ss), s, c, BigLo(b, ss), i)
    && Column(b, g, e + 1, Hi(b, c, ss), c, j, BigHi(b, ss))
  }

  /** The two parts of big bucket ss that are known to be in order: the falling rotations on the left, the
      rising ones on the right. */
  ghost predicate Sides(b: seq<Byte>, g: seq<int>, ss: nat, s: int, e: int) {
    && Listed(b, g, BigLo(b, ss), s) && Listed(b, g, e + 1, BigHi(b, ss))
    && (forall p :: BigLo(b, ss) <= p < s ==> Falls(b, g[p]) && b[g[p]] == ss)
    && (forall p :: e + 1 <= p < BigHi(b, ss) ==> Rises(b, g[p]) && b[g[p]] == ss)
  }

  lemma SidesLeft(b: seq<Byte>, g: seq<int>, ss: nat, s: int, e: int, p: int)
    requires Sides(b, g, ss, s, e) && BigLo(b, ss) <= p < s
    ensures b != [] && |g| == |b| && s <= |g| && 0 <= g[p] < |b| && Falls(b, g[p]) && b[g[p]] == ss
  {
    hide Falls, Ranking, BigLo, BigHi;
  }

  lemma SidesRight(b: seq<Byte>, g: seq<int>, ss: nat, s: int, e: int, p: int)
    requires Sides(b, g, ss, s, e) && e + 1 <= p < BigHi(b, ss)
    ensures b != [] && |g| == |b| && 0 <= p && 0 <= g[p] < |b| && Rises(b, g[p]) && b[g[p]] == ss
  {
    hide Rises, Ranking, BigLo, BigHi;
  }

  /** The left part of a filling bucket: rotations whose next one falls. */
  lemma LeftMember(b: seq<Byte>, g: seq<int>, ss: nat, c: nat, s: int, e: int, i: int, j: int, s0: int, e0: int, p: int)
    requires Filling(b, g, ss, c, s, e, i, j) && Sides(b, g, ss, s0, e0) && i <= s0 && Lo(b, c, ss) <= p < s
    ensures |g| == |b| && 0 <= p < |g| && 0 <= g[p] < |b| && b[g[p]] == c && PairAt(b, g[p]) == Pair(c, ss) && Falls(b, After(g[p], |b|))
  {
    hide Falls, Ranking, Listed, After, Sides, Lo, Hi, BigLo, BigHi;
    ListedBounds(b, g, Lo(b, c, ss), s);
    ListedAt(b, g, Lo(b, c, ss), s, p);
    var q := FindIn(g, BigLo(b, ss), i, After(g[p], |b|));
    SidesLeft(b, g, ss, s0, e0, q);
  }

  lemma RightMember(b: seq<Byte>, g: seq<int>, ss: nat, c: nat, s: int, e: int, i: int, j: int, s0: int, e0: int, p: int)
    requires Filling(b, g, ss, c, s, e, i, j) && Sides(b, g, ss, s0, e0) && e0 + 1 <= j && e + 1 <= p < Hi(b, c, ss)
    ensures |g| == |b| && 0 <= p < |g| && 0 <= g[p] < |b| && b[g[p]] == c && PairAt(b, g[p]) == Pair(c, ss) && Rises(b, After(g[p], |b|))
  {
    hide Rises, Ranking, Listed, After, Sides, Lo, Hi, BigLo, BigHi;
    ListedBounds(b, g, e + 1, Hi(b, c, ss));
    ListedAt(b, g, e + 1, Hi(b, c, ss), p);
    var q := FindIn(g, j, BigHi(b, ss), After(g[p], |b|));
    SidesRight(b, g, ss, s0, e0, q);
  }

  lemma FallsNotRises(b: seq<Byte>, x: int, y: int)
    requires Falls(b, x) && Rises(b, y)
    ensures x != y
  {
  }

  /** The rotations placed so far: the left part and then the right part. */
  ghost function PlacedIn(b: seq<Byte>, g: seq<int>, ss: nat, c: nat, s: int, e: int): (r: seq<int>)
    requires |g| == |b| && Lo(b, c, ss) <= s <= |g| && 0 <= e + 1 <= Hi(b, c, ss)
    ensures |r| == (s - Lo(b, c, ss)) + (Hi(b, c, ss) - (e + 1))
    ensures forall t :: 0 <= t < s - Lo(b, c, ss) ==> r[t] == g[Lo(b, c, ss) + t]
    ensures forall t :: s - Lo(b, c, ss) <= t < |r| ==> r[t] == g[e + 1 + t - (s - Lo(b, c, ss))]
  {
    g[Lo(b, c, ss)..s] + g[e + 1..Hi(b, c, ss)]
  }

  lemma FillingBounds(b: seq<Byte>, g: seq<int>, ss: nat, c: nat, s: int, e: int, i: int, j: int)
    requires Filling(b, g, ss, c, s, e, i, j)
    ensures b != [] && |g| == |b| && Lo(b, c, ss) <= s <= |g| && 0 <= e + 1 <= Hi(b, c, ss)
    ensures BigLo(b, ss) <= i <= |g| && 0 <= j <= BigHi(b, ss)
  {
    hide Ranking, Lo, Hi, BigLo, BigHi;
  }

  /** They are all different, and all belong there. */
  lemma PlacedDiffer(b: seq<Byte>, g: seq<int>, ss: nat, c: nat, s: int, e: int, i: int, j: int, s0: int, e0: int)
    requires Filling(b, g, ss, c, s, e, i, j) && Sides(b, g, ss, s0, e0) && i <= s0 && e0 + 1 <= j
    ensures |g| == |b| && Lo(b, c, ss) <= s <= |g| && 0 <= e + 1 <= Hi(b, c, ss)
    ensures var xs := PlacedIn(b, g, ss, c, s, e);
            NoRepeats(xs) && forall t :: 0 <= t < |xs| ==> 0 <= xs[t] < |b| && PairAt(b, xs[t]) == Pair(c, ss)
  {
    FillingBounds(b, g, ss, c, s, e, i, j);
    hide *;
    var xs := PlacedIn(b, g, ss, c, s, e);
    forall t | 0 <= t < |xs| ensures 0 <= xs[t] < |b| && PairAt(b, xs[t]) == Pair(c, ss) {
      PlacedMember(b, g, ss, c, s, e, i, j, s0, e0, t);
    }
    forall t, u | 0 <= t < u < |xs| ensures xs[t] != xs[u] {
      PlacedPair(b, g, ss, c, s, e, i, j, s0, e0, t, u);
    }
    AllDiffer(xs);
  }

  lemma AllDiffer(xs: seq<int>)
    requires forall t, u :: 0 <= t < u < |xs| ==> xs[t] != xs[u]
    ensures NoRepeats(xs)
  {
  }

  lemma PlacedMember(b: seq<Byte>, g: seq<int>, ss: nat, c: nat, s: int, e: int, i: int, j: int, s0: int, e0: int, t: nat)
    requires Filling(b, g, ss, c, s, e, i, j) && Sides(b, g, ss, s0, e0) && i <= s0 && e0 + 1 <= j
    requires |g| == |b| && Lo(b, c, ss) <= s <= |g| && 0 <= e + 1 <= Hi(b, c, ss) && t < |PlacedIn(b, g, ss, c, s, e)|
    ensures var x := PlacedIn(b, g, ss, c, s, e)[t];
            0 <= x < |b| && PairAt(b, x) == Pair(c, ss)
            && (if t < s - Lo(b, c, ss) then Falls(b, After(x, |b|)) else Rises(b, After(x, |b|)))
  {
    hide Filling, Sides, Falls, Rises, Lo, Hi, PairAt, After;
    var m := s - Lo(b, c, ss);
    if t < m {
      LeftMember(b, g, ss, c, s, e, i, j, s0, e0, Lo(b, c, ss) + t);
    } else {
      RightMember(b, g, ss, c, s, e, i, j, s0, e0, e + 1 + t - m);
    }
  }

  lemma PlacedPair(b: seq<Byte>, g: seq<int>, ss: nat, c: nat, s: int, e: int, i: int, j: int, s0: int, e0: int, t: nat, u: nat)
    requires Filling(b, g, ss, c, s, e, i, j) && Sides(b, g, ss, s0, e0) && i <= s0 && e0 + 1 <= j
    requires |g| == |b| && Lo(b, c, ss) <= s <= |g| && 0 <= e + 1 <= Hi(b, c, ss) && t < u < |PlacedIn(b, g, ss, c, s, e)|
    ensures PlacedIn(b, g, ss, c, s, e)[t] != PlacedIn(b, g, ss, c, s, e)[u]
  {
    hide Column, Sides, Falls, Rises, Lo, Hi, BigLo, BigHi, PairAt, After;
    var lo, m := Lo(b, c, ss), s - Lo(b, c, ss);
    var xs := PlacedIn(b, g, ss, c, s, e);
    if u < m {
      ColumnPair(b, g, lo, s, c, BigLo(b, ss), i, lo + t, lo + u);
    } else if t >= m {
      ColumnPair(b, g, e + 1, Hi(b, c, ss), c, j, BigHi(b, ss), e + 1 + t - m, e + 1 + u - m);
    } else {
      PlacedMember(b, g, ss, c, s, e, i, j, s0, e0, t);
      PlacedMember(b, g, ss, c, s, e, i, j, s0, e0, u);
      FallsNotRises(b, After(xs[t], |b|), After(xs[u], |b|));
    }
  }

  lemma ColumnPair(b: seq<Byte>, g: seq<int>, lo: int, hi: int, c: int, a: int, z: int, p: int, q: int)
    requires Column(b, g, lo, hi, c, a, z) && lo <= p < q < hi
    ensures 0 <= p < q < |g| && g[p] != g[q]
  {
    hide Ranking;
  }

  /** There is room left for the predecessor of what the left scan reads. */
  lemma RoomLeft(b: seq<Byte>, f: seq<int>, g: seq<int>, ss: nat, c: nat, s: int, e: int, i: int, j: int, s0: int, e0: int)
    requires Bucketed(b, f) && Filling(b, g, ss, c, s, e, i, j) && Sides(b, g, ss, s0, e0) && i < s0 && e0 + 1 <= j
    requires 0 <= i < |g| && 0 <= g[i] < |b| && b[Before(g[i], |b|)] == c
    ensures s <= e
  {
    hide Falls, Rises, Ranking, Listed, Before, After, Sides, Lo, Hi, BigLo, BigHi, PairAt, Bucketed, Column, First;
    FillingBounds(b, g, ss, c, s, e, i, j);
    PlacedDiffer(b, g, ss, c, s, e, i, j, s0, e0);
    SidesLeft(b, g, ss, s0, e0, i);
    BeforeAfter(g[i], |b|);
    var k, xs, m := Before(g[i], |b|), PlacedIn(b, g, ss, c, s, e), s - Lo(b, c, ss);
    SidesListed(b, g, ss, s0, e0, BigLo(b, ss), i + 1, true);
    forall t | 0 <= t < |xs| ensures xs[t] != k {
      if t < m {
        NextInOrder(b, g, Lo(b, c, ss), s, c, BigLo(b, ss), i, Lo(b, c, ss) + t);
      } else {
        RightMember(b, g, ss, c, s, e, i, j, s0, e0, e + 1 + t - m);
        FallsNotRises(b, g[i], After(xs[t], |b|));
      }
    }
    PairOf(b, k);
    NoRepeatsMore(xs, k);
    BucketRoom(b, f, Pair(c, ss), xs + [k]);
    Width(b, c, ss);
  }

  lemma SidesListed(b: seq<Byte>, g: seq<int>, ss: nat, s0: int, e0: int, l: int, h: int, left: bool)
    requires Sides(b, g, ss, s0, e0) && l <= h
    requires if left then BigLo(b, ss) <= l && h <= s0 else e0 + 1 <= l && h <= BigHi(b, ss)
    ensures Listed(b, g, l, h)
  {
    hide Falls, Rises, Listed, BigLo, BigHi;
    if left { ListedPart(b, g, BigLo(b, ss), s0, l, h); } else { ListedPart(b, g, e0 + 1, BigHi(b, ss), l, h); }
  }

  lemma PairOf(b: seq<Byte>, k: nat)
    requires k < |b|
    ensures PairAt(b, k) == Pair(b[k], b[After(k, |b|)])
  {
  }

  lemma NoRepeatsMore(xs: seq<int>, k: int)
    requires NoRepeats(xs) && forall t :: 0 <= t < |xs| ==> xs[t] != k
    ensures NoRepeats(xs + [k])
  {
  }

  lemma Width(b: seq<Byte>, c: nat, ss: nat)
    ensures First(b, Pair(c, ss) + 1) - First(b, Pair(c, ss)) == Hi(b, c, ss) - Lo(b, c, ss)
  {
  }

  lemma RoomRight(b: seq<Byte>, f: seq<int>, g: seq<int>, ss: nat, c: nat, s: int, e: int, i: int, j: int, s0: int, e0: int)
    requires Bucketed(b, f) && Filling(b, g, ss, c, s, e, i, j) && Sides(b, g, ss, s0, e0) && i <= s0 && e0 + 1 < j
    requires 0 < j <= |g| && 0 <= g[j - 1] < |b| && b[Before(g[j - 1], |b|)] == c
    ensures s <= e
  {
    hide Falls, Rises, Ranking, Listed, Before, After, Sides, Lo, Hi, BigLo, BigHi, PairAt, Bucketed, Column, First;
    FillingBounds(b, g, ss, c, s, e, i, j);
    PlacedDiffer(b, g, ss, c, s, e, i, j, s0, e0);
    SidesRight(b, g, ss, s0, e0, j - 1);
    BeforeAfter(g[j - 1], |b|);
    var k, xs, m := Before(g[j - 1], |b|), PlacedIn(b, g, ss, c, s, e), s - Lo(b, c, ss);
    SidesListed(b, g, ss, s0, e0, j - 1, BigHi(b, ss), false);
    forall t | 0 <= t < |xs| ensures xs[t] != k {
      if t < m {
        LeftMember(b, g, ss, c, s, e, i, j, s0, e0, Lo(b, c, ss) + t);
        FallsNotRises(b, After(xs[t], |b|), g[j - 1]);
      } else {
        LastInOrder(b, g, e + 1, Hi(b, c, ss), c, j, BigHi(b, ss), e + 1 + t - m);
      }
    }
    PairOf(b, k);
    NoRepeatsMore(xs, k);
    BucketRoom(b, f, Pair(c, ss), xs + [k]);
    Width(b, c, ss);
  }
}

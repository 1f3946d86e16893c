/** The start of mainSort (blocksort.c): the two-byte frequency table, the overshoot area, and the radix
    sort that puts every rotation into the bucket of its first two bytes. */
module MainRadix {
  import opened Basics
  import opened Permutations
  import opened Rotations
  import opened Ranks
  import opened MainCompare

  function Pair(c: nat, d: nat): (r: nat) { 256 * c + d }

  /** The first two bytes of rotation i, as a number. */
  function PairAt(b: seq<Byte>, i: nat): (r: nat)
    requires i < |b|
    ensures r < 0x1_0000
  {
    Pair(b[i], b[After(i, |b|)])
  }

  function Pairs(b: seq<Byte>): (r: seq<nat>)
    ensures |r| == |b| && forall i :: 0 <= i < |b| ==> r[i] == PairAt(b, i)
  {
    seq(|b|, i requires 0 <= i < |b| => PairAt(b, i))
  }

  /** The position where small bucket s begins. */
  ghost function First(b: seq<Byte>, s: nat): (r: nat)
    ensures r <= |b|
  {
    Below(Pairs(b), s)
  }

  lemma FirstMono(b: seq<Byte>, s: nat, t: nat)
    requires s <= t
    ensures First(b, s) <= First(b, t)
  {
    BelowMono(Pairs(b), s, t);
  }

  lemma FirstEnds(b: seq<Byte>)
    ensures First(b, 0) == 0 && First(b, 0x1_0000) == |b|
  {
    BelowAll(Pairs(b), 0x1_0000);
  }

  /** Position p lies in the small bucket of rotation x. */
  ghost predicate InBucket(b: seq<Byte>, p: int, x: int) {
    0 <= x < |b| && First(b, PairAt(b, x)) <= p < First(b, PairAt(b, x) + 1)
  }

  /** The rotations stand in order of their first two bytes. */
  ghost predicate Bucketed(b: seq<Byte>, f: seq<int>) {
    Injective(f, |b|) && forall p :: 0 <= p < |b| ==> InBucket(b, p, f[p])
  }

  /** The position names the bucket. */
  lemma BucketNames(b: seq<Byte>, p: int, x: int, s: nat)
    requires InBucket(b, p, x)
    ensures First(b, s) <= p < First(b, s + 1) <==> s == PairAt(b, x)
  {
    hide First;
    var t := PairAt(b, x);
    if t < s { FirstMono(b, t + 1, s); }
    if s < t { FirstMono(b, s + 1, t); }
  }

  // --- The frequency table ---

  /** (j >> 8) | (c << 8). */
  function Shifted(c: Byte, j: nat): (r: nat)
    requires j < 0x1_0000
    ensures r == Pair(c, j / 256)
  {
    ShiftOr(c, j);
    Or(Shl(c, 8), Shr(j, 8))
  }

  lemma ShiftOr(c: Byte, j: nat)
    requires j < 0x1_0000
    ensures Or(Shl(c, 8), Shr(j, 8)) == Pair(c, j / 256)
  {
    assert j == Shl(j / 256, 8) + j % 256 && Pow2(8) == 256 by { Shl8(j / 256); Shl8(1); }
    ShrShl(j / 256, 8, j % 256);
    OrDisjoint(c, 8, j / 256);
    Shl8(c);
  }

  /** After byte i the running pair is the pair of rotation i. */
  lemma PairNext(b: seq<Byte>, i: nat, j: nat)
    requires i < |b| && j < 0x1_0000 && j / 256 == b[After(i, |b|)]
    ensures Pair(b[i], j / 256) == Pairs(b)[i] == PairAt(b, i) && PairAt(b, i) / 256 == b[i]
  {
  }

  /** The counts, then their running totals: entry s ends up just past small bucket s. */
  method Totals(ftab: array<nat>, block: array<Byte>, quadrant: array<nat>, n: nat)
    requires ftab.Length == 0x1_0001 && 0 < n <= block.Length && n <= quadrant.Length && ftab != quadrant
    requires block as object != ftab && block as object != quadrant
    modifies ftab, quadrant
    ensures ftab[0x1_0000] == n && forall s: nat :: s < 0x1_0000 ==> ftab[s] == First(block[..n], s + 1)
    ensures forall i :: 0 <= i < n ==> quadrant[i] == 0
  {
    hide Below, Count, Shifted, PairAt, Pairs;
    ghost var b, k := block[..n], Pairs(block[..n]);
    forall i | 0 <= i < 0x1_0001 { ftab[i] := 0; }
    var j: nat := Pair(block[0], 0);
    assert k[..n] == k;
    for i := n downto 0
      invariant j < 0x1_0000 && j / 256 == (if i == n then b[0] else b[i])
      invariant ftab[0x1_0000] == 0
      invariant forall s: nat :: s < 0x1_0000 ==> ftab[s] + Count(k[..i], s) == Count(k, s)
      invariant forall m :: i <= m < n ==> quadrant[m] == 0
    {
      quadrant[i] := 0;
      PairNext(b, i, j);
      j := Shifted(block[i], j);
      forall s: nat ensures Count(k[..i + 1], s) == Count(k[..i], s) + (if k[i] == s then 1 else 0) {
        CountNext(k, i, s);
      }
      ftab[j] := ftab[j] + 1;
    }
    NoCounts(k);
    FirstEnds(b);
    BelowNext(k, 0);
    for i := 1 to 0x1_0001
      invariant forall s: nat :: s < i && s < 0x1_0000 ==> ftab[s] == First(b, s + 1)
      invariant i == 0x1_0001 ==> ftab[0x1_0000] == n
      invariant forall s: nat :: i <= s < 0x1_0000 ==> ftab[s] == Count(k, s)
      invariant i <= 0x1_0000 ==> ftab[0x1_0000] == 0
      invariant forall m :: 0 <= m < n ==> quadrant[m] == 0
    {
      BelowNext(k, i);
      ftab[i] := ftab[i] + ftab[i - 1];
    }
    assert block[..n] == b;
  }

  lemma NoCounts(k: seq<nat>)
    ensures forall c: int :: Count(k[..0], c) == 0
  {
  }

  /** Each small bucket is filled from its end, the last rotation first. */
  method Place(ptr: array<Word>, ftab: array<nat>, block: array<Byte>, n: nat)
    requires ftab.Length == 0x1_0001 && 0 < n <= block.Length && n <= ptr.Length && n < 0x1_0000_0000
    requires ftab[0x1_0000] == n && forall s: nat :: s < 0x1_0000 ==> ftab[s] == First(block[..n], s + 1)
    modifies ptr, ftab
    ensures Bucketed(block[..n], ptr[..n])
    ensures forall s: nat :: s <= 0x1_0000 ==> ftab[s] == First(block[..n], s)
  {
    hide *;
    ghost var b, k := block[..n], Pairs(block[..n]);
    var s: nat := 256 * block[0] as nat;
    PlaceEnds(b);
    for i := n downto 0
      invariant s < 0x1_0000 && s / 256 == (if i == n then b[0] else b[i])
      invariant ftab[0x1_0000] == n
      invariant forall t: nat :: t < 0x1_0000 ==> ftab[t] == Below(k, t) + Count(k[..i], t)
      invariant forall m :: i <= m < n ==> 0 <= Rank(k, m) < n && ptr[Rank(k, m)] == m
    {
      PlaceStep(b, i, s);
      s := Shifted(block[i], s);
      var j := ftab[s] - 1;
      ftab[s] := j;
      ptr[j] := i;
    }
    PlacedBuckets(b, ptr[..n]);
  }

  /** Where the filling starts and where it ends up. */
  lemma PlaceEnds(b: seq<Byte>)
    ensures |Pairs(b)| == |b| && First(b, 0x1_0000) == |b|
    ensures forall t: nat :: t < 0x1_0000 ==> First(b, t + 1) == Below(Pairs(b), t) + Count(Pairs(b)[..|b|], t)
    ensures forall t: nat :: t < 0x1_0000 ==> First(b, t) == Below(Pairs(b), t) + Count(Pairs(b)[..0], t)
  {
    hide Below, Count, PairAt, Pairs;
    var k := Pairs(b);
    assert k[..|b|] == k;
    forall t: nat ensures Below(k, t + 1) == Below(k, t) + Count(k, t) { BelowNext(k, t); }
    NoCounts(k);
    FirstEnds(b);
  }

  /** One pointer: its pair, its place, and that no later pointer has that place. */
  lemma PlaceStep(b: seq<Byte>, i: nat, s: nat)
    requires i < |b| && s < 0x1_0000 && s / 256 == b[if i + 1 == |b| then 0 else i + 1]
    ensures var k := Pairs(b);
            && |k| == |b| && Shifted(b[i], s) == k[i] < 0x1_0000 && k[i] / 256 == b[i]
            && Rank(k, i) == Below(k, k[i]) + Count(k[..i], k[i]) < |b|
            && (forall t: nat :: Count(k[..i + 1], t) == Count(k[..i], t) + (if k[i] == t then 1 else 0))
            && forall m: nat :: i < m < |b| ==> Rank(k, m) != Rank(k, i)
  {
    hide Below, Count, PairAt, Pairs, Rank;
    var k := Pairs(b);
    PairNext(b, i, s);
    forall t: nat ensures Count(k[..i + 1], t) == Count(k[..i], t) + (if k[i] == t then 1 else 0) {
      CountNext(k, i, t);
    }
    RankRange(k, i);
    RankValue(k, i);
    forall m: nat | i < m < |b| ensures Rank(k, m) != Rank(k, i) { RanksDiffer(k, i, m); }
  }

  lemma RankValue(k: seq<nat>, i: nat)
    requires i < |k|
    ensures Rank(k, i) == Below(k, k[i]) + Count(k[..i], k[i])
  {
  }

  lemma RanksDiffer(k: seq<nat>, i: nat, m: nat)
    requires i < m < |k|
    ensures Rank(k, i) != Rank(k, m)
  {
    hide Rank;
    if Earlier(k, i, m) { RankOrder(k, i, m); } else { RankOrder(k, m, i); }
  }

  lemma PlacedBuckets(b: seq<Byte>, f: seq<int>)
    requires |f| == |b| && forall m :: 0 <= m < |b| ==> 0 <= Rank(Pairs(b), m) < |b| && f[Rank(Pairs(b), m)] == m
    ensures Bucketed(b, f)
  {
    hide Rank, Below, PairAt;
    var k := Pairs(b);
    RanksInjective(k);
    InverseFromOneSide(RankTable(k), f, |b|);
    forall p | 0 <= p < |b| ensures InBucket(b, p, f[p]) {
      assert RankTable(k)[f[p]] == p;
      RankRange(k, f[p]);
    }
  }

  /** The first 34 bytes once more, after the block. */
  method Overshoot(block: array<Byte>, quadrant: array<nat>, n: nat)
    requires 34 < n && n + 34 <= block.Length && n + 34 <= quadrant.Length
    requires forall i :: 0 <= i < n ==> quadrant[i] == 0
    modifies block, quadrant
    ensures block[..n] == old(block[..n]) && Mirrored(block[..], block[..n])
    ensures forall i :: 0 <= i < n + 34 ==> quadrant[i] == 0
  {
    ghost var b := block[..n];
    for i := 0 to 34
      invariant block[..n] == b && forall m :: 0 <= m < i ==> block[n + m] == b[m]
      invariant forall m :: 0 <= m < n + i ==> quadrant[m] == 0
    {
      block[n + i] := block[i];
      quadrant[n + i] := 0;
    }
    forall i: nat | i < n + 34 ensures block[..][i] == b[Wrap(i, n)] {
      if i >= n { assert block[n + (i - n)] == b[i - n]; } else { assert block[i] == block[..n][i]; }
    }
  }

  lemma ZeroQuadrants(q: seq<nat>, b: seq<Byte>)
    requires 34 < |b| && |b| + 34 <= |q| && forall i :: 0 <= i < |b| + 34 ==> q[i] == 0
    ensures Quadrants(q, b)
  {
  }
}

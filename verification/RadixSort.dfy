/** The first step of fallbackSort (blocksort.c): a one-byte radix sort that fills each bucket from its
    end, and the header bits it sets. */
module RadixSort {
  import opened Basics
  import opened Permutations
  import opened Rotations
  import opened Ranks
  import opened Depths
  import opened HeaderBits

  /** Where byte i goes: buckets in order, later bytes first. */
  function RevRank(b: seq<Byte>, i: nat): (r: int)
    requires i < |b|
  {
    Below(b, 1 + b[i] as int) - Count(b[..i], b[i]) - 1
  }

  function RevTable(b: seq<Byte>): (r: seq<int>)
    ensures |r| == |b| && forall i :: 0 <= i < |b| ==> r[i] == RevRank(b, i)
  {
    seq(|b|, i requires 0 <= i < |b| => RevRank(b, i))
  }

  lemma RevRange(b: seq<Byte>, i: nat)
    requires i < |b|
    ensures Below(b, b[i]) <= RevRank(b, i) < Below(b, 1 + b[i] as int) <= |b|
  {
    hide Below, Count;
    CountNext(b, i, b[i]);
    CountMono(b, i + 1, |b|, b[i]);
    assert b[..|b|] == b;
    BelowNext(b, b[i]);
  }

  lemma RevDistinct(b: seq<Byte>, i: nat, j: nat)
    requires i < j < |b|
    ensures RevRank(b, i) != RevRank(b, j)
  {
    hide Below, Count;
    RevRange(b, i);
    RevRange(b, j);
    var x: int, y: int := b[i], b[j];
    if x < y {
      BelowMono(b, x + 1, y);
    } else if y < x {
      BelowMono(b, y + 1, x);
    } else {
      CountNext(b, i, b[i]);
      CountMono(b, i + 1, j, b[i]);
    }
  }

  lemma RevInjective(b: seq<Byte>)
    ensures Injective(RevTable(b), |b|)
  {
    hide RevRank;
    forall i | 0 <= i < |b| ensures 0 <= RevRank(b, i) < |b| { RevRange(b, i); }
    forall i, j | 0 <= i < j < |b| ensures RevTable(b)[i] != RevTable(b)[j] { RevDistinct(b, i, j); }
  }

  /** The pointers the radix sort leaves. */
  ghost predicate Radixed(b: seq<Byte>, f: seq<int>) {
    |f| == |b| && forall i :: 0 <= i < |b| ==> 0 <= RevRank(b, i) < |b| && f[RevRank(b, i)] == i
  }

  lemma RadixPlaces(b: seq<Byte>, f: seq<int>)
    requires Radixed(b, f)
    ensures Injective(f, |b|)
    ensures forall p :: 0 <= p < |b| ==> RevRank(b, f[p]) == p
  {
    hide RevRank;
    RevInjective(b);
    InverseFromOneSide(RevTable(b), f, |b|);
    forall p | 0 <= p < |b| ensures RevRank(b, f[p]) == p {
      assert RevTable(b)[f[p]] == p;
    }
  }

  /** A position lies in the bucket of its byte. */
  lemma InBucketOf(b: seq<Byte>, f: seq<int>, p: nat)
    requires Radixed(b, f) && p < |b|
    ensures 0 <= f[p] < |b| && Below(b, b[f[p]]) <= p < Below(b, 1 + b[f[p]] as int)
  {
    hide RevRank, Below;
    RadixPlaces(b, f);
    RevRange(b, f[p]);
  }

  /** The result is in order by first bytes. */
  lemma RadixSorted(b: seq<Byte>, f: seq<int>)
    requires b != [] && Radixed(b, f)
    ensures Rotational(b, f) && SortedTo(b, f, 1)
  {
    hide Below, RevRank;
    RadixPlaces(b, f);
    forall p, q | 0 <= p < q < |f| ensures !Less(b, f[q], f[p], 1) {
      InBucketOf(b, f, p);
      InBucketOf(b, f, q);
      var x: int, y: int := b[f[p]], b[f[q]];
      if y < x { BelowMono(b, y + 1, x); }
      OneByte(b, f[q], f[p]);
    }
  }

  lemma OneByte(b: seq<Byte>, i: nat, j: nat)
    requires i < |b| && j < |b|
    ensures Less(b, i, j, 1) == (b[i] < b[j]) && Same(b, i, j, 1) == (b[i] == b[j])
  {
    assert Same(b, i, j, 0) && !Less(b, i, j, 0);
  }

  /** Some bucket begins at q. */
  ghost predicate BucketAt(b: seq<Byte>, q: int) {
    exists c: int :: 0 <= c < 256 && Below(b, c) == q
  }

  /** Bucket beginnings are exactly the headers of depth 1. */
  lemma RadixHead(b: seq<Byte>, f: seq<int>, q: nat)
    requires b != [] && Radixed(b, f) && q < |b| && Rotational(b, f)
    ensures BucketAt(b, q) == HeadAt(b, f, q, 1)
  {
    hide Below, RevRank, Same;
    InBucketOf(b, f, q);
    if q == 0 {
      NoneBelow(b);
    } else {
      InBucketOf(b, f, q - 1);
      OneByte(b, f[q - 1], f[q]);
      var x: int, y: int := b[f[q - 1]], b[f[q]];
      if BucketAt(b, q) {
        var c: int :| 0 <= c < 256 && Below(b, c) == q;
        if c <= x { BelowMono(b, c, x); }
        if c > y { BelowMono(b, y + 1, c); }
      }
      if x < y { BelowMono(b, x + 1, y); }
      if y < x { BelowMono(b, y + 1, x); }
    }
  }

  lemma NoneBelow(b: seq<Byte>)
    ensures Below(b, 0) == 0 && BucketAt(b, 0)
  {
  }

  /** The counting loops: ftab as running totals, ftabCopy as counts. */
  method Totals(ftab: array<int>, ftabCopy: array<int>, eclass8: array<Byte>, n: nat)
    requires ftab.Length == 257 && ftabCopy.Length == 256 && ftab != ftabCopy && n <= eclass8.Length
    modifies ftab, ftabCopy
    ensures forall c: int :: 0 <= c < 256 ==> ftab[c] == Below(eclass8[..n], c + 1) && ftabCopy[c] == Count(eclass8[..n], c)
  {
    hide Below, Count;
    ghost var b := eclass8[..n];
    forall i | 0 <= i < 257 { ftab[i] := 0; }
    NoCount(b);
    for i := 0 to n
      invariant ftab[256] == 0
      invariant forall c: int :: 0 <= c < 256 ==> ftab[c] == Count(b[..i], c)
    {
      forall c: int ensures Count(b[..i + 1], c) == Count(b[..i], c) + (if b[i] == c then 1 else 0) {
        CountNext(b, i, c);
      }
      ftab[eclass8[i]] := ftab[eclass8[i]] + 1;
    }
    assert b[..n] == b;
    forall i | 0 <= i < 256 { ftabCopy[i] := ftab[i]; }
    NoneBelow(b);
    BelowNext(b, 0);
    for i := 1 to 257
      invariant forall c: int :: 0 <= c < i && c < 256 ==> ftab[c] == Below(b, c + 1)
      invariant forall c: int :: i <= c < 256 ==> ftab[c] == Count(b, c)
      invariant forall c: int :: 0 <= c < 256 ==> ftabCopy[c] == Count(b, c)
    {
      if i < 256 { BelowNext(b, i); }
      ftab[i] := ftab[i] + ftab[i - 1];
    }
    assert eclass8[..n] == b;
  }

  lemma NoCount(b: seq<Byte>)
    ensures forall c: int :: Count(b[..0], c) == 0
  {
  }

  /** The placing loop: each bucket is filled from its end. */
  method Place(fmap: array<Word>, ftab: array<int>, eclass8: array<Byte>, n: nat)
    requires ftab.Length == 257 && n <= eclass8.Length && n <= fmap.Length && n < 0x1_0000_0000
    requires forall c: int :: 0 <= c < 256 ==> ftab[c] == Below(eclass8[..n], c + 1)
    modifies fmap, ftab
    ensures Radixed(eclass8[..n], fmap[..n])
    ensures forall c: int :: 0 <= c < 256 ==> ftab[c] == Below(eclass8[..n], c)
  {
    hide Below, Count;
    ghost var b := eclass8[..n];
    NoCount(b);
    for i := 0 to n
      invariant forall c: int :: 0 <= c < 256 ==> ftab[c] == Below(b, c + 1) - Count(b[..i], c)
      invariant forall j :: 0 <= j < i ==> 0 <= RevRank(b, j) < n && fmap[RevRank(b, j)] == j
    {
      forall c: int ensures Count(b[..i + 1], c) == Count(b[..i], c) + (if b[i] == c then 1 else 0) {
        CountNext(b, i, c);
      }
      RevRange(b, i);
      forall j: nat | j < i ensures RevRank(b, j) != RevRank(b, i) { RevDistinct(b, j, i); }
      var j := eclass8[i];
      var k := ftab[j] - 1;
      ftab[j] := k;
      fmap[k] := i;
    }
    assert b[..n] == b;
    forall c: int | 0 <= c < 256 ensures ftab[c] == Below(b, c) {
      BelowNext(b, c);
    }
  }

  // --- Header bits ---

  ghost function HeadsIn(bhtab: array<bv32>, n: nat): (hd: seq<bool>)
    requires HeaderBits.Covers(bhtab, n)
    reads bhtab
    ensures |hd| == n && forall q: nat :: q < n ==> q / 32 < bhtab.Length && hd[q] == IsSet(bhtab, q)
  {
    assert forall q: nat :: q < n ==> q / 32 < bhtab.Length;
    seq(n, q requires 0 <= q < n && q / 32 < bhtab.Length reads bhtab => IsSet(bhtab, q))
  }

  /** Clears the table's words, then sets a bit for every bucket beginning. */
  method SetBucketHeads(bhtab: array<bv32>, ftab: array<int>, n: nat, ghost b: seq<Byte>)
    requires ftab.Length == 257 && HeaderBits.Covers(bhtab, n + 63) && |b| == n && bhtab as object != ftab
    requires forall c: int :: 0 <= c < 256 ==> ftab[c] == Below(b, c)
    modifies bhtab
    ensures forall q: nat :: q < n ==> q / 32 < bhtab.Length && IsSet(bhtab, q) == BucketAt(b, q)
  {
    hide Below, HasBit;
    var nBhtab := 2 + n / 32;
    for i := 0 to nBhtab
      invariant forall k :: 0 <= k < i && k < bhtab.Length ==> bhtab[k] == 0
    {
      assert (n + 63) / 32 >= n / 32 + 1;
      bhtab[i] := 0;
    }
    ClearTable(bhtab, n);
    for i := 0 to 256
      invariant forall q: nat :: q < n ==> q / 32 < bhtab.Length && IsSet(bhtab, q) == exists c: int :: 0 <= c < i && Below(b, c) == q
    {
      BelowBound(b, i);
      assert ftab[i] == Below(b, i);
      CoverLess(bhtab, ftab[i], n + 63);
      SetBH(bhtab, ftab[i]);
    }
  }

  lemma BelowBound(b: seq<Byte>, c: int)
    ensures 0 <= Below(b, c) <= |b|
  {
  }

  lemma ClearTable(bhtab: array<bv32>, n: nat)
    requires HeaderBits.Covers(bhtab, n + 63) && forall k :: 0 <= k < 2 + n / 32 && k < bhtab.Length ==> bhtab[k] == 0
    ensures forall q: nat :: q < n ==> q / 32 < bhtab.Length && !IsSet(bhtab, q)
  {
    hide HasBit;
    forall q: nat | q < n ensures q / 32 < bhtab.Length && !IsSet(bhtab, q) {
      CoverLess(bhtab, q, n + 63);
      WholeWord(bhtab[q / 32], q % 32);
    }
  }

  /** The sentinel bits after the block; bits of the block stay. */
  method SetSentinels(bhtab: array<bv32>, n: nat)
    requires HeaderBits.Covers(bhtab, n + 63)
    modifies bhtab
    ensures Sentinel(bhtab, n)
    ensures forall q: nat :: q < n && q / 32 < bhtab.Length ==> IsSet(bhtab, q) == old(IsSet(bhtab, q))
  {
    hide HasBit;
    for i := 0 to 32
      invariant forall z: nat {:trigger IsSet(bhtab, z)} :: n <= z < n + 2 * i && z / 32 < bhtab.Length ==> IsSet(bhtab, z) == ((z - n) % 2 == 0)
      invariant forall q: nat :: q < n && q / 32 < bhtab.Length ==> IsSet(bhtab, q) == old(IsSet(bhtab, q))
    {
      CoverLess(bhtab, n + 2 * i, n + 63);
      CoverLess(bhtab, n + 2 * i + 1, n + 63);
      SetBH(bhtab, n + 2 * i);
      ClearBH(bhtab, n + 2 * i + 1);
    }
  }
}

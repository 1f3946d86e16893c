/** Step 2 of mainSort (blocksort.c): scanning big bucket ss from both ends sorts every small bucket [c, ss]. */
module MainScan {
  import opened Basics
  import opened Permutations
  import opened Rotations
  import Ranks
  import opened Shuffles
  import opened FallbackQSort
  import opened RotationRanks
  import opened MainCompare
  import opened MainRadix
  import opened Slopes
  import opened ScanColumns
  import opened ScanSteps
  import opened ScanInvariant
  import opened ScanResult

  /** What the scans have achieved: the buckets [c, ss] are in order, everything else is as it was. */
  ghost predicate Synthesised(b: seq<Byte>, f: seq<int>, g: seq<int>, done: seq<bool>, ss: nat) {
    && |done| == 256 && b != [] && |f| == |b| && Bucketed(b, g)
    && (forall c: nat :: c < 256 && !done[c] ==> SmallSorted(b, g, c, ss))
    && forall p :: 0 <= p < |b| && Outside(b, f[p], done, ss) ==> g[p] == f[p]
  }

  /** x does not belong to a bucket the scans of ss fill. */
  ghost predicate Outside(b: seq<Byte>, x: int, done: seq<bool>, ss: nat)
    requires |done| == 256
  {
    0 <= x < |b| && (b[After(x, |b|)] != ss || done[b[x]])
  }

  // --- When no rotation equals the next ---

  /** Every place holds a rotation of its bucket. */
  lemma FilledPlace(b: seq<Byte>, f: seq<int>, g: seq<int>, done: seq<bool>, ss: nat, cs: seq<int>, ce: seq<int>, p: int)
    requires Finished(b, f, g, done, ss, cs, ce) && Sloped(b, ss) && 0 <= p < |b|
    ensures |f| == |g| == |b| && |done| == 256 && InBucket(b, p, g[p]) && 0 <= f[p] < |b| && PairAt(b, g[p]) == PairAt(b, f[p])
    ensures Outside(b, f[p], done, ss) ==> g[p] == f[p]
  {
    var i, j := cs[ss], ce[ss] + 1;
    ScanShape(b, f, g, done, ss, cs, ce, i, j);
    assert InBucket(b, p, f[p]);
    var c := b[f[p]];
    OwnBucket(b, p, f[p]);
    ScanKept(b, f, g, done, ss, cs, ce, i, j, p);
    hide Bucketed, Sides, PairAt, Scans, Falls, Rises, BigLo, BigHi, After, Filling, Between, Sloped, Lo, Hi, InBucket;
    if b[After(f[p], |b|)] == ss && !done[c] {
      EndsMeet(b, f, g, done, ss, cs, ce, c);
      ScanBucket(b, f, g, done, ss, cs, ce, i, j, c);
      if p < cs[c] { LeftMember(b, g, ss, c, cs[c], ce[c], i, j, cs[ss], ce[ss], p); }
      else { RightMember(b, g, ss, c, cs[c], ce[c], i, j, cs[ss], ce[ss], p); }
      SameBucket(b, p, f[p], g[p]);
    }
  }

  lemma SameBucket(b: seq<Byte>, p: int, x: int, y: int)
    requires InBucket(b, p, x) && 0 <= y < |b| && PairAt(b, y) == PairAt(b, x)
    ensures InBucket(b, p, y)
  {
    hide First, PairAt;
  }

  /** Two places of a filled bucket: different rotations, in order. */
  lemma FilledPair(b: seq<Byte>, f: seq<int>, g: seq<int>, done: seq<bool>, ss: nat, cs: seq<int>, ce: seq<int>, c: nat, p: int, q: int)
    requires Finished(b, f, g, done, ss, cs, ce) && Sloped(b, ss) && c < 256 && !done[c] && Lo(b, c, ss) <= p < q < Hi(b, c, ss)
    ensures 0 <= p < q < |g| && 0 <= g[p] < |b| && 0 <= g[q] < |b| && g[p] != g[q] && Ranking(b)[g[p]] <= Ranking(b)[g[q]]
  {
    var i, j := cs[ss], ce[ss] + 1;
    ScanShape(b, f, g, done, ss, cs, ce, i, j);
    ScanBucket(b, f, g, done, ss, cs, ce, i, j, c);
    hide Bucketed, Sides, PairAt, Scans, Falls, Rises, Lo, Hi, BigLo, BigHi, After, Between, Sloped, Listed, Ranking;
    EndsMeet(b, f, g, done, ss, cs, ce, c);
    if q < cs[c] {
      ListedPair(b, g, Lo(b, c, ss), cs[c], p, q);
    } else if ce[c] + 1 <= p {
      ListedPair(b, g, ce[c] + 1, Hi(b, c, ss), p, q);
    } else {
      AcrossPair(b, g, ss, c, cs[c], ce[c], i, j, cs[ss], ce[ss], p, q);
    }
  }

  lemma AcrossPair(b: seq<Byte>, g: seq<int>, ss: nat, c: nat, s: int, e: int, i: int, j: int, s0: int, e0: int, p: int, q: int)
    requires Filling(b, g, ss, c, s, e, i, j) && Sides(b, g, ss, s0, e0) && i <= s0 && e0 + 1 <= j
    requires Lo(b, c, ss) <= p < s && e + 1 <= q < Hi(b, c, ss)
    ensures 0 <= p < |g| && 0 <= q < |g| && 0 <= g[p] < |b| && 0 <= g[q] < |b| && g[p] != g[q] && Ranking(b)[g[p]] <= Ranking(b)[g[q]]
  {
    LeftMember(b, g, ss, c, s, e, i, j, s0, e0, p);
    RightMember(b, g, ss, c, s, e, i, j, s0, e0, q);
    PairOf(b, g[p]);
    PairOf(b, g[q]);
    hide Sides, PairAt, Falls, Rises, Lo, Hi, Filling, After, Ranking;
    FallsBeforeRises(b, After(g[p], |b|), After(g[q], |b|));
    FirstByteAfter(b, g[p], g[q]);
  }

  lemma SlopedResult(b: seq<Byte>, f: seq<int>, g: seq<int>, done: seq<bool>, ss: nat, cs: seq<int>, ce: seq<int>)
    requires Finished(b, f, g, done, ss, cs, ce) && Sloped(b, ss)
    ensures Synthesised(b, f, g, done, ss)
  {
    ScanShape(b, f, g, done, ss, cs, ce, cs[ss], ce[ss] + 1);
    hide Sides, PairAt, Scans, Falls, Rises, BigLo, BigHi, After, Filling, Between, Sloped, InBucket, Outside, Ranking;
    forall p | 0 <= p < |b| ensures InBucket(b, p, g[p]) && 0 <= g[p] < |b| && (Outside(b, f[p], done, ss) ==> g[p] == f[p]) {
      FilledPlace(b, f, g, done, ss, cs, ce, p);
      BucketedIn(b, p, g[p]);
    }
    forall p, q | 0 <= p < q < |b| ensures g[p] != g[q] {
      PlacesDiffer(b, f, g, done, ss, cs, ce, p, q);
    }
    forall c: nat | c < 256 && !done[c] ensures SmallSorted(b, g, c, ss) {
      hide Lo, Hi;
      BucketBounds(b, c, ss);
      forall p, q | Lo(b, c, ss) <= p < q < Hi(b, c, ss) ensures 0 <= g[p] < |b| && 0 <= g[q] < |b| && Ranking(b)[g[p]] <= Ranking(b)[g[q]] {
        FilledPair(b, f, g, done, ss, cs, ce, c, p, q);
      }
    }
  }

  lemma BucketedIn(b: seq<Byte>, p: int, x: int)
    requires InBucket(b, p, x)
    ensures 0 <= x < |b|
  {
  }

  lemma BucketBounds(b: seq<Byte>, c: nat, d: nat)
    ensures 0 <= Lo(b, c, d) <= Hi(b, c, d) <= |b|
  {
    FirstMono(b, Pair(c, d), Pair(c, d) + 1);
  }

  lemma PlacesDiffer(b: seq<Byte>, f: seq<int>, g: seq<int>, done: seq<bool>, ss: nat, cs: seq<int>, ce: seq<int>, p: int, q: int)
    requires Finished(b, f, g, done, ss, cs, ce) && Sloped(b, ss) && 0 <= p < q < |b| && |f| == |g| == |b|
    ensures g[p] != g[q]
  {
    ScanShape(b, f, g, done, ss, cs, ce, cs[ss], ce[ss] + 1);
    FilledPlace(b, f, g, done, ss, cs, ce, p);
    FilledPlace(b, f, g, done, ss, cs, ce, q);
    PairsInOrder(b, f, p, q);
    PairOf(b, f[p]);
    PairOf(b, f[q]);
    hide Sides, PairAt, Scans, Falls, Rises, BigLo, BigHi, After, Filling, Between, Sloped, InBucket, Lo, Hi, Ranking, Bucketed;
    if g[p] == g[q] && b[After(f[p], |b|)] == ss && !done[b[f[p]]] {
      FilledPair(b, f, g, done, ss, cs, ce, b[f[p]], p, q);
    }
  }

  // --- A block of one byte ---

  /** Nothing rises or falls, so the scans have not moved anything. */
  lemma LevelBucket(b: seq<Byte>, f: seq<int>, g: seq<int>, done: seq<bool>, ss: nat, cs: seq<int>, ce: seq<int>, c: nat)
    requires Finished(b, f, g, done, ss, cs, ce) && Constant(b) && c < 256 && !done[c]
    ensures cs[c] == Lo(b, c, ss) && ce[c] + 1 == Hi(b, c, ss)
  {
    var i, j := cs[ss], ce[ss] + 1;
    ScanShape(b, f, g, done, ss, cs, ce, i, j);
    ScanBucket(b, f, g, done, ss, cs, ce, i, j, c);
    BetweenBounds(b, ss, c, cs[c], ce[c]);
    hide Bucketed, Sides, PairAt, Scans, Falls, Rises, Lo, Hi, BigLo, BigHi, After, Filling, Between, Constant;
    if Lo(b, c, ss) < cs[c] {
      LeftMember(b, g, ss, c, cs[c], ce[c], i, j, cs[ss], ce[ss], Lo(b, c, ss));
      ConstantRanks(b, After(g[Lo(b, c, ss)], |b|), 0);
    }
    if ce[c] + 1 < Hi(b, c, ss) {
      RightMember(b, g, ss, c, cs[c], ce[c], i, j, cs[ss], ce[ss], ce[c] + 1);
      ConstantRanks(b, After(g[ce[c] + 1], |b|), 0);
    }
  }

  lemma LevelResult(b: seq<Byte>, f: seq<int>, g: seq<int>, done: seq<bool>, ss: nat, cs: seq<int>, ce: seq<int>)
    requires Finished(b, f, g, done, ss, cs, ce) && Constant(b)
    ensures Synthesised(b, f, g, done, ss)
  {
    ScanShape(b, f, g, done, ss, cs, ce, cs[ss], ce[ss] + 1);
    hide Sides, PairAt, Scans, BigLo, BigHi, Filling, Between, InBucket, Ranking, Constant, Untouched;
    forall p | 0 <= p < |b| ensures g[p] == f[p] { LevelPlace(b, f, g, done, ss, cs, ce, p); }
    assert g == f;
    forall c: nat | c < 256 && !done[c] ensures SmallSorted(b, g, c, ss) {
      hide Lo, Hi;
      BucketBounds(b, c, ss);
      forall p, q | Lo(b, c, ss) <= p < q < Hi(b, c, ss) ensures 0 <= g[p] < |b| && 0 <= g[q] < |b| && Ranking(b)[g[p]] <= Ranking(b)[g[q]] {
        ConstantRanks(b, g[p], g[q]);
      }
    }
  }

  lemma LevelPlace(b: seq<Byte>, f: seq<int>, g: seq<int>, done: seq<bool>, ss: nat, cs: seq<int>, ce: seq<int>, p: int)
    requires Finished(b, f, g, done, ss, cs, ce) && Constant(b) && 0 <= p < |b|
    ensures |f| == |g| == |b| && g[p] == f[p]
  {
    ScanShape(b, f, g, done, ss, cs, ce, cs[ss], ce[ss] + 1);
    ScanKept(b, f, g, done, ss, cs, ce, cs[ss], ce[ss] + 1, p);
    assert InBucket(b, p, f[p]);
    PairOf(b, f[p]);
    hide Sides, PairAt, Scans, BigLo, BigHi, Filling, Between, Constant, First, Bucketed;
    if !done[b[f[p]]] { LevelBucket(b, f, g, done, ss, cs, ce, b[f[p]]); }
  }

  /** The scans' result, and assertion 1007: the scans meet, or the block is one byte repeated. */
  lemma ScansEnd(b: seq<Byte>, f: seq<int>, g: seq<int>, done: seq<bool>, ss: nat, cs: seq<int>, ce: seq<int>)
    requires Finished(b, f, g, done, ss, cs, ce)
    ensures Synthesised(b, f, g, done, ss)
    ensures cs[ss] - 1 == ce[ss] || (cs[ss] == 0 && ce[ss] == |b| - 1)
  {
    ScanShape(b, f, g, done, ss, cs, ce, cs[ss], ce[ss] + 1);
    hide Scans, Sides, Bucketed, Synthesised, Lo, Hi, BigLo, BigHi, Falls, Rises, Constant;
    if Sloped(b, ss) {
      hide Sloped;
      SlopedResult(b, f, g, done, ss, cs, ce);
      EndsMeet(b, f, g, done, ss, cs, ce, ss);
    } else {
      var x: nat :| x < |b| && b[x] == ss && !(Falls(b, x) || Rises(b, x));
      LevelIsConstant(b, x);
      LevelResult(b, f, g, done, ss, cs, ce);
      LevelBucket(b, f, g, done, ss, cs, ce, ss);
      OneBucket(b, ss, x);
    }
  }

  /** In such a block all rotations stand in one small bucket. */
  lemma OneBucket(b: seq<Byte>, ss: nat, x: nat)
    requires Constant(b) && x < |b| && b[x] == ss
    ensures Lo(b, ss, ss) == 0 && Hi(b, ss, ss) == |b|
  {
    hide Constant;
    forall i | 0 <= i < |b| ensures PairAt(b, i) == Pair(ss, ss) {
      ConstantRanks(b, i, x);
      ConstantRanks(b, After(i, |b|), x);
    }
    NoneBelowPair(Pairs(b), Pair(ss, ss));
    Ranks.BelowAll(Pairs(b), Pair(ss, ss) + 1);
  }

  lemma {:induction false} NoneBelowPair(k: seq<nat>, s: nat)
    requires forall i :: 0 <= i < |k| ==> k[i] >= s
    ensures Ranks.Below(k, s) == 0
  {
    if k != [] { NoneBelowPair(k[..|k| - 1], s); }
  }

  // --- ftab, whose bit 21 marks the sorted small buckets ---

  const SETMASK: nat := 0x20_0000

  predicate Marked(x: nat) { x / SETMASK % 2 == 1 }

  /** x & CLEARMASK. */
  function Clear(x: nat): (r: nat) { if Marked(x) then x - SETMASK else x }

  /** x | SETMASK. */
  function Mark(x: nat): (r: nat) { if Marked(x) then x else x + SETMASK }

  lemma MarkOnly(x: nat)
    ensures Marked(Mark(x)) && Clear(Mark(x)) == Clear(x) && !Marked(Clear(x))
  {
  }

  /** ftab gives the beginning of every small bucket, marked or not. */
  ghost predicate Tabled(t: seq<nat>, b: seq<Byte>) {
    |t| == 0x1_0001 && forall s: nat :: s <= 0x1_0000 ==> Clear(t[s]) == First(b, s)
  }

  lemma TableAt(t: seq<nat>, b: seq<Byte>, c: nat, d: nat)
    requires Tabled(t, b) && c < 256 && d < 256
    ensures |t| == 0x1_0001 && Clear(t[Pair(c, d)]) == Lo(b, c, d) && Clear(t[Pair(c, d) + 1]) == Hi(b, c, d)
    ensures Clear(t[Pair(c, 0)]) == BigLo(b, c) && Clear(t[Pair(c + 1, 0)]) == BigHi(b, c)
  {
    hide First, Clear;
  }

  /** copyStart and copyEnd. */
  method CopyRange(ftab: array<nat>, ss: nat, ghost b: seq<Byte>) returns (copyStart: array<int>, copyEnd: array<int>)
    requires Tabled(ftab[..], b) && ss < 256
    ensures fresh(copyStart) && fresh(copyEnd) && copyStart != copyEnd && copyStart.Length == 256 == copyEnd.Length
    ensures forall c: nat :: c < 256 ==> copyStart[c] == Lo(b, c, ss) && copyEnd[c] == Hi(b, c, ss) - 1
  {
    hide Tabled, Clear, Lo, Hi, Pair;
    ghost var t := ftab[..];
    TableAt(t, b, 0, 0);
    copyStart, copyEnd := new int[256], new int[256];
    for j := 0 to 256
      invariant ftab[..] == t
      invariant forall c: nat :: c < j ==> copyStart[c] == Lo(b, c, ss) && copyEnd[c] == Hi(b, c, ss) - 1
    {
      TableAt(t, b, j, ss);
      PairRange(j, ss);
      assert ftab[..][Pair(j, ss)] == ftab[Pair(j, ss)] && ftab[..][Pair(j, ss) + 1] == ftab[Pair(j, ss) + 1];
      copyStart[j] := Clear(ftab[Pair(j, ss)]);
      copyEnd[j] := Clear(ftab[Pair(j, ss) + 1]) - 1;
    }
  }

  lemma PairRange(c: nat, d: nat)
    requires c < 256 && d < 256
    ensures Pair(c, d) < 0x1_0000 && Pair(c, 0) < 0x1_0000 && Pair(c + 1, 0) <= 0x1_0000
  {
  }

  /** The predecessor, cyclically, as the scans compute it. */
  method Predecessor(x: Word, n: nat) returns (k: Word)
    requires x < n < 0x1_0000_0000
    ensures k == Before(x, n)
  {
    var i := x - 1;
    if i < 0 { i := i + n; }
    k := i;
  }

  /** The scan of big bucket ss from the left, filling copyStart upwards. */
  method ScanLeft(ptr: array<Word>, block: array<Byte>, bigDone: array<bool>, copyStart: array<int>, ss: nat, n: nat, from: nat,
                  ghost b: seq<Byte>, ghost f: seq<int>, ghost ce: seq<int>)
    requires Mirrored(block[..], b) && n == |b| <= ptr.Length && n < 0x1_0000_0000 && bigDone.Length == 256 == copyStart.Length && ss < 256
    requires ptr as object != copyStart && from == BigLo(b, ss)
    requires Scans(b, f, ptr[..n], bigDone[..], ss, copyStart[..], ce, from, BigHi(b, ss))
    modifies ptr, copyStart
    ensures Scans(b, f, ptr[..n], bigDone[..], ss, copyStart[..], ce, copyStart[ss], BigHi(b, ss))
  {
    hide Lo, Hi, Scans, Bucketed, Mirrored, Before, BigLo, BigHi;
    ghost var bl, done, z := block[..], bigDone[..], BigHi(b, ss);
    var j := from;
    ScanShape(b, f, ptr[..n], done, ss, copyStart[..], ce, j, z);
    while j < copyStart[ss]
      invariant block[..] == bl && bigDone[..] == done
      invariant Scans(b, f, ptr[..n], done, ss, copyStart[..], ce, j, z) && j <= copyStart[ss]
      decreases n - j
    {
      ghost var g, cs := ptr[..n], copyStart[..];
      SkipLeft(b, f, g, done, ss, cs, ce, j, z);
      var k := Predecessor(ptr[j], n);
      BlockAt(bl, b, k);
      var c1 := block[k];
      if !bigDone[c1] {
        PutLeft(b, f, g, done, ss, cs, ce, j, z, k, c1);
        ptr[copyStart[c1]] := k;
        copyStart[c1] := copyStart[c1] + 1;
        assert ptr[..n] == g[cs[c1] := k];
        assert copyStart[..] == cs[c1 as int := cs[c1] + 1];
      }
      j := j + 1;
      ScanShape(b, f, ptr[..n], done, ss, copyStart[..], ce, j, z);
    }
  }

  /** The scan from the right, filling copyEnd downwards. */
  method ScanRight(ptr: array<Word>, block: array<Byte>, bigDone: array<bool>, copyEnd: array<int>, ss: nat, n: nat, from: int,
                   ghost b: seq<Byte>, ghost f: seq<int>, ghost cs: seq<int>)
    requires Mirrored(block[..], b) && n == |b| <= ptr.Length && n < 0x1_0000_0000 && bigDone.Length == 256 == copyEnd.Length && ss < 256
    requires ptr as object != copyEnd && |cs| == 256 && from + 1 == BigHi(b, ss)
    requires Scans(b, f, ptr[..n], bigDone[..], ss, cs, copyEnd[..], cs[ss], from + 1)
    modifies ptr, copyEnd
    ensures Scans(b, f, ptr[..n], bigDone[..], ss, cs, copyEnd[..], cs[ss], copyEnd[ss] + 1)
  {
    hide Lo, Hi, Scans, Bucketed, Mirrored, Before, BigLo, BigHi;
    ghost var bl, done, i := block[..], bigDone[..], cs[ss];
    var j := from;
    ScanShape(b, f, ptr[..n], done, ss, cs, copyEnd[..], i, j + 1);
    while j > copyEnd[ss]
      invariant block[..] == bl && bigDone[..] == done
      invariant Scans(b, f, ptr[..n], done, ss, cs, copyEnd[..], i, j + 1) && j >= copyEnd[ss]
      decreases j + 1
    {
      ghost var g, ce := ptr[..n], copyEnd[..];
      SkipRight(b, f, g, done, ss, cs, ce, i, j + 1);
      var k := Predecessor(ptr[j], n);
      BlockAt(bl, b, k);
      var c1 := block[k];
      if !bigDone[c1] {
        PutRight(b, f, g, done, ss, cs, ce, i, j + 1, k, c1);
        ptr[copyEnd[c1]] := k;
        copyEnd[c1] := copyEnd[c1] - 1;
        assert ptr[..n] == g[ce[c1] := k];
        assert copyEnd[..] == ce[c1 as int := ce[c1] - 1];
      }
      j := j - 1;
      ScanShape(b, f, ptr[..n], done, ss, cs, copyEnd[..], i, j + 1);
    }
  }

  /** Step 2, with assertion 1007. */
  method Scan(ptr: array<Word>, block: array<Byte>, ftab: array<nat>, bigDone: array<bool>, ss: nat, n: nat, ghost b: seq<Byte>)
    requires Mirrored(block[..], b) && Tabled(ftab[..], b) && n == |b| <= ptr.Length && n < 0x1_0000_0000
    requires bigDone.Length == 256 && ss < 256 && !bigDone[ss] && Bucketed(b, ptr[..n])
    requires forall d: nat :: d < 256 && d != ss ==> SmallSorted(b, ptr[..n], ss, d)
    modifies ptr
    ensures Synthesised(b, old(ptr[..n]), ptr[..n], bigDone[..], ss)
  {
    hide Tabled, Clear, Lo, Hi, Pair, Scans, Bucketed, SmallSorted, Mirrored, Synthesised, BigLo, BigHi;
    ghost var f, bl, t, done := ptr[..n], block[..], ftab[..], bigDone[..];
    MirrorSize(bl, b);
    TableAt(t, b, ss, ss);
    PairRange(ss, 0);
    var from: nat, to: int := Clear(ftab[Pair(ss, 0)]), Clear(ftab[Pair(ss + 1, 0)]) - 1;
    var copyStart, copyEnd := CopyRange(ftab, ss, b);
    ScansStart(b, f, done, ss, copyStart[..], copyEnd[..]);
    ghost var ce := copyEnd[..];
    ScanLeft(ptr, block, bigDone, copyStart, ss, n, from, b, f, ce);
    assert copyEnd[..] == ce && bigDone[..] == done && block[..] == bl;
    ScanRight(ptr, block, bigDone, copyEnd, ss, n, to, b, f, copyStart[..]);
    assert bigDone[..] == done;
    ScansEnd(b, f, ptr[..n], done, ss, copyStart[..], copyEnd[..]);
    assert copyStart[ss] - 1 == copyEnd[ss] || (copyStart[ss] == 0 && copyEnd[ss] == n - 1);
  }

  lemma BlockAt(block: seq<Byte>, b: seq<Byte>, k: nat)
    requires Mirrored(block, b) && k < |b|
    ensures k < |block| && block[k] == b[k]
  {
  }
}

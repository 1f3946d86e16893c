/** mainQSort3 (blocksort.c): three-way string quicksort with an explicit stack. */
module MainQSort {
  import opened Basics
  import opened Permutations
  import opened Rotations
  import opened Shuffles
  import opened FallbackQSort
  import opened FallbackStack
  import opened Depths
  import opened RotationRanks
  import opened MainCompare

  // --- Partition by the byte at depth d ---

  /** The byte d after each rotation's start. */
  ghost function Keys(b: seq<Byte>, d: nat): (e: seq<int>)
    requires b != []
    ensures |e| == |b| && forall x :: 0 <= x < |b| ==> e[x] == At(b, x + d)
  {
    seq(|b|, x requires 0 <= x < |b| => At(b, x + d))
  }

  lemma WrapAt(b: seq<Byte>, i: nat)
    requires i < 2 * |b|
    ensures b[Wrap(i, |b|)] == At(b, i)
  {
  }

  method Key(ptr: array<Word>, block: array<Byte>, k: nat, d: nat, ghost b: seq<Byte>) returns (c: Byte)
    requires k < ptr.Length && Mirrored(block[..], b) && ptr[k] < |b| && d <= 15
    ensures c == Keys(b, d)[ptr[k]]
  {
    hide At;
    WrapAt(b, ptr[k] + d);
    c := block[ptr[k] + d];
  }

  method ScanUp(ptr: array<Word>, block: array<Byte>, d: nat, med: int, lo: nat, hi: int, ltLo0: nat, unLo0: nat, unHi: int, gtHi: int, ghost b: seq<Byte>)
    returns (ltLo: nat, unLo: nat)
    requires Mirrored(block[..], b) && d <= 15 && Parting(ptr[..], Keys(b, d), med, lo, hi, ltLo0, unLo0, unHi, gtHi)
    modifies ptr
    ensures Shuffled(old(ptr[..]), ptr[..], lo, hi) && unLo >= unLo0
    ensures Parting(ptr[..], Keys(b, d), med, lo, hi, ltLo, unLo, unHi, gtHi)
    ensures unLo <= unHi ==> Above(ptr[..], Keys(b, d), unLo, med)
  {
    hide Shuffled, Parting, Swapped, Mirrored;
    MirrorSize(block[..], b);
    ghost var f, e := ptr[..], Keys(b, d);
    PartingBounds(f, e, med, lo, hi, ltLo0, unLo0, unHi, gtHi);
    ShuffleNothing(f, lo, hi);
    ltLo, unLo := ltLo0, unLo0;
    while unLo <= unHi
      invariant unLo >= unLo0
      invariant Shuffled(f, ptr[..], lo, hi) && Parting(ptr[..], e, med, lo, hi, ltLo, unLo, unHi, gtHi)
    {
      PassUp(ptr[..], e, med, lo, hi, ltLo, unLo, unHi, gtHi);
      PartingBounds(ptr[..], e, med, lo, hi, ltLo, unLo, unHi, gtHi);
      var c := Key(ptr, block, unLo, d, b);
      var n := c - med;
      if n == 0 {
        EqualUp(ptr[..], e, med, lo, hi, ltLo, unLo, unHi, gtHi);
        ShuffleAgain(f, ptr[..], Swapped(ptr[..], unLo, ltLo), lo, hi);
        Swap(ptr, unLo, ltLo);
        ltLo := ltLo + 1;
        unLo := unLo + 1;
        continue;
      }
      if n > 0 { break; }
      unLo := unLo + 1;
    }
  }

  method ScanDown(ptr: array<Word>, block: array<Byte>, d: nat, med: int, lo: nat, hi: int, ltLo: nat, unLo: nat, unHi0: int, gtHi0: int, ghost b: seq<Byte>)
    returns (unHi: int, gtHi: int)
    requires Mirrored(block[..], b) && d <= 15 && Parting(ptr[..], Keys(b, d), med, lo, hi, ltLo, unLo, unHi0, gtHi0)
    requires unLo <= unHi0 ==> Above(ptr[..], Keys(b, d), unLo, med)
    modifies ptr
    ensures Shuffled(old(ptr[..]), ptr[..], lo, hi) && unHi <= unHi0
    ensures Parting(ptr[..], Keys(b, d), med, lo, hi, ltLo, unLo, unHi, gtHi)
    ensures unLo <= unHi ==> 0 <= unHi < ptr.Length && ptr[unHi] < |b| && Keys(b, d)[ptr[unHi]] < med && Above(ptr[..], Keys(b, d), unLo, med)
  {
    hide Shuffled, Parting, Swapped, Mirrored;
    MirrorSize(block[..], b);
    ghost var f, e := ptr[..], Keys(b, d);
    PartingBounds(f, e, med, lo, hi, ltLo, unLo, unHi0, gtHi0);
    ShuffleNothing(f, lo, hi);
    unHi, gtHi := unHi0, gtHi0;
    while unLo <= unHi
      invariant unHi <= unHi0
      invariant Shuffled(f, ptr[..], lo, hi) && Parting(ptr[..], e, med, lo, hi, ltLo, unLo, unHi, gtHi)
      invariant unLo <= unHi ==> Above(ptr[..], e, unLo, med)
    {
      PassUp(ptr[..], e, med, lo, hi, ltLo, unLo, unHi, gtHi);
      PartingBounds(ptr[..], e, med, lo, hi, ltLo, unLo, unHi, gtHi);
      var c := Key(ptr, block, unHi, d, b);
      var n := c - med;
      if n == 0 {
        EqualDown(ptr[..], e, med, lo, hi, ltLo, unLo, unHi, gtHi);
        ShuffleAgain(f, ptr[..], Swapped(ptr[..], unHi, gtHi), lo, hi);
        Swap(ptr, unHi, gtHi);
        gtHi := gtHi - 1;
        unHi := unHi - 1;
        continue;
      }
      if n < 0 { break; }
      unHi := unHi - 1;
    }
  }

  method Divide(ptr: array<Word>, block: array<Byte>, d: nat, med: int, lo: nat, hi: int, ghost b: seq<Byte>)
    returns (ltLo: nat, unLo: nat, unHi: int, gtHi: int)
    requires Mirrored(block[..], b) && d <= 15 && Classed(ptr[..], Keys(b, d), lo, hi)
    modifies ptr
    ensures Shuffled(old(ptr[..]), ptr[..], lo, hi)
    ensures Parting(ptr[..], Keys(b, d), med, lo, hi, ltLo, unLo, unHi, gtHi) && unHi == unLo - 1
  {
    hide Shuffled, Parting, Swapped, Mirrored;
    MirrorSize(block[..], b);
    ghost var f, e := ptr[..], Keys(b, d);
    ShuffleNothing(f, lo, hi);
    PartingStart(f, e, med, lo, hi);
    ltLo, unLo, unHi, gtHi := lo, lo, hi, hi;
    ghost var bl := block[..];
    while true
      invariant Shuffled(f, ptr[..], lo, hi) && block[..] == bl
      invariant Parting(ptr[..], e, med, lo, hi, ltLo, unLo, unHi, gtHi)
      decreases unHi - unLo + 1
    {
      PartingBounds(ptr[..], e, med, lo, hi, ltLo, unLo, unHi, gtHi);
      ghost var g := ptr[..];
      ltLo, unLo := ScanUp(ptr, block, d, med, lo, hi, ltLo, unLo, unHi, gtHi, b);
      ShuffleAgain(f, g, ptr[..], lo, hi);
      g := ptr[..];
      unHi, gtHi := ScanDown(ptr, block, d, med, lo, hi, ltLo, unLo, unHi, gtHi, b);
      ShuffleAgain(f, g, ptr[..], lo, hi);
      PartingBounds(ptr[..], e, med, lo, hi, ltLo, unLo, unHi, gtHi);
      if unLo > unHi { break; }
      SwapMiddle(ptr[..], e, med, lo, hi, ltLo, unLo, unHi, gtHi);
      ShuffleAgain(f, ptr[..], Swapped(ptr[..], unLo, unHi), lo, hi);
      Swap(ptr, unLo, unHi);
      unLo := unLo + 1;
      unHi := unHi - 1;
    }
  }

  /** One partition of lo..hi around a byte that occurs there. */
  method Partition(ptr: array<Word>, block: array<Byte>, d: nat, med: int, lo: nat, hi: int, ghost b: seq<Byte>) returns (n: int, m: int)
    requires Mirrored(block[..], b) && d <= 15 && lo <= hi && Classed(ptr[..], Keys(b, d), lo, hi)
    requires exists x :: lo <= x <= hi && Keys(b, d)[ptr[x]] == med
    modifies ptr
    ensures Shuffled(old(ptr[..]), ptr[..], lo, hi)
    ensures Parted(ptr[..], Keys(b, d), med, lo, hi, n, m) && n + 1 < m
  {
    hide Shuffled, Exchanged, Parting, Parted, Mirrored;
    MirrorSize(block[..], b);
    ghost var f, e := ptr[..], Keys(b, d);
    ghost var x :| lo <= x <= hi && e[f[x]] == med;
    var ltLo, unLo, unHi, gtHi := Divide(ptr, block, d, med, lo, hi, b);
    ghost var g := ptr[..];
    ghost var y := ShuffleTarget(f, g, lo, hi, x);
    PartingBounds(g, e, med, lo, hi, ltLo, unLo, unHi, gtHi);
    SomeEqual(g, e, med, lo, hi, ltLo, unLo, unHi, gtHi, y);
    if gtHi < ltLo { return lo - 1, hi + 1; }
    var k1 := if ltLo - lo < unLo - ltLo then ltLo - lo else unLo - ltLo;
    SwapRuns(ptr, lo, unLo - k1, k1, lo, hi);
    ghost var h := ptr[..];
    LeftDone(g, h, e, med, lo, hi, ltLo, unLo, unHi, gtHi, k1);
    ShuffleAgain(f, g, h, lo, hi);
    var k2 := if hi - gtHi < gtHi - unHi then hi - gtHi else gtHi - unHi;
    SwapRuns(ptr, unLo, hi - k2 + 1, k2, lo, hi);
    RightDone(h, ptr[..], e, med, lo, hi, lo + unLo - ltLo, unLo, gtHi, k2);
    ShuffleAgain(f, h, ptr[..], lo, hi);
    n, m := lo + unLo - ltLo - 1, hi - (gtHi - unHi) + 1;
  }

  /** mmed3: one of its three arguments. */
  function Median(a: Byte, b: Byte, c: Byte): (m: Byte)
    ensures m == a || m == b || m == c
  {
    var (x, y) := if a > b then (b, a) else (a, b);
    if y > c then (if x > c then x else c) else y
  }
}

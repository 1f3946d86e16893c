/** Rotations that come after, or before, the rotation one byte further on: what makes the pointer scans
    of mainSort (blocksort.c) find every rotation exactly once. */
module Slopes {
  import opened Basics
  import opened Permutations
  import opened Rotations
  import opened Depths
  import opened RotationRanks
  import opened MainRadix

  /** The next rotation comes strictly earlier. */
  ghost predicate Falls(b: seq<Byte>, x: int) {
    0 <= x < |b| && Ranking(b)[After(x, |b|)] < Ranking(b)[x]
  }

  /** The next rotation comes strictly later. */
  ghost predicate Rises(b: seq<Byte>, x: int) {
    0 <= x < |b| && Ranking(b)[x] < Ranking(b)[After(x, |b|)]
  }

  lemma AfterBefore(x: nat, n: nat)
    requires x < n
    ensures After(Before(x, n), n) == x && Before(After(x, n), n) == x && After(x, n) == Ahead(x, 1, n)
  {
  }

  /** What the first byte says about ranks, in terms of After. */
  lemma FirstByteAfter(b: seq<Byte>, x: nat, y: nat)
    requires x < |b| && y < |b|
    ensures b[x] < b[y] ==> Ranking(b)[x] < Ranking(b)[y]
    ensures Ranking(b)[x] <= Ranking(b)[y] ==> b[x] <= b[y]
    ensures b[x] == b[y] ==>
              ((Ranking(b)[x] <= Ranking(b)[y] <==> Ranking(b)[After(x, |b|)] <= Ranking(b)[After(y, |b|)])
               && (Ranking(b)[x] < Ranking(b)[y] <==> Ranking(b)[After(x, |b|)] < Ranking(b)[After(y, |b|)]))
  {
    hide Ranking;
    AfterBefore(x, |b|);
    AfterBefore(y, |b|);
    FirstByte(b, x, y);
  }

  /** Two bytes decide. */
  lemma PairDecides(b: seq<Byte>, x: nat, y: nat)
    requires x < |b| && y < |b|
    ensures PairAt(b, x) < PairAt(b, y) ==> Ranking(b)[x] < Ranking(b)[y]
  {
    hide Ranking;
    FirstByteAfter(b, x, y);
    FirstByteAfter(b, After(x, |b|), After(y, |b|));
  }

  lemma SlopeBytes(b: seq<Byte>, x: nat)
    requires x < |b|
    ensures Falls(b, x) ==> b[After(x, |b|)] <= b[x]
    ensures Rises(b, x) ==> b[x] <= b[After(x, |b|)]
    ensures b[After(x, |b|)] < b[x] ==> Falls(b, x)
    ensures b[x] < b[After(x, |b|)] ==> Rises(b, x)
  {
    hide Ranking;
    FirstByteAfter(b, x, After(x, |b|));
    FirstByteAfter(b, After(x, |b|), x);
  }

  /** Between equal bytes the slope is handed on. */
  lemma SlopeInherited(b: seq<Byte>, x: nat)
    requires x < |b| && b[x] == b[After(x, |b|)]
    ensures Falls(b, x) == Falls(b, After(x, |b|)) && Rises(b, x) == Rises(b, After(x, |b|))
  {
    hide Ranking;
    FirstByteAfter(b, x, After(x, |b|));
    FirstByteAfter(b, After(x, |b|), x);
  }

  /** Of rotations with one first byte, the falling ones come before the rising ones. */
  lemma {:induction false} FallsBeforeRises(b: seq<Byte>, x: nat, y: nat)
    requires x < |b| && y < |b| && b[x] == b[y] && Falls(b, x) && Rises(b, y)
    ensures Ranking(b)[x] < Ranking(b)[y]
    decreases Ranking(b)[x]
  {
    var n := |b|;
    FirstByteAfter(b, y, x);
    SlopeBytes(b, x);
    SlopeBytes(b, y);
    if Ranking(b)[y] <= Ranking(b)[x] {
      FirstByteAfter(b, After(y, n), After(x, n));
      SlopeInherited(b, x);
      SlopeInherited(b, y);
      FallsBeforeRises(b, After(x, n), After(y, n));
    }
  }

  // --- Blocks of one byte ---

  ghost predicate Constant(b: seq<Byte>) { forall i, j :: 0 <= i < j < |b| ==> b[i] == b[j] }

  /** Only in a constant block is a rotation equal to the next. */
  lemma LevelIsConstant(b: seq<Byte>, x: nat)
    requires x < |b| && !Falls(b, x) && !Rises(b, x)
    ensures Constant(b)
  {
    hide Ranking;
    var n := |b|;
    AfterBefore(x, n);
    RankOrder(b, x, After(x, n));
    AheadSame(b, x, x, 1, n);
    Wraps(b, x, x + 1, n);
    Wraps(b, x, Ahead(x, 1, n), n);
    assert Same(b, x, x + 1, n);
    forall i, j | 0 <= i < j < n ensures b[i] == b[j] {
      RunOf(b, x, n, i);
      RunOf(b, x, n, j);
    }
  }

  /** Agreeing with its own shift, a rotation repeats one byte. */
  lemma {:induction false} OneByteRun(b: seq<Byte>, x: nat, h: nat, k: nat)
    requires b != [] && Same(b, x, x + 1, h) && k <= h
    ensures At(b, x + k) == At(b, x)
    decreases h
  {
    if k == h && k > 0 {
      OneByteRun(b, x, h - 1, k - 1);
    } else if k < h {
      OneByteRun(b, x, h - 1, k);
    }
  }

  lemma RunOf(b: seq<Byte>, x: nat, h: nat, i: nat)
    requires x < |b| && Same(b, x, x + 1, |b|) && i < |b| && h == |b|
    ensures b[i] == b[x]
  {
    hide Same;
    OneByteRun(b, x, h, if i >= x then i - x else i + h - x);
    if i < x { AtWraps(b, i); }
  }

  /** There all rotations are equal. */
  lemma ConstantRanks(b: seq<Byte>, x: nat, y: nat)
    requires Constant(b) && x < |b| && y < |b|
    ensures Ranking(b)[x] == Ranking(b)[y] && !Falls(b, x) && !Rises(b, x) && b[x] == b[y]
  {
    hide Ranking, Same;
    ConstantSame(b, x, y, |b|);
    RankOrder(b, x, y);
    ConstantSame(b, x, After(x, |b|), |b|);
    RankOrder(b, x, After(x, |b|));
  }

  lemma {:induction false} ConstantSame(b: seq<Byte>, x: nat, y: nat, h: nat)
    requires b != [] && Constant(b)
    ensures Same(b, x, y, h)
  {
    if h > 0 {
      ConstantSame(b, x, y, h - 1);
      ConstantAt(b, x + h - 1);
      ConstantAt(b, y + h - 1);
    }
  }

  lemma {:induction false} ConstantAt(b: seq<Byte>, i: nat)
    requires b != [] && Constant(b)
    ensures At(b, i) == b[0]
    decreases i
  {
    if i >= |b| { ConstantAt(b, i - |b|); }
  }
}

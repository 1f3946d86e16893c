/** Step 3 of mainSort (blocksort.c): the quadrants of a finished big bucket record its order. */
module MainQuadrants {
  import opened Basics
  import opened Permutations
  import opened Rotations
  import opened RotationRanks
  import opened MainCompare

  // --- Shifts ---

  lemma {:induction false} ShrMore(x: nat, n: nat)
    ensures Shr(x, n + 1) == Shr(x, n) / 2
  {
    if n > 0 { ShrMore(x / 2, n - 1); }
  }

  lemma {:induction false} ShrMono(x: nat, y: nat, n: nat)
    requires x <= y
    ensures Shr(x, n) <= Shr(y, n)
  {
    if n > 0 { ShrMono(x / 2, y / 2, n - 1); }
  }

  /** The least shift that brings the bucket's size to 65534 or less. */
  method Shifts(bbSize: nat) returns (shifts: nat)
    ensures Shr(bbSize, shifts) <= 65534
    ensures shifts > 0 ==> Shr(bbSize, shifts - 1) > 65534
  {
    shifts := 0;
    while Shr(bbSize, shifts) > 65534
      invariant shifts > 0 ==> Shr(bbSize, shifts - 1) > 65534
      decreases Shr(bbSize, shifts)
    {
      ShrMore(bbSize, shifts);
      shifts := shifts + 1;
    }
  }

  // --- The update ---

  /** Positions from..from+size-1 hold the rotations with first byte c, in rank order. */
  ghost predicate BigSorted(b: seq<Byte>, g: seq<int>, c: nat, from: nat, size: nat) {
    && b != [] && |g| == |b| && from + size <= |b| && Injective(g, |b|)
    && (forall p :: 0 <= p < |b| ==> (from <= p < from + size <==> b[g[p]] == c))
    && forall p, q :: from <= p < q < from + size ==> Ranking(b)[g[p]] <= Ranking(b)[g[q]]
  }

  /** Quadrants updated for the places j..size-1 of the bucket. */
  ghost predicate Updated(b: seq<Byte>, g: seq<int>, q0: seq<nat>, q: seq<nat>, c: nat, from: nat, size: nat, shifts: nat, j: nat) {
    && |q| == |q0| && |b| + 34 <= |q| && 34 < |b| == |g| && from + size <= |b| && j <= size
    && (forall k :: from + j <= k < from + size ==> 0 <= g[k] < |b| && q[g[k]] == Shr(k - from, shifts))
    && (forall x :: 0 <= x < |b| && b[x] != c ==> q[x] == q0[x])
    && forall i: nat :: i < |b| + 34 ==> q[i] == q[Wrap(i, |b|)]
  }

  lemma UpdateStep(b: seq<Byte>, g: seq<int>, q0: seq<nat>, q: seq<nat>, c: nat, from: nat, size: nat, shifts: nat, j: nat, q': seq<nat>)
    requires Updated(b, g, q0, q, c, from, size, shifts, j + 1) && BigSorted(b, g, c, from, size)
    requires |q'| == |q| && 0 <= g[from + j] < |b|
    requires forall i: nat :: i < |q| ==> q'[i] == if i == g[from + j] || (g[from + j] < 34 && i == g[from + j] + |b|) then Shr(j, shifts) else q[i]
    ensures Updated(b, g, q0, q', c, from, size, shifts, j)
  {
    hide Ranking, Shr;
    var x := g[from + j];
    forall i: nat | i < |b| + 34 ensures q'[i] == q'[Wrap(i, |b|)] {
      assert q[i] == q[Wrap(i, |b|)];
    }
  }

  /** With the whole bucket updated, the quadrant invariant holds again. */
  lemma UpdateEnd(b: seq<Byte>, g: seq<int>, q0: seq<nat>, q: seq<nat>, c: nat, from: nat, size: nat, shifts: nat)
    requires Quadrants(q0, b) && Updated(b, g, q0, q, c, from, size, shifts, 0) && BigSorted(b, g, c, from, size)
    ensures Quadrants(q, b)
  {
    hide Ranking, Shr;
    forall i, j | 0 <= i < |b| && 0 <= j < |b| && b[i] == b[j] && q[i] < q[j] ensures Ranking(b)[i] <= Ranking(b)[j] {
      if b[i] == c {
        var p := PlaceIn(b, g, c, from, size, i);
        var r := PlaceIn(b, g, c, from, size, j);
        if r <= p { ShrMono(r - from, p - from, shifts); }
      }
    }
  }

  lemma PlaceIn(b: seq<Byte>, g: seq<int>, c: nat, from: nat, size: nat, x: nat) returns (p: int)
    requires BigSorted(b, g, c, from, size) && x < |b| && b[x] == c
    ensures 0 <= from <= p < from + size <= |g| && g[p] == x
  {
    hide Ranking, IsPermutation;
    InjectiveIsPermutation(g, |b|);
    PermutationFacts(g, |b|);
    assert x in g;
    p :| 0 <= p < |b| && g[p] == x;
  }

  /** The quadrant loop, with assertion 1002. */
  method UpdateQuadrants(ptr: array<Word>, quadrant: array<nat>, n: nat, bbStart: nat, bbSize: nat, ghost b: seq<Byte>, ghost c: nat)
    requires n == |b| <= ptr.Length && Quadrants(quadrant[..], b) && BigSorted(b, ptr[..n], c, bbStart, bbSize)
    requires quadrant as object != ptr
    modifies quadrant
    ensures Quadrants(quadrant[..], b)
  {
    hide Quadrants, Ranking, Injective, Shr;
    ghost var q0, g := quadrant[..], ptr[..n];
    var shifts := Shifts(bbSize);
    StartUpdate(b, g, q0, c, bbStart, bbSize, shifts);
    for j := bbSize downto 0
      invariant ptr[..n] == g && |quadrant[..]| == |q0| && Updated(b, g, q0, quadrant[..], c, bbStart, bbSize, shifts, j)
    {
      ghost var q := quadrant[..];
      InBig(b, g, c, bbStart, bbSize, bbStart + j);
      assert ptr[bbStart + j] == g[bbStart + j];
      var a2update := ptr[bbStart + j];
      ShrMono(j, bbSize, shifts);
      var qVal := Shr(j, shifts);
      assert qVal < 0x1_0000;
      quadrant[a2update] := qVal;
      if a2update < 34 { quadrant[a2update + n] := qVal; }
      UpdateStep(b, g, q0, q, c, bbStart, bbSize, shifts, j, quadrant[..]);
    }
    if bbSize > 0 {
      ShrMono(bbSize - 1, bbSize, shifts);
      assert Shr(bbSize - 1, shifts) <= 65535;
    }
    UpdateEnd(b, g, q0, quadrant[..], c, bbStart, bbSize, shifts);
  }

  lemma StartUpdate(b: seq<Byte>, g: seq<int>, q0: seq<nat>, c: nat, from: nat, size: nat, shifts: nat)
    requires Quadrants(q0, b) && BigSorted(b, g, c, from, size)
    ensures Updated(b, g, q0, q0, c, from, size, shifts, size)
  {
    hide Ranking;
  }

  lemma InBig(b: seq<Byte>, g: seq<int>, c: nat, from: nat, size: nat, p: nat)
    requires BigSorted(b, g, c, from, size) && from <= p < from + size
    ensures p < |g| == |b| && 0 <= g[p] < |b| && b[g[p]] == c
  {
    hide Ranking;
  }
}

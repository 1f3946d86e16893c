/** mainGtU and mainSimpleSort (blocksort.c): comparing two rotations with the help of what earlier
    buckets have shown, and the shell sort built on it. */
module MainCompare {
  import opened Basics
  import opened Permutations
  import opened Rotations
  import opened Shuffles
  import opened FallbackQSort
  import opened Depths
  import opened RotationRanks

  /** An index into the block with its overshoot area, as a rotation. */
  function Wrap(i: nat, n: nat): (r: nat)
    requires i < 2 * n
    ensures r < n
  {
    if i < n then i else i - n
  }

  /** The block, its first 34 bytes repeated after it. */
  ghost predicate Mirrored(block: seq<Byte>, b: seq<Byte>) {
    && 34 < |b| && |b| + 34 <= |block|
    && forall i: nat :: i < |b| + 34 ==> block[i] == b[Wrap(i, |b|)]
  }

  /** The quadrant invariant: where the bytes are equal, a smaller quadrant means a rotation that
      precedes or equals; the overshoot area repeats the first 34 entries. */
  ghost predicate Quadrants(q: seq<nat>, b: seq<Byte>) {
    && 34 < |b| && |b| + 34 <= |q|
    && (forall i, j :: 0 <= i < |b| && 0 <= j < |b| && b[i] == b[j] && q[i] < q[j] ==> Ranking(b)[i] <= Ranking(b)[j])
    && forall i: nat :: i < |b| + 34 ==> q[i] == q[Wrap(i, |b|)]
  }

  /** After m equal bytes the comparison of x and y has come down to that of u and v. */
  ghost predicate Tracks(b: seq<Byte>, x: nat, y: nat, u: nat, v: nat, m: nat)
    requires b != [] && x < |b| && y < |b| && u < |b| && v < |b|
  {
    var r := Ranking(b);
    && (r[x] <= r[y] <==> r[u] <= r[v]) && (r[y] <= r[x] <==> r[v] <= r[u])
    && (r[y] < r[x] ==> m < |b| && Less(b, v, u, |b| - m))
  }

  lemma TracksStart(b: seq<Byte>, x: nat, y: nat)
    requires x < |b| && y < |b|
    ensures Tracks(b, x, y, x, y, 0)
  {
    hide Less, Ranking;
    RankOrder(b, y, x);
  }

  lemma TracksNext(b: seq<Byte>, x: nat, y: nat, u: nat, v: nat, m: nat)
    requires x < |b| && y < |b| && u < |b| && v < |b| && 1 < |b| && Tracks(b, x, y, u, v, m) && b[u] == b[v]
    ensures Tracks(b, x, y, Ahead(u, 1, |b|), Ahead(v, 1, |b|), m + 1)
  {
    hide Ranking, Same;
    var n := |b|;
    FirstByte(b, u, v);
    FirstByte(b, v, u);
    if Ranking(b)[y] < Ranking(b)[x] {
      LessFurther(b, v, u, n - m - 1);
    }
  }

  lemma LessFurther(b: seq<Byte>, v: nat, u: nat, h: nat)
    requires u < |b| && v < |b| && 1 <= |b| && b[u] == b[v] && Less(b, v, u, h + 1)
    ensures h > 0 && Less(b, Ahead(v, 1, |b|), Ahead(u, 1, |b|), h)
  {
    Further(b, v, u, 1, h);
    assert Same(b, v, u, 0) && !Less(b, v, u, 0);
    assert !Less(b, v, u, 1);
    AheadSame(b, v, u, 1, h);
  }

  /** Where the bytes or the quadrants differ, the answer is known. */
  lemma Decided(b: seq<Byte>, q: seq<nat>, x: nat, y: nat, u: nat, v: nat, m: nat)
    requires x < |b| && y < |b| && u < |b| && v < |b| && Tracks(b, x, y, u, v, m)
    ensures b[u] > b[v] ==> Ranking(b)[x] >= Ranking(b)[y]
    ensures b[u] < b[v] ==> Ranking(b)[x] <= Ranking(b)[y]
    ensures Quadrants(q, b) && b[u] == b[v] && q[u] > q[v] ==> Ranking(b)[x] >= Ranking(b)[y]
    ensures Quadrants(q, b) && b[u] == b[v] && q[u] < q[v] ==> Ranking(b)[x] <= Ranking(b)[y]
    ensures m >= |b| ==> Ranking(b)[x] <= Ranking(b)[y]
  {
    hide Ranking;
    FirstByte(b, u, v);
    FirstByte(b, v, u);
  }

  /** mainGtU, for arguments up to 15 past the last rotation. No index it reads reaches nblock + 34. */
  method GtU(i1: nat, i2: nat, block: array<Byte>, quadrant: array<nat>, nblock: nat, budget: int, ghost b: seq<Byte>)
    returns (gt: bool, budget': int)
    requires Mirrored(block[..], b) && Quadrants(quadrant[..], b) && nblock == |b|
    requires i1 < nblock + 15 && i2 < nblock + 15
    ensures gt ==> Ranking(b)[Wrap(i1, nblock)] >= Ranking(b)[Wrap(i2, nblock)]
    ensures !gt ==> Ranking(b)[Wrap(i1, nblock)] <= Ranking(b)[Wrap(i2, nblock)]
    ensures budget' <= budget
  {
    hide *;
    ghost var z, q := block[..], quadrant[..];
    CompareSizes(z, q, b);
    ghost var x, y := Wrap(i1, nblock), Wrap(i2, nblock);
    Position(z, q, b, i1);
    Position(z, q, b, i2);
    budget' := budget;
    var j1: nat, j2: nat := i1, i2;
    TracksStart(b, x, y);
    for step := 0 to 12
      invariant j1 == i1 + step && j2 == i2 + step && Wrap(j1, nblock) < nblock && Wrap(j2, nblock) < nblock
      invariant Tracks(b, x, y, Wrap(j1, nblock), Wrap(j2, nblock), step)
    {
      Position(z, q, b, j1);
      Position(z, q, b, j2);
      Decided(b, q, x, y, Wrap(j1, nblock), Wrap(j2, nblock), step);
      var c1, c2 := block[j1], block[j2];
      if c1 != c2 { return c1 > c2, budget'; }
      TracksNext(b, x, y, Wrap(j1, nblock), Wrap(j2, nblock), step);
      j1, j2 := j1 + 1, j2 + 1;
    }
    var k: int := nblock + 8;
    ghost var m := 12;
    while true
      invariant j1 < nblock + 27 && j2 < nblock + 27 && k >= 0 && m == 12 + (nblock + 8 - k) && budget' <= budget
      invariant Wrap(j1, nblock) < nblock && Wrap(j2, nblock) < nblock
      invariant Tracks(b, x, y, Wrap(j1, nblock), Wrap(j2, nblock), m)
      decreases k
    {
      ghost var s1, s2 := j1, j2;
      for step := 0 to 8
        invariant j1 == s1 + step && j2 == s2 + step && Wrap(j1, nblock) < nblock && Wrap(j2, nblock) < nblock
        invariant Tracks(b, x, y, Wrap(j1, nblock), Wrap(j2, nblock), m + step)
      {
        Position(z, q, b, j1);
        Position(z, q, b, j2);
        Decided(b, q, x, y, Wrap(j1, nblock), Wrap(j2, nblock), m + step);
        var c1, c2 := block[j1], block[j2];
        if c1 != c2 { return c1 > c2, budget'; }
        var t1, t2 := quadrant[j1], quadrant[j2];
        if t1 != t2 { return t1 > t2, budget'; }
        TracksNext(b, x, y, Wrap(j1, nblock), Wrap(j2, nblock), m + step);
        j1, j2 := j1 + 1, j2 + 1;
      }
      m := m + 8;
      WrapAgain(j1, nblock);
      WrapAgain(j2, nblock);
      if j1 >= nblock { j1 := j1 - nblock; }
      if j2 >= nblock { j2 := j2 - nblock; }
      k := k - 8;
      budget' := budget' - 1;
      if !(k >= 0) { break; }
    }
    Decided(b, q, x, y, Wrap(j1, nblock), Wrap(j2, nblock), m);
    gt := false;
  }

  lemma CompareSizes(z: seq<Byte>, q: seq<nat>, b: seq<Byte>)
    requires Mirrored(z, b) && Quadrants(q, b)
    ensures 34 < |b| == |Ranking(b)| && |b| + 34 <= |z| && |b| + 34 <= |q|
  {
  }

  /** What is read at position i, and where the next position wraps to. */
  lemma Position(z: seq<Byte>, q: seq<nat>, b: seq<Byte>, i: nat)
    requires Mirrored(z, b) && Quadrants(q, b) && i < |b| + 34
    ensures var w := Wrap(i, |b|);
            w < |b| && i < |z| && i < |q| && w < |q| && z[i] == b[w] && q[i] == q[w]
            && Wrap(i + 1, |b|) == Ahead(w, 1, |b|) < |b|
  {
  }

  lemma WrapAgain(i: nat, n: nat)
    requires i < n + 35 && 34 < n
    ensures i >= n ==> Wrap(i, n) == Wrap(i - n, n)
  {
  }

  // --- mainSimpleSort ---

  /** What the comparisons need: the block, the quadrants, and pointers that agree on their first d bytes. */
  ghost predicate Comparable(b: seq<Byte>, f: seq<int>, lo: int, hi: int, d: nat) {
    && b != [] && d <= 15 && 34 < |b| && 0 <= lo <= hi + 1 <= |f|
    && (forall k :: lo <= k <= hi ==> 0 <= f[k] < |b|)
    && forall j, k :: lo <= j <= hi && lo <= k <= hi ==> Same(b, f[j], f[k], d)
  }

  lemma ComparableShuffle(b: seq<Byte>, f: seq<int>, g: seq<int>, lo: int, hi: int, d: nat)
    requires Comparable(b, f, lo, hi, d) && Shuffled(f, g, lo, hi)
    ensures Comparable(b, g, lo, hi, d)
  {
    hide Same, Shuffled;
    ShuffleBounds(f, g, lo, hi);
    forall k | lo <= k <= hi ensures 0 <= g[k] < |b| {
      var m := ShuffleSource(f, g, lo, hi, k);
    }
    forall j, k | lo <= j <= hi && lo <= k <= hi ensures Same(b, g[j], g[k], d) {
      var m := ShuffleSource(f, g, lo, hi, j);
      var o := ShuffleSource(f, g, lo, hi, k);
    }
  }

  /** Comparing two pointers d bytes on. */
  method PointerGtU(p1: Word, p2: Word, d: nat, block: array<Byte>, quadrant: array<nat>, nblock: nat, budget: int, ghost b: seq<Byte>)
    returns (gt: bool, budget': int)
    requires Mirrored(block[..], b) && Quadrants(quadrant[..], b) && nblock == |b|
    requires p1 < nblock && p2 < nblock && d <= 15 && Same(b, p1, p2, d)
    ensures gt ==> Ranking(b)[p1] >= Ranking(b)[p2]
    ensures !gt ==> Ranking(b)[p1] <= Ranking(b)[p2]
    ensures budget' <= budget
  {
    hide Same, Ranking, Quadrants, Mirrored;
    MirrorSize(block[..], b);
    SkipPrefix(b, p1, p2, d);
    Trichotomy(b, p1, p2, d);
    SkipPrefix(b, p2, p1, d);
    gt, budget' := GtU(p1 + d, p2 + d, block, quadrant, nblock, budget, b);
  }

  lemma MirrorSize(block: seq<Byte>, b: seq<Byte>)
    requires Mirrored(block, b)
    ensures 34 < |b| && |b| + 34 <= |block|
  {
  }

  /** What holds while pointer v sinks towards lo in steps of h: it would stand at j now. */
  ghost predicate Sinking(b: seq<Byte>, f: seq<int>, g: seq<int>, lo: int, hi: int, i: int, j: int, h: nat, d: nat)
    requires b != []
  {
    && Shuffled(f, g, lo, hi) && Comparable(b, g, lo, hi, d) && lo <= j <= i <= hi
    && (h == 1 && Ordered(f, Ranking(b), lo, i - 1) ==> SunkTo(g, Ranking(b), lo, i, j))
  }

  /** All but position j in order, and everything after j not below it. */
  ghost predicate SunkTo(g: seq<int>, r: seq<int>, lo: int, i: int, j: int) {
    && Classed(g, r, lo, i) && lo <= j <= i
    && (forall a, c :: lo <= a < c <= i && a != j && c != j ==> r[g[a]] <= r[g[c]])
    && (forall a :: j < a <= i ==> r[g[j]] <= r[g[a]])
  }

  lemma SinkStart(b: seq<Byte>, f: seq<int>, lo: int, hi: int, i: int, h: nat, d: nat)
    requires Comparable(b, f, lo, hi, d) && lo <= i <= hi
    ensures Sinking(b, f, f, lo, hi, i, i, h, d)
  {
    ShuffleNothing(f, lo, hi);
  }

  lemma SinkStep(b: seq<Byte>, f: seq<int>, g: seq<int>, lo: int, hi: int, i: int, j: int, h: nat, d: nat)
    requires b != [] && Sinking(b, f, g, lo, hi, i, j, h, d) && h >= 1 && lo <= j - h
    requires Ranking(b)[g[j - h]] >= Ranking(b)[g[j]]
    ensures Sinking(b, f, Swapped(g, j, j - h), lo, hi, i, j - h, h, d)
  {
    hide Same, Shuffled;
    ShuffleBounds(f, g, lo, hi);
    SwapShuffles(g, j, j - h, lo, hi);
    ShuffleAgain(f, g, Swapped(g, j, j - h), lo, hi);
    ComparableShuffle(b, g, Swapped(g, j, j - h), lo, hi, d);
    if h == 1 && Ordered(f, Ranking(b), lo, i - 1) { SunkFurther(g, Ranking(b), lo, i, j); }
  }

  lemma ShuffleBounds(f: seq<int>, g: seq<int>, lo: int, hi: int)
    requires Shuffled(f, g, lo, hi)
    ensures |f| == |g| && 0 <= lo <= hi + 1 <= |f|
  {
  }

  lemma SunkFurther(g: seq<int>, r: seq<int>, lo: int, i: int, j: int)
    requires SunkTo(g, r, lo, i, j) && lo < j && r[g[j - 1]] >= r[g[j]]
    ensures SunkTo(Swapped(g, j, j - 1), r, lo, i, j - 1)
  {
  }

  lemma SinkEnd(b: seq<Byte>, f: seq<int>, g: seq<int>, lo: int, hi: int, i: int, j: int, h: nat, d: nat)
    requires b != [] && Sinking(b, f, g, lo, hi, i, j, h, d) && h >= 1
    requires j - h < lo || Ranking(b)[g[j - h]] <= Ranking(b)[g[j]]
    ensures Shuffled(f, g, lo, hi) && Comparable(b, g, lo, hi, d)
    ensures h == 1 && Ordered(f, Ranking(b), lo, i - 1) ==> Ordered(g, Ranking(b), lo, i)
  {
    hide Same, Shuffled;
  }

  /** One insertion of a pass with increment h. */
  method Insert(ptr: array<Word>, block: array<Byte>, quadrant: array<nat>, nblock: nat, lo: nat, hi: nat, d: nat, i: nat, h: nat,
                budget: int, ghost b: seq<Byte>) returns (budget': int)
    requires Mirrored(block[..], b) && Quadrants(quadrant[..], b) && nblock == |b|
    requires Comparable(b, ptr[..], lo, hi, d) && h >= 1 && lo + h <= i <= hi && d <= 15
    modifies ptr
    ensures Shuffled(old(ptr[..]), ptr[..], lo, hi) && Comparable(b, ptr[..], lo, hi, d) && budget' <= budget
    ensures h == 1 && Ordered(old(ptr[..]), Ranking(b), lo, i - 1) ==> Ordered(ptr[..], Ranking(b), lo, i)
  {
    hide Sinking, Ranking, Comparable, Shuffled, Ordered, Mirrored, Quadrants;
    ghost var f := ptr[..];
    ComparableAt(b, f, lo, hi, d, i, i);
    budget' := budget;
    var v := ptr[i];
    var j := i;
    ghost var g: seq<int> := f;
    SinkStart(b, f, lo, hi, i, h, d);
    ghost var bl, qu := block[..], quadrant[..];
    while true
      invariant lo + h <= j <= i && g == ptr[..][j := v] && Sinking(b, f, g, lo, hi, i, j, h, d) && budget' <= budget
      invariant block[..] == bl && quadrant[..] == qu
      decreases j
    {
      SinkComparable(b, f, g, lo, hi, i, j, h, d);
      ComparableAt(b, g, lo, hi, d, j - h, j);
      assert g[j - h] == ptr[j - h];
      var gt;
      gt, budget' := PointerGtU(ptr[j - h], v, d, block, quadrant, nblock, budget', b);
      if !gt { break; }
      SinkStep(b, f, g, lo, hi, i, j, h, d);
      g := Swapped(g, j, j - h);
      ptr[j] := ptr[j - h];
      j := j - h;
      if j <= lo + h - 1 { break; }
    }
    SinkEnd(b, f, g, lo, hi, i, j, h, d);
    ptr[j] := v;
    assert ptr[..] == g;
  }

  lemma ComparableAt(b: seq<Byte>, f: seq<int>, lo: int, hi: int, d: nat, j: int, k: int)
    requires Comparable(b, f, lo, hi, d)
    ensures b != [] && 0 <= lo <= hi + 1 <= |f|
    ensures lo <= j <= hi && lo <= k <= hi ==> 0 <= f[j] < |b| && 0 <= f[k] < |b| && Same(b, f[j], f[k], d)
  {
  }

  lemma SinkComparable(b: seq<Byte>, f: seq<int>, g: seq<int>, lo: int, hi: int, i: int, j: int, h: nat, d: nat)
    requires b != [] && Sinking(b, f, g, lo, hi, i, j, h, d)
    ensures Comparable(b, g, lo, hi, d)
  {
  }

  /** Knuth's increments. */
  const INCS: seq<nat> := [1, 4, 13, 40, 121, 364, 1093, 3280, 9841, 29524, 88573, 265720, 797161, 2391484]

  /** mainSimpleSort: unless the budget runs out, the pointers end up in rank order. */
  method SimpleSort(ptr: array<Word>, block: array<Byte>, quadrant: array<nat>, nblock: nat, lo: nat, hi: int, d: nat,
                    budget: int, ghost b: seq<Byte>) returns (budget': int)
    requires Mirrored(block[..], b) && Quadrants(quadrant[..], b) && nblock == |b| <= 900000
    requires Comparable(b, ptr[..], lo, hi, d) && d <= 15 && hi - lo < 900000
    modifies ptr
    ensures Shuffled(old(ptr[..]), ptr[..], lo, hi) && Comparable(b, ptr[..], lo, hi, d) && budget' <= budget
    ensures budget' >= 0 ==> Ordered(ptr[..], Ranking(b), lo, hi)
  {
    hide Ranking, Comparable, Shuffled, Ordered, Mirrored, Quadrants;
    ghost var f, bl, qu := ptr[..], block[..], quadrant[..];
    ComparableAt(b, f, lo, hi, d, lo, lo);
    ShuffleNothing(f, lo, hi);
    budget' := budget;
    var bigN := hi - lo + 1;
    if bigN < 2 { FewOrdered(b, f, lo, hi, d); return; }
    var hp := 0;
    while INCS[hp] < bigN
      invariant 0 <= hp <= 13 && (hp > 0 ==> INCS[hp - 1] < bigN)
      decreases 14 - hp
    {
      hp := hp + 1;
    }
    hp := hp - 1;
    while hp >= 0
      invariant -1 <= hp <= 12 && Shuffled(f, ptr[..], lo, hi) && Comparable(b, ptr[..], lo, hi, d) && budget' <= budget
      invariant block[..] == bl && quadrant[..] == qu
      invariant hp == -1 ==> Ordered(ptr[..], Ranking(b), lo, hi)
    {
      var h := INCS[hp];
      IncrementFacts(hp);
      var i := lo + h;
      if h == 1 { FewOrdered(b, ptr[..], lo, lo, d); }
      ghost var g;
      var copy := 0;
      while i <= hi
        invariant Shuffled(f, ptr[..], lo, hi) && Comparable(b, ptr[..], lo, hi, d) && budget' <= budget
        invariant block[..] == bl && quadrant[..] == qu && lo + h <= i && (i <= hi + 1 || h > 1) && 0 <= copy < 3
        invariant h == 1 ==> Ordered(ptr[..], Ranking(b), lo, i - 1)
        decreases hi - i
      {
        g := ptr[..];
        budget' := Insert(ptr, block, quadrant, nblock, lo, hi, d, i, h, budget', b);
        ShuffleAgain(f, g, ptr[..], lo, hi);
        i := i + 1;
        copy := copy + 1;
        if copy == 3 {
          if budget' < 0 { return; }
          copy := 0;
        }
      }
      hp := hp - 1;
    }
  }

  lemma IncrementFacts(hp: int)
    requires 0 <= hp <= 13
    ensures INCS[hp] >= 1 && (INCS[hp] == 1 <==> hp == 0)
  {
  }

  lemma FewOrdered(b: seq<Byte>, f: seq<int>, lo: nat, hi: int, d: nat)
    requires exists top :: Comparable(b, f, lo, top, d) && hi <= top && lo <= hi + 1
    requires hi <= lo
    ensures b != [] && Ordered(f, Ranking(b), lo, hi)
  {
    hide Ranking, Same;
    RankingSize(b);
  }

  lemma RankingSize(b: seq<Byte>)
    ensures b != [] ==> |Ranking(b)| == |b|
  {
  }
}

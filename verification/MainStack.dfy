/** mainQSort3's explicit stack (blocksort.c): segments with the depth to which their rotations agree,
    the smallest on top. */
module MainStack {
  import opened Basics
  import opened Permutations
  import opened Rotations
  import opened Shuffles
  import opened FallbackQSort
  import opened FallbackStack
  import opened Depths
  import opened RotationRanks
  import opened MainCompare
  import opened MainQSort

  datatype Job = Job(lo: int, hi: int, d: nat)

  function SegOf(j: Job): Seg { Seg(j.lo, j.hi) }

  function Segs(st: seq<Job>): (r: seq<Seg>)
    ensures |r| == |st| && forall k :: 0 <= k < |st| ==> r[k] == SegOf(st[k])
  {
    seq(|st|, k requires 0 <= k < |st| => SegOf(st[k]))
  }

  // --- Splitting a segment into several ---

  /** The parts of segment s: inside it, disjoint, and between them everything is in order. */
  ghost predicate Parts(g: seq<int>, e: seq<int>, s: Seg, parts: seq<Seg>) {
    && Inside(parts, s.lo, s.hi) && Disjoint(parts)
    && forall p, q :: s.lo <= p < q <= s.hi ==> Settled(g, e, parts, p, q)
  }

  predicate Known(g: seq<int>, e: seq<int>, p: int) { 0 <= p < |g| && 0 <= g[p] < |e| }

  /** The entries at p and q are in order, or both in one part. */
  predicate Settled(g: seq<int>, e: seq<int>, parts: seq<Seg>, p: int, q: int) {
    Known(g, e, p) && Known(g, e, q) && (e[g[p]] <= e[g[q]] || Together(parts, p, q))
  }

  lemma SegmentSplit(f: seq<int>, g: seq<int>, e: seq<int>, st: seq<Seg>, s: Seg, parts: seq<Seg>, lo: int, hi: int)
    requires Pending(f, e, st + [s], lo, hi) && Shuffled(f, g, s.lo, s.hi) && Parts(g, e, s, parts)
    ensures Pending(g, e, st + parts, lo, hi)
  {
    hide Shuffled, Pending, Together;
    var next := st + parts;
    PendingParts(f, e, st, s, lo, hi);
    GivesClassed(f, g, e, st, s, lo, hi);
    forall i, j | 0 <= i < j < |next| ensures Separate(next[i], next[j]) {
      if j < |st| {
        assert Separate(st[i], st[j]);
      } else if i < |st| {
        assert Separate(st[i], s);
        assert s.lo <= parts[j - |st|].lo && parts[j - |st|].hi <= s.hi;
      } else {
        assert Separate(parts[i - |st|], parts[j - |st|]);
      }
    }
    forall p, q | lo <= p < q <= hi ensures e[g[p]] <= e[g[q]] || Together(next, p, q) {
      if In(s, p) && In(s, q) { assert Settled(g, e, parts, p, q); } else { OneOutside(f, g, e, st, s, lo, hi, p, q); }
      TogetherAny(st, parts, p, q);
    }
    GivesPending(g, e, next, lo, hi);
  }

  lemma TogetherAny(st: seq<Seg>, parts: seq<Seg>, p: int, q: int)
    ensures Together(st, p, q) || Together(parts, p, q) ==> Together(st + parts, p, q)
  {
    var next := st + parts;
    if Together(st, p, q) {
      var k :| 0 <= k < |st| && In(st[k], p) && In(st[k], q);
      assert In(next[k], p) && In(next[k], q);
    } else if Together(parts, p, q) {
      var k :| 0 <= k < |parts| && In(parts[k], p) && In(parts[k], q);
      assert In(next[|st| + k], p) && In(next[|st| + k], q);
    }
  }

  /** A partition by the byte at depth d orders its three parts by rank. */
  lemma PartsByByte(b: seq<Byte>, g: seq<int>, d: nat, med: int, s: Seg, n: int, m: int, parts: seq<Seg>)
    requires Comparable(b, g, s.lo, s.hi, d) && Parted(g, Keys(b, d), med, s.lo, s.hi, n, m) && n + 1 < m
    requires Arranged(parts, Seg(s.lo, n), Seg(n + 1, m - 1), Seg(m, s.hi))
    ensures Parts(g, Ranking(b), s, parts)
  {
    hide Ranking, Same, At;
    RankingSize(b);
    var left, mid, right := Seg(s.lo, n), Seg(n + 1, m - 1), Seg(m, s.hi);
    ThreeParts(parts, left, mid, right);
    assert Inside(parts, s.lo, s.hi) by {
      forall k | 0 <= k < 3 ensures s.lo <= parts[k].lo <= parts[k].hi + 1 <= s.hi + 1 {
        assert parts[k] in parts;
      }
    }
    forall p, q | s.lo <= p < q <= s.hi
      ensures Settled(g, Ranking(b), parts, p, q)
    {
      if p <= n && q <= n {
        TogetherIn(parts, left, p, q);
      } else if n < p && q < m {
        TogetherIn(parts, mid, p, q);
      } else if m <= p {
        TogetherIn(parts, right, p, q);
      } else {
        ByteDecides(b, g[p], g[q], d);
      }
    }
  }

  /** Three segments in some order. */
  predicate Arranged(parts: seq<Seg>, x: Seg, y: Seg, z: Seg) {
    || parts == [x, y, z] || parts == [x, z, y] || parts == [y, x, z]
    || parts == [y, z, x] || parts == [z, x, y] || parts == [z, y, x]
  }

  lemma ThreeParts(parts: seq<Seg>, x: Seg, y: Seg, z: Seg)
    requires Arranged(parts, x, y, z)
    requires x.hi < y.lo && y.hi < z.lo && x.hi < z.lo
    ensures |parts| == 3 && x in parts && y in parts && z in parts
    ensures forall k :: 0 <= k < 3 ==> parts[k] == x || parts[k] == y || parts[k] == z
    ensures Disjoint(parts)
  {
    assert parts == [parts[0], parts[1], parts[2]];
    assert parts[0] in parts && parts[1] in parts && parts[2] in parts;
  }

  lemma TogetherIn(parts: seq<Seg>, s: Seg, p: int, q: int)
    requires s in parts && In(s, p) && In(s, q)
    ensures Together(parts, p, q)
  {
    var k :| 0 <= k < |parts| && parts[k] == s;
    assert In(parts[k], p) && In(parts[k], q);
  }

  // --- How deep the stack gets, and why the loop ends ---

  function SizeOf(j: Job): nat { Size(SegOf(j)) }

  /** The most entries a segment at level k can have. */
  function Cap(k: nat): (c: nat) {
    if k == 0 then 900000 else 2 * Cap(k - 1) / 3
  }

  ghost predicate Capped(st: seq<Job>) {
    forall k: nat :: k < |st| ==> SizeOf(st[k]) <= Cap(k)
  }

  lemma CapTable()
    ensures Cap(27) == 15
  {
    assert Cap(3) == 266666;
    assert Cap(6) == 79012;
    assert Cap(9) == 23410;
    assert Cap(12) == 6936;
    assert Cap(15) == 2054;
    assert Cap(18) == 608;
    assert Cap(21) == 180;
    assert Cap(24) == 53;
  }

  lemma {:induction false} CapShrinks(k: nat)
    ensures k >= 27 ==> Cap(k) <= 15
  {
    if k == 27 { CapTable(); }
    if k > 27 { CapShrinks(k - 1); }
  }

  /** Splitting a segment of more than twenty: the parts fit the next levels, and few lie below. */
  lemma CapsOfParts(st: seq<Job>, s: Job, x: Job, y: Job, z: Job)
    requires Capped(st + [s]) && SizeOf(s) >= 21
    requires SizeOf(x) >= SizeOf(y) >= SizeOf(z) && SizeOf(x) + SizeOf(y) + SizeOf(z) == SizeOf(s)
    ensures Capped(st + [x, y, z]) && |st| <= 26
  {
    hide SizeOf;
    var all, next, i := st + [s], st + [x, y, z], |st|;
    assert all[i] == s;
    CapShrinks(i);
    assert Cap(i + 1) == 2 * Cap(i) / 3;
    assert Cap(i + 2) == 2 * Cap(i + 1) / 3;
    forall k: nat | k < |next| ensures SizeOf(next[k]) <= Cap(k) {
      if k < i { assert next[k] == all[k]; }
    }
  }

  lemma CappedPop(st: seq<Job>, s: Job)
    requires Capped(st + [s])
    ensures Capped(st) && SizeOf(s) <= Cap(|st|)
  {
    hide SizeOf, Cap;
    var all := st + [s];
    assert all[|st|] == s;
    forall k: nat | k < |st| ensures SizeOf(st[k]) <= Cap(k) { assert all[k] == st[k]; }
  }

  /** s taken t times. */
  function Times(s: nat, t: nat): (r: nat)
    decreases t
  {
    if t == 0 then 0 else s + Times(s, t - 1)
  }

  lemma {:induction false} TimesAdd(a: nat, c: nat, t: nat)
    ensures Times(a + c, t) == Times(a, t) + Times(c, t)
    decreases t
  {
    if t > 0 { TimesAdd(a, c, t - 1); }
  }

  function Load(j: Job): nat
    requires j.d <= 15
  {
    4 * Times(SizeOf(j), 16 - j.d) + 1
  }

  ghost predicate DepthsOk(st: seq<Job>) { forall k :: 0 <= k < |st| ==> st[k].d <= 15 }

  function TotalLoad(st: seq<Job>): nat
    requires DepthsOk(st)
  {
    if st == [] then 0 else TotalLoad(st[..|st| - 1]) + Load(st[|st| - 1])
  }

  lemma LoadPush(st: seq<Job>, j: Job)
    requires DepthsOk(st) && j.d <= 15
    ensures DepthsOk(st + [j]) && TotalLoad(st + [j]) == TotalLoad(st) + Load(j)
  {
    assert (st + [j])[..|st|] == st;
  }

  /** Splitting lowers the load: the middle part goes one byte deeper. */
  lemma SplitLoad(s: Job, left: Job, mid: Job, right: Job)
    requires s.d <= 14 && left.d == right.d == s.d && mid.d == s.d + 1
    requires SizeOf(left) + SizeOf(mid) + SizeOf(right) == SizeOf(s) && SizeOf(mid) >= 1
    ensures Load(left) + Load(mid) + Load(right) < Load(s)
  {
    hide SizeOf, Times;
    var t := 16 - s.d;
    TimesAdd(SizeOf(left), SizeOf(right), t);
    TimesAdd(SizeOf(left) + SizeOf(right), SizeOf(mid), t);
    TimesStep(SizeOf(mid), t);
  }

  lemma TimesStep(s: nat, t: nat)
    requires t > 0
    ensures Times(s, t) == s + Times(s, t - 1)
  {
  }

  lemma DeeperLoad(s: Job)
    requires s.d <= 14 && SizeOf(s) >= 1
    ensures Load(Job(s.lo, s.hi, s.d + 1)) < Load(s)
  {
  }

  // --- The state of the sort ---

  ghost predicate AllComparable(b: seq<Byte>, f: seq<int>, st: seq<Job>) {
    forall k :: 0 <= k < |st| ==> Comparable(b, f, st[k].lo, st[k].hi, st[k].d)
  }

  ghost predicate JobsSorting(b: seq<Byte>, f0: seq<int>, f: seq<int>, st: seq<Job>, lo: int, hi: int)
    requires b != []
  {
    && Shuffled(f0, f, lo, hi) && Pending(f, Ranking(b), Segs(st), lo, hi) && Capped(st) && |st| <= 29
    && AllComparable(b, f, st) && DepthsOk(st)
  }

  lemma SegsAppend(st: seq<Job>, more: seq<Job>)
    ensures Segs(st + more) == Segs(st) + Segs(more)
  {
  }

  lemma StartJobs(b: seq<Byte>, f: seq<int>, lo: nat, hi: int, d: nat)
    requires Comparable(b, f, lo, hi, d) && hi - lo < 900000
    ensures JobsSorting(b, f, f, [Job(lo, hi, d)], lo, hi)
  {
    hide Ranking, Same;
    RankingSize(b);
    ShuffleNothing(f, lo, hi);
    var st := [Job(lo, hi, d)];
    forall p, q | lo <= p < q <= hi ensures Together(Segs(st), p, q) {
      assert In(Segs(st)[0], p) && In(Segs(st)[0], q);
    }
  }

  /** What is known of the job on top. */
  lemma TopJob(b: seq<Byte>, f0: seq<int>, f: seq<int>, st: seq<Job>, s: Job, lo: nat, hi: int)
    requires b != [] && JobsSorting(b, f0, f, st + [s], lo, hi)
    ensures Comparable(b, f, s.lo, s.hi, s.d) && lo <= s.lo <= s.hi + 1 <= hi + 1 <= |f| && s.d <= 15 && |st| <= 28
    ensures Pending(f, Ranking(b), Segs(st) + [SegOf(s)], lo, hi) && DepthsOk(st) && Capped(st)
    ensures forall k :: 0 <= k < |st| ==> Separate(SegOf(st[k]), SegOf(s))
    ensures forall k :: 0 <= k < |st| ==> Comparable(b, f, st[k].lo, st[k].hi, st[k].d)
  {
    hide Shuffled, Ranking, Comparable, Pending, Cap;
    var all := st + [s];
    assert all[|st|] == s;
    SegsAppend(st, [s]);
    assert Segs([s]) == [SegOf(s)];
    PendingParts(f, Ranking(b), Segs(st), SegOf(s), lo, hi);
    CappedPop(st, s);
    forall k | 0 <= k < |st| ensures Comparable(b, f, st[k].lo, st[k].hi, st[k].d) && st[k].d <= 15 && Separate(SegOf(st[k]), SegOf(s)) {
      assert all[k] == st[k] && Segs(st)[k] == SegOf(st[k]);
    }
    ComparableBounds(b, f, s.lo, s.hi, s.d);
  }

  lemma ComparableBounds(b: seq<Byte>, f: seq<int>, lo: int, hi: int, d: nat)
    requires Comparable(b, f, lo, hi, d)
    ensures b != [] && 0 <= lo <= hi + 1 <= |f| && d <= 15
  {
  }

  /** Other segments are not touched. */
  lemma OtherJobs(b: seq<Byte>, f: seq<int>, g: seq<int>, st: seq<Job>, s: Job)
    requires Shuffled(f, g, s.lo, s.hi)
    requires forall k :: 0 <= k < |st| ==> Separate(SegOf(st[k]), SegOf(s)) && Comparable(b, f, st[k].lo, st[k].hi, st[k].d)
    ensures AllComparable(b, g, st)
  {
    hide Same, Ranking;
  }

  lemma WiderShuffle(f0: seq<int>, f: seq<int>, g: seq<int>, s: Job, lo: nat, hi: int)
    requires Shuffled(f0, f, lo, hi) && Shuffled(f, g, s.lo, s.hi) && lo <= s.lo <= s.hi + 1 <= hi + 1 <= |f|
    ensures Shuffled(f0, g, lo, hi)
  {
    hide Shuffled;
    ShuffleWider(f, g, s.lo, s.hi, lo, hi);
    ShuffleAgain(f0, f, g, lo, hi);
  }

  /** A segment sorted outright. */
  lemma JobSorted(b: seq<Byte>, f0: seq<int>, f: seq<int>, g: seq<int>, st: seq<Job>, s: Job, lo: nat, hi: int)
    requires b != [] && JobsSorting(b, f0, f, st + [s], lo, hi) && Shuffled(f, g, s.lo, s.hi) && Ordered(g, Ranking(b), s.lo, s.hi)
    ensures JobsSorting(b, f0, g, st, lo, hi)
  {
    hide Shuffled, Ranking, Comparable, Pending, Ordered, Capped;
    TopJob(b, f0, f, st, s, lo, hi);
    SegmentSorted(f, g, Ranking(b), Segs(st), SegOf(s), lo, hi);
    OtherJobs(b, f, g, st, s);
    WiderShuffle(f0, f, g, s, lo, hi);
  }

  /** A segment split into the jobs x, y, z. */
  lemma JobSplit(b: seq<Byte>, f0: seq<int>, f: seq<int>, g: seq<int>, st: seq<Job>, s: Job, lo: nat, hi: int, x: Job, y: Job, z: Job)
    requires b != [] && JobsSorting(b, f0, f, st + [s], lo, hi) && Shuffled(f, g, s.lo, s.hi) && SizeOf(s) >= 21
    requires Parts(g, Ranking(b), SegOf(s), Segs([x, y, z]))
    requires Comparable(b, g, x.lo, x.hi, x.d) && Comparable(b, g, y.lo, y.hi, y.d) && Comparable(b, g, z.lo, z.hi, z.d)
    requires SizeOf(x) >= SizeOf(y) >= SizeOf(z) && SizeOf(x) + SizeOf(y) + SizeOf(z) == SizeOf(s)
    requires x.d <= 15 && y.d <= 15 && z.d <= 15
    ensures JobsSorting(b, f0, g, st + [x, y, z], lo, hi) && |st| <= 26
  {
    hide Shuffled, Ranking, Comparable, Pending, Capped, Parts, SizeOf, Segs;
    TopJob(b, f0, f, st, s, lo, hi);
    SegmentSplit(f, g, Ranking(b), Segs(st), SegOf(s), Segs([x, y, z]), lo, hi);
    SegsAppend(st, [x, y, z]);
    OtherJobs(b, f, g, st, s);
    WiderShuffle(f0, f, g, s, lo, hi);
    CapsOfParts(st, s, x, y, z);
    ThreeMore(b, g, st, x, y, z);
  }

  lemma ThreeMore(b: seq<Byte>, g: seq<int>, st: seq<Job>, x: Job, y: Job, z: Job)
    requires AllComparable(b, g, st) && DepthsOk(st) && x.d <= 15 && y.d <= 15 && z.d <= 15
    requires Comparable(b, g, x.lo, x.hi, x.d) && Comparable(b, g, y.lo, y.hi, y.d) && Comparable(b, g, z.lo, z.hi, z.d)
    ensures AllComparable(b, g, st + [x, y, z]) && DepthsOk(st + [x, y, z])
  {
    hide Comparable;
  }

  lemma LoadOfParts(st: seq<Job>, s: Job, x: Job, y: Job, z: Job)
    requires DepthsOk(st) && s.d <= 15 && x.d <= 15 && y.d <= 15 && z.d <= 15 && Load(x) + Load(y) + Load(z) < Load(s)
    ensures DepthsOk(st + [x, y, z]) && DepthsOk(st + [s])
    ensures TotalLoad(st + [x, y, z]) < TotalLoad(st + [s])
  {
    hide Load, TotalLoad;
    LoadPush(st, s);
    LoadPush(st, x);
    LoadPush(st + [x], y);
    LoadPush(st + [x] + [y], z);
    assert st + [x] + [y] + [z] == st + [x, y, z];
  }

  /** All bytes at depth d equal: the same segment, one byte deeper. */
  lemma JobDeeper(b: seq<Byte>, f0: seq<int>, f: seq<int>, g: seq<int>, st: seq<Job>, s: Job, lo: nat, hi: int)
    requires b != [] && JobsSorting(b, f0, f, st + [s], lo, hi) && Shuffled(f, g, s.lo, s.hi) && SizeOf(s) >= 1 && s.d <= 14
    requires Comparable(b, g, s.lo, s.hi, s.d + 1)
    ensures var next := Job(s.lo, s.hi, s.d + 1);
            JobsSorting(b, f0, g, st + [next], lo, hi)
            && DepthsOk(st + [next]) && DepthsOk(st + [s]) && TotalLoad(st + [next]) < TotalLoad(st + [s])
  {
    hide Shuffled, Ranking, Comparable, Pending, Load, TotalLoad, Cap;
    var next := Job(s.lo, s.hi, s.d + 1);
    TopJob(b, f0, f, st, s, lo, hi);
    WholePart(b, g, SegOf(s), s.d + 1);
    SegmentSplit(f, g, Ranking(b), Segs(st), SegOf(s), [SegOf(s)], lo, hi);
    SegsAppend(st, [next]);
    assert Segs([next]) == [SegOf(s)];
    OtherJobs(b, f, g, st, s);
    WiderShuffle(f0, f, g, s, lo, hi);
    CappedPop(st, s);
    CappedPush(st, next);
    DeeperLoad(s);
    LoadPush(st, s);
    LoadPush(st, next);
  }

  lemma CappedPush(st: seq<Job>, j: Job)
    requires Capped(st) && SizeOf(j) <= Cap(|st|)
    ensures Capped(st + [j])
  {
  }

  lemma WholePart(b: seq<Byte>, g: seq<int>, s: Seg, d: nat)
    requires Comparable(b, g, s.lo, s.hi, d)
    ensures b != [] && Parts(g, Ranking(b), s, [s])
  {
    hide *;
    WholeBounds(b, g, s, d);
    WholeOf(g, Ranking(b), s);
  }

  lemma WholeBounds(b: seq<Byte>, g: seq<int>, s: Seg, d: nat)
    requires Comparable(b, g, s.lo, s.hi, d)
    ensures b != [] && |Ranking(b)| == |b| && 0 <= s.lo <= s.hi + 1 <= |g|
    ensures forall k :: s.lo <= k <= s.hi ==> 0 <= g[k] < |b|
  {
    hide Ranking, Same;
    RankingSize(b);
  }

  lemma WholeOf(g: seq<int>, e: seq<int>, s: Seg)
    requires 0 <= s.lo <= s.hi + 1 <= |g| && forall k :: s.lo <= k <= s.hi ==> 0 <= g[k] < |e|
    ensures Parts(g, e, s, [s])
  {
    hide Together;
    forall p, q | s.lo <= p < q <= s.hi ensures Settled(g, e, [s], p, q) {
      OnePart(s, p, q);
    }
  }

  lemma OnePart(s: Seg, p: int, q: int)
    requires s.lo <= p <= s.hi && s.lo <= q <= s.hi
    ensures Together([s], p, q)
  {
    assert In([s][0], p) && In([s][0], q);
  }
}

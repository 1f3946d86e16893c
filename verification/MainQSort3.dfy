/** mainQSort3's loop (blocksort.c). */
module MainQSort3 {
  import opened Basics
  import opened Permutations
  import opened Rotations
  import opened Shuffles
  import opened FallbackQSort
  import opened FallbackStack
  import opened Depths
  import opened RotationRanks
  import opened MainCompare
  import opened MainQSort
  import opened MainStack

  ghost function Stacked(lo: seq<int>, hi: seq<int>, d: seq<nat>, sp: nat): (st: seq<Job>)
    requires sp <= |lo| && sp <= |hi| && sp <= |d|
    ensures |st| == sp && forall k :: 0 <= k < sp ==> st[k] == Job(lo[k], hi[k], d[k])
  {
    seq(sp, k requires 0 <= k < sp => Job(lo[k], hi[k], d[k]))
  }

  /** stackLo, stackHi, stackD and sp. */
  class JobStack {
    const lo: array<int>
    const hi: array<int>
    const d: array<nat>
    var sp: nat

    ghost predicate Valid()
      reads this
    {
      lo != hi && lo.Length == hi.Length == d.Length == 100 && sp <= 100
    }

    ghost function Jobs(): (st: seq<Job>)
      requires Valid()
      reads this, lo, hi, d
      ensures |st| == sp
    {
      Stacked(lo[..], hi[..], d[..], sp)
    }

    constructor ()
      ensures Valid() && Jobs() == [] && fresh(lo) && fresh(hi) && fresh(d)
    {
      lo, hi, d := new int[100], new int[100], new nat[100];
      sp := 0;
    }

    /** mpush. */
    method Push(j: Job)
      requires Valid() && sp < 100
      modifies this, lo, hi, d
      ensures Valid() && Jobs() == old(Jobs()) + [j] && sp == old(sp) + 1
    {
      lo[sp], hi[sp] := j.lo, j.hi;
      d[sp] := j.d;
      sp := sp + 1;
    }

    /** mpop. */
    method Pop() returns (j: Job)
      requires Valid() && sp > 0
      modifies this
      ensures Valid() && old(Jobs()) == Jobs() + [j] && sp == old(sp) - 1
    {
      sp := sp - 1;
      j := Job(lo[sp], hi[sp], d[sp]);
    }
  }

  /** mnextsize. */
  function NextSize(j: Job): int { j.hi - j.lo }

  /** The three swaps that put the largest part first. */
  function SortThree(x: Job, y: Job, z: Job): (r: (Job, Job, Job))
    ensures NextSize(r.0) >= NextSize(r.1) >= NextSize(r.2)
  {
    var (a0, b0) := if NextSize(x) < NextSize(y) then (y, x) else (x, y);
    var (b1, c1) := if NextSize(b0) < NextSize(z) then (z, b0) else (b0, z);
    var (a2, b2) := if NextSize(a0) < NextSize(b1) then (b1, a0) else (a0, b1);
    (a2, b2, c1)
  }

  /** The three parts of a partition as jobs, in the order they are pushed. */
  lemma ThreeJobs(b: seq<Byte>, g: seq<int>, s: Job, med: int, n: int, m: int, x: Job, y: Job, z: Job)
    requires Comparable(b, g, s.lo, s.hi, s.d) && b != [] && Parted(g, Keys(b, s.d), med, s.lo, s.hi, n, m) && n + 1 < m
    requires s.d <= 14 && SizeOf(s) >= 21
    requires (x, y, z) == SortThree(Job(s.lo, n, s.d), Job(m, s.hi, s.d), Job(n + 1, m - 1, s.d + 1))
    ensures Parts(g, Ranking(b), SegOf(s), Segs([x, y, z]))
    ensures Comparable(b, g, x.lo, x.hi, x.d) && Comparable(b, g, y.lo, y.hi, y.d) && Comparable(b, g, z.lo, z.hi, z.d)
    ensures SizeOf(x) >= SizeOf(y) >= SizeOf(z) && SizeOf(x) + SizeOf(y) + SizeOf(z) == SizeOf(s)
    ensures x.d <= 15 && y.d <= 15 && z.d <= 15 && Load(x) + Load(y) + Load(z) < Load(s)
  {
    hide Comparable, Parts, Load, Parted, SortThree, Segs, SizeOf, Arranged;
    var left, right, mid := Job(s.lo, n, s.d), Job(m, s.hi, s.d), Job(n + 1, m - 1, s.d + 1);
    PartBounds(g, Keys(b, s.d), med, s.lo, s.hi, n, m);
    PartSizes(s, n, m);
    PartsComparable(b, g, s, med, n, m);
    SegsArranged(left, right, mid, x, y, z);
    PartsByByte(b, g, s.d, med, SegOf(s), n, m, Segs([x, y, z]));
    SplitLoad(s, left, mid, right);
    ThreeOf(left, right, mid, x, y, z);
    BySize(x, y, z);
  }

  lemma PartSizes(s: Job, n: int, m: int)
    requires s.lo - 1 <= n && n + 1 < m <= s.hi + 1
    ensures SizeOf(Job(s.lo, n, s.d)) + SizeOf(Job(n + 1, m - 1, s.d + 1)) + SizeOf(Job(m, s.hi, s.d)) == SizeOf(s)
    ensures SizeOf(Job(n + 1, m - 1, s.d + 1)) >= 1
  {
  }

  lemma BySize(x: Job, y: Job, z: Job)
    requires NextSize(x) >= NextSize(y) >= NextSize(z)
    ensures SizeOf(x) >= SizeOf(y) >= SizeOf(z)
  {
  }

  /** One of the six orders. */
  predicate InOrder(left: Job, right: Job, mid: Job, x: Job, y: Job, z: Job) {
    || (x == left && ((y == mid && z == right) || (y == right && z == mid)))
    || (x == right && ((y == mid && z == left) || (y == left && z == mid)))
    || (x == mid && ((y == left && z == right) || (y == right && z == left)))
  }

  lemma ThreeOf(left: Job, right: Job, mid: Job, x: Job, y: Job, z: Job)
    requires (x, y, z) == SortThree(left, right, mid)
    ensures NextSize(x) >= NextSize(y) >= NextSize(z) && InOrder(left, right, mid, x, y, z)
  {
  }

  lemma SegsArranged(left: Job, right: Job, mid: Job, x: Job, y: Job, z: Job)
    requires (x, y, z) == SortThree(left, right, mid)
    ensures Arranged(Segs([x, y, z]), SegOf(left), SegOf(mid), SegOf(right))
  {
    hide SortThree;
    ThreeOf(left, right, mid, x, y, z);
    assert Segs([x, y, z]) == [SegOf(x), SegOf(y), SegOf(z)];
  }

  lemma PartsComparable(b: seq<Byte>, g: seq<int>, s: Job, med: int, n: int, m: int)
    requires Comparable(b, g, s.lo, s.hi, s.d) && Parted(g, Keys(b, s.d), med, s.lo, s.hi, n, m) && n + 1 < m && s.d <= 14
    ensures Comparable(b, g, s.lo, n, s.d) && Comparable(b, g, m, s.hi, s.d) && Comparable(b, g, n + 1, m - 1, s.d + 1)
  {
    hide At;
    forall j, k | n + 1 <= j <= m - 1 && n + 1 <= k <= m - 1 ensures Same(b, g[j], g[k], s.d + 1) {
      assert Same(b, g[j], g[k], s.d);
    }
  }

  /** One split: afterwards the load on the stack is lower. */
  method SplitTop(ptr: array<Word>, block: array<Byte>, stack: JobStack, s: Job, ghost b: seq<Byte>, ghost f0: seq<int>, lo: nat, hi: int)
    requires Mirrored(block[..], b) && stack.Valid() && ptr as object !in {stack.lo as object, stack.hi as object, stack.d as object}
    requires JobsSorting(b, f0, ptr[..], stack.Jobs() + [s], lo, hi) && s.hi - s.lo >= 20 && s.d <= 14 && DepthsOk(stack.Jobs() + [s])
    modifies ptr, stack, stack.lo, stack.hi, stack.d
    ensures stack.Valid() && JobsSorting(b, f0, ptr[..], stack.Jobs(), lo, hi) && DepthsOk(stack.Jobs())
    ensures TotalLoad(stack.Jobs()) < TotalLoad(old(stack.Jobs()) + [s])
  {
    hide JobsSorting, Shuffled, Parted, Comparable, Classed, Keys, Mirrored, Parts, Load, TotalLoad, Segs;
    MirrorSize(block[..], b);
    ghost var f, st, bl := ptr[..], stack.Jobs(), block[..];
    TopJob(b, f0, f, st, s, lo, hi);
    KeysClassed(b, f, s);
    var k: nat := s.lo;
    ClassAt(f, Keys(b, s.d), s.lo, s.hi, s.lo);
    ClassAt(f, Keys(b, s.d), s.lo, s.hi, s.hi);
    ClassAt(f, Keys(b, s.d), s.lo, s.hi, (s.lo + s.hi) / 2);
    KeysSize(b, s.d);
    var c0 := Key(ptr, block, s.lo, s.d, b);
    var c1 := Key(ptr, block, s.hi, s.d, b);
    var c2 := Key(ptr, block, (s.lo + s.hi) / 2, s.d, b);
    var med := Median(c0, c1, c2);
    var n, m := MainQSort.Partition(ptr, block, s.d, med, s.lo, s.hi, b);
    ghost var g := ptr[..];
    assert stack.Jobs() == st;
    ComparableShuffle(b, f, g, s.lo, s.hi, s.d);
    if n + 1 <= s.lo && m > s.hi {
      DeeperComparable(b, g, s, med, n, m);
      JobDeeper(b, f0, f, g, st, s, lo, hi);
      stack.Push(Job(s.lo, s.hi, s.d + 1));
    } else {
      var (x, y, z) := SortThree(Job(s.lo, n, s.d), Job(m, s.hi, s.d), Job(n + 1, m - 1, s.d + 1));
      SizeFrom(s);
      ThreeJobs(b, g, s, med, n, m, x, y, z);
      JobSplit(b, f0, f, g, st, s, lo, hi, x, y, z);
      LoadOfParts(st, s, x, y, z);
      stack.Push(x);
      stack.Push(y);
      stack.Push(z);
      assert stack.Jobs() == st + [x, y, z];
    }
  }

  lemma SizeFrom(s: Job)
    requires s.hi - s.lo >= 20
    ensures SizeOf(s) >= 21
  {
  }

  lemma KeysSize(b: seq<Byte>, d: nat)
    requires b != []
    ensures |Keys(b, d)| == |b|
  {
  }

  lemma KeysClassed(b: seq<Byte>, f: seq<int>, s: Job)
    requires Comparable(b, f, s.lo, s.hi, s.d)
    ensures b != [] && Classed(f, Keys(b, s.d), s.lo, s.hi)
  {
  }

  lemma DeeperComparable(b: seq<Byte>, g: seq<int>, s: Job, med: int, n: int, m: int)
    requires Comparable(b, g, s.lo, s.hi, s.d) && Parted(g, Keys(b, s.d), med, s.lo, s.hi, n, m) && n + 1 < m && s.d <= 14
    requires n + 1 <= s.lo && m > s.hi
    ensures Comparable(b, g, s.lo, s.hi, s.d + 1)
  {
    hide At;
    PartsComparable(b, g, s, med, n, m);
  }

  lemma SortedEnd(b: seq<Byte>, f0: seq<int>, f: seq<int>, lo: int, hi: int)
    requires b != [] && JobsSorting(b, f0, f, [], lo, hi)
    ensures Shuffled(f0, f, lo, hi) && Ordered(f, Ranking(b), lo, hi)
  {
    hide Shuffled, Ranking;
    assert Segs([]) == [];
    forall p, q | lo <= p < q <= hi ensures Ranking(b)[f[p]] <= Ranking(b)[f[q]] {
      assert !Together(Segs([]), p, q);
    }
  }

  lemma SortingShuffles(b: seq<Byte>, f0: seq<int>, f: seq<int>, st: seq<Job>, lo: int, hi: int)
    requires b != [] && JobsSorting(b, f0, f, st, lo, hi)
    ensures Shuffled(f0, f, lo, hi) && |st| <= 29 && DepthsOk(st)
  {
  }

  /** mainQSort3: unless the budget runs out the pointers end up in rank order, and they are only moved
      among themselves; assertion 1001 holds at every turn. */
  method QSort3(ptr: array<Word>, block: array<Byte>, quadrant: array<nat>, nblock: nat, loSt: nat, hiSt: int, dSt: nat,
                budget: int, ghost b: seq<Byte>) returns (budget': int)
    requires Mirrored(block[..], b) && Quadrants(quadrant[..], b) && nblock == |b| <= 900000
    requires Comparable(b, ptr[..], loSt, hiSt, dSt) && hiSt - loSt < 900000
    modifies ptr
    ensures Shuffled(old(ptr[..]), ptr[..], loSt, hiSt) && budget' <= budget
    ensures budget' >= 0 ==> Ordered(ptr[..], Ranking(b), loSt, hiSt)
  {
    hide JobsSorting, Shuffled, Ordered, Comparable, Mirrored, Quadrants, TotalLoad, Ranking;
    MirrorSize(block[..], b);
    ghost var f0, bl, qu := ptr[..], block[..], quadrant[..];
    budget' := budget;
    var stack := new JobStack();
    StartJobs(b, f0, loSt, hiSt, dSt);
    SortingShuffles(b, f0, f0, [Job(loSt, hiSt, dSt)], loSt, hiSt);
    stack.Push(Job(loSt, hiSt, dSt));
    assert stack.Jobs() == [Job(loSt, hiSt, dSt)];
    while stack.sp > 0
      invariant stack.Valid() && block[..] == bl && quadrant[..] == qu && budget' <= budget
      invariant fresh(stack) && fresh(stack.lo) && fresh(stack.hi) && fresh(stack.d)
      invariant JobsSorting(b, f0, ptr[..], stack.Jobs(), loSt, hiSt) && DepthsOk(stack.Jobs())
      decreases TotalLoad(stack.Jobs())
    {
      ghost var f := ptr[..];
      SortingShuffles(b, f0, f, stack.Jobs(), loSt, hiSt);
      assert stack.sp < 100 - 2;
      var s := stack.Pop();
      ghost var st := stack.Jobs();
      TopJob(b, f0, f, st, s, loSt, hiSt);
      if s.hi - s.lo < 20 || s.d > 14 {
        budget' := MainCompare.SimpleSort(ptr, block, quadrant, nblock, s.lo, s.hi, s.d, budget', b);
        if budget' < 0 {
          WiderShuffle(f0, f, ptr[..], s, loSt, hiSt);
          return;
        }
        assert stack.Jobs() == st;
        JobSorted(b, f0, f, ptr[..], st, s, loSt, hiSt);
        LoadPush(st, s);
        continue;
      }
      SplitTop(ptr, block, stack, s, b, f0, loSt, hiSt);
    }
    assert stack.Jobs() == [];
    SortedEnd(b, f0, ptr[..], loSt, hiSt);
  }
}

/** fallbackQSort3's explicit stack (blocksort.c): the larger part is pushed first, so the stack stays
    logarithmic, and what is not on the stack is in order. */
module FallbackStack {
  import opened Basics
  import opened Permutations
  import opened Shuffles
  import opened FallbackQSort

  datatype Seg = Seg(lo: int, hi: int)

  predicate In(s: Seg, p: int) { s.lo <= p <= s.hi }

  predicate Together(st: seq<Seg>, p: int, q: int) {
    exists k :: 0 <= k < |st| && In(st[k], p) && In(st[k], q)
  }

  ghost predicate Inside(st: seq<Seg>, lo: int, hi: int) {
    forall k :: 0 <= k < |st| ==> lo <= st[k].lo <= st[k].hi + 1 <= hi + 1
  }

  ghost predicate Disjoint(st: seq<Seg>) {
    forall i, j :: 0 <= i < j < |st| ==> Separate(st[i], st[j])
  }

  predicate Separate(s: Seg, t: Seg) { s.hi < t.lo || t.hi < s.lo || s.hi < s.lo || t.hi < t.lo }

  /** What is still to be sorted lies inside one segment on the stack. */
  ghost predicate Pending(f: seq<int>, e: seq<int>, st: seq<Seg>, lo: int, hi: int) {
    && Classed(f, e, lo, hi) && Inside(st, lo, hi) && Disjoint(st)
    && forall p, q :: lo <= p < q <= hi ==> e[f[p]] <= e[f[q]] || Together(st, p, q)
  }

  /** A pair with one end outside the segment being worked on stays ordered. */
  lemma OneOutside(f: seq<int>, g: seq<int>, e: seq<int>, st: seq<Seg>, s: Seg, lo: int, hi: int, p: int, q: int)
    requires Pending(f, e, st + [s], lo, hi) && Shuffled(f, g, s.lo, s.hi) && lo <= p < q <= hi
    requires !(In(s, p) && In(s, q))
    ensures 0 <= g[p] < |e| && 0 <= g[q] < |e|
    ensures e[g[p]] <= e[g[q]] || Together(st, p, q)
  {
    hide *;
    PendingParts(f, e, st, s, lo, hi);
    PendingSizes(f, e, st, s, lo, hi);
    var a := ShuffleSource(f, g, s.lo, s.hi, p);
    var b := ShuffleSource(f, g, s.lo, s.hi, q);
    StillApart(s, p, q, a, b);
    PendingPair(f, e, st + [s], lo, hi, a, b);
    if Together(st + [s], a, b) { TogetherBelow(st, s, a, b, p, q); }
  }

  lemma PendingSizes(f: seq<int>, e: seq<int>, st: seq<Seg>, s: Seg, lo: int, hi: int)
    requires Pending(f, e, st + [s], lo, hi)
    ensures 0 <= lo <= hi + 1 <= |f|
  {
    hide Inside, Disjoint, Together;
  }

  /** With one end outside the segment, its two ends keep their order. */
  lemma StillApart(s: Seg, p: int, q: int, a: int, b: int)
    requires p < q && !(In(s, p) && In(s, q))
    requires (s.lo <= p <= s.hi <==> s.lo <= a <= s.hi) && (!(s.lo <= p <= s.hi) ==> a == p)
    requires (s.lo <= q <= s.hi <==> s.lo <= b <= s.hi) && (!(s.lo <= q <= s.hi) ==> b == q)
    ensures a < b && !(In(s, a) && In(s, b))
    ensures (a != p ==> In(s, a)) && (b != q ==> In(s, b))
    ensures (s.lo <= a <= s.hi || a == p) && (s.lo <= b <= s.hi || b == q)
  {
  }

  lemma PendingPair(f: seq<int>, e: seq<int>, st: seq<Seg>, lo: int, hi: int, a: int, b: int)
    requires Pending(f, e, st, lo, hi) && lo <= a < b <= hi
    ensures 0 <= a < |f| && 0 <= b < |f| && 0 <= f[a] < |e| && 0 <= f[b] < |e|
    ensures e[f[a]] <= e[f[b]] || Together(st, a, b)
  {
    hide Inside, Disjoint, Together;
  }

  lemma TogetherBelow(st: seq<Seg>, s: Seg, a: int, b: int, p: int, q: int)
    requires Together(st + [s], a, b) && !(In(s, a) && In(s, b)) && forall k :: 0 <= k < |st| ==> Separate(st[k], s)
    requires (a != p ==> In(s, a)) && (b != q ==> In(s, b))
    ensures Together(st, p, q)
  {
    var k :| 0 <= k < |st + [s]| && In((st + [s])[k], a) && In((st + [s])[k], b);
    assert k < |st| && Separate(st[k], s);
    assert In(st[k], p) && In(st[k], q);
  }

  /** A segment has been sorted outright. */
  lemma SegmentSorted(f: seq<int>, g: seq<int>, e: seq<int>, st: seq<Seg>, s: Seg, lo: int, hi: int)
    requires Pending(f, e, st + [s], lo, hi) && Shuffled(f, g, s.lo, s.hi) && Ordered(g, e, s.lo, s.hi)
    ensures Pending(g, e, st, lo, hi)
  {
    hide Shuffled, Pending, Together;
    PendingParts(f, e, st, s, lo, hi);
    GivesClassed(f, g, e, st, s, lo, hi);
    forall p, q | lo <= p < q <= hi ensures e[g[p]] <= e[g[q]] || Together(st, p, q) {
      if !(In(s, p) && In(s, q)) { OneOutside(f, g, e, st, s, lo, hi, p, q); }
    }
    GivesPending(g, e, st, lo, hi);
  }

  lemma GivesPending(f: seq<int>, e: seq<int>, st: seq<Seg>, lo: int, hi: int)
    requires Classed(f, e, lo, hi) && Inside(st, lo, hi) && Disjoint(st)
    requires forall p, q :: lo <= p < q <= hi ==> e[f[p]] <= e[f[q]] || Together(st, p, q)
    ensures Pending(f, e, st, lo, hi)
  {
  }

  lemma PendingParts(f: seq<int>, e: seq<int>, st: seq<Seg>, s: Seg, lo: int, hi: int)
    requires Pending(f, e, st + [s], lo, hi)
    ensures Classed(f, e, lo, hi) && Inside(st, lo, hi) && Disjoint(st) && lo <= s.lo <= s.hi + 1 <= hi + 1
    ensures forall k :: 0 <= k < |st| ==> Separate(st[k], s)
  {
    var all := st + [s];
    assert all[|st|] == s;
    forall k | 0 <= k < |st| ensures all[k] == st[k] {
    }
    forall k | 0 <= k < |st| ensures Separate(st[k], s) {
      assert Separate(all[k], all[|st|]);
    }
    forall i, j | 0 <= i < j < |st| ensures Separate(st[i], st[j]) {
      assert Separate(all[i], all[j]);
    }
  }

  lemma GivesClassed(f: seq<int>, g: seq<int>, e: seq<int>, st: seq<Seg>, s: Seg, lo: int, hi: int)
    requires Classed(f, e, lo, hi) && lo <= s.lo <= s.hi + 1 <= hi + 1 && Shuffled(f, g, s.lo, s.hi)
    ensures Classed(g, e, lo, hi)
  {
    hide Shuffled;
    assert |g| == |f| by { ShuffleLength(f, g, s.lo, s.hi); }
    forall k | lo <= k <= hi ensures 0 <= g[k] < |e| {
      var m := ShuffleSource(f, g, s.lo, s.hi, k);
    }
  }

  lemma ShuffleLength(f: seq<int>, g: seq<int>, lo: int, hi: int)
    requires Shuffled(f, g, lo, hi)
    ensures |f| == |g| && 0 <= lo <= hi + 1 <= |f|
  {
  }

  /** A segment has been partitioned: its two outer parts are still to be sorted. */
  lemma SegmentParted(f: seq<int>, g: seq<int>, e: seq<int>, st: seq<Seg>, s: Seg, lo: int, hi: int, med: int, n: int, m: int, a: Seg, b: Seg)
    requires Pending(f, e, st + [s], lo, hi) && Shuffled(f, g, s.lo, s.hi) && Parted(g, e, med, s.lo, s.hi, n, m)
    requires (a == Seg(s.lo, n) && b == Seg(m, s.hi)) || (a == Seg(m, s.hi) && b == Seg(s.lo, n))
    ensures Pending(g, e, st + [a, b], lo, hi)
  {
    hide Shuffled, Pending, Together;
    var next := st + [a, b];
    PendingParts(f, e, st, s, lo, hi);
    GivesClassed(f, g, e, st, s, lo, hi);
    assert next[|st|] == a && next[|st| + 1] == b;
    forall p, q | lo <= p < q <= hi ensures e[g[p]] <= e[g[q]] || Together(next, p, q) {
      if !(In(s, p) && In(s, q)) {
        OneOutside(f, g, e, st, s, lo, hi, p, q);
        TogetherMore(st, a, b, p, q);
      } else {
        TogetherMore(st, a, b, p, q);
      }
    }
    GivesPending(g, e, next, lo, hi);
  }

  lemma TogetherMore(st: seq<Seg>, a: Seg, b: Seg, p: int, q: int)
    ensures Together(st, p, q) || (In(a, p) && In(a, q)) || (In(b, p) && In(b, q)) ==> Together(st + [a, b], p, q)
  {
    var next := st + [a, b];
    if Together(st, p, q) {
      var k :| 0 <= k < |st| && In(st[k], p) && In(st[k], q);
      assert In(next[k], p) && In(next[k], q);
    } else if In(a, p) && In(a, q) {
      assert In(next[|st|], p) && In(next[|st|], q);
    } else if In(b, p) && In(b, q) {
      assert In(next[|st| + 1], p) && In(next[|st| + 1], q);
    }
  }

  // --- How deep the stack gets, and why the loop ends ---

  function Size(s: Seg): nat { if s.hi < s.lo then 0 else s.hi - s.lo + 1 }

  function Weight(st: seq<Seg>): nat {
    if st == [] then 0 else Weight(st[..|st| - 1]) + 2 * Size(st[|st| - 1]) + 1
  }

  lemma WeightPush(st: seq<Seg>, s: Seg)
    ensures Weight(st + [s]) == Weight(st) + 2 * Size(s) + 1
  {
    assert (st + [s])[..|st|] == st;
  }

  /** Each level holds segments of at most half the size of the level below. */
  ghost predicate Slim(st: seq<Seg>, total: nat) {
    forall k: nat :: k < |st| ==> Shl(Size(st[k]), k) <= total
  }

  lemma SlimPop(st: seq<Seg>, s: Seg, total: nat)
    requires Slim(st + [s], total)
    ensures Slim(st, total) && Shl(Size(s), |st|) <= total
  {
    hide Shl;
    var all := st + [s];
    assert all[|st|] == s;
    forall k: nat | k < |st| ensures Shl(Size(st[k]), k) <= total {
      assert all[k] == st[k];
    }
  }

  lemma {:induction false} ShlOrder(x: nat, y: nat, n: nat)
    requires x <= y
    ensures Shl(x, n) <= Shl(y, n)
  {
    if x < y { ShlLess(x, y, n); }
  }

  lemma SlimPush(st: seq<Seg>, s: Seg, a: Seg, b: Seg, total: nat)
    requires Slim(st + [s], total) && Size(a) <= Size(s) && 2 * Size(b) <= Size(s)
    ensures Slim(st + [a, b], total)
  {
    hide Shl, Size;
    SlimPop(st, s, total);
    var next, i := st + [a, b], |st|;
    ShlOrder(Size(a), Size(s), i);
    ShlOrder(2 * Size(b), Size(s), i);
    assert Shl(Size(b), i + 1) == Shl(2 * Size(b), i) by { ShlTwice(Size(b), i); ShlUp(Size(b), i); }
    forall k: nat | k < |next| ensures Shl(Size(next[k]), k) <= total {
      if k < i { assert next[k] == st[k]; }
    }
  }

  lemma ShlUp(x: nat, n: nat)
    ensures Shl(x, n + 1) == 2 * Shl(x, n)
  {
  }

  /** Only a segment of more than ten entries is split, so at most 17 lie below it. */
  lemma Shallow(st: seq<Seg>, s: Seg, total: nat)
    requires Slim(st + [s], total) && Size(s) >= 11 && total <= 900000
    ensures |st| <= 16
  {
    hide Shl;
    SlimPop(st, s, total);
    ShlOrder(11, Size(s), |st|);
    Deep(|st|);
  }

  lemma {:induction false} Deep(k: nat)
    ensures k >= 17 ==> Shl(11, k) >= 1441792
  {
    if k == 17 {
      ShiftsUsed(11);
      ShlUp(11, 16);
    } else if k > 17 {
      Deep(k - 1);
      ShlUp(11, k - 1);
    }
  }

  // --- fallbackQSort3 ---

  ghost function Stack(lo: seq<int>, hi: seq<int>, sp: nat): (st: seq<Seg>)
    requires sp <= |lo| && sp <= |hi|
    ensures |st| == sp && forall k :: 0 <= k < sp ==> st[k] == Seg(lo[k], hi[k])
  {
    seq(sp, k requires 0 <= k < sp => Seg(lo[k], hi[k]))
  }

  lemma NoStack(lo: seq<int>, hi: seq<int>, s: Seg)
    ensures Stack(lo, hi, 0) == [] && Stack(lo, hi, 0) + [s] == [s]
  {
  }

  lemma StackTop(lo: seq<int>, hi: seq<int>, sp: nat)
    requires 0 < sp <= |lo| && sp <= |hi|
    ensures Stack(lo, hi, sp) == Stack(lo, hi, sp - 1) + [Seg(lo[sp - 1], hi[sp - 1])]
  {
  }

  method Push(stackLo: array<int>, stackHi: array<int>, sp: nat, lo: int, hi: int) returns (sp': nat)
    requires stackLo != stackHi && stackLo.Length == stackHi.Length && sp < stackLo.Length
    modifies stackLo, stackHi
    ensures sp' == sp + 1
    ensures Stack(stackLo[..], stackHi[..], sp') == old(Stack(stackLo[..], stackHi[..], sp)) + [Seg(lo, hi)]
  {
    stackLo[sp], stackHi[sp] := lo, hi;
    sp' := sp + 1;
  }

  /** The linear congruential generator of the source. */
  function NextPick(r: nat): (n: nat) { (r * 7621 + 1) % 32768 }

  /** Which entry of the segment serves as median. */
  function Pick3(r: nat, lo: nat, hi: nat): (k: nat)
    requires lo <= hi
    ensures lo <= k <= hi
  {
    if r % 3 == 0 then lo else if r % 3 == 1 then (lo + hi) / 2 else hi
  }

  /** What the loop keeps: the array is a rearrangement, the rest is pending, the stack is shallow. */
  ghost predicate Sorting(f0: seq<int>, f: seq<int>, e: seq<int>, st: seq<Seg>, lo: int, hi: int) {
    Shuffled(f0, f, lo, hi) && Pending(f, e, st, lo, hi) && Slim(st, if hi < lo then 0 else hi - lo + 1) && |st| <= 18
  }

  lemma SortingStart(f: seq<int>, e: seq<int>, lo: nat, hi: int)
    requires Classed(f, e, lo, hi)
    ensures Sorting(f, f, e, [Seg(lo, hi)], lo, hi)
  {
    ShuffleNothing(f, lo, hi);
    var st := [Seg(lo, hi)];
    forall p, q | lo <= p < q <= hi ensures Together(st, p, q) {
      assert In(st[0], p) && In(st[0], q);
    }
  }

  lemma SortingSmall(f0: seq<int>, f: seq<int>, g: seq<int>, e: seq<int>, st: seq<Seg>, s: Seg, lo: nat, hi: int)
    requires Sorting(f0, f, e, st + [s], lo, hi) && Shuffled(f, g, s.lo, s.hi) && Ordered(g, e, s.lo, s.hi)
    ensures Sorting(f0, g, e, st, lo, hi)
  {
    hide Shuffled, Ordered, Slim;
    SegmentSorted(f, g, e, st, s, lo, hi);
    WidenShuffle(f0, f, g, e, st, s, lo, hi);
    SlimPop(st, s, if hi < lo then 0 else hi - lo + 1);
  }

  lemma WidenShuffle(f0: seq<int>, f: seq<int>, g: seq<int>, e: seq<int>, st: seq<Seg>, s: Seg, lo: nat, hi: int)
    requires Shuffled(f0, f, lo, hi) && Pending(f, e, st + [s], lo, hi) && Shuffled(f, g, s.lo, s.hi)
    ensures Shuffled(f0, g, lo, hi)
  {
    hide Shuffled, Pending, Ordered;
    PendingParts(f, e, st, s, lo, hi);
    ShuffleLength(f0, f, lo, hi);
    ShuffleWider(f, g, s.lo, s.hi, lo, hi);
    ShuffleAgain(f0, f, g, lo, hi);
  }

  lemma SortingParted(f0: seq<int>, f: seq<int>, g: seq<int>, e: seq<int>, st: seq<Seg>, s: Seg, lo: nat, hi: int,
                      med: int, n: int, m: int, a: Seg, b: Seg)
    requires Sorting(f0, f, e, st + [s], lo, hi) && Shuffled(f, g, s.lo, s.hi)
    requires Parted(g, e, med, s.lo, s.hi, n, m) && n + 1 < m && Size(s) >= 11 && hi - lo < 900000
    requires (a == Seg(s.lo, n) && b == Seg(m, s.hi)) || (a == Seg(m, s.hi) && b == Seg(s.lo, n))
    requires Size(b) <= Size(a)
    ensures Sorting(f0, g, e, st + [a, b], lo, hi) && |st| <= 16
    ensures Weight(st + [a, b]) < Weight(st + [s])
  {
    hide Shuffled, Pending, Slim, Weight;
    SegmentParted(f, g, e, st, s, lo, hi, med, n, m, a, b);
    WidenShuffle(f0, f, g, e, st, s, lo, hi);
    var total := if hi < lo then 0 else hi - lo + 1;
    SlimPush(st, s, a, b, total);
    Shallow(st, s, total);
    WeightPush(st, s);
    WeightPush(st, a);
    WeightPush(st + [a], b);
    assert st + [a, b] == st + [a] + [b];
  }

  lemma SortingEnd(f0: seq<int>, f: seq<int>, e: seq<int>, lo: int, hi: int)
    requires Sorting(f0, f, e, [], lo, hi)
    ensures Shuffled(f0, f, lo, hi) && Ordered(f, e, lo, hi)
  {
    hide Shuffled;
    forall p, q | lo <= p < q <= hi ensures e[f[p]] <= e[f[q]] {
      assert !Together([], p, q);
    }
  }

  lemma TopOf(f0: seq<int>, f: seq<int>, e: seq<int>, st: seq<Seg>, s: Seg, lo: nat, hi: int)
    requires Sorting(f0, f, e, st + [s], lo, hi)
    ensures 0 <= lo <= s.lo <= s.hi + 1 <= hi + 1 <= |f| && Classed(f, e, s.lo, s.hi) && |st| <= 17
  {
    hide Shuffled;
    PendingParts(f, e, st, s, lo, hi);
  }

  /** Sorts the short segment just popped. */
  method SortTop(fmap: array<Word>, eclass: array<Word>, lo: nat, hi: int, ghost f0: seq<int>, ghost e: seq<int>, ghost st: seq<Seg>,
                 loSt: nat, hiSt: int)
    requires fmap != eclass && eclass[..] == e && Sorting(f0, fmap[..], e, st + [Seg(lo, hi)], loSt, hiSt)
    modifies fmap
    ensures Sorting(f0, fmap[..], e, st, loSt, hiSt) && Weight(st) < Weight(st + [Seg(lo, hi)])
  {
    hide Sorting, Shuffled, Ordered, Weight, Classed;
    ghost var f := fmap[..];
    TopOf(f0, f, e, st, Seg(lo, hi), loSt, hiSt);
    WeightPush(st, Seg(lo, hi));
    SimpleSort(fmap, eclass, lo, hi);
    SortingSmall(f0, f, fmap[..], e, st, Seg(lo, hi), loSt, hiSt);
  }

  /** Splits the segment just popped and pushes its parts, the larger one first. */
  method SplitTop(fmap: array<Word>, eclass: array<Word>, stackLo: array<int>, stackHi: array<int>, sp: nat, lo: nat, hi: int, r: nat,
                  ghost f0: seq<int>, ghost e: seq<int>, ghost st: seq<Seg>, loSt: nat, hiSt: int) returns (top: nat)
    requires fmap != eclass && stackLo != stackHi && stackLo.Length == stackHi.Length == 100 && eclass[..] == e && sp <= 100
    requires Sorting(f0, fmap[..], e, st + [Seg(lo, hi)], loSt, hiSt) && st == Stack(stackLo[..], stackHi[..], sp)
    requires hi - lo >= 10 && hiSt - loSt < 900000
    modifies fmap, stackLo, stackHi
    ensures top <= 100 && Sorting(f0, fmap[..], e, Stack(stackLo[..], stackHi[..], top), loSt, hiSt)
    ensures Weight(Stack(stackLo[..], stackHi[..], top)) < Weight(st + [Seg(lo, hi)])
  {
    hide Sorting, Shuffled, Ordered, Parted, Weight, Classed;
    ghost var f, s := fmap[..], Seg(lo, hi);
    TopOf(f0, f, e, st, s, loSt, hiSt);
    var k := Pick3(r, lo, hi);
    ClassAt(f, e, lo, hi, k);
    var med := eclass[fmap[k]];
    var n, m := Partition(fmap, eclass, med, lo, hi);
    PartBounds(fmap[..], e, med, lo, hi, n, m);
    ghost var g, left, right := fmap[..], Seg(lo, n), Seg(m, hi);
    if n - lo > hi - m {
      SortingParted(f0, f, g, e, st, s, loSt, hiSt, med, n, m, left, right);
      top := Push(stackLo, stackHi, sp, lo, n);
      top := Push(stackLo, stackHi, top, m, hi);
      assert Stack(stackLo[..], stackHi[..], top) == st + [left, right];
    } else {
      SortingParted(f0, f, g, e, st, s, loSt, hiSt, med, n, m, right, left);
      top := Push(stackLo, stackHi, sp, m, hi);
      top := Push(stackLo, stackHi, top, lo, n);
      assert Stack(stackLo[..], stackHi[..], top) == st + [right, left];
    }
  }

  lemma PartBounds(f: seq<int>, e: seq<int>, med: int, lo: int, hi: int, n: int, m: int)
    requires Parted(f, e, med, lo, hi, n, m)
    ensures lo - 1 <= n < m <= hi + 1
  {
  }

  /** One turn of the loop: a segment is popped, and sorted or split. */
  method Turn(fmap: array<Word>, eclass: array<Word>, stackLo: array<int>, stackHi: array<int>, sp: nat, r: nat,
              ghost f0: seq<int>, ghost e: seq<int>, loSt: nat, hiSt: int) returns (top: nat, pick: nat)
    requires fmap != eclass && stackLo != stackHi && stackLo.Length == stackHi.Length == 100 && eclass[..] == e && 0 < sp <= 100
    requires hiSt - loSt < 900000 && Sorting(f0, fmap[..], e, Stack(stackLo[..], stackHi[..], sp), loSt, hiSt)
    modifies fmap, stackLo, stackHi
    ensures top <= 100 && Sorting(f0, fmap[..], e, Stack(stackLo[..], stackHi[..], top), loSt, hiSt)
    ensures Weight(Stack(stackLo[..], stackHi[..], top)) < old(Weight(Stack(stackLo[..], stackHi[..], sp)))
  {
    hide *;
    ghost var st := Stack(stackLo[..], stackHi[..], sp - 1);
    StackTop(stackLo[..], stackHi[..], sp);
    var lo, hi := stackLo[sp - 1], stackHi[sp - 1];
    TopOf(f0, fmap[..], e, st, Seg(lo, hi), loSt, hiSt);
    assert sp < 100 - 1;
    top, pick := sp - 1, r;
    if hi - lo < 10 {
      SortTop(fmap, eclass, lo, hi, f0, e, st, loSt, hiSt);
    } else {
      pick := NextPick(r);
      top := SplitTop(fmap, eclass, stackLo, stackHi, top, lo, hi, pick, f0, e, st, loSt, hiSt);
    }
  }

  /** fallbackQSort3: for every input the segment ends up ordered by class and nothing else moves;
      assertion 1004 holds at every turn. */
  method QSort3(fmap: array<Word>, eclass: array<Word>, loSt: nat, hiSt: int)
    requires fmap != eclass && Classed(fmap[..], eclass[..], loSt, hiSt) && hiSt - loSt < 900000
    modifies fmap
    ensures Shuffled(old(fmap[..]), fmap[..], loSt, hiSt) && Ordered(fmap[..], eclass[..], loSt, hiSt)
  {
    hide *;
    ghost var f0, e := fmap[..], eclass[..];
    var stackLo, stackHi := new int[100], new int[100];
    var r, sp := 0, 0;
    SortingStart(f0, e, loSt, hiSt);
    NoStack(stackLo[..], stackHi[..], Seg(loSt, hiSt));
    sp := Push(stackLo, stackHi, sp, loSt, hiSt);
    while sp > 0
      invariant sp <= 100 && eclass[..] == e
      invariant Sorting(f0, fmap[..], e, Stack(stackLo[..], stackHi[..], sp), loSt, hiSt)
      decreases Weight(Stack(stackLo[..], stackHi[..], sp))
    {
      sp, r := Turn(fmap, eclass, stackLo, stackHi, sp, r, f0, e, loSt, hiSt);
    }
    NoStack(stackLo[..], stackHi[..], Seg(loSt, hiSt));
    SortingEnd(f0, fmap[..], e, loSt, hiSt);
  }

  lemma ClassAt(f: seq<int>, e: seq<int>, lo: int, hi: int, k: int)
    requires Classed(f, e, lo, hi) && lo <= k <= hi
    ensures 0 <= k < |f| && 0 <= f[k] < |e|
  {
  }
}

/** hbMakeCodeLengths (huffman.c): code lengths from frequencies, within a limit. */
module HuffmanLengths {
  import opened Basics
  import opened CodeHeap
  import opened CodeTree
  import opened Canonical
  import opened LeastCost
  import opened TreeCost

  // --- Heap operations as the tree builder uses them ---

  method Push(heap: array<int>, weight: array<int>, nHeap: nat, x: nat)
    requires heap != weight && nHeap + 1 < heap.Length && 0 < x < weight.Length
    requires Entries(heap[..], weight[..], nHeap) && Ordered(heap[..], weight[..], nHeap)
    modifies heap
    ensures Entries(heap[..], weight[..], nHeap + 1) && Ordered(heap[..], weight[..], nHeap + 1)
    ensures Held(heap[..], nHeap + 1) == old(Held(heap[..], nHeap)) + multiset{x}
  {
    ghost var h := heap[..];
    heap[nHeap + 1] := x;
    assert heap[..][1..nHeap + 2] == h[1..nHeap + 1] + [x];
    UpHeap(heap, weight, nHeap + 1);
  }

  method Pop(heap: array<int>, weight: array<int>, nHeap: nat) returns (x: int)
    requires heap != weight && 1 <= nHeap < heap.Length
    requires Entries(heap[..], weight[..], nHeap) && Ordered(heap[..], weight[..], nHeap)
    modifies heap
    ensures Entries(heap[..], weight[..], nHeap - 1) && Ordered(heap[..], weight[..], nHeap - 1)
    ensures 0 < x < weight.Length && x in old(Held(heap[..], nHeap))
    ensures Held(heap[..], nHeap - 1) == old(Held(heap[..], nHeap)) - multiset{x}
    ensures forall y :: y in old(Held(heap[..], nHeap)) ==> 0 <= y < weight.Length && weight[x] <= weight[y]
  {
    hide Held, Ordered, OrderedUnder;
    ghost var h := heap[..];
    x := heap[1];
    FirstIsLeast(h, weight[..], nHeap);
    HeldMember(h, nHeap, 1);
    LastToTop(h, nHeap);
    TopReplaced(h, weight[..], nHeap);
    heap[1] := heap[nHeap];
    assert heap[..] == h[1 := h[nHeap]];
    DownHeap(heap, weight, nHeap - 1);
  }

  lemma FirstIsLeast(h: seq<int>, w: seq<int>, n: nat)
    requires 1 <= n < |h| && Entries(h, w, n) && Ordered(h, w, n)
    ensures 0 <= h[1] < |w| && forall y :: y in Held(h, n) ==> 0 <= y < |w| && w[h[1]] <= w[y]
  {
    hide Ordered;
    forall y | y in Held(h, n) ensures 0 <= y < |w| && w[h[1]] <= w[y] {
      assert y in h[1..n + 1];
      var i :| 1 <= i <= n && h[i] == y;
      FirstIsLightest(h, w, n, i);
    }
  }

  lemma TopReplaced(h: seq<int>, w: seq<int>, n: nat)
    requires 1 <= n < |h| && Entries(h, w, n) && Ordered(h, w, n)
    ensures Entries(h[1 := h[n]], w, n - 1) && OrderedUnder(h[1 := h[n]], w, n - 1, 1)
  {
  }

  lemma LastToTop(h: seq<int>, n: nat)
    requires 1 <= n < |h|
    ensures Held(h[1 := h[n]], n - 1) == Held(h, n) - multiset{h[1]}
  {
    if n == 1 {
      assert h[1 := h[n]][1..1] == [] && h[1..2] == [h[1]];
    } else {
      EndsSwapped(h, n);
      var t := h[2..n];
      assert multiset([h[n]] + t) == multiset{h[n]} + multiset(t);
      assert multiset([h[1]] + t + [h[n]]) == multiset{h[1]} + multiset(t) + multiset{h[n]};
    }
  }

  lemma EndsSwapped(h: seq<int>, n: nat)
    requires 2 <= n < |h|
    ensures h[1 := h[n]][1..n] == [h[n]] + h[2..n] && h[1..n + 1] == [h[1]] + h[2..n] + [h[n]]
  {
  }

  // --- The forest while it grows ---

  /** The heap holds the roots, each once. */
  ghost predicate HoldsRoots(held: multiset<int>, par: seq<int>, top: nat) {
    top < |par| && forall x :: held[x] == if 1 <= x <= top && par[x] < 0 then 1 else 0
  }

  /** Every tree's leaves fill it: Kraft's sum is 1, in units of 2^-516. */
  ghost predicate FullTrees(par: seq<int>, top: nat, n: nat) {
    Shaped(par, top) && n <= top <= 516
    && forall r: nat :: 1 <= r <= top && par[r] < 0 ==> TreeSum(par, top, n, r, 516) == Pow2(516)
  }

  ghost predicate Growing(w: seq<int>, par: seq<int>, top: nat, n: nat, total: int) {
    && |w| == |par| == 516 && 2 <= n <= 258 && n <= top < 2 * n
    && Balanced(w, par, top) && FullTrees(par, top, n) && Thrifty(w, par, top, n)
    && RootTotal(w, par, top) == total < 0x80_0000
  }

  lemma MergeFull(par: seq<int>, top: nat, n: nat, a: nat, b: nat)
    requires Mergeable(par, top, a, b) && FullTrees(par, top, n) && top < 515
    ensures FullTrees(Merge(par, a, b, top + 1), top + 1, n)
  {
    hide TreeSum, Pow2;
    var m := Merge(par, a, b, top + 1);
    MergeShaped(par, top, a, b);
    MergeSum(par, top, a, b, n, 516);
    forall r: nat | 1 <= r <= top && m[r] < 0 ensures TreeSum(m, top + 1, n, r, 516) == Pow2(516) {
      OtherSum(par, top, a, b, n, r, 516);
    }
  }

  /** Heights stay far below the 8 bits they have. */
  lemma LowHeights(w: seq<int>, par: seq<int>, top: nat, n: nat, total: int, k: nat)
    requires Growing(w, par, top, n, total) && 1 <= k <= top && par[k] < 0
    ensures Height(w[k]) <= 34
  {
    hide Sum, Height, Fib, Balanced, FullTrees, RootTotal;
    BalancedPair(w, par, top, k, k);
    BalancedWeights(w, par, top);
    RootBelowTotal(w, par, top, k);
    HeightBound(Height(w[k]), total);
  }

  lemma MergeGrows(w: seq<int>, par: seq<int>, top: nat, n: nat, total: int, a: nat, b: nat)
    requires Growing(w, par, top, n, total) && Lightest(w, par, top, a, b) && top + 1 < 2 * n
    ensures Growing(w[top + 1 := Joined(w[a], w[b])], Merge(par, a, b, top + 1), top + 1, n, total)
  {
    hide Balanced, RootTotal, FullTrees, Merge, Joined, Thrifty;
    BalancedWeights(w, par, top);
    MergeBalanced(w, par, top, a, b);
    MergeThrifty(w, par, top, n, a, b);
    MergeFull(par, top, n, a, b);
    MergeTotal(w, par, top, a, b);
  }

  lemma BalancedWeights(w: seq<int>, par: seq<int>, top: nat)
    requires Balanced(w, par, top)
    ensures |w| == |par| && forall k :: 1 <= k <= top ==> w[k] >= 256
  {
  }

  /** ADDWEIGHTS. */
  function AddWeights(x: nat, y: nat): (r: int)
    requires Height(x) < 255 && Height(y) < 255
    ensures r == Joined(x, y)
  {
    var d := 1 + (if x % 256 > y % 256 then x % 256 else y % 256);
    JoinWord(Sum(x) + Sum(y), d);
    Or((x - x % 256) + (y - y % 256), d)
  }

  lemma JoinWord(s: nat, d: nat)
    requires d < 256
    ensures Or(256 * s, d) == 256 * s + d
  {
    Shl8(s);
    Shl8(1);
    OrDisjoint(s, 8, d);
  }

  // --- Building the tree ---

  /** The leaves' weights: scaled frequencies, height 0. */
  ghost predicate Leaves(w: seq<int>, n: nat) {
    2 <= n <= 258 && n < |w| && forall i :: 1 <= i <= n ==> w[i] >= 256 && Height(w[i]) == 0
  }

  /** Their total. */
  function LeafTotal(w: seq<int>, n: nat): (r: int)
    requires n < |w|
  {
    if n == 0 then 0 else LeafTotal(w, n - 1) + Sum(w[n])
  }

  lemma {:induction false} RootsAtStart(w: seq<int>, par: seq<int>, n: nat, m: nat)
    requires n < |w| && n < |par| && m <= n && forall k :: 1 <= k <= n ==> par[k] == -1
    ensures RootTotal(w, par, m) == LeafTotal(w, m)
    decreases m
  {
    if m > 0 { RootsAtStart(w, par, n, m - 1); }
  }

  lemma {:induction false} LeafSum(par: seq<int>, n: nat, j: nat, r: nat)
    requires n < |par| && n <= 516 && j <= n && forall k :: 1 <= k <= n ==> par[k] == -1
    requires 1 <= r <= n
    ensures Shaped(par, n) && TreeSum(par, n, j, r, 516) == if r <= j then Pow2(516) else 0
    decreases j
  {
    hide Pow2;
    if j > 0 { LeafSum(par, n, j - 1, r); }
  }

  lemma StartGrowing(w: seq<int>, par: seq<int>, n: nat)
    requires |w| == |par| == 516 && Leaves(w, n) && LeafTotal(w, n) < 0x80_0000
    requires forall k :: 1 <= k <= n ==> par[k] == -1
    ensures Growing(w, par, n, n, LeafTotal(w, n))
  {
    hide Pow2, TreeSum, Sum, Height, Thrifty;
    StartThrifty(w, par, n);
    RootsAtStart(w, par, n, n);
    assert Fib(2) == 1 && Fib(1) == 1;
    SumOf256();
    forall k | 1 <= k <= n ensures Sum(w[k]) >= 1 { SumMono(256, w[k]); }
    forall r: nat | 1 <= r <= n ensures TreeSum(par, n, n, r, 516) == Pow2(516) { LeafSum(par, n, n, r); }
    assert Shaped(par, n);
  }

  ghost predicate HoldsUpTo(held: multiset<int>, i: int) {
    forall x :: held[x] == if 1 <= x <= i then 1 else 0
  }

  lemma HoldsNext(held: multiset<int>, i: int)
    requires i >= 0 && HoldsUpTo(held, i)
    ensures HoldsUpTo(held + multiset{i + 1}, i + 1)
  {
  }

  lemma HoldsNone(heap: seq<int>)
    requires |heap| > 0
    ensures HoldsUpTo(Held(heap, 0), 0)
  {
    assert heap[1..1] == [];
  }

  lemma OrderedNone(heap: seq<int>, w: seq<int>)
    requires Entries(heap, w, 0)
    ensures Ordered(heap, w, 0)
  {
  }

  lemma AllRoots(held: multiset<int>, par: seq<int>, n: nat)
    requires n < |par| && HoldsUpTo(held, n) && forall k :: 1 <= k <= n ==> par[k] == -1
    ensures HoldsRoots(held, par, n)
  {
  }

  /** The first loop: every leaf a root, all in the heap. */
  method PlantLeaves(heap: array<int>, weight: array<int>, parent: array<int>, n: nat)
    requires heap.Length == 260 && weight.Length == 516 && parent.Length == 516
    requires heap != weight && heap != parent && weight != parent
    requires Leaves(weight[..], n) && forall k :: 0 < k < 516 ==> weight[k] >= 0
    modifies heap, weight, parent
    ensures weight[..] == old(weight[..])[0 := 0]
    ensures Entries(heap[..], weight[..], n) && Ordered(heap[..], weight[..], n)
    ensures HoldsRoots(Held(heap[..], n), parent[..], n)
    ensures forall k :: 1 <= k <= n ==> parent[k] == -1
  {
    hide Held, OrderedBut, HoldsUpTo;
    heap[0] := 0;
    weight[0] := 0;
    parent[0] := -2;
    ghost var w := weight[..];
    HoldsNone(heap[..]);
    OrderedNone(heap[..], w);
    for i := 1 to n + 1
      invariant weight[..] == w
      invariant forall k :: 1 <= k < i ==> parent[k] == -1
      invariant Entries(heap[..], w, i - 1) && Ordered(heap[..], w, i - 1)
      invariant HoldsUpTo(Held(heap[..], i - 1), i - 1)
    {
      HoldsNext(Held(heap[..], i - 1), i - 1);
      parent[i] := -1;
      Push(heap, weight, i - 1, i);
    }
    AllRoots(Held(heap[..], n), parent[..], n);
  }

  lemma OrderedSame(heap: seq<int>, w: seq<int>, v: seq<int>, n: nat)
    requires Entries(heap, w, n) && Ordered(heap, w, n) && |v| == |w| && v[0] == 0
    requires forall k :: 0 < k < |v| ==> v[k] >= 0
    requires forall i :: 1 <= i <= n ==> v[heap[i]] == w[heap[i]]
    ensures Entries(heap, v, n) && Ordered(heap, v, n)
  {
  }

  /** The two lightest roots leave the heap. */
  method TakeTwo(heap: array<int>, weight: array<int>, ghost par: seq<int>, n: nat, nHeap: nat, ghost nNodes: nat, ghost total: int)
    returns (n1: int, n2: int)
    requires heap != weight && 2 <= nHeap < heap.Length
    requires Growing(weight[..], par, nNodes, n, total) && nNodes + 1 < 2 * n
    requires Entries(heap[..], weight[..], nHeap) && Ordered(heap[..], weight[..], nHeap)
    requires HoldsRoots(Held(heap[..], nHeap), par, nNodes)
    modifies heap
    ensures 0 < n1 <= nNodes && 0 < n2 <= nNodes && Lightest(weight[..], par, nNodes, n1, n2)
    ensures Entries(heap[..], weight[..], nHeap - 2) && Ordered(heap[..], weight[..], nHeap - 2)
    ensures Held(heap[..], nHeap - 2) == old(Held(heap[..], nHeap)) - multiset{n1} - multiset{n2}
  {
    hide Growing, Height, Held, Ordered, OrderedBut;
    ghost var w := weight[..];
    ghost var held := Held(heap[..], nHeap);
    GrowingShape(w, par, nNodes, n, total);
    n1 := Pop(heap, weight, nHeap);
    n2 := Pop(heap, weight, nHeap - 1);
    assert (held - multiset{n1})[n2] == 1;
    assert held[n1] == 1 && held[n2] == 1;
    LowHeights(w, par, nNodes, n, total, n1);
    LowHeights(w, par, nNodes, n, total, n2);
    forall q | 1 <= q <= nNodes && par[q] < 0
      ensures q != n1 ==> w[n1] <= w[q]
      ensures q != n1 && q != n2 ==> w[n2] <= w[q]
    {
      assert held[q] == 1;
    }
  }

  /** The forest and the heap of its roots, in one. */
  ghost predicate Forest(heap: seq<int>, w: seq<int>, par: seq<int>, n: nat, nHeap: nat, nNodes: nat, total: int) {
    && Growing(w, par, nNodes, n, total) && nHeap + nNodes == 2 * n && nHeap < |heap| == 260
    && Entries(heap, w, nHeap) && Ordered(heap, w, nHeap) && HoldsRoots(Held(heap, nHeap), par, nNodes)
  }

  /** One merge: the two lightest roots leave the heap, their parent enters it. */
  method MergeStep(heap: array<int>, weight: array<int>, parent: array<int>, n: nat, nHeap: nat, nNodes: nat, ghost total: int)
    requires heap.Length == 260 && weight.Length == 516 && parent.Length == 516 && n <= 258
    requires heap != weight && heap != parent && weight != parent
    requires 2 <= nHeap && Forest(heap[..], weight[..], parent[..], n, nHeap, nNodes, total)
    modifies heap, weight, parent
    ensures Forest(heap[..], weight[..], parent[..], n, nHeap - 1, nNodes + 1, total)
    ensures forall i :: 0 <= i <= n ==> weight[i] == old(weight[i])
  {
    hide Growing, Height, Held, Ordered, OrderedBut, Merge, HoldsRoots;
    ghost var w, par := weight[..], parent[..];
    ghost var held := Held(heap[..], nHeap);
    GrowingShape(w, par, nNodes, n, total);
    var n1, n2 := TakeTwo(heap, weight, par, n, nHeap, nNodes, total);
    MergeGrows(w, par, nNodes, n, total, n1, n2);
    RootsAfter(held, par, nNodes, n1, n2);
    RootsAbsent(heap[..], nHeap - 2, held, n1, n2, par, nNodes);
    var g := nNodes + 1;
    parent[n1] := g;
    parent[n2] := g;
    weight[g] := AddWeights(weight[n1], weight[n2]);
    parent[g] := -1;
    MergedArray(par, parent[..], n1, n2, g);
    JoinedPositive(w[n1], w[n2]);
    OrderedSame(heap[..], w, weight[..], nHeap - 2);
    Push(heap, weight, nHeap - 2, g);
  }

  lemma RootsAbsent(heap: seq<int>, n: nat, held: multiset<int>, a: int, b: int, par: seq<int>, top: nat)
    requires n < |heap| && HoldsRoots(held, par, top) && Held(heap, n) == held - multiset{a} - multiset{b}
    ensures forall i :: 1 <= i <= n ==> heap[i] != top + 1
  {
    forall i | 1 <= i <= n ensures heap[i] != top + 1 {
      HeldMember(heap, n, i);
      assert held[heap[i]] >= 1;
    }
  }

  lemma GrowingShape(w: seq<int>, par: seq<int>, top: nat, n: nat, total: int)
    requires Growing(w, par, top, n, total)
    ensures Shaped(par, top) && |w| == |par| == 516 && n <= top < 2 * n <= 516
    ensures forall k :: 1 <= k <= top ==> w[k] >= 256
  {
  }

  lemma MergedArray(par: seq<int>, after: seq<int>, a: nat, b: nat, g: nat)
    requires a < |par| && b < |par| && g < |par| && after == par[a := g][b := g][g := -1]
    ensures after == Merge(par, a, b, g)
  {
  }

  lemma JoinedPositive(x: int, y: int)
    requires x >= 256 && y >= 256
    ensures Joined(x, y) >= 0
  {
  }

  lemma RootsAfter(held: multiset<int>, par: seq<int>, top: nat, a: nat, b: nat)
    requires HoldsRoots(held, par, top) && Mergeable(par, top, a, b)
    ensures HoldsRoots(held - multiset{a} - multiset{b} + multiset{top + 1}, Merge(par, a, b, top + 1), top + 1)
  {
    var m := Merge(par, a, b, top + 1);
    forall x ensures (held - multiset{a} - multiset{b} + multiset{top + 1})[x]
                     == if 1 <= x <= top + 1 && m[x] < 0 then 1 else 0 {
    }
  }

  /** The finished tree: node 2n-1 is the only root. */
  ghost predicate Tree(w: seq<int>, par: seq<int>, n: nat, total: int) {
    && n >= 1 && Growing(w, par, 2 * n - 1, n, total)
    && forall k :: 1 <= k <= 2 * n - 1 ==> (par[k] < 0 <==> k == 2 * n - 1)
  }

  method BuildTree(heap: array<int>, weight: array<int>, parent: array<int>, n: nat)
    requires heap.Length == 260 && weight.Length == 516 && parent.Length == 516
    requires heap != weight && heap != parent && weight != parent
    requires Leaves(weight[..], n) && LeafTotal(weight[..], n) < 0x80_0000
    requires forall k :: 0 < k < 516 ==> weight[k] >= 0
    modifies heap, weight, parent
    ensures Tree(weight[..], parent[..], n, old(LeafTotal(weight[..], n)))
    ensures forall i :: 1 <= i <= n ==> weight[i] == old(weight[i])
    ensures forall k :: 0 <= k < 516 ==> weight[k] >= 0
  {
    hide Growing, Ordered, OrderedBut, Held;
    ghost var w0, total := weight[..], LeafTotal(weight[..], n);
    PlantLeaves(heap, weight, parent, n);
    LeafTotalSame(w0, weight[..], n);
    assert Leaves(weight[..], n);
    StartGrowing(weight[..], parent[..], n);
    var nNodes, nHeap := n, n;
    while nHeap > 1
      invariant 1 <= nHeap && Forest(heap[..], weight[..], parent[..], n, nHeap, nNodes, total)
      invariant forall i :: 1 <= i <= n ==> weight[i] == w0[i]
    {
      MergeStep(heap, weight, parent, n, nHeap, nNodes, total);
      nNodes := nNodes + 1;
      nHeap := nHeap - 1;
    }
    OneRoot(heap[..], parent[..], nNodes, weight[..], n, total);
  }

  lemma {:induction false} LeafTotalSame(w: seq<int>, v: seq<int>, n: nat)
    requires n < |w| && n < |v| && forall i :: 1 <= i <= n ==> v[i] == w[i]
    ensures LeafTotal(v, n) == LeafTotal(w, n)
    decreases n
  {
    if n > 0 { LeafTotalSame(w, v, n - 1); }
  }

  lemma OneRoot(heap: seq<int>, par: seq<int>, top: nat, w: seq<int>, n: nat, total: int)
    requires |heap| > 1 && HoldsRoots(Held(heap, 1), par, top) && Growing(w, par, top, n, total) && top == 2 * n - 1
    ensures Tree(w, par, n, total)
  {
    GrowingShape(w, par, top, n, total);
    assert heap[1..2] == [heap[1]];
    assert par[top] == -1;
    forall k | 1 <= k <= top ensures par[k] < 0 <==> k == top {
      assert Held(heap, 1)[k] == if k == heap[1] then 1 else 0;
      assert Held(heap, 1)[top] == 1;
    }
  }

  // --- Lengths ---

  /** The tree's lengths fill the code space exactly, and none needs more weight than there is. */
  lemma TreeLengths(w: seq<int>, par: seq<int>, n: nat, total: int, lens: seq<Byte>)
    requires Tree(w, par, n, total) && |lens| == n
    requires forall i :: 0 <= i < n ==> lens[i] == Depth(par, 2 * n - 1, i + 1)
    ensures KraftSum(lens, 516) == Pow2(516)
    ensures forall i :: 0 <= i < n ==> lens[i] >= 1 && Fib(lens[i] as nat + 2) <= total
    ensures n < |w| && Optimal(LeafWeights(w, n), lens)
  {
    hide Pow2, TreeSum, KraftSum, Balanced, RootTotal, Optimal, Thrifty, LeafWeights;
    var top := 2 * n - 1;
    DepthsCheapest(w, par, top, n, lens);
    forall i: nat | 0 <= i < n ensures lens[i] >= 1 && Fib(lens[i] as nat + 2) <= total {
      assert par[i + 1] >= 0;
      assert lens[i] == Depth(par, top, i + 1);
      DepthNeedsWeight(w, par, top, i + 1);
    }
    assert TreeSum(par, top, n, top, 516) == Pow2(516);
    PrefixSum(par, top, lens, n);
    assert lens[..n] == lens;
  }

  lemma {:induction false} PrefixSum(par: seq<int>, top: nat, lens: seq<Byte>, i: nat)
    requires Shaped(par, top) && i <= |lens| <= top <= 516
    requires forall k :: 1 <= k <= top ==> (par[k] < 0 <==> k == top)
    requires forall k :: 0 <= k < |lens| ==> lens[k] == Depth(par, top, k + 1)
    ensures KraftSum(lens[..i], 516) == TreeSum(par, top, i, top, 516)
    decreases i
  {
    hide Pow2, Depth, Root;
    if i > 0 {
      PrefixSum(par, top, lens, i - 1);
      assert lens[..i][..i - 1] == lens[..i - 1];
      RootIsTop(par, top, i);
    }
  }

  lemma RootIsTop(par: seq<int>, top: nat, k: nat)
    requires Shaped(par, top) && 1 <= k <= top
    requires forall k :: 1 <= k <= top ==> (par[k] < 0 <==> k == top)
    ensures Root(par, top, k) == top && Depth(par, top, k) <= 516 + top
  {
    var r := Root(par, top, k);
    assert par[r] == -1;
  }

  /** The climbing loop: each leaf's depth, and whether any is too deep. */
  method ReadDepths(parent: array<int>, lens: array<Byte>, n: nat, maxLen: nat, ghost w: seq<int>, ghost total: int)
    returns (tooLong: bool)
    requires parent.Length == 516 && n <= lens.Length && Tree(w, parent[..], n, total)
    modifies lens
    ensures parent[..] == old(parent[..])
    ensures forall i :: 0 <= i < n ==> lens[i] == Depth(parent[..], 2 * n - 1, i + 1)
    ensures tooLong <==> exists i :: 0 <= i < n && lens[i] > maxLen
    ensures forall k :: n <= k < lens.Length ==> lens[k] == old(lens[k])
  {
    hide Growing, Depth;
    ghost var par, top := parent[..], 2 * n - 1;
    GrowingShape(w, par, top, n, total);
    tooLong := false;
    for i := 1 to n + 1
      invariant parent[..] == par
      invariant forall k :: 0 <= k < i - 1 ==> lens[k] == Depth(par, top, k + 1)
      invariant tooLong <==> AnyAbove(lens[..i - 1], maxLen)
      invariant forall k :: n <= k < lens.Length ==> lens[k] == old(lens[k])
    {
      var j := Climb(parent, i, top);
      DepthIsByte(w, par, n, total, i);
      ghost var before := lens[..i - 1];
      lens[i - 1] := j;
      assert lens[..i] == before + [j];
      AnyAboveNext(before, j, maxLen);
      if j > maxLen { tooLong := true; }
    }
    assert tooLong <==> AnyAbove(lens[..n], maxLen);
  }

  predicate AnyAbove(lens: seq<Byte>, m: nat) {
    exists k :: 0 <= k < |lens| && lens[k] > m
  }

  lemma AnyAboveNext(lens: seq<Byte>, x: Byte, m: nat)
    ensures AnyAbove(lens + [x], m) <==> AnyAbove(lens, m) || x > m
  {
    var more := lens + [x];
    if AnyAbove(lens, m) {
      var k :| 0 <= k < |lens| && lens[k] > m;
      assert more[k] > m;
    }
    if x > m { assert more[|lens|] > m; }
  }

  method Climb(parent: array<int>, i: nat, ghost top: nat) returns (j: nat)
    requires Shaped(parent[..], top) && 1 <= i <= top
    ensures j == Depth(parent[..], top, i)
  {
    j := 0;
    var k := i;
    while parent[k] >= 0
      invariant 1 <= k <= top && j + Depth(parent[..], top, k) == Depth(parent[..], top, i)
      decreases top - k
    {
      k := parent[k];
      j := j + 1;
    }
  }

  lemma DepthIsByte(w: seq<int>, par: seq<int>, n: nat, total: int, k: nat)
    requires Tree(w, par, n, total) && 1 <= k <= n
    ensures Shaped(par, 2 * n - 1) && Depth(par, 2 * n - 1, k) <= 34
  {
    hide Balanced, RootTotal, Depth;
    GrowingShape(w, par, 2 * n - 1, n, total);
    DepthNeedsWeight(w, par, 2 * n - 1, k);
    HeightBound(Depth(par, 2 * n - 1, k), total);
  }

  // --- Scaling down ---

  function Halved(w: int): int {
    256 * (1 + Sum(w) / 2)
  }

  /** Halving keeps every leaf a leaf and lowers the total as soon as some weight exceeds 2. */
  lemma {:induction false} HalvedTotal(w: seq<int>, v: seq<int>, n: nat)
    requires n < |w| && n < |v|
    requires forall i :: 1 <= i <= n ==> w[i] >= 256 && v[i] == Halved(w[i])
    ensures LeafTotal(v, n) <= LeafTotal(w, n)
    ensures (exists i :: 1 <= i <= n && Sum(w[i]) >= 3) ==> LeafTotal(v, n) < LeafTotal(w, n)
    decreases n
  {
    if n > 0 {
      HalvedTotal(w, v, n - 1);
      assert Sum(v[n]) == 1 + Sum(w[n]) / 2;
    }
  }

  lemma {:induction false} SmallTotal(w: seq<int>, n: nat)
    requires n < |w| && forall i :: 1 <= i <= n ==> Sum(w[i]) <= 2
    ensures LeafTotal(w, n) <= 2 * n
    decreases n
  {
    if n > 0 { SmallTotal(w, n - 1); }
  }

  method HalveWeights(weight: array<int>, n: nat)
    requires weight.Length == 516 && Leaves(weight[..], n) && forall k :: 0 <= k < 516 ==> weight[k] >= 0
    modifies weight
    ensures Leaves(weight[..], n) && forall k :: 0 <= k < 516 ==> weight[k] >= 0
    ensures forall i :: 1 <= i <= n ==> weight[i] == Halved(old(weight[i]))
  {
    ghost var w := weight[..];
    for i := 1 to n + 1
      invariant forall k :: 1 <= k < i ==> weight[k] == Halved(w[k])
      invariant forall k :: i <= k < 516 ==> weight[k] == w[k]
      invariant weight[0] == w[0]
    {
      var j := weight[i] / 256;
      j := 1 + j / 2;
      weight[i] := j * 256;
    }
  }

  /** What the compressor relies on: every length within the limit, and a code that is exactly full. */
  ghost predicate FullCode(lens: seq<Byte>, maxLen: nat) {
    && (forall i :: 0 <= i < |lens| ==> 1 <= lens[i] <= maxLen)
    && KraftSum(lens, maxLen) == Pow2(maxLen)
  }

  lemma {:induction false} KraftScaled(lens: seq<Byte>, m: nat, k: nat)
    requires forall i :: 0 <= i < |lens| ==> lens[i] <= m
    ensures KraftSum(lens, m + k) == Shl(KraftSum(lens, m), k)
    decreases |lens|
  {
    if lens == [] {
      Shl0(k);
    } else {
      var init, x := lens[..|lens| - 1], lens[|lens| - 1];
      KraftScaled(init, m, k);
      ShlAdd(KraftSum(init, m), Share(x, m), k);
      Pow2Add(m - x, k);
    }
  }

  lemma FullAtLimit(lens: seq<Byte>, maxLen: nat)
    requires maxLen <= 516 && KraftSum(lens, 516) == Pow2(516)
    requires forall i :: 0 <= i < |lens| ==> 1 <= lens[i] <= maxLen
    ensures FullCode(lens, maxLen)
  {
    hide KraftSum, Shl;
    var k := 516 - maxLen;
    KraftScaled(lens, maxLen, k);
    Pow2Add(maxLen, k);
    var x, y := KraftSum(lens, maxLen), Pow2(maxLen);
    if x < y { ShlLess(x, y, k); }
    if y < x { ShlLess(y, x, k); }
  }

  /** The weights of round r: the frequencies, but at least 1, and 1 more than half of those before in
      each further round. */
  function Scaled(freq: seq<nat>, r: nat): (w: seq<nat>)
    ensures |w| == |freq|
    decreases r
  {
    if r == 0 then seq(|freq|, i requires 0 <= i < |freq| => if freq[i] == 0 then 1 else freq[i])
    else
      var v := Scaled(freq, r - 1);
      seq(|v|, i requires 0 <= i < |v| => 1 + v[i] / 2)
  }

  /** A round whose code was not kept: the cheapest code found had a length above the limit. */
  ghost predicate TooLong(w: seq<nat>, maxLen: nat) {
    exists lens: seq<nat> :: Optimal(w, lens) && exists k :: 0 <= k < |lens| && lens[k] > maxLen
  }

  /** The cheapest code for the frequencies, after as many rounds of scaling as it takes to find one
      within the limit; frequencies that add up to less than Fib(maxLen + 3) are never scaled. */
  ghost predicate BestCode(lens: seq<Byte>, freq: seq<nat>, maxLen: nat) {
    FullCode(lens, maxLen) && exists rounds: nat :: BestAfter(lens, freq, maxLen, rounds)
  }

  ghost predicate BestAfter(lens: seq<Byte>, freq: seq<nat>, maxLen: nat, rounds: nat) {
    && Optimal(Scaled(freq, rounds), lens)
    && (forall r: nat :: r < rounds ==> TooLong(Scaled(freq, r), maxLen))
    && (FreqTotal(freq) < Fib(maxLen + 3) ==> rounds == 0)
  }

  lemma NextRound(freq: seq<nat>, r: nat, w: seq<int>, v: seq<int>)
    requires |freq| < |w| && |freq| < |v| && LeafWeights(w, |freq|) == Scaled(freq, r)
    requires forall i :: 1 <= i <= |freq| ==> w[i] >= 256 && v[i] == Halved(w[i])
    ensures LeafWeights(v, |freq|) == Scaled(freq, r + 1)
  {
    forall i | 0 <= i < |freq| ensures LeafWeights(v, |freq|)[i] == Scaled(freq, r + 1)[i] {
      HalvedWeight(w[i + 1]);
      assert LeafWeights(w, |freq|)[i] == Weight(w[i + 1]);
    }
  }

  lemma HalvedWeight(x: int)
    requires x >= 256
    ensures Weight(Halved(x)) == 1 + Weight(x) / 2
  {
    assert Sum(256 * (1 + Sum(x) / 2)) == 1 + Sum(x) / 2;
  }

  lemma FirstRound(freq: seq<nat>, w: seq<int>)
    requires |freq| < |w| && forall i :: 1 <= i <= |freq| ==> w[i] == Start(freq[i - 1])
    ensures LeafWeights(w, |freq|) == Scaled(freq, 0)
    ensures 2 <= |freq| <= 258 ==> Leaves(w, |freq|)
  {
  }

  lemma SameLeafWeights(w: seq<int>, v: seq<int>, n: nat)
    requires n < |w| && n < |v| && forall i :: 1 <= i <= n ==> w[i] == v[i]
    ensures LeafWeights(w, n) == LeafWeights(v, n)
  {
    hide Weight;
  }

  /** The scaled frequencies of the first loop. */
  function Start(freq: nat): nat {
    256 * (if freq == 0 then 1 else freq)
  }

  function FreqTotal(freq: seq<nat>): (r: nat) {
    if freq == [] then 0
    else FreqTotal(freq[..|freq| - 1]) + (if freq[|freq| - 1] == 0 then 1 else freq[|freq| - 1])
  }

  lemma {:induction false} StartTotal(freq: seq<nat>, w: seq<int>, n: nat)
    requires n <= |freq| && n < |w| && forall i :: 1 <= i <= n ==> w[i] == Start(freq[i - 1])
    ensures LeafTotal(w, n) == FreqTotal(freq[..n])
    decreases n
  {
    if n > 0 {
      StartTotal(freq, w, n - 1);
      assert freq[..n][..n - 1] == freq[..n - 1];
    }
  }

  /** One tree from the current weights, its lengths, and what a too long code tells. */
  method TryLengths(heap: array<int>, weight: array<int>, parent: array<int>, lens: array<Byte>, n: nat, maxLen: nat)
    returns (tooLong: bool)
    requires heap.Length == 260 && weight.Length == 516 && parent.Length == 516 && lens.Length == n
    requires heap != weight && heap != parent && weight != parent
    requires Leaves(weight[..], n) && LeafTotal(weight[..], n) < 0x80_0000 && maxLen <= 255
    requires Fib(maxLen + 3) > 2 * n
    requires forall k :: 0 <= k < 516 ==> weight[k] >= 0
    modifies heap, weight, parent, lens
    ensures Leaves(weight[..], n) && forall k :: 0 <= k < 516 ==> weight[k] >= 0
    ensures forall i :: 1 <= i <= n ==> weight[i] == old(weight[i])
    ensures Optimal(LeafWeights(weight[..], n), lens[..])
    ensures !tooLong ==> FullCode(lens[..], maxLen)
    ensures tooLong ==> TooLong(LeafWeights(weight[..], n), maxLen) && Fib(maxLen + 3) <= LeafTotal(weight[..], n)
    ensures tooLong ==> exists i :: 1 <= i <= n && Sum(weight[i]) >= 3
  {
    hide Growing, Fib, Depth, KraftSum, Optimal, LeafWeights;
    ghost var w0, total := weight[..], LeafTotal(weight[..], n);
    BuildTree(heap, weight, parent, n);
    tooLong := ReadDepths(parent, lens, n, maxLen, weight[..], total);
    TreeLengths(weight[..], parent[..], n, total, lens[..]);
    if tooLong {
      ghost var i :| 0 <= i < n && lens[i] > maxLen;
      FibMono(maxLen + 3, lens[i] as nat + 2);
      LeafTotalSame(w0, weight[..], n);
      LongCode(LeafWeights(weight[..], n), lens[..], maxLen, i);
      if forall k :: 1 <= k <= n ==> Sum(w0[k]) <= 2 {
        SmallTotal(w0, n);
      }
    } else {
      FullAtLimit(lens[..], maxLen);
    }
  }

  lemma LongCode(w: seq<nat>, lens: seq<Byte>, maxLen: nat, i: nat)
    requires Optimal(w, lens) && i < |lens| && lens[i] > maxLen
    ensures TooLong(w, maxLen)
  {
    var ls: seq<nat> := lens;
    assert ls[i] > maxLen;
  }

  /** BZ2_hbMakeCodeLengths. The compressor calls it with 3..258 symbols and maxLen 17, where
      Fib(20) = 6765 > 2 * 258: halving ends before every weight is 1 or 2. */
  method MakeCodeLengths(lens: array<Byte>, freq: seq<nat>, maxLen: nat)
    requires 2 <= |freq| <= 258 && lens.Length == |freq| && maxLen <= 255
    requires FreqTotal(freq) < 0x80_0000
    requires Fib(maxLen + 3) > 2 * |freq|
    modifies lens
    ensures FullCode(lens[..], maxLen)
    ensures BestCode(lens[..], freq, maxLen)
  {
    hide Fib, FullCode, Optimal, LeafWeights, Scaled, TooLong, Sum, Height, FreqTotal, Weight;
    var n := |freq|;
    var heap, weight, parent := new int[260](_ => 0), new int[516](_ => 0), new int[516](_ => 0);
    for i := 0 to n
      invariant forall k :: 1 <= k <= i ==> weight[k] == Start(freq[k - 1])
      invariant forall k :: i < k < 516 ==> weight[k] == 0
      invariant weight[0] == 0
    {
      weight[i + 1] := (if freq[i] == 0 then 1 else freq[i]) * 256;
    }
    assert freq[..n] == freq;
    StartTotal(freq, weight[..], n);
    FirstRound(freq, weight[..]);
    ghost var rounds: nat := 0;
    while true
      invariant Leaves(weight[..], n) && LeafTotal(weight[..], n) < 0x80_0000
      invariant forall k :: 0 <= k < 516 ==> weight[k] >= 0
      invariant LeafWeights(weight[..], n) == Scaled(freq, rounds)
      invariant forall r: nat :: r < rounds ==> TooLong(Scaled(freq, r), maxLen)
      invariant if rounds == 0 then LeafTotal(weight[..], n) == FreqTotal(freq) else FreqTotal(freq) >= Fib(maxLen + 3)
      decreases LeafTotal(weight[..], n)
    {
      ghost var w0 := weight[..];
      var tooLong := TryLengths(heap, weight, parent, lens, n, maxLen);
      SameLeafWeights(w0, weight[..], n);
      if !tooLong {
        assert BestAfter(lens[..], freq, maxLen, rounds);
        break;
      }
      LeafTotalSame(w0, weight[..], n);
      ghost var w1 := weight[..];
      HalveWeights(weight, n);
      HalvedTotal(w1, weight[..], n);
      LeafTotalPositive(weight[..], n);
      NextRound(freq, rounds, w1, weight[..]);
      rounds := rounds + 1;
    }
  }

  lemma {:induction false} LeafTotalPositive(w: seq<int>, n: nat)
    requires n < |w| && forall i :: 1 <= i <= n ==> w[i] >= 256
    ensures LeafTotal(w, n) >= 0
    decreases n
  {
    if n > 0 { LeafTotalPositive(w, n - 1); }
  }

  lemma LimitSuits()
    ensures Fib(17 + 3) > 2 * 258
  {
    FibValues();
  }
}

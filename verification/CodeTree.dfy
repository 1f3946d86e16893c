/** The Huffman forest that hbMakeCodeLengths grows in its parent and weight arrays, stated on
    sequences: what each merge keeps, Kraft's sum, and the Fibonacci bound on depth. */
module CodeTree {
  import opened Basics

  // --- Depth and root of a node ---

  /** Parents point upwards; -1 marks a root. */
  ghost predicate Shaped(par: seq<int>, top: nat) {
    top < |par| && forall k :: 1 <= k <= top ==> par[k] == -1 || k < par[k] <= top
  }

  function Depth(par: seq<int>, top: nat, k: nat): (d: nat)
    requires Shaped(par, top) && 1 <= k <= top
    ensures d <= top - k
    decreases top - k
  {
    if par[k] < 0 then 0 else 1 + Depth(par, top, par[k])
  }

  function Root(par: seq<int>, top: nat, k: nat): (r: nat)
    requires Shaped(par, top) && 1 <= k <= top
    ensures 1 <= r <= top && par[r] == -1
    decreases top - k
  {
    if par[k] < 0 then k else Root(par, top, par[k])
  }

  /** Hanging two roots below a new node. */
  function Merge(par: seq<int>, a: nat, b: nat, g: nat): (r: seq<int>)
    requires a < |par| && b < |par| && g < |par|
    ensures |r| == |par|
  {
    par[a := g][b := g][g := -1]
  }

  ghost predicate Mergeable(par: seq<int>, top: nat, a: nat, b: nat) {
    && Shaped(par, top) && top + 1 < |par|
    && 1 <= a <= top && 1 <= b <= top && a != b && par[a] == -1 && par[b] == -1
  }

  lemma MergeShaped(par: seq<int>, top: nat, a: nat, b: nat)
    requires Mergeable(par, top, a, b)
    ensures Shaped(Merge(par, a, b, top + 1), top + 1)
  {
  }

  /** Nodes below the merged roots sink by one; all others keep depth and root. */
  lemma {:induction false} MergeNode(par: seq<int>, top: nat, a: nat, b: nat, k: nat)
    requires Mergeable(par, top, a, b) && 1 <= k <= top
    ensures var m, g := Merge(par, a, b, top + 1), top + 1;
            Shaped(m, g)
            && (if Root(par, top, k) == a || Root(par, top, k) == b
                then Root(m, g, k) == g && Depth(m, g, k) == Depth(par, top, k) + 1
                else Root(m, g, k) == Root(par, top, k) && Depth(m, g, k) == Depth(par, top, k))
    decreases top - k
  {
    MergeShaped(par, top, a, b);
    var m, g := Merge(par, a, b, top + 1), top + 1;
    if par[k] >= 0 {
      MergeNode(par, top, a, b, par[k]);
    } else if k == a || k == b {
      assert m[k] == g && Root(m, g, g) == g && Depth(m, g, g) == 0;
    }
  }

  // --- Kraft's sum of one tree ---

  /** Leaves 1..n below root r, each counting 2^(m - depth). */
  function TreeSum(par: seq<int>, top: nat, n: nat, r: nat, m: nat): (s: nat)
    requires Shaped(par, top) && n <= top <= m
    decreases n
  {
    if n == 0 then 0
    else TreeSum(par, top, n - 1, r, m)
         + (if Root(par, top, n) == r then Pow2(m - Depth(par, top, n)) else 0)
  }

  lemma {:induction false} MergeSum(par: seq<int>, top: nat, a: nat, b: nat, n: nat, m: nat)
    requires Mergeable(par, top, a, b) && n <= top < m
    ensures Shaped(Merge(par, a, b, top + 1), top + 1)
    ensures 2 * TreeSum(Merge(par, a, b, top + 1), top + 1, n, top + 1, m)
         == TreeSum(par, top, n, a, m) + TreeSum(par, top, n, b, m)
    decreases n
  {
    hide Merge, Shaped;
    MergeShaped(par, top, a, b);
    if n > 0 {
      MergeSum(par, top, a, b, n - 1, m);
      MergeNode(par, top, a, b, n);
    }
  }

  lemma {:induction false} OtherSum(par: seq<int>, top: nat, a: nat, b: nat, n: nat, r: nat, m: nat)
    requires Mergeable(par, top, a, b) && n <= top < m && r != a && r != b && r <= top
    ensures Shaped(Merge(par, a, b, top + 1), top + 1)
    ensures TreeSum(Merge(par, a, b, top + 1), top + 1, n, r, m) == TreeSum(par, top, n, r, m)
    decreases n
  {
    hide Merge, Shaped;
    MergeShaped(par, top, a, b);
    if n > 0 {
      OtherSum(par, top, a, b, n - 1, r, m);
      MergeNode(par, top, a, b, n);
    }
  }

  // --- Weights ---

  /** A weight word: the frequency sum above, the height of the tree below. */
  function Sum(w: int): int { w / 256 }

  function Height(w: int): nat { w % 256 }

  function Fib(n: nat): (r: nat)
    ensures n >= 1 ==> r >= 1
  {
    if n <= 1 then n else Fib(n - 1) + Fib(n - 2)
  }

  lemma {:induction false} FibMono(m: nat, n: nat)
    requires m <= n
    ensures Fib(m) <= Fib(n)
    decreases n
  {
    if m < n { FibMono(m, n - 1); }
  }

  /** Trees this light are never high enough for the height to reach the sum's bits. */
  lemma HeightBound(h: nat, total: nat)
    requires Fib(h + 2) <= total < 0x80_0000
    ensures h <= 34
  {
    FibValues();
    if h > 34 { FibMono(36, h + 2); }
  }

  lemma FibValues()
    ensures Fib(14) == 377 && Fib(15) == 610 && Fib(20) == 6765 && Fib(36) == 14930352
  {
    assert Fib(9) == 34 && Fib(10) == 55;
    assert Fib(14) == 377 && Fib(15) == 610;
    assert Fib(19) == 4181 && Fib(20) == 6765;
    assert Fib(24) == 46368 && Fib(25) == 75025;
    assert Fib(30) == 832040 && Fib(31) == 1346269;
  }

  /** What the merges keep, besides the shape.
      - no root is lighter than any node already merged;
      - a node's grandparent outweighs parent and node together;
      - a tree of height h weighs at least Fib(h+2), and any other tree at least Fib(h+1). */
  ghost predicate Balanced(w: seq<int>, par: seq<int>, top: nat) {
    && Shaped(par, top) && |w| == |par|
    && (forall k :: 1 <= k <= top ==> w[k] >= 256)
    && (forall k, q :: 1 <= k <= top && 1 <= q <= top && par[k] >= 0 && par[q] < 0 ==> w[k] <= w[q])
    && (forall k :: 1 <= k <= top && par[k] >= 0 ==> Sum(w[par[k]]) > Sum(w[k]))
    && (forall k :: 1 <= k <= top && par[k] >= 0 && par[par[k]] >= 0 ==>
          Sum(w[par[par[k]]]) >= Sum(w[par[k]]) + Sum(w[k]))
    && (forall k :: 1 <= k <= top ==> Sum(w[k]) >= Fib(Height(w[k]) + 2))
    && (forall k, q :: 1 <= k <= top && 1 <= q <= top && k != q && par[k] < 0 && par[q] < 0 ==>
          Sum(w[q]) >= Fib(Height(w[k]) + 1))
  }

  /** ADDWEIGHTS, as arithmetic. */
  function Joined(x: int, y: int): int {
    256 * (Sum(x) + Sum(y)) + 1 + (if Height(x) > Height(y) then Height(x) else Height(y))
  }

  lemma JoinedParts(x: int, y: int)
    requires x >= 256 && y >= 256 && Height(x) < 255 && Height(y) < 255
    ensures Sum(Joined(x, y)) == Sum(x) + Sum(y)
    ensures Height(Joined(x, y)) == 1 + (if Height(x) > Height(y) then Height(x) else Height(y))
    ensures Joined(x, y) > x && Joined(x, y) > y
  {
    var h := 1 + (if Height(x) > Height(y) then Height(x) else Height(y));
    assert Joined(x, y) == 256 * (Sum(x) + Sum(y)) + h && 0 <= h < 256;
  }

  lemma SumMono(x: int, y: int)
    requires x <= y
    ensures Sum(x) <= Sum(y)
  {
  }

  lemma JoinedFib(x: int, y: int)
    requires x >= 256 && y >= 256 && Height(x) < 255 && Height(y) < 255
    requires Sum(x) >= Fib(Height(x) + 2) && Sum(y) >= Fib(Height(y) + 2)
    requires Sum(y) >= Fib(Height(x) + 1) && Sum(x) >= Fib(Height(y) + 1)
    ensures Sum(Joined(x, y)) >= Fib(Height(Joined(x, y)) + 2)
  {
    JoinedParts(x, y);
  }

  /** The two roots a merge takes: the lightest, then the next. */
  ghost predicate Lightest(w: seq<int>, par: seq<int>, top: nat, a: nat, b: nat) {
    && Mergeable(par, top, a, b) && |w| == |par|
    && (forall q :: 1 <= q <= top && par[q] < 0 && q != a ==> w[a] <= w[q])
    && (forall q :: 1 <= q <= top && par[q] < 0 && q != a && q != b ==> w[b] <= w[q])
    && Height(w[a]) < 255 && Height(w[b]) < 255
  }

  lemma MergeRoots(w: seq<int>, par: seq<int>, top: nat, a: nat, b: nat)
    requires Balanced(w, par, top) && Lightest(w, par, top, a, b)
    ensures var m, v, g := Merge(par, a, b, top + 1), w[top + 1 := Joined(w[a], w[b])], top + 1;
            forall k, q :: 1 <= k <= g && 1 <= q <= g && m[k] >= 0 && m[q] < 0 ==> v[k] <= v[q]
  {
    hide Fib, Joined, Sum, Height;
    JoinedParts(w[a], w[b]);
    var m, g := Merge(par, a, b, top + 1), top + 1;
    var v := w[g := Joined(w[a], w[b])];
    forall k, q | 1 <= k <= g && 1 <= q <= g && m[k] >= 0 && m[q] < 0 ensures v[k] <= v[q] {
      if k != a && k != b { assert w[k] <= w[a]; }
    }
  }

  lemma MergeGrandparents(w: seq<int>, par: seq<int>, top: nat, a: nat, b: nat)
    requires Balanced(w, par, top) && Lightest(w, par, top, a, b)
    ensures var m, v, g := Merge(par, a, b, top + 1), w[top + 1 := Joined(w[a], w[b])], top + 1;
            && (forall k :: 1 <= k <= g && m[k] >= 0 ==> Sum(v[m[k]]) > Sum(v[k]))
            && forall k :: 1 <= k <= g && m[k] >= 0 && m[m[k]] >= 0 ==>
                 Sum(v[m[m[k]]]) >= Sum(v[m[k]]) + Sum(v[k])
  {
    hide Fib, Joined, Sum, Height;
    JoinedParts(w[a], w[b]);
    var m, g := Merge(par, a, b, top + 1), top + 1;
    var v := w[g := Joined(w[a], w[b])];
    SumOf256();
    SumMono(256, w[a]);
    SumMono(256, w[b]);
    forall k | 1 <= k <= g && m[k] >= 0 && m[m[k]] >= 0
      ensures Sum(v[m[m[k]]]) >= Sum(v[m[k]]) + Sum(v[k])
    {
      if par[k] == a || par[k] == b {
        SumMono(w[k], w[a]);
        SumMono(w[k], w[b]);
      }
    }
  }

  lemma BalancedPair(w: seq<int>, par: seq<int>, top: nat, k: nat, q: nat)
    requires Balanced(w, par, top) && 1 <= k <= top && 1 <= q <= top
    ensures top < |w| == |par| && w[k] >= 256 && Sum(w[k]) >= Fib(Height(w[k]) + 2)
    ensures k != q && par[k] < 0 && par[q] < 0 ==> Sum(w[q]) >= Fib(Height(w[k]) + 1)
  {
    hide Fib, Sum, Height;
  }

  lemma LightestAt(w: seq<int>, par: seq<int>, top: nat, a: nat, b: nat, q: nat)
    requires Lightest(w, par, top, a, b)
    ensures |w| == |par| && top + 1 < |par| && 1 <= a <= top && 1 <= b <= top && a != b && par[a] < 0 && par[b] < 0
    ensures Height(w[a]) < 255 && Height(w[b]) < 255
    ensures 1 <= q <= top && par[q] < 0 && q != a && q != b ==> w[a] <= w[q] && w[b] <= w[q]
  {
    hide Height;
  }

  /** The new root outweighs what any other root needs, and any other root what the new one needs. */
  lemma NewRootPair(w: seq<int>, par: seq<int>, top: nat, a: nat, b: nat, q: nat)
    requires Balanced(w, par, top) && Lightest(w, par, top, a, b) && 1 <= q <= top
    ensures |w| == |par| && top + 1 < |par| && 1 <= a <= top && 1 <= b <= top
    ensures q != a && q != b && par[q] < 0 ==>
              var v := Joined(w[a], w[b]); Sum(v) >= Fib(Height(w[q]) + 1) && Sum(w[q]) >= Fib(Height(v) + 1)
  {
    hide *;
    LightestAt(w, par, top, a, b, q);
    BalancedPair(w, par, top, a, q);
    BalancedPair(w, par, top, b, q);
    BalancedPair(w, par, top, q, a);
    if q != a && q != b && par[q] < 0 {
      JoinedParts(w[a], w[b]);
      SumMono(w[a], w[q]);
      SumMono(w[b], w[q]);
      SumMono(256, w[b]);
      SumOf256();
    }
  }

  lemma NewRootHeavy(w: seq<int>, par: seq<int>, top: nat, a: nat, b: nat)
    requires Balanced(w, par, top) && Lightest(w, par, top, a, b)
    ensures |w| == |par| && top + 1 < |par| && 1 <= a <= top && 1 <= b <= top
    ensures var v := Joined(w[a], w[b]); Sum(v) >= Fib(Height(v) + 2)
  {
    hide *;
    LightestAt(w, par, top, a, b, a);
    BalancedPair(w, par, top, a, b);
    BalancedPair(w, par, top, b, a);
    JoinedFib(w[a], w[b]);
  }

  lemma RootsLeft(par: seq<int>, a: nat, b: nat, g: nat, k: nat)
    requires a < g && b < g < |par| && k <= g && Merge(par, a, b, g)[k] < 0
    ensures k != a && k != b && (k < g ==> par[k] < 0)
  {
  }

  /** Two roots after the merge. */
  lemma MergePair(w: seq<int>, par: seq<int>, top: nat, a: nat, b: nat, k: nat, q: nat)
    requires Balanced(w, par, top) && Lightest(w, par, top, a, b) && 1 <= k <= top + 1 && 1 <= q <= top + 1 && k != q
    ensures |w| == |par| && top + 1 < |par| && 1 <= a <= top && 1 <= b <= top
    ensures Merge(par, a, b, top + 1)[k] < 0 && Merge(par, a, b, top + 1)[q] < 0 ==>
              var v := w[top + 1 := Joined(w[a], w[b])]; Sum(v[q]) >= Fib(Height(v[k]) + 1)
  {
    hide *;
    LightestAt(w, par, top, a, b, k);
    if Merge(par, a, b, top + 1)[k] < 0 && Merge(par, a, b, top + 1)[q] < 0 {
      RootsLeft(par, a, b, top + 1, k);
      RootsLeft(par, a, b, top + 1, q);
      if k == top + 1 {
        NewRootPair(w, par, top, a, b, q);
      } else if q == top + 1 {
        NewRootPair(w, par, top, a, b, k);
      } else {
        BalancedPair(w, par, top, k, q);
      }
    }
  }

  lemma MergeHeavy(w: seq<int>, par: seq<int>, top: nat, a: nat, b: nat, k: nat)
    requires Balanced(w, par, top) && Lightest(w, par, top, a, b) && 1 <= k <= top + 1
    ensures |w| == |par| && top + 1 < |par| && 1 <= a <= top && 1 <= b <= top
    ensures var v := w[top + 1 := Joined(w[a], w[b])]; Sum(v[k]) >= Fib(Height(v[k]) + 2)
  {
    hide *;
    LightestAt(w, par, top, a, b, k);
    if k <= top { BalancedPair(w, par, top, k, k); } else { NewRootHeavy(w, par, top, a, b); }
  }

  lemma MergePairs(w: seq<int>, par: seq<int>, top: nat, a: nat, b: nat)
    requires Balanced(w, par, top) && Lightest(w, par, top, a, b)
    ensures |w| == |par| && top + 1 < |par| && 1 <= a <= top && 1 <= b <= top
    ensures var m, v, g := Merge(par, a, b, top + 1), w[top + 1 := Joined(w[a], w[b])], top + 1;
            |m| == |par|
            && (forall k :: 1 <= k <= g ==> Sum(v[k]) >= Fib(Height(v[k]) + 2))
            && forall k, q :: 1 <= k <= g && 1 <= q <= g && k != q && m[k] < 0 && m[q] < 0 ==>
                 Sum(v[q]) >= Fib(Height(v[k]) + 1)
  {
    hide *;
    MergeSizes(w, par, top, a, b);
    var m, v, g := Merge(par, a, b, top + 1), w[top + 1 := Joined(w[a], w[b])], top + 1;
    forall k: nat | 1 <= k <= g ensures Sum(v[k]) >= Fib(Height(v[k]) + 2) { MergeHeavy(w, par, top, a, b, k); }
    forall k: nat, q: nat | 1 <= k <= g && 1 <= q <= g && k != q && m[k] < 0 && m[q] < 0 ensures Sum(v[q]) >= Fib(Height(v[k]) + 1) {
      MergePair(w, par, top, a, b, k, q);
    }
  }

  lemma MergeSizes(w: seq<int>, par: seq<int>, top: nat, a: nat, b: nat)
    requires Balanced(w, par, top) && Lightest(w, par, top, a, b)
    ensures |w| == |par| && top + 1 < |par| && 1 <= a <= top && 1 <= b <= top && |Merge(par, a, b, top + 1)| == |par|
  {
    hide Fib, Joined, Sum, Height;
    LightestAt(w, par, top, a, b, a);
  }

  /** Merging the two lightest roots keeps the balance. */
  lemma MergeBalanced(w: seq<int>, par: seq<int>, top: nat, a: nat, b: nat)
    requires Balanced(w, par, top) && Lightest(w, par, top, a, b)
    ensures Balanced(w[top + 1 := Joined(w[a], w[b])], Merge(par, a, b, top + 1), top + 1)
  {
    hide Fib, Joined, Sum, Height;
    MergeShaped(par, top, a, b);
    MergeRoots(w, par, top, a, b);
    MergeGrandparents(w, par, top, a, b);
    MergePairs(w, par, top, a, b);
    JoinedParts(w[a], w[b]);
  }

  lemma SumOf256()
    ensures Sum(256) == 1
  {
  }

  // --- The total weight, and what it bounds ---

  /** The sum of all roots. */
  function RootTotal(w: seq<int>, par: seq<int>, top: nat): (r: int)
    requires top < |par| && top < |w|
  {
    if top == 0 then 0
    else RootTotal(w, par, top - 1) + (if par[top] < 0 then Sum(w[top]) else 0)
  }

  lemma {:induction false} RootTotalHang(w: seq<int>, par: seq<int>, top: nat, a: nat, p: int)
    requires top < |par| && top < |w| && 1 <= a < |par| && par[a] < 0 && p >= 0
    ensures RootTotal(w, par[a := p], top) == RootTotal(w, par, top) - (if a <= top then Sum(w[a]) else 0)
    decreases top
  {
    if top > 0 { RootTotalHang(w, par, top - 1, a, p); }
  }

  lemma {:induction false} RootTotalAbove(w: seq<int>, par: seq<int>, v: seq<int>, m: seq<int>, top: nat)
    requires top < |par| && top < |w| && |v| == |w| && |m| == |par|
    requires forall k :: 1 <= k <= top ==> v[k] == w[k] && m[k] == par[k]
    ensures RootTotal(v, m, top) == RootTotal(w, par, top)
    decreases top
  {
    if top > 0 { RootTotalAbove(w, par, v, m, top - 1); }
  }

  lemma MergeTotal(w: seq<int>, par: seq<int>, top: nat, a: nat, b: nat)
    requires Mergeable(par, top, a, b) && |w| == |par| && w[a] >= 256 && w[b] >= 256
    requires Height(w[a]) < 255 && Height(w[b]) < 255
    ensures RootTotal(w[top + 1 := Joined(w[a], w[b])], Merge(par, a, b, top + 1), top + 1)
         == RootTotal(w, par, top)
  {
    hide Joined, Sum, Height;
    var g := top + 1;
    var m, v := Merge(par, a, b, g), w[g := Joined(w[a], w[b])];
    JoinedParts(w[a], w[b]);
    RootTotalHang(w, par, top, a, g);
    RootTotalHang(w, par[a := g], top, b, g);
    RootTotalAbove(w, par[a := g][b := g], v, m, top);
  }

  lemma {:induction false} RootBelowTotal(w: seq<int>, par: seq<int>, top: nat, q: nat)
    requires top < |par| && top < |w| && 1 <= q <= top && par[q] < 0
    requires forall k :: 1 <= k <= top ==> w[k] >= 256
    ensures Sum(w[q]) <= RootTotal(w, par, top)
    decreases top
  {
    if q < top { RootBelowTotal(w, par, top - 1, q); } else { RootTotalPositive(w, par, top - 1); }
  }

  lemma {:induction false} RootTotalPositive(w: seq<int>, par: seq<int>, top: nat)
    requires top < |par| && top < |w| && forall k :: 1 <= k <= top ==> w[k] >= 256
    ensures RootTotal(w, par, top) >= 0
    decreases top
  {
    if top > 0 { RootTotalPositive(w, par, top - 1); }
  }

  lemma Grandparent(w: seq<int>, par: seq<int>, top: nat, k: nat)
    requires Balanced(w, par, top) && 1 <= k <= top
    ensures |w| == |par| && top < |par| && Shaped(par, top)
    ensures par[k] >= 0 ==> k < par[k] <= top
    ensures par[k] >= 0 && par[par[k]] >= 0 ==> par[par[k]] <= top && Sum(w[par[par[k]]]) >= Sum(w[par[k]]) + Sum(w[k])
  {
    hide Fib, Sum, Height;
  }

  /** Climbing from a node multiplies the weight as the Fibonacci numbers grow. */
  lemma {:induction false} ClimbWeight(w: seq<int>, par: seq<int>, top: nat, k: nat, j: nat)
    requires Balanced(w, par, top) && 1 <= k <= top
    requires Sum(w[k]) >= Fib(j + 2)
    requires par[k] >= 0 ==> Sum(w[par[k]]) >= Fib(j + 3)
    ensures Sum(w[Root(par, top, k)]) >= Fib(j + Depth(par, top, k) + 2)
    decreases top - k
  {
    hide Sum, Height, Balanced, Shaped;
    Grandparent(w, par, top, k);
    if par[k] >= 0 {
      assert Fib(j + 4) == Fib(j + 3) + Fib(j + 2);
      hide Fib;
      ClimbWeight(w, par, top, par[k], j + 1);
      assert (j + 1) + Depth(par, top, par[k]) + 2 == j + Depth(par, top, k) + 2;
    }
  }

  /** So a node of depth d needs a total of at least Fib(d+2). */
  lemma DepthNeedsWeight(w: seq<int>, par: seq<int>, top: nat, k: nat)
    requires Balanced(w, par, top) && 1 <= k <= top
    ensures Fib(Depth(par, top, k) + 2) <= RootTotal(w, par, top)
  {
    hide Sum, Height;
    SumOf256();
    SumMono(256, w[k]);
    assert Fib(2) == 1 && Fib(3) == 2;
    ClimbWeight(w, par, top, k, 0);
    RootBelowTotal(w, par, top, Root(par, top, k));
  }
}

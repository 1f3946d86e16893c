/** What hbMakeCodeLengths' tree costs: every merge of the two lightest roots adds their weights to the
    cost of the leaves, and no lengths that meet Kraft's inequality cost less than what is added up. */
module TreeCost {
  import opened Basics
  import opened CodeTree
  import opened LeastCost

  /** The roots among the nodes. */
  function Live(par: seq<int>, top: nat): (r: seq<bool>)
    ensures |r| == |par| && forall k :: 0 <= k < |r| ==> r[k] == (1 <= k <= top && par[k] < 0)
  {
    seq(|par|, k requires 0 <= k < |par| => 1 <= k <= top && par[k] < 0)
  }

  function Weight(w: int): nat {
    if w >= 0 then Sum(w) else 0
  }

  function Weights(w: seq<int>): (r: seq<nat>)
    ensures |r| == |w| && forall k :: 0 <= k < |r| ==> r[k] == Weight(w[k])
  {
    seq(|w|, k requires 0 <= k < |w| => Weight(w[k]))
  }

  /** Leaves are nodes 1..n. */
  function LeafMask(size: nat, n: nat): (r: seq<bool>)
    ensures |r| == size && forall k :: 0 <= k < size ==> r[k] == (1 <= k <= n)
  {
    seq(size, k => 1 <= k <= n)
  }

  /** The weight of the leaves 1..n below root r. */
  function Below(w: seq<int>, par: seq<int>, top: nat, n: nat, r: nat): (s: int)
    requires Shaped(par, top) && n <= top && |w| == |par|
    decreases n
  {
    if n == 0 then 0
    else Below(w, par, top, n - 1, r) + (if Root(par, top, n) == r then Weight(w[n]) else 0)
  }

  /** Weight times depth, summed over the leaves 1..n. */
  function LeafCost(w: seq<int>, par: seq<int>, top: nat, n: nat): (s: int)
    requires Shaped(par, top) && n <= top && |w| == |par|
    decreases n
  {
    if n == 0 then 0
    else LeafCost(w, par, top, n - 1) + Times(Weight(w[n]), Depth(par, top, n))
  }

  /** A root weighs what its leaves weigh. */
  ghost predicate Weighed(w: seq<int>, par: seq<int>, top: nat, n: nat) {
    Shaped(par, top) && n <= top && |w| == |par|
    && forall r: nat :: 1 <= r <= top && par[r] < 0 ==> Below(w, par, top, n, r) == Weight(w[r])
  }

  /** Whatever lengths the leaves are given, the roots can have lengths that, with the cost so far, are
      no dearer. */
  ghost predicate Covered(w: seq<int>, par: seq<int>, top: nat, n: nat)
    requires Shaped(par, top) && n <= top && |w| == |par|
  {
    forall l: seq<nat>, m: nat :: |l| == |par| && Code(LeafMask(|par|, n), l, m) ==> Payable(w, par, top, n, l, m)
  }

  ghost predicate Payable(w: seq<int>, par: seq<int>, top: nat, n: nat, l: seq<nat>, m: nat)
    requires Shaped(par, top) && n <= top && |w| == |par| == |l|
  {
    exists f: seq<nat> :: Pays(w, par, top, n, l, m, f)
  }

  ghost predicate Pays(w: seq<int>, par: seq<int>, top: nat, n: nat, l: seq<nat>, m: nat, f: seq<nat>)
    requires Shaped(par, top) && n <= top && |w| == |par| == |l|
  {
    && |f| == |par| && Code(Live(par, top), f, m)
    && Price(Live(par, top), Weights(w), f) + LeafCost(w, par, top, n) <= Price(LeafMask(|par|, n), Weights(w), l)
  }

  ghost predicate Thrifty(w: seq<int>, par: seq<int>, top: nat, n: nat) {
    Weighed(w, par, top, n) && Covered(w, par, top, n)
  }

  // --- At the start ---

  lemma {:induction false} BelowAtStart(w: seq<int>, par: seq<int>, n: nat, j: nat, r: nat)
    requires n < |par| && |w| == |par| && j <= n && forall k :: 1 <= k <= n ==> par[k] == -1
    requires 1 <= r <= n
    ensures Shaped(par, n) && Below(w, par, n, j, r) == if r <= j then Weight(w[r]) else 0
    ensures LeafCost(w, par, n, j) == 0
    decreases j
  {
    hide Sum;
    if j > 0 { BelowAtStart(w, par, n, j - 1, r); }
  }

  lemma StartThrifty(w: seq<int>, par: seq<int>, n: nat)
    requires 1 <= n < |par| && |w| == |par| && forall k :: 1 <= k <= n ==> par[k] == -1
    ensures Thrifty(w, par, n, n)
  {
    hide Code, Price, Weights, Below, LeafCost, Weight;
    BelowAtStart(w, par, n, n, 1);
    forall r: nat | 1 <= r <= n ensures Below(w, par, n, n, r) == Weight(w[r]) { BelowAtStart(w, par, n, n, r); }
    assert Live(par, n) == LeafMask(|par|, n);
    forall l: seq<nat>, m: nat | |l| == |par| && Code(LeafMask(|par|, n), l, m) ensures Payable(w, par, n, n, l, m) {
      assert Pays(w, par, n, n, l, m, l);
    }
  }

  // --- One merge ---

  lemma {:induction false} MergeBelow(w: seq<int>, par: seq<int>, top: nat, a: nat, b: nat, v: int, n: nat, r: nat)
    requires Mergeable(par, top, a, b) && n <= top && |w| == |par| && 1 <= r <= top + 1
    ensures Shaped(Merge(par, a, b, top + 1), top + 1)
    ensures r == top + 1 ==>
              Below(w[top + 1 := v], Merge(par, a, b, top + 1), top + 1, n, r) == Below(w, par, top, n, a) + Below(w, par, top, n, b)
    ensures r <= top && r != a && r != b ==>
              Below(w[top + 1 := v], Merge(par, a, b, top + 1), top + 1, n, r) == Below(w, par, top, n, r)
    decreases n
  {
    hide Merge, Shaped, Weight;
    MergeShaped(par, top, a, b);
    if n > 0 {
      MergeBelow(w, par, top, a, b, v, n - 1, r);
      MergeNode(par, top, a, b, n);
    }
  }

  lemma TimesNext(x: nat, d: nat)
    ensures Times(x, d + 1) == Times(x, d) + x
  {
  }

  lemma {:induction false} MergeCost(w: seq<int>, par: seq<int>, top: nat, a: nat, b: nat, v: int, n: nat)
    requires Mergeable(par, top, a, b) && n <= top && |w| == |par|
    ensures Shaped(Merge(par, a, b, top + 1), top + 1)
    ensures LeafCost(w[top + 1 := v], Merge(par, a, b, top + 1), top + 1, n)
         == LeafCost(w, par, top, n) + Below(w, par, top, n, a) + Below(w, par, top, n, b)
    decreases n
  {
    hide Merge, Shaped, Weight, Times;
    MergeShaped(par, top, a, b);
    if n > 0 {
      MergeCost(w, par, top, a, b, v, n - 1);
      MergeNode(par, top, a, b, n);
      TimesNext(Weight(w[n]), Depth(par, top, n));
    }
  }

  lemma MergeLive(w: seq<int>, par: seq<int>, top: nat, a: nat, b: nat)
    requires Mergeable(par, top, a, b) && |w| == |par| && w[a] >= 256 && w[b] >= 256 && Height(w[a]) < 255 && Height(w[b]) < 255
    ensures Live(Merge(par, a, b, top + 1), top + 1) == Live(par, top)[a := false][b := false][top + 1 := true]
    ensures Weights(w[top + 1 := Joined(w[a], w[b])]) == Weights(w)[top + 1 := Weight(w[a]) + Weight(w[b])]
    ensures Weight(Joined(w[a], w[b])) == Weight(w[a]) + Weight(w[b])
  {
    JoinedParts(w[a], w[b]);
    hide Joined, Sum;
  }

  lemma StillLightest(w: seq<int>, par: seq<int>, top: nat, a: nat, b: nat)
    requires Lightest(w, par, top, a, b) && forall k :: 1 <= k <= top ==> w[k] >= 256
    ensures TwoLightest(Live(par, top), Weights(w), a, b)
  {
    hide Sum, Height;
    forall k | 1 <= k <= top && par[k] < 0
      ensures Weight(w[a]) <= Weight(w[k]) && (k != a ==> Weight(w[b]) <= Weight(w[k]))
    {
      if k != a {
        SumMono(w[a], w[k]);
        if k != b { SumMono(w[b], w[k]); }
      }
    }
  }

  /** Nodes above the leaves do not count among the leaves. */
  lemma LeafPrice(w: seq<int>, n: nat, g: nat, v: int, l: seq<nat>)
    requires |l| == |w| && n < g < |w|
    ensures Price(LeafMask(|w|, n), Weights(w[g := v]), l) == Price(LeafMask(|w|, n), Weights(w), l)
  {
    hide Weight, Price;
    var mask := LeafMask(|w|, n);
    Change(mask, Weights(w), l, 0, g, false, Weight(v), l[g]);
    assert mask[g := false] == mask && l[g := l[g]] == l;
    assert Weights(w)[g := Weight(v)] == Weights(w[g := v]);
  }

  lemma MergePays(w: seq<int>, par: seq<int>, top: nat, n: nat, a: nat, b: nat, l: seq<nat>, m: nat)
    requires Weighed(w, par, top, n) && Lightest(w, par, top, a, b) && (forall k :: 1 <= k <= top ==> w[k] >= 256)
    requires |l| == |par| && Payable(w, par, top, n, l, m)
    ensures Shaped(Merge(par, a, b, top + 1), top + 1) && |Merge(par, a, b, top + 1)| == |par|
    ensures Payable(w[top + 1 := Joined(w[a], w[b])], Merge(par, a, b, top + 1), top + 1, n, l, m)
  {
    hide Code, Price, Weights, Below, LeafCost, Weight, Joined, TwoLightest, Live, LeafMask, Height, Merge;
    var f: seq<nat> :| Pays(w, par, top, n, l, m, f);
    MergeShaped(par, top, a, b);
    MergeLive(w, par, top, a, b);
    StillLightest(w, par, top, a, b);
    var h := Merged(Live(par, top), Weights(w), f, m, a, b, top + 1);
    MergeCost(w, par, top, a, b, Joined(w[a], w[b]), n);
    LeafPrice(w, n, top + 1, Joined(w[a], w[b]), l);
    assert Pays(w[top + 1 := Joined(w[a], w[b])], Merge(par, a, b, top + 1), top + 1, n, l, m, h);
  }

  lemma MergeThrifty(w: seq<int>, par: seq<int>, top: nat, n: nat, a: nat, b: nat)
    requires Thrifty(w, par, top, n) && Lightest(w, par, top, a, b) && (forall k :: 1 <= k <= top ==> w[k] >= 256)
    ensures Thrifty(w[top + 1 := Joined(w[a], w[b])], Merge(par, a, b, top + 1), top + 1, n)
  {
    hide Code, Payable, Below, LeafCost, Weight, Joined, LeafMask, Height, Merge;
    var v, p := w[top + 1 := Joined(w[a], w[b])], Merge(par, a, b, top + 1);
    MergeShaped(par, top, a, b);
    MergeLive(w, par, top, a, b);
    forall r: nat | 1 <= r <= top + 1 && p[r] < 0 ensures Below(v, p, top + 1, n, r) == Weight(v[r]) {
      MergeBelow(w, par, top, a, b, Joined(w[a], w[b]), n, r);
      RootsLeft(par, a, b, top + 1, r);
    }
    forall l: seq<nat>, m: nat | |l| == |p| && Code(LeafMask(|p|, n), l, m) ensures Payable(v, p, top + 1, n, l, m) {
      MergePays(w, par, top, n, a, b, l, m);
    }
  }

  // --- The finished tree ---

  function LeafWeights(w: seq<int>, n: nat): (r: seq<nat>)
    requires n < |w|
    ensures |r| == n && forall i :: 0 <= i < n ==> r[i] == Weight(w[i + 1])
  {
    seq(n, i requires 0 <= i < n => Weight(w[i + 1]))
  }

  lemma {:induction false} CostIsLeafCost(w: seq<int>, par: seq<int>, top: nat, lens: seq<nat>, n: nat)
    requires Shaped(par, top) && n <= top && |w| == |par| && |lens| == n
    requires forall i :: 0 <= i < n ==> lens[i] == Depth(par, top, i + 1)
    ensures n < |w| && Cost(LeafWeights(w, n), lens) == LeafCost(w, par, top, n)
    decreases n
  {
    hide Weight, Times, Depth;
    var s := seq(n, k requires 0 <= k < n => Times(LeafWeights(w, n)[k], lens[k]));
    assert Cost(LeafWeights(w, n), lens) == SumOf(s);
    if n > 0 {
      CostIsLeafCost(w, par, top, lens[..n - 1], n - 1);
      assert s[..n - 1] == seq(n - 1, k requires 0 <= k < n - 1 => Times(LeafWeights(w, n - 1)[k], lens[..n - 1][k]));
    }
  }

  /** The depths of the leaves are the cheapest lengths for their weights. */
  lemma DepthsCheapest(w: seq<int>, par: seq<int>, top: nat, n: nat, lens: seq<nat>)
    requires Thrifty(w, par, top, n) && |lens| == n
    requires forall i :: 0 <= i < n ==> lens[i] == Depth(par, top, i + 1)
    ensures n < |w| && Optimal(LeafWeights(w, n), lens)
  {
    hide Cost, Kraft, Code, Weight, Price, LeafCost, Depth;
    CostIsLeafCost(w, par, top, lens, n);
    var size := |w|;
    forall other: seq<nat>, m: nat | |other| == n && Kraft(other, m)
      ensures Cost(LeafWeights(w, n), lens) <= Cost(LeafWeights(w, n), other)
    {
      var l: seq<nat> := [0] + other + seq(size - n - 1, _ => 0);
      assert l[1..n + 1] == other && Weights(w)[1..n + 1] == LeafWeights(w, n);
      Embedded(LeafMask(size, n), Weights(w), l, m, n);
      assert Payable(w, par, top, n, l, m);
      var f: seq<nat> :| Pays(w, par, top, n, l, m, f);
      PriceNotNegative(Live(par, top), Weights(w), f);
    }
  }

  lemma PriceNotNegative(live: seq<bool>, w: seq<nat>, f: seq<nat>)
    requires |live| == |w| == |f|
    ensures Price(live, w, f) >= 0
  {
    SumNotNegative(Tolls(live, w, f));
  }
}

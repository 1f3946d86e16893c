/** The binary heap of hbMakeCodeLengths (huffman.c): UPHEAP and DOWNHEAP over node numbers. */
module CodeHeap {

  /** Entries 1..n of the heap, ordered by weight; entry 0 is a sentinel of weight 0. */
  ghost predicate Entries(heap: seq<int>, weight: seq<int>, n: nat) {
    && n < |heap| && heap[0] == 0 && |weight| > 0 && weight[0] == 0
    && (forall i :: 1 <= i <= n ==> 0 < heap[i] < |weight|)
    && (forall k :: 0 < k < |weight| ==> weight[k] >= 0)
  }

  /** Every entry but `hole` weighs at least as much as its parent. */
  ghost predicate OrderedBut(heap: seq<int>, weight: seq<int>, n: nat, hole: nat)
    requires Entries(heap, weight, n)
  {
    forall i :: 2 <= i <= n && i != hole ==> weight[heap[i / 2]] <= weight[heap[i]]
  }

  ghost predicate Ordered(heap: seq<int>, weight: seq<int>, n: nat)
    requires Entries(heap, weight, n)
  {
    OrderedBut(heap, weight, n, 0)
  }

  ghost function Held(heap: seq<int>, n: nat): multiset<int>
    requires n < |heap|
  {
    multiset(heap[1..n + 1])
  }

  lemma SwapHeld(heap: seq<int>, n: nat, i: nat, j: nat)
    requires n < |heap| && 1 <= i <= n && 1 <= j <= n
    ensures Held(heap[i := heap[j]][j := heap[i]], n) == Held(heap, n)
  {
    var s := heap[1..n + 1];
    var t := s[i - 1 := s[j - 1]][j - 1 := s[i - 1]];
    assert heap[i := heap[j]][j := heap[i]][1..n + 1] == t;
    assert multiset(t) == multiset(s);
  }

  lemma HeldMember(heap: seq<int>, n: nat, i: nat)
    requires n < |heap| && 1 <= i <= n
    ensures heap[i] in Held(heap, n)
  {
    assert heap[1..n + 1][i - 1] == heap[i];
  }

  /** The first entry is lightest. */
  lemma {:induction false} FirstIsLightest(heap: seq<int>, weight: seq<int>, n: nat, i: nat)
    requires Entries(heap, weight, n) && Ordered(heap, weight, n) && 1 <= i <= n
    ensures weight[heap[1]] <= weight[heap[i]]
    decreases i
  {
    if i > 1 { FirstIsLightest(heap, weight, n, i / 2); }
  }

  /** Children of the hole are no lighter than its parent: what lets the hole move up. */
  ghost predicate Bridged(heap: seq<int>, weight: seq<int>, n: nat, hole: nat)
    requires Entries(heap, weight, n)
  {
    forall i :: 2 <= i <= n && i / 2 == hole && hole >= 2 ==> weight[heap[hole / 2]] <= weight[heap[i]]
  }

  /** Moving the sifted entry from the hole to its parent, past a heavier entry. */
  lemma MoveUp(heap: seq<int>, weight: seq<int>, n: nat, z: nat)
    requires Entries(heap, weight, n) && 2 <= z <= n
    requires OrderedBut(heap, weight, n, z) && Bridged(heap, weight, n, z)
    requires weight[heap[z]] < weight[heap[z / 2]]
    ensures var h := heap[z := heap[z / 2]][z / 2 := heap[z]];
            Entries(h, weight, n) && OrderedBut(h, weight, n, z / 2) && Bridged(h, weight, n, z / 2)
  {
  }

  lemma UpDone(heap: seq<int>, weight: seq<int>, n: nat, z: nat)
    requires Entries(heap, weight, n) && 1 <= z <= n && OrderedBut(heap, weight, n, z)
    requires weight[heap[z / 2]] <= weight[heap[z]]
    ensures Ordered(heap, weight, n)
  {
  }

  /** UPHEAP. */
  method UpHeap(heap: array<int>, weight: array<int>, z: nat)
    requires heap != weight && Entries(heap[..], weight[..], z) && z >= 1
    requires OrderedBut(heap[..], weight[..], z, z)
    modifies heap
    ensures Entries(heap[..], weight[..], z) && Ordered(heap[..], weight[..], z)
    ensures Held(heap[..], z) == old(Held(heap[..], z))
  {
    hide OrderedBut, Bridged, Held;
    var zz := z;
    var tmp := heap[zz];
    ghost var h := heap[..];
    BridgedLast(h, weight[..], z);
    while weight[tmp] < weight[heap[zz / 2]]
      invariant 1 <= zz <= z && |h| == heap.Length && h[zz] == tmp && heap[..][zz := tmp] == h
      invariant Entries(h, weight[..], z) && OrderedBut(h, weight[..], z, zz) && Bridged(h, weight[..], z, zz)
      invariant Held(h, z) == old(Held(heap[..], z)) && heap[zz / 2] == h[zz / 2]
      decreases zz
    {
      assert zz >= 2;
      MoveUp(h, weight[..], z, zz);
      SwapHeld(h, z, zz, zz / 2);
      heap[zz] := heap[zz / 2];
      h := h[zz := h[zz / 2]][zz / 2 := tmp];
      zz := zz / 2;
    }
    UpDone(h, weight[..], z, zz);
    heap[zz] := tmp;
    assert heap[..] == h;
  }

  lemma BridgedLast(heap: seq<int>, weight: seq<int>, n: nat)
    requires Entries(heap, weight, n) && n >= 1
    ensures Bridged(heap, weight, n, n)
  {
  }

  /** Every entry weighs at least its parent, unless the parent is the hole. */
  ghost predicate OrderedUnder(heap: seq<int>, weight: seq<int>, n: nat, hole: nat)
    requires Entries(heap, weight, n)
  {
    && (forall i :: 2 <= i <= n && i / 2 != hole ==> weight[heap[i / 2]] <= weight[heap[i]])
    && (forall i :: 2 <= i <= n && i / 2 == hole && hole >= 2 ==> weight[heap[hole / 2]] <= weight[heap[i]])
  }

  /** Moving the sifted entry from the hole to its lighter child. */
  lemma MoveDown(heap: seq<int>, weight: seq<int>, n: nat, z: nat, y: nat)
    requires Entries(heap, weight, n) && 1 <= z && y / 2 == z && y <= n && OrderedUnder(heap, weight, n, z)
    requires weight[heap[y]] <= weight[heap[z]]
    requires forall i :: 2 <= i <= n && i / 2 == z ==> weight[heap[y]] <= weight[heap[i]]
    ensures var h := heap[z := heap[y]][y := heap[z]];
            Entries(h, weight, n) && OrderedUnder(h, weight, n, y)
  {
  }

  lemma DownDone(heap: seq<int>, weight: seq<int>, n: nat, z: nat)
    requires Entries(heap, weight, n) && 1 <= z && OrderedUnder(heap, weight, n, z)
    requires forall i :: 2 <= i <= n && i / 2 == z ==> weight[heap[z]] <= weight[heap[i]]
    ensures Ordered(heap, weight, n)
  {
  }

  /** DOWNHEAP(1), after the last entry has been moved to the top. */
  method DownHeap(heap: array<int>, weight: array<int>, n: nat)
    requires heap != weight && heap.Length > 1 && Entries(heap[..], weight[..], n)
    requires 0 < heap[1] < weight.Length
    requires OrderedUnder(heap[..], weight[..], n, 1)
    modifies heap
    ensures Entries(heap[..], weight[..], n) && Ordered(heap[..], weight[..], n)
    ensures Held(heap[..], n) == old(Held(heap[..], n))
  {
    hide Held, OrderedUnder;
    var zz := 1;
    var tmp := heap[zz];
    ghost var h := heap[..];
    ghost var w := weight[..];
    while true
      invariant 1 <= zz && (zz <= n || zz == 1) && |h| == heap.Length && h[zz] == tmp && heap[..][zz := tmp] == h
      invariant Entries(h, w, n) && OrderedUnder(h, w, n, zz)
      invariant Held(h, n) == old(Held(heap[..], n))
      decreases n - zz
    {
      var yy := 2 * zz;
      if yy > n { break; }
      assert heap[yy] == h[yy] && (yy < n ==> heap[yy + 1] == h[yy + 1]);
      if yy < n && weight[heap[yy + 1]] < weight[heap[yy]] { yy := yy + 1; }
      assert forall i :: 2 <= i <= n && i / 2 == zz ==> (i == 2 * zz || i == 2 * zz + 1) && heap[i] == h[i];
      if weight[tmp] < weight[heap[yy]] { break; }
      MoveDown(h, w, n, zz, yy);
      SwapHeld(h, n, zz, yy);
      heap[zz] := heap[yy];
      h := h[zz := h[yy]][yy := tmp];
      zz := yy;
    }
    DownDone(h, w, n, zz);
    heap[zz] := tmp;
    assert heap[..] == h;
  }
}

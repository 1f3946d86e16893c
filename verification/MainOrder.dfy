/** The order in which mainSort (blocksort.c) takes the big buckets: a shell sort by size. */
module MainOrder {
  import opened Basics
  import opened Permutations
  import opened Rotations
  import opened Shuffles
  import opened FallbackQSort
  import opened MainCompare
  import opened MainRadix

  /** How many rotations begin with byte c. */
  ghost function BigSize(b: seq<Byte>, c: nat): int { First(b, Pair(c + 1, 0)) - First(b, Pair(c, 0)) }

  ghost function BigSizes(b: seq<Byte>): (r: seq<int>)
    ensures |r| == 256 && forall c :: 0 <= c < 256 ==> r[c] == BigSize(b, c)
  {
    seq(256, c requires 0 <= c < 256 => BigSize(b, c))
  }

  /** BIGFREQ. */
  method BigFreq(ftab: array<nat>, c: nat, ghost b: seq<Byte>) returns (r: int)
    requires ftab.Length == 0x1_0001 && c < 256 && forall s: nat :: s <= 0x1_0000 ==> ftab[s] == First(b, s)
    ensures r == BigSizes(b)[c]
  {
    hide First;
    var end: int, start: int := ftab[Pair(c + 1, 0)], ftab[Pair(c, 0)];
    r := end - start;
  }

  /** What holds while the bucket taken from place i stands at place j. */
  ghost predicate Settling(r: seq<int>, f: seq<int>, g: seq<int>, i: int, j: int, h: nat) {
    && Shuffled(f, g, 0, 255) && Classed(g, r, 0, 255) && 0 <= j <= i <= 255
    && (h == 1 && Ordered(f, r, 0, i - 1) ==> SunkTo(g, r, 0, i, j))
  }

  lemma SettleStart(r: seq<int>, f: seq<int>, i: int, h: nat)
    requires |f| == 256 && Classed(f, r, 0, 255) && 0 <= i <= 255
    ensures Settling(r, f, f, i, i, h)
  {
    ShuffleNothing(f, 0, 255);
  }

  lemma SettleStep(r: seq<int>, f: seq<int>, g: seq<int>, i: int, j: int, h: nat)
    requires Settling(r, f, g, i, j, h) && |g| == 256 && h >= 1 && 0 <= j - h && r[g[j - h]] > r[g[j]]
    ensures Settling(r, f, Swapped(g, j, j - h), i, j - h, h)
  {
    hide Shuffled;
    SwapShuffles(g, j, j - h, 0, 255);
    ShuffleAgain(f, g, Swapped(g, j, j - h), 0, 255);
    if h == 1 && Ordered(f, r, 0, i - 1) { SunkFurther(g, r, 0, i, j); }
  }

  lemma SettleEnd(r: seq<int>, f: seq<int>, g: seq<int>, i: int, j: int, h: nat)
    requires Settling(r, f, g, i, j, h) && |g| == 256 && h >= 1 && (j - h < 0 || r[g[j - h]] <= r[g[j]])
    ensures h == 1 && Ordered(f, r, 0, i - 1) ==> Ordered(g, r, 0, i)
    ensures Shuffled(f, g, 0, 255) && Classed(g, r, 0, 255)
  {
    hide Shuffled;
  }

  lemma SettleBounds(r: seq<int>, f: seq<int>, g: seq<int>, i: int, j: int, h: nat)
    requires Settling(r, f, g, i, j, h) && |g| == 256
    ensures forall k :: 0 <= k < 256 ==> 0 <= g[k] < |r|
  {
  }

  /** One insertion of a pass with increment h. */
  method Settle(order: array<nat>, ftab: array<nat>, i: nat, h: nat, ghost b: seq<Byte>)
    requires ftab.Length == 0x1_0001 && forall s: nat :: s <= 0x1_0000 ==> ftab[s] == First(b, s)
    requires order.Length == 256 && order != ftab && Classed(order[..], BigSizes(b), 0, 255) && 1 <= h <= i < 256
    modifies order
    ensures Shuffled(old(order[..]), order[..], 0, 255) && Classed(order[..], BigSizes(b), 0, 255)
    ensures h == 1 && Ordered(old(order[..]), BigSizes(b), 0, i - 1) ==> Ordered(order[..], BigSizes(b), 0, i)
  {
    hide Settling, Shuffled, First, BigSize, Ordered;
    ghost var r, f := BigSizes(b), order[..];
    var vv := order[i];
    var j := i;
    ghost var g: seq<int> := f;
    SettleStart(r, f, i, h);
    while true
      invariant h <= j <= i && g == order[..][j := vv] && Settling(r, f, g, i, j, h)
      invariant forall s: nat :: s <= 0x1_0000 ==> ftab[s] == First(b, s)
      decreases j
    {
      SettleBounds(r, f, g, i, j, h);
      assert g[j - h] == order[j - h] && g[j] == vv;
      var theirs := BigFreq(ftab, order[j - h], b);
      var mine := BigFreq(ftab, vv, b);
      if !(theirs > mine) { break; }
      SettleStep(r, f, g, i, j, h);
      g := Swapped(g, j, j - h);
      order[j] := order[j - h];
      j := j - h;
      if j <= h - 1 { break; }
    }
    SettleEnd(r, f, g, i, j, h);
    order[j] := vv;
    assert order[..] == g;
  }

  lemma SingleOrdered(f: seq<int>, r: seq<int>)
    requires |f| == 256 && Classed(f, r, 0, 255)
    ensures Ordered(f, r, 0, 0)
  {
  }

  /** Every big bucket once, the smallest first. */
  method RunningOrder(ftab: array<nat>, ghost b: seq<Byte>) returns (order: array<nat>)
    requires ftab.Length == 0x1_0001 && forall s: nat :: s <= 0x1_0000 ==> ftab[s] == First(b, s)
    ensures fresh(order) && order.Length == 256 && Injective(order[..], 256)
    ensures forall i, j :: 0 <= i < j < 256 ==> BigSize(b, order[i]) <= BigSize(b, order[j])
  {
    hide Shuffled, First, BigSize, Ordered;
    ghost var r := BigSizes(b);
    order := new nat[256](i => i);
    ghost var f := order[..];
    ShuffleNothing(f, 0, 255);
    var h := 1;
    h := 3 * h + 1;
    while h <= 256
      invariant h in [4, 13, 40, 121, 364]
      decreases 400 - h
    {
      h := 3 * h + 1;
    }
    while true
      invariant h in [4, 13, 40, 121, 364]
      invariant Shuffled(f, order[..], 0, 255) && Classed(order[..], r, 0, 255)
      invariant forall s: nat :: s <= 0x1_0000 ==> ftab[s] == First(b, s)
      decreases h
    {
      h := h / 3;
      if h == 1 { SingleOrdered(order[..], r); }
      for i := h to 256
        invariant Shuffled(f, order[..], 0, 255) && Classed(order[..], r, 0, 255)
        invariant forall s: nat :: s <= 0x1_0000 ==> ftab[s] == First(b, s)
        invariant h == 1 ==> Ordered(order[..], r, 0, i - 1)
      {
        ghost var g := order[..];
        Settle(order, ftab, i, h, b);
        ShuffleAgain(f, g, order[..], 0, 255);
      }
      if !(h != 1) { break; }
    }
    OrderOfAll(f, order[..], r);
  }

  lemma OrderOfAll(f: seq<int>, g: seq<int>, r: seq<int>)
    requires |f| == 256 && (forall i :: 0 <= i < 256 ==> f[i] == i) && Shuffled(f, g, 0, 255) && |r| == 256 && Ordered(g, r, 0, 255)
    ensures Injective(g, 256) && forall i, j :: 0 <= i < j < 256 ==> r[g[i]] <= r[g[j]]
  {
    assert Distinct(f, 0, 255);
  }
}

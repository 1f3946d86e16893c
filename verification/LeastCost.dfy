/** Why Huffman's merges are right: of all lengths that meet Kraft's inequality, the two lightest of a
    set of weights may as well have equal, greatest lengths, so that one merged weight stands for both. */
module LeastCost {
  import opened Basics

  // --- Sums ---

  function SumOf(s: seq<int>): (t: int) {
    if s == [] then 0 else SumOf(s[..|s| - 1]) + s[|s| - 1]
  }

  lemma {:induction false} SumUpdate(s: seq<int>, k: nat, x: int)
    requires k < |s|
    ensures SumOf(s[k := x]) == SumOf(s) - s[k] + x
    decreases |s|
  {
    var n := |s| - 1;
    if k < n {
      assert s[k := x][..n] == s[..n][k := x];
      SumUpdate(s[..n], k, x);
    } else {
      assert s[k := x][..n] == s[..n];
    }
  }

  lemma {:induction false} SumNotNegative(s: seq<int>)
    requires forall k :: 0 <= k < |s| ==> s[k] >= 0
    ensures SumOf(s) >= 0
    decreases |s|
  {
    if s != [] { SumNotNegative(s[..|s| - 1]); }
  }

  lemma {:induction false} SumZero(s: seq<int>)
    requires forall k :: 0 <= k < |s| ==> s[k] == 0
    ensures SumOf(s) == 0
    decreases |s|
  {
    if s != [] { SumZero(s[..|s| - 1]); }
  }

  lemma {:induction false} SumConcat(a: seq<int>, b: seq<int>)
    ensures SumOf(a + b) == SumOf(a) + SumOf(b)
    decreases |b|
  {
    if b == [] {
      assert a + b == a;
    } else {
      assert (a + b)[..|a + b| - 1] == a + b[..|b| - 1];
      SumConcat(a, b[..|b| - 1]);
    }
  }

  // --- Lengths for the live members of a list ---

  /** What a length takes of the code space, in units of 2^-m. */
  function Part(live: bool, len: nat, m: nat): (r: nat) {
    if live && len <= m then Pow2(m - len) else 0
  }

  function Parts(live: seq<bool>, f: seq<nat>, m: nat): (r: seq<int>)
    requires |live| == |f|
    ensures |r| == |f| && forall k :: 0 <= k < |r| ==> r[k] == Part(live[k], f[k], m)
  {
    seq(|f|, k requires 0 <= k < |f| => Part(live[k], f[k], m))
  }

  function Toll(live: bool, weight: nat, len: nat): (r: nat) {
    if live then Times(weight, len) else 0
  }

  function Times(x: nat, y: nat): (r: nat)
    ensures r == x * y
  {
    x * y
  }

  function Tolls(live: seq<bool>, w: seq<nat>, f: seq<nat>): (r: seq<int>)
    requires |live| == |f| == |w|
    ensures |r| == |f| && forall k :: 0 <= k < |r| ==> r[k] == Toll(live[k], w[k], f[k])
  {
    seq(|f|, k requires 0 <= k < |f| => Toll(live[k], w[k], f[k]))
  }

  /** The live lengths meet Kraft's inequality. */
  ghost predicate Code(live: seq<bool>, f: seq<nat>, m: nat) {
    && |live| == |f|
    && (forall k :: 0 <= k < |f| && live[k] ==> f[k] <= m)
    && SumOf(Parts(live, f, m)) <= Pow2(m)
  }

  function Price(live: seq<bool>, w: seq<nat>, f: seq<nat>): (r: int)
    requires |live| == |f| == |w|
  {
    SumOf(Tolls(live, w, f))
  }

  /** Changing one member. */
  lemma Change(live: seq<bool>, w: seq<nat>, f: seq<nat>, m: nat, k: nat, alive: bool, weight: nat, len: nat)
    requires |live| == |f| == |w| && k < |f|
    ensures SumOf(Parts(live[k := alive], f[k := len], m))
         == SumOf(Parts(live, f, m)) - Part(live[k], f[k], m) + Part(alive, len, m)
    ensures Price(live[k := alive], w[k := weight], f[k := len])
         == Price(live, w, f) - Toll(live[k], w[k], f[k]) + Toll(alive, weight, len)
  {
    hide Part, Toll, SumOf;
    assert Parts(live[k := alive], f[k := len], m) == Parts(live, f, m)[k := Part(alive, len, m)];
    SumUpdate(Parts(live, f, m), k, Part(alive, len, m));
    assert Tolls(live[k := alive], w[k := weight], f[k := len]) == Tolls(live, w, f)[k := Toll(alive, weight, len)];
    SumUpdate(Tolls(live, w, f), k, Toll(alive, weight, len));
  }

  lemma Same(live: seq<bool>, w: seq<nat>, f: seq<nat>, k: nat)
    requires |live| == |f| == |w| && k < |f|
    ensures live[k := live[k]] == live && w[k := w[k]] == w && f[k := f[k]] == f
  {
  }

  lemma SwapGains(x: nat, y: nat, a: nat, b: nat)
    requires x <= y && a <= b
    ensures Times(x, b) + Times(y, a) <= Times(x, a) + Times(y, b)
  {
    assert (y - x) * (b - a) >= 0;
    assert (y - x) * (b - a) == y * b - y * a - x * b + x * a;
  }

  function Swapped(f: seq<nat>, i: nat, j: nat): (g: seq<nat>)
    requires i < |f| && j < |f|
    ensures |g| == |f|
  {
    f[i := f[j]][j := f[i]]
  }

  /** The lighter of two may have the greater length. */
  lemma Swap(live: seq<bool>, w: seq<nat>, f: seq<nat>, m: nat, i: nat, j: nat)
    requires |live| == |f| == |w| && i < |f| && j < |f| && i != j && live[i] && live[j] && Code(live, f, m)
    requires w[i] <= w[j] && f[i] <= f[j]
    ensures Code(live, Swapped(f, i, j), m) && Price(live, w, Swapped(f, i, j)) <= Price(live, w, f)
  {
    hide Parts, SumOf, Price;
    var g := f[i := f[j]];
    Same(live, w, f, i);
    Same(live, w, f, j);
    Change(live, w, f, m, i, true, w[i], f[j]);
    Change(live, w, g, m, j, true, w[j], f[i]);
    SwapGains(w[i], w[j], f[i], f[j]);
  }

  /** A live member other than `but` with the greatest length among these. */
  lemma {:induction false} Deepest(live: seq<bool>, f: seq<nat>, but: int, q: nat) returns (d: nat)
    requires |live| == |f| && q < |f| && live[q] && q != but
    ensures d < |f| && live[d] && d != but
    ensures forall k :: 0 <= k < |f| && live[k] && k != but ==> f[k] <= f[d]
  {
    d := q;
    for n := 0 to |f|
      invariant d < |f| && live[d] && d != but
      invariant forall k :: 0 <= k < n && live[k] && k != but ==> f[k] <= f[d]
    {
      if live[n] && n != but && f[n] > f[d] { d := n; }
    }
  }

  // --- Levelling the two greatest lengths ---

  lemma PartScaled(live: bool, len: nat, l: nat, n: nat)
    requires len <= l
    ensures Part(live, len, l + n) == Shl(Part(live, len, l), n)
  {
    if live { Pow2Add(l - len, n); } else { Shl0(n); }
  }

  lemma {:induction false} PartsScaled(live: seq<bool>, f: seq<nat>, l: nat, n: nat)
    requires |live| == |f| && forall k :: 0 <= k < |f| && live[k] ==> f[k] <= l
    ensures SumOf(Parts(live, f, l)) >= 0 && SumOf(Parts(live, f, l + n)) == Shl(SumOf(Parts(live, f, l)), n)
    decreases |f|
  {
    hide Part, Shl;
    if f == [] {
      Shl0(n);
    } else {
      var k := |f| - 1;
      PartsScaled(live[..k], f[..k], l, n);
      assert Parts(live, f, l)[..k] == Parts(live[..k], f[..k], l);
      assert Parts(live, f, l + n)[..k] == Parts(live[..k], f[..k], l + n);
      LastScaled(live[k], f[k], l, n);
      ShlAdd(SumOf(Parts(live[..k], f[..k], l)), Part(live[k], f[k], l), n);
    }
  }

  lemma LastScaled(live: bool, len: nat, l: nat, n: nat)
    requires live ==> len <= l
    ensures Part(live, len, l + n) == Shl(Part(live, len, l), n)
  {
    if live { PartScaled(live, len, l, n); } else { Shl0(n); }
  }

  /** A member deeper than all others may come up to the level of the next. */
  lemma Level(live: seq<bool>, w: seq<nat>, f: seq<nat>, m: nat, a: nat, l: nat)
    requires |live| == |f| == |w| && a < |f| && live[a] && Code(live, f, m) && l <= f[a]
    requires forall k :: 0 <= k < |f| && live[k] && k != a ==> f[k] <= l
    ensures Code(live, f[a := l], m) && Price(live, w, f[a := l]) <= Price(live, w, f)
  {
    hide Parts, SumOf, Price, Pow2, Shl, Part, Times;
    Same(live, w, f, a);
    Change(live, w, f, m, a, true, w[a], l);
    TimesMono(w[a], l, f[a]);
    PartIs(l, m);
    PartIs(f[a], m);
    if l < f[a] {
      var rest, n := live[a := false], m - l;
      Change(live, w, f, m, a, false, w[a], f[a]);
      PartsScaled(rest, f, l, n);
      Fits(SumOf(Parts(rest, f, l)), l, n, m, f[a]);
    }
  }

  lemma PartIs(len: nat, m: nat)
    ensures Part(false, len, m) == 0 && (len <= m ==> Part(true, len, m) == Pow2(m - len))
  {
  }

  lemma TimesMono(w: nat, x: nat, y: nat)
    requires x <= y
    ensures Toll(true, w, x) <= Toll(true, w, y)
  {
    assert w * (y - x) >= 0;
  }

  lemma Fits(k: nat, l: nat, n: nat, m: nat, len: nat)
    requires m == l + n && len <= m && Shl(k, n) + Part(true, len, m) <= Pow2(m)
    ensures Shl(k, n) + Part(true, l, m) <= Pow2(m)
  {
    Pow2Add(l, n);
    if k >= Pow2(l) {
      if k > Pow2(l) { ShlLess(Pow2(l), k, n); }
      assert false;
    }
    ShlLess(k, Pow2(l), n);
  }

  // --- The merge ---

  /** The lightest member and the lightest but one. */
  ghost predicate TwoLightest(live: seq<bool>, w: seq<nat>, a: nat, b: nat) {
    && |live| == |w| && a < |w| && b < |w| && a != b && live[a] && live[b]
    && (forall k :: 0 <= k < |w| && live[k] ==> w[a] <= w[k])
    && (forall k :: 0 <= k < |w| && live[k] && k != a ==> w[b] <= w[k])
  }

  /** Lengths no dearer, in which the two lightest have the same, greatest length. */
  lemma Together(live: seq<bool>, w: seq<nat>, f: seq<nat>, m: nat, a: nat, b: nat) returns (g: seq<nat>)
    requires TwoLightest(live, w, a, b) && Code(live, f, m)
    ensures Code(live, g, m) && |g| == |w| && g[a] == g[b] && Price(live, w, g) <= Price(live, w, f)
  {
    hide Price, SumOf, Parts;
    g := f;
    var q := Deepest(live, g, -1, a);
    if q != a {
      Swap(live, w, g, m, a, q);
      g := Swapped(g, a, q);
    }
    assert forall k :: 0 <= k < |g| && live[k] ==> g[k] <= g[a];
    q := Deepest(live, g, a, b);
    if q != b {
      Swap(live, w, g, m, b, q);
      g := Swapped(g, b, q);
    }
    Level(live, w, g, m, a, g[b]);
    g := g[a := g[b]];
  }

  /** Two lengths of 0 do not fit. */
  lemma NotZero(live: seq<bool>, w: seq<nat>, f: seq<nat>, m: nat, a: nat, b: nat)
    requires |live| == |f| == |w| && a < |f| && b < |f| && a != b && live[a] && live[b] && Code(live, f, m) && f[a] == f[b]
    ensures f[a] >= 1
  {
    hide SumOf, Pow2, Part, Toll;
    var l1 := live[a := false];
    Same(live, w, f, a);
    Same(l1, w, f, b);
    Change(live, w, f, m, a, false, w[a], f[a]);
    Change(l1, w, f, m, b, false, w[b], f[b]);
    SumNotNegative(Parts(l1[b := false], f, m));
    PartIs(f[a], m);
  }

  /** One merge: lengths for what is left, no dearer than before by the weight merged. */
  lemma Merged(live: seq<bool>, w: seq<nat>, f: seq<nat>, m: nat, a: nat, b: nat, g: nat) returns (h: seq<nat>)
    requires TwoLightest(live, w, a, b) && Code(live, f, m) && g < |w| && !live[g]
    ensures |h| == |w| && Code(live[a := false][b := false][g := true], h, m)
    ensures Price(live[a := false][b := false][g := true], w[g := w[a] + w[b]], h) + w[a] + w[b] <= Price(live, w, f)
  {
    hide SumOf, Parts, Price, Pow2, Part, Toll;
    h := Together(live, w, f, m, a, b);
    NotZero(live, w, h, m, a, b);
    var len, l1 := h[a], live[a := false];
    var l2 := l1[b := false];
    Same(live, w, h, a);
    Same(l1, w, h, b);
    Change(live, w, h, m, a, false, w[a], len);
    Change(l1, w, h, m, b, false, w[b], len);
    Change(l2, w, h, m, g, true, w[a] + w[b], len - 1);
    OneUp(w[a], w[b], len, m);
    PartIs(h[g], m);
    h := h[g := len - 1];
  }

  lemma OneUp(x: nat, y: nat, len: nat, m: nat)
    requires 1 <= len <= m
    ensures Part(true, len - 1, m) == 2 * Part(true, len, m) && Part(false, len, m) == 0
    ensures Toll(true, x + y, len - 1) + x + y == Toll(true, x, len) + Toll(true, y, len)
    ensures forall z: nat, n: nat {:trigger Toll(false, z, n)} :: Toll(false, z, n) == 0
  {
  }

  // --- What the lengths of a code are for ---

  /** Weight times length, summed over all symbols. */
  function Cost(w: seq<nat>, lens: seq<nat>): (r: int)
    requires |w| == |lens|
  {
    SumOf(seq(|w|, k requires 0 <= k < |w| => Times(w[k], lens[k])))
  }

  /** Kraft's inequality: lengths that a prefix code can have. */
  ghost predicate Kraft(lens: seq<nat>, m: nat) {
    && (forall k :: 0 <= k < |lens| ==> lens[k] <= m)
    && SumOf(seq(|lens|, k requires 0 <= k < |lens| => Part(true, lens[k], m))) <= Pow2(m)
  }

  /** No prefix code costs less. */
  ghost predicate Optimal(w: seq<nat>, lens: seq<nat>) {
    |w| == |lens| && forall other: seq<nat>, m: nat :: |other| == |w| && Kraft(other, m) ==> Cost(w, lens) <= Cost(w, other)
  }

  lemma Middle(s: seq<int>, n: nat)
    requires n < |s| && forall k :: 0 <= k < |s| && !(1 <= k <= n) ==> s[k] == 0
    ensures SumOf(s) == SumOf(s[1..n + 1])
  {
    SumZero(s[..1]);
    SumZero(s[n + 1..]);
    SumConcat(s[..1], s[1..n + 1]);
    SumConcat(s[..n + 1], s[n + 1..]);
    assert s == s[..n + 1] + s[n + 1..] && s[..n + 1] == s[..1] + s[1..n + 1];
  }

  lemma OnlyLive(len: nat, weight: nat, m: nat)
    ensures Part(false, len, m) == 0 && Toll(false, weight, len) == 0 && Toll(true, weight, len) == Times(weight, len)
  {
  }

  /** A list as members 1..n of a longer one, of which only these are live. */
  lemma Embedded(live: seq<bool>, w: seq<nat>, f: seq<nat>, m: nat, n: nat)
    requires |live| == |w| == |f| > n && forall k :: 0 <= k < |f| ==> live[k] == (1 <= k <= n)
    ensures Price(live, w, f) == Cost(w[1..n + 1], f[1..n + 1])
    ensures Code(live, f, m) <==> Kraft(f[1..n + 1], m)
  {
    hide Part, Toll, Times, SumOf;
    var part, toll := Parts(live, f, m), Tolls(live, w, f);
    forall k | 0 <= k < |f|
      ensures !live[k] ==> part[k] == 0 && toll[k] == 0
      ensures live[k] ==> toll[k] == Times(w[k], f[k])
    {
      OnlyLive(f[k], w[k], m);
    }
    Middle(part, n);
    Middle(toll, n);
    var x, y := w[1..n + 1], f[1..n + 1];
    assert part[1..n + 1] == seq(|y|, k requires 0 <= k < |y| => Part(true, y[k], m));
    assert toll[1..n + 1] == seq(|x|, k requires 0 <= k < |x| => Times(x[k], y[k]));
    assert (forall k :: 0 <= k < |f| && live[k] ==> f[k] <= m) <==> forall k :: 0 <= k < |y| ==> y[k] <= m by {
      assert forall k :: 0 <= k < |y| ==> y[k] == f[k + 1];
      assert forall k :: 1 <= k <= n ==> f[k] == y[k - 1];
    }
  }
}

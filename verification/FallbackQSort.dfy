/** fallbackSimpleSort and fallbackQSort3 (blocksort.c): sorting part of the pointer array by class. */
module FallbackQSort {
  import opened Basics
  import opened Permutations
  import opened Shuffles

  /** The classes of the pointers lo..hi exist. */
  ghost predicate Classed(f: seq<int>, e: seq<int>, lo: int, hi: int) {
    0 <= lo <= hi + 1 <= |f| && forall k :: lo <= k <= hi ==> 0 <= f[k] < |e|
  }

  lemma ClassedBounds(f: seq<int>, e: seq<int>, lo: int, hi: int)
    requires Classed(f, e, lo, hi)
    ensures 0 <= lo <= hi + 1 <= |f| && forall k :: lo <= k <= hi ==> 0 <= f[k] < |e|
  {
  }

  ghost predicate Ordered(f: seq<int>, e: seq<int>, lo: int, hi: int) {
    Classed(f, e, lo, hi) && forall j, k :: lo <= j < k <= hi ==> e[f[j]] <= e[f[k]]
  }

  lemma ShuffleClassed(f: seq<int>, g: seq<int>, e: seq<int>, lo: int, hi: int)
    requires Classed(f, e, lo, hi) && Shuffled(f, g, lo, hi)
    ensures Classed(g, e, lo, hi)
  {
    forall k | lo <= k <= hi ensures 0 <= g[k] < |e| {
      var m := ShuffleSource(f, g, lo, hi, k);
    }
  }

  /** All but position j in order, and everything before j below the class c. */
  ghost predicate AllButOne(g: seq<int>, e: seq<int>, i: int, hi: int, j: int, c: int) {
    && Classed(g, e, i, hi)
    && (forall a, b :: i <= a < b <= hi && a != j && b != j ==> e[g[a]] <= e[g[b]])
    && (forall a :: i <= a < j && a <= hi ==> e[g[a]] < c)
  }

  lemma StepUp(g: seq<int>, e: seq<int>, i: int, hi: int, j: int, c: int)
    requires AllButOne(g, e, i, hi, j, c) && i <= j < hi && e[g[j + 1]] < c && e[g[j]] == c
    ensures AllButOne(Swapped(g, j, j + 1), e, i, hi, j + 1, c)
  {
  }

  /** What holds while an entry of class c sinks from i: it would stand at j now. */
  ghost predicate Sinking(f: seq<int>, g: seq<int>, e: seq<int>, i: nat, hi: int, j: int, step: nat, c: int) {
    && Shuffled(f, g, i, hi) && Classed(f, e, i, hi) && Classed(g, e, i, hi) && i <= j <= hi && e[g[j]] == c
    && (step == 1 && Ordered(f, e, i + 1, hi) ==> AllButOne(g, e, i, hi, j, c))
  }

  lemma SinkStart(f: seq<int>, e: seq<int>, i: nat, hi: int, step: nat)
    requires i <= hi && Classed(f, e, i, hi)
    ensures Sinking(f, f, e, i, hi, i, step, e[f[i]])
  {
    ShuffleNothing(f, i, hi);
  }

  lemma SinkStep(f: seq<int>, g: seq<int>, e: seq<int>, i: nat, hi: int, j: int, step: nat, c: int)
    requires Sinking(f, g, e, i, hi, j, step, c) && step >= 1 && j + step <= hi && e[g[j + step]] < c
    ensures Sinking(f, Swapped(g, j, j + step), e, i, hi, j + step, step, c)
  {
    hide Within, Distinct;
    var h := Swapped(g, j, j + step);
    SwapShuffles(g, j, j + step, i, hi);
    ShuffleAgain(f, g, h, i, hi);
    ShuffleClassed(f, h, e, i, hi);
    if step == 1 && Ordered(f, e, i + 1, hi) { StepUp(g, e, i, hi, j, c); }
  }

  lemma SinkEnd(f: seq<int>, g: seq<int>, e: seq<int>, i: nat, hi: int, j: int, step: nat, c: int)
    requires Sinking(f, g, e, i, hi, j, step, c) && step >= 1
    requires j + step > hi || e[g[j + step]] >= c
    ensures Shuffled(f, g, i, hi)
    ensures step == 1 && Ordered(f, e, i + 1, hi) ==> Ordered(g, e, i, hi)
  {
  }

  /** One insertion: entry i sinks, in steps, past the entries of smaller class. */
  method Insert(fmap: array<Word>, eclass: array<Word>, i: nat, hi: int, step: nat)
    requires 0 <= i <= hi < fmap.Length && step >= 1 && fmap != eclass
    requires Classed(fmap[..], eclass[..], i, hi)
    modifies fmap
    ensures Shuffled(old(fmap[..]), fmap[..], i, hi)
    ensures step == 1 && Ordered(old(fmap[..]), eclass[..], i + 1, hi) ==> Ordered(fmap[..], eclass[..], i, hi)
  {
    hide Shuffled, AllButOne, Ordered, Sinking;
    ghost var f, e := fmap[..], eclass[..];
    var tmp := fmap[i];
    var ecTmp := eclass[tmp];
    var j := i + step;
    ghost var g: seq<int> := f;
    SinkStart(f, e, i, hi, step);
    while j <= hi && ecTmp > eclass[fmap[j]]
      invariant i + step <= j && j - step <= hi && g == fmap[..][j - step := tmp]
      invariant Sinking(f, g, e, i, hi, j - step, step, ecTmp) && eclass[..] == e
      invariant forall k :: j <= k <= hi ==> fmap[k] == f[k]
      decreases hi - j
    {
      SinkStep(f, g, e, i, hi, j - step, step, ecTmp);
      g := Swapped(g, j - step, j);
      fmap[j - step] := fmap[j];
      j := j + step;
    }
    SinkEnd(f, g, e, i, hi, j - step, step, ecTmp);
    fmap[j - step] := tmp;
    assert fmap[..] == g;
  }

  /** fallbackSimpleSort: a pass of stride 4, then an insertion sort. */
  method SimpleSort(fmap: array<Word>, eclass: array<Word>, lo: nat, hi: int)
    requires lo <= hi + 1 <= fmap.Length && fmap != eclass
    requires Classed(fmap[..], eclass[..], lo, hi)
    modifies fmap
    ensures Shuffled(old(fmap[..]), fmap[..], lo, hi) && Ordered(fmap[..], eclass[..], lo, hi)
  {
    hide Shuffled;
    ghost var f, e := fmap[..], eclass[..];
    ShuffleNothing(f, lo, hi);
    if lo == hi { return; }
    if hi - lo > 3 {
      var i := hi - 4;
      while i >= lo
        invariant lo - 1 <= i <= hi - 4 && Shuffled(f, fmap[..], lo, hi) && Classed(fmap[..], e, lo, hi) && eclass[..] == e
      {
        ghost var g := fmap[..];
        Insert(fmap, eclass, i, hi, 4);
        ShuffleMore(f, g, fmap[..], e, i, hi, lo);
        i := i - 1;
      }
    }
    var i := hi - 1;
    while i >= lo
      invariant i <= hi - 1 && (hi >= lo ==> i >= lo - 1) && Shuffled(f, fmap[..], lo, hi) && Classed(fmap[..], e, lo, hi) && eclass[..] == e
      invariant hi >= lo ==> Ordered(fmap[..], e, i + 1, hi)
    {
      ghost var g := fmap[..];
      Insert(fmap, eclass, i, hi, 1);
      ShuffleMore(f, g, fmap[..], e, i, hi, lo);
      i := i - 1;
    }
  }

  lemma ShuffleMore(f: seq<int>, g: seq<int>, h: seq<int>, e: seq<int>, i: int, hi: int, lo: nat)
    requires Shuffled(f, g, lo, hi) && Classed(f, e, lo, hi) && lo <= i <= hi && Shuffled(g, h, i, hi)
    ensures Shuffled(f, h, lo, hi) && Classed(h, e, lo, hi)
  {
    ShuffleWider(g, h, i, hi, lo, hi);
    ShuffleAgain(f, g, h, lo, hi);
    ShuffleClassed(f, h, e, lo, hi);
  }

  // --- Three-way partition ---

  /** During partitioning: equal entries at both ends, then smaller and larger ones, the middle open. */
  ghost predicate Parting(f: seq<int>, e: seq<int>, med: int, lo: int, hi: int, ltLo: int, unLo: int, unHi: int, gtHi: int) {
    && Classed(f, e, lo, hi) && lo <= ltLo <= unLo <= unHi + 1 <= gtHi + 1 <= hi + 1
    && (forall k :: lo <= k < ltLo ==> e[f[k]] == med)
    && (forall k :: ltLo <= k < unLo ==> e[f[k]] < med)
    && (forall k :: unHi < k <= gtHi ==> e[f[k]] > med)
    && (forall k :: gtHi < k <= hi ==> e[f[k]] == med)
  }

  /** A partition is finished: smaller, equal, larger. */
  ghost predicate Parted(f: seq<int>, e: seq<int>, med: int, lo: int, hi: int, n: int, m: int) {
    && Classed(f, e, lo, hi) && lo - 1 <= n < m <= hi + 1
    && (forall k :: lo <= k <= n ==> e[f[k]] < med)
    && (forall k :: n < k < m ==> e[f[k]] == med)
    && (forall k :: m <= k <= hi ==> e[f[k]] > med)
  }

  predicate Above(f: seq<int>, e: seq<int>, k: int, med: int) {
    0 <= k < |f| && 0 <= f[k] < |e| && e[f[k]] > med
  }

  lemma EqualUp(f: seq<int>, e: seq<int>, med: int, lo: int, hi: int, ltLo: int, unLo: int, unHi: int, gtHi: int)
    requires Parting(f, e, med, lo, hi, ltLo, unLo, unHi, gtHi) && unLo <= unHi && e[f[unLo]] == med
    ensures Parting(Swapped(f, unLo, ltLo), e, med, lo, hi, ltLo + 1, unLo + 1, unHi, gtHi)
    ensures Shuffled(f, Swapped(f, unLo, ltLo), lo, hi)
  {
    hide Shuffled;
    SwapShuffles(f, unLo, ltLo, lo, hi);
  }

  lemma EqualDown(f: seq<int>, e: seq<int>, med: int, lo: int, hi: int, ltLo: int, unLo: int, unHi: int, gtHi: int)
    requires Parting(f, e, med, lo, hi, ltLo, unLo, unHi, gtHi) && unLo <= unHi && e[f[unHi]] == med && e[f[unLo]] > med
    ensures Parting(Swapped(f, unHi, gtHi), e, med, lo, hi, ltLo, unLo, unHi - 1, gtHi - 1)
    ensures unLo < unHi && Swapped(f, unHi, gtHi)[unLo] == f[unLo]
    ensures Shuffled(f, Swapped(f, unHi, gtHi), lo, hi)
  {
    hide Shuffled;
    SwapShuffles(f, unHi, gtHi, lo, hi);
  }

  lemma PassUp(f: seq<int>, e: seq<int>, med: int, lo: int, hi: int, ltLo: int, unLo: int, unHi: int, gtHi: int)
    requires Parting(f, e, med, lo, hi, ltLo, unLo, unHi, gtHi) && unLo <= unHi
    ensures 0 <= unLo < |f| && 0 <= f[unLo] < |e| && 0 <= unHi < |f| && 0 <= f[unHi] < |e|
    ensures e[f[unLo]] < med ==> Parting(f, e, med, lo, hi, ltLo, unLo + 1, unHi, gtHi)
    ensures e[f[unHi]] > med ==> Parting(f, e, med, lo, hi, ltLo, unLo, unHi - 1, gtHi)
  {
  }

  lemma PartingBounds(f: seq<int>, e: seq<int>, med: int, lo: int, hi: int, ltLo: int, unLo: int, unHi: int, gtHi: int)
    requires Parting(f, e, med, lo, hi, ltLo, unLo, unHi, gtHi)
    ensures 0 <= lo <= ltLo <= unLo <= unHi + 1 <= gtHi + 1 <= hi + 1 <= |f|
  {
  }

  method Swap(fmap: array<Word>, i: nat, j: nat)
    requires i < fmap.Length && j < fmap.Length
    modifies fmap
    ensures fmap[..] == Swapped(old(fmap[..]), i, j)
  {
    fmap[i], fmap[j] := fmap[j], fmap[i];
  }

  /** The inner loop from the left: it stops before an entry above the median. */
  method ScanUp(fmap: array<Word>, eclass: array<Word>, med: int, lo: nat, hi: int, ltLo0: nat, unLo0: nat, unHi: int, gtHi: int)
    returns (ltLo: nat, unLo: nat)
    requires fmap != eclass && Parting(fmap[..], eclass[..], med, lo, hi, ltLo0, unLo0, unHi, gtHi)
    modifies fmap
    ensures Shuffled(old(fmap[..]), fmap[..], lo, hi) && unLo >= unLo0
    ensures Parting(fmap[..], eclass[..], med, lo, hi, ltLo, unLo, unHi, gtHi)
    ensures unLo <= unHi ==> Above(fmap[..], eclass[..], unLo, med)
  {
    hide Shuffled, Parting, Swapped;
    ghost var f, e := fmap[..], eclass[..];
    PartingBounds(f, e, med, lo, hi, ltLo0, unLo0, unHi, gtHi);
    ShuffleNothing(f, lo, hi);
    ltLo, unLo := ltLo0, unLo0;
    while unLo <= unHi
      invariant unLo >= unLo0 && eclass[..] == e
      invariant Shuffled(f, fmap[..], lo, hi) && Parting(fmap[..], e, med, lo, hi, ltLo, unLo, unHi, gtHi)
    {
      PassUp(fmap[..], e, med, lo, hi, ltLo, unLo, unHi, gtHi);
      PartingBounds(fmap[..], e, med, lo, hi, ltLo, unLo, unHi, gtHi);
      var n := eclass[fmap[unLo]] - med;
      if n == 0 {
        EqualUp(fmap[..], e, med, lo, hi, ltLo, unLo, unHi, gtHi);
        ShuffleAgain(f, fmap[..], Swapped(fmap[..], unLo, ltLo), lo, hi);
        Swap(fmap, unLo, ltLo);
        ltLo := ltLo + 1;
        unLo := unLo + 1;
        continue;
      }
      if n > 0 { break; }
      unLo := unLo + 1;
    }
  }

  /** The inner loop from the right: it stops after an entry below the median. */
  method ScanDown(fmap: array<Word>, eclass: array<Word>, med: int, lo: nat, hi: int, ltLo: nat, unLo: nat, unHi0: int, gtHi0: int)
    returns (unHi: int, gtHi: int)
    requires fmap != eclass && Parting(fmap[..], eclass[..], med, lo, hi, ltLo, unLo, unHi0, gtHi0)
    requires unLo <= unHi0 ==> Above(fmap[..], eclass[..], unLo, med)
    modifies fmap
    ensures Shuffled(old(fmap[..]), fmap[..], lo, hi) && unHi <= unHi0
    ensures Parting(fmap[..], eclass[..], med, lo, hi, ltLo, unLo, unHi, gtHi)
    ensures unLo <= unHi ==> eclass[fmap[unHi]] < med && Above(fmap[..], eclass[..], unLo, med)
  {
    hide Shuffled, Parting, Swapped;
    ghost var f, e := fmap[..], eclass[..];
    PartingBounds(f, e, med, lo, hi, ltLo, unLo, unHi0, gtHi0);
    ShuffleNothing(f, lo, hi);
    unHi, gtHi := unHi0, gtHi0;
    while unLo <= unHi
      invariant unHi <= unHi0 && eclass[..] == e
      invariant Shuffled(f, fmap[..], lo, hi) && Parting(fmap[..], e, med, lo, hi, ltLo, unLo, unHi, gtHi)
      invariant unLo <= unHi ==> Above(fmap[..], e, unLo, med)
    {
      PassUp(fmap[..], e, med, lo, hi, ltLo, unLo, unHi, gtHi);
      PartingBounds(fmap[..], e, med, lo, hi, ltLo, unLo, unHi, gtHi);
      var n := eclass[fmap[unHi]] - med;
      if n == 0 {
        EqualDown(fmap[..], e, med, lo, hi, ltLo, unLo, unHi, gtHi);
        ShuffleAgain(f, fmap[..], Swapped(fmap[..], unHi, gtHi), lo, hi);
        Swap(fmap, unHi, gtHi);
        gtHi := gtHi - 1;
        unHi := unHi - 1;
        continue;
      }
      if n < 0 { break; }
      unHi := unHi - 1;
    }
  }

  lemma SwapMiddle(f: seq<int>, e: seq<int>, med: int, lo: int, hi: int, ltLo: int, unLo: int, unHi: int, gtHi: int)
    requires Parting(f, e, med, lo, hi, ltLo, unLo, unHi, gtHi) && unLo <= unHi
    requires Above(f, e, unLo, med) && 0 <= f[unHi] < |e| && e[f[unHi]] < med
    ensures unLo < unHi && Parting(Swapped(f, unLo, unHi), e, med, lo, hi, ltLo, unLo + 1, unHi - 1, gtHi)
    ensures Shuffled(f, Swapped(f, unLo, unHi), lo, hi)
  {
    hide Shuffled;
    SwapShuffles(f, unLo, unHi, lo, hi);
  }

  /** The partitioning loop: at its end nothing is open. */
  method Divide(fmap: array<Word>, eclass: array<Word>, med: int, lo: nat, hi: int) returns (ltLo: nat, unLo: nat, unHi: int, gtHi: int)
    requires fmap != eclass && Classed(fmap[..], eclass[..], lo, hi)
    modifies fmap
    ensures Shuffled(old(fmap[..]), fmap[..], lo, hi)
    ensures Parting(fmap[..], eclass[..], med, lo, hi, ltLo, unLo, unHi, gtHi) && unHi == unLo - 1
  {
    hide Shuffled, Parting, Swapped;
    ghost var f, e := fmap[..], eclass[..];
    ShuffleNothing(f, lo, hi);
    PartingStart(f, e, med, lo, hi);
    ltLo, unLo, unHi, gtHi := lo, lo, hi, hi;
    while true
      invariant eclass[..] == e && Shuffled(f, fmap[..], lo, hi)
      invariant Parting(fmap[..], e, med, lo, hi, ltLo, unLo, unHi, gtHi)
      decreases unHi - unLo + 1
    {
      PartingBounds(fmap[..], e, med, lo, hi, ltLo, unLo, unHi, gtHi);
      ghost var g := fmap[..];
      ltLo, unLo := ScanUp(fmap, eclass, med, lo, hi, ltLo, unLo, unHi, gtHi);
      ShuffleAgain(f, g, fmap[..], lo, hi);
      g := fmap[..];
      unHi, gtHi := ScanDown(fmap, eclass, med, lo, hi, ltLo, unLo, unHi, gtHi);
      ShuffleAgain(f, g, fmap[..], lo, hi);
      PartingBounds(fmap[..], e, med, lo, hi, ltLo, unLo, unHi, gtHi);
      if unLo > unHi { break; }
      PassUp(fmap[..], e, med, lo, hi, ltLo, unLo, unHi, gtHi);
      SwapMiddle(fmap[..], e, med, lo, hi, ltLo, unLo, unHi, gtHi);
      ShuffleAgain(f, fmap[..], Swapped(fmap[..], unLo, unHi), lo, hi);
      Swap(fmap, unLo, unHi);
      unLo := unLo + 1;
      unHi := unHi - 1;
    }
  }

  lemma PartingStart(f: seq<int>, e: seq<int>, med: int, lo: int, hi: int)
    requires Classed(f, e, lo, hi)
    ensures Parting(f, e, med, lo, hi, lo, lo, hi, hi)
  {
  }

  /** fvswap's effect on two runs of n entries. */
  ghost predicate Exchanged(f: seq<int>, g: seq<int>, p1: int, p2: int, n: int) {
    && |f| == |g| && 0 <= p1 && p1 + n <= p2 && p2 + n <= |f|
    && (forall k :: 0 <= k < |f| && !(p1 <= k < p1 + n) && !(p2 <= k < p2 + n) ==> g[k] == f[k])
    && (forall k :: p1 <= k < p1 + n ==> g[k] == f[k + p2 - p1])
    && (forall k :: p2 <= k < p2 + n ==> g[k] == f[k - p2 + p1])
  }

  lemma ExchangeMore(f: seq<int>, g: seq<int>, p1: int, p2: int, n: int)
    requires n >= 0 && Exchanged(f, g, p1, p2, n) && p1 + n < p2 && p2 + n < |f|
    ensures Exchanged(f, Swapped(g, p1 + n, p2 + n), p1, p2, n + 1)
  {
  }

  method SwapRuns(fmap: array<Word>, p1: nat, p2: nat, n: int, lo: nat, hi: int)
    requires n > 0 ==> lo <= p1 && p1 + n <= p2 && p2 + n <= hi + 1
    requires lo <= hi + 1 <= fmap.Length
    modifies fmap
    ensures Shuffled(old(fmap[..]), fmap[..], lo, hi)
    ensures if n > 0 then Exchanged(old(fmap[..]), fmap[..], p1, p2, n) else fmap[..] == old(fmap[..])
  {
    hide Shuffled, Swapped, Exchanged;
    ghost var f := fmap[..];
    ShuffleNothing(f, lo, hi);
    var yyp1, yyp2, yyn := p1, p2, n;
    if n > 0 { ExchangeNothing(f, p1, p2); }
    while yyn > 0
      invariant n > 0 ==> 0 <= yyn <= n && yyp1 == p1 + (n - yyn) && yyp2 == p2 + (n - yyn)
      invariant n <= 0 ==> yyn == n && fmap[..] == f
      invariant Shuffled(f, fmap[..], lo, hi)
      invariant n > 0 ==> Exchanged(f, fmap[..], p1, p2, n - yyn)
    {
      ExchangeMore(f, fmap[..], p1, p2, n - yyn);
      SwapShuffles(fmap[..], yyp1, yyp2, lo, hi);
      ShuffleAgain(f, fmap[..], Swapped(fmap[..], yyp1, yyp2), lo, hi);
      Swap(fmap, yyp1, yyp2);
      yyp1, yyp2, yyn := yyp1 + 1, yyp2 + 1, yyn - 1;
    }
  }

  lemma ExchangeNothing(f: seq<int>, p1: int, p2: int)
    ensures 0 <= p1 <= p2 <= |f| ==> Exchanged(f, f, p1, p2, 0)
  {
  }

  /** The left end in place: smaller entries first, then equal ones. */
  lemma LeftDone(f: seq<int>, g: seq<int>, e: seq<int>, med: int, lo: int, hi: int, ltLo: int, unLo: int, unHi: int, gtHi: int, n: int)
    requires Parting(f, e, med, lo, hi, ltLo, unLo, unHi, gtHi) && unHi == unLo - 1
    requires n == (if ltLo - lo < unLo - ltLo then ltLo - lo else unLo - ltLo)
    requires if n > 0 then Exchanged(f, g, lo, unLo - n, n) else g == f
    ensures forall k :: lo <= k < lo + unLo - ltLo ==> 0 <= g[k] < |e| && e[g[k]] < med
    ensures forall k :: lo + unLo - ltLo <= k < unLo ==> 0 <= g[k] < |e| && e[g[k]] == med
    ensures forall k :: unHi < k <= gtHi ==> 0 <= g[k] < |e| && e[g[k]] > med
    ensures forall k :: gtHi < k <= hi ==> 0 <= g[k] < |e| && e[g[k]] == med
  {
  }

  lemma RightDone(g: seq<int>, h: seq<int>, e: seq<int>, med: int, lo: int, hi: int, a: int, unLo: int, gtHi: int, m: int)
    requires 0 <= lo <= a <= unLo <= gtHi + 1 <= hi + 1 <= |g|
    requires forall k :: lo <= k < a ==> 0 <= g[k] < |e| && e[g[k]] < med
    requires forall k :: a <= k < unLo ==> 0 <= g[k] < |e| && e[g[k]] == med
    requires forall k :: unLo <= k <= gtHi ==> 0 <= g[k] < |e| && e[g[k]] > med
    requires forall k :: gtHi < k <= hi ==> 0 <= g[k] < |e| && e[g[k]] == med
    requires m == (if hi - gtHi < gtHi - (unLo - 1) then hi - gtHi else gtHi - (unLo - 1))
    requires if m > 0 then Exchanged(g, h, unLo, hi - m + 1, m) else h == g
    ensures Parted(h, e, med, lo, hi, a - 1, hi - (gtHi - (unLo - 1)) + 1)
  {
  }

  lemma SomeEqual(g: seq<int>, e: seq<int>, med: int, lo: int, hi: int, ltLo: int, unLo: int, unHi: int, gtHi: int, y: int)
    requires Parting(g, e, med, lo, hi, ltLo, unLo, unHi, gtHi) && unHi == unLo - 1 && lo <= y <= hi && e[g[y]] == med
    ensures ltLo > lo || gtHi < hi
    ensures gtHi < ltLo ==> Parted(g, e, med, lo, hi, lo - 1, hi + 1)
  {
  }

  /** One partition of lo..hi around a median that occurs there. */
  method Partition(fmap: array<Word>, eclass: array<Word>, med: int, lo: nat, hi: int) returns (n: int, m: int)
    requires fmap != eclass && lo <= hi && Classed(fmap[..], eclass[..], lo, hi)
    requires exists x :: lo <= x <= hi && eclass[fmap[x]] == med
    modifies fmap
    ensures Shuffled(old(fmap[..]), fmap[..], lo, hi)
    ensures Parted(fmap[..], eclass[..], med, lo, hi, n, m) && n + 1 < m
  {
    hide *;
    ghost var f, e := fmap[..], eclass[..];
    ClassedBounds(f, e, lo, hi);
    ghost var x :| lo <= x <= hi && e[f[x]] == med;
    var ltLo, unLo, unHi, gtHi := Divide(fmap, eclass, med, lo, hi);
    ghost var g := fmap[..];
    ghost var y := ShuffleTarget(f, g, lo, hi, x);
    PartingBounds(g, e, med, lo, hi, ltLo, unLo, unHi, gtHi);
    SomeEqual(g, e, med, lo, hi, ltLo, unLo, unHi, gtHi, y);
    if gtHi < ltLo { return lo - 1, hi + 1; }
    var k1 := if ltLo - lo < unLo - ltLo then ltLo - lo else unLo - ltLo;
    SwapRuns(fmap, lo, unLo - k1, k1, lo, hi);
    ghost var h := fmap[..];
    LeftDone(g, h, e, med, lo, hi, ltLo, unLo, unHi, gtHi, k1);
    ShuffleAgain(f, g, h, lo, hi);
    var k2 := if hi - gtHi < gtHi - unHi then hi - gtHi else gtHi - unHi;
    SwapRuns(fmap, unLo, hi - k2 + 1, k2, lo, hi);
    RightDone(h, fmap[..], e, med, lo, hi, lo + unLo - ltLo, unLo, gtHi, k2);
    ShuffleAgain(f, h, fmap[..], lo, hi);
    n, m := lo + unLo - ltLo - 1, hi - (gtHi - unHi) + 1;
  }
}

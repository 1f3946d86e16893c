/** fallbackSort (blocksort.c): passes that double the sorted depth until all rotations are ordered, and
    the reconstruction of the block that the classes overwrote. */
module FallbackSort {
  import opened Basics
  import opened Permutations
  import opened Rotations
  import opened Ranks
  import opened Shuffles
  import opened FallbackQSort
  import opened FallbackStack
  import opened Depths
  import opened Doubling
  import opened HeaderBits
  import opened RadixSort

  // --- Classes ---

  lemma BackDistinct(x: nat, y: nat, h: nat, n: nat)
    requires x < n && y < n && 1 <= h <= n && x != y
    ensures Back(x, h, n) != Back(y, h, n) && Back(x, h, n) < n && Back(y, h, n) < n
  {
  }

  /** The first loop of a pass: eclass receives bucket starts. */
  method AssignClasses(fmap: array<Word>, eclass: array<Word>, bhtab: array<bv32>, n: nat, h: nat)
    requires fmap != eclass && bhtab as object != eclass && bhtab as object != fmap
    requires 0 < n <= fmap.Length && n <= eclass.Length && HeaderBits.Covers(bhtab, n) && 1 <= h <= n < 0x1_0000_0000
    requires Injective(fmap[..n], n)
    modifies eclass
    ensures forall i :: 0 <= i < n ==> eclass[Back(fmap[i], h, n)] == Start(HeadsIn(bhtab, n), i)
  {
    hide Start, IsSet, Injective;
    ghost var f, hd := fmap[..n], HeadsIn(bhtab, n);
    var j := 0;
    for i := 0 to n
      invariant fmap[..n] == f && HeadsIn(bhtab, n) == hd && 0 <= j < n && (if i > 0 then j == Start(hd, i - 1) else j == 0)
      invariant forall m :: 0 <= m < i ==> 0 <= f[m] < n && eclass[Back(f[m], h, n)] == Start(hd, m)
    {
      StartNext(hd, i);
      PointerRange(f, n, i);
      CoverLess(bhtab, i, n);
      assert hd[i] == IsSet(bhtab, i) && fmap[i] == f[i];
      if IsSet(bhtab, i) { j := i; }
      assert j == Start(hd, i);
      var k: int := fmap[i];
      k := k - h;
      if k < 0 { k := k + n; }
      forall m: nat | m < i ensures Back(f[m], h, n) != k {
        PointerRange(f, n, m);
        BackDistinct(f[m], f[i], h, n);
      }
      eclass[k] := j;
    }
    assert fmap[..n] == f;
  }

  lemma StartNext(hd: seq<bool>, i: nat)
    requires i < |hd|
    ensures Start(hd, i) == if i == 0 || hd[i] then i else Start(hd, i - 1)
    ensures Start(hd, i) <= i
  {
  }

  lemma PointerRange(f: seq<int>, n: nat, i: nat)
    requires Injective(f, n) && i < n
    ensures |f| == n && 0 <= f[i] < n && forall m :: 0 <= m < i ==> f[m] != f[i] && 0 <= f[m] < n
  {
  }

  // --- One bucket ---

  /** Sets a header wherever the class changes inside the bucket. */
  method MarkChanges(fmap: array<Word>, eclass: array<Word>, bhtab: array<bv32>, n: nat, l: nat, r: nat)
    requires fmap != eclass && bhtab as object != eclass && bhtab as object != fmap
    requires l < r < n <= fmap.Length && Sentinel(bhtab, n)
    requires forall p :: l <= p <= r ==> fmap[p] < eclass.Length
    requires forall p: nat :: l < p <= r && p / 32 < bhtab.Length ==> !IsSet(bhtab, p)
    modifies bhtab
    ensures Sentinel(bhtab, n)
    ensures BucketHeads(old(HeadsIn(bhtab, n)), HeadsIn(bhtab, n), fmap[..n], eclass[..], l, r)
  {
    hide HasBit;
    ghost var hd := HeadsIn(bhtab, n);
    var cc: int := -1;
    for i := l to r + 1
      invariant Sentinel(bhtab, n) && (i > l ==> cc == eclass[fmap[i - 1]]) && (i == l ==> cc == -1)
      invariant forall p: nat :: p < n && p / 32 < bhtab.Length && !(l <= p < i) ==> IsSet(bhtab, p) == hd[p]
      invariant forall p: nat {:trigger IsSet(bhtab, p)} :: l <= p < i && p / 32 < bhtab.Length ==>
                  IsSet(bhtab, p) == (p == l || eclass[fmap[p - 1]] != eclass[fmap[p]])
    {
      CoverLess(bhtab, i, n + 63);
      var cc1 := eclass[fmap[i]];
      if cc != cc1 {
        SetBH(bhtab, i);
        cc := cc1;
      }
    }
    forall p: nat | p < n ensures p / 32 < bhtab.Length { CoverLess(bhtab, p, n + 63); }
    ghost var g, hd2 := fmap[..n], HeadsIn(bhtab, n);
    assert hd2[l] == IsSet(bhtab, l);
    forall p: nat | p < n && !(l <= p <= r) ensures hd2[p] == hd[p] {
      assert hd2[p] == IsSet(bhtab, p);
    }
    forall p: nat | l <= p <= r ensures 0 <= g[p] < eclass.Length {
      assert g[p] == fmap[p];
    }
    ghost var e := eclass[..];
    forall p: nat | l < p <= r ensures hd2[p] == (e[g[p - 1]] != e[g[p]]) {
      assert g[p] == fmap[p] && g[p - 1] == fmap[p - 1] && hd2[p] == IsSet(bhtab, p);
    }
    HeadsFrom(hd, hd2, g, e, l, r);
  }

  lemma HeadsFrom(hd: seq<bool>, hd2: seq<bool>, g: seq<int>, e: seq<int>, l: nat, r: nat)
    requires |hd2| == |hd| && l < r < |hd| && |g| == |hd|
    requires forall p: nat :: p < |hd| && !(l <= p <= r) ==> hd2[p] == hd[p]
    requires forall p: nat :: l <= p <= r ==> 0 <= g[p] < |e|
    requires hd2[l] && forall p: nat :: l < p <= r ==> hd2[p] == (e[g[p - 1]] != e[g[p]])
    ensures BucketHeads(hd, hd2, g, e, l, r)
  {
  }

  /** What a pass keeps between buckets. */
  ghost predicate InPass(b: seq<Byte>, f0: seq<int>, f: seq<int>, hd0: seq<bool>, hd: seq<bool>, e: seq<int>, h: nat, done: nat) {
    Rotational(b, f0) && Rotational(b, f) && |hd0| == |b| && Refining(b, f0, f, hd0, hd, e, h, done)
  }

  lemma PointersClassed(b: seq<Byte>, f: seq<int>, full: seq<int>, e: seq<int>, h: nat, l: nat, r: nat)
    requires Rotational(b, f) && Classes(b, e, h) && l <= r < |b| <= |full| && full[..|b|] == f
    ensures Classed(full, e, l, r)
  {
    hide Same, Less;
    forall k | l <= k <= r ensures 0 <= full[k] < |e| {
      assert full[k] == f[k];
    }
  }

  lemma ShufflePrefix(f: seq<int>, g: seq<int>, l: nat, r: nat, n: nat)
    requires Shuffled(f, g, l, r) && l <= r < n <= |f|
    ensures Shuffled(f[..n], g[..n], l, r)
  {
    var a, c := f[..n], g[..n];
    assert a[l..r + 1] == f[l..r + 1] && c[l..r + 1] == g[l..r + 1];
    hide Distinct;
    PrefixDistinct(f, a, l, r, n);
    PrefixDistinct(g, c, l, r, n);
  }

  lemma PrefixDistinct(f: seq<int>, a: seq<int>, l: nat, r: nat, n: nat)
    requires l <= r < n <= |f| && a == f[..n]
    ensures Distinct(f, l, r) == Distinct(a, l, r)
  {
    if Distinct(f, l, r) {
      forall j, k | l <= j < k <= r ensures a[j] != a[k] { assert f[j] != f[k]; }
    }
    if Distinct(a, l, r) {
      forall j, k | l <= j < k <= r ensures f[j] != f[k] { assert a[j] != a[k]; }
    }
  }

  /** Sorting one bucket and marking its new headers. */
  method RefineBucket(fmap: array<Word>, eclass: array<Word>, bhtab: array<bv32>, n: nat, l: nat, r: nat,
                      ghost b: seq<Byte>, ghost f0: seq<int>, ghost hd0: seq<bool>, ghost h: nat)
    requires fmap != eclass && bhtab as object != eclass && bhtab as object != fmap
    requires |b| == n <= fmap.Length && n <= 900000 && Sentinel(bhtab, n) && Bucket(hd0, l, r)
    requires InPass(b, f0, fmap[..n], hd0, HeadsIn(bhtab, n), eclass[..], h, l)
    modifies fmap, bhtab
    ensures Sentinel(bhtab, n)
    ensures InPass(b, f0, fmap[..n], hd0, HeadsIn(bhtab, n), eclass[..], h, r + 1)
    ensures fmap[n..] == old(fmap[n..])
  {
    hide Refining, Same, Less, Shuffled, Ordered, HasBit;
    ghost var full, f, hd, e := fmap[..], fmap[..n], HeadsIn(bhtab, n), eclass[..];
    PassParts(b, f0, f, hd0, hd, e, h, l);
    PointersClassed(b, f, full, e, h, l, r);
    QSort3(fmap, eclass, l, r);
    assert eclass[..] == e && HeadsIn(bhtab, n) == hd;
    ghost var g := fmap[..n];
    ShufflePrefix(full, fmap[..], l, r, n);
    OrderedPrefix(fmap[..], e, l, r, n);
    ShuffleTail(full, fmap[..], l, r, n);
    ShuffleRotational(b, f, g, l, r);
    ClearInside(b, f0, f, hd0, hd, e, h, l, r);
    MarkChanges(fmap, eclass, bhtab, n, l, r);
    assert fmap[..n] == g;
    BucketDone(b, f0, f, g, hd0, hd, HeadsIn(bhtab, n), e, h, l, r);
  }

  lemma PassParts(b: seq<Byte>, f0: seq<int>, f: seq<int>, hd0: seq<bool>, hd: seq<bool>, e: seq<int>, h: nat, done: nat)
    requires InPass(b, f0, f, hd0, hd, e, h, done)
    ensures Rotational(b, f0) && Rotational(b, f) && Classes(b, e, h) && done <= |b| && |hd| == |b| == |hd0|
    ensures Heads(b, f0, hd0, h) && SortedTo(b, f0, h)
    ensures done < |b| ==> hd0[done]
    ensures forall p :: done <= p < |b| ==> hd[p] == hd0[p]
  {
  }

  lemma ClearInside(b: seq<Byte>, f0: seq<int>, f: seq<int>, hd0: seq<bool>, hd: seq<bool>, e: seq<int>, h: nat, l: nat, r: nat)
    requires InPass(b, f0, f, hd0, hd, e, h, l) && Bucket(hd0, l, r)
    ensures |hd| == |b| && forall p :: l < p <= r ==> !hd[p]
  {
  }

  lemma OrderedPrefix(f: seq<int>, e: seq<int>, l: nat, r: nat, n: nat)
    requires Ordered(f, e, l, r) && l <= r < n <= |f|
    ensures Ordered(f[..n], e, l, r)
    ensures forall p :: l <= p <= r ==> 0 <= f[p] < |e|
  {
  }

  lemma ShuffleTail(f: seq<int>, g: seq<int>, l: nat, r: nat, n: nat)
    requires Shuffled(f, g, l, r) && r < n <= |f|
    ensures |g| == |f| && g[n..] == f[n..]
  {
  }

  // --- One pass ---

  lemma SentinelStarts(a: array<bv32>, n: nat)
    requires Sentinel(a, n)
    ensures HeaderBits.Covers(a, n) && n / 32 < a.Length && IsSet(a, n)
  {
    CoverLess(a, n, n + 63);
    assert IsSet(a, n) == ((n - n) % 2 == 0);
  }

  /** From the end of one bucket to the next one of more than one rotation: the two word scans. */
  method NextBucket(bhtab: array<bv32>, n: nat, done: nat, ghost hd: seq<bool>) returns (found: bool, l: nat, r: nat)
    requires Sentinel(bhtab, n) && hd == HeadsIn(bhtab, n) && done <= n && (done < n ==> hd[done])
    ensures !found ==> forall p :: done <= p < n ==> hd[p]
    ensures found ==> done <= l && Bucket(hd, l, r) && forall p :: done <= p <= l ==> hd[p]
  {
    hide HasBit, IsSet;
    SentinelStarts(bhtab, n);
    found, l, r := false, 0, 0;
    assert done / 32 < bhtab.Length && IsSet(bhtab, done) by { CoverLess(bhtab, done, n + 63); }
    var k := Scan(bhtab, n, done, true);
    RunHeads(bhtab, n, done, k, true);
    assert k > done;
    if k - 1 >= n { return; }
    l := k - 1;
    assert k < n;
    var k2 := Scan(bhtab, n, k, false);
    RunHeads(bhtab, n, k, k2, false);
    assert k2 > k;
    r := k2 - 1;
    assert r < n by { StopsAtEnd(bhtab, n, k, k2); }
    found := true;
  }

  lemma RunHeads(a: array<bv32>, n: nat, k: nat, m: nat, value: bool)
    requires HeaderBits.Covers(a, n) && Run(a, k, m, value)
    ensures forall p :: k <= p < m && p < n ==> HeadsIn(a, n)[p] == value
    ensures m < n && m / 32 < a.Length ==> HeadsIn(a, n)[m] == IsSet(a, m)
  {
    forall p: nat | k <= p < m && p < n ensures HeadsIn(a, n)[p] == value {
      CoverLess(a, p, n);
      assert HeadsIn(a, n)[p] == IsSet(a, p);
    }
  }

  lemma StopsAtEnd(a: array<bv32>, n: nat, k: nat, m: nat)
    requires Sentinel(a, n) && k <= n && Run(a, k, m, false)
    ensures m <= n
  {
    SentinelStarts(a, n);
  }

  lemma SkipTo(b: seq<Byte>, f0: seq<int>, f: seq<int>, hd0: seq<bool>, hd: seq<bool>, e: seq<int>, h: nat, done: nat, next: nat)
    requires InPass(b, f0, f, hd0, hd, e, h, done) && done <= next <= |b|
    requires forall p :: done <= p <= next && p < |b| ==> hd[p]
    ensures InPass(b, f0, f, hd0, hd, e, h, next)
    ensures forall p :: done <= p <= next && p < |b| ==> hd0[p]
  {
    PassParts(b, f0, f, hd0, hd, e, h, done);
    hide Refining;
    SkipMany(b, f0, f, hd0, hd, e, h, done, next);
  }

  lemma BucketAsBefore(b: seq<Byte>, f0: seq<int>, f: seq<int>, hd0: seq<bool>, hd: seq<bool>, e: seq<int>, h: nat, l: nat, r: nat)
    requires InPass(b, f0, f, hd0, hd, e, h, l) && Bucket(hd, l, r)
    ensures Bucket(hd0, l, r)
  {
    PassParts(b, f0, f, hd0, hd, e, h, l);
  }

  /** One pass over all buckets. */
  method Pass(fmap: array<Word>, eclass: array<Word>, bhtab: array<bv32>, n: nat,
              ghost b: seq<Byte>, ghost f0: seq<int>, ghost hd0: seq<bool>, ghost h: nat) returns (nNotDone: nat)
    requires fmap != eclass && bhtab as object != eclass && bhtab as object != fmap
    requires |b| == n <= fmap.Length && n <= 900000 && Sentinel(bhtab, n)
    requires InPass(b, f0, fmap[..n], hd0, HeadsIn(bhtab, n), eclass[..], h, 0)
    modifies fmap, bhtab
    ensures Sentinel(bhtab, n) && InPass(b, f0, fmap[..n], hd0, HeadsIn(bhtab, n), eclass[..], h, n)
    ensures nNotDone == 0 ==> forall p :: 0 <= p < n ==> hd0[p]
    ensures fmap[n..] == old(fmap[n..])
  {
    hide InPass, Sentinel, HeadsIn, Bucket;
    ghost var e := eclass[..];
    nNotDone := 0;
    var r := -1;
    SentinelStarts(bhtab, n);
    PassParts(b, f0, fmap[..n], hd0, HeadsIn(bhtab, n), e, h, 0);
    while true
      invariant -1 <= r < n && Sentinel(bhtab, n) && eclass[..] == e && HeaderBits.Covers(bhtab, n)
      invariant InPass(b, f0, fmap[..n], hd0, HeadsIn(bhtab, n), e, h, r + 1)
      invariant nNotDone == 0 ==> |hd0| == n && forall p :: 0 <= p <= r ==> hd0[p]
      invariant fmap[n..] == old(fmap[n..])
      decreases n - r
    {
      ghost var f, hd := fmap[..n], HeadsIn(bhtab, n);
      PassParts(b, f0, f, hd0, hd, e, h, r + 1);
      ghost var at: nat := r + 1;
      assert at < n ==> hd[at] == hd0[at];
      var found, l, next := NextBucket(bhtab, n, r + 1, hd);
      if !found {
        SkipTo(b, f0, f, hd0, hd, e, h, r + 1, n);
        break;
      }
      BucketFacts(hd, l, next);
      SkipTo(b, f0, f, hd0, hd, e, h, r + 1, l);
      BucketAsBefore(b, f0, f, hd0, hd, e, h, l, next);
      if next > l {
        nNotDone := nNotDone + (next - l + 1);
        RefineBucket(fmap, eclass, bhtab, n, l, next, b, f0, hd0, h);
        assert eclass[..] == e;
      }
      r := next;
    }
  }

  lemma BucketFacts(hd: seq<bool>, l: nat, r: nat)
    requires Bucket(hd, l, r)
    ensures l < r < |hd|
  {
  }

  // --- The block restored ---

  lemma {:induction false} CountIsMultiplicity(s: seq<int>, c: int)
    ensures Count(s, c) == multiset(s)[c]
    decreases |s|
  {
    if s != [] {
      CountIsMultiplicity(s[..|s| - 1], c);
      assert s == s[..|s| - 1] + [s[|s| - 1]];
    }
  }

  /** The first bytes of the rotations, in sorted order. */
  ghost function Firsts(b: seq<Byte>, f: seq<int>): (s: seq<Byte>)
    requires Rotational(b, f)
    ensures |s| == |b| && forall i :: 0 <= i < |b| ==> s[i] == b[f[i]]
  {
    seq(|b|, i requires 0 <= i < |b| => b[f[i]])
  }

  lemma FirstsCount(b: seq<Byte>, f: seq<int>, c: int)
    requires Rotational(b, f)
    ensures Count(Firsts(b, f), c) == Count(b, c)
  {
    hide Count;
    var g := (i: int) => if 0 <= i < |b| then b[i] else 0;
    InjectiveIsPermutation(f, |b|);
    PickMultiset(g, f, Iota(|b|));
    assert Pick(g, Iota(|b|)) == b;
    assert Pick(g, f) == Firsts(b, f);
    CountIsMultiplicity(b, c);
    CountIsMultiplicity(Firsts(b, f), c);
  }

  lemma FirstsSorted(b: seq<Byte>, f: seq<int>, i: nat, j: nat)
    requires Rotational(b, f) && SortsRotations(b, f) && i < j < |b|
    ensures b[f[i]] <= b[f[j]]
  {
    assert Le(Rot(b, f[i]), Rot(b, f[j]));
    assert Rot(b, f[i])[0] == b[f[i]] && Rot(b, f[j])[0] == b[f[j]];
  }

  /** What remains of each byte after i positions: nothing of smaller ones, something of the next. */
  lemma Remaining(b: seq<Byte>, f: seq<int>, i: nat, c: int)
    requires Rotational(b, f) && SortsRotations(b, f) && i < |b|
    ensures var s := Firsts(b, f);
            && (c < s[i] ==> Count(b, c) == Count(s[..i], c))
            && Count(b, s[i]) > Count(s[..i], s[i])
  {
    hide Count, SortsRotations;
    var s := Firsts(b, f);
    FirstsCount(b, f, c);
    FirstsCount(b, f, s[i]);
    assert s[..|s|] == s;
    CountNext(s, i, s[i]);
    CountMono(s, i + 1, |s|, s[i]);
    if c < s[i] {
      forall j | i <= j < |s| ensures s[j] != c {
        if i < j { FirstsSorted(b, f, i, j); }
      }
      NoMore(s, i, |s|, c);
    }
  }

  lemma {:induction false} NoMore(s: seq<int>, i: nat, j: nat, c: int)
    requires i <= j <= |s| && forall k :: i <= k < j ==> s[k] != c
    ensures Count(s[..j], c) == Count(s[..i], c)
    decreases j
  {
    if i < j {
      NoMore(s, i, j - 1, c);
      CountNext(s, j - 1, c);
    }
  }

  /** The last loop: eclass8 is rebuilt from the byte counts alone; assertion 1005 holds. */
  method Reconstruct(fmap: array<Word>, ftabCopy: array<int>, eclass8: array<Byte>, n: nat, ghost b: seq<Byte>)
    requires 0 < n == |b| <= fmap.Length && n <= eclass8.Length && ftabCopy.Length == 256
    requires Rotational(b, fmap[..n]) && SortsRotations(b, fmap[..n])
    requires forall c: int :: 0 <= c < 256 ==> ftabCopy[c] == Count(b, c)
    modifies ftabCopy, eclass8
    ensures eclass8[..n] == b
  {
    hide Count, SortsRotations;
    ghost var f := fmap[..n];
    ghost var s := Firsts(b, f);
    NoCount(s);
    var j := 0;
    for i := 0 to n
      invariant 0 <= j <= 255 && (i > 0 ==> j == s[i - 1]) && (i == 0 ==> j == 0) && fmap[..n] == f
      invariant forall c: int :: 0 <= c < 256 ==> ftabCopy[c] == Count(b, c) - Count(s[..i], c)
      invariant forall m :: 0 <= m < i ==> eclass8[f[m]] == b[f[m]]
    {
      forall c: int | 0 <= c < 256
        ensures c < s[i] ==> ftabCopy[c] == 0
        ensures c == s[i] ==> ftabCopy[c] > 0
      {
        Remaining(b, f, i, c);
      }
      if i > 0 { FirstsSorted(b, f, i - 1, i); }
      while ftabCopy[j] == 0
        invariant 0 <= j <= s[i]
        decreases s[i] - j
      {
        j := j + 1;
      }
      assert j == s[i];
      forall c: int ensures Count(s[..i + 1], c) == Count(s[..i], c) + (if s[i] == c then 1 else 0) {
        CountNext(s, i, c);
      }
      PointerRange(f, n, i);
      assert fmap[i] == f[i];
      ftabCopy[j] := ftabCopy[j] - 1;
      eclass8[fmap[i]] := j;
    }
    assert j < 256;
    EveryIndex(f, n);
    forall x: nat | x < n ensures eclass8[x] == b[x] {
      assert x in f;
      var m :| 0 <= m < |f| && f[m] == x;
    }
    assert eclass8[..n] == b;
  }

  lemma EveryIndex(f: seq<int>, n: nat)
    requires Injective(f, n)
    ensures forall x :: 0 <= x < n ==> x in f
  {
    InjectiveIsPermutation(f, n);
    PermutationFacts(f, n);
  }

  // --- fallbackSort ---

  /** Byte k of a word, low byte first. */
  function ByteOf(w: Word, k: nat): Byte
    requires k < 4
  {
    if k == 0 then w % 256 else if k == 1 then w / 256 % 256 else if k == 2 then w / 0x1_0000 % 256 else w / 0x100_0000
  }

  /** eclass and eclass8 are one piece of memory: after the passes the block's bytes are gone. */
  method Overlay(eclass: array<Word>, eclass8: array<Byte>, n: nat)
    requires n <= eclass.Length && n <= eclass8.Length
    modifies eclass8
  {
    for k := 0 to n {
      eclass8[k] := ByteOf(eclass[k / 4], k % 4);
    }
  }

  /** The log(N) loop: the sorted depth doubles until all rotations are ordered. */
  method DoublingLoop(fmap: array<Word>, eclass: array<Word>, bhtab: array<bv32>, n: nat, ghost b: seq<Byte>)
    requires fmap != eclass && bhtab as object != eclass && bhtab as object != fmap
    requires 0 < n == |b| <= fmap.Length && n <= eclass.Length && n <= 900000 && Sentinel(bhtab, n)
    requires HeaderBits.Covers(bhtab, n) && Rotational(b, fmap[..n])
    requires SortedTo(b, fmap[..n], 1) && Heads(b, fmap[..n], HeadsIn(bhtab, n), 1)
    modifies fmap, eclass, bhtab
    ensures Rotational(b, fmap[..n]) && SortsRotations(b, fmap[..n])
  {
    hide Sentinel, HeadsIn, SortedTo, Heads, SortsRotations, Refining, Classes;
    var h := 1;
    while true
      invariant 1 <= h <= n && Sentinel(bhtab, n) && HeaderBits.Covers(bhtab, n) && Rotational(b, fmap[..n])
      invariant SortedTo(b, fmap[..n], h) && Heads(b, fmap[..n], HeadsIn(bhtab, n), h)
      decreases n - h
    {
      ghost var f0, hd0 := fmap[..n], HeadsIn(bhtab, n);
      AssignClasses(fmap, eclass, bhtab, n, h);
      assert fmap[..n] == f0 && HeadsIn(bhtab, n) == hd0;
      assert forall i :: 0 <= i < n ==> fmap[i] == f0[i];
      ClassesFromStarts(b, f0, hd0, eclass[..], h);
      RefiningStart(b, f0, hd0, eclass[..], h);
      HeadsLength(b, f0, hd0, h);
      var nNotDone := Pass(fmap, eclass, bhtab, n, b, f0, hd0, h);
      ghost var f, hd := fmap[..n], HeadsIn(bhtab, n);
      PassDone(b, f0, f, hd0, hd, eclass[..], h);
      SentinelStarts(bhtab, n);
      if nNotDone == 0 { AllHeads(b, f0, f, hd0, hd, eclass[..], h); }
      h := h * 2;
      if h > n || nNotDone == 0 {
        FullySorted(b, f, hd, h);
        break;
      }
    }
  }

  /** Headers of depth h stay headers at depth 2h. */
  lemma AllHeads(b: seq<Byte>, f0: seq<int>, f: seq<int>, hd0: seq<bool>, hd: seq<bool>, e: seq<int>, h: nat)
    requires InPass(b, f0, f, hd0, hd, e, h, |b|) && forall p :: 0 <= p < |b| ==> hd0[p]
    ensures |hd| == |b| && forall p :: 0 <= p < |b| ==> hd[p]
  {
    hide Same, Less;
    forall p: nat | p < |b| ensures hd[p] {
      if p > 0 { Separates(b, f0, f, hd0, hd, e, h, |b|, p - 1, p, p); }
    }
  }

  /** fallbackSort: afterwards fmap holds all rotations in order, for every block, and the block itself
      is as it was. */
  method Sort(fmap: array<Word>, eclass: array<Word>, eclass8: array<Byte>, bhtab: array<bv32>, n: nat)
    requires fmap != eclass && bhtab as object != eclass && bhtab as object != fmap
    requires 0 < n <= fmap.Length && n <= eclass.Length && n <= eclass8.Length && n <= 900000
    requires HeaderBits.Covers(bhtab, n + 63)
    modifies fmap, eclass, eclass8, bhtab
    ensures eclass8[..n] == old(eclass8[..n])
    ensures Rotational(eclass8[..n], fmap[..n]) && SortsRotations(eclass8[..n], fmap[..n])
  {
    hide Count, Below, Radixed, Sentinel, SortedTo, Heads, BucketAt, SortsRotations, HasBit;
    ghost var b := eclass8[..n];
    var ftab, ftabCopy := new int[257], new int[256];
    Totals(ftab, ftabCopy, eclass8, n);
    ghost var counts := ftabCopy[..];
    Place(fmap, ftab, eclass8, n);
    assert eclass8[..n] == b;
    ghost var f := fmap[..n];
    RadixSorted(b, f);
    CoverLess(bhtab, n, n + 63);
    SetBucketHeads(bhtab, ftab, n, b);
    SetSentinels(bhtab, n);
    assert fmap[..n] == f;
    FirstHeads(b, f, bhtab, n);
    DoublingLoop(fmap, eclass, bhtab, n, b);
    Overlay(eclass, eclass8, n);
    assert ftabCopy[..] == counts;
    Reconstruct(fmap, ftabCopy, eclass8, n, b);
  }

  lemma FirstHeads(b: seq<Byte>, f: seq<int>, bhtab: array<bv32>, n: nat)
    requires b != [] && |b| == n && Radixed(b, f) && Rotational(b, f) && HeaderBits.Covers(bhtab, n)
    requires forall q: nat :: q < n && q / 32 < bhtab.Length ==> IsSet(bhtab, q) == BucketAt(b, q)
    ensures Heads(b, f, HeadsIn(bhtab, n), 1)
  {
    hide Radixed, BucketAt, HeadAt, HasBit;
    forall q: nat | q < n ensures HeadsIn(bhtab, n)[q] == HeadAt(b, f, q, 1) {
      RadixHead(b, f, q);
      CoverLess(bhtab, q, n);
    }
  }
}

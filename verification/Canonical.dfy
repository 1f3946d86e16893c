/** Canonical prefix codes (huffman.c): code assignment, the decoder's limit/base/perm tables, and
    why they agree. */
module Canonical {
  import opened Basics
  import opened BitStrings
  import opened Permutations
  import opened Ranks

  // --- The code ---

  /** The first code of length l: the codes of length l-1 used up, with one more bit. */
  function First(lens: seq<Byte>, l: nat): (r: nat) {
    if l == 0 then 0 else 2 * Used(lens, l - 1)
  }

  /** One past the last code of length l. */
  function Used(lens: seq<Byte>, l: nat): (r: nat)
    ensures r >= Count(lens, l)
  {
    (if l == 0 then 0 else 2 * Used(lens, l - 1)) + Count(lens, l)
  }

  function Code(lens: seq<Byte>, i: nat): (r: nat)
    requires i < |lens|
  {
    First(lens, lens[i]) + Count(lens[..i], lens[i])
  }

  /** The code string of a symbol. */
  function CodeBits(lens: seq<Byte>, i: nat): (r: seq<Bit>)
    requires i < |lens|
    ensures |r| == lens[i]
  {
    Bits(lens[i], Code(lens, i))
  }

  /** Code lengths as the compressor produces them and the decompressor accepts them:
      2..258 symbols, lengths 1..20, and no more codes than fit. */
  ghost predicate Prefixable(lens: seq<Byte>) {
    && 0 < |lens| <= 258
    && (forall i :: 0 <= i < |lens| ==> 1 <= lens[i] <= 20)
    && Used(lens, 20) <= Pow2(20)
  }

  /** Every code fits its length. */
  lemma {:induction false} UsedFits(lens: seq<Byte>, l: nat, m: nat)
    requires l <= m && Used(lens, m) <= Pow2(m)
    ensures Used(lens, l) <= Pow2(l)
    decreases m
  {
    if l < m { UsedFits(lens, l, m - 1); }
  }

  lemma CodeRange(lens: seq<Byte>, i: nat)
    requires i < |lens|
    ensures First(lens, lens[i]) <= Code(lens, i) < Used(lens, lens[i])
  {
    hide Count;
    CountNext(lens, i, lens[i]);
    CountMono(lens, i + 1, |lens|, lens[i]);
    assert lens[..|lens|] == lens;
  }

  lemma CodeFits(lens: seq<Byte>, i: nat)
    requires Prefixable(lens) && i < |lens|
    ensures Code(lens, i) < Pow2(lens[i])
  {
    CodeRange(lens, i);
    UsedFits(lens, lens[i], 20);
  }

  /** Longer codes start above every shorter code. */
  lemma {:induction false} FirstAbove(lens: seq<Byte>, z: nat, l: nat)
    requires z < l
    ensures Shl(Used(lens, z), l - z) <= First(lens, l)
    decreases l
  {
    if z + 1 < l {
      FirstAbove(lens, z, l - 1);
    } else {
      assert Shl(Used(lens, z), 1) == 2 * Shl(Used(lens, z), 0);
    }
  }

  /** The first z bits of a longer code lie above all codes of length z. */
  lemma PrefixAbove(lens: seq<Byte>, i: nat, z: nat)
    requires i < |lens| && z < lens[i]
    ensures Shr(Code(lens, i), lens[i] - z) >= Used(lens, z)
  {
    hide Used, First, Code;
    var l: nat := lens[i];
    FirstAbove(lens, z, l);
    CodeRange(lens, i);
    var hi, lo := Split(Code(lens, i), l - z);
    ShrShl(hi, l - z, lo);
    if hi < Used(lens, z) { ShlLess(hi, Used(lens, z), l - z); }
  }

  lemma PrefixDiffers(lens: seq<Byte>, i: nat, j: nat)
    requires Prefixable(lens) && i < |lens| && j < |lens| && i != j && lens[i] <= lens[j]
    ensures Val(CodeBits(lens, j)[..lens[i]]) != Val(CodeBits(lens, i))
  {
    hide Code, Used, First;
    var l: nat := lens[i];
    CodeFits(lens, i);
    CodeFits(lens, j);
    PrefixValue(lens[j], l, Code(lens, j));
    ValBits(l, Code(lens, i));
    CodeRange(lens, i);
    if l < lens[j] {
      PrefixAbove(lens, j, l);
    } else {
      DistinctCodes(lens, i, j);
    }
  }

  /** The code is prefix-free: no symbol's string begins another's. */
  lemma PrefixFree(lens: seq<Byte>, i: nat, j: nat)
    requires Prefixable(lens) && i < |lens| && j < |lens| && i != j
    ensures !(CodeBits(lens, i) <= CodeBits(lens, j))
  {
    hide Code, Used;
    if CodeBits(lens, i) <= CodeBits(lens, j) {
      assert CodeBits(lens, j)[..lens[i]] == CodeBits(lens, i);
    }
    if lens[i] <= lens[j] { PrefixDiffers(lens, i, j); }
  }

  /** The number the first m bits of a field denote. */
  lemma PrefixValue(n: nat, m: nat, v: nat)
    requires m <= n && v < Pow2(n)
    ensures Val(Bits(n, v)[..m]) == Shr(v, n - m)
    ensures Bits(n, v) == Bits(m, Shr(v, n - m)) + Bits(n - m, Low(v, n - m))
    ensures Shr(v, n - m) < Pow2(m)
  {
    var hi, lo := Split(v, n - m);
    HighPart(m, hi, n - m);
    ShrShl(hi, n - m, lo);
    BitsConcat(m, hi, n - m, lo);
    ValBits(m, hi);
    assert Bits(n, v)[..m] == Bits(m, hi);
  }

  lemma DistinctCodes(lens: seq<Byte>, i: nat, j: nat)
    requires i < |lens| && j < |lens| && i != j && lens[i] == lens[j]
    ensures Code(lens, i) != Code(lens, j)
  {
    hide Count;
    var a, b := if i < j then i else j, if i < j then j else i;
    CountNext(lens, a, lens[a]);
    CountMono(lens, a + 1, b, lens[a]);
  }

  // --- Kraft's sum ---

  /** The sum of 2^(m-length) over all symbols. */
  function KraftSum(lens: seq<Byte>, m: nat): (r: nat) {
    if lens == [] then 0
    else KraftSum(lens[..|lens| - 1], m) + Share(lens[|lens| - 1], m)
  }

  function Share(len: Byte, m: nat): (r: nat) {
    if len <= m then Pow2(m - len) else 0
  }

  lemma {:induction false} UsedAppend(lens: seq<Byte>, x: Byte, l: nat)
    ensures Used(lens + [x], l) == Used(lens, l) + Share(x, l)
  {
    assert (lens + [x])[..|lens|] == lens;
    if l > 0 { UsedAppend(lens, x, l - 1); }
  }

  lemma {:induction false} UsedIsKraftSum(lens: seq<Byte>, m: nat)
    ensures Used(lens, m) == KraftSum(lens, m)
    decreases |lens|
  {
    if lens == [] {
      UsedEmpty(m);
    } else {
      var init, x := lens[..|lens| - 1], lens[|lens| - 1];
      assert lens == init + [x];
      UsedIsKraftSum(init, m);
      UsedAppend(init, x, m);
    }
  }

  lemma {:induction false} UsedEmpty(m: nat)
    ensures Used([], m) == 0
  {
    if m > 0 { UsedEmpty(m - 1); }
  }

  // --- hbAssignCodes ---

  method AssignCodes(code: array<nat>, lens: seq<Byte>, minLen: nat, maxLen: nat)
    requires |lens| <= code.Length && 1 <= minLen <= maxLen
    requires forall i :: 0 <= i < |lens| ==> minLen <= lens[i] <= maxLen
    modifies code
    ensures forall i :: 0 <= i < |lens| ==> code[i] == Code(lens, i)
  {
    hide Count, Used;
    var vec := 0;
    NoneShorter(lens, minLen);
    for n := minLen to maxLen + 1
      invariant vec == First(lens, n)
      invariant forall i :: 0 <= i < |lens| && lens[i] < n ==> code[i] == Code(lens, i)
    {
      NoCount(lens, n);
      for i := 0 to |lens|
        invariant vec == First(lens, n) + Count(lens[..i], n)
        invariant forall k :: 0 <= k < |lens| && lens[k] < n ==> code[k] == Code(lens, k)
        invariant forall k :: 0 <= k < i && lens[k] == n ==> code[k] == Code(lens, k)
      {
        CountNext(lens, i, n);
        if lens[i] == n {
          code[i] := vec;
          vec := vec + 1;
        }
      }
      assert lens[..|lens|] == lens;
      UsedIs(lens, n);
      vec := 2 * vec;
    }
  }

  lemma UsedIs(lens: seq<Byte>, l: nat)
    ensures Used(lens, l) == First(lens, l) + Count(lens, l) && First(lens, l + 1) == 2 * Used(lens, l)
  {
  }

  lemma NoCount(lens: seq<Byte>, c: int)
    ensures Count(lens[..0], c) == 0
  {
  }

  lemma {:induction false} NoneShorter(lens: seq<Byte>, minLen: nat)
    requires minLen >= 1 && forall i :: 0 <= i < |lens| ==> minLen <= lens[i]
    ensures First(lens, minLen) == 0
    ensures forall l: nat :: l < minLen ==> Used(lens, l) == 0
  {
    forall l: nat | l < minLen ensures Used(lens, l) == 0 {
      UsedNone(lens, minLen, l);
    }
  }

  lemma {:induction false} UsedNone(lens: seq<Byte>, minLen: nat, l: nat)
    requires l < minLen && forall i :: 0 <= i < |lens| ==> minLen <= lens[i]
    ensures Used(lens, l) == 0
    decreases l
  {
    CountNone(lens, l);
    if l > 0 { UsedNone(lens, minLen, l - 1); }
  }

  lemma {:induction false} CountNone(s: seq<int>, c: int)
    requires forall i :: 0 <= i < |s| ==> s[i] != c
    ensures Count(s, c) == 0
    decreases |s|
  {
    if s != [] { CountNone(s[..|s| - 1], c); }
  }

  // --- hbCreateDecodeTables ---

  datatype Table = Table(limit: seq<int>, base: seq<int>, perm: seq<int>, minLen: nat)

  /** What the tables hold: for each length the last code and the offset from codes to ranks, and
      the symbols in order of their codes. */
  ghost predicate Decodes(t: Table, lens: seq<Byte>, maxLen: nat) {
    && |t.limit| == 23 && |t.base| == 23 && |t.perm| == 258
    && 1 <= t.minLen <= maxLen <= 20
    && (forall i :: 0 <= i < |lens| ==> t.minLen <= lens[i] <= maxLen)
    && (forall l: nat :: t.minLen <= l <= maxLen ==> t.limit[l] == Used(lens, l) - 1)
    && (forall l: nat :: t.minLen <= l <= maxLen ==> t.base[l] == First(lens, l) - Below(lens, l))
    && |lens| <= 258 && (forall i :: 0 <= i < |lens| ==> Rank(lens, i) < |lens| && t.perm[Rank(lens, i)] == i)
  }

  /** perm: the symbols by length, then by index. */
  method MakePerm(perm: array<int>, lens: seq<Byte>, minLen: nat, maxLen: nat)
    requires |lens| <= perm.Length && minLen <= maxLen
    requires forall i :: 0 <= i < |lens| ==> minLen <= lens[i] <= maxLen
    modifies perm
    ensures forall i :: 0 <= i < |lens| ==> Rank(lens, i) < |lens| && perm[Rank(lens, i)] == i
    ensures forall k :: |lens| <= k < perm.Length ==> perm[k] == old(perm[k])
  {
    hide Count, Below;
    var pp := 0;
    forall i | 0 <= i < |lens| ensures 0 <= Rank(lens, i) < |lens| { RankRange(lens, i); }
    BelowNone(lens, minLen);
    for n := minLen to maxLen + 1
      invariant pp == Below(lens, n) <= |lens|
      invariant forall i :: 0 <= i < |lens| && lens[i] < n ==> Rank(lens, i) < |lens| && perm[Rank(lens, i)] == i
      invariant forall k :: |lens| <= k < perm.Length ==> perm[k] == old(perm[k])
    {
      NoCount(lens, n);
      for j := 0 to |lens|
        invariant pp == Below(lens, n) + Count(lens[..j], n) <= |lens|
        invariant forall i :: 0 <= i < |lens| && lens[i] < n ==> Rank(lens, i) < |lens| && perm[Rank(lens, i)] == i
        invariant forall i :: 0 <= i < j && lens[i] == n ==> Rank(lens, i) < |lens| && perm[Rank(lens, i)] == i
        invariant forall k :: |lens| <= k < perm.Length ==> perm[k] == old(perm[k])
      {
        CountNext(lens, j, n);
        CountMono(lens, j + 1, |lens|, n);
        BelowNext(lens, n);
        assert lens[..|lens|] == lens;
        if lens[j] == n {
          assert pp == Rank(lens, j);
          RankTableDistinct(lens, j);
          perm[pp] := j;
          pp := pp + 1;
        }
      }
      assert lens[..|lens|] == lens;
      BelowNext(lens, n);
    }
  }

  lemma RankTableDistinct(lens: seq<Byte>, j: nat)
    requires j < |lens|
    ensures forall i :: 0 <= i < |lens| && i != j ==> Rank(lens, i) != Rank(lens, j)
    ensures Rank(lens, j) < |lens|
  {
    hide Rank;
    RanksInjective(lens);
    forall i | 0 <= i < |lens| && i != j ensures Rank(lens, i) != Rank(lens, j) {
      assert RankTable(lens)[i] == Rank(lens, i) && RankTable(lens)[j] == Rank(lens, j);
    }
    assert RankTable(lens)[j] == Rank(lens, j);
  }

  lemma {:induction false} BelowNone(s: seq<Byte>, c: int)
    requires forall i :: 0 <= i < |s| ==> c <= s[i]
    ensures Below(s, c) == 0
    decreases |s|
  {
    if s != [] { BelowNone(s[..|s| - 1], c); }
  }

  /** base as running totals, limit, and then base turned into offsets. */
  method MakeLimits(limit: array<int>, base: array<int>, lens: seq<Byte>, minLen: nat, maxLen: nat)
    requires limit.Length == 23 && base.Length == 23 && limit != base && |lens| <= 258
    requires 1 <= minLen <= maxLen <= 20
    requires forall i :: 0 <= i < |lens| ==> minLen <= lens[i] <= maxLen
    modifies limit, base
    ensures forall l: nat :: l < 23 ==> limit[l] == LimitAt(lens, minLen, maxLen, l)
    ensures forall l: nat :: l < 23 ==> base[l] == BaseAt(lens, minLen, maxLen, l)
  {
    hide Count, Below, Used;
    Totals(base, lens);
    NoneShorter(lens, minLen);
    for i := 0 to 23
      invariant forall k :: 0 <= k < i ==> limit[k] == 0
      invariant forall c: nat :: c < 23 ==> base[c] == Below(lens, c)
    {
      limit[i] := 0;
    }
    var vec := 0;
    for i := minLen to maxLen + 1
      invariant vec == First(lens, i)
      invariant forall c: nat :: c < 23 ==> base[c] == Below(lens, c)
      invariant forall l: nat :: l < 23 ==> limit[l] == if minLen <= l < i then Used(lens, l) - 1 else 0
    {
      BelowNext(lens, i);
      UsedIs(lens, i);
      vec := vec + (base[i + 1] - base[i]);
      limit[i] := vec - 1;
      vec := 2 * vec;
    }
    for i := minLen + 1 to maxLen + 1
      invariant forall l: nat :: l < 23 ==> limit[l] == if minLen <= l <= maxLen then Used(lens, l) - 1 else 0
      invariant forall c: nat :: c < 23 ==>
                  base[c] == if minLen < c < i then First(lens, c) - Below(lens, c) else Below(lens, c)
    {
      UsedIs(lens, i - 1);
      base[i] := 2 * (limit[i - 1] + 1) - base[i];
    }
  }

  method Totals(base: array<int>, lens: seq<Byte>)
    requires base.Length == 23 && forall i :: 0 <= i < |lens| ==> lens[i] <= 20
    modifies base
    ensures forall c: nat :: c < 23 ==> base[c] == Below(lens, c)
  {
    hide Count, Below;
    forall i | 0 <= i < 23 { base[i] := 0; }
    CountsZero(lens);
    for i := 0 to |lens|
      invariant base[0] == 0
      invariant forall c: nat :: 1 <= c < 23 ==> base[c] == Count(lens[..i], c - 1)
    {
      CountsStep(lens, i);
      base[lens[i] + 1] := base[lens[i] + 1] + 1;
    }
    assert lens[..|lens|] == lens;
    BelowZero(lens);
    for i := 1 to 23
      invariant forall c: nat :: c < i ==> base[c] == Below(lens, c)
      invariant forall c: nat :: i <= c < 23 ==> base[c] == Count(lens, c - 1)
    {
      BelowNext(lens, i - 1);
      base[i] := base[i] + base[i - 1];
    }
  }

  lemma CountsZero(lens: seq<Byte>)
    ensures forall c: int :: Count(lens[..0], c) == 0
  {
  }

  lemma CountsStep(lens: seq<Byte>, i: nat)
    requires i < |lens|
    ensures forall c: int :: Count(lens[..i + 1], c) == Count(lens[..i], c) + (if lens[i] == c then 1 else 0)
  {
    hide Count;
    forall c: int ensures Count(lens[..i + 1], c) == Count(lens[..i], c) + (if lens[i] == c then 1 else 0) {
      CountNext(lens, i, c);
    }
  }

  lemma BelowZero(lens: seq<Byte>)
    ensures Below(lens, 0) == 0
  {
  }

  /** BZ2_hbCreateDecodeTables, from the lengths and their extremes. */
  method CreateDecodeTables(lens: seq<Byte>, minLen: nat, maxLen: nat) returns (t: Table)
    requires 0 < |lens| <= 258 && 1 <= minLen <= maxLen <= 20
    requires forall i :: 0 <= i < |lens| ==> minLen <= lens[i] <= maxLen
    ensures Decodes(t, lens, maxLen) && t.minLen == minLen && t == TableOf(lens, minLen, maxLen)
  {
    hide Count, Below, Used, First, Rank;
    var limit, base, perm := new int[23](_ => 0), new int[23](_ => 0), new int[258](_ => 0);
    MakePerm(perm, lens, minLen, maxLen);
    MakeLimits(limit, base, lens, minLen, maxLen);
    MinimumBase(lens, minLen);
    t := Table(limit[..], base[..], perm[..], minLen);
    TableIs(t, lens, minLen, maxLen);
  }

  lemma MinimumBase(lens: seq<Byte>, minLen: nat)
    requires minLen >= 1 && forall i :: 0 <= i < |lens| ==> minLen <= lens[i]
    ensures First(lens, minLen) == 0 && Below(lens, minLen) == 0
  {
    NoneShorter(lens, minLen);
    BelowNone(lens, minLen);
  }

  ghost function SymbolAt(lens: seq<Byte>, k: nat): (i: int) {
    if i: nat :| i < |lens| && Rank(lens, i) == k then i else 0
  }

  lemma EverySlotFilled(lens: seq<Byte>, k: nat)
    requires k < |lens|
    ensures exists i: nat :: i < |lens| && Rank(lens, i) == k
  {
    hide Rank;
    var r := RankTable(lens);
    RanksInjective(lens);
    InjectiveIsPermutation(r, |lens|);
    PermutationFacts(r, |lens|);
    assert k in r;
    var i: nat :| i < |lens| && r[i] == k;
    assert Rank(lens, i) == k;
  }

  ghost function LimitAt(lens: seq<Byte>, minLen: nat, maxLen: nat, l: nat): int {
    if minLen <= l <= maxLen then Used(lens, l) - 1 else 0
  }

  ghost function BaseAt(lens: seq<Byte>, minLen: nat, maxLen: nat, l: nat): int {
    if minLen < l <= maxLen then First(lens, l) - Below(lens, l) else Below(lens, l)
  }

  /** An index into perm is a limit less a base at most, which stays below the size of the alphabet for
      every length of code, whatever the lengths are. */
  lemma IndexBelow(lens: seq<Byte>, minLen: nat, maxLen: nat, l: nat)
    requires 0 < |lens| && 1 <= minLen <= maxLen && forall i :: 0 <= i < |lens| ==> minLen <= lens[i] <= maxLen
    ensures LimitAt(lens, minLen, maxLen, l) - BaseAt(lens, minLen, maxLen, l) < |lens|
  {
    hide Count, Below;
    MinimumBase(lens, minLen);
    BelowNext(lens, l);
    UsedIs(lens, l);
    if l > maxLen { BelowAll(lens, l); }
  }

  /** Unused perm entries are 0; by IndexBelow they are never read. */
  ghost function PermAt(lens: seq<Byte>, k: nat): int {
    if k < |lens| then SymbolAt(lens, k) else 0
  }

  /** The tables as a function of the lengths. */
  ghost function TableOf(lens: seq<Byte>, minLen: nat, maxLen: nat): (t: Table) {
    Table(seq(23, (l: nat) => LimitAt(lens, minLen, maxLen, l)),
          seq(23, (l: nat) => BaseAt(lens, minLen, maxLen, l)),
          seq(258, (k: nat) => PermAt(lens, k)),
          minLen)
  }

  lemma PermIs(perm: seq<int>, lens: seq<Byte>, k: nat)
    requires |lens| <= |perm| && k < |perm|
    requires forall i :: 0 <= i < |lens| ==> Rank(lens, i) < |lens| && perm[Rank(lens, i)] == i
    requires k >= |lens| ==> perm[k] == 0
    ensures perm[k] == PermAt(lens, k)
  {
    hide Rank;
    if k < |lens| { EverySlotFilled(lens, k); }
  }

  lemma TableIs(t: Table, lens: seq<Byte>, minLen: nat, maxLen: nat)
    requires |lens| <= 258 && t.minLen == minLen && |t.limit| == 23 && |t.base| == 23 && |t.perm| == 258
    requires forall l: nat :: l < 23 ==> t.limit[l] == LimitAt(lens, minLen, maxLen, l)
    requires forall l: nat :: l < 23 ==> t.base[l] == BaseAt(lens, minLen, maxLen, l)
    requires forall i :: 0 <= i < |lens| ==> Rank(lens, i) < |lens| && t.perm[Rank(lens, i)] == i
    requires forall k :: |lens| <= k < 258 ==> t.perm[k] == 0
    ensures t == TableOf(lens, minLen, maxLen)
  {
    hide LimitAt, BaseAt, Rank, PermAt;
    var u := TableOf(lens, minLen, maxLen);
    forall k: nat | k < 258 ensures t.perm[k] == u.perm[k] {
      PermIs(t.perm, lens, k);
    }
    assert t.limit == u.limit;
    assert t.base == u.base;
    assert t.perm == u.perm;
  }

  /** What a decoder's tables hold, stated without the arrays. */
  lemma TableOfDecodes(lens: seq<Byte>, minLen: nat, maxLen: nat)
    requires 0 < |lens| <= 258 && 1 <= minLen <= maxLen <= 20
    requires forall i :: 0 <= i < |lens| ==> minLen <= lens[i] <= maxLen
    ensures Decodes(TableOf(lens, minLen, maxLen), lens, maxLen)
  {
    hide Rank, Used, First, Below;
    var t := TableOf(lens, minLen, maxLen);
    MinimumBase(lens, minLen);
    forall i | 0 <= i < |lens| ensures Rank(lens, i) < |lens| && t.perm[Rank(lens, i)] == i {
      RankTableDistinct(lens, i);
      assert PermAt(lens, Rank(lens, i)) == i;
    }
  }
}

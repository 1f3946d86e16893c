/** The run counters es, N and unzftab of the decoder (decompress.c) are 32-bit signed integers, and the
    loop that reads a run's digits has no bound. When its arithmetic stays within 32 bits, and what
    becomes of it when it does not. */
module RunDigits {
  import opened Basics
  import opened Permutations
  import opened Ranks
  import opened Mtf

  const INT32_MAX: int := 0x7fff_ffff

  predicate InInt32(x: int) { -0x8000_0000 <= x <= INT32_MAX }

  /** What the digit loop computes: es + (0+1)*N or es + (1+1)*N, and N * 2. The variable es is one less
      than the run so far. */
  predicate DigitFits(u: Unmtf, sym: int) {
    InInt32(u.run - 1 + (sym + 1) * u.weight) && InInt32(2 * u.weight)
  }

  /** What the end of a run computes: es++, and unzftab[uc] += es. */
  predicate FlushFits(u: Unmtf, used: seq<Byte>)
    requires u.list != [] && u.list[0] < |used|
  {
    InInt32(u.run) && InInt32(Count(u.col, used[u.list[0]]) + u.run)
  }

  /** No value computed for this symbol leaves 32 bits. */
  predicate SymbolFits(u: Unmtf, used: seq<Byte>, sym: int)
    requires Ready(u, used, |used|)
  {
    if sym == 0 || sym == 1 then DigitFits(u, sym) else FlushFits(u, used)
  }

  /** The variables themselves hold their values. */
  predicate InRange(u: Unmtf) {
    1 <= u.weight <= u.run + 1 && InInt32(u.run - 1) && InInt32(u.weight)
  }

  lemma DigitInRange(u: Unmtf, used: seq<Byte>, sym: int)
    requires Ready(u, used, |used|) && InRange(u) && (sym == 0 || sym == 1) && DigitFits(u, sym)
    ensures InRange(Take(u, used, sym))
  {
  }

  /** A run no longer than a block never comes near the limit. */
  lemma ShortRunFits(u: Unmtf, used: seq<Byte>, sym: int)
    requires Ready(u, used, |used|) && 1 <= u.weight <= u.run + 1 && |u.col| <= 900000 && 0 <= sym
    requires (if sym <= 1 then u.run + (sym + 1) * u.weight else u.run) <= 900000
    ensures SymbolFits(u, used, sym) && InRange(u)
  {
  }

  lemma {:induction false} WeightBound(u: Unmtf, used: seq<Byte>, syms: seq<int>)
    requires Ready(u, used, |used|) && 1 <= u.weight <= u.run + 1
    requires forall k :: 0 <= k < |syms| ==> 0 <= syms[k] <= |used|
    ensures var r := TakeAll(u, used, syms); 1 <= r.weight <= r.run + 1
    decreases |syms|
  {
    hide MoveToFront, Flushed;
    if syms != [] { WeightBound(Take(u, used, syms[0]), used, syms[1..]); }
  }

  // --- Exactly which blocks keep within 32 bits ---

  /** How many run digits the symbols end with. */
  function Trailing(syms: seq<int>): (r: nat)
    ensures r <= |syms|
  {
    if syms == [] || !(syms[|syms| - 1] == 0 || syms[|syms| - 1] == 1) then 0 else 1 + Trailing(syms[..|syms| - 1])
  }

  /** The weight counts the digits, and bounds the run from both sides. */
  lemma {:induction false} DigitsSoFar(u: Unmtf, used: seq<Byte>, syms: seq<int>)
    requires Ready(u, used, |used|) && u.run == 0 && u.weight == 1
    requires forall k :: 0 <= k < |syms| ==> 0 <= syms[k] <= |used|
    ensures var r, t := TakeAll(u, used, syms), Trailing(syms);
            r.weight == Pow2(t) && Pow2(t) - 1 <= r.run <= 2 * (Pow2(t) - 1)
    decreases |syms|
  {
    hide MoveToFront, Flushed, Shl;
    if syms == [] {
      assert Pow2(0) == 1 by { ZeroDigits(); }
    } else {
      var first, last := syms[..|syms| - 1], syms[|syms| - 1];
      DigitsSoFar(u, used, first);
      TakeLast(u, used, syms);
      if last == 0 || last == 1 { OneMoreDigit(Trailing(first)); } else { ZeroDigits(); }
    }
  }

  lemma ZeroDigits()
    ensures Pow2(0) == 1
  {
  }

  lemma OneMoreDigit(t: nat)
    ensures Pow2(t + 1) == 2 * Pow2(t)
  {
  }

  lemma TakeLast(u: Unmtf, used: seq<Byte>, syms: seq<int>)
    requires Ready(u, used, |used|) && syms != [] && forall k :: 0 <= k < |syms| ==> 0 <= syms[k] <= |used|
    ensures TakeAll(u, used, syms) == Take(TakeAll(u, used, syms[..|syms| - 1]), used, syms[|syms| - 1])
  {
    hide *;
    TakeAppend(u, used, syms[..|syms| - 1], syms[|syms| - 1]);
    Restored(syms);
  }

  lemma Restored(syms: seq<int>)
    requires syms != []
    ensures syms[..|syms| - 1] + [syms[|syms| - 1]] == syms
  {
  }

  lemma TakeAppend(u: Unmtf, used: seq<Byte>, first: seq<int>, last: int)
    requires Ready(u, used, |used|) && 0 <= last <= |used| && forall k :: 0 <= k < |first| ==> 0 <= first[k] <= |used|
    ensures forall k :: 0 <= k < |first + [last]| ==> 0 <= (first + [last])[k] <= |used|
    ensures Ready(TakeAll(u, used, first), used, |used|)
    ensures TakeAll(u, used, first + [last]) == Take(TakeAll(u, used, first), used, last)
  {
    hide *;
    StaysReady(u, used, first);
    TakeConcat(u, used, first, [last]);
    TakeOne(TakeAll(u, used, first), used, last);
  }

  lemma StaysReady(u: Unmtf, used: seq<Byte>, syms: seq<int>)
    requires Ready(u, used, |used|) && forall k :: 0 <= k < |syms| ==> 0 <= syms[k] <= |used|
    ensures Ready(TakeAll(u, used, syms), used, |used|)
  {
    hide Take, Ready;
  }

  lemma TakeOne(u: Unmtf, used: seq<Byte>, sym: int)
    requires Ready(u, used, |used|) && 0 <= sym <= |used|
    ensures TakeAll(u, used, [sym]) == Take(u, used, sym)
  {
    hide Take;
    assert [sym][1..] == [];
  }

  lemma DigitLimit(t: nat)
    ensures Pow2(t + 1) <= INT32_MAX <==> t < 30
    ensures t < 30 ==> 2 * Pow2(t) <= 0x4000_0000
  {
    assert Pow2(31) == 0x8000_0000 && Pow2(30) == 0x4000_0000 by {
      ShiftsUsed(1);
      OneMoreDigit(31);
      OneMoreDigit(30);
    }
    OneMoreDigit(t);
    if t < 30 { Pow2Mono(t + 1, 30); } else { Pow2Mono(31, t + 1); }
  }

  /** The end of a run, after which any symbol but a digit may stand. */
  lemma FlushExactly(u: Unmtf, used: seq<Byte>, syms: seq<int>)
    requires Ready(u, used, |used|) && u.run == 0 && u.weight == 1 && Trailing(syms) <= 30
    requires forall j :: 0 <= j < |syms| ==> 0 <= syms[j] <= |used|
    ensures var r := TakeAll(u, used, syms); FlushFits(r, used) <==> Count(r.col, used[r.list[0]]) + r.run <= INT32_MAX
  {
    hide Take, TakeAll, Count, Shl;
    DigitsSoFar(u, used, syms);
    Pow2Mono(Trailing(syms), 30);
    DigitLimit(29);
    OneMoreDigit(29);
  }

  /** One symbol after symbols that kept within 32 bits: only the thirty-first digit of a run overflows,
      or the end of a run of thirty digits. */
  lemma FitsExactly(u: Unmtf, used: seq<Byte>, first: seq<int>, sym: int)
    requires Ready(u, used, |used|) && u.run == 0 && u.weight == 1 && 0 <= sym
    requires forall j :: 0 <= j < |first| ==> 0 <= first[j] <= |used|
    requires var r := TakeAll(u, used, first); InRange(r) && |r.col| <= 900000
    ensures Trailing(first) <= 30
    ensures var r := TakeAll(u, used, first);
            SymbolFits(r, used, sym)
            <==> !(Trailing(first) == 30 && (sym <= 1 || Count(r.col, used[r.list[0]]) + r.run > INT32_MAX))
  {
    hide Take, TakeAll, Count, Shl, Trailing;
    DigitsSoFar(u, used, first);
    var t := Trailing(first);
    DigitLimit(t);
    OneMoreDigit(t);
    if t > 0 { DigitLimit(t - 1); }
    DigitLimit(29);
    OneMoreDigit(29);
    if t < 30 { Pow2Mono(t, 29); }
    assert t == 30 ==> Pow2(t) == 0x4000_0000 by { ThirtyDigits(); }
  }

  lemma ThirtyDigits()
    ensures Pow2(30) == 0x4000_0000 && Pow2(29) == 0x2000_0000 && Pow2(20) == 0x10_0000
  {
    ShiftsUsed(1);
    OneMoreDigit(31);
    OneMoreDigit(30);
    OneMoreDigit(29);
    OneMoreDigit(19);
    OneMoreDigit(18);
    OneMoreDigit(17);
    OneMoreDigit(16);
  }

  /** No run the compressor codes has more than 19 digits. */
  lemma CodedRunsShort(z: nat)
    requires z <= 900000
    ensures |RunCode(z)| <= 19
  {
    hide RunCode;
    CodeLength(z);
    ThirtyDigits();
    if |RunCode(z)| >= 20 { Pow2Mono(20, |RunCode(z)|); }
  }

  lemma {:induction false} CodeLength(z: nat)
    ensures Pow2(|RunCode(z)|) <= z + 1
    decreases z
  {
    if z > 0 {
      CodeLength((z - 1) / 2);
      OneMoreDigit(|RunCode((z - 1) / 2)|);
    } else {
      ZeroDigits();
    }
  }

  // --- Beyond 32 bits ---

  /** Two's complement. */
  function Wrap32(x: int): (r: int)
    ensures InInt32(r) && (InInt32(x) ==> r == x)
  {
    (x + 0x8000_0000) % 0x1_0000_0000 - 0x8000_0000
  }

  /** es and N. */
  datatype Counters = Counters(es: int, n: int)

  /** The digit loop on wrapping machine words. */
  function WrappedDigits(digits: seq<int>): (c: Counters)
    ensures InInt32(c.es) && InInt32(c.n)
  {
    if digits == [] then Counters(-1, 1)
    else
      var c := WrappedDigits(digits[..|digits| - 1]);
      Counters(Wrap32(c.es + (digits[|digits| - 1] + 1) * c.n), Wrap32(c.n * 2))
  }

  lemma WrapSum(x: int, w: int)
    ensures Wrap32(Wrap32(x) + Wrap32(w)) == Wrap32(x + w)
    ensures Wrap32(Wrap32(x) + 2 * Wrap32(w)) == Wrap32(x + 2 * w)
    ensures Wrap32(Wrap32(w) * 2) == Wrap32(2 * w)
  {
    var j := Turns(x);
    var k := Turns(w);
    hide Wrap32;
    WrapTurns(Wrap32(x) + Wrap32(w), j + k);
    WrapTurns(Wrap32(x) + 2 * Wrap32(w), j + 2 * k);
    WrapTurns(Wrap32(w) * 2, 2 * k);
  }

  /** How often x has gone round. */
  lemma Turns(x: int) returns (k: int)
    ensures x == Wrap32(x) + 0x1_0000_0000 * k
  {
    k := (x + 0x8000_0000) / 0x1_0000_0000;
  }

  lemma WrapTurns(x: int, k: int)
    ensures Wrap32(x + 0x1_0000_0000 * k) == Wrap32(x)
  {
    var q, r := (x + 0x8000_0000) / 0x1_0000_0000, (x + 0x8000_0000) % 0x1_0000_0000;
    assert x + 0x1_0000_0000 * k + 0x8000_0000 == 0x1_0000_0000 * (q + k) + r;
    Remainder(q + k, r);
  }

  lemma Remainder(q: int, r: int)
    requires 0 <= r < 0x1_0000_0000
    ensures (0x1_0000_0000 * q + r) % 0x1_0000_0000 == r
  {
  }

  /** It computes the run modulo 2^32; for up to 30 digits that is the run itself. */
  lemma {:induction false} WrappedIsRun(u: Unmtf, used: seq<Byte>, digits: seq<int>)
    requires Ready(u, used, |used|) && u.run == 0 && u.weight == 1
    requires forall k :: 0 <= k < |digits| ==> digits[k] == 0 || digits[k] == 1
    ensures var r := TakeAll(u, used, digits); WrappedDigits(digits) == Counters(Wrap32(r.run - 1), Wrap32(r.weight))
    ensures |digits| <= 30 ==>
              var r := TakeAll(u, used, digits); WrappedDigits(digits) == Counters(r.run - 1, r.weight)
    decreases |digits|
  {
    hide Wrap32;
    if digits != [] {
      var first := digits[..|digits| - 1];
      WrappedIsRun(u, used, first);
      TakeLast(u, used, digits);
      var r := TakeAll(u, used, first);
      WrapSum(r.run - 1, r.weight);
    }
    DigitsSoFar(u, used, digits);
    SmallWraps(u, used, digits);
  }

  lemma {:induction false} TrailingAll(digits: seq<int>)
    requires forall k :: 0 <= k < |digits| ==> digits[k] == 0 || digits[k] == 1
    ensures Trailing(digits) == |digits|
  {
    if digits != [] { TrailingAll(digits[..|digits| - 1]); }
  }

  lemma SmallWraps(u: Unmtf, used: seq<Byte>, digits: seq<int>)
    requires Ready(u, used, |used|) && u.run == 0 && u.weight == 1
    requires forall k :: 0 <= k < |digits| ==> digits[k] == 0 || digits[k] == 1
    ensures var r := TakeAll(u, used, digits);
            (|digits| <= 30 ==> Wrap32(r.run - 1) == r.run - 1 && Wrap32(r.weight) == r.weight) && Wrap32(-1) == -1 && Wrap32(1) == 1
  {
    hide Shl;
    DigitsSoFar(u, used, digits);
    TrailingAll(digits);
    if |digits| <= 30 {
      Pow2Mono(|digits|, 30);
      DigitLimit(29);
      OneMoreDigit(29);
    }
  }

  /** Thirty-two digits RUNA: a run of 2^32 - 1, which the wrapped counters take for -1. */
  lemma StrayRun(u: Unmtf, used: seq<Byte>)
    requires Ready(u, used, |used|) && u.run == 0 && u.weight == 1 && 1 <= |used|
    ensures var digits := seq(32, _ => 0);
            TakeAll(u, used, digits).run == 0xffff_ffff
            && WrappedDigits(digits) == Counters(-2, 0)
            && !SymbolFits(TakeAll(u, used, digits[..30]), used, digits[30])
  {
    hide Wrap32, TakeAll, WrappedDigits, Shl;
    var digits := seq(32, _ => 0);
    RunaRun(u, used, 32);
    WrappedIsRun(u, used, digits);
    assert Pow2(32) == 0x1_0000_0000 by { ShiftsUsed(1); }
    assert Wrap32(0xffff_fffe) == -2 && Wrap32(0x1_0000_0000) == 0 by { StrayWraps(); }
    RunaRun(u, used, 30);
    assert digits[..30] == seq(30, _ => 0);
    ThirtyDigits();
  }

  lemma StrayWraps()
    ensures Wrap32(0xffff_fffe) == -2 && Wrap32(0x1_0000_0000) == 0
  {
  }

  lemma {:induction false} RunaRun(u: Unmtf, used: seq<Byte>, n: nat)
    requires Ready(u, used, |used|) && u.run == 0 && u.weight == 1 && 1 <= |used|
    ensures var r := TakeAll(u, used, seq(n, _ => 0)); r.run == Pow2(n) - 1 && r.weight == Pow2(n)
  {
    var digits := seq(n, _ => 0);
    if n > 0 {
      RunaRun(u, used, n - 1);
      TakeLast(u, used, digits);
      assert digits[..n - 1] == seq(n - 1, _ => 0);
      OneMoreDigit(n - 1);
    } else {
      assert digits == [];
      ZeroDigits();
    }
  }

  /** The digit loop on wrapping words, for n digits RUNA, and the es++ that follows. */
  method WrappedRunas(count: nat) returns (es: int)
    ensures es == Wrap32(WrappedDigits(seq(count, _ => 0)).es + 1)
  {
    hide Wrap32, WrappedDigits;
    var n := 1;
    es := -1;
    WrappedNext(0);
    for i := 0 to count
      invariant Counters(es, n) == WrappedDigits(seq(i, _ => 0))
    {
      WrappedNext(i);
      es, n := Wrap32(es + (0 + 1) * n), Wrap32(n * 2);
    }
    es := Wrap32(es + 1);
  }

  /** cftab, and the bounds it is held to, when the only count left is that of the byte 98. */
  method StrayTotals(unzftab: array<int>, nblock: int) returns (cftab: array<int>, refused: bool)
    requires unzftab.Length == 256 && nblock == 2 && forall c :: 0 <= c < 256 ==> unzftab[c] == if c == 98 then 1 else 0
    ensures fresh(cftab) && cftab.Length == 257 && !refused
    ensures forall c :: 0 <= c < 257 ==> cftab[c] == if c >= 99 then 1 else 0
  {
    cftab := new int[257](_ => 0);
    for i := 1 to 257
      invariant cftab[0] == 0 && forall c :: 1 <= c < i ==> cftab[c] == if c == 99 then 1 else 0
    {
      cftab[i] := unzftab[i - 1];
    }
    for i := 1 to 257
      invariant forall c :: 0 <= c < i ==> cftab[c] == if c >= 99 then 1 else 0
      invariant forall c :: i <= c < 257 ==> cftab[c] == if c == 99 then 1 else 0
    {
      cftab[i] := cftab[i] + cftab[i - 1];
    }
    refused := false;
    for i := 0 to 257
      invariant !refused
    {
      if cftab[i] < 0 || cftab[i] > nblock { refused := true; }
    }
  }

  /** Lines 373-542 on wrapping words, at one input: used bytes a and b, original row 0, thirty-two RUNA,
      two positions 1, and the end mark. The run is lost, the counts no longer match the column, the bounds
      on cftab still hold, and FAST delivers "ab". */
  method StrayBlock() returns (es: int, refused: bool, out: seq<Byte>)
    ensures es == -1 && !refused && out == [97, 98]
  {
    hide *;
    es := WrappedRunas(32);
    StrayEs();
    var unzftab := new int[256](_ => 0);
    unzftab[97] := Wrap32(unzftab[97] + es);
    unzftab[98] := unzftab[98] + 1;
    unzftab[97] := unzftab[97] + 1;
    var cftab;
    cftab, refused := StrayTotals(unzftab, 2);
    var tt := StrayLinks(cftab);
    out := StrayWalk(tt);
  }

  lemma StrayEs()
    ensures Wrap32(WrappedDigits(seq(32, _ => 0)).es + 1) == -1 && Wrap32(0 + -1) == -1
  {
    hide Wrap32, WrappedDigits;
    StrayRun(Unmtf(seq(256, k requires 0 <= k < 256 => if k < 2 then k else 0), [], 0, 1), [97, 98]);
    SmallWrap(-1);
  }

  /** The links of the column "ba", from those totals. */
  method StrayLinks(cftab: array<int>) returns (tt: array<nat>)
    requires cftab.Length == 257 && cftab[97] == 0 && cftab[98] == 0
    modifies cftab
    ensures fresh(tt) && tt[..] == [98 + 256, 97]
  {
    tt := new nat[2];
    tt[0], tt[1] := 98, 97;
    for i := 0 to 2
      invariant tt[1] == 97 && tt[0] == (if i == 2 then 98 + 256 else 98)
      invariant i == 2 || (cftab[97] == 0 && cftab[98] == i)
    {
      var uc := tt[i] % 256;
      tt[cftab[uc]] := tt[cftab[uc]] + 256 * i;
      cftab[uc] := cftab[uc] + 1;
    }
  }

  /** FAST's walk along them. */
  method StrayWalk(tt: array<nat>) returns (out: seq<Byte>)
    requires tt[..] == [98 + 256, 97]
    ensures out == [97, 98]
  {
    assert tt[..][0] == tt[0] && tt[..][1] == tt[1];
    var tPos := tt[0] / 256;
    out := [];
    while |out| < 2
      invariant |out| <= 2 && tPos == (if |out| == 1 then 0 else 1) && out == [97, 98][..|out|]
      decreases 2 - |out|
    {
      tPos := tt[tPos];
      out, tPos := out + [tPos % 256], tPos / 256;
    }
  }

  lemma WrappedNext(i: nat)
    ensures WrappedDigits(seq(0, _ => 0)) == Counters(-1, 1)
    ensures var c := WrappedDigits(seq(i, _ => 0));
            WrappedDigits(seq(i + 1, _ => 0)) == Counters(Wrap32(c.es + (0 + 1) * c.n), Wrap32(c.n * 2))
  {
    hide Wrap32;
    assert seq(i + 1, _ => 0)[..i] == seq(i, _ => 0);
  }

  lemma SmallWrap(x: int)
    ensures InInt32(x) ==> Wrap32(x) == x
    ensures Wrap32(-2 + 1) == -1 && Wrap32(0 + -1) == -1
  {
  }
}

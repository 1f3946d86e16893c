/** The block's symbols in the bit stream: codes from the tables the selectors name, 50 symbols to a
    selector (sendMTFValues), and the proof that GET_MTF_VAL reads each back after exactly its length. */
module SymbolFormat {
  import opened Basics
  import opened BitStrings
  import opened Permutations
  import opened Ranks
  import opened Canonical
  import opened Mtf
  import opened RunDigits
  import opened Decoder
  import opened BlockFormat

  // --- One code ---

  /** A symbol of the block about to be read, and the lengths of the table in force. */
  ghost predicate InForce(b: Body, groupNo: nat, groupPos: nat, lens: seq<Byte>, sym: nat) {
    && BodyOk(b) && groupNo < |b.selector| && groupPos < 50
    && Prefixable(lens) && |lens| == |b.used| + 2 && sym < |lens|
    && TableFor(b, groupNo) == MakeTable(lens)
  }

  lemma TableInForce(b: Body, groupNo: nat, groupPos: nat, lens: seq<Byte>, sym: nat)
    requires InForce(b, groupNo, groupPos, lens, sym)
    ensures Decodes(TableFor(b, groupNo), lens, MaxOf(lens))
    ensures TableFor(b, groupNo).minLen <= lens[sym] <= MaxOf(lens)
  {
    hide TableOk, TablesOk, BodyOk, Used;
    MakeTableOk(lens, |lens|);
    TableOfDecodes(lens, MinOf(lens), MaxOf(lens));
  }

  /** With the whole code in hand the tables give its symbol. */
  lemma FullCodeRead(b: Body, groupNo: nat, groupPos: nat, lens: seq<Byte>, sym: nat)
    requires InForce(b, groupNo, groupPos, lens, sym)
    ensures CheckCode(b, groupNo, groupPos, lens[sym], Code(lens, sym)) == Symbol(b, groupNo, groupPos, sym)
  {
    TableInForce(b, groupNo, groupPos, lens, sym);
    CodeRange(lens, sym);
    assert Code(lens, sym) == First(lens, lens[sym]) + (Rank(lens, sym) - Below(lens, lens[sym]));
    hide Code, Used, First, Below, Rank, BodyOk, Symbol, MaxOf, TableFor, MakeTable;
  }

  lemma LimitInForce(b: Body, groupNo: nat, groupPos: nat, lens: seq<Byte>, sym: nat, z: nat)
    requires InForce(b, groupNo, groupPos, lens, sym) && TableFor(b, groupNo).minLen <= z <= lens[sym]
    ensures var t := TableFor(b, groupNo); 1 <= z <= 20 && |t.limit| == 23 && t.limit[z] == Used(lens, z) - 1
  {
    hide Used, First, Below, Rank, TableFor, BodyOk, MakeTable, MaxOf;
    TableInForce(b, groupNo, groupPos, lens, sym);
  }

  /** With a proper prefix the tables ask for another bit. */
  lemma PrefixRead(b: Body, groupNo: nat, groupPos: nat, lens: seq<Byte>, sym: nat, hi: nat, n: nat, lo: nat)
    requires InForce(b, groupNo, groupPos, lens, sym) && lo < Pow2(n)
    requires n > 0 && TableFor(b, groupNo).minLen + n <= lens[sym] && Code(lens, sym) == Shl(hi, n) + lo
    ensures 1 <= lens[sym] - n <= 20
    ensures CheckCode(b, groupNo, groupPos, lens[sym] - n, hi) == MtfMore(b, groupNo, groupPos, lens[sym] - n + 1, hi)
  {
    hide Code, Used, BodyOk, Symbol, TableFor, MakeTable, Prefixable;
    LimitInForce(b, groupNo, groupPos, lens, sym, lens[sym] - n);
    PrefixAbove(lens, sym, lens[sym] - n);
    ShrShl(hi, n, lo);
  }

  lemma NextBit(hi: nat, n: nat, lo: nat) returns (bit: Bit, low: nat)
    requires n > 0 && lo < Pow2(n)
    ensures Shl(hi, n) + lo == Shl(2 * hi + bit, n - 1) + low && low < Pow2(n - 1)
    ensures Bits(n, lo) == [bit] + Bits(n - 1, low)
  {
    hide *;
    var b, l := Split(lo, n - 1);
    low := l;
    HighPart(1, b, n - 1);
    SingleBit(b);
    bit := b;
    Doubled(hi, n);
    ShlAdd(2 * hi, bit, n - 1);
    BitsConcat(1, bit, n - 1, low);
  }

  lemma Doubled(hi: nat, n: nat)
    ensures n > 0 ==> Shl(hi, n) == Shl(2 * hi, n - 1)
  {
    if n > 0 { ShlTwice(hi, n - 1); }
  }

  lemma SingleBit(b: nat)
    ensures Pow2(1) == 2 && (b < 2 ==> Bits(1, b) == [b])
  {
    assert Bits(0, b / 2) == [] && Pow2(1) == 2 * Shl(1, 0);
  }

  lemma {:induction false} ReadsRest(b: Body, groupNo: nat, groupPos: nat, lens: seq<Byte>, sym: nat, hi: nat, n: nat, lo: nat)
    requires InForce(b, groupNo, groupPos, lens, sym) && lo < Pow2(n)
    requires TableFor(b, groupNo).minLen + n <= lens[sym] && Code(lens, sym) == Shl(hi, n) + lo
    ensures 1 <= lens[sym] - n <= 20
    ensures Reads(CheckCode(b, groupNo, groupPos, lens[sym] - n, hi), Bits(n, lo), Symbol(b, groupNo, groupPos, sym))
    decreases n
  {
    hide Reads, Code, Symbol, CheckCode, TableFor, Bits, BodyOk, Shl, Prefixable;
    if n == 0 {
      FullCodeRead(b, groupNo, groupPos, lens, sym);
      ReadsNothing(Symbol(b, groupNo, groupPos, sym));
      NoBits(lo);
      NoBits(hi);
      LimitInForce(b, groupNo, groupPos, lens, sym, lens[sym]);
    } else {
      PrefixRead(b, groupNo, groupPos, lens, sym, hi, n, lo);
      var bit, low := NextBit(hi, n, lo);
      ReadsRest(b, groupNo, groupPos, lens, sym, 2 * hi + bit, n - 1, low);
      var d := MtfMore(b, groupNo, groupPos, lens[sym] - n + 1, hi);
      ReadsBit(d, bit);
      ReadsThen(d, [bit], CheckCode(b, groupNo, groupPos, lens[sym] - n + 1, 2 * hi + bit), Bits(n - 1, low),
                Symbol(b, groupNo, groupPos, sym));
    }
  }

  lemma NoBits(v: nat)
    ensures v < Pow2(0) ==> v == 0
    ensures Bits(0, v) == [] && Shl(v, 0) == v
  {
  }

  /** Each code is read back after exactly its length, as the symbol it encodes. */
  lemma ReadsCode(b: Body, groupNo: nat, groupPos: nat, lens: seq<Byte>, sym: nat)
    requires InForce(b, groupNo, groupPos, lens, sym)
    ensures Reads(MtfFirst(b, groupNo, groupPos), CodeBits(lens, sym), Symbol(b, groupNo, groupPos, sym))
  {
    hide Reads, Code, Symbol, CheckCode, Bits, BodyOk, Prefixable, Decodes, MakeTable, Used;
    TableInForce(b, groupNo, groupPos, lens, sym);
    CodeFits(lens, sym);
    LimitInForce(b, groupNo, groupPos, lens, sym, lens[sym]);
    var z := TableFor(b, groupNo).minLen;
    var n := lens[sym] - z;
    var hi, lo := Split(Code(lens, sym), n);
    BitsConcat(z, hi, n, lo);
    HighPart(z, hi, n);
    var d := MtfFirst(b, groupNo, groupPos);
    ReadsField(d, z, hi);
    ReadsRest(b, groupNo, groupPos, lens, sym, hi, n, lo);
    ReadsThen(d, Bits(z, hi), CheckCode(b, groupNo, groupPos, z, hi), Bits(n, lo), Symbol(b, groupNo, groupPos, sym));
  }

  // --- All symbols ---

  /** How much of the column a state stands for. */
  function Extent(u: Unmtf): nat { |u.col| + u.run }

  lemma {:induction false} ExtentGrows(u: Unmtf, used: seq<Byte>, syms: seq<int>)
    requires Ready(u, used, |used|) && forall k :: 0 <= k < |syms| ==> 0 <= syms[k] <= |used|
    ensures Extent(u) <= Extent(TakeAll(u, used, syms))
    decreases |syms|
  {
    if syms != [] {
      TakeGrows(u, used, syms[0]);
      ExtentGrows(Take(u, used, syms[0]), used, syms[1..]);
    }
  }

  lemma TakeGrows(u: Unmtf, used: seq<Byte>, sym: int)
    requires Ready(u, used, |used|) && 0 <= sym <= |used|
    ensures Extent(u) <= Extent(Take(u, used, sym))
    ensures sym >= 2 ==> Extent(u) < |Take(u, used, sym).col|
  {
    hide Ready, MoveToFront;
    if sym == 0 || sym == 1 { assert (sym + 1) * u.weight >= 0; }
  }

  /** The symbols of a block: run digits and positions, then the end mark. */
  ghost predicate SymbolsOk(syms: seq<nat>, n: nat) {
    && 0 < n <= 256 && syms != [] && syms[|syms| - 1] == n + 1
    && forall k :: 0 <= k < |syms| - 1 ==> syms[k] <= n
  }

  ghost function ColumnOf(used: seq<Byte>, syms: seq<nat>): (col: seq<Byte>)
    requires SymbolsOk(syms, |used|)
  {
    Flushed(TakeAll(FreshList(), used, syms[..|syms| - 1]), used)
  }

  function SymbolBits(selector: seq<nat>, lens: seq<seq<Byte>>, syms: seq<nat>, k: nat): (r: seq<Bit>)
    requires |syms| <= 50 * |selector| && AllBelow(selector, |lens|)
    requires forall t, j :: 0 <= t < |lens| && 0 <= j < |syms| ==> syms[j] < |lens[t]|
    decreases |syms| - k
  {
    if k >= |syms| then []
    else CodeBits(lens[selector[k / 50]], syms[k]) + SymbolBits(selector, lens, syms, k + 1)
  }

  /** The machine before symbol k. */
  ghost function Before(b: Body, syms: seq<nat>, k: nat): (d: Dec)
    requires SymbolsOk(syms, |b.used|) && k < |syms| && Ready(b.u, b.used, |b.used|)
  {
    MtfFirst(b.(u := TakeAll(b.u, b.used, syms[..k])), k / 50, 49 - k % 50)
  }

  /** A block's tables, selectors and symbols fit together. */
  ghost predicate Fits(b: Body, lens: seq<seq<Byte>>, syms: seq<nat>) {
    && BodyOk(b) && SymbolsOk(syms, |b.used|)
    && |syms| <= 50 * |b.selector|
    && |b.tables| == |lens|
    && (forall t :: 0 <= t < |lens| ==> Prefixable(lens[t]) && |lens[t]| == |b.used| + 2 && b.tables[t] == MakeTable(lens[t]))
    && Extent(TakeAll(b.u, b.used, syms[..|syms| - 1])) <= 100000 * b.head.level
  }

  lemma {:induction false} TakeNext(u: Unmtf, used: seq<Byte>, syms: seq<nat>, k: nat)
    requires SymbolsOk(syms, |used|) && k + 1 < |syms| && Ready(u, used, |used|)
    ensures TakeAll(u, used, syms[..k + 1]) == Take(TakeAll(u, used, syms[..k]), used, syms[k])
    ensures Extent(TakeAll(u, used, syms[..k + 1])) <= Extent(TakeAll(u, used, syms[..|syms| - 1]))
  {
    hide Take, Ready;
    assert syms[..k + 1] == syms[..k] + [syms[k]];
    TakeConcat(u, used, syms[..k], [syms[k]]);
    var last := syms[..|syms| - 1];
    assert last == last[..k + 1] + last[k + 1..] && last[..k + 1] == syms[..k + 1];
    TakeConcat(u, used, syms[..k + 1], last[k + 1..]);
    ExtentGrows(TakeAll(u, used, syms[..k + 1]), used, last[k + 1..]);
    assert TakeAll(TakeAll(u, used, syms[..k]), used, [syms[k]]) == TakeAll(Take(TakeAll(u, used, syms[..k]), used, syms[k]), used, []) by {
      assert [syms[k]][1..] == [];
    }
  }

  lemma Position(k: nat, n: nat)
    requires k + 1 < n
    ensures k / 50 < (n + 49) / 50
    ensures if k % 50 == 49 then (k + 1) / 50 == k / 50 + 1 && (k + 1) % 50 == 0
            else (k + 1) / 50 == k / 50 && (k + 1) % 50 == k % 50 + 1
  {
  }

  /** The step from one symbol to the next, selector changes included. */
  lemma SymbolStep(b: Body, lens: seq<seq<Byte>>, syms: seq<nat>, k: nat)
    requires Fits(b, lens, syms) && k + 1 < |syms|
    ensures Valid(Before(b, syms, k)) && Valid(Before(b, syms, k + 1))
    ensures Symbol(Before(b, syms, k).body, k / 50, 49 - k % 50, syms[k]) == Before(b, syms, k + 1)
  {
    hide TakeAll, Take, TablesOk, AllBelow, Prefixable, MakeTable, Flushed, SymbolFits;
    StaysInRange(b, lens, syms, k);
    TakeNext(b.u, b.used, syms, k);
    ExtentGrows(b.u, b.used, syms[..k]);
    Position(k, |syms|);
    BodyStays(b, lens, syms, k);
    BodyStays(b, lens, syms, k + 1);
    TakeGrows(TakeAll(b.u, b.used, syms[..k]), b.used, syms[k]);
  }

  lemma BodyStays(b: Body, lens: seq<seq<Byte>>, syms: seq<nat>, k: nat)
    requires Fits(b, lens, syms) && k < |syms|
    ensures BodyOk(b.(u := TakeAll(b.u, b.used, syms[..k]))) && k / 50 < |b.selector|
    ensures Valid(Before(b, syms, k))
  {
    hide TakeAll, TablesOk, AllBelow, Prefixable, MakeTable, SymbolFits, InRange;
    StaysInRange(b, lens, syms, k);
  }

  /** Within a block's size the run counters keep far below their limit. */
  lemma StaysInRange(b: Body, lens: seq<seq<Byte>>, syms: seq<nat>, k: nat)
    requires Fits(b, lens, syms) && k < |syms|
    ensures var u := TakeAll(b.u, b.used, syms[..k]);
            InRange(u) && SymbolFits(u, b.used, syms[k]) && |u.col| <= 100000 * b.head.level
  {
    hide TakeAll, TablesOk, AllBelow, Prefixable, MakeTable, SymbolFits, Ready, Take;
    var u := TakeAll(b.u, b.used, syms[..k]);
    WeightBound(b.u, b.used, syms[..k]);
    if k + 1 < |syms| {
      TakeNext(b.u, b.used, syms, k);
      TakeGrows(u, b.used, syms[k]);
      DigitAdds(u, b.used, syms[k]);
    }
    ShortRunFits(u, b.used, syms[k]);
  }

  lemma DigitAdds(u: Unmtf, used: seq<Byte>, sym: nat)
    requires Ready(u, used, |used|) && sym <= |used|
    ensures sym <= 1 ==> Extent(Take(u, used, sym)) == |u.col| + u.run + (sym + 1) * u.weight
  {
  }

  /** The end mark delivers the block. */
  lemma EndStep(b: Body, lens: seq<seq<Byte>>, syms: seq<nat>)
    requires Fits(b, lens, syms) && b.u == FreshList() && b.head.orig < |ColumnOf(b.used, syms)|
    ensures var k := |syms| - 1;
            Valid(Before(b, syms, k))
            && Symbol(Before(b, syms, k).body, k / 50, 49 - k % 50, syms[k]) == Output(b.head, ColumnOf(b.used, syms))
  {
    hide TakeAll, TablesOk, AllBelow, Prefixable, MakeTable, SymbolFits;
    StaysInRange(b, lens, syms, |syms| - 1);
    BodyStays(b, lens, syms, |syms| - 1);
  }

  lemma SymbolReads(b: Body, lens: seq<seq<Byte>>, syms: seq<nat>, k: nat)
    requires Fits(b, lens, syms) && k < |syms|
    ensures k / 50 < |b.selector| && b.selector[k / 50] < |lens| && syms[k] < |lens[b.selector[k / 50]]|
    ensures Valid(Before(b, syms, k))
    ensures Reads(Before(b, syms, k), CodeBits(lens[b.selector[k / 50]], syms[k]),
                  Symbol(Before(b, syms, k).body, k / 50, 49 - k % 50, syms[k]))
  {
    hide TakeAll, Reads, TablesOk, Symbol, CodeBits, MakeTable;
    BodyStays(b, lens, syms, k);
    ReadsCode(Before(b, syms, k).body, k / 50, 49 - k % 50, lens[b.selector[k / 50]], syms[k]);
  }

  lemma {:induction false} ReadsSymbols(b: Body, lens: seq<seq<Byte>>, syms: seq<nat>, k: nat)
    requires Fits(b, lens, syms) && b.u == FreshList() && b.head.orig < |ColumnOf(b.used, syms)| && k < |syms|
    ensures Reads(Before(b, syms, k), SymbolBits(b.selector, lens, syms, k), Output(b.head, ColumnOf(b.used, syms)))
    decreases |syms| - k
  {
    hide TakeAll, Reads, TablesOk, Symbol, CodeBits, MakeTable, Before, ColumnOf, Prefixable, Extent, FreshList;
    var last := Output(b.head, ColumnOf(b.used, syms));
    SymbolReads(b, lens, syms, k);
    var code := CodeBits(lens[b.selector[k / 50]], syms[k]);
    if k + 1 < |syms| {
      SymbolStep(b, lens, syms, k);
      ReadsSymbols(b, lens, syms, k + 1);
      ReadsThen(Before(b, syms, k), code, Before(b, syms, k + 1), SymbolBits(b.selector, lens, syms, k + 1), last);
    } else {
      EndStep(b, lens, syms);
      assert SymbolBits(b.selector, lens, syms, k + 1) == [];
      assert code + [] == code;
    }
  }
}

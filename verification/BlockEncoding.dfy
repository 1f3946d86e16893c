/** A block as the bit stream carries it, the bits BZ2_compressBlock emits for it, and the proof that
    the decoding machine reads them back to the block's last column. */
module BlockEncoding {
  import opened Basics
  import opened BitStrings
  import opened Permutations
  import opened Ranks
  import opened Canonical
  import opened Mtf
  import opened Decoder
  import opened BlockFormat
  import opened TableFormat
  import opened SymbolFormat

  datatype Encoding = Encoding(crc: Word, orig: nat, inUse: seq<bool>, lens: seq<seq<Byte>>, selector: seq<nat>, syms: seq<nat>)

  /** What every block the compressor sends satisfies, for blocks of 100000 * level bytes. */
  ghost predicate Sendable(e: Encoding, level: nat) {
    && 1 <= level <= 9 && e.orig <= 10 + 100000 * level
    && |e.inUse| == 256 && SymbolsOk(e.syms, |UsedBytes(e.inUse)|)
    && CodesOk(e) && |e.selector| == (|e.syms| + 49) / 50 <= MAX_SELECTORS
    && e.orig < |ColumnOf(UsedBytes(e.inUse), e.syms)| <= 100000 * level
  }

  ghost predicate CodesOk(e: Encoding)
    requires |e.inUse| == 256
  {
    && 2 <= |e.lens| <= 6 && AllBelow(e.selector, |e.lens|)
    && forall t :: 0 <= t < |e.lens| ==> Prefixable(e.lens[t]) && |e.lens[t]| == |UsedBytes(e.inUse)| + 2
  }

  // --- The bits ---

  function FrontBits(e: Encoding): (r: seq<Bit>) {
    ByteBits(BLOCK_MARK) + Bits(32, e.crc) + [0] + Bits(24, e.orig)
  }

  function SelectorPart(e: Encoding): (r: seq<Bit>)
    requires AllBelow(e.selector, |e.lens|)
  {
    assert forall k :: 0 <= k < |e.selector| ==> e.selector[k] == Groups(|e.lens|)[e.selector[k]];
    Bits(3, |e.lens|) + Bits(15, |e.selector|) + SelectorBits(MtfSelectors(e.selector, Groups(|e.lens|)))
  }

  /** Everything in the block's bits after the original pointer. */
  ghost function PayloadBits(e: Encoding): (r: seq<Bit>)
    requires |e.inUse| == 256 && CodesOk(e) && SymbolsOk(e.syms, |UsedBytes(e.inUse)|) && |e.selector| == (|e.syms| + 49) / 50
  {
    PayloadFits(e);
    MapBits(e.inUse) + SelectorPart(e) + TablesBits(e.lens) + SymbolBits(e.selector, e.lens, e.syms, 0)
  }

  lemma PayloadFits(e: Encoding)
    requires |e.inUse| == 256 && CodesOk(e) && SymbolsOk(e.syms, |UsedBytes(e.inUse)|) && |e.selector| == (|e.syms| + 49) / 50
    ensures AllBelow(e.selector, |e.lens|) && |e.syms| <= 50 * |e.selector|
    ensures forall t :: 0 <= t < |e.lens| ==> e.lens[t] != []
    ensures forall t, j :: 0 <= t < |e.lens| && 0 <= j < |e.syms| ==> e.syms[j] < |e.lens[t]|
  {
    hide Used, UsedBytes;
  }

  /** The block as it is sent. */
  ghost function BlockBits(e: Encoding, level: nat): (r: seq<Bit>)
    requires Sendable(e, level)
  {
    FrontBits(e) + PayloadBits(e)
  }

  // --- Bytes and words ---

  lemma ReadsByte(d: Dec, v: Byte)
    requires Valid(d) && Waiting(d) && Need(d) == 8
    ensures v < Pow2(8) && Reads(d, Bits(8, v), Step(d, v))
  {
    hide Step, Valid, Need, Waiting;
    Shl8(1);
    ReadsField(d, 8, v);
  }

  function HeadState(level: nat, k: nat): Dec {
    if k <= 6 then BlkHdr(level, k) else BCrc(level, 1, 0)
  }

  lemma {:induction false} ReadsMark(level: nat, k: nat)
    requires 1 <= level <= 9 && k <= 6
    ensures Reads(BlkHdr(level, 1), ByteBits(BLOCK_MARK[..k]), HeadState(level, k + 1))
  {
    hide Reads, Bits;
    if k == 0 {
      ReadsNothing(BlkHdr(level, 1));
    } else {
      ReadsMark(level, k - 1);
      ReadsByte(BlkHdr(level, k), BLOCK_MARK[k - 1]);
      assert BLOCK_MARK[..k][..k - 1] == BLOCK_MARK[..k - 1];
      ReadsThen(BlkHdr(level, 1), ByteBits(BLOCK_MARK[..k - 1]), BlkHdr(level, k), Bits(8, BLOCK_MARK[k - 1]),
                HeadState(level, k + 1));
    }
  }

  function EndState(level: nat, k: nat): Dec {
    if k == 1 then BlkHdr(level, 1) else if k <= 6 then EndHdr(level, k) else CCrc(level, 1, 0)
  }

  lemma {:induction false} ReadsEndMark(level: nat, k: nat)
    requires 1 <= level <= 9 && k <= 6
    ensures Reads(BlkHdr(level, 1), ByteBits(END_MARK[..k]), EndState(level, k + 1))
  {
    hide Reads, Bits;
    if k == 0 {
      ReadsNothing(BlkHdr(level, 1));
    } else {
      ReadsEndMark(level, k - 1);
      ReadsByte(EndState(level, k), END_MARK[k - 1]);
      assert END_MARK[..k][..k - 1] == END_MARK[..k - 1];
      ReadsThen(BlkHdr(level, 1), ByteBits(END_MARK[..k - 1]), EndState(level, k), Bits(8, END_MARK[k - 1]),
                EndState(level, k + 1));
    }
  }

  /** The last byte of a field. */
  lemma LastByte(k: nat, v: nat)
    requires k > 0 && v < Pow2(8 * k)
    ensures v / 256 < Pow2(8 * (k - 1)) && Bits(8 * k, v) == Bits(8 * (k - 1), v / 256) + Bits(8, v % 256)
  {
    Shl8(1);
    Shl8(v / 256);
    BitsConcat(8 * (k - 1), v / 256, 8, v % 256);
    HighPart(8 * (k - 1), v / 256, 8);
  }

  /** A run of bytes read into an accumulator, for either of the two checksums. */
  function Accumulated(trailer: bool, level: nat, k: nat, v: nat): Dec
    requires k >= 4 ==> v < 0x1_0000_0000
  {
    if trailer then (if k < 4 then CCrc(level, k + 1, v) else Idle(v))
    else if k < 4 then BCrc(level, k + 1, v) else RandBit(level, v)
  }

  lemma {:induction false} ReadsCrc(trailer: bool, level: nat, k: nat, v: nat)
    requires 1 <= level <= 9 && k <= 4 && v < Pow2(8 * k)
    ensures k == 4 ==> v < 0x1_0000_0000
    ensures Reads(Accumulated(trailer, level, 0, 0), Bits(8 * k, v), Accumulated(trailer, level, k, v))
    decreases k
  {
    hide Reads, Bits, Pow2;
    Pow2Of32();
    if k == 0 {
      NoBits(v);
      assert v == 0 by { assert Pow2(8 * 0) == Pow2(0); }
      ReadsNothing(Accumulated(trailer, level, 0, 0));
    } else {
      LastByte(k, v);
      ReadsCrc(trailer, level, k - 1, v / 256);
      var d := Accumulated(trailer, level, k - 1, v / 256);
      ReadsByte(d, v % 256);
      ReadsThen(Accumulated(trailer, level, 0, 0), Bits(8 * (k - 1), v / 256), d, Bits(8, v % 256), Accumulated(trailer, level, k, v));
    }
  }

  lemma Pow2Of32()
    ensures Pow2(0) == 1 && Pow2(32) == 0x1_0000_0000 && Pow2(8 * 4) == 0x1_0000_0000 && Pow2(8 * 0) == 1
  {
    ShiftsUsed(1);
  }

  function OrigState(level: nat, crc: Word, k: nat, v: nat): Dec {
    if k < 3 then OrigPtr(level, crc, k + 1, v) else Mapping1(Head(level, crc, v), [])
  }

  lemma {:induction false} ReadsOrig(level: nat, crc: Word, k: nat, v: nat)
    requires 1 <= level <= 9 && k <= 3 && v < Pow2(8 * k) && (k == 3 ==> v <= 10 + 100000 * level)
    ensures Reads(OrigPtr(level, crc, 1, 0), Bits(8 * k, v), OrigState(level, crc, k, v))
    decreases k
  {
    hide Reads, Bits, Pow2;
    Pow2Of32();
    if k == 0 {
      NoBits(v);
      ReadsNothing(OrigPtr(level, crc, 1, 0));
    } else {
      LastByte(k, v);
      ReadsOrig(level, crc, k - 1, v / 256);
      var d := OrigPtr(level, crc, k, v / 256);
      ReadsByte(d, v % 256);
      ReadsThen(OrigPtr(level, crc, 1, 0), Bits(8 * (k - 1), v / 256), d, Bits(8, v % 256), OrigState(level, crc, k, v));
    }
  }

  // --- The parts of a block ---

  lemma ReadsFront(e: Encoding, level: nat)
    requires 1 <= level <= 9 && e.orig <= 10 + 100000 * level
    ensures Reads(BlkHdr(level, 1), FrontBits(e), Mapping1(Head(level, e.crc, e.orig), []))
  {
    hide Reads, Bits, Pow2, ByteBits;
    Pow2Of32();
    ReadsMark(level, 6);
    assert BLOCK_MARK[..6] == BLOCK_MARK;
    ReadsCrc(false, level, 4, e.crc);
    ReadsThen(BlkHdr(level, 1), ByteBits(BLOCK_MARK), BCrc(level, 1, 0), Bits(32, e.crc), RandBit(level, e.crc));
    ReadsBit(RandBit(level, e.crc), 0);
    ReadsThen(BlkHdr(level, 1), ByteBits(BLOCK_MARK) + Bits(32, e.crc), RandBit(level, e.crc), [0], OrigPtr(level, e.crc, 1, 0));
    OrigFits(e.orig);
    ReadsOrig(level, e.crc, 3, e.orig);
    ReadsThen(BlkHdr(level, 1), ByteBits(BLOCK_MARK) + Bits(32, e.crc) + [0], OrigPtr(level, e.crc, 1, 0), Bits(24, e.orig),
              Mapping1(Head(level, e.crc, e.orig), []));
  }

  lemma OrigFits(orig: nat)
    requires orig <= 900010
    ensures orig < Pow2(24) == Pow2(8 * 3)
  {
    ShiftsUsed(1);
  }

  lemma SelectorCounts(nGroups: nat, nSelectors: nat)
    requires nGroups <= 6 && nSelectors < 32768
    ensures nGroups < Pow2(3) && nSelectors < Pow2(15)
  {
    assert Shl(1, 1) == 2 && Shl(1, 2) == 4 && Shl(1, 3) == 8;
    ShlShl(1, 8, 7);
    Shl8(1);
    assert Shl(256, 1) == 512 && Shl(256, 2) == 1024 && Shl(256, 3) == 2048 && Shl(256, 4) == 4096;
    assert Shl(256, 5) == 8192 && Shl(256, 6) == 16384 && Shl(256, 7) == 32768;
  }

  lemma ReadsSelectorPart(h: Head, used: seq<Byte>, e: Encoding)
    requires HeadOk(h) && 0 < |used| <= 256 && 2 <= |e.lens| <= 6 && AllBelow(e.selector, |e.lens|)
    requires 1 <= |e.selector| <= MAX_SELECTORS
    ensures Reads(Selector1(h, used), SelectorPart(e), Coding1(h, used, |e.lens|, e.selector, []))
  {
    hide Reads, Bits, Pow2, SelectorBits, AllBelow, MtfSelectors;
    var n := |e.lens|;
    SelectorCounts(n, |e.selector|);
    var d := Selector1(h, used);
    SelectorsInGroups(e.selector, n);
    var mtf := MtfSelectors(e.selector, Groups(n));
    assert |mtf| == |e.selector| && AllBelow(mtf, n) by { MtfSelectorsBelow(e.selector, Groups(n)); }
    ReadsField(d, 3, n);
    ReadsField(Selector2(h, used, n), 15, |mtf|);
    assert mtf[..0] == [] && mtf[0..] == mtf;
    ReadsSelectors(h, used, n, mtf, 0);
    UndoMtfSelectors(e.selector, Groups(n));
    var mid := Selector3(h, used, n, |mtf|, [], 0);
    assert AllBelow([], n) by { NothingBelow(n); }
    ReadsThen(d, Bits(3, n), Selector2(h, used, n), Bits(15, |mtf|), mid);
    ReadsThen(d, Bits(3, n) + Bits(15, |mtf|), mid, SelectorBits(mtf), Coding1(h, used, n, e.selector, []));
  }

  lemma NothingBelow(n: nat)
    ensures AllBelow([], n)
  {
  }

  lemma SelectorsInGroups(selector: seq<nat>, n: nat)
    requires AllBelow(selector, n)
    ensures forall k :: 0 <= k < |selector| ==> selector[k] in Groups(n)
  {
    forall k | 0 <= k < |selector| ensures selector[k] in Groups(n) {
      assert Groups(n)[selector[k]] == selector[k];
    }
  }

  lemma MtfSelectorsBelow(selector: seq<nat>, pos: seq<nat>)
    requires forall k :: 0 <= k < |selector| ==> selector[k] in pos
    ensures |MtfSelectors(selector, pos)| == |selector| && AllBelow(MtfSelectors(selector, pos), |pos|)
  {
  }

  // --- The whole block ---

  ghost function Delivered(e: Encoding, level: nat): (d: Dec)
    requires Sendable(e, level)
    ensures Valid(d)
  {
    Output(Head(level, e.crc, e.orig), ColumnOf(UsedBytes(e.inUse), e.syms))
  }

  lemma SendableFits(e: Encoding, level: nat)
    requires Sendable(e, level)
    ensures AllBelow(e.selector, |e.lens|) && AllLengths(e.lens, |UsedBytes(e.inUse)| + 2)
    ensures 1 <= |e.selector| <= MAX_SELECTORS && HeadOk(Head(level, e.crc, e.orig))
    ensures Fits(Ahead(Head(level, e.crc, e.orig), UsedBytes(e.inUse), e.selector, e.lens), e.lens, e.syms)
  {
    hide TakeAll, MakeTable, TablesOk, Ready, FreshList, BodyOk, Used;
    assert AllLengths(e.lens, |UsedBytes(e.inUse)| + 2);
  }

  /** Everything written for a block is parsed back: the machine delivers the block's last column,
      original pointer and checksum, and has consumed exactly the block's bits. */
  lemma ReadsBlock(e: Encoding, level: nat)
    requires Sendable(e, level)
    ensures Reads(BlkHdr(level, 1), BlockBits(e, level), Delivered(e, level))
  {
    hide Reads, FrontBits, MapBits, SelectorPart, TablesBits, SymbolBits, Fits, Ahead, AllLengths, ColumnOf, UsedBytes, CodesOk, AllBelow;
    var h, used := Head(level, e.crc, e.orig), UsedBytes(e.inUse);
    PayloadFits(e);
    SendableFits(e, level);
    var start, mid1, mid2 := BlkHdr(level, 1), Mapping1(h, []), Selector1(h, used);
    var mid3 := Coding1(h, used, |e.lens|, e.selector, []);
    var b := Ahead(h, used, e.selector, e.lens);
    ReadsFront(e, level);
    assert 2 <= |e.lens| <= 6 by { CodesCount(e); }
    ReadsMap(h, e.inUse);
    ReadsSelectorPart(h, used, e);
    assert e.lens[..0] == [] && e.lens[0..] == e.lens && Tables([]) == [];
    ReadsTables(h, used, e.selector, e.lens, 0);
    AheadStart(h, used, e.selector, e.lens, e.syms);
    ReadsSymbols(b, e.lens, e.syms, 0);
    var maps, sel, tab, sym := MapBits(e.inUse), SelectorPart(e), TablesBits(e.lens), SymbolBits(e.selector, e.lens, e.syms, 0);
    ReadsThen(mid1, maps, mid2, sel, mid3);
    ReadsThen(mid1, maps + sel, mid3, tab, MtfFirst(b, 0, 49));
    ReadsThen(mid1, maps + sel + tab, MtfFirst(b, 0, 49), sym, Delivered(e, level));
    ReadsThen(start, FrontBits(e), mid1, PayloadBits(e), Delivered(e, level));
  }

  lemma CodesCount(e: Encoding)
    requires |e.inUse| == 256 && CodesOk(e)
    ensures 2 <= |e.lens| <= 6
  {
  }

  lemma AheadStart(h: Head, used: seq<Byte>, selector: seq<nat>, lens: seq<seq<Byte>>, syms: seq<nat>)
    requires Fits(Ahead(h, used, selector, lens), lens, syms)
    ensures var b := Ahead(h, used, selector, lens);
            b.head == h && b.used == used && b.selector == selector && b.u == FreshList()
            && Before(b, syms, 0) == MtfFirst(b, 0, 49)
  {
    hide FreshList, TablesOk, Prefixable, AllLengths, AllBelow;
    assert syms[..0] == [];
  }

  // --- The stream around the blocks ---

  function HeaderBits(level: nat): (r: seq<Bit>)
    requires 1 <= level <= 9
  {
    ByteBits([0x42, 0x5a, 0x68, 0x30 + level])
  }

  function TrailerBits(combined: Word): (r: seq<Bit>) {
    ByteBits(END_MARK) + Bits(32, combined)
  }

  lemma ReadsHeader(level: nat)
    requires 1 <= level <= 9
    ensures Reads(Magic(1), HeaderBits(level), BlkHdr(level, 1))
  {
    hide Reads, Bits;
    var a, b, c, d := Bits(8, 0x42), Bits(8, 0x5a), Bits(8, 0x68), Bits(8, 0x30 + level);
    ReadsByte(Magic(1), 0x42);
    ReadsByte(Magic(2), 0x5a);
    ReadsByte(Magic(3), 0x68);
    ReadsByte(Magic(4), 0x30 + level);
    ReadsThen(Magic(1), a, Magic(2), b, Magic(3));
    ReadsThen(Magic(1), a + b, Magic(3), c, Magic(4));
    ReadsThen(Magic(1), a + b + c, Magic(4), d, BlkHdr(level, 1));
    assert ByteBits([0x42]) == a by { assert [] + a == a; assert [0x42][..0] == []; }
    assert [0x42, 0x5a][..1] == [0x42];
    assert [0x42, 0x5a, 0x68][..2] == [0x42, 0x5a];
    assert [0x42, 0x5a, 0x68, 0x30 + level][..3] == [0x42, 0x5a, 0x68];
  }

  lemma ReadsTrailer(level: nat, combined: Word)
    requires 1 <= level <= 9
    ensures Reads(BlkHdr(level, 1), TrailerBits(combined), Idle(combined))
  {
    hide Reads, Bits, ByteBits, Pow2;
    Pow2Of32();
    ReadsEndMark(level, 6);
    assert END_MARK[..6] == END_MARK;
    ReadsCrc(true, level, 4, combined);
    ReadsThen(BlkHdr(level, 1), ByteBits(END_MARK), CCrc(level, 1, 0), Bits(32, combined), Idle(combined));
  }
}

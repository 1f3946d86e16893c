/** Whole streams: what a stream of blocks decodes to, independence of how the input is cut, and the
    round trip from the blocks a compressor sends to the bytes they stand for. */
module StreamFormat {
  import opened Basics
  import opened BitStrings
  import opened Permutations
  import opened Rotations
  import opened Ranks
  import opened Mtf
  import opened MtfEncode
  import opened Unsort
  import opened RunLength
  import opened BlockCrc
  import opened OutputStage
  import opened Decoder
  import opened BlockFormat
  import opened SymbolFormat
  import opened BlockEncoding

  // --- What a block decodes to ---

  lemma LinksExist(col: seq<Byte>)
    ensures exists t :: Inverse(RankTable(col), t, |col|)
  {
    RanksInjective(col);
    var t := InverseOf(RankTable(col));
  }

  /** The column's row links: the inverse of the counting-sort ranks. */
  ghost function Links(col: seq<Byte>): (t: seq<int>)
    ensures Inverse(RankTable(col), t, |col|)
  {
    LinksExist(col);
    var t :| Inverse(RankTable(col), t, |col|);
    t
  }

  /** The bytes a block stands for, given its last column and original row. */
  ghost function BlockText(col: seq<Byte>, orig: nat): (x: Expansion)
    requires orig < |col|
  {
    Expand(Walked(col, Links(col), orig), |col|, 0)
  }

  /** The column of four equal bytes, with any row: FAST and SMALL read four equal bytes and no count. */
  lemma BrokenBlock(orig: nat)
    requires orig < 4
    ensures BlockText([97, 97, 97, 97], orig) == Expansion(Repeat(97, 101), true)
  {
    hide Expand, Repeat;
    var col: seq<Byte> := [97, 97, 97, 97];
    AllSame(col, Links(col), orig, 6, 97);
    assert Walked(col, Links(col), orig) == [97, 97, 97, 97, 97, 97];
    BrokenText();
  }

  lemma {:induction false} AllSame(col: seq<Byte>, t: seq<int>, pos: nat, n: nat, x: Byte)
    requires Injective(t, |col|) && pos < |col| && forall k :: 0 <= k < |col| ==> col[k] == x
    ensures Walk(col, t, pos, n) == seq(n, _ => x)
    decreases n
  {
    if n > 0 { AllSame(col, t, t[pos], n - 1, x); }
  }

  /** Any links that invert the ranks give that text. */
  lemma TextOf(col: seq<Byte>, t: seq<int>, orig: nat)
    requires Inverse(RankTable(col), t, |col|) && orig < |col|
    ensures BlockText(col, orig) == Expand(Walked(col, t, orig), |col|, 0)
  {
    hide Inverse, RankTable, Expand;
    InverseUnique(RankTable(col), Links(col), t);
  }

  lemma {:induction false} WalkPrefix(col: seq<Byte>, t: seq<int>, pos: nat, m: nat, n: nat)
    requires Injective(t, |col|) && pos < |col| && m <= n
    ensures Walk(col, t, pos, n)[..m] == Walk(col, t, pos, m)
    decreases m
  {
    if m > 0 { WalkPrefix(col, t, t[pos], m - 1, n - 1); }
  }

  /** Sorting, last column, inversion and expansion give back what the block's runs stand for. */
  lemma SortedText(b: seq<Byte>, p: seq<int>, orig: nat, spans: seq<Span>)
    requires b != [] && SortsRotations(b, p) && orig < |b| && p[orig] == 0
    requires Apart(spans) && b == Coded(spans)
    ensures BlockText(LastColumn(b, p), orig) == Expansion(Plain(spans), false)
  {
    hide LastColumn, Expand, SortsRotations, RankTable, Coded, Plain, Apart;
    LastColumnLength(b, p);
    var col, n := LastColumn(b, p), |b|;
    var t := Links(col);
    RanksGiveStableOrder(col, t);
    Inversion(b, p, t, orig);
    WalkPrefix(col, t, orig, n, n + 2);
    assert Walked(col, t, orig)[0..n] == b;
    ExpandCoded(Walked(col, t, orig), n, 0, spans);
  }

  lemma LastColumnLength(b: seq<Byte>, p: seq<int>)
    requires SortsRotations(b, p)
    ensures Injective(p, |b|) && |LastColumn(b, p)| == |b|
  {
  }

  /** A block that carries the given bytes, checksum included. */
  ghost predicate Holds(e: Encoding, level: nat, data: seq<Byte>) {
    && Sendable(e, level)
    && BlockText(ColumnOf(UsedBytes(e.inUse), e.syms), e.orig) == Expansion(data, false)
    && e.crc == WordOf(Crc(data))
  }

  /** The symbols of a column decode to the column. */
  lemma ColumnOfSymbols(col: seq<Byte>, inUse: seq<bool>)
    requires Covers(inUse, col) && col != []
    ensures var syms := BlockSymbols(col, inUse);
            (forall k :: 0 <= k < |syms| ==> 0 <= syms[k])
            && SymbolsOk(syms, |UsedBytes(inUse)|) && ColumnOf(UsedBytes(inUse), syms) == col
  {
    hide MtfSymbols, Column, TakeAll, UsedBytes, Places;
    PlacesInList(col, inUse);
    var used := UsedBytes(inUse);
    UsedCount(inUse);
    var n := |used|;
    var places := Places(col, inUse);
    BodySymbols(places, Iota(n));
    var syms := BlockSymbols(col, inUse);
    assert syms[..|syms| - 1] == MtfSymbols(places, Iota(n), 0);
    assert SameList(FreshList(), Iota(n), n);
    PlacesRange(col, inUse);
    TakeBody(FreshList(), used, places, Iota(n), 0);
    assert FreshList().col + Repeat(used[Iota(n)[0]], 0) + col == col;
  }

  lemma UsedCount(inUse: seq<bool>)
    requires |inUse| == 256
    ensures |UsedBytes(inUse)| <= 256
  {
  }

  lemma BodySymbols(places: seq<int>, list: seq<int>)
    requires list != [] && AllIn(places, list)
    ensures forall k :: 0 <= k < |MtfSymbols(places, list, 0)| ==> 0 <= MtfSymbols(places, list, 0)[k] <= |list|
  {
  }

  lemma PlacesRange(col: seq<Byte>, inUse: seq<bool>)
    requires Covers(inUse, col)
    ensures forall k :: 0 <= k < |Places(col, inUse)| ==> 0 <= Places(col, inUse)[k] < |UsedBytes(inUse)|
  {
    forall k | 0 <= k < |col| ensures Places(col, inUse)[k] < |UsedBytes(inUse)| {
      PlaceOf(inUse, col[k]);
    }
  }

  // --- Decoding a stream ---

  datatype Verdict = End | Error(error: Decoder.Error) | More(d: Dec, rest: seq<Bit>, combined: bv32)

  datatype Decoding = Decoding(out: seq<Byte>, verdict: Verdict)

  lemma {:induction false} FeedProgress(d: Dec, bits: seq<Bit>)
    requires Valid(d)
    ensures Feed(d, bits).d == d || |Feed(d, bits).rest| < |bits|
  {
    hide Step;
  }

  lemma FeedStays(d: Dec, bits: seq<Bit>)
    requires Valid(d)
    ensures !Waiting(d) ==> Feed(d, bits) == Run(d, bits)
  {
    hide Step;
  }

  /** BZ2_bzDecompress on a bit string, from any point of a stream: the output, and how it ends. */
  ghost function DecodeBits(d: Dec, bits: seq<Bit>, combined: bv32): (r: Decoding)
    requires Valid(d)
    ensures r.verdict.More? ==> Valid(r.verdict.d)
    decreases |bits|, if d.Output? then 1 else 0
  {
    FeedProgress(d, bits);
    FeedStays(d, bits);
    var f := Feed(d, bits);
    if f.d.Idle? then Decoding([], if WordOf(combined) == f.d.combined then End else Error(DataError))
    else if f.d.Failed? then Decoding([], Error(f.d.error))
    else if f.d.Output? then AfterBlock(f.d, combined, f.rest)
    else Decoding([], More(f.d, f.rest, combined))
  }

  /** A block has been parsed: its text is delivered and its checksum compared. */
  ghost function AfterBlock(d: Dec, combined: bv32, rest: seq<Bit>): (r: Decoding)
    requires d.Output? && Valid(d)
    ensures r.verdict.More? ==> Valid(r.verdict.d)
    decreases |rest|, if d.Output? then 1 else 0, 0
  {
    OutputOk(d);
    hide *;
    var x := BlockText(d.col, d.head.orig);
    if x.broken || WordOf(Crc(x.bytes)) != d.head.crc then Decoding(x.bytes, Error(DataError))
    else
      var more := DecodeBits(BlkHdr(d.head.level, 1), rest, Combine(combined, Crc(x.bytes)));
      Decoding(x.bytes + more.out, more.verdict)
  }

  /** Going on after more input has arrived. */
  ghost function Continue(r: Decoding, more: seq<Bit>): (s: Decoding)
    requires r.verdict.More? ==> Valid(r.verdict.d)
  {
    if r.verdict.More? then
      var s := DecodeBits(r.verdict.d, r.verdict.rest + more, r.verdict.combined);
      Decoding(r.out + s.out, s.verdict)
    else r
  }

  /** Some bytes, and then what the rest decodes to. */
  function Behind(bytes: seq<Byte>, r: Decoding): Decoding {
    Decoding(bytes + r.out, r.verdict)
  }

  // --- Suspension transparency ---

  lemma FeedMore(d: Dec, a: seq<Bit>, b: seq<Bit>)
    requires Valid(d)
    ensures Valid(Feed(d, a).d)
    ensures var f := Feed(d, a); Waiting(f.d) ==> Feed(d, a + b) == Feed(f.d, f.rest + b)
    ensures var f := Feed(d, a); !Waiting(f.d) ==> Feed(d, a + b) == Run(f.d, f.rest + b)
  {
    hide Step;
    FeedConcat(d, a, b);
    FeedStays(Feed(d, a).d, Feed(d, a).rest + b);
  }

  /** However the input is cut, decoding it in parts is decoding it at once: the same bytes and the
      same verdict. */
  lemma {:induction false} DecodeConcat(d: Dec, a: seq<Bit>, b: seq<Bit>, combined: bv32)
    requires Valid(d)
    ensures DecodeBits(d, a + b, combined) == Continue(DecodeBits(d, a, combined), b)
    decreases |a|, if d.Output? then 1 else 0
  {
    hide *;
    var f := Feed(d, a);
    FeedMore(d, a, b);
    FeedProgress(d, a);
    FeedStays(d, a);
    ByState(d, a, combined);
    ByState(d, a + b, combined);
    StateKinds(f.d);
    if f.d.Output? {
      OutputOk(f.d);
      var x := BlockText(f.d.col, f.d.head.orig);
      var sum := Combine(combined, Crc(x.bytes));
      DecodeConcat(BlkHdr(f.d.head.level, 1), f.rest, b, sum);
      ConcatAfter(f.d, f.rest, b, combined);
    } else {
      if Waiting(f.d) { SameFeed(d, a + b, f.d, f.rest + b, combined); }
      ConcatRest(DecodeBits(d, a, combined), f.d, f.rest, combined, b);
    }
  }

  lemma ConcatAfter(d: Dec, rest: seq<Bit>, b: seq<Bit>, combined: bv32)
    requires Valid(d) && d.Output? && d.head.orig < |d.col| && Valid(BlkHdr(d.head.level, 1))
    requires var sum := Combine(combined, Crc(BlockText(d.col, d.head.orig).bytes));
             DecodeBits(BlkHdr(d.head.level, 1), rest + b, sum) == Continue(DecodeBits(BlkHdr(d.head.level, 1), rest, sum), b)
    ensures AfterBlock(d, combined, rest + b) == Continue(AfterBlock(d, combined, rest), b)
  {
    hide Feed, BlockText, Crc, Combine, WordOf, AfterBlock, DecodeBits, Valid;
    var x := BlockText(d.col, d.head.orig);
    AfterText(d, rest, combined);
    AfterText(d, rest + b, combined);
    ContinueAfter(x.bytes, DecodeBits(BlkHdr(d.head.level, 1), rest, Combine(combined, Crc(x.bytes))), b);
  }

  lemma StateKinds(d: Dec)
    ensures d.Idle? || d.Failed? || d.Output? || Waiting(d)
    ensures d.Idle? || d.Failed? || d.Output? ==> !Waiting(d)
  {
  }

  /** Outside a block's end, going on is going on from the state reached. */
  lemma ConcatRest(r: Decoding, d: Dec, rest: seq<Bit>, combined: bv32, b: seq<Bit>)
    requires Valid(d)
    requires r.verdict.More? ==> r == Decoding([], More(d, rest, combined))
    ensures r.verdict.More? ==> Continue(r, b) == DecodeBits(d, rest + b, combined)
    ensures !r.verdict.More? ==> Continue(r, b) == r
  {
    hide DecodeBits, Valid;
    if r.verdict.More? {
      var s := DecodeBits(d, rest + b, combined);
      assert [] + s.out == s.out;
    }
  }

  lemma OutputOk(d: Dec)
    requires Valid(d) && d.Output?
    ensures d.head.orig < |d.col| && Valid(BlkHdr(d.head.level, 1))
  {
  }

  /** How a stream decodes, by the state its first run of fields leads to. */
  lemma ByState(d: Dec, bits: seq<Bit>, combined: bv32)
    requires Valid(d)
    ensures var f := Feed(d, bits);
            Valid(f.d)
            && (f.d.Idle? ==> DecodeBits(d, bits, combined) == Decoding([], if WordOf(combined) == f.d.combined then End else Error(DataError)))
            && (f.d.Failed? ==> DecodeBits(d, bits, combined) == Decoding([], Error(f.d.error)))
            && (f.d.Output? ==> DecodeBits(d, bits, combined) == AfterBlock(f.d, combined, f.rest))
            && (Waiting(f.d) ==> DecodeBits(d, bits, combined) == Decoding([], More(f.d, f.rest, combined)))
  {
    FeedProgress(d, bits);
    hide Feed, AfterBlock, WordOf;
  }

  lemma ContinueAfter(bytes: seq<Byte>, r: Decoding, more: seq<Bit>)
    requires r.verdict.More? ==> Valid(r.verdict.d)
    ensures Continue(Decoding(bytes + r.out, r.verdict), more)
         == Decoding(bytes + Continue(r, more).out, Continue(r, more).verdict)
    ensures bytes == [] ==> bytes + r.out == r.out
  {
    hide Feed, Valid, DecodeBits;
    if r.verdict.More? {
      var s := DecodeBits(r.verdict.d, r.verdict.rest + more, r.verdict.combined);
      assert bytes + (r.out + s.out) == bytes + r.out + s.out;
    }
  }

  lemma SameFeed(d: Dec, a: seq<Bit>, e: Dec, b: seq<Bit>, combined: bv32)
    requires Valid(d) && Valid(e) && Feed(d, a) == Feed(e, b)
    ensures DecodeBits(d, a, combined) == DecodeBits(e, b, combined)
  {
    hide Feed, BlockText, Crc, Combine, WordOf;
  }

  // --- Streams ---

  function Flat(datas: seq<seq<Byte>>): (r: seq<Byte>) {
    if datas == [] then [] else datas[0] + Flat(datas[1..])
  }

  ghost predicate AllHold(es: seq<Encoding>, level: nat, datas: seq<seq<Byte>>) {
    |es| == |datas| && forall k :: 0 <= k < |es| ==> Holds(es[k], level, datas[k])
  }

  ghost predicate AllSendable(es: seq<Encoding>, level: nat) {
    forall k :: 0 <= k < |es| ==> Sendable(es[k], level)
  }

  ghost function BlocksBits(es: seq<Encoding>, level: nat): (r: seq<Bit>)
    requires AllSendable(es, level)
  {
    if es == [] then [] else BlockBits(es[0], level) + BlocksBits(es[1..], level)
  }

  /** A finished stream. */
  ghost function StreamBits(es: seq<Encoding>, level: nat, combined: bv32): (r: seq<Bit>)
    requires 1 <= level <= 9 && AllSendable(es, level)
  {
    HeaderBits(level) + BlocksBits(es, level) + TrailerBits(WordOf(combined))
  }

  lemma DecodeReads(d: Dec, bits: seq<Bit>, e: Dec, rest: seq<Bit>, combined: bv32)
    requires Reads(d, bits, e)
    ensures DecodeBits(d, bits + rest, combined) == DecodeBits(e, rest, combined)
  {
    hide Feed;
    SameFeed(d, bits + rest, e, rest, combined);
  }

  lemma DecodeOutput(d: Dec, rest: seq<Bit>, combined: bv32, data: seq<Byte>)
    requires Valid(d) && d.Output? && d.head.orig < |d.col| && HeadOk(d.head) && BlockText(d.col, d.head.orig) == Expansion(data, false)
    requires WordOf(Crc(data)) == d.head.crc
    ensures var more := DecodeBits(BlkHdr(d.head.level, 1), rest, Combine(combined, Crc(data)));
            DecodeBits(d, rest, combined) == Decoding(data + more.out, more.verdict)
  {
    hide *;
    OutputDecodes(d, rest, combined);
    AfterText(d, rest, combined);
  }

  lemma OutputDecodes(d: Dec, rest: seq<Bit>, combined: bv32)
    requires Valid(d) && d.Output?
    ensures DecodeBits(d, rest, combined) == AfterBlock(d, combined, rest)
  {
    FeedStays(d, rest);
    hide Feed, AfterBlock, Valid, BlockText;
  }

  lemma AfterText(d: Dec, rest: seq<Bit>, combined: bv32)
    requires Valid(d) && d.Output?
    ensures Valid(BlkHdr(d.head.level, 1))
    ensures var x := BlockText(d.col, d.head.orig);
            AfterBlock(d, combined, rest)
            == if x.broken || WordOf(Crc(x.bytes)) != d.head.crc then Decoding(x.bytes, Error(DataError))
               else
                 var more := DecodeBits(BlkHdr(d.head.level, 1), rest, Combine(combined, Crc(x.bytes)));
                 Decoding(x.bytes + more.out, more.verdict)
  {
    hide BlockText, DecodeBits, WordOf, Crc, Combine, Feed;
  }

  lemma DecodeEnd(d: Dec, rest: seq<Bit>, combined: bv32)
    requires Valid(d) && d == Idle(WordOf(combined))
    ensures DecodeBits(d, rest, combined) == Decoding([], End)
  {
    hide WordOf;
    FeedStays(d, rest);
    hide Feed;
  }

  /** From any block boundary: the remaining blocks decode to their bytes, whatever follows them. */
  lemma {:induction false} BlocksDecode(es: seq<Encoding>, level: nat, datas: seq<seq<Byte>>, k: nat, tail: seq<Bit>)
    requires 1 <= level <= 9 && AllHold(es, level, datas) && k <= |es|
    ensures AllSendable(es[k..], level)
    ensures DecodeBits(BlkHdr(level, 1), BlocksBits(es[k..], level) + tail, Combined(datas[..k]))
         == Behind(Flat(datas[k..]), DecodeBits(BlkHdr(level, 1), tail, Combined(datas)))
    decreases |es| - k
  {
    hide *;
    Slices(es, level, datas, k);
    NothingMore(level, Combined(datas));
    var last := DecodeBits(BlkHdr(level, 1), tail, Combined(datas));
    if k == |es| {
      assert [] + tail == tail;
      FollowsNothing(last);
    } else {
      BlocksDecode(es, level, datas, k + 1, tail);
      var rest := BlocksBits(es[k + 1..], level);
      BlockDecodes(es[k], level, datas[k], rest + tail, Combined(datas[..k]));
      Assoc(BlockBits(es[k], level), rest, tail);
      FollowsBoth(datas[k], Flat(datas[k + 1..]), last);
    }
  }

  lemma FollowsNothing(r: Decoding)
    ensures Behind([], r) == r
  {
    assert [] + r.out == r.out;
  }

  lemma FollowsBoth(x: seq<Byte>, y: seq<Byte>, r: Decoding)
    ensures Behind(x, Behind(y, r)) == Behind(x + y, r)
  {
    Assoc(x, y, r.out);
  }

  /** What is left after k blocks, and the next of them. */
  lemma Slices(es: seq<Encoding>, level: nat, datas: seq<seq<Byte>>, k: nat)
    requires AllHold(es, level, datas) && k <= |es|
    ensures |es| == |datas| && AllSendable(es[k..], level)
    ensures k == |es| ==> datas[..k] == datas && Flat(datas[k..]) == [] && BlocksBits(es[k..], level) == []
    ensures k < |es| ==>
      && Holds(es[k], level, datas[k]) && Sendable(es[k], level) && AllSendable(es[k + 1..], level)
      && BlocksBits(es[k..], level) == BlockBits(es[k], level) + BlocksBits(es[k + 1..], level)
      && Flat(datas[k..]) == datas[k] + Flat(datas[k + 1..])
      && Combined(datas[..k + 1]) == Combine(Combined(datas[..k]), Crc(datas[k]))
  {
    hide BlockBits, Sendable, BlockText, ColumnOf, UsedBytes, WordOf, Crc, Combine;
    if k < |es| {
      assert es[k..][1..] == es[k + 1..] && datas[k..][1..] == datas[k + 1..];
      assert datas[..k + 1][..k] == datas[..k];
    }
  }

  lemma TrailerDecodes(level: nat, c: bv32, pad: seq<Bit>)
    requires 1 <= level <= 9
    ensures DecodeBits(BlkHdr(level, 1), TrailerBits(WordOf(c)) + pad, c) == Decoding([], End)
  {
    hide Reads, DecodeBits, TrailerBits, WordOf;
    ReadsTrailer(level, WordOf(c));
    DecodeReads(BlkHdr(level, 1), TrailerBits(WordOf(c)), Idle(WordOf(c)), pad, c);
    DecodeEnd(Idle(WordOf(c)), pad, c);
  }

  lemma BlockDecodes(e: Encoding, level: nat, data: seq<Byte>, after: seq<Bit>, c: bv32)
    requires 1 <= level <= 9 && Holds(e, level, data)
    ensures Sendable(e, level)
    ensures var more := DecodeBits(BlkHdr(level, 1), after, Combine(c, Crc(data)));
            DecodeBits(BlkHdr(level, 1), BlockBits(e, level) + after, c) == Behind(data, more)
  {
    hide Reads, BlockBits, DecodeBits, WordOf, Crc, Combine, Sendable, BlockText, ColumnOf, UsedBytes;
    ReadsBlock(e, level);
    DecodeReads(BlkHdr(level, 1), BlockBits(e, level), Delivered(e, level), after, c);
    DecodeOutput(Delivered(e, level), after, c, data);
  }

  /** The whole-codec round trip, for any sequence of blocks a compressor may send: the stream
      decodes to the bytes the blocks stand for, and both checksums agree. */
  lemma StreamDecodes(es: seq<Encoding>, level: nat, datas: seq<seq<Byte>>, pad: seq<Bit>)
    requires 1 <= level <= 9 && AllHold(es, level, datas)
    ensures AllSendable(es, level)
    ensures DecodeBits(Magic(1), StreamBits(es, level, Combined(datas)) + pad, 0) == Decoding(Flat(datas), End)
  {
    hide Reads, DecodeBits, TrailerBits, WordOf, HeaderBits, Holds, Sendable, Valid, Pow2, Combined;
    ReadsHeader(level);
    TrailerDecodes(level, Combined(datas), pad);
    BlocksDecode(es, level, datas, 0, TrailerBits(WordOf(Combined(datas))) + pad);
    assert Flat(datas) + [] == Flat(datas);
    assert es[0..] == es && datas[0..] == datas && datas[..0] == [];
    var h, b, t := HeaderBits(level), BlocksBits(es, level), TrailerBits(WordOf(Combined(datas)));
    DecodeReads(Magic(1), h, BlkHdr(level, 1), b + (t + pad), 0);
    Assoc4(h, b, t, pad);
    NoBlocks();
  }

  /** A stream that has not been closed decodes to the bytes of its blocks, and asks for more. */
  lemma OpenDecodes(es: seq<Encoding>, level: nat, datas: seq<seq<Byte>>)
    requires 1 <= level <= 9 && AllHold(es, level, datas)
    ensures AllSendable(es, level) && Valid(BlkHdr(level, 1))
    ensures DecodeBits(Magic(1), HeaderBits(level) + BlocksBits(es, level), 0)
         == Decoding(Flat(datas), More(BlkHdr(level, 1), [], Combined(datas)))
  {
    hide Reads, HeaderBits, Holds, Sendable, Pow2, Combined, DecodeBits;
    ReadsHeader(level);
    NothingMore(level, Combined(datas));
    BlocksDecode(es, level, datas, 0, []);
    assert es[0..] == es && datas[0..] == datas && datas[..0] == [];
    assert BlocksBits(es, level) + [] == BlocksBits(es, level) && Flat(datas) + [] == Flat(datas);
    DecodeReads(Magic(1), HeaderBits(level), BlkHdr(level, 1), BlocksBits(es, level), 0);
    NoBlocks();
  }

  lemma NothingMore(level: nat, c: bv32)
    requires 1 <= level <= 9
    ensures Valid(BlkHdr(level, 1)) && DecodeBits(BlkHdr(level, 1), [], c) == Decoding([], More(BlkHdr(level, 1), [], c))
  {
  }

  lemma NoBlocks()
    ensures Combined([]) == 0
  {
  }
}

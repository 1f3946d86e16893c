/** BZ2_compressBlock (compress.c): sorts, codes and writes one block, with the stream header before
    the first and the trailer after the last. */
module CompressBlock {
  import opened Basics
  import opened BitStrings
  import opened BitIO
  import opened Permutations
  import opened Rotations
  import opened Mtf
  import opened MtfEncode
  import opened RunLength
  import opened BlockCrc
  import opened Decoder
  import opened SymbolFormat
  import opened BlockEncoding
  import opened SendBits
  import opened InputStage
  import opened StreamFormat
  import opened BlockSort

  // --- What has been written so far ---

  ghost function OpenBits(es: seq<Encoding>, level: nat): (r: seq<Bit>)
    requires 1 <= level <= 9 && AllSendable(es, level)
  {
    HeaderBits(level) + BlocksBits(es, level)
  }

  lemma {:induction false} BlocksAppend(es: seq<Encoding>, e: Encoding, level: nat)
    requires AllSendable(es, level) && Sendable(e, level)
    ensures AllSendable(es + [e], level)
    ensures BlocksBits(es + [e], level) == BlocksBits(es, level) + BlockBits(e, level)
    decreases |es|
  {
    hide BlockBits, Sendable;
    var all := es + [e];
    if es == [] {
      assert all[1..] == [];
      assert BlockBits(e, level) + [] == BlockBits(e, level) && [] + BlockBits(e, level) == BlockBits(e, level);
    } else {
      assert all[1..] == es[1..] + [e];
      BlocksAppend(es[1..], e, level);
    }
  }

  lemma {:induction false} FlatAppend(datas: seq<seq<Byte>>, data: seq<Byte>)
    ensures Flat(datas + [data]) == Flat(datas) + data
    decreases |datas|
  {
    var all := datas + [data];
    if datas == [] {
      assert all[1..] == [];
      assert data + [] == data && [] + data == data;
    } else {
      assert all[1..] == datas[1..] + [data];
      FlatAppend(datas[1..], data);
    }
  }

  // --- One block ---

  /** The encoding of a sorted block carries the bytes its runs stand for. */
  lemma BlockHolds(e: Encoding, level: nat, b: seq<Byte>, p: seq<int>, spans: seq<Span>)
    requires 1 <= level <= 9 && |b| <= 100000 * level && SortedAt(b, p, e.orig)
    requires Apart(spans) && b == Coded(spans) && Injective(p, |b|)
    requires Covers(e.inUse, LastColumn(b, p)) && LastColumn(b, p) != []
    requires e.syms == BlockSymbols(LastColumn(b, p), e.inUse)
    requires CodesOk(e) && |e.selector| == (|e.syms| + 49) / 50
    requires e.crc == WordOf(Crc(Plain(spans)))
    ensures Holds(e, level, Plain(spans)) && |ColumnOf(UsedBytes(e.inUse), e.syms)| == |b|
  {
    hide LastColumn, BlockSymbols, ColumnOf, Coded, Plain, SortsRotations, Apart, UsedBytes, Crc, WordOf, BlockText, CodesOk;
    ColumnOfSymbols(LastColumn(b, p), e.inUse);
    SortedText(b, p, e.orig, spans);
    LastColumnLength(b, p);
    SymbolCount(LastColumn(b, p), e.inUse);
  }

  lemma SymbolCount(col: seq<Byte>, inUse: seq<bool>)
    requires Covers(inUse, col) && col != []
    ensures |BlockSymbols(col, inUse)| <= |col| + 1
  {
  }


  /** bsPutUChar for each of a few constant bytes. */
  method PutBytes(w: BitWriter, bytes: seq<Byte>)
    requires w.Valid()
    modifies w
    ensures w.Valid() && w.Contents() == old(w.Contents()) + ByteBits(bytes) && old(w.zbits) <= w.zbits
    ensures old(w.bsLive) < 32 ==> w.bsLive < 32
  {
    hide Bits, Shl;
    assert bytes[..0] == [];
    for i := 0 to |bytes|
      invariant w.Valid() && old(w.zbits) <= w.zbits && (old(w.bsLive) < 32 ==> w.bsLive < 32)
      invariant w.Contents() == old(w.Contents()) + ByteBits(bytes[..i])
    {
      assert bytes[..i + 1][..i] == bytes[..i];
      Assoc(old(w.Contents()), ByteBits(bytes[..i]), Bits(8, bytes[i]));
      w.PutUChar(bytes[i]);
    }
    assert bytes[..|bytes|] == bytes;
  }

  /** Every byte of the column is in the map of used bytes. */
  lemma ColumnCovered(b: seq<Byte>, p: seq<int>, inUse: seq<bool>)
    requires Injective(p, |b|) && |inUse| == 256 && forall v :: 0 <= v < 256 ==> inUse[v] == (v in b)
    ensures Covers(inUse, LastColumn(b, p))
  {
  }

  /** A non-empty block, sorted: its mark, checksum, original pointer, and everything sendMTFValues
      writes. */
  method WriteBlock(w: BitWriter, stage: RunStage, arr1: SharedWords, mtfFreq: array<nat>, crc: bv32, origPtr: nat)
    returns (ghost e: Encoding)
    requires w.Valid() && stage.Filled() && stage.nblock > 0 && crc == Finalise(stage.blockCRC)
    requires arr1.words.Length == 100000 * stage.level && mtfFreq.Length == 258
    requires SortedBy(arr1.words[..], stage.block[..stage.nblock], origPtr)
    modifies w, arr1.words, mtfFreq
    ensures Holds(e, stage.level, Plain(stage.spans)) && Sendable(e, stage.level) && |e.syms| <= stage.nblock + 1
    ensures |ColumnOf(UsedBytes(e.inUse), e.syms)| == stage.nblock
    ensures w.Valid() && old(w.zbits) <= w.zbits && w.bsLive < 32
    ensures w.Contents() == old(w.Contents()) + BlockBits(e, stage.level)
  {
    hide *;
    StageFacts(stage);
    ghost var b, words := stage.block[..stage.nblock], arr1.words[..];
    ghost var p := PointersOf(words, b, origPtr);
    ghost var used, old0 := stage.inUse[..], w.Contents();
    BlockReady(b, p, origPtr, used);
    PutBytes(w, BLOCK_MARK);
    w.PutUInt32(WordOf(crc));
    OneZero();
    w.Write(1, 0);
    OrigFits(origPtr);
    w.Write(24, origPtr);
    var nInUse, sink := GenerateMtfValues(arr1, stage.block, stage.nblock, stage.inUse, mtfFreq, p);
    SinkSize(sink);
    e := SendMtfValues(w, sink, stage.inUse[..], nInUse, WordOf(crc), origPtr);
    CrcAgrees(stage.spans, crc, stage.blockCRC);
    BlockHolds(e, stage.level, b, p, stage.spans);
    HeldSendable(e, stage.level, Plain(stage.spans));
    BlockParts(e, stage.level);
    ghost var front := ByteBits(BLOCK_MARK) + Bits(32, e.crc) + [0];
    Assoc4(old0, ByteBits(BLOCK_MARK), Bits(32, e.crc), [0]);
    Assoc4(old0, front, Bits(24, e.orig), PayloadBits(e));
  }

  lemma StageFacts(stage: RunStage)
    requires stage.Filled()
    ensures 1 <= stage.level <= 9 && stage.nblock <= 100000 * stage.level <= stage.block.Length && stage.inUse.Length == 256
    ensures Apart(stage.spans) && stage.block[..stage.nblock] == Coded(stage.spans)
    ensures (forall i :: 0 <= i < |stage.spans| ==> SpanOk(stage.spans[i])) && stage.blockCRC == Fold(INIT, Plain(stage.spans))
    ensures forall v :: 0 <= v < 256 ==> stage.inUse[v] == (v in stage.block[..stage.nblock])
  {
    hide Coded, Plain, Fold;
  }

  lemma PointersOf(words: seq<Word>, b: seq<Byte>, orig: nat) returns (p: seq<int>)
    requires SortedBy(words, b, orig)
    ensures |b| <= |words| && |p| == |b| && SortedAt(b, p, orig) && orig < |b| && forall k :: 0 <= k < |b| ==> p[k] == words[k]
  {
    p := words[..|b|];
  }

  /** What generateMTFValues and sendMTFValues ask of a sorted block. */
  lemma BlockReady(b: seq<Byte>, p: seq<int>, orig: nat, used: seq<bool>)
    requires SortedAt(b, p, orig) && |used| == 256 && forall v :: 0 <= v < 256 ==> used[v] == (v in b)
    ensures b != [] && Injective(p, |b|) && Covers(used, LastColumn(b, p)) && LastColumn(b, p) != []
    ensures var syms := BlockSymbols(LastColumn(b, p), used);
            |syms| <= |b| + 1 && (forall k :: 0 <= k < |syms| ==> 0 <= syms[k]) && SymbolsOk(syms, |UsedBytes(used)|)
  {
    hide LastColumn, BlockSymbols, Covers, UsedBytes, SymbolsOk, SortsRotations;
    SortedParts(b, p, orig);
    ColumnCovered(b, p, used);
    ColumnOfSymbols(LastColumn(b, p), used);
    SymbolCount(LastColumn(b, p), used);
  }

  lemma SinkSize(sink: SymbolSink)
    requires sink.Valid()
    ensures |sink.Written()| == sink.wr
  {
  }

  lemma CrcAgrees(spans: seq<Span>, crc: bv32, blockCRC: bv32)
    requires (forall i :: 0 <= i < |spans| ==> SpanOk(spans[i])) && blockCRC == Fold(INIT, Plain(spans)) && crc == Finalise(blockCRC)
    ensures WordOf(crc) == WordOf(Crc(Plain(spans)))
  {
    hide Fold, Plain, Finalise, WordOf;
  }

  lemma HeldSendable(e: Encoding, level: nat, data: seq<Byte>)
    requires Holds(e, level, data)
    ensures Sendable(e, level)
  {
    hide Sendable, BlockText, ColumnOf, UsedBytes;
  }

  lemma BlockParts(e: Encoding, level: nat)
    requires Sendable(e, level)
    ensures BlockBits(e, level) == ByteBits(BLOCK_MARK) + Bits(32, e.crc) + [0] + Bits(24, e.orig) + PayloadBits(e)
  {
    hide Bits, ByteBits, PayloadBits, Sendable, CodesOk;
    OneZero();
  }

  lemma SortedParts(b: seq<Byte>, p: seq<int>, orig: nat)
    requires SortedAt(b, p, orig)
    ensures Injective(p, |b|) && LastColumn(b, p) != [] && |LastColumn(b, p)| == |b|
  {
    LastColumnLength(b, p);
  }

  lemma OneZero()
    ensures Bits(1, 0) == [0] && 0 < Pow2(1)
  {
    assert Bits(0, 0) == [];
  }
}

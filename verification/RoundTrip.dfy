/** The whole codec: what comes out of the decompressor is what went into the compressor, for every
    schedule of calls and buffer sizes on either side. */
module RoundTrip {
  import opened Basics
  import opened BitStrings
  import opened Decoder
  import opened StreamFormat
  import opened Compressor
  import opened DecompressStream
  import BlockCrc
  import BlockEncoding
  import BlockFormat

  lemma CompleteDecodes(bits: seq<Bit>, es: seq<BlockEncoding.Encoding>, level: nat, datas: seq<seq<Byte>>, combined: bv32)
    requires Complete(bits, es, level, combined) && AllHold(es, level, datas) && combined == BlockCrc.Combined(datas)
    ensures DecodeBits(Magic(1), bits, 0) == Decoding(Flat(datas), End)
  {
    hide DecodeBits, StreamBits, AllSendable, AllHold, Bits;
    var pad: nat :| pad < 8 && bits == StreamBits(es, level, combined) + Bits(pad, 0);
    StreamDecodes(es, level, datas, Bits(pad, 0));
  }

  /** Once the trailer has been written, the bytes emitted and those still to be delivered decode,
      checksums included, to all the input taken. */
  lemma ClosedDecodes(c: EState)
    requires c.Valid() && c.closed
    ensures DecodeBits(Magic(1), ByteBits(c.gone + c.writer.zbits), 0) == Decoding(c.taken, End)
  {
    hide DecodeBits, Complete, AllHold, AllSendable;
    assert c.stage.Pending() == [];
    assert Flat(c.datas) + [] == Flat(c.datas);
    CompleteDecodes(ByteBits(c.gone + c.writer.zbits), c.es, c.level, c.datas, c.combinedCRC);
  }

  /** A compressor that has returned BZ_STREAM_END has delivered a stream that decodes, checksums
      included, to all the input it was given, whatever the calls were. */
  lemma StreamRoundTrip(c: EState)
    requires c.Ready() && c.mode == Stopped
    ensures DecodeBits(Magic(1), ByteBits(c.Emitted()), 0) == Decoding(c.taken, End)
  {
    hide DecodeBits, AllHold, AllSendable, ByteBits;
    assert c.writer.zbits[..c.stateOutPos] == c.writer.zbits;
    ClosedDecodes(c);
  }

  /** A written stream is never empty. */
  lemma SomethingWritten(c: EState)
    requires c.Valid() && c.closed
    ensures c.stateOutPos == |c.writer.zbits| ==> c.Emitted() != []
  {
    hide DecodeBits, EState.Valid;
    assert c.stateOutPos == |c.writer.zbits| ==> c.writer.zbits[..c.stateOutPos] == c.writer.zbits;
    ClosedDecodes(c);
    Unread();
  }

  /** Only at the end of a flush does a compressor wait with a block that is not the last one and nothing
      pending. In every other case, a full block during a flush included, a run is pending, so that the
      last block, and with it the trailer, is always written. */
  lemma FullBlockHasPendingRun(c: EState)
    requires c.Ready() && c.state == OutputState && !c.closed
    requires !(c.mode == Flushing && c.availInExpect == 0)
    ensures !c.stage.Empty() && c.stage.Pending() != [] && c.taken == Flat(c.datas) + c.stage.Pending()
  {
  }

  /** After a flush, and whenever a compressor is taking input: the bytes emitted, and fewer than 32 bits
      still in the buffer, decode to the input of all blocks sent. */
  lemma FlushRoundTrip(c: EState)
    requires c.Ready() && c.state == InputState
    ensures c.writer.bsLive < 32
    ensures var r := DecodeBits(Magic(1), ByteBits(c.Emitted()) + Bits(c.writer.bsLive, c.writer.pending), 0);
            r.out == Flat(c.datas) && r.verdict.More?
  {
    hide DecodeBits, AllHold, AllSendable, BlockEncoding.HeaderBits, Bits, ByteBits;
    SentSoFar(c);
    if c.blockNo == 1 {
      Unread();
    } else {
      OpenDecodes(c.es, c.level, c.datas);
    }
  }

  lemma SentSoFar(c: EState)
    requires c.Ready() && c.state == InputState
    ensures 1 <= c.level <= 9 && AllHold(c.es, c.level, c.datas) && AllSendable(c.es, c.level)
    ensures ByteBits(c.Emitted()) + Bits(c.writer.bsLive, c.writer.pending)
         == if c.blockNo == 1 then [] else BlockEncoding.HeaderBits(c.level) + BlocksBits(c.es, c.level)
    ensures c.blockNo == 1 ==> Flat(c.datas) == []
  {
    hide AllSendable, BlockEncoding.HeaderBits, BlocksBits, Bits;
    assert c.gone + c.writer.zbits[..0] == c.gone;
    assert ByteBits([]) + Bits(c.writer.bsLive, c.writer.pending) == Bits(c.writer.bsLive, c.writer.pending);
  }

  lemma Unread()
    ensures DecodeBits(Magic(1), [], 0) == Decoding([], More(Magic(1), [], 0))
  {
  }

  lemma TotalPrefix(a: seq<Byte>, b: seq<Byte>, all: seq<Byte>)
    requires a <= b && DecodeBits(Magic(1), ByteBits(b), 0) == Decoding(all, End)
    ensures DecodeBits(Magic(1), ByteBits(a), 0).out <= all
    ensures !DecodeBits(Magic(1), ByteBits(a), 0).verdict.Error?
  {
    hide DecodeBits;
    var rest := b[|a|..];
    assert b == a + rest;
    ByteBitsConcat(a, rest);
    DecodeConcat(Magic(1), ByteBits(a), ByteBits(rest), 0);
    VerdictOk(Magic(1), ByteBits(a), 0);
  }

  /** At every moment of decompression, whatever part of the stream has been consumed and in whatever
      pieces, what has been delivered is a prefix of the compressor's input. */
  lemma DeliveredIsPrefix(c: EState, d: DState)
    requires c.Ready() && c.mode == Stopped && d.Sound() && d.consumed <= c.Emitted()
    ensures d.made <= c.taken
    ensures !d.Total().verdict.Error?
  {
    hide DecodeBits, EState.Emitted;
    StreamRoundTrip(c);
    TotalPrefix(d.consumed, c.Emitted(), c.taken);
  }

  /** Once the whole stream has been consumed, what has been delivered and what is still to be
      delivered make up exactly the compressor's input, and the stream ends well. */
  lemma CodecRoundTrip(c: EState, d: DState)
    requires c.Ready() && c.mode == Stopped && d.Sound() && d.consumed == c.Emitted()
    ensures d.made + d.Rest().out == c.taken && d.Rest().verdict == End
  {
    hide DecodeBits, EState.Emitted;
    StreamRoundTrip(c);
  }

  // --- Before the end ---

  /** A part of what asks for more asks for more. */
  lemma PartAsksForMore(a: seq<Bit>, b: seq<Bit>)
    requires DecodeBits(Magic(1), a + b, 0).verdict.More?
    ensures DecodeBits(Magic(1), a, 0).verdict.More?
  {
    hide DecodeBits;
    DecodeConcat(Magic(1), a, b, 0);
  }

  /** Any other word in the place of the combined checksum is refused. */
  lemma WrongSum(level: nat, w: Word, c: bv32)
    requires 1 <= level <= 9 && w != BlockCrc.WordOf(c)
    ensures Valid(BlkHdr(level, 1))
    ensures DecodeBits(BlkHdr(level, 1), BlockEncoding.TrailerBits(w) + [], c) == Decoding([], StreamFormat.Error(DataError))
  {
    hide BlockFormat.Reads, DecodeBits, BlockEncoding.TrailerBits, BlockCrc.WordOf;
    BlockEncoding.ReadsTrailer(level, w);
    DecodeReads(BlkHdr(level, 1), BlockEncoding.TrailerBits(w), Idle(w), [], c);
    EndVerdict(Idle(w), [], c);
  }

  lemma LastBit(w: Word) returns (v: Word)
    ensures v != w && Bits(32, w) == Bits(31, w / 2) + [w % 2] && Bits(32, v) == Bits(31, w / 2) + [1 - w % 2]
  {
    v := 2 * (w / 2) + (1 - w % 2);
    assert v / 2 == w / 2 && v % 2 == 1 - w % 2;
  }

  lemma TrailerSplit(w: Word)
    ensures BlockEncoding.TrailerBits(w) == ByteBits(END_MARK) + Bits(32, w) && |ByteBits(END_MARK)| == 48
  {
    hide ByteBits, Bits;
    BytesLength(END_MARK);
  }

  /** A stream that lacks its last bit still asks for more. */
  lemma LastBitMissing(es: seq<BlockEncoding.Encoding>, level: nat, datas: seq<seq<Byte>>) returns (all: seq<Bit>, last: Bit)
    requires 1 <= level <= 9 && AllHold(es, level, datas)
    ensures AllSendable(es, level) && StreamBits(es, level, BlockCrc.Combined(datas)) == all + [last]
    ensures DecodeBits(Magic(1), all, 0).verdict.More?
  {
    hide DecodeBits, BlockEncoding.HeaderBits, BlocksBits, AllHold, BlockCrc.Combined, BlockCrc.WordOf, Bits, ByteBits, BlockEncoding.TrailerBits,
         BlockFormat.Reads, AllSendable;
    StreamDecodes(es, level, datas, []);
    var c := BlockCrc.Combined(datas);
    var w := BlockCrc.WordOf(c);
    var v := LastBit(w);
    TrailerSplit(w);
    TrailerSplit(v);
    var h, b, m, s := BlockEncoding.HeaderBits(level), BlocksBits(es, level), ByteBits(END_MARK), Bits(31, w / 2);
    last := w % 2;
    all := h + b + (m + s);
    AlmostAll(h + b, m, s, last);
    AlmostAll(h + b, m, s, 1 - last);
    assert StreamBits(es, level, c) + [] == StreamBits(es, level, c);
    BlockEncoding.ReadsHeader(level);
    WrongSum(level, v, c);
    WholeList(es, datas);
    BlocksDecode(es, level, datas, 0, BlockEncoding.TrailerBits(v) + []);
    DecodeReads(Magic(1), h, BlkHdr(level, 1), b + (BlockEncoding.TrailerBits(v) + []), 0);
    NoBlocks();
    assert h + (b + (BlockEncoding.TrailerBits(v) + [])) == h + b + BlockEncoding.TrailerBits(v);
    DecodeConcat(Magic(1), all, [last], 0);
    DecodeConcat(Magic(1), all, [1 - last], 0);
  }

  lemma AlmostAll(front: seq<Bit>, m: seq<Bit>, s: seq<Bit>, x: Bit)
    ensures front + (m + (s + [x])) == front + (m + s) + [x]
  {
  }

  lemma WholeList(es: seq<BlockEncoding.Encoding>, datas: seq<seq<Byte>>)
    ensures es[0..] == es && datas[0..] == datas && datas[..0] == []
  {
  }

  lemma ShorterPrefix(a: seq<Bit>, b: seq<Bit>, x: Bit, pad: seq<Bit>, c: seq<Bit>) returns (d: seq<Bit>)
    requires a + c == b + [x] + pad && |c| >= 8 > |pad|
    ensures b == a + d
  {
    d := b[|a|..];
    assert a == (a + c)[..|a|] == (b + [x] + pad)[..|a|] == b[..|a|];
    assert b == b[..|a|] + b[|a|..];
  }

  /** As long as not everything has been delivered, what the caller has decodes to no end and no error. */
  lemma NeverEarly(c: EState)
    requires c.Ready() && c.state == OutputState && c.stateOutPos < |c.writer.zbits|
    ensures DecodeBits(Magic(1), ByteBits(c.Emitted()), 0).verdict.More?
  {
    hide DecodeBits, AllHold, AllSendable, ByteBits, Bits, BlocksBits, BlockEncoding.HeaderBits, StreamBits;
    var z, k := c.writer.zbits, c.stateOutPos;
    assert z == z[..k] + z[k..];
    Assoc(c.gone, z[..k], z[k..]);
    ByteBitsConcat(c.Emitted(), z[k..]);
    BytesLength(z[k..]);
    var part, more := ByteBits(c.Emitted()), ByteBits(z[k..]);
    if c.closed {
      var pad: nat :| pad < 8 && ByteBits(c.gone + z) == StreamBits(c.es, c.level, c.combinedCRC) + Bits(pad, 0);
      var all, last := LastBitMissing(c.es, c.level, c.datas);
      var d := ShorterPrefix(part, all, last, Bits(pad, 0), more);
      PartAsksForMore(part, d);
    } else {
      OpenDecodes(c.es, c.level, c.datas);
      ByteBitsConcat(c.gone, z);
      OpenParts(c);
      Assoc(ByteBits(c.gone), ByteBits(z), Bits(c.writer.bsLive, c.writer.pending));
      Assoc(part, more, Bits(c.writer.bsLive, c.writer.pending));
      PartAsksForMore(part, more + Bits(c.writer.bsLive, c.writer.pending));
    }
  }

  lemma OpenParts(c: EState)
    requires c.Ready() && c.state == OutputState && !c.closed
    ensures 1 <= c.level <= 9 && AllHold(c.es, c.level, c.datas) && AllSendable(c.es, c.level)
    ensures ByteBits(c.gone) + (ByteBits(c.writer.zbits) + Bits(c.writer.bsLive, c.writer.pending))
         == BlockEncoding.HeaderBits(c.level) + BlocksBits(c.es, c.level)
  {
    hide AllHold, AllSendable, ByteBits, Bits, BlocksBits, BlockEncoding.HeaderBits;
  }
}

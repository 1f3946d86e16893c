/** The first and the last bytes of every finished stream, written out. */
module StreamBytes {
  import opened Basics
  import opened BitStrings
  import opened RunLength
  import opened BlockCrc
  import opened Mtf
  import opened Decoder
  import opened BlockEncoding
  import opened StreamFormat
  import opened Compressor
  import opened SymbolFormat
  import AcceptedStreams
  import AcceptedFields

  /** Bytes whose bits lead are the leading bytes. */
  lemma LeadingBytes(a: seq<Byte>, b: seq<Byte>, tail: seq<Bit>)
    requires ByteBits(b) == ByteBits(a) + tail
    ensures a <= b && ByteBits(b[|a|..]) == tail
  {
    hide ByteBits;
    BytesLength(a);
    BytesLength(b);
    var n := |a|;
    assert b == b[..n] + b[n..];
    ByteBitsConcat(b[..n], b[n..]);
    BytesLength(b[..n]);
    assert ByteBits(b[..n]) == ByteBits(b)[..8 * n] == ByteBits(a);
    assert ByteBits(b[n..]) == ByteBits(b)[8 * n..] == tail;
    AcceptedStreams.BytesOfBits(b[..n], a);
  }

  lemma EndBytes()
    ensures END_MARK == [0x17, 0x72, 0x45, 0x38, 0x50, 0x90] && BLOCK_MARK == [0x31, 0x41, 0x59, 0x26, 0x53, 0x59]
  {
  }

  lemma ZeroBits(n: nat)
    ensures Bits(8, 0) + Bits(n, 0) == Bits(8 + n, 0)
  {
    BitsConcat(8, 0, n, 0);
    Shl0(n);
    assert Pow2(n) >= 1;
    assert 8 + n == n + 8;
  }

  /** A word of zeros is four zero bytes. */
  lemma ZeroWord()
    ensures Bits(32, 0) == ByteBits([0, 0, 0, 0])
  {
    hide Bits, ByteBits;
    ZeroBits(24);
    ZeroBits(16);
    ZeroBits(8);
    var z: seq<Byte> := [0, 0, 0, 0];
    AcceptedStreams.TailBytes(z, 0);
    AcceptedStreams.TailBytes(z, 1);
    AcceptedStreams.TailBytes(z, 2);
    AcceptedFields.SingleByte(0);
    assert z[0..] == z && z[3..] == [0];
  }

  /** A block carries at least one byte. */
  lemma CarriesSome(e: Encoding, level: nat, data: seq<Byte>)
    requires Holds(e, level, data)
    ensures data != []
  {
    hide UsedBytes, CodesOk, ColumnOf;
  }

  lemma {:induction false} FlatSome(es: seq<Encoding>, level: nat, datas: seq<seq<Byte>>)
    requires AllHold(es, level, datas)
    ensures Flat(datas) == [] <==> es == []
  {
    hide Holds;
    if es != [] { CarriesSome(es[0], level, datas[0]); }
  }

  lemma BlockBegins(e: Encoding, level: nat) returns (rest: seq<Bit>)
    requires Sendable(e, level)
    ensures BlockBits(e, level) == ByteBits(BLOCK_MARK) + rest
  {
    hide ByteBits, Bits, UsedBytes, CodesOk, ColumnOf, PayloadBits;
    var m, front := ByteBits(BLOCK_MARK), Bits(32, e.crc) + [0] + Bits(24, e.orig);
    Assoc4(m, Bits(32, e.crc), [0], Bits(24, e.orig));
    rest := front + PayloadBits(e);
    Assoc(m, front, PayloadBits(e));
  }

  /** Where the blocks begin. */
  lemma FirstBlock(es: seq<Encoding>, level: nat) returns (rest: seq<Bit>)
    requires AllSendable(es, level) && es != []
    ensures BlocksBits(es, level) == ByteBits(BLOCK_MARK) + rest
  {
    hide ByteBits, Sendable, BlocksBits, BlockBits;
    BlocksFirst(es, level);
    rest := BlockBegins(es[0], level);
    Assoc(ByteBits(BLOCK_MARK), rest, BlocksBits(es[1..], level));
    rest := rest + BlocksBits(es[1..], level);
  }

  lemma BlocksFirst(es: seq<Encoding>, level: nat)
    requires AllSendable(es, level) && es != []
    ensures BlocksBits(es, level) == BlockBits(es[0], level) + BlocksBits(es[1..], level)
  {
    hide BlockBits, Sendable;
  }

  /** The end mark, the combined checksum and fewer than eight zeros close the bits. */
  ghost predicate Closing(bits: seq<Bit>, combined: bv32) {
    exists front: seq<Bit>, pad: nat ::
      pad < 8 && bits == front + ByteBits([0x17, 0x72, 0x45, 0x38, 0x50, 0x90]) + Bits(32, WordOf(combined)) + Bits(pad, 0)
  }

  lemma CompleteBytes(b: seq<Byte>, es: seq<Encoding>, level: nat, datas: seq<seq<Byte>>)
    requires Complete(ByteBits(b), es, level, Combined(datas)) && AllHold(es, level, datas)
    ensures |b| >= 10 && b[..4] == [0x42, 0x5a, 0x68, 0x30 + level]
    ensures b[4..10] == if es == [] then [0x17, 0x72, 0x45, 0x38, 0x50, 0x90] else [0x31, 0x41, 0x59, 0x26, 0x53, 0x59]
    ensures es == [] ==> b[10..] == [0, 0, 0, 0]
    ensures Closing(ByteBits(b), Combined(datas))
  {
    hide ByteBits, Bits, BlocksBits, Sendable, Holds, Combined, WordOf;
    var pad: nat :| pad < 8 && ByteBits(b) == StreamBits(es, level, Combined(datas)) + Bits(pad, 0);
    var head: seq<Byte> := [0x42, 0x5a, 0x68, 0x30 + level];
    var h, m, w := ByteBits(head), ByteBits(END_MARK), Bits(32, WordOf(Combined(datas)));
    var blocks := BlocksBits(es, level);
    EndBytes();
    assert ByteBits(b) == h + blocks + (m + w) + Bits(pad, 0);
    Assoc4(h, blocks, m + w, Bits(pad, 0));
    LeadingBytes(head, b, blocks + (m + w) + Bits(pad, 0));
    Assoc(h + blocks, m, w);
    assert Closing(ByteBits(b), Combined(datas));
    if es == [] {
      EmptyBlocks(level);
      assert datas == [] && [] + (m + w) == m + w;
      NoBlocks();
      Assoc(m, w, Bits(pad, 0));
      LeadingBytes(END_MARK, b[4..], w + Bits(pad, 0));
      ZeroSum();
      ZeroWord();
      LeadingBytes([0, 0, 0, 0], b[4..][6..], Bits(pad, 0));
      BytesLength(b[4..][6..][4..]);
      FieldLength(pad, 0);
      assert b[4..][6..][4..] == [] && b[10..] == b[4..][6..] == [0, 0, 0, 0];
      assert b[4..10] == b[4..][..6] == END_MARK;
    } else {
      var rest := FirstBlock(es, level);
      Assoc(ByteBits(BLOCK_MARK), rest, m + w);
      Assoc(ByteBits(BLOCK_MARK), rest + (m + w), Bits(pad, 0));
      LeadingBytes(BLOCK_MARK, b[4..], rest + (m + w) + Bits(pad, 0));
      assert b[4..10] == b[4..][..6] == BLOCK_MARK;
    }
  }

  lemma ZeroSum()
    ensures WordOf(0) == 0
  {
  }

  lemma EmptyBlocks(level: nat)
    ensures AllSendable([], level) && BlocksBits([], level) == []
  {
  }

  /** The bytes of a finished stream: "BZh" and the level; the mark of a block, or at once the end mark and
      four zeros if nothing was taken in; last the end mark, the combined checksum and the padding. */
  lemma FinishedBytes(c: EState)
    requires c.Ready() && c.mode == Stopped
    ensures var b := c.Emitted();
            && |b| >= 10 && b[..4] == [0x42, 0x5a, 0x68, 0x30 + c.level]
            && b[4..10] == (if c.taken == [] then [0x17, 0x72, 0x45, 0x38, 0x50, 0x90] else [0x31, 0x41, 0x59, 0x26, 0x53, 0x59])
            && (c.taken == [] ==> b[10..] == [0, 0, 0, 0])
            && Closing(ByteBits(b), Combined(c.datas)) && Flat(c.datas) == c.taken
  {
    hide Complete, AllHold, AllSendable, ByteBits, Closing, Combined;
    assert c.writer.zbits[..c.stateOutPos] == c.writer.zbits;
    assert c.stage.Pending() == [];
    assert Flat(c.datas) + [] == Flat(c.datas);
    CompleteBytes(c.Emitted(), c.es, c.level, c.datas);
    FlatSome(c.es, c.level, c.datas);
  }
}

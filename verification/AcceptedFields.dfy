/** Reading back what BZ2_decompress (decompress.c) has taken: a field on the way to a delivered block is
    complete and was not refused; and so for the fields in front of a block. */
module AcceptedFields {
  import opened Basics
  import opened BitStrings
  import opened Permutations
  import opened Ranks
  import opened Canonical
  import opened Mtf
  import opened RunDigits
  import opened RunOverflow
  import opened Decoder
  import opened BlockFormat
  import opened TableFormat
  import BlockEncoding

  // --- One field ---

  /** The bits lead from d to a delivered block. */
  ghost predicate Comes(d: Dec, bits: seq<Bit>) {
    Valid(d) && Feed(d, bits).d.Output?
  }

  lemma {:induction false} BitsOfVal(b: seq<Bit>)
    ensures Bits(|b|, Val(b)) == b
    decreases |b|
  {
    if b != [] {
      BitsOfVal(b[..|b| - 1]);
      assert b == b[..|b| - 1] + [b[|b| - 1]];
    }
  }

  lemma OneFeed(d: Dec, bits: seq<Bit>)
    requires Valid(d)
    ensures !Waiting(d) || |bits| < Need(d) ==> Feed(d, bits).d == d
    ensures Waiting(d) && |bits| >= Need(d) ==>
              var n := Need(d); var v := Val(bits[..n]); v < Pow2(n) && n >= 1 && Feed(d, bits) == Feed(Step(d, v), bits[n..])
  {
    hide Step;
  }

  lemma StepValid(d: Dec, v: nat)
    requires Valid(d) && Waiting(d) && v < Pow2(Need(d))
    ensures Valid(Step(d, v)) && 1 <= Need(d)
  {
    hide Need;
  }

  lemma ComesIs(d: Dec, bits: seq<Bit>)
    ensures Comes(d, bits) <==> Valid(d) && Feed(d, bits).d.Output?
  {
    hide Feed, Valid;
  }

  lemma Halted(d: Dec)
    ensures d.Failed? || d.Idle? || d.Output? ==> !Waiting(d)
  {
  }

  /** A field that is on the way to a block is there, and is not refused. */
  lemma FieldOf(d: Dec, bits: seq<Bit>) returns (v: nat, rest: seq<Bit>)
    requires Comes(d, bits) && Waiting(d)
    ensures Valid(d) && v < Pow2(Need(d)) && bits == Bits(Need(d), v) + rest && |rest| < |bits|
    ensures Comes(Step(d, v), rest) && Feed(d, bits) == Feed(Step(d, v), rest) && !Step(d, v).Failed? && !Step(d, v).Idle?
  {
    hide *;
    ComesIs(d, bits);
    OneFeed(d, bits);
    Halted(d);
    var n := Need(d);
    v, rest := Val(bits[..n]), bits[n..];
    BitsOfVal(bits[..n]);
    assert bits == bits[..n] + bits[n..];
    StepValid(d, v);
    OneFeed(Step(d, v), rest);
    ComesIs(Step(d, v), rest);
    Halted(Step(d, v));
  }

  lemma BitOfField(d: Dec, bits: seq<Bit>) returns (b: bool, rest: seq<Bit>)
    requires Comes(d, bits) && Waiting(d) && Valid(d) && Need(d) == 1
    ensures bits == [BitOf(b)] + rest && |rest| < |bits| && BitOf(b) < Pow2(1)
    ensures Comes(Step(d, BitOf(b)), rest) && Feed(d, bits) == Feed(Step(d, BitOf(b)), rest)
    ensures !Step(d, BitOf(b)).Failed? && !Step(d, BitOf(b)).Idle?
  {
    hide *;
    var v;
    v, rest := FieldOf(d, bits);
    OneBit(v);
    b := v == 1;
    BitOfIs(b);
  }

  lemma BitOfIs(b: bool)
    ensures BitOf(b) == if b then 1 else 0
  {
  }

  lemma OneBit(v: nat)
    requires v < Pow2(1)
    ensures v < 2 && Pow2(1) == 2 && Bits(1, v) == [v]
  {
    assert Pow2(1) == 2 * Shl(1, 0);
    assert Bits(0, v / 2) == [];
  }

  // --- The front: mark, checksum, the randomised bit, the original row ---

  function FrontText(crc: Word, orig: nat): (r: seq<Bit>) {
    ByteBits([0x31, 0x41, 0x59, 0x26, 0x53, 0x59]) + Bits(32, crc) + [0] + Bits(24, orig)
  }

  lemma TextIsFront(crc: Word, orig: nat, level: nat)
    requires 1 <= level <= 9 && orig <= 10 + 100000 * level
    ensures Reads(BlkHdr(level, 1), FrontText(crc, orig), Mapping1(Head(level, crc, orig), []))
  {
    hide Reads, Bits, ByteBits;
    BlockEncoding.ReadsFront(BlockEncoding.Encoding(crc, orig, [], [], [], []), level);
  }

  lemma MarkStep1(level: nat, k: nat, v: nat)
    requires 1 <= level <= 9 && 1 <= k <= 6 && v < Pow2(8)
    ensures var d := BlkHdr(level, k);
            Valid(d) && Waiting(d) && Need(d) == 8 && v < 256
            && Step(d, v) == if k == 1 && v == 0x17 then EndHdr(level, 2) else if v != BLOCK_MARK[k - 1] then Failed(DataError)
                             else if k < 6 then BlkHdr(level, k + 1) else BCrc(level, 1, 0)
  {
    ShiftsUsed(1);
  }

  lemma MarkBytes()
    ensures BLOCK_MARK == [0x31, 0x41, 0x59, 0x26, 0x53, 0x59]
  {
  }

  lemma EndSteps(level: nat, k: nat, v: nat)
    requires 1 <= level <= 9 && 2 <= k <= 6 && v < Pow2(8)
    ensures var d := EndHdr(level, k);
            Valid(d) && Waiting(d) && Need(d) == 8
            && (Step(d, v).Failed? || Step(d, v) == if k < 6 then EndHdr(level, k + 1) else CCrc(level, 1, 0))
  {
    hide Shl;
  }

  lemma SumSteps(level: nat, k: nat, crc: nat, v: nat)
    requires Valid(CCrc(level, k, crc)) && v < Pow2(8)
    ensures var d := CCrc(level, k, crc);
            Waiting(d) && Need(d) == 8 && Step(d, v) == if k < 4 then CCrc(level, k + 1, 256 * crc + v) else Idle(256 * crc + v)
  {
    hide Shl;
  }

  lemma CrcSteps(level: nat, k: nat, crc: nat, v: nat)
    requires Valid(BCrc(level, k, crc)) && v < Pow2(8)
    ensures var d := BCrc(level, k, crc);
            crc < Pow2(8 * (k - 1)) && 1 <= k <= 4 && Waiting(d) && Need(d) == 8
            && Step(d, v) == if k < 4 then BCrc(level, k + 1, 256 * crc + v) else RandBit(level, 256 * crc + v)
    ensures k == 4 ==> 256 * crc + v < 0x1_0000_0000
  {
    CrcByte(k, crc, v);
    hide Shl;
  }

  lemma OrigSteps(level: nat, crc: nat, k: nat, orig: nat, v: nat)
    requires Valid(OrigPtr(level, crc, k, orig)) && v < Pow2(8)
    ensures var d := OrigPtr(level, crc, k, orig);
            Waiting(d) && Need(d) == 8
            && (if k < 3 then Step(d, v) == OrigPtr(level, crc, k + 1, 256 * orig + v)
                else if 256 * orig + v > 10 + 100000 * level then Step(d, v) == Failed(DataError)
                else crc < 0x1_0000_0000 && Step(d, v) == Mapping1(Head(level, crc, 256 * orig + v), []))
  {
    hide Shl;
  }

  lemma RandSteps(level: nat, crc: nat)
    requires Valid(RandBit(level, crc))
    ensures Waiting(RandBit(level, crc)) && Need(RandBit(level, crc)) == 1 && Pow2(1) == 2 && 1 <= level <= 9
    ensures Step(RandBit(level, crc), 1) == Failed(Randomised) && Step(RandBit(level, crc), 0) == OrigPtr(level, crc, 1, 0)
  {
    assert Shl(1, 0) == 1;
  }

  lemma Kinds(level: nat, k: nat, crc: nat)
    ensures Waiting(BlkHdr(level, k)) && Waiting(EndHdr(level, k)) && Waiting(CCrc(level, k, crc)) && Waiting(BCrc(level, k, crc))
    ensures Valid(BlkHdr(level, k)) ==> 1 <= level <= 9 && 1 <= k <= 6 && Need(BlkHdr(level, k)) == 8
    ensures Valid(EndHdr(level, k)) ==> 1 <= level <= 9 && 2 <= k <= 6 && Need(EndHdr(level, k)) == 8
    ensures Valid(CCrc(level, k, crc)) ==> 1 <= level <= 9 && 1 <= k <= 4 && Need(CCrc(level, k, crc)) == 8
    ensures Valid(BCrc(level, k, crc)) ==> 1 <= level <= 9 && 1 <= k <= 4 && Need(BCrc(level, k, crc)) == 8
    ensures forall orig :: Waiting(OrigPtr(level, crc, k, orig))
    ensures forall orig :: Valid(OrigPtr(level, crc, k, orig)) ==> Need(OrigPtr(level, crc, k, orig)) == 8 && 1 <= k <= 3
  {
  }

  lemma {:induction false} MarkOf(level: nat, k: nat, bits: seq<Bit>) returns (rest: seq<Bit>)
    requires 1 <= k <= 6 && Comes(BlkHdr(level, k), bits)
    ensures bits == ByteBits(BLOCK_MARK[k - 1..]) + rest && |rest| < |bits|
    ensures Comes(BCrc(level, 1, 0), rest) && Feed(BlkHdr(level, k), bits) == Feed(BCrc(level, 1, 0), rest)
    decreases 7 - k
  {
    hide *;
    MarkBytes();
    Kinds(level, k, 0);
    var v;
    ComesIs(BlkHdr(level, k), bits);
    v, rest := FieldOf(BlkHdr(level, k), bits);
    MarkStep1(level, k, v);
    ComesIs(EndHdr(level, 2), rest);
    if k == 1 && v == 0x17 { NoBlockBehind(level, 2, rest); }
    assert v == BLOCK_MARK[k - 1];
    if k < 6 {
      var next := rest;
      rest := MarkOf(level, k + 1, next);
      assert BLOCK_MARK[k - 1..] == [v] + BLOCK_MARK[k..];
      ByteBitsConcat([v], BLOCK_MARK[k..]);
      SingleByte(v);
      Assoc(Bits(8, v), ByteBits(BLOCK_MARK[k..]), rest);
    } else {
      assert BLOCK_MARK[5..] == [v];
      SingleByte(v);
    }
  }

  lemma SingleByte(v: Byte)
    ensures ByteBits([v]) == Bits(8, v)
  {
    assert ByteBits([]) == [] && [v][..0] == [];
    assert [] + Bits(8, v) == Bits(8, v);
  }

  /** Behind the first byte of the end mark there is no block. */
  lemma {:induction false} NoBlockBehind(level: nat, k: nat, bits: seq<Bit>)
    requires 2 <= k <= 6 && Valid(EndHdr(level, k))
    ensures !Comes(EndHdr(level, k), bits)
    decreases 7 - k
  {
    hide *;
    Kinds(level, k, 0);
    if Comes(EndHdr(level, k), bits) {
      var v, rest := FieldOf(EndHdr(level, k), bits);
      EndSteps(level, k, v);
      ComesIs(Step(EndHdr(level, k), v), rest);
      if k < 6 { NoBlockBehind(level, k + 1, rest); } else { NoBlockEnds(level, 1, 0, rest); }
    }
  }

  lemma {:induction false} NoBlockEnds(level: nat, k: nat, crc: nat, bits: seq<Bit>)
    requires 1 <= k <= 4 && Valid(CCrc(level, k, crc))
    ensures !Comes(CCrc(level, k, crc), bits)
    decreases 5 - k
  {
    hide *;
    Kinds(level, k, crc);
    if Comes(CCrc(level, k, crc), bits) {
      var v, rest := FieldOf(CCrc(level, k, crc), bits);
      SumSteps(level, k, crc, v);
      ComesIs(Step(CCrc(level, k, crc), v), rest);
      if k < 4 { NoBlockEnds(level, k + 1, 256 * crc + v, rest); }
    }
  }

  /** The rest of a field that is read byte by byte. */
  lemma JoinBytes(k: nat, hi: nat, v: nat)
    requires hi < Pow2(8 * k) && v < Pow2(8)
    ensures Bits(8 * (k + 1), 256 * hi + v) == Bits(8 * k, hi) + Bits(8, v) && 256 * hi + v < Pow2(8 * (k + 1))
  {
    Shl8(hi);
    BitsConcat(8 * k, hi, 8, v);
  }

  lemma {:induction false} CrcOf(level: nat, k: nat, crc: nat, bits: seq<Bit>) returns (c: Word, rest: seq<Bit>)
    requires 1 <= k <= 4 && Comes(BCrc(level, k, crc), bits)
    ensures Bits(8 * (k - 1), crc) + bits == Bits(32, c) + rest && |rest| < |bits|
    ensures Comes(RandBit(level, c), rest) && Feed(BCrc(level, k, crc), bits) == Feed(RandBit(level, c), rest)
    decreases 5 - k
  {
    hide *;
    Kinds(level, k, crc);
    ComesIs(BCrc(level, k, crc), bits);
    var v, next := FieldOf(BCrc(level, k, crc), bits);
    CrcSteps(level, k, crc, v);
    JoinBytes(k - 1, crc, v);
    Assoc(Bits(8 * (k - 1), crc), Bits(8, v), next);
    if k < 4 {
      c, rest := CrcOf(level, k + 1, 256 * crc + v, next);
    } else {
      c, rest := 256 * crc + v, next;
    }
  }

  lemma {:induction false} OrigOf(level: nat, crc: Word, k: nat, orig: nat, bits: seq<Bit>) returns (o: nat, rest: seq<Bit>)
    requires 1 <= k <= 3 && Comes(OrigPtr(level, crc, k, orig), bits) && orig < Pow2(8 * (k - 1))
    ensures o <= 10 + 100000 * level && Bits(8 * (k - 1), orig) + bits == Bits(24, o) + rest && |rest| < |bits|
    ensures Comes(Mapping1(Head(level, crc, o), []), rest)
    ensures Feed(OrigPtr(level, crc, k, orig), bits) == Feed(Mapping1(Head(level, crc, o), []), rest)
    decreases 4 - k
  {
    hide *;
    Kinds(level, k, crc);
    ComesIs(OrigPtr(level, crc, k, orig), bits);
    var v, next := FieldOf(OrigPtr(level, crc, k, orig), bits);
    OrigSteps(level, crc, k, orig, v);
    JoinBytes(k - 1, orig, v);
    Assoc(Bits(8 * (k - 1), orig), Bits(8, v), next);
    if k < 3 {
      o, rest := OrigOf(level, crc, k + 1, 256 * orig + v, next);
    } else {
      o, rest := 256 * orig + v, next;
    }
  }

  lemma FrontOf(level: nat, bits: seq<Bit>) returns (crc: Word, orig: nat, rest: seq<Bit>)
    requires Comes(BlkHdr(level, 1), bits)
    ensures 1 <= level <= 9 && orig <= 10 + 100000 * level && bits == FrontText(crc, orig) + rest && |rest| < |bits|
    ensures Comes(Mapping1(Head(level, crc, orig), []), rest)
    ensures Feed(BlkHdr(level, 1), bits) == Feed(Mapping1(Head(level, crc, orig), []), rest)
  {
    hide *;
    MarkBytes();
    Kinds(level, 1, 0);
    ComesIs(BlkHdr(level, 1), bits);
    var r1 := MarkOf(level, 1, bits);
    assert BLOCK_MARK[0..] == BLOCK_MARK;
    var r2, b, r3;
    crc, r2 := CrcOf(level, 1, 0, r1);
    ComesIs(RandBit(level, crc), r2);
    RandSteps(level, crc);
    b, r3 := BitOfField(RandBit(level, crc), r2);
    BitOfIs(b);
    NothingRead(r1);
    NothingRead(r3);
    orig, rest := OrigOf(level, crc, 1, 0, r3);
    FrontIs(crc, orig);
    var m := ByteBits(BLOCK_MARK);
    Assoc4(m, Bits(32, crc), [0], r3);
    Assoc(m + Bits(32, crc) + [0], Bits(24, orig), rest);
    Assoc(m, Bits(32, crc), r2);
    Assoc(m + Bits(32, crc), [0], r3);
  }

  lemma FrontIs(crc: Word, orig: nat)
    ensures FrontText(crc, orig) == ByteBits(BLOCK_MARK) + Bits(32, crc) + [0] + Bits(24, orig)
  {
    hide ByteBits, Bits;
  }

  lemma NothingRead(bits: seq<Bit>)
    ensures Bits(8 * (1 - 1), 0) + bits == bits && 0 < Pow2(8 * (1 - 1))
  {
    assert Bits(0, 0) == [];
    assert [] + bits == bits;
  }
}

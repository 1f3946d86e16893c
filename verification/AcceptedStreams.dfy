/** Exactly which byte strings BZ2_bzDecompress (bzlib.c) takes for a whole stream, where a stream without
    the right header is refused, and what the first and last bytes of a finished stream are. */
module AcceptedStreams {
  import opened Basics
  import opened BitStrings
  import opened Permutations
  import opened Canonical
  import opened Mtf
  import opened RunLength
  import opened BlockCrc
  import opened Decoder
  import opened BlockFormat
  import opened StreamFormat
  import opened AcceptedFields
  import opened AcceptedBlocks
  import opened DecompressStream
  import BlockEncoding

  // --- One field, wherever the bits lead ---

  /** The machine does not ask for more. */
  ghost predicate Settled(d: Dec, bits: seq<Bit>) {
    Valid(d) && !Waiting(Feed(d, bits).d)
  }

  lemma SettledIs(d: Dec, bits: seq<Bit>)
    ensures Settled(d, bits) <==> Valid(d) && !Waiting(Feed(d, bits).d)
  {
    hide Feed, Valid;
  }

  lemma FieldTaken(d: Dec, bits: seq<Bit>) returns (v: nat, rest: seq<Bit>)
    requires Settled(d, bits) && Waiting(d)
    ensures Valid(d) && v < Pow2(Need(d)) && bits == Bits(Need(d), v) + rest && |rest| < |bits|
    ensures Settled(Step(d, v), rest) && Feed(d, bits) == Feed(Step(d, v), rest)
    ensures !Waiting(Step(d, v)) ==> Feed(d, bits).d == Step(d, v)
  {
    hide *;
    SettledIs(d, bits);
    OneFeed(d, bits);
    var n := Need(d);
    v, rest := Val(bits[..n]), bits[n..];
    BitsOfVal(bits[..n]);
    assert bits == bits[..n] + bits[n..];
    StepValid(d, v);
    OneFeed(Step(d, v), rest);
    SettledIs(Step(d, v), rest);
  }

  // --- Where the machine cannot get to ---

  /** Past the magic bytes. */
  predicate PastMagic(d: Dec) {
    !d.Magic? && d != Failed(DataErrorMagic)
  }

  /** Past the first byte of a block's mark, and not at a trailer. */
  predicate InBlock(d: Dec) {
    PastMagic(d) && !d.EndHdr? && !d.CCrc? && !d.Idle? && (d.BlkHdr? ==> d.k >= 2)
  }

  lemma MarkKinds(d: Dec, v: nat)
    requires Valid(d) && InMarks(d) && v < Pow2(Need(d))
    ensures PastMagic(d) ==> PastMagic(MarkStep(d, v))
    ensures InBlock(d) ==> InBlock(MarkStep(d, v))
  {
    hide Shl;
  }

  lemma MapKinds(d: Dec, v: nat)
    requires Valid(d) && InMaps(d)
    ensures InBlock(MapStep(d, v))
  {
    hide Shl, SelectorsOf;
    if d.Mapping1? && |d.used16| == 15 { MappingKinds(d.head, d.used16 + [v == 1], []); }
    if d.Mapping2? { MappingKinds(d.head, d.used16, d.inUse + [v == 1]); }
  }

  lemma {:induction false} MappingKinds(h: Head, used16: seq<bool>, inUse: seq<bool>)
    requires HeadOk(h) && |used16| == 16 && |inUse| <= 256
    ensures InBlock(NextMapping(h, used16, inUse))
    decreases 256 - |inUse|
  {
    hide UsedBytes;
    if |inUse| < 256 && |inUse| % 16 == 0 && !used16[|inUse| / 16] { MappingKinds(h, used16, inUse + seq(16, _ => false)); }
  }

  lemma CodingKinds(d: Dec, v: nat)
    requires Valid(d) && (d.Coding1? || d.Coding2? || d.Coding3?)
    ensures InBlock(CodingStep(d, v))
  {
    hide CodingOk, MakeTable, BodyOk;
  }

  lemma SymbolKinds(b: Body, groupNo: nat, groupPos: nat, sym: int)
    requires BodyOk(b) && groupNo < |b.selector| && groupPos < 50 && 0 <= sym <= |b.used| + 1
    ensures InBlock(Symbol(b, groupNo, groupPos, sym))
  {
  }

  lemma CodeKinds(b: Body, groupNo: nat, groupPos: nat, zn: nat, zvec: nat)
    requires BodyOk(b) && groupNo < |b.selector| && groupPos < 50 && 1 <= zn <= 21
    ensures InBlock(CheckCode(b, groupNo, groupPos, zn, zvec))
  {
    hide Symbol, BodyOk;
    var t := TableFor(b, groupNo);
    if zn <= 20 && zvec <= t.limit[zn] && 0 <= zvec - t.base[zn] < 258 { SymbolKinds(b, groupNo, groupPos, t.perm[zvec - t.base[zn]]); }
  }

  lemma StepKinds(d: Dec, v: nat)
    requires Valid(d) && Waiting(d) && v < Pow2(Need(d))
    ensures PastMagic(d) ==> PastMagic(Step(d, v))
    ensures InBlock(d) ==> InBlock(Step(d, v))
  {
    hide CheckCode, BodyOk, MarkStep, MapStep, CodingStep, Shl;
    if InMarks(d) { MarkKinds(d, v); }
    else if InMaps(d) { MapKinds(d, v); }
    else if d.MtfFirst? { CodeKinds(d.body, d.groupNo, d.groupPos, TableFor(d.body, d.groupNo).minLen, v); }
    else if d.MtfMore? { CodeKinds(d.body, d.groupNo, d.groupPos, d.zn, 2 * d.zvec + v); }
    else { CodingKinds(d, v); }
  }

  lemma {:induction false} FeedKinds(d: Dec, bits: seq<Bit>)
    requires Valid(d)
    ensures PastMagic(d) ==> PastMagic(Feed(d, bits).d)
    ensures InBlock(d) ==> InBlock(Feed(d, bits).d)
    decreases |bits|
  {
    hide PastMagic, InBlock, Step, Need;
    if Waiting(d) && |bits| >= Need(d) {
      StepKinds(d, Val(bits[..Need(d)]));
      FeedKinds(Step(d, Val(bits[..Need(d)])), bits[Need(d)..]);
    }
  }

  lemma {:induction false} NoMagicError(d: Dec, bits: seq<Bit>, combined: bv32)
    requires Valid(d) && PastMagic(d)
    ensures DecodeBits(d, bits, combined).verdict != StreamFormat.Error(DataErrorMagic)
    decreases |bits|, if d.Output? then 1 else 0
  {
    hide *;
    var f := Feed(d, bits);
    ByState(d, bits, combined);
    FeedKinds(d, bits);
    FeedProgress(d, bits);
    FeedStays(d, bits);
    StateKinds(f.d);
    KindsOf(f.d);
    if f.d.Output? {
      OutputOk(f.d);
      AfterText(f.d, f.rest, combined);
      BoundaryKinds(f.d.head.level, f.d.head.level);
      NoMagicError(BlkHdr(f.d.head.level, 1), f.rest, Combine(combined, Crc(BlockText(f.d.col, f.d.head.orig).bytes)));
    }
  }

  lemma KindsOf(d: Dec)
    ensures PastMagic(d) && d.Failed? ==> d.error != DataErrorMagic
    ensures InBlock(d) ==> !d.Idle?
  {
  }

  lemma BoundaryKinds(level: nat, l: nat)
    ensures PastMagic(BlkHdr(level, 1)) && Waiting(BlkHdr(level, 1)) && Waiting(Magic(l))
  {
  }

  // --- The header ---

  /** The byte at i cannot stand in a header. */
  predicate WrongAt(b: seq<Byte>, i: nat)
    requires i < |b|
  {
    if i == 0 then b[i] != 0x42
    else if i == 1 then b[i] != 0x5a
    else if i == 2 then b[i] != 0x68
    else i == 3 && !(0x31 <= b[i] <= 0x39)
  }

  lemma HeaderSteps(k: nat, v: Byte)
    requires 1 <= k <= 4
    ensures var d := Magic(k);
            Valid(d) && Waiting(d) && Need(d) == 8 && v < Pow2(8)
            && Step(d, v) == if (if k == 1 then v != 0x42 else if k == 2 then v != 0x5a else if k == 3 then v != 0x68 else !(0x31 <= v <= 0x39))
                             then Failed(DataErrorMagic)
                             else if k < 4 then Magic(k + 1) else BlkHdr(v - 0x30, 1)
  {
    ShiftsUsed(1);
    hide Shl;
  }

  /** Reading a byte of the input. */
  lemma OneByte(d: Dec, b: seq<Byte>, combined: bv32)
    requires Valid(d) && Waiting(d) && Need(d) == 8 && b != []
    ensures b[0] < Pow2(8) && DecodeBits(d, ByteBits(b), combined) == DecodeBits(Step(d, b[0]), ByteBits(b[1..]), combined)
  {
    hide *;
    ByteFits(b[0]);
    assert b == [b[0]] + b[1..];
    ByteBitsConcat([b[0]], b[1..]);
    SingleByte(b[0]);
    StepValid(d, b[0]);
    FeedField(d, 8, b[0], ByteBits(b[1..]));
    SameFeed(d, ByteBits(b), Step(d, b[0]), ByteBits(b[1..]), combined);
  }

  lemma ByteFits(v: Byte)
    ensures v < Pow2(8)
  {
    ShiftsUsed(1);
  }

  lemma NoByte(d: Dec, combined: bv32)
    requires Valid(d) && Waiting(d) && Need(d) == 8
    ensures DecodeBits(d, ByteBits([]), combined).verdict.More?
  {
    hide Step;
  }

  lemma Refused(e: Decoder.Error, bits: seq<Bit>, combined: bv32)
    ensures Valid(Failed(e)) && DecodeBits(Failed(e), bits, combined) == Decoding([], StreamFormat.Error(e))
  {
    FeedStays(Failed(e), bits);
    hide Feed;
  }

  lemma {:induction false} HeaderWalk(b: seq<Byte>, k: nat)
    requires 1 <= k <= 4 && k - 1 <= |b|
    ensures DecodeBits(Magic(k), ByteBits(b[k - 1..]), 0).verdict == StreamFormat.Error(DataErrorMagic)
       <==> exists i: nat :: k - 1 <= i < 4 && i < |b| && WrongAt(b, i)
    ensures 4 <= |b| && (forall i: nat :: k - 1 <= i < 4 ==> !WrongAt(b, i)) ==>
              0x31 <= b[3] <= 0x39 && Valid(BlkHdr(b[3] - 0x30, 1))
              && DecodeBits(Magic(k), ByteBits(b[k - 1..]), 0) == DecodeBits(BlkHdr(b[3] - 0x30, 1), ByteBits(b[4..]), 0)
    decreases 4 - k
  {
    hide ByteBits, DecodeBits, Step, Valid, Need, Shl;
    var rest := b[k - 1..];
    HeaderSteps(k, 0);
    if rest == [] {
      NoByte(Magic(k), 0);
    } else {
      var v := b[k - 1];
      HeaderSteps(k, v);
      OneByte(Magic(k), rest, 0);
      assert rest[1..] == b[k..];
      if WrongAt(b, k - 1) {
        Refused(DataErrorMagic, ByteBits(b[k..]), 0);
      } else if k < 4 {
        HeaderWalk(b, k + 1);
      } else {
        StepValid(Magic(4), v);
        BoundaryKinds(v - 0x30, 1);
        NoMagicError(BlkHdr(v - 0x30, 1), ByteBits(b[4..]), 0);
      }
    }
  }

  /** BZ_DATA_ERROR_MAGIC, exactly: the first bytes are not "BZh" and a digit from 1 to 9, as far as they
      are there. Otherwise decoding goes on behind the header. */
  lemma HeaderExactly(b: seq<Byte>)
    ensures Decoded(b).verdict == StreamFormat.Error(DataErrorMagic)
       <==> (|b| >= 1 && b[0] != 0x42) || (|b| >= 2 && b[1] != 0x5a) || (|b| >= 3 && b[2] != 0x68)
            || (|b| >= 4 && !(0x31 <= b[3] <= 0x39))
    ensures |b| >= 4 && b[..3] == [0x42, 0x5a, 0x68] && 0x31 <= b[3] <= 0x39 ==>
              Valid(BlkHdr(b[3] - 0x30, 1)) && Decoded(b) == DecodeBits(BlkHdr(b[3] - 0x30, 1), ByteBits(b[4..]), 0)
  {
    hide ByteBits, DecodeBits, Valid;
    assert b[0..] == b;
    HeaderWalk(b, 1);
    WrongPlaces(b);
    if |b| >= 4 && b[..3] == [0x42, 0x5a, 0x68] {
      assert b[0] == b[..3][0] && b[1] == b[..3][1] && b[2] == b[..3][2];
    }
  }

  lemma WrongPlaces(b: seq<Byte>)
    ensures (exists i: nat :: 0 <= i < 4 && i < |b| && WrongAt(b, i))
       <==> (|b| >= 1 && b[0] != 0x42) || (|b| >= 2 && b[1] != 0x5a) || (|b| >= 3 && b[2] != 0x68)
            || (|b| >= 4 && !(0x31 <= b[3] <= 0x39))
  {
    assert |b| >= 1 ==> (WrongAt(b, 0) <==> b[0] != 0x42);
    assert |b| >= 2 ==> (WrongAt(b, 1) <==> b[1] != 0x5a);
    assert |b| >= 3 ==> (WrongAt(b, 2) <==> b[2] != 0x68);
    assert |b| >= 4 ==> (WrongAt(b, 3) <==> !(0x31 <= b[3] <= 0x39));
  }

  // --- The marks ---

  lemma EightBits(bits: seq<Bit>, n: nat) returns (v: Byte)
    requires |bits| >= 8 * n && n >= 1
    ensures bits == Bits(8, v) + bits[8..] && bits[..8 * n] == Bits(8, v) + bits[8..][..8 * n - 8] && v < Pow2(8)
  {
    ShiftsUsed(1);
    v := Val(bits[..8]);
    BitsOfVal(bits[..8]);
    hide Bits, Val, Shl;
    assert bits == bits[..8] + bits[8..];
  }

  lemma SameByte(v: Byte, w: Byte, a: seq<Bit>, b: seq<Bit>)
    ensures Bits(8, v) + a == Bits(8, w) + b ==> v == w && a == b
  {
    ShiftsUsed(1);
    ValBits(8, v);
    ValBits(8, w);
    if Bits(8, v) + a == Bits(8, w) + b {
      assert Bits(8, v) == (Bits(8, v) + a)[..8] == (Bits(8, w) + b)[..8] == Bits(8, w);
      assert a == (Bits(8, v) + a)[8..] == (Bits(8, w) + b)[8..] == b;
    }
  }

  lemma TailBytes(mark: seq<Byte>, k: nat)
    requires k < |mark|
    ensures ByteBits(mark[k..]) == Bits(8, mark[k]) + ByteBits(mark[k + 1..])
  {
    hide ByteBits, Bits;
    assert mark[k..] == [mark[k]] + mark[k + 1..];
    ByteBitsConcat([mark[k]], mark[k + 1..]);
    SingleByte(mark[k]);
  }

  lemma {:induction false} EndWalk(level: nat, k: nat, bits: seq<Bit>)
    requires 2 <= k <= 6 && 1 <= level <= 9 && |bits| >= 8 * (7 - k) && bits[..8 * (7 - k)] != ByteBits(END_MARK[k - 1..])
    ensures Valid(EndHdr(level, k)) && Feed(EndHdr(level, k), bits).d == Failed(DataError)
    decreases 7 - k
  {
    hide *;
    MarkLists();
    var v := EightBits(bits, 7 - k);
    EndByte(level, k, v);
    FeedField(EndHdr(level, k), 8, v, bits[8..]);
    TailBytes(END_MARK, k - 1);
    LastMark(END_MARK, bits[8..]);
    if v != END_MARK[k - 1] {
      FeedFailed(DataError, bits[8..]);
    } else if k < 6 {
      EndWalk(level, k + 1, bits[8..]);
    }
  }

  lemma LastMark(mark: seq<Byte>, bits: seq<Bit>)
    requires |mark| == 6
    ensures ByteBits(mark[6..]) == [] == bits[..0]
  {
  }

  lemma FeedFailed(e: Decoder.Error, bits: seq<Bit>)
    ensures Valid(Failed(e)) && Feed(Failed(e), bits).d == Failed(e)
  {
  }

  lemma MarkLists()
    ensures BLOCK_MARK == [0x31, 0x41, 0x59, 0x26, 0x53, 0x59] && END_MARK == [0x17, 0x72, 0x45, 0x38, 0x50, 0x90]
  {
  }

  lemma EndByte(level: nat, k: nat, v: nat)
    requires 1 <= level <= 9 && 2 <= k <= 6 && v < Pow2(8)
    ensures var d := EndHdr(level, k);
            Valid(d) && Waiting(d) && Need(d) == 8
            && Step(d, v) == if v != END_MARK[k - 1] then Failed(DataError) else if k < 6 then EndHdr(level, k + 1) else CCrc(level, 1, 0)
  {
    hide Shl;
  }

  lemma {:induction false} MarkWalk(level: nat, k: nat, bits: seq<Bit>)
    requires 1 <= k <= 6 && 1 <= level <= 9 && |bits| >= 8 * (7 - k) && bits[..8 * (7 - k)] != ByteBits(BLOCK_MARK[k - 1..])
    requires k == 1 ==> bits[..48] != ByteBits(END_MARK)
    ensures Valid(BlkHdr(level, k)) && Feed(BlkHdr(level, k), bits).d == Failed(DataError)
    decreases 7 - k
  {
    hide *;
    MarkLists();
    var v := EightBits(bits, 7 - k);
    MarkStep1(level, k, v);
    FeedField(BlkHdr(level, k), 8, v, bits[8..]);
    TailBytes(BLOCK_MARK, k - 1);
    LastMark(BLOCK_MARK, bits[8..]);
    if k == 1 && v == 0x17 {
      TailBytes(END_MARK, 0);
      assert END_MARK[0..] == END_MARK;
      EndWalk(level, 2, bits[8..]);
    } else if v != BLOCK_MARK[k - 1] {
      FeedFailed(DataError, bits[8..]);
    } else if k < 6 {
      MarkWalk(level, k + 1, bits[8..]);
    }
  }

  /** At every boundary of a block: 48 bits that are neither mark are refused. */
  lemma MarkRefused(level: nat, bits: seq<Bit>, combined: bv32)
    requires 1 <= level <= 9 && |bits| >= 48
    requires bits[..48] != ByteBits([0x31, 0x41, 0x59, 0x26, 0x53, 0x59]) && bits[..48] != ByteBits([0x17, 0x72, 0x45, 0x38, 0x50, 0x90])
    ensures Valid(BlkHdr(level, 1)) && DecodeBits(BlkHdr(level, 1), bits, combined) == Decoding([], StreamFormat.Error(DataError))
  {
    hide *;
    MarkLists();
    assert BLOCK_MARK[0..] == BLOCK_MARK;
    MarkWalk(level, 1, bits);
    ByState(BlkHdr(level, 1), bits, combined);
    FailedKind();
  }

  lemma FailedKind()
    ensures Failed(DataError).Failed?
  {
  }

  /** Behind a good header, six bytes that are neither mark are refused. */
  lemma FirstMarkRefused(b: seq<Byte>)
    requires |b| >= 10 && b[..3] == [0x42, 0x5a, 0x68] && 0x31 <= b[3] <= 0x39
    requires b[4..10] != [0x31, 0x41, 0x59, 0x26, 0x53, 0x59] && b[4..10] != [0x17, 0x72, 0x45, 0x38, 0x50, 0x90]
    ensures Decoded(b) == Decoding([], StreamFormat.Error(DataError))
  {
    hide *;
    HeaderExactly(b);
    BytesOfBits(b[4..10], [0x31, 0x41, 0x59, 0x26, 0x53, 0x59]);
    BytesOfBits(b[4..10], [0x17, 0x72, 0x45, 0x38, 0x50, 0x90]);
    assert b[4..] == b[4..10] + b[10..];
    ByteBitsConcat(b[4..10], b[10..]);
    BytesLength(b[4..10]);
    assert ByteBits(b[4..])[..48] == ByteBits(b[4..10]);
    MarkRefused(b[3] - 0x30, ByteBits(b[4..]), 0);
  }

  lemma {:induction false} BytesOfBits(a: seq<Byte>, b: seq<Byte>)
    requires |a| == |b|
    ensures ByteBits(a) == ByteBits(b) <==> a == b
    decreases |a|
  {
    hide Bits, ByteBits;
    if a != [] {
      TailBytes(a, 0);
      TailBytes(b, 0);
      assert a[0..] == a && b[0..] == b;
      SameByte(a[0], b[0], ByteBits(a[1..]), ByteBits(b[1..]));
      BytesOfBits(a[1..], b[1..]);
      if a[0] == b[0] && a[1..] == b[1..] { assert a == [a[0]] + a[1..] && b == [b[0]] + b[1..]; }
    }
  }

  // --- The trailer, and nothing else, ends a stream ---

  lemma {:induction false} EndMarkOf(level: nat, k: nat, bits: seq<Bit>) returns (rest: seq<Bit>)
    requires 2 <= k <= 6 && 1 <= level <= 9 && Settled(EndHdr(level, k), bits) && Feed(EndHdr(level, k), bits).d.Idle?
    ensures bits == ByteBits(END_MARK[k - 1..]) + rest && |rest| < |bits|
    ensures Settled(CCrc(level, 1, 0), rest) && Feed(EndHdr(level, k), bits) == Feed(CCrc(level, 1, 0), rest)
    decreases 7 - k
  {
    hide *;
    MarkLists();
    var v, next := EndField(level, k, bits);
    TailBytes(END_MARK, k - 1);
    LastMark(END_MARK, bits);
    if k < 6 {
      rest := EndMarkOf(level, k + 1, next);
      Assoc(Bits(8, v), ByteBits(END_MARK[k..]), rest);
    } else {
      rest := next;
      Assoc(Bits(8, v), [], rest);
      assert [] + rest == rest;
    }
  }

  lemma EndField(level: nat, k: nat, bits: seq<Bit>) returns (v: nat, next: seq<Bit>)
    requires 2 <= k <= 6 && 1 <= level <= 9 && Settled(EndHdr(level, k), bits) && Feed(EndHdr(level, k), bits).d.Idle?
    ensures v == END_MARK[k - 1] && bits == Bits(8, v) + next && |next| < |bits|
    ensures var d := if k < 6 then EndHdr(level, k + 1) else CCrc(level, 1, 0);
            Settled(d, next) && Feed(EndHdr(level, k), bits) == Feed(d, next)
  {
    hide *;
    EndByte0(level, k);
    v, next := FieldTaken(EndHdr(level, k), bits);
    EndByte(level, k, v);
    NotIdle();
  }

  lemma EndByte0(level: nat, k: nat)
    ensures Waiting(EndHdr(level, k))
    ensures Valid(EndHdr(level, k)) ==> Need(EndHdr(level, k)) == 8
    ensures |END_MARK| == 6
  {
  }

  lemma NotIdle()
    ensures !Failed(DataError).Idle? && !Waiting(Failed(DataError))
  {
  }

  lemma SumStep(level: nat, k: nat, crc: nat, v: nat)
    requires Valid(CCrc(level, k, crc)) && v < Pow2(8)
    ensures 1 <= k <= 4 && crc < Pow2(8 * (k - 1)) && (k == 4 ==> 256 * crc + v < 0x1_0000_0000)
    ensures Step(CCrc(level, k, crc), v) == if k < 4 then CCrc(level, k + 1, 256 * crc + v) else Idle(256 * crc + v)
  {
    CrcByte(k, crc, v);
    hide Shl;
  }

  lemma SumKinds(level: nat, k: nat, crc: nat)
    ensures Waiting(CCrc(level, k, crc)) && !Waiting(Idle(crc))
    ensures Valid(CCrc(level, k, crc)) ==> Need(CCrc(level, k, crc)) == 8 && 1 <= k <= 4 && crc < Pow2(8 * (k - 1))
  {
    hide Shl;
  }

  lemma {:induction false} SumOf(level: nat, k: nat, crc: nat, bits: seq<Bit>) returns (c: Word, rest: seq<Bit>)
    requires 1 <= k <= 4 && Settled(CCrc(level, k, crc), bits)
    ensures Bits(8 * (k - 1), crc) + bits == Bits(32, c) + rest && |rest| < |bits|
    ensures Feed(CCrc(level, k, crc), bits).d == Idle(c)
    decreases 5 - k
  {
    hide *;
    SettledIs(CCrc(level, k, crc), bits);
    SumKinds(level, k, crc);
    var v, next := FieldTaken(CCrc(level, k, crc), bits);
    SumStep(level, k, crc, v);
    JoinBytes(k - 1, crc, v);
    Assoc(Bits(8 * (k - 1), crc), Bits(8, v), next);
    if k < 4 {
      c, rest := SumOf(level, k + 1, 256 * crc + v, next);
    } else {
      c, rest := 256 * crc + v, next;
      SumKinds(level, k, c);
    }
  }

  lemma TrailerOf(level: nat, bits: seq<Bit>) returns (c: Word, rest: seq<Bit>)
    requires 1 <= level <= 9 && Settled(BlkHdr(level, 1), bits) && Feed(BlkHdr(level, 1), bits).d.Idle?
    ensures bits == ByteBits([0x17, 0x72, 0x45, 0x38, 0x50, 0x90]) + Bits(32, c) + rest
    ensures Feed(BlkHdr(level, 1), bits).d == Idle(c)
  {
    hide *;
    MarkLists();
    BoundaryNeeds(level);
    var v, r1 := FieldTaken(BlkHdr(level, 1), bits);
    MarkStep1(level, 1, v);
    if v != 0x17 {
      StepInBlock(level, v);
      SettledIs(Step(BlkHdr(level, 1), v), r1);
      FeedKinds(Step(BlkHdr(level, 1), v), r1);
      KindsOf(Feed(Step(BlkHdr(level, 1), v), r1).d);
      assert false;
    }
    var r2 := EndMarkOf(level, 2, r1);
    NothingRead(r2);
    c, rest := SumOf(level, 1, 0, r2);
    TailBytes(END_MARK, 0);
    assert END_MARK[0..] == END_MARK;
    Assoc(Bits(8, v), ByteBits(END_MARK[1..]), r2);
    Assoc(ByteBits(END_MARK), Bits(32, c), rest);
  }

  lemma BoundaryNeeds(level: nat)
    ensures Waiting(BlkHdr(level, 1)) && (Valid(BlkHdr(level, 1)) ==> Need(BlkHdr(level, 1)) == 8)
  {
  }

  lemma StepInBlock(level: nat, v: nat)
    requires 1 <= level <= 9 && v < Pow2(8) && v != 0x17
    ensures Valid(BlkHdr(level, 1)) && Waiting(BlkHdr(level, 1)) && v < Pow2(Need(BlkHdr(level, 1))) && InBlock(Step(BlkHdr(level, 1), v))
  {
    hide Shl;
  }

  // --- Whole streams ---

  /** A layout whose block carries the given bytes, under their own checksum. */
  ghost predicate Carries(l: Layout, level: nat, data: seq<Byte>) {
    && Legal(l, level) && l.orig < |ColumnOfLayout(l, level)|
    && BlockText(ColumnOfLayout(l, level), l.orig) == Expansion(data, false) && l.crc == WordOf(Crc(data))
  }

  ghost predicate AllCarry(ls: seq<Layout>, level: nat, datas: seq<seq<Byte>>) {
    |ls| == |datas| && forall k :: 0 <= k < |ls| ==> Carries(ls[k], level, datas[k])
  }

  ghost function Texts(ls: seq<Layout>): (r: seq<Bit>) {
    if ls == [] then [] else Text(ls[0]) + Texts(ls[1..])
  }

  /** A stream as it is written, whatever stands behind it: the four bytes of the header, the blocks, the end
      mark and the combined checksum of the blocks. */
  ghost predicate Written(b: seq<Byte>, level: nat, ls: seq<Layout>, datas: seq<seq<Byte>>) {
    && 1 <= level <= 9 && AllCarry(ls, level, datas) && |b| >= 4 && b[..4] == [0x42, 0x5a, 0x68, 0x30 + level]
    && exists pad: seq<Bit> ::
         ByteBits(b[4..]) == Texts(ls) + (ByteBits([0x17, 0x72, 0x45, 0x38, 0x50, 0x90]) + Bits(32, WordOf(Combined(datas))) + pad)
  }

  lemma LayoutDecodes(l: Layout, level: nat, data: seq<Byte>, after: seq<Bit>, c: bv32)
    requires 1 <= level <= 9 && Carries(l, level, data)
    ensures Valid(BlkHdr(level, 1))
    ensures DecodeBits(BlkHdr(level, 1), Text(l) + after, c) == Behind(data, DecodeBits(BlkHdr(level, 1), after, Combine(c, Crc(data))))
  {
    hide Reads, Text, DecodeBits, WordOf, Crc, Combine, Legal, BlockText, ColumnOfLayout;
    var last := Output(Head(level, l.crc, l.orig), ColumnOfLayout(l, level));
    LayoutIsRead(l, level);
    ReadsValid(BlkHdr(level, 1), Text(l), last);
    DecodeReads(BlkHdr(level, 1), Text(l), last, after, c);
    DecodeOutput(last, after, c, data);
  }

  lemma ReadsValid(d: Dec, bits: seq<Bit>, e: Dec)
    requires Reads(d, bits, e)
    ensures Valid(d) && Valid(e) && Feed(d, bits + []) == Feed(e, [])
  {
  }

  lemma {:induction false} LayoutsDecode(ls: seq<Layout>, level: nat, datas: seq<seq<Byte>>, done: seq<seq<Byte>>, tail: seq<Bit>)
    requires 1 <= level <= 9 && AllCarry(ls, level, datas)
    ensures Valid(BlkHdr(level, 1))
    ensures DecodeBits(BlkHdr(level, 1), Texts(ls) + tail, Combined(done))
         == Behind(Flat(datas), DecodeBits(BlkHdr(level, 1), tail, Combined(done + datas)))
    decreases |ls|
  {
    hide Text, DecodeBits, Crc, Combine, Carries, Combined;
    if ls == [] {
      assert done + datas == done && Texts(ls) + tail == tail;
      EmptyBehind(DecodeBits(BlkHdr(level, 1), tail, Combined(done)));
    } else {
      LayoutDecodes(ls[0], level, datas[0], Texts(ls[1..]) + tail, Combined(done));
      CombinedAppend(done, datas[0]);
      assert done + datas == done + [datas[0]] + datas[1..];
      LayoutsDecode(ls[1..], level, datas[1..], done + [datas[0]], tail);
      Assoc(Text(ls[0]), Texts(ls[1..]), tail);
      BehindBehind(datas[0], Flat(datas[1..]), DecodeBits(BlkHdr(level, 1), tail, Combined(done + datas)));
    }
  }

  lemma EmptyBehind(r: Decoding)
    ensures Behind([], r) == r
  {
    assert [] + r.out == r.out;
  }

  /** Every written stream is taken, and decodes to its bytes. */
  lemma WrittenDecodes(b: seq<Byte>, level: nat, ls: seq<Layout>, datas: seq<seq<Byte>>)
    requires Written(b, level, ls, datas)
    ensures Decoded(b) == Decoding(Flat(datas), End)
  {
    hide Text, DecodeBits, Combined, Texts, WordOf, Bits, AllCarry, Valid;
    var pad: seq<Bit> :|
      ByteBits(b[4..]) == Texts(ls) + (ByteBits([0x17, 0x72, 0x45, 0x38, 0x50, 0x90]) + Bits(32, WordOf(Combined(datas))) + pad);
    assert b[..3] == b[..4][..3] && b[3] == b[..4][3];
    hide ByteBits;
    HeaderExactly(b);
    TrailerIs(Combined(datas));
    LayoutsDecode(ls, level, datas, [], BlockEncoding.TrailerBits(WordOf(Combined(datas))) + pad);
    assert [] + datas == datas;
    TrailerDecodes(level, Combined(datas), pad);
    NoBlocks();
    assert Flat(datas) + [] == Flat(datas);
  }

  lemma TrailerIs(c: bv32)
    ensures BlockEncoding.TrailerBits(WordOf(c)) == ByteBits([0x17, 0x72, 0x45, 0x38, 0x50, 0x90]) + Bits(32, WordOf(c))
  {
    hide ByteBits, Bits, WordOf;
  }

  /** What ends well is written so. */
  lemma {:induction false} LayoutsOf(level: nat, bits: seq<Bit>, done: seq<seq<Byte>>)
    returns (ls: seq<Layout>, datas: seq<seq<Byte>>, pad: seq<Bit>)
    requires 1 <= level <= 9 && Valid(BlkHdr(level, 1)) && DecodeBits(BlkHdr(level, 1), bits, Combined(done)).verdict == End
    ensures AllCarry(ls, level, datas)
    ensures bits == Texts(ls) + (ByteBits([0x17, 0x72, 0x45, 0x38, 0x50, 0x90]) + Bits(32, WordOf(Combined(done + datas))) + pad)
    decreases |bits|
  {
    hide *;
    var d := BlkHdr(level, 1);
    var f := Feed(d, bits);
    ByState(d, bits, Combined(done));
    StateKinds(f.d);
    SettledIs(d, bits);
    ComesIs(d, bits);
    if f.d.Idle? {
      var c;
      c, pad := TrailerOf(level, bits);
      ls, datas := [], [];
      NoLayouts(level);
      assert done + [] == done;
      assert [] + bits == bits;
    } else {
      assert f.d.Output?;
      var l, rest := LayoutOf(level, bits);
      AfterText(f.d, rest, Combined(done));
      OutputOk(f.d);
      var x := BlockText(f.d.col, f.d.head.orig);
      CombinedAppend(done, x.bytes);
      var more, tail;
      ls, more, tail := LayoutsOf(level, rest, done + [x.bytes]);
      OneCarries(l, level, x);
      datas, pad := [x.bytes] + more, tail;
      FirstCarries(l, ls, level, x.bytes, more);
      Assoc(Text(l), Texts(ls), ByteBits([0x17, 0x72, 0x45, 0x38, 0x50, 0x90]) + Bits(32, WordOf(Combined(done + datas))) + pad);
      assert done + datas == done + [x.bytes] + more;
      ls := [l] + ls;
    }
  }

  lemma NoLayouts(level: nat)
    ensures AllCarry([], level, []) && Texts([]) == []
  {
  }

  lemma OneCarries(l: Layout, level: nat, x: Expansion)
    requires Legal(l, level) && l.orig < |ColumnOfLayout(l, level)| && x == BlockText(ColumnOfLayout(l, level), l.orig)
    ensures !x.broken && l.crc == WordOf(Crc(x.bytes)) ==> Carries(l, level, x.bytes)
  {
    hide Legal, ColumnOfLayout, BlockText, WordOf, Crc;
  }

  lemma FirstCarries(l: Layout, ls: seq<Layout>, level: nat, data: seq<Byte>, datas: seq<seq<Byte>>)
    requires Carries(l, level, data) && AllCarry(ls, level, datas)
    ensures AllCarry([l] + ls, level, [data] + datas) && Texts([l] + ls) == Text(l) + Texts(ls)
  {
    hide Carries, Text;
    assert ([l] + ls)[1..] == ls;
  }

  /** Exactly the written streams are taken for whole: nothing else ends in BZ_STREAM_END. */
  lemma StreamAccepted(b: seq<Byte>)
    ensures Decoded(b).verdict == End <==> exists level: nat, ls: seq<Layout>, datas: seq<seq<Byte>> :: Written(b, level, ls, datas)
  {
    if Decoded(b).verdict == End { EndIsWritten(b); }
    hide Written, Decoded;
    if level: nat, ls: seq<Layout>, datas: seq<seq<Byte>> :| Written(b, level, ls, datas) { WrittenDecodes(b, level, ls, datas); }
  }

  lemma EndIsWritten(b: seq<Byte>)
    requires Decoded(b).verdict == End
    ensures exists level: nat, ls: seq<Layout>, datas: seq<seq<Byte>> :: Written(b, level, ls, datas)
  {
    hide *;
    HeaderExactly(b);
    NoBlocks();
    if |b| < 4 { TooShort(b); }
    var level := b[3] - 0x30;
    assert b[..3] == [0x42, 0x5a, 0x68] && b[..4] == [0x42, 0x5a, 0x68, 0x30 + level];
    var ls, datas, pad := LayoutsOf(level, ByteBits(b[4..]), []);
    assert [] + datas == datas;
    MakeWritten(b, level, ls, datas, pad);
  }

  lemma MakeWritten(b: seq<Byte>, level: nat, ls: seq<Layout>, datas: seq<seq<Byte>>, pad: seq<Bit>)
    requires 1 <= level <= 9 && AllCarry(ls, level, datas) && |b| >= 4 && b[..4] == [0x42, 0x5a, 0x68, 0x30 + level]
    requires ByteBits(b[4..]) == Texts(ls) + (ByteBits([0x17, 0x72, 0x45, 0x38, 0x50, 0x90]) + Bits(32, WordOf(Combined(datas))) + pad)
    ensures Written(b, level, ls, datas)
  {
    hide AllCarry, Texts, ByteBits, Bits, Combined, WordOf;
  }

  /** Fewer than four bytes do not end a stream. */
  lemma {:induction false} ShortHeader(b: seq<Byte>, k: nat)
    requires 1 <= k <= 4 && |b| < 4 && k - 1 <= |b|
    ensures DecodeBits(Magic(k), ByteBits(b[k - 1..]), 0).verdict != End
    decreases 4 - k
  {
    hide ByteBits, DecodeBits, Step, Valid, Need, Shl;
    var rest := b[k - 1..];
    HeaderSteps(k, 0);
    if rest == [] {
      NoByte(Magic(k), 0);
    } else {
      HeaderSteps(k, b[k - 1]);
      OneByte(Magic(k), rest, 0);
      assert rest[1..] == b[k..];
      Refused(DataErrorMagic, ByteBits(b[k..]), 0);
      if !WrongAt(b, k - 1) { ShortHeader(b, k + 1); }
    }
  }

  lemma TooShort(b: seq<Byte>)
    requires |b| < 4
    ensures Decoded(b).verdict != End
  {
    hide ByteBits, DecodeBits;
    assert b[0..] == b;
    ShortHeader(b, 1);
  }
}

/** The block checksum: a CRC-32 that shifts left, table-driven (BZ_UPDATE_CRC of bzlib_private.h), and the
    combined checksum of a stream (compress.c, bzlib.c). */
module BlockCrc {
  import opened Basics
  import opened XorWords

  predicate High(c: bv32) { c >> 31 == 1 }

  /** One message bit into the register, most significant bit first. */
  function BitIn(c: bv32, bit: bool): bv32 {
    Xor(When(High(c) != bit, 0x04c11db7), Twice(c))
  }

  /** Bit k of a byte. */
  predicate Bit7(b: bv32, k: bv32)
    requires k < 8
  {
    (b >> k) & 1 == 1
  }

  /** The register after one byte: the definition of the CRC. */
  function ByteIn(c: bv32, b: bv32): (r: bv32) {
    var c7 := BitIn(c, Bit7(b, 7));
    var c6 := BitIn(c7, Bit7(b, 6));
    var c5 := BitIn(c6, Bit7(b, 5));
    var c4 := BitIn(c5, Bit7(b, 4));
    var c3 := BitIn(c4, Bit7(b, 3));
    var c2 := BitIn(c3, Bit7(b, 2));
    var c1 := BitIn(c2, Bit7(b, 1));
    BitIn(c1, Bit7(b, 0))
  }

  /** The register after n zero bits. */
  function Zeros(n: nat, c: bv32): (r: bv32)
    decreases n, c
  {
    if n == 0 then c else Zeros(n - 1, BitIn(c, false))
  }

  function RaiseTop(i: bv32): bv32 { i << 24 }

  function Top(c: bv32): bv32 { c >> 24 }

  function Rest(c: bv32): bv32 { c & 0x00ff_ffff }

  function Up8(c: bv32): bv32 { c << 8 }

  /** BZ2_crc32Table, by the computation that generates it. */
  function Table(i: bv32): (r: bv32) {
    Zeros(8, RaiseTop(i))
  }

  /** BZ_UPDATE_CRC. */
  function UpdateTable(c: bv32, b: bv32): (r: bv32) {
    Xor(Up8(c), Table(Xor(Top(c), b)))
  }

  lemma HighXor(a: bv32, b: bv32)
    ensures High(Xor(a, b)) == (High(a) != High(b))
  {
  }

  /** Message bits may enter one at a time, or all beforehand at the top of the register. */
  lemma EarlyBit(c: bv32, d: bv32)
    ensures BitIn(Xor(c, d), false) == Xor(BitIn(c, High(d)), Twice(d))
  {
    hide Xor, Twice, High, When;
    HighXor(c, d);
    TwiceXor(c, d);
    XorLaws(When(High(c) != High(d), 0x04c11db7), Twice(c), Twice(d));
  }

  lemma BitLinear(a: bv32, b: bv32)
    ensures BitIn(Xor(a, b), false) == Xor(BitIn(a, false), BitIn(b, false))
  {
    hide Xor, Twice, High, When;
    HighXor(a, b);
    TwiceXor(a, b);
    WhenXor(High(a), High(b), 0x04c11db7);
    XorSwap(When(High(a), 0x04c11db7), When(High(b), 0x04c11db7), Twice(a), Twice(b));
  }

  lemma {:induction false} ZerosLinear(n: nat, a: bv32, b: bv32)
    ensures Zeros(n, Xor(a, b)) == Xor(Zeros(n, a), Zeros(n, b))
    decreases n
  {
    hide BitIn, Xor;
    if n > 0 {
      BitLinear(a, b);
      ZerosLinear(n - 1, BitIn(a, false), BitIn(b, false));
    }
  }

  lemma MessageBits(b: bv32)
    requires b < 256
    ensures High(b << 24) == Bit7(b, 7) && High(b << 25) == Bit7(b, 6) && High(b << 26) == Bit7(b, 5)
    ensures High(b << 27) == Bit7(b, 4) && High(b << 28) == Bit7(b, 3) && High(b << 29) == Bit7(b, 2)
    ensures High(b << 30) == Bit7(b, 1) && High(b << 31) == Bit7(b, 0)
    ensures Twice(b << 24) == b << 25 && Twice(b << 25) == b << 26 && Twice(b << 26) == b << 27 && Twice(b << 27) == b << 28
    ensures Twice(b << 28) == b << 29 && Twice(b << 29) == b << 30 && Twice(b << 30) == b << 31 && Twice(b << 31) == 0
    ensures b << 24 == RaiseTop(b)
  {
  }

  lemma EarlyStep(n: nat, c: bv32, d: bv32)
    ensures Zeros(n + 1, Xor(c, d)) == Zeros(n, Xor(BitIn(c, High(d)), Twice(d)))
  {
    hide BitIn, Xor, High, Twice;
    EarlyBit(c, d);
  }

  lemma EarlyByte(c: bv32, b: bv32)
    requires b < 256
    ensures ByteIn(c, b) == Zeros(8, Xor(c, RaiseTop(b)))
  {
    hide BitIn, Bit7, High, Xor, Twice, RaiseTop, Zeros;
    MessageBits(b);
    EarlyStep(7, c, b << 24);
    var c7 := BitIn(c, Bit7(b, 7)); EarlyStep(6, c7, b << 25);
    var c6 := BitIn(c7, Bit7(b, 6)); EarlyStep(5, c6, b << 26);
    var c5 := BitIn(c6, Bit7(b, 5)); EarlyStep(4, c5, b << 27);
    var c4 := BitIn(c5, Bit7(b, 4)); EarlyStep(3, c4, b << 28);
    var c3 := BitIn(c4, Bit7(b, 3)); EarlyStep(2, c3, b << 29);
    var c2 := BitIn(c3, Bit7(b, 2)); EarlyStep(1, c2, b << 30);
    var c1 := BitIn(c2, Bit7(b, 1)); EarlyStep(0, c1, b << 31);
    XorLaws(BitIn(c1, Bit7(b, 0)), 0, 0);
    NoZeros(BitIn(c1, Bit7(b, 0)));
  }

  lemma NoZeros(c: bv32)
    ensures Zeros(0, c) == c
  {
  }

  lemma ClearBits(d: bv32)
    requires d < 0x0100_0000
    ensures !High(d) && !High(d << 1) && !High(d << 2) && !High(d << 3)
    ensures !High(d << 4) && !High(d << 5) && !High(d << 6) && !High(d << 7)
    ensures Twice(d) == d << 1 && Twice(d << 1) == d << 2 && Twice(d << 2) == d << 3 && Twice(d << 3) == d << 4
    ensures Twice(d << 4) == d << 5 && Twice(d << 5) == d << 6 && Twice(d << 6) == d << 7 && Twice(d << 7) == Up8(d)
  {
  }

  lemma ClearStep(n: nat, d: bv32)
    requires !High(d)
    ensures Zeros(n + 1, d) == Zeros(n, Twice(d))
  {
    hide Xor, Twice, High;
    XorLaws(Twice(d), 0, 0);
  }

  /** Bits below the top byte only shift. */
  lemma ZerosClear(d: bv32)
    requires d < 0x0100_0000
    ensures Zeros(8, d) == Up8(d)
  {
    hide High, Twice, Up8, Zeros;
    ClearBits(d);
    ClearStep(7, d);
    ClearStep(6, d << 1);
    ClearStep(5, d << 2);
    ClearStep(4, d << 3);
    ClearStep(3, d << 4);
    ClearStep(2, d << 5);
    ClearStep(1, d << 6);
    ClearStep(0, d << 7);
    NoZeros(Up8(d));
  }

  lemma TopAndRest(c: bv32, b: bv32)
    ensures Xor(c, RaiseTop(b)) == Xor(RaiseTop(Xor(Top(c), b)), Rest(c))
    ensures Rest(c) < 0x0100_0000 && Up8(Rest(c)) == Up8(c)
  {
  }

  /** The table step is eight single-bit steps, for every register and every byte. */
  lemma TableStep(c: bv32, b: bv32)
    requires b < 256
    ensures UpdateTable(c, b) == ByteIn(c, b)
  {
    hide ByteIn, BitIn, Zeros, Xor, RaiseTop, Rest, Top, Up8;
    EarlyByte(c, b);
    TopAndRest(c, b);
    ZerosLinear(8, RaiseTop(Xor(Top(c), b)), Rest(c));
    ZerosClear(Rest(c));
    XorLaws(Zeros(8, RaiseTop(Xor(Top(c), b))), Up8(c), 0);
  }

  function Widen(b: Byte): bv32 { b as bv32 }

  function Update(c: bv32, b: Byte): bv32 { UpdateTable(c, Widen(b)) }

  /** The register after a byte string. */
  function Fold(c: bv32, data: seq<Byte>): (r: bv32)
    decreases |data|
  {
    if data == [] then c else Update(Fold(c, data[..|data| - 1]), data[|data| - 1])
  }

  lemma {:induction false} FoldConcat(c: bv32, a: seq<Byte>, b: seq<Byte>)
    ensures Fold(c, a + b) == Fold(Fold(c, a), b)
    decreases |b|
  {
    hide Update;
    if b == [] {
      assert a + b == a;
    } else {
      assert (a + b)[..|a + b| - 1] == a + b[..|b| - 1];
      FoldConcat(c, a, b[..|b| - 1]);
    }
  }

  lemma FoldOne(c: bv32, a: seq<Byte>, x: Byte)
    ensures Fold(c, a + [x]) == Update(Fold(c, a), x)
  {
    hide Update;
    assert (a + [x])[..|a|] == a;
  }

  const INIT: bv32 := 0xffff_ffff

  /** BZ_FINALISE_CRC. */
  function Finalise(c: bv32): bv32 { !c }

  function WordOf(c: bv32): Word { c as int }

  /** The checksum of a block that decodes to these bytes. */
  function Crc(data: seq<Byte>): bv32 { Finalise(Fold(INIT, data)) }

  /** Adding a block to the combined checksum: rotate, then exclusive or. */
  function Combine(combined: bv32, crc: bv32): bv32 {
    ((combined << 1) | (combined >> 31)) ^ crc
  }

  function Combined(blocks: seq<seq<Byte>>): (r: bv32) {
    if blocks == [] then 0 else Combine(Combined(blocks[..|blocks| - 1]), Crc(blocks[|blocks| - 1]))
  }

  lemma CombinedAppend(datas: seq<seq<Byte>>, data: seq<Byte>)
    ensures Combined(datas + [data]) == Combine(Combined(datas), Crc(data))
  {
    hide Combine, Crc;
    assert (datas + [data])[..|datas|] == datas;
  }
}

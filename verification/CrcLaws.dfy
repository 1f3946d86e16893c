/** What the two CRC-32 registers hold, independently of how they are computed: remainders of the message
    polynomial, and the checksums of known messages. */
module CrcLaws {
  import opened Basics
  import opened XorWords
  import opened Polynomials
  import B = BlockCrc
  import Z = ZlibCrc32
  import CrcDigits

  // --- Words as coefficients ---

  /** The first n bits of a word from its top: leading coefficients of a register that shifts left. */
  function FromTop(c: bv32, n: nat): (r: seq<bool>)
    ensures |r| == n
    decreases n
  {
    if n == 0 then [] else [B.High(c)] + FromTop(Twice(c), n - 1)
  }

  /** The first n bits of a word from its bottom, for a register that shifts right. */
  function FromBottom(c: bv32, n: nat): (r: seq<bool>)
    ensures |r| == n
    decreases n
  {
    if n == 0 then [] else [Z.Odd(c)] + FromBottom(Z.Half(c), n - 1)
  }

  lemma PlusFront(x: bool, y: bool, a: seq<bool>, b: seq<bool>)
    requires |a| == |b|
    ensures Plus([x] + a, [y] + b) == [x != y] + Plus(a, b)
  {
  }

  lemma {:induction false} TopXor(a: bv32, b: bv32, n: nat)
    ensures FromTop(Xor(a, b), n) == Plus(FromTop(a, n), FromTop(b, n))
    decreases n
  {
    hide Xor, Twice, B.High, Plus;
    if n > 0 {
      B.HighXor(a, b);
      TwiceXor(a, b);
      TopXor(Twice(a), Twice(b), n - 1);
      PlusFront(B.High(a), B.High(b), FromTop(Twice(a), n - 1), FromTop(Twice(b), n - 1));
    }
  }

  lemma {:induction false} BottomXor(a: bv32, b: bv32, n: nat)
    ensures FromBottom(Xor(a, b), n) == Plus(FromBottom(a, n), FromBottom(b, n))
    decreases n
  {
    hide Xor, Z.Half, Z.Odd, Plus;
    if n > 0 {
      Z.OddXor(a, b);
      Z.HalfXor(a, b);
      BottomXor(Z.Half(a), Z.Half(b), n - 1);
      PlusFront(Z.Odd(a), Z.Odd(b), FromBottom(Z.Half(a), n - 1), FromBottom(Z.Half(b), n - 1));
    }
  }

  lemma {:induction false} TopZero(n: nat)
    ensures FromTop(0, n) == None(n)
    decreases n
  {
    if n > 0 { TopZero(n - 1); }
  }

  lemma {:induction false} BottomZero(n: nat)
    ensures FromBottom(0, n) == None(n)
    decreases n
  {
    if n > 0 { BottomZero(n - 1); }
  }

  function TwiceOften(c: bv32, n: nat): bv32
    decreases n
  {
    if n == 0 then c else TwiceOften(Twice(c), n - 1)
  }

  function HalfOften(c: bv32, n: nat): bv32
    decreases n
  {
    if n == 0 then c else HalfOften(Z.Half(c), n - 1)
  }

  lemma {:induction false} TopSplit(c: bv32, n: nat, m: nat)
    ensures FromTop(c, n + m) == FromTop(c, n) + FromTop(TwiceOften(c, n), m)
    decreases n
  {
    hide Twice, B.High;
    if n > 0 { TopSplit(Twice(c), n - 1, m); }
  }

  lemma {:induction false} BottomSplit(c: bv32, n: nat, m: nat)
    ensures FromBottom(c, n + m) == FromBottom(c, n) + FromBottom(HalfOften(c, n), m)
    decreases n
  {
    hide Z.Half, Z.Odd;
    if n > 0 { BottomSplit(Z.Half(c), n - 1, m); }
  }

  lemma Octets(c: bv32)
    ensures TwiceOften(c, 8) == B.Up8(c) && HalfOften(c, 8) == Z.DropByte(c)
  {
  }

  lemma FourOctets(c: bv32)
    ensures B.Up8(B.Up8(B.Up8(B.Up8(c)))) == 0 && Z.DropByte(Z.DropByte(Z.DropByte(Z.DropByte(c)))) == 0
  {
  }

  lemma {:induction false} OftenAdd(c: bv32, n: nat, m: nat)
    ensures TwiceOften(c, n + m) == TwiceOften(TwiceOften(c, n), m)
    ensures HalfOften(c, n + m) == HalfOften(HalfOften(c, n), m)
    decreases n
  {
    hide Twice, Z.Half;
    if n > 0 {
      OftenAdd(Twice(c), n - 1, m);
      OftenAdd(Z.Half(c), n - 1, m);
    }
  }

  /** After 32 shifts nothing is left. */
  lemma ShiftedOut(c: bv32)
    ensures TwiceOften(c, 32) == 0 && HalfOften(c, 32) == 0
  {
    hide TwiceOften, HalfOften, B.Up8, Z.DropByte;
    FourOctets(c);
    OftenAdd(c, 8, 24);
    Octets(c);
    var u, d := B.Up8(c), Z.DropByte(c);
    OftenAdd(u, 8, 16);
    OftenAdd(d, 8, 16);
    Octets(u);
    Octets(d);
    OftenAdd(B.Up8(u), 8, 8);
    OftenAdd(Z.DropByte(d), 8, 8);
    Octets(B.Up8(u));
    Octets(Z.DropByte(d));
    Octets(B.Up8(B.Up8(u)));
    Octets(Z.DropByte(Z.DropByte(d)));
  }

  lemma Slide(x: bool, a: seq<bool>, b: seq<bool>)
    requires |a| == |b| && [x] + a == b + [false] && b != []
    ensures a == b[1..] + [false]
  {
    assert a == ([x] + a)[1..] == (b + [false])[1..];
  }

  lemma TopTwice(c: bv32)
    ensures FromTop(Twice(c), 32) == FromTop(c, 32)[1..] + [false]
  {
    hide Twice, B.High, TwiceOften;
    TopSplit(c, 32, 1);
    ShiftedOut(c);
    TopZero(1);
    assert FromTop(0, 1) == [false] && FromTop(c, 33) == [B.High(c)] + FromTop(Twice(c), 32);
    hide FromTop;
    Slide(B.High(c), FromTop(Twice(c), 32), FromTop(c, 32));
  }

  lemma BottomHalf(c: bv32)
    ensures FromBottom(Z.Half(c), 32) == FromBottom(c, 32)[1..] + [false]
  {
    hide Z.Half, Z.Odd, HalfOften;
    BottomSplit(c, 32, 1);
    ShiftedOut(c);
    BottomZero(1);
    assert FromBottom(0, 1) == [false] && FromBottom(c, 33) == [Z.Odd(c)] + FromBottom(Z.Half(c), 32);
    hide FromBottom;
    Slide(Z.Odd(c), FromBottom(Z.Half(c), 32), FromBottom(c, 32));
  }

  // --- Both patterns are the generator below x^32 ---

  lemma TopOctets()
    ensures FromTop(0x04c11db7, 8) == [false, false, false, false, false, true, false, false]
    ensures FromTop(0xc11db700, 8) == [true, true, false, false, false, false, false, true]
  {
  }

  lemma MoreTopOctets()
    ensures FromTop(0x1db70000, 8) == [false, false, false, true, true, true, false, true]
    ensures FromTop(0xb7000000, 8) == [true, false, true, true, false, true, true, true]
  {
  }

  lemma BottomOctets()
    ensures FromBottom(0xedb88320, 8) == [false, false, false, false, false, true, false, false]
    ensures FromBottom(0x00edb883, 8) == [true, true, false, false, false, false, false, true]
  {
  }

  lemma MoreBottomOctets()
    ensures FromBottom(0x0000edb8, 8) == [false, false, false, true, true, true, false, true]
    ensures FromBottom(0x000000ed, 8) == [true, false, true, true, false, true, true, true]
  {
  }

  lemma GeneratorOctets()
    ensures Generator()[1..] == [false, false, false, false, false, true, false, false]
                                + ([true, true, false, false, false, false, false, true]
                                + ([false, false, false, true, true, true, false, true]
                                + [true, false, true, true, false, true, true, true]))
  {
  }

  lemma TopPattern()
    ensures FromTop(0x04c11db7, 32) == Generator()[1..]
  {
    assert B.Up8(0x04c11db7) == 0xc11db700 && B.Up8(0xc11db700) == 0x1db70000 && B.Up8(0x1db70000) == 0xb7000000;
    hide FromTop, TwiceOften, B.Up8, Generator;
    Octets(0x04c11db7);
    Octets(0xc11db700);
    Octets(0x1db70000);
    TopSplit(0x04c11db7, 8, 24);
    TopSplit(0xc11db700, 8, 16);
    TopSplit(0x1db70000, 8, 8);
    TopOctets();
    MoreTopOctets();
    GeneratorOctets();
  }

  lemma BottomPattern()
    ensures FromBottom(0xedb88320, 32) == Generator()[1..]
  {
    assert Z.DropByte(0xedb88320) == 0x00edb883 && Z.DropByte(0x00edb883) == 0x0000edb8 && Z.DropByte(0x0000edb8) == 0x000000ed;
    hide FromBottom, HalfOften, Z.DropByte, Generator;
    Octets(0xedb88320);
    Octets(0x00edb883);
    Octets(0x0000edb8);
    BottomSplit(0xedb88320, 8, 24);
    BottomSplit(0x00edb883, 8, 16);
    BottomSplit(0x0000edb8, 8, 8);
    BottomOctets();
    MoreBottomOctets();
    GeneratorOctets();
  }

  // --- The block checksum of bzip2 ---

  lemma TopStep(c: bv32, bit: bool)
    ensures FromTop(B.BitIn(c, bit), 32) == Bring(FromTop(c, 32), bit)
  {
    hide Xor, Twice, Generator, Plus, B.High;
    var h := B.High(c) != bit;
    TopXor(When(h, 0x04c11db7), Twice(c), 32);
    TopTwice(c);
    TopPattern();
    TopZero(32);
    assert FromTop(c, 32)[0] == B.High(c);
    hide FromTop;
    PlusSwap(FromTop(When(h, 0x04c11db7), 32), FromTop(Twice(c), 32));
  }

  lemma PlusSwap(a: seq<bool>, b: seq<bool>)
    requires |a| == |b|
    ensures Plus(a, b) == Plus(b, a)
  {
  }

  /** A byte's bits, leading one first. */
  function ByteFromTop(b: bv32): (m: seq<bool>) {
    [B.Bit7(b, 7), B.Bit7(b, 6), B.Bit7(b, 5), B.Bit7(b, 4), B.Bit7(b, 3), B.Bit7(b, 2), B.Bit7(b, 1), B.Bit7(b, 0)]
  }

  function MessageFromTop(data: seq<Byte>): (m: seq<bool>)
    ensures |m| == 8 * |data|
    decreases |data|
  {
    if data == [] then []
    else MessageFromTop(data[..|data| - 1]) + ByteFromTop(B.Widen(data[|data| - 1]))
  }

  lemma Bring8(r: seq<bool>, m: seq<bool>)
    requires |r| == 32 && |m| == 8
    ensures Remainder(r, m)
         == Bring(Bring(Bring(Bring(Bring(Bring(Bring(Bring(r, m[0]), m[1]), m[2]), m[3]), m[4]), m[5]), m[6]), m[7])
  {
    hide Bring;
    forall k | 0 < k <= 8 ensures m[..k][..k - 1] == m[..k - 1] { }
    assert m[..8] == m && Remainder(r, m[..0]) == r;
    assert forall k | 0 < k <= 8 :: Remainder(r, m[..k]) == Bring(Remainder(r, m[..k - 1]), m[k - 1]);
  }

  lemma ByteRemainder(c: bv32, b: bv32)
    ensures FromTop(B.ByteIn(c, b), 32) == Remainder(FromTop(c, 32), ByteFromTop(b))
  {
    hide B.BitIn, B.Bit7, FromTop, Bring, Remainder;
    Bring8(FromTop(c, 32), ByteFromTop(b));
    var c7 := B.BitIn(c, B.Bit7(b, 7)); TopStep(c, B.Bit7(b, 7));
    var c6 := B.BitIn(c7, B.Bit7(b, 6)); TopStep(c7, B.Bit7(b, 6));
    var c5 := B.BitIn(c6, B.Bit7(b, 5)); TopStep(c6, B.Bit7(b, 5));
    var c4 := B.BitIn(c5, B.Bit7(b, 4)); TopStep(c5, B.Bit7(b, 4));
    var c3 := B.BitIn(c4, B.Bit7(b, 3)); TopStep(c4, B.Bit7(b, 3));
    var c2 := B.BitIn(c3, B.Bit7(b, 2)); TopStep(c3, B.Bit7(b, 2));
    var c1 := B.BitIn(c2, B.Bit7(b, 1)); TopStep(c2, B.Bit7(b, 1));
    TopStep(c1, B.Bit7(b, 0));
  }

  lemma WidenFits(b: Byte)
    ensures B.Widen(b) < 256
  {
  }

  /** The register holds the remainder of the message, the start value standing above its leading bits. */
  lemma {:induction false} FoldIsRemainder(c: bv32, data: seq<Byte>)
    ensures FromTop(B.Fold(c, data), 32) == Remainder(FromTop(c, 32), MessageFromTop(data))
    decreases |data|
  {
    hide FromTop, ByteFromTop, B.UpdateTable, B.ByteIn, B.Widen;
    if data != [] {
      var n := |data| - 1;
      FoldIsRemainder(c, data[..n]);
      WidenFits(data[n]);
      B.TableStep(B.Fold(c, data[..n]), B.Widen(data[n]));
      ByteRemainder(B.Fold(c, data[..n]), B.Widen(data[n]));
      RemainderConcat(FromTop(c, 32), MessageFromTop(data[..n]), ByteFromTop(B.Widen(data[n])));
    }
  }

  /** The block checksum, with its values written out: the message, its first 32 coefficients complemented,
      times x^32, is a multiple of the generator plus the complement of the checksum. */
  lemma BlockChecksum(data: seq<Byte>)
    ensures exists q ::
      && |q| == 8 * |data|
      && Plus(FromTop(0xffff_ffff, 32) + None(|q|), MessageFromTop(data) + None(32))
         == Plus(Product(q), None(|q|) + FromTop(Xor(B.Crc(data), 0xffff_ffff), 32))
  {
    var c: bv32 := 0xffff_ffff;
    Complement(B.Fold(c, data));
    hide FromTop, B.Fold, MessageFromTop, Xor, B.Finalise;
    FoldIsRemainder(c, data);
    var q := Quotient(FromTop(c, 32), MessageFromTop(data));
    Division(FromTop(c, 32), MessageFromTop(data));
    assert |q| == 8 * |data|;
  }

  /** The combined checksum, bit by bit: the checksum so far moves up one place, its top bit coming in at the
      bottom, and the block's checksum is added. */
  lemma CombinedBits(blocks: seq<seq<Byte>>, data: seq<Byte>)
    ensures var before := FromTop(B.Combined(blocks), 32);
            FromTop(B.Combined(blocks + [data]), 32) == Plus(before[1..] + before[..1], FromTop(B.Crc(data), 32))
    ensures B.Combined([]) == 0
  {
    B.CombinedAppend(blocks, data);
    var c := B.Combined(blocks);
    assert B.Combined([]) == 0;
    hide B.Crc, B.Combined;
    CombineXor(c, B.Crc(data));
    hide B.Combine, Xor, Twice, Plus, FromTop, B.High;
    TopXor(Xor(Twice(c), When(B.High(c), 1)), B.Crc(data), 32);
    TopXor(Twice(c), When(B.High(c), 1), 32);
    TopTwice(c);
    TopOne(c);
    Rotated(FromTop(c, 32), FromTop(When(B.High(c), 1), 32));
  }

  lemma CombineXor(c: bv32, d: bv32)
    ensures B.Combine(c, d) == Xor(Xor(Twice(c), When(B.High(c), 1)), d)
  {
    assert (c << 1) | (c >> 31) == Twice(c) ^ When(B.High(c), 1) by {
      assert c >> 31 == 0 || c >> 31 == 1;
    }
  }

  lemma TopOne(c: bv32)
    ensures FromTop(When(B.High(c), 1), 32) == None(31) + FromTop(c, 32)[..1]
  {
    LowestBit();
    hide B.High, None;
    TopZero(32);
    assert FromTop(c, 32)[..1] == [B.High(c)];
    hide FromTop;
    assert None(32) == None(31) + [false] by { NoneMore(31); }
  }

  lemma NoneMore(n: nat)
    ensures None(n + 1) == None(n) + [false]
  {
  }

  lemma LowestBit()
    ensures FromTop(1, 32) == None(31) + [true]
  {
    hide FromTop, TwiceOften, B.Up8;
    Octets(1);
    LowOctets();
    Octets(0x100);
    Octets(0x1_0000);
    TopSplit(1, 8, 24);
    TopSplit(0x100, 8, 16);
    TopSplit(0x1_0000, 8, 8);
  }

  lemma LowOctets()
    ensures B.Up8(1) == 0x100 && B.Up8(0x100) == 0x1_0000 && B.Up8(0x1_0000) == 0x100_0000
    ensures FromTop(1, 8) == None(8) && FromTop(0x100, 8) == None(8) && FromTop(0x1_0000, 8) == None(8)
    ensures FromTop(0x100_0000, 8) == None(7) + [true]
  {
  }

  lemma Rotated(r: seq<bool>, low: seq<bool>)
    requires |r| == |low| == 32 && low == None(31) + r[..1]
    ensures Plus(r[1..] + [false], low) == r[1..] + r[..1]
  {
  }

  lemma Complement(c: bv32)
    ensures Xor(B.Finalise(c), 0xffff_ffff) == c
  {
  }

  lemma NextByte(data: seq<Byte>, n: nat, c: bv32, r: bv32)
    requires n < |data| && B.Fold(0xffff_ffff, data[..n]) == c && B.UpdateTable(c, B.Widen(data[n])) == r
    ensures B.Fold(0xffff_ffff, data[..n + 1]) == r
  {
    hide B.UpdateTable;
    B.FoldOne(0xffff_ffff, data[..n], data[n]);
    assert data[..n + 1] == data[..n] + [data[n]];
  }

  lemma WidenDigits()
    ensures B.Widen(0x31) == 0x31 && B.Widen(0x32) == 0x32 && B.Widen(0x33) == 0x33 && B.Widen(0x34) == 0x34
    ensures B.Widen(0x35) == 0x35 && B.Widen(0x36) == 0x36 && B.Widen(0x37) == 0x37 && B.Widen(0x38) == 0x38
    ensures B.Widen(0x39) == 0x39 && B.Widen(0x61) == 0x61
  {
  }

  lemma Finals()
    ensures B.Finalise(0xe66c_6494) == 0x1993_9b6b && B.Finalise(0x0376_e6e7) == 0xfc89_1918 && B.Finalise(0xffff_ffff) == 0
  {
  }

  /** Entry 1 of the table, and the checksums of no bytes, of "a" and of "123456789". */
  lemma KnownBlockChecksums()
    ensures B.Table(1) == 0x04c1_1db7
    ensures B.Crc([]) == 0 && B.Crc([0x61]) == 0x1993_9b6b
    ensures B.Crc([0x31, 0x32, 0x33, 0x34, 0x35, 0x36, 0x37, 0x38, 0x39]) == 0xfc89_1918
  {
    CrcDigits.EntryOne();
    hide B.UpdateTable, B.Widen, B.Finalise, B.Table;
    Finals();
    CrcDigits.LetterA();
    WidenDigits();
    var a: seq<Byte> := [0x61];
    assert B.Fold(0xffff_ffff, a[..0]) == 0xffff_ffff && a[..1] == a;
    NextByte(a, 0, 0xffff_ffff, 0xe66c_6494);
    KnownDigits();
    DigitsAre();
  }

  const DIGITS: seq<Byte> := [0x31, 0x32, 0x33, 0x34, 0x35, 0x36, 0x37, 0x38, 0x39]

  lemma DigitsAre()
    ensures |DIGITS| == 9 && DIGITS[..9] == DIGITS == [0x31, 0x32, 0x33, 0x34, 0x35, 0x36, 0x37, 0x38, 0x39]
  {
  }

  lemma WidenedDigits()
    ensures |DIGITS| == 9 && B.Widen(DIGITS[0]) == 0x31 && B.Widen(DIGITS[1]) == 0x32 && B.Widen(DIGITS[2]) == 0x33
    ensures B.Widen(DIGITS[3]) == 0x34 && B.Widen(DIGITS[4]) == 0x35 && B.Widen(DIGITS[5]) == 0x36
    ensures B.Widen(DIGITS[6]) == 0x37 && B.Widen(DIGITS[7]) == 0x38 && B.Widen(DIGITS[8]) == 0x39
  {
    WidenDigits();
    hide B.Widen;
  }

  lemma NoDigits()
    ensures B.Fold(0xffff_ffff, DIGITS[..0]) == 0xffff_ffff
  {
  }

  lemma KnownDigits()
    ensures |DIGITS| == 9 && B.Fold(0xffff_ffff, DIGITS[..9]) == 0x0376_e6e7
  {
    hide *;
    WidenedDigits();
    NoDigits();
    CrcDigits.One();
    NextByte(DIGITS, 0, 0xffff_ffff, 0x9efb_cf93);
    CrcDigits.Two();
    NextByte(DIGITS, 1, 0x9efb_cf93, 0x3fec_5e6a);
    CrcDigits.Three();
    NextByte(DIGITS, 2, 0x3fec_5e6a, 0xd952_f164);
    CrcDigits.Four();
    NextByte(DIGITS, 3, 0xd952_f164, 0xa695_c4aa);
    CrcDigits.Five();
    NextByte(DIGITS, 4, 0xa695_c4aa, 0xbd9a_b747);
    CrcDigits.Six();
    NextByte(DIGITS, 5, 0xbd9a_b747, 0xd8f0_6c8f);
    CrcDigits.Seven();
    NextByte(DIGITS, 6, 0xd8f0_6c8f, 0x0d8a_14c4);
    CrcDigits.Eight();
    NextByte(DIGITS, 7, 0x0d8a_14c4, 0x49e3_c2fb);
    CrcDigits.Nine();
    NextByte(DIGITS, 8, 0x49e3_c2fb, 0x0376_e6e7);
  }

  // --- zlib's CRC-32 ---

  /** A message bit as the register shifts right. */
  function LateBit(c: bv32, bit: bool): bv32 {
    Xor(When(Z.Odd(c) != bit, 0xedb88320), Z.Half(c))
  }

  lemma BottomStep(c: bv32, bit: bool)
    ensures FromBottom(LateBit(c, bit), 32) == Bring(FromBottom(c, 32), bit)
  {
    hide Xor, Z.Half, Generator, Plus, Z.Odd;
    var h := Z.Odd(c) != bit;
    BottomXor(When(h, 0xedb88320), Z.Half(c), 32);
    BottomHalf(c);
    BottomPattern();
    BottomZero(32);
    assert FromBottom(c, 32)[0] == Z.Odd(c);
    hide FromBottom;
    PlusSwap(FromBottom(When(h, 0xedb88320), 32), FromBottom(Z.Half(c), 32));
  }

  /** A message bit may wait in the register. */
  lemma WaitingBit(c: bv32, w: bv32)
    ensures Z.BitStep(Xor(c, w)) == Xor(LateBit(c, Z.Odd(w)), Z.Half(w))
  {
    hide Xor, Z.Odd, Z.Half, When;
    Z.OddXor(c, w);
    Z.HalfXor(c, w);
    XorLaws(When(Z.Odd(c) != Z.Odd(w), 0xedb88320), Z.Half(c), Z.Half(w));
  }

  /** n bits that wait at the bottom of the register enter one by one. */
  lemma {:induction false} WaitingBits(c: bv32, w: bv32, n: nat)
    ensures FromBottom(Z.Zeros(n, Xor(c, w)), 32)
         == Plus(Remainder(FromBottom(c, 32), FromBottom(w, n)), FromBottom(HalfOften(w, n), 32))
    decreases n
  {
    hide Xor, Z.BitStep, LateBit, Bring, Z.Odd, Z.Half, Plus;
    if n == 0 {
      BottomXor(c, w, 32);
      assert FromBottom(w, 0) == [];
    } else {
      WaitingBit(c, w);
      WaitingBits(LateBit(c, Z.Odd(w)), Z.Half(w), n - 1);
      BottomStep(c, Z.Odd(w));
      RemainderOne(FromBottom(c, 32), Z.Odd(w));
      RemainderConcat(FromBottom(c, 32), [Z.Odd(w)], FromBottom(Z.Half(w), n - 1));
    }
  }

  lemma ByteLeaves(b: bv8)
    ensures HalfOften(Z.Widen(b), 8) == 0
  {
    assert Z.DropByte(Z.Widen(b)) == 0;
    Octets(Z.Widen(b));
  }

  lemma PlusNone(a: seq<bool>)
    ensures Plus(a, None(|a|)) == a
  {
  }

  function MessageFromBottom(data: seq<bv8>): (m: seq<bool>)
    ensures |m| == 8 * |data|
  {
    if data == [] then [] else FromBottom(Z.Widen(data[0]), 8) + MessageFromBottom(data[1..])
  }

  lemma {:induction false} FeedIsRemainder(c: bv32, data: seq<bv8>)
    ensures FromBottom(Z.Feed(c, data), 32) == Remainder(FromBottom(c, 32), MessageFromBottom(data))
    decreases |data|
  {
    hide FromBottom, Z.Widen, Z.Zeros, Xor, Remainder, HalfOften;
    if data == [] {
      EmptyRemainder(FromBottom(c, 32));
    } else {
      var w := Z.Widen(data[0]);
      WaitingBits(c, w, 8);
      ByteLeaves(data[0]);
      BottomZero(32);
      PlusNone(Remainder(FromBottom(c, 32), FromBottom(w, 8)));
      FeedIsRemainder(Z.Zeros(8, Xor(c, w)), data[1..]);
      RemainderConcat(FromBottom(c, 32), FromBottom(w, 8), MessageFromBottom(data[1..]));
    }
  }

  lemma EmptyRemainder(start: seq<bool>)
    requires |start| == 32
    ensures Remainder(start, []) == start
  {
  }

  /** The same law as for blocks, every byte's lowest bit first. */
  lemma ZlibChecksum(data: seq<bv8>)
    ensures exists q ::
      && |q| == 8 * |data|
      && Plus(FromBottom(0xffff_ffff, 32) + None(|q|), MessageFromBottom(data) + None(32))
         == Plus(Product(q), None(|q|) + FromBottom(Xor(Z.Update(0, data), 0xffff_ffff), 32))
  {
    hide FromBottom, Z.Feed, MessageFromBottom, Xor;
    var c: bv32 := 0xffff_ffff;
    XorCancel(c, 0);
    XorLaws(0, c, 0);
    XorCancel(Z.Feed(c, data), c);
    FeedIsRemainder(c, data);
    var q := Quotient(FromBottom(c, 32), MessageFromBottom(data));
    Division(FromBottom(c, 32), MessageFromBottom(data));
    assert |q| == 8 * |data|;
  }

  lemma StepsA()
    ensures Z.Zeros(8, Xor(0xffffffff, 0x31)) == 0x7c231048
    ensures Z.Zeros(8, Xor(0x7c231048, 0x32)) == 0xb0acbb32
    ensures Z.Zeros(8, Xor(0xb0acbb32, 0x33)) == 0x77b79c2d
  {
  }

  lemma StepsB()
    ensures Z.Zeros(8, Xor(0x77b79c2d, 0x34)) == 0x641c1f5c
    ensures Z.Zeros(8, Xor(0x641c1f5c, 0x35)) == 0x340ac5e3
    ensures Z.Zeros(8, Xor(0x340ac5e3, 0x36)) == 0xf68d2c9e
  {
  }

  lemma StepsC()
    ensures Z.Zeros(8, Xor(0xf68d2c9e, 0x37)) == 0xaffc9660
    ensures Z.Zeros(8, Xor(0xaffc9660, 0x38)) == 0x651f2550
    ensures Z.Zeros(8, Xor(0x651f2550, 0x39)) == 0x340bc6d9
  {
  }

  lemma FirstByte(c: bv32, x: bv8, rest: seq<bv8>, r: bv32)
    requires Z.Zeros(8, Xor(c, Z.Widen(x))) == r
    ensures Z.Feed(c, [x] + rest) == Z.Feed(r, rest)
  {
    hide Z.Zeros, Xor;
    assert ([x] + rest)[1..] == rest;
  }

  lemma WidenLowDigits()
    ensures Z.Widen(0x31) == 0x31 && Z.Widen(0x32) == 0x32 && Z.Widen(0x33) == 0x33 && Z.Widen(0x34) == 0x34
    ensures Z.Widen(0x35) == 0x35 && Z.Widen(0x36) == 0x36 && Z.Widen(0x37) == 0x37 && Z.Widen(0x38) == 0x38
    ensures Z.Widen(0x39) == 0x39 && Z.Widen(0) == 0
  {
  }

  lemma ZeroByte()
    ensures Z.Zeros(8, 0xffff_ffff) == 0x2dfd_1072
  {
  }

  lemma MoreZeroBytes()
    ensures Z.Zeros(8, 0x2dfd_1072) == 0xbe26_ed00 && Z.Zeros(8, 0xbe26_ed00) == 0x00be_26ed
  {
  }

  lemma LastZeroByte()
    ensures Z.Zeros(8, 0x00be_26ed) == 0xdebb_20e3
  {
  }

  lemma Complements()
    ensures Xor(0, 0xffff_ffff) == 0xffff_ffff && Xor(0xffff_ffff, 0) == 0xffff_ffff && Xor(0xffff_ffff, 0xffff_ffff) == 0
    ensures Xor(0x2dfd_1072, 0xffff_ffff) == 0xd202_ef8d && Xor(0x340b_c6d9, 0xffff_ffff) == 0xcbf4_3926
    ensures Xor(0xdebb_20e3, 0xffff_ffff) == 0x2144_df1c
  {
  }

  /** The checksums of no bytes, of one zero byte and of "123456789". */
  lemma KnownChecksums()
    ensures Z.Update(0, []) == 0 && Z.Update(0, [0]) == 0xd202_ef8d
    ensures Z.Update(0, [0x31, 0x32, 0x33, 0x34, 0x35, 0x36, 0x37, 0x38, 0x39]) == 0xcbf4_3926
  {
    hide Z.Widen, Xor, Z.Zeros;
    Complements();
    ZeroByte();
    WidenLowDigits();
    FirstByte(0xffff_ffff, 0, [], 0x2dfd_1072);
    assert [0] + [] == [0];
    LowDigits();
  }

  lemma LowDigits()
    ensures Z.Feed(0xffff_ffff, [0x31, 0x32, 0x33, 0x34, 0x35, 0x36, 0x37, 0x38, 0x39]) == 0x340b_c6d9
  {
    hide Z.Widen, Xor, Z.Zeros;
    WidenLowDigits();
    StepsA();
    StepsB();
    StepsC();
    assert Z.Feed(0x340b_c6d9, []) == 0x340b_c6d9;
    hide Z.Feed;
    FirstByte(0xffffffff, 0x31, [0x32, 0x33, 0x34, 0x35, 0x36, 0x37, 0x38, 0x39], 0x7c231048);
    FirstByte(0x7c231048, 0x32, [0x33, 0x34, 0x35, 0x36, 0x37, 0x38, 0x39], 0xb0acbb32);
    FirstByte(0xb0acbb32, 0x33, [0x34, 0x35, 0x36, 0x37, 0x38, 0x39], 0x77b79c2d);
    FirstByte(0x77b79c2d, 0x34, [0x35, 0x36, 0x37, 0x38, 0x39], 0x641c1f5c);
    FirstByte(0x641c1f5c, 0x35, [0x36, 0x37, 0x38, 0x39], 0x340ac5e3);
    FirstByte(0x340ac5e3, 0x36, [0x37, 0x38, 0x39], 0xf68d2c9e);
    FirstByte(0xf68d2c9e, 0x37, [0x38, 0x39], 0xaffc9660);
    FirstByte(0xaffc9660, 0x38, [0x39], 0x651f2550);
    FirstByte(0x651f2550, 0x39, [], 0x340bc6d9);
  }

  /** A word as four bytes, low byte first. */
  function LowFirst(w: bv32): (b: seq<bv8>)
    ensures |b| == 4
  {
    [(w & 0xff) as bv8, ((w >> 8) & 0xff) as bv8, ((w >> 16) & 0xff) as bv8, (w >> 24) as bv8]
  }

  lemma LowFirstWord(w: bv32)
    ensures Z.Word4(LowFirst(w)) == w
  {
  }

  /** Whatever the message: a message followed by its checksum, low byte first, has one constant checksum. */
  lemma Residue(data: seq<bv8>)
    ensures Z.Update(0, data + LowFirst(Z.Update(0, data))) == 0x2144_df1c
  {
    hide Xor, Z.Feed, Z.Zeros, LowFirst, Z.Word4;
    var ones: bv32 := 0xffff_ffff;
    var r, u := Z.Feed(ones, data), Z.Update(0, data);
    Complements();
    Z.FeedConcat(ones, data, LowFirst(u));
    LowFirstWord(u);
    Z.WordIsFourBytes(r, LowFirst(u));
    XorLaws(r, r, ones);
    XorCancel(r, 0);
    XorLaws(0, ones, 0);
    ZeroByte();
    MoreZeroBytes();
    LastZeroByte();
    Z.ZerosAdd(8, 24, ones);
    Z.ZerosAdd(8, 16, 0x2dfd_1072);
    Z.ZerosAdd(8, 8, 0xbe26_ed00);
  }
}

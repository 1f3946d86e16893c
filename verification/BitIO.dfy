/** The two 32-bit bit buffers: bsW/bsFinishWrite of the compressor (compress.c)
    and GET_BITS of the decompressor (decompress.c). */
module BitIO {
  import opened Basics
  import opened BitStrings

  /** The byte at the top of a left-justified buffer of `live` bits. */
  lemma TopByte(hi: nat, lo: nat, n: nat, k: nat)
    requires n + k == 24 && hi < 256 && lo < Pow2(n)
    ensures Shl(Shl(hi, n) + lo, k) / 0x100_0000 == hi
    ensures Shl(Shl(hi, n) + lo, k) * 256 % 0x1_0000_0000 == Shl(lo, k + 8)
  {
    hide *;
    ShlAdd(Shl(hi, n), lo, k);
    ShlShl(hi, n, k);
    ShiftsUsed(hi);
    LowFits(lo, n, k);
    ShlShl(lo, k, 8);
    Shl8(Shl(lo, k));
    TopAndRest(hi, Shl(lo, k));
  }

  lemma LowFits(lo: nat, n: nat, k: nat)
    requires n + k == 24 && lo < Pow2(n)
    ensures Shl(lo, k) < 0x100_0000
  {
    hide Shl;
    ShlLess(lo, Pow2(n), k);
    Pow2Add(n, k);
    ShiftsUsed(1);
  }

  lemma TopAndRest(hi: nat, y: nat)
    requires hi < 256 && y < 0x100_0000
    ensures (0x100_0000 * hi + y) / 0x100_0000 == hi
    ensures (0x100_0000 * hi + y) * 256 % 0x1_0000_0000 == 256 * y
  {
    assert (0x100_0000 * hi + y) * 256 == 0x1_0000_0000 * hi + 256 * y;
  }

  /** Taking that byte out leaves the other live bits, still left-justified. */
  lemma TakeByte(pending: nat, live: nat) returns (hi: Byte, lo: nat)
    requires 8 <= live <= 32 && pending < Pow2(live)
    ensures Shl(pending, 32 - live) / 0x100_0000 == hi
    ensures Shl(pending, 32 - live) * 256 % 0x1_0000_0000 == Shl(lo, 32 - (live - 8))
    ensures lo < Pow2(live - 8)
    ensures Bits(live, pending) == Bits(8, hi) + Bits(live - 8, lo)
  {
    var n := live - 8;
    Shl8(1);
    var top, rest := Split(pending, n);
    HighPart(8, top, n);
    hi, lo := top, rest;
    TopByte(hi, lo, n, 24 - n);
    BitsConcat(8, hi, n, lo);
  }

  /** OR-ing a field below k spare positions into a left-justified buffer. */
  lemma OrField(pending: nat, n: nat, v: nat, k: nat)
    requires v < Pow2(n)
    ensures Or(Shl(pending, n + k), Shl(v, k)) == Shl(Shl(pending, n) + v, k)
  {
    ShlLess(v, Pow2(n), k);
    Pow2Add(n, k);
    OrDisjoint(pending, n + k, Shl(v, k));
    ShlShl(pending, n, k);
    ShlAdd(Shl(pending, n), v, k);
  }

  /** Room for n more bits: the new field lands just below the live ones. */
  lemma PlaceField(pending: nat, live: nat, n: nat, v: nat, k: nat)
    requires live + n + k == 32 && pending < Pow2(live) && v < Pow2(n)
    ensures Or(Shl(pending, n + k), Shl(v, k)) == Shl(Shl(pending, n) + v, k)
    ensures Shl(pending, n) + v < Pow2(live + n)
    ensures Shl(Shl(pending, n) + v, k) < 0x1_0000_0000
    ensures Bits(live + n, Shl(pending, n) + v) == Bits(live, pending) + Bits(n, v)
  {
    OrField(pending, n, v, k);
    BitsConcat(live, pending, n, v);
    ShlLess(Shl(pending, n) + v, Pow2(live + n), k);
    Pow2Add(live + n, k);
    ShiftsUsed(1);
  }

  /** The last, partly filled byte. */
  lemma PadByte(pending: nat, live: nat)
    requires 0 < live < 8 && pending < Pow2(live)
    ensures var buff := Shl(pending, 32 - live);
            buff / 0x100_0000 < 256 && buff * 256 % 0x1_0000_0000 == 0
            && Bits(8, buff / 0x100_0000) == Bits(live, pending) + Bits(8 - live, 0)
  {
    hide Shl, Bits;
    BitsConcat(live, pending, 8 - live, 0);
    ShlShl(pending, 8 - live, 24);
    ShiftsUsed(Shl(pending, 8 - live));
    ShiftsUsed(1);
    PaddedRange(pending, live);
    ShlPositive(8 - live);
  }

  lemma ShlPositive(n: nat)
    ensures 0 < Pow2(n)
  {
  }

  lemma PaddedRange(pending: nat, live: nat)
    requires 0 < live < 8 && pending < Pow2(live)
    ensures Shl(pending, 8 - live) < 256
  {
    hide Shl;
    ShlLess(pending, Pow2(live), 8 - live);
    Pow2Add(live, 8 - live);
    ShiftsUsed(1);
    ShlPositive(8 - live);
  }

  lemma NoBits(n: nat, v: nat)
    ensures n == 0 ==> Bits(n, v) == []
    ensures Bits(0, 0) == []
  {
  }

  lemma AppendByte(z: seq<Byte>, b: Byte)
    ensures ByteBits(z + [b]) == ByteBits(z) + Bits(8, b)
  {
    assert (z + [b])[..|z|] == z;
  }

  lemma ByteField(m: nat, hi: nat, lo: Byte)
    ensures Bits(m + 8, 256 * hi + lo) == Bits(m, hi) + Bits(8, lo)
  {
    Shl8(1);
    Shl8(hi);
    BitsConcat(m, hi, 8, lo);
  }

  /** (u >> 24) & 0xff, (u >> 16) & 0xff, (u >> 8) & 0xff, u & 0xff. */
  function FourBytes(u: Word): (r: (Byte, Byte, Byte, Byte)) {
    (u / 0x100_0000, u / 0x1_0000 % 256, u / 0x100 % 256, u % 256)
  }

  lemma WholeWord32(u: Word)
    ensures var (a, b, c, d) := FourBytes(u); u == 0x100_0000 * a + 0x1_0000 * b + 0x100 * c + d
  {
  }

  /** A 32-bit word is its four bytes, high byte first. */
  lemma Bytes32(a: Byte, b: Byte, c: Byte, d: Byte)
    ensures Bits(32, 0x100_0000 * a + 0x1_0000 * b + 0x100 * c + d)
         == Bits(8, a) + Bits(8, b) + Bits(8, c) + Bits(8, d)
  {
    hide Bits, Shl;
    ByteField(8, a, b);
    ByteField(16, 256 * a + b, c);
    ByteField(24, 256 * (256 * a + b) + c, d);
  }

  /** The compressor's bit buffer, left-justified in bsBuff, and the bytes it has produced. */
  class BitWriter {
    var bsBuff: Word
    var bsLive: nat
    var zbits: seq<Byte>
    ghost var pending: nat

    ghost predicate Valid()
      reads this
    {
      bsLive <= 32 && pending < Pow2(bsLive) && bsBuff == Shl(pending, 32 - bsLive)
    }

    /** Every bit written since zbits was last emptied, in order. */
    ghost function Contents(): (r: seq<Bit>)
      reads this
    {
      ByteBits(zbits) + Bits(bsLive, pending)
    }

    lemma ContentsLength()
      ensures |Contents()| == 8 * |zbits| + bsLive && (Valid() ==> bsLive <= 32)
    {
      hide Bits, ByteBits, Shl;
      BytesLength(zbits);
      FieldLength(bsLive, pending);
    }

    constructor ()
      ensures Valid() && Contents() == [] && zbits == [] && bsLive == 0
    {
      bsBuff, bsLive, zbits, pending := 0, 0, [], 0;
      new;
      Shl0(32);
    }

    /** One turn of the bsNEEDW loop. */
    method EmitByte()
      requires Valid() && 8 <= bsLive
      modifies this
      ensures Valid() && bsLive == old(bsLive) - 8
      ensures Contents() == old(Contents()) && old(zbits) <= zbits
    {
      hide Bits, Shl, ByteBits;
      ghost var hi, lo := TakeByte(pending, bsLive);
      AppendByte(zbits, hi);
      zbits := zbits + [bsBuff / 0x100_0000];
      bsBuff := bsBuff * 256 % 0x1_0000_0000;
      bsLive := bsLive - 8;
      pending := lo;
    }

    /** bsNEEDW: makes room for the next field. */
    method DrainBytes()
      requires Valid()
      modifies this
      ensures Valid() && bsLive < 8 && Contents() == old(Contents()) && old(zbits) <= zbits
    {
      while bsLive >= 8
        invariant Valid() && Contents() == old(Contents()) && old(zbits) <= zbits
      {
        EmitByte();
      }
    }

    /** BZ2_bsInitWrite. */
    method Init()
      requires Valid()
      modifies this
      ensures Valid() && Contents() == ByteBits(zbits) && zbits == old(zbits) && bsLive == 0
    {
      bsBuff, bsLive, pending := 0, 0, 0;
      Shl0(32);
      assert ByteBits(zbits) + Bits(0, 0) == ByteBits(zbits);
    }

    /** numZ = 0: the bytes so far have been taken away; bits still in the buffer stay. */
    method Rewind()
      requires Valid()
      modifies this`zbits
      ensures Valid() && zbits == [] && ByteBits(old(zbits)) + Contents() == old(Contents())
    {
      hide Bits, Shl;
      zbits := [];
      assert ByteBits([]) + Bits(bsLive, pending) == Bits(bsLive, pending);
    }

    /** bsW: appends the n-bit field v. */
    method Write(n: nat, v: nat)
      requires Valid() && n <= 25 && v < Pow2(n)
      modifies this
      ensures Valid() && Contents() == old(Contents()) + Bits(n, v)
      ensures old(zbits) <= zbits && bsLive < n + 8
    {
      hide Bits, Shl, ByteBits;
      DrainBytes();
      var k := 32 - bsLive - n;
      PlaceField(pending, bsLive, n, v, k);
      assert ByteBits(zbits) + (Bits(bsLive, pending) + Bits(n, v)) == Contents() + Bits(n, v);
      bsBuff := Or(bsBuff, Shl(v, k));
      pending := Shl(pending, n) + v;
      bsLive := bsLive + n;
    }

    /** bsPutUChar. */
    method PutUChar(c: Byte)
      requires Valid()
      modifies this
      ensures Valid() && Contents() == old(Contents()) + Bits(8, c)
      ensures old(zbits) <= zbits && bsLive < 16
    {
      Shl8(1);
      Write(8, c);
    }

    /** bsPutUInt32: four byte-wide writes. */
    method PutUInt32(u: Word)
      requires Valid()
      modifies this
      ensures Valid() && Contents() == old(Contents()) + Bits(32, u)
      ensures old(zbits) <= zbits && bsLive < 16
    {
      hide Bits, Shl, ByteBits, Valid, Contents, FourBytes;
      var (a, b, c, d) := FourBytes(u);
      ghost var before := Contents();
      PutUChar(a);
      PutUChar(b);
      PutUChar(c);
      PutUChar(d);
      Bytes32(a, b, c, d);
      WholeWord32(u);
      Assoc4(before, Bits(8, a), Bits(8, b), Bits(8, c));
      Assoc(before, Bits(8, a) + Bits(8, b) + Bits(8, c), Bits(8, d));
    }

    /** bsFinishWrite: flushes the buffer, padding the last byte with zero bits. */
    method Finish()
      requires Valid()
      modifies this
      ensures Valid() && bsLive == 0
      ensures exists pad: nat :: pad < 8 && ByteBits(zbits) == old(Contents()) + Bits(pad, 0)
      ensures old(zbits) <= zbits
    {
      hide Bits, Shl, ByteBits;
      DrainBytes();
      ghost var pad := 0;
      if bsLive > 0 {
        // The counter goes to bsLive - 8 < 0: the byte holds the live bits, then zeros.
        pad := 8 - bsLive;
        PadByte(pending, bsLive);
        AppendByte(zbits, bsBuff / 0x100_0000);
        zbits := zbits + [bsBuff / 0x100_0000];
        bsBuff := bsBuff * 256 % 0x1_0000_0000;
        bsLive := 0;
        pending := 0;
        Shl0(32);
      }
      NoBits(bsLive, pending);
      assert ByteBits(zbits) == old(Contents()) + Bits(pad, 0);
    }
  }

  /** Reading the top n of the n+k live bits of a right-justified buffer. */
  lemma ReadField(junk: nat, n: nat, k: nat, pending: nat) returns (hi: nat, lo: nat)
    requires pending < Pow2(n + k)
    ensures Low(Shr(Shl(junk, n + k) + pending, k), n) == hi < Pow2(n)
    ensures Shl(junk, n + k) + pending == Shl(Shl(junk, n) + hi, k) + lo && lo < Pow2(k)
    ensures Bits(n + k, pending) == Bits(n, hi) + Bits(k, lo)
  {
    hi, lo := Split(pending, k);
    HighPart(n, hi, k);
    ShlShl(junk, n, k);
    ShlAdd(Shl(junk, n), hi, k);
    ShrShl(Shl(junk, n) + hi, k, lo);
    ShrShl(junk, n, hi);
    BitsConcat(n, hi, k, lo);
  }

  /** Shifting left by 8 drops only bits above the live ones. */
  lemma ShiftOut(junk: nat, live: nat, pending: nat) returns (keep: nat)
    requires live <= 24 && pending < Pow2(live)
    ensures (Shl(junk, live) + pending) * 256 % 0x1_0000_0000 == 256 * (Shl(keep, live) + pending)
    ensures 256 * (Shl(keep, live) + pending) < 0x1_0000_0000
  {
    hide Shl;
    var k := 24 - live;
    var drop;
    drop, keep := Split(junk, k);
    ShlAdd(Shl(drop, k), keep, live);
    ShlShl(drop, k, live);
    ShiftsUsed(drop);
    ShiftsUsed(1);
    ShlLess(keep, Pow2(k), live);
    Pow2Add(k, live);
    TopDropped(Shl(junk, live) + pending, drop, Shl(keep, live) + pending);
  }

  lemma TopDropped(y: nat, drop: nat, x: nat)
    requires y == 0x100_0000 * drop + x && x < 0x100_0000
    ensures y * 256 % 0x1_0000_0000 == 256 * x < 0x1_0000_0000
  {
    assert y * 256 == 0x1_0000_0000 * drop + 256 * x;
  }

  lemma LoadByte(junk: nat, live: nat, pending: nat, b: Byte) returns (junk': nat)
    requires live <= 24 && pending < Pow2(live)
    ensures var shifted := (Shl(junk, live) + pending) * 256 % 0x1_0000_0000;
            Or(shifted, b) == Shl(junk', live + 8) + (256 * pending + b) < 0x1_0000_0000
    ensures 256 * pending + b < Pow2(live + 8)
    ensures Bits(live + 8, 256 * pending + b) == Bits(live, pending) + Bits(8, b)
  {
    hide Shl, Bits, Or;
    junk' := ShiftOut(junk, live, pending);
    ShiftsUsed(1);
    Shl8(pending);
    BitsConcat(live, pending, 8, b);
    var x := Shl(junk', live) + pending;
    ShlShl(junk', live, 8);
    Shl8(Shl(junk', live));
    Shl8(x);
    OrDisjoint(x, 8, b);
  }

  /** The decompressor's bit buffer, right-justified in bsBuff, and the unread input
      of the current call (next_in, whose length is avail_in). */
  class BitReader {
    var bsBuff: Word
    var bsLive: nat
    var input: seq<Byte>
    ghost var pending: nat
    ghost var junk: nat

    ghost predicate Valid()
      reads `bsBuff, `bsLive, `pending, `junk
    {
      bsLive <= 32 && pending < Pow2(bsLive) && bsBuff == Shl(junk, bsLive) + pending
    }

    /** The bits taken from the input and not yet delivered. */
    ghost function Held(): (r: seq<Bit>)
      reads `bsLive, `pending
    {
      Bits(bsLive, pending)
    }

    /** All bits still to be delivered in this call. */
    ghost function Pending(): (r: seq<Bit>)
      reads this
    {
      Held() + ByteBits(input)
    }

    lemma PendingIs()
      ensures Pending() == Held() + ByteBits(input)
    {
    }

    constructor ()
      ensures Valid() && Held() == [] && input == []
    {
      bsBuff, bsLive, input, pending, junk := 0, 0, [], 0, 0;
    }

    /** A field of the buffer is delivered. */
    method TakeField(n: nat) returns (v: nat)
      requires Valid() && n <= bsLive
      modifies `bsLive, `pending, `junk
      ensures Valid() && v < Pow2(n) && old(Held()) == Bits(n, v) + Held()
    {
      hide Bits, Shl, Shr, Low, Pow2;
      var k := bsLive - n;
      ghost var hi, lo := ReadField(junk, n, k, pending);
      v := Low(Shr(bsBuff, k), n);
      bsLive := k;
      junk, pending := Shl(junk, n) + hi, lo;
    }

    /** The next byte of the input goes into the buffer. */
    method LoadNext()
      requires Valid() && bsLive <= 24 && input != []
      modifies this
      ensures Valid() && Held() == old(Held()) + Bits(8, old(input)[0]) && input == old(input)[1..]
    {
      hide Bits, Shl, Or, Pow2;
      junk := LoadByte(junk, bsLive, pending, input[0]);
      bsBuff := Or(bsBuff * 256 % 0x1_0000_0000, input[0]);
      pending := 256 * pending + input[0];
      bsLive := bsLive + 8;
      input := input[1..];
    }

    /** GET_BITS: delivers the next n bits as a number, or takes in all remaining input and
        suspends, keeping every bit. */
    method GetBits(n: nat) returns (got: bool, v: nat)
      requires Valid() && 1 <= n <= 24
      modifies this
      ensures Valid()
      ensures got <==> n <= |old(Pending())|
      ensures got ==> v < Pow2(n) && old(Pending()) == Bits(n, v) + Pending()
      ensures !got ==> input == [] && Pending() == old(Pending())
      ensures exists k: nat :: k <= |old(input)| && input == old(input)[k..]
    {
      hide *;
      ghost var taken := 0;
      while true
        invariant Valid() && Pending() == old(Pending())
        invariant taken <= |old(input)| && input == old(input)[taken..]
        decreases |input|
      {
        HeldLength();
        PendingIs();
        if bsLive >= n {
          v := TakeField(n);
          PendingIs();
          Assoc(Bits(n, v), Held(), ByteBits(input));
          return true, v;
        }
        if |input| == 0 {
          NoBytes(input);
          return false, 0;
        }
        ghost var was, byte := Held(), input[0];
        FirstByte(input);
        LoadNext();
        PendingIs();
        Assoc(was, Bits(8, byte), ByteBits(input));
        taken := taken + 1;
      }
    }

    lemma HeldLength()
      ensures |Held()| == bsLive
    {
      hide Bits;
      BitsSize(bsLive, pending);
    }
  }

  lemma BitsSize(n: nat, v: nat)
    ensures |Bits(n, v)| == n
  {
  }

  lemma NoBytes(z: seq<Byte>)
    ensures z == [] ==> ByteBits(z) == []
  {
  }

  lemma FirstByte(z: seq<Byte>)
    requires z != []
    ensures ByteBits(z) == Bits(8, z[0]) + ByteBits(z[1..])
  {
    assert z == [z[0]] + z[1..];
    ByteBitsConcat([z[0]], z[1..]);
    AppendByte([], z[0]);
    assert [] + [z[0]] == [z[0]];
  }
}

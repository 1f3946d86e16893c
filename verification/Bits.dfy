/** Bit strings, most significant bit first: the meaning of what the compressor's
    bit buffer emits and of what the decompressor's bit buffer reads. */
module BitStrings {
  import opened Basics

  /** The n low bits of v, most significant first. */
  function Bits(n: nat, v: nat): (r: seq<Bit>)
    ensures |r| == n
  {
    if n == 0 then [] else Bits(n - 1, v / 2) + [v % 2]
  }

  /** The number a bit string denotes. */
  function Val(b: seq<Bit>): (r: nat)
    ensures r < Pow2(|b|)
  {
    if b == [] then 0 else 2 * Val(b[..|b| - 1]) + b[|b| - 1]
  }

  lemma {:induction false} ValBits(n: nat, v: nat)
    requires v < Pow2(n)
    ensures Val(Bits(n, v)) == v
  {
    if n > 0 {
      ValBits(n - 1, v / 2);
      assert Bits(n, v)[..n - 1] == Bits(n - 1, v / 2);
    }
  }

  /** Two fields side by side, and the room they take. */
  lemma {:induction false} BitsConcat(m: nat, hi: nat, n: nat, lo: nat)
    requires lo < Pow2(n)
    ensures Bits(m + n, Shl(hi, n) + lo) == Bits(m, hi) + Bits(n, lo)
    ensures hi < Pow2(m) ==> Shl(hi, n) + lo < Pow2(m + n)
  {
    if n > 0 {
      var v := Shl(hi, n) + lo;
      assert v / 2 == Shl(hi, n - 1) + lo / 2 && v % 2 == lo % 2;
      BitsConcat(m, hi, n - 1, lo / 2);
    } else {
      assert Bits(m, hi) + [] == Bits(m, hi);
    }
  }

  /** The bits of a byte string, in transmission order. */
  function ByteBits(bytes: seq<Byte>): (r: seq<Bit>)
    ensures |r| == 8 * |bytes|
  {
    if bytes == [] then [] else ByteBits(bytes[..|bytes| - 1]) + Bits(8, bytes[|bytes| - 1])
  }

  lemma {:induction false} ByteBitsConcat(a: seq<Byte>, b: seq<Byte>)
    ensures ByteBits(a + b) == ByteBits(a) + ByteBits(b)
  {
    if b == [] {
      assert a + b == a;
    } else {
      assert (a + b)[..|a + b| - 1] == a + b[..|b| - 1];
      ByteBitsConcat(a, b[..|b| - 1]);
    }
  }

  lemma FieldLength(n: nat, v: nat)
    ensures |Bits(n, v)| == n
  {
  }

  lemma {:induction false} BytesLength(bytes: seq<Byte>)
    ensures |ByteBits(bytes)| == 8 * |bytes|
  {
    hide Bits;
    if bytes != [] {
      BytesLength(bytes[..|bytes| - 1]);
      FieldLength(8, bytes[|bytes| - 1]);
    }
  }
}

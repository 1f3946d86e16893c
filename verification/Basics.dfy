/** Machine words, shifts and the bitwise OR the codec uses to assemble fields. */
module Basics {
  type Byte = x: int | 0 <= x < 256
  type Word = x: int | 0 <= x < 0x1_0000_0000
  type Bit = x: int | 0 <= x < 2
  type Int32 = x: int | -0x8000_0000 <= x < 0x8000_0000

  /** x << n on an unbounded integer. */
  function Shl(x: nat, n: nat): (r: nat)
    ensures r >= x
    decreases n, x
  {
    if n == 0 then x else 2 * Shl(x, n - 1)
  }

  /** 1 << n. */
  function Pow2(n: nat): (r: nat)
    ensures r >= 1
  {
    Shl(1, n)
  }

  lemma {:induction false} ShlAdd(x: nat, y: nat, n: nat)
    ensures Shl(x + y, n) == Shl(x, n) + Shl(y, n)
  {
    if n > 0 { ShlAdd(x, y, n - 1); }
  }

  lemma {:induction false} ShlShl(x: nat, m: nat, n: nat)
    ensures Shl(Shl(x, m), n) == Shl(x, m + n)
  {
    if n > 0 { ShlShl(x, m, n - 1); }
  }

  lemma {:induction false} ShlTwice(x: nat, n: nat)
    ensures Shl(2 * x, n) == 2 * Shl(x, n)
  {
    if n > 0 { ShlTwice(x, n - 1); }
  }

  lemma ShlLess(x: nat, y: nat, n: nat)
    requires x < y
    ensures Shl(x, n) + Pow2(n) <= Shl(y, n)
  {
    ShlAdd(x, 1, n);
    ShlAdd(x + 1, y - x - 1, n);
  }

  lemma {:induction false} Shl0(n: nat)
    ensures Shl(0, n) == 0
  {
    if n > 0 { Shl0(n - 1); }
  }

  lemma Pow2Add(m: nat, n: nat)
    ensures Shl(Pow2(m), n) == Pow2(m + n)
  {
    ShlShl(1, m, n);
  }

  lemma Shl8(x: nat)
    ensures Shl(x, 8) == 256 * x
  {
    assert Shl(x, 1) == 2 * x;
    assert Shl(x, 2) == 4 * x;
    assert Shl(x, 3) == 8 * x;
    assert Shl(x, 4) == 16 * x;
    assert Shl(x, 5) == 32 * x;
    assert Shl(x, 6) == 64 * x;
    assert Shl(x, 7) == 128 * x;
  }

  lemma ShiftsUsed(x: nat)
    ensures Shl(x, 8) == 256 * x && Shl(x, 16) == 0x1_0000 * x
    ensures Shl(x, 24) == 0x100_0000 * x && Shl(x, 32) == 0x1_0000_0000 * x
  {
    Shl8(x);
    Shl8(Shl(x, 8)); ShlShl(x, 8, 8);
    Shl8(Shl(x, 16)); ShlShl(x, 16, 8);
    Shl8(Shl(x, 24)); ShlShl(x, 24, 8);
  }

  lemma {:induction false} Pow2Mono(m: nat, n: nat)
    requires m <= n
    ensures Pow2(m) <= Pow2(n)
  {
    if m < n { Pow2Mono(m, n - 1); }
  }

  /** x >> n. */
  function Shr(x: nat, n: nat): (r: nat)
    decreases n, x
  {
    if n == 0 then x else Shr(x / 2, n - 1)
  }

  /** x & ((1 << n) - 1). */
  function Low(x: nat, n: nat): (r: nat)
    ensures r < Pow2(n)
    decreases n, x
  {
    if n == 0 then 0 else 2 * Low(x / 2, n - 1) + x % 2
  }

  lemma {:induction false} ShrShl(hi: nat, n: nat, lo: nat)
    requires lo < Pow2(n)
    ensures Shr(Shl(hi, n) + lo, n) == hi && Low(Shl(hi, n) + lo, n) == lo
  {
    if n > 0 {
      assert (Shl(hi, n) + lo) / 2 == Shl(hi, n - 1) + lo / 2;
      ShrShl(hi, n - 1, lo / 2);
    }
  }

  /** Every number is a high part and an n-bit low part. */
  lemma {:induction false} Split(v: nat, n: nat) returns (hi: nat, lo: nat)
    ensures v == Shl(hi, n) + lo && lo < Pow2(n)
  {
    if n == 0 {
      hi, lo := v, 0;
    } else {
      hi, lo := Split(v / 2, n - 1);
      lo := 2 * lo + v % 2;
    }
  }

  lemma HighPart(m: nat, hi: nat, n: nat)
    requires Shl(hi, n) < Pow2(m + n)
    ensures hi < Pow2(m)
  {
    if hi >= Pow2(m) {
      Pow2Add(m, n);
      if hi > Pow2(m) { ShlLess(Pow2(m), hi, n); }
    }
  }

  /** Bitwise OR of two naturals, bit by bit. */
  function Or(x: nat, y: nat): (r: nat)
    ensures x <= r <= x + y && y <= r
    decreases x + y
  {
    if x == 0 then y
    else if y == 0 then x
    else 2 * Or(x / 2, y / 2) + (if x % 2 == 1 || y % 2 == 1 then 1 else 0)
  }

  /** Fields that do not overlap: OR adds them. */
  lemma {:induction false} OrDisjoint(x: nat, k: nat, y: nat)
    requires y < Pow2(k)
    ensures Or(Shl(x, k), y) == Shl(x, k) + y
  {
    if x != 0 && y != 0 {
      assert Shl(x, k) == 2 * Shl(x, k - 1);
      OrDisjoint(x, k - 1, y / 2);
    } else {
      Shl0(k);
    }
  }

  // --- Joining sequences, however the parts are grouped ---

  lemma Assoc<T>(a: seq<T>, b: seq<T>, c: seq<T>)
    ensures a + (b + c) == a + b + c
  {
  }

  lemma Assoc4<T>(a: seq<T>, b: seq<T>, c: seq<T>, d: seq<T>)
    ensures a + (b + c) + d == a + b + (c + d) == a + (b + c + d) == a + (b + (c + d)) == a + b + c + d
  {
  }
}

/** zlib's CRC-32 (crc32.c; section 8 of RFC 1952): the generated tables, the byte-wise and the
    four-bytes-at-a-time loops, and crc32_combine by repeated squaring over GF(2). */
module ZlibCrc32 {
  import opened XorWords

  // --- Bit-level operations, and the laws the algebra needs ---

  predicate Odd(c: bv32) { c & 1 == 1 }

  function Half(c: bv32): bv32 { c >> 1 }

  function LowByte(c: bv32): bv32 { c & 0xff }

  function DropByte(c: bv32): bv32 { c >> 8 }

  function RaiseByte(c: bv32): bv32 { c << 8 }

  function Widen(b: bv8): bv32 { b as bv32 }

  lemma OddXor(a: bv32, b: bv32)
    ensures Odd(Xor(a, b)) == (Odd(a) != Odd(b))
  {
  }

  lemma HalfXor(a: bv32, b: bv32)
    ensures Half(Xor(a, b)) == Xor(Half(a), Half(b))
  {
  }

  // --- The shift register, one zero bit at a time ---

  /** One zero bit through the register: multiply by x modulo the CRC polynomial. */
  function BitStep(c: bv32): (r: bv32) {
    Xor(When(Odd(c), 0xedb88320), Half(c))
  }

  /** k zero bits. */
  function Zeros(k: nat, c: bv32): (r: bv32)
    decreases k, c
  {
    if k == 0 then c else Zeros(k - 1, BitStep(c))
  }

  /** The register after a byte string, each byte entering at the low end. */
  function Feed(c: bv32, data: seq<bv8>): (r: bv32)
    decreases |data|
  {
    if data == [] then c else Feed(Zeros(8, Xor(c, Widen(data[0]))), data[1..])
  }

  /** The CRC update of RFC 1952: complement, feed, complement. */
  function Update(crc: bv32, data: seq<bv8>): (r: bv32) {
    Xor(Feed(Xor(crc, 0xffffffff), data), 0xffffffff)
  }

  lemma BitStepLinear(a: bv32, b: bv32)
    ensures BitStep(Xor(a, b)) == Xor(BitStep(a), BitStep(b))
  {
    hide Xor, Odd, Half, When;
    OddXor(a, b);
    HalfXor(a, b);
    WhenXor(Odd(a), Odd(b), 0xedb88320);
    XorSwap(When(Odd(a), 0xedb88320), Half(a), When(Odd(b), 0xedb88320), Half(b));
  }

  lemma {:induction false} ZerosLinear(k: nat, a: bv32, b: bv32)
    ensures Zeros(k, Xor(a, b)) == Xor(Zeros(k, a), Zeros(k, b))
    decreases k
  {
    hide Xor, BitStep;
    if k > 0 {
      BitStepLinear(a, b);
      ZerosLinear(k - 1, BitStep(a), BitStep(b));
    }
  }

  lemma {:induction false} ZerosAdd(j: nat, k: nat, c: bv32)
    ensures Zeros(j + k, c) == Zeros(k, Zeros(j, c))
    decreases j
  {
    hide BitStep;
    if j > 0 { ZerosAdd(j - 1, k, BitStep(c)); }
  }

  /** A register whose k low bits are clear only shifts. */
  function ShiftDown(k: nat, c: bv32): bv32
    decreases k, c
  {
    if k == 0 then c else ShiftDown(k - 1, Half(c))
  }

  predicate Clear(k: nat, c: bv32)
    decreases k, c
  {
    k == 0 || (!Odd(c) && Clear(k - 1, Half(c)))
  }

  lemma {:induction false} ZerosShift(k: nat, c: bv32)
    requires Clear(k, c)
    ensures Zeros(k, c) == ShiftDown(k, c)
    decreases k
  {
    hide Xor, Half, Odd;
    if k > 0 {
      XorCancel(Half(c), 0);
      ZerosShift(k - 1, Half(c));
    }
  }

  lemma FourSteps(y: bv32)
    ensures Half(Half(Half(Half(y)))) == y >> 4
    ensures y & 0xf == 0 ==> !Odd(y) && !Odd(Half(y)) && !Odd(Half(Half(y))) && !Odd(Half(Half(Half(y))))
  {
  }

  lemma Nibbles(y: bv32)
    ensures (y >> 4) >> 4 == DropByte(y)
    ensures LowByte(y) == 0 ==> y & 0xf == 0 && (y >> 4) & 0xf == 0
  {
  }

  lemma ClearNibble(k: nat, y: bv32)
    requires y & 0xf == 0
    ensures ShiftDown(k + 4, y) == ShiftDown(k, y >> 4)
    ensures Clear(k + 4, y) == Clear(k, y >> 4)
  {
    hide Half, Odd;
    FourSteps(y);
    var h1 := Half(y); var h2 := Half(h1); var h3 := Half(h2);
    assert Clear(k + 1, h3) == Clear(k, Half(h3)) && ShiftDown(k + 1, h3) == ShiftDown(k, Half(h3));
    assert Clear(k + 2, h2) == Clear(k + 1, h3) && ShiftDown(k + 2, h2) == ShiftDown(k + 1, h3);
    assert Clear(k + 3, h1) == Clear(k + 2, h2) && ShiftDown(k + 3, h1) == ShiftDown(k + 2, h2);
  }

  lemma ClearByte(y: bv32)
    requires LowByte(y) == 0
    ensures Clear(8, y) && ShiftDown(8, y) == DropByte(y)
  {
    hide Half, Odd, LowByte, DropByte;
    Nibbles(y);
    ClearNibble(4, y);
    ClearNibble(0, y >> 4);
  }

  /** Eight zero bits move a clear low byte out unchanged. */
  lemma ShiftedByte(y: bv32)
    requires LowByte(y) == 0
    ensures Zeros(8, y) == DropByte(y)
  {
    hide Xor, BitStep, Half, Odd;
    ClearByte(y);
    ZerosShift(8, y);
  }

  lemma SplitByte(c: bv32)
    ensures var high := c & 0xffffff00;
            c == Xor(LowByte(c), high) && LowByte(high) == 0 && DropByte(high) == DropByte(c)
  {
  }

  /** The table step: one table entry for the low byte, and the other bytes shifted down. */
  lemma TableStep(c: bv32)
    ensures Zeros(8, c) == Xor(Zeros(8, LowByte(c)), DropByte(c))
  {
    hide Xor, BitStep, LowByte, DropByte, Zeros;
    var high := c & 0xffffff00;
    SplitByte(c);
    ZerosLinear(8, LowByte(c), high);
    ShiftedByte(high);
  }

  lemma {:induction false} FeedConcat(c: bv32, a: seq<bv8>, b: seq<bv8>)
    ensures Feed(c, a + b) == Feed(Feed(c, a), b)
    decreases |a|
  {
    hide Xor, Zeros, Widen;
    if a == [] {
      assert a + b == b;
    } else {
      assert (a + b)[1..] == a[1..] + b;
      FeedConcat(Zeros(8, Xor(c, Widen(a[0]))), a[1..], b);
    }
  }

  /** A checksum may be computed piecewise. */
  lemma UpdateConcat(crc: bv32, a: seq<bv8>, b: seq<bv8>)
    ensures Update(crc, a + b) == Update(Update(crc, a), b)
  {
    hide Xor, Feed;
    FeedConcat(Xor(crc, 0xffffffff), a, b);
    XorCancel(Feed(Xor(crc, 0xffffffff), a), 0xffffffff);
  }

  // --- Tables (make_crc_table) ---

  /** The first four tables: entry n of table k is the register n after k+1 zero bytes. */
  ghost predicate IsTable(t: array2<bv32>)
    reads t
  {
    && t.Length0 == 4 && t.Length1 == 256
    && forall k, n :: 0 <= k < 4 && 0 <= n < 256 ==> t[k, n] == Zeros(8 * (k + 1), n as bv32)
  }

  /** The exclusive-or pattern, from the exponents of the polynomial. */
  method MakePolynomial() returns (poly: bv32)
    ensures poly == 0xedb88320
  {
    hide *;
    var p := [0, 1, 2, 4, 5, 7, 8, 10, 11, 12, 16, 22, 23, 26];
    ghost var partial: seq<bv32> :=
      [0, 0x80000000, 0xc0000000, 0xe0000000, 0xe8000000, 0xec000000, 0xed000000, 0xed800000,
       0xeda00000, 0xedb00000, 0xedb80000, 0xedb88000, 0xedb88200, 0xedb88300, 0xedb88320];
    poly := 0;
    for n := 0 to 14
      invariant poly == partial[n]
    {
      poly := poly | (1 << (31 - p[n]));
    }
  }

  /** The eight-step loop for one byte value. */
  method MakeEntry(poly: bv32, n: bv32) returns (c: bv32)
    requires poly == 0xedb88320
    ensures c == Zeros(8, n)
  {
    hide Xor, Half, Odd;
    c := n;
    for k := 0 to 8
      invariant Zeros(8, n) == Zeros(8 - k, c)
    {
      XorCancel(Half(c), 0);
      c := if Odd(c) then Xor(poly, Half(c)) else Half(c);
    }
  }

  method MakeTable() returns (t: array2<bv32>)
    ensures IsTable(t) && fresh(t)
  {
    hide *;
    var poly := MakePolynomial();
    t := new bv32[4, 256];
    for n := 0 to 256
      invariant forall m :: 0 <= m < n ==> t[0, m] == Zeros(8, m as bv32)
    {
      var c := MakeEntry(poly, n as bv32);
      t[0, n] := c;
    }
    for n := 0 to 256
      invariant forall m :: 0 <= m < 256 ==> t[0, m] == Zeros(8, m as bv32)
      invariant forall k, m :: 0 <= k < 4 && 0 <= m < n ==> t[k, m] == Zeros(8 * (k + 1), m as bv32)
    {
      FillColumn(t, n);
    }
    TableIs(t);
  }

  /** The tables' entries for one byte value, each from the one before. */
  method FillColumn(t: array2<bv32>, n: nat)
    requires t.Length0 == 4 && t.Length1 == 256 && n < 256
    requires forall m :: 0 <= m < 256 ==> t[0, m] == Zeros(8, m as bv32)
    modifies t
    ensures forall k, m :: 0 <= k < 4 && 0 <= m < 256 && m != n ==> t[k, m] == old(t[k, m])
    ensures t[0, n] == old(t[0, n])
    ensures forall k :: 0 <= k < 4 ==> t[k, n] == Zeros(8 * (k + 1), n as bv32)
  {
    hide *;
    var c := t[0, n];
    for k := 1 to 4
      invariant c == Zeros(8 * k, n as bv32)
      invariant forall m :: 0 <= m < 256 ==> t[0, m] == Zeros(8, m as bv32)
      invariant forall j, m :: 0 <= j < 4 && 0 <= m < 256 && m != n ==> t[j, m] == old(t[j, m])
      invariant forall j :: 0 <= j < k ==> t[j, n] == Zeros(8 * (j + 1), n as bv32)
    {
      ZerosAdd(8 * k, 8, n as bv32);
      c := ByteStep(t, c, 0);
      t[k, n] := c;
    }
  }

  lemma TableIs(t: array2<bv32>)
    requires t.Length0 == 4 && t.Length1 == 256
    requires forall k, m :: 0 <= k < 4 && 0 <= m < 256 ==> t[k, m] == Zeros(8 * (k + 1), m as bv32)
    ensures IsTable(t)
  {
    hide Zeros;
  }

  // --- crc32, one byte at a time ---

  lemma DropWidened(c: bv32, w: bv32)
    requires w <= 0xff
    ensures DropByte(Xor(c, w)) == DropByte(c)
  {
    assert w >> 8 == 0;
    assert (c ^ w) >> 8 == (c >> 8) ^ (w >> 8);
  }

  lemma WidenZero()
    ensures Widen(0) == 0
  {
  }

  lemma WidenBound(b: bv8)
    ensures Widen(b) <= 0xff
  {
  }

  /** A table index: the low byte of a register. */
  function Index(x: bv32): (i: nat)
    ensures i < 256 && i as bv32 == LowByte(x)
  {
    LowByteBound(x);
    LowByte(x) as int
  }

  lemma LowByteBound(x: bv32)
    ensures LowByte(x) <= 0xff
  {
  }

  /** DO1. Only the first table is used. */
  method ByteStep(t: array2<bv32>, c: bv32, b: bv8) returns (r: bv32)
    requires t.Length0 == 4 && t.Length1 == 256
    requires forall m :: 0 <= m < 256 ==> t[0, m] == Zeros(8, m as bv32)
    ensures r == Zeros(8, Xor(c, Widen(b)))
    ensures b == 0 ==> r == Zeros(8, c)
  {
    hide Xor, Zeros, LowByte, DropByte, Widen, Index;
    var x := Xor(c, Widen(b));
    TableStep(x);
    WidenBound(b);
    DropWidened(c, Widen(b));
    WidenZero();
    XorCancel(c, 0);
    r := Xor(t[0, Index(x)], DropByte(c));
  }

  method Crc32Bytes(table: array2<bv32>, crc: bv32, buf: seq<bv8>) returns (r: bv32)
    requires IsTable(table)
    ensures r == Update(crc, buf)
  {
    hide Xor, Zeros;
    var c := Xor(crc, 0xffffffff);
    for i := 0 to |buf|
      invariant Feed(c, buf[i..]) == Feed(Xor(crc, 0xffffffff), buf)
    {
      c := ByteStep(table, c, buf[i]);
      assert buf[i..][1..] == buf[i + 1..];
    }
    r := Xor(c, 0xffffffff);
  }

  // --- crc32_little, four bytes at a time ---

  /** A little-endian word load. */
  function Word4(b: seq<bv8>): (w: bv32)
    requires |b| == 4
  {
    Xor(Widen(b[0]), RaiseByte(Xor(Widen(b[1]), RaiseByte(Xor(Widen(b[2]), RaiseByte(Widen(b[3])))))))
  }

  lemma RaiseDrop(w: bv32)
    requires w <= 0xffffff
    ensures LowByte(RaiseByte(w)) == 0 && DropByte(RaiseByte(w)) == w
  {
  }

  lemma Below24(b: bv8, w: bv32)
    requires w <= 0xffff
    ensures Xor(Widen(b), RaiseByte(w)) <= 0xffffff
  {
  }

  lemma Below16(b: bv8, w: bv32)
    requires w <= 0xff
    ensures Xor(Widen(b), RaiseByte(w)) <= 0xffff
  {
  }

  /** Bytes waiting above the low byte are fed by the zero bits that push it out. */
  lemma WaitingBytes(c: bv32, b: bv8, w: bv32)
    requires w <= 0xffffff
    ensures Zeros(8, Xor(c, Xor(Widen(b), RaiseByte(w)))) == Xor(Zeros(8, Xor(c, Widen(b))), w)
  {
    hide Xor, Zeros, Widen, RaiseByte, LowByte, DropByte;
    XorLaws(c, Widen(b), RaiseByte(w));
    ZerosLinear(8, Xor(c, Widen(b)), RaiseByte(w));
    RaiseDrop(w);
    ShiftedByte(RaiseByte(w));
  }

  lemma WordIsFourBytes(c: bv32, b: seq<bv8>)
    requires |b| == 4
    ensures Zeros(32, Xor(c, Word4(b))) == Feed(c, b)
  {
    hide Xor, Zeros, Widen, RaiseByte;
    var w3 := Widen(b[3]);
    WidenBound(b[3]);
    var w2 := Xor(Widen(b[2]), RaiseByte(w3));
    Below16(b[2], w3);
    var w1 := Xor(Widen(b[1]), RaiseByte(w2));
    Below24(b[1], w2);
    var c1 := Zeros(8, Xor(c, Widen(b[0])));
    var c2 := Zeros(8, Xor(c1, Widen(b[1])));
    var c3 := Zeros(8, Xor(c2, Widen(b[2])));
    WaitingBytes(c, b[0], w1);
    WaitingBytes(c1, b[1], w2);
    WaitingBytes(c2, b[2], w3);
    ZerosAdd(8, 24, Xor(c, Word4(b)));
    ZerosAdd(8, 16, Xor(c1, w1));
    ZerosAdd(8, 8, Xor(c2, w2));
    assert Feed(c, b) == Feed(c1, b[1..]);
    assert b[1..][1..] == b[2..] && b[2..][1..] == b[3..] && b[3..][1..] == [];
    assert Feed(c1, b[1..]) == Feed(c2, b[2..]);
    assert Feed(c2, b[2..]) == Feed(c3, b[3..]);
    assert Feed(c3, b[3..]) == Feed(Zeros(8, Xor(c3, Widen(b[3]))), []);
  }

  lemma PeelByte(k: nat, x: bv32)
    ensures Zeros(8 + k, x) == Xor(Zeros(8 + k, LowByte(x)), Zeros(k, DropByte(x)))
  {
    hide Xor, Zeros, LowByte, DropByte;
    TableStep(x);
    ZerosAdd(8, k, x);
    ZerosAdd(8, k, LowByte(x));
    ZerosLinear(k, Zeros(8, LowByte(x)), DropByte(x));
  }

  lemma DropTwice(x: bv32)
    ensures DropByte(DropByte(x)) == x >> 16
  {
  }

  lemma TopByteOf(x: bv32)
    ensures DropByte(x >> 16) == LowByte(DropByte(x >> 16)) == x >> 24
  {
  }

  /** DOLIT4: each byte of the word meets its own table. */
  method WordStep(table: array2<bv32>, c: bv32, b: seq<bv8>) returns (r: bv32)
    requires IsTable(table) && |b| == 4
    ensures r == Feed(c, b)
  {
    hide Xor, Zeros, LowByte, DropByte, Word4, Feed, RaiseByte, Widen, Index;
    var x := Xor(c, Word4(b));
    WordIsFourBytes(c, b);
    PeelByte(24, x);
    PeelByte(16, DropByte(x));
    PeelByte(8, DropByte(DropByte(x)));
    TopByteOf(x);
    DropTwice(x);
    r := Xor(table[3, Index(x)],
             Xor(table[2, Index(DropByte(x))], Xor(table[1, Index(x >> 16)], table[0, Index(x >> 24)])));
  }

  /** One run of word-sized steps. */
  method WordSteps(table: array2<bv32>, c0: bv32, buf: seq<bv8>, start: nat, count: nat) returns (c: bv32)
    requires IsTable(table) && start + 4 * count <= |buf|
    ensures Feed(c, buf[start + 4 * count..]) == Feed(c0, buf[start..])
  {
    hide Feed, Zeros;
    c := c0;
    for k := 0 to count
      invariant Feed(c, buf[start + 4 * k..]) == Feed(c0, buf[start..])
    {
      var j := start + 4 * k;
      assert buf[j..] == buf[j..j + 4] + buf[j + 4..];
      FeedConcat(c, buf[j..j + 4], buf[j + 4..]);
      c := WordStep(table, c, buf[j..j + 4]);
    }
  }

  lemma FeedOne(c: bv32, buf: seq<bv8>, i: nat)
    requires i < |buf|
    ensures Feed(c, buf[i..]) == Feed(Zeros(8, Xor(c, Widen(buf[i]))), buf[i + 1..])
  {
    hide Xor, Zeros, Widen;
    assert buf[i..][1..] == buf[i + 1..];
  }

  lemma FeedNone(c: bv32)
    ensures Feed(c, []) == c
  {
  }

  /** crc32_little: single bytes up to a word boundary, words in runs of eight, single words,
      then the rest. `address` is where the buffer starts. */
  method Crc32Little(table: array2<bv32>, crc: bv32, address: nat, buf: seq<bv8>) returns (r: bv32)
    requires IsTable(table)
    ensures r == Update(crc, buf)
  {
    hide Feed, Zeros, Xor, Widen;
    var c := Xor(crc, 0xffffffff);
    var i := 0;
    while i < |buf| && (address + i) % 4 != 0
      invariant 0 <= i <= |buf|
      invariant Feed(c, buf[i..]) == Feed(Xor(crc, 0xffffffff), buf)
    {
      FeedOne(c, buf, i);
      c := ByteStep(table, c, buf[i]);
      i := i + 1;
    }
    while i + 32 <= |buf|
      invariant 0 <= i <= |buf|
      invariant Feed(c, buf[i..]) == Feed(Xor(crc, 0xffffffff), buf)
    {
      c := WordSteps(table, c, buf, i, 8);
      i := i + 32;
    }
    while i + 4 <= |buf|
      invariant 0 <= i <= |buf|
      invariant Feed(c, buf[i..]) == Feed(Xor(crc, 0xffffffff), buf)
    {
      c := WordSteps(table, c, buf, i, 1);
      i := i + 4;
    }
    while i < |buf|
      invariant 0 <= i <= |buf|
      invariant Feed(c, buf[i..]) == Feed(Xor(crc, 0xffffffff), buf)
    {
      FeedOne(c, buf, i);
      c := ByteStep(table, c, buf[i]);
      i := i + 1;
    }
    assert buf[i..] == [];
    FeedNone(c);
    r := Xor(c, 0xffffffff);
  }

  // --- crc32_combine ---

  /** Matrix rows n.. against the bits of vec: the product of gf2_matrix_times. */
  function Times(mat: seq<bv32>, n: nat, vec: bv32): (r: bv32)
    requires |mat| == 32 && n <= 32
    decreases 32 - n
  {
    if n == 32 then 0 else Xor(When(Odd(vec), mat[n]), Times(mat, n + 1, Half(vec)))
  }

  /** The largest value that has no bits left once 32-n more have been shifted out. */
  function Room(n: nat): (r: bv32)
    decreases n
  {
    if n == 0 then 0xffffffff else Half(Room(n - 1))
  }

  predicate Fits(n: nat, v: bv32) { v <= Room(n) }

  lemma RoomEnds(v: bv32)
    requires Fits(32, v)
    ensures v == 0
  {
    assert Room(8) == 0xffffff;
    assert Room(16) == 0xffff;
    assert Room(24) == 0xff;
  }

  lemma FitsAll(v: bv32)
    ensures Fits(0, v)
  {
  }

  lemma FitsHalf(n: nat, v: bv32)
    requires Fits(n, v)
    ensures Fits(n + 1, Half(v))
  {
    HalfMono(v, Room(n));
  }

  lemma HalfMono(a: bv32, b: bv32)
    requires a <= b
    ensures Half(a) <= Half(b)
  {
  }

  lemma HalfOfZero()
    ensures Half(0) == 0 && !Odd(0) && Twice(0) == 0
  {
  }

  lemma {:induction false} TimesLinear(mat: seq<bv32>, n: nat, a: bv32, b: bv32)
    requires |mat| == 32 && n <= 32
    ensures Times(mat, n, Xor(a, b)) == Xor(Times(mat, n, a), Times(mat, n, b))
    decreases 32 - n
  {
    hide Xor, Odd, Half, When;
    if n < 32 {
      HalfXor(a, b);
      OddXor(a, b);
      WhenXor(Odd(a), Odd(b), mat[n]);
      TimesLinear(mat, n + 1, Half(a), Half(b));
      XorSwap(When(Odd(a), mat[n]), Times(mat, n + 1, Half(a)), When(Odd(b), mat[n]), Times(mat, n + 1, Half(b)));
    } else {
      XorCancel(0, 0);
    }
  }

  lemma {:induction false} TimesZero(mat: seq<bv32>, n: nat)
    requires |mat| == 32 && n <= 32
    ensures Times(mat, n, 0) == 0
    decreases 32 - n
  {
    hide Xor, Odd, Half;
    HalfOfZero();
    XorCancel(0, 0);
    if n < 32 { TimesZero(mat, n + 1); }
  }

  /** gf2_matrix_times: stops at the highest set bit, within the 32 rows. */
  method MatrixTimes(mat: array<bv32>, vec: bv32) returns (sum: bv32)
    requires mat.Length == 32
    ensures sum == Times(mat[..], 0, vec)
  {
    hide Xor, Odd, Half, Fits;
    sum := 0;
    ghost var m := mat[..];
    var v, n := vec, 0;
    FitsAll(vec);
    XorCancel(Times(m, 0, vec), 0);
    while v != 0
      invariant n <= 32 && Fits(n, v)
      invariant Xor(sum, Times(m, n, v)) == Times(m, 0, vec)
      decreases 32 - n
    {
      if n == 32 { RoomEnds(v); }
      FitsHalf(n, v);
      XorLaws(sum, When(Odd(v), mat[n]), Times(m, n + 1, Half(v)));
      XorCancel(sum, 0);
      if Odd(v) {
        sum := Xor(sum, mat[n]);
      }
      v := Half(v);
      n := n + 1;
    }
    TimesZero(m, n);
    XorCancel(sum, 0);
  }

  /** gf2_matrix_square. */
  method MatrixSquare(square: array<bv32>, mat: array<bv32>)
    requires square.Length == 32 && mat.Length == 32 && square != mat
    modifies square
    ensures forall v :: Times(square[..], 0, v) == Times(mat[..], 0, Times(mat[..], 0, v))
  {
    hide Times;
    for n := 0 to 32
      invariant forall m :: 0 <= m < n ==> square[m] == Times(mat[..], 0, mat[m])
    {
      square[n] := MatrixTimes(mat, mat[n]);
    }
    forall v ensures Times(square[..], 0, v) == Times(mat[..], 0, Times(mat[..], 0, v)) {
      SquareTimes(square[..], mat[..], 0, v);
    }
  }

  lemma {:induction false} SquareTimes(square: seq<bv32>, mat: seq<bv32>, n: nat, v: bv32)
    requires |square| == 32 && |mat| == 32 && n <= 32
    requires forall m :: 0 <= m < 32 ==> square[m] == Times(mat, 0, mat[m])
    ensures Times(square, n, v) == Times(mat, 0, Times(mat, n, v))
    decreases 32 - n
  {
    hide Xor, Odd, Half;
    TimesZero(mat, 0);
    if n < 32 {
      SquareTimes(square, mat, n + 1, Half(v));
      TimesLinear(mat, 0, When(Odd(v), mat[n]), Times(mat, n + 1, Half(v)));
    }
  }

  /** mat is the operator for k zero bits. */
  ghost predicate IsZeros(mat: seq<bv32>, k: nat) {
    |mat| == 32 && forall v :: Times(mat, 0, v) == Zeros(k, v)
  }

  /** Row n of the one-bit operator, from row 1 on: w shifted up n-1 times. */
  function Up(n: nat, w: bv32): (r: bv32)
    decreases n, w
  {
    if n <= 1 then w else Up(n - 1, Twice(w))
  }

  lemma {:induction false} UpLinear(n: nat, a: bv32, b: bv32)
    ensures Up(n, Xor(a, b)) == Xor(Up(n, a), Up(n, b))
    decreases n
  {
    hide Xor, Twice;
    if n > 1 {
      TwiceXor(a, b);
      UpLinear(n - 1, Twice(a), Twice(b));
    }
  }

  lemma {:induction false} UpZero(n: nat)
    ensures Up(n, 0) == 0
    decreases n
  {
    hide Twice;
    HalfOfZero();
    if n > 1 { UpZero(n - 1); }
  }

  lemma {:induction false} UpShift(n: nat, w: bv32)
    ensures Up(n, Twice(w)) == Twice(Up(n, w))
    decreases n
  {
    hide Twice;
    if n > 1 { UpShift(n - 1, Twice(w)); }
  }

  lemma LowBit(w: bv32)
    ensures w == Xor(When(Odd(w), 1), Twice(Half(w)))
  {
  }

  lemma {:induction false} RowsShift(mat: seq<bv32>, n: nat, w: bv32)
    requires |mat| == 32 && 1 <= n <= 32 && Fits(n, w)
    requires forall m :: 1 <= m < 32 ==> mat[m] == Up(m, 1)
    ensures Times(mat, n, w) == Up(n, w)
    decreases 32 - n
  {
    hide Xor, Odd, Half, Twice, Fits;
    UpZero(n);
    if n < 32 {
      FitsHalf(n, w);
      RowsShift(mat, n + 1, Half(w));
      LowBit(w);
      UpLinear(n, When(Odd(w), 1), Twice(Half(w)));
    } else {
      RoomEnds(w);
    }
  }

  lemma OneBitOperator(mat: seq<bv32>)
    requires |mat| == 32 && mat[0] == 0xedb88320
    requires forall m :: 1 <= m < 32 ==> mat[m] == Up(m, 1)
    ensures IsZeros(mat, 1)
  {
    hide Xor, Odd, Half, Twice, Fits;
    forall v ensures Times(mat, 0, v) == Zeros(1, v) {
      FitsAll(v);
      FitsHalf(0, v);
      RowsShift(mat, 1, Half(v));
      assert Zeros(1, v) == Zeros(0, BitStep(v));
    }
  }

  lemma SquareDoubles(mat: seq<bv32>, square: seq<bv32>, k: nat)
    requires IsZeros(mat, k) && |square| == 32
    requires forall v :: Times(square, 0, v) == Times(mat, 0, Times(mat, 0, v))
    ensures IsZeros(square, 2 * k)
  {
    hide Times, Zeros;
    forall v ensures Times(square, 0, v) == Zeros(2 * k, v) {
      ZerosAdd(k, k, v);
    }
  }

  /** One bit of the length: an odd count applies the operator once, then counts in pairs. */
  lemma HalveLength(unit: nat, len: nat, c: bv32)
    ensures Zeros(unit * len, c)
         == Zeros((2 * unit) * (len / 2), if len % 2 == 1 then Zeros(unit, c) else c)
  {
    hide Zeros;
    var q := len / 2;
    HalfProduct(unit, q);
    if len % 2 == 1 {
      assert len == 2 * q + 1;
      ZerosAdd(unit, (2 * unit) * q, c);
    } else {
      assert len == 2 * q;
    }
  }

  lemma HalfProduct(unit: nat, q: nat)
    ensures unit * (2 * q) == (2 * unit) * q && unit * (2 * q + 1) == unit + (2 * unit) * q && (2 * unit) * q >= 0
  {
  }

  /** The two operator matrices at the head of the loop: odd stands for four zero bits. */
  method Operators() returns (even: array<bv32>, odd: array<bv32>)
    ensures even.Length == 32 && odd.Length == 32 && even != odd && fresh(even) && fresh(odd)
    ensures IsZeros(odd[..], 4)
  {
    hide Times, Zeros, Twice;
    even, odd := new bv32[32], new bv32[32];
    odd[0] := 0xedb88320;
    var row: bv32 := 1;
    for n := 1 to 32
      invariant odd[0] == 0xedb88320 && row == Up(n, 1)
      invariant forall m :: 1 <= m < n ==> odd[m] == Up(m, 1)
    {
      odd[n] := row;
      UpShift(n, 1);
      row := Twice(row);
    }
    OneBitOperator(odd[..]);
    MatrixSquare(even, odd);
    SquareDoubles(odd[..], even[..], 1);
    MatrixSquare(odd, even);
    SquareDoubles(even[..], odd[..], 2);
  }

  /** len2 after n turns of the loop: C's shift of a signed number rounds down. */
  function Shifted(len2: int, n: nat): int {
    if n == 0 then len2 else Shifted(len2, n - 1) / 2
  }

  lemma {:induction false} ShiftedBound(len2: int, n: nat)
    ensures len2 < 0 ==> Shifted(len2, n) < 0
    ensures len2 >= 0 ==> 0 <= Shifted(len2, n) && (Shifted(len2, n) == 0 || Shifted(len2, n) <= len2 - n)
  {
    if n > 0 { ShiftedBound(len2, n - 1); }
  }

  /** The loop of crc32_combine ends if and only if the length is not negative. */
  lemma LengthRunsOut(len2: int)
    ensures (exists n: nat :: Shifted(len2, n) == 0) <==> len2 >= 0
  {
    if len2 >= 0 {
      ShiftedBound(len2, len2);
      assert Shifted(len2, len2) == 0;
    }
    if n: nat :| Shifted(len2, n) == 0 { ShiftedBound(len2, n); }
  }

  /** crc32_combine, for a length that is not negative: crc1 moved past len2 zero bytes, then the second checksum added. */
  method Crc32Combine(crc1: bv32, crc2: bv32, len2: nat) returns (r: bv32)
    ensures r == if len2 == 0 then crc1 else Xor(Zeros(8 * len2, crc1), crc2)
  {
    hide Times, Zeros, Xor;
    if len2 == 0 { return crc1; }
    var even, odd := Operators();
    var c, len := crc1, len2;
    ghost var unit := 8;
    while true
      invariant len > 0 && unit % 2 == 0 && IsZeros(odd[..], unit / 2)
      invariant Zeros(8 * len2, crc1) == Zeros(unit * len, c)
      decreases len
    {
      MatrixSquare(even, odd);
      SquareDoubles(odd[..], even[..], unit / 2);
      HalveLength(unit, len, c);
      if len % 2 == 1 { c := MatrixTimes(even, c); }
      len := len / 2;
      if len == 0 { NoZeros(2 * unit, c); break; }

      MatrixSquare(odd, even);
      SquareDoubles(even[..], odd[..], unit);
      HalveLength(2 * unit, len, c);
      if len % 2 == 1 { c := MatrixTimes(odd, c); }
      len := len / 2;
      unit := 4 * unit;
      if len == 0 { NoZeros(unit, c); break; }
    }
    r := Xor(c, crc2);
  }

  lemma NoZeros(unit: nat, c: bv32)
    ensures Zeros(unit * 0, c) == c
  {
  }

  lemma {:induction false} FeedAffine(c: bv32, d: bv32, data: seq<bv8>)
    ensures Feed(Xor(c, d), data) == Xor(Feed(c, data), Zeros(8 * |data|, d))
    decreases |data|
  {
    hide Xor, BitStep, Widen;
    if data != [] {
      var b := Widen(data[0]);
      XorLaws(c, d, b);
      XorLaws(c, b, d);
      XorLaws(b, d, 0);
      ZerosLinear(8, Xor(c, b), d);
      FeedAffine(Zeros(8, Xor(c, b)), Zeros(8, d), data[1..]);
      ZerosAdd(8, 8 * |data[1..]|, d);
    }
  }

  /** What crc32_combine is for: two checksums and the second length give the checksum of the
      concatenation, whatever the first part was started from. */
  lemma CombineIsConcat(init: bv32, a: seq<bv8>, b: seq<bv8>)
    ensures Update(init, a + b)
         == if b == [] then Update(init, a) else Xor(Zeros(8 * |b|, Update(init, a)), Update(0, b))
  {
    hide Xor, Zeros, Feed;
    UpdateConcat(init, a, b);
    var crc1, ones: bv32 := Update(init, a), 0xffffffff;
    if b == [] {
      FeedNone(Xor(crc1, ones));
      XorCancel(crc1, ones);
    } else {
      XorLaws(crc1, ones, 0);
      FeedAffine(ones, crc1, b);
      XorCancel(ones, 0);
      var f, z := Feed(ones, b), Zeros(8 * |b|, crc1);
      XorLaws(f, z, ones);
      XorLaws(z, f, ones);
    }
  }

  /** The checksum of a concatenation from the checksums of its parts. */
  method CombineParts(table: array2<bv32>, a: seq<bv8>, b: seq<bv8>) returns (whole: bv32)
    requires IsTable(table)
    ensures whole == Update(0, a + b)
  {
    hide Xor, Zeros, Update;
    var crc1 := Crc32Bytes(table, 0, a);
    var crc2 := Crc32Bytes(table, 0, b);
    whole := Crc32Combine(crc1, crc2, |b|);
    CombineIsConcat(0, a, b);
  }
}

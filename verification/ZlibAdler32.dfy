/** zlib's Adler-32 (adler32.c; section 2.2 of RFC 1950): deferred reduction and combination. */
module ZlibAdler32 {
  import opened Basics

  /** A running checksum, its two sums not yet reduced modulo 65521. */
  datatype Sums = Sums(a: nat, b: nat)

  /** Adding bytes one by one: the first sum adds them, the second adds the first. */
  function Run(s: Sums, data: seq<Byte>): (r: Sums)
    decreases |data|
  {
    if data == [] then s else Run(Step(s, data[0]), data[1..])
  }

  function Step(s: Sums, d: Byte): Sums {
    Sums(s.a + d, s.b + s.a + d)
  }

  function Reduced(s: Sums): (r: Sums)
    ensures r.a < 65521 && r.b < 65521
  {
    Sums(s.a % 65521, s.b % 65521)
  }

  /** The two 16-bit halves of a checksum word, and the word of two halves. */
  function Unpack(adler: nat): (s: Sums)
    ensures s.a < 65536 && s.b < 65536
  {
    Sums(adler % 65536, adler / 65536 % 65536)
  }

  function Pack(s: Sums): nat {
    Or(Shl(s.b, 16), s.a)
  }

  lemma PackUnpack(s: Sums)
    requires s.a < 65536 && s.b < 65536
    ensures Unpack(Pack(s)) == s && Pack(s) < 0x1_0000_0000
  {
    hide Pack;
    PackValue(s);
  }

  lemma PackValue(s: Sums)
    requires s.a < 65536 && s.b < 65536
    ensures Pack(s) == 0x1_0000 * s.b + s.a
  {
    hide Shl, Or;
    ShiftsUsed(1);
    ShiftsUsed(s.b);
    OrDisjoint(s.b, 16, s.a);
  }

  lemma {:induction false} RunConcat(s: Sums, x: seq<Byte>, y: seq<Byte>)
    ensures Run(s, x + y) == Run(Run(s, x), y)
    decreases |x|
  {
    if x == [] {
      assert x + y == y;
    } else {
      assert (x + y)[1..] == x[1..] + y;
      RunConcat(Step(s, x[0]), x[1..], y);
    }
  }

  function Total(data: seq<Byte>): (t: nat) {
    if data == [] then 0 else data[0] + Total(data[1..])
  }

  /** Each byte as often as there are bytes from it to the end. */
  function Weighted(data: seq<Byte>): (t: nat) {
    if data == [] then 0 else Times(|data|, data[0]) + Weighted(data[1..])
  }

  function Times(x: nat, y: nat): nat { x * y }

  /** The two sums as RFC 1950 describes them: the sum of all bytes, and the sum of all values the first sum
      takes. */
  lemma {:induction false} RunIs(s: Sums, data: seq<Byte>)
    ensures Run(s, data).a == s.a + Total(data)
    ensures Run(s, data).b == s.b + Times(|data|, s.a) + Weighted(data)
    decreases |data|
  {
    if data != [] {
      var x: nat := data[0];
      RunIs(Step(s, x), data[1..]);
      OneFewer(|data|, s.a, x);
      hide Times;
    }
  }

  lemma OneFewer(n: nat, a: nat, x: nat)
    requires n >= 1
    ensures a + x + Times(n - 1, a + x) == Times(n, a) + Times(n, x)
  {
  }

  /** The checksum of "Wikipedia" from 1 is 0x11e60398. */
  lemma KnownChecksum()
    ensures Reduced(Run(Sums(1, 0), [0x57, 0x69, 0x6b, 0x69, 0x70, 0x65, 0x64, 0x69, 0x61])) == Sums(0x0398, 0x11e6)
    ensures Unpack(0x11e6_0398) == Sums(0x0398, 0x11e6) && Unpack(1) == Sums(1, 0)
  {
    var data: seq<Byte> := [0x57, 0x69, 0x6b, 0x69, 0x70, 0x65, 0x64, 0x69, 0x61];
    RunAt(Sums(1, 0), data, 0);
    RunAt(Sums(88, 88), data, 1);
    RunAt(Sums(193, 281), data, 2);
    RunAt(Sums(300, 581), data, 3);
    RunAt(Sums(405, 986), data, 4);
    RunAt(Sums(517, 1503), data, 5);
    RunAt(Sums(618, 2121), data, 6);
    RunAt(Sums(718, 2839), data, 7);
    RunAt(Sums(823, 3662), data, 8);
    hide Run;
    assert data[0..] == data;
  }

  lemma RunAt(s: Sums, data: seq<Byte>, k: nat)
    requires k < |data|
    ensures Run(s, data[k..]) == Run(Step(s, data[k]), data[k + 1..])
    ensures k + 1 == |data| ==> Run(s, data[k..]) == Step(s, data[k])
  {
    assert data[k..][1..] == data[k + 1..];
  }

  /** Reducing early or late makes no difference modulo 65521. */
  lemma {:induction false} RunReduced(s: Sums, t: Sums, data: seq<Byte>)
    requires Reduced(s) == Reduced(t)
    ensures Reduced(Run(s, data)) == Reduced(Run(t, data))
    decreases |data|
  {
    if data != [] {
      StepReduced(s, t, data[0]);
      RunReduced(Step(s, data[0]), Step(t, data[0]), data[1..]);
    }
  }

  lemma StepReduced(s: Sums, t: Sums, d: Byte)
    requires Reduced(s) == Reduced(t)
    ensures Reduced(Step(s, d)) == Reduced(Step(t, d))
  {
    Congruent(s.a, t.a, d, d);
    Congruent(s.b, t.b, s.a + d, t.a + d);
  }

  lemma AddMultiple(x: int, k: int)
    ensures (x + 65521 * k) % 65521 == x % 65521
  {
  }

  lemma Congruent(x: int, y: int, u: int, v: int)
    requires x % 65521 == y % 65521 && u % 65521 == v % 65521
    ensures (x + u) % 65521 == (y + v) % 65521
  {
    var k := (x / 65521 - y / 65521) + (u / 65521 - v / 65521);
    assert x + u == (y + v) + 65521 * k;
    AddMultiple(y + v, k);
  }

  // --- 32-bit bounds on deferred reduction ---

  /** How large the second sum can be after n bytes, from any two 16-bit halves. */
  function Bound(n: nat): (r: nat)
    ensures r >= 65535
  {
    if n == 0 then 65535 else Bound(n - 1) + 65535 + 255 * n
  }

  lemma {:induction false} BoundMono(m: nat, n: nat)
    requires m <= n
    ensures Bound(m) <= Bound(n)
  {
    if m < n { BoundMono(m, n - 1); }
  }

  lemma {:induction false} BoundClosed(n: nat)
    ensures 2 * Bound(n) == 131070 * (n + 1) + 255 * (n * (n + 1))
  {
    if n > 0 {
      BoundClosed(n - 1);
      assert n * (n + 1) == (n - 1) * n + 2 * n;
    }
  }

  /** NMAX bytes fit, even when the caller's halves are not reduced. */
  lemma BlockFits(n: nat)
    requires n <= 5552
    ensures Bound(n) < 0x1_0000_0000
  {
    BoundClosed(5552);
    BoundMono(n, 5552);
  }

  /** NMAX is the largest block length that fits, from two reduced halves. */
  lemma BlockLengthIsLargest(n: nat)
    ensures 255 * (n * (n + 1)) / 2 + (n + 1) * 65520 <= 0xffff_ffff <==> n <= 5552
  {
    if n >= 5553 {
      assert n * (n + 1) >= 5553 * 5554;
    } else {
      assert n * (n + 1) <= 5552 * 5553;
    }
  }

  ghost predicate Within(s: Sums, n: nat) {
    s.a <= 65535 + 255 * n && s.b <= Bound(n)
  }

  // --- adler32 ---

  /** The loops that only add: n bytes from position i, no reduction, no overflow. */
  method AddBytes(s: Sums, buf: seq<Byte>, i: nat, n: nat, ghost done: nat) returns (r: Sums)
    requires i + n <= |buf| && Within(s, done) && done + n <= 5552
    ensures r == Run(s, buf[i..i + n]) && Within(r, done + n)
    ensures r.a < 0x1_0000_0000 && r.b < 0x1_0000_0000
  {
    r := s;
    for k := 0 to n
      invariant Run(r, buf[i + k..i + n]) == Run(s, buf[i..i + n])
      invariant Within(r, done + k)
    {
      BlockFits(done + k + 1);
      var adler := r.a + buf[i + k];
      var sum2 := r.b + adler;
      assert adler < 0x1_0000_0000 && sum2 < 0x1_0000_0000;
      r := Sums(adler, sum2);
      assert buf[i + k..i + n][1..] == buf[i + k + 1..i + n];
    }
    BlockFits(done + n);
    assert buf[i + n..i + n] == [];
  }

  lemma RunSlices(s: Sums, buf: seq<Byte>, i: nat, j: nat, k: nat)
    requires i <= j <= k <= |buf|
    ensures Run(s, buf[i..k]) == Run(Run(s, buf[i..j]), buf[j..k])
  {
    assert buf[i..k] == buf[i..j] + buf[j..k];
    RunConcat(s, buf[i..j], buf[j..k]);
  }

  lemma RunNone(s: Sums, data: seq<Byte>)
    requires data == []
    ensures Run(s, data) == s
  {
  }

  /** One block of at least one byte and at most NMAX, then the two reductions. */
  method AddBlock(s: Sums, buf: seq<Byte>, i: nat, n: nat) returns (r: Sums)
    requires i + n <= |buf| && n <= 5552 && s.a < 65536 && s.b < 65536
    ensures r == Reduced(Run(s, buf[i..i + n]))
  {
    hide Run;
    assert Within(s, 0) by { BoundClosed(0); }
    assert Run(s, buf[i..i]) == s by { RunNone(s, buf[i..i]); }
    var whole := n / 16;
    r := s;
    for k := 0 to whole
      invariant r == Run(s, buf[i..i + 16 * k]) && Within(r, 16 * k)
    {
      var q := AddBytes(r, buf, i + 16 * k, 16, 16 * k);
      RunSlices(s, buf, i, i + 16 * k, i + 16 * k + 16);
      r := q;
    }
    RunSlices(s, buf, i, i + 16 * whole, i + n);
    r := AddBytes(r, buf, i + 16 * whole, n - 16 * whole, 16 * whole);
    r := Sums(r.a % 65521, r.b % 65521);
  }

  /** The one-byte path does not divide: its second half stays unreduced exactly when the caller's
      second half was itself out of range. */
  ghost predicate OneByteOverrun(adler: nat, buf: seq<Byte>) {
    |buf| == 1 && Unpack(adler).b + (Unpack(adler).a + buf[0]) % 65521 >= 2 * 65521
  }

  method Adler32(adler: nat, buf: seq<Byte>) returns (r: nat)
    ensures Reduced(Unpack(r)) == Reduced(Run(Unpack(adler), buf))
    ensures !OneByteOverrun(adler, buf) <==> Unpack(r) == Reduced(Run(Unpack(adler), buf))
    ensures r < 0x1_0000_0000
  {
    hide Pack, Shl, Or, Run, Unpack;
    var s := Unpack(adler);
    if |buf| == 1 {
      s := OneByte(s, buf);
    } else if |buf| < 16 {
      s := ShortRun(s, buf);
    } else {
      s := LongRun(s, buf);
    }
    PackUnpack(s);
    r := Pack(s);
  }

  method OneByte(s: Sums, buf: seq<Byte>) returns (r: Sums)
    requires |buf| == 1 && s.a < 65536 && s.b < 65536
    ensures r.a < 65536 && r.b < 65536
    ensures Reduced(r) == Reduced(Run(s, buf))
    ensures r == Reduced(Run(s, buf)) <==> s.b + (s.a + buf[0]) % 65521 < 2 * 65521
  {
    hide Run, Reduced;
    RunOne(s, buf);
    var a := s.a + buf[0];
    OneWrap(a);
    if a >= 65521 { a := a - 65521; }
    var b := s.b + a;
    OneWrap(b);
    Congruent(s.b, s.b, a, s.a + buf[0]);
    if b >= 65521 { b := b - 65521; }
    r := Sums(a, b);
  }

  /** One subtraction reduces exactly what is below 2 * 65521. */
  lemma OneWrap(x: nat)
    ensures var y := if x >= 65521 then x - 65521 else x;
            y % 65521 == x % 65521 && (y == x % 65521 <==> x < 2 * 65521)
  {
  }

  lemma RunOne(s: Sums, buf: seq<Byte>)
    requires |buf| == 1
    ensures Reduced(Run(s, buf)) == Sums((s.a + buf[0]) % 65521, (s.b + (s.a + buf[0])) % 65521)
    ensures forall a: nat, b: nat :: Reduced(Sums(a, b)) == Sums(a % 65521, b % 65521)
  {
    assert buf[1..] == [];
  }

  method ShortRun(s: Sums, buf: seq<Byte>) returns (r: Sums)
    requires |buf| < 16 && s.a < 65536 && s.b < 65536
    ensures r == Reduced(Run(s, buf))
  {
    assert Within(s, 0);
    var t := AddBytes(s, buf, 0, |buf|, 0);
    assert buf[0..0 + |buf|] == buf;
    var a := t.a;
    if a >= 65521 { a := a - 65521; }
    r := Sums(a, t.b % 65521);
  }

  method LongRun(s0: Sums, buf: seq<Byte>) returns (s: Sums)
    requires |buf| >= 16 && s0.a < 65536 && s0.b < 65536
    ensures s == Reduced(Run(s0, buf))
  {
    var i := 0;
    s := s0;
    while |buf| - i >= 5552
      invariant i <= |buf| && s.a < 65536 && s.b < 65536
      invariant i > 0 ==> s == Reduced(s)
      invariant Reduced(Run(s, buf[i..])) == Reduced(Run(s0, buf))
    {
      s := AddAndReduce(s, buf, i, 5552);
      i := i + 5552;
    }
    if i < |buf| {
      s := AddAndReduce(s, buf, i, |buf| - i);
      i := |buf|;
    }
    assert buf[i..] == [];
  }

  method AddAndReduce(s: Sums, buf: seq<Byte>, i: nat, n: nat) returns (r: Sums)
    requires i + n <= |buf| && n <= 5552 && s.a < 65536 && s.b < 65536
    ensures r == Reduced(r)
    ensures Reduced(Run(r, buf[i + n..])) == Reduced(Run(s, buf[i..]))
  {
    r := AddBlock(s, buf, i, n);
    RunSlices(s, buf, i, i + n, |buf|);
    assert buf[i..|buf|] == buf[i..] && buf[i + n..|buf|] == buf[i + n..];
    RunReduced(r, Run(s, buf[i..i + n]), buf[i + n..]);
  }

  // --- adler32_combine ---

  /** The strict comparisons of adler32_combine leave a zero residue as 65521. */
  function NonZero(x: int): (r: nat)
    ensures 1 <= r <= 65521 && r % 65521 == x % 65521
  {
    if x % 65521 == 0 then 65521 else x % 65521
  }

  lemma MulMod(x: nat, y: nat)
    ensures (x % 65521) * y % 65521 == x * y % 65521
  {
    var q, m := x / 65521, x % 65521;
    assert x * y == m * y + 65521 * (q * y) by {
      assert x == m + 65521 * q;
      assert (m + 65521 * q) * y == m * y + 65521 * q * y;
      assert 65521 * q * y == 65521 * (q * y);
    }
    AddMultiple(m * y, q * y);
  }

  /** rem * sum1 fits 32 bits. */
  function Product(rem: nat, sum1: nat): (r: nat)
    requires rem <= 65520 && sum1 <= 65535
    ensures r == rem * sum1 < 0x1_0000_0000
  {
    MulBound(rem, sum1);
    rem * sum1
  }

  lemma MulBound(x: nat, y: nat)
    requires x <= 65520 && y <= 65535
    ensures x * y <= 65520 * 65535
  {
    assert (65520 - x) * y >= 0;
    assert (65520 - x) * y == 65520 * y - x * y;
  }

  /** The subtractions bring a sum into 1..65521, unless it was too large for them. */
  lemma Trimmed(total: nat, r: nat, x: int, limit: nat)
    requires total % 65521 == x % 65521 && r >= 1 && limit % 65521 == 0
    requires r == total || r == total - 65521 || r == total - 131042 || r == total - 196563
    requires r <= 65521 <==> total <= limit
    ensures r == NonZero(x) <==> total <= limit
    ensures r % 65521 == x % 65521
  {
  }

  /** The words for which the four subtractions suffice. Halves up to 65521, as every checksum has, are
      among them. */
  predicate Combinable(s: Sums, t: Sums, len2: nat) {
    s.a + t.a <= 131043 && len2 * s.a % 65521 + s.b + t.b - len2 % 65521 <= 196563
  }

  lemma ChecksumsCombinable(s: Sums, t: Sums, len2: nat)
    requires s.a <= 65521 && s.b <= 65521 && t.a <= 65521 && t.b <= 65521
    ensures Combinable(s, t, len2)
  {
    SmallResidue(len2 * s.a);
  }

  lemma SmallResidue(x: nat)
    ensures 0 <= x % 65521 <= 65520
  {
  }

  /** The words whose result has two halves of 16 bits. */
  predicate Packable(s: Sums, t: Sums, len2: nat) {
    s.a + t.a <= 131057 && len2 * s.a % 65521 + s.b + t.b - len2 % 65521 <= 196577
  }

  lemma CombinableIsPackable(s: Sums, t: Sums, len2: nat)
    ensures Combinable(s, t, len2) ==> Packable(s, t, len2)
  {
  }

  method Adler32Combine(adler1: nat, adler2: nat, len2: nat) returns (r: nat)
    ensures Combinable(Unpack(adler1), Unpack(adler2), len2) ==>
              r == Pack(Combined(Unpack(adler1), Unpack(adler2), len2)) < 0x1_0000_0000
    ensures Packable(Unpack(adler1), Unpack(adler2), len2) ==>
              r < 0x1_0000_0000 && Reduced(Unpack(r)) == Reduced(Combined(Unpack(adler1), Unpack(adler2), len2))
    ensures exists c: Sums :: r == Pack(c) && Reduced(c) == Reduced(Combined(Unpack(adler1), Unpack(adler2), len2))
                              && (c.a < 65536 && c.b < 65536 <==> Packable(Unpack(adler1), Unpack(adler2), len2))
  {
    hide *;
    HalvesFit(adler1);
    HalvesFit(adler2);
    var c := CombineSums(Unpack(adler1), Unpack(adler2), len2);
    CombinableIsPackable(Unpack(adler1), Unpack(adler2), len2);
    if c.a < 65536 && c.b < 65536 { PackUnpack(c); }
    r := Pack(c);
  }

  lemma HalvesFit(adler: nat)
    ensures Unpack(adler).a < 65536 && Unpack(adler).b < 65536
  {
  }

  /** For any two words of 16-bit halves: the residues are right, and the halves are those of Combined
      exactly for the words of Combinable. */
  method CombineSums(s: Sums, t: Sums, len2: nat) returns (c: Sums)
    requires s.a < 65536 && s.b < 65536 && t.a < 65536 && t.b < 65536
    ensures c == Combined(s, t, len2) <==> Combinable(s, t, len2)
    ensures Reduced(c) == Reduced(Combined(s, t, len2))
    ensures c.a < 65536 && c.b < 65536 <==> Packable(s, t, len2)
  {
    hide NonZero;
    var rem := len2 % 65521;
    var sum1 := s.a;
    var sum2 := Product(rem, sum1);
    MulMod(len2, s.a);
    SmallResidue(sum2);
    CombineResidue(s, t, len2, sum2, sum2 % 65521 + s.b + t.b + 65521 - rem);
    sum2 := sum2 % 65521;
    sum1 := sum1 + t.a + 65520;
    sum2 := sum2 + s.b + t.b + 65521 - rem;
    ghost var total1, total2 := sum1, sum2;
    if sum1 > 65521 { sum1 := sum1 - 65521; }
    if sum1 > 65521 { sum1 := sum1 - 65521; }
    if sum2 > 131042 { sum2 := sum2 - 131042; }
    if sum2 > 65521 { sum2 := sum2 - 65521; }
    AddMultiple(s.a + t.a - 1, 1);
    NonZeroResidue(s.a + t.a - 1);
    NonZeroResidue(s.b + t.b + len2 * s.a - len2);
    Trimmed(total1, sum1, s.a + t.a - 1, 196563);
    Trimmed(total2, sum2, s.b + t.b + len2 * s.a - len2, 262084);
    c := Sums(sum1, sum2);
  }

  lemma NonZeroResidue(x: int)
    ensures NonZero(x) % 65521 == x % 65521
  {
  }

  lemma CombineResidue(s: Sums, t: Sums, len2: nat, product: nat, sum2: nat)
    requires product % 65521 == len2 * s.a % 65521
    requires sum2 == product % 65521 + s.b + t.b + 65521 - len2 % 65521
    ensures sum2 % 65521 == (s.b + t.b + len2 * s.a - len2) % 65521
  {
    var p := len2 * s.a;
    assert sum2 == p % 65521 + s.b + t.b + 65521 - len2 % 65521;
    assert p % 65521 == p - 65521 * (p / 65521);
    assert len2 % 65521 == len2 - 65521 * (len2 / 65521);
    AddMultiple(s.b + t.b + p - len2, 1 - p / 65521 + len2 / 65521);
  }

  /** What adler32_combine computes from two checksums and the second length. */
  function Combined(s: Sums, t: Sums, len2: nat): (r: Sums)
    ensures 1 <= r.a <= 65521 && 1 <= r.b <= 65521
  {
    Sums(NonZero(s.a + t.a - 1), NonZero(s.b + t.b + len2 * s.a - len2))
  }

  /** Starting from other sums shifts the totals. */
  lemma {:induction false} RunFrom(s: Sums, data: seq<Byte>)
    ensures Run(s, data).a == s.a + Run(Sums(1, 0), data).a - 1
    ensures Run(s, data).b == s.b + Run(Sums(1, 0), data).b + |data| * s.a - |data|
  {
    RunShift(Sums(1, 0), s.a - 1, s.b, data);
    assert |data| * (s.a - 1) == |data| * s.a - |data|;
  }

  lemma {:induction false} RunShift(s: Sums, da: int, db: int, data: seq<Byte>)
    requires s.a + da >= 0 && s.b + db >= 0 && (s.b + db) + |data| * (s.a + da) >= 0
    ensures Run(Sums(s.a + da, s.b + db), data).a == Run(s, data).a + da
    ensures Run(Sums(s.a + da, s.b + db), data).b == Run(s, data).b + db + |data| * da
    decreases |data|
  {
    if data != [] {
      var n := |data| - 1;
      assert |data| * da == n * da + da;
      RunShift(Step(s, data[0]), da, db + da, data[1..]);
    }
  }

  /** The checksum of a byte string: RFC 1950 starts from 1. */
  function Checksum(data: seq<Byte>): (r: Sums)
    ensures r.a < 65521 && r.b < 65521
  {
    Reduced(Run(Sums(1, 0), data))
  }

  /** Combining gives the residues of the concatenation's checksum, zero written as 65521. */
  lemma CombineIsConcat(x: seq<Byte>, y: seq<Byte>)
    ensures var c := Combined(Checksum(x), Checksum(y), |y|);
            c == Sums(NonZero(Checksum(x + y).a), NonZero(Checksum(x + y).b))
  {
    hide Run, NonZero;
    var s, t := Run(Sums(1, 0), x), Run(Sums(1, 0), y);
    RunConcat(Sums(1, 0), x, y);
    RunReduced(s, Reduced(s), y);
    var u := Reduced(s);
    ReducedTwice(s);
    RunFrom(u, y);
    var all, again := Run(s, y), Run(u, y);
    CombineHalf(u.a - 1, t.a, again.a, all.a);
    CombineHalf(u.b + |y| * u.a - |y|, t.b, again.b, all.b);
  }

  lemma ReducedTwice(s: Sums)
    ensures Reduced(Reduced(s)) == Reduced(s)
  {
  }

  lemma CombineHalf(p: int, t: int, again: int, all: int)
    requires again == p + t && all % 65521 == again % 65521
    ensures NonZero(p + t % 65521) == NonZero(all % 65521)
  {
    Congruent(p, p, t, t % 65521);
  }

  /** So adler32_combine is adler32 of the concatenation exactly when neither sum is divisible
      by 65521: the caller can see this from the two checksums before the call. */
  lemma CombineExact(x: seq<Byte>, y: seq<Byte>)
    ensures var s, t := Checksum(x), Checksum(y);
            Combined(s, t, |y|) == Checksum(x + y)
            <==> (s.a + t.a) % 65521 != 1 && (s.b + t.b + |y| * s.a - |y|) % 65521 != 0
  {
    hide *;
    CombineIsConcat(x, y);
    var s, t, all := Checksum(x), Checksum(y), Checksum(x + y);
    CombinedIs(s, t, |y|);
    SmallChecksum(x + y);
    HalfExact(s.a + t.a - 1, all.a);
    HalfExact(s.b + t.b + |y| * s.a - |y|, all.b);
    ResidueBefore(s.a + t.a);
  }

  lemma CombinedIs(s: Sums, t: Sums, len2: nat)
    ensures Combined(s, t, len2) == Sums(NonZero(s.a + t.a - 1), NonZero(s.b + t.b + len2 * s.a - len2))
  {
  }

  lemma SmallChecksum(data: seq<Byte>)
    ensures Checksum(data).a < 65521 && Checksum(data).b < 65521
  {
  }

  /** A residue survives exactly if it is not zero. */
  lemma HalfExact(x: int, v: nat)
    requires v < 65521 && NonZero(x) == NonZero(v)
    ensures NonZero(x) == v <==> x % 65521 != 0
  {
  }

  lemma ResidueBefore(x: int)
    ensures x % 65521 == 1 <==> (x - 1) % 65521 == 0
  {
  }

  /** It already fails for two empty strings: the checksum 1 becomes 0xfff10001. */
  lemma CombineFails()
    ensures Pack(Checksum([] + [])) == 1
    ensures Pack(Combined(Checksum([]), Checksum([]), 0)) == 0xfff10001
  {
    ShiftsUsed(65521);
    ShiftsUsed(0);
    ShiftsUsed(1);
    OrDisjoint(65521, 16, 1);
    OrDisjoint(0, 16, 1);
    assert Combined(Sums(1, 0), Sums(1, 0), 0) == Sums(1, 65521);
  }
}

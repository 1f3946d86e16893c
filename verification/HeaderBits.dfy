/** bhtab (blocksort.c): one header bit per position in 32-bit words, and the two scans that skip whole
    words. Sentinel bits after the block end every scan. */
module HeaderBits {
  import opened Basics
  import opened XorWords

  // --- Single bits of a word ---

  function Meet(x: bv32, y: bv32): bv32 { x & y }

  function Join(x: bv32, y: bv32): bv32 { x | y }

  function Flip(x: bv32): bv32 { !x }

  /** 1 << k. */
  function Mask(k: nat): bv32
    decreases k
  {
    if k == 0 then 1 else Twice(Mask(k - 1))
  }

  predicate HasBit(x: bv32, k: nat) { Meet(x, Mask(k)) != 0 }

  lemma MeetTwice(x: bv32, y: bv32)
    ensures Meet(Twice(x), Twice(y)) == Twice(Meet(x, y))
    ensures Meet(1, Twice(x)) == 0 && Meet(Twice(x), 1) == 0 && Twice(0) == 0
  {
  }

  lemma {:induction false} MasksDiffer(j: nat, k: nat)
    requires j != k
    ensures Meet(Mask(j), Mask(k)) == 0
    decreases j
  {
    hide Meet, Twice;
    if j == 0 {
      MeetTwice(Mask(k - 1), 0);
    } else if k == 0 {
      MeetTwice(Mask(j - 1), 0);
    } else {
      MasksDiffer(j - 1, k - 1);
      MeetTwice(Mask(j - 1), Mask(k - 1));
    }
  }

  lemma MaskTable()
    ensures forall k: nat :: k < 32 ==> Mask(k) != 0
  {
    assert Mask(1) == 2; assert Mask(2) == 4; assert Mask(3) == 8; assert Mask(4) == 16;
    assert Mask(5) == 0x20; assert Mask(6) == 0x40; assert Mask(7) == 0x80; assert Mask(8) == 0x100;
    assert Mask(9) == 0x200; assert Mask(10) == 0x400; assert Mask(11) == 0x800; assert Mask(12) == 0x1000;
    assert Mask(13) == 0x2000; assert Mask(14) == 0x4000; assert Mask(15) == 0x8000; assert Mask(16) == 0x1_0000;
    assert Mask(17) == 0x2_0000; assert Mask(18) == 0x4_0000; assert Mask(19) == 0x8_0000; assert Mask(20) == 0x10_0000;
    assert Mask(21) == 0x20_0000; assert Mask(22) == 0x40_0000; assert Mask(23) == 0x80_0000; assert Mask(24) == 0x100_0000;
    assert Mask(25) == 0x200_0000; assert Mask(26) == 0x400_0000; assert Mask(27) == 0x800_0000; assert Mask(28) == 0x1000_0000;
    assert Mask(29) == 0x2000_0000; assert Mask(30) == 0x4000_0000; assert Mask(31) == 0x8000_0000;
  }

  lemma JoinMeet(x: bv32, m: bv32, n: bv32)
    ensures Meet(Join(x, m), n) == Join(Meet(x, n), Meet(m, n))
  {
  }

  lemma JoinZero(x: bv32, m: bv32)
    ensures Join(x, 0) == x && (m != 0 ==> Join(x, m) != 0)
  {
  }

  lemma MeetFlip(x: bv32, m: bv32, n: bv32)
    ensures Meet(m, n) == 0 ==> Meet(Meet(x, Flip(m)), n) == Meet(x, n)
  {
    assert Meet(Meet(x, Flip(m)), n) == Meet(x, Meet(Flip(m), n));
    assert Meet(m, n) == 0 ==> Meet(Flip(m), n) == n;
  }

  lemma MeetSame(x: bv32, m: bv32)
    ensures Meet(m, m) == m && Meet(Meet(x, Flip(m)), m) == 0
    ensures Meet(0xffff_ffff, m) == m && Meet(0, m) == 0
  {
  }

  lemma SetOne(x: bv32, k: nat, j: nat)
    requires k < 32 && j < 32
    ensures HasBit(Join(x, Mask(k)), j) == (j == k || HasBit(x, j))
    ensures HasBit(Meet(x, Flip(Mask(k))), j) == (j != k && HasBit(x, j))
  {
    hide Meet, Join, Flip, Mask;
    MaskTable();
    JoinMeet(x, Mask(k), Mask(j));
    MeetFlip(x, Mask(k), Mask(j));
    MeetSame(x, Mask(k));
    JoinZero(Meet(x, Mask(j)), Mask(j));
    if j != k { MasksDiffer(k, j); }
  }

  /** A full word has every bit, an empty one none. */
  lemma WholeWord(x: bv32, k: nat)
    requires k < 32
    ensures x == 0xffff_ffff ==> HasBit(x, k)
    ensures x == 0 ==> !HasBit(x, k)
  {
    hide Meet, Mask;
    MaskTable();
    MeetSame(x, Mask(k));
  }

  // --- The table ---

  /** ISSET_BH. */
  predicate IsSet(a: array<bv32>, z: nat)
    requires z / 32 < a.Length
    reads a
  {
    HasBit(a[z / 32], z % 32)
  }

  ghost predicate Covers(a: array<bv32>, z: nat) { z / 32 < a.Length }

  lemma CoverLess(a: array<bv32>, y: nat, z: nat)
    requires y <= z && Covers(a, z)
    ensures y / 32 < a.Length
  {
  }

  /** SET_BH. */
  method SetBH(a: array<bv32>, z: nat)
    requires Covers(a, z)
    modifies a
    ensures forall y: nat :: Covers(a, y) ==> IsSet(a, y) == (y == z || old(IsSet(a, y)))
  {
    hide HasBit;
    ghost var w := a[z / 32];
    a[z / 32] := Join(a[z / 32], Mask(z % 32));
    forall y: nat | Covers(a, y) ensures IsSet(a, y) == (y == z || old(IsSet(a, y))) {
      if y / 32 == z / 32 { SetOne(w, z % 32, y % 32); }
    }
  }

  /** CLEAR_BH. */
  method ClearBH(a: array<bv32>, z: nat)
    requires Covers(a, z)
    modifies a
    ensures forall y: nat :: Covers(a, y) ==> IsSet(a, y) == (y != z && old(IsSet(a, y)))
  {
    hide HasBit;
    ghost var w := a[z / 32];
    a[z / 32] := Meet(a[z / 32], Flip(Mask(z % 32)));
    forall y: nat | Covers(a, y) ensures IsSet(a, y) == (y != z && old(IsSet(a, y))) {
      if y / 32 == z / 32 { SetOne(w, z % 32, y % 32); }
    }
  }

  /** Alternating bits after the block. */
  ghost predicate Sentinel(a: array<bv32>, n: nat)
    reads a
  {
    Covers(a, n + 63) && forall z: nat {:trigger IsSet(a, z)} :: n <= z < n + 64 && z / 32 < a.Length ==> IsSet(a, z) == ((z - n) % 2 == 0)
  }

  /** The bits from k to the next clear one: they are all set. */
  ghost predicate Run(a: array<bv32>, k: nat, m: nat, value: bool)
    reads a
  {
    forall z: nat {:trigger IsSet(a, z)} :: k <= z < m && z / 32 < a.Length ==> IsSet(a, z) == value
  }

  /** The first word boundary from k on. */
  function Aligned(k: nat): (r: nat)
    ensures k <= r < k + 32 && r % 32 == 0
  {
    if k % 32 == 0 then k else k + 32 - k % 32
  }

  lemma RunWord(a: array<bv32>, k0: nat, k: nat, value: bool)
    requires Run(a, k0, k, value) && k % 32 == 0 && k / 32 < a.Length
    requires a[k / 32] == if value then 0xffff_ffff else 0
    ensures Run(a, k0, k + 32, value)
  {
    hide HasBit;
    forall z: nat | k0 <= z < k + 32 && z / 32 < a.Length ensures IsSet(a, z) == value {
      if z >= k {
        assert z / 32 == k / 32;
        WholeWord(a[k / 32], z % 32);
      }
    }
  }

  lemma AlignedWord(n: nat)
    ensures n <= Aligned(n) < n + 32
    ensures (Aligned(n) + 1) / 32 == Aligned(n) / 32 && (Aligned(n) + 1) % 32 == 1 && Aligned(n) % 32 == 0
  {
  }

  /** A whole word of sentinels is neither full nor empty, and holds both values within two bits. */
  lemma SentinelWord(a: array<bv32>, n: nat, value: bool)
    requires Sentinel(a, n)
    ensures var w := Aligned(n); w / 32 < a.Length && a[w / 32] != 0xffff_ffff && a[w / 32] != 0
    ensures Covers(a, Aligned(n) + 1)
    ensures var w := Aligned(n); (w + 1) / 32 < a.Length && (IsSet(a, w) == value || IsSet(a, w + 1) == value)
  {
    hide HasBit, Aligned, Sentinel, Covers;
    var w := Aligned(n);
    AlignedWord(n);
    SentinelAt(a, n, w);
    SentinelAt(a, n, w + 1);
    NextParity(w - n);
    CoversAt(a, w + 1);
    WholeWord(a[w / 32], 0);
    WholeWord(a[w / 32], 1);
  }

  lemma SentinelAt(a: array<bv32>, n: nat, z: nat)
    requires Sentinel(a, n) && n <= z < n + 64
    ensures z / 32 < a.Length && IsSet(a, z) == ((z - n) % 2 == 0)
  {
    hide HasBit;
    CoverLess(a, z, n + 63);
  }

  lemma CoversAt(a: array<bv32>, z: nat)
    requires z / 32 < a.Length
    ensures Covers(a, z)
  {
  }

  lemma NextParity(k: nat)
    ensures (k % 2 == 0) == ((k + 1) % 2 != 0)
  {
  }

  lemma EmptyRun(a: array<bv32>, k: nat, value: bool)
    ensures Run(a, k, k, value)
  {
  }

  lemma RunMore(a: array<bv32>, k0: nat, k: nat, value: bool)
    requires Run(a, k0, k, value) && k0 <= k && k / 32 < a.Length && IsSet(a, k) == value
    ensures Run(a, k0, k + 1, value)
  {
    hide HasBit, IsSet;
  }

  lemma AlignedStep(k: nat, w: nat)
    requires k % 32 == 0 && w % 32 == 0
    ensures k < w ==> k + 32 <= w && (k + 32) % 32 == 0
  {
  }

  /** Both scans of the loop that looks for a bucket: bit by bit to a word boundary, word by word while
      a word is uniform, then bit by bit again. The result is that of a bit-by-bit scan. */
  method Scan(a: array<bv32>, n: nat, k0: nat, value: bool) returns (k: nat)
    requires Sentinel(a, n) && k0 <= n
    ensures k0 <= k <= n + 33 && k / 32 < a.Length && IsSet(a, k) == !value && Run(a, k0, k, value)
  {
    hide *;
    SentinelWord(a, n, !value);
    AlignedWord(n);
    EmptyRun(a, k0, value);
    ghost var w := Aligned(n);
    k := k0;
    CoverLess(a, k, w + 1);
    while IsSet(a, k) == value && k % 32 != 0
      invariant k0 <= k <= w && k / 32 < a.Length && Run(a, k0, k, value)
      decreases w - k
    {
      RunMore(a, k0, k, value);
      k := k + 1;
      CoverLess(a, k, w + 1);
    }
    if IsSet(a, k) == value {
      while a[k / 32] == if value then 0xffff_ffff else 0
        invariant k0 <= k <= w && k % 32 == 0 && k / 32 < a.Length && Run(a, k0, k, value)
        decreases w - k
      {
        RunWord(a, k0, k, value);
        AlignedStep(k, w);
        k := k + 32;
        CoverLess(a, k, w + 1);
      }
      ghost var last := if IsSet(a, w) != value then w else w + 1;
      while IsSet(a, k) == value
        invariant k0 <= k <= last <= w + 1 && last / 32 < a.Length && k / 32 < a.Length
        invariant IsSet(a, last) != value && Run(a, k0, k, value)
        decreases last - k
      {
        RunMore(a, k0, k, value);
        k := k + 1;
        CoverLess(a, k, w + 1);
      }
    }
  }
}

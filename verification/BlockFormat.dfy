/** The bit format of a block: what compressBlock and sendMTFValues (compress.c) write, and the proof
    that the decoding machine reads every part of it back. */
module BlockFormat {
  import opened Basics
  import opened BitStrings
  import opened Permutations
  import opened Ranks
  import opened Canonical
  import opened Mtf
  import opened Decoder

  // --- Reading a bit string completely ---

  /** Whatever follows, the bits take the machine from d to e. */
  ghost predicate Reads(d: Dec, bits: seq<Bit>, e: Dec) {
    Valid(d) && Valid(e) && forall rest :: Feed(d, bits + rest) == Feed(e, rest)
  }

  lemma ReadsNothing(d: Dec)
    requires Valid(d)
    ensures Reads(d, [], d)
  {
    hide Feed;
    forall rest: seq<Bit> ensures Feed(d, [] + rest) == Feed(d, rest) {
      assert [] + rest == rest;
    }
  }

  lemma ReadsThen(d: Dec, a: seq<Bit>, e: Dec, b: seq<Bit>, f: Dec)
    requires Reads(d, a, e) && Reads(e, b, f)
    ensures Reads(d, a + b, f)
  {
    hide Feed, Valid;
    forall rest: seq<Bit> ensures Feed(d, a + b + rest) == Feed(f, rest) {
      assert a + b + rest == a + (b + rest);
    }
  }

  lemma ReadsField(d: Dec, n: nat, v: nat)
    requires Valid(d) && Waiting(d) && Need(d) == n && v < Pow2(n)
    ensures Reads(d, Bits(n, v), Step(d, v))
  {
    hide Feed, Step, Bits;
    forall rest: seq<Bit> ensures Feed(d, Bits(n, v) + rest) == Feed(Step(d, v), rest) {
      FeedField(d, n, v, rest);
    }
  }

  function BitOf(b: bool): Bit { if b then 1 else 0 }

  lemma ReadsBit(d: Dec, v: Bit)
    requires Valid(d) && Waiting(d) && Need(d) == 1
    ensures v < Pow2(1) && Reads(d, [v], Step(d, v))
  {
    hide Step, Valid, Need;
    assert Pow2(1) == 2 * Shl(1, 0);
    assert Bits(1, v) == [v] by { assert Bits(0, v / 2) == []; }
    ReadsField(d, 1, v);
  }

  // --- The map of used bytes ---

  predicate GroupUsed(inUse: seq<bool>, g: nat)
    requires |inUse| == 256 && g < 16
  {
    exists k :: 16 * g <= k < 16 * g + 16 && inUse[k]
  }

  function Flags(inUse: seq<bool>): (r: seq<bool>)
    requires |inUse| == 256
    ensures |r| == 16 && forall g :: 0 <= g < 16 ==> r[g] == GroupUsed(inUse, g)
  {
    seq(16, g requires 0 <= g < 16 => GroupUsed(inUse, g))
  }

  function BoolBits(b: seq<bool>): (r: seq<Bit>)
    ensures |r| == |b|
    ensures b != [] ==> r == [BitOf(b[0])] + BoolBits(b[1..])
  {
    if b == [] then [] else [BitOf(b[0])] + BoolBits(b[1..])
  }

  function MemberBits(inUse: seq<bool>, g: nat): (r: seq<Bit>)
    requires |inUse| == 256 && g <= 16
    decreases 16 - g
  {
    if g == 16 then []
    else (if GroupUsed(inUse, g) then BoolBits(inUse[16 * g..16 * g + 16]) else []) + MemberBits(inUse, g + 1)
  }

  /** The mapping table: one bit per group of 16 bytes, then 16 bits for each group in use. */
  function MapBits(inUse: seq<bool>): (r: seq<Bit>)
    requires |inUse| == 256
  {
    BoolBits(Flags(inUse)) + MemberBits(inUse, 0)
  }

  lemma {:induction false} ReadsFlags(h: Head, flags: seq<bool>, i: nat)
    requires HeadOk(h) && |flags| == 16 && i < 16
    ensures Reads(Mapping1(h, flags[..i]), BoolBits(flags[i..]), NextMapping(h, flags, []))
    decreases 16 - i
  {
    hide Reads, NextMapping;
    var d := Mapping1(h, flags[..i]);
    ReadsBit(d, BitOf(flags[i]));
    assert flags[..i] + [flags[i]] == flags[..i + 1];
    assert flags[i..][1..] == flags[i + 1..];
    var next := if i < 15 then Mapping1(h, flags[..i + 1]) else NextMapping(h, flags, []);
    if i < 15 {
      ReadsFlags(h, flags, i + 1);
    } else {
      assert flags[..16] == flags;
      ReadsNothing(NextMapping(h, flags, []));
      assert BoolBits(flags[16..]) == [];
    }
    ReadsThen(d, [BitOf(flags[i])], next, BoolBits(flags[i + 1..]), NextMapping(h, flags, []));
  }

  lemma {:induction false} ReadsMembers(h: Head, flags: seq<bool>, inUse: seq<bool>, g: nat, k: nat)
    requires HeadOk(h) && |inUse| == 256 && |flags| == 16 && g < 16 && k < 16
    ensures Reads(Mapping2(h, flags, inUse[..16 * g + k]), BoolBits(inUse[16 * g + k..16 * g + 16]),
                  NextMapping(h, flags, inUse[..16 * g + 16]))
    decreases 16 - k
  {
    hide Reads, NextMapping, BoolBits, Step;
    var at := 16 * g + k;
    var part := inUse[at..16 * g + 16];
    var d, last := Mapping2(h, flags, inUse[..at]), NextMapping(h, flags, inUse[..16 * g + 16]);
    ReadsBit(d, BitOf(inUse[at]));
    MemberStep(h, flags, inUse, g, k);
    FirstBool(part);
    assert part[1..] == inUse[at + 1..16 * g + 16];
    var next := NextMapping(h, flags, inUse[..at + 1]);
    if k < 15 {
      ReadsMembers(h, flags, inUse, g, k + 1);
    } else {
      ReadsNothing(last);
    }
    ReadsThen(d, [BitOf(inUse[at])], next, BoolBits(part[1..]), last);
  }

  lemma FirstBool(bools: seq<bool>)
    requires bools != []
    ensures BoolBits(bools) == [BitOf(bools[0])] + BoolBits(bools[1..])
    ensures |bools| == 1 ==> BoolBits(bools[1..]) == []
  {
  }

  /** One flag of a group: the machine goes on within the group, or past its end. */
  lemma MemberStep(h: Head, flags: seq<bool>, inUse: seq<bool>, g: nat, k: nat)
    requires HeadOk(h) && |inUse| == 256 && |flags| == 16 && g < 16 && k < 16
    ensures var at := 16 * g + k; var d := Mapping2(h, flags, inUse[..at]);
            Valid(d) && BitOf(inUse[at]) < Pow2(Need(d)) && Step(d, BitOf(inUse[at])) == NextMapping(h, flags, inUse[..at + 1])
    ensures k < 15 ==> NextMapping(h, flags, inUse[..16 * g + k + 1]) == Mapping2(h, flags, inUse[..16 * g + (k + 1)])
  {
    hide UsedBytes;
    var at := 16 * g + k;
    assert inUse[..at] + [inUse[at]] == inUse[..at + 1];
    assert Pow2(1) == 2 by { assert Shl(1, 0) == 1; }
    if k < 15 { assert (at + 1) % 16 == k + 1; }
  }

  /** A group with no byte in use is not sent; the machine steps over it. */
  lemma SkipsGroup(h: Head, inUse: seq<bool>, g: nat)
    requires HeadOk(h) && |inUse| == 256 && g < 16 && !GroupUsed(inUse, g)
    ensures NextMapping(h, Flags(inUse), inUse[..16 * g]) == NextMapping(h, Flags(inUse), inUse[..16 * g + 16])
  {
    assert inUse[..16 * g] + seq(16, _ => false) == inUse[..16 * g + 16];
    assert (16 * g) % 16 == 0 && (16 * g) / 16 == g;
  }

  lemma EntersGroup(h: Head, inUse: seq<bool>, g: nat)
    requires HeadOk(h) && |inUse| == 256 && g < 16 && GroupUsed(inUse, g)
    ensures NextMapping(h, Flags(inUse), inUse[..16 * g]) == Mapping2(h, Flags(inUse), inUse[..16 * g])
  {
    assert (16 * g) / 16 == g;
  }

  lemma {:induction false} ReadsGroups(h: Head, inUse: seq<bool>, g: nat)
    requires HeadOk(h) && |inUse| == 256 && g <= 16
    ensures Reads(NextMapping(h, Flags(inUse), inUse[..16 * g]), MemberBits(inUse, g),
                  NextMapping(h, Flags(inUse), inUse))
    decreases 16 - g
  {
    hide Reads, BoolBits, NextMapping, GroupUsed, UsedBytes;
    var flags, last := Flags(inUse), NextMapping(h, Flags(inUse), inUse);
    if g == 16 {
      assert inUse[..256] == inUse;
      ReadsNothing(last);
    } else {
      ReadsGroups(h, inUse, g + 1);
      var next := NextMapping(h, flags, inUse[..16 * g + 16]);
      assert 16 * (g + 1) == 16 * g + 16;
      if GroupUsed(inUse, g) {
        EntersGroup(h, inUse, g);
        ReadsMembers(h, flags, inUse, g, 0);
        ReadsThen(NextMapping(h, flags, inUse[..16 * g]), BoolBits(inUse[16 * g..16 * g + 16]), next,
                  MemberBits(inUse, g + 1), last);
      } else {
        SkipsGroup(h, inUse, g);
        assert [] + MemberBits(inUse, g + 1) == MemberBits(inUse, g + 1);
      }
    }
  }

  lemma ReadsMap(h: Head, inUse: seq<bool>)
    requires HeadOk(h) && |inUse| == 256 && UsedBytes(inUse) != []
    ensures Reads(Mapping1(h, []), MapBits(inUse), Selector1(h, UsedBytes(inUse)))
  {
    hide Reads, BoolBits, MemberBits;
    var flags := Flags(inUse);
    assert flags[..0] == [] && flags[0..] == flags && inUse[..0] == [];
    ReadsFlags(h, flags, 0);
    ReadsGroups(h, inUse, 0);
    ReadsThen(Mapping1(h, []), BoolBits(flags), NextMapping(h, flags, []), MemberBits(inUse, 0),
              Selector1(h, UsedBytes(inUse)));
  }

  // --- Selectors ---

  /** The selectors' own move-to-front, as sendMTFValues computes it. */
  function MtfSelectors(selector: seq<nat>, pos: seq<nat>): (r: seq<nat>)
    requires forall k :: 0 <= k < |selector| ==> selector[k] in pos
    ensures |r| == |selector| && AllBelow(r, |pos|)
    decreases |selector|
  {
    if selector == [] then []
    else
      var j := IndexOf(pos, selector[0]);
      StillIn(selector, pos, j);
      [j] + MtfSelectors(selector[1..], MoveToFront(pos, j))
  }

  lemma {:induction false} UndoMtfSelectors(selector: seq<nat>, pos: seq<nat>)
    requires forall k :: 0 <= k < |selector| ==> selector[k] in pos
    ensures UndoSelectors(MtfSelectors(selector, pos), pos) == selector
    decreases |selector|
  {
    if selector != [] {
      var j := IndexOf(pos, selector[0]);
      StillIn(selector, pos, j);
      var rest := MtfSelectors(selector[1..], MoveToFront(pos, j));
      assert MtfSelectors(selector, pos) == [j] + rest;
      hide MtfSelectors, MoveToFront;
      UndoMtfSelectors(selector[1..], MoveToFront(pos, j));
      assert ([j] + rest)[1..] == rest;
    }
  }

  lemma StillIn(selector: seq<nat>, pos: seq<nat>, j: nat)
    requires selector != [] && j < |pos| && forall k :: 0 <= k < |selector| ==> selector[k] in pos
    ensures forall k :: 0 <= k < |selector[1..]| ==> selector[1..][k] in MoveToFront(pos, j)
  {
    MoveKeeps(pos, j);
    forall k | 0 <= k < |selector[1..]| ensures selector[1..][k] in MoveToFront(pos, j) {
      assert selector[1..][k] == selector[k + 1] && selector[k + 1] in multiset(pos);
      assert selector[k + 1] in multiset(MoveToFront(pos, j));
    }
  }

  /** j ones and a zero. */
  function Unary(j: nat): (r: seq<Bit>) {
    if j == 0 then [0] else [1] + Unary(j - 1)
  }

  function SelectorBits(mtf: seq<nat>): (r: seq<Bit>) {
    if mtf == [] then [] else Unary(mtf[0]) + SelectorBits(mtf[1..])
  }

  lemma {:induction false} ReadsUnary(d: Dec, k: nat)
    requires d.Selector3? && Valid(d) && d.j + k < d.nGroups
    ensures Reads(d, Unary(k), SelectorBit(d.head, d.used, d.nGroups, d.nSelectors, d.selectorMtf, d.j + k, 0))
    decreases k
  {
    hide Reads;
    ReadsBit(d, if k == 0 then 0 else 1);
    if k > 0 {
      var e := d.(j := d.j + 1);
      ReadsUnary(e, k - 1);
      ReadsThen(d, [1], e, Unary(k - 1),
                SelectorBit(d.head, d.used, d.nGroups, d.nSelectors, d.selectorMtf, d.j + k, 0));
    }
  }

  lemma {:induction false} ReadsSelectors(h: Head, used: seq<Byte>, nGroups: nat, mtf: seq<nat>, i: nat)
    requires HeadOk(h) && 0 < |used| <= 256 && 2 <= nGroups <= 6 && AllBelow(mtf, nGroups) && i < |mtf| <= MAX_SELECTORS
    ensures Reads(Selector3(h, used, nGroups, |mtf|, mtf[..i], 0), SelectorBits(mtf[i..]),
                  Coding1(h, used, nGroups, SelectorsOf(mtf, nGroups), []))
    decreases |mtf| - i
  {
    hide Reads, SelectorsOf, Unary;
    var d, last := Selector3(h, used, nGroups, |mtf|, mtf[..i], 0), Coding1(h, used, nGroups, SelectorsOf(mtf, nGroups), []);
    ReadsUnary(d, mtf[i]);
    assert mtf[..i] + [mtf[i]] == mtf[..i + 1] && mtf[i..][1..] == mtf[i + 1..];
    var next := SelectorBit(h, used, nGroups, |mtf|, mtf[..i], mtf[i], 0);
    if i + 1 < |mtf| {
      ReadsSelectors(h, used, nGroups, mtf, i + 1);
    } else {
      assert mtf[..|mtf|] == mtf;
      ReadsNothing(last);
    }
    ReadsThen(d, Unary(mtf[i]), next, SelectorBits(mtf[i + 1..]), last);
  }

  // --- Exactly which headers overrun the selector arrays ---

  /** Past the selectors the machine does not come back to them. */
  predicate Past(d: Dec) {
    d.Coding1? || d.Coding2? || d.Coding3? || d.MtfFirst? || d.MtfMore? || d.Output? || (d.Failed? && d.error != SelectorOverrun)
  }

  lemma SymbolPast(b: Body, groupNo: nat, groupPos: nat, sym: int)
    requires BodyOk(b) && groupNo < |b.selector| && groupPos < 50 && 0 <= sym <= |b.used| + 1
    ensures Past(Symbol(b, groupNo, groupPos, sym))
  {
  }

  lemma CheckPast(b: Body, groupNo: nat, groupPos: nat, zn: nat, zvec: nat)
    requires BodyOk(b) && groupNo < |b.selector| && groupPos < 50 && 1 <= zn <= 21
    ensures Past(CheckCode(b, groupNo, groupPos, zn, zvec))
  {
    hide Symbol, BodyOk;
    var t := TableFor(b, groupNo);
    if zn <= 20 && zvec <= t.limit[zn] && 0 <= zvec - t.base[zn] < 258 { SymbolPast(b, groupNo, groupPos, t.perm[zvec - t.base[zn]]); }
  }

  lemma StepPast(d: Dec, v: nat)
    requires Valid(d) && Waiting(d) && v < Pow2(Need(d)) && Past(d)
    ensures Past(Step(d, v))
  {
    hide CheckCode, BodyOk, CodingOk, MakeTable, Shl;
    if d.MtfFirst? { CheckPast(d.body, d.groupNo, d.groupPos, TableFor(d.body, d.groupNo).minLen, v); }
    if d.MtfMore? { CheckPast(d.body, d.groupNo, d.groupPos, d.zn, 2 * d.zvec + v); }
  }

  lemma {:induction false} FeedPast(d: Dec, bits: seq<Bit>)
    requires Valid(d) && Past(d)
    ensures Past(Feed(d, bits).d)
    decreases |bits|
  {
    if Waiting(d) && |bits| >= Need(d) {
      StepPast(d, Val(bits[..Need(d)]));
      hide Step, Past, Valid;
      FeedPast(Step(d, Val(bits[..Need(d)])), bits[Need(d)..]);
    }
  }

  /** m well-formed selectors lead the bits, the first with j ones read before. */
  predicate SelectorsLead(bits: seq<Bit>, j: nat, nGroups: nat, m: nat)
    decreases |bits|
  {
    m == 0 || (bits != [] && if bits[0] == 1 then j + 1 < nGroups && SelectorsLead(bits[1..], j + 1, nGroups, m)
                             else SelectorsLead(bits[1..], 0, nGroups, m - 1))
  }

  lemma {:induction false} SelectorRun(h: Head, used: seq<Byte>, nGroups: nat, n: nat, mtf: seq<nat>, j: nat, bits: seq<Bit>)
    requires Valid(Selector3(h, used, nGroups, n, mtf, j))
    ensures Feed(Selector3(h, used, nGroups, n, mtf, j), bits).d == Failed(SelectorOverrun)
       <==> n > MAX_SELECTORS && SelectorsLead(bits, j, nGroups, MAX_SELECTORS + 1 - |mtf|)
    decreases |bits|
  {
    hide *;
    var d := Selector3(h, used, nGroups, n, mtf, j);
    SelectorCount(d);
    OnBit(bits, j, nGroups, MAX_SELECTORS + 1 - |mtf|);
    if bits == [] {
      Unfed(d);
    } else {
      OneBitStep(d, bits);
      var e := SelectorBit(h, used, nGroups, n, mtf, j, bits[0]);
      SelectorBitCases(d, bits[0]);
      if e.Selector3? {
        SelectorRun(h, used, nGroups, n, e.selectorMtf, e.j, bits[1..]);
      } else if e.Coding1? {
        PastStays(e, bits[1..]);
      } else {
        FailedStays(e, bits[1..]);
      }
    }
  }

  lemma SelectorCount(d: Dec)
    requires Valid(d) && d.Selector3?
    ensures |d.selectorMtf| <= MAX_SELECTORS && |d.selectorMtf| < d.nSelectors && MAX_SELECTORS == 18002
  {
  }

  lemma Unfed(d: Dec)
    requires Valid(d) && d.Selector3?
    ensures Feed(d, []).d == d
  {
  }

  /** The machine's three ways on, and where the first field behind the selectors leads. */
  lemma SelectorBitCases(d: Dec, v: nat)
    requires Valid(d) && d.Selector3? && v <= 1
    ensures var e := SelectorBit(d.head, d.used, d.nGroups, d.nSelectors, d.selectorMtf, d.j, v);
            && Valid(e)
            && (v == 1 && d.j + 1 >= d.nGroups ==> e == Failed(DataError))
            && (v == 1 && d.j + 1 < d.nGroups ==> e == d.(j := d.j + 1))
            && (v == 0 && |d.selectorMtf| == MAX_SELECTORS ==> e == Failed(SelectorOverrun))
            && (v == 0 && |d.selectorMtf| < MAX_SELECTORS && |d.selectorMtf| + 1 < d.nSelectors ==>
                  e == d.(selectorMtf := d.selectorMtf + [d.j], j := 0) && |d.selectorMtf + [d.j]| == |d.selectorMtf| + 1)
            && (v == 0 && |d.selectorMtf| < MAX_SELECTORS && |d.selectorMtf| + 1 >= d.nSelectors ==> e.Coding1? && d.nSelectors <= MAX_SELECTORS)
  {
    hide SelectorsOf, CodingOk;
  }

  lemma OnBit(bits: seq<Bit>, j: nat, nGroups: nat, m: nat)
    ensures m > 0 && bits == [] ==> !SelectorsLead(bits, j, nGroups, m)
    ensures m > 0 && bits != [] && bits[0] == 1 ==> (SelectorsLead(bits, j, nGroups, m) <==> j + 1 < nGroups && SelectorsLead(bits[1..], j + 1, nGroups, m))
    ensures m > 0 && bits != [] && bits[0] == 0 ==> (SelectorsLead(bits, j, nGroups, m) <==> SelectorsLead(bits[1..], 0, nGroups, m - 1))
    ensures bits != [] ==> SelectorsLead(bits[1..], 0, nGroups, 0)
  {
  }

  lemma PastStays(d: Dec, bits: seq<Bit>)
    requires Valid(d) && d.Coding1?
    ensures Feed(d, bits).d != Failed(SelectorOverrun)
  {
    hide Feed, Valid;
    FeedPast(d, bits);
  }

  lemma FailedStays(d: Dec, bits: seq<Bit>)
    requires Valid(d) && d.Failed?
    ensures Feed(d, bits).d == d
  {
  }

  lemma OneBitStep(d: Dec, bits: seq<Bit>)
    requires Valid(d) && d.Selector3? && bits != []
    ensures Feed(d, bits) == Feed(SelectorBit(d.head, d.used, d.nGroups, d.nSelectors, d.selectorMtf, d.j, bits[0]), bits[1..])
  {
    hide SelectorBit;
    assert bits[..1] == [bits[0]] && Val([]) == 0 && Val([bits[0]]) == bits[0];
  }

  /** The selectors that lead the bits, and that they do. */
  lemma {:induction false} LeadingSelectors(bits: seq<Bit>, j: nat, nGroups: nat, m: nat) returns (mtf: seq<nat>)
    requires j < nGroups && SelectorsLead(bits, j, nGroups, m)
    ensures |mtf| == m && AllBelow(mtf, nGroups) && (m > 0 ==> j <= mtf[0] && Unary(mtf[0] - j) + SelectorBits(mtf[1..]) <= bits)
    decreases |bits|
  {
    if m == 0 {
      mtf := [];
    } else if bits[0] == 1 {
      mtf := LeadingSelectors(bits[1..], j + 1, nGroups, m);
      OnePrefix(bits, Unary(mtf[0] - j - 1) + SelectorBits(mtf[1..]));
      Assoc([1], Unary(mtf[0] - j - 1), SelectorBits(mtf[1..]));
    } else {
      var rest := LeadingSelectors(bits[1..], 0, nGroups, m - 1);
      mtf := [j] + rest;
      assert mtf[1..] == rest;
      OnePrefix(bits, SelectorBits(rest));
    }
  }

  lemma OnePrefix(bits: seq<Bit>, tail: seq<Bit>)
    requires bits != [] && tail <= bits[1..]
    ensures [bits[0]] + tail <= bits
  {
  }

  lemma {:induction false} LeadFrom(bits: seq<Bit>, j: nat, nGroups: nat, mtf: seq<nat>)
    requires AllBelow(mtf, nGroups) && mtf != [] && j <= mtf[0] && Unary(mtf[0] - j) + SelectorBits(mtf[1..]) <= bits
    ensures SelectorsLead(bits, j, nGroups, |mtf|)
    decreases |bits|
  {
    if mtf[0] > j {
      Assoc([1], Unary(mtf[0] - j - 1), SelectorBits(mtf[1..]));
      RestPrefix(1, Unary(mtf[0] - j - 1) + SelectorBits(mtf[1..]), bits);
      LeadFrom(bits[1..], j + 1, nGroups, mtf);
    } else {
      RestPrefix(0, SelectorBits(mtf[1..]), bits);
      if |mtf| > 1 { LeadFrom(bits[1..], 0, nGroups, mtf[1..]); }
    }
  }

  lemma RestPrefix(x: Bit, tail: seq<Bit>, bits: seq<Bit>)
    requires [x] + tail <= bits
    ensures bits != [] && bits[0] == x && tail <= bits[1..]
  {
    assert ([x] + tail)[1..] == tail;
  }

  /** m well-formed selectors come first. */
  ghost predicate Begins(bits: seq<Bit>, nGroups: nat, m: nat) {
    exists mtf: seq<nat> :: |mtf| == m && AllBelow(mtf, nGroups) && SelectorBits(mtf) <= bits
  }

  lemma LeadExactly(bits: seq<Bit>, nGroups: nat, m: nat)
    requires nGroups > 0 && m > 0
    ensures SelectorsLead(bits, 0, nGroups, m) <==> Begins(bits, nGroups, m)
  {
    if SelectorsLead(bits, 0, nGroups, m) {
      var mtf := LeadingSelectors(bits, 0, nGroups, m);
      assert SelectorBits(mtf) <= bits;
    }
    if mtf: seq<nat> :| |mtf| == m && AllBelow(mtf, nGroups) && SelectorBits(mtf) <= bits {
      LeadFrom(bits, 0, nGroups, mtf);
    }
  }

  /** Over every bit string after the number of tables: a selector is stored behind the arrays if and
      only if more than 18002 are announced and 18003 well-formed ones come first. */
  lemma SelectorsOverrunExactly(h: Head, used: seq<Byte>, nGroups: nat, bits: seq<Bit>)
    requires HeadOk(h) && 0 < |used| <= 256 && 2 <= nGroups <= 6
    ensures Feed(Selector2(h, used, nGroups), bits).d == Failed(SelectorOverrun)
       <==> |bits| >= 15 && Val(bits[..15]) > MAX_SELECTORS && Begins(bits[15..], nGroups, MAX_SELECTORS + 1)
  {
    hide SelectorsLead, Begins, SelectorBit, HeadOk, Shl, Val;
    if |bits| >= 15 {
      LeadExactly(bits[15..], nGroups, MAX_SELECTORS + 1);
      var n := Val(bits[..15]);
      if n >= 1 { SelectorRun(h, used, nGroups, n, [], 0, bits[15..]); }
    }
  }

  lemma {:induction false} SelectorBitsConcat(a: seq<nat>, b: seq<nat>)
    ensures SelectorBits(a + b) == SelectorBits(a) + SelectorBits(b)
    decreases |a|
  {
    if a == [] {
      assert a + b == b;
    } else {
      assert (a + b)[1..] == a[1..] + b;
      SelectorBitsConcat(a[1..], b);
    }
  }

  /** Complete, well-formed selectors are read to the end if and only if there are at most 18002. */
  lemma SelectorsFitExactly(h: Head, used: seq<Byte>, nGroups: nat, mtf: seq<nat>)
    requires HeadOk(h) && 0 < |used| <= 256 && 2 <= nGroups <= 6 && AllBelow(mtf, nGroups) && mtf != []
    ensures var d := Feed(Selector3(h, used, nGroups, |mtf|, [], 0), SelectorBits(mtf)).d;
            if |mtf| <= MAX_SELECTORS then d == Coding1(h, used, nGroups, SelectorsOf(mtf, nGroups), [])
            else d == Failed(SelectorOverrun)
  {
    if |mtf| <= MAX_SELECTORS {
      assert mtf[..0] == [] && mtf[0..] == mtf;
      ReadsSelectors(h, used, nGroups, mtf, 0);
      var last := Coding1(h, used, nGroups, SelectorsOf(mtf, nGroups), []);
      hide Step, SelectorsOf, SelectorBits;
      assert SelectorBits(mtf) + [] == SelectorBits(mtf);
      assert Feed(last, []) == Decoder.Run(last, []);
    } else {
      TooMany(h, used, nGroups, mtf);
    }
  }

  lemma TooMany(h: Head, used: seq<Byte>, nGroups: nat, mtf: seq<nat>)
    requires HeadOk(h) && 0 < |used| <= 256 && 2 <= nGroups <= 6 && AllBelow(mtf, nGroups) && |mtf| > MAX_SELECTORS
    ensures Valid(Selector3(h, used, nGroups, |mtf|, [], 0))
    ensures Feed(Selector3(h, used, nGroups, |mtf|, [], 0), SelectorBits(mtf)).d == Failed(SelectorOverrun)
  {
    hide Feed, SelectorsLead, SelectorBits, Begins, HeadOk;
    SelectorRun(h, used, nGroups, |mtf|, [], 0, SelectorBits(mtf));
    LeadExactly(SelectorBits(mtf), nGroups, MAX_SELECTORS + 1);
    AllBegin(mtf, nGroups, MAX_SELECTORS + 1);
  }

  lemma AllBegin(mtf: seq<nat>, nGroups: nat, m: nat)
    requires AllBelow(mtf, nGroups) && m <= |mtf|
    ensures Begins(SelectorBits(mtf), nGroups, m)
  {
    hide SelectorBits;
    assert mtf == mtf[..m] + mtf[m..];
    SelectorBitsConcat(mtf[..m], mtf[m..]);
  }

  /** A header the source accepts although its selectors do not fit: 18003 selectors, all zero. */
  lemma OverrunHeader(h: Head, used: seq<Byte>)
    requires HeadOk(h) && 0 < |used| <= 256
    ensures MapStep(Selector2(h, used, 2), 18003) == Selector3(h, used, 2, 18003, [], 0)
    ensures Feed(Selector3(h, used, 2, 18003, [], 0), SelectorBits(seq(18003, _ => 0))).d == Failed(SelectorOverrun)
  {
    hide Feed, SelectorBits;
    var mtf: seq<nat> := seq(18003, _ => 0);
    assert AllBelow(mtf, 2) && |mtf| == 18003;
    SelectorsFitExactly(h, used, 2, mtf);
  }
}

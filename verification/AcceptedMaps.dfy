/** What BZ2_decompress (decompress.c) takes for the map of used bytes, and for the selectors. */
module AcceptedMaps {
  import opened Basics
  import opened BitStrings
  import opened Permutations
  import opened Ranks
  import opened Mtf
  import opened Decoder
  import opened BlockFormat
  import opened AcceptedFields
  import BlockEncoding

  // --- The map of used bytes ---

  /** The bits of the groups from g on: 16 for each group that is flagged. */
  function MemberText(flags: seq<bool>, inUse: seq<bool>, g: nat): (r: seq<Bit>)
    requires |flags| == 16 && |inUse| == 256 && g <= 16
    decreases 16 - g
  {
    if g == 16 then []
    else (if flags[g] then BoolBits(inUse[16 * g..16 * g + 16]) else []) + MemberText(flags, inUse, g + 1)
  }

  /** Only bytes of flagged groups are in use. */
  predicate Within(flags: seq<bool>, inUse: seq<bool>, k: nat) {
    |flags| == 16 && |inUse| == 256 && k <= 256 && forall j :: 0 <= j < k && inUse[j] ==> flags[j / 16]
  }

  lemma EntersFlagged(h: Head, flags: seq<bool>, inUse: seq<bool>, g: nat)
    requires HeadOk(h) && |inUse| == 256 && |flags| == 16 && g < 16 && flags[g]
    ensures NextMapping(h, flags, inUse[..16 * g]) == Mapping2(h, flags, inUse[..16 * g])
  {
    assert (16 * g) / 16 == g;
  }

  lemma SkipsUnflagged(h: Head, flags: seq<bool>, inUse: seq<bool>, g: nat)
    requires HeadOk(h) && Within(flags, inUse, 256) && g < 16 && !flags[g]
    ensures NextMapping(h, flags, inUse[..16 * g]) == NextMapping(h, flags, inUse[..16 * g + 16])
  {
    assert (16 * g) % 16 == 0 && (16 * g) / 16 == g;
    forall j | 16 * g <= j < 16 * g + 16 ensures !inUse[j] { assert j / 16 == g; }
    assert inUse[..16 * g] + seq(16, _ => false) == inUse[..16 * g + 16];
  }

  lemma MemberTextIs(flags: seq<bool>, inUse: seq<bool>, g: nat)
    requires |flags| == 16 && |inUse| == 256 && g <= 16
    ensures g == 16 ==> MemberText(flags, inUse, g) == [] && inUse[..16 * g] == inUse
    ensures g < 16 && flags[g] ==>
              MemberText(flags, inUse, g) == BoolBits(inUse[16 * g..16 * g + 16]) + MemberText(flags, inUse, g + 1)
    ensures g < 16 && !flags[g] ==> MemberText(flags, inUse, g) == MemberText(flags, inUse, g + 1)
  {
    hide BoolBits;
    if g < 16 { assert [] + MemberText(flags, inUse, g + 1) == MemberText(flags, inUse, g + 1); }
  }

  lemma GroupEnd(g: nat)
    ensures 16 * g + 16 == 16 * (g + 1) && 16 * g + 0 == 16 * g
  {
  }

  lemma {:induction false} TextIsMembers(h: Head, flags: seq<bool>, inUse: seq<bool>, g: nat)
    requires HeadOk(h) && |flags| == 16 && |inUse| == 256 && Within(flags, inUse, 256) && g <= 16
    ensures Reads(NextMapping(h, flags, inUse[..16 * g]), MemberText(flags, inUse, g), NextMapping(h, flags, inUse))
    decreases 16 - g
  {
    hide *;
    MemberTextIs(flags, inUse, g);
    if g == 16 {
      ReadsNothing(NextMapping(h, flags, inUse));
    } else {
      TextIsMembers(h, flags, inUse, g + 1);
      GroupEnd(g);
      if flags[g] {
        EntersFlagged(h, flags, inUse, g);
        ReadsMembers(h, flags, inUse, g, 0);
        ReadsThen(NextMapping(h, flags, inUse[..16 * g]), BoolBits(inUse[16 * g..16 * g + 16]),
                  NextMapping(h, flags, inUse[..16 * (g + 1)]), MemberText(flags, inUse, g + 1), NextMapping(h, flags, inUse));
      } else {
        SkipsUnflagged(h, flags, inUse, g);
      }
    }
  }

  function MapText(flags: seq<bool>, inUse: seq<bool>): (r: seq<Bit>)
    requires |flags| == 16 && |inUse| == 256
  {
    BoolBits(flags) + MemberText(flags, inUse, 0)
  }

  /** The map of used bytes as it may stand in a block. */
  predicate MapOk(flags: seq<bool>, inUse: seq<bool>) {
    Within(flags, inUse, 256) && exists k :: 0 <= k < 256 && inUse[k]
  }

  lemma {:induction false} SomeUsed(inUse: seq<bool>)
    requires |inUse| <= 256
    ensures UsedBytes(inUse) != [] <==> exists k :: 0 <= k < |inUse| && inUse[k]
  {
    if inUse != [] {
      var n := |inUse| - 1;
      SomeUsed(inUse[..n]);
      if UsedBytes(inUse[..n]) != [] {
        var k :| 0 <= k < n && inUse[..n][k];
        assert inUse[k];
      }
      if k :| 0 <= k < |inUse| && inUse[k] {
        if k < n { assert inUse[..n][k]; }
      }
    }
  }

  lemma TextIsMap(h: Head, flags: seq<bool>, inUse: seq<bool>)
    requires HeadOk(h) && MapOk(flags, inUse)
    ensures |UsedBytes(inUse)| <= 256
    ensures Reads(Mapping1(h, []), MapText(flags, inUse), Selector1(h, UsedBytes(inUse)))
  {
    hide Reads, BoolBits, MemberText;
    SomeUsed(inUse);
    assert flags[..0] == [] && flags[0..] == flags && inUse[..0] == [];
    ReadsFlags(h, flags, 0);
    TextIsMembers(h, flags, inUse, 0);
    ReadsThen(Mapping1(h, []), BoolBits(flags), NextMapping(h, flags, []), MemberText(flags, inUse, 0),
              Selector1(h, UsedBytes(inUse)));
  }

  lemma FlagSteps(h: Head, pre: seq<bool>, v: nat)
    requires Valid(Mapping1(h, pre))
    ensures HeadOk(h) && |pre| < 16 && Waiting(Mapping1(h, pre)) && Need(Mapping1(h, pre)) == 1
    ensures v < 2 ==>
              v < Pow2(1) && Step(Mapping1(h, pre), v) == if |pre| < 15 then Mapping1(h, pre + [v == 1]) else NextMapping(h, pre + [v == 1], [])
  {
    OneBit(1);
    if v < 2 { OneBit(v); }
    assert Pow2(1) == 2 by { assert Shl(1, 0) == 1; }
    hide NextMapping;
  }

  lemma OneMoreBool(x: bool, bools: seq<bool>, pre: seq<bool>, next: seq<Bit>, rest: seq<Bit>)
    requires |pre| < |bools| && pre + [x] == bools[..|pre| + 1] && next == BoolBits(bools[|pre| + 1..]) + rest
    ensures bools[..|pre|] == pre && [BitOf(x)] + next == BoolBits(bools[|pre|..]) + rest
  {
    var n := |pre|;
    assert bools[n] == (pre + [x])[n] == x && bools[..n] == (pre + [x])[..n] == pre;
    assert bools[n..][1..] == bools[n + 1..];
    hide BoolBits;
    assert [BitOf(x)] + next == [BitOf(x)] + BoolBits(bools[n + 1..]) + rest;
  }

  lemma {:induction false} FlagsOf(h: Head, pre: seq<bool>, bits: seq<Bit>) returns (flags: seq<bool>, rest: seq<Bit>)
    requires Comes(Mapping1(h, pre), bits)
    ensures HeadOk(h) && |flags| == 16 && |pre| < 16 && flags[..|pre|] == pre && bits == BoolBits(flags[|pre|..]) + rest && |rest| < |bits|
    ensures Comes(NextMapping(h, flags, []), rest) && Feed(Mapping1(h, pre), bits) == Feed(NextMapping(h, flags, []), rest)
    decreases 16 - |pre|
  {
    hide *;
    var d := Mapping1(h, pre);
    ComesIs(d, bits);
    FlagSteps(h, pre, 0);
    var b, next := BitOfField(d, bits);
    BitOfIs(b);
    FlagSteps(h, pre, BitOf(b));
    if |pre| < 15 {
      flags, rest := FlagsOf(h, pre + [b], next);
    } else {
      flags, rest := pre + [b], next;
      NoBools(flags[16..]);
      assert [] + rest == rest && flags[..16] == flags;
    }
    OneMoreBool(b, flags, pre, next, rest);
  }

  lemma NoBools(bools: seq<bool>)
    ensures bools == [] ==> BoolBits(bools) == []
  {
  }

  /** The machine among the members: after all groups, at a group that is not flagged, or at a bit. */
  lemma MemberSteps(h: Head, flags: seq<bool>, pre: seq<bool>, v: nat)
    requires HeadOk(h) && |flags| == 16 && |pre| <= 256
    ensures |pre| == 256 ==>
              NextMapping(h, flags, pre) == (if |UsedBytes(pre)| == 0 then Failed(DataError) else Selector1(h, UsedBytes(pre)))
    ensures |pre| < 256 && |pre| % 16 == 0 && !flags[|pre| / 16] ==> NextMapping(h, flags, pre) == NextMapping(h, flags, pre + seq(16, _ => false))
    ensures |pre| < 256 && (|pre| % 16 != 0 || flags[|pre| / 16]) ==> NextMapping(h, flags, pre) == Mapping2(h, flags, pre)
    ensures |pre| < 256 ==> var d := Mapping2(h, flags, pre); Valid(d) && Waiting(d) && Need(d) == 1
    ensures |pre| < 256 && v < 2 ==> v < Pow2(1) && Step(Mapping2(h, flags, pre), v) == NextMapping(h, flags, pre + [v == 1])
  {
    assert Pow2(1) == 2 by { assert Shl(1, 0) == 1; }
    hide UsedBytes;
  }

  /** The text from byte j of group g on: the rest of the group, and the groups behind. */
  function TextFrom(flags: seq<bool>, inUse: seq<bool>, g: nat, j: nat): (r: seq<Bit>)
    requires |flags| == 16 && |inUse| == 256 && j < 16 && (g < 16 || (g == 16 && j == 0))
  {
    if j == 0 then MemberText(flags, inUse, g)
    else BoolBits(inUse[16 * g + j..16 * g + 16]) + MemberText(flags, inUse, g + 1)
  }

  lemma SplitGroup(inUse: seq<bool>, k: nat, end: nat)
    requires k < end <= |inUse|
    ensures BoolBits(inUse[k..end]) == [BitOf(inUse[k])] + BoolBits(inUse[k + 1..end])
    ensures k + 1 == end ==> BoolBits(inUse[k..end]) == [BitOf(inUse[k])]
  {
    var part := inUse[k..end];
    FirstBool(part);
    assert part[1..] == inUse[k + 1..end];
    if k + 1 == end {
      NoBools(inUse[k + 1..end]);
      hide BoolBits;
      assert [BitOf(inUse[k])] + [] == [BitOf(inUse[k])];
    }
  }

  lemma TextFromIs(flags: seq<bool>, inUse: seq<bool>, g: nat, j: nat)
    requires |flags| == 16 && |inUse| == 256 && g < 16 && j < 16 && flags[g]
    ensures TextFrom(flags, inUse, g, j) == BoolBits(inUse[16 * g + j..16 * g + 16]) + MemberText(flags, inUse, g + 1)
  {
    hide BoolBits, MemberText;
    MemberTextIs(flags, inUse, g);
  }

  lemma TextFromStart(flags: seq<bool>, inUse: seq<bool>, g: nat)
    requires |flags| == 16 && |inUse| == 256 && g <= 16
    ensures TextFrom(flags, inUse, g, 0) == MemberText(flags, inUse, g)
  {
    hide MemberText;
  }

  lemma TextFromBit(flags: seq<bool>, inUse: seq<bool>, g: nat, j: nat)
    requires |flags| == 16 && |inUse| == 256 && g < 16 && j < 16 && flags[g]
    ensures TextFrom(flags, inUse, g, j)
         == [BitOf(inUse[16 * g + j])] + (if j < 15 then TextFrom(flags, inUse, g, j + 1) else TextFrom(flags, inUse, g + 1, 0))
  {
    hide *;
    var k, end := 16 * g + j, 16 * g + 16;
    TextFromIs(flags, inUse, g, j);
    SplitGroup(inUse, k, end);
    if j == 15 {
      TextFromStart(flags, inUse, g + 1);
    } else {
      TextFromIs(flags, inUse, g, j + 1);
      Assoc([BitOf(inUse[k])], BoolBits(inUse[k + 1..end]), MemberText(flags, inUse, g + 1));
    }
  }

  lemma TextFromGap(flags: seq<bool>, inUse: seq<bool>, g: nat)
    requires |flags| == 16 && |inUse| == 256 && g < 16 && !flags[g]
    ensures TextFrom(flags, inUse, g, 0) == TextFrom(flags, inUse, g + 1, 0)
  {
    hide *;
    TextFromStart(flags, inUse, g);
    TextFromStart(flags, inUse, g + 1);
    MemberTextIs(flags, inUse, g);
  }

  /** Places in the map: byte k is byte k % 16 of group k / 16. */
  lemma Place(k: nat)
    requires k <= 256
    ensures k == 16 * (k / 16) + k % 16 && (k / 16 < 16 <==> k < 256) && (k == 256 ==> k / 16 == 16 && k % 16 == 0)
    ensures k % 16 < 15 ==> (k + 1) / 16 == k / 16 && (k + 1) % 16 == k % 16 + 1
    ensures k % 16 == 15 ==> (k + 1) / 16 == k / 16 + 1 && (k + 1) % 16 == 0
    ensures k % 16 == 0 ==> (k + 16) / 16 == k / 16 + 1 && (k + 16) % 16 == 0 && (k < 256 ==> k + 16 <= 256)
  {
  }

  lemma WithinNext(flags: seq<bool>, pre: seq<bool>, inUse: seq<bool>, more: seq<bool>)
    requires |flags| == 16 && |inUse| == 256 && |pre| + |more| <= 256 && inUse[..|pre| + |more|] == pre + more
    ensures inUse[..|pre|] == pre && forall j :: 0 <= j < |more| ==> inUse[|pre| + j] == more[j]
  {
    var n := |pre|;
    assert inUse[..n] == inUse[..n + |more|][..n] == (pre + more)[..n] == pre;
    forall j | 0 <= j < |more| ensures inUse[n + j] == more[j] { assert (pre + more)[n + j] == more[j]; }
  }

  ghost predicate PreOk(flags: seq<bool>, pre: seq<bool>) {
    |flags| == 16 && |pre| <= 256 && forall j :: 0 <= j < |pre| && pre[j] ==> flags[j / 16]
  }

  lemma PreMore(flags: seq<bool>, pre: seq<bool>, x: bool)
    requires PreOk(flags, pre) && |pre| < 256
    ensures |pre| % 16 == 0 && |pre| <= 240 ==> PreOk(flags, pre + seq(16, _ => false))
    ensures flags[|pre| / 16] ==> PreOk(flags, pre + [x])
  {
  }

  lemma {:induction false} MembersOf(h: Head, flags: seq<bool>, pre: seq<bool>, bits: seq<Bit>) returns (inUse: seq<bool>, rest: seq<Bit>)
    requires HeadOk(h) && PreOk(flags, pre) && Comes(NextMapping(h, flags, pre), bits)
    requires |pre| < 256 && |pre| % 16 != 0 ==> flags[|pre| / 16]
    ensures |inUse| == 256 && inUse[..|pre|] == pre && PreOk(flags, inUse) && UsedBytes(inUse) != []
    ensures bits == TextFrom(flags, inUse, |pre| / 16, |pre| % 16) + rest && |rest| <= |bits|
    ensures Comes(Selector1(h, UsedBytes(inUse)), rest)
    ensures Feed(NextMapping(h, flags, pre), bits) == Feed(Selector1(h, UsedBytes(inUse)), rest)
    decreases 256 - |pre|
  {
    hide *;
    PreIs(flags, pre);
    Place(|pre|);
    ComesIs(NextMapping(h, flags, pre), bits);
    MemberSteps(h, flags, pre, 0);
    if |pre| == 256 {
      inUse, rest := pre, bits;
      OneFeed(NextMapping(h, flags, pre), bits);
      NoText(flags, inUse);
      Halted(NextMapping(h, flags, pre));
      assert pre[..256] == pre && [] + rest == rest;
    } else if |pre| % 16 == 0 && !flags[|pre| / 16] {
      var gap := seq(16, _ => false);
      PreMore(flags, pre, false);
      inUse, rest := MembersOf(h, flags, pre + gap, bits);
      WithinNext(flags, pre, inUse, gap);
      TextFromGap(flags, inUse, |pre| / 16);
    } else {
      var d := Mapping2(h, flags, pre);
      var b, next := BitOfField(d, bits);
      BitOfIs(b);
      MemberSteps(h, flags, pre, BitOf(b));
      PreMore(flags, pre, b);
      inUse, rest := MembersOf(h, flags, pre + [b], next);
      WithinNext(flags, pre, inUse, [b]);
      TextFromBit(flags, inUse, |pre| / 16, |pre| % 16);
      assert inUse[|pre|] == [b][0];
      Assoc([BitOf(b)], TextFrom(flags, inUse, (|pre| + 1) / 16, (|pre| + 1) % 16), rest);
    }
  }

  lemma PreIs(flags: seq<bool>, pre: seq<bool>)
    requires PreOk(flags, pre)
    ensures |flags| == 16 && |pre| <= 256
  {
  }

  lemma NoText(flags: seq<bool>, inUse: seq<bool>)
    requires |flags| == 16 && |inUse| == 256
    ensures TextFrom(flags, inUse, 16, 0) == []
  {
  }

  lemma MapIs(flags: seq<bool>, inUse: seq<bool>)
    requires |flags| == 16 && |inUse| == 256 && PreOk(flags, inUse) && UsedBytes(inUse) != []
    ensures MapOk(flags, inUse) && MapText(flags, inUse) == BoolBits(flags) + TextFrom(flags, inUse, 0, 0)
  {
    SomeUsed(inUse);
    hide UsedBytes, BoolBits, MemberText;
  }

  lemma NoPrefix(flags: seq<bool>)
    ensures flags[0..] == flags && (|flags| == 16 ==> PreOk(flags, []))
  {
  }

  lemma MapOf(h: Head, bits: seq<Bit>) returns (flags: seq<bool>, inUse: seq<bool>, rest: seq<Bit>)
    requires Comes(Mapping1(h, []), bits)
    ensures MapOk(flags, inUse) && |flags| == 16 && |inUse| == 256 && bits == MapText(flags, inUse) + rest && |rest| < |bits|
    ensures Comes(Selector1(h, UsedBytes(inUse)), rest) && Feed(Mapping1(h, []), bits) == Feed(Selector1(h, UsedBytes(inUse)), rest)
  {
    hide *;
    var r1;
    flags, r1 := FlagsOf(h, [], bits);
    NoPrefix(flags);
    inUse, rest := MembersOf(h, flags, [], r1);
    MapIs(flags, inUse);
    Assoc(BoolBits(flags), TextFrom(flags, inUse, 0, 0), rest);
  }

  // --- Selectors ---

  function SelectorText(nGroups: nat, mtf: seq<nat>): (r: seq<Bit>) {
    Bits(3, nGroups) + Bits(15, |mtf|) + SelectorBits(mtf)
  }

  /** The number of tables and the coded selectors as they may stand in a block. */
  predicate SelectorsOk(nGroups: nat, mtf: seq<nat>) {
    2 <= nGroups <= 6 && 1 <= |mtf| <= 18002 && forall k :: 0 <= k < |mtf| ==> mtf[k] < nGroups
  }

  lemma TextIsSelectors(h: Head, used: seq<Byte>, nGroups: nat, mtf: seq<nat>)
    requires HeadOk(h) && 0 < |used| <= 256 && SelectorsOk(nGroups, mtf)
    ensures AllBelow(mtf, nGroups) && Reads(Selector1(h, used), SelectorText(nGroups, mtf), Coding1(h, used, nGroups, SelectorsOf(mtf, nGroups), []))
  {
    hide Reads, Bits, Shl, SelectorBits, SelectorsOf;
    BlockEncoding.SelectorCounts(nGroups, |mtf|);
    ReadsField(Selector1(h, used), 3, nGroups);
    ReadsField(Selector2(h, used, nGroups), 15, |mtf|);
    assert mtf[..0] == [] && mtf[0..] == mtf;
    ReadsSelectors(h, used, nGroups, mtf, 0);
    var mid, last := Selector3(h, used, nGroups, |mtf|, [], 0), Coding1(h, used, nGroups, SelectorsOf(mtf, nGroups), []);
    ReadsThen(Selector1(h, used), Bits(3, nGroups), Selector2(h, used, nGroups), Bits(15, |mtf|), mid);
    ReadsThen(Selector1(h, used), Bits(3, nGroups) + Bits(15, |mtf|), mid, SelectorBits(mtf), last);
  }

  lemma CountSteps(h: Head, used: seq<Byte>, nGroups: nat, v: nat)
    ensures Valid(Selector1(h, used)) ==>
              Waiting(Selector1(h, used)) && Need(Selector1(h, used)) == 3
              && (v < Pow2(3) ==> Step(Selector1(h, used), v) == if v < 2 || v > 6 then Failed(DataError) else Selector2(h, used, v))
    ensures Valid(Selector2(h, used, nGroups)) ==>
              Waiting(Selector2(h, used, nGroups)) && Need(Selector2(h, used, nGroups)) == 15
              && (v < Pow2(15) ==> Step(Selector2(h, used, nGroups), v) == if v < 1 then Failed(DataError) else Selector3(h, used, nGroups, v, [], 0))
  {
    hide Shl;
  }

  lemma OrderSteps(h: Head, used: seq<Byte>, nGroups: nat, n: nat, mtf: seq<nat>, j: nat, b: bool)
    requires Valid(Selector3(h, used, nGroups, n, mtf, j))
    ensures |mtf| < n && |mtf| <= 18002 && AllBelow(mtf, nGroups) && j < nGroups && HeadOk(h) && 0 < |used| <= 256 && 2 <= nGroups <= 6
    ensures AllBelow(mtf + [j], nGroups)
    ensures var d := Selector3(h, used, nGroups, n, mtf, j);
            Waiting(d) && Need(d) == 1 && BitOf(b) < Pow2(1)
            && Step(d, BitOf(b))
               == if b then (if j + 1 >= nGroups then Failed(DataError) else Selector3(h, used, nGroups, n, mtf, j + 1))
                  else if |mtf| == 18002 then Failed(SelectorOverrun)
                  else if |mtf| + 1 < n then Selector3(h, used, nGroups, n, mtf + [j], 0)
                  else Coding1(h, used, nGroups, SelectorsOf(mtf + [j], nGroups), [])
  {
    assert Pow2(1) == 2 by { assert Shl(1, 0) == 1; }
    hide SelectorsOf;
  }

  lemma TailBits(mtf: seq<nat>, k: nat, j: nat, rest: seq<Bit>)
    requires k < |mtf| && j <= mtf[k]
    ensures j < mtf[k] ==> [1] + (Unary(mtf[k] - (j + 1)) + SelectorBits(mtf[k + 1..]) + rest) == Unary(mtf[k] - j) + SelectorBits(mtf[k + 1..]) + rest
    ensures j == mtf[k] && k + 1 < |mtf| ==>
              [0] + (Unary(mtf[k + 1] - 0) + SelectorBits(mtf[k + 2..]) + rest) == Unary(mtf[k] - j) + SelectorBits(mtf[k + 1..]) + rest
    ensures j == mtf[k] && k + 1 == |mtf| ==> [0] + rest == Unary(mtf[k] - j) + SelectorBits(mtf[k + 1..]) + rest
  {
    if j < mtf[k] {
      assert Unary(mtf[k] - j) == [1] + Unary(mtf[k] - (j + 1));
    } else if k + 1 < |mtf| {
      assert mtf[k + 1..][1..] == mtf[k + 2..];
    }
    hide Unary;
  }

  lemma {:induction false} OrderOf(h: Head, used: seq<Byte>, nGroups: nat, n: nat, mtf: seq<nat>, j: nat, bits: seq<Bit>)
    returns (all: seq<nat>, rest: seq<Bit>)
    requires Comes(Selector3(h, used, nGroups, n, mtf, j), bits)
    ensures |mtf| < |all| == n <= 18002 && all[..|mtf|] == mtf && j <= all[|mtf|] && AllBelow(all, nGroups) && |rest| < |bits|
    ensures bits == Unary(all[|mtf|] - j) + SelectorBits(all[|mtf| + 1..]) + rest
    ensures Comes(Coding1(h, used, nGroups, SelectorsOf(all, nGroups), []), rest)
    ensures Feed(Selector3(h, used, nGroups, n, mtf, j), bits) == Feed(Coding1(h, used, nGroups, SelectorsOf(all, nGroups), []), rest)
    decreases |bits|
  {
    hide *;
    var d := Selector3(h, used, nGroups, n, mtf, j);
    ComesIs(d, bits);
    OrderSteps(h, used, nGroups, n, mtf, j, false);
    var b, next := BitOfField(d, bits);
    BitOfIs(b);
    OrderSteps(h, used, nGroups, n, mtf, j, b);
    if b {
      all, rest := OrderOf(h, used, nGroups, n, mtf, j + 1, next);
    } else if |mtf| + 1 < n {
      all, rest := OrderOf(h, used, nGroups, n, mtf + [j], 0, next);
      assert all[|mtf|] == all[..|mtf| + 1][|mtf|] == j && all[..|mtf|] == all[..|mtf| + 1][..|mtf|] == mtf;
    } else {
      all, rest := mtf + [j], next;
    }
    TailBits(all, |mtf|, j, rest);
  }

  lemma CountsOf(h: Head, used: seq<Byte>, bits: seq<Bit>) returns (nGroups: nat, mtf: seq<nat>, rest: seq<Bit>)
    requires Comes(Selector1(h, used), bits)
    ensures SelectorsOk(nGroups, mtf) && AllBelow(mtf, nGroups) && bits == SelectorText(nGroups, mtf) + rest && |rest| < |bits|
    ensures Comes(Coding1(h, used, nGroups, SelectorsOf(mtf, nGroups), []), rest)
    ensures Feed(Selector1(h, used), bits) == Feed(Coding1(h, used, nGroups, SelectorsOf(mtf, nGroups), []), rest)
  {
    hide *;
    ComesIs(Selector1(h, used), bits);
    CountSteps(h, used, 0, 0);
    var v, r1 := FieldOf(Selector1(h, used), bits);
    CountSteps(h, used, 0, v);
    nGroups := v;
    ComesIs(Selector2(h, used, nGroups), r1);
    CountSteps(h, used, nGroups, 0);
    var n, r2 := FieldOf(Selector2(h, used, nGroups), r1);
    CountSteps(h, used, nGroups, n);
    mtf, rest := OrderOf(h, used, nGroups, n, [], 0, r2);
    SelectorTextIs(nGroups, mtf, bits, r1, r2, rest);
  }

  lemma SelectorTextIs(nGroups: nat, mtf: seq<nat>, bits: seq<Bit>, r1: seq<Bit>, r2: seq<Bit>, rest: seq<Bit>)
    requires mtf != [] && 2 <= nGroups <= 6 && |mtf| <= 18002 && AllBelow(mtf, nGroups)
    requires bits == Bits(3, nGroups) + r1 && r1 == Bits(15, |mtf|) + r2
    requires r2 == Unary(mtf[0] - 0) + SelectorBits(mtf[1..]) + rest
    ensures SelectorsOk(nGroups, mtf) && bits == SelectorText(nGroups, mtf) + rest
  {
    hide Bits, Unary;
    assert SelectorBits(mtf) == Unary(mtf[0]) + SelectorBits(mtf[1..]);
    hide SelectorBits;
    Assoc(Bits(3, nGroups), Bits(15, |mtf|), r2);
    Assoc(Bits(3, nGroups) + Bits(15, |mtf|), SelectorBits(mtf), rest);
  }
}

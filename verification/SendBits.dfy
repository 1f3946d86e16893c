/** The second half of sendMTFValues (compress.c): everything written for a block after its header. */
module SendBits {
  import opened Basics
  import opened BitStrings
  import opened BitIO
  import opened Permutations
  import opened Rotations
  import opened Ranks
  import opened Canonical
  import opened CodeTree
  import opened HuffmanLengths
  import opened Mtf
  import opened MtfEncode
  import opened Decoder
  import opened BlockFormat
  import opened TableFormat
  import opened SymbolFormat
  import opened BlockEncoding
  import opened TableChoice

  // --- The selectors' move-to-front ---

  /** The selector list's own sliding search; the front element may be the one sought. */
  method SlideSelector(pos: array<nat>, n: nat, x: nat) returns (j: nat)
    requires 0 < n <= pos.Length && x in pos[..n]
    modifies pos
    ensures x in old(pos[..n]) && j == IndexOf(old(pos[..n]), x) && pos[..n] == MoveToFront(old(pos[..n]), j)
  {
    ghost var list: seq<nat> := pos[..n];
    ghost var at := IndexOf(list, x);
    j := 0;
    var tmp := pos[0];
    while x != tmp
      invariant j <= at && tmp == list[j]
      invariant forall k :: 1 <= k <= j ==> pos[k] == list[k - 1]
      invariant forall k :: j < k < n ==> pos[k] == list[k]
      decreases at - j
    {
      j := j + 1;
      var tmp2 := tmp;
      tmp := pos[j];
      pos[j] := tmp2;
    }
    pos[0] := tmp;
    InPrefix(list, at, j);
  }

  lemma SelectorNext(selector: seq<nat>, pos: seq<nat>, i: nat)
    requires i < |selector| && forall k :: 0 <= k < |selector| ==> selector[k] in pos
    ensures var j := IndexOf(pos, selector[i]); var moved := MoveToFront(pos, j);
            (forall k :: 0 <= k < |selector| ==> selector[k] in moved)
            && MtfSelectors(selector[i..], pos) == [j] + MtfSelectors(selector[i + 1..], moved)
  {
    var j := IndexOf(pos, selector[i]);
    MoveKeeps(pos, j);
    assert forall x :: x in pos ==> x in multiset(MoveToFront(pos, j));
    assert selector[i..][1..] == selector[i + 1..];
  }

  method CodeSelectors(selector: seq<nat>, nGroups: nat) returns (mtf: seq<nat>)
    requires 2 <= nGroups <= 6 && AllBelow(selector, nGroups)
    ensures (forall k :: 0 <= k < |selector| ==> selector[k] in Groups(nGroups))
    ensures mtf == MtfSelectors(selector, Groups(nGroups))
  {
    hide MtfSelectors, MoveToFront, IndexOf;
    var pos := new nat[6](i => i);
    assert pos[..nGroups] == Groups(nGroups);
    SelectorsInGroups(selector, nGroups);
    mtf := [];
    assert selector[0..] == selector;
    for i := 0 to |selector|
      invariant forall k :: 0 <= k < |selector| ==> selector[k] in pos[..nGroups]
      invariant mtf + MtfSelectors(selector[i..], pos[..nGroups]) == MtfSelectors(selector, Groups(nGroups))
    {
      SelectorNext(selector, pos[..nGroups], i);
      ghost var more := MtfSelectors(selector[i + 1..], MoveToFront(pos[..nGroups], IndexOf(pos[..nGroups], selector[i])));
      var j := SlideSelector(pos, nGroups, selector[i]);
      assert mtf + ([j] + more) == mtf + [j] + more;
      mtf := mtf + [j];
    }
    NoSelectors(selector[|selector|..], pos[..nGroups]);
  }

  lemma NoSelectors(selector: seq<nat>, pos: seq<nat>)
    requires selector == []
    ensures MtfSelectors(selector, pos) == []
  {
  }

  // --- Single bits and short fields ---

  method PutBit(w: BitWriter, b: bool)
    requires w.Valid()
    modifies w
    ensures w.Valid() && w.Contents() == old(w.Contents()) + [BitOf(b)] && old(w.zbits) <= w.zbits
  {
    assert Pow2(1) == 2 * Shl(1, 0);
    assert Bits(1, BitOf(b)) == [BitOf(b)] by { assert Bits(0, BitOf(b) / 2) == []; }
    w.Write(1, if b then 1 else 0);
  }

  method PutTwo(w: BitWriter, up: bool)
    requires w.Valid()
    modifies w
    ensures w.Valid() && w.Contents() == old(w.Contents()) + (if up then [1, 0] else [1, 1]) && old(w.zbits) <= w.zbits
  {
    TwoBits();
    w.Write(2, if up then 2 else 3);
  }

  lemma TwoBits()
    ensures 3 < Pow2(2) && Bits(2, 2) == [1, 0] && Bits(2, 3) == [1, 1]
  {
    assert Pow2(2) == 2 * Shl(1, 1) && Shl(1, 1) == 2 * Shl(1, 0);
    assert Bits(0, 0) == [] && Bits(1, 1) == [1];
  }

  // --- The mapping table ---

  method UsedGroups(inUse: seq<bool>) returns (inUse16: seq<bool>)
    requires |inUse| == 256
    ensures inUse16 == Flags(inUse)
  {
    inUse16 := [];
    for i := 0 to 16
      invariant |inUse16| == i && forall g :: 0 <= g < i ==> inUse16[g] == GroupUsed(inUse, g)
    {
      var flag := false;
      for j := 0 to 16
        invariant flag == exists k :: 16 * i <= k < 16 * i + j && inUse[k]
      {
        if inUse[16 * i + j] { flag := true; }
      }
      inUse16 := inUse16 + [flag];
    }
  }

  method SendFlags(w: BitWriter, flags: seq<bool>)
    requires w.Valid()
    modifies w
    ensures w.Valid() && w.Contents() == old(w.Contents()) + BoolBits(flags) && old(w.zbits) <= w.zbits
  {
    assert flags[0..] == flags;
    for i := 0 to |flags|
      invariant w.Valid() && old(w.zbits) <= w.zbits
      invariant w.Contents() + BoolBits(flags[i..]) == old(w.Contents()) + BoolBits(flags)
    {
      assert flags[i..][1..] == flags[i + 1..];
      Assoc(w.Contents(), [BitOf(flags[i])], BoolBits(flags[i + 1..]));
      PutBit(w, flags[i]);
    }
    assert BoolBits(flags[|flags|..]) == [];
  }

  lemma MemberStep(inUse: seq<bool>, g: nat)
    requires |inUse| == 256 && g < 16
    ensures |Flags(inUse)| == 16
    ensures MemberBits(inUse, g)
         == (if Flags(inUse)[g] then BoolBits(inUse[16 * g..16 * g + 16]) else []) + MemberBits(inUse, g + 1)
  {
    hide BoolBits, GroupUsed;
  }

  method SendMap(w: BitWriter, inUse: seq<bool>)
    requires w.Valid() && |inUse| == 256
    modifies w
    ensures w.Valid() && w.Contents() == old(w.Contents()) + MapBits(inUse) && old(w.zbits) <= w.zbits
  {
    var inUse16 := UsedGroups(inUse);
    hide BoolBits, GroupUsed, Shl, Flags, MemberBits, Bits;
    MemberStep(inUse, 0);
    SendFlags(w, inUse16);
    Assoc(old(w.Contents()), BoolBits(Flags(inUse)), MemberBits(inUse, 0));
    for i := 0 to 16
      invariant w.Valid() && old(w.zbits) <= w.zbits
      invariant w.Contents() + MemberBits(inUse, i) == old(w.Contents()) + MapBits(inUse)
    {
      MemberStep(inUse, i);
      if inUse16[i] {
        Assoc(w.Contents(), BoolBits(inUse[16 * i..16 * i + 16]), MemberBits(inUse, i + 1));
        SendFlags(w, inUse[16 * i..16 * i + 16]);
      } else {
        assert [] + MemberBits(inUse, i + 1) == MemberBits(inUse, i + 1);
      }
    }
    NoMembers(inUse);
  }

  lemma NoMembers(inUse: seq<bool>)
    requires |inUse| == 256
    ensures MemberBits(inUse, 16) == []
  {
  }

  // --- Selectors ---

  method SendSelector(w: BitWriter, j: nat)
    requires w.Valid()
    modifies w
    ensures w.Valid() && w.Contents() == old(w.Contents()) + Unary(j) && old(w.zbits) <= w.zbits
  {
    for i := 0 to j
      invariant w.Valid() && old(w.zbits) <= w.zbits
      invariant w.Contents() + Unary(j - i) == old(w.Contents()) + Unary(j)
    {
      Assoc(w.Contents(), [1], Unary(j - i - 1));
      PutBit(w, true);
    }
    PutBit(w, false);
  }

  method SendSelectors(w: BitWriter, mtf: seq<nat>)
    requires w.Valid()
    modifies w
    ensures w.Valid() && w.Contents() == old(w.Contents()) + SelectorBits(mtf) && old(w.zbits) <= w.zbits
  {
    hide Unary;
    assert mtf[0..] == mtf;
    for i := 0 to |mtf|
      invariant w.Valid() && old(w.zbits) <= w.zbits
      invariant w.Contents() + SelectorBits(mtf[i..]) == old(w.Contents()) + SelectorBits(mtf)
    {
      assert mtf[i..][1..] == mtf[i + 1..];
      Assoc(w.Contents(), Unary(mtf[i]), SelectorBits(mtf[i + 1..]));
      SendSelector(w, mtf[i]);
    }
    assert SelectorBits(mtf[|mtf|..]) == [];
  }

  // --- Coding tables ---

  method SendMoves(w: BitWriter, from: nat, target: nat)
    requires w.Valid()
    modifies w
    ensures w.Valid() && w.Contents() == old(w.Contents()) + MoveBits(from, target) && old(w.zbits) <= w.zbits
  {
    hide Bits, Shl;
    var curr := from;
    while curr < target
      invariant w.Valid() && old(w.zbits) <= w.zbits && (from <= target ==> from <= curr <= target) && (from > target ==> curr == from)
      invariant w.Contents() + MoveBits(curr, target) == old(w.Contents()) + MoveBits(from, target)
    {
      Assoc(w.Contents(), [1, 0], MoveBits(curr + 1, target));
      PutTwo(w, true);
      curr := curr + 1;
    }
    while curr > target
      invariant w.Valid() && old(w.zbits) <= w.zbits && target <= curr
      invariant w.Contents() + MoveBits(curr, target) == old(w.Contents()) + MoveBits(from, target)
    {
      Assoc(w.Contents(), [1, 1], MoveBits(curr - 1, target));
      PutTwo(w, false);
      curr := curr - 1;
    }
    assert MoveBits(target, target) == [];
  }

  method SendTable(w: BitWriter, lens: seq<Byte>)
    requires w.Valid() && lens != [] && lens[0] <= 20
    modifies w
    ensures w.Valid() && w.Contents() == old(w.Contents()) + TableBits(lens) && old(w.zbits) <= w.zbits
  {
    hide MoveBits, Bits, Shl;
    var curr: nat := lens[0];
    FiveBits();
    w.Write(5, curr);
    assert lens[0..] == lens;
    Assoc(old(w.Contents()), Bits(5, curr), LengthBits(lens, curr));
    for i := 0 to |lens|
      invariant w.Valid() && old(w.zbits) <= w.zbits
      invariant w.Contents() + LengthBits(lens[i..], curr) == old(w.Contents()) + TableBits(lens)
    {
      assert lens[i..][1..] == lens[i + 1..];
      Assoc4(w.Contents(), MoveBits(curr, lens[i]), [0], LengthBits(lens[i + 1..], lens[i]));
      SendMoves(w, curr, lens[i]);
      PutBit(w, false);
      curr := lens[i];
    }
    assert LengthBits(lens[|lens|..], curr) == [];
  }

  lemma FiveBits()
    ensures Pow2(5) == 32
  {
    assert Shl(1, 3) == 8 && Shl(1, 4) == 16;
  }

  method SendTables(w: BitWriter, lens: seq<seq<Byte>>)
    requires w.Valid() && forall t :: 0 <= t < |lens| ==> lens[t] != [] && lens[t][0] <= 20
    modifies w
    ensures w.Valid() && w.Contents() == old(w.Contents()) + TablesBits(lens) && old(w.zbits) <= w.zbits
  {
    hide TableBits;
    assert lens[0..] == lens;
    for t := 0 to |lens|
      invariant w.Valid() && old(w.zbits) <= w.zbits
      invariant w.Contents() + TablesBits(lens[t..]) == old(w.Contents()) + TablesBits(lens)
    {
      assert lens[t..][1..] == lens[t + 1..];
      Assoc(w.Contents(), TableBits(lens[t]), TablesBits(lens[t + 1..]));
      SendTable(w, lens[t]);
    }
    assert TablesBits(lens[|lens|..]) == [];
  }

  // --- The symbols ---

  /** What the writer holds of one table. */
  ghost predicate CodesOf(code: seq<nat>, lens: seq<Byte>) {
    && |code| == |lens| && Prefixable(lens)
    && forall v :: 0 <= v < |lens| ==> code[v] == Code(lens, v)
  }

  method SendSymbol(w: BitWriter, lens: seq<Byte>, code: seq<nat>, sym: nat)
    requires w.Valid() && CodesOf(code, lens) && sym < |lens|
    modifies w
    ensures w.Valid() && w.Contents() == old(w.Contents()) + CodeBits(lens, sym) && old(w.zbits) <= w.zbits && w.bsLive < 32
  {
    hide Bits, Shl, Used, Code;
    CodeFits(lens, sym);
    w.Write(lens[sym], code[sym]);
  }

  ghost predicate SendReady(selector: seq<nat>, lens: seq<seq<Byte>>, codes: seq<seq<nat>>, syms: seq<nat>) {
    && AllBelow(selector, |lens|) && |codes| == |lens| && |selector| == (|syms| + 49) / 50
    && (forall t :: 0 <= t < |lens| ==> CodesOf(codes[t], lens[t]))
    && forall t, j :: 0 <= t < |lens| && 0 <= j < |syms| ==> syms[j] < |lens[t]|
  }

  lemma SymbolBitsNext(selector: seq<nat>, lens: seq<seq<Byte>>, codes: seq<seq<nat>>, syms: seq<nat>, k: nat)
    requires SendReady(selector, lens, codes, syms)
    ensures |syms| <= 50 * |selector|
    ensures k < |syms| ==> k / 50 < |selector|
    ensures k < |syms| ==>
      SymbolBits(selector, lens, syms, k) == CodeBits(lens[selector[k / 50]], syms[k]) + SymbolBits(selector, lens, syms, k + 1)
    ensures k >= |syms| ==> SymbolBits(selector, lens, syms, k) == []
  {
    hide CodeBits, CodesOf;
  }

  lemma SendsWith(selector: seq<nat>, lens: seq<seq<Byte>>, codes: seq<seq<nat>>, syms: seq<nat>, i: nat, selCtr: nat)
    requires SendReady(selector, lens, codes, syms) && i < |syms| && selCtr == i / 50
    ensures selCtr < |selector| && selector[selCtr] < |lens| == |codes|
    ensures CodesOf(codes[selector[selCtr]], lens[selector[selCtr]]) && syms[i] < |lens[selector[selCtr]]|
  {
    hide CodesOf;
  }

  method SendSymbols(w: BitWriter, selector: seq<nat>, lens: seq<seq<Byte>>, codes: seq<seq<nat>>, syms: seq<nat>)
    requires w.Valid() && SendReady(selector, lens, codes, syms)
    modifies w
    ensures |syms| <= 50 * |selector|
    ensures w.Valid() && w.Contents() == old(w.Contents()) + SymbolBits(selector, lens, syms, 0) && old(w.zbits) <= w.zbits
    ensures syms != [] ==> w.bsLive < 32
  {
    hide SymbolBits, CodeBits, CodesOf, Bits, Shl;
    SymbolBitsNext(selector, lens, codes, syms, 0);
    var selCtr, gs := 0, 0;
    ghost var whole := old(w.Contents()) + SymbolBits(selector, lens, syms, 0);
    while gs < |syms|
      invariant w.Valid() && old(w.zbits) <= w.zbits && (gs > 0 ==> w.bsLive < 32)
      invariant gs <= |syms| && selCtr == (gs + 49) / 50 && (gs < |syms| ==> gs == 50 * selCtr)
      invariant w.Contents() + SymbolBits(selector, lens, syms, gs) == whole
    {
      var ge := if gs + 50 - 1 >= |syms| then |syms| - 1 else gs + 50 - 1;
      for i := gs to ge + 1
        invariant w.Valid() && old(w.zbits) <= w.zbits && (i > 0 ==> w.bsLive < 32)
        invariant w.Contents() + SymbolBits(selector, lens, syms, i) == whole
      {
        assert i / 50 == selCtr;
        SendsWith(selector, lens, codes, syms, i, selCtr);
        SymbolBitsNext(selector, lens, codes, syms, i);
        Assoc(w.Contents(), CodeBits(lens[selector[selCtr]], syms[i]), SymbolBits(selector, lens, syms, i + 1));
        SendSymbol(w, lens[selector[selCtr]], codes[selector[selCtr]], syms[i]);
      }
      gs := ge + 1;
      selCtr := selCtr + 1;
    }
    SymbolBitsNext(selector, lens, codes, syms, gs);
    assert selCtr == |selector| by { SelectorCount(selector, lens, codes, syms); }
  }

  lemma SelectorCount(selector: seq<nat>, lens: seq<seq<Byte>>, codes: seq<seq<nat>>, syms: seq<nat>)
    requires SendReady(selector, lens, codes, syms)
    ensures |selector| == (|syms| + 49) / 50
  {
    hide CodesOf;
  }

  // --- Codes ---

  /** A full code of lengths up to 17 is one the decoder accepts. */
  lemma FullIsPrefixable(lens: seq<Byte>)
    requires 0 < |lens| <= 258 && FullCode(lens, 17)
    ensures Prefixable(lens)
  {
    hide KraftSum, Shl, Used;
    UsedIsKraftSum(lens, 20);
    KraftScaled(lens, 17, 3);
    Pow2Add(17, 3);
  }

  /** The smallest and largest length, and the codes: assertions 3004 and 3005 hold. */
  method CodesFor(lens: seq<Byte>) returns (code: seq<nat>)
    requires 0 < |lens| <= 258 && FullCode(lens, 17)
    ensures CodesOf(code, lens)
  {
    hide KraftSum, Shl, Used, Count;
    FullIsPrefixable(lens);
    var minLen, maxLen: nat := 32, 0;
    for i := 0 to |lens|
      invariant forall k :: 0 <= k < i ==> minLen <= lens[k] <= maxLen
      invariant if i == 0 then minLen == 32 && maxLen == 0 else 1 <= minLen <= maxLen <= 17
    {
      if lens[i] > maxLen { maxLen := lens[i]; }
      if lens[i] < minLen { minLen := lens[i]; }
    }
    assert !(maxLen > 17);
    assert !(minLen < 1);
    var codes := new nat[|lens|];
    AssignCodes(codes, lens, minLen, maxLen);
    code := codes[..];
  }

  method AllCodes(len: array2<Byte>, nGroups: nat, alphaSize: nat) returns (lens: seq<seq<Byte>>, codes: seq<seq<nat>>)
    requires Costs(len, 17) && 2 <= nGroups <= 6 && 2 <= alphaSize <= 258 && FullTables(len, nGroups, alphaSize)
    ensures |lens| == nGroups == |codes|
    ensures forall t :: 0 <= t < nGroups ==> |lens[t]| == alphaSize && CodesOf(codes[t], lens[t])
    ensures forall t :: 0 <= t < nGroups ==> lens[t] == TableChoice.Row(len, t, alphaSize)
  {
    hide FullCode, CodesOf;
    lens, codes := [], [];
    for t := 0 to nGroups
      invariant |lens| == t == |codes|
      invariant forall u :: 0 <= u < t ==> |lens[u]| == alphaSize && CodesOf(codes[u], lens[u])
      invariant forall u :: 0 <= u < t ==> lens[u] == TableChoice.Row(len, u, alphaSize)
    {
      var row := TableChoice.Row(len, t, alphaSize);
      var code := CodesFor(row);
      lens, codes := lens + [row], codes + [code];
    }
  }

  // --- sendMTFValues ---

  /** Choosing the tables: four rounds over all groups (BZ_N_ITERS). */
  method MakeTables(syms: seq<nat>, mtfFreq: array<nat>, alphaSize: nat) returns (lens: seq<seq<Byte>>, codes: seq<seq<nat>>, selectors: seq<nat>)
    requires 3 <= alphaSize <= 258 && InAlphabet(syms, alphaSize) && 0 < |syms| <= 900001 && mtfFreq.Length == 258
    ensures 2 <= |lens| <= 6 && |codes| == |lens|
    ensures forall t :: 0 <= t < |lens| ==> |lens[t]| == alphaSize && CodesOf(codes[t], lens[t])
    ensures AllBelow(selectors, |lens|) && |selectors| == (|syms| + 49) / 50 <= 18001
    ensures |lens| == GroupCount(|syms|) && BestTables(lens, selectors, syms, alphaSize)
  {
    hide CodesOf, FullTables, Tallies, BestCode, Counted;
    var len, rfreq, selector := new Byte[6, 258], new nat[6, 258], new nat[18002];
    var nGroups := GroupCount(|syms|);
    InitialTables(len, mtfFreq, |syms|, nGroups, alphaSize);
    var nSelectors := 0;
    for iter := 0 to 4
      invariant Costs(len, 17)
      invariant iter > 0 ==> FullTables(len, nGroups, alphaSize)
      invariant iter > 0 ==> nSelectors == (|syms| + 49) / 50 <= 18001
      invariant iter > 0 ==> nSelectors <= selector.Length && AllBelow(selector[..nSelectors], nGroups)
      invariant iter > 0 ==> forall t :: 0 <= t < nGroups ==>
        BestCode(TableChoice.Row(len, t, alphaSize), Frequencies(selector[..nSelectors], syms, alphaSize, t), 17)
    {
      nSelectors := ChooseTables(len, rfreq, selector, syms, nGroups, alphaSize);
      RemakeTables(len, rfreq, nGroups, alphaSize, |syms|);
      forall t | 0 <= t < nGroups
        ensures TableChoice.Row(rfreq, t, alphaSize) == Frequencies(selector[..nSelectors], syms, alphaSize, t)
      {
        CountedRow(rfreq, selector[..nSelectors], syms, alphaSize, t);
      }
    }
    assert nSelectors < 32768 && nSelectors <= 2 + 900000 / 50;
    lens, codes := AllCodes(len, nGroups, alphaSize);
    selectors := selector[..nSelectors];
  }

  /** sendMTFValues: the bits written are a payload, for some tables and selectors of its choice. */
  method SendMtfValues(w: BitWriter, sink: SymbolSink, inUse: seq<bool>, nInUse: nat, ghost crc: Word, ghost orig: nat)
    returns (ghost e: Encoding)
    requires w.Valid() && sink.Valid() && |inUse| == 256 && nInUse == |UsedBytes(inUse)|
    requires forall k :: 0 <= k < sink.wr ==> sink.Written()[k] >= 0
    requires SymbolsOk(sink.Written(), nInUse) && sink.wr <= 900001
    modifies w
    ensures e.crc == crc && e.orig == orig && e.inUse == inUse && e.syms == old(sink.Written())
    ensures |e.selector| == (|e.syms| + 49) / 50 && CodesOk(e)
    ensures |e.lens| == GroupCount(|e.syms|) && BestTables(e.lens, e.selector, e.syms, nInUse + 2)
    ensures w.Valid() && old(w.zbits) <= w.zbits && w.bsLive < 32
    ensures w.Contents() == old(w.Contents()) + PayloadBits(e)
  {
    hide *;
    var syms := ReadSymbols(sink);
    AlphabetOf(syms, inUse);
    var lens, codes, selector := MakeTables(syms, sink.mtfFreq, nInUse + 2);
    e := Encoding(crc, orig, inUse, lens, selector, syms);
    ReadyToSend(e, codes);
    var selectorMtf := CodeSelectors(selector, |lens|);
    SendMap(w, inUse);
    SelectorCounts(|lens|, |selector|);
    w.Write(3, |lens|);
    w.Write(15, |selector|);
    SendSelectors(w, selectorMtf);
    SendTables(w, lens);
    SendSymbols(w, selector, lens, codes, syms);
    PayloadParts(e, old(w.Contents()));
  }

  /** The symbols, through mtfv. */
  method ReadSymbols(sink: SymbolSink) returns (syms: seq<nat>)
    requires sink.Valid() && forall k :: 0 <= k < sink.wr ==> sink.Written()[k] >= 0
    ensures syms == sink.Written() && |syms| == sink.wr && sink.mtfFreq.Length == 258
  {
    hide Count;
    syms := seq(sink.wr, k requires 0 <= k < sink.wr && sink.Valid() reads sink, sink.mtfv, sink.mtfv.words, sink.mtfFreq => sink.mtfv.Half(k));
  }

  lemma AlphabetOf(syms: seq<nat>, inUse: seq<bool>)
    requires |inUse| == 256 && SymbolsOk(syms, |UsedBytes(inUse)|)
    ensures 3 <= |UsedBytes(inUse)| + 2 <= 258 && InAlphabet(syms, |UsedBytes(inUse)| + 2) && syms != []
  {
    hide UsedBytes;
  }

  lemma ReadyToSend(e: Encoding, codes: seq<seq<nat>>)
    requires |e.inUse| == 256 && SymbolsOk(e.syms, |UsedBytes(e.inUse)|) && |e.syms| <= 900001
    requires 2 <= |e.lens| <= 6 && |codes| == |e.lens|
    requires forall t :: 0 <= t < |e.lens| ==> |e.lens[t]| == |UsedBytes(e.inUse)| + 2 && CodesOf(codes[t], e.lens[t])
    requires AllBelow(e.selector, |e.lens|) && |e.selector| == (|e.syms| + 49) / 50
    ensures CodesOk(e) && SendReady(e.selector, e.lens, codes, e.syms)
    ensures forall t :: 0 <= t < |e.lens| ==> e.lens[t] != [] && e.lens[t][0] <= 20
  {
    hide UsedBytes, Used, Count;
    PrefixableTables(e.lens, codes);
    PayloadFits(e);
  }

  lemma PayloadParts(e: Encoding, o: seq<Bit>)
    requires |e.inUse| == 256 && CodesOk(e) && SymbolsOk(e.syms, |UsedBytes(e.inUse)|) && |e.selector| == (|e.syms| + 49) / 50
    requires forall k :: 0 <= k < |e.selector| ==> e.selector[k] in Groups(|e.lens|)
    ensures AllBelow(e.selector, |e.lens|) && |e.syms| <= 50 * |e.selector|
    ensures forall t, j :: 0 <= t < |e.lens| && 0 <= j < |e.syms| ==> e.syms[j] < |e.lens[t]|
    ensures o + MapBits(e.inUse) + Bits(3, |e.lens|) + Bits(15, |e.selector|) + SelectorBits(MtfSelectors(e.selector, Groups(|e.lens|)))
              + TablesBits(e.lens) + SymbolBits(e.selector, e.lens, e.syms, 0)
         == o + PayloadBits(e)
  {
    hide MapBits, Bits, SelectorBits, MtfSelectors, TablesBits, SymbolBits, UsedBytes, CodesOk, SymbolsOk, Groups;
    PayloadFits(e);
    var m, t, y := MapBits(e.inUse), TablesBits(e.lens), SymbolBits(e.selector, e.lens, e.syms, 0);
    var x, z, q := Bits(3, |e.lens|), Bits(15, |e.selector|), SelectorBits(MtfSelectors(e.selector, Groups(|e.lens|)));
    Assoc4(o + m, x, z, q);
    Assoc4(o, m, x + z + q, t);
    Assoc(o, m + (x + z + q) + t, y);
  }

  lemma PrefixableTables(lens: seq<seq<Byte>>, codes: seq<seq<nat>>)
    requires |codes| == |lens| && forall t :: 0 <= t < |lens| ==> CodesOf(codes[t], lens[t])
    ensures forall t :: 0 <= t < |lens| ==> Prefixable(lens[t])
  {
    hide Prefixable;
  }
}

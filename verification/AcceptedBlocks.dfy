/** Exactly which bit strings BZ2_decompress (decompress.c) takes for a block: the layout of a block
    written out, with every range that is checked. The machine delivers a block from a layout, and from
    nothing else. */
module AcceptedBlocks {
  import opened Basics
  import opened BitStrings
  import opened Permutations
  import opened Ranks
  import opened Canonical
  import opened Mtf
  import opened RunDigits
  import opened RunOverflow
  import opened Decoder
  import opened BlockFormat
  import opened TableFormat
  import opened AcceptedFields
  import opened AcceptedMaps
  import opened AcceptedTables
  import opened AcceptedSymbols

  /** What is written for a block: its checksum and original row, the flags of the 16 groups of bytes and
      the bytes in use, the selectors in their own move-to-front coding, the tables' walks, and the
      symbols with a code word for each. */
  datatype Layout = Layout(crc: Word, orig: nat, flags: seq<bool>, inUse: seq<bool>, nGroups: nat, mtf: seq<nat>,
                           lines: seq<Line>, words: seq<seq<Bit>>, syms: seq<int>)

  /** The parts in front of the symbols are in order. */
  ghost predicate Framed(l: Layout, level: nat) {
    && 1 <= level <= 9 && l.orig <= 10 + 100000 * level
    && MapOk(l.flags, l.inUse) && SelectorsOk(l.nGroups, l.mtf) && AllBelow(l.mtf, l.nGroups)
    && |l.lines| == l.nGroups && LinesOk(l.lines, |UsedBytes(l.inUse)| + 2)
  }

  /** The tables, selectors and bytes that the symbols are read with. */
  ghost function BodyOf(l: Layout, level: nat): (b: Body)
    requires Framed(l, level)
  {
    var used := UsedBytes(l.inUse);
    Ahead(Head(level, l.crc, l.orig), used, SelectorsOf(l.mtf, l.nGroups), LensOf(l.lines, |used| + 2))
  }

  lemma BodyIsFresh(l: Layout, level: nat)
    requires Framed(l, level)
    ensures var b := BodyOf(l, level);
            && Fresh(b) && BodyOk(b) && Ready(b.u, b.used, |b.used|) && b.head == Head(level, l.crc, l.orig) && b.used == UsedBytes(l.inUse)
            && 0 < |b.used| <= 256 && b.selector == SelectorsOf(l.mtf, l.nGroups) && b.selector != []
  {
    hide MakeTable, TablesOk, Lengths, Stops, Steady, LinesOk;
    SomeUsed(l.inUse);
    var used := UsedBytes(l.inUse);
    hide UsedBytes;
    FreshIsReady(used);
    hide FreshList;
  }

  lemma FreshIsReady(used: seq<Byte>)
    requires 0 < |used| <= 256
    ensures Ready(FreshList(), used, |used|)
  {
  }

  /** A layout that the machine takes. */
  ghost predicate Legal(l: Layout, level: nat) {
    Framed(l, level) && var b := BodyOf(l, level);
    Ready(b.u, b.used, |b.used|) && WordsOk(b, l.words, l.syms, 0) && Whole(b, l.syms)
  }

  /** The last column the symbols stand for. */
  ghost function ColumnOfLayout(l: Layout, level: nat): (col: seq<Byte>)
    requires Legal(l, level)
  {
    EndColumn(BodyOf(l, level), l.syms)
  }

  /** A layout as it is written. */
  ghost function Text(l: Layout): (r: seq<Bit>) {
    if |l.flags| == 16 && |l.inUse| == 256 then
      FrontText(l.crc, l.orig) + MapText(l.flags, l.inUse) + SelectorText(l.nGroups, l.mtf) + LinesText(l.lines) + JoinedWords(l.words)
    else []
  }

  lemma FramedParts(l: Layout, level: nat)
    requires Framed(l, level)
    ensures 1 <= level <= 9 && l.orig <= 10 + 100000 * level && MapOk(l.flags, l.inUse) && |l.flags| == 16 && |l.inUse| == 256
    ensures SelectorsOk(l.nGroups, l.mtf) && AllBelow(l.mtf, l.nGroups) && 2 <= l.nGroups <= 6 && 1 <= |l.mtf| <= MAX_SELECTORS
    ensures |l.lines| == l.nGroups && LinesOk(l.lines, |UsedBytes(l.inUse)| + 2)
    ensures HeadOk(Head(level, l.crc, l.orig))
  {
    hide UsedBytes, LinesOk;
  }

  lemma LegalParts(l: Layout, level: nat)
    requires Legal(l, level)
    ensures Framed(l, level)
    ensures var b := BodyOf(l, level); Ready(b.u, b.used, |b.used|) && WordsOk(b, l.words, l.syms, 0) && Whole(b, l.syms)
                                       && ColumnOfLayout(l, level) == EndColumn(b, l.syms)
  {
    hide Framed, WordsOk, Whole, EndColumn, BodyOf;
  }

  lemma FirstState(b: Body, syms: seq<int>)
    requires Fresh(b) && Ready(b.u, b.used, |b.used|) && b.selector != []
    ensures Plain(b.used, syms, 0) && Before(b, syms, 0) == MtfFirst(b, 0, 49) && Valid(MtfFirst(b, 0, 49))
    ensures Pending(b, []) && Symbols([], b.used) && Before(b, [], 0) == MtfFirst(b, 0, 49)
  {
    assert syms[..0] == [];
    hide TablesOk, Ready;
  }

  /** Every legal layout is taken, whatever follows. */
  lemma LayoutIsRead(l: Layout, level: nat)
    requires Legal(l, level)
    ensures Reads(BlkHdr(level, 1), Text(l), Output(Head(level, l.crc, l.orig), ColumnOfLayout(l, level)))
  {
    hide *;
    LegalParts(l, level);
    FramedParts(l, level);
    BodyIsFresh(l, level);
    BodyIs(l, level);
    var h, b, used := Head(level, l.crc, l.orig), BodyOf(l, level), UsedBytes(l.inUse);
    var selector := SelectorsOf(l.mtf, l.nGroups);
    var s0, s1, s2 := BlkHdr(level, 1), Mapping1(h, []), Selector1(h, used);
    var s3, s4, s5 := Coding1(h, used, l.nGroups, selector, []), MtfFirst(b, 0, 49), Output(h, ColumnOfLayout(l, level));
    TextIsFront(l.crc, l.orig, level);
    TextIsMap(h, l.flags, l.inUse);
    TextIsSelectors(h, used, l.nGroups, l.mtf);
    SelectorsCount(l.mtf, l.nGroups);
    TextIsTables(h, used, selector, l.lines, 0);
    NoTables(LensOf(l.lines, |used| + 2), l.lines);
    FirstState(b, l.syms);
    WholeSymbols(b, l.syms);
    TextIsSymbols(b, l.words, l.syms, 0);
    var t1, t2, t3, t4 := FrontText(l.crc, l.orig), MapText(l.flags, l.inUse), SelectorText(l.nGroups, l.mtf), LinesText(l.lines);
    TextIs(l);
    ReadsThen(s0, t1, s1, t2, s2);
    ReadsThen(s0, t1 + t2, s2, t3, s3);
    ReadsThen(s0, t1 + t2 + t3, s3, t4, s4);
    ReadsThen(s0, t1 + t2 + t3 + t4, s4, JoinedWords(l.words), s5);
  }

  lemma TextIs(l: Layout)
    requires |l.flags| == 16 && |l.inUse| == 256
    ensures Text(l) == FrontText(l.crc, l.orig) + MapText(l.flags, l.inUse) + SelectorText(l.nGroups, l.mtf) + LinesText(l.lines) + JoinedWords(l.words)
  {
    hide FrontText, MapText, SelectorText, LinesText, JoinedWords;
  }

  lemma SelectorsCount(mtf: seq<nat>, nGroups: nat)
    requires AllBelow(mtf, nGroups)
    ensures |SelectorsOf(mtf, nGroups)| == |mtf| && AllBelow(SelectorsOf(mtf, nGroups), nGroups)
  {
    hide UndoSelectors;
  }

  lemma NoTables(lens: seq<seq<Byte>>, lines: seq<Line>)
    ensures lens[..0] == [] && Tables([]) == [] && lines[0..] == lines && AllLengths([], 0)
    ensures forall n: nat :: AllLengths([], n)
  {
  }

  lemma BodyIs(l: Layout, level: nat)
    requires Framed(l, level)
    ensures BodyOf(l, level)
         == Ahead(Head(level, l.crc, l.orig), UsedBytes(l.inUse), SelectorsOf(l.mtf, l.nGroups), LensOf(l.lines, |UsedBytes(l.inUse)| + 2))
  {
    hide Ahead, UsedBytes, SelectorsOf, LensOf, LinesOk;
  }

  lemma MakeFramed(l: Layout, level: nat)
    requires 1 <= level <= 9 && l.orig <= 10 + 100000 * level && MapOk(l.flags, l.inUse) && |l.inUse| == 256
    requires SelectorsOk(l.nGroups, l.mtf) && AllBelow(l.mtf, l.nGroups)
    requires |l.lines| == l.nGroups && LinesOk(l.lines, |UsedBytes(l.inUse)| + 2)
    ensures Framed(l, level)
  {
    hide UsedBytes, LinesOk;
  }

  lemma MakeLegal(l: Layout, level: nat)
    requires Framed(l, level)
    requires var b := BodyOf(l, level); Ready(b.u, b.used, |b.used|) && WordsOk(b, l.words, l.syms, 0) && Whole(b, l.syms)
    ensures Legal(l, level) && ColumnOfLayout(l, level) == EndColumn(BodyOf(l, level), l.syms)
  {
    hide Framed, WordsOk, Whole, EndColumn, BodyOf;
  }

  /** And nothing else is. */
  lemma LayoutOf(level: nat, bits: seq<Bit>) returns (l: Layout, rest: seq<Bit>)
    requires Comes(BlkHdr(level, 1), bits)
    ensures Legal(l, level) && bits == Text(l) + rest && |rest| < |bits|
    ensures Feed(BlkHdr(level, 1), bits) == Run(Output(Head(level, l.crc, l.orig), ColumnOfLayout(l, level)), rest)
  {
    hide *;
    var crc, orig, r1 := FrontOf(level, bits);
    var h := Head(level, crc, orig);
    var flags, inUse, r2 := MapOf(h, r1);
    var used := UsedBytes(inUse);
    var nGroups, mtf, r3 := CountsOf(h, used, r2);
    var selector := SelectorsOf(mtf, nGroups);
    SelectorsCount(mtf, nGroups);
    AtLeastOne(nGroups, mtf);
    NoTables([], []);
    var lines, r4 := LinesOf(h, used, nGroups, selector, [], r3);
    var frame := Layout(crc, orig, flags, inUse, nGroups, mtf, lines, [], []);
    assert [] + LensOf(lines, |used| + 2) == LensOf(lines, |used| + 2);
    MakeFramed(frame, level);
    BodyIsFresh(frame, level);
    BodyIs(frame, level);
    var b := BodyOf(frame, level);
    FirstState(b, []);
    var words, syms, r5 := SymbolsOf(b, [], r4);
    l, rest := frame.(words := words, syms := syms), r5;
    MakeFramed(l, level);
    BodyIs(l, level);
    MakeLegal(l, level);
    TextIs(l);
    var t1, t2, t3, t4 := FrontText(crc, orig), MapText(flags, inUse), SelectorText(nGroups, mtf), LinesText(lines);
    Assoc(t1, t2, r2);
    Assoc(t1 + t2, t3, r3);
    Assoc(t1 + t2 + t3, t4, r4);
    Assoc(t1 + t2 + t3 + t4, JoinedWords(words), rest);
  }

  lemma AtLeastOne(nGroups: nat, mtf: seq<nat>)
    requires SelectorsOk(nGroups, mtf)
    ensures mtf != [] && |mtf| <= MAX_SELECTORS
  {
  }

  /** Exactly the bit strings that begin with a legal layout deliver a block. */
  lemma BlockAccepted(level: nat, bits: seq<Bit>)
    requires 1 <= level <= 9
    ensures Feed(BlkHdr(level, 1), bits).d.Output?
       <==> exists l: Layout, rest: seq<Bit> :: Legal(l, level) && bits == Text(l) + rest
  {
    hide Legal, Text, Feed;
    if Feed(BlkHdr(level, 1), bits).d.Output? {
      var l, rest := LayoutOf(level, bits);
    }
    if l: Layout, rest: seq<Bit> :| Legal(l, level) && bits == Text(l) + rest {
      LayoutIsRead(l, level);
      FeedEnds(Output(Head(level, l.crc, l.orig), ColumnOfLayout(l, level)), rest);
    }
  }
}

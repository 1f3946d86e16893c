/** The decompressor (decompress.c, bzlib.c): BZ2_decompress and BZ2_bzDecompress over the state the
    source keeps between calls, as a refinement of the machine in Decoder. */
module Decompressor {
  import opened Basics
  import opened BitStrings
  import opened BitIO
  import opened Permutations
  import opened Rotations
  import opened Ranks
  import opened Canonical
  import opened Mtf
  import opened RunDigits
  import opened Unsort
  import opened RunLength
  import opened BlockCrc
  import opened OutputStage
  import opened Decoder
  import opened SymbolStage
  import opened StreamFormat
  import opened Streams

  /** Where the coroutine is suspended: before the symbols of a block, inside them, or delivering it. */
  datatype Control =
    | Early(d: Dec)
    | Symbols(head: Head, used: seq<Byte>, selector: seq<nat>, tables: seq<Table>, groupNo: nat, groupPos: nat, zn: nat, zvec: nat)
    | Delivering(head: Head)

  /** The source's return codes; Beyond says that the stream has led where this model does not follow. */
  datatype Ret = Ok | StreamEnd | SequenceError | Refused(error: Decoder.Error) | Beyond(error: Decoder.Error)

  predicate Modelled(e: Decoder.Error) { e == DataError || e == DataErrorMagic }

  /** The part of the state that parsing a block works on. */
  class BlockParser {
    const small: bool
    const builder: BlockBuilder
    const cftab: array<nat>
    const cftabCopy: array<nat>
    const fast: FastOutput
    const slow: SmallOutput
    var ctl: Control

    /** The abstract state of the machine. zn is 0 before a symbol's first field. */
    ghost function Abstract(): (d: Dec)
      reads this, builder, builder.list
    {
      match ctl
      case Early(d) => d
      case Symbols(h, used, selector, tables, groupNo, groupPos, zn, zvec) =>
        var u := if builder.es >= -1 && builder.weight >= 0 then builder.Model() else FreshList();
        var b := Body(h, used, selector, tables, u);
        if zn == 0 then MtfFirst(b, groupNo, groupPos) else MtfMore(b, groupNo, groupPos, zn, zvec)
      case Delivering(h) => Output(h, builder.col)
    }

    ghost predicate Apart()
    {
      && builder.small == small && fast.block.tt == builder.tt && slow.block.ll == builder.ll && slow.block.cftab == cftab
      && cftab.Length == 257 && cftabCopy.Length == 257 && cftab != cftabCopy
      && builder.tt != cftab && builder.unzftab as object != cftab && builder.unzftab as object != cftabCopy && builder.tt != cftabCopy
      && builder.ll.ll16 != cftab && builder.ll.ll16 != cftabCopy && builder.tt != builder.ll.ll16
    }

    ghost predicate Valid()
      reads this, builder, builder.tt, builder.ll, builder.ll.ll16, builder.ll.ll4, builder.unzftab
      reads builder.list, builder.list.mtfa, builder.list.mtfbase
    {
      && Apart() && builder.Shape() && builder.Room() == 900000 && Decoder.Valid(Abstract())
      && (ctl.Early? ==> !ctl.d.MtfFirst? && !ctl.d.MtfMore? && !ctl.d.Output?)
      && (ctl.Symbols? ==> builder.Valid() && ctl.zn <= 21)
    }

    constructor (small: bool)
      ensures Valid() && ctl == Early(Magic(1)) && Abstract() == Magic(1) && this.small == small
      ensures fresh(builder) && fresh(builder.tt) && fresh(builder.ll) && fresh(builder.ll.ll16) && fresh(builder.ll.ll4)
      ensures fresh(builder.unzftab) && fresh(builder.list) && fresh(builder.list.mtfa) && fresh(builder.list.mtfbase)
      ensures fresh(cftab) && fresh(cftabCopy) && fresh(fast) && fresh(fast.block) && fresh(slow) && fresh(slow.block)
    {
      hide *;
      var b := new BlockBuilder(small, 900000);
      var table, copy := new nat[257], new nat[257];
      var f := new FastBlock(b.tt);
      var s := new SmallBlock(b.ll, table);
      var fo := new FastOutput(f);
      var so := new SmallOutput(s);
      b.ValidShape();
      this.small, builder, cftab, cftabCopy, fast, slow := small, b, table, copy, fo, so;
      ctl := Early(Magic(1));
      new;
      Started();
    }

    lemma Started()
      requires Apart() && builder.Shape() && builder.Room() == 900000 && ctl == Early(Magic(1))
      ensures Valid() && Abstract() == Magic(1)
    {
    }

    lemma MachineOk()
      requires Valid()
      ensures Decoder.Valid(Abstract()) && (Abstract().Output? <==> ctl.Delivering?)
      ensures ctl.Delivering? ==> Abstract() == Output(ctl.head, builder.col) && HeadOk(ctl.head)
      ensures ctl.Delivering? ==> ctl.head.orig < |builder.col|
    {
    }

    /** A delivery gives the output stage's state. */
    lemma Delivered(left: Expansion, crc: bv32)
      requires Delivery(left, crc)
      ensures OutputOk() && Left() == left && CrcSoFar() == crc
    {
      hide OutputOk, Left;
    }

    // --- Symbols ---

    /** Going on to the next symbol: every 50 symbols the next selector is taken. */
    method GoOn(h: Head, used: seq<Byte>, selector: seq<nat>, tables: seq<Table>, groupNo: int, groupPos: nat)
      requires Apart() && builder.Valid() && builder.Room() == 900000
      requires BodyOk(Body(h, used, selector, tables, builder.Model()))
      requires -1 <= groupNo < |selector| && groupPos < 50 && (groupNo == -1 ==> groupPos == 0)
      modifies `ctl
      ensures Valid() && Abstract() == NextSymbol(Body(h, used, selector, tables, builder.Model()), groupNo, groupPos)
      ensures !ctl.Delivering?
    {
      hide BodyOk, BlockBuilder.Valid;
      builder.Facts();
      if groupPos > 0 {
        ctl := Symbols(h, used, selector, tables, groupNo, groupPos - 1, 0, 0);
      } else if groupNo + 1 >= |selector| {
        ctl := Early(Failed(DataError));
      } else {
        ctl := Symbols(h, used, selector, tables, groupNo + 1, 49, 0, 0);
      }
    }

    /** The end of BZ2_decompress for FAST: links the rows in tt and fetches the first byte. */
    method DeliverFast(nblock: nat, orig: nat, room: nat, ghost col: seq<Byte>)
      requires !small && Apart() && nblock == |col| <= room <= builder.tt.Length && orig < nblock
      requires forall k :: 0 <= k < nblock ==> builder.tt[k] == col[k]
      requires forall c :: 0 <= c <= 256 ==> cftab[c] == Below(col, c)
      modifies builder.tt, cftab, fast, fast.block
      ensures fast.Valid() && fast.block.col == col && fast.Left() == BlockText(col, orig) && fast.crc == INIT
    {
      hide Inverse, RankTable, Below, Expand, BlockText, FastOutput.Valid;
      fast.block.Prepare(cftab, nblock, orig, room, col);
      FastLinks(fast.block, orig);
      fast.Start();
    }

    /** And for SMALL: ranks in ll16 and ll4, the pointer reversal, and the first byte. */
    method DeliverSmall(nblock: nat, orig: nat, room: nat, ghost col: seq<Byte>)
      requires small && Apart() && nblock == |col| <= room <= builder.ll.ll16.Length && orig < nblock < 0x10_0000
      requires builder.ll.Valid() && forall k :: 0 <= k < nblock ==> builder.ll.ll16[k] == col[k]
      requires forall c :: 0 <= c <= 256 ==> cftab[c] == Below(col, c)
      modifies builder.ll.ll16, builder.ll.ll4, cftabCopy, slow, slow.block
      ensures slow.Valid() && slow.block.col == col && slow.Left() == BlockText(col, orig) && slow.crc == INIT
      ensures builder.ll.Valid()
    {
      hide Inverse, RankTable, Below, Expand, BlockText, SmallOutput.Valid;
      slow.block.Prepare(cftabCopy, nblock, orig, room, col);
      SmallLinks(slow.block, orig);
      slow.Start();
      SmallEntries(slow);
    }

    /** After the last symbol: cftab, and the output stage. */
    method Deliver(h: Head)
      requires Apart() && builder.Valid() && builder.Room() == 900000
      requires HeadOk(h) && h.orig < builder.nblock <= 100000 * h.level
      modifies `ctl, builder.tt, builder.ll.ll16, builder.ll.ll4, cftab, cftabCopy, fast, fast.block, slow, slow.block
      ensures Valid() && Abstract() == Output(h, builder.col) && ctl == Delivering(h)
      ensures Delivery(BlockText(builder.col, h.orig), INIT)
    {
      hide Below, Count, Expand, BlockText, FastOutput.Valid, SmallOutput.Valid, FastOutput.Left, SmallOutput.Left, Valid, Abstract,
           Delivery, OutputOk, BlockBuilder.Valid, BlockBuilder.Shape;
      builder.ValidShape();
      builder.BlockFacts();
      TextNotEmpty(builder.col, h.orig);
      var ok := MakeCftab(builder.unzftab, cftab, builder.nblock, builder.col);
      if small {
        DeliverSmall(builder.nblock, h.orig, 100000 * h.level, builder.col);
      } else {
        DeliverFast(builder.nblock, h.orig, 100000 * h.level, builder.col);
      }
      ctl := Delivering(h);
      DeliveringOk(h);
    }

    lemma DeliveringOk(h: Head)
      requires Apart() && builder.ShapeSizes() && builder.ll.Valid() && builder.Room() == 900000 && ctl == Delivering(h) && HeadOk(h)
      requires h.orig < |builder.col| == builder.nblock <= 100000 * h.level && BlockText(builder.col, h.orig).bytes != []
      requires small ==> slow.Valid() && slow.block.col == builder.col && slow.Left() == BlockText(builder.col, h.orig) && slow.crc == INIT
      requires !small ==> fast.Valid() && fast.block.col == builder.col && fast.Left() == BlockText(builder.col, h.orig) && fast.crc == INIT
      ensures Valid() && Abstract() == Output(h, builder.col) && Delivery(BlockText(builder.col, h.orig), INIT)
    {
      hide BlockText, FastOutput.Valid, SmallOutput.Valid, FastOutput.Left, SmallOutput.Left, Entries.Valid;
    }

    ghost predicate OutputOk()
      reads this, builder, fast, fast.block, fast.block.tt
      reads slow, slow.block, slow.block.ll, slow.block.ll.ll16, slow.block.ll.ll4, slow.block.cftab
    {
      if small then slow.Valid() && |slow.block.col| == builder.nblock
      else fast.Valid() && |fast.block.col| == builder.nblock && (fast.Left().broken ==> fast.Left().bytes != [])
    }

    /** What the output stage in use has still to deliver. */
    ghost function Left(): (r: Expansion)
      requires OutputOk()
      reads this, builder, fast, fast.block, fast.block.tt
      reads slow, slow.block, slow.block.ll, slow.block.ll.ll16, slow.block.ll.ll4, slow.block.cftab
    {
      if small then slow.Left() else fast.Left()
    }

    /** calculatedBlockCRC. */
    function CrcSoFar(): (c: bv32)
      reads this, fast, slow
    {
      if small then slow.crc else fast.crc
    }

    /** The output stage has this much left, with this checksum so far. */
    ghost predicate Delivery(left: Expansion, crc: bv32)
      reads this, builder, fast, fast.block, fast.block.tt
      reads slow, slow.block, slow.block.ll, slow.block.ll.ll16, slow.block.ll.ll4, slow.block.cftab
    {
      OutputOk() && Left() == left && CrcSoFar() == crc
    }

    /** unRLE_obuf_to_output_FAST or _SMALL. A corrupt FAST block delivers nothing; otherwise the output
        is the next part of what was left, and the block is finished when nothing is left. */
    method Drain(availOut: nat) returns (corrupt: bool, finished: bool, out: seq<Byte>)
      requires Valid() && ctl.Delivering? && OutputOk()
      modifies fast, fast.block, slow, slow.block
      ensures Valid() && OutputOk()
      ensures Progress(small, old(Left()), availOut, corrupt, finished, out, Left())
      ensures CrcSoFar() == Fold(old(CrcSoFar()), out)
    {
      hide Valid, FastOutput.Valid, SmallOutput.Valid, FastOutput.Left, SmallOutput.Left, Fold, FastDrained, SmallDrained, Progress;
      ghost var all := Left();
      if small {
        corrupt, out := slow.Drain(availOut, builder.nblock);
        finished := slow.used == builder.nblock + 1 && slow.len == 0;
        SmallProgress(all, availOut, corrupt, finished, out, slow.Left());
      } else {
        corrupt, out := fast.Drain(availOut, builder.nblock);
        finished := fast.used == builder.nblock + 1 && fast.len == 0;
        FastProgress(all, availOut, corrupt, finished, out, fast.Left());
      }
    }

    lemma Parts()
      requires Valid()
      ensures Apart() && builder.Shape() && builder.Room() == 900000
    {
      hide BlockBuilder.Shape, BlockBuilder.Valid;
    }

    /** A refused block. */
    lemma FailedOk(e: Decoder.Error)
      requires Apart() && builder.Shape() && builder.Room() == 900000 && ctl == Early(Failed(e))
      ensures Valid() && Abstract() == Failed(e) && !ctl.Delivering?
    {
      hide BlockBuilder.Shape, BlockBuilder.Valid;
    }

    /** The end of a block, or a position, once the run before it has been written out. */
    method TakeAtRest(h: Head, used: seq<Byte>, selector: seq<nat>, tables: seq<Table>, groupNo: nat, groupPos: nat, sym: nat, ghost b: Body)
      requires Apart() && builder.Valid() && builder.Room() == 900000
      requires BodyOk(b) && b.head == h && b.used == used && b.selector == selector && b.tables == tables && SymbolFits(b.u, b.used, sym)
      requires groupNo < |selector| && groupPos < 50 && 2 <= sym <= |used| + 1
      requires builder.Model() == AtRest(b.u, used) && builder.es == -1 && builder.nblock <= 100000 * h.level
      modifies `ctl, builder, builder.tt, builder.ll.ll16, builder.ll.ll4, builder.unzftab, builder.list, builder.list.mtfa, builder.list.mtfbase
      modifies cftab, cftabCopy, fast, fast.block, slow, slow.block
      ensures Valid() && Abstract() == Symbol(b, groupNo, groupPos, sym)
      ensures ctl.Delivering? ==> ctl.head == h && Delivery(BlockText(builder.col, h.orig), INIT)
    {
      hide BodyOk, BlockBuilder.Valid, BlockText, NextSymbol, Take, Flushed, Delivery, Symbol, Ready, SymbolFits, DigitFits, FlushFits,
           Valid, Abstract, BlockBuilder.Shape, Apart;
      DigitCase(b, groupNo, groupPos, sym);
      OtherCase(b, groupNo, groupPos, sym);
      builder.Facts();
      if sym == |used| + 1 {
        if h.orig >= builder.nblock {
          ctl := Early(Failed(DataError));
          FailedOk(DataError);
        } else {
          Deliver(h);
        }
        return;
      }
      var ok := builder.Position(sym, used, 100000 * h.level);
      if !ok { ctl := Early(Failed(DataError)); FailedOk(DataError); return; }
      GoOn(h, used, selector, tables, groupNo, groupPos);
    }

    /** One decoded symbol: a run digit, the end of the block, or a position. */
    method TakeSymbol(h: Head, used: seq<Byte>, selector: seq<nat>, tables: seq<Table>, groupNo: nat, groupPos: nat, sym: nat)
      requires Valid() && builder.Valid() && BodyOk(Body(h, used, selector, tables, builder.Model()))
      requires groupNo < |selector| && groupPos < 50 && sym <= |used| + 1
      modifies `ctl, builder, builder.tt, builder.ll.ll16, builder.ll.ll4, builder.unzftab, builder.list, builder.list.mtfa, builder.list.mtfbase
      modifies cftab, cftabCopy, fast, fast.block, slow, slow.block
      ensures Valid() && Abstract() == old(Symbol(Body(h, used, selector, tables, builder.Model()), groupNo, groupPos, sym))
      ensures ctl.Delivering? ==> ctl.head == h && Delivery(BlockText(builder.col, h.orig), INIT)
    {
      hide BodyOk, BlockBuilder.Valid, BlockText, NextSymbol, Take, Flushed, Delivery, Symbol, Ready, SymbolFits, DigitFits, FlushFits,
           Valid, Abstract, BlockBuilder.Shape, Apart;
      Parts();
      ghost var b := Body(h, used, selector, tables, builder.Model());
      DigitCase(b, groupNo, groupPos, sym);
      builder.Facts();
      // The source has no such test: here it would leave 32-bit arithmetic.
      var beyond := builder.Overflows(sym, used);
      if beyond { ctl := Early(Failed(RunOverflow)); FailedOk(RunOverflow); return; }
      if sym == 0 || sym == 1 {
        builder.Digit(sym, used);
        GoOn(h, used, selector, tables, groupNo, groupPos);
        return;
      }
      OtherCase(b, groupNo, groupPos, sym);
      if builder.es >= 0 {
        var ok := builder.FlushRun(used, 100000 * h.level);
        if !ok { ctl := Early(Failed(DataError)); FailedOk(DataError); return; }
        builder.Facts();
      }
      assert builder.Model() == AtRest(b.u, used);
      TakeAtRest(h, used, selector, tables, groupNo, groupPos, sym, b);
    }

    /** GET_MTF_VAL: with a code prefix in hand, either its symbol or another bit. */
    method CheckPrefix(h: Head, used: seq<Byte>, selector: seq<nat>, tables: seq<Table>, groupNo: nat, groupPos: nat, zn: nat, zvec: nat)
      requires Valid() && builder.Valid() && BodyOk(Body(h, used, selector, tables, builder.Model()))
      requires groupNo < |selector| && groupPos < 50 && 1 <= zn <= 21
      modifies `ctl, builder, builder.tt, builder.ll.ll16, builder.ll.ll4, builder.unzftab, builder.list, builder.list.mtfa, builder.list.mtfbase
      modifies cftab, cftabCopy, fast, fast.block, slow, slow.block
      ensures Valid() && Abstract() == old(CheckCode(Body(h, used, selector, tables, builder.Model()), groupNo, groupPos, zn, zvec))
      ensures ctl.Delivering? ==> ctl.head == h && Delivery(BlockText(builder.col, h.orig), INIT)
    {
      hide BlockBuilder.Valid, BlockText, Delivery, Symbol, BlockBuilder.Shape;
      ghost var b := Body(h, used, selector, tables, builder.Model());
      builder.Facts();
      if zn > 20 { ctl := Early(Failed(DataError)); return; }
      var t := tables[selector[groupNo]];
      assert t == TableFor(b, groupNo);
      if zvec <= t.limit[zn] {
        var k := zvec - t.base[zn];
        if k < 0 || k >= 258 { ctl := Early(Failed(DataError)); return; }
        TakeSymbol(h, used, selector, tables, groupNo, groupPos, t.perm[k]);
      } else {
        ctl := Symbols(h, used, selector, tables, groupNo, groupPos, zn + 1, zvec);
      }
    }

    // --- Coding tables ---

    /** The loop that finds minLen and maxLen. */
    method Extremes(lens: seq<Byte>) returns (minLen: nat, maxLen: nat)
      ensures minLen == MinOf(lens) && maxLen == MaxOf(lens)
    {
      minLen, maxLen := 32, 0;
      assert lens[..0] == [];
      for i := 0 to |lens|
        invariant minLen == MinOf(lens[..i]) && maxLen == MaxOf(lens[..i])
      {
        assert lens[..i + 1][..i] == lens[..i];
        if lens[i] > maxLen { maxLen := lens[i]; }
        if lens[i] < minLen { minLen := lens[i]; }
      }
      assert lens[..|lens|] == lens;
    }

    /** All lengths of a table are in: the decoding table, then the next table or the symbols. */
    method FinishTable(h: Head, used: seq<Byte>, nGroups: nat, selector: seq<nat>, tables: seq<Table>, lens: seq<Byte>)
      requires Valid() && CodingOk(h, used, nGroups, selector, tables) && |lens| == |used| + 2
      requires LensOk(lens, 1)
      modifies `ctl, builder, builder.unzftab, builder.list, builder.list.mtfa, builder.list.mtfbase
      ensures Valid() && !ctl.Delivering?
      ensures Abstract() == LengthDone(h, used, nGroups, selector, tables, lens, 1)
    {
      hide BlockBuilder.Valid, TableOf, Decodes, NextSymbol, MinOf, MaxOf;
      MakeTableOk(lens, |used| + 2);
      var minLen, maxLen := Extremes(lens);
      MinMaxBound(lens);
      var t := CreateDecodeTables(lens, minLen, maxLen);
      var more := tables + [t];
      if |more| < nGroups {
        ctl := Early(Coding1(h, used, nGroups, selector, more));
      } else {
        builder.Reset();
        assert builder.list.list == FreshList().list;
        GoOn(h, used, selector, more, -1, 0);
      }
    }

    /** The coding-table states. */
    method CodingAdvance(d: Dec, v: nat)
      requires Valid() && ctl == Early(d) && (d.Coding1? || d.Coding2? || d.Coding3?)
      modifies `ctl, builder, builder.unzftab, builder.list, builder.list.mtfa, builder.list.mtfbase
      ensures Valid() && !ctl.Delivering? && Abstract() == CodingStep(d, v)
    {
      hide BlockBuilder.Valid, BlockBuilder.Shape, NextSymbol, CodingOk, MakeTable;
      match d
      case Coding1(h, used, nGroups, selector, tables) =>
        ctl := Early(DeltaLoop(h, used, nGroups, selector, tables, [], v));
      case Coding2(h, used, nGroups, selector, tables, lens, curr) =>
        if v != 0 {
          ctl := Early(Coding3(h, used, nGroups, selector, tables, lens, curr));
        } else if |lens| + 1 < |used| + 2 {
          ctl := Early(DeltaLoop(h, used, nGroups, selector, tables, lens + [curr], curr));
        } else {
          FinishTable(h, used, nGroups, selector, tables, lens + [curr]);
        }
      case Coding3(h, used, nGroups, selector, tables, lens, curr) =>
        ctl := Early(DeltaLoop(h, used, nGroups, selector, tables, lens, if v == 0 then curr + 1 else curr - 1));
    }

    /** How many bits the pending GET_BITS asks for; 0 when none is pending. */
    method Asks() returns (n: nat)
      requires Valid()
      ensures n == if Waiting(Abstract()) then Need(Abstract()) else 0
    {
      match ctl
      case Early(d) => n := if Waiting(d) then Need(d) else 0;
      case Symbols(h, used, selector, tables, groupNo, groupPos, zn, zvec) =>
        builder.Facts();
        n := if zn == 0 then tables[selector[groupNo]].minLen else 1;
      case Delivering(h) => n := 0;
    }

    /** One completed GET_BITS: a step of the machine. */
    method Advance(v: nat)
      requires Valid() && Waiting(Abstract()) && v < Pow2(Need(Abstract()))
      modifies `ctl, builder, builder.tt, builder.ll.ll16, builder.ll.ll4, builder.unzftab, builder.list, builder.list.mtfa, builder.list.mtfbase
      modifies cftab, cftabCopy, fast, fast.block, slow, slow.block
      ensures Valid() && Abstract() == old(Step(Abstract(), v))
      ensures ctl.Delivering? ==> Delivery(BlockText(builder.col, ctl.head.orig), INIT)
    {
      hide BlockText, Delivery, CheckCode, CodingStep, MapStep, MarkStep, CodingOk, BodyOk, BlockBuilder.Shape, Pow2;
      match ctl
      case Early(d) =>
        if InMarks(d) {
          MarkStays(d, v);
          ctl := Early(MarkStep(d, v));
        } else if InMaps(d) {
          MapStays(d, v);
          ctl := Early(MapStep(d, v));
        } else {
          CodingAdvance(d, v);
        }
      case Symbols(h, used, selector, tables, groupNo, groupPos, zn, zvec) =>
        builder.Facts();
        ghost var b := Body(h, used, selector, tables, builder.Model());
        if zn == 0 {
          MinLenInRange(b, groupNo, groupPos);
          CheckPrefix(h, used, selector, tables, groupNo, groupPos, tables[selector[groupNo]].minLen, v);
        } else {
          CheckPrefix(h, used, selector, tables, groupNo, groupPos, zn, 2 * zvec + v);
        }
    }
  }

  lemma TextNotEmpty(col: seq<Byte>, orig: nat)
    requires orig < |col|
    ensures BlockText(col, orig).bytes != []
  {
    hide Links, Walked;
  }

  /** What a call of either output stage did. FAST delivers nothing of what it had found when it comes
      upon the end of a broken block; SMALL has delivered all of it. */
  ghost predicate Progress(small: bool, all: Expansion, availOut: nat, corrupt: bool, finished: bool, out: seq<Byte>, left: Expansion) {
    && all.bytes == out + left.bytes && all.broken == left.broken && |out| <= availOut
    && (corrupt ==> all.broken && if small then left.bytes == [] else out == [] && left.bytes != [])
    && (!corrupt && finished ==> left == Expansion([], false))
    && (!corrupt && !finished ==> |out| == availOut && (left.bytes != [] || left.broken))
  }

  lemma FastProgress(all: Expansion, availOut: nat, corrupt: bool, finished: bool, out: seq<Byte>, left: Expansion)
    requires FastDrained(all, availOut, corrupt, out, left, finished) && (all.broken ==> all.bytes != [])
    ensures Progress(false, all, availOut, corrupt, finished, out, left) && (left.broken ==> left.bytes != [])
  {
  }

  lemma SmallProgress(all: Expansion, availOut: nat, corrupt: bool, finished: bool, out: seq<Byte>, left: Expansion)
    requires SmallDrained(all, availOut, corrupt, out, left, finished)
    ensures Progress(true, all, availOut, corrupt, finished, out, left)
  {
  }

  lemma MarkStays(d: Dec, v: nat)
    requires Decoder.Valid(d) && InMarks(d) && v < Pow2(Need(d))
    ensures var r := MarkStep(d, v); Decoder.Valid(r) && !r.MtfFirst? && !r.MtfMore? && !r.Output?
  {
    hide Pow2;
  }

  lemma MapStays(d: Dec, v: nat)
    requires Decoder.Valid(d) && InMaps(d)
    ensures var r := MapStep(d, v); Decoder.Valid(r) && !r.MtfFirst? && !r.MtfMore? && !r.Output?
  {
    hide SelectorsOf;
    if d.Mapping1? { NextStays(d.head, d.used16 + [v == 1], []); }
    if d.Mapping2? { NextStays(d.head, d.used16, d.inUse + [v == 1]); }
  }

  lemma {:induction false} NextStays(h: Head, used16: seq<bool>, inUse: seq<bool>)
    ensures HeadOk(h) && |used16| == 16 && |inUse| <= 256 ==>
      var r := NextMapping(h, used16, inUse); !r.MtfFirst? && !r.MtfMore? && !r.Output?
    decreases 256 - |inUse|
  {
    if HeadOk(h) && |used16| == 16 && |inUse| < 256 && |inUse| % 16 == 0 && !used16[|inUse| / 16] {
      NextStays(h, used16, inUse + seq(16, _ => false));
    }
  }

  lemma MinLenInRange(b: Body, groupNo: nat, groupPos: nat)
    requires Decoder.Valid(MtfFirst(b, groupNo, groupPos))
    ensures BodyOk(b) && groupNo < |b.selector| && b.selector[groupNo] < |b.tables| && groupPos < 50
    ensures 1 <= TableFor(b, groupNo).minLen <= 20 && TableFor(b, groupNo) == b.tables[b.selector[groupNo]]
  {
  }

  lemma MinMaxBound(lens: seq<Byte>)
    ensures forall k :: 0 <= k < |lens| ==> MinOf(lens) <= lens[k] <= MaxOf(lens)
  {
  }

  /** The model's state once the run in hand has been written out. */
  function AtRest(u: Unmtf, used: seq<Byte>): (r: Unmtf)
    requires u.list != [] && u.list[0] < |used|
  {
    Unmtf(u.list, Flushed(u, used), 0, 1)
  }

  lemma DigitCase(b: Body, groupNo: nat, groupPos: nat, sym: nat)
    requires BodyOk(b) && groupNo < |b.selector| && groupPos < 50 && sym <= |b.used| + 1
    ensures HeadOk(b.head) && Ready(b.u, b.used, |b.used|) && |b.u.col| <= 100000 * b.head.level
    ensures !SymbolFits(b.u, b.used, sym) ==> Symbol(b, groupNo, groupPos, sym) == Failed(RunOverflow)
    ensures SymbolFits(b.u, b.used, sym) ==> if sym <= 1 then DigitFits(b.u, sym) else FlushFits(b.u, b.used)
    ensures sym <= 1 && SymbolFits(b.u, b.used, sym) ==> BodyOk(b.(u := Take(b.u, b.used, sym)))
    ensures sym <= 1 && SymbolFits(b.u, b.used, sym) ==>
              Symbol(b, groupNo, groupPos, sym) == NextSymbol(b.(u := Take(b.u, b.used, sym)), groupNo, groupPos)
  {
    if sym <= 1 && SymbolFits(b.u, b.used, sym) { DigitInRange(b.u, b.used, sym); }
  }

  /** The other symbols first write out the run. */
  lemma OtherCase(b: Body, groupNo: nat, groupPos: nat, sym: nat)
    requires BodyOk(b) && groupNo < |b.selector| && groupPos < 50 && 2 <= sym <= |b.used| + 1 && SymbolFits(b.u, b.used, sym)
    ensures var max, r := 100000 * b.head.level, AtRest(b.u, b.used);
      && |r.col| == |b.u.col| + b.u.run && (b.u.run == 0 ==> r.col == b.u.col)
      && Ready(r, b.used, |b.used|)
      && (|r.col| > max ==> Symbol(b, groupNo, groupPos, sym) == Failed(DataError))
      && (|r.col| <= max && sym == |b.used| + 1 ==>
            Symbol(b, groupNo, groupPos, sym) == if b.head.orig >= |r.col| then Failed(DataError) else Output(b.head, r.col))
      && (|r.col| == max && sym <= |b.used| ==> Symbol(b, groupNo, groupPos, sym) == Failed(DataError))
      && (|r.col| < max && sym <= |b.used| ==>
            Take(r, b.used, sym) == Take(b.u, b.used, sym) && BodyOk(b.(u := Take(b.u, b.used, sym)))
            && Symbol(b, groupNo, groupPos, sym) == NextSymbol(b.(u := Take(b.u, b.used, sym)), groupNo, groupPos))
  {
    hide NextSymbol;
    var r := AtRest(b.u, b.used);
    assert r.col + Repeat(b.used[b.u.list[0]], 0) == r.col;
    if b.u.run == 0 { assert r.col == b.u.col; }
  }

  lemma FastLinks(f: FastBlock, orig: nat)
    requires f.Valid() && f.pos == orig < |f.col|
    ensures Injective(f.t, |f.col|)
    ensures BlockText(f.col, orig) == Expand(Walked(f.col, f.t, orig), |f.col|, 0)
  {
    hide Expand;
    TextOf(f.col, f.t, orig);
  }

  lemma SmallLinks(s: SmallBlock, orig: nat)
    requires s.Valid() && s.tPos == orig < |s.col|
    ensures Injective(s.t, |s.col|)
    ensures BlockText(s.col, orig) == Expand(Walked(s.col, s.t, orig), |s.col|, 0)
  {
    hide Expand;
    TextOf(s.col, s.t, orig);
  }

  lemma SmallEntries(s: SmallOutput)
    requires s.Valid()
    ensures s.block.ll.Valid()
  {
  }
}

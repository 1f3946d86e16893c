/** BZ2_bzDecompress (bzlib.c): parsing and delivering in turn, over input and output buffers of any
    sizes, and what a caller may conclude from each return code. */
module DecompressStream {
  import opened Basics
  import opened BitStrings
  import opened BitIO
  import opened RunLength
  import opened BlockCrc
  import opened Decoder
  import opened BlockFormat
  import opened StreamFormat
  import opened Decompressor
  import opened Streams
  import opened SymbolStage

  /** DecodeBits, made total. */
  ghost function DecodeFrom(d: Dec, bits: seq<Bit>, combined: bv32): (r: Decoding) {
    if Decoder.Valid(d) then DecodeBits(d, bits, combined) else Decoding([], End)
  }

  /** The rest of a stream when part of a block has been delivered. */
  ghost function Partial(left: Expansion, crc: bv32, h: Head, combined: bv32, bits: seq<Bit>): (r: Decoding)
    requires HeadOk(h)
    ensures r.verdict.More? ==> Decoder.Valid(r.verdict.d)
  {
    var sum := Finalise(Fold(crc, left.bytes));
    if left.broken || WordOf(sum) != h.crc then Decoding(left.bytes, StreamFormat.Error(DataError))
    else Behind(left.bytes, DecodeBits(BlkHdr(h.level, 1), bits, Combine(combined, sum)))
  }

  lemma StillToCome(left: Expansion, crc: bv32, h: Head, combined: bv32, bits: seq<Bit>)
    requires HeadOk(h) && (left.bytes != [] || left.broken)
    ensures Partial(left, crc, h, combined, bits).out != [] || Partial(left, crc, h, combined, bits).verdict.Error?
  {
    hide Fold, Finalise, WordOf, Combine, DecodeBits;
  }

  lemma PartialStart(d: Dec, combined: bv32, bits: seq<Bit>)
    requires d.Output? && Decoder.Valid(d)
    ensures DecodeBits(d, bits, combined) == Partial(BlockText(d.col, d.head.orig), INIT, d.head, combined, bits)
  {
    hide BlockText, Fold, Finalise, WordOf, Combine;
    FeedStays(d, bits);
    CrcFromStart(BlockText(d.col, d.head.orig).bytes);
    hide Feed, Crc;
  }

  lemma CrcFromStart(data: seq<Byte>)
    ensures Crc(data) == Finalise(Fold(INIT, data))
  {
  }

  lemma PartialDrain(all: Expansion, crc: bv32, out: seq<Byte>, left: Expansion, h: Head, combined: bv32, bits: seq<Bit>)
    requires HeadOk(h) && all.bytes == out + left.bytes && all.broken == left.broken
    ensures Partial(all, crc, h, combined, bits) == Behind(out, Partial(left, Fold(crc, out), h, combined, bits))
  {
    hide Fold, Finalise, WordOf, Combine, DecodeBits;
    FoldConcat(crc, out, left.bytes);
    var more := DecodeBits(BlkHdr(h.level, 1), bits, Combine(combined, Finalise(Fold(crc, all.bytes)))).out;
    assert out + left.bytes + more == out + (left.bytes + more);
  }

  lemma PartialEnd(crc: bv32, h: Head, combined: bv32, bits: seq<Bit>)
    requires HeadOk(h)
    ensures Partial(Expansion([], false), crc, h, combined, bits)
         == if WordOf(Finalise(crc)) != h.crc then Decoding([], StreamFormat.Error(DataError))
            else DecodeBits(BlkHdr(h.level, 1), bits, Combine(combined, Finalise(crc)))
  {
    hide Finalise, WordOf, Combine, DecodeBits;
    assert Fold(crc, []) == crc;
    var r := DecodeBits(BlkHdr(h.level, 1), bits, Combine(combined, Finalise(crc)));
    assert [] + r.out == r.out;
  }

  lemma BehindBehind(a: seq<Byte>, b: seq<Byte>, r: Decoding)
    ensures Behind(a, Behind(b, r)) == Behind(a + b, r)
  {
    assert a + (b + r.out) == a + b + r.out;
  }

  /** More input takes the total from what was known to what is now known. */
  lemma MoreInput(consumed: seq<Byte>, more: seq<Byte>, made: seq<Byte>, d: Dec, held: seq<Bit>, combined: bv32)
    requires Decoder.Valid(d)
    requires DecodeBits(Magic(1), ByteBits(consumed), 0) == Behind(made, DecodeBits(d, held, combined))
    ensures DecodeBits(Magic(1), ByteBits(consumed + more), 0) == Behind(made, DecodeBits(d, held + ByteBits(more), combined))
  {
    hide DecodeBits;
    ByteBitsConcat(consumed, more);
    DecodeConcat(Magic(1), ByteBits(consumed), ByteBits(more), 0);
    DecodeConcat(d, held, ByteBits(more), combined);
    VerdictOk(d, held, combined);
    ContinueAfter(made, DecodeBits(d, held, combined), ByteBits(more));
  }

  lemma VerdictOk(d: Dec, bits: seq<Bit>, combined: bv32)
    requires Decoder.Valid(d)
    ensures var r := DecodeBits(d, bits, combined); r.verdict.More? ==> Decoder.Valid(r.verdict.d)
  {
  }

  /** One field read. */
  lemma ReadOne(d: Dec, bits: seq<Bit>, n: nat, v: nat, rest: seq<Bit>, combined: bv32)
    requires Decoder.Valid(d) && Waiting(d) && Need(d) == n && v < Pow2(n) && bits == Bits(n, v) + rest
    ensures DecodeBits(d, bits, combined) == DecodeBits(Step(d, v), rest, combined)
  {
    hide Feed, Step, Bits;
    FeedField(d, n, v, rest);
    SameFeed(d, bits, Step(d, v), rest, combined);
  }

  lemma CancelSuffix<T>(a: seq<T>, b: seq<T>, z: seq<T>)
    requires a + z == b + z
    ensures a == b
  {
    assert |a| == |b|;
    forall k | 0 <= k < |a| ensures a[k] == b[k] {
      assert (a + z)[k] == (b + z)[k];
    }
  }

  /** What GET_BITS took from the input, as bits. */
  lemma TakenBits(held0: seq<Bit>, input0: seq<Byte>, field: seq<Bit>, held: seq<Bit>, input: seq<Byte>)
    requires |input| <= |input0| && input == input0[|input0| - |input|..]
    requires held0 + ByteBits(input0) == field + (held + ByteBits(input))
    ensures held0 + ByteBits(input0[..|input0| - |input|]) == field + held
  {
    hide ByteBits;
    var used := input0[..|input0| - |input|];
    assert input0 == used + input;
    ByteBitsConcat(used, input);
    CancelLast(held0, ByteBits(used), field, held, ByteBits(input));
  }

  lemma CancelLast<T>(a: seq<T>, b: seq<T>, c: seq<T>, d: seq<T>, z: seq<T>)
    requires a + (b + z) == c + (d + z)
    ensures a + b == c + d
  {
    Assoc(a, b, z);
    Assoc(c, d, z);
    CancelSuffix(a + b, c + d, z);
  }

  /** What a byte string decodes to. */
  ghost function Decoded(bytes: seq<Byte>): (r: Decoding)
    ensures r.verdict.More? ==> Decoder.Valid(r.verdict.d)
  {
    DecodeBits(Magic(1), ByteBits(bytes), 0)
  }

  /** A field has been read, with the input it needed. */
  lemma FieldTaken(consumed: seq<Byte>, in0: seq<Byte>, k: nat, made: seq<Byte>, d: Dec, held0: seq<Bit>, combined: bv32,
                   n: nat, v: nat, held: seq<Bit>)
    requires k <= |in0| && Decoder.Valid(d) && Waiting(d) && Need(d) == n && v < Pow2(n)
    requires Decoded(consumed) == Behind(made, DecodeBits(d, held0, combined))
    requires held0 + ByteBits(in0) == Bits(n, v) + (held + ByteBits(in0[k..]))
    ensures Decoder.Valid(Step(d, v)) && Decoded(consumed + in0[..k]) == Behind(made, DecodeBits(Step(d, v), held, combined))
    ensures n >= 1 && |held + ByteBits(in0[k..])| < |held0 + ByteBits(in0)|
  {
    hide *;
    StepOk(d, v);
    NeedBound(d);
    Unfold(consumed);
    Unfold(consumed + in0[..k]);
    MoreInput(consumed, in0[..k], made, d, held0, combined);
    assert in0[k..] == in0[|in0| - |in0[k..]|..] && in0[..k] == in0[..|in0| - |in0[k..]|];
    TakenBits(held0, in0, Bits(n, v), held, in0[k..]);
    BitsSize(n, v);
    ReadOne(d, held0 + ByteBits(in0[..k]), n, v, held, combined);
  }

  /** All input has been taken in, and no field read. */
  lemma NoFieldTaken(consumed: seq<Byte>, in0: seq<Byte>, made: seq<Byte>, d: Dec, held0: seq<Bit>, combined: bv32, held: seq<Bit>)
    requires Decoder.Valid(d) && Decoded(consumed) == Behind(made, DecodeBits(d, held0, combined))
    requires held0 + ByteBits(in0) == held + ByteBits([])
    ensures Decoded(consumed + in0) == Behind(made, DecodeBits(d, held, combined)) && held + ByteBits([]) == held
  {
    hide *;
    Unfold(consumed);
    Unfold(consumed + in0);
    MoreInput(consumed, in0, made, d, held0, combined);
    NoBytes(held);
  }

  lemma FromIs(d: Dec, bits: seq<Bit>, combined: bv32)
    ensures Decoder.Valid(d) ==> DecodeFrom(d, bits, combined) == DecodeBits(d, bits, combined)
  {
  }

  lemma AllTaken(in0: seq<Byte>, k: nat, consumed: seq<Byte>)
    requires k <= |in0|
    ensures Took(in0, consumed, in0[k..], consumed + in0[..k])
    ensures in0[k..] == [] ==> in0[..k] == in0
  {
  }

  lemma NothingDecoded()
    ensures Decoded([]) == Behind([], DecodeFrom(Magic(1), [], 0))
  {
    var r := DecodeBits(Magic(1), [], 0);
    hide DecodeBits;
    assert [] + r.out == r.out;
  }

  lemma Unfold(bytes: seq<Byte>)
    ensures Decoded(bytes) == DecodeBits(Magic(1), ByteBits(bytes), 0)
  {
  }

  lemma StepOk(d: Dec, v: nat)
    requires Decoder.Valid(d) && Waiting(d) && v < Pow2(Need(d))
    ensures Decoder.Valid(Step(d, v))
  {
  }

  lemma NoBytes(held: seq<Bit>)
    ensures held + ByteBits([]) == held
  {
  }

  class DState {
    const strm: BzStream
    const parser: BlockParser
    const reader: BitReader
    var combined: bv32             // calculatedCombinedCRC
    ghost var consumed: seq<Byte>  // all input consumed
    ghost var made: seq<Byte>      // all output delivered
    ghost var refused: bool        // an error has been returned

    ghost predicate Valid()
      reads parser, parser.builder, parser.builder.tt, parser.builder.ll, parser.builder.ll.ll16, parser.builder.ll.ll4
      reads parser.builder.unzftab, parser.builder.list, parser.builder.list.mtfa, parser.builder.list.mtfbase
      reads parser.fast, parser.fast.block, parser.fast.block.tt, parser.slow, parser.slow.block, parser.slow.block.ll
      reads parser.slow.block.ll.ll16, parser.slow.block.ll.ll4, parser.slow.block.cftab
      reads reader`bsBuff, reader`bsLive, reader`pending, reader`junk
    {
      parser.Valid() && reader.Valid() && (parser.ctl.Delivering? ==> parser.OutputOk())
    }

    /** What the stream decodes to from here on, given the bits held in the buffer. */
    ghost function Rest(): (r: Decoding)
      reads `combined, parser, parser.builder, parser.builder.tt, parser.builder.ll, parser.builder.ll.ll16, parser.builder.ll.ll4
      reads parser.builder.unzftab, parser.builder.list, parser.builder.list.mtfa, parser.builder.list.mtfbase
      reads parser.fast, parser.fast.block, parser.fast.block.tt, parser.slow, parser.slow.block, parser.slow.block.ll
      reads parser.slow.block.ll.ll16, parser.slow.block.ll.ll4, parser.slow.block.cftab
      reads reader`bsBuff, reader`bsLive, reader`pending, reader`junk
    {
      if !parser.ctl.Delivering? then DecodeFrom(parser.Abstract(), reader.Held(), combined)
      else if parser.OutputOk() && HeadOk(parser.ctl.head) then
        Partial(parser.Left(), parser.CrcSoFar(), parser.ctl.head, combined, reader.Held())
      else Decoding([], End)
    }

    /** The invariant over whole runs: the input consumed so far decodes to the output delivered so far,
        followed by what is still to come. */
    ghost predicate Sound()
      reads `combined, `consumed, `made, parser, parser.builder, parser.builder.tt, parser.builder.ll, parser.builder.ll.ll16, parser.builder.ll.ll4
      reads parser.builder.unzftab, parser.builder.list, parser.builder.list.mtfa, parser.builder.list.mtfbase
      reads parser.fast, parser.fast.block, parser.fast.block.tt, parser.slow, parser.slow.block, parser.slow.block.ll
      reads parser.slow.block.ll.ll16, parser.slow.block.ll.ll4, parser.slow.block.cftab
      reads reader`bsBuff, reader`bsLive, reader`pending, reader`junk
    {
      Valid() && Decoded(consumed) == Behind(made, Rest())
    }

    /** BZ2_bzDecompressInit. */
    constructor (strm: BzStream, small: bool)
      ensures Sound() && this.strm == strm && consumed == [] && made == [] && !refused && parser.small == small
      ensures parser.ctl == Early(Magic(1)) && fresh(parser) && fresh(reader)
      ensures fresh(parser.builder) && fresh(parser.builder.tt) && fresh(parser.builder.ll.ll16) && fresh(parser.builder.ll.ll4)
      ensures fresh(parser.builder.unzftab) && fresh(parser.builder.list) && fresh(parser.builder.list.mtfa) && fresh(parser.builder.list.mtfbase)
      ensures fresh(parser.cftab) && fresh(parser.cftabCopy) && fresh(parser.fast) && fresh(parser.fast.block)
      ensures fresh(parser.slow) && fresh(parser.slow.block)
    {
      this.strm := strm;
      parser := new BlockParser(small);
      reader := new BitReader();
      combined, consumed, made, refused := 0, [], [], false;
      new;
      hide *;
      NothingDecoded();
      WhileParsing();
    }

    /** The invariant while parsing, and while delivering. */
    lemma WhileParsing()
      requires !parser.ctl.Delivering?
      ensures Sound() <==> parser.Valid() && reader.Valid() && Decoded(consumed) == Behind(made, DecodeFrom(parser.Abstract(), reader.Held(), combined))
    {
      hide BlockParser.Valid, BitReader.Valid, DecodeBits, DecodeFrom, BlockParser.Abstract;
    }

    lemma WhileDelivering()
      requires parser.ctl.Delivering?
      ensures Sound() <==> parser.Valid() && reader.Valid() && parser.OutputOk() && HeadOk(parser.ctl.head)
                           && Decoded(consumed) == Behind(made, Partial(parser.Left(), parser.CrcSoFar(), parser.ctl.head, combined, reader.Held()))
    {
      if parser.Valid() { parser.MachineOk(); }
      hide BlockParser.Valid, BitReader.Valid, DecodeBits, BlockParser.OutputOk, Partial, BlockParser.Left, BlockParser.CrcSoFar;
    }

    /** One GET_BITS: a step of the machine, or all input taken in and the call suspended. */
    method ReadStep(n: nat) returns (got: bool)
      requires Sound() && !parser.ctl.Delivering? && Waiting(parser.Abstract()) && n == Need(parser.Abstract())
      modifies this`consumed, reader, parser`ctl, parser.builder, parser.builder.tt, parser.builder.ll.ll16, parser.builder.ll.ll4
      modifies parser.builder.unzftab, parser.builder.list, parser.builder.list.mtfa, parser.builder.list.mtfbase
      modifies parser.cftab, parser.cftabCopy, parser.fast, parser.fast.block, parser.slow, parser.slow.block
      ensures Sound() && Took(old(reader.input), old(consumed), reader.input, consumed)
      ensures got ==> |reader.Pending()| < old(|reader.Pending()|)
      ensures !got ==> reader.input == [] && !parser.ctl.Delivering? && Waiting(parser.Abstract()) && reader.Pending() == old(reader.Pending())
      ensures !got ==> |reader.Held()| < Need(parser.Abstract())
    {
      hide *;
      WhileParsing();
      parser.MachineOk();
      ghost var d, held0, in0 := parser.Abstract(), reader.Held(), reader.input;
      NeedBound(d);
      FromIs(d, held0, combined);
      reader.PendingIs();
      var v;
      got, v := reader.GetBits(n);
      reader.PendingIs();
      ghost var k: nat :| k <= |in0| && reader.input == in0[k..];
      ghost var held := reader.Held();
      AllTaken(in0, k, consumed);
      if got {
        FieldTaken(consumed, in0, k, made, d, held0, combined, n, v, held);
        consumed := consumed + in0[..k];
        parser.Advance(v);
        parser.MachineOk();
        ghost var e := parser.Abstract();
        if parser.ctl.Delivering? {
          PartialStart(e, combined, held);
          parser.Delivered(BlockText(e.col, e.head.orig), INIT);
          WhileDelivering();
        } else {
          FromIs(e, held, combined);
          WhileParsing();
        }
      } else {
        NoFieldTaken(consumed, in0, made, d, held0, combined, held);
        consumed := consumed + in0[..k];
        FromIs(d, held, combined);
        WhileParsing();
      }
    }

    /** BZ2_decompress: steps until a block is ready, the stream ends or is refused, or input runs out. */
    method Parse() returns (suspended: bool)
      requires Sound() && !parser.ctl.Delivering?
      modifies this`consumed, reader, parser`ctl, parser.builder, parser.builder.tt, parser.builder.ll.ll16, parser.builder.ll.ll4
      modifies parser.builder.unzftab, parser.builder.list, parser.builder.list.mtfa, parser.builder.list.mtfbase
      modifies parser.cftab, parser.cftabCopy, parser.fast, parser.fast.block, parser.slow, parser.slow.block
      ensures Sound() && Took(old(reader.input), old(consumed), reader.input, consumed)
      ensures suspended ==> reader.input == [] && !parser.ctl.Delivering? && Waiting(parser.Abstract()) && |reader.Held()| < Need(parser.Abstract())
      ensures !suspended ==> !Waiting(parser.Abstract())
      ensures |reader.Pending()| <= old(|reader.Pending()|)
      ensures parser.ctl.Delivering? ==> |reader.Pending()| < old(|reader.Pending()|)
    {
      hide DecodeBits, Behind, Rest, BlockParser.Valid, BitReader.Valid, BlockParser.OutputOk, Took, BlockParser.Abstract, BitReader.Pending;
      ghost var in0, consumed0 := reader.input, consumed;
      NothingYet(in0, consumed0, [], 0, []);
      while true
        invariant Sound() && Took(in0, consumed0, reader.input, consumed)
        invariant |reader.Pending()| <= old(|reader.Pending()|)
        invariant parser.ctl.Delivering? ==> |reader.Pending()| < old(|reader.Pending()|)
        decreases |reader.Pending()|
      {
        parser.MachineOk();
        var n := parser.Asks();
        if n == 0 { return false; }
        ghost var in1, consumed1 := reader.input, consumed;
        var got := ReadStep(n);
        TookMore(in0, consumed0, in1, consumed1, reader.input, consumed);
        if !got { return true; }
      }
    }

    /** The output half of BZ2_bzDecompress: delivers what fits of the block. */
    method DeliverStep() returns (corrupt: bool, finished: bool)
      requires Sound() && parser.ctl.Delivering?
      modifies this`made, strm`output, strm`availOut, parser.fast, parser.fast.block, parser.slow, parser.slow.block
      ensures Sound() && parser.ctl.Delivering?
      ensures Wrote(old(strm.output), old(strm.availOut), old(made), strm.output, strm.availOut, made)
      ensures corrupt ==> Rest() == Decoding(Withheld(), StreamFormat.Error(DataError))
      ensures !corrupt && finished ==> parser.Left() == Expansion([], false)
      ensures !corrupt && !finished ==> strm.availOut == 0 && parser.OutputOk() && (parser.Left().bytes != [] || parser.Left().broken)
    {
      hide *;
      WhileDelivering();
      ghost var all, crc0, h := parser.Left(), parser.CrcSoFar(), parser.ctl.head;
      var room, out := strm.availOut, [];
      corrupt, finished, out := parser.Drain(room);
      DrainedBlock(parser.small, all, crc0, room, corrupt, finished, out, parser.Left(), h, combined, reader.Held(), made);
      AppendedOutput(strm.output, room, made, out);
      strm.output := strm.output + out;
      strm.availOut := room - |out|;
      made := made + out;
      WhileDelivering();
      Refusal(corrupt);
    }

    /** A block refused by the output stage. */
    lemma Refusal(corrupt: bool)
      requires Sound() && parser.ctl.Delivering?
      requires corrupt ==> parser.OutputOk() && parser.Left().broken && (parser.Left().bytes == [] <==> parser.small)
      ensures corrupt ==> Rest() == Decoding(Withheld(), StreamFormat.Error(DataError))
    {
      hide BlockParser.Valid, BitReader.Valid, DecodeBits, BlockParser.OutputOk, BlockParser.Left, BlockParser.CrcSoFar, WordOf, Finalise, Fold;
      parser.MachineOk();
    }

    /** The end of a block: the checksums are compared and combined. */
    method EndBlock() returns (ok: bool)
      requires Sound() && parser.ctl.Delivering? && parser.Left() == Expansion([], false)
      modifies this`combined, parser`ctl
      ensures Sound()
      ensures ok ==> !parser.ctl.Delivering? && Waiting(parser.Abstract())
      ensures !ok ==> Rest() == Decoding([], StreamFormat.Error(DataError)) && parser.OutputOk() && parser.Left() == Expansion([], false)
    {
      hide DecodeBits, Partial, Fold, Finalise, WordOf, Combine, BlockParser.Left, BlockParser.OutputOk, BitReader.Valid, BlockBuilder.Shape, BlockBuilder.Valid;
      parser.MachineOk();
      var h := parser.ctl.head;
      var sum := Finalise(parser.CrcSoFar());
      PartialEnd(parser.CrcSoFar(), h, combined, reader.Held());
      if WordOf(sum) != h.crc { return false; }
      combined := Combine(combined, sum);
      parser.ctl := Early(BlkHdr(h.level, 1));
      ok := true;
    }

    /** The block being delivered ends in four equal bytes without a count. */
    ghost predicate BrokenBlock()
      reads parser, parser.builder, parser.fast, parser.fast.block, parser.fast.block.tt, parser.slow, parser.slow.block
      reads parser.slow.block.ll, parser.slow.block.ll.ll16, parser.slow.block.ll.ll4, parser.slow.block.cftab
    {
      parser.ctl.Delivering? && parser.OutputOk() && parser.Left().broken
    }

    /** The bytes of such a block that FAST had found when it refused it, and did not deliver. */
    ghost function Withheld(): (r: seq<Byte>)
      reads parser, parser.builder, parser.fast, parser.fast.block, parser.fast.block.tt, parser.slow, parser.slow.block
      reads parser.slow.block.ll, parser.slow.block.ll.ll16, parser.slow.block.ll.ll4, parser.slow.block.cftab
      ensures r == [] <==> parser.small || !BrokenBlock()
    {
      if !parser.small && BrokenBlock() then parser.Left().bytes else []
    }

    /** What the input consumed so far decodes to. */
    ghost function Total(): (r: Decoding)
      reads `consumed
    {
      Decoded(consumed)
    }

    /** There is no room left, and there is output to come, or the end of a broken block. */
    ghost predicate NoRoom()
      reads `made, `consumed, strm
    {
      strm.availOut == 0 && (Total().out != made || Total().verdict.Error?)
    }

    /** The verdicts a return code stands for. */
    ghost predicate Means(ret: Ret)
      reads `made, `consumed, strm, parser, reader, parser.builder, parser.fast, parser.fast.block, parser.fast.block.tt, parser.slow
      reads parser.slow.block, parser.slow.block.ll, parser.slow.block.ll.ll16, parser.slow.block.ll.ll4, parser.slow.block.cftab
    {
      match ret
      case Ok => NoRoom() || (reader.input == [] && Total().out == made && Total().verdict.More?)
      case StreamEnd => Total() == Decoding(made, End) && parser.ctl.Early? && parser.ctl.d.Idle?
      case Refused(e) => Total() == Decoding(made + Withheld(), StreamFormat.Error(e)) && Modelled(e)
      case Beyond(e) => Total() == Decoding(made, StreamFormat.Error(e)) && !Modelled(e)
      case SequenceError => parser.ctl.Early? && parser.ctl.d.Idle?
    }

    lemma Suspended()
      requires Sound() && !parser.ctl.Delivering? && Waiting(parser.Abstract()) && |reader.Held()| < Need(parser.Abstract())
      ensures Total().out == made && Total().verdict.More?
    {
      hide Decoder.Valid, Need;
      parser.MachineOk();
      TooFewBits(parser.Abstract(), reader.Held(), combined);
    }

    /** The stream has ended or been refused. */
    method Conclude() returns (ret: Ret)
      requires Sound() && !parser.ctl.Delivering? && !Waiting(parser.Abstract())
      ensures Means(ret) && ret != Ok && ret != SequenceError
    {
      hide DecodeBits, WordOf, BlockBuilder.Shape, BlockBuilder.Valid, BitReader.Valid;
      parser.MachineOk();
      EndVerdict(parser.Abstract(), reader.Held(), combined);
      if parser.ctl.d.Idle? {
        assert made + [] == made;
        if WordOf(combined) != parser.ctl.d.combined { return Refused(DataError); }
        return StreamEnd;
      }
      assert made + [] == made;
      if Modelled(parser.ctl.d.error) { return Refused(parser.ctl.d.error); }
      return Beyond(parser.ctl.d.error);
    }

    /** Delivers what fits of the block, and closes it once all is delivered. */
    method FinishBlock() returns (over: bool, ret: Ret)
      requires Sound() && parser.ctl.Delivering?
      modifies this`made, this`combined, strm`output, strm`availOut, parser`ctl
      modifies parser.fast, parser.fast.block, parser.slow, parser.slow.block
      ensures Sound() && Wrote(old(strm.output), old(strm.availOut), old(made), strm.output, strm.availOut, made)
      ensures over ==> Means(ret) && ret != SequenceError
      ensures !over ==> !parser.ctl.Delivering? && Waiting(parser.Abstract())
    {
      hide Sound, Rest, Wrote, BitReader.Pending, BlockParser.Abstract, Total, BlockParser.Left, BlockParser.OutputOk, Waiting, Means,
           Withheld, BrokenBlock;
      over := true;
      var corrupt, finished := DeliverStep();
      if corrupt { RefusedMeans(); return true, Refused(DataError); }
      if !finished { NoRoomMeans(); return true, Ok; }
      var ok := EndBlock();
      if !ok { NothingWithheld(); RefusedMeans(); return true, Refused(DataError); }
      over, ret := false, Ok;
    }

    /** Goes on to the next block, the end of the stream, or the end of the input. */
    method ParseOn() returns (over: bool, ret: Ret)
      requires Sound() && !parser.ctl.Delivering?
      modifies this`consumed, reader, parser`ctl, parser.builder, parser.builder.tt, parser.builder.ll.ll16, parser.builder.ll.ll4
      modifies parser.builder.unzftab, parser.builder.list, parser.builder.list.mtfa, parser.builder.list.mtfbase
      modifies parser.cftab, parser.cftabCopy, parser.fast, parser.fast.block, parser.slow, parser.slow.block
      ensures Sound() && Took(old(reader.input), old(consumed), reader.input, consumed)
      ensures over ==> Means(ret) && ret != SequenceError
      ensures !over ==> parser.ctl.Delivering? && |reader.Pending()| < old(|reader.Pending()|)
    {
      hide *;
      over, ret := true, Ok;
      var suspended := Parse();
      if suspended {
        SuspendedMeans();
      } else if parser.ctl.Delivering? {
        over := false;
      } else {
        ret := Conclude();
      }
    }

    /** The loop of BZ2_bzDecompress. It terminates: every block it starts uses up bits. */
    method Run() returns (ret: Ret)
      requires Sound()
      modifies this`consumed, this`made, this`combined, strm`output, strm`availOut
      modifies reader, parser`ctl, parser.builder, parser.builder.tt, parser.builder.ll.ll16, parser.builder.ll.ll4
      modifies parser.builder.unzftab, parser.builder.list, parser.builder.list.mtfa, parser.builder.list.mtfbase
      modifies parser.cftab, parser.cftabCopy, parser.fast, parser.fast.block, parser.slow, parser.slow.block
      ensures Sound() && Took(old(reader.input), old(consumed), reader.input, consumed)
      ensures Wrote(old(strm.output), old(strm.availOut), old(made), strm.output, strm.availOut, made)
      ensures Means(ret)
      ensures ret == SequenceError <==> old(parser.ctl.Early? && parser.ctl.d.Idle?)
      ensures ret == SequenceError ==> made == old(made) && consumed == old(consumed)
    {
      hide *;
      ghost var in0, consumed0, out0, room0, made0 := reader.input, consumed, strm.output, strm.availOut, made;
      NothingYet(in0, consumed0, out0, room0, made0);
      if parser.ctl.Early? && parser.ctl.d.Idle? { IdleMeans(); return SequenceError; }
      while true
        invariant Sound() && Took(in0, consumed0, reader.input, consumed)
        invariant Wrote(out0, room0, made0, strm.output, strm.availOut, made)
        decreases |reader.Pending()|, if parser.ctl.Delivering? then 1 else 0
      {
        if parser.ctl.Delivering? {
          ghost var out1, room1, made1 := strm.output, strm.availOut, made;
          var over;
          over, ret := FinishBlock();
          WroteMore(out0, room0, made0, out1, room1, made1, strm.output, strm.availOut, made);
          if over { return; }
        }
        ghost var in1, consumed1 := reader.input, consumed;
        var over;
        over, ret := ParseOn();
        TookMore(in0, consumed0, in1, consumed1, reader.input, consumed);
        if over { return; }
      }
    }

    lemma RefusedMeans()
      requires Sound() && Rest() == Decoding(Withheld(), StreamFormat.Error(DataError))
      ensures Means(Refused(DataError))
    {
      hide Rest, Valid, Withheld, DecodeBits;
    }

    lemma IdleMeans()
      requires parser.ctl.Early? && parser.ctl.d.Idle?
      ensures Means(SequenceError)
    {
    }

    lemma SuspendedMeans()
      requires Sound() && !parser.ctl.Delivering? && Waiting(parser.Abstract()) && |reader.Held()| < Need(parser.Abstract()) && reader.input == []
      ensures Means(Ok)
    {
      Suspended();
      hide Total;
    }

    lemma NoRoomMeans()
      requires Sound() && parser.ctl.Delivering? && strm.availOut == 0
      requires parser.OutputOk() && (parser.Left().bytes != [] || parser.Left().broken)
      ensures Means(Ok)
    {
      hide BlockParser.OutputOk, BlockParser.Left, BlockParser.CrcSoFar, BlockParser.Valid, BitReader.Valid, DecodeBits, Decoded, Partial;
      WhileDelivering();
      StillToCome(parser.Left(), parser.CrcSoFar(), parser.ctl.head, combined, reader.Held());
    }

    lemma NothingWithheld()
      requires parser.OutputOk() && parser.Left() == Expansion([], false)
      ensures Withheld() == []
    {
      hide BlockParser.OutputOk, BlockParser.Left;
    }

    /** What has been delivered comes first in what the input consumed decodes to. */
    lemma MadeFirst()
      requires Sound()
      ensures made <= Total().out
    {
      hide Valid, Rest, Decoded;
    }

    lemma TotalIs()
      ensures Total() == Decoded(consumed)
    {
      hide Decoded;
    }

    lemma RoomKept()
      ensures NoRoom() <==> strm.availOut == 0 && (Total().out != made || Total().verdict.Error?)
    {
      hide Total;
    }

    /** What a return code means, clause by clause. */
    lemma Spelled(ret: Ret)
      requires Means(ret)
      ensures ret == Ok ==> NoRoom() || (reader.input == [] && Total().out == made && Total().verdict.More?)
      ensures ret == StreamEnd ==> Total() == Decoding(made, End)
      ensures ret.Refused? ==> Total() == Decoding(made + Withheld(), StreamFormat.Error(ret.error)) && Modelled(ret.error)
      ensures ret.Refused? ==> (Total().out == made <==> parser.small || !BrokenBlock())
      ensures ret.Beyond? ==> Total() == Decoding(made, StreamFormat.Error(ret.error)) && !Modelled(ret.error)
    {
      hide Total, BrokenBlock, NoRoom;
    }

    /** BZ2_bzDecompress. After an error only BZ2_bzDecompressEnd may follow. */
    method Decompress() returns (ret: Ret)
      requires Sound() && !refused
      modifies strm, this`consumed, this`made, this`combined, this`refused
      modifies reader, parser`ctl, parser.builder, parser.builder.tt, parser.builder.ll.ll16, parser.builder.ll.ll4
      modifies parser.builder.unzftab, parser.builder.list, parser.builder.list.mtfa, parser.builder.list.mtfbase
      modifies parser.cftab, parser.cftabCopy, parser.fast, parser.fast.block, parser.slow, parser.slow.block
      ensures Sound() && Took(old(strm.input), old(consumed), strm.input, consumed)
      ensures Wrote(old(strm.output), old(strm.availOut), old(made), strm.output, strm.availOut, made)
      ensures ret == Ok ==> NoRoom() || (strm.input == [] && Total().out == made && Total().verdict.More?)
      ensures ret == StreamEnd ==> Total() == Decoding(made, End)
      ensures ret.Refused? ==> Total() == Decoding(made + Withheld(), StreamFormat.Error(ret.error)) && Modelled(ret.error)
      ensures ret.Refused? ==> (Total().out == made <==> parser.small || !BrokenBlock())
      ensures ret.Beyond? ==> Total() == Decoding(made, StreamFormat.Error(ret.error)) && !Modelled(ret.error)
      ensures refused == (ret.Refused? || ret.Beyond?)
      ensures ret == SequenceError <==> old(parser.ctl.Early? && parser.ctl.d.Idle?)
      ensures ret == SequenceError ==> made == old(made) && consumed == old(consumed)
    {
      hide *;
      reader.input := strm.input;
      ret := Run();
      Spelled(ret);
      RoomKept();
      strm.input := reader.input;
      RoomKept();
      refused := ret.Refused? || ret.Beyond?;
    }
  }

  lemma TooFewBits(d: Dec, bits: seq<Bit>, combined: bv32)
    requires Decoder.Valid(d) && Waiting(d) && |bits| < Need(d)
    ensures DecodeBits(d, bits, combined) == Decoding([], More(d, bits, combined))
  {
    hide Step;
  }

  lemma EndVerdict(d: Dec, bits: seq<Bit>, combined: bv32)
    requires Decoder.Valid(d) && (d.Idle? || d.Failed?)
    ensures DecodeBits(d, bits, combined)
         == Decoding([], if d.Failed? then StreamFormat.Error(d.error)
                         else if WordOf(combined) == d.combined then End else StreamFormat.Error(DataError))
  {
    hide WordOf;
    FeedStays(d, bits);
    hide Feed;
  }

  /** What a call of the output stage does to the rest of the stream. */
  lemma DrainedBlock(small: bool, all: Expansion, crc: bv32, room: nat, corrupt: bool, finished: bool, out: seq<Byte>, left: Expansion,
                     h: Head, combined: bv32, bits: seq<Bit>, made: seq<Byte>)
    requires HeadOk(h) && Progress(small, all, room, corrupt, finished, out, left)
    ensures |out| <= room
    ensures Behind(made, Partial(all, crc, h, combined, bits)) == Behind(made + out, Partial(left, Fold(crc, out), h, combined, bits))
    ensures corrupt ==> Partial(left, Fold(crc, out), h, combined, bits) == Decoding(left.bytes, StreamFormat.Error(DataError))
    ensures corrupt ==> left.broken && (left.bytes == [] <==> small)
    ensures !corrupt && finished ==> left == Expansion([], false)
    ensures !corrupt && !finished ==> |out| == room && (left.bytes != [] || left.broken)
  {
    hide Partial, Behind, Fold;
    PartialDrain(all, crc, out, left, h, combined, bits);
    BehindBehind(made, out, Partial(left, Fold(crc, out), h, combined, bits));
    BrokenVerdict(left, Fold(crc, out), h, combined, bits);
  }

  lemma AppendedOutput(output: seq<Byte>, room: nat, made: seq<Byte>, out: seq<Byte>)
    requires |out| <= room
    ensures Wrote(output, room, made, output + out, room - |out|, made + out)
  {
  }

  lemma BrokenVerdict(left: Expansion, crc: bv32, h: Head, combined: bv32, bits: seq<Bit>)
    requires HeadOk(h)
    ensures left.broken ==> Partial(left, crc, h, combined, bits) == Decoding(left.bytes, StreamFormat.Error(DataError))
  {
  }

  lemma NeedBound(d: Dec)
    requires Decoder.Valid(d) && Waiting(d)
    ensures 1 <= Need(d) <= 20
  {
  }
}

/** The compressor's stream machine (bzlib.c): BZ2_bzCompress, handle_compress and the copying loops
    around BZ2_compressBlock. */
module Compressor {
  import opened Basics
  import opened BitStrings
  import opened BitIO
  import opened Mtf
  import opened MtfEncode
  import opened RunLength
  import opened BlockCrc
  import opened Decoder
  import opened BlockEncoding
  import opened SendBits
  import opened InputStage
  import opened StreamFormat
  import opened CompressBlock
  import opened BlockSort
  import opened BlockRoom
  import opened Streams

  datatype Mode = Stopped | Running | Flushing | Finishing    // BZ_M_IDLE ...
  datatype Phase = InputState | OutputState                           // BZ_S_INPUT, BZ_S_OUTPUT
  datatype Action = DoRun | DoFlush | DoFinish | Unknown
  datatype Ret = RunOk | FlushOk | FinishOk | StreamEnd | SequenceError | ParamError

  /** A finished stream, its last byte padded with zeros. */
  ghost predicate Complete(bits: seq<Bit>, es: seq<Encoding>, level: nat, combined: bv32) {
    1 <= level <= 9 && AllSendable(es, level)
    && exists pad: nat :: pad < 8 && bits == StreamBits(es, level, combined) + Bits(pad, 0)
  }

  class EState {
    const strm: BzStream
    const level: nat
    const workFactor: int
    const stage: RunStage
    const writer: BitWriter
    const arr1: SharedWords
    const mtfFreq: array<nat>
    var mode: Mode
    var state: Phase
    var availInExpect: nat
    var stateOutPos: nat
    var blockNo: nat
    var combinedCRC: bv32
    ghost var es: seq<Encoding>         // the blocks sent so far
    ghost var datas: seq<seq<Byte>>     // the input each stands for
    ghost var gone: seq<Byte>           // output of earlier blocks, all delivered
    ghost var taken: seq<Byte>          // all input consumed
    ghost var closed: bool              // the trailer has been written

    /** What has been written is a stream of the blocks sent: open, or complete with its trailer. */
    ghost predicate SentOk()
      reads `es, `datas, `gone, `closed, `combinedCRC, `blockNo, `state, writer
    {
      combinedCRC == Combined(datas) && StreamOk()
      && (closed ==> Complete(ByteBits(gone + writer.zbits), es, level, combinedCRC))
    }

    ghost predicate StreamOk()
      reads `es, `datas, `gone, `closed, `blockNo, `state, writer
    {
      && 1 <= level <= 9 && AllHold(es, level, datas) && AllSendable(es, level)
      && writer.Valid() && writer.bsLive < 32 && blockNo >= 1
      && (state == InputState ==> !closed && (blockNo == 1 ==> es == []))
      && (closed || ByteBits(gone) + writer.Contents() == (if state == InputState && blockNo == 1 then [] else OpenBits(es, level)))
    }

    /** Where the input taken in is: in blocks already sent, in this block, or in the pending run. */
    ghost predicate TakenOk()
      reads `taken, `datas, `state, stage
    {
      taken == Flat(datas) + (if state == InputState then stage.Absorbed() else stage.Pending())
    }

    /** How modes and phases go together. A full block that waits for output before the end of the
        stream has a pending run. */
    ghost predicate PhaseOk()
      reads `mode, `state, `closed, `availInExpect, stage
    {
      && (mode == Stopped ==> closed)
      && (closed ==> state == OutputState && stage.Empty() && (mode == Finishing || mode == Stopped) && availInExpect == 0)
      && (state == OutputState && !closed && stage.Empty() ==> mode == Flushing && availInExpect == 0)
      && (state == InputState ==> stage.Open() && stage.nblock < stage.nblockMAX + 5)
      && (state == InputState && (stage.spans != [] || stage.nblock >= stage.nblockMAX) ==> !stage.Empty())
    }

    ghost predicate Sizes()
      reads `stateOutPos, `state, `mode, writer
    {
      && 1 <= level <= 9 && stage.level == level && arr1.words.Length == 100000 * level && mtfFreq.Length == 258
      && stateOutPos <= |writer.zbits| && (state == InputState ==> stateOutPos == 0 && writer.zbits == [])
      && (mode == Stopped ==> stateOutPos == |writer.zbits|)
    }

    /** What holds in every reachable state. */
    ghost predicate Valid()
      reads this, stage, stage.block, stage.inUse, writer
    {
      SentOk() && TakenOk() && PhaseOk() && Sizes() && stage.Valid()
    }

    /** Bytes delivered to the caller since the stream began. */
    ghost function Emitted(): (r: seq<Byte>)
      reads `gone, `stateOutPos, writer
    {
      if stateOutPos <= |writer.zbits| then gone + writer.zbits[..stateOutPos] else gone
    }

    /** BZ2_bzCompressInit. */
    constructor (strm: BzStream, blockSize100k: nat, workFactor: int)
      requires 1 <= blockSize100k <= 9 && 0 <= workFactor <= 250
      ensures Ready() && this.strm == strm && level == blockSize100k
      ensures mode == Running && taken == [] && gone == [] && stateOutPos == 0 && state == InputState && es == []
      ensures fresh(stage) && fresh(stage.block) && fresh(stage.inUse) && fresh(writer) && fresh(arr1.words) && fresh(mtfFreq)
    {
      hide *;
      this.strm, level, this.workFactor := strm, blockSize100k, if workFactor == 0 then 30 else workFactor;
      stage := new RunStage(blockSize100k);
      writer := new BitWriter();
      var words := new Word[100000 * blockSize100k];
      arr1 := new SharedWords(words);
      mtfFreq := new nat[258](_ => 0);
      mode, state, availInExpect, stateOutPos, blockNo, combinedCRC := Running, InputState, 0, 0, 1, 0;
      es, datas, gone, taken, closed := [], [], [], [], false;
      new;
      Started();
    }

    /** The invariant at the beginning. */
    lemma Started()
      requires 1 <= level <= 9 && mode == Running && state == InputState && availInExpect == 0 && stateOutPos == 0 && blockNo == 1
      requires combinedCRC == 0 && es == [] && datas == [] && gone == [] && taken == [] && !closed
      requires stage.Valid() && stage.level == level && stage.nblock == 0 && stage.spans == [] && stage.chIn == 256 && stage.lenIn == 0
      requires writer.Valid() && writer.Contents() == [] && writer.zbits == [] && writer.bsLive == 0
      requires arr1.words.Length == 100000 * level && mtfFreq.Length == 258
      ensures Ready()
    {
      hide BitWriter.Valid, RunStage.Valid, BitWriter.Contents, Shl;
    }

    /** prepare_new_block. */
    method PrepareNewBlock()
      requires Valid() && state == OutputState && !closed && stateOutPos == |writer.zbits|
      modifies this`stateOutPos, this`blockNo, this`gone, this`state, stage`nblock, stage`blockCRC, stage`spans, stage.inUse, writer`zbits
      ensures Valid() && state == InputState && stage.nblock == 0 && stage.spans == []
      ensures stage.Empty() == old(stage.Empty()) && Emitted() == old(Emitted())
    {
      hide AllHold, AllSendable, Combined, OpenBits, ByteBits, Bits, Flat, SentOk, StreamOk, TakenOk, PhaseOk, BitWriter.Valid,
           RunStage.Valid, RunStage.Absorbed, RunStage.Pending, RunStage.Open;
      BeforePrepare();
      ghost var z := writer.zbits;
      stage.PrepareNewBlock();
      ByteBitsConcat(gone, z);
      Assoc(ByteBits(gone), ByteBits(z), Bits(writer.bsLive, writer.pending));
      gone := gone + z;
      writer.Rewind();
      stateOutPos := 0;
      blockNo := blockNo + 1;
      state := InputState;
      AfterPrepare();
    }

    lemma BeforePrepare()
      requires Valid() && state == OutputState && !closed
      ensures ByteBits(gone) + writer.Contents() == OpenBits(es, level) && taken == Flat(datas) + stage.Pending()
      ensures AllHold(es, level, datas) && AllSendable(es, level) && combinedCRC == Combined(datas) && blockNo >= 1 && mode != Stopped
      ensures writer.Valid() && writer.bsLive < 32 && stage.Valid()
    {
    }

    lemma AfterPrepare()
      requires Sizes() && AllHold(es, level, datas) && AllSendable(es, level) && combinedCRC == Combined(datas) && blockNo >= 2
      requires ByteBits(gone) + writer.Contents() == OpenBits(es, level) && taken == Flat(datas) + stage.Absorbed()
      requires state == InputState && !closed && writer.Valid() && writer.bsLive < 32 && writer.zbits == [] && mode != Stopped
      requires stage.Valid() && stage.Open() && stage.nblock == 0 && stage.spans == []
      ensures Valid()
    {
    }

    /** One input byte into the block; avail_in_expect falls in step with avail_in. */
    method CopyByte()
      requires Valid() && state == InputState && (mode != Running ==> availInExpect == |strm.input|)
      requires strm.input != [] && stage.nblock < stage.nblockMAX
      modifies this`taken, this`availInExpect, strm`input
      modifies stage`nblock, stage`blockCRC, stage`spans, stage`chIn, stage`lenIn, stage.block, stage.inUse
      ensures Valid() && (mode != Running ==> availInExpect == |strm.input|)
      ensures strm.input == old(strm.input)[1..] && taken == old(taken) + [old(strm.input)[0]]
    {
      hide SentOk, RunStage.Valid, RunStage.Absorbed, Flat;
      var x := strm.input[0];
      Assoc(Flat(datas), stage.Absorbed(), [x]);
      stage.AddChar(x);
      strm.input := strm.input[1..];
      if mode != Running { availInExpect := availInExpect - 1; }
      taken := taken + [x];
    }

    /** copy_input_until_stop: takes input until the block is full, the input is used up, or, while
        flushing or finishing, the announced amount has been taken. */
    method CopyInput() returns (progress: bool)
      requires Valid() && state == InputState && (mode != Running ==> availInExpect == |strm.input|)
      modifies this`taken, this`availInExpect, strm`input
      modifies stage`nblock, stage`blockCRC, stage`spans, stage`chIn, stage`lenIn, stage.block, stage.inUse
      ensures Valid() && (mode != Running ==> availInExpect == |strm.input|)
      ensures |strm.input| <= |old(strm.input)| && progress == (|strm.input| < |old(strm.input)|)
      ensures stage.nblock >= stage.nblockMAX || strm.input == []
      ensures !progress ==> stage.Empty() == old(stage.Empty()) && stage.nblock == old(stage.nblock)
      ensures Took(old(strm.input), old(taken), strm.input, taken)
    {
      hide Valid, Took;
      progress := false;
      ghost var all, before := strm.input, taken;
      NothingYet(all, before, [], 0, []);
      while true
        invariant Valid() && Took(all, before, strm.input, taken)
        invariant |strm.input| <= |all| && progress == (|strm.input| < |all|)
        invariant mode != Running ==> availInExpect == |strm.input|
        invariant !progress ==> stage.Empty() == old(stage.Empty()) && stage.nblock == old(stage.nblock)
        decreases |strm.input|
      {
        if stage.nblock >= stage.nblockMAX { break; }
        if |strm.input| == 0 { break; }
        if mode != Running && availInExpect == 0 { break; }
        progress := true;
        TookFirst(all, before, strm.input, taken);
        CopyByte();
      }
    }

    /** copy_output_until_stop: delivers output until the room or the block is used up. */
    method CopyOutput() returns (progress: bool)
      requires Valid() && state == OutputState && mode != Stopped
      modifies `stateOutPos, strm`availOut, strm`output
      ensures Valid() && stateOutPos >= old(stateOutPos)
      ensures stateOutPos == |writer.zbits| || strm.availOut == 0
      ensures strm.output == old(strm.output) + writer.zbits[old(stateOutPos)..stateOutPos]
      ensures Emitted() == old(Emitted()) + writer.zbits[old(stateOutPos)..stateOutPos]
      ensures strm.availOut == old(strm.availOut) - (stateOutPos - old(stateOutPos))
      ensures progress == (stateOutPos > old(stateOutPos))
    {
      hide SentOk, TakenOk, PhaseOk, RunStage.Valid;
      progress := false;
      ghost var from, before, room := stateOutPos, strm.output, strm.availOut;
      while true
        invariant Valid() && from <= stateOutPos <= |writer.zbits|
        invariant strm.output == before + writer.zbits[from..stateOutPos]
        invariant strm.availOut == room - (stateOutPos - from) && progress == (stateOutPos > from)
        decreases strm.availOut
      {
        if strm.availOut == 0 { break; }
        if stateOutPos >= |writer.zbits| { break; }
        progress := true;
        assert writer.zbits[from..stateOutPos + 1] == writer.zbits[from..stateOutPos] + [writer.zbits[stateOutPos]];
        strm.output := strm.output + [writer.zbits[stateOutPos]];
        stateOutPos := stateOutPos + 1;
        strm.availOut := strm.availOut - 1;
      }
    }

    /** The bits of the stream so far are the header and the blocks sent. */
    ghost predicate IsOpen()
      reads `es, `gone, writer
    {
      1 <= level <= 9 && AllSendable(es, level) && writer.Valid() && writer.bsLive < 32 && ByteBits(gone) + writer.Contents() == OpenBits(es, level)
    }

    /** The stream header, before the first block. */
    method WriteHeader()
      requires StreamOk() && state == InputState
      modifies writer
      ensures IsOpen() && |writer.Contents()| <= |old(writer.Contents())| + 32
    {
      hide Bits, Shl, AllHold, Sendable, Combined, BlocksBits;
      writer.ContentsLength();
      BytesLength(writer.zbits);
      BytesLength([0x42, 0x5a, 0x68, 0x30 + level]);
      if blockNo == 1 {
        NoBitsYet(ByteBits(gone), writer.Contents(), level);
        writer.Init();
        PutBytes(writer, [0x42, 0x5a, 0x68, 0x30 + level]);
        assert [] + HeaderBits(level) == HeaderBits(level);
      }
    }

    /** A block: afterwards the stream has one block more. */
    method AppendBlock(crc: bv32, origPtr: nat)
      requires IsOpen() && stage.Filled() && stage.nblock > 0 && crc == Finalise(stage.blockCRC) && stage.level == level
      requires arr1.words.Length == 100000 * level && mtfFreq.Length == 258
      requires SortedBy(arr1.words[..], stage.block[..stage.nblock], origPtr) && AllHold(es, level, datas)
      modifies `es, `datas, writer, arr1.words, mtfFreq
      ensures IsOpen() && AllHold(es, level, datas) && old(writer.zbits) <= writer.zbits
      ensures datas == old(datas) + [Plain(stage.spans)]
      ensures |writer.Contents()| + 151 <= |old(writer.Contents())| + 8 * Capacity(level, stage.nblock)
      ensures Short(es, level) == old(Short(es, level)) + (if stage.nblock < stage.nblockMAX then 1 else 0)
    {
      hide ByteBits, Bits, Shl, BlockBits, BlocksBits, Holds, Sendable, Plain, Coded, Fold, HeaderBits, Finalise, BitWriter.Contents;
      ghost var start := ByteBits(gone);
      ghost var before := writer.Contents();
      ghost var e := WriteBlock(writer, stage, arr1, mtfFreq, crc, origPtr);
      BlockFits(e, level, stage.nblock);
      BlocksAppend(es, e, level);
      ShortAppend(es, e, level);
      SizeOf(e, level);
      Assoc(start, before, BlockBits(e, level));
      Assoc(HeaderBits(level), BlocksBits(es, level), BlockBits(e, level));
      es, datas := es + [e], datas + [Plain(stage.spans)];
    }

    /** The trailer, after the last block. */
    method WriteTrailer()
      requires IsOpen()
      modifies writer
      ensures writer.Valid() && writer.bsLive == 0 && Complete(ByteBits(gone + writer.zbits), es, level, combinedCRC)
      ensures 8 * |writer.zbits| <= |old(writer.Contents())| + 87
    {
      hide ByteBits, Bits, Shl, BlocksBits, Sendable, HeaderBits, WordOf, BitWriter.Contents;
      ghost var start, open := ByteBits(gone), writer.Contents();
      PutBytes(writer, END_MARK);
      writer.PutUInt32(WordOf(combinedCRC));
      ghost var full := writer.Contents();
      writer.Finish();
      ghost var pad: nat :| pad < 8 && ByteBits(writer.zbits) == full + Bits(pad, 0);
      BytesLength(writer.zbits);
      BytesLength(END_MARK);
      FieldLength(32, WordOf(combinedCRC));
      FieldLength(pad, 0);
      ByteBitsConcat(gone, writer.zbits);
      Assoc4(start, open, ByteBits(END_MARK), Bits(32, WordOf(combinedCRC)));
      Assoc(start, open + ByteBits(END_MARK) + Bits(32, WordOf(combinedCRC)), Bits(pad, 0));
      assert ByteBits(gone + writer.zbits) == StreamBits(es, level, combinedCRC) + Bits(pad, 0);
    }

    /** The block's checksum, the combined checksum, and the sort. */
    method SortStep() returns (crc: bv32, origPtr: nat)
      requires stage.Valid() && Sizes() && combinedCRC == Combined(datas)
      modifies `combinedCRC, arr1.words, stage.block
      ensures stage.Valid() && stage.Filled() && stage.nblock <= stage.block.Length
      ensures stage.block[..stage.nblock] == old(stage.block[..stage.nblock])
      ensures crc == Finalise(stage.blockCRC)
      ensures stage.nblock > 0 ==> SortedBy(arr1.words[..], stage.block[..stage.nblock], origPtr)
      ensures combinedCRC == Combined(datas + (if stage.nblock > 0 then [Plain(stage.spans)] else []))
    {
      hide Combine, Crc, Finalise, Plain, Coded, Fold, Combined, SortedBy;
      crc, origPtr := Finalise(stage.blockCRC), 0;
      assert datas + [] == datas;
      if stage.nblock > 0 {
        BlockCrcIs(stage.blockCRC, Plain(stage.spans));
        CombinedAppend(datas, Plain(stage.spans));
        combinedCRC := Combine(combinedCRC, crc);
        origPtr := SortBlock(arr1.words, stage.block, stage.nblock, workFactor);
      }
    }

    /** The sort, the stream header if it is due, and the block if there is one. */
    method SendContents()
      requires StreamOk() && Sizes() && stage.Valid() && stage.Filled() && state == InputState
      requires AllHold(es, level, datas) && combinedCRC == Combined(datas)
      modifies this`combinedCRC, this`es, this`datas, writer, arr1.words, mtfFreq, stage.block
      ensures IsOpen() && AllHold(es, level, datas) && combinedCRC == Combined(datas)
      ensures datas == old(datas) + (if stage.nblock > 0 then [Plain(stage.spans)] else [])
      ensures stage.Valid() && |writer.Contents()| + 119 <= |old(writer.Contents())| + 8 * Capacity(level, stage.nblock)
      ensures Short(es, level) <= old(Short(es, level)) + (if stage.nblock < stage.nblockMAX then 1 else 0)
    {
      hide Finalise, Plain, IsOpen, AllHold, AllSendable, Combined, SortedBy, RunStage.Valid, StreamOk, BitWriter.Valid,
           RunStage.Filled, BitWriter.Contents;
      var crc, origPtr := SortStep();
      ghost var sorted, b := arr1.words[..], stage.block[..stage.nblock];
      WriteHeader();
      assert arr1.words[..] == sorted && stage.block[..stage.nblock] == b;
      if stage.nblock > 0 {
        AppendBlock(crc, origPtr);
      } else {
        assert datas + [] == datas;
      }
    }

    /** BZ2_compressBlock, and the change of phase that follows each call: the block, if there is one,
        is sorted and written; the first call writes the stream header, the last one the trailer. */
    method SendBlock(last: bool)
      requires SentOk() && TakenOk() && Sizes() && stage.Valid() && state == InputState && mode != Stopped
      requires last ==> stage.Empty() && mode == Finishing && availInExpect == 0
      requires !last && stage.Empty() ==> mode == Flushing && availInExpect == 0
      requires stage.nblock == 0 ==> stage.spans == []
      modifies this`state, this`combinedCRC, this`es, this`datas, this`closed, writer, arr1.words, mtfFreq, stage.block
      ensures Valid() && state == OutputState && closed == last
      ensures |writer.zbits| <= Capacity(level, stage.nblock)
      ensures taken == old(taken) && Emitted() == old(Emitted())
      ensures Short(es, level) <= old(Short(es, level)) + (if stage.nblock < stage.nblockMAX then 1 else 0)
    {
      hide *;
      BeforeSend();
      NoneEmitted();
      FlatMore(datas, stage.spans, stage.nblock > 0);
      Assoc(Flat(datas), Plain(stage.spans), stage.Pending());
      SendContents();
      writer.ContentsLength();
      if last { WriteTrailer(); }
      state := OutputState;
      closed := last;
      AfterSend(last);
      NoneEmitted();
    }

    lemma NoneEmitted()
      ensures stateOutPos == 0 ==> Emitted() == gone
    {
    }

    lemma BeforeSend()
      requires SentOk() && TakenOk() && stage.Valid() && Sizes() && state == InputState
      ensures taken == Flat(datas) + stage.Absorbed()
      ensures stage.Filled() && arr1.words.Length == 100000 * level && stage.level == level && StreamOk()
      ensures AllHold(es, level, datas) && combinedCRC == Combined(datas) && blockNo >= 1 && stateOutPos == 0
      ensures stage.Absorbed() == Plain(stage.spans) + stage.Pending()
      ensures 1 <= level <= 9 && mtfFreq.Length == 258 && writer.zbits == [] && |writer.Contents()| <= 32
    {
      writer.ContentsLength();
    }

    /** The parts of the invariant, once a block has been sent. */
    lemma AfterSend(last: bool)
      requires state == OutputState && closed == last && AllHold(es, level, datas) && combinedCRC == Combined(datas) && blockNo >= 1
      requires if last then writer.Valid() && writer.bsLive == 0 && Complete(ByteBits(gone + writer.zbits), es, level, combinedCRC) else IsOpen()
      requires taken == Flat(datas) + stage.Pending()
      requires mode != Stopped && (last ==> stage.Empty() && mode == Finishing && availInExpect == 0)
      requires !last && stage.Empty() ==> mode == Flushing && availInExpect == 0
      requires stage.Valid() && 1 <= level <= 9 && stage.level == level && arr1.words.Length == 100000 * level && mtfFreq.Length == 258
      requires stateOutPos == 0
      ensures Valid()
    {
      hide RunStage.Valid, AllHold, Combined, Flat;
    }

    /** Between calls, a block still taking input is not full. */
    ghost predicate Ready()
      reads this, stage, stage.block, stage.inUse, writer
    {
      Valid() && (state == InputState ==> stage.nblock < stage.nblockMAX)
    }

    /** While flushing or finishing, avail_in_expect is avail_in. */
    predicate InStep()
      reads `mode, `availInExpect, strm`input
    {
      mode != Running ==> availInExpect == |strm.input|
    }

    /** The end of what the caller announced has been reached and nothing is pending. */
    predicate Drained()
      reads `mode, `availInExpect, stage`chIn, stage`lenIn
    {
      mode != Running && availInExpect == 0 && stage.Empty()
    }

    /** flush_RL, once the announced input has been taken. */
    method FlushPending()
      requires Valid() && state == InputState
      modifies stage`nblock, stage`blockCRC, stage`spans, stage`chIn, stage`lenIn, stage.block, stage.inUse
      ensures SentOk() && TakenOk() && Sizes() && stage.Valid() && stage.Empty() && (stage.nblock == 0 ==> stage.spans == [])
    {
      hide SentOk, Flat, RunStage.Absorbed, RunStage.Pending, Plain, Apart, Coded, Fold;
      stage.FlushRL();
      NoSpans(stage.spans, stage.block[..stage.nblock]);
    }

    /** A full block has a run pending. */
    lemma FullBlock()
      requires Valid() && state == InputState && stage.nblock >= stage.nblockMAX
      ensures SentOk() && TakenOk() && Sizes() && stage.Valid() && !stage.Empty() && stage.nblock > 0
    {
    }

    /** The input half of handle_compress's loop. */
    method InputStep() returns (progress: bool, stop: bool)
      requires Ready() && state == InputState && InStep() && mode != Stopped
      modifies this`taken, this`availInExpect, strm`input, this`state, this`combinedCRC, this`es, this`datas, this`closed
      modifies stage`nblock, stage`blockCRC, stage`spans, stage`chIn, stage`lenIn, stage.block, stage.inUse
      modifies writer, arr1.words, mtfFreq
      ensures Ready() && InStep() && Emitted() == old(Emitted())
      ensures Took(old(strm.input), old(taken), strm.input, taken)
      ensures progress == (|strm.input| < |old(strm.input)|)
      ensures stop ==> state == InputState && mode == Running && strm.input == []
      ensures !stop ==> state == OutputState && (progress || Drained()) && (closed ==> Drained())
      ensures Short(es, level) <= old(Short(es, level)) + (if Drained() then 1 else 0)
    {
      hide SentOk, TakenOk, Sizes, PhaseOk, Valid, RunStage.Valid, RunStage.Empty, Emitted, Took, Capacity, Short;
      progress := CopyInput();
      stop := false;
      if mode != Running && availInExpect == 0 {
        FlushPending();
        SendBlock(mode == Finishing);
      } else if stage.nblock >= stage.nblockMAX {
        FullBlock();
        SendBlock(false);
      } else if |strm.input| == 0 {
        stop := true;
      }
    }

    /** The output half of the loop; it falls through to the input half unless it stops. */
    method OutputStep() returns (progress: bool, stop: bool)
      requires Ready() && state == OutputState && InStep() && mode != Stopped
      modifies this`stateOutPos, this`blockNo, this`gone, this`state, strm`availOut, strm`output
      modifies stage`nblock, stage`blockCRC, stage`spans, stage.inUse, writer`zbits
      ensures Ready() && (Drained() <==> old(Drained()))
      ensures Wrote(old(strm.output), old(strm.availOut), old(Emitted()), strm.output, strm.availOut, Emitted())
      ensures progress == (strm.output != old(strm.output))
      ensures !stop ==> state == InputState && !Drained()
      ensures stop && state == OutputState ==> (stateOutPos < |writer.zbits| && strm.availOut == 0) || (mode == Finishing && Drained() && stateOutPos == |writer.zbits|)
      ensures stop && state == InputState ==> mode == Flushing && Drained()
    {
      hide SentOk, TakenOk, RunStage.Valid;
      progress := CopyOutput();
      stop := true;
      if stateOutPos < |writer.zbits| { return; }
      if mode == Finishing && availInExpect == 0 && stage.Empty() { return; }
      PrepareNewBlock();
      if mode == Flushing && availInExpect == 0 && stage.Empty() { return; }
      stop := false;
    }

    /** handle_compress. It terminates: each turn uses up input, or settles what is pending, or stops. */
    method HandleCompress() returns (progress: bool)
      requires Ready() && InStep() && mode != Stopped
      modifies this`taken, this`availInExpect, this`state, this`combinedCRC, this`es, this`datas, this`closed
      modifies this`stateOutPos, this`blockNo, this`gone, strm
      modifies stage`nblock, stage`blockCRC, stage`spans, stage`chIn, stage`lenIn, stage.block, stage.inUse
      modifies writer, arr1.words, mtfFreq
      ensures Ready() && InStep()
      ensures Took(old(strm.input), old(taken), strm.input, taken)
      ensures Wrote(old(strm.output), old(strm.availOut), old(Emitted()), strm.output, strm.availOut, Emitted())
      ensures progress == (strm.input != old(strm.input) || strm.output != old(strm.output))
      ensures state == OutputState ==> (stateOutPos < |writer.zbits| && strm.availOut == 0) || (mode == Finishing && Drained() && stateOutPos == |writer.zbits|)
      ensures state == InputState ==> (mode == Running && strm.input == []) || (mode == Flushing && Drained())
      ensures old(state) == InputState && old(mode) != Running ==> progress || Drained()
      ensures Short(es, level) <= old(Short(es, level)) + (if mode != Running then 1 else 0)
    {
      hide *;
      var progressIn, progressOut := false, false;
      ghost var in0, taken0, out0, room0, em0 := strm.input, taken, strm.output, strm.availOut, Emitted();
      NothingYet(in0, taken0, out0, room0, em0);
      while true
        invariant Ready() && InStep() && Took(in0, taken0, strm.input, taken)
        invariant Wrote(out0, room0, em0, strm.output, strm.availOut, Emitted())
        invariant progressIn == (strm.input != in0) && progressOut == (strm.output != out0)
        invariant old(state) == InputState && mode != Running && state == OutputState ==> progressIn || Drained()
        invariant Short(es, level) <= old(Short(es, level)) + (if state == OutputState && Drained() then 1 else 0)
        decreases |strm.input|, if Drained() then 0 else 1, if state == InputState then 1 else 0
      {
        if state == OutputState {
          ghost var out1, room1, em1 := strm.output, strm.availOut, Emitted();
          var p, stop := OutputStep();
          WroteMore(out0, room0, em0, out1, room1, em1, strm.output, strm.availOut, Emitted());
          progressOut := progressOut || p;
          if stop { break; }
        }
        ghost var in1, taken1 := strm.input, taken;
        NotWhileRunning();
        var p, stop := InputStep();
        NotWhileRunning();
        TookMore(in0, taken0, in1, taken1, strm.input, taken);
        progressIn := progressIn || p;
        if stop { break; }
      }
      progress := progressIn || progressOut;
      NotWhileRunning();
    }

    lemma NotWhileRunning()
      ensures mode == Running ==> !Drained()
    {
    }

    /** The trailer has been written, and no input and no room are left; or there is nothing to deliver. */
    ghost predicate Stuck()
      reads `closed, `stateOutPos, writer`zbits, strm
    {
      closed && strm.input == [] && (strm.availOut == 0 || stateOutPos == |writer.zbits|)
    }

    /** Something announced for the flush or finish is still to be taken, coded or delivered. */
    ghost predicate Owing()
      reads `availInExpect, `stateOutPos, writer`zbits, stage`chIn, stage`lenIn
    {
      availInExpect > 0 || !stage.Empty() || stateOutPos < |writer.zbits|
    }

    /** Input or output has moved. */
    ghost predicate Moved(input: seq<Byte>, output: seq<Byte>)
      reads strm
    {
      strm.input != input || strm.output != output
    }

    /** BZ2_bzCompress while flushing: done once all announced input is in sent blocks and delivered. */
    method Flush() returns (ret: Ret)
      requires Ready() && mode == Flushing
      modifies this`mode, this`taken, this`availInExpect, this`state, this`combinedCRC, this`es, this`datas, this`closed
      modifies this`stateOutPos, this`blockNo, this`gone, strm
      modifies stage`nblock, stage`blockCRC, stage`spans, stage`chIn, stage`lenIn, stage.block, stage.inUse
      modifies writer, arr1.words, mtfFreq
      ensures Ready() && Took(old(strm.input), old(taken), strm.input, taken)
      ensures Wrote(old(strm.output), old(strm.availOut), old(Emitted()), strm.output, strm.availOut, Emitted())
      ensures !old(InStep()) ==> ret == SequenceError && mode == Flushing && !Moved(old(strm.input), old(strm.output))
      ensures old(InStep()) ==> ret == (if Owing() then FlushOk else RunOk) && mode == (if Owing() then Flushing else Running)
      ensures ret == FlushOk ==> InStep() && strm.availOut == 0 && state == OutputState && stateOutPos < |writer.zbits|
      ensures ret == RunOk ==> state == InputState && strm.input == [] && taken == Flat(datas)
      ensures Short(es, level) <= old(Short(es, level)) + 1
    {
      hide SentOk, RunStage.Valid, Took, Wrote, Short;
      NothingYet(strm.input, taken, strm.output, strm.availOut, Emitted());
      if availInExpect != |strm.input| { return SequenceError; }
      var progress := HandleCompress();
      if availInExpect > 0 || !stage.Empty() || stateOutPos < |writer.zbits| { return FlushOk; }
      mode := Running;
      FlushedAll(Flat(datas));
      return RunOk;
    }

    /** BZ2_bzCompress while finishing. */
    method Finish() returns (ret: Ret)
      requires Ready() && mode == Finishing
      modifies this`mode, this`taken, this`availInExpect, this`state, this`combinedCRC, this`es, this`datas, this`closed
      modifies this`stateOutPos, this`blockNo, this`gone, strm
      modifies stage`nblock, stage`blockCRC, stage`spans, stage`chIn, stage`lenIn, stage.block, stage.inUse
      modifies writer, arr1.words, mtfFreq
      ensures Ready() && Took(old(strm.input), old(taken), strm.input, taken)
      ensures Wrote(old(strm.output), old(strm.availOut), old(Emitted()), strm.output, strm.availOut, Emitted())
      ensures !old(InStep()) ==> ret == SequenceError && mode == Finishing && !Moved(old(strm.input), old(strm.output))
      ensures old(InStep()) ==>
        ret == (if !Moved(old(strm.input), old(strm.output)) then SequenceError else if Owing() then FinishOk else StreamEnd)
      ensures mode == (if ret == StreamEnd then Stopped else Finishing)
      ensures ret == FinishOk ==> InStep() && strm.availOut == 0 && state == OutputState && stateOutPos < |writer.zbits|
      ensures ret == StreamEnd ==> strm.input == []
      ensures ret == SequenceError && old(state == InputState && InStep()) ==> Stuck()
      ensures Short(es, level) <= old(Short(es, level)) + 1
    {
      hide SentOk, TakenOk, RunStage.Valid, Took, Wrote, Short;
      NothingYet(strm.input, taken, strm.output, strm.availOut, Emitted());
      if availInExpect != |strm.input| { return SequenceError; }
      var progress := HandleCompress();
      if !progress { return SequenceError; }
      if availInExpect > 0 || !stage.Empty() || stateOutPos < |writer.zbits| { return FinishOk; }
      mode := Stopped;
      return StreamEnd;
    }

    /** The actions that a mode admits. */
    static predicate Suits(mode: Mode, action: Action) {
      match mode
      case Stopped => false
      case Running => action != Unknown
      case Flushing => action == DoFlush
      case Finishing => action == DoFinish
    }

    /** BZ2_bzCompress: every mode and every action, with its answer, the mode it leaves and what has moved.
        A flush or finish under way is refused, too, if the input is not what was announced. */
    method Compress(action: Action) returns (ret: Ret)
      requires Ready()
      modifies this`mode, this`taken, this`availInExpect, this`state, this`combinedCRC, this`es, this`datas, this`closed
      modifies this`stateOutPos, this`blockNo, this`gone, strm
      modifies stage`nblock, stage`blockCRC, stage`spans, stage`chIn, stage`lenIn, stage.block, stage.inUse
      modifies writer, arr1.words, mtfFreq
      ensures Ready() && Took(old(strm.input), old(taken), strm.input, taken)
      ensures Wrote(old(strm.output), old(strm.availOut), old(Emitted()), strm.output, strm.availOut, Emitted())
      ensures !Suits(old(mode), action) || !old(InStep()) ==>
        && ret == (if old(mode) == Running then ParamError else SequenceError)
        && mode == old(mode) && !Moved(old(strm.input), old(strm.output))
      ensures Suits(old(mode), action) && old(InStep()) && action == DoRun ==>
        && ret == (if Moved(old(strm.input), old(strm.output)) then RunOk else ParamError)
        && mode == Running && (strm.input == [] || strm.availOut == 0)
      ensures Suits(old(mode), action) && old(InStep()) && action == DoFlush ==>
        && ret == (if Owing() then FlushOk else RunOk) && mode == (if Owing() then Flushing else Running)
        && (if Owing() then InStep() && strm.availOut == 0 && state == OutputState && stateOutPos < |writer.zbits|
            else state == InputState && strm.input == [] && taken == Flat(datas))
      ensures Suits(old(mode), action) && old(InStep()) && action == DoFinish ==>
        && ret == (if !Moved(old(strm.input), old(strm.output)) then SequenceError else if Owing() then FinishOk else StreamEnd)
        && mode == (if ret == StreamEnd then Stopped else Finishing)
        && (ret == FinishOk ==> InStep() && strm.availOut == 0 && state == OutputState && stateOutPos < |writer.zbits|)
        && (ret == StreamEnd ==> strm.input == [])
        && (ret == SequenceError && old(state) == InputState ==> Stuck())
      ensures Short(es, level) <= old(Short(es, level)) + (if action == DoRun then 0 else 1)
    {
      hide Valid, Took, Wrote, Owing, Short;
      NothingYet(strm.input, taken, strm.output, strm.availOut, Emitted());
      if mode == Stopped { return SequenceError; }
      if mode == Running {
        if action == DoRun {
          var progress := HandleCompress();
          return if progress then RunOk else ParamError;
        } else if action == DoFlush || action == DoFinish {
          Begin(if action == DoFlush then Flushing else Finishing);
        } else {
          return ParamError;
        }
      }
      if mode == Flushing {
        if action != DoFlush { return SequenceError; }
        ret := Flush();
      } else {
        if action != DoFinish { return SequenceError; }
        ret := Finish();
      }
    }

    /** From running to flushing or finishing: what is in the input buffer now is what is to be taken. */
    method Begin(next: Mode)
      requires Ready() && mode == Running && (next == Flushing || next == Finishing)
      modifies `mode, `availInExpect
      ensures Ready() && mode == next && InStep()
    {
      hide SentOk, TakenOk, RunStage.Valid;
      availInExpect := |strm.input|;
      mode := next;
    }
  }

  lemma ShortAppend(es: seq<Encoding>, e: Encoding, level: nat)
    ensures Short(es + [e], level) == Short(es, level) + (if ColumnSize(e) < 100000 * level - 19 then 1 else 0)
  {
    hide ColumnSize;
    assert (es + [e])[..|es|] == es;
  }

  lemma FlushedAll(a: seq<Byte>)
    ensures a + [] == a
    ensures forall x: Byte :: Repeat(x, 0) == []
  {
  }

  lemma NoSpans(spans: seq<Span>, b: seq<Byte>)
    requires Apart(spans) && b == Coded(spans)
    ensures b == [] ==> spans == []
  {
    FirstCoded(spans);
  }

  /** The input in the block, seen after the block has been sent. */
  lemma FlatMore(datas: seq<seq<Byte>>, spans: seq<Span>, some: bool)
    requires !some ==> spans == []
    ensures Flat(datas + (if some then [Plain(spans)] else [])) == Flat(datas) + Plain(spans)
  {
    if some {
      FlatAppend(datas, Plain(spans));
    } else {
      assert datas + [] == datas;
      assert Flat(datas) + Plain(spans) == Flat(datas);
    }
  }

  lemma BlockCrcIs(c: bv32, data: seq<Byte>)
    requires c == Fold(INIT, data)
    ensures Finalise(c) == Crc(data)
  {
  }

  lemma NoBitsYet(a: seq<Bit>, b: seq<Bit>, level: nat)
    requires a + b == []
    ensures a == [] && b == []
    ensures BlocksBits([], level) == [] && HeaderBits(if 1 <= level <= 9 then level else 1) + [] == HeaderBits(if 1 <= level <= 9 then level else 1)
  {
  }

  lemma TookFirst(all: seq<Byte>, before: seq<Byte>, input: seq<Byte>, taken: seq<Byte>)
    requires Took(all, before, input, taken) && input != []
    ensures Took(all, before, input[1..], taken + [input[0]]) && |input[1..]| < |all|
  {
    var k := |all| - |input|;
    assert all[..k + 1] == all[..k] + [all[k]];
    assert before + (all[..k] + [all[k]]) == before + all[..k] + [all[k]];
  }
}

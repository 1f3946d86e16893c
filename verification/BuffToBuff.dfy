/** BZ2_bzBuffToBuffCompress and BZ2_bzBuffToBuffDecompress (bzlib.c): whole streams in single calls. */
module BuffToBuff {
  import opened Basics
  import opened BitStrings
  import opened Streams
  import opened StreamFormat
  import opened RoundTrip
  import BlockRoom
  import Compressor
  import Decoder
  import Decompressor
  import DecompressStream
  import StreamSize

  datatype Ret = Ok | ParamError | OutbuffFull | UnexpectedEof | SequenceError | Failed(error: Decoder.Error)

  /** What a byte string decodes to, and what its continuations do: a decision, once made, stands. */
  lemma Onward(consumed: seq<Byte>, whole: seq<Byte>)
    requires consumed <= whole
    ensures DecompressStream.Decoded(consumed).out <= DecompressStream.Decoded(whole).out
    ensures !DecompressStream.Decoded(consumed).verdict.More? ==> DecompressStream.Decoded(whole) == DecompressStream.Decoded(consumed)
  {
    hide DecodeBits;
    var rest := whole[|consumed|..];
    assert whole == consumed + rest;
    ByteBitsConcat(consumed, rest);
    DecodeConcat(Decoder.Magic(1), ByteBits(consumed), ByteBits(rest), 0);
  }

  /** Input taken from the front of what is left keeps to the whole. */
  lemma StillPrefix(input0: seq<Byte>, consumed0: seq<Byte>, input: seq<Byte>, consumed: seq<Byte>)
    requires Took(input0, consumed0, input, consumed)
    ensures consumed <= consumed0 + input0 && consumed + input == consumed0 + input0
    ensures input == [] ==> consumed == consumed0 + input0
  {
    var k := |input0| - |input|;
    assert input0 == input0[..k] + input0[k..];
    Assoc(consumed0, input0[..k], input0[k..]);
  }

  /** A decompressor in any state between calls, given all that is left of a finished stream and room
      for all that is left of its text, ends it in one call. */
  method FinishStream(c: Compressor.EState, d: DecompressStream.DState) returns (ret: Decompressor.Ret)
    requires c.Ready() && c.mode == Compressor.Stopped && d.Sound() && !d.refused
    requires d.consumed + d.strm.input == c.Emitted() && |c.taken| <= |d.made| + d.strm.availOut
    requires !(d.parser.ctl.Early? && d.parser.ctl.d.Idle?)
    modifies d.strm, d`consumed, d`made, d`combined, d`refused
    modifies d.reader, d.parser`ctl, d.parser.builder, d.parser.builder.tt, d.parser.builder.ll.ll16, d.parser.builder.ll.ll4
    modifies d.parser.builder.unzftab, d.parser.builder.list, d.parser.builder.list.mtfa, d.parser.builder.list.mtfbase
    modifies d.parser.cftab, d.parser.cftabCopy, d.parser.fast, d.parser.fast.block, d.parser.slow, d.parser.slow.block
    ensures ret == Decompressor.StreamEnd && d.made == old(c.taken)
  {
    hide *;
    ghost var whole, all := c.Emitted(), c.taken;
    StreamRoundTrip(c);
    DecompressStream.Unfold(whole);
    ghost var in0, consumed0, out0, room0, made0 := d.strm.input, d.consumed, d.strm.output, d.strm.availOut, d.made;
    ret := d.Decompress();
    d.MadeFirst();
    d.TotalIs();
    d.RoomKept();
    StillPrefix(in0, consumed0, d.strm.input, d.consumed);
    Onward(d.consumed, whole);
    RoomLeft(out0, room0, made0, d.strm.output, d.strm.availOut, d.made);
    if ret == Decompressor.Ok && d.NoRoom() {
      Longest(d.made, DecompressStream.Decoded(d.consumed).out, all);
    }
  }

  lemma RoomLeft(out0: seq<Byte>, room0: nat, made0: seq<Byte>, out: seq<Byte>, room: nat, made: seq<Byte>)
    requires Wrote(out0, room0, made0, out, room, made)
    ensures |made| + room == |made0| + room0 && made == made0 + out[|out0|..] && out0 <= out
  {
  }

  lemma Longest(made: seq<Byte>, out: seq<Byte>, all: seq<Byte>)
    requires made <= out <= all
    ensures |all| <= |made| ==> made == out == all
    ensures made == all ==> made == out == all
    ensures |made| < |out| ==> |made| < |all|
  {
  }

  /** BZ2_bzBuffToBuffCompress. What it returns as a stream decodes to the source. With nothing to
      compress and no room at all it reports a wrong sequence of calls, not a full buffer. A full buffer holds
      part of a stream, and a buffer of four bytes for each of the source and 8000 more is never full. */
  method Compress(source: seq<Byte>, destLen: nat, blockSize100k: int, verbosity: int, workFactor: int) returns (ret: Ret, dest: seq<Byte>)
    ensures ret == ParamError <==> !(1 <= blockSize100k <= 9 && 0 <= verbosity <= 4 && 0 <= workFactor <= 250)
    ensures ret == ParamError ==> dest == []
    ensures ret == Ok || ret == OutbuffFull || ret == SequenceError || ret == ParamError
    ensures |dest| <= destLen
    ensures ret == Ok ==> DecompressStream.Decoded(dest) == Decoding(source, End)
    ensures ret == OutbuffFull ==> |dest| == destLen && DecompressStream.Decoded(dest).verdict.More?
    ensures ret != ParamError && destLen >= 4 * |source| + 8000 ==> ret == Ok
    ensures ret != ParamError ==> (ret == SequenceError <==> source == [] && destLen == 0)
  {
    hide *;
    if blockSize100k < 1 || blockSize100k > 9 || verbosity < 0 || verbosity > 4 || workFactor < 0 || workFactor > 250 {
      return ParamError, [];
    }
    var strm := new BzStream(source, destLen);
    var c := new Compressor.EState(strm, blockSize100k, if workFactor == 0 then 30 else workFactor);
    NothingEmitted(c);
    NoneShort(c);
    FinishSuits(c);
    var r := c.Compress(Compressor.DoFinish);
    MovedIs(c, source, []);
    StillPrefix(source, [], strm.input, c.taken);
    assert [] + source == source;
    RoomLeft([], destLen, [], strm.output, strm.availOut, c.Emitted());
    dest := strm.output;
    assert dest == c.Emitted();
    if r == Compressor.StreamEnd {
      ret := Ok;
      StreamRoundTrip(c);
      DecompressStream.Unfold(dest);
    } else if r == Compressor.FinishOk {
      ret := OutbuffFull;
      NeverEarly(c);
      DecompressStream.Unfold(dest);
      PartEmitted(c);
      StreamSize.StreamLength(c);
    } else {
      ret := SequenceError;
      StuckMeans(c);
    }
  }

  lemma NothingEmitted(c: Compressor.EState)
    requires c.gone == [] && c.stateOutPos == 0
    ensures c.Emitted() == []
  {
  }

  lemma NoneShort(c: Compressor.EState)
    requires c.es == []
    ensures BlockRoom.Short(c.es, c.level) == 0
  {
  }

  lemma PartEmitted(c: Compressor.EState)
    requires c.Ready() && c.stateOutPos < |c.writer.zbits|
    ensures c.Valid() && |c.Emitted()| < |c.gone + c.writer.zbits|
  {
  }

  lemma FinishSuits(c: Compressor.EState)
    requires c.mode == Compressor.Running
    ensures Compressor.EState.Suits(c.mode, Compressor.DoFinish) && c.InStep()
  {
  }

  lemma MovedIs(c: Compressor.EState, input: seq<Byte>, output: seq<Byte>)
    ensures c.Moved(input, output) <==> c.strm.input != input || c.strm.output != output
  {
  }

  lemma StuckMeans(c: Compressor.EState)
    requires c.Ready() && c.Stuck() && c.Emitted() == []
    ensures c.strm.input == [] && c.strm.availOut == 0
  {
    SomethingWritten(c);
  }

  /** BZ2_bzBuffToBuffDecompress. Every return code is decided by what the source decodes to and by the
      room; only a broken text longer than the room leaves two of them open. */
  method Decompress(source: seq<Byte>, destLen: nat, small: int, verbosity: int) returns (ret: Ret, dest: seq<Byte>)
    ensures ret == ParamError <==> !(0 <= small <= 1 && 0 <= verbosity <= 4)
    ensures ret == ParamError ==> dest == []
    ensures |dest| <= destLen && dest <= DecompressStream.Decoded(source).out
    ensures ret != ParamError ==>
      var whole := DecompressStream.Decoded(source);
      && (ret == Ok <==> whole.verdict == End && |whole.out| <= destLen)
      && (ret == Ok ==> dest == whole.out)
      && (ret == UnexpectedEof <==> whole.verdict.More? && |whole.out| < destLen)
      && (ret == UnexpectedEof ==> dest == whole.out)
      && (ret.Failed? ==> whole.verdict == StreamFormat.Error(ret.error))
      && (whole.verdict.Error? && |whole.out| < destLen ==> ret.Failed?)
      && (ret == OutbuffFull ==> |dest| == destLen)
      && ret != SequenceError
  {
    hide *;
    if !(0 <= small <= 1) || verbosity < 0 || verbosity > 4 {
      return ParamError, [];
    }
    var strm := new BzStream(source, destLen);
    var d := new DecompressStream.DState(strm, small == 1);
    var r := d.Decompress();
    d.MadeFirst();
    d.TotalIs();
    d.RoomKept();
    StillPrefix(source, [], strm.input, d.consumed);
    assert [] + source == source;
    Onward(d.consumed, source);
    RoomLeft([], destLen, [], strm.output, strm.availOut, d.made);
    dest := strm.output;
    assert dest == d.made;
    Longest(dest, d.Total().out, DecompressStream.Decoded(source).out);
    match r
    case Ok => ret := if strm.availOut > 0 then UnexpectedEof else OutbuffFull;
    case StreamEnd => ret := Ok;
    case SequenceError => ret := SequenceError;
    case Refused(e) => ret := Failed(e);
    case Beyond(e) => ret := Failed(e);
  }

  /** One call there and one back: a source that has been packed is unpacked to itself, by both decoders,
      with no more room than it needs. */
  method ThereAndBack(source: seq<Byte>, destLen: nat, blockSize100k: int, workFactor: int, small: int)
    returns (packing: Ret, packed: seq<Byte>, unpacking: Ret, unpacked: seq<Byte>)
    requires 0 <= small <= 1
    ensures packing == Ok ==> |packed| <= destLen && unpacking == Ok && unpacked == source
  {
    hide *;
    packing, packed := Compress(source, destLen, blockSize100k, 0, workFactor);
    unpacking, unpacked := Decompress(packed, |source|, small, 0);
  }
}

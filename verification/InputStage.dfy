/** The compressor's run-length stage (bzlib.c): prepare_new_block, add_pair_to_block,
    ADD_CHAR_TO_BLOCK and flush_RL over the block buffer, the used-byte map and the block checksum. */
module InputStage {
  import opened Basics
  import opened Mtf
  import opened RunLength
  import opened BlockCrc

  class RunStage {
    const level: nat
    const block: array<Byte>
    const inUse: array<bool>
    var nblock: nat
    var chIn: nat          // state_in_ch: 256 when no run is pending
    var lenIn: nat         // state_in_len
    var blockCRC: bv32
    ghost var spans: seq<Span>

    const nblockMAX: int := 100000 * level - 19

    ghost predicate Shape()
      reads {}
    {
      1 <= level <= 9 && block.Length == 100000 * level + 34 && inUse.Length == 256
    }

    /** The block holds exactly the runs taken in, the map its bytes, the register their checksum. */
    ghost predicate Filled()
      reads this, block, inUse
    {
      && Shape() && nblock <= 100000 * level && Apart(spans)
      && block[..nblock] == Coded(spans)
      && (forall v :: 0 <= v < 256 ==> inUse[v] == (v in block[..nblock]))
      && blockCRC == Fold(INIT, Plain(spans))
    }

    predicate Empty()
      reads `chIn, `lenIn
    {
      !(chIn < 256 && lenIn > 0)
    }

    /** The run not yet in the block does not continue the block's last run. */
    ghost predicate PendingOk()
      reads `chIn, `lenIn, `spans
    {
      (chIn == 256 && lenIn == 0)
      || (chIn < 256 && 1 <= lenIn <= 255 && (spans != [] ==> Meets(spans[|spans| - 1], chIn)))
    }

    ghost predicate Valid()
      reads this, block, inUse
    {
      Filled() && PendingOk()
    }

    /** The block has not been flushed: it may take more input. */
    ghost predicate Open()
      reads `chIn, `spans
    {
      chIn < 256 || spans == []
    }

    function Pending(): (r: seq<Byte>)
      reads `chIn, `lenIn
    {
      if chIn < 256 then Repeat(chIn, lenIn) else []
    }

    /** The input bytes taken in since the block was started, or carried over into it. */
    ghost function Absorbed(): (r: seq<Byte>)
      reads `spans, `chIn, `lenIn
    {
      Plain(spans) + Pending()
    }

    constructor (level: nat)
      requires 1 <= level <= 9
      ensures Valid() && Open() && this.level == level && Absorbed() == [] && nblock == 0 && Empty()
      ensures chIn == 256 && lenIn == 0 && spans == []
      ensures fresh(block) && fresh(inUse)
    {
      this.level := level;
      block := new Byte[100000 * level + 34];
      inUse := new bool[256](_ => false);
      nblock, chIn, lenIn, blockCRC, spans := 0, 256, 0, INIT, [];
      new;
      assert block[..0] == [];
    }

    /** prepare_new_block: a pending run is carried over into the new block. */
    method PrepareNewBlock()
      requires Valid()
      modifies this`nblock, this`blockCRC, this`spans, inUse
      ensures Valid() && Open() && nblock == 0 && spans == [] && Absorbed() == old(Pending())
    {
      nblock := 0;
      blockCRC := INIT;
      forall v | 0 <= v < 256 { inUse[v] := false; }
      spans := [];
      assert block[..0] == [];
      assert [] + Pending() == Pending();
    }

    /** init_RL. */
    method InitRL()
      requires Filled()
      modifies `chIn, `lenIn
      ensures Valid() && Pending() == [] && Empty()
    {
      chIn, lenIn := 256, 0;
    }

    method Put(x: Byte)
      requires nblock < block.Length
      modifies `nblock, block
      ensures nblock == old(nblock) + 1 && block[..nblock] == old(block[..nblock]) + [x]
    {
      block[nblock] := x;
      nblock := nblock + 1;
    }

    method PutRun(x: Byte, n: nat)
      requires nblock + n <= block.Length
      modifies `nblock, block
      ensures nblock == old(nblock) + n && block[..nblock] == old(block[..nblock]) + Repeat(x, n)
    {
      for i := 0 to n
        invariant nblock == old(nblock) + i && block[..nblock] == old(block[..nblock]) + Repeat(x, i)
      {
        Put(x);
        assert Repeat(x, i + 1) == Repeat(x, i) + [x];
      }
    }

    method UpdateRun(x: Byte, n: nat)
      modifies `blockCRC
      ensures blockCRC == Fold(old(blockCRC), Repeat(x, n))
    {
      hide Update;
      assert Repeat(x, 0) == [];
      for i := 0 to n
        invariant blockCRC == Fold(old(blockCRC), Repeat(x, i))
      {
        assert Repeat(x, i + 1) == Repeat(x, i) + [x];
        FoldOne(old(blockCRC), Repeat(x, i), x);
        blockCRC := Update(blockCRC, x);
      }
    }

    /** add_pair_to_block: the pending run moves into the block. */
    method AddPair()
      requires Valid() && chIn < 256 && nblock + 5 <= 100000 * level
      modifies this`nblock, this`blockCRC, this`spans, block, inUse
      ensures Filled() && nblock <= old(nblock) + 5
      ensures spans == old(spans) + [Span(chIn, lenIn)]
      ensures Plain(spans) == old(Absorbed())
    {
      hide *;
      PairStart();
      ghost var s, before, marks := Span(chIn, lenIn), block[..nblock], inUse[..];
      UpdateRun(chIn, lenIn);
      FoldConcat(INIT, Plain(spans), Repeat(chIn, lenIn));
      CopyPair();
      AppendSpan(spans, s);
      AppendApart(spans, s);
      Marked(marks, before, s, inUse[..]);
      spans := spans + [s];
      PairDone();
    }

    /** What Valid says of the pending run. */
    lemma PairStart()
      requires Valid() && chIn < 256
      ensures Shape() && inUse.Length == 256 && block.Length == 100000 * level + 34 && nblock <= 100000 * level
      ensures SpanOk(Span(chIn, lenIn)) && 1 <= lenIn <= 255 && forall i :: 0 <= i < |spans| ==> SpanOk(spans[i])
      ensures Apart(spans) && (spans != [] ==> Meets(spans[|spans| - 1], chIn)) && block[..nblock] == Coded(spans)
      ensures forall v :: 0 <= v < 256 ==> inUse[v] == (v in block[..nblock])
      ensures blockCRC == Fold(INIT, Plain(spans)) && Absorbed() == Plain(spans) + Repeat(chIn, lenIn)
    {
      hide Fold, Coded, Plain, Repeat;
    }

    lemma PairDone()
      requires Shape() && nblock <= 100000 * level && Apart(spans) && block[..nblock] == Coded(spans)
      requires forall v :: 0 <= v < 256 ==> inUse[v] == (v in block[..nblock])
      requires blockCRC == Fold(INIT, Plain(spans))
      ensures Filled()
    {
      hide Fold, Coded, Plain, Apart;
    }

    /** The switch of add_pair_to_block: up to four bytes of the run, and the count of the rest. */
    method CopyPair()
      requires chIn < 256 && 1 <= lenIn <= 255 && SpanOk(Span(chIn, lenIn)) && nblock + 5 <= block.Length && inUse.Length == 256
      modifies `nblock, block, inUse
      ensures nblock <= old(nblock) + 5 && block[..nblock] == old(block[..nblock]) + Pair(Span(chIn, lenIn))
      ensures forall v :: 0 <= v < 256 ==> inUse[v] == (old(inUse[v]) || v == chIn || (lenIn >= 4 && v == lenIn - 4))
    {
      hide Repeat, Pair;
      PairBytes(Span(chIn, lenIn));
      inUse[chIn] := true;
      if lenIn < 4 {
        PutRun(chIn, lenIn);
      } else {
        inUse[lenIn - 4] := true;
        PutRun(chIn, 4);
        Put(lenIn - 4);
        Assoc(old(block[..nblock]), Repeat(chIn, 4), [lenIn - 4 as Byte]);
      }
    }

    /** flush_RL. */
    method FlushRL()
      requires Valid() && nblock + 5 <= 100000 * level
      modifies this`nblock, this`blockCRC, this`spans, this`chIn, this`lenIn, block, inUse
      ensures Valid() && nblock <= old(nblock) + 5
      ensures Plain(spans) == old(Absorbed()) == Absorbed() && Empty()
    {
      hide Fold, Coded, Plain, Repeat;
      if chIn < 256 { AddPair(); }
      InitRL();
      assert Plain(spans) + [] == Plain(spans);
    }

    /** ADD_CHAR_TO_BLOCK. The fast track takes a run of one straight into the block. */
    method AddChar(x: Byte)
      requires Valid() && Open() && nblock < nblockMAX
      modifies this`nblock, this`blockCRC, this`spans, this`chIn, this`lenIn, block, inUse
      ensures Valid() && Open() && nblock <= old(nblock) + 5 && !Empty()
      ensures Absorbed() == old(Absorbed()) + [x]
    {
      hide Fold, Update, Coded, Plain, Repeat;
      OneByte(x);
      if x != chIn && lenIn == 1 {
        AddSingle();
        chIn := x;
        assert Absorbed() == Plain(spans) + [x];
      } else if x != chIn || lenIn == 255 {
        if chIn < 256 { AddPair(); }
        chIn, lenIn := x, 1;
        assert Plain(spans) + [] == Plain(spans);
        assert Absorbed() == Plain(spans) + [x];
      } else {
        OneMore(x, lenIn);
        assert Plain(spans) + Repeat(x, lenIn) + [x] == Plain(spans) + (Repeat(x, lenIn) + [x]);
        lenIn := lenIn + 1;
      }
    }

    /** The fast track's own copy of add_pair_to_block, for a run of one. */
    method AddSingle()
      requires Valid() && chIn < 256 && lenIn == 1 && nblock < nblockMAX
      modifies this`nblock, this`blockCRC, this`spans, block, inUse
      ensures Filled() && nblock <= old(nblock) + 5
      ensures spans == old(spans) + [Span(chIn, 1)]
      ensures Plain(spans) == old(Absorbed())
    {
      hide Fold, Update, Coded, Plain, Repeat;
      ghost var s, before, marks := Span(chIn, 1), block[..nblock], inUse[..];
      OneByte(chIn);
      FoldOne(INIT, Plain(spans), chIn);
      blockCRC := Update(blockCRC, chIn);
      inUse[chIn] := true;
      Put(chIn);
      AppendSpan(spans, s);
      AppendApart(spans, s);
      PairBytes(s);
      forall v | 0 <= v < 256 ensures inUse[v] == (v in block[..nblock]) {
        assert marks[v] == (v in before);
        assert v in before + Pair(s) <==> v in before || v in Pair(s);
      }
      spans := spans + [s];
    }
  }

  lemma OneByte(x: Byte)
    ensures Repeat(x, 1) == [x] && Pair(Span(x, 1)) == [x]
  {
  }

  lemma OneMore(x: Byte, n: nat)
    ensures Repeat(x, n + 1) == Repeat(x, n) + [x]
  {
  }

  lemma AppendApart(spans: seq<Span>, s: Span)
    requires Apart(spans) && SpanOk(s) && (spans != [] ==> Meets(spans[|spans| - 1], s.ch))
    ensures Apart(spans + [s])
  {
  }

  /** The map once a run's bytes have been marked too. */
  lemma Marked(marks: seq<bool>, before: seq<Byte>, s: Span, now: seq<bool>)
    requires |marks| == |now| == 256 && SpanOk(s)
    requires forall v :: 0 <= v < 256 ==> marks[v] == (v in before)
    requires forall v :: 0 <= v < 256 ==> now[v] == (marks[v] || v == s.ch || (s.len >= 4 && v == s.len - 4))
    ensures forall v :: 0 <= v < 256 ==> now[v] == (v in before + Pair(s))
  {
    PairBytes(s);
    hide Pair, SpanOk;
    forall v | 0 <= v < 256 ensures now[v] == (v in before + Pair(s)) {
      assert v in before + Pair(s) <==> v in before || v in Pair(s);
    }
  }

  lemma PairBytes(s: Span)
    requires SpanOk(s)
    ensures forall v :: v in Pair(s) <==> v == s.ch || (s.len >= 4 && v == s.len - 4)
    ensures Pair(s) == if s.len < 4 then Repeat(s.ch, s.len) else Repeat(s.ch, 4) + [s.len - 4]
  {
    var r := Repeat(s.ch, if s.len < 4 then s.len else 4);
    assert r[0] == s.ch;
    assert forall v :: v in r <==> v == s.ch;
  }
}

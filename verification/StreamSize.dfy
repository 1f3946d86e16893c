/** How long a stream can get, from how much it stands for. */
module StreamSize {
  import opened Basics
  import opened BitStrings
  import opened Permutations
  import opened Ranks
  import opened Mtf
  import opened RunLength
  import opened Decoder
  import opened SymbolFormat
  import opened BlockEncoding
  import opened StreamFormat
  import opened BlockRoom
  import opened Compressor
  import BlockCrc
  import opened CompressBlock
  import opened OutputStage

  /** Every symbol but the end mark stands for at least one byte of the column. */
  lemma {:induction false} ColumnGrowth(u: Unmtf, used: seq<Byte>, syms: seq<int>)
    requires Ready(u, used, |used|) && u.weight >= 1 && forall k :: 0 <= k < |syms| ==> 0 <= syms[k] <= |used|
    ensures Extent(TakeAll(u, used, syms)) >= Extent(u) + |syms|
    decreases |syms|
  {
    hide Extent, Take;
    if syms != [] {
      OneSymbol(u, used, syms[0]);
      ColumnGrowth(Take(u, used, syms[0]), used, syms[1..]);
    }
  }

  lemma OneSymbol(u: Unmtf, used: seq<Byte>, sym: int)
    requires Ready(u, used, |used|) && u.weight >= 1 && 0 <= sym <= |used|
    ensures Take(u, used, sym).weight >= 1 && Extent(Take(u, used, sym)) >= Extent(u) + 1
  {
    TakeGrows(u, used, sym);
    hide Ready, MoveToFront;
    if sym == 0 || sym == 1 { assert (sym + 1) * u.weight >= u.weight; }
  }

  lemma SymbolsInColumn(e: Encoding, level: nat)
    requires Sendable(e, level)
    ensures |e.syms| <= ColumnSize(e) + 1 && ColumnSize(e) <= 100000 * level
  {
    hide CodesOk, UsedBytes, TakeAll, FreshList;
    SizeOf(e, level);
    var used := UsedBytes(e.inUse);
    FreshReady(used);
    ColumnGrowth(FreshList(), used, e.syms[..|e.syms| - 1]);
  }

  lemma FreshReady(used: seq<Byte>)
    requires 0 < |used| <= 256
    ensures Ready(FreshList(), used, |used|) && FreshList().weight == 1 && Extent(FreshList()) == 0
  {
  }

  /** Five bytes of a block stand for at least four. */
  lemma {:induction false} ExpandLong(w: seq<Byte>, n: nat, i: nat)
    requires |w| == n + 2 && i <= n && !Expand(w, n, i).broken
    ensures 4 * (n - i) <= 5 * |Expand(w, n, i).bytes|
    decreases n - i
  {
    if i < n {
      var r := RunAt(w, n, i);
      RunInside(w, n, i);
      hide RunAt;
      if r < 4 {
        RepeatLength(w[i], r);
        ExpandLong(w, n, i + r);
      } else {
        var count: nat := w[i + 4];
        RepeatLength(w[i], count + 4);
        if i + 5 <= n { ExpandLong(w, n, i + 5); }
      }
    }
  }

  lemma RunInside(w: seq<Byte>, n: nat, i: nat)
    requires |w| == n + 2 && i < n
    ensures 1 <= RunAt(w, n, i) <= 4 && i + RunAt(w, n, i) <= n
  {
  }

  lemma RepeatLength(x: Byte, n: nat)
    ensures |Repeat(x, n)| == n
  {
  }

  lemma TextLong(e: Encoding, level: nat, data: seq<Byte>)
    requires Holds(e, level, data)
    ensures 4 * ColumnSize(e) <= 5 * |data|
  {
    hide CodesOk, UsedBytes, ColumnOf, Expand, SymbolsOk;
    HeldIs(e, level, data);
    SizeOf(e, level);
    var col := ColumnOf(UsedBytes(e.inUse), e.syms);
    ExpandLong(Walked(col, Links(col), e.orig), |col|, 0);
  }

  lemma HeldIs(e: Encoding, level: nat, data: seq<Byte>)
    requires Holds(e, level, data)
    ensures Sendable(e, level) && |e.inUse| == 256 && SymbolsOk(e.syms, |UsedBytes(e.inUse)|)
    ensures var col := ColumnOf(UsedBytes(e.inUse), e.syms); e.orig < |col| && BlockText(col, e.orig) == Expansion(data, false)
  {
    hide CodesOk, UsedBytes, ColumnOf, SymbolsOk, BlockText;
  }

  /** A block's bits, from the bytes it stands for: 26 bits for each, and 60900 more if the block is short. */
  lemma BlockSize(e: Encoding, level: nat, data: seq<Byte>)
    requires Holds(e, level, data)
    ensures Sendable(e, level)
    ensures |BlockBits(e, level)| <= 26 * |data| + (if ColumnSize(e) < 100000 * level - 19 then 60900 else 0)
  {
    hide *;
    HeldIs(e, level, data);
    SymbolsInColumn(e, level);
    TextLong(e, level, data);
    BlockLength(e, level, ColumnSize(e));
    LevelRange(e, level);
  }

  lemma {:induction false} BlocksSize(es: seq<Encoding>, level: nat, datas: seq<seq<Byte>>)
    requires AllHold(es, level, datas)
    ensures AllSendable(es, level)
    ensures |BlocksBits(es, level)| <= 26 * |Flat(datas)| + 60900 * Short(es, level)
    decreases |es|
  {
    hide Holds, Sendable, BlockBits, ColumnSize;
    if es != [] {
      var n := |es| - 1;
      BlocksSize(es[..n], level, datas[..n]);
      BlockSize(es[n], level, datas[n]);
      assert es == es[..n] + [es[n]] && datas == datas[..n] + [datas[n]];
      AllAreSendable(es, level, datas);
      BlocksAppend(es[..n], es[n], level);
      FlatAppend(datas[..n], datas[n]);
    }
  }

  lemma AllAreSendable(es: seq<Encoding>, level: nat, datas: seq<seq<Byte>>)
    requires AllHold(es, level, datas)
    ensures AllSendable(es, level)
  {
    forall k | 0 <= k < |es| ensures Sendable(es[k], level) {
      assert Holds(es[k], level, datas[k]);
    }
    hide Sendable;
  }

  /** All bytes of a stream so far, delivered or not: fewer than 4 for each byte of input, and 7612 more for
      each block sent before it was full. */
  lemma StreamLength(c: EState)
    requires c.Valid() && c.state == OutputState
    ensures 8 * |c.gone + c.writer.zbits| <= 119 + 26 * |c.taken| + 60900 * Short(c.es, c.level)
  {
    hide AllHold, AllSendable, ByteBits, Short, Bits, BlocksBits, HeaderBits;
    BlocksSize(c.es, c.level, c.datas);
    BytesLength(c.gone + c.writer.zbits);
    BytesLength([0x42, 0x5a, 0x68, 0x30 + c.level]);
    ByteBitsConcat(c.gone, c.writer.zbits);
    HeaderLength(c.level);
    if c.closed {
      var pad: nat :| pad < 8 && ByteBits(c.gone + c.writer.zbits) == StreamBits(c.es, c.level, c.combinedCRC) + Bits(pad, 0);
      FieldLength(pad, 0);
      TrailerLength(c.combinedCRC);
    } else {
      c.writer.ContentsLength();
    }
  }

  lemma HeaderLength(level: nat)
    requires 1 <= level <= 9
    ensures |HeaderBits(level)| == 32
  {
    hide ByteBits;
    BytesLength([0x42, 0x5a, 0x68, 0x30 + level]);
  }

  lemma TrailerLength(c: bv32)
    ensures |TrailerBits(BlockCrc.WordOf(c))| == 80
  {
    hide ByteBits, Bits, BlockCrc.WordOf;
    BytesLength(END_MARK);
    FieldLength(32, BlockCrc.WordOf(c));
    EndMarkLength();
  }

  lemma EndMarkLength()
    ensures |END_MARK| == 6
  {
  }
}

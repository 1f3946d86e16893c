/** How long a block can get: zbits lies behind the block in arr2 (compress.c), so what one call of
    BZ2_compressBlock writes has to fit the words that are left there. */
module BlockRoom {
  import opened Basics
  import opened BitStrings
  import opened Ranks
  import opened Canonical
  import opened Mtf
  import opened Decoder
  import opened BlockFormat
  import opened TableFormat
  import opened SymbolFormat
  import opened BlockEncoding

  /** How many bytes a block has. */
  ghost function ColumnSize(e: Encoding): (n: nat) {
    if |e.inUse| == 256 && SymbolsOk(e.syms, |UsedBytes(e.inUse)|) then |ColumnOf(UsedBytes(e.inUse), e.syms)| else 0
  }

  lemma SizeOf(e: Encoding, level: nat)
    requires Sendable(e, level)
    ensures ColumnSize(e) == |ColumnOf(UsedBytes(e.inUse), e.syms)|
  {
    hide UsedBytes, CodesOk, ColumnOf;
  }

  /** How many blocks were sent before they were full. */
  ghost function Short(es: seq<Encoding>, level: nat): (n: nat) {
    if es == [] then 0
    else Short(es[..|es| - 1], level) + (if ColumnSize(es[|es| - 1]) < 100000 * level - 19 then 1 else 0)
  }

  /** Bytes of arr2 behind a block of n bytes. */
  function Capacity(level: nat, n: nat): int { 4 * (100000 * level + 34) - n }

  lemma {:induction false} MembersLength(inUse: seq<bool>, g: nat)
    requires |inUse| == 256 && g <= 16
    ensures |MemberBits(inUse, g)| <= 16 * (16 - g)
    decreases 16 - g
  {
    if g < 16 { MembersLength(inUse, g + 1); }
  }

  lemma {:induction false} UnaryLength(j: nat)
    ensures |Unary(j)| == j + 1
  {
    if j > 0 { UnaryLength(j - 1); }
  }

  lemma {:induction false} SelectorsLength(mtf: seq<nat>)
    requires AllBelow(mtf, 6)
    ensures |SelectorBits(mtf)| <= 6 * |mtf|
  {
    if mtf != [] {
      UnaryLength(mtf[0]);
      SelectorsLength(mtf[1..]);
    }
  }

  lemma {:induction false} MovesLength(curr: nat, target: nat)
    requires 1 <= curr <= 20 && 1 <= target <= 20
    ensures |MoveBits(curr, target)| <= 38
    ensures |MoveBits(curr, target)| == 2 * (if curr < target then target - curr else curr - target)
    decreases if curr < target then target - curr else curr - target
  {
    if curr < target { MovesLength(curr + 1, target); }
    if curr > target { MovesLength(curr - 1, target); }
  }

  lemma {:induction false} LengthsLength(lens: seq<Byte>, curr: nat)
    requires Lengths(lens) && 1 <= curr <= 20
    ensures |LengthBits(lens, curr)| <= 39 * |lens|
  {
    if lens != [] {
      MovesLength(curr, lens[0]);
      LengthsLength(lens[1..], lens[0]);
    }
  }

  lemma {:induction false} TablesLength(lens: seq<seq<Byte>>)
    requires forall t :: 0 <= t < |lens| ==> Lengths(lens[t]) && 0 < |lens[t]| <= 258
    ensures |TablesBits(lens)| <= 10067 * |lens|
  {
    hide Bits;
    if lens != [] {
      LengthsLength(lens[0], lens[0][0]);
      FieldLength(5, lens[0][0]);
      TablesLength(lens[1..]);
    }
  }

  lemma {:induction false} SymbolsLength(selector: seq<nat>, lens: seq<seq<Byte>>, syms: seq<nat>, k: nat)
    requires |syms| <= 50 * |selector| && AllBelow(selector, |lens|) && k <= |syms|
    requires forall t, j :: 0 <= t < |lens| && 0 <= j < |syms| ==> syms[j] < |lens[t]|
    requires forall t :: 0 <= t < |lens| ==> Lengths(lens[t])
    ensures |SymbolBits(selector, lens, syms, k)| <= 20 * (|syms| - k)
    decreases |syms| - k
  {
    hide CodeBits;
    if k < |syms| {
      SymbolsLength(selector, lens, syms, k + 1);
      CodeLengths(lens[selector[k / 50]], syms[k]);
    }
  }

  lemma CodeLengths(lens: seq<Byte>, sym: nat)
    requires sym < |lens| && Lengths(lens)
    ensures |CodeBits(lens, sym)| <= 20
  {
  }

  lemma FrontLength(e: Encoding)
    ensures |FrontBits(e)| == 105
  {
    hide Bits, ByteBits;
    BytesLength(BLOCK_MARK);
    FieldLength(32, e.crc);
    FieldLength(24, e.orig);
  }

  lemma SelectorPartLength(e: Encoding)
    requires AllBelow(e.selector, |e.lens|) && |e.lens| <= 6
    ensures |SelectorPart(e)| <= 18 + 6 * |e.selector|
  {
    hide Bits, SelectorBits, MtfSelectors;
    var n := |e.lens|;
    FieldLength(3, n);
    FieldLength(15, |e.selector|);
    SelectorsInGroups(e.selector, n);
    MtfSelectorsBelow(e.selector, Groups(n));
    SelectorsLength(MtfSelectors(e.selector, Groups(n)));
  }

  lemma CodesLengths(e: Encoding)
    requires |e.inUse| == 256 && CodesOk(e)
    ensures forall t :: 0 <= t < |e.lens| ==> Lengths(e.lens[t]) && 0 < |e.lens[t]| <= 258
  {
    hide Used, UsedBytes;
  }

  /** The bits of a block of n bytes, which has at most n + 1 symbols. */
  lemma BlockLength(e: Encoding, level: nat, n: nat)
    requires Sendable(e, level) && |e.syms| <= n + 1 && n <= 100000 * level
    ensures |BlockBits(e, level)| <= 105 + 272 + 18 + 6 * ((n + 50) / 50) + 60402 + 20 * (n + 1)
  {
    hide *;
    SendableParts(e, level);
    CodesLengths(e);
    FrontLength(e);
    MembersLength(e.inUse, 0);
    SelectorPartLength(e);
    TablesLength(e.lens);
    SymbolsLength(e.selector, e.lens, e.syms, 0);
  }

  lemma SendableParts(e: Encoding, level: nat)
    requires Sendable(e, level)
    ensures |e.inUse| == 256 && CodesOk(e) && 2 <= |e.lens| <= 6 && AllBelow(e.selector, |e.lens|)
    ensures |e.selector| == (|e.syms| + 49) / 50 && |e.syms| <= 50 * |e.selector|
    ensures forall t, j :: 0 <= t < |e.lens| && 0 <= j < |e.syms| ==> e.syms[j] < |e.lens[t]|
    ensures |BlockBits(e, level)| == |FrontBits(e)| + 16 + |MemberBits(e.inUse, 0)| + |SelectorPart(e)| + |TablesBits(e.lens)|
                                     + |SymbolBits(e.selector, e.lens, e.syms, 0)|
  {
    PayloadFits(e);
    CodesCount(e);
    FlagsLength(e.inUse);
    hide FrontBits, MemberBits, BoolBits, SelectorPart, TablesBits, SymbolBits, UsedBytes, CodesOk, ColumnOf, SymbolsOk, AllBelow, Flags;
  }

  lemma FlagsLength(inUse: seq<bool>)
    requires |inUse| == 256
    ensures |BoolBits(Flags(inUse))| == 16
  {
  }

  /** With up to 32 bits left over from the block before, the stream header and the trailer, everything
      one call writes fits behind the block. */
  lemma BlockFits(e: Encoding, level: nat, n: nat)
    requires Sendable(e, level) && |e.syms| <= n + 1 && n <= 100000 * level
    ensures 32 + 32 + |BlockBits(e, level)| + 80 + 7 <= 8 * Capacity(level, n)
  {
    hide BlockBits, Sendable;
    BlockLength(e, level, n);
    LevelRange(e, level);
  }

  lemma LevelRange(e: Encoding, level: nat)
    requires Sendable(e, level)
    ensures 1 <= level <= 9
  {
  }
}

/** BZ2_decompress (decompress.c) as a resumable machine: one state per place where the coroutine
    can suspend, holding the variables live there, and one step per completed GET_BITS. */
module Decoder {
  import opened Basics
  import opened BitStrings
  import opened Permutations
  import opened Ranks
  import opened Canonical
  import opened Mtf
  import opened RunDigits

  /** The source's error codes, and three places where this machine stops although the source goes on:
      at a randomised block, which is not modelled; where a run counter would leave 32 bits; and where
      a selector would be stored behind the end of the selector arrays. */
  datatype Error = DataErrorMagic | DataError | Randomised | RunOverflow | SelectorOverrun

  /** BZ_MAX_SELECTORS, the length of selectorMtf and selector. */
  const MAX_SELECTORS: nat := 18002

  /** What the block header fixes. */
  datatype Head = Head(level: nat, crc: Word, orig: nat)

  /** A block whose symbols are being read. */
  datatype Body = Body(head: Head, used: seq<Byte>, selector: seq<nat>, tables: seq<Table>, u: Unmtf)

  datatype Dec =
    | Magic(k: nat)                                                    // MAGIC_1 .. MAGIC_4
    | BlkHdr(level: nat, k: nat)                                       // BLKHDR_1 .. BLKHDR_6
    | BCrc(level: nat, k: nat, crc: nat)                               // BCRC_1 .. BCRC_4
    | RandBit(level: nat, crc: nat)
    | OrigPtr(level: nat, crc: nat, k: nat, orig: nat)                 // ORIGPTR_1 .. ORIGPTR_3
    | Mapping1(head: Head, used16: seq<bool>)
    | Mapping2(head: Head, used16: seq<bool>, inUse: seq<bool>)
    | Selector1(head: Head, used: seq<Byte>)
    | Selector2(head: Head, used: seq<Byte>, nGroups: nat)
    | Selector3(head: Head, used: seq<Byte>, nGroups: nat, nSelectors: nat, selectorMtf: seq<nat>, j: nat)
    | Coding1(head: Head, used: seq<Byte>, nGroups: nat, selector: seq<nat>, tables: seq<Table>)
    | Coding2(head: Head, used: seq<Byte>, nGroups: nat, selector: seq<nat>, tables: seq<Table>, lens: seq<Byte>, curr: nat)
    | Coding3(head: Head, used: seq<Byte>, nGroups: nat, selector: seq<nat>, tables: seq<Table>, lens: seq<Byte>, curr: nat)
    | MtfFirst(body: Body, groupNo: nat, groupPos: nat)                // MTF_1, MTF_3, MTF_5
    | MtfMore(body: Body, groupNo: nat, groupPos: nat, zn: nat, zvec: nat) // MTF_2, MTF_4, MTF_6
    | EndHdr(level: nat, k: nat)                                       // ENDHDR_2 .. ENDHDR_6
    | CCrc(level: nat, k: nat, crc: nat)                               // CCRC_1 .. CCRC_4
    | Output(head: Head, col: seq<Byte>)                               // X_OUTPUT
    | Idle(combined: nat)                                              // X_IDLE, BZ_STREAM_END
    | Failed(error: Error)

  // --- The state invariant ---

  ghost predicate HeadOk(h: Head) {
    1 <= h.level <= 9
  }

  ghost predicate TableOk(t: Table, alphaSize: nat) {
    && |t.limit| == 23 && |t.base| == 23 && |t.perm| == 258 && 1 <= t.minLen <= 20
    && (forall k :: 0 <= k < 258 ==> 0 <= t.perm[k] < alphaSize)
    && forall zn :: 1 <= zn <= 20 ==> t.limit[zn] - t.base[zn] < alphaSize
  }

  ghost predicate TablesOk(tables: seq<Table>, alphaSize: nat) {
    forall k :: 0 <= k < |tables| ==> TableOk(tables[k], alphaSize)
  }

  ghost predicate AllBelow(s: seq<nat>, n: nat) {
    forall k :: 0 <= k < |s| ==> s[k] < n
  }

  ghost predicate BodyOk(b: Body) {
    && HeadOk(b.head) && Ready(b.u, b.used, |b.used|) && 0 < |b.used| <= 256
    && TablesOk(b.tables, |b.used| + 2) && AllBelow(b.selector, |b.tables|) && |b.selector| <= MAX_SELECTORS
    && |b.u.col| <= 100000 * b.head.level && InRange(b.u)
  }

  ghost predicate CodingOk(h: Head, used: seq<Byte>, nGroups: nat, selector: seq<nat>, tables: seq<Table>) {
    && HeadOk(h) && 0 < |used| <= 256 && 2 <= nGroups <= 6 && |tables| < nGroups
    && TablesOk(tables, |used| + 2) && AllBelow(selector, nGroups) && |selector| <= MAX_SELECTORS
  }

  /** What holds in every reachable state: in particular every table index is in range, the selectors
      stored fit their arrays, and the run counters hold 32-bit values. */
  ghost predicate Valid(d: Dec) {
    match d
    case Magic(k) => 1 <= k <= 4
    case BlkHdr(level, k) => 1 <= level <= 9 && 1 <= k <= 6
    case BCrc(level, k, crc) => 1 <= level <= 9 && 1 <= k <= 4 && crc < Pow2(8 * (k - 1))
    case RandBit(level, crc) => 1 <= level <= 9 && crc < 0x1_0000_0000
    case OrigPtr(level, crc, k, orig) =>
      1 <= level <= 9 && crc < 0x1_0000_0000 && 1 <= k <= 3
    case Mapping1(h, used16) => HeadOk(h) && |used16| < 16
    case Mapping2(h, used16, inUse) => HeadOk(h) && |used16| == 16 && |inUse| < 256
    case Selector1(h, used) => HeadOk(h) && 0 < |used| <= 256
    case Selector2(h, used, nGroups) => HeadOk(h) && 0 < |used| <= 256 && 2 <= nGroups <= 6
    case Selector3(h, used, nGroups, nSelectors, selectorMtf, j) =>
      HeadOk(h) && 0 < |used| <= 256 && 2 <= nGroups <= 6
      && |selectorMtf| < nSelectors && |selectorMtf| <= MAX_SELECTORS && AllBelow(selectorMtf, nGroups) && j < nGroups
    case Coding1(h, used, nGroups, selector, tables) => CodingOk(h, used, nGroups, selector, tables)
    case Coding2(h, used, nGroups, selector, tables, lens, curr) =>
      CodingOk(h, used, nGroups, selector, tables) && LensOk(lens, curr) && |lens| < |used| + 2
    case Coding3(h, used, nGroups, selector, tables, lens, curr) =>
      CodingOk(h, used, nGroups, selector, tables) && LensOk(lens, curr) && |lens| < |used| + 2
    case MtfFirst(b, groupNo, groupPos) => BodyOk(b) && groupNo < |b.selector| && groupPos < 50
    case MtfMore(b, groupNo, groupPos, zn, zvec) =>
      BodyOk(b) && groupNo < |b.selector| && groupPos < 50 && 1 <= zn <= 21
    case EndHdr(level, k) => 1 <= level <= 9 && 2 <= k <= 6
    case CCrc(level, k, crc) => 1 <= level <= 9 && 1 <= k <= 4 && crc < Pow2(8 * (k - 1))
    case Output(h, col) => HeadOk(h) && h.orig < |col| <= 100000 * h.level
    case Idle(combined) => combined < 0x1_0000_0000
    case Failed(_) => true
  }

  ghost predicate LensOk(lens: seq<Byte>, curr: nat) {
    1 <= curr <= 20 && forall k :: 0 <= k < |lens| ==> 1 <= lens[k] <= 20
  }

  /** Bits the pending GET_BITS asks for. */
  function Need(d: Dec): (n: nat)
    requires Valid(d)
    ensures Waiting(d) ==> 1 <= n <= 20
  {
    match d
    case Magic(_) => 8
    case BlkHdr(_, _) => 8
    case BCrc(_, _, _) => 8
    case OrigPtr(_, _, _, _) => 8
    case EndHdr(_, _) => 8
    case CCrc(_, _, _) => 8
    case Selector1(_, _) => 3
    case Selector2(_, _, _) => 15
    case Coding1(_, _, _, _, _) => 5
    case MtfFirst(b, groupNo, _) => b.tables[b.selector[groupNo]].minLen
    case _ => 1
  }

  predicate Waiting(d: Dec) {
    !d.Output? && !d.Idle? && !d.Failed?
  }

  // --- Steps ---

  /** The bytes of the block and trailer marks. */
  const BLOCK_MARK: seq<Byte> := [0x31, 0x41, 0x59, 0x26, 0x53, 0x59]
  const END_MARK: seq<Byte> := [0x17, 0x72, 0x45, 0x38, 0x50, 0x90]

  /** Steps over to the next byte group in use; what a group lacks stays False. */
  function NextMapping(h: Head, used16: seq<bool>, inUse: seq<bool>): (d: Dec)
    requires HeadOk(h) && |used16| == 16 && |inUse| <= 256
    ensures Valid(d)
    decreases 256 - |inUse|
  {
    if |inUse| == 256 then
      (var used := UsedBytes(inUse);
       if |used| == 0 then Failed(DataError) else Selector1(h, used))
    else if |inUse| % 16 != 0 || used16[|inUse| / 16] then Mapping2(h, used16, inUse)
    else NextMapping(h, used16, inUse + seq(16, _ => false))
  }

  /** Undoing the selectors' own move-to-front. */
  function UndoSelectors(selectorMtf: seq<nat>, pos: seq<nat>): (r: seq<nat>)
    requires AllBelow(selectorMtf, |pos|)
    ensures |r| == |selectorMtf|
    decreases |selectorMtf|
  {
    if selectorMtf == [] then []
    else
      var p := MoveToFront(pos, selectorMtf[0]);
      [pos[selectorMtf[0]]] + UndoSelectors(selectorMtf[1..], p)
  }

  function MinOf(lens: seq<Byte>): (r: nat)
    ensures forall k :: 0 <= k < |lens| ==> r <= lens[k]
    ensures lens != [] && lens[0] < 32 ==> exists k :: 0 <= k < |lens| && r == lens[k]
  {
    if lens == [] then 32
    else var m := MinOf(lens[..|lens| - 1]); if lens[|lens| - 1] < m then lens[|lens| - 1] else m
  }

  function MaxOf(lens: seq<Byte>): (r: nat)
    ensures forall k :: 0 <= k < |lens| ==> lens[k] <= r
    ensures r == 0 || exists k :: 0 <= k < |lens| && r == lens[k]
  {
    if lens == [] then 0
    else var m := MaxOf(lens[..|lens| - 1]); if lens[|lens| - 1] > m then lens[|lens| - 1] else m
  }

  ghost function MakeTable(lens: seq<Byte>): Table {
    TableOf(lens, MinOf(lens), MaxOf(lens))
  }

  lemma MakeTableOk(lens: seq<Byte>, alphaSize: nat)
    requires |lens| == alphaSize && 0 < alphaSize <= 258
    requires forall k :: 0 <= k < |lens| ==> 1 <= lens[k] <= 20
    ensures TableOk(MakeTable(lens), alphaSize)
    ensures 1 <= MinOf(lens) <= MaxOf(lens) <= 20
  {
    hide LimitAt, BaseAt, Rank;
    var t := MakeTable(lens);
    forall k: nat | k < 258 ensures 0 <= t.perm[k] < alphaSize {
      assert t.perm[k] == PermAt(lens, k);
    }
    forall zn: nat | 1 <= zn <= 20 ensures t.limit[zn] - t.base[zn] < alphaSize {
      IndexBelow(lens, MinOf(lens), MaxOf(lens), zn);
    }
  }

  lemma {:induction false} UndoBelow(selectorMtf: seq<nat>, pos: seq<nat>, n: nat)
    requires AllBelow(selectorMtf, |pos|) && AllBelow(pos, n)
    ensures AllBelow(UndoSelectors(selectorMtf, pos), n)
    decreases |selectorMtf|
  {
    if selectorMtf != [] { UndoBelow(selectorMtf[1..], MoveToFront(pos, selectorMtf[0]), n); }
  }

  function Groups(n: nat): (r: seq<nat>)
    ensures |r| == n && AllBelow(r, n) && forall k :: 0 <= k < n ==> r[k] == k
  {
    seq(n, k requires 0 <= k < n => k)
  }

  /** The selectors once all their codes are in. */
  function SelectorsOf(selectorMtf: seq<nat>, nGroups: nat): (r: seq<nat>)
    requires AllBelow(selectorMtf, nGroups)
    ensures |r| == |selectorMtf| && AllBelow(r, nGroups)
  {
    UndoBelow(selectorMtf, Groups(nGroups), nGroups);
    UndoSelectors(selectorMtf, Groups(nGroups))
  }

  /** The head of the delta loop: a length out of range is refused before the next bit. */
  function DeltaLoop(h: Head, used: seq<Byte>, nGroups: nat, selector: seq<nat>, tables: seq<Table>, lens: seq<Byte>, curr: int): (d: Dec)
    requires CodingOk(h, used, nGroups, selector, tables) && |lens| < |used| + 2
    requires forall k :: 0 <= k < |lens| ==> 1 <= lens[k] <= 20
    ensures Valid(d)
  {
    if curr < 1 || curr > 20 then Failed(DataError)
    else Coding2(h, used, nGroups, selector, tables, lens, curr)
  }

  /** The list before the first symbol. */
  function FreshList(): (u: Unmtf)
    ensures |u.list| == 256 && u.col == [] && u.run == 0 && u.weight == 1
    ensures forall k :: 0 <= k < 256 ==> u.list[k] == k
  {
    Unmtf(seq(256, k requires 0 <= k < 256 => k), [], 0, 1)
  }

  /** A symbol's length has been found for the current table: go on to the next symbol or table. */
  ghost function LengthDone(h: Head, used: seq<Byte>, nGroups: nat, selector: seq<nat>, tables: seq<Table>, lens: seq<Byte>, curr: nat): (d: Dec)
    requires CodingOk(h, used, nGroups, selector, tables) && 0 < |lens| <= |used| + 2 && LensOk(lens, curr)
    ensures Valid(d)
  {
    if |lens| < |used| + 2 then DeltaLoop(h, used, nGroups, selector, tables, lens, curr)
    else
      MakeTableOk(lens, |used| + 2);
      var more := tables + [MakeTable(lens)];
      if |more| < nGroups then Coding1(h, used, nGroups, selector, more)
      else NextSymbol(Body(h, used, selector, more, FreshList()), -1, 0)
  }

  /** GET_MTF_VAL, before its first field: every 50 symbols the next selector is taken. */
  ghost function NextSymbol(b: Body, groupNo: int, groupPos: nat): (d: Dec)
    requires BodyOk(b) && -1 <= groupNo < |b.selector| && groupPos < 50 && (groupNo == -1 ==> groupPos == 0)
    ensures Valid(d)
  {
    if groupPos > 0 then MtfFirst(b, groupNo, groupPos - 1)
    else if groupNo + 1 >= |b.selector| then Failed(DataError)
    else MtfFirst(b, groupNo + 1, 49)
  }

  function TableFor(b: Body, groupNo: nat): (t: Table)
    requires BodyOk(b) && groupNo < |b.selector|
    ensures TableOk(t, |b.used| + 2)
  {
    b.tables[b.selector[groupNo]]
  }

  /** An accepted code is looked up among the symbols of its own table: no entry of perm beyond the
      alphabet is read, and only a negative index is ever refused. */
  lemma LookedUpInTable(b: Body, groupNo: nat, zn: nat, zvec: nat)
    requires BodyOk(b) && groupNo < |b.selector| && 1 <= zn <= 20
    requires zvec <= TableFor(b, groupNo).limit[zn]
    ensures zvec - TableFor(b, groupNo).base[zn] < |b.used| + 2 <= 258
  {
  }

  /** GET_MTF_VAL, each time a code prefix zvec of length zn is in hand. */
  ghost function CheckCode(b: Body, groupNo: nat, groupPos: nat, zn: nat, zvec: nat): (d: Dec)
    requires BodyOk(b) && groupNo < |b.selector| && groupPos < 50 && 1 <= zn <= 21
    ensures Valid(d)
  {
    var t := TableFor(b, groupNo);
    if zn > 20 then Failed(DataError)
    else if zvec <= t.limit[zn] then
      (var k := zvec - t.base[zn];
       if k < 0 || k >= 258 then Failed(DataError) else Symbol(b, groupNo, groupPos, t.perm[k]))
    else MtfMore(b, groupNo, groupPos, zn + 1, zvec)
  }

  /** One decoded symbol: end of block, run digit, or move-to-front position. The source does not test
      whether the counters keep within 32 bits. */
  ghost function Symbol(b: Body, groupNo: nat, groupPos: nat, sym: int): (d: Dec)
    requires BodyOk(b) && groupNo < |b.selector| && groupPos < 50 && 0 <= sym <= |b.used| + 1
    ensures Valid(d)
  {
    var max := 100000 * b.head.level;
    if !SymbolFits(b.u, b.used, sym) then Failed(RunOverflow)
    else if sym == 0 || sym == 1 then
      (DigitInRange(b.u, b.used, sym);
       NextSymbol(b.(u := Take(b.u, b.used, sym)), groupNo, groupPos))
    else if |b.u.col| + b.u.run > max then Failed(DataError)
    else if sym == |b.used| + 1 then
      (var col := Flushed(b.u, b.used);
       if b.head.orig >= |col| then Failed(DataError) else Output(b.head, col))
    else if |b.u.col| + b.u.run >= max then Failed(DataError)
    else NextSymbol(b.(u := Take(b.u, b.used, sym)), groupNo, groupPos)
  }

  /** The machine stops for an overflow exactly where one of the values computed leaves 32 bits. */
  lemma OverflowExactly(b: Body, groupNo: nat, groupPos: nat, sym: int)
    requires BodyOk(b) && groupNo < |b.selector| && groupPos < 50 && 0 <= sym <= |b.used| + 1
    ensures Symbol(b, groupNo, groupPos, sym) == Failed(RunOverflow) <==> !SymbolFits(b.u, b.used, sym)
  {
    hide SymbolFits, Take, Flushed;
  }

  /** One completed GET_BITS. */
  ghost function Step(d: Dec, v: nat): (r: Dec)
    requires Valid(d) && Waiting(d) && v < Pow2(Need(d))
    ensures Valid(r)
  {
    if InMarks(d) then MarkStep(d, v)
    else if InMaps(d) then MapStep(d, v)
    else if d.MtfFirst? then CheckCode(d.body, d.groupNo, d.groupPos, TableFor(d.body, d.groupNo).minLen, v)
    else if d.MtfMore? then CheckCode(d.body, d.groupNo, d.groupPos, d.zn, 2 * d.zvec + v)
    else CodingStep(d, v)
  }

  predicate InMarks(d: Dec) {
    d.Magic? || d.BlkHdr? || d.BCrc? || d.RandBit? || d.OrigPtr? || d.EndHdr? || d.CCrc?
  }

  predicate InMaps(d: Dec) {
    d.Mapping1? || d.Mapping2? || d.Selector1? || d.Selector2? || d.Selector3?
  }

  function MarkStep(d: Dec, v: nat): (r: Dec)
    requires Valid(d) && InMarks(d) && v < Pow2(Need(d))
    ensures Valid(r)
  {
    match d
    case Magic(k) => MagicStep(k, v)
    case BlkHdr(level, k) => BlkHdrStep(level, k, v)
    case BCrc(level, k, crc) => BCrcStep(level, k, crc, v)
    case RandBit(level, crc) => if v == 1 then Failed(Randomised) else OrigPtr(level, crc, 1, 0)
    case OrigPtr(level, crc, k, orig) => OrigPtrStep(level, crc, k, orig, v)
    case EndHdr(level, k) => EndHdrStep(level, k, v)
    case CCrc(level, k, crc) => CCrcStep(level, k, crc, v)
  }

  function MapStep(d: Dec, v: nat): (r: Dec)
    requires Valid(d) && InMaps(d)
    ensures Valid(r)
  {
    match d
    case Mapping1(h, used16) =>
      if |used16| < 15 then Mapping1(h, used16 + [v == 1]) else NextMapping(h, used16 + [v == 1], [])
    case Mapping2(h, used16, inUse) => NextMapping(h, used16, inUse + [v == 1])
    case Selector1(h, used) => if v < 2 || v > 6 then Failed(DataError) else Selector2(h, used, v)
    case Selector2(h, used, nGroups) =>
      if v < 1 then Failed(DataError) else Selector3(h, used, nGroups, v, [], 0)
    case Selector3(h, used, nGroups, nSelectors, selectorMtf, j) =>
      SelectorBit(h, used, nGroups, nSelectors, selectorMtf, j, v)
  }

  ghost function CodingStep(d: Dec, v: nat): (r: Dec)
    requires Valid(d) && (d.Coding1? || d.Coding2? || d.Coding3?)
    ensures Valid(r)
  {
    match d
    case Coding1(h, used, nGroups, selector, tables) => DeltaLoop(h, used, nGroups, selector, tables, [], v)
    case Coding2(h, used, nGroups, selector, tables, lens, curr) =>
      LengthBit(h, used, nGroups, selector, tables, lens, curr, v)
    case Coding3(h, used, nGroups, selector, tables, lens, curr) =>
      DeltaLoop(h, used, nGroups, selector, tables, lens, if v == 0 then curr + 1 else curr - 1)
  }

  function BlkHdrStep(level: nat, k: nat, v: nat): (d: Dec)
    requires 1 <= level <= 9 && 1 <= k <= 6
    ensures Valid(d)
  {
    if k == 1 && v == 0x17 then EndHdr(level, 2)
    else if v != BLOCK_MARK[k - 1] then Failed(DataError)
    else if k < 6 then BlkHdr(level, k + 1)
    else BCrc(level, 1, 0)
  }

  function BCrcStep(level: nat, k: nat, crc: nat, v: nat): (d: Dec)
    requires Valid(BCrc(level, k, crc)) && v < Pow2(8)
    ensures Valid(d)
  {
    CrcByte(k, crc, v);
    if k < 4 then BCrc(level, k + 1, 256 * crc + v) else RandBit(level, 256 * crc + v)
  }

  function OrigPtrStep(level: nat, crc: nat, k: nat, orig: nat, v: nat): (d: Dec)
    requires Valid(OrigPtr(level, crc, k, orig))
    ensures Valid(d)
  {
    if k < 3 then OrigPtr(level, crc, k + 1, 256 * orig + v)
    else if 256 * orig + v > 10 + 100000 * level then Failed(DataError)
    else Mapping1(Head(level, crc, 256 * orig + v), [])
  }

  ghost function LengthBit(h: Head, used: seq<Byte>, nGroups: nat, selector: seq<nat>, tables: seq<Table>, lens: seq<Byte>, curr: nat, v: nat): (d: Dec)
    requires CodingOk(h, used, nGroups, selector, tables) && LensOk(lens, curr) && |lens| < |used| + 2
    ensures Valid(d)
  {
    if v == 0 then LengthDone(h, used, nGroups, selector, tables, lens + [curr], curr)
    else Coding3(h, used, nGroups, selector, tables, lens, curr)
  }

  function EndHdrStep(level: nat, k: nat, v: nat): (d: Dec)
    requires 1 <= level <= 9 && 2 <= k <= 6
    ensures Valid(d)
  {
    if v != END_MARK[k - 1] then Failed(DataError)
    else if k < 6 then EndHdr(level, k + 1)
    else CCrc(level, 1, 0)
  }

  function CCrcStep(level: nat, k: nat, crc: nat, v: nat): (d: Dec)
    requires Valid(CCrc(level, k, crc)) && v < Pow2(8)
    ensures Valid(d)
  {
    CrcByte(k, crc, v);
    if k < 4 then CCrc(level, k + 1, 256 * crc + v) else Idle(256 * crc + v)
  }

  function MagicStep(k: nat, v: nat): (d: Dec)
    requires 1 <= k <= 4
    ensures Valid(d)
  {
    if k < 4 then
      if v == [0x42, 0x5a, 0x68][k - 1] then Magic(k + 1) else Failed(DataErrorMagic)
    else if v < 0x31 || v > 0x39 then Failed(DataErrorMagic)
    else BlkHdr(v - 0x30, 1)
  }

  lemma CrcByte(k: nat, crc: nat, v: nat)
    requires 1 <= k <= 4 && crc < Pow2(8 * (k - 1)) && v < Pow2(8)
    ensures 256 * crc + v < Pow2(8 * k) <= 0x1_0000_0000
    ensures v < 256
  {
    Shl8(1);
    ShlLess(crc, Pow2(8 * (k - 1)), 8);
    Pow2Add(8 * (k - 1), 8);
    Shl8(crc);
    Pow2Mono(8 * k, 32);
    ShiftsUsed(1);
  }

  function SelectorBit(h: Head, used: seq<Byte>, nGroups: nat, nSelectors: nat, selectorMtf: seq<nat>, j: nat, v: nat): (d: Dec)
    requires Valid(Selector3(h, used, nGroups, nSelectors, selectorMtf, j))
    ensures Valid(d)
  {
    if v == 1 then
      if j + 1 >= nGroups then Failed(DataError)
      else Selector3(h, used, nGroups, nSelectors, selectorMtf, j + 1)
    else if |selectorMtf| == MAX_SELECTORS then Failed(SelectorOverrun)
    else
      var more := selectorMtf + [j];
      if |more| < nSelectors then Selector3(h, used, nGroups, nSelectors, more, 0)
      else Coding1(h, used, nGroups, SelectorsOf(more, nGroups), [])
  }

  // --- Runs over bit strings ---

  datatype Run = Run(d: Dec, rest: seq<Bit>)

  /** The machine fed with a bit string: it stops when it delivers a block, ends, fails, or has too
      few bits for its next field, which it then leaves unread. */
  ghost function Feed(d: Dec, bits: seq<Bit>): (r: Run)
    requires Valid(d)
    ensures Valid(r.d) && |r.rest| <= |bits|
    ensures Waiting(r.d) ==> |r.rest| < Need(r.d)
    decreases |bits|
  {
    if !Waiting(d) || |bits| < Need(d) then Run(d, bits)
    else Feed(Step(d, Val(bits[..Need(d)])), bits[Need(d)..])
  }

  /** Suspension transparency of the coroutine: feeding the bits in two parts, keeping what the first
      part left unread, is feeding them all at once. */
  lemma {:induction false} FeedConcat(d: Dec, a: seq<Bit>, b: seq<Bit>)
    requires Valid(d)
    ensures var r := Feed(d, a); Feed(d, a + b) == Feed(r.d, r.rest + b)
    decreases |a|
  {
    hide Step;
    if Waiting(d) && |a| >= Need(d) {
      var n := Need(d);
      assert (a + b)[..n] == a[..n] && (a + b)[n..] == a[n..] + b;
      FeedConcat(Step(d, Val(a[..n])), a[n..], b);
    }
  }

  /** One field. */
  lemma FeedField(d: Dec, n: nat, v: nat, rest: seq<Bit>)
    requires Valid(d) && Waiting(d) && Need(d) == n && v < Pow2(n)
    ensures Feed(d, Bits(n, v) + rest) == Feed(Step(d, v), rest)
  {
    hide Step, Bits;
    ValBits(n, v);
    var bits := Bits(n, v) + rest;
    assert bits[..n] == Bits(n, v) && bits[n..] == rest;
  }
}

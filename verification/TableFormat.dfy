/** The coding tables in the bit stream: each table's lengths, delta coded (sendMTFValues), and the
    proof that the decoding machine rebuilds the tables they describe. */
module TableFormat {
  import opened Basics
  import opened BitStrings
  import opened Permutations
  import opened Ranks
  import opened Canonical
  import opened Mtf
  import opened Decoder
  import opened BlockFormat

  /** Two bits for each step from one length to the next. */
  function MoveBits(curr: nat, target: nat): (r: seq<Bit>)
    decreases if curr < target then target - curr else curr - target
  {
    if curr < target then [1, 0] + MoveBits(curr + 1, target)
    else if curr > target then [1, 1] + MoveBits(curr - 1, target)
    else []
  }

  function LengthBits(lens: seq<Byte>, curr: nat): (r: seq<Bit>) {
    if lens == [] then [] else MoveBits(curr, lens[0]) + [0] + LengthBits(lens[1..], lens[0])
  }

  function TableBits(lens: seq<Byte>): (r: seq<Bit>)
    requires lens != []
  {
    Bits(5, lens[0]) + LengthBits(lens, lens[0])
  }

  function TablesBits(lens: seq<seq<Byte>>): (r: seq<Bit>)
    requires forall t :: 0 <= t < |lens| ==> lens[t] != []
  {
    if lens == [] then [] else TableBits(lens[0]) + TablesBits(lens[1..])
  }

  /** What does not change while one table is read. */
  datatype Shelf = Shelf(head: Head, used: seq<Byte>, nGroups: nat, selector: seq<nat>, tables: seq<Table>)

  ghost predicate ShelfOk(c: Shelf) {
    CodingOk(c.head, c.used, c.nGroups, c.selector, c.tables)
  }

  function At2(c: Shelf, lens: seq<Byte>, curr: nat): Dec {
    Coding2(c.head, c.used, c.nGroups, c.selector, c.tables, lens, curr)
  }

  function At3(c: Shelf, lens: seq<Byte>, curr: nat): Dec {
    Coding3(c.head, c.used, c.nGroups, c.selector, c.tables, lens, curr)
  }

  ghost predicate Lengths(lens: seq<Byte>) {
    forall k :: 0 <= k < |lens| ==> 1 <= lens[k] <= 20
  }

  lemma ReadsMove(c: Shelf, lens: seq<Byte>, curr: nat, up: bool)
    requires ShelfOk(c) && Lengths(lens) && |lens| < |c.used| + 2 && 1 <= curr <= 20
    requires if up then curr < 20 else 1 < curr
    ensures Reads(At2(c, lens, curr), [1, if up then 0 else 1], At2(c, lens, if up then curr + 1 else curr - 1))
  {
    hide Reads, CodingOk;
    var b: Bit := if up then 0 else 1;
    ReadsBit(At2(c, lens, curr), 1);
    ReadsBit(At3(c, lens, curr), b);
    ReadsThen(At2(c, lens, curr), [1], At3(c, lens, curr), [b], At2(c, lens, if up then curr + 1 else curr - 1));
    assert [1, b] == [1] + [b];
  }

  lemma {:induction false} ReadsMoves(c: Shelf, lens: seq<Byte>, curr: nat, target: nat)
    requires ShelfOk(c) && Lengths(lens) && |lens| < |c.used| + 2 && 1 <= curr <= 20 && 1 <= target <= 20
    ensures Reads(At2(c, lens, curr), MoveBits(curr, target), At2(c, lens, target))
    decreases if curr < target then target - curr else curr - target
  {
    hide Reads, CodingOk;
    if curr == target {
      ReadsNothing(At2(c, lens, curr));
    } else {
      var next := if curr < target then curr + 1 else curr - 1;
      ReadsMove(c, lens, curr, curr < target);
      ReadsMoves(c, lens, next, target);
      ReadsThen(At2(c, lens, curr), [1, if curr < target then 0 else 1], At2(c, lens, next),
                MoveBits(next, target), At2(c, lens, target));
    }
  }

  /** Where the machine is once the last length of a table is in. */
  ghost function Shelved(c: Shelf, lens: seq<Byte>): (d: Dec)
    requires ShelfOk(c) && Lengths(lens) && |lens| == |c.used| + 2
    ensures Valid(d)
  {
    MakeTableOk(lens, |c.used| + 2);
    var more := c.tables + [MakeTable(lens)];
    if |more| < c.nGroups then Coding1(c.head, c.used, c.nGroups, c.selector, more)
    else NextSymbol(Body(c.head, c.used, c.selector, more, FreshList()), -1, 0)
  }

  lemma LastLength(c: Shelf, lens: seq<Byte>, curr: nat)
    requires ShelfOk(c) && |lens| <= |c.used| + 2 && lens != [] && Lengths(lens) && 1 <= curr <= 20
    ensures LengthDone(c.head, c.used, c.nGroups, c.selector, c.tables, lens, curr)
         == if |lens| < |c.used| + 2 then At2(c, lens, curr) else Shelved(c, lens)
  {
    hide CodingOk, NextSymbol, MakeTable;
  }

  lemma {:induction false} ReadsLengths(c: Shelf, lens: seq<Byte>, i: nat, curr: nat)
    requires ShelfOk(c) && Lengths(lens) && |lens| == |c.used| + 2 && i < |lens| && 1 <= curr <= 20
    ensures Reads(At2(c, lens[..i], curr), LengthBits(lens[i..], curr), Shelved(c, lens))
    decreases |lens| - i
  {
    hide Reads, CodingOk, MoveBits, Shelved, LengthDone;
    var x: nat := lens[i];
    ReadsMoves(c, lens[..i], curr, x);
    ReadsBit(At2(c, lens[..i], x), 0);
    assert lens[..i] + [x] == lens[..i + 1];
    assert lens[i..][1..] == lens[i + 1..];
    LastLength(c, lens[..i + 1], x);
    var next := if i + 1 < |lens| then At2(c, lens[..i + 1], x) else Shelved(c, lens);
    if i + 1 < |lens| {
      ReadsLengths(c, lens, i + 1, x);
    } else {
      assert lens[..|lens|] == lens;
      ReadsNothing(next);
    }
    ReadsThen(At2(c, lens[..i], curr), MoveBits(curr, x), At2(c, lens[..i], x), [0], next);
    ReadsThen(At2(c, lens[..i], curr), MoveBits(curr, x) + [0], next, LengthBits(lens[i + 1..], x), Shelved(c, lens));
  }

  lemma ReadsTable(c: Shelf, lens: seq<Byte>)
    requires ShelfOk(c) && Lengths(lens) && |lens| == |c.used| + 2
    ensures Reads(Coding1(c.head, c.used, c.nGroups, c.selector, c.tables), TableBits(lens), Shelved(c, lens))
  {
    hide Reads, CodingOk, Shelved, Bits, LengthBits;
    var d := Coding1(c.head, c.used, c.nGroups, c.selector, c.tables);
    assert Pow2(5) == 32 by { assert Shl(1, 3) == 8; assert Shl(1, 4) == 16; }
    ReadsField(d, 5, lens[0]);
    assert lens[..0] == [] && lens[0..] == lens;
    ReadsLengths(c, lens, 0, lens[0]);
    ReadsThen(d, Bits(5, lens[0]), At2(c, [], lens[0]), LengthBits(lens, lens[0]), Shelved(c, lens));
  }

  // --- All tables ---

  ghost predicate AllLengths(lens: seq<seq<Byte>>, alphaSize: nat) {
    forall t :: 0 <= t < |lens| ==> Lengths(lens[t]) && |lens[t]| == alphaSize
  }

  ghost function Tables(lens: seq<seq<Byte>>): (r: seq<Table>)
    ensures |r| == |lens| && forall t :: 0 <= t < |lens| ==> r[t] == MakeTable(lens[t])
  {
    seq(|lens|, t requires 0 <= t < |lens| => MakeTable(lens[t]))
  }

  lemma TablesAreOk(lens: seq<seq<Byte>>, alphaSize: nat)
    requires AllLengths(lens, alphaSize) && 0 < alphaSize <= 258
    ensures TablesOk(Tables(lens), alphaSize)
  {
    hide MakeTable, TableOk;
    forall t | 0 <= t < |lens| ensures TableOk(Tables(lens)[t], alphaSize) {
      MakeTableOk(lens[t], alphaSize);
    }
  }

  /** The block whose symbols come next. */
  ghost function Ahead(h: Head, used: seq<Byte>, selector: seq<nat>, lens: seq<seq<Byte>>): (b: Body)
    ensures HeadOk(h) && 0 < |used| <= 256 && AllBelow(selector, |lens|) && |selector| <= MAX_SELECTORS && AllLengths(lens, |used| + 2) ==> BodyOk(b)
  {
    if HeadOk(h) && 0 < |used| <= 256 && AllBelow(selector, |lens|) && |selector| <= MAX_SELECTORS && AllLengths(lens, |used| + 2) then
      (TablesAreOk(lens, |used| + 2);
       assert Ready(FreshList(), used, |used|);
       Body(h, used, selector, Tables(lens), FreshList()))
    else Body(h, used, selector, Tables(lens), FreshList())
  }

  lemma ShelfIsOk(h: Head, used: seq<Byte>, selector: seq<nat>, lens: seq<seq<Byte>>, t: nat)
    requires HeadOk(h) && 0 < |used| <= 256 && 2 <= |lens| <= 6 && AllBelow(selector, |lens|) && |selector| <= MAX_SELECTORS
    requires AllLengths(lens, |used| + 2) && t < |lens|
    ensures ShelfOk(Shelf(h, used, |lens|, selector, Tables(lens[..t])))
  {
    hide MakeTable, TableOk;
    TablesAreOk(lens[..t], |used| + 2);
  }

  lemma ShelvedIs(h: Head, used: seq<Byte>, selector: seq<nat>, lens: seq<seq<Byte>>, t: nat)
    requires HeadOk(h) && 0 < |used| <= 256 && 2 <= |lens| <= 6 && AllBelow(selector, |lens|) && |selector| <= MAX_SELECTORS && selector != []
    requires AllLengths(lens, |used| + 2) && t < |lens|
    requires ShelfOk(Shelf(h, used, |lens|, selector, Tables(lens[..t])))
    ensures Shelved(Shelf(h, used, |lens|, selector, Tables(lens[..t])), lens[t])
         == if t + 1 < |lens| then Coding1(h, used, |lens|, selector, Tables(lens[..t + 1]))
            else MtfFirst(Ahead(h, used, selector, lens), 0, 49)
  {
    hide MakeTable, CodingOk, BodyOk;
    assert Tables(lens[..t]) + [MakeTable(lens[t])] == Tables(lens[..t + 1]);
    assert lens[..|lens|] == lens;
    TablesAreOk(lens, |used| + 2);
  }

  lemma {:induction false} ReadsTables(h: Head, used: seq<Byte>, selector: seq<nat>, lens: seq<seq<Byte>>, t: nat)
    requires HeadOk(h) && 0 < |used| <= 256 && 2 <= |lens| <= 6 && AllBelow(selector, |lens|) && |selector| <= MAX_SELECTORS && selector != []
    requires AllLengths(lens, |used| + 2) && t < |lens|
    ensures Reads(Coding1(h, used, |lens|, selector, Tables(lens[..t])), TablesBits(lens[t..]),
                  MtfFirst(Ahead(h, used, selector, lens), 0, 49))
    decreases |lens| - t
  {
    hide Reads, MakeTable, TableBits, Shelved, Ahead, AllBelow, Lengths, CodingOk;
    var c := Shelf(h, used, |lens|, selector, Tables(lens[..t]));
    ShelfIsOk(h, used, selector, lens, t);
    ReadsTable(c, lens[t]);
    ShelvedIs(h, used, selector, lens, t);
    assert lens[t..][1..] == lens[t + 1..];
    var last := MtfFirst(Ahead(h, used, selector, lens), 0, 49);
    var next := if t + 1 < |lens| then Coding1(h, used, |lens|, selector, Tables(lens[..t + 1])) else last;
    if t + 1 < |lens| {
      ReadsTables(h, used, selector, lens, t + 1);
    } else {
      AheadWaits(h, used, selector, lens);
      ReadsNothing(last);
    }
    ReadsThen(Coding1(h, used, |lens|, selector, Tables(lens[..t])), TableBits(lens[t]), next, TablesBits(lens[t + 1..]), last);
  }

  lemma AheadWaits(h: Head, used: seq<Byte>, selector: seq<nat>, lens: seq<seq<Byte>>)
    requires HeadOk(h) && 0 < |used| <= 256 && AllBelow(selector, |lens|) && 1 <= |selector| <= MAX_SELECTORS && AllLengths(lens, |used| + 2)
    ensures Valid(MtfFirst(Ahead(h, used, selector, lens), 0, 49))
  {
    hide BodyOk;
  }
}

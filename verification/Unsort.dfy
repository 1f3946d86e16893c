/** The two block inverters of the decompressor (decompress.c, bzlib_private.h, bzlib.c): FAST, one
    word per position, and SMALL, 20-bit entries reversed in place. Both follow the same walk. */
module Unsort {
  import opened Basics
  import opened Permutations
  import opened Rotations
  import opened Ranks

  /** cftab from unzftab: running totals of the byte counts. With true counts the sanity check on them
      never fails. */
  method MakeCftab(unzftab: array<Int32>, cftab: array<nat>, nblock: nat, ghost col: seq<Byte>) returns (ok: bool)
    requires nblock == |col| && unzftab.Length == 256 && cftab.Length == 257 && unzftab as object != cftab
    requires forall c :: 0 <= c < 256 ==> unzftab[c] == Count(col, c)
    modifies cftab
    ensures ok && forall c :: 0 <= c <= 256 ==> cftab[c] == Below(col, c)
  {
    cftab[0] := 0;
    for i := 1 to 257
      invariant cftab[0] == 0
      invariant forall c :: 1 <= c < i ==> cftab[c] == Count(col, c - 1)
    {
      cftab[i] := unzftab[i - 1];
    }
    for i := 1 to 257
      invariant forall c :: 0 <= c < i ==> cftab[c] == Below(col, c)
      invariant forall c :: i <= c < 257 ==> cftab[c] == Count(col, c - 1)
    {
      BelowNext(col, i - 1);
      cftab[i] := cftab[i] + cftab[i - 1];
    }
    for i := 0 to 257
      invariant forall c :: 0 <= c <= 256 ==> cftab[c] == Below(col, c)
    {
      if cftab[i] > nblock { return false; }
    }
    return true;
  }

  /** A cursor over a decoded block: Walk's position before and after each byte. */
  ghost predicate Cursor(col: seq<Byte>, t: seq<int>, pos: int) {
    Inverse(RankTable(col), t, |col|) && 0 <= pos < |col|
  }

  lemma CursorNext(col: seq<Byte>, t: seq<int>, pos: int)
    requires Cursor(col, t, pos)
    ensures Injective(t, |col|) && |t| == |col| && 0 <= pos < |col| && 0 <= t[pos] < |col| && Cursor(col, t, t[pos])
  {
  }

  lemma CursorBucket(col: seq<Byte>, t: seq<int>, pos: int, c: int)
    requires Cursor(col, t, pos) && Below(col, c) <= pos < Below(col, c + 1)
    ensures |t| == |col| && 0 <= t[pos] < |col| && c == col[t[pos]]
  {
    CursorNext(col, t, pos);
    BucketOf(col, t, pos, c);
  }

  // --- FAST ---

  /** Word k of tt: the column byte below, the next position above. */
  ghost predicate Packed(tt: seq<nat>, col: seq<Byte>, t: seq<int>)
  {
    |col| <= |tt| && |t| == |col|
    && forall k :: 0 <= k < |col| ==> t[k] >= 0 && tt[k] == 256 * t[k] + col[k]
  }

  lemma PackWord(i: nat, b: Byte)
    ensures Or(Shl(i, 8), b) == 256 * i + b
  {
    Shl8(i);
    Shl8(1);
    OrDisjoint(i, 8, b);
  }

  /** After i links: word r[j] carries j, for each j < i. */
  ghost predicate Linked(r: seq<int>, t: seq<int>, i: nat) {
    && |t| == |r| && i <= |r|
    && (forall j :: 0 <= j < i ==> 0 <= r[j] < |r| && t[r[j]] == j)
    && (forall k :: 0 <= k < |r| ==> t[k] == 0 || (0 <= t[k] < i && r[t[k]] == k))
  }

  lemma LinkOne(r: seq<int>, t: seq<int>, i: nat)
    requires Injective(r, |r|) && Linked(r, t, i) && i < |r|
    ensures t[r[i]] == 0
    ensures Linked(r, t[r[i] := i], i + 1)
  {
  }

  /** The linking loop: word cftab[uc] receives i in its upper bits. */
  method LinkFast(tt: array<nat>, cftab: array<nat>, n: nat, ghost col: seq<Byte>) returns (ghost t: seq<int>)
    requires n == |col| <= tt.Length && cftab.Length == 257 && tt != cftab
    requires forall k :: 0 <= k < n ==> tt[k] == col[k]
    requires forall c: int :: 0 <= c < 256 ==> cftab[c] == Below(col, c)
    modifies tt, cftab
    ensures Inverse(RankTable(col), t, n) && Packed(tt[..], col, t)
  {
    hide Or, Shl, Rank, Below, Pointers;
    ghost var r := RankTable(col);
    RanksInjective(col);
    PointersStart(cftab[..], col);
    t := seq(n, _ => 0);
    for i := 0 to n
      invariant Pointers(cftab[..], col, i) && Linked(r, t, i)
      invariant forall k :: 0 <= k < n ==> tt[k] == 256 * t[k] + col[k]
    {
      var uc := tt[i] % 256;
      assert uc == col[i];
      var k := cftab[uc];
      PlaceNext(cftab[..], col, i);
      LinkOne(r, t, i);
      PackWord(i, col[k]);
      tt[k] := Or(Shl(i, 8), tt[k]);
      t := t[k := i];
      cftab[uc] := cftab[uc] + 1;
    }
    InverseFromOneSide(r, t, n);
  }

  // --- SMALL ---

  /** GET_LL4 and SET_LL4: one half of a byte. */
  function GetNibble(pair: Byte, high: bool): (n: int)
    ensures 0 <= n < 16
  {
    if high then pair / 16 else pair % 16
  }

  function SetNibble(pair: Byte, high: bool, n: int): (r: Byte)
    requires 0 <= n < 16
    ensures GetNibble(r, high) == n && GetNibble(r, !high) == GetNibble(pair, !high)
  {
    var p: int := pair;
    if high then p % 16 + 16 * n else p - p % 16 + n
  }

  /** 20-bit entries: 16 low bits in ll16, 4 high bits in a nibble of ll4. */
  class Entries {
    const ll16: array<nat>
    const ll4: array<Byte>

    ghost predicate Valid()
      reads this, ll16, ll4
    {
      && ll4.Length == (1 + ll16.Length) / 2
      && forall i :: 0 <= i < ll16.Length ==> ll16[i] < 0x1_0000
    }

    /** GET_LL. */
    function Get(i: nat): (v: nat)
      requires i < ll16.Length && Valid()
      reads this, ll16, ll4
    {
      ll16[i] + 0x1_0000 * GetNibble(ll4[i / 2], i % 2 == 1)
    }

    constructor (size: nat)
      ensures Valid() && ll16.Length == size && fresh(ll16) && fresh(ll4)
    {
      ll16 := new nat[size](_ => 0);
      var pairs: nat := (1 + size) / 2;
      ll4 := new Byte[pairs](_ => 0);
    }

    /** SET_LL: the 20 bits of v are kept, and no other entry changes. */
    method Set(i: nat, v: nat)
      requires i < ll16.Length && Valid() && v < 0x10_0000
      modifies ll16, ll4
      ensures Valid() && Get(i) == v
      ensures forall k :: 0 <= k < ll16.Length && k != i ==> Get(k) == old(Get(k))
      ensures forall k :: 0 <= k < ll16.Length && k != i ==> ll16[k] == old(ll16[k])
    {
      hide GetNibble, SetNibble;
      ll16[i] := v % 0x1_0000;
      ll4[i / 2] := SetNibble(ll4[i / 2], i % 2 == 1, v / 0x1_0000);
    }

    ghost function All(n: nat): (r: seq<int>)
      requires n <= ll16.Length && Valid()
      reads this, ll16, ll4
      ensures |r| == n && forall i :: 0 <= i < n ==> r[i] == Get(i)
    {
      seq(n, i requires 0 <= i < n && Valid() reads this, ll16, ll4 => Get(i))
    }
  }

  /** The T vector: entry i receives the rank of byte i. */
  method RankEntries(ll: Entries, cftabCopy: array<nat>, n: nat, ghost col: seq<Byte>)
    requires ll.Valid() && n == |col| <= ll.ll16.Length && n < 0x10_0000
    requires cftabCopy.Length == 257 && ll.ll16 != cftabCopy
    requires forall k :: 0 <= k < n ==> ll.ll16[k] == col[k]
    requires forall c: int :: 0 <= c < 256 ==> cftabCopy[c] == Below(col, c)
    modifies ll.ll16, ll.ll4, cftabCopy
    ensures ll.Valid() && ll.All(n) == RankTable(col)
  {
    hide Rank, Below, Pointers;
    PointersStart(cftabCopy[..], col);
    for i := 0 to n
      invariant ll.Valid() && Pointers(cftabCopy[..], col, i)
      invariant forall k :: 0 <= k < i ==> ll.Get(k) == Rank(col, k)
      invariant forall k :: i <= k < n ==> ll.ll16[k] == col[k]
    {
      var uc := ll.ll16[i] % 256;
      PlaceNext(cftabCopy[..], col, i);
      ll.Set(i, cftabCopy[uc]);
      cftabCopy[uc] := cftabCopy[uc] + 1;
    }
  }

  /** The positions met when following r from start, until it returns: a cycle of r. */
  ghost predicate Path(r: seq<int>, path: seq<int>, start: int) {
    && path != [] && path[0] == start
    && (forall k :: 0 <= k < |path| ==> 0 <= path[k] < |r|)
    && (forall k :: 0 <= k < |path| - 1 ==> r[path[k]] == path[k + 1])
    && (forall j, k :: 0 <= j < k < |path| ==> path[j] != path[k])
  }

  lemma PathShort(r: seq<int>, path: seq<int>, start: int)
    requires Path(r, path, start)
    ensures |path| <= |r|
  {
    PigeonHole(path, |r|);
  }

  /** The next position was not met after the start. */
  lemma NextIsNew(r: seq<int>, path: seq<int>, start: int)
    requires Path(r, path, start) && Injective(r, |r|)
    ensures r[path[|path| - 1]] !in path[1..]
  {
    var last := |path| - 1;
    forall k | 0 < k < |path| ensures path[k] != r[path[last]] {
      assert path[k - 1] != path[last];
      assert r[path[k - 1]] != r[path[last]];
    }
  }

  /** So the path grows, unless the next position closes the cycle. */
  lemma PathExtends(r: seq<int>, path: seq<int>, start: int)
    requires Path(r, path, start) && Injective(r, |r|)
    ensures var next := r[path[|path| - 1]];
            next == start || Path(r, path + [next], start)
  {
    NextIsNew(r, path, start);
    var next := r[path[|path| - 1]];
    forall k | 0 < k < |path| ensures path[k] != next {
      assert path[1..][k - 1] == path[k];
    }
  }

  /** Entries after m reversals: on the path they point back, elsewhere they are unchanged. */
  ghost predicate Reversed(e: seq<int>, r: seq<int>, path: seq<int>) {
    && |e| == |r| && path != []
    && (forall k :: 0 < k < |path| ==> 0 <= path[k] < |r| && e[path[k]] == path[k - 1])
    && (forall x :: 0 <= x < |r| && x !in path[1..] ==> e[x] == r[x])
  }

  /** A set of positions closed under the walk, on which the entries are the inverse of the ranks. */
  ghost predicate InvertedOn(e: seq<int>, t: seq<int>, cycle: set<int>) {
    |e| == |t| && forall x :: x in cycle ==> 0 <= x < |t| && e[x] == t[x] && t[x] in cycle
  }

  lemma OnCycle(e: seq<int>, t: seq<int>, cycle: set<int>, x: int)
    requires InvertedOn(e, t, cycle) && x in cycle
    ensures 0 <= x < |t| == |e| && e[x] == t[x] && t[x] in cycle
  {
  }

  lemma ReverseOne(e: seq<int>, r: seq<int>, path: seq<int>, start: int)
    requires Path(r, path, start) && Injective(r, |r|) && Reversed(e, r, path)
    ensures var last := path[|path| - 1];
            var next := r[last];
            && e[next] == r[next]
            && (next != start ==> Reversed(e[next := last], r, path + [next]))
            && (forall k :: 0 < k < |path| ==> e[next := last][path[k]] == path[k - 1])
  {
    var last := path[|path| - 1];
    var next := r[last];
    NextIsNew(r, path, start);
    var longer := path + [next];
    assert longer[1..] == path[1..] + [next];
    forall k | 0 < k < |path| ensures path[k] != next {
      assert path[1..][k - 1] == path[k];
    }
  }

  lemma CycleInverted(e: seq<int>, r: seq<int>, t: seq<int>, path: seq<int>, start: int)
    requires Inverse(r, t, |r|) && Path(r, path, start) && |e| == |r|
    requires r[path[|path| - 1]] == start && e[start] == path[|path| - 1]
    requires forall k :: 0 < k < |path| ==> e[path[k]] == path[k - 1]
    ensures InvertedOn(e, t, set x | x in path) && start in path
  {
    hide *;
    CycleStart(r, t, path, start);
    forall x | x in path ensures 0 <= x < |t| && e[x] == t[x] && t[x] in path {
      var k :| 0 <= k < |path| && path[k] == x;
      StepBack(r, t, path, start, k);
    }
    InvertedHere(e, t, set x | x in path);
  }

  lemma CycleStart(r: seq<int>, t: seq<int>, path: seq<int>, start: int)
    requires Inverse(r, t, |r|) && Path(r, path, start)
    ensures |t| == |r| && path != [] && path[0] == start
  {
  }

  /** The inverse leads from each entry of the cycle to the one before. */
  lemma StepBack(r: seq<int>, t: seq<int>, path: seq<int>, start: int, k: nat)
    requires Inverse(r, t, |r|) && Path(r, path, start) && k < |path|
    requires r[path[|path| - 1]] == start
    ensures 0 <= path[k] < |t| && t[path[k]] == path[if k == 0 then |path| - 1 else k - 1]
  {
    var before := path[if k == 0 then |path| - 1 else k - 1];
    assert r[before] == path[k];
    assert t[r[before]] == before;
  }

  lemma InvertedHere(e: seq<int>, t: seq<int>, cycle: set<int>)
    requires |e| == |t| && forall x :: x in cycle ==> 0 <= x < |t| && e[x] == t[x] && t[x] in cycle
    ensures InvertedOn(e, t, cycle)
  {
  }

  lemma InverseParts(r: seq<int>, t: seq<int>)
    requires Inverse(r, t, |r|)
    ensures Injective(r, |r|) && |t| == |r| && forall x :: 0 <= x < |r| ==> 0 <= r[x] < |r|
  {
  }

  /** Pointer reversal: terminates for every column and every starting row, and leaves the inverse
      permutation on the cycle of that row. */
  method ReverseCycle(ll: Entries, origPtr: nat, ghost r: seq<int>, ghost t: seq<int>) returns (ghost cycle: set<int>)
    requires ll.Valid() && |r| <= ll.ll16.Length && |r| < 0x10_0000
    requires Inverse(r, t, |r|) && ll.All(|r|) == r && origPtr < |r|
    modifies ll.ll16, ll.ll4
    ensures ll.Valid() && origPtr in cycle && InvertedOn(ll.All(|r|), t, cycle)
  {
    hide Inverse, Injective;
    InverseParts(r, t);
    var i := origPtr;
    var j := ll.Get(i);
    ghost var path := [i];
    while true
      invariant ll.Valid() && Path(r, path, origPtr) && Reversed(ll.All(|r|), r, path)
      invariant i == path[|path| - 1] && j == r[i]
      decreases |r| - |path|
    {
      PathShort(r, path, origPtr);
      PathExtends(r, path, origPtr);
      ReverseOne(ll.All(|r|), r, path, origPtr);
      ghost var before := ll.All(|r|);
      var tmp := ll.Get(j);
      ll.Set(j, i);
      assert ll.All(|r|) == before[j := i];
      if j != origPtr { PathShort(r, path + [j], origPtr); }
      i := j;
      j := tmp;
      if i == origPtr {
        CycleInverted(ll.All(|r|), r, t, path, origPtr);
        cycle := set x | x in path;
        break;
      }
      path := path + [i];
    }
  }

  // --- Reading the block, one byte per call ---

  /** BZ2_indexIntoF: the bucket that holds a position, by binary search. */
  method IndexIntoF(indx: nat, cftab: array<nat>) returns (nb: nat)
    requires cftab.Length == 257 && cftab[0] <= indx < cftab[256]
    ensures nb < 256 && cftab[nb] <= indx < cftab[nb + 1]
  {
    nb := 0;
    var na := 256;
    while true
      invariant 0 <= nb && nb + 2 <= na <= 256 && cftab[nb] <= indx < cftab[na]
      decreases na - nb
    {
      var mid := (nb + na) / 2;
      if indx >= cftab[mid] { nb := mid; } else { na := mid; }
      if na - nb == 1 { break; }
    }
  }

  /** FAST output state. */
  class FastBlock {
    const tt: array<nat>
    var tPos: nat
    var room: nat           // 100000 * blockSize100k
    ghost var col: seq<Byte>
    ghost var t: seq<int>
    ghost var pos: int

    ghost predicate Valid()
      reads this, tt
    {
      Cursor(col, t, pos) && Packed(tt[..], col, t) && tPos == t[pos] && |col| <= room <= tt.Length
    }

    /** The next k bytes. */
    ghost function Upcoming(k: nat): (r: seq<Byte>)
      requires Valid()
      reads this, tt
      ensures |r| == k
    {
      Walk(col, t, pos, k)
    }

    constructor (tt: array<nat>)
      ensures this.tt == tt
    {
      this.tt := tt;
    }

    /** Links the column and steps to the original row. */
    method Prepare(cftab: array<nat>, n: nat, origPtr: nat, room: nat, ghost column: seq<Byte>)
      requires n == |column| <= room <= tt.Length && cftab.Length == 257 && tt != cftab && origPtr < n
      requires forall k :: 0 <= k < n ==> tt[k] == column[k]
      requires forall c: int :: 0 <= c < 256 ==> cftab[c] == Below(column, c)
      modifies this, tt, cftab
      ensures Valid() && col == column && pos == origPtr
    {
      hide Inverse, RankTable, Below;
      t := LinkFast(tt, cftab, n, column);
      CursorNext(column, t, origPtr);
      col, pos, this.room := column, origPtr, room;
      tPos := tt[origPtr] / 256;
    }

    /** BZ_GET_FAST: the corruption test never fires on a decoded block. */
    method Get() returns (corrupt: bool, ch: Byte)
      requires Valid()
      modifies this
      ensures !corrupt && Valid() && col == old(col) && t == old(t) && pos == old(t[pos]) && room == old(room)
      ensures ch == old(col[t[pos]])
    {
      hide Inverse, RankTable;
      CursorNext(col, t, pos);
      CursorNext(col, t, t[pos]);
      ch := 0;
      corrupt := tPos >= room;
      if !corrupt {
        tPos := tt[tPos];
        ch := tPos % 256;
        tPos := tPos / 256;
        pos := t[pos];
      }
    }
  }

  /** A copy of cftab. */
  method CopyTable(cftab: array<nat>, cftabCopy: array<nat>)
    requires cftab.Length == 257 && cftabCopy.Length == 257 && cftab != cftabCopy
    modifies cftabCopy
    ensures cftabCopy[..] == cftab[..]
  {
    for i := 0 to 257
      invariant forall c :: 0 <= c < i ==> cftabCopy[c] == cftab[c]
    {
      cftabCopy[i] := cftab[i];
    }
  }

  /** SMALL output state. */
  class SmallBlock {
    const ll: Entries
    const cftab: array<nat>
    var tPos: nat
    var room: nat           // 100000 * blockSize100k
    ghost var col: seq<Byte>
    ghost var t: seq<int>
    ghost var cycle: set<int>

    ghost predicate Valid()
      reads this, ll, ll.ll16, ll.ll4, cftab
    {
      && ll.Valid() && |col| <= room <= ll.ll16.Length && cftab.Length == 257
      && Cursor(col, t, tPos) && tPos in cycle && InvertedOn(ll.All(|col|), t, cycle)
      && forall c: int :: 0 <= c <= 256 ==> cftab[c] == Below(col, c)
    }

    /** The next k bytes. */
    ghost function Upcoming(k: nat): (r: seq<Byte>)
      requires Valid()
      reads this, ll, ll.ll16, ll.ll4, cftab
      ensures |r| == k
    {
      Walk(col, t, tPos, k)
    }

    constructor (ll: Entries, cftab: array<nat>)
      ensures this.ll == ll && this.cftab == cftab
    {
      this.ll, this.cftab := ll, cftab;
    }

    method Prepare(cftabCopy: array<nat>, n: nat, origPtr: nat, room: nat, ghost column: seq<Byte>)
      requires ll.Valid() && n == |column| <= room <= ll.ll16.Length && n < 0x10_0000 && origPtr < n
      requires cftab.Length == 257 && cftabCopy.Length == 257
      requires cftab != cftabCopy && ll.ll16 != cftabCopy && ll.ll16 != cftab
      requires forall k :: 0 <= k < n ==> ll.ll16[k] == column[k]
      requires forall c: int :: 0 <= c <= 256 ==> cftab[c] == Below(column, c)
      modifies this, ll.ll16, ll.ll4, cftabCopy
      ensures Valid() && col == column && tPos == origPtr
    {
      hide Inverse, RankTable, Below, InvertedOn, Injective;
      CopyTable(cftab, cftabCopy);
      RankEntries(ll, cftabCopy, n, column);
      RanksInjective(column);
      t := InverseOf(RankTable(column));
      cycle := ReverseCycle(ll, origPtr, RankTable(column), t);
      col, tPos, this.room := column, origPtr, room;
    }

    /** Where the cursor stands and where it goes next. */
    lemma Next()
      requires Valid()
      ensures 0 <= tPos < ll.ll16.Length && ll.Get(tPos) == t[tPos] && t[tPos] in cycle
      ensures Cursor(col, t, t[tPos]) && |t| == |col|
      ensures cftab[0] <= tPos < cftab[256]
      ensures forall c: int :: 0 <= c < 256 && cftab[c] <= tPos < cftab[c + 1] ==> c == col[t[tPos]]
    {
      hide *;
      SmallParts();
      CursorNext(col, t, tPos);
      OnCycle(ll.All(|col|), t, cycle, tPos);
      BelowAll(col, 256);
      forall c: int | 0 <= c < 256 && cftab[c] <= tPos < cftab[c + 1] ensures c == col[t[tPos]] {
        CursorBucket(col, t, tPos, c);
      }
    }

    lemma SmallParts()
      requires Valid()
      ensures ll.Valid() && |col| <= ll.ll16.Length && cftab.Length == 257 && Cursor(col, t, tPos) && 0 <= tPos < |col| == |t|
      ensures tPos in cycle && InvertedOn(ll.All(|col|), t, cycle) && ll.All(|col|)[tPos] == ll.Get(tPos)
      ensures (forall c: int :: 0 <= c <= 256 ==> cftab[c] == Below(col, c)) && Below(col, 0) == 0
    {
      hide Inverse, RankTable, InvertedOn;
      CursorNext(col, t, tPos);
    }

    /** BZ_GET_SMALL: the byte from the bucket search, the position from the reversed entries. */
    method Get() returns (corrupt: bool, ch: Byte)
      requires Valid()
      modifies this
      ensures !corrupt && Valid() && col == old(col) && t == old(t) && tPos == old(t[tPos]) && room == old(room)
      ensures ch == old(col[t[tPos]])
    {
      hide Cursor, InvertedOn, Below;
      Next();
      ch := 0;
      corrupt := tPos >= room;
      if !corrupt {
        var b := IndexIntoF(tPos, cftab);
        ch := b;
        tPos := ll.Get(tPos);
      }
    }
  }

  /** FAST and SMALL, prepared from one column and one row, deliver the same bytes for as long as
      they are asked: for every column and every row, even one no encoder produces. */
  method SameBytes(f: FastBlock, s: SmallBlock, k: nat) returns (x: seq<Byte>, y: seq<Byte>)
    requires f.Valid() && s.Valid() && f.col == s.col && f.pos == s.tPos
    requires f as object != s
    modifies f, s
    ensures x == y == old(f.Upcoming(k))
  {
    hide Inverse, RankTable, InvertedOn, Below, Packed, FastBlock.Valid, SmallBlock.Valid, Injective, Walk;
    SameOrder(f, s);
    x, y := [], [];
    ghost var col, t := f.col, f.t;
    FastFacts(f);
    for i := 0 to k
      invariant Injective(t, |col|) && f.pos < |col|
      invariant f.Valid() && s.Valid() && f.col == s.col == col && f.t == s.t == t && f.pos == s.tPos
      invariant x == y && x + Walk(col, t, f.pos, k - i) == old(f.Upcoming(k))
    {
      ghost var rest := Walk(col, t, f.pos, k - i);
      WalkNext(col, t, f.pos, k - i);
      var c1, a := f.Get();
      var c2, b := s.Get();
      FastFacts(f);
      assert x + rest == (x + [a]) + Walk(col, t, f.pos, k - i - 1);
      x, y := x + [a], y + [b];
    }
    WalkNext(col, t, f.pos, 0);
  }

  lemma FastFacts(f: FastBlock)
    requires f.Valid()
    ensures Injective(f.t, |f.col|) && 0 <= f.pos < |f.col|
  {
    hide Packed;
  }

  lemma SameOrder(f: FastBlock, s: SmallBlock)
    requires f.Valid() && s.Valid() && f.col == s.col
    ensures f.t == s.t
  {
    hide InvertedOn, Below, Packed, RankTable;
    InverseUnique(RankTable(f.col), f.t, s.t);
  }

  lemma WalkNext(col: seq<Byte>, t: seq<int>, pos: nat, k: nat)
    requires Injective(t, |col|) && pos < |col|
    ensures |t| == |col| && 0 <= t[pos] < |col|
    ensures Walk(col, t, pos, k) == if k == 0 then [] else [col[t[pos]]] + Walk(col, t, t[pos], k - 1)
  {
  }

  lemma InverseUnique(r: seq<int>, t: seq<int>, u: seq<int>)
    requires Inverse(r, t, |r|) && Inverse(r, u, |r|)
    ensures t == u
  {
    forall k | 0 <= k < |r| ensures t[k] == u[k] {
      assert r[t[k]] == k && u[r[t[k]]] == t[k];
    }
  }

  lemma InverseOf(r: seq<int>) returns (t: seq<int>)
    requires Injective(r, |r|)
    ensures Inverse(r, t, |r|)
  {
    InjectiveIsPermutation(r, |r|);
    PermutationFacts(r, |r|);
    t := seq(|r|, k requires 0 <= k < |r| => Where(r, k));
    forall k | 0 <= k < |r| ensures t[r[k]] == k {
    }
    InverseFromOneSide(r, t, |r|);
  }

  ghost function Where(r: seq<int>, x: int): (k: int)
    requires x in r
    ensures 0 <= k < |r| && r[k] == x
  {
    var k :| 0 <= k < |r| && r[k] == x;
    k
  }
}

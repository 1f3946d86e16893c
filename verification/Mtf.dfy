/** Move-to-front coding with zero runs in bijective base 2 (generateMTFValues of compress.c),
    and the decoder's view of the same symbols (decompress.c). */
module Mtf {
  import opened Basics
  import opened Permutations
  import opened Rotations
  import opened Ranks

  // --- Lists ---

  function MoveToFront<T>(list: seq<T>, j: nat): (r: seq<T>)
    requires j < |list|
    ensures |r| == |list|
  {
    [list[j]] + list[..j] + list[j + 1..]
  }

  function IndexOf(list: seq<int>, x: int): (j: nat)
    requires x in list
    ensures j < |list| && list[j] == x && x !in list[..j]
  {
    if list[0] == x then 0 else 1 + IndexOf(list[1..], x)
  }

  lemma InPrefix(list: seq<int>, n: nat, k: nat)
    ensures k < n <= |list| ==> list[k] in list[..n]
  {
    if k < n <= |list| { assert list[..n][k] == list[k]; }
  }

  lemma MoveKeeps(list: seq<int>, j: nat)
    requires j < |list|
    ensures multiset(MoveToFront(list, j)) == multiset(list)
  {
    assert list == list[..j] + [list[j]] + list[j + 1..];
  }

  // --- Runs ---

  /** A run length in bijective base 2, low digit first: digit RUNA (0) counts 1, RUNB (1) counts 2. */
  function RunCode(z: nat): (r: seq<int>)
    ensures |r| <= z
    ensures forall k :: 0 <= k < |r| ==> r[k] == 0 || r[k] == 1
  {
    if z == 0 then [] else [if z % 2 == 1 then 0 else 1] + RunCode((z - 1) / 2)
  }

  function Repeat(x: Byte, n: nat): (r: seq<Byte>)
    ensures |r| == n && forall k :: 0 <= k < n ==> r[k] == x
  {
    seq(n, _ => x)
  }

  // --- The byte alphabet of a block ---

  /** The bytes in use, ascending: seqToUnseq. */
  function UsedBytes(inUse: seq<bool>): (r: seq<Byte>)
    requires |inUse| <= 256
    ensures |r| <= |inUse|
    ensures forall k :: 0 <= k < |r| ==> r[k] < |inUse|
  {
    if inUse == [] then []
    else UsedBytes(inUse[..|inUse| - 1]) + (if inUse[|inUse| - 1] then [|inUse| - 1] else [])
  }

  lemma UsedNext(inUse: seq<bool>, i: nat)
    requires i < |inUse| <= 256
    ensures UsedBytes(inUse[..i + 1]) == UsedBytes(inUse[..i]) + (if inUse[i] then [i] else [])
  {
    assert inUse[..i + 1][..i] == inUse[..i];
  }

  lemma {:induction false} UsedPrefix(inUse: seq<bool>, i: nat, j: nat)
    requires i <= j <= |inUse| <= 256
    ensures UsedBytes(inUse[..i]) <= UsedBytes(inUse[..j])
    decreases j
  {
    if i < j {
      UsedPrefix(inUse, i, j - 1);
      UsedNext(inUse, j - 1);
    }
  }

  /** unseqToSeq: the place of byte b among the bytes in use. */
  function Place(inUse: seq<bool>, b: Byte): (r: nat)
    requires |inUse| == 256
  {
    |UsedBytes(inUse[..b])|
  }

  lemma PlaceOf(inUse: seq<bool>, b: Byte)
    requires |inUse| == 256 && inUse[b]
    ensures Place(inUse, b) < |UsedBytes(inUse)| && UsedBytes(inUse)[Place(inUse, b)] == b
  {
    UsedNext(inUse, b);
    UsedPrefix(inUse, b + 1, 256);
    assert inUse[..256] == inUse;
  }

  // --- The encoder ---

  ghost predicate AllIn(places: seq<int>, list: seq<int>) {
    forall k :: 0 <= k < |places| ==> places[k] in list
  }

  lemma MoveAllIn(places: seq<int>, list: seq<int>, j: nat)
    requires AllIn(places, list) && j < |list|
    ensures AllIn(places, MoveToFront(list, j))
  {
    MoveKeeps(list, j);
    forall k | 0 <= k < |places| ensures places[k] in MoveToFront(list, j) {
      assert places[k] in multiset(list);
      assert places[k] in multiset(MoveToFront(list, j));
    }
  }

  /** The symbols for a column of places, from a list and a pending zero run, without the end mark. */
  function MtfSymbols(places: seq<int>, list: seq<int>, pend: nat): (r: seq<int>)
    requires list != [] && AllIn(places, list)
    ensures |r| <= pend + |places|
    ensures forall k :: 0 <= k < |r| ==> 0 <= r[k] <= |list|
    decreases |places|
  {
    if places == [] then RunCode(pend)
    else if places[0] == list[0] then MtfSymbols(places[1..], list, pend + 1)
    else
      var j := IndexOf(list, places[0]);
      MoveAllIn(places, list, j);
      RunCode(pend) + [j + 1] + MtfSymbols(places[1..], MoveToFront(list, j), 0)
  }

  // --- The decoder's state between symbols ---

  /** The move-to-front list, the bytes decoded so far, and the run being read:
      its length so far and the weight of the next digit. */
  datatype Unmtf = Unmtf(list: seq<Byte>, col: seq<Byte>, run: nat, weight: nat)

  /** The column with the current run written out. */
  function Flushed(u: Unmtf, used: seq<Byte>): (col: seq<Byte>)
    requires u.list != [] && u.list[0] < |used|
  {
    u.col + Repeat(used[u.list[0]], u.run)
  }

  ghost predicate Ready(u: Unmtf, used: seq<Byte>, n: nat) {
    && |u.list| == 256 && 0 < n <= 256 && |used| == n
    && (forall k :: 0 <= k < n ==> u.list[k] < n)
  }

  /** One symbol other than the end mark. */
  function Take(u: Unmtf, used: seq<Byte>, sym: int): (r: Unmtf)
    requires Ready(u, used, |used|) && 0 <= sym <= |used|
    ensures Ready(r, used, |used|)
  {
    if sym == 0 || sym == 1 then u.(run := u.run + (sym + 1) * u.weight, weight := 2 * u.weight)
    else
      var list := MoveToFront(u.list, sym - 1);
      Unmtf(list, Flushed(u, used) + [used[list[0]]], 0, 1)
  }

  function TakeAll(u: Unmtf, used: seq<Byte>, syms: seq<int>): (r: Unmtf)
    requires Ready(u, used, |used|) && forall k :: 0 <= k < |syms| ==> 0 <= syms[k] <= |used|
    ensures Ready(r, used, |used|)
    decreases |syms|
  {
    if syms == [] then u else TakeAll(Take(u, used, syms[0]), used, syms[1..])
  }

  lemma {:induction false} TakeConcat(u: Unmtf, used: seq<Byte>, a: seq<int>, b: seq<int>)
    requires Ready(u, used, |used|)
    requires forall k :: 0 <= k < |a| ==> 0 <= a[k] <= |used|
    requires forall k :: 0 <= k < |b| ==> 0 <= b[k] <= |used|
    ensures TakeAll(u, used, a + b) == TakeAll(TakeAll(u, used, a), used, b)
    decreases |a|
  {
    if a == [] {
      assert a + b == b;
    } else {
      assert (a + b)[1..] == a[1..] + b;
      TakeConcat(Take(u, used, a[0]), used, a[1..], b);
    }
  }

  lemma DigitValue(w: nat, z: nat)
    requires z > 0
    ensures (if z % 2 == 1 then 1 else 2) * w + (2 * w) * ((z - 1) / 2) == w * z
  {
    var q := (z - 1) / 2;
    if z % 2 == 1 {
      assert z == 2 * q + 1;
    } else {
      assert z == 2 * q + 2;
    }
  }

  /** Reading the digits of a run adds its length. */
  lemma {:induction false} TakeRun(u: Unmtf, used: seq<Byte>, z: nat)
    requires Ready(u, used, |used|)
    ensures var r := TakeAll(u, used, RunCode(z));
            r.list == u.list && r.col == u.col && r.run == u.run + u.weight * z
    decreases z
  {
    if z > 0 {
      DigitValue(u.weight, z);
      var code := RunCode(z);
      TakeRun(Take(u, used, code[0]), used, (z - 1) / 2);
      assert code[1..] == RunCode((z - 1) / 2);
    }
  }

  function Column(places: seq<int>, used: seq<Byte>): (r: seq<Byte>)
    requires forall k :: 0 <= k < |places| ==> 0 <= places[k] < |used|
    ensures |r| == |places| && forall k :: 0 <= k < |r| ==> r[k] == used[places[k]]
  {
    seq(|places|, k requires 0 <= k < |places| => used[places[k]])
  }

  /** The decoder's list is the encoder's, followed by the bytes not in use. */
  ghost predicate SameList(u: Unmtf, list: seq<int>, n: nat) {
    && |u.list| == 256 && 0 < n <= 256 && |list| == n && u.list[..n] == list
    && forall k :: 0 <= k < n ==> 0 <= list[k] < n
  }

  lemma MoveSame(u: Unmtf, list: seq<int>, n: nat, used: seq<Byte>, j: nat)
    requires SameList(u, list, n) && |used| == n && 1 <= j < n && Ready(u, used, n)
    ensures SameList(Take(u, used, j + 1), MoveToFront(list, j), n)
  {
    var a, b := MoveToFront(u.list, j), MoveToFront(list, j);
    assert a[..n] == b;
  }

  /** A run and the move that ends it. */
  lemma TakeMove(u: Unmtf, used: seq<Byte>, list: seq<int>, pend: nat, place: int) returns (w: Unmtf)
    requires SameList(u, list, |used|) && u.run == 0 && u.weight == 1
    requires place in list && place != list[0]
    ensures w == TakeAll(u, used, RunCode(pend) + [IndexOf(list, place) + 1])
    ensures SameList(w, MoveToFront(list, IndexOf(list, place)), |used|) && w.run == 0 && w.weight == 1
    ensures w.col == u.col + Repeat(used[list[0]], pend) + [used[place]]
  {
    hide RunCode, Repeat, Place, UsedBytes;
    var j := IndexOf(list, place);
    TakeRun(u, used, pend);
    TakeConcat(u, used, RunCode(pend), [j + 1]);
    var v := TakeAll(u, used, RunCode(pend));
    w := Take(v, used, j + 1);
    assert [j + 1][1..] == [];
    MoveSame(v, list, |used|, used, j);
    assert u.list[0] == u.list[..|used|][0] == list[0];
    assert w.list[0] == w.list[..|used|][0] == place;
  }

  /** Decoding undoes encoding, for every column and from every list. */
  lemma {:induction false} TakeBody(u: Unmtf, used: seq<Byte>, places: seq<int>, list: seq<int>, pend: nat)
    requires SameList(u, list, |used|) && u.run == 0 && u.weight == 1 && AllIn(places, list)
    requires forall k :: 0 <= k < |places| ==> 0 <= places[k] < |used|
    ensures Flushed(TakeAll(u, used, MtfSymbols(places, list, pend)), used)
         == u.col + Repeat(used[list[0]], pend) + Column(places, used)
    decreases |places|
  {
    hide *;
    SameFront(u, list, used);
    if places == [] {
      BodyEnds(u, used, list, pend);
    } else {
      ListTail(places, list);
      ColumnFirst(places, used);
      if places[0] == list[0] {
        BodyRuns(places, list, pend);
        TakeBody(u, used, places[1..], list, pend + 1);
        RepeatMore(used[list[0]], pend);
        Assoc4(u.col, Repeat(used[list[0]], pend), [used[places[0]]], Column(places[1..], used));
      } else {
        var next := BodyMoves(u, used, places, list, pend);
        var w := TakeMove(u, used, list, pend, places[0]);
        TakeBody(w, used, places[1..], next, 0);
        SameFront(w, next, used);
        RepeatNone(used[next[0]]);
        Assoc4(u.col, Repeat(used[list[0]], pend), [used[places[0]]], Column(places[1..], used));
        assert w.col + [] == w.col;
      }
    }
  }

  lemma SameFront(u: Unmtf, list: seq<int>, used: seq<Byte>)
    requires SameList(u, list, |used|)
    ensures |list| == |used| && list != [] && 0 <= list[0] < |used| && Ready(u, used, |used|)
  {
    forall k | 0 <= k < |used| ensures u.list[k] < |used| { assert u.list[k] == u.list[..|used|][k] == list[k]; }
  }

  lemma ListTail(places: seq<int>, list: seq<int>)
    requires places != [] && AllIn(places, list)
    ensures places[0] in list && AllIn(places[1..], list)
  {
  }

  lemma ColumnFirst(places: seq<int>, used: seq<Byte>)
    requires places != [] && forall k :: 0 <= k < |places| ==> 0 <= places[k] < |used|
    ensures Column(places, used) == [used[places[0]]] + Column(places[1..], used)
  {
  }

  lemma RepeatMore(x: Byte, n: nat)
    ensures Repeat(x, n + 1) == Repeat(x, n) + [x]
  {
  }

  lemma RepeatNone(x: Byte)
    ensures Repeat(x, 0) == []
  {
  }

  /** The last run. */
  lemma BodyEnds(u: Unmtf, used: seq<Byte>, list: seq<int>, pend: nat)
    requires SameList(u, list, |used|) && u.run == 0 && u.weight == 1
    ensures AllIn([], list)
    ensures Flushed(TakeAll(u, used, MtfSymbols([], list, pend)), used)
         == u.col + Repeat(used[list[0]], pend) + Column([], used)
  {
    hide RunCode, Repeat, TakeAll;
    SameFront(u, list, used);
    TakeRun(u, used, pend);
    assert u.list[0] == u.list[..|used|][0] == list[0];
  }

  lemma BodyRuns(places: seq<int>, list: seq<int>, pend: nat)
    requires places != [] && list != [] && AllIn(places, list) && AllIn(places[1..], list) && places[0] == list[0]
    ensures MtfSymbols(places, list, pend) == MtfSymbols(places[1..], list, pend + 1)
  {
  }

  /** A move splits the symbols after its own. */
  lemma BodyMoves(u: Unmtf, used: seq<Byte>, places: seq<int>, list: seq<int>, pend: nat) returns (next: seq<int>)
    requires Ready(u, used, |used|) && |list| == |used|
    requires places != [] && AllIn(places, list) && places[0] != list[0]
    ensures places[0] in list && next == MoveToFront(list, IndexOf(list, places[0])) && AllIn(places[1..], next)
    ensures TakeAll(u, used, MtfSymbols(places, list, pend))
         == TakeAll(TakeAll(u, used, RunCode(pend) + [IndexOf(list, places[0]) + 1]), used, MtfSymbols(places[1..], next, 0))
  {
    hide RunCode, Take, TakeAll, IndexOf, MoveToFront;
    var j := IndexOf(list, places[0]);
    next := MoveToFront(list, j);
    MoveAllIn(places, list, j);
    TakeConcat(u, used, RunCode(pend) + [j + 1], MtfSymbols(places[1..], next, 0));
  }
}

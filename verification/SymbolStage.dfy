/** The decoder's run and move-to-front loop (decompress.c): decoded bytes go straight into tt or ll16
    while unzftab counts them. */
module SymbolStage {
  import opened Basics
  import opened Permutations
  import opened Rotations
  import opened Ranks
  import opened Mtf
  import opened RunDigits
  import opened SlidingMtf
  import opened Unsort

  class BlockBuilder {
    const small: bool
    const tt: array<nat>
    const ll: Entries
    const unzftab: array<Int32>
    const list: SlidingList
    var nblock: nat
    var es: Int32           // run length so far, less one
    var weight: Int32       // N
    ghost var col: seq<Byte>

    ghost predicate Stored()
      reads this, tt, ll, ll.ll16, ll.ll4, unzftab
    {
      && unzftab.Length == 256 && ll.Valid() && nblock == |col| <= Room()
      && (forall k :: 0 <= k < nblock ==> (if small then ll.ll16[k] else tt[k]) == col[k])
      && (forall c :: 0 <= c < 256 ==> unzftab[c] == Count(col, c))
    }

    function Room(): nat
      reads this, ll
    {
      if small then ll.ll16.Length else tt.Length
    }

    ghost predicate Valid()
      reads this, tt, ll, ll.ll16, ll.ll4, unzftab, list, list.mtfa, list.mtfbase
    {
      && Stored() && list.Valid() && es >= -1 && 1 <= weight <= es + 2 && (es == -1 ==> weight == 1)
      && tt as object != unzftab && ll.ll16 as object != unzftab
    }

    /** The abstract state between two symbols. */
    ghost function Model(): (u: Unmtf)
      requires es >= -1 && weight >= 0
      reads this, list
    {
      Unmtf(list.list, col, es + 1, weight)
    }

    constructor (small: bool, size: nat)
      ensures Valid() && Room() == size && this.small == small && col == [] && tt != ll.ll16
      ensures fresh(tt) && fresh(ll) && fresh(ll.ll16) && fresh(ll.ll4) && fresh(unzftab)
      ensures fresh(list) && fresh(list.mtfa) && fresh(list.mtfbase)
    {
      this.small := small;
      var words: nat, entries: nat := if small then 0 else size, if small then size else 0;
      tt := new nat[words];
      ll := new Entries(entries);
      unzftab := new Int32[256](_ => 0);
      list := new SlidingList();
      nblock, es, weight, col := 0, -1, 1, [];
    }

    /** What stays true even after a block has been refused. */
    ghost predicate Shape()
      reads this, ll, ll.ll16, ll.ll4
    {
      ShapeSizes() && ll.Valid()
    }

    predicate ShapeSizes()
    {
      && unzftab.Length == 256 && tt as object != unzftab && ll.ll16 as object != unzftab
      && list.mtfa.Length == 4096 && list.mtfbase.Length == 16
    }

    lemma BlockFacts()
      requires Valid()
      ensures ShapeSizes() && ll.Valid() && nblock == |col| <= Room() && forall c :: 0 <= c < 256 ==> unzftab[c] == Count(col, c)
      ensures forall k :: 0 <= k < nblock ==> (if small then ll.ll16[k] else tt[k]) == col[k]
    {
    }

    /** The start of a block's symbols. */
    method Reset()
      requires Shape()
      modifies this, unzftab, list, list.mtfa, list.mtfbase
      ensures Valid() && col == [] && es == -1 && weight == 1
      ensures |list.list| == 256 && forall k :: 0 <= k < 256 ==> list.list[k] == k
    {
      forall c | 0 <= c < 256 { unzftab[c] := 0; }
      list.Fill();
      nblock, es, weight, col := 0, -1, 1, [];
    }

    lemma ValidShape()
      requires Valid()
      ensures Shape()
    {
    }

    lemma Facts()
      requires Valid()
      ensures es >= -1 && weight >= 1 && nblock == |col| && (es == -1 ==> weight == 1) && Shape() && InRange(Model())
    {
    }

    /** Whether the next statements of the source would leave 32 bits. */
    method Overflows(sym: int, used: seq<Byte>) returns (beyond: bool)
      requires Valid() && sym >= 0 && Ready(Model(), used, |used|) && |col| <= 900000
      ensures beyond == !SymbolFits(Model(), used, sym)
    {
      hide Count;
      Facts();
      if sym == 0 || sym == 1 {
        var digit: int, n: int := sym + 1, weight;
        beyond := es + digit * n > INT32_MAX || 2 * n > INT32_MAX;
      } else {
        var front := list.Front();
        var uc := used[front];
        var before: int, run: int := unzftab[uc], es + 1;
        beyond := run > INT32_MAX || before + run > INT32_MAX;
      }
    }

    /** One byte into the block. */
    method Store(uc: Byte)
      requires ll.Valid() && nblock < Room() && tt as object != unzftab && ll.ll16 as object != unzftab
      modifies `nblock, tt, ll.ll16
      ensures ll.Valid() && nblock == old(nblock) + 1
      ensures (if small then ll.ll16[old(nblock)] else tt[old(nblock)]) == uc
      ensures forall k :: 0 <= k < Room() && k != old(nblock) ==>
                (if small then ll.ll16[k] else tt[k]) == old(if small then ll.ll16[k] else tt[k])
    {
      if small {
        ll.ll16[nblock] := uc;
      } else {
        tt[nblock] := uc;
      }
      nblock := nblock + 1;
    }

    /** RUNA or RUNB. */
    method Digit(sym: int, ghost used: seq<Byte>)
      requires Valid() && (sym == 0 || sym == 1) && Ready(Model(), used, |used|) && DigitFits(Model(), sym)
      modifies `es, `weight
      ensures Valid() && col == old(col) && list.list == old(list.list)
      ensures Model() == Take(old(Model()), used, sym)
    {
      es := es + (sym + 1) * weight;
      weight := weight * 2;
    }

    /** The copies of the run, as far as there is room for them. */
    method FillRun(uc: Byte, nblockMAX: nat) returns (ok: bool)
      requires Shape() && es >= 0 && nblock == |col| <= nblockMAX <= Room() && list.Valid()
      requires forall k :: 0 <= k < nblock ==> (if small then ll.ll16[k] else tt[k]) == col[k]
      modifies `nblock, `es, `col, tt, ll.ll16
      ensures Shape() && (ok <==> |old(col)| + old(es) <= nblockMAX)
      ensures ok ==> es == 0 && nblock == |col| <= nblockMAX && col == old(col) + Repeat(uc, old(es))
      ensures ok ==> forall k :: 0 <= k < nblock ==> (if small then ll.ll16[k] else tt[k]) == col[k]
    {
      ghost var n, run, col0 := nblock, es, col;
      assert col0 + Repeat(uc, 0) == col0;
      while es > 0
        invariant Shape() && 0 <= es <= run && nblock == n + (run - es) == |col| && nblock <= nblockMAX
        invariant col == col0 + Repeat(uc, run - es)
        invariant forall k :: 0 <= k < nblock ==> (if small then ll.ll16[k] else tt[k]) == col[k]
      {
        if nblock >= nblockMAX { return false; }
        Store(uc);
        col := col + [uc];
        assert Repeat(uc, run - es + 1) == Repeat(uc, run - es) + [uc];
        es := es - 1;
      }
      ok := true;
    }

    /** The end of a run: the front byte, repeated. It fails when the block would overflow. */
    method FlushRun(used: seq<Byte>, nblockMAX: nat) returns (ok: bool)
      requires Valid() && Ready(Model(), used, |used|) && nblock <= nblockMAX <= Room() && FlushFits(Model(), used)
      modifies this, unzftab, tt, ll.ll16
      ensures Shape() && (ok <==> |old(col)| + old(es) + 1 <= nblockMAX)
      ensures ok ==> Valid() && nblock <= nblockMAX && col == Flushed(old(Model()), used)
      ensures ok ==> es == -1 && weight == 1 && list.list == old(list.list)
    {
      hide Count, Repeat;
      ValidShape();
      var front := list.Front();
      var uc := used[front];
      es := es + 1;
      unzftab[uc] := unzftab[uc] + es;
      ghost var run, col0 := es, col;
      ok := FillRun(uc, nblockMAX);
      if !ok { return; }
      forall c | 0 <= c < 256 ensures Count(col, c) == unzftab[c] {
        CountRun(col0, uc, run);
      }
      es, weight := -1, 1;
    }

    /** A move-to-front position. */
    method Position(sym: int, used: seq<Byte>, nblockMAX: nat) returns (ok: bool)
      requires Valid() && Ready(Model(), used, |used|) && nblock <= nblockMAX <= Room() && es == -1 && weight == 1
      requires 2 <= sym <= |used| && nblockMAX <= 900000
      modifies this, unzftab, tt, ll.ll16, list, list.mtfa, list.mtfbase
      ensures Shape() && (ok <==> |old(col)| < nblockMAX)
      ensures ok ==> Valid() && nblock <= nblockMAX && Model() == Take(old(Model()), used, sym)
    {
      hide Count, MoveToFront;
      ValidShape();
      if nblock >= nblockMAX { return false; }
      ghost var u := Model();
      TakeAtRest(u, used, sym);
      var x := list.Take(sym - 1);
      var uc := used[x];
      unzftab[uc] := unzftab[uc] + 1;
      CountOne(col, uc);
      Store(uc);
      col := col + [uc];
      ok := true;
    }
  }

  lemma {:induction false} CountRun(s: seq<int>, x: Byte, n: nat)
    ensures forall c: int :: Count(s + Repeat(x, n), c) == Count(s, c) + (if c == x then n else 0)
    ensures s + Repeat(x, 0) == s
  {
    assert s + Repeat(x, 0) == s;
    if n > 0 {
      CountRun(s, x, n - 1);
      assert s + Repeat(x, n) == s + Repeat(x, n - 1) + [x];
      CountOne(s + Repeat(x, n - 1), x);
    }
  }

  lemma CountOne(s: seq<int>, x: int)
    ensures forall c: int :: Count(s + [x], c) == Count(s, c) + (if c == x then 1 else 0)
  {
    assert (s + [x])[..|s|] == s;
  }

  /** A position, with no run pending. */
  lemma TakeAtRest(u: Unmtf, used: seq<Byte>, sym: int)
    requires Ready(u, used, |used|) && u.run == 0 && 2 <= sym <= |used|
    ensures u.list[sym - 1] < |used|
    ensures MoveToFront(u.list, sym - 1)[0] == u.list[sym - 1]
    ensures Take(u, used, sym) == Unmtf(MoveToFront(u.list, sym - 1), u.col + [used[u.list[sym - 1]]], 0, 1)
  {
    assert u.col + Repeat(used[u.list[0]], 0) == u.col;
  }
}

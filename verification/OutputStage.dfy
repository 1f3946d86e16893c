/** unRLE_obuf_to_output_FAST and _SMALL (bzlib.c): the decoder's last stage, suspended whenever the
    output buffer is full. */
module OutputStage {
  import opened Basics
  import opened Permutations
  import opened Rotations
  import opened Ranks
  import opened Mtf
  import opened Unsort
  import opened RunLength
  import opened BlockCrc

  /** The run being delivered, then everything from byte i of the block on. */
  function Future(ch: Byte, len: nat, w: seq<Byte>, n: nat, i: nat): (r: Expansion)
    requires |w| == n + 2
  {
    Prepended(Repeat(ch, len), Expand(w, n, i))
  }

  /** A block's walk, two bytes past its end. */
  ghost function Walked(col: seq<Byte>, t: seq<int>, pos: int): (w: seq<Byte>)
    requires Injective(t, |col|) && 0 <= pos < |col|
    ensures |w| == |col| + 2
  {
    Walk(col, t, pos, |col| + 2)
  }

  function Min(a: nat, b: nat): nat { if a < b then a else b }

  lemma EmitOne(ch: Byte, len: nat, w: seq<Byte>, n: nat, i: nat)
    requires |w| == n + 2 && len > 0
    ensures Future(ch, len, w, n, i).bytes == [ch] + Future(ch, len - 1, w, n, i).bytes
    ensures Future(ch, len, w, n, i).broken == Future(ch, len - 1, w, n, i).broken
  {
    hide Expand;
    assert Repeat(ch, len) == [ch] + Repeat(ch, len - 1);
  }

  lemma NoRun(ch: Byte, w: seq<Byte>, n: nat, i: nat)
    requires |w| == n + 2
    ensures Future(ch, 0, w, n, i) == Expand(w, n, i)
    ensures i >= n ==> Expand(w, n, i) == Expansion([], i > n)
  {
    hide Expand;
    assert Repeat(ch, 0) == [];
    if i >= n { PastEnd(w, n, i); }
  }

  lemma PastEnd(w: seq<Byte>, n: nat, i: nat)
    requires |w| == n + 2 && i >= n
    ensures Expand(w, n, i) == Expansion([], i > n)
  {
  }

  /** Starting a run at byte i: how far the comparisons go decides what is delivered. */
  lemma StartRun(w: seq<Byte>, n: nat, i: nat)
    requires |w| == n + 2 && i < n
    ensures i + 1 == n || w[i + 1] != w[i] ==> Expand(w, n, i) == Future(w[i], 1, w, n, i + 1)
    ensures i + 1 < n && w[i + 1] == w[i] && (i + 2 == n || w[i + 2] != w[i]) ==> Expand(w, n, i) == Future(w[i], 2, w, n, i + 2)
    ensures i + 2 < n && w[i + 1] == w[i] && w[i + 2] == w[i] && (i + 3 == n || w[i + 3] != w[i]) ==>
              Expand(w, n, i) == Future(w[i], 3, w, n, i + 3)
    ensures i + 3 < n && w[i + 1] == w[i] && w[i + 2] == w[i] && w[i + 3] == w[i] ==>
              Expand(w, n, i) == Future(w[i], 4 + w[i + 4] as nat, w, n, i + 5)
  {
    hide Repeat;
  }

  // --- FAST ---

  class FastOutput {
    const block: FastBlock
    var ch: Byte
    var len: nat
    var used: nat
    var k0: Byte
    var crc: bv32
    ghost var w: seq<Byte>

    /** The block's cursor stands at byte `used` of its walk. */
    ghost predicate Aligned()
      reads `used, `w, block, block.tt
    {
      && block.Valid() && |w| == |block.col| + 2 && used <= |w|
      && block.Upcoming(|w| - used) == w[used..]
    }

    ghost predicate Valid()
      reads this, block, block.tt
    {
      Aligned() && |w| == |block.col| + 2 && 1 <= used <= |w| && (used <= |block.col| ==> k0 == w[used - 1])
    }

    /** Everything still to be delivered. */
    ghost function Left(): (r: Expansion)
      requires Valid()
      reads this, block, block.tt
    {
      Future(ch, len, w, |block.col|, used - 1)
    }

    predicate Finished(nblock: nat)
      reads this
    {
      used == nblock + 1 && len == 0
    }

    constructor (block: FastBlock)
      ensures this.block == block
    {
      this.block := block;
    }

    /** The end of a block's parsing: fetches the first byte. */
    method Start()
      requires block.Valid()
      modifies this, block
      ensures Valid() && block.col == old(block.col) && crc == INIT
      ensures w == Walked(block.col, old(block.t), old(block.pos))
      ensures Left() == Expand(w, |block.col|, 0)
    {
      hide Inverse, RankTable, Packed, Expand;
      CursorNext(block.col, block.t, block.pos);
      w := Walked(block.col, block.t, block.pos);
      ch, len, crc := 0, 0, INIT;
      var corrupt, k := block.Get();
      k0, used := k, 1;
      NoRun(ch, w, |block.col|, 0);
    }

    /** BZ_GET_FAST and nblock_used++. */
    method Fetch() returns (corrupt: bool, k1: Byte)
      requires used < |w| && Aligned()
      modifies block, `used
      ensures !corrupt && used == old(used) + 1 && k1 == w[old(used)] && Aligned()
      ensures block.col == old(block.col) && block.t == old(block.t) && block.room == old(block.room)
    {
      hide Inverse, RankTable, Packed;
      CursorNext(block.col, block.t, block.pos);
      ghost var rest := w[used..];
      corrupt, k1 := block.Get();
      used := used + 1;
      assert rest[1..] == w[used..] && rest[0] == w[used - 1];
    }

    /** Starts the next run. A run of one is delivered without storing its length. */
    method NewRun(nblockPP: nat) returns (single: bool)
      requires Valid() && used <= |block.col| && nblockPP == |block.col| + 1
      modifies this, block
      ensures Valid() && used > old(used) && w == old(w) && crc == old(crc)
      ensures block.col == old(block.col) && block.t == old(block.t) && block.room == old(block.room)
      ensures Future(ch, if single then 1 else len, w, |block.col|, used - 1) == old(Expand(w, |block.col|, used - 1))
      ensures !single ==> len >= 2
    {
      hide Expand, Repeat, Future, Aligned;
      ghost var n, i := |block.col|, used - 1;
      StartRun(w, n, i);
      ch := k0;
      var corrupt, k1 := Fetch();
      if k1 != k0 { k0 := k1; return true; }
      if used == nblockPP { return true; }
      len := 2;
      corrupt, k1 := Fetch();
      if used == nblockPP { return false; }
      if k1 != k0 { k0 := k1; return false; }
      len := 3;
      corrupt, k1 := Fetch();
      if used == nblockPP { return false; }
      if k1 != k0 { k0 := k1; return false; }
      corrupt, k1 := Fetch();
      len := k1 as nat + 4;
      corrupt, k1 := Fetch();
      k0 := k1;
      return false;
    }

    /** One byte of output. */
    method Emit(avail: nat, out: seq<Byte>) returns (avail1: nat, out1: seq<Byte>)
      requires avail > 0
      modifies `crc
      ensures avail1 == avail - 1 && out1 == out + [ch] && crc == Update(old(crc), ch)
    {
      crc := Update(crc, ch);
      avail1, out1 := avail - 1, out + [ch];
    }

    twostate lemma SameState()
      requires old(Valid()) && w == old(w) && used == old(used) && k0 == old(k0) && ch == old(ch) && len == old(len)
      requires block.tPos == old(block.tPos) && block.pos == old(block.pos) && block.col == old(block.col)
      requires block.t == old(block.t) && block.room == old(block.room) && unchanged(block.tt)
      ensures Valid() && Left() == old(Left())
    {
      hide Inverse, RankTable, Packed, Expand;
      assert block.tt[..] == old(block.tt[..]);
    }

    /** The part of the loop that tries to finish the run in hand. */
    method FinishRun(single: bool, availOut: nat, avail0: nat, out0: seq<Byte>, ghost all: Expansion, ghost start: bv32)
      returns (full: bool, avail: nat, out: seq<Byte>)
      requires Valid() && (len > 0 || single) && avail0 + |out0| == availOut && crc == Fold(start, out0)
      requires Accounts(all, out0, Future(ch, if single then 1 else len, w, |block.col|, used - 1))
      modifies `crc, `len
      ensures Valid() && avail + |out| == availOut && crc == Fold(start, out)
      ensures full ==> FastDrained(all, availOut, false, out, Left(), false) && len > 0
      ensures !full ==> Accounts(all, out, Expand(w, |block.col|, used - 1))
    {
      hide Expand, Repeat, Aligned, Update, Fold, Future;
      avail, out := avail0, out0;
      if !single {
        while len != 1
          invariant Valid() && len > 0 && avail + |out| == availOut && crc == Fold(start, out)
          invariant Accounts(all, out, Left())
          decreases len
        {
          EmitOne(ch, len, w, |block.col|, used - 1);
          if avail == 0 { return true, avail, out; }
          FoldOne(start, out, ch);
          avail, out := Emit(avail, out);
          len := len - 1;
        }
      }
      EmitOne(ch, 1, w, |block.col|, used - 1);
      if avail == 0 {
        len := 1;
        return true, avail, out;
      }
      FoldOne(start, out, ch);
      avail, out := Emit(avail, out);
      NoRun(ch, w, |block.col|, used - 1);
      full := false;
    }

    /** unRLE_obuf_to_output_FAST. When the data is found corrupt nothing is saved and nothing is
        accounted for as delivered. */
    method Drain(availOut: nat, nblock: nat) returns (corrupt: bool, out: seq<Byte>)
      requires Valid() && nblock == |block.col|
      modifies this, block
      ensures Valid() && w == old(w) && block.col == old(block.col) && block.t == old(block.t) && block.room == old(block.room)
      ensures FastDrained(old(Left()), availOut, corrupt, out, Left(), Finished(nblock))
      ensures crc == Fold(old(crc), out)
    {
      hide Expand, Repeat, Aligned, Update, Fold, Future;
      ghost var all := Left();
      var start := crc;
      var ch0, len0, used0, k00, tPos0 := ch, len, used, k0, block.tPos;
      ghost var pos0 := block.pos;
      var avail: nat, nblockPP, single := availOut, nblock + 1, false;
      out := [];
      FoldNothing(crc);
      while true
        invariant Valid() && w == old(w) && block.col == old(block.col) && block.t == old(block.t) && block.room == old(block.room)
        invariant avail + |out| == availOut && crc == Fold(start, out)
        invariant Accounts(all, out, Future(ch, if single then 1 else len, w, |block.col|, used - 1))
        decreases |w| - used
      {
        NoRun(ch, w, |block.col|, used - 1);
        if len > 0 || single {
          var full;
          full, avail, out := FinishRun(single, availOut, avail, out, all, start);
          if full { return false, out; }
        }
        if used > nblockPP {
          ch, len, used, k0, crc, block.tPos := ch0, len0, used0, k00, start, tPos0;
          block.pos := pos0;
          SameState();
          return true, [];
        }
        if used == nblockPP {
          len := 0;
          NoRun(ch, w, |block.col|, used - 1);
          return false, out;
        }
        single := NewRun(nblockPP);
      }
    }
  }

  // --- SMALL ---

  class SmallOutput {
    const block: SmallBlock
    var ch: Byte
    var len: nat
    var used: nat
    var k0: Byte
    var crc: bv32
    ghost var w: seq<Byte>

    ghost predicate Aligned()
      reads `used, `w, block, block.ll, block.ll.ll16, block.ll.ll4, block.cftab
    {
      && block.Valid() && |w| == |block.col| + 2 && used <= |w|
      && block.Upcoming(|w| - used) == w[used..]
    }

    ghost predicate Valid()
      reads this, block, block.ll, block.ll.ll16, block.ll.ll4, block.cftab
    {
      Aligned() && |w| == |block.col| + 2 && 1 <= used <= |w| && (used <= |block.col| ==> k0 == w[used - 1])
    }

    ghost function Left(): (r: Expansion)
      requires Valid()
      reads this, block, block.ll, block.ll.ll16, block.ll.ll4, block.cftab
    {
      Future(ch, len, w, |block.col|, used - 1)
    }

    predicate Finished(nblock: nat)
      reads this
    {
      used == nblock + 1 && len == 0
    }

    constructor (block: SmallBlock)
      ensures this.block == block
    {
      this.block := block;
    }

    method Start()
      requires block.Valid()
      modifies this, block
      ensures Valid() && block.col == old(block.col) && crc == INIT
      ensures w == Walked(block.col, old(block.t), old(block.tPos))
      ensures Left() == Expand(w, |block.col|, 0)
    {
      hide Inverse, RankTable, InvertedOn, Below, Expand;
      CursorNext(block.col, block.t, block.tPos);
      w := Walked(block.col, block.t, block.tPos);
      ch, len, crc := 0, 0, INIT;
      var corrupt, k := block.Get();
      k0, used := k, 1;
      NoRun(ch, w, |block.col|, 0);
    }

    /** BZ_GET_SMALL and nblock_used++. */
    method Fetch() returns (corrupt: bool, k1: Byte)
      requires Aligned() && used < |w|
      modifies block, `used
      ensures !corrupt && used == old(used) + 1 && k1 == w[old(used)] && Aligned()
      ensures block.col == old(block.col) && block.t == old(block.t) && block.room == old(block.room)
    {
      hide Inverse, RankTable, InvertedOn, Below;
      CursorNext(block.col, block.t, block.tPos);
      ghost var rest := w[used..];
      corrupt, k1 := block.Get();
      used := used + 1;
      assert rest[1..] == w[used..] && rest[0] == w[used - 1];
    }

    /** Starts the next run. */
    method NewRun(nblockPP: nat)
      requires Valid() && used <= |block.col| && nblockPP == |block.col| + 1
      modifies this, block
      ensures Valid() && used > old(used) && w == old(w) && crc == old(crc) && len > 0
      ensures block.col == old(block.col) && block.t == old(block.t) && block.room == old(block.room)
      ensures Future(ch, len, w, |block.col|, used - 1) == old(Expand(w, |block.col|, used - 1))
    {
      hide *;
      Facts(nblockPP);
      StartRun(w, |block.col|, used - 1);
      len := 1;
      ch := k0;
      var corrupt, k1 := Fetch();
      if used == nblockPP { StillValid(); return; }
      if k1 != k0 { k0 := k1; StillValid(); return; }
      len := 2;
      corrupt, k1 := Fetch();
      if used == nblockPP { StillValid(); return; }
      if k1 != k0 { k0 := k1; StillValid(); return; }
      len := 3;
      corrupt, k1 := Fetch();
      if used == nblockPP { StillValid(); return; }
      if k1 != k0 { k0 := k1; StillValid(); return; }
      corrupt, k1 := Fetch();
      len := k1 as nat + 4;
      corrupt, k1 := Fetch();
      k0 := k1;
      StillValid();
    }

    method Emit(avail: nat, out: seq<Byte>) returns (avail1: nat, out1: seq<Byte>)
      requires avail > 0
      modifies `crc
      ensures avail1 == avail - 1 && out1 == out + [ch] && crc == Update(old(crc), ch)
    {
      crc := Update(crc, ch);
      avail1, out1 := avail - 1, out + [ch];
    }

    /** unRLE_obuf_to_output_SMALL. Unlike FAST it accounts for what it delivered before the data was
        found corrupt, and it looks for the end of the block only while there is room for output. */
    method Drain(availOut: nat, nblock: nat) returns (corrupt: bool, out: seq<Byte>)
      requires Valid() && nblock == |block.col|
      modifies this, block
      ensures Valid() && w == old(w) && block.col == old(block.col) && block.t == old(block.t) && block.room == old(block.room)
      ensures SmallDrained(old(Left()), availOut, corrupt, out, Left(), Finished(nblock))
      ensures crc == Fold(old(crc), out)
    {
      hide *;
      ghost var all, start := Left(), crc;
      var avail: nat, nblockPP := availOut, nblock + 1;
      out := [];
      FoldNothing(crc);
      NothingOut(all);
      while true
        invariant Valid() && w == old(w) && block.col == old(block.col) && block.t == old(block.t) && block.room == old(block.room)
        invariant avail + |out| == availOut && crc == Fold(start, out) && Accounts(all, out, Left())
        decreases |w| - used, len
      {
        Facts(nblock);
        NoRun(ch, w, |block.col|, used - 1);
        if avail == 0 {
          NothingLeft(ch, len, w, |block.col|, used - 1);
          RoomUsed(all, out, Left(), Finished(nblock));
          return false, out;
        }
        if len == 0 {
          BlockUsed(all, out, Left(), avail);
          if used == nblockPP { return false, out; }
          if used > nblockPP { return true, out; }
          NewRun(nblockPP);
          Facts(nblock);
        } else {
          EmitOne(ch, len, w, |block.col|, used - 1);
          OneOut(all, out, Left(), ch, Future(ch, len - 1, w, |block.col|, used - 1));
          FoldOne(start, out, ch);
          avail, out := Emit(avail, out);
          len := len - 1;
          StillValid();
          Facts(nblock);
        }
      }
    }

    lemma Facts(nblock: nat)
      requires Valid()
      ensures |w| == |block.col| + 2 && 1 <= used <= |w| && Left() == Future(ch, len, w, |block.col|, used - 1)
      ensures Aligned() && (used <= |block.col| ==> k0 == w[used - 1])
      ensures Finished(nblock) <==> used == nblock + 1 && len == 0
    {
      hide Aligned, Future;
    }

    lemma StillValid()
      requires Aligned() && |w| == |block.col| + 2 && 1 <= used <= |w| && (used <= |block.col| ==> k0 == w[used - 1])
      ensures Valid()
    {
      hide Aligned;
    }
  }

  lemma NothingOut(all: Expansion)
    ensures Accounts(all, [], all)
  {
  }

  lemma OneOut(all: Expansion, out: seq<Byte>, left: Expansion, x: Byte, rest: Expansion)
    requires Accounts(all, out, left) && left.bytes == [x] + rest.bytes && left.broken == rest.broken
    ensures Accounts(all, out + [x], rest)
  {
  }

  lemma RoomUsed(all: Expansion, out: seq<Byte>, left: Expansion, finished: bool)
    requires Accounts(all, out, left) && (finished <==> left.bytes == [] && !left.broken)
    ensures SmallDrained(all, |out|, false, out, left, finished)
  {
  }

  lemma BlockUsed(all: Expansion, out: seq<Byte>, left: Expansion, avail: nat)
    requires Accounts(all, out, left) && avail > 0
    ensures left.bytes == [] ==> SmallDrained(all, avail + |out|, left.broken, out, left, !left.broken)
  {
  }

  /** Only at the very end of a block is nothing left. */
  lemma NothingLeft(ch: Byte, len: nat, w: seq<Byte>, n: nat, i: nat)
    requires |w| == n + 2
    ensures var f := Future(ch, len, w, n, i);
            (f.bytes == [] && !f.broken) <==> (len == 0 && i == n)
    ensures len == 0 && i == n ==> Future(ch, len, w, n, i) == Expansion([], false)
  {
  }

  /** What has been written and what is left make up what there was. */
  ghost predicate Accounts(all: Expansion, out: seq<Byte>, left: Expansion) {
    all.bytes == out + left.bytes && all.broken == left.broken
  }

  /** What one call of the output stage did: a prefix of what was left, as long as the room for it
      allows, and the rest is still to come. FAST reports a broken block even with no room left. */
  ghost predicate FastDrained(all: Expansion, availOut: nat, corrupt: bool, out: seq<Byte>, left: Expansion, finished: bool) {
    && (corrupt <==> all.broken && |all.bytes| <= availOut)
    && out == (if corrupt then [] else all.bytes[..Min(availOut, |all.bytes|)])
    && left == Expansion(all.bytes[|out|..], all.broken)
    && (!corrupt ==> (finished <==> |all.bytes| <= availOut))
  }

  /** The same for SMALL, which notices a broken block only while there is room left. */
  ghost predicate SmallDrained(all: Expansion, availOut: nat, corrupt: bool, out: seq<Byte>, left: Expansion, finished: bool) {
    && (corrupt <==> all.broken && |all.bytes| < availOut)
    && out == all.bytes[..Min(availOut, |all.bytes|)]
    && left == Expansion(all.bytes[|out|..], all.broken)
    && (finished <==> |all.bytes| <= availOut && !all.broken)
  }

  /** A broken block: four equal bytes, and no count. The loop takes the next byte of the walk for one. */
  lemma BrokenText()
    ensures Expand([97, 97, 97, 97, 97, 97], 4, 0) == Expansion(Repeat(97, 101), true)
  {
    var w: seq<Byte> := [97, 97, 97, 97, 97, 97];
    assert RunAt(w, 4, 0) == 4 && w[4] == 97;
    assert Expand(w, 4, 5) == Expansion([], true);
    assert Repeat(97, 101) + [] == Repeat(97, 101);
  }

  /** What FAST delivers of it depends on the caller's buffers: nothing in one call with room for all,
      a hundred bytes in two calls. SMALL delivers all of it in either case. */
  lemma FastDependsOnRoom(corrupt: bool, out: seq<Byte>, left: Expansion, finished: bool)
    ensures FastDrained(Expansion(Repeat(97, 101), true), 200, corrupt, out, left, finished) ==> corrupt && out == []
    ensures FastDrained(Expansion(Repeat(97, 101), true), 100, corrupt, out, left, finished) ==>
              !corrupt && out == Repeat(97, 100) && left == Expansion([97], true)
    ensures FastDrained(Expansion([97], true), 100, corrupt, out, left, finished) ==> corrupt && out == []
    ensures SmallDrained(Expansion(Repeat(97, 101), true), 200, corrupt, out, left, finished) ==> corrupt && out == Repeat(97, 101)
  {
    var all: seq<Byte> := Repeat(97, 101);
    assert all[..100] == Repeat(97, 100) && all[100..] == [97] && all[..101] == all;
  }

  lemma FoldNothing(c: bv32)
    ensures Fold(c, []) == c
  {
  }
}

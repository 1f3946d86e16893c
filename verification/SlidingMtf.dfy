/** The decompressor's move-to-front structure (decompress.c): sixteen 16-byte segments that slide
    down a 4096-byte array, rebuilt at the top when they reach the bottom. */
module SlidingMtf {
  import opened Basics
  import opened Mtf

  // --- What an array and the segment bases stand for ---

  ghost predicate Placed(a: seq<Byte>, base: seq<int>) {
    && |a| == 4096 && |base| == 16
    && (forall i :: 0 <= i < 16 ==> 0 <= base[i] <= 4080)
    && forall i :: 0 <= i < 15 ==> base[i] + 16 <= base[i + 1]
  }

  /** Disjoint segments hold the list in order. */
  ghost predicate Stands(a: seq<Byte>, base: seq<int>, list: seq<Byte>) {
    && Placed(a, base) && |list| == 256
    && forall i :: 0 <= i < 16 ==> a[base[i]..base[i] + 16] == list[16 * i..16 * i + 16]
  }

  lemma Apart(a: seq<Byte>, base: seq<int>, i: int, k: int)
    requires Placed(a, base) && 0 <= i < k < 16
    ensures base[i] + 16 <= base[k]
    decreases k - i
  {
    if i + 1 < k { Apart(a, base, i + 1, k); }
  }

  lemma StandsAt(a: seq<Byte>, base: seq<int>, list: seq<Byte>, i: nat, j: nat)
    requires Stands(a, base, list) && i < 16 && j < 16
    ensures a[base[i] + j] == list[16 * i + j]
  {
    assert a[base[i]..base[i] + 16][j] == list[16 * i..16 * i + 16][j];
  }

  /** Elements lo..lo+n moved up by one place. */
  function Shifted(a: seq<Byte>, lo: nat, n: nat): (r: seq<Byte>)
    requires lo + n < |a|
    ensures |r| == |a|
    ensures forall k :: 0 <= k < |a| ==> r[k] == if lo < k <= lo + n then a[k - 1] else a[k]
  {
    a[..lo + 1] + a[lo..lo + n] + a[lo + n + 1..]
  }

  lemma FirstSegment(a: seq<Byte>, lo: nat, nn: nat, list: seq<Byte>)
    requires |a| == 4096 && lo <= 4080 && nn < 16 && |list| == 256 && a[lo..lo + 16] == list[..16]
    ensures Shifted(a, lo, nn)[lo := list[nn]][lo..lo + 16] == MoveToFront(list, nn)[..16]
  {
    var x, y := Shifted(a, lo, nn)[lo := list[nn]][lo..lo + 16], MoveToFront(list, nn)[..16];
    forall k | 0 <= k < 16 ensures x[k] == y[k] {
      assert a[lo..lo + 16][k] == list[k];
      if 0 < k <= nn { assert a[lo..lo + 16][k - 1] == list[k - 1]; }
    }
  }

  lemma HoleSegment(a: seq<Byte>, lo: nat, l: nat, off: nat, list: seq<Byte>)
    requires |a| == 4096 && lo <= 4080 && off < 16 && 0 < l < 16 && |list| == 256
    requires a[lo..lo + 16] == list[16 * l..16 * l + 16]
    ensures Shifted(a, lo, off)[lo + 1..lo + 16] == MoveToFront(list, 16 * l + off)[16 * l + 1..16 * l + 16]
  {
    var x, y := Shifted(a, lo, off)[lo + 1..lo + 16], MoveToFront(list, 16 * l + off)[16 * l + 1..16 * l + 16];
    forall k | 0 <= k < 15 ensures x[k] == y[k] {
      assert a[lo..lo + 16][k] == list[16 * l + k] && a[lo..lo + 16][k + 1] == list[16 * l + k + 1];
    }
  }

  /** Rotating the first segment. */
  lemma Near(a: seq<Byte>, base: seq<int>, list: seq<Byte>, nn: nat)
    requires Stands(a, base, list) && nn < 16
    ensures a[base[0] + nn] == list[nn]
    ensures Stands(Shifted(a, base[0], nn)[base[0] := list[nn]], base, MoveToFront(list, nn))
  {
    var r, nl := Shifted(a, base[0], nn)[base[0] := list[nn]], MoveToFront(list, nn);
    StandsAt(a, base, list, 0, nn);
    forall i | 0 <= i < 16 ensures r[base[i]..base[i] + 16] == nl[16 * i..16 * i + 16] {
      assert a[base[i]..base[i] + 16] == list[16 * i..16 * i + 16];
      if i > 0 {
        Apart(a, base, 0, i);
        assert r[base[i]..base[i] + 16] == a[base[i]..base[i] + 16];
      } else {
        FirstSegment(a, base[0], nn, list);
      }
    }
  }

  /** While segment l waits for its first element: the segments above l hold the new list, those
      up to l hold it from their second element on, and all but l also the element after. */
  ghost predicate Carrying(a: seq<Byte>, base: seq<int>, nl: seq<Byte>, l: nat) {
    && |a| == 4096 && |base| == 16 && |nl| == 256 && l < 16
    && (forall i :: 0 <= i < 16 ==> 1 <= base[i] && base[i] + (if i <= l then 15 else 16) <= 4096)
    && (forall i :: 0 <= i < 15 ==> base[i] + (if i == l then 15 else 16) <= base[i + 1])
    && (forall i :: l < i < 16 ==> a[base[i]..base[i] + 16] == nl[16 * i..16 * i + 16])
    && (forall i :: 0 <= i <= l ==> a[base[i]..base[i] + 15] == nl[16 * i + 1..16 * i + 16])
    && (forall i :: 0 <= i < l ==> base[i] + 16 <= 4096 && a[base[i] + 15] == nl[16 * i + 16])
  }

  lemma ApartCarrying(a: seq<Byte>, base: seq<int>, nl: seq<Byte>, l: nat, i: int, k: int)
    requires Carrying(a, base, nl, l) && 0 <= i < k < 16
    ensures base[i] + (if i == l then 15 else 16) <= base[k]
    decreases k - i
  {
    if i + 1 < k { ApartCarrying(a, base, nl, l, i + 1, k); }
  }

  /** Taking an element out of a later segment opens a hole there. */
  lemma OpenHole(a: seq<Byte>, base: seq<int>, list: seq<Byte>, l: nat, off: nat)
    requires Stands(a, base, list) && base[0] > 0 && 0 < l < 16 && off < 16
    ensures a[base[l] + off] == list[16 * l + off]
    ensures Carrying(Shifted(a, base[l], off), base[l := base[l] + 1], MoveToFront(list, 16 * l + off), l)
  {
    var r, nl := Shifted(a, base[l], off), MoveToFront(list, 16 * l + off);
    var b := base[l := base[l] + 1];
    StandsAt(a, base, list, l, off);
    forall i | 0 <= i < 16
      ensures 1 <= b[i]
      ensures i > l ==> r[b[i]..b[i] + 16] == nl[16 * i..16 * i + 16]
      ensures i <= l ==> r[b[i]..b[i] + 15] == nl[16 * i + 1..16 * i + 16]
      ensures i < l ==> r[b[i] + 15] == nl[16 * i + 16]
    {
      if i > 0 { Apart(a, base, 0, i); }
      var s := a[base[i]..base[i] + 16];
      assert s == list[16 * i..16 * i + 16];
      if i > l {
        Apart(a, base, l, i);
        assert r[b[i]..b[i] + 16] == s;
      } else if i < l {
        Apart(a, base, i, l);
        assert r[b[i]..b[i] + 16] == s;
        assert s[..15] == r[b[i]..b[i] + 15] && s[15] == r[b[i] + 15];
        assert nl[16 * i + 1..16 * i + 16] == list[16 * i..16 * i + 15] == s[..15];
        assert nl[16 * i + 16] == list[16 * i + 15] == s[15];
      } else {
        HoleSegment(a, base[l], l, off, list);
      }
    }
  }

  /** Segment l slides down and takes the last element of the segment below. */
  lemma CarryOne(a: seq<Byte>, base: seq<int>, nl: seq<Byte>, l: nat)
    requires Carrying(a, base, nl, l) && l > 0
    ensures |a| == 4096 && 0 <= base[l - 1] && base[l - 1] + 15 < 4096 && 0 < base[l] <= 4096
    ensures Carrying(a[base[l] - 1 := a[base[l - 1] + 15]], base[l := base[l] - 1], nl, l - 1)
  {
    var q := base[l] - 1;
    ApartCarrying(a, base, nl, l, l - 1, l);
    var r, b := a[q := a[base[l - 1] + 15]], base[l := q];
    forall i | 0 <= i < 16
      ensures i >= l ==> r[b[i]..b[i] + 16] == nl[16 * i..16 * i + 16]
      ensures i < l ==> r[b[i]..b[i] + 15] == nl[16 * i + 1..16 * i + 16]
      ensures i < l - 1 ==> r[b[i] + 15] == nl[16 * i + 16]
    {
      if i > l {
        ApartCarrying(a, base, nl, l, l, i);
        assert r[b[i]..b[i] + 16] == a[base[i]..base[i] + 16];
      } else if i < l {
        ApartCarrying(a, base, nl, l, i, l);
        if i < l - 1 { ApartCarrying(a, base, nl, l, i, l - 1); }
        assert r[b[i]..b[i] + 15] == a[base[i]..base[i] + 15];
      } else {
        assert r[q..q + 16] == [nl[16 * l]] + a[base[l]..base[l] + 15];
        assert nl[16 * l..16 * l + 16] == [nl[16 * l]] + nl[16 * l + 1..16 * l + 16];
      }
    }
  }

  /** The first segment takes the moved element. */
  lemma CarryLast(a: seq<Byte>, base: seq<int>, nl: seq<Byte>)
    requires Carrying(a, base, nl, 0)
    ensures |a| == 4096 && 0 < base[0] <= 4096
    ensures Stands(a[base[0] - 1 := nl[0]], base[0 := base[0] - 1], nl)
  {
    var q := base[0] - 1;
    var r, b := a[q := nl[0]], base[0 := q];
    forall i | 0 <= i < 16 ensures r[b[i]..b[i] + 16] == nl[16 * i..16 * i + 16] {
      if i > 0 {
        ApartCarrying(a, base, nl, 0, 0, i);
        assert r[b[i]..b[i] + 16] == a[base[i]..base[i] + 16];
      } else {
        assert r[q..q + 16] == [nl[0]] + a[base[0]..base[0] + 15];
        assert nl[0..16] == [nl[0]] + nl[1..16];
      }
    }
  }

  // --- The structure ---

  class SlidingList {
    const mtfa: array<Byte>
    const mtfbase: array<int>
    ghost var list: seq<Byte>

    /** `list` is the abstract list; there is room to slide once more. */
    ghost predicate Valid()
      reads this, mtfa, mtfbase
    {
      mtfbase.Length == 16 && Stands(mtfa[..], mtfbase[..], list) && mtfbase[0] > 0
    }

    constructor ()
      ensures Valid() && fresh(mtfa) && fresh(mtfbase)
      ensures forall n :: 0 <= n < 256 ==> list[n] == n
    {
      mtfa := new Byte[4096](_ => 0);
      mtfbase := new int[16](_ => 0);
      new;
      Fill();
    }

    /** MTF init: the bytes in order, in the top 256 places. */
    method Fill()
      requires mtfa.Length == 4096 && mtfbase.Length == 16
      modifies this, mtfa, mtfbase
      ensures Valid() && forall n :: 0 <= n < 256 ==> list[n] == n
    {
      var kk := 4095;
      for ii := 16 downto 0
        invariant kk == 3839 + 16 * ii
        invariant forall k :: 3840 + 16 * ii <= k < 4096 ==> mtfa[k] == k - 3840
        invariant forall i :: ii <= i < 16 ==> mtfbase[i] == 3840 + 16 * i
      {
        for jj := 16 downto 0
          invariant kk == 3839 + 16 * ii + jj
          invariant forall k :: 3840 + 16 * ii + jj <= k < 4096 ==> mtfa[k] == k - 3840
          invariant forall i :: ii < i < 16 ==> mtfbase[i] == 3840 + 16 * i
        {
          mtfa[kk] := 16 * ii + jj;
          kk := kk - 1;
        }
        mtfbase[ii] := kk + 1;
      }
      list := mtfa[3840..];
      TopStands(mtfa[..], mtfbase[..], list);
    }

    /** The element at the front. */
    method Front() returns (uc: Byte)
      requires Valid()
      ensures |list| == 256 && uc == list[0]
    {
      Sizes(mtfa[..], mtfbase[..], list);
      StandsAt(mtfa[..], mtfbase[..], list, 0, 0);
      uc := mtfa[mtfbase[0]];
    }

    /** MTF(nn): delivers the element at nn and moves it to the front. */
    method Take(nn: nat) returns (uc: Byte)
      requires Valid() && nn < 256
      modifies this, mtfa, mtfbase
      ensures Valid() && uc == old(list)[nn] && list == MoveToFront(old(list), nn)
    {
      hide MoveToFront, Stands;
      Sizes(mtfa[..], mtfbase[..], list);
      ghost var nl := MoveToFront(list, nn);
      if nn < 16 { uc := TakeNear(nn); } else { uc := TakeFar(nn); }
      list := nl;
    }

    method TakeNear(nn: nat) returns (uc: Byte)
      requires Valid() && nn < 16
      modifies mtfa
      ensures mtfbase.Length == 16 && mtfbase[0] > 0 && |list| == 256
      ensures uc == list[nn] && Stands(mtfa[..], mtfbase[..], MoveToFront(list, nn))
    {
      hide MoveToFront, Shifted, Stands;
      Sizes(mtfa[..], mtfbase[..], list);
      Near(mtfa[..], mtfbase[..], list, nn);
      var pp := mtfbase[0];
      uc := mtfa[pp + nn];
      ShiftUp(pp, nn);
      mtfa[pp] := uc;
    }

    method TakeFar(nn: nat) returns (uc: Byte)
      requires Valid() && 16 <= nn < 256
      modifies mtfa, mtfbase
      ensures mtfbase.Length == 16 && mtfbase[0] > 0 && |list| == 256
      ensures uc == list[nn] && Stands(mtfa[..], mtfbase[..], MoveToFront(list, nn))
    {
      hide MoveToFront, Shifted, Stands, Carrying;
      Sizes(mtfa[..], mtfbase[..], list);
      ghost var nl := MoveToFront(list, nn);
      var lno, off := nn / 16, nn % 16;
      OpenHole(mtfa[..], mtfbase[..], list, lno, off);
      var base := mtfbase[lno];
      uc := mtfa[base + off];
      ShiftUp(base, off);
      mtfbase[lno] := mtfbase[lno] + 1;
      MoveHead(list, nn);
      while lno > 0
        invariant 0 <= lno < 16 && mtfbase.Length == 16 && Carrying(mtfa[..], mtfbase[..], nl, lno)
      {
        CarryOne(mtfa[..], mtfbase[..], nl, lno);
        mtfbase[lno] := mtfbase[lno] - 1;
        mtfa[mtfbase[lno]] := mtfa[mtfbase[lno - 1] + 15];
        lno := lno - 1;
      }
      CarryLast(mtfa[..], mtfbase[..], nl);
      mtfbase[0] := mtfbase[0] - 1;
      mtfa[mtfbase[0]] := uc;
      if mtfbase[0] == 0 { Rebuild(nl); } else { Sizes(mtfa[..], mtfbase[..], nl); }
    }

    /** One segment's elements move up by one, from the top down. */
    method ShiftUp(lo: nat, n: nat)
      requires lo + n < mtfa.Length
      modifies mtfa
      ensures mtfa[..] == Shifted(old(mtfa[..]), lo, n)
    {
      ghost var a := mtfa[..];
      for k := n downto 0
        invariant forall i :: 0 <= i < |a| && !(lo + k < i <= lo + n) ==> mtfa[i] == a[i]
        invariant forall i :: lo + k < i <= lo + n ==> mtfa[i] == a[i - 1]
      {
        mtfa[lo + k + 1] := mtfa[lo + k];
      }
    }

    /** Back to the top: the copy runs downwards and never overtakes what it still has to read. */
    method Rebuild(ghost nl: seq<Byte>)
      requires mtfbase.Length == 16 && Stands(mtfa[..], mtfbase[..], nl)
      modifies mtfa, mtfbase
      ensures mtfbase.Length == 16 && Stands(mtfa[..], mtfbase[..], nl) && mtfbase[0] > 0
    {
      hide Stands;
      ghost var a, base := mtfa[..], mtfbase[..];
      assert |a| == 4096 && |base| == 16 && |nl| == 256 by { StandsAt(a, base, nl, 0, 0); Sizes(a, base, nl); }
      var kk := 4095;
      for ii := 16 downto 0
        invariant kk == 3839 + 16 * ii
        invariant forall k :: 0 <= k < 3840 + 16 * ii ==> mtfa[k] == a[k]
        invariant forall k :: 3840 + 16 * ii <= k < 4096 ==> mtfa[k] == nl[k - 3840]
        invariant forall i :: 0 <= i < ii ==> mtfbase[i] == base[i]
        invariant forall i :: ii <= i < 16 ==> mtfbase[i] == 3840 + 16 * i
      {
        Sizes(a, base, nl);
        AtMostTop(a, base, nl, ii);
        for jj := 16 downto 0
          invariant kk == 3839 + 16 * ii + jj
          invariant forall k :: 0 <= k < 3840 + 16 * ii + jj ==> mtfa[k] == a[k]
          invariant forall k :: 3840 + 16 * ii + jj <= k < 4096 ==> mtfa[k] == nl[k - 3840]
          invariant forall i :: 0 <= i <= ii ==> mtfbase[i] == base[i]
          invariant forall i :: ii < i < 16 ==> mtfbase[i] == 3840 + 16 * i
        {
          StandsAt(a, base, nl, ii, jj);
          mtfa[kk] := mtfa[mtfbase[ii] + jj];
          kk := kk - 1;
        }
        mtfbase[ii] := kk + 1;
      }
      TopStands(mtfa[..], mtfbase[..], nl);
    }
  }

  lemma Sizes(a: seq<Byte>, base: seq<int>, list: seq<Byte>)
    requires Stands(a, base, list)
    ensures |a| == 4096 && |base| == 16 && |list| == 256 && forall i :: 0 <= i < 16 ==> 0 <= base[i] <= 4080
  {
  }

  lemma AtMostTop(a: seq<Byte>, base: seq<int>, list: seq<Byte>, i: nat)
    requires Stands(a, base, list) && i < 16
    ensures base[i] <= 3840 + 16 * i
    decreases 16 - i
  {
    if i < 15 { AtMostTop(a, base, list, i + 1); }
  }

  /** The layout of MTF init and of the rebuild. */
  lemma TopStands(a: seq<Byte>, base: seq<int>, list: seq<Byte>)
    requires |a| == 4096 && |base| == 16 && |list| == 256
    requires forall k :: 3840 <= k < 4096 ==> a[k] == list[k - 3840]
    requires forall i :: 0 <= i < 16 ==> base[i] == 3840 + 16 * i
    ensures Stands(a, base, list)
  {
  }

  lemma MoveHead<T>(list: seq<T>, nn: nat)
    requires nn < |list|
    ensures MoveToFront(list, nn)[0] == list[nn]
  {
  }
}

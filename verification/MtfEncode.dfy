/** generateMTFValues (compress.c): the move-to-front pass, writing its 16-bit symbols over the
    32-bit sort pointers it is still reading. */
module MtfEncode {
  import opened Basics
  import opened Permutations
  import opened Rotations
  import opened Ranks
  import opened Mtf

  /** arr1: read as words through ptr, written as half words through mtfv. */
  class SharedWords {
    const words: array<Word>

    constructor (words: array<Word>)
      ensures this.words == words
    {
      this.words := words;
    }

    /** mtfv[w]. */
    function Half(w: nat): (v: nat)
      requires w / 2 < words.Length
      reads words
    {
      if w % 2 == 0 then words[w / 2] % 0x1_0000 else words[w / 2] / 0x1_0000
    }

    /** mtfv[w] := v touches only word w/2, and there only one half. */
    method PutHalf(w: nat, v: nat)
      requires w / 2 < words.Length && v < 0x1_0000
      modifies words
      ensures Half(w) == v
      ensures forall k: nat :: k / 2 < words.Length && k != w ==> Half(k) == old(Half(k))
      ensures forall k :: 0 <= k < words.Length && k != w / 2 ==> words[k] == old(words[k])
    {
      var x: int := words[w / 2];
      words[w / 2] := if w % 2 == 0 then x - x % 0x1_0000 + v else x % 0x1_0000 + v * 0x1_0000;
    }

    ghost function Symbols(n: nat): (r: seq<int>)
      requires n <= 2 * words.Length
      reads this, words
      ensures |r| == n && forall k :: 0 <= k < n ==> r[k] == Half(k)
    {
      seq(n, k requires 0 <= k < n reads this, words => Half(k))
    }
  }

  /** The inner loop: finds the symbol while sliding the list down over its place. */
  method SlideToFront(yy: array<int>, n: nat, x: int) returns (j: nat)
    requires n <= yy.Length && x in yy[..n] && yy[0] != x
    modifies yy
    ensures old(yy[..n]) != [] && j == IndexOf(old(yy[..n]), x) && 1 <= j < n
    ensures yy[..n] == MoveToFront(old(yy[..n]), j)
  {
    ghost var list := yy[..n];
    ghost var at := IndexOf(list, x);
    var rtmp := yy[1];
    yy[1] := yy[0];
    j := 1;
    while x != rtmp
      invariant 1 <= j <= at && rtmp == list[j]
      invariant yy[0] == list[0]
      invariant forall k :: 1 <= k <= j ==> yy[k] == list[k - 1]
      invariant forall k :: j < k < n ==> yy[k] == list[k]
      decreases at - j
    {
      j := j + 1;
      var rtmp2 := rtmp;
      rtmp := yy[j];
      yy[j] := rtmp2;
    }
    yy[0] := rtmp;
    InPrefix(list, at, j);
  }

  lemma RunDigit(zPend: nat, digit: int)
    requires digit == if zPend % 2 == 1 then 1 else 0
    ensures RunCode(zPend + 1) == [digit] + RunCode(zPend / 2)
    ensures zPend < 2 ==> RunCode(zPend / 2) == []
  {
    var z := zPend + 1;
    assert (z - 1) / 2 == zPend / 2 && (z % 2 == 1 <==> zPend % 2 == 0);
    assert RunCode(z) == [if z % 2 == 1 then 0 else 1] + RunCode((z - 1) / 2);
  }

  /** The symbols written so far, and how often each occurs. */
  class SymbolSink {
    const mtfv: SharedWords
    const mtfFreq: array<nat>
    var wr: nat

    ghost predicate Valid()
      reads this, mtfv, mtfv.words, mtfFreq
    {
      && mtfFreq.Length == 258 && wr <= 2 * mtfv.words.Length
      && (forall k :: 0 <= k < wr ==> 0 <= mtfv.Half(k) < 258)
      && forall v: int :: 0 <= v < 258 ==> mtfFreq[v] == Count(mtfv.Symbols(wr), v)
    }

    ghost function Written(): (r: seq<int>)
      requires Valid()
      reads this, mtfv, mtfv.words, mtfFreq
    {
      mtfv.Symbols(wr)
    }

    constructor (mtfv: SharedWords, mtfFreq: array<nat>)
      requires mtfFreq.Length == 258 && forall v :: 0 <= v < 258 ==> mtfFreq[v] == 0
      ensures Valid() && Written() == [] && this.mtfv == mtfv && this.mtfFreq == mtfFreq && wr == 0
    {
      this.mtfv, this.mtfFreq, wr := mtfv, mtfFreq, 0;
    }

    method Put(v: nat)
      requires Valid() && v < 258 && wr < 2 * mtfv.words.Length
      modifies this, mtfv.words, mtfFreq
      ensures Valid() && Written() == old(Written()) + [v] && wr == old(wr) + 1
      ensures forall k :: 0 <= k < mtfv.words.Length && k != old(wr) / 2 ==> mtfv.words[k] == old(mtfv.words[k])
    {
      ghost var before := Written();
      mtfv.PutHalf(wr, v);
      wr := wr + 1;
      ghost var after := mtfv.Symbols(wr);
      assert after == before + [v];
      assert after[..|after| - 1] == before;
      mtfFreq[v] := mtfFreq[v] + 1;
    }

    lemma Room()
      ensures Valid() ==> wr <= 2 * mtfv.words.Length
    {
      hide Count;
    }

    /** The digits of a finished run. All words from `keep` on stay as they are. */
    method PutRun(pend: nat, ghost keep: nat)
      requires Valid() && wr + pend <= keep <= mtfv.words.Length
      modifies this, mtfv.words, mtfFreq
      ensures Valid() && Written() == old(Written()) + RunCode(pend) && wr <= old(wr) + pend
      ensures forall k :: keep <= k < mtfv.words.Length ==> mtfv.words[k] == old(mtfv.words[k])
    {
      if pend > 0 {
        hide Count, RunCode, Valid, Written;
        var zPend: nat := pend - 1;
        ghost var start := Written();
        while true
          invariant Valid() && Written() + RunCode(zPend + 1) == start + RunCode(pend)
          invariant wr + zPend + 1 <= old(wr) + pend
          invariant forall k :: keep <= k < mtfv.words.Length ==> mtfv.words[k] == old(mtfv.words[k])
          decreases zPend
        {
          ghost var w := Written();
          ghost var digit := if zPend % 2 == 1 then 1 else 0;
          RunDigit(zPend, digit);
          Room();
          Assoc(w, [digit], RunCode(zPend / 2));
          if zPend % 2 == 1 { Put(1); } else { Put(0); }
          NoMore(Written(), RunCode(zPend / 2));
          if zPend < 2 { break; }
          zPend := (zPend - 2) / 2;
        }
      }
    }
  }

  lemma NoMore<T>(a: seq<T>, b: seq<T>)
    ensures b == [] ==> a + b == a
  {
  }

  /** makeMaps_e. */
  method MakeMaps(inUse: array<bool>, unseqToSeq: array<nat>) returns (nInUse: nat)
    requires inUse.Length == 256 && unseqToSeq.Length == 256
    modifies unseqToSeq
    ensures nInUse == |UsedBytes(inUse[..])|
    ensures forall b: Byte :: inUse[b] ==> unseqToSeq[b] == Place(inUse[..], b)
  {
    nInUse := 0;
    for i := 0 to 256
      invariant nInUse == |UsedBytes(inUse[..i])|
      invariant forall b: Byte :: b < i && inUse[b] ==> unseqToSeq[b] == Place(inUse[..], b)
    {
      UsedNext(inUse[..], i);
      assert inUse[..][..i] == inUse[..i] && inUse[..][..i + 1] == inUse[..i + 1];
      if inUse[i] {
        unseqToSeq[i] := nInUse;
        nInUse := nInUse + 1;
      }
    }
    assert inUse[..256] == inUse[..];
  }

  /** The column as places in the alphabet of used bytes. */
  function Places(col: seq<Byte>, inUse: seq<bool>): (r: seq<int>)
    requires |inUse| == 256
    ensures |r| == |col| && forall k :: 0 <= k < |r| ==> r[k] == Place(inUse, col[k])
  {
    seq(|col|, k requires 0 <= k < |col| => Place(inUse, col[k]))
  }

  ghost predicate Covers(inUse: seq<bool>, col: seq<Byte>) {
    |inUse| == 256 && forall k :: 0 <= k < |col| ==> inUse[col[k]]
  }

  lemma PlacesInList(col: seq<Byte>, inUse: seq<bool>)
    requires Covers(inUse, col)
    ensures AllIn(Places(col, inUse), Iota(|UsedBytes(inUse)|))
    ensures Column(Places(col, inUse), UsedBytes(inUse)) == col
    ensures col != [] ==> UsedBytes(inUse) != []
  {
    var n := |UsedBytes(inUse)|;
    forall k | 0 <= k < |col|
      ensures Places(col, inUse)[k] < n && Places(col, inUse)[k] in Iota(n)
      ensures UsedBytes(inUse)[Places(col, inUse)[k]] == col[k]
    {
      PlaceOf(inUse, col[k]);
      assert Iota(n)[Place(inUse, col[k])] == Place(inUse, col[k]);
    }
    assert Column(Places(col, inUse), UsedBytes(inUse)) == col;
    if col != [] { PlaceOf(inUse, col[0]); }
  }

  /** All symbols of a block: the body and the end mark. */
  function BlockSymbols(col: seq<Byte>, inUse: seq<bool>): (r: seq<int>)
    requires Covers(inUse, col) && col != []
    ensures |r| <= |col| + 1
  {
    PlacesInList(col, inUse);
    var n := |UsedBytes(inUse)|;
    MtfSymbols(Places(col, inUse), Iota(n), 0) + [n + 1]
  }

  lemma ColumnEntry(b: seq<Byte>, p: seq<int>, i: nat)
    requires Injective(p, |b|) && i < |b|
    ensures var j := p[i] - 1;
            LastColumn(b, p)[i] == b[if j < 0 then j + |b| else j]
  {
  }

  /** One step of MtfSymbols. */
  lemma BodyStep(places: seq<int>, i: nat, list: seq<int>, pend: nat)
    requires list != [] && AllIn(places, list) && i < |places|
    ensures AllIn(places[i..], list) && AllIn(places[i + 1..], list) && places[i] in list
    ensures places[i] == list[0] ==> MtfSymbols(places[i..], list, pend) == MtfSymbols(places[i + 1..], list, pend + 1)
    ensures places[i] != list[0] ==>
      var j := IndexOf(list, places[i]);
      AllIn(places[i + 1..], MoveToFront(list, j)) && AllIn(places, MoveToFront(list, j))
      && MtfSymbols(places[i..], list, pend) == RunCode(pend) + [j + 1] + MtfSymbols(places[i + 1..], MoveToFront(list, j), 0)
  {
    assert places[i..][1..] == places[i + 1..];
    if places[i] != list[0] { MoveAllIn(places, list, IndexOf(list, places[i])); }
  }

  /** One column byte: it lengthens the pending run, or ends it and moves to the front. */
  method CodeOne(sink: SymbolSink, yy: array<int>, nInUse: nat, x: int, zPend: nat, ghost places: seq<int>, ghost i: nat)
    returns (pend: nat)
    requires sink.Valid() && sink.wr + zPend <= i < sink.mtfv.words.Length && i < |places| && places[i] == x
    requires yy.Length == 256 && 0 < nInUse <= 256 && AllIn(places, yy[..nInUse]) && AllIn(places[i..], yy[..nInUse])
    modifies sink, sink.mtfv.words, sink.mtfFreq, yy
    ensures sink.Valid() && sink.wr + pend <= i + 1
    ensures AllIn(places, yy[..nInUse]) && AllIn(places[i + 1..], yy[..nInUse])
    ensures forall k :: i < k < sink.mtfv.words.Length ==> sink.mtfv.words[k] == old(sink.mtfv.words[k])
    ensures sink.Written() + MtfSymbols(places[i + 1..], yy[..nInUse], pend)
         == old(sink.Written() + MtfSymbols(places[i..], yy[..nInUse], zPend))
  {
    hide Count, RunCode, MoveToFront;
    ghost var list := yy[..nInUse];
    BodyStep(places, i, list, zPend);
    if yy[0] == x {
      return zPend + 1;
    }
    ghost var w0 := sink.Written();
    sink.PutRun(zPend, i);
    ghost var w := sink.Written();
    var at := SlideToFront(yy, nInUse, x);
    sink.Put(at + 1);
    Assoc4(w0, RunCode(zPend), [at + 1], MtfSymbols(places[i + 1..], yy[..nInUse], 0));
    pend := 0;
  }

  /** generateMTFValues. Word i of arr1 is still the i-th sort pointer when it is read, and at most
      nblock + 1 symbols are written. */
  method GenerateMtfValues(arr1: SharedWords, block: array<Byte>, n: nat, inUse: array<bool>,
                           mtfFreq: array<nat>, ghost p: seq<int>)
    returns (nInUse: nat, sink: SymbolSink)
    requires 0 < n <= block.Length && n <= arr1.words.Length && n < 0x1_0000_0000
    requires Injective(p, n) && forall k :: 0 <= k < n ==> arr1.words[k] == p[k]
    requires inUse.Length == 256 && Covers(inUse[..], LastColumn(block[..n], p))
    requires mtfFreq.Length == 258
    modifies arr1.words, mtfFreq
    ensures fresh(sink) && sink.Valid() && sink.mtfv == arr1 && sink.mtfFreq == mtfFreq
    ensures nInUse == |UsedBytes(old(inUse[..]))| && 0 < nInUse <= 256
    ensures sink.Written() == BlockSymbols(LastColumn(old(block[..n]), p), old(inUse[..]))
    ensures sink.wr <= n + 1
  {
    hide *;
    ghost var b := block[..n];
    ghost var col, used := LastColumn(b, p), inUse[..];
    ghost var places := Places(col, used);
    BlockStart(b, p, used);
    var unseqToSeq := new nat[256];
    nInUse := MakeMaps(inUse, unseqToSeq);
    var seqOf := unseqToSeq[..];
    var eob := nInUse + 1;
    forall i | 0 <= i < 258 { mtfFreq[i] := 0; }
    sink := new SymbolSink(arr1, mtfFreq);
    var yy := new int[256](i => i);
    var zPend := 0;
    assert yy[..nInUse] == Iota(nInUse) by { IotaIs(yy[..nInUse]); }
    ghost var syms := MtfSymbols(places, Iota(nInUse), 0);
    for i := 0 to n
      invariant sink.Valid() && sink.mtfv == arr1 && sink.mtfFreq == mtfFreq && sink.wr + zPend <= i
      invariant forall k :: i <= k < n ==> arr1.words[k] == p[k]
      invariant AllIn(places, yy[..nInUse]) && AllIn(places[i..], yy[..nInUse])
      invariant sink.Written() + MtfSymbols(places[i..], yy[..nInUse], zPend) == syms
    {
      BlockEntry(b, p, used, i);
      var j: int := arr1.words[i];
      j := j - 1;
      if j < 0 { j := j + n; }
      zPend := CodeOne(sink, yy, nInUse, seqOf[block[j]], zPend, places, i);
    }
    BodyDone(places[n..], yy[..nInUse], zPend);
    sink.PutRun(zPend, n);
    sink.Put(eob);
  }

  lemma CoveredEntry(col: seq<Byte>, inUse: seq<bool>, i: nat)
    requires Covers(inUse, col) && i < |col|
    ensures inUse[col[i]]
  {
  }

  lemma IotaIs(s: seq<int>)
    requires forall k :: 0 <= k < |s| ==> s[k] == k
    ensures s == Iota(|s|)
  {
  }

  /** Where the coding of a column begins. */
  lemma BlockStart(b: seq<Byte>, p: seq<int>, used: seq<bool>)
    requires Injective(p, |b|) && b != [] && Covers(used, LastColumn(b, p))
    ensures var n, places := |UsedBytes(used)|, Places(LastColumn(b, p), used);
            && 0 < n <= 256 && |p| == |places| == |b| && places[0..] == places && AllIn(places, Iota(n))
            && |Iota(n)| == n && LastColumn(b, p) != []
            && BlockSymbols(LastColumn(b, p), used) == MtfSymbols(places, Iota(n), 0) + [n + 1]
  {
    hide UsedBytes, Place, MtfSymbols, AllIn;
    PlacesInList(LastColumn(b, p), used);
  }

  /** The byte read through the i-th pointer, and its place. */
  lemma BlockEntry(b: seq<Byte>, p: seq<int>, used: seq<bool>, i: nat)
    requires Injective(p, |b|) && Covers(used, LastColumn(b, p)) && i < |b|
    ensures 0 <= p[i] < |b| && |used| == 256 && |Places(LastColumn(b, p), used)| == |b|
    ensures var j := p[i] - 1; var x := b[if j < 0 then j + |b| else j];
            used[x] && Places(LastColumn(b, p), used)[i] == Place(used, x)
  {
    hide Place;
    ColumnEntry(b, p, i);
    CoveredEntry(LastColumn(b, p), used, i);
  }

  lemma BodyDone(places: seq<int>, list: seq<int>, pend: nat)
    requires list != [] && places == []
    ensures AllIn(places, list) && MtfSymbols(places, list, pend) == RunCode(pend)
  {
  }
}

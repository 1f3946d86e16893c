/** Rotations of a block, their order, and the Burrows-Wheeler transform. */
module Rotations {
  import opened Basics
  import opened Permutations

  // --- Lexicographic order ---

  predicate Le(x: seq<Byte>, y: seq<Byte>) {
    x == [] || (y != [] && (x[0] < y[0] || (x[0] == y[0] && Le(x[1..], y[1..]))))
  }

  lemma {:induction false} LeAntisymmetric(x: seq<Byte>, y: seq<Byte>)
    requires Le(x, y) && Le(y, x)
    ensures x == y
  {
    if x != [] {
      LeAntisymmetric(x[1..], y[1..]);
      assert x == [x[0]] + x[1..] && y == [y[0]] + y[1..];
    }
  }

  lemma {:induction false} LeReflexive(x: seq<Byte>)
    ensures Le(x, x)
  {
    if x != [] { LeReflexive(x[1..]); }
  }

  /** Dropping the last characters keeps the order of strings of one length. */
  lemma {:induction false} LePrefix(x: seq<Byte>, y: seq<Byte>, m: nat)
    requires Le(x, y) && m <= |x| && m <= |y|
    ensures Le(x[..m], y[..m])
  {
    if m > 0 && x[0] == y[0] {
      LePrefix(x[1..], y[1..], m - 1);
      assert x[..m][1..] == x[1..][..m - 1] && y[..m][1..] == y[1..][..m - 1];
    }
  }

  lemma LeCons(c: Byte, x: seq<Byte>, d: Byte, y: seq<Byte>)
    requires c < d || (c == d && Le(x, y))
    ensures Le([c] + x, [d] + y)
  {
    assert ([c] + x)[1..] == x && ([d] + y)[1..] == y;
  }

  ghost predicate Sorted(rows: seq<seq<Byte>>) {
    forall i, j :: 0 <= i < j < |rows| ==> Le(rows[i], rows[j])
  }

  /** A multiset of strings has one sorted arrangement. */
  lemma {:induction false} SortedUnique(x: seq<seq<Byte>>, y: seq<seq<Byte>>)
    requires Sorted(x) && Sorted(y) && multiset(x) == multiset(y)
    ensures x == y
    decreases |x|
  {
    hide Le;
    if x == [] {
      assert |multiset(y)| == 0;
    } else {
      assert |multiset(x)| == |x| && |multiset(y)| == |y|;
      FirstIsLeast(x, y);
      FirstIsLeast(y, x);
      LeAntisymmetric(x[0], y[0]);
      SplitFirst(x);
      SplitFirst(y);
      SortedUnique(x[1..], y[1..]);
    }
  }

  lemma SplitFirst<T>(x: seq<T>)
    requires x != []
    ensures x == [x[0]] + x[1..] && multiset(x[1..]) == multiset(x) - multiset{x[0]}
  {
    assert x == [x[0]] + x[1..];
  }

  lemma FirstIsLeast(x: seq<seq<Byte>>, y: seq<seq<Byte>>)
    requires Sorted(x) && x != [] && y != [] && multiset(x) == multiset(y)
    ensures Le(x[0], y[0])
  {
    assert y[0] in multiset(x);
    var k :| 0 <= k < |x| && x[k] == y[0];
    LeReflexive(x[0]);
  }

  // --- Rotations ---

  /** The block read cyclically from position i. */
  function Rot(b: seq<Byte>, i: nat): (r: seq<Byte>)
    requires i <= |b|
    ensures |r| == |b|
  {
    b[i..] + b[..i]
  }

  /** The position before i, cyclically. */
  function Before(i: nat, n: nat): (r: nat)
    requires i < n
    ensures r < n
  {
    if i == 0 then n - 1 else i - 1
  }

  function After(i: nat, n: nat): (r: nat)
    requires i < n
    ensures r < n
  {
    if i == n - 1 then 0 else i + 1
  }

  lemma RotBefore(b: seq<Byte>, i: nat)
    requires i < |b|
    ensures Rot(b, Before(i, |b|)) == [b[Before(i, |b|)]] + Rot(b, i)[..|b| - 1]
    ensures Rot(b, i)[|b| - 1] == b[Before(i, |b|)] && Rot(b, i)[0] == b[i]
  {
  }

  /** ptr sorts the rotations: a permutation of the starting positions, in non-decreasing order.
      Equal rotations of a periodic block may come in any order. */
  ghost predicate SortsRotations(b: seq<Byte>, p: seq<int>) {
    && IsPermutation(p, |b|)
    && Injective(p, |b|)
    && forall i, j :: 0 <= i < j < |b| ==> Le(Rot(b, p[i]), Rot(b, p[j]))
  }

  /** The sort's result: the order, and the row of rotation 0. */
  ghost predicate SortedAt(b: seq<Byte>, p: seq<int>, orig: nat) {
    b != [] && SortsRotations(b, p) && orig < |b| && p[orig] == 0
  }

  ghost function Row(b: seq<Byte>): (f: int -> seq<Byte>) {
    (i: int) => if 0 <= i < |b| then Rot(b, i) else []
  }

  ghost function Rows(b: seq<Byte>, p: seq<int>): (r: seq<seq<Byte>>) {
    Pick(Row(b), p)
  }

  /** The transform's output: for each row, the byte before its starting position. */
  function LastColumn(b: seq<Byte>, p: seq<int>): (r: seq<Byte>)
    requires Injective(p, |b|)
    ensures |r| == |b|
    ensures forall k :: 0 <= k < |b| ==> r[k] == b[Before(p[k], |b|)]
  {
    seq(|b|, k requires 0 <= k < |b| => b[Before(p[k], |b|)])
  }

  lemma RowsSorted(b: seq<Byte>, p: seq<int>)
    requires SortsRotations(b, p)
    ensures Sorted(Rows(b, p))
  {
    var r := Rows(b, p);
    forall i, j | 0 <= i < j < |r| ensures Le(r[i], r[j]) {
      assert r[i] == Rot(b, p[i]) && r[j] == Rot(b, p[j]);
    }
  }

  /** However ties are broken, the sorted rows, and so the last column, are the same. */
  lemma LastColumnUnique(b: seq<Byte>, p: seq<int>, q: seq<int>)
    requires SortsRotations(b, p) && SortsRotations(b, q)
    ensures Rows(b, p) == Rows(b, q)
    ensures LastColumn(b, p) == LastColumn(b, q)
  {
    PickMultiset(Row(b), p, q);
    RowsSorted(b, p);
    RowsSorted(b, q);
    SortedUnique(Rows(b, p), Rows(b, q));
    forall k | 0 <= k < |b| ensures LastColumn(b, p)[k] == LastColumn(b, q)[k] {
      RotBefore(b, p[k]);
      RotBefore(b, q[k]);
      assert Rows(b, p)[k] == Rot(b, p[k]) && Rows(b, q)[k] == Rot(b, q[k]);
    }
  }

  // --- Inverting the transform ---

  /** t lists the positions of the last column in stable order of their bytes. */
  ghost predicate StableOrder(col: seq<Byte>, t: seq<int>) {
    && Injective(t, |col|)
    && forall j, k :: 0 <= j < k < |col| ==>
         col[t[j]] < col[t[k]] || (col[t[j]] == col[t[k]] && t[j] < t[k])
  }

  /** Stepping through t from the first position of t at start: the tt walk. */
  function Walk(col: seq<Byte>, t: seq<int>, pos: nat, n: nat): (r: seq<Byte>)
    requires Injective(t, |col|) && pos < |col|
    ensures |r| == n
    decreases n
  {
    if n == 0 then [] else [col[t[pos]]] + Walk(col, t, t[pos], n - 1)
  }

  /** Row t[k] starts one position after row k, up to ties: the key fact of the inversion. */
  lemma NextRow(b: seq<Byte>, p: seq<int>, t: seq<int>, k: nat)
    requires b != [] && SortsRotations(b, p) && k < |b|
    requires StableOrder(LastColumn(b, p), t)
    ensures Rot(b, p[k]) == [LastColumn(b, p)[t[k]]] + Rot(b, p[t[k]])[..|b| - 1]
  {
    hide Le, LastColumn, Pick, Rot;
    var n, col := |b|, LastColumn(b, p);
    var q := RotatedBack(p, t, n);
    InjectiveIsPermutation(q, n);
    PickMultiset(Row(b), p, q);
    RowsSorted(b, p);
    RowsBackSorted(b, p, t, q);
    SortedUnique(Rows(b, p), Rows(b, q));
    assert Rows(b, p)[k] == Rot(b, p[k]);
    assert Rows(b, q)[k] == Rot(b, q[k]);
    RotBefore(b, p[t[k]]);
  }

  /** The rows of t, each moved back by one position. */
  ghost function RotatedBack(p: seq<int>, t: seq<int>, n: nat): (q: seq<int>)
    requires Injective(p, n) && Injective(t, n)
    ensures Injective(q, n) && forall i :: 0 <= i < n ==> q[i] == Before(p[t[i]], n)
  {
    seq(n, i requires 0 <= i < n => Before(p[t[i]], n))
  }

  lemma RowsBackSorted(b: seq<Byte>, p: seq<int>, t: seq<int>, q: seq<int>)
    requires SortsRotations(b, p) && StableOrder(LastColumn(b, p), t)
    requires |q| == |b| && forall i :: 0 <= i < |b| ==> q[i] == Before(p[t[i]], |b|)
    ensures Sorted(Rows(b, q))
  {
    hide Le, LastColumn, Rot;
    var n, col, rows := |b|, LastColumn(b, p), Rows(b, q);
    forall i, j | 0 <= i < j < n ensures Le(rows[i], rows[j]) {
      var x, y := Rot(b, p[t[i]]), Rot(b, p[t[j]]);
      RotBefore(b, p[t[i]]);
      RotBefore(b, p[t[j]]);
      if col[t[i]] == col[t[j]] { LePrefix(x, y, n - 1); }
      LeCons(col[t[i]], x[..n - 1], col[t[j]], y[..n - 1]);
    }
  }

  /** Strings of one length and one multiset that agree but for the last byte are equal. */
  lemma LastByte(x: seq<Byte>, y: seq<Byte>)
    requires |x| == |y| > 0 && multiset(x) == multiset(y)
    requires x[..|x| - 1] == y[..|y| - 1]
    ensures x == y
  {
    var n := |x| - 1;
    assert x == x[..n] + [x[n]] && y == y[..n] + [y[n]];
    assert multiset(x) == multiset(x[..n]) + multiset{x[n]};
    assert multiset(y) == multiset(x[..n]) + multiset{y[n]};
    assert multiset(y)[x[n]] == multiset(x[..n])[x[n]] + multiset{y[n]}[x[n]];
    assert multiset(x)[x[n]] == multiset(x[..n])[x[n]] + 1;
  }

  lemma ShiftedRow(b: seq<Byte>, i: nat, x: seq<Byte>, c: Byte)
    requires i < |b| && |x| == |b| && Rot(b, i) == [c] + x[..|b| - 1]
    requires multiset(x) == multiset(b)
    ensures c == b[i] && x == Rot(b, After(i, |b|))
  {
    hide Rot;
    var n, j := |b|, After(i, |b|);
    assert Before(j, n) == i;
    RotBefore(b, j);
    var r := Rot(b, j);
    assert x[..n - 1] == Rot(b, i)[1..] == r[..n - 1];
    assert c == Rot(b, i)[0] == b[i];
    RotMultiset(b, j);
    LastByte(x, r);
  }

  lemma RotMultiset(b: seq<Byte>, i: nat)
    requires i < |b|
    ensures multiset(Rot(b, i)) == multiset(b)
  {
    assert b == b[..i] + b[i..];
  }

  lemma Advance(b: seq<Byte>, p: seq<int>, t: seq<int>, k: nat, i: nat)
    requires b != [] && SortsRotations(b, p) && StableOrder(LastColumn(b, p), t)
    requires k < |b| && i < |b| && Rot(b, p[k]) == Rot(b, i)
    ensures LastColumn(b, p)[t[k]] == b[i] && Rot(b, p[t[k]]) == Rot(b, After(i, |b|))
  {
    hide Le, LastColumn, Rot;
    NextRow(b, p, t, k);
    RotMultiset(b, p[t[k]]);
    ShiftedRow(b, i, Rot(b, p[t[k]]), LastColumn(b, p)[t[k]]);
  }

  /** The walk from a row that reads as the rotation at i gives the block from i on. */
  lemma {:induction false} WalkFrom(b: seq<Byte>, p: seq<int>, t: seq<int>, k: nat, i: nat)
    requires b != [] && SortsRotations(b, p) && StableOrder(LastColumn(b, p), t)
    requires k < |b| && i < |b| && Rot(b, p[k]) == Rot(b, i)
    ensures Walk(LastColumn(b, p), t, k, |b| - i) == b[i..]
    decreases |b| - i
  {
    hide Le, LastColumn, Rot;
    Advance(b, p, t, k, i);
    if i < |b| - 1 {
      WalkFrom(b, p, t, t[k], i + 1);
    }
    assert b[i..] == [b[i]] + b[i + 1..];
  }

  /** Burrows-Wheeler inversion, for every non-empty block and every way of breaking ties:
      the last column and the row of rotation 0 give the block back. */
  lemma Inversion(b: seq<Byte>, p: seq<int>, t: seq<int>, origPtr: nat)
    requires b != [] && SortsRotations(b, p) && StableOrder(LastColumn(b, p), t)
    requires origPtr < |b| && p[origPtr] == 0
    ensures Walk(LastColumn(b, p), t, origPtr, |b|) == b
  {
    WalkFrom(b, p, t, origPtr, 0);
    assert b[0..] == b;
  }
}

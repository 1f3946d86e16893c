/** Counting-sort ranks: what cftab holds and what it means for a last column, and what ftab holds for
    pairs of bytes. */
module Ranks {
  import opened Basics
  import opened Permutations
  import opened Rotations

  /** Occurrences of c. */
  function Count(s: seq<int>, c: int): (r: nat)
    ensures r <= |s|
  {
    if s == [] then 0
    else Count(s[..|s| - 1], c) + (if s[|s| - 1] == c then 1 else 0)
  }

  /** Occurrences of values below c: the value of cftab[c]. */
  function Below(s: seq<nat>, c: int): (r: nat)
    ensures r <= |s|
    ensures c <= 0 ==> r == 0
  {
    if s == [] then 0
    else Below(s[..|s| - 1], c) + (if s[|s| - 1] < c then 1 else 0)
  }

  lemma {:induction false} BelowNext(s: seq<nat>, c: int)
    ensures Below(s, c + 1) == Below(s, c) + Count(s, c)
  {
    if s != [] { BelowNext(s[..|s| - 1], c); }
  }

  lemma {:induction false} BelowMono(s: seq<nat>, c: int, d: int)
    requires c <= d
    ensures Below(s, c) <= Below(s, d)
  {
    if s != [] { BelowMono(s[..|s| - 1], c, d); }
  }

  lemma CountNext(s: seq<int>, i: nat, c: int)
    requires i < |s|
    ensures Count(s[..i + 1], c) == Count(s[..i], c) + (if s[i] == c then 1 else 0)
  {
    assert s[..i + 1][..i] == s[..i];
  }

  lemma {:induction false} CountMono(s: seq<int>, i: nat, j: nat, c: int)
    requires i <= j <= |s|
    ensures Count(s[..i], c) <= Count(s[..j], c)
    decreases j
  {
    if i < j {
      CountMono(s, i, j - 1, c);
      CountNext(s, j - 1, c);
    }
  }

  /** Where byte i of the column goes when the bytes are sorted stably. */
  function Rank(col: seq<nat>, i: nat): (r: nat)
    requires i < |col|
  {
    Below(col, col[i]) + Count(col[..i], col[i])
  }

  lemma RankRange(col: seq<nat>, i: nat)
    requires i < |col|
    ensures Below(col, col[i]) <= Rank(col, i)
    ensures Rank(col, i) < Below(col, 1 + col[i] as int) <= |col|
  {
    hide Below, Count;
    CountNext(col, i, col[i]);
    CountMono(col, i + 1, |col|, col[i]);
    assert col[..|col|] == col;
    BelowNext(col, col[i]);
  }

  ghost predicate Earlier(col: seq<nat>, i: nat, j: nat)
    requires i < |col| && j < |col|
  {
    col[i] < col[j] || (col[i] == col[j] && i < j)
  }

  lemma RankOrder(col: seq<nat>, i: nat, j: nat)
    requires i < |col| && j < |col| && Earlier(col, i, j)
    ensures Rank(col, i) < Rank(col, j)
  {
    RankRange(col, i);
    if col[i] < col[j] {
      BelowMono(col, 1 + col[i] as int, col[j]);
    } else {
      CountNext(col, i, col[i]);
      CountMono(col, i + 1, j, col[i]);
    }
  }

  function RankTable(col: seq<nat>): (r: seq<int>)
    ensures |r| == |col| && forall i :: 0 <= i < |col| ==> r[i] == Rank(col, i)
  {
    seq(|col|, i requires 0 <= i < |col| => Rank(col, i))
  }

  lemma RanksInjective(col: seq<nat>)
    ensures Injective(RankTable(col), |col|)
  {
    var r := RankTable(col);
    forall i | 0 <= i < |col| ensures 0 <= r[i] < |col| {
      RankRange(col, i);
    }
    forall i, j | 0 <= i < j < |col| ensures r[i] != r[j] {
      if Earlier(col, i, j) { RankOrder(col, i, j); } else { RankOrder(col, j, i); }
    }
  }

  lemma {:induction false} BelowAll(s: seq<nat>, c: int)
    requires forall i :: 0 <= i < |s| ==> s[i] < c
    ensures Below(s, c) == |s|
  {
    if s != [] { BelowAll(s[..|s| - 1], c); }
  }

  /** Inverting the ranks lists the column in stable order. */
  lemma RanksGiveStableOrder(col: seq<Byte>, t: seq<int>)
    requires Inverse(RankTable(col), t, |col|)
    ensures StableOrder(col, t)
  {
    var r := RankTable(col);
    forall j, k | 0 <= j < k < |col|
      ensures col[t[j]] < col[t[k]] || (col[t[j]] == col[t[k]] && t[j] < t[k])
    {
      assert r[t[j]] == j && r[t[k]] == k;
      if !Earlier(col, t[j], t[k]) { RankOrder(col, t[k], t[j]); }
    }
  }

  /** The bucket that holds a sorted position names its byte. */
  lemma BucketOf(col: seq<nat>, t: seq<int>, pos: nat, c: int)
    requires Inverse(RankTable(col), t, |col|) && pos < |col|
    requires Below(col, c) <= pos < Below(col, c + 1)
    ensures c == col[t[pos]]
  {
    var d: int := col[t[pos]];
    assert RankTable(col)[t[pos]] == pos;
    RankRange(col, t[pos]);
    if c < d { BelowMono(col, c + 1, d); }
    if d < c { BelowMono(col, d + 1, c); }
  }

  /** The bucket pointers after the first i bytes have been placed. */
  ghost predicate Pointers(ptr: seq<nat>, col: seq<Byte>, i: nat) {
    |ptr| == 257 && i <= |col|
    && forall c: int :: 0 <= c < 256 ==> ptr[c] == Below(col, c) + Count(col[..i], c)
  }

  /** The pointer of byte i's bucket is its rank, and moves on by one. */
  lemma PlaceNext(ptr: seq<nat>, col: seq<Byte>, i: nat)
    requires Pointers(ptr, col, i) && i < |col|
    ensures ptr[col[i]] == Rank(col, i) < |col|
    ensures Pointers(ptr[col[i] as int := ptr[col[i]] + 1], col, i + 1)
  {
    hide Below, Count;
    RankRange(col, i);
    forall c: int | 0 <= c < 256
      ensures Count(col[..i + 1], c) == Count(col[..i], c) + (if c == col[i] then 1 else 0)
    {
      CountNext(col, i, c);
    }
  }

  lemma PointersStart(ptr: seq<nat>, col: seq<Byte>)
    requires |ptr| == 257 && forall c: int :: 0 <= c < 256 ==> ptr[c] == Below(col, c)
    ensures Pointers(ptr, col, 0)
  {
    assert col[..0] == [];
  }
}

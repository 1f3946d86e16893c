/** The order of all rotations as numbers: what the main sort of blocksort.c approximates step by step. */
module RotationRanks {
  import opened Basics
  import opened Permutations
  import opened Rotations
  import opened Depths

  /** How many of the first k rotations come strictly before x. */
  ghost function Smaller(b: seq<Byte>, x: nat, k: nat): (c: nat)
    requires b != []
    ensures c <= k
  {
    if k == 0 then 0 else Smaller(b, x, k - 1) + (if Less(b, k - 1, x, |b|) then 1 else 0)
  }

  /** Equal rotations have equal ranks. */
  ghost function Ranking(b: seq<Byte>): (r: seq<int>)
    requires b != []
    ensures |r| == |b| && forall x :: 0 <= x < |b| ==> r[x] == Smaller(b, x, |b|)
  {
    seq(|b|, x requires 0 <= x < |b| => Smaller(b, x, |b|))
  }

  lemma {:induction false} SmallerGrows(b: seq<Byte>, x: nat, y: nat, k: nat)
    requires b != [] && x < |b| && y < |b|
    ensures !Less(b, y, x, |b|) ==> Smaller(b, x, k) <= Smaller(b, y, k)
    ensures Less(b, x, y, |b|) && x < k ==> Smaller(b, x, k) < Smaller(b, y, k)
  {
    hide Less, Same;
    Trichotomy(b, x, y, |b|);
    Trichotomy(b, y, x, |b|);
    if k > 0 {
      SmallerGrows(b, x, y, k - 1);
      Transitive(b, k - 1, x, y, |b|);
      Reflexive(b, x, |b|);
    }
  }

  /** Ranks order rotations as their bytes do. */
  lemma RankOrder(b: seq<Byte>, x: nat, y: nat)
    requires b != [] && x < |b| && y < |b|
    ensures Ranking(b)[x] <= Ranking(b)[y] <==> !Less(b, y, x, |b|)
    ensures Ranking(b)[x] < Ranking(b)[y] <==> Less(b, x, y, |b|)
    ensures Ranking(b)[x] == Ranking(b)[y] <==> Same(b, x, y, |b|)
  {
    hide Less, Same, Smaller;
    SmallerGrows(b, x, y, |b|);
    SmallerGrows(b, y, x, |b|);
    Trichotomy(b, x, y, |b|);
    Trichotomy(b, y, x, |b|);
  }

  /** Position d further on, cyclically, for d up to the block's length. */
  function Ahead(x: nat, d: nat, n: nat): (r: nat)
    requires x < n && d <= n
    ensures r < n
  {
    if x + d < n then x + d else x + d - n
  }

  lemma AheadSame(b: seq<Byte>, x: nat, y: nat, d: nat, h: nat)
    requires b != [] && x < |b| && y < |b| && d <= |b|
    ensures Same(b, x + d, y + d, h) == Same(b, Ahead(x, d, |b|), Ahead(y, d, |b|), h)
    ensures Less(b, x + d, y + d, h) == Less(b, Ahead(x, d, |b|), Ahead(y, d, |b|), h)
  {
    var u, v := Ahead(x, d, |b|), Ahead(y, d, |b|);
    Wraps(b, u, v, h);
    Wraps(b, u, y + d, h);
  }

  /** Nothing is decided after n bytes. */
  lemma {:induction false} EnoughBytes(b: seq<Byte>, x: nat, y: nat, m: nat)
    requires b != []
    ensures Less(b, x, y, |b| + m) == Less(b, x, y, |b|) && Same(b, x, y, |b| + m) == Same(b, x, y, |b|)
  {
    if m > 0 {
      EnoughBytes(b, x, y, m - 1);
      if Same(b, x, y, |b| + m - 1) { Periodic(b, x, y, |b| + m - 1); }
    }
  }

  /** Rotations that agree on d bytes compare as what follows does. */
  lemma SkipPrefix(b: seq<Byte>, x: nat, y: nat, d: nat)
    requires b != [] && x < |b| && y < |b| && d <= |b| && Same(b, x, y, d)
    ensures var r, u, v := Ranking(b), Ahead(x, d, |b|), Ahead(y, d, |b|);
            (r[x] <= r[y] <==> r[u] <= r[v]) && (r[x] < r[y] <==> r[u] < r[v])
  {
    hide Less, Same, Ranking;
    var n := |b|;
    RankOrder(b, x, y);
    RankOrder(b, y, x);
    RankOrder(b, Ahead(x, d, n), Ahead(y, d, n));
    RankOrder(b, Ahead(y, d, n), Ahead(x, d, n));
    Trichotomy(b, x, y, d);
    Further(b, x, y, d, n);
    Further(b, y, x, d, n);
    EnoughBytes(b, x, y, d);
    EnoughBytes(b, y, x, d);
    AheadSame(b, x, y, d, n);
    AheadSame(b, y, x, d, n);
    assert d + n == n + d;
  }

  /** A smaller byte after a common prefix decides. */
  lemma ByteDecides(b: seq<Byte>, x: nat, y: nat, d: nat)
    requires b != [] && x < |b| && y < |b| && d < |b| && Same(b, x, y, d)
    ensures At(b, x + d) < At(b, y + d) ==> Ranking(b)[x] < Ranking(b)[y]
  {
    hide Ranking;
    RankOrder(b, x, y);
    if At(b, x + d) < At(b, y + d) {
      assert Less(b, x, y, d + 1);
      LessLater(b, x, y, d + 1, |b|);
    }
  }

  lemma {:induction false} LessLater(b: seq<Byte>, x: nat, y: nat, d: nat, h: nat)
    requires b != [] && Less(b, x, y, d) && d <= h
    ensures Less(b, x, y, h)
    decreases h
  {
    if d < h { LessLater(b, x, y, d, h - 1); }
  }

  lemma NoPrefix(b: seq<Byte>, x: nat, y: nat)
    requires b != []
    ensures Same(b, x, y, 0)
  {
  }

  /** First bytes. */
  lemma FirstByte(b: seq<Byte>, x: nat, y: nat)
    requires x < |b| && y < |b|
    ensures b[x] < b[y] ==> Ranking(b)[x] < Ranking(b)[y]
    ensures Ranking(b)[x] <= Ranking(b)[y] ==> b[x] <= b[y]
    ensures var u, v := Ahead(x, 1, |b|), Ahead(y, 1, |b|);
            b[x] == b[y] ==>
              ((Ranking(b)[x] <= Ranking(b)[y] <==> Ranking(b)[u] <= Ranking(b)[v])
               && (Ranking(b)[x] < Ranking(b)[y] <==> Ranking(b)[u] < Ranking(b)[v]))
  {
    hide Ranking;
    NoPrefix(b, x, y);
    NoPrefix(b, y, x);
    ByteDecides(b, x, y, 0);
    ByteDecides(b, y, x, 0);
    if b[x] == b[y] {
      assert Same(b, x, y, 1);
      SkipPrefix(b, x, y, 1);
    }
  }

  /** Pointers in rank order are the sorted rotations. */
  lemma RankedIsSorted(b: seq<Byte>, f: seq<int>)
    requires b != [] && Injective(f, |b|)
    requires forall p, q :: 0 <= p < q < |b| ==> Ranking(b)[f[p]] <= Ranking(b)[f[q]]
    ensures SortsRotations(b, f)
  {
    hide Less, Same, Le, Rot, Ranking;
    InjectiveIsPermutation(f, |b|);
    forall p, q | 0 <= p < q < |b| ensures Le(Rot(b, f[p]), Rot(b, f[q])) {
      RankOrder(b, f[p], f[q]);
      Trichotomy(b, f[p], f[q], |b|);
      FullOrder(b, f[p], f[q], |b|);
    }
  }
}

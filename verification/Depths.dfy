/** Comparing rotations by their first h bytes, and what doubling h by one sort pass needs: the theory
    behind the exponential radix sort of blocksort.c. */
module Depths {
  import opened Basics
  import opened Permutations
  import opened Rotations

  /** Byte i of the block repeated for ever. */
  function At(b: seq<Byte>, i: nat): (r: Byte)
    requires b != []
    decreases i
  {
    if i < |b| then b[i] else At(b, i - |b|)
  }

  lemma AtWraps(b: seq<Byte>, i: nat)
    requires b != []
    ensures At(b, i + |b|) == At(b, i)
  {
  }

  /** Rotations i and j agree on their first h bytes. */
  ghost predicate Same(b: seq<Byte>, i: nat, j: nat, h: nat)
    requires b != []
  {
    h == 0 || (Same(b, i, j, h - 1) && At(b, i + h - 1) == At(b, j + h - 1))
  }

  /** Rotation i comes before rotation j within their first h bytes. */
  ghost predicate Less(b: seq<Byte>, i: nat, j: nat, h: nat)
    requires b != []
  {
    h > 0 && (Less(b, i, j, h - 1) || (Same(b, i, j, h - 1) && At(b, i + h - 1) < At(b, j + h - 1)))
  }

  lemma {:induction false} Trichotomy(b: seq<Byte>, i: nat, j: nat, h: nat)
    requires b != []
    ensures Same(b, i, j, h) || Less(b, i, j, h) || Less(b, j, i, h)
    ensures !(Same(b, i, j, h) && Less(b, i, j, h)) && !(Less(b, i, j, h) && Less(b, j, i, h))
    ensures Same(b, i, j, h) == Same(b, j, i, h) && !(Same(b, i, j, h) && Less(b, j, i, h))
  {
    if h > 0 { Trichotomy(b, i, j, h - 1); }
  }

  lemma {:induction false} Transitive(b: seq<Byte>, i: nat, j: nat, k: nat, h: nat)
    requires b != []
    ensures Same(b, i, j, h) && Same(b, j, k, h) ==> Same(b, i, k, h)
    ensures Same(b, i, j, h) && Less(b, j, k, h) ==> Less(b, i, k, h)
    ensures Less(b, i, j, h) && Same(b, j, k, h) ==> Less(b, i, k, h)
    ensures Less(b, i, j, h) && Less(b, j, k, h) ==> Less(b, i, k, h)
  {
    if h > 0 { Transitive(b, i, j, k, h - 1); }
  }

  /** The comparison only depends on the rotations, not on how they are numbered. */
  lemma {:induction false} Wraps(b: seq<Byte>, i: nat, j: nat, h: nat)
    requires b != []
    ensures Same(b, i + |b|, j, h) == Same(b, i, j, h) && Same(b, i, j + |b|, h) == Same(b, i, j, h)
    ensures Less(b, i + |b|, j, h) == Less(b, i, j, h) && Less(b, i, j + |b|, h) == Less(b, i, j, h)
  {
    if h > 0 {
      Wraps(b, i, j, h - 1);
      AtWraps(b, i + h - 1);
      AtWraps(b, j + h - 1);
    }
  }

  /** Comparing h + m bytes is comparing h bytes, and then m bytes further on. */
  lemma {:induction false} Further(b: seq<Byte>, i: nat, j: nat, h: nat, m: nat)
    requires b != []
    ensures Same(b, i, j, h + m) == (Same(b, i, j, h) && Same(b, i + h, j + h, m))
    ensures Less(b, i, j, h + m) == (Less(b, i, j, h) || (Same(b, i, j, h) && Less(b, i + h, j + h, m)))
  {
    if m > 0 { Further(b, i, j, h, m - 1); }
  }

  // --- Bucket starts ---

  ghost predicate Rotational(b: seq<Byte>, f: seq<int>) {
    b != [] && Injective(f, |b|)
  }

  /** The pointers are in order as far as h bytes tell. */
  ghost predicate SortedTo(b: seq<Byte>, f: seq<int>, h: nat)
    requires Rotational(b, f)
  {
    forall p, q :: 0 <= p < q < |f| ==> !Less(b, f[q], f[p], h)
  }

  /** Header bits stand exactly where the first h bytes change. */
  ghost predicate Heads(b: seq<Byte>, f: seq<int>, hd: seq<bool>, h: nat)
    requires Rotational(b, f)
  {
    |hd| == |f| && forall q :: 0 <= q < |f| ==> hd[q] == HeadAt(b, f, q, h)
  }

  /** Position q begins a bucket. */
  ghost predicate HeadAt(b: seq<Byte>, f: seq<int>, q: nat, h: nat)
    requires Rotational(b, f) && q < |f|
  {
    q == 0 || !Same(b, f[q - 1], f[q], h)
  }

  /** Where the bucket of position q begins. */
  function Start(hd: seq<bool>, q: nat): (r: nat)
    requires q < |hd|
    ensures r <= q
    ensures forall k :: r < k <= q ==> !hd[k]
    ensures r == 0 || hd[r]
  {
    if q == 0 || hd[q] then q else Start(hd, q - 1)
  }

  /** Within a bucket rotations agree. */
  lemma {:induction false} BucketSame(b: seq<Byte>, f: seq<int>, hd: seq<bool>, h: nat, p: nat, q: nat)
    requires Rotational(b, f) && Heads(b, f, hd, h) && p <= q < |f| && forall k :: p < k <= q ==> !hd[k]
    ensures Same(b, f[p], f[q], h)
    decreases q
  {
    if p < q {
      BucketSame(b, f, hd, h, p, q - 1);
      assert !hd[q];
      Transitive(b, f[p], f[q - 1], f[q], h);
    } else {
      Reflexive(b, f[p], h);
    }
  }

  lemma {:induction false} Reflexive(b: seq<Byte>, i: nat, h: nat)
    requires b != []
    ensures Same(b, i, i, h) && !Less(b, i, i, h)
  {
    if h > 0 { Reflexive(b, i, h - 1); }
  }

  /** Across a header rotations are strictly ordered. */
  lemma HeaderBetween(b: seq<Byte>, f: seq<int>, hd: seq<bool>, h: nat, p: nat, m: nat, q: nat)
    requires Rotational(b, f) && Heads(b, f, hd, h) && SortedTo(b, f, h) && p < m <= q < |f| && hd[m]
    ensures Less(b, f[p], f[q], h)
  {
    Trichotomy(b, f[m - 1], f[m], h);
    Trichotomy(b, f[p], f[m - 1], h);
    Trichotomy(b, f[m], f[q], h);
    Reflexive(b, f[p], h);
    Reflexive(b, f[q], h);
    assert !Less(b, f[m], f[m - 1], h);
    assert p < m - 1 ==> !Less(b, f[m - 1], f[p], h);
    assert m < q ==> !Less(b, f[q], f[m], h);
    Transitive(b, f[p], f[m - 1], f[m], h);
    Transitive(b, f[p], f[m], f[q], h);
  }

  /** Bucket starts order positions as the first h bytes do. */
  lemma StartOrder(b: seq<Byte>, f: seq<int>, hd: seq<bool>, h: nat, p: nat, q: nat)
    requires Rotational(b, f) && Heads(b, f, hd, h) && SortedTo(b, f, h) && p < |f| && q < |f|
    ensures Start(hd, p) == Start(hd, q) <==> Same(b, f[p], f[q], h)
    ensures Start(hd, p) < Start(hd, q) <==> Less(b, f[p], f[q], h)
  {
    hide Same, Less;
    var s, t := Start(hd, p), Start(hd, q);
    Trichotomy(b, f[p], f[q], h);
    Trichotomy(b, f[q], f[p], h);
    if s == t {
      if p <= q { BucketSame(b, f, hd, h, p, q); } else { BucketSame(b, f, hd, h, q, p); }
    } else if s < t {
      assert p < t;
      HeaderBetween(b, f, hd, h, p, t, q);
    } else {
      assert q < s;
      HeaderBetween(b, f, hd, h, q, s, p);
    }
  }

  // --- From depth n on: whole rotations ---

  lemma {:induction false} SameAt(b: seq<Byte>, i: nat, j: nat, h: nat, k: nat)
    requires b != [] && Same(b, i, j, h) && k < h
    ensures At(b, i + k) == At(b, j + k)
  {
    if k < h - 1 { SameAt(b, i, j, h - 1, k); }
  }

  /** Beyond the block's length nothing new is compared. */
  lemma {:induction false} NoLaterLess(b: seq<Byte>, i: nat, j: nat, h: nat)
    requires b != [] && Less(b, i, j, h)
    ensures exists m: nat :: m < h && m < |b| && Same(b, i, j, m) && At(b, i + m) < At(b, j + m)
  {
    if Less(b, i, j, h - 1) {
      NoLaterLess(b, i, j, h - 1);
    } else {
      Periodic(b, i, j, h - 1);
    }
  }

  lemma Periodic(b: seq<Byte>, i: nat, j: nat, m: nat)
    requires b != [] && Same(b, i, j, m)
    ensures m >= |b| ==> At(b, i + m) == At(b, j + m)
  {
    if m >= |b| {
      SameAt(b, i, j, m, m - |b|);
      AtWraps(b, i + m - |b|);
      AtWraps(b, j + m - |b|);
    }
  }

  lemma RotAt(b: seq<Byte>, i: nat, k: nat)
    requires i < |b| && k < |b|
    ensures Rot(b, i)[k] == At(b, i + k)
  {
  }

  lemma {:induction false} LeFromFirst(x: seq<Byte>, y: seq<Byte>, m: nat)
    requires |x| == |y| && m <= |x| && (forall k :: 0 <= k < m ==> x[k] == y[k])
    requires m < |x| ==> x[m] < y[m]
    ensures Le(x, y)
    decreases m
  {
    if m > 0 {
      LeFromFirst(x[1..], y[1..], m - 1);
    }
  }

  /** Rotations not out of order at some depth that settles everything are in order. */
  lemma FullOrder(b: seq<Byte>, i: nat, j: nat, h: nat)
    requires b != [] && i < |b| && j < |b|
    requires Less(b, i, j, h) || (h >= |b| && Same(b, i, j, h))
    ensures Le(Rot(b, i), Rot(b, j))
  {
    var x, y := Rot(b, i), Rot(b, j);
    if Less(b, i, j, h) {
      NoLaterLess(b, i, j, h);
      var m: nat :| m < h && m < |b| && Same(b, i, j, m) && At(b, i + m) < At(b, j + m);
      RotAt(b, i, m);
      RotAt(b, j, m);
      forall k | 0 <= k < m ensures x[k] == y[k] {
        SameAt(b, i, j, m, k);
        RotAt(b, i, k);
        RotAt(b, j, k);
      }
      LeFromFirst(x, y, m);
    } else {
      forall k | 0 <= k < |b| ensures x[k] == y[k] {
        SameAt(b, i, j, h, k);
        RotAt(b, i, k);
        RotAt(b, j, k);
      }
      LeFromFirst(x, y, |b|);
    }
  }
}

/** One pass of the exponential radix sort: refining buckets of depth h to depth 2h with the classes
    of the rotations h further on (fallbackSort, blocksort.c). */
module Doubling {
  import opened Basics
  import opened Permutations
  import opened Rotations
  import opened Shuffles
  import opened FallbackQSort
  import opened Depths

  /** The index h before x, cyclically. */
  function Back(x: nat, h: nat, n: nat): (r: nat)
    requires x < n && h <= n
    ensures r < n || (h == n && r == x)
    ensures r == x - h || r == x - h + n
  {
    if x >= h then x - h else x - h + n
  }

  /** eclass compares rotations by the h bytes that start h further on. */
  ghost predicate Classes(b: seq<Byte>, e: seq<int>, h: nat)
    requires b != []
  {
    && |e| >= |b| && (forall x :: 0 <= x < |b| ==> e[x] >= 0)
    && forall x: nat, y: nat :: x < |b| && y < |b| ==>
         (e[x] == e[y] <==> Same(b, x + h, y + h, h)) && (e[x] < e[y] <==> Less(b, x + h, y + h, h))
  }

  /** Classes from bucket starts. */
  lemma ClassesFromStarts(b: seq<Byte>, f: seq<int>, hd: seq<bool>, e: seq<int>, h: nat)
    requires Rotational(b, f) && Heads(b, f, hd, h) && SortedTo(b, f, h) && 1 <= h <= |b| && |e| >= |b|
    requires forall i :: 0 <= i < |b| ==> e[Back(f[i], h, |b|)] == Start(hd, i)
    ensures Classes(b, e, h)
  {
    hide Same, Less, SortedTo, Heads, Start;
    forall x: nat | x < |b| ensures e[x] >= 0 {
      var i := PlaceOf(b, f, x, h);
    }
    forall x: nat, y: nat | x < |b| && y < |b|
      ensures (e[x] == e[y] <==> Same(b, x + h, y + h, h)) && (e[x] < e[y] <==> Less(b, x + h, y + h, h))
    {
      var i := PlaceOf(b, f, x, h);
      var j := PlaceOf(b, f, y, h);
      HeadsLength(b, f, hd, h);
      StartOrder(b, f, hd, h, i, j);
      Shifted(b, x, y, f[i], f[j], h);
    }
  }

  lemma HeadsLength(b: seq<Byte>, f: seq<int>, hd: seq<bool>, h: nat)
    requires Rotational(b, f) && Heads(b, f, hd, h)
    ensures |hd| == |b|
  {
  }

  /** The position whose rotation starts h after x. */
  lemma PlaceOf(b: seq<Byte>, f: seq<int>, x: nat, h: nat) returns (i: nat)
    requires Rotational(b, f) && x < |b| && 1 <= h <= |b|
    ensures i < |b| && (f[i] == x + h || f[i] == x + h - |b|) && Back(f[i], h, |b|) == x
  {
    InjectiveIsPermutation(f, |b|);
    PermutationFacts(f, |b|);
    var y := if x + h < |b| then x + h else x + h - |b|;
    assert y in f;
    i :| 0 <= i < |f| && f[i] == y;
  }

  lemma Shifted(b: seq<Byte>, x: nat, y: nat, fx: nat, fy: nat, h: nat)
    requires b != [] && (fx == x + h || fx + |b| == x + h) && (fy == y + h || fy + |b| == y + h)
    ensures Same(b, x + h, y + h, h) == Same(b, fx, fy, h) && Less(b, x + h, y + h, h) == Less(b, fx, fy, h)
  {
    Wraps(b, fx, fy, h);
    Wraps(b, fx, y + h, h);
  }

  // --- The state inside a pass ---

  /** Positions before `done` are refined to depth 2h; the others are as they were. */
  ghost predicate Refining(b: seq<Byte>, f0: seq<int>, f: seq<int>, hd0: seq<bool>, hd: seq<bool>, e: seq<int>, h: nat, done: nat)
    requires Rotational(b, f0) && Rotational(b, f)
  {
    && SortedTo(b, f0, h) && Heads(b, f0, hd0, h) && Classes(b, e, h)
    && |hd| == |b| && done <= |b| && (done < |b| ==> hd0[done])
    && (forall p :: 0 <= p < |b| ==> Same(b, f[p], f0[p], h))
    && (forall p :: done <= p < |b| ==> f[p] == f0[p] && hd[p] == hd0[p])
    && (forall p :: 0 <= p < done ==> hd[p] == HeadAt(b, f, p, 2 * h))
    && (forall p, q :: 0 <= p < q < done && Same(b, f[p], f[q], h) ==> e[f[p]] <= e[f[q]])
  }

  lemma RefiningStart(b: seq<Byte>, f: seq<int>, hd: seq<bool>, e: seq<int>, h: nat)
    requires Rotational(b, f) && SortedTo(b, f, h) && Heads(b, f, hd, h) && Classes(b, e, h)
    ensures Refining(b, f, f, hd, hd, e, h, 0)
  {
    hide Same, Less;
    assert hd[0];
    forall p | 0 <= p < |b| ensures Same(b, f[p], f[p], h) {
      Reflexive(b, f[p], h);
    }
  }

  /** Rotations agree on 2h bytes when they agree on h and have the same class. */
  lemma SameTwice(b: seq<Byte>, e: seq<int>, x: nat, y: nat, h: nat)
    requires b != [] && Classes(b, e, h) && x < |b| && y < |b|
    ensures Same(b, x, y, 2 * h) == (Same(b, x, y, h) && e[x] == e[y])
    ensures Less(b, x, y, 2 * h) == (Less(b, x, y, h) || (Same(b, x, y, h) && e[x] < e[y]))
  {
    Further(b, x, y, h, h);
  }

  lemma Carry(b: seq<Byte>, x: nat, x0: nat, y: nat, y0: nat, h: nat)
    requires b != [] && Same(b, x, x0, h) && Same(b, y, y0, h) && Less(b, x0, y0, h)
    ensures Less(b, x, y, h) && !Same(b, x, y, h) && !Same(b, x, y, 2 * h)
  {
    hide Same, Less;
    Trichotomy(b, y, y0, h);
    Transitive(b, x, x0, y0, h);
    Transitive(b, x, y0, y, h);
    Trichotomy(b, x, y, h);
    Further(b, x, y, h, h);
  }

  /** A header of depth h separates what comes before it from what stands at it or after it. */
  lemma Separates(b: seq<Byte>, f0: seq<int>, f: seq<int>, hd0: seq<bool>, hd: seq<bool>, e: seq<int>, h: nat, done: nat, p: nat, m: nat, q: nat)
    requires Rotational(b, f0) && Rotational(b, f) && Refining(b, f0, f, hd0, hd, e, h, done)
    requires p < m <= q < |b| && hd0[m]
    ensures Less(b, f[p], f[q], h) && !Same(b, f[p], f[q], h) && !Same(b, f[p], f[q], 2 * h)
  {
    hide Same, Less, SortedTo, Heads, HeadAt, Classes;
    HeaderBetween(b, f0, hd0, h, p, m, q);
    Carry(b, f[p], f0[p], f[q], f0[q], h);
  }

  /** A bucket of one. */
  lemma SkipOne(b: seq<Byte>, f0: seq<int>, f: seq<int>, hd0: seq<bool>, hd: seq<bool>, e: seq<int>, h: nat, done: nat)
    requires Rotational(b, f0) && Rotational(b, f) && Refining(b, f0, f, hd0, hd, e, h, done)
    requires done < |b| && (done + 1 < |b| ==> hd0[done + 1])
    ensures Refining(b, f0, f, hd0, hd, e, h, done + 1)
  {
    forall p: nat | p < done ensures !Same(b, f[p], f[done], h) && !Same(b, f[p], f[done], 2 * h) {
      Separates(b, f0, f, hd0, hd, e, h, done, p, done, done);
    }
    hide Same, Less, SortedTo, Heads, Classes;
  }

  lemma {:induction false} SkipMany(b: seq<Byte>, f0: seq<int>, f: seq<int>, hd0: seq<bool>, hd: seq<bool>, e: seq<int>, h: nat, done: nat, next: nat)
    requires Rotational(b, f0) && Rotational(b, f) && Refining(b, f0, f, hd0, hd, e, h, done)
    requires done <= next <= |b| && |hd0| == |b| && forall p :: done <= p <= next && p < |b| ==> hd0[p]
    ensures Refining(b, f0, f, hd0, hd, e, h, next)
    decreases next - done
  {
    if done < next {
      SkipOne(b, f0, f, hd0, hd, e, h, done);
      SkipMany(b, f0, f, hd0, hd, e, h, done + 1, next);
    }
  }

  /** At the end of a pass the depth has doubled. */
  lemma PassDone(b: seq<Byte>, f0: seq<int>, f: seq<int>, hd0: seq<bool>, hd: seq<bool>, e: seq<int>, h: nat)
    requires Rotational(b, f0) && Rotational(b, f) && Refining(b, f0, f, hd0, hd, e, h, |b|)
    ensures SortedTo(b, f, 2 * h) && Heads(b, f, hd, 2 * h)
  {
    hide Same, Less;
    forall p, q | 0 <= p < q < |f| ensures !Less(b, f[q], f[p], 2 * h) {
      SameTwice(b, e, f[q], f[p], h);
      Trichotomy(b, f[p], f[q], h);
      Trichotomy(b, f[q], f[p], h);
      Trichotomy(b, f[p], f0[p], h);
      Trichotomy(b, f[q], f0[q], h);
      Transitive(b, f0[q], f[q], f[p], h);
      Transitive(b, f0[q], f[p], f0[p], h);
      assert !Less(b, f0[q], f0[p], h);
    }
  }

  // --- One bucket ---

  /** Nothing but l..r is a bucket of depth h that starts at `done`. */
  ghost predicate Bucket(hd0: seq<bool>, l: nat, r: nat) {
    l < r < |hd0| && hd0[l] && (forall p :: l < p <= r ==> !hd0[p]) && (r + 1 < |hd0| ==> hd0[r + 1])
  }

  /** The pointers of the bucket after sorting by class. */
  ghost predicate BucketSorted(b: seq<Byte>, f0: seq<int>, f: seq<int>, g: seq<int>, e: seq<int>, l: nat, r: nat) {
    Shuffled(f, g, l, r) && Ordered(g, e, l, r)
  }

  lemma ShuffleRotational(b: seq<Byte>, f: seq<int>, g: seq<int>, l: int, r: int)
    requires Rotational(b, f) && Shuffled(f, g, l, r)
    ensures Rotational(b, g)
  {
    forall k | 0 <= k < |g| ensures 0 <= g[k] < |b| {
      var m := ShuffleSource(f, g, l, r, k);
    }
  }

  /** Every pointer of the bucket still agrees with the others on h bytes. */
  lemma BucketAgrees(b: seq<Byte>, f0: seq<int>, f: seq<int>, g: seq<int>, hd0: seq<bool>, hd: seq<bool>, e: seq<int>, h: nat, l: nat, r: nat, p: nat, q: nat)
    requires Rotational(b, f0) && Rotational(b, f) && Refining(b, f0, f, hd0, hd, e, h, l) && Bucket(hd0, l, r)
    requires Shuffled(f, g, l, r) && Rotational(b, g) && l <= p <= r && l <= q <= r
    ensures Same(b, g[p], f0[q], h)
  {
    hide Same, Less, Shuffled, Classes, SortedTo, Heads;
    HeadsLength(b, f0, hd0, h);
    var m := ShuffleSource(f, g, l, r, p);
    assert f[m] == f0[m];
    if m <= q { BucketSame(b, f0, hd0, h, m, q); } else { BucketSame(b, f0, hd0, h, q, m); }
    Trichotomy(b, f0[q], f0[m], h);
    Trichotomy(b, f0[m], f0[q], h);
  }

  /** What the header scan leaves: bits of the bucket set where the class changes. */
  ghost predicate BucketHeads(hd: seq<bool>, hd2: seq<bool>, g: seq<int>, e: seq<int>, l: nat, r: nat) {
    && |hd2| == |hd| && l < r < |hd| && |g| == |hd| && (forall p :: 0 <= p < |hd| && !(l <= p <= r) ==> hd2[p] == hd[p])
    && (forall p :: l <= p <= r ==> 0 <= g[p] < |e|)
    && hd2[l] && forall p :: l < p <= r ==> hd2[p] == (e[g[p - 1]] != e[g[p]])
  }

  /** A sorted bucket with its new headers is refined. */
  lemma BucketDone(b: seq<Byte>, f0: seq<int>, f: seq<int>, g: seq<int>, hd0: seq<bool>, hd: seq<bool>, hd2: seq<bool>, e: seq<int>, h: nat, l: nat, r: nat)
    requires Rotational(b, f0) && Rotational(b, f) && Refining(b, f0, f, hd0, hd, e, h, l) && Bucket(hd0, l, r) && |hd0| == |b|
    requires BucketSorted(b, f0, f, g, e, l, r) && Rotational(b, g) && BucketHeads(hd, hd2, g, e, l, r)
    ensures Refining(b, f0, g, hd0, hd2, e, h, r + 1)
  {
    hide Same, Less, Shuffled, SortedTo, Heads, Classes;
    Outside(f, g, l, r);
    ClassSize(b, e, h);
    forall p | 0 <= p < |b| ensures Same(b, g[p], f0[p], h) {
      if l <= p <= r { BucketAgrees(b, f0, f, g, hd0, hd, e, h, l, r, p, p); }
    }
    forall p | 0 <= p < r + 1 ensures hd2[p] == HeadAt(b, g, p, 2 * h) {
      BucketHeader(b, f0, f, g, hd0, hd, hd2, e, h, l, r, p);
    }
    forall p, q | 0 <= p < q < r + 1 && Same(b, g[p], g[q], h) ensures e[g[p]] <= e[g[q]] {
      BucketOrder(b, f0, f, g, hd0, hd, e, h, l, r, p, q);
    }
  }

  lemma ClassSize(b: seq<Byte>, e: seq<int>, h: nat)
    requires b != [] && Classes(b, e, h)
    ensures |e| >= |b|
  {
  }

  lemma Outside(f: seq<int>, g: seq<int>, l: int, r: int)
    requires Shuffled(f, g, l, r)
    ensures |f| == |g| && forall k :: 0 <= k < |f| && !(l <= k <= r) ==> g[k] == f[k]
  {
  }

  /** Before the bucket everything is Less at depth h. */
  lemma BeforeBucket(b: seq<Byte>, f0: seq<int>, f: seq<int>, g: seq<int>, hd0: seq<bool>, hd: seq<bool>, e: seq<int>, h: nat, l: nat, r: nat, p: nat, q: nat)
    requires Rotational(b, f0) && Rotational(b, f) && Refining(b, f0, f, hd0, hd, e, h, l) && Bucket(hd0, l, r) && |hd0| == |b|
    requires Shuffled(f, g, l, r) && Rotational(b, g) && p < l <= q <= r
    ensures !Same(b, g[p], g[q], h) && !Same(b, g[p], g[q], 2 * h)
  {
    hide Same, Less, Shuffled, SortedTo, Heads, HeadAt, Classes;
    Outside(f, g, l, r);
    BucketAgrees(b, f0, f, g, hd0, hd, e, h, l, r, q, q);
    HeaderBetween(b, f0, hd0, h, p, l, q);
    Carry(b, g[p], f0[p], g[q], f0[q], h);
  }

  lemma BucketHeader(b: seq<Byte>, f0: seq<int>, f: seq<int>, g: seq<int>, hd0: seq<bool>, hd: seq<bool>, hd2: seq<bool>, e: seq<int>, h: nat, l: nat, r: nat, p: nat)
    requires Rotational(b, f0) && Rotational(b, f) && Refining(b, f0, f, hd0, hd, e, h, l) && Bucket(hd0, l, r) && |hd0| == |b|
    requires Shuffled(f, g, l, r) && Rotational(b, g) && BucketHeads(hd, hd2, g, e, l, r) && p <= r
    ensures hd2[p] == HeadAt(b, g, p, 2 * h)
  {
    hide Same, Less, Shuffled, SortedTo, Heads, Classes;
    Outside(f, g, l, r);
    if p < l {
    } else if p == l {
      if l > 0 { BeforeBucket(b, f0, f, g, hd0, hd, e, h, l, r, l - 1, l); }
    } else {
      InBucket(b, f0, f, g, hd0, hd, e, h, l, r, p - 1, p);
      SameTwice(b, e, g[p - 1], g[p], h);
    }
  }

  lemma InBucket(b: seq<Byte>, f0: seq<int>, f: seq<int>, g: seq<int>, hd0: seq<bool>, hd: seq<bool>, e: seq<int>, h: nat, l: nat, r: nat, p: nat, q: nat)
    requires Rotational(b, f0) && Rotational(b, f) && Refining(b, f0, f, hd0, hd, e, h, l) && Bucket(hd0, l, r) && |hd0| == |b|
    requires Shuffled(f, g, l, r) && Rotational(b, g) && l <= p <= q <= r
    ensures Same(b, g[p], g[q], h)
  {
    hide Same, Less, Shuffled, SortedTo, Heads, HeadAt, Classes, Refining;
    BucketAgrees(b, f0, f, g, hd0, hd, e, h, l, r, p, p);
    BucketAgrees(b, f0, f, g, hd0, hd, e, h, l, r, q, p);
    Trichotomy(b, g[q], f0[p], h);
    Transitive(b, g[p], f0[p], g[q], h);
  }

  lemma BucketOrder(b: seq<Byte>, f0: seq<int>, f: seq<int>, g: seq<int>, hd0: seq<bool>, hd: seq<bool>, e: seq<int>, h: nat, l: nat, r: nat, p: nat, q: nat)
    requires Rotational(b, f0) && Rotational(b, f) && Refining(b, f0, f, hd0, hd, e, h, l) && Bucket(hd0, l, r) && |hd0| == |b|
    requires BucketSorted(b, f0, f, g, e, l, r) && Rotational(b, g) && p < q <= r
    ensures |e| >= |b| && (Same(b, g[p], g[q], h) ==> e[g[p]] <= e[g[q]])
  {
    hide Same, Less, Shuffled, SortedTo, Heads, HeadAt;
    Outside(f, g, l, r);
    if p < l <= q { BeforeBucket(b, f0, f, g, hd0, hd, e, h, l, r, p, q); }
  }

  // --- Before the first pass and after the last ---

  /** Fully sorted: either every rotation is its own bucket, or at least n bytes have been compared. */
  lemma FullySorted(b: seq<Byte>, f: seq<int>, hd: seq<bool>, h: nat)
    requires Rotational(b, f) && SortedTo(b, f, h) && Heads(b, f, hd, h)
    requires h >= |b| || forall q :: 0 <= q < |b| ==> hd[q]
    ensures SortsRotations(b, f)
  {
    hide Same, Less, Le, Rot;
    InjectiveIsPermutation(f, |b|);
    HeadsLength(b, f, hd, h);
    forall p, q | 0 <= p < q < |b| ensures Le(Rot(b, f[p]), Rot(b, f[q])) {
      Trichotomy(b, f[p], f[q], h);
      if h < |b| { HeaderBetween(b, f, hd, h, p, q, q); }
      FullOrder(b, f[p], f[q], h);
    }
  }
}

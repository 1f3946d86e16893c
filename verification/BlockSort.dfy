/** BZ2_blockSort (blocksort.c): which sort runs, and where rotation 0 ends up. */
module BlockSort {
  import opened Basics
  import opened Permutations
  import opened Rotations
  import FallbackSort
  import MainSort

  /** What the sort leaves in ptr. */
  ghost predicate SortedBy(words: seq<Word>, b: seq<Byte>, orig: nat) {
    |b| <= |words| && SortedAt(b, words[..|b|], orig)
  }

  /** Short blocks, and blocks too repetitive for the main sort's budget, go to the fallback sort. */
  method SortPointers(ptr: array<Word>, block: array<Byte>, n: nat, workFactor: int)
    requires 0 < n <= 900000 && n + 34 <= block.Length && n <= ptr.Length && ptr as object != block
    modifies ptr, block
    ensures block[..n] == old(block[..n]) && SortsRotations(block[..n], ptr[..n])
  {
    hide SortsRotations;
    if n >= 10000 {
      var wfact := workFactor;
      if wfact < 1 { wfact := 1; }
      if wfact > 100 { wfact := 100; }
      var budgetInit := n * ((wfact - 1) / 3);
      var ftab, quadrant := new nat[0x1_0001], new nat[n + 34];
      var budget := MainSort.Sort(ptr, block, quadrant, ftab, n, budgetInit);
      if budget >= 0 { return; }
    }
    var arr2, bhtab := new Word[n], new bv32[65537];
    FallbackSort.Sort(ptr, arr2, block, bhtab, n);
  }

  method SortBlock(ptr: array<Word>, block: array<Byte>, nblock: nat, workFactor: int) returns (origPtr: nat)
    requires 0 < nblock <= 900000 && nblock + 34 <= block.Length && nblock <= ptr.Length && ptr as object != block
    modifies ptr, block
    ensures block[..nblock] == old(block[..nblock]) && SortedBy(ptr[..], block[..nblock], origPtr)
  {
    hide SortsRotations, IsPermutation;
    ghost var b := block[..nblock];
    SortPointers(ptr, block, nblock, workFactor);
    ghost var p := ptr[..nblock];
    ghost var zero := ZeroSomewhere(b, p);
    origPtr := 0;
    while ptr[origPtr] != 0
      invariant origPtr <= zero && ptr[..nblock] == p && block[..nblock] == b
      decreases zero - origPtr
    {
      assert ptr[origPtr] == p[origPtr];
      origPtr := origPtr + 1;
    }
    assert ptr[origPtr] == p[origPtr];
    SortedSize(b, p);
    assert ptr[..][..nblock] == p;
  }

  lemma SortedSize(b: seq<Byte>, p: seq<int>)
    requires SortsRotations(b, p)
    ensures |p| == |b|
  {
  }

  /** Assertion 1003: rotation 0 is somewhere. */
  lemma ZeroSomewhere(b: seq<Byte>, p: seq<int>) returns (k: nat)
    requires b != [] && SortsRotations(b, p)
    ensures |p| == |b| && k < |p| && p[k] == 0
  {
    PermutationFacts(p, |b|);
    assert 0 in p;
    k :| 0 <= k < |p| && p[k] == 0;
  }
}

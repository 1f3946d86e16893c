/** Which blocks overflow the decoder's run counters (decompress.c), counting in everything that ends a
    block earlier: a full block, the end mark, a lack of selectors. */
module RunOverflow {
  import opened Basics
  import opened BitStrings
  import opened Ranks
  import opened Canonical
  import opened Mtf
  import opened RunDigits
  import opened Decoder

  // --- The machine on symbols ---

  ghost predicate Symbols(syms: seq<int>, used: seq<Byte>) {
    forall k :: 0 <= k < |syms| ==> 0 <= syms[k] <= |used| + 1
  }

  /** The machine fed with symbols: it stops where it no longer asks for one. */
  ghost function FeedSymbols(d: Dec, used: seq<Byte>, syms: seq<int>): (r: Dec)
    requires Valid(d) && (d.MtfFirst? ==> d.body.used == used) && Symbols(syms, used)
    decreases |syms|
  {
    if !d.MtfFirst? || syms == [] then d
    else
      SymbolKeeps(d.body, d.groupNo, d.groupPos, syms[0]);
      FeedSymbols(Symbol(d.body, d.groupNo, d.groupPos, syms[0]), used, syms[1..])
  }

  lemma SymbolKeeps(b: Body, groupNo: nat, groupPos: nat, sym: int)
    requires BodyOk(b) && groupNo < |b.selector| && groupPos < 50 && 0 <= sym <= |b.used| + 1
    ensures var d := Symbol(b, groupNo, groupPos, sym);
            (d.MtfFirst? ==> d.body.used == b.used) && (d.MtfFirst? || d.Output? || d.Failed?)
  {
    hide SymbolFits, Take, Flushed;
  }

  // --- What is read ---

  /** Only run digits and positions before symbol k. */
  ghost predicate Plain(used: seq<Byte>, syms: seq<int>, k: nat) {
    k <= |syms| && forall j :: 0 <= j < k ==> 0 <= syms[j] <= |used|
  }

  /** The list, the column and the run when symbol k is read. */
  ghost function At(b: Body, syms: seq<int>, k: nat): (u: Unmtf)
    requires Ready(b.u, b.used, |b.used|) && Plain(b.used, syms, k)
    ensures Ready(u, b.used, |b.used|)
  {
    TakeAll(b.u, b.used, syms[..k])
  }

  /** Symbol k is read: the selectors last that long, no end mark comes before, and every run and
      position before it found room in the block. */
  ghost predicate Reached(b: Body, syms: seq<int>, k: nat)
    requires Ready(b.u, b.used, |b.used|)
  {
    && k < |syms| && k < 50 * |b.selector| && Plain(b.used, syms, k)
    && forall j: nat :: j < k && syms[j] >= 2 ==> |At(b, syms, j).col| + At(b, syms, j).run < 100000 * b.head.level
  }

  /** Symbol k overflows: a run of thirty digits stands before it, and it is one more digit, or it ends
      the run and with it the count of the run's byte reaches 2^31. */
  ghost predicate Overflows(b: Body, syms: seq<int>, k: nat)
    requires Ready(b.u, b.used, |b.used|) && Reached(b, syms, k)
  {
    var u := At(b, syms, k);
    Trailing(syms[..k]) == 30 && (syms[k] <= 1 || Count(u.col, b.used[u.list[0]]) + u.run > INT32_MAX)
  }

  ghost predicate OverflowFrom(b: Body, syms: seq<int>, k: nat)
    requires Ready(b.u, b.used, |b.used|)
  {
    exists j: nat :: k <= j && Reached(b, syms, j) && Overflows(b, syms, j)
  }

  /** A block of which no symbol has been read. */
  ghost predicate Fresh(b: Body) {
    BodyOk(b) && b.u == FreshList() && b.selector != []
  }

  /** The machine before symbol k. */
  ghost function Before(b: Body, syms: seq<int>, k: nat): (d: Dec)
    requires Ready(b.u, b.used, |b.used|) && Plain(b.used, syms, k)
  {
    MtfFirst(b.(u := At(b, syms, k)), k / 50, 49 - k % 50)
  }

  /** One more symbol in the column. */
  lemma AtNext(b: Body, syms: seq<int>, k: nat)
    requires Ready(b.u, b.used, |b.used|) && Plain(b.used, syms, k) && k < |syms| && 0 <= syms[k] <= |b.used|
    ensures Plain(b.used, syms, k + 1) && At(b, syms, k + 1) == Take(At(b, syms, k), b.used, syms[k])
  {
    hide Take, TakeAll, Ready;
    TakeAppend(b.u, b.used, syms[..k], syms[k]);
    assert syms[..k + 1] == syms[..k] + [syms[k]];
  }

  /** Symbol k overflows exactly where the machine says so. */
  lemma OverflowHere(b: Body, syms: seq<int>, k: nat)
    requires Fresh(b) && Symbols(syms, b.used) && Reached(b, syms, k) && Valid(Before(b, syms, k))
    ensures Overflows(b, syms, k)
       <==> Symbol(Before(b, syms, k).body, k / 50, 49 - k % 50, syms[k]) == Failed(RunOverflow)
  {
    hide SymbolFits, Take, TakeAll, Flushed, Trailing, Count, InRange, TablesOk, AllBelow;
    OverflowExactly(Before(b, syms, k).body, k / 50, 49 - k % 50, syms[k]);
    FitsExactly(b.u, b.used, syms[..k], syms[k]);
  }

  /** Otherwise the machine goes on to symbol k + 1 exactly if that is still read, if there is one. */
  lemma GoesOn(b: Body, syms: seq<int>, k: nat)
    requires Fresh(b) && Symbols(syms, b.used) && Reached(b, syms, k) && Valid(Before(b, syms, k))
    requires !Overflows(b, syms, k)
    ensures var e := Symbol(Before(b, syms, k).body, k / 50, 49 - k % 50, syms[k]);
            e.MtfFirst? <==> k + 1 < 50 * |b.selector| && syms[k] <= |b.used|
                             && (syms[k] >= 2 ==> |At(b, syms, k).col| + At(b, syms, k).run < 100000 * b.head.level)
    ensures var e := Symbol(Before(b, syms, k).body, k / 50, 49 - k % 50, syms[k]);
            e.MtfFirst? ==> Plain(b.used, syms, k + 1) && e == Before(b, syms, k + 1)
  {
    OverflowHere(b, syms, k);
    var d := Before(b, syms, k);
    OverflowExactly(d.body, k / 50, 49 - k % 50, syms[k]);
    if syms[k] <= |b.used| { AtNext(b, syms, k); }
    hide SymbolFits, Take, TakeAll, Flushed, Trailing, Count, InRange, TablesOk, AllBelow, Overflows, At;
  }

  /** What is read later. */
  lemma ReachedNext(b: Body, syms: seq<int>, k: nat, j: nat)
    requires Ready(b.u, b.used, |b.used|) && Reached(b, syms, k)
    ensures var room := k + 1 < 50 * |b.selector| && syms[k] <= |b.used|
                        && (syms[k] >= 2 ==> |At(b, syms, k).col| + At(b, syms, k).run < 100000 * b.head.level);
            && (room && 0 <= syms[k] && k + 1 < |syms| ==> Reached(b, syms, k + 1))
            && (!room && j > k ==> !Reached(b, syms, j))
  {
    hide At, Ready;
  }

  /** From symbol k on: the machine fails with an overflow exactly if some symbol it reads overflows. */
  lemma {:induction false} OverflowOnward(b: Body, syms: seq<int>, k: nat)
    requires Fresh(b) && Symbols(syms, b.used) && k <= |syms| && Plain(b.used, syms, k)
    requires Valid(Before(b, syms, k)) && (k < |syms| ==> Reached(b, syms, k))
    ensures FeedSymbols(Before(b, syms, k), b.used, syms[k..]) == Failed(RunOverflow) <==> OverflowFrom(b, syms, k)
    decreases |syms| - k
  {
    var d := Before(b, syms, k);
    if k < |syms| {
      assert syms[k..][0] == syms[k] && syms[k..][1..] == syms[k + 1..];
      OverflowHere(b, syms, k);
      var e := Symbol(d.body, d.groupNo, d.groupPos, syms[k]);
      if !Overflows(b, syms, k) {
        GoesOn(b, syms, k);
        forall j: nat ensures var room := e.MtfFirst?;
          (room && k + 1 < |syms| ==> Reached(b, syms, k + 1)) && (!room && j > k ==> !Reached(b, syms, j)) { ReachedNext(b, syms, k, j); }
        if e.MtfFirst? { OverflowOnward(b, syms, k + 1); }
      }
    }
    hide Symbol, Reached, Overflows, Valid, BodyOk, At, Plain;
  }

  /** Over every sequence of symbols: the block overflows the counters if and only if one of the symbols
      that are read does. */
  lemma BlockOverflows(b: Body, syms: seq<int>)
    requires Fresh(b) && Symbols(syms, b.used)
    ensures FeedSymbols(NextSymbol(b, -1, 0), b.used, syms) == Failed(RunOverflow) <==> OverflowFrom(b, syms, 0)
  {
    assert syms[..0] == [] && syms[0..] == syms;
    assert Before(b, syms, 0) == NextSymbol(b, -1, 0);
    OverflowOnward(b, syms, 0);
  }

  /** The digits alone tell which run that can be: every run that found room has at most 19. */
  lemma EarlierRunsShort(b: Body, syms: seq<int>, k: nat, j: nat)
    requires Fresh(b) && Reached(b, syms, k) && j < k && syms[j] >= 2
    ensures Trailing(syms[..j]) <= 19
  {
    hide TakeAll, Trailing, Shl;
    DigitsSoFar(b.u, b.used, syms[..j]);
    ThirtyDigits();
    if Trailing(syms[..j]) >= 20 { Pow2Mono(20, Trailing(syms[..j])); }
  }

  /** Digits beyond a refused run are never read: 25 RUNA and a position, then 31 RUNA, overflow nothing. */
  lemma RefusedBefore(b: Body)
    requires Fresh(b) && |b.used| >= 2
    ensures var syms := seq(25, _ => 0) + [2] + seq(31, _ => 0);
            Symbols(syms, b.used) && Trailing(syms) == 31
            && FeedSymbols(NextSymbol(b, -1, 0), b.used, syms) != Failed(RunOverflow)
  {
    FreshReady(b);
    hide Fresh, FeedSymbols, NextSymbol, Reached, Overflows, Trailing, Ready;
    var syms := seq(25, _ => 0) + [2] + seq(31, _ => 0);
    BlockOverflows(b, syms);
    assert syms[..25] == seq(25, _ => 0) && syms[..57] == syms;
    TrailingAll(syms[..25]);
    forall k: nat | Reached(b, syms, k) ensures !Overflows(b, syms, k) {
      TrailingHere(b, syms, k);
      if k > 25 { EarlierRunsShort(b, syms, k, 25); }
    }
    TrailingAfter(seq(25, _ => 0) + [2], seq(31, _ => 0));
  }

  lemma TrailingHere(b: Body, syms: seq<int>, k: nat)
    requires Ready(b.u, b.used, |b.used|) && Reached(b, syms, k)
    ensures k <= |syms| && (Overflows(b, syms, k) ==> Trailing(syms[..k]) == 30) && Trailing(syms[..k]) <= k
  {
    hide At, Count, TakeAll;
  }

  lemma {:induction false} TrailingAfter(syms: seq<int>, digits: seq<int>)
    requires syms != [] && syms[|syms| - 1] >= 2 && forall k :: 0 <= k < |digits| ==> digits[k] == 0 || digits[k] == 1
    ensures Trailing(syms + digits) == |digits|
    decreases |digits|
  {
    if digits == [] {
      assert syms + digits == syms;
    } else {
      assert (syms + digits)[..|syms + digits| - 1] == syms + digits[..|digits| - 1];
      TrailingAfter(syms, digits[..|digits| - 1]);
    }
  }

  /** Thirty-two digits RUNA at the start of a block do. */
  lemma StrayOverflows(b: Body)
    requires Fresh(b)
    ensures FeedSymbols(NextSymbol(b, -1, 0), b.used, seq(32, _ => 0)) == Failed(RunOverflow)
  {
    hide Fresh, FeedSymbols, NextSymbol, Trailing, TakeAll;
    var syms := seq(32, _ => 0);
    BlockOverflows(b, syms);
    FreshReady(b);
    TrailingAll(syms[..30]);
    assert Reached(b, syms, 30) && Overflows(b, syms, 30);
  }

  lemma FreshReady(b: Body)
    requires Fresh(b)
    ensures Ready(b.u, b.used, |b.used|) && b.selector != []
  {
  }

  // --- The machine on bits ---

  predicate Reading(d: Dec) { d.MtfFirst? || d.MtfMore? }

  /** The symbol that GET_MTF_VAL returns once field v has been read, if it is complete and valid. */
  function Completed(d: Dec, v: nat): (syms: seq<int>)
    requires Valid(d) && Reading(d)
    ensures |syms| <= 1 && forall k :: 0 <= k < |syms| ==> 0 <= syms[k] <= |d.body.used| + 1
  {
    var t := TableFor(d.body, d.groupNo);
    var zn, zvec := if d.MtfFirst? then t.minLen else d.zn, if d.MtfFirst? then v else 2 * d.zvec + v;
    if zn > 20 || zvec > t.limit[zn] || zvec - t.base[zn] < 0 || zvec - t.base[zn] >= 258 then []
    else [t.perm[zvec - t.base[zn]]]
  }

  /** The symbols read from a bit string. */
  ghost function SymbolsRead(d: Dec, bits: seq<Bit>): (syms: seq<int>)
    requires Valid(d)
    decreases |bits|
  {
    if !Reading(d) || |bits| < Need(d) then []
    else
      var v := Val(bits[..Need(d)]);
      Completed(d, v) + SymbolsRead(Step(d, v), bits[Need(d)..])
  }

  /** The machine at the start of the symbol it is reading. */
  ghost function Restarted(d: Dec): (r: Dec)
    requires Valid(d)
    ensures Valid(r)
  {
    if d.MtfMore? then MtfFirst(d.body, d.groupNo, d.groupPos) else d
  }

  lemma StepReads(d: Dec, v: nat)
    requires Valid(d) && Reading(d) && v < Pow2(Need(d))
    ensures var e, syms := Step(d, v), Completed(d, v);
            && (syms != [] ==> e == Symbol(d.body, d.groupNo, d.groupPos, syms[0]) && !e.MtfMore?)
            && (syms == [] ==> e == Failed(DataError) || (e.MtfMore? && Restarted(e) == Restarted(d)))
            && (Reading(e) ==> e.body.used == d.body.used) && (Waiting(e) ==> Reading(e))
  {
    hide Symbol, BodyOk;
    if Completed(d, v) != [] { SymbolKeeps(d.body, d.groupNo, d.groupPos, Completed(d, v)[0]); }
  }

  lemma {:induction false} SymbolsReadOk(d: Dec, bits: seq<Bit>, used: seq<Byte>)
    requires Valid(d) && (Reading(d) ==> d.body.used == used)
    ensures Symbols(SymbolsRead(d, bits), used)
    decreases |bits|
  {
    if Reading(d) && |bits| >= Need(d) {
      var v := Val(bits[..Need(d)]);
      StepReads(d, v);
      hide Step, Completed, Valid;
      SymbolsReadOk(Step(d, v), bits[Need(d)..], used);
    }
  }

  /** Over every bit string: reading it overflows exactly if the symbols it holds do. */
  lemma {:induction false} BitsOverflow(d: Dec, bits: seq<Bit>, used: seq<Byte>)
    requires Valid(d) && (Waiting(d) ==> Reading(d)) && (Reading(d) ==> d.body.used == used)
    ensures Symbols(SymbolsRead(d, bits), used)
    ensures Feed(d, bits).d == Failed(RunOverflow) <==> FeedSymbols(Restarted(d), used, SymbolsRead(d, bits)) == Failed(RunOverflow)
    decreases |bits|
  {
    hide *;
    Restarting(d);
    SymbolsReadOk(d, bits, used);
    OnBits(d, bits);
    OnSymbols(Restarted(d), used, SymbolsRead(d, bits));
    if Reading(d) && |bits| >= Need(d) {
      var v := Val(bits[..Need(d)]);
      StepReads(d, v);
      BitsOverflow(Step(d, v), bits[Need(d)..], used);
      OnBits(Step(d, v), bits[Need(d)..]);
      Restarting(Step(d, v));
      SymbolsReadOk(Step(d, v), bits[Need(d)..], used);
      OnSymbols(Restarted(Step(d, v)), used, SymbolsRead(Step(d, v), bits[Need(d)..]));
    }
  }

  /** One step of Feed and of SymbolsRead. */
  lemma OnBits(d: Dec, bits: seq<Bit>)
    requires Valid(d)
    ensures Reading(d) ==> Waiting(d) && !d.Failed?
    ensures !Waiting(d) || |bits| < Need(d) ==> Feed(d, bits).d == d
    ensures !Reading(d) || |bits| < Need(d) ==> SymbolsRead(d, bits) == []
    ensures Reading(d) && |bits| >= Need(d) ==>
              var v := Val(bits[..Need(d)]);
              && v < Pow2(Need(d)) && Feed(d, bits).d == Feed(Step(d, v), bits[Need(d)..]).d
              && SymbolsRead(d, bits) == Completed(d, v) + SymbolsRead(Step(d, v), bits[Need(d)..])
              && (Completed(d, v) == [] ==> SymbolsRead(d, bits) == SymbolsRead(Step(d, v), bits[Need(d)..]))
              && (Completed(d, v) != [] ==> SymbolsRead(d, bits) != [] && SymbolsRead(d, bits)[0] == Completed(d, v)[0]
                                            && SymbolsRead(d, bits)[1..] == SymbolsRead(Step(d, v), bits[Need(d)..]))
  {
    hide Step, Completed, Valid, Bits, Need;
  }

  /** One step of FeedSymbols. */
  lemma OnSymbols(d: Dec, used: seq<Byte>, syms: seq<int>)
    requires Valid(d) && (d.MtfFirst? ==> d.body.used == used) && Symbols(syms, used)
    ensures !d.MtfFirst? || syms == [] ==> FeedSymbols(d, used, syms) == d
    ensures d.MtfFirst? && syms != [] ==>
              var e := Symbol(d.body, d.groupNo, d.groupPos, syms[0]);
              (e.MtfFirst? ==> e.body.used == used) && FeedSymbols(d, used, syms) == FeedSymbols(e, used, syms[1..])
  {
    hide Symbol, BodyOk;
    if d.MtfFirst? && syms != [] { SymbolKeeps(d.body, d.groupNo, d.groupPos, syms[0]); }
  }

  lemma Restarting(d: Dec)
    requires Valid(d)
    ensures Reading(d) ==> Restarted(d) == MtfFirst(d.body, d.groupNo, d.groupPos)
    ensures !d.MtfMore? ==> Restarted(d) == d
    ensures Reading(d) <==> d.MtfFirst? || d.MtfMore?
  {
  }

  /** The end of a block's header, and every bit string after it. */
  lemma OverflowOnBits(b: Body, bits: seq<Bit>)
    requires Fresh(b)
    ensures Symbols(SymbolsRead(NextSymbol(b, -1, 0), bits), b.used)
    ensures Feed(NextSymbol(b, -1, 0), bits).d == Failed(RunOverflow) <==> OverflowFrom(b, SymbolsRead(NextSymbol(b, -1, 0), bits), 0)
  {
    BitsOverflow(NextSymbol(b, -1, 0), bits, b.used);
    BlockOverflows(b, SymbolsRead(NextSymbol(b, -1, 0), bits));
  }
}

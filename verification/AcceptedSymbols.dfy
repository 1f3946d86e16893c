/** What BZ2_decompress (decompress.c) takes for the symbols of a block: code words of the tables in turn,
    50 to a selector, up to an end mark, each run and position finding room. */
module AcceptedSymbols {
  import opened Basics
  import opened BitStrings
  import opened Permutations
  import opened Ranks
  import opened Canonical
  import opened Mtf
  import opened RunDigits
  import opened RunOverflow
  import opened Decoder
  import opened BlockFormat
  import opened AcceptedFields

  // --- One code word ---

  /** GET_MTF_VAL takes these bits for the symbol: no shorter part of them is within its length's limit. */
  ghost predicate CodeWord(t: Table, alphaSize: nat, w: seq<Bit>, sym: int) {
    && TableOk(t, alphaSize) && t.minLen <= |w| <= 20
    && (forall n :: t.minLen <= n < |w| ==> Val(w[..n]) > t.limit[n])
    && Val(w) <= t.limit[|w|] && 0 <= Val(w) - t.base[|w|] < 258 && sym == t.perm[Val(w) - t.base[|w|]]
  }

  lemma WordIs(t: Table, alphaSize: nat, w: seq<Bit>, sym: int)
    ensures CodeWord(t, alphaSize, w, sym) ==> TableOk(t, alphaSize) && 1 <= t.minLen <= |w| <= 20 && 0 <= sym < alphaSize
  {
  }

  lemma ValMore(w: seq<Bit>, n: nat)
    requires n < |w|
    ensures Val(w[..n + 1]) == 2 * Val(w[..n]) + w[n]
  {
    assert w[..n + 1][..n] == w[..n];
  }

  /** The machine with the first zn bits of a word in hand. */
  lemma InHand(b: Body, groupNo: nat, groupPos: nat, w: seq<Bit>, sym: int, zn: nat)
    requires BodyOk(b) && groupNo < |b.selector| && groupPos < 50
    requires CodeWord(TableFor(b, groupNo), |b.used| + 2, w, sym) && TableFor(b, groupNo).minLen <= zn <= |w|
    ensures 1 <= zn <= 20 && 0 <= sym <= |b.used| + 1
    ensures CheckCode(b, groupNo, groupPos, zn, Val(w[..zn]))
         == if zn < |w| then MtfMore(b, groupNo, groupPos, zn + 1, Val(w[..zn])) else Symbol(b, groupNo, groupPos, sym)
  {
    hide Symbol, Val, BodyOk;
    if zn == |w| { assert w[..zn] == w; }
  }

  lemma MoreSteps(b: Body, groupNo: nat, groupPos: nat, zn: nat, zvec: nat, bit: bool)
    requires Valid(MtfMore(b, groupNo, groupPos, zn, zvec))
    ensures BodyOk(b) && groupNo < |b.selector| && groupPos < 50 && 1 <= zn <= 21
    ensures var d := MtfMore(b, groupNo, groupPos, zn, zvec);
            Waiting(d) && Need(d) == 1 && BitOf(bit) < Pow2(1) && Step(d, BitOf(bit)) == CheckCode(b, groupNo, groupPos, zn, 2 * zvec + BitOf(bit))
  {
    assert Pow2(1) == 2 by { assert Shl(1, 0) == 1; }
    hide CheckCode, BodyOk;
  }

  lemma {:induction false} TextIsTail(b: Body, groupNo: nat, groupPos: nat, w: seq<Bit>, sym: int, zn: nat)
    requires BodyOk(b) && groupNo < |b.selector| && groupPos < 50
    requires CodeWord(TableFor(b, groupNo), |b.used| + 2, w, sym) && TableFor(b, groupNo).minLen <= zn <= |w|
    ensures 1 <= zn <= 20 && 0 <= sym <= |b.used| + 1
    ensures Reads(CheckCode(b, groupNo, groupPos, zn, Val(w[..zn])), w[zn..], Symbol(b, groupNo, groupPos, sym))
    decreases |w| - zn
  {
    hide *;
    InHand(b, groupNo, groupPos, w, sym, zn);
    if zn == |w| {
      assert w[zn..] == [];
      ReadsNothing(Symbol(b, groupNo, groupPos, sym));
    } else {
      TextIsTail(b, groupNo, groupPos, w, sym, zn + 1);
      var d := MtfMore(b, groupNo, groupPos, zn + 1, Val(w[..zn]));
      MoreValid(b, groupNo, groupPos, zn + 1, Val(w[..zn]));
      var bit := w[zn] == 1;
      BitOfIs(bit);
      MoreSteps(b, groupNo, groupPos, zn + 1, Val(w[..zn]), bit);
      ReadsBit(d, w[zn]);
      ValMore(w, zn);
      assert w[zn..] == [w[zn]] + w[zn + 1..];
      ReadsThen(d, [w[zn]], CheckCode(b, groupNo, groupPos, zn + 1, Val(w[..zn + 1])), w[zn + 1..], Symbol(b, groupNo, groupPos, sym));
    }
  }

  lemma MoreValid(b: Body, groupNo: nat, groupPos: nat, zn: nat, zvec: nat)
    requires BodyOk(b) && groupNo < |b.selector| && groupPos < 50 && 1 <= zn <= 21
    ensures Valid(MtfMore(b, groupNo, groupPos, zn, zvec))
  {
    hide BodyOk;
  }

  lemma FirstSteps(b: Body, groupNo: nat, groupPos: nat, v: nat)
    requires Valid(MtfFirst(b, groupNo, groupPos))
    ensures BodyOk(b) && groupNo < |b.selector| && groupPos < 50
    ensures var t, d := TableFor(b, groupNo), MtfFirst(b, groupNo, groupPos);
            TableOk(t, |b.used| + 2) && 1 <= t.minLen <= 20 && Waiting(d) && Need(d) == t.minLen
            && (v < Pow2(t.minLen) ==> Step(d, v) == CheckCode(b, groupNo, groupPos, t.minLen, v))
  {
    hide CheckCode, BodyOk, Shl;
  }

  lemma TextIsWord(b: Body, groupNo: nat, groupPos: nat, w: seq<Bit>, sym: int)
    requires Valid(MtfFirst(b, groupNo, groupPos)) && BodyOk(b) && groupNo < |b.selector|
    requires CodeWord(TableFor(b, groupNo), |b.used| + 2, w, sym)
    ensures groupPos < 50 && 0 <= sym <= |b.used| + 1
    ensures Reads(MtfFirst(b, groupNo, groupPos), w, Symbol(b, groupNo, groupPos, sym))
  {
    hide *;
    var n := TableFor(b, groupNo).minLen;
    WordIs(TableFor(b, groupNo), |b.used| + 2, w, sym);
    FirstSteps(b, groupNo, groupPos, Val(w[..n]));
    BitsOfVal(w[..n]);
    ReadsField(MtfFirst(b, groupNo, groupPos), n, Val(w[..n]));
    TextIsTail(b, groupNo, groupPos, w, sym, n);
    assert w == w[..n] + w[n..];
    ReadsThen(MtfFirst(b, groupNo, groupPos), w[..n], CheckCode(b, groupNo, groupPos, n, Val(w[..n])), w[n..], Symbol(b, groupNo, groupPos, sym));
  }

  /** The bits in hand are no code word yet. */
  ghost predicate NotYet(t: Table, w: seq<Bit>, zn: nat) {
    |t.limit| == 23 && zn <= |w| && zn <= 20 && forall n :: t.minLen <= n < zn ==> Val(w[..n]) > t.limit[n]
  }

  lemma CheckSteps(b: Body, groupNo: nat, groupPos: nat, w: seq<Bit>)
    requires BodyOk(b) && groupNo < |b.selector| && groupPos < 50 && 1 <= |w| <= 20
    requires TableFor(b, groupNo).minLen <= |w| && NotYet(TableFor(b, groupNo), w, |w|)
    ensures var t, d := TableFor(b, groupNo), CheckCode(b, groupNo, groupPos, |w|, Val(w));
            && TableOk(t, |b.used| + 2)
            && (Val(w) > t.limit[|w|] ==> d == MtfMore(b, groupNo, groupPos, |w| + 1, Val(w)))
            && (Val(w) <= t.limit[|w|] && !d.Failed? ==>
                  0 <= Val(w) - t.base[|w|] < 258 && var sym := t.perm[Val(w) - t.base[|w|]];
                  0 <= sym <= |b.used| + 1 && d == Symbol(b, groupNo, groupPos, sym) && CodeWord(t, |b.used| + 2, w, sym))
  {
    hide Symbol, Val, BodyOk;
  }

  lemma TooLongWord(b: Body, groupNo: nat, groupPos: nat, zvec: nat)
    requires BodyOk(b) && groupNo < |b.selector| && groupPos < 50
    ensures CheckCode(b, groupNo, groupPos, 21, zvec) == Failed(DataError)
  {
    hide BodyOk;
  }

  lemma ValOneMore(w: seq<Bit>, x: Bit)
    ensures Val(w + [x]) == 2 * Val(w) + x
    ensures forall n :: 0 <= n <= |w| ==> (w + [x])[..n] == w[..n]
    ensures w[..|w|] == w
  {
    assert (w + [x])[..|w|] == w;
  }

  lemma OneBitMore(t: Table, w: seq<Bit>, x: Bit)
    requires NotYet(t, w, |w|) && |w| < 20 && (t.minLen <= |w| ==> Val(w) > t.limit[|w|])
    ensures NotYet(t, w + [x], |w| + 1) && Val(w + [x]) == 2 * Val(w) + x
  {
    ValOneMore(w, x);
    hide Val;
    var v := w + [x];
    forall n | t.minLen <= n < |w| + 1 ensures Val(v[..n]) > t.limit[n] {
      if n < |w| {
        assert Val(w[..n]) > t.limit[n];
      } else {
        assert v[..n] == w;
      }
    }
  }

  lemma {:induction false} TailOf(b: Body, groupNo: nat, groupPos: nat, pre: seq<Bit>, bits: seq<Bit>)
    returns (w: seq<Bit>, sym: int, rest: seq<Bit>)
    requires BodyOk(b) && groupNo < |b.selector| && groupPos < 50 && 1 <= |pre| <= 20
    requires TableFor(b, groupNo).minLen <= |pre| && NotYet(TableFor(b, groupNo), pre, |pre|)
    requires Comes(CheckCode(b, groupNo, groupPos, |pre|, Val(pre)), bits)
    ensures CodeWord(TableFor(b, groupNo), |b.used| + 2, w, sym) && 0 <= sym <= |b.used| + 1
    ensures pre + bits == w + rest && |rest| <= |bits| && Comes(Symbol(b, groupNo, groupPos, sym), rest)
    ensures Feed(CheckCode(b, groupNo, groupPos, |pre|, Val(pre)), bits) == Feed(Symbol(b, groupNo, groupPos, sym), rest)
    decreases |bits|
  {
    hide *;
    CheckSteps(b, groupNo, groupPos, pre);
    var t, d := TableFor(b, groupNo), CheckCode(b, groupNo, groupPos, |pre|, Val(pre));
    ComesIs(d, bits);
    OneFeed(d, bits);
    Halted(d);
    TableSize(t, |b.used| + 2);
    if Val(pre) <= t.limit[|pre|] {
      w, sym, rest := pre, t.perm[Val(pre) - t.base[|pre|]], bits;
    } else {
      MoreSteps(b, groupNo, groupPos, |pre| + 1, Val(pre), false);
      var bit, next := BitOfField(d, bits);
      BitOfIs(bit);
      MoreSteps(b, groupNo, groupPos, |pre| + 1, Val(pre), bit);
      Assoc(pre, [BitOf(bit)], next);
      if |pre| == 20 {
        TooLongWord(b, groupNo, groupPos, 2 * Val(pre) + BitOf(bit));
        assert false;
      } else {
        OneBitMore(t, pre, BitOf(bit));
        w, sym, rest := TailOf(b, groupNo, groupPos, pre + [BitOf(bit)], next);
      }
    }
  }

  lemma TableSize(t: Table, alphaSize: nat)
    requires TableOk(t, alphaSize)
    ensures |t.limit| == 23 && |t.base| == 23 && |t.perm| == 258
    ensures forall k :: 0 <= k < 258 ==> 0 <= t.perm[k] < alphaSize
  {
  }

  lemma WordOf(b: Body, groupNo: nat, groupPos: nat, bits: seq<Bit>) returns (w: seq<Bit>, sym: int, rest: seq<Bit>)
    requires Comes(MtfFirst(b, groupNo, groupPos), bits)
    ensures BodyOk(b) && groupNo < |b.selector| && groupPos < 50
    ensures CodeWord(TableFor(b, groupNo), |b.used| + 2, w, sym) && 0 <= sym <= |b.used| + 1
    ensures bits == w + rest && |rest| < |bits| && Comes(Symbol(b, groupNo, groupPos, sym), rest)
    ensures Feed(MtfFirst(b, groupNo, groupPos), bits) == Feed(Symbol(b, groupNo, groupPos, sym), rest)
  {
    hide *;
    var d := MtfFirst(b, groupNo, groupPos);
    ComesIs(d, bits);
    FirstSteps(b, groupNo, groupPos, 0);
    var n := TableFor(b, groupNo).minLen;
    var v, next := FieldOf(d, bits);
    FirstSteps(b, groupNo, groupPos, v);
    ValBits(n, v);
    FieldLength(n, v);
    NothingYet(TableFor(b, groupNo), |b.used| + 2, Bits(n, v));
    w, sym, rest := TailOf(b, groupNo, groupPos, Bits(n, v), next);
  }

  lemma NothingYet(t: Table, alphaSize: nat, w: seq<Bit>)
    requires TableOk(t, alphaSize) && |w| == t.minLen
    ensures NotYet(t, w, |w|)
  {
  }

  // --- All symbols ---

  function JoinedWords(words: seq<seq<Bit>>): (r: seq<Bit>) {
    if words == [] then [] else words[0] + JoinedWords(words[1..])
  }

  /** Each symbol has a code word of the table its selector names. */
  ghost predicate WordsOk(b: Body, words: seq<seq<Bit>>, syms: seq<int>, k: nat) {
    && BodyOk(b) && |words| + k == |syms| <= 50 * |b.selector|
    && forall i :: 0 <= i < |words| ==> WordAt(b, words[i], syms[k + i], k + i)
  }

  /** A code word for a symbol at place j of a block. */
  ghost predicate WordAt(b: Body, w: seq<Bit>, sym: int, j: nat)
    requires BodyOk(b)
  {
    j / 50 < |b.selector| && CodeWord(TableFor(b, j / 50), |b.used| + 2, w, sym)
  }

  /** A block's symbols: an end mark, and only there; every run and position before it finds room, the last
      run too, and the original row lies in the block. */
  ghost predicate Whole(b: Body, syms: seq<int>)
    requires Ready(b.u, b.used, |b.used|)
  {
    syms != [] && var n := |syms| - 1;
    && syms[n] == |b.used| + 1 && Reached(b, syms, n)
    && var u := At(b, syms, n); b.head.orig < |u.col| + u.run <= 100000 * b.head.level
  }

  ghost function EndColumn(b: Body, syms: seq<int>): (col: seq<Byte>)
    requires Ready(b.u, b.used, |b.used|) && Whole(b, syms)
  {
    Flushed(At(b, syms, |syms| - 1), b.used)
  }

  lemma ReachedBefore(b: Body, syms: seq<int>, n: nat, k: nat)
    requires Ready(b.u, b.used, |b.used|) && Reached(b, syms, n) && k <= n
    ensures Reached(b, syms, k)
  {
    hide At, Ready;
  }

  /** A run of 30 digits would not have found room where it ends. */
  lemma NoOverflow(b: Body, syms: seq<int>, k: nat)
    requires Fresh(b) && Whole(b, syms) && k < |syms|
    ensures Reached(b, syms, k) && !Overflows(b, syms, k)
  {
    var n := |syms| - 1;
    FreshReady(b);
    ReachedBefore(b, syms, n, k);
    if Overflows(b, syms, k) {
      var e := RunEnd(b, syms, k);
      ShortRun(b, syms, e);
    }
  }

  lemma ShortRun(b: Body, syms: seq<int>, e: nat)
    requires Fresh(b) && Whole(b, syms) && e < |syms| && syms[e] >= 2
    ensures Trailing(syms[..e]) < 30
  {
    var n := |syms| - 1;
    ReachedBefore(b, syms, n, e);
    hide TakeAll, Trailing, Shl, Ready, Reached;
    RoomAt(b, syms, e);
    PlainAt(b, syms, e);
    DigitsSoFar(b.u, b.used, syms[..e]);
    ThirtyDigits();
    if Trailing(syms[..e]) >= 30 { Pow2Mono(30, Trailing(syms[..e])); }
  }

  lemma PlainAt(b: Body, syms: seq<int>, e: nat)
    requires Fresh(b) && Ready(b.u, b.used, |b.used|) && Reached(b, syms, e)
    ensures e < |syms| && b.u.run == 0 && b.u.weight == 1 && forall k :: 0 <= k < |syms[..e]| ==> 0 <= syms[..e][k] <= |b.used|
    ensures TakeAll(b.u, b.used, syms[..e]) == At(b, syms, e)
  {
    hide TakeAll;
  }

  lemma RoomAt(b: Body, syms: seq<int>, e: nat)
    requires Fresh(b) && Whole(b, syms) && e < |syms| && syms[e] >= 2
    ensures Reached(b, syms, e) && At(b, syms, e).run <= 900000
  {
    ReachedBefore(b, syms, |syms| - 1, e);
    hide At;
  }

  /** Where the run that symbol k stands in ends. */
  lemma RunEnd(b: Body, syms: seq<int>, k: nat) returns (e: nat)
    requires Ready(b.u, b.used, |b.used|) && Whole(b, syms) && k < |syms| && Trailing(syms[..k]) == 30
    ensures e < |syms| && syms[e] >= 2 && Trailing(syms[..e]) >= 30
  {
    WholeSymbols(b, syms);
    hide At, Reached;
    e := k;
    while syms[e] < 2
      invariant e < |syms| && Trailing(syms[..e]) >= 30
      decreases |syms| - e
    {
      assert syms[..e + 1][..e] == syms[..e];
      e := e + 1;
    }
  }

  /** The end mark of a whole block delivers it. */
  lemma EndMark(b: Body, syms: seq<int>)
    requires Fresh(b) && Whole(b, syms) && Symbols(syms, b.used) && Valid(Before(b, syms, |syms| - 1))
    ensures var n := |syms| - 1; Symbol(Before(b, syms, n).body, n / 50, 49 - n % 50, syms[n]) == Output(b.head, EndColumn(b, syms))
  {
    var n := |syms| - 1;
    NoOverflow(b, syms, n);
    OverflowHere(b, syms, n);
    OverflowExactly(Before(b, syms, n).body, n / 50, 49 - n % 50, syms[n]);
    hide SymbolFits, Reached, Overflows, TakeAll, TablesOk, AllBelow, InRange;
  }

  lemma WholeSymbols(b: Body, syms: seq<int>)
    requires Ready(b.u, b.used, |b.used|) && Whole(b, syms)
    ensures Symbols(syms, b.used) && syms != [] && Reached(b, syms, |syms| - 1)
  {
    hide At, Ready;
  }

  lemma BodyAt(b: Body, syms: seq<int>, k: nat)
    requires Ready(b.u, b.used, |b.used|) && Plain(b.used, syms, k) && Valid(Before(b, syms, k)) && BodyOk(b)
    ensures k / 50 < |b.selector|
    ensures var d := Before(b, syms, k);
            d == MtfFirst(b.(u := At(b, syms, k)), k / 50, 49 - k % 50) && BodyOk(d.body) && d.body.used == b.used
            && d.body.selector == b.selector && TableFor(d.body, k / 50) == TableFor(b, k / 50)
  {
    hide TablesOk, InRange, At, Ready;
  }

  lemma {:induction false} TextIsSymbols(b: Body, words: seq<seq<Bit>>, syms: seq<int>, k: nat)
    requires Fresh(b) && Ready(b.u, b.used, |b.used|) && Whole(b, syms) && WordsOk(b, words, syms, k) && k < |syms|
    requires Plain(b.used, syms, k) && Valid(Before(b, syms, k))
    ensures Reads(Before(b, syms, k), JoinedWords(words), Output(b.head, EndColumn(b, syms)))
    decreases |syms| - k
  {
    hide *;
    WholeSymbols(b, syms);
    NoOverflow(b, syms, k);
    FirstWord(b, words, syms, k);
    BodyAt(b, syms, k);
    var d := Before(b, syms, k);
    TextIsWord(d.body, k / 50, 49 - k % 50, words[0], syms[k]);
    WordsEnd(b, words, syms, k);
    if k == |syms| - 1 {
      EndMark(b, syms);
    } else {
      GoesOn(b, syms, k);
      StillGoes(b, syms, k);
      SymbolValid(d.body, k / 50, 49 - k % 50, syms[k]);
      TextIsSymbols(b, words[1..], syms, k + 1);
      ReadsThen(d, words[0], Before(b, syms, k + 1), JoinedWords(words[1..]), Output(b.head, EndColumn(b, syms)));
    }
  }

  lemma SymbolValid(b: Body, groupNo: nat, groupPos: nat, sym: int)
    requires BodyOk(b) && groupNo < |b.selector| && groupPos < 50 && 0 <= sym <= |b.used| + 1
    ensures Valid(Symbol(b, groupNo, groupPos, sym))
  {
    hide BodyOk;
  }

  lemma StillGoes(b: Body, syms: seq<int>, k: nat)
    requires Ready(b.u, b.used, |b.used|) && Whole(b, syms) && k < |syms| - 1 && Reached(b, syms, k)
    ensures k + 1 < 50 * |b.selector| && syms[k] <= |b.used| && Plain(b.used, syms, k)
    ensures syms[k] >= 2 ==> |At(b, syms, k).col| + At(b, syms, k).run < 100000 * b.head.level
  {
    ReachedBefore(b, syms, |syms| - 1, k);
    hide At, Ready;
  }

  lemma FirstWord(b: Body, words: seq<seq<Bit>>, syms: seq<int>, k: nat)
    requires WordsOk(b, words, syms, k) && k < |syms|
    ensures words != [] && BodyOk(b) && k / 50 < |b.selector| && CodeWord(TableFor(b, k / 50), |b.used| + 2, words[0], syms[k])
    ensures WordsOk(b, words[1..], syms, k + 1) && JoinedWords(words) == words[0] + JoinedWords(words[1..])
    ensures |words| == 1 ==> JoinedWords(words) == words[0]
  {
    JoinedFirst(words);
    hide CodeWord, BodyOk, TableFor, JoinedWords;
    assert WordAt(b, words[0], syms[k + 0], k + 0);
    hide WordAt;
    forall i | 0 <= i < |words[1..]| ensures WordAt(b, words[1..][i], syms[k + 1 + i], k + 1 + i) {
      assert WordAt(b, words[i + 1], syms[k + (i + 1)], k + (i + 1));
    }
  }

  lemma JoinedFirst(words: seq<seq<Bit>>)
    requires words != []
    ensures JoinedWords(words) == words[0] + JoinedWords(words[1..])
    ensures |words| == 1 ==> JoinedWords(words) == words[0]
  {
    if |words| == 1 { assert JoinedWords(words[1..]) == [] && words[0] + [] == words[0]; }
  }

  // --- And nothing else ---

  lemma SymbolDelivers(b: Body, groupNo: nat, groupPos: nat, sym: int)
    requires BodyOk(b) && groupNo < |b.selector| && groupPos < 50 && 0 <= sym <= |b.used| + 1
    requires Symbol(b, groupNo, groupPos, sym).Output?
    ensures sym == |b.used| + 1 && b.head.orig < |b.u.col| + b.u.run <= 100000 * b.head.level
    ensures b.u.list != [] && b.u.list[0] < |b.used| && Symbol(b, groupNo, groupPos, sym) == Output(b.head, Flushed(b.u, b.used))
  {
    hide SymbolFits, TablesOk, InRange;
  }

  /** The next symbol will be read. */
  ghost predicate Pending(b: Body, syms: seq<int>)
    requires Ready(b.u, b.used, |b.used|)
  {
    && |syms| < 50 * |b.selector| && Plain(b.used, syms, |syms|)
    && forall j: nat :: j < |syms| && syms[j] >= 2 ==> |At(b, syms, j).col| + At(b, syms, j).run < 100000 * b.head.level
  }

  lemma AtPrefix(b: Body, syms: seq<int>, sym: int, j: nat)
    requires Ready(b.u, b.used, |b.used|) && j <= |syms| && Plain(b.used, syms, j)
    ensures Plain(b.used, syms + [sym], j) && At(b, syms + [sym], j) == At(b, syms, j)
  {
    assert (syms + [sym])[..j] == syms[..j];
  }

  lemma PendingReached(b: Body, syms: seq<int>, sym: int)
    requires Ready(b.u, b.used, |b.used|) && Pending(b, syms)
    ensures var all, k := syms + [sym], |syms|;
            Reached(b, all, k) && Plain(b.used, syms, k) && At(b, all, k) == At(b, syms, k) && Before(b, all, k) == Before(b, syms, k)
    ensures var all, k := syms + [sym], |syms|;
            k + 1 < 50 * |b.selector| && 0 <= sym <= |b.used| && (sym >= 2 ==> |At(b, all, k).col| + At(b, all, k).run < 100000 * b.head.level)
            ==> Pending(b, all)
  {
    forall j: nat | j <= |syms| ensures Plain(b.used, syms + [sym], j) && At(b, syms + [sym], j) == At(b, syms, j) { AtPrefix(b, syms, sym, j); }
    hide At, Ready;
  }

  lemma Ended(b: Body, syms: seq<int>)
    requires Ready(b.u, b.used, |b.used|) && syms != [] && syms[|syms| - 1] == |b.used| + 1 && Reached(b, syms, |syms| - 1)
    requires var u := At(b, syms, |syms| - 1); b.head.orig < |u.col| + u.run <= 100000 * b.head.level
    ensures Whole(b, syms) && EndColumn(b, syms) == Flushed(At(b, syms, |syms| - 1), b.used)
  {
    hide At, Ready, Reached;
  }

  lemma OneSymbol(b: Body, syms: seq<int>, sym: int)
    requires Symbols(syms, b.used) && 0 <= sym <= |b.used| + 1
    ensures Symbols(syms + [sym], b.used)
  {
  }

  lemma WordsMore(b: Body, w: seq<Bit>, words: seq<seq<Bit>>, syms: seq<int>, k: nat)
    requires BodyOk(b) && k < |syms| <= 50 * |b.selector| && k / 50 < |b.selector|
    requires CodeWord(TableFor(b, k / 50), |b.used| + 2, w, syms[k])
    ensures WordsOk(b, words, syms, k + 1) ==> WordsOk(b, [w] + words, syms, k) && JoinedWords([w] + words) == w + JoinedWords(words)
    ensures k + 1 == |syms| ==> WordsOk(b, [w], syms, k) && JoinedWords([w]) == w
  {
    hide CodeWord, BodyOk, TableFor;
    JoinedFirst([w] + words);
    JoinedFirst([w]);
    assert ([w] + words)[1..] == words;
    assert WordAt(b, w, syms[k], k);
    hide JoinedWords, WordAt;
    if WordsOk(b, words, syms, k + 1) {
      forall i | 0 <= i < |[w] + words| ensures WordAt(b, ([w] + words)[i], syms[k + i], k + i) {
        if i > 0 { assert WordAt(b, words[i - 1], syms[k + 1 + (i - 1)], k + 1 + (i - 1)); }
      }
    }
  }

  /** The symbols to come, those before k being read. */
  lemma {:induction false} SymbolsOf(b: Body, syms: seq<int>, bits: seq<Bit>)
    returns (words: seq<seq<Bit>>, all: seq<int>, rest: seq<Bit>)
    requires Fresh(b) && Ready(b.u, b.used, |b.used|) && BodyOk(b) && Symbols(syms, b.used) && Pending(b, syms)
    requires Plain(b.used, syms, |syms|) && Comes(Before(b, syms, |syms|), bits)
    ensures syms <= all && Whole(b, all) && WordsOk(b, words, all, |syms|) && bits == JoinedWords(words) + rest && |rest| < |bits|
    ensures Feed(Before(b, syms, |syms|), bits) == Run(Output(b.head, EndColumn(b, all)), rest)
    decreases |bits|
  {
    hide *;
    var k := |syms|;
    var d := Before(b, syms, k);
    ComesIs(d, bits);
    BodyAt(b, syms, k);
    var w, sym, next := WordOf(d.body, k / 50, 49 - k % 50, bits);
    var more := syms + [sym];
    PendingReached(b, syms, sym);
    OneSymbol(b, syms, sym);
    OverflowHere(b, more, k);
    var e := Symbol(d.body, k / 50, 49 - k % 50, sym);
    ComesIs(e, next);
    OneFeed(e, next);
    Halted(e);
    SymbolKeeps(d.body, k / 50, 49 - k % 50, sym);
    GoesOn(b, more, k);
    if e.MtfFirst? {
      words, all, rest := SymbolsOf(b, more, next);
      assert all[k] == more[k] == sym;
      WordsEnd(b, words, all, k + 1);
      WordsMore(b, w, words, all, k);
      words := [w] + words;
      Assoc(w, JoinedWords(words[1..]), rest);
    } else {
      SymbolDelivers(d.body, k / 50, 49 - k % 50, sym);
      Ended(b, more);
      EnoughSelectors(b, syms);
      WordsMore(b, w, [], more, k);
      words, all, rest := [w], more, next;
      FeedEnds(e, next);
    }
  }

  lemma EnoughSelectors(b: Body, syms: seq<int>)
    requires Ready(b.u, b.used, |b.used|) && Pending(b, syms)
    ensures |syms| + 1 <= 50 * |b.selector|
  {
    hide At, Ready;
  }

  lemma WordsEnd(b: Body, words: seq<seq<Bit>>, syms: seq<int>, k: nat)
    requires WordsOk(b, words, syms, k)
    ensures |syms| <= 50 * |b.selector| && |words| + k == |syms|
  {
    hide CodeWord, BodyOk;
  }

  lemma FeedEnds(d: Dec, bits: seq<Bit>)
    requires Valid(d)
    ensures d.Output? ==> Feed(d, bits) == Run(d, bits)
  {
    hide Step;
  }
}

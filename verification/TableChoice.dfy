/** The first half of sendMTFValues (compress.c): how many coding tables, which table codes which
    group of 50 symbols, and four rounds of recomputing the tables. */
module TableChoice {
  import opened Basics
  import opened Ranks
  import opened Canonical
  import opened CodeTree
  import opened HuffmanLengths
  import opened MtfEncode

  function Row<T>(a: array2<T>, t: nat, n: nat): (r: seq<T>)
    requires t < a.Length0 && n <= a.Length1
    reads a
    ensures |r| == n && forall v :: 0 <= v < n ==> r[v] == a[t, v]
  {
    seq(n, v requires 0 <= v < n reads a => a[t, v])
  }

  /** How many coding tables to use. */
  function GroupCount(nMtf: nat): (n: nat)
    ensures 2 <= n <= 6
  {
    if nMtf < 200 then 2 else if nMtf < 600 then 3 else if nMtf < 1200 then 4 else if nMtf < 2400 then 5 else 6
  }

  /** C's division. */
  function TruncDiv(a: int, b: nat): int
    requires b > 0
  {
    if a >= 0 then a / b else -(-a / b)
  }

  ghost predicate Costs(len: array2<Byte>, max: nat)
    reads len
  {
    len.Length0 == 6 && len.Length1 == 258 && forall t, v :: 0 <= t < 6 && 0 <= v < 258 ==> len[t, v] <= max
  }

  /** The initial tables: each favours one range of symbols of about equal total frequency. */
  method InitialTables(len: array2<Byte>, mtfFreq: array<nat>, nMtf: nat, nGroups: nat, alphaSize: nat)
    requires len.Length0 == 6 && len.Length1 == 258 && mtfFreq.Length == 258 && alphaSize <= 258 && nGroups <= 6
    modifies len
    ensures Costs(len, 15)
  {
    forall t, v | 0 <= t < 6 && 0 <= v < 258 { len[t, v] := 15; }
    var nPart: nat, remF: int, gs := nGroups, nMtf, 0;
    while nPart > 0
      invariant nPart <= nGroups && 0 <= gs <= alphaSize && Costs(len, 15)
    {
      var tFreq, ge, aFreq := TruncDiv(remF, nPart), gs - 1, 0;
      while aFreq < tFreq && ge < alphaSize - 1
        invariant gs - 1 <= ge <= alphaSize - 1
        decreases alphaSize - ge
      {
        ge := ge + 1;
        aFreq := aFreq + mtfFreq[ge];
      }
      if ge > gs && nPart != nGroups && nPart != 1 && (nGroups - nPart) % 2 == 1 {
        aFreq := aFreq - mtfFreq[ge];
        ge := ge - 1;
      }
      nPart := nPart - 1;
      for v := 0 to alphaSize
        invariant Costs(len, 15)
      {
        len[nPart, v] := if gs <= v <= ge then 0 else 15;
      }
      gs, remF := ge + 1, remF - aFreq;
    }
  }

  // --- The cost of a group ---

  /** What a group of symbols costs under one table. */
  function Cost(lens: seq<Byte>, syms: seq<nat>): (r: nat)
    requires forall k :: 0 <= k < |syms| ==> syms[k] < |lens|
  {
    if syms == [] then 0 else Cost(lens, syms[..|syms| - 1]) + lens[syms[|syms| - 1]]
  }

  lemma {:induction false} CostBound(lens: seq<Byte>, syms: seq<nat>, max: nat)
    requires forall k :: 0 <= k < |syms| ==> syms[k] < |lens|
    requires forall v :: 0 <= v < |lens| ==> lens[v] <= max
    requires max <= 17
    ensures Cost(lens, syms) <= 17 * |syms|
  {
    if syms != [] { CostBound(lens, syms[..|syms| - 1], max); }
  }

  lemma CostNext(lens: seq<Byte>, syms: seq<nat>, i: nat)
    requires i < |syms| && forall k :: 0 <= k < |syms| ==> syms[k] < |lens|
    ensures Cost(lens, syms[..i + 1]) == Cost(lens, syms[..i]) + lens[syms[i]]
  {
    assert syms[..i + 1][..i] == syms[..i];
  }

  ghost predicate InAlphabet(syms: seq<nat>, alphaSize: nat) {
    forall k :: 0 <= k < |syms| ==> syms[k] < alphaSize
  }

  /** The slow path: every symbol against every table. */
  method SlowCosts(len: array2<Byte>, cost: array<nat>, syms: seq<nat>, nGroups: nat)
    requires Costs(len, 17) && cost.Length == 6 && nGroups <= 6 && InAlphabet(syms, 258) && |syms| <= 50
    modifies cost
    ensures forall t :: 0 <= t < nGroups ==> cost[t] == Cost(Row(len, t, 258), syms) <= 850
  {
    hide Cost;
    forall t | 0 <= t < nGroups { cost[t] := 0; }
    NoCost(len);
    assert syms[..0] == [];
    for i := 0 to |syms|
      invariant forall t :: 0 <= t < nGroups ==> cost[t] == Cost(Row(len, t, 258), syms[..i])
    {
      forall t | 0 <= t < nGroups ensures Cost(Row(len, t, 258), syms[..i + 1]) == Cost(Row(len, t, 258), syms[..i]) + len[t, syms[i]] {
        CostNext(Row(len, t, 258), syms, i);
      }
      forall t | 0 <= t < nGroups { cost[t] := cost[t] + len[t, syms[i]]; }
    }
    assert syms[..|syms|] == syms;
    forall t | 0 <= t < nGroups ensures Cost(Row(len, t, 258), syms) <= 850 {
      CostBound(Row(len, t, 258), syms, 17);
    }
  }

  lemma NoCost(len: array2<Byte>)
    requires len.Length0 == 6 && len.Length1 == 258
    ensures forall t :: 0 <= t < 6 ==> Cost(Row(len, t, 258), []) == 0
  {
  }

  /** The cost of the first i symbols with table t. */
  function CostTo(len: array2<Byte>, t: nat, syms: seq<nat>, i: nat): (r: nat)
    requires t < len.Length0 && 258 <= len.Length1 && i <= |syms| && InAlphabet(syms, 258)
    reads len
  {
    Cost(Row(len, t, 258), syms[..i])
  }

  lemma CostToNext(len: array2<Byte>, t: nat, syms: seq<nat>, i: nat)
    requires t < len.Length0 && 258 <= len.Length1 && i < |syms| && InAlphabet(syms, 258)
    ensures syms[i] < 258 && CostTo(len, t, syms, i + 1) == CostTo(len, t, syms, i) + len[t, syms[i]]
  {
    hide Cost;
    CostNext(Row(len, t, 258), syms, i);
  }

  lemma CostToEnds(len: array2<Byte>, t: nat, syms: seq<nat>)
    requires Costs(len, 17) && t < 6 && InAlphabet(syms, 258) && |syms| <= 50
    ensures CostTo(len, t, syms, 0) == 0 && CostTo(len, t, syms, |syms|) == Cost(Row(len, t, 258), syms) <= 850
  {
    hide Cost;
    NoCost(len);
    assert syms[..0] == [] && syms[..|syms|] == syms;
    CostBound(Row(len, t, 258), syms, 17);
  }

  /** Two costs in one 32-bit word: len_pack. */
  function Pack(high: nat, low: nat): nat { high * 0x1_0000 + low }

  /** The fast path for six tables and a full group: two tables to a word, summed in parallel. */
  method PackedCosts(len: array2<Byte>, cost: array<nat>, syms: seq<nat>)
    requires Costs(len, 17) && cost.Length == 6 && InAlphabet(syms, 258) && |syms| == 50
    modifies cost
    ensures forall t :: 0 <= t < 6 ==> cost[t] == Cost(Row(len, t, 258), syms) <= 850
  {
    hide Cost, CostTo, Pack;
    var cost01, cost23, cost45 := 0, 0, 0;
    forall t | 0 <= t < 6 ensures CostTo(len, t, syms, 0) == 0 && CostTo(len, t, syms, 50) == Cost(Row(len, t, 258), syms) <= 850 {
      CostToEnds(len, t, syms);
    }
    PackAdds(0, 0, 0, 0);
    for i := 0 to 50
      invariant cost01 == Pack(CostTo(len, 1, syms, i), CostTo(len, 0, syms, i))
      invariant cost23 == Pack(CostTo(len, 3, syms, i), CostTo(len, 2, syms, i))
      invariant cost45 == Pack(CostTo(len, 5, syms, i), CostTo(len, 4, syms, i))
    {
      var icv := syms[i];
      forall t | 0 <= t < 6 ensures icv < 258 && CostTo(len, t, syms, i + 1) == CostTo(len, t, syms, i) + len[t, icv] {
        CostToNext(len, t, syms, i);
      }
      PackAdds(CostTo(len, 1, syms, i), CostTo(len, 0, syms, i), len[1, icv], len[0, icv]);
      PackAdds(CostTo(len, 3, syms, i), CostTo(len, 2, syms, i), len[3, icv], len[2, icv]);
      PackAdds(CostTo(len, 5, syms, i), CostTo(len, 4, syms, i), len[5, icv], len[4, icv]);
      cost01 := cost01 + Pack(len[1, icv], len[0, icv]);
      cost23 := cost23 + Pack(len[3, icv], len[2, icv]);
      cost45 := cost45 + Pack(len[5, icv], len[4, icv]);
    }
    UnpackCosts(CostTo(len, 1, syms, 50), CostTo(len, 0, syms, 50));
    UnpackCosts(CostTo(len, 3, syms, 50), CostTo(len, 2, syms, 50));
    UnpackCosts(CostTo(len, 5, syms, 50), CostTo(len, 4, syms, 50));
    cost[0], cost[1] := cost01 % 0x1_0000, cost01 / 0x1_0000;
    cost[2], cost[3] := cost23 % 0x1_0000, cost23 / 0x1_0000;
    cost[4], cost[5] := cost45 % 0x1_0000, cost45 / 0x1_0000;
  }

  lemma PackAdds(h: nat, l: nat, h': nat, l': nat)
    ensures Pack(h, l) + Pack(h', l') == Pack(h + h', l + l') && Pack(0, 0) == 0
  {
  }

  lemma UnpackCosts(h: nat, l: nat)
    requires l < 0x1_0000
    ensures Pack(h, l) % 0x1_0000 == l && Pack(h, l) / 0x1_0000 == h
  {
  }

  /** The first of the tables with which a group is cheapest. */
  ghost predicate Cheapest(len: array2<Byte>, group: seq<nat>, nGroups: nat, bt: nat)
    requires Costs(len, 17) && nGroups <= 6
    reads len
  {
    && bt < nGroups && InAlphabet(group, 258)
    && (forall t :: 0 <= t < nGroups ==> Cost(Row(len, bt, 258), group) <= Cost(Row(len, t, 258), group))
    && forall t :: 0 <= t < bt ==> Cost(Row(len, bt, 258), group) < Cost(Row(len, t, 258), group)
  }

  method BestTable(len: array2<Byte>, syms: seq<nat>, nGroups: nat) returns (bt: nat)
    requires Costs(len, 17) && 2 <= nGroups <= 6 && InAlphabet(syms, 258) && |syms| <= 50
    ensures Cheapest(len, syms, nGroups, bt)
  {
    hide Cost;
    var cost := new nat[6];
    if nGroups == 6 && |syms| == 50 {
      PackedCosts(len, cost, syms);
    } else {
      SlowCosts(len, cost, syms, nGroups);
    }
    var bc := 999999999;
    bt := 0;
    for t := 0 to nGroups
      invariant t > 0 ==> bt < t && bc == cost[bt]
      invariant t == 0 ==> bc == 999999999
      invariant forall u :: 0 <= u < t ==> bc <= cost[u] && (u < bt ==> bc < cost[u])
    {
      if cost[t] < bc { bc, bt := cost[t], t; }
    }
  }

  // --- One round ---

  lemma {:induction false} FreqGrows(freq: seq<nat>, v: nat)
    requires v < |freq|
    ensures FreqTotal(freq[v := freq[v] + 1]) <= FreqTotal(freq) + 1
    decreases |freq|
  {
    var next := freq[v := freq[v] + 1];
    if v == |freq| - 1 {
      assert next[..v] == freq[..v];
    } else {
      assert next[..|freq| - 1] == freq[..|freq| - 1][v := freq[v] + 1];
      FreqGrows(freq[..|freq| - 1], v);
    }
  }

  lemma {:induction false} NoFreq(freq: seq<nat>)
    requires forall k :: 0 <= k < |freq| ==> freq[k] == 0
    ensures FreqTotal(freq) == |freq|
  {
    if freq != [] { NoFreq(freq[..|freq| - 1]); }
  }

  ghost predicate Tallies(rfreq: array2<nat>, alphaSize: nat, total: nat)
    requires rfreq.Length0 == 6 && rfreq.Length1 == 258 && alphaSize <= 258
    reads rfreq
  {
    forall t :: 0 <= t < 6 ==> FreqTotal(Row(rfreq, t, alphaSize)) <= alphaSize + total
  }

  /** The k-th group of 50 symbols. */
  function Group(syms: seq<nat>, k: nat): (r: seq<nat>)
    requires 50 * k <= |syms|
    ensures |r| <= 50
  {
    syms[50 * k..if 50 * k + 50 <= |syms| then 50 * k + 50 else |syms|]
  }

  /** How often symbol v occurs among the first n, in groups coded with table t. */
  function Coded(selector: seq<nat>, syms: seq<nat>, n: nat, t: nat, v: nat): (r: nat)
    requires n <= |syms| && n <= 50 * |selector|
  {
    if n == 0 then 0
    else Coded(selector, syms, n - 1, t, v) + (if selector[(n - 1) / 50] == t && syms[n - 1] == v then 1 else 0)
  }

  lemma {:induction false} CodedPrefix(a: seq<nat>, b: seq<nat>, syms: seq<nat>, n: nat, t: nat, v: nat)
    requires n <= |syms| && n <= 50 * |a| && a <= b
    ensures Coded(a, syms, n, t, v) == Coded(b, syms, n, t, v)
    decreases n
  {
    if n > 0 { CodedPrefix(a, b, syms, n - 1, t, v); }
  }

  lemma CodedNext(selector: seq<nat>, syms: seq<nat>, n: nat, t: nat, v: nat)
    requires n < |syms| && n < 50 * |selector|
    ensures Coded(selector, syms, n + 1, t, v)
         == Coded(selector, syms, n, t, v) + (if t == selector[n / 50] && v == syms[n] then 1 else 0)
  {
  }

  /** rfreq holds, for every table, how often it codes each of the first n symbols. */
  ghost predicate Counted(rfreq: array2<nat>, selector: seq<nat>, syms: seq<nat>, n: nat)
    requires rfreq.Length0 == 6 && rfreq.Length1 == 258 && n <= |syms| && n <= 50 * |selector|
    reads rfreq
  {
    forall t: nat, v: nat :: t < 6 && v < 258 ==> rfreq[t, v] == Coded(selector, syms, n, t, v)
  }

  lemma CountedPrefix(rfreq: array2<nat>, a: seq<nat>, b: seq<nat>, syms: seq<nat>, n: nat)
    requires rfreq.Length0 == 6 && rfreq.Length1 == 258 && n <= |syms| && n <= 50 * |a| && a <= b
    requires Counted(rfreq, a, syms, n)
    ensures Counted(rfreq, b, syms, n)
  {
    hide Coded;
    forall t: nat, v: nat | t < 6 && v < 258 ensures rfreq[t, v] == Coded(b, syms, n, t, v) {
      CodedPrefix(a, b, syms, n, t, v);
    }
  }

  lemma CountedNone(rfreq: array2<nat>, syms: seq<nat>)
    requires rfreq.Length0 == 6 && rfreq.Length1 == 258 && forall t, v :: 0 <= t < 6 && 0 <= v < 258 ==> rfreq[t, v] == 0
    ensures Counted(rfreq, [], syms, 0)
  {
  }

  /** Counts symbol i with the table of its group. */
  method CountSymbol(rfreq: array2<nat>, alphaSize: nat, bt: nat, syms: seq<nat>, i: nat, ghost chosen: seq<nat>)
    requires rfreq.Length0 == 6 && rfreq.Length1 == 258 && alphaSize <= 258 && InAlphabet(syms, alphaSize)
    requires bt < 6 && i < |syms| && i < 50 * |chosen| && chosen[i / 50] == bt
    requires Tallies(rfreq, alphaSize, i) && Counted(rfreq, chosen, syms, i)
    modifies rfreq
    ensures Tallies(rfreq, alphaSize, i + 1) && Counted(rfreq, chosen, syms, i + 1)
  {
    hide FreqTotal, Coded;
    ghost var rows := seq(6, t requires 0 <= t < 6 reads rfreq => Row(rfreq, t, alphaSize));
    FreqGrows(rows[bt], syms[i]);
    rfreq[bt, syms[i]] := rfreq[bt, syms[i]] + 1;
    forall t | 0 <= t < 6 ensures FreqTotal(Row(rfreq, t, alphaSize)) <= alphaSize + i + 1 {
      assert Row(rfreq, t, alphaSize) == if t == bt then rows[bt][syms[i] := rows[bt][syms[i]] + 1] else rows[t];
    }
    forall t: nat, v: nat | t < 6 && v < 258 ensures rfreq[t, v] == Coded(chosen, syms, i + 1, t, v) {
      CodedNext(chosen, syms, i, t, v);
    }
  }

  /** Every selector is the first cheapest table for its group. */
  ghost predicate Chosen(len: array2<Byte>, chosen: seq<nat>, syms: seq<nat>, nGroups: nat)
    requires Costs(len, 17) && nGroups <= 6
    reads len
  {
    50 * |chosen| < |syms| + 50 && forall k: nat :: k < |chosen| ==> Cheapest(len, Group(syms, k), nGroups, chosen[k])
  }

  lemma ChosenNext(len: array2<Byte>, chosen: seq<nat>, syms: seq<nat>, nGroups: nat, bt: nat)
    requires Costs(len, 17) && nGroups <= 6 && Chosen(len, chosen, syms, nGroups) && 50 * |chosen| < |syms|
    requires Cheapest(len, Group(syms, |chosen|), nGroups, bt)
    ensures Chosen(len, chosen + [bt], syms, nGroups)
  {
    hide Cheapest;
  }

  lemma ChosenBelow(len: array2<Byte>, chosen: seq<nat>, syms: seq<nat>, nGroups: nat)
    requires Costs(len, 17) && nGroups <= 6 && Chosen(len, chosen, syms, nGroups)
    ensures forall k :: 0 <= k < |chosen| ==> chosen[k] < nGroups
  {
    hide Cost;
  }

  /** One pass over the symbols: the first cheapest table for each group of 50, and how often each
      table then codes each symbol. */
  method ChooseTables(len: array2<Byte>, rfreq: array2<nat>, selector: array<nat>, syms: seq<nat>, nGroups: nat, alphaSize: nat)
    returns (nSelectors: nat)
    requires Costs(len, 17) && rfreq.Length0 == 6 && rfreq.Length1 == 258 && selector.Length == 18002
    requires 2 <= nGroups <= 6 && alphaSize <= 258 && InAlphabet(syms, alphaSize) && |syms| <= 900001
    modifies rfreq, selector
    ensures nSelectors == (|syms| + 49) / 50 && nSelectors <= 18001
    ensures Costs(len, 17) && Chosen(len, selector[..nSelectors], syms, nGroups)
    ensures forall k :: 0 <= k < nSelectors ==> selector[k] < nGroups
    ensures Tallies(rfreq, alphaSize, |syms|) && Counted(rfreq, selector[..nSelectors], syms, |syms|)
  {
    hide FreqTotal, Cost, Cheapest, Coded, Counted, Chosen, Tallies, Group;
    forall t, v | 0 <= t < 6 && 0 <= v < 258 { rfreq[t, v] := 0; }
    NoTallies(rfreq, alphaSize);
    CountedNone(rfreq, syms);
    ghost var chosen: seq<nat> := [];
    NoneChosen(len, syms, nGroups);
    nSelectors := 0;
    var gs := 0;
    while gs < |syms|
      invariant gs <= |syms| && nSelectors == (gs + 49) / 50 && (gs < |syms| ==> gs == 50 * nSelectors)
      invariant |chosen| == nSelectors && selector[..nSelectors] == chosen && Chosen(len, chosen, syms, nGroups)
      invariant Tallies(rfreq, alphaSize, gs) && Counted(rfreq, chosen, syms, gs)
    {
      var ge := if gs + 50 - 1 >= |syms| then |syms| - 1 else gs + 50 - 1;
      GroupIs(syms, nSelectors, ge + 1, alphaSize);
      var bt := BestTable(len, syms[gs..ge + 1], nGroups);
      ChosenNext(len, chosen, syms, nGroups, bt);
      ChosenBelow(len, chosen + [bt], syms, nGroups);
      CountedPrefix(rfreq, chosen, chosen + [bt], syms, gs);
      chosen := chosen + [bt];
      selector[nSelectors] := bt;
      nSelectors := nSelectors + 1;
      for i := gs to ge + 1
        invariant Tallies(rfreq, alphaSize, i) && Counted(rfreq, chosen, syms, i) && selector[..nSelectors] == chosen
      {
        CountSymbol(rfreq, alphaSize, bt, syms, i, chosen);
      }
      gs := ge + 1;
    }
    ChosenBelow(len, chosen, syms, nGroups);
  }

  lemma GroupIs(syms: seq<nat>, k: nat, end: nat, alphaSize: nat)
    requires 50 * k < |syms| && end == (if 50 * k + 50 <= |syms| then 50 * k + 50 else |syms|) && InAlphabet(syms, alphaSize) && alphaSize <= 258
    ensures Group(syms, k) == syms[50 * k..end] && InAlphabet(syms[50 * k..end], 258)
  {
  }

  lemma NoTallies(rfreq: array2<nat>, alphaSize: nat)
    requires rfreq.Length0 == 6 && rfreq.Length1 == 258 && alphaSize <= 258
    requires forall t, v :: 0 <= t < 6 && 0 <= v < 258 ==> rfreq[t, v] == 0
    ensures Tallies(rfreq, alphaSize, 0)
  {
    hide FreqTotal;
    forall t | 0 <= t < 6 ensures FreqTotal(Row(rfreq, t, alphaSize)) <= alphaSize {
      NoFreq(Row(rfreq, t, alphaSize));
    }
  }

  lemma NoneChosen(len: array2<Byte>, syms: seq<nat>, nGroups: nat)
    requires Costs(len, 17) && nGroups <= 6
    ensures Chosen(len, [], syms, nGroups)
  {
  }

  ghost predicate FullTables(len: array2<Byte>, nGroups: nat, alphaSize: nat)
    requires len.Length0 == 6 && len.Length1 == 258 && alphaSize <= 258 && nGroups <= 6
    reads len
  {
    forall t :: 0 <= t < nGroups ==> FullCode(Row(len, t, alphaSize), 17)
  }

  /** Recomputes one table, row t. */
  method RemakeTable(len: array2<Byte>, freq: seq<nat>, t: nat, alphaSize: nat)
    requires Costs(len, 17) && 2 <= alphaSize <= 258 && |freq| == alphaSize && t < 6
    requires FreqTotal(freq) < 0x80_0000
    modifies len
    ensures Costs(len, 17) && FullCode(Row(len, t, alphaSize), 17) && BestCode(Row(len, t, alphaSize), freq, 17)
    ensures forall u :: 0 <= u < 6 && u != t ==> Row(len, u, alphaSize) == old(Row(len, u, alphaSize))
  {
    hide FreqTotal, Fib, KraftSum, Pow2, BestCode;
    LimitSuits();
    var row := new Byte[alphaSize];
    MakeCodeLengths(row, freq, 17);
    var made := row[..];
    forall v | 0 <= v < alphaSize { len[t, v] := made[v]; }
    assert Row(len, t, alphaSize) == made;
  }

  /** How often each symbol of the alphabet is coded with table t. */
  function Frequencies(selector: seq<nat>, syms: seq<nat>, alphaSize: nat, t: nat): (r: seq<nat>)
    requires |syms| <= 50 * |selector|
    ensures |r| == alphaSize
  {
    seq(alphaSize, v requires 0 <= v < alphaSize => Coded(selector, syms, |syms|, t, v))
  }

  /** Each table is the cheapest code for the symbols that are coded with it. */
  ghost predicate BestTables(lens: seq<seq<Byte>>, selector: seq<nat>, syms: seq<nat>, alphaSize: nat) {
    |syms| <= 50 * |selector|
    && forall t :: 0 <= t < |lens| ==> BestCode(lens[t], Frequencies(selector, syms, alphaSize, t), 17)
  }

  lemma CountedRow(rfreq: array2<nat>, selector: seq<nat>, syms: seq<nat>, alphaSize: nat, t: nat)
    requires rfreq.Length0 == 6 && rfreq.Length1 == 258 && |syms| <= 50 * |selector| && alphaSize <= 258 && t < 6
    requires Counted(rfreq, selector, syms, |syms|)
    ensures Row(rfreq, t, alphaSize) == Frequencies(selector, syms, alphaSize, t)
  {
    hide Coded;
  }

  method RemakeTables(len: array2<Byte>, rfreq: array2<nat>, nGroups: nat, alphaSize: nat, ghost total: nat)
    requires Costs(len, 17) && rfreq.Length0 == 6 && rfreq.Length1 == 258 && nGroups <= 6 && 2 <= alphaSize <= 258
    requires Tallies(rfreq, alphaSize, total) && total <= 900001
    modifies len
    ensures Costs(len, 17) && FullTables(len, nGroups, alphaSize)
    ensures forall t :: 0 <= t < nGroups ==> BestCode(Row(len, t, alphaSize), Row(rfreq, t, alphaSize), 17)
  {
    hide FreqTotal, FullCode, BestCode;
    for t := 0 to nGroups
      invariant Costs(len, 17) && len.Length0 == 6 && len.Length1 == 258
      invariant forall u :: 0 <= u < t ==> FullCode(Row(len, u, alphaSize), 17)
      invariant forall u :: 0 <= u < t ==> BestCode(Row(len, u, alphaSize), Row(rfreq, u, alphaSize), 17)
    {
      var freq: seq<nat> := Row(rfreq, t, alphaSize);
      RemakeTable(len, freq, t, alphaSize);
    }
  }
}

/** What BZ2_decompress (decompress.c) takes for the coding tables: a start and then any walk of moves up
    and down that keeps within 1 to 20. */
module AcceptedTables {
  import opened Basics
  import opened BitStrings
  import opened Permutations
  import opened Ranks
  import opened Canonical
  import opened Mtf
  import opened Decoder
  import opened BlockFormat
  import opened TableFormat
  import opened AcceptedFields

  /** Bits 10, 11 and 0 of the delta loop. */
  datatype Move = Up | Down | Done

  datatype Line = Line(start: nat, moves: seq<Move>)

  function MoveText(m: Move): (r: seq<Bit>) {
    match m
    case Up => [1, 0]
    case Down => [1, 1]
    case Done => [0]
  }

  function MovesText(moves: seq<Move>): (r: seq<Bit>) {
    if moves == [] then [] else MoveText(moves[0]) + MovesText(moves[1..])
  }

  function Moved(curr: int, m: Move): int {
    match m
    case Up => curr + 1
    case Down => curr - 1
    case Done => curr
  }

  /** The walk keeps within 1 to 20. */
  predicate Steady(curr: int, moves: seq<Move>)
    decreases |moves|
  {
    1 <= curr <= 20 && (moves == [] || Steady(Moved(curr, moves[0]), moves[1..]))
  }

  /** The lengths the walk stops at. */
  function Stops(curr: int, moves: seq<Move>): (lens: seq<Byte>)
    requires Steady(curr, moves)
    ensures Lengths(lens)
    decreases |moves|
  {
    if moves == [] then []
    else if moves[0] == Done then [curr] + Stops(curr, moves[1..])
    else Stops(Moved(curr, moves[0]), moves[1..])
  }

  /** A walk with one stop for each symbol, the last move being the last stop. */
  predicate WalkOk(curr: int, moves: seq<Move>, stops: nat) {
    Steady(curr, moves) && moves != [] && moves[|moves| - 1] == Done && |Stops(curr, moves)| == stops
  }

  lemma ReadsOne(c: Shelf, lens: seq<Byte>, curr: nat, m: Move)
    requires ShelfOk(c) && Lengths(lens) && |lens| < |c.used| + 2 && 1 <= curr <= 20 && 1 <= Moved(curr, m) <= 20
    ensures Lengths(lens + [curr])
    ensures Reads(At2(c, lens, curr), MoveText(m),
                  if m != Done then At2(c, lens, Moved(curr, m))
                  else if |lens| + 1 < |c.used| + 2 then At2(c, lens + [curr], curr) else Shelved(c, lens + [curr]))
  {
    hide Reads, CodingOk, Shelved, LengthDone;
    if m == Done {
      ReadsBit(At2(c, lens, curr), 0);
      LastLength(c, lens + [curr], curr);
    } else {
      ReadsMove(c, lens, curr, m == Up);
    }
  }

  lemma FirstMove(curr: int, moves: seq<Move>)
    requires moves != []
    ensures MovesText(moves) == MoveText(moves[0]) + MovesText(moves[1..])
    ensures Steady(curr, moves) <==> 1 <= curr <= 20 && Steady(Moved(curr, moves[0]), moves[1..])
    ensures Steady(curr, moves) ==>
              Stops(curr, moves) == (if moves[0] == Done then [curr] else []) + Stops(Moved(curr, moves[0]), moves[1..])
    ensures Steady(curr, moves) ==> 1 <= Moved(curr, moves[0]) <= 20
  {
    if Steady(curr, moves) && moves[0] != Done {
      assert [] + Stops(Moved(curr, moves[0]), moves[1..]) == Stops(Moved(curr, moves[0]), moves[1..]);
    }
  }

  lemma NoMoves(curr: int)
    ensures MovesText([]) == [] && (Steady(curr, []) <==> 1 <= curr <= 20) && (1 <= curr <= 20 ==> Stops(curr, []) == [])
  {
  }

  lemma WalkIs(curr: int, moves: seq<Move>, stops: nat)
    ensures WalkOk(curr, moves, stops)
       <==> Steady(curr, moves) && moves != [] && moves[|moves| - 1] == Done && |Stops(curr, moves)| == stops
  {
    hide Steady, Stops;
  }

  /** The stops that are left, after the first move. */
  lemma WalkOn(curr: int, moves: seq<Move>, stops: nat)
    requires WalkOk(curr, moves, stops)
    ensures Steady(curr, moves) && moves != [] && 1 <= curr <= 20 && 1 <= Moved(curr, moves[0]) <= 20 && stops >= 1
    ensures |moves| == 1 ==> moves[0] == Done && stops == 1 && Stops(curr, moves) == [curr] && MovesText(moves) == MoveText(Done)
    ensures |moves| > 1 && moves[0] == Done ==>
              stops > 1 && WalkOk(curr, moves[1..], stops - 1)
              && Steady(curr, moves[1..]) && Stops(curr, moves) == [curr] + Stops(curr, moves[1..])
    ensures |moves| > 1 && moves[0] != Done ==>
              WalkOk(Moved(curr, moves[0]), moves[1..], stops)
              && Steady(Moved(curr, moves[0]), moves[1..]) && Stops(curr, moves) == Stops(Moved(curr, moves[0]), moves[1..])
    ensures MovesText(moves) == MoveText(moves[0]) + MovesText(moves[1..])
  {
    hide *;
    WalkIs(curr, moves, stops);
    FirstMove(curr, moves);
    MovedIs(curr, moves[0]);
    var next := Moved(curr, moves[0]);
    NoMoves(next);
    if |moves| == 1 {
      assert moves[1..] == [] && MoveText(Done) + [] == MoveText(Done) && [curr] + [] == [curr];
    } else {
      LastStops(next, moves[1..]);
      if moves[0] == Done {
        WalkIs(next, moves[1..], stops - 1);
      } else {
        WalkIs(next, moves[1..], stops);
        assert [] + Stops(next, moves[1..]) == Stops(next, moves[1..]);
      }
    }
  }

  lemma {:induction false} LastStops(curr: int, moves: seq<Move>)
    requires Steady(curr, moves) && moves != [] && moves[|moves| - 1] == Done
    ensures |Stops(curr, moves)| >= 1
    decreases |moves|
  {
    if |moves| > 1 && moves[0] != Done { LastStops(Moved(curr, moves[0]), moves[1..]); }
  }

  lemma LengthsJoin(a: seq<Byte>, b: seq<Byte>)
    ensures Lengths(a) && Lengths(b) ==> Lengths(a + b)
  {
  }

  lemma {:induction false} TextIsWalk(c: Shelf, lens: seq<Byte>, curr: nat, moves: seq<Move>)
    requires ShelfOk(c) && Lengths(lens) && |lens| < |c.used| + 2 && WalkOk(curr, moves, |c.used| + 2 - |lens|)
    ensures Steady(curr, moves) && Lengths(lens + Stops(curr, moves)) && |lens + Stops(curr, moves)| == |c.used| + 2
    ensures Reads(At2(c, lens, curr), MovesText(moves), Shelved(c, lens + Stops(curr, moves)))
    decreases |moves|
  {
    hide *;
    WalkOn(curr, moves, |c.used| + 2 - |lens|);
    LengthsJoin(lens, Stops(curr, moves));
    ReadsOne(c, lens, curr, moves[0]);
    var next := Moved(curr, moves[0]);
    MovedIs(curr, moves[0]);
    if |moves| > 1 {
      if moves[0] == Done {
        TextIsWalk(c, lens + [curr], curr, moves[1..]);
        Assoc(lens, [curr], Stops(curr, moves[1..]));
        ReadsThen(At2(c, lens, curr), MoveText(Done), At2(c, lens + [curr], curr), MovesText(moves[1..]),
                  Shelved(c, lens + Stops(curr, moves)));
      } else {
        TextIsWalk(c, lens, next, moves[1..]);
        ReadsThen(At2(c, lens, curr), MoveText(moves[0]), At2(c, lens, next), MovesText(moves[1..]),
                  Shelved(c, lens + Stops(curr, moves)));
      }
    }
  }

  lemma MovedIs(curr: int, m: Move)
    ensures m == Done ==> Moved(curr, m) == curr
    ensures m == Up ==> Moved(curr, m) == curr + 1
    ensures m == Down ==> Moved(curr, m) == curr - 1
    ensures MoveText(Up) == [1] + [0] && MoveText(Down) == [1] + [1] && MoveText(Done) == [0]
  {
  }

  // --- And nothing else ---

  lemma DeltaSteps(c: Shelf, lens: seq<Byte>, curr: nat, b: bool)
    requires Valid(At2(c, lens, curr))
    ensures ShelfOk(c) && Lengths(lens) && |lens| < |c.used| + 2 && 1 <= curr <= 20 && Lengths(lens + [curr])
    ensures Waiting(At2(c, lens, curr)) && Need(At2(c, lens, curr)) == 1 && BitOf(b) < Pow2(1)
    ensures Step(At2(c, lens, curr), BitOf(b))
         == if b then At3(c, lens, curr)
            else if |lens| + 1 < |c.used| + 2 then At2(c, lens + [curr], curr) else Shelved(c, lens + [curr])
    ensures Valid(At3(c, lens, curr)) && Waiting(At3(c, lens, curr)) && Need(At3(c, lens, curr)) == 1
    ensures var next := if b then curr - 1 else curr + 1;
            Step(At3(c, lens, curr), BitOf(b)) == if next < 1 || next > 20 then Failed(DataError) else At2(c, lens, next)
  {
    assert Pow2(1) == 2 by { assert Shl(1, 0) == 1; }
    hide CodingOk, Shelved, LengthDone;
    LastLength(c, lens + [curr], curr);
  }

  lemma AddMove(curr: int, m: Move, moves: seq<Move>, stops: nat)
    requires 1 <= curr <= 20
    ensures moves == [] && m == Done ==>
              WalkOk(curr, [m] + moves, 1) && Steady(curr, [m] + moves) && Stops(curr, [m] + moves) == [curr] && MovesText([m] + moves) == MoveText(m)
    ensures WalkOk(Moved(curr, m), moves, stops) ==>
              && WalkOk(curr, [m] + moves, if m == Done then stops + 1 else stops)
              && Steady(curr, [m] + moves) && Steady(Moved(curr, m), moves)
              && Stops(curr, [m] + moves) == (if m == Done then [curr] else []) + Stops(Moved(curr, m), moves)
              && MovesText([m] + moves) == MoveText(m) + MovesText(moves)
  {
    hide *;
    var all := [m] + moves;
    assert all[1..] == moves && all[0] == m;
    FirstMove(curr, all);
    MovedIs(curr, m);
    WalkIs(Moved(curr, m), moves, stops);
    WalkIs(curr, all, if m == Done then stops + 1 else stops);
    WalkIs(curr, all, 1);
    if moves == [] && m == Done {
      NoMoves(curr);
      assert MoveText(m) + [] == MoveText(m) && [curr] + [] == [curr];
    }
  }

  lemma {:induction false} WalkOf(c: Shelf, lens: seq<Byte>, curr: nat, bits: seq<Bit>) returns (moves: seq<Move>, rest: seq<Bit>)
    requires Comes(At2(c, lens, curr), bits)
    ensures ShelfOk(c) && Lengths(lens) && |lens| < |c.used| + 2 && WalkOk(curr, moves, |c.used| + 2 - |lens|) && |rest| < |bits|
    ensures Steady(curr, moves)
    ensures Lengths(lens + Stops(curr, moves)) && |lens + Stops(curr, moves)| == |c.used| + 2
    ensures bits == MovesText(moves) + rest && Comes(Shelved(c, lens + Stops(curr, moves)), rest)
    ensures Feed(At2(c, lens, curr), bits) == Feed(Shelved(c, lens + Stops(curr, moves)), rest)
    decreases |bits|
  {
    hide *;
    var d := At2(c, lens, curr);
    ComesIs(d, bits);
    DeltaSteps(c, lens, curr, false);
    var b, next := BitOfField(d, bits);
    BitOfIs(b);
    DeltaSteps(c, lens, curr, b);
    if b {
      var b2, after := BitOfField(At3(c, lens, curr), next);
      BitOfIs(b2);
      DeltaSteps(c, lens, curr, b2);
      var m := if b2 then Down else Up;
      MovedIs(curr, m);
      moves, rest := WalkOf(c, lens, Moved(curr, m), after);
      AddMove(curr, m, moves, |c.used| + 2 - |lens|);
      moves := [m] + moves;
      JoinText(bits, [1], next, [BitOf(b2)], after, MovesText(moves[1..]), rest);
      assert [] + Stops(Moved(curr, m), moves[1..]) == Stops(Moved(curr, m), moves[1..]);
    } else {
      MovedIs(curr, Done);
      if |lens| + 1 < |c.used| + 2 {
        moves, rest := WalkOf(c, lens + [curr], curr, next);
        AddMove(curr, Done, moves, |c.used| + 1 - |lens|);
        Assoc(lens, [curr], Stops(curr, moves));
        Assoc([0], MovesText(moves), rest);
        moves := [Done] + moves;
      } else {
        AddMove(curr, Done, [], 0);
        moves, rest := [Done] + [], next;
      }
    }
  }

  lemma JoinText(bits: seq<Bit>, a: seq<Bit>, next: seq<Bit>, b: seq<Bit>, after: seq<Bit>, m: seq<Bit>, rest: seq<Bit>)
    requires bits == a + next && next == b + after && after == m + rest
    ensures bits == a + b + m + rest
  {
  }

  // --- All tables ---

  predicate LinesOk(lines: seq<Line>, alphaSize: nat) {
    forall t :: 0 <= t < |lines| ==> WalkOk(lines[t].start, lines[t].moves, alphaSize)
  }

  function LineText(line: Line): (r: seq<Bit>) {
    Bits(5, line.start) + MovesText(line.moves)
  }

  function LinesText(lines: seq<Line>): (r: seq<Bit>) {
    if lines == [] then [] else LineText(lines[0]) + LinesText(lines[1..])
  }

  /** The lengths the lines stand for. */
  ghost function LensOf(lines: seq<Line>, alphaSize: nat): (lens: seq<seq<Byte>>)
    requires LinesOk(lines, alphaSize)
    ensures |lens| == |lines| && AllLengths(lens, alphaSize)
    ensures forall t :: 0 <= t < |lens| ==> Steady(lines[t].start, lines[t].moves) && lens[t] == Stops(lines[t].start, lines[t].moves)
  {
    seq(|lines|, t requires 0 <= t < |lines| => Stops(lines[t].start, lines[t].moves))
  }

  lemma TextIsTable(c: Shelf, line: Line)
    requires ShelfOk(c) && WalkOk(line.start, line.moves, |c.used| + 2)
    ensures Steady(line.start, line.moves) && Lengths(Stops(line.start, line.moves)) && |Stops(line.start, line.moves)| == |c.used| + 2
    ensures Reads(Coding1(c.head, c.used, c.nGroups, c.selector, c.tables), LineText(line), Shelved(c, Stops(line.start, line.moves)))
  {
    hide Reads, CodingOk, Shelved, Bits, MovesText, Stops, Steady;
    var d := Coding1(c.head, c.used, c.nGroups, c.selector, c.tables);
    StartFits(line.start, line.moves);
    ReadsField(d, 5, line.start);
    TextIsWalk(c, [], line.start, line.moves);
    assert [] + Stops(line.start, line.moves) == Stops(line.start, line.moves);
    ReadsThen(d, Bits(5, line.start), At2(c, [], line.start), MovesText(line.moves), Shelved(c, Stops(line.start, line.moves)));
  }

  lemma StartFits(start: nat, moves: seq<Move>)
    requires Steady(start, moves)
    ensures 1 <= start <= 20 && start < Pow2(5) == 32
  {
    assert Shl(1, 3) == 8; assert Shl(1, 4) == 16;
  }

  lemma {:induction false} TextIsTables(h: Head, used: seq<Byte>, selector: seq<nat>, lines: seq<Line>, t: nat)
    requires HeadOk(h) && 0 < |used| <= 256 && 2 <= |lines| <= 6 && AllBelow(selector, |lines|) && 1 <= |selector| <= MAX_SELECTORS
    requires LinesOk(lines, |used| + 2) && t < |lines|
    ensures var lens := LensOf(lines, |used| + 2);
            Reads(Coding1(h, used, |lines|, selector, Tables(lens[..t])), LinesText(lines[t..]), MtfFirst(Ahead(h, used, selector, lens), 0, 49))
    decreases |lines| - t
  {
    hide Reads, MakeTable, LineText, Shelved, Ahead, AllBelow, Lengths, CodingOk, Stops, Steady, Tables, AllLengths;
    var lens := LensOf(lines, |used| + 2);
    var c := Shelf(h, used, |lines|, selector, Tables(lens[..t]));
    ShelfIsOk(h, used, selector, lens, t);
    TextIsTable(c, lines[t]);
    ShelvedIs(h, used, selector, lens, t);
    assert lines[t..][1..] == lines[t + 1..];
    var last := MtfFirst(Ahead(h, used, selector, lens), 0, 49);
    var next := if t + 1 < |lines| then Coding1(h, used, |lines|, selector, Tables(lens[..t + 1])) else last;
    if t + 1 < |lines| {
      TextIsTables(h, used, selector, lines, t + 1);
    } else {
      AheadWaits(h, used, selector, lens);
      ReadsNothing(last);
    }
    ReadsThen(Coding1(h, used, |lines|, selector, Tables(lens[..t])), LineText(lines[t]), next, LinesText(lines[t + 1..]), last);
  }

  lemma StartSteps(c: Shelf, v: nat)
    requires Valid(Coding1(c.head, c.used, c.nGroups, c.selector, c.tables))
    ensures var d := Coding1(c.head, c.used, c.nGroups, c.selector, c.tables);
            ShelfOk(c) && Waiting(d) && Need(d) == 5
            && (v < Pow2(5) ==> Step(d, v) == if v < 1 || v > 20 then Failed(DataError) else At2(c, [], v))
  {
    hide CodingOk, Shl;
  }

  lemma {:induction false} LinesOf(h: Head, used: seq<Byte>, nGroups: nat, selector: seq<nat>, lens: seq<seq<Byte>>, bits: seq<Bit>)
    returns (lines: seq<Line>, rest: seq<Bit>)
    requires Comes(Coding1(h, used, nGroups, selector, Tables(lens)), bits) && AllLengths(lens, |used| + 2) && selector != []
    ensures HeadOk(h) && 0 < |used| <= 256 && 2 <= nGroups <= 6 && AllBelow(selector, nGroups) && |selector| <= MAX_SELECTORS
    ensures |lens| + |lines| == nGroups && LinesOk(lines, |used| + 2) && bits == LinesText(lines) + rest && |rest| < |bits|
    ensures var all := lens + LensOf(lines, |used| + 2);
            && Comes(MtfFirst(Ahead(h, used, selector, all), 0, 49), rest)
            && Feed(Coding1(h, used, nGroups, selector, Tables(lens)), bits) == Feed(MtfFirst(Ahead(h, used, selector, all), 0, 49), rest)
    decreases nGroups - |lens|
  {
    hide *;
    var c := Shelf(h, used, nGroups, selector, Tables(lens));
    var d := Coding1(h, used, nGroups, selector, Tables(lens));
    ComesIs(d, bits);
    StartSteps(c, 0);
    ShelfParts(c, lens);
    var v, r1 := FieldOf(d, bits);
    StartSteps(c, v);
    var moves, r2 := WalkOf(c, [], v, r1);
    var one := Stops(v, moves);
    var line := Line(v, moves);
    assert [] + one == one;
    MoreLengths(lens, one, |used| + 2);
    NextShelf(h, used, nGroups, selector, lens, one);
    Assoc(Bits(5, v), MovesText(moves), r2);
    if |lens| + 1 < nGroups {
      lines, rest := LinesOf(h, used, nGroups, selector, lens + [one], r2);
      FirstLine(line, lines, |used| + 2);
      Assoc(lens, [one], LensOf(lines, |used| + 2));
      Assoc(LineText(line), LinesText(lines), rest);
      lines := [line] + lines;
    } else {
      FirstLine(line, [], |used| + 2);
      lines, rest := [line] + [], r2;
    }
  }

  lemma ShelfParts(c: Shelf, lens: seq<seq<Byte>>)
    requires ShelfOk(c) && c.tables == Tables(lens)
    ensures HeadOk(c.head) && 0 < |c.used| <= 256 && 2 <= c.nGroups <= 6 && |lens| < c.nGroups
    ensures AllBelow(c.selector, c.nGroups) && |c.selector| <= MAX_SELECTORS
  {
    hide TablesOk, AllBelow, MakeTable;
  }

  lemma MoreLengths(lens: seq<seq<Byte>>, one: seq<Byte>, alphaSize: nat)
    requires AllLengths(lens, alphaSize) && Lengths(one) && |one| == alphaSize
    ensures AllLengths(lens + [one], alphaSize)
  {
    hide Lengths;
  }

  lemma NextShelf(h: Head, used: seq<Byte>, nGroups: nat, selector: seq<nat>, lens: seq<seq<Byte>>, one: seq<Byte>)
    requires ShelfOk(Shelf(h, used, nGroups, selector, Tables(lens))) && selector != []
    requires AllLengths(lens + [one], |used| + 2) && Lengths(one) && |one| == |used| + 2 && |lens| < nGroups
    ensures Shelved(Shelf(h, used, nGroups, selector, Tables(lens)), one)
         == if |lens| + 1 < nGroups then Coding1(h, used, nGroups, selector, Tables(lens + [one]))
            else MtfFirst(Ahead(h, used, selector, lens + [one]), 0, 49)
  {
    hide MakeTable, BodyOk, Lengths, TableOk;
    assert Tables(lens) + [MakeTable(one)] == Tables(lens + [one]);
    if |lens| + 1 == nGroups { TablesAreOk(lens + [one], |used| + 2); }
  }

  lemma FirstLine(line: Line, lines: seq<Line>, alphaSize: nat)
    requires WalkOk(line.start, line.moves, alphaSize) && Steady(line.start, line.moves)
    ensures LineText(line) == Bits(5, line.start) + MovesText(line.moves)
    ensures LinesOk(lines, alphaSize) ==>
              LinesOk([line] + lines, alphaSize) && LinesText([line] + lines) == LineText(line) + LinesText(lines)
              && LensOf([line] + lines, alphaSize) == [Stops(line.start, line.moves)] + LensOf(lines, alphaSize)
    ensures lines == [] ==>
              LinesOk([line] + lines, alphaSize) && LinesText([line] + lines) == LineText(line)
              && LensOf([line] + lines, alphaSize) == [Stops(line.start, line.moves)]
  {
    hide WalkOk, Steady, Stops, MovesText, Bits;
    var all := [line] + lines;
    assert all[1..] == lines && all[0] == line;
    if lines == [] {
      assert LinesText(lines) == [] && LineText(line) + [] == LineText(line);
      assert LensOf(lines, alphaSize) == [];
    }
  }
}

/** The first stage of the codec (bzlib.c): runs of 4..255 equal bytes become four bytes and a count,
    and the decoder's expansion of such a block. */
module RunLength {
  import opened Basics
  import opened Mtf

  /** A run of input bytes as add_pair_to_block receives it. */
  datatype Span = Span(ch: Byte, len: nat)

  predicate SpanOk(s: Span) { 1 <= s.len <= 255 }

  /** What add_pair_to_block writes. */
  function Pair(s: Span): (r: seq<Byte>)
    requires SpanOk(s)
    ensures 1 <= |r| <= 5
  {
    if s.len < 4 then Repeat(s.ch, s.len) else Repeat(s.ch, 4) + [s.len - 4]
  }

  /** Neighbouring runs differ, unless the first was cut at 255. */
  ghost predicate Apart(spans: seq<Span>) {
    && (forall i :: 0 <= i < |spans| ==> SpanOk(spans[i]))
    && forall i :: 0 <= i < |spans| - 1 ==> Meets(spans[i], spans[i + 1].ch)
  }

  predicate Meets(s: Span, ch: Byte) { s.ch != ch || s.len == 255 }

  function Coded(spans: seq<Span>): (r: seq<Byte>)
    requires forall i :: 0 <= i < |spans| ==> SpanOk(spans[i])
  {
    if spans == [] then [] else Pair(spans[0]) + Coded(spans[1..])
  }

  function Plain(spans: seq<Span>): (r: seq<Byte>) {
    if spans == [] then [] else Repeat(spans[0].ch, spans[0].len) + Plain(spans[1..])
  }

  lemma {:induction false} AppendSpan(spans: seq<Span>, s: Span)
    requires SpanOk(s) && forall i :: 0 <= i < |spans| ==> SpanOk(spans[i])
    ensures Coded(spans + [s]) == Coded(spans) + Pair(s)
    ensures Plain(spans + [s]) == Plain(spans) + Repeat(s.ch, s.len)
    decreases |spans|
  {
    hide Pair, Repeat;
    var all := spans + [s];
    if spans == [] {
      assert all[1..] == [];
      assert Pair(s) + [] == Pair(s) && [] + Pair(s) == Pair(s);
      assert Repeat(s.ch, s.len) + [] == Repeat(s.ch, s.len) && [] + Repeat(s.ch, s.len) == Repeat(s.ch, s.len);
    } else {
      assert all[1..] == spans[1..] + [s];
      AppendSpan(spans[1..], s);
    }
  }

  // --- Expansion ---

  /** Decoded bytes, and whether the block then turns out to lack a count. */
  datatype Expansion = Expansion(bytes: seq<Byte>, broken: bool)

  /** How many of the bytes from i on, at most 4 and inside the block of n, are equal. */
  function RunAt(w: seq<Byte>, n: nat, i: nat): (r: nat)
    requires i < n <= |w|
    ensures 1 <= r <= 4 && i + r <= n
    ensures forall k :: i <= k < i + r ==> w[k] == w[i]
    ensures r < 4 ==> i + r == n || w[i + r] != w[i]
  {
    if i + 1 == n || w[i + 1] != w[i] then 1
    else if i + 2 == n || w[i + 2] != w[i] then 2
    else if i + 3 == n || w[i + 3] != w[i] then 3
    else 4
  }

  /** What the output loop delivers from byte i of a block of n on. It may read up to two bytes past
      the block: a count is fetched whether or not the block holds one. */
  function Expand(w: seq<Byte>, n: nat, i: nat): (r: Expansion)
    requires |w| == n + 2
    ensures i < n ==> r.bytes != []
    decreases n + 2 - i
  {
    if i >= n then Expansion([], i > n)
    else
      var r := RunAt(w, n, i);
      if r < 4 then Prepended(Repeat(w[i], r), Expand(w, n, i + r))
      else
        var count: nat := w[i + 4];
        Prepended(Repeat(w[i], count + 4), Expand(w, n, i + 5))
  }

  function Prepended(bytes: seq<Byte>, rest: Expansion): (r: Expansion) {
    Expansion(bytes + rest.bytes, rest.broken)
  }

  lemma RunIs(w: seq<Byte>, n: nat, i: nat, c: Byte, k: nat)
    requires i < n <= |w| && 1 <= k <= 4 && i + k <= n
    requires forall j :: i <= j < i + k ==> w[j] == c
    requires k < 4 ==> i + k == n || w[i + k] != c
    ensures RunAt(w, n, i) == k
  {
  }

  lemma FirstCoded(spans: seq<Span>)
    requires Apart(spans)
    ensures spans != [] ==> Apart(spans[1..]) && Coded(spans) != [] && Coded(spans)[0] == spans[0].ch
    ensures spans == [] ==> Coded(spans) == []
  {
    if spans != [] {
      var rest := spans[1..];
      forall i | 0 <= i < |rest| - 1 ensures Meets(rest[i], rest[i + 1].ch) {
        assert Meets(spans[i + 1], spans[i + 2].ch);
      }
      assert Pair(spans[0])[0] == spans[0].ch;
    }
  }

  /** Where the next run begins, and that it cannot be taken for more of this one. */
  lemma SpanInBlock(w: seq<Byte>, n: nat, i: nat, spans: seq<Span>)
    requires |w| == n + 2 && i <= n && Apart(spans) && spans != [] && w[i..n] == Coded(spans)
    ensures var s := spans[0]; var next := i + |Pair(s)|;
            && i < n && next <= n && w[next..n] == Coded(spans[1..])
            && RunAt(w, n, i) == (if s.len < 4 then s.len else 4) && w[i] == s.ch
            && (s.len >= 4 ==> w[i + 4] == s.len - 4)
  {
    hide Coded;
    var s, rest := spans[0], spans[1..];
    var p, next := Pair(s), i + |Pair(s)|;
    CodedFirst(spans);
    var all := w[i..n];
    assert all[|p|..] == Coded(rest) && w[next..n] == all[|p|..];
    forall k | 0 <= k < |p| ensures w[i + k] == p[k] {
      assert all[k] == p[k];
    }
    if s.len < 4 {
      assert |p| == s.len && forall k :: 0 <= k < |p| ==> p[k] == s.ch;
      forall j | i <= j < i + s.len ensures w[j] == s.ch { assert w[i + (j - i)] == p[j - i]; }
      if next < n {
        FirstCoded(rest);
        assert w[next] == w[next..n][0];
        assert Meets(spans[0], spans[1].ch);
      }
      RunIs(w, n, i, s.ch, s.len);
    } else {
      assert w[i + 4] == p[4];
      forall j | i <= j < i + 4 ensures w[j] == s.ch { assert w[i + (j - i)] == p[j - i]; }
      RunIs(w, n, i, s.ch, 4);
    }
  }

  lemma CodedFirst(spans: seq<Span>)
    requires Apart(spans) && spans != []
    ensures Coded(spans) == Pair(spans[0]) + Coded(spans[1..]) && Apart(spans[1..])
    ensures spans[1..] == [] ==> Coded(spans[1..]) == []
  {
    hide Pair;
    FirstCoded(spans);
  }

  /** Run-length round trip: a block of separated runs expands to exactly the bytes they stand for,
      whatever lies beyond the block. */
  lemma {:induction false} ExpandCoded(w: seq<Byte>, n: nat, i: nat, spans: seq<Span>)
    requires |w| == n + 2 && i <= n && Apart(spans) && w[i..n] == Coded(spans)
    ensures Expand(w, n, i) == Expansion(Plain(spans), false)
    decreases |spans|
  {
    hide Pair, RunAt, Repeat, Apart;
    if spans == [] {
      assert w[i..n] == [];
    } else {
      SpanInBlock(w, n, i, spans);
      assert |Pair(spans[0])| == if spans[0].len < 4 then spans[0].len else 5 by { PairLength(spans); }
      assert Apart(spans[1..]) by { FirstCoded(spans); }
      ExpandCoded(w, n, i + |Pair(spans[0])|, spans[1..]);
    }
  }

  lemma PairLength(spans: seq<Span>)
    requires Apart(spans) && spans != []
    ensures SpanOk(spans[0]) && |Pair(spans[0])| == if spans[0].len < 4 then spans[0].len else 5
  {
  }
}

/** Polynomials over GF(2), leading coefficient first, and long division by the CRC-32 generator: what
    a shift register computes, whichever way it shifts. */
module Polynomials {

  /** x^32 + x^26 + x^23 + x^22 + x^16 + x^12 + x^11 + x^10 + x^8 + x^7 + x^5 + x^4 + x^2 + x + 1. */
  const EXPONENTS: set<int> := {32, 26, 23, 22, 16, 12, 11, 10, 8, 7, 5, 4, 2, 1, 0}

  function Generator(): (g: seq<bool>)
    ensures |g| == 33 && g[0]
  {
    seq(33, k => 32 - k in EXPONENTS)
  }

  function None(n: nat): (z: seq<bool>)
    ensures |z| == n && forall k :: 0 <= k < n ==> !z[k]
  {
    seq(n, _ => false)
  }

  function Plus(a: seq<bool>, b: seq<bool>): (s: seq<bool>)
    requires |a| == |b|
    ensures |s| == |a| && forall k :: 0 <= k < |s| ==> s[k] == (a[k] != b[k])
  {
    seq(|a|, k requires 0 <= k < |a| => a[k] != b[k])
  }

  function Times(h: bool, g: seq<bool>): (s: seq<bool>)
    ensures |s| == |g| && forall k :: 0 <= k < |s| ==> s[k] == (h && g[k])
  {
    if h then g else None(|g|)
  }

  /** q times the generator. */
  function Product(q: seq<bool>): (p: seq<bool>)
    ensures |p| == |q| + 32
    decreases |q|
  {
    if q == [] then None(32)
    else
      var n := |q| - 1;
      Plus(Product(q[..n]) + [false], None(n) + Times(q[n], Generator()))
  }

  /** One more coefficient of the message into the remainder. */
  function Bring(r: seq<bool>, bit: bool): (s: seq<bool>)
    requires |r| == 32
    ensures |s| == 32
  {
    Plus(r[1..] + [false], Times(r[0] != bit, Generator()[1..]))
  }

  /** The remainder of message * x^32 + start * x^|message|. */
  function Remainder(start: seq<bool>, message: seq<bool>): (r: seq<bool>)
    requires |start| == 32
    ensures |r| == 32
    decreases |message|
  {
    if message == [] then start
    else Bring(Remainder(start, message[..|message| - 1]), message[|message| - 1])
  }

  function Quotient(start: seq<bool>, message: seq<bool>): (q: seq<bool>)
    requires |start| == 32
    ensures |q| == |message|
    decreases |message|
  {
    if message == [] then []
    else
      var n := |message| - 1;
      Quotient(start, message[..n]) + [Remainder(start, message[..n])[0] != message[n]]
  }

  lemma BringStep(r: seq<bool>, bit: bool)
    requires |r| == 32
    ensures Plus(r + [false], [bit] + None(32)) == Plus(Times(r[0] != bit, Generator()), [false] + Bring(r, bit))
  {
    hide Generator;
  }

  /** Sums of equal length, split behind the first n coefficients. */
  lemma SplitSum(head: seq<bool>, r: seq<bool>, bit: bool, h: bool, s: seq<bool>, p: seq<bool>, top: seq<bool>, n: nat)
    requires |r| == |s| == 32 && |head| == |p| == |top| == n + 32
    requires Plus(top, head) == Plus(p, None(n) + r)
    requires Plus(r + [false], [bit] + None(32)) == Plus(Times(h, Generator()), [false] + s)
    ensures Plus(top + [false], Plus(head + [false], None(n) + [bit] + None(32)))
         == Plus(Plus(p + [false], None(n) + Times(h, Generator())), None(n + 1) + s)
  {
    hide Generator;
    var left := Plus(top + [false], Plus(head + [false], None(n) + [bit] + None(32)));
    var right := Plus(Plus(p + [false], None(n) + Times(h, Generator())), None(n + 1) + s);
    forall k | 0 <= k < n + 33 ensures left[k] == right[k] {
      if k < n + 32 { assert Plus(top, head)[k] == Plus(p, None(n) + r)[k]; }
      if k >= n { assert Plus(r + [false], [bit] + None(32))[k - n] == Plus(Times(h, Generator()), [false] + s)[k - n]; }
    }
  }

  lemma OneMore(start: seq<bool>, message: seq<bool>)
    requires |start| == 32 && message != []
    ensures var n := |message| - 1;
            && start + None(n + 1) == start + None(n) + [false]
            && message + None(32) == Plus(message[..n] + None(32) + [false], None(n) + [message[n]] + None(32))
  {
  }

  lemma NothingYet(start: seq<bool>)
    requires |start| == 32
    ensures Plus(start + None(0), [] + None(32)) == Plus(None(32), None(0) + start)
  {
  }

  lemma EmptyQuotient(start: seq<bool>, message: seq<bool>)
    requires |start| == 32 && message == []
    ensures Product(Quotient(start, message)) == None(32) && Remainder(start, message) == start
  {
  }

  lemma QuotientOne(start: seq<bool>, message: seq<bool>)
    requires |start| == 32 && message != []
    ensures var n, q := |message| - 1, Quotient(start, message);
            && q[..n] == Quotient(start, message[..n]) && q[n] == (Remainder(start, message[..n])[0] != message[n])
            && Product(q) == Plus(Product(q[..n]) + [false], None(n) + Times(q[n], Generator()))
  {
    hide Generator, Bring, Times, None;
  }

  /** Long division: message * x^32 + start * x^|message| is the quotient times the generator, plus a
      remainder of 32 coefficients. */
  lemma {:induction false} Division(start: seq<bool>, message: seq<bool>)
    requires |start| == 32
    ensures Plus(start + None(|message|), message + None(32))
         == Plus(Product(Quotient(start, message)), None(|message|) + Remainder(start, message))
    decreases |message|
  {
    hide Generator, Bring, Times, Plus, None, Quotient, Product;
    if message == [] {
      EmptyQuotient(start, message);
      NothingYet(start);
    } else {
      var n := |message| - 1;
      var m, r := message[..n], Remainder(start, message[..n]);
      Division(start, m);
      BringStep(r, message[n]);
      SplitSum(m + None(32), r, message[n], r[0] != message[n], Bring(r, message[n]), Product(Quotient(start, m)), start + None(n), n);
      OneMore(start, message);
      QuotientOne(start, message);
    }
  }

  /** There is only one such quotient and remainder. */
  lemma Unique(q: seq<bool>, r: seq<bool>, q1: seq<bool>, r1: seq<bool>)
    requires |q| == |q1| && |r| == |r1| == 32
    requires Plus(Product(q), None(|q|) + r) == Plus(Product(q1), None(|q|) + r1)
    ensures q == q1 && r == r1
  {
    var n := |q|;
    forall k | 0 <= k < n ensures Product(q)[k] == Product(q1)[k] {
      assert Plus(Product(q), None(n) + r)[k] == Plus(Product(q1), None(n) + r1)[k];
    }
    LeadingProduct(q, q1);
    forall k | 0 <= k < 32 ensures r[k] == r1[k] {
      assert Plus(Product(q), None(n) + r)[n + k] == Plus(Product(q1), None(n) + r1)[n + k];
    }
  }

  lemma {:induction false} LeadingProduct(q: seq<bool>, q1: seq<bool>)
    requires |q| == |q1| && forall k :: 0 <= k < |q| ==> Product(q)[k] == Product(q1)[k]
    ensures q == q1
    decreases |q|
  {
    hide Generator;
    if q != [] {
      var n := |q| - 1;
      forall k | 0 <= k < n ensures Product(q[..n])[k] == Product(q1[..n])[k] {
        assert Product(q)[k] == Product(q1)[k];
      }
      LeadingProduct(q[..n], q1[..n]);
      assert Product(q)[n] == Product(q1)[n];
      assert q == q[..n] + [q[n]] && q1 == q1[..n] + [q1[n]];
    }
  }

  lemma {:induction false} RemainderConcat(start: seq<bool>, a: seq<bool>, b: seq<bool>)
    requires |start| == 32
    ensures Remainder(start, a + b) == Remainder(Remainder(start, a), b)
    decreases |b|
  {
    hide Bring;
    if b == [] {
      assert a + b == a;
    } else {
      assert (a + b)[..|a + b| - 1] == a + b[..|b| - 1];
      RemainderConcat(start, a, b[..|b| - 1]);
    }
  }

  lemma RemainderOne(start: seq<bool>, bit: bool)
    requires |start| == 32
    ensures Remainder(start, [bit]) == Bring(start, bit)
  {
    assert [bit][..0] == [];
  }
}

/** 32-bit words under exclusive or: the laws both CRCs rest on. */
module XorWords {
  function Xor(a: bv32, b: bv32): bv32 { a ^ b }

  function Twice(c: bv32): bv32 { c << 1 }

  function When(p: bool, x: bv32): bv32 { if p then x else 0 }

  lemma XorLaws(a: bv32, b: bv32, c: bv32)
    ensures Xor(Xor(a, b), c) == Xor(a, Xor(b, c)) && Xor(a, b) == Xor(b, a)
    ensures Xor(a, 0) == a && Xor(0, a) == a && Xor(a, a) == 0
  {
  }

  lemma XorCancel(a: bv32, b: bv32)
    ensures Xor(Xor(a, b), b) == a && Xor(a, a) == 0 && Xor(a, 0) == a && Xor(0, a) == a
  {
  }

  lemma XorSwap(a: bv32, b: bv32, c: bv32, d: bv32)
    ensures Xor(Xor(a, b), Xor(c, d)) == Xor(Xor(a, c), Xor(b, d))
  {
    hide Xor;
    XorLaws(a, b, Xor(c, d));
    XorLaws(b, c, d);
    XorLaws(c, b, d);
    XorLaws(a, c, Xor(b, d));
  }

  lemma TwiceXor(a: bv32, b: bv32)
    ensures Twice(Xor(a, b)) == Xor(Twice(a), Twice(b))
  {
  }

  lemma WhenXor(p: bool, q: bool, x: bv32)
    ensures When(p != q, x) == Xor(When(p, x), When(q, x))
  {
    hide Xor;
    XorLaws(x, 0, 0);
    XorLaws(0, 0, 0);
  }
}

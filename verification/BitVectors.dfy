// Exclusive or on 32-bit vectors. Its laws are proved once on the operator and used through the
// named function, which proofs about larger computations leave unexpanded.
module BitVectors {
  function Xor(a: bv32, b: bv32): bv32 {
    a ^ b
  }

  function Widen(b: bv8): bv32 {
    b as bv32
  }

  lemma RawXorCommutes(a: bv32, b: bv32)
    ensures a ^ b == b ^ a
  {
  }

  lemma RawXorZero(a: bv32)
    ensures a ^ 0 == a && a ^ a == 0
  {
  }

  lemma RawXorAssoc(a: bv32, b: bv32, c: bv32)
    ensures (a ^ b) ^ c == a ^ (b ^ c)
  {
  }

  lemma RawXorCancels(a: bv32, b: bv32)
    ensures a ^ b == 0 <==> a == b
  {
  }

  lemma XorIs(a: bv32, b: bv32)
    ensures Xor(a, b) == a ^ b
  {
  }

  lemma XorAssoc(a: bv32, b: bv32, c: bv32)
    ensures Xor(Xor(a, b), c) == Xor(a, Xor(b, c))
  {
    hide Xor;
    RawXorAssoc(a, b, c);
    XorIs(a, b);
    XorIs(b, c);
    XorIs(a ^ b, c);
    XorIs(a, b ^ c);
  }

  lemma XorLaws(a: bv32, b: bv32, c: bv32)
    ensures Xor(a, b) == Xor(b, a)
    ensures Xor(Xor(a, b), c) == Xor(a, Xor(b, c))
    ensures Xor(a, 0) == a && Xor(a, a) == 0
  {
    hide Xor;
    RawXorCommutes(a, b);
    RawXorZero(a);
    XorIs(a, b);
    XorIs(b, a);
    XorIs(a, 0);
    XorIs(a, a);
    XorAssoc(a, b, c);
  }

  lemma XorCancels(a: bv32, b: bv32)
    ensures Xor(a, b) == 0 <==> a == b
  {
    RawXorCancels(a, b);
  }

  lemma XorExchange(a: bv32, b: bv32, c: bv32, d: bv32)
    ensures Xor(Xor(a, b), Xor(c, d)) == Xor(Xor(a, c), Xor(b, d))
  {
    hide Xor;
    XorLaws(a, b, Xor(c, d));
    XorLaws(b, c, d);
    XorLaws(c, b, d);
    XorLaws(a, c, Xor(b, d));
  }
}

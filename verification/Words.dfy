/**
 * 32-bit words under XOR. The operators are named so that proofs combine them by these
 * laws and never by expanding all the bits of a compound term.
 */
module Words {
  import opened Bytes

  type word = bv32

  function Xor(a: word, b: word): word { a ^ b }
  function Half(a: word): word { a >> 1 }
  predicate Odd(a: word) { a & 1 == 1 }
  function Widen(b: byte): word { b as bv32 }
  function LowByte(a: word): byte { (a & 0xFF) as bv8 }
  function HighBytes(a: word): word { a & 0xFFFF_FF00 }
  function XorByte(a: byte, b: byte): byte { a ^ b }

  lemma XorZero(a: word) ensures Xor(a, 0) == a {}
  lemma XorSelf(a: word) ensures Xor(a, a) == 0 {}
  lemma XorCommutes(a: word, b: word) ensures Xor(a, b) == Xor(b, a) {}
  lemma XorAssociates(a: word, b: word, c: word) ensures Xor(Xor(a, b), c) == Xor(a, Xor(b, c)) {}
  lemma OddXor(a: word, b: word) ensures Odd(Xor(a, b)) == (Odd(a) != Odd(b)) {}
  lemma HalfXor(a: word, b: word) ensures Half(Xor(a, b)) == Xor(Half(a), Half(b)) {}

  lemma XorSwap(a: word, b: word, c: word)
    ensures Xor(Xor(a, b), c) == Xor(Xor(a, c), b)
  {
    XorAssociates(a, b, c);
    XorCommutes(b, c);
    XorAssociates(a, c, b);
  }

  lemma XorTwice(a: word, b: word)
    ensures Xor(Xor(a, b), b) == a
  {
    XorAssociates(a, b, b);
    XorSelf(b);
    XorZero(a);
  }

  lemma XorInjective(x: word, a: word, b: word)
    requires Xor(x, a) == Xor(x, b)
    ensures a == b
  {
    XorCommutes(x, a);
    XorCommutes(x, b);
    XorTwice(a, x);
    XorTwice(b, x);
  }

  lemma XorPairs(a: word, b: word, c: word, d: word)
    ensures Xor(Xor(a, b), Xor(c, d)) == Xor(Xor(a, c), Xor(b, d))
  {
    XorAssociates(Xor(a, b), c, d);
    XorSwap(a, b, c);
    XorAssociates(Xor(a, c), b, d);
  }

  lemma WidenXor(a: byte, b: byte) ensures Widen(XorByte(a, b)) == Xor(Widen(a), Widen(b)) {}

  lemma SplitWord(a: word) ensures a == Xor(Widen(LowByte(a)), HighBytes(a)) {}
}

/** Bitwise exclusive or on natural numbers. */
module Bitwise {
  import opened Machine

  function Xor(a: nat, b: nat): nat
    decreases a + b
  {
    if a == 0 && b == 0 then 0
    else 2 * Xor(a / 2, b / 2) + if a % 2 == b % 2 then 0 else 1
  }

  function Pow2(n: nat): (p: nat)
    ensures p > 0
  {
    if n == 0 then 1 else 2 * Pow2(n - 1)
  }

  lemma {:induction false} XorZero(b: nat)
    ensures Xor(0, b) == b && Xor(b, 0) == b
  {
    if b != 0 { XorZero(b / 2); }
  }

  /** Undoing an exclusive or: it is injective in either operand. */
  lemma {:induction false} XorUndo(a: nat, b: nat)
    ensures Xor(Xor(a, b), b) == a && Xor(a, Xor(a, b)) == b
    decreases a + b
  {
    if a != 0 || b != 0 {
      XorUndo(a / 2, b / 2);
      assert Xor(a, b) / 2 == Xor(a / 2, b / 2);
    }
  }

  lemma {:induction false} XorBound(n: nat, a: nat, b: nat)
    requires a < Pow2(n) && b < Pow2(n)
    ensures Xor(a, b) < Pow2(n)
  {
    if n > 0 && (a != 0 || b != 0) { XorBound(n - 1, a / 2, b / 2); }
  }

  /** What is left of a after dropping its n low bits, and those n bits. */
  function High(a: nat, n: nat): nat
    decreases n
  {
    if n == 0 then a else High(a / 2, n - 1)
  }

  function Low(a: nat, n: nat): nat
    decreases n
  {
    if n == 0 then 0 else 2 * Low(a / 2, n - 1) + a % 2
  }

  lemma {:induction false} Recombine(a: nat, n: nat)
    ensures a == Pow2(n) * High(a, n) + Low(a, n) && Low(a, n) < Pow2(n)
    decreases n
  {
    if n > 0 {
      Recombine(a / 2, n - 1);
      Doubled(Pow2(n - 1), High(a / 2, n - 1));
    }
  }

  lemma Doubled(p: nat, h: nat)
    ensures (2 * p) * h == 2 * (p * h)
  {
  }

  lemma XorHalves(a: nat, b: nat)
    ensures Xor(a, b) / 2 == Xor(a / 2, b / 2) && Xor(a, b) % 2 == if a % 2 == b % 2 then 0 else 1
  {
  }

  lemma XorDouble(a: nat, x: nat, b: nat, y: nat)
    requires x < 2 && y < 2
    ensures Xor(2 * a + x, 2 * b + y) == 2 * Xor(a, b) + if x == y then 0 else 1
  {
    assert (2 * a + x) / 2 == a && (2 * b + y) / 2 == b;
  }

  /** High and low bits do not mix. */
  lemma {:induction false} XorParts(a: nat, b: nat, n: nat)
    ensures High(Xor(a, b), n) == Xor(High(a, n), High(b, n))
    ensures Low(Xor(a, b), n) == Xor(Low(a, n), Low(b, n))
    decreases n
  {
    if n > 0 {
      XorHalves(a, b);
      XorParts(a / 2, b / 2, n - 1);
      XorDouble(Low(a / 2, n - 1), a % 2, Low(b / 2, n - 1), b % 2);
    }
  }

  /** The two cuts that matter here. */
  lemma XorAtWord(a: nat, b: nat)
    ensures Xor(a, b) / 0x1_0000 == Xor(a / 0x1_0000, b / 0x1_0000)
    ensures Xor(a, b) % 0x1_0000 == Xor(a % 0x1_0000, b % 0x1_0000)
    ensures Xor(a, b) / 0x100_0000 == Xor(a / 0x100_0000, b / 0x100_0000)
  {
    PowersOfTwo();
    CutAt(a, 16, 0x1_0000);
    CutAt(b, 16, 0x1_0000);
    CutAt(Xor(a, b), 16, 0x1_0000);
    XorParts(a, b, 16);
    CutAt(a, 24, 0x100_0000);
    CutAt(b, 24, 0x100_0000);
    CutAt(Xor(a, b), 24, 0x100_0000);
    XorParts(a, b, 24);
  }

  lemma CutAt(a: nat, n: nat, p: nat)
    requires Pow2(n) == p && (p == 0x1_0000 || p == 0x100_0000)
    ensures High(a, n) == a / p && Low(a, n) == a % p
  {
    Recombine(a, n);
  }

  function Xor32(a: Word32, b: Word32): (x: Word32)
    ensures x == Xor(a, b)
  {
    PowersOfTwo();
    XorBound(32, a, b);
    Xor(a, b)
  }

  lemma PowersOfTwo()
    ensures Pow2(16) == 0x1_0000 && Pow2(24) == 0x100_0000 && Pow2(32) == 0x1_0000_0000
  {
    assert Pow2(4) == 16;
    assert Pow2(8) == 16 * Pow2(4);
    assert Pow2(12) == 16 * Pow2(8);
    assert Pow2(16) == 16 * Pow2(12);
    assert Pow2(20) == 16 * Pow2(16);
    assert Pow2(24) == 16 * Pow2(20);
    assert Pow2(28) == 16 * Pow2(24);
    assert Pow2(32) == 16 * Pow2(28);
  }
}

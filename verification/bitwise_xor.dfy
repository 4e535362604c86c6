/** Exclusive or of natural numbers, bit by bit. */
module BitwiseXor {

  function Xor(a: nat, b: nat): nat {
    if a == 0 && b == 0 then 0 else (a % 2 + b % 2) % 2 + 2 * Xor(a / 2, b / 2)
  }

  function Pow2(n: nat): nat {
    if n == 0 then 1 else 2 * Pow2(n - 1)
  }

  lemma {:induction false} XorBound(a: nat, b: nat, n: nat)
    requires a < Pow2(n) && b < Pow2(n)
    ensures Xor(a, b) < Pow2(n)
  {
    if n > 0 {
      XorBound(a / 2, b / 2, n - 1);
    }
  }

  lemma TimesTwice(a: nat, b: nat)
    ensures a * (2 * b) == 2 * (a * b)
  {
  }

  lemma {:induction false} Pow2Doubles(n: nat, m: nat)
    ensures Pow2(n + m) == Pow2(n) * Pow2(m)
  {
    if m > 0 {
      Pow2Doubles(n, m - 1);
      TimesTwice(Pow2(n), Pow2(m - 1));
    }
  }

  lemma WordSize()
    ensures Pow2(32) == 0x1_0000_0000
  {
    assert Pow2(4) == 16 by { assert Pow2(2) == 4; }
    Pow2Doubles(4, 4);
    Pow2Doubles(8, 8);
    Pow2Doubles(16, 16);
  }

  /** Logical shift to the right. */
  function Shr(x: nat, k: nat): nat {
    if k == 0 then x else Shr(x / 2, k - 1)
  }

  lemma {:induction false} ShrHalf(x: nat, k: nat)
    ensures Shr(x, k) / 2 == Shr(x / 2, k) && Shr(x, k) <= x
  {
    if k > 0 {
      ShrHalf(x / 2, k - 1);
    }
  }

  /** x ^ (x >> k) determines x, for every shift k of at least 1: reading from the top,
      each bit of x is known before it is needed. */
  lemma {:induction false} ShiftXorInjective(x: nat, y: nat, k: nat)
    requires k > 0 && Xor(x, Shr(x, k)) == Xor(y, Shr(y, k))
    ensures x == y
    decreases x + y
  {
    if x != 0 || y != 0 {
      ShrHalf(x, k);
      ShrHalf(y, k);
      XorHalves(x, Shr(x, k));
      XorHalves(y, Shr(y, k));
      ShiftXorInjective(x / 2, y / 2, k);
      SameParity(x, y, Shr(x / 2, k - 1));
    }
  }

  lemma XorHalves(a: nat, b: nat)
    ensures Xor(a, b) % 2 == (a % 2 + b % 2) % 2 && Xor(a, b) / 2 == Xor(a / 2, b / 2)
  {
  }

  lemma SameParity(x: nat, y: nat, s: nat)
    requires x / 2 == y / 2 && (x % 2 + s % 2) % 2 == (y % 2 + s % 2) % 2
    ensures x == y
  {
  }
}

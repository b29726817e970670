/** Exclusive or on natural numbers, read off their binary digits, so that no
    machine width is built in. */
module Bits {
  function Pow2(n: nat): (p: nat)
    ensures p >= 1
  {
    if n == 0 then 1 else 2 * Pow2(n - 1)
  }

  lemma Pow2Word()
    ensures Pow2(16) == 0x1_0000
  {
    assert Pow2(8) == 0x100;
  }

  function Xor(a: nat, b: nat): nat
    decreases a + b
  {
    if a == 0 && b == 0 then 0
    else (if a % 2 == b % 2 then 0 else 1) + 2 * Xor(a / 2, b / 2)
  }

  /** The parity of the number of one bits. */
  function Odd(n: nat): bool {
    n != 0 && ((n % 2 == 1) != Odd(n / 2))
  }

  lemma XorDigits(a: nat, b: nat)
    ensures Xor(a, b) % 2 == if a % 2 == b % 2 then 0 else 1
    ensures Xor(a, b) / 2 == Xor(a / 2, b / 2)
  {
  }

  lemma {:induction false} XorZero(a: nat)
    ensures Xor(a, 0) == a == Xor(0, a)
  {
    if a != 0 {
      XorZero(a / 2);
    }
  }

  lemma {:induction false} XorComm(a: nat, b: nat)
    ensures Xor(a, b) == Xor(b, a)
    decreases a + b
  {
    if a != 0 || b != 0 {
      XorComm(a / 2, b / 2);
    }
  }

  lemma {:induction false} XorAssoc(a: nat, b: nat, c: nat)
    ensures Xor(Xor(a, b), c) == Xor(a, Xor(b, c))
    decreases a + b + c
  {
    if a + b + c != 0 {
      var ab, bc := Xor(a, b), Xor(b, c);
      XorDigits(a, b);
      XorDigits(b, c);
      XorDigits(ab, c);
      XorDigits(a, bc);
      XorAssoc(a / 2, b / 2, c / 2);
      SameDigits(Xor(ab, c), Xor(a, bc));
    }
  }

  lemma SameDigits(a: nat, b: nat)
    requires a / 2 == b / 2 && a % 2 == b % 2
    ensures a == b
  {
  }

  lemma {:induction false} XorIsZero(a: nat, b: nat)
    ensures Xor(a, b) == 0 <==> a == b
    decreases a + b
  {
    if a != 0 || b != 0 {
      XorIsZero(a / 2, b / 2);
    }
  }

  lemma {:induction false} XorBound(a: nat, b: nat, n: nat)
    requires a < Pow2(n) && b < Pow2(n)
    ensures Xor(a, b) < Pow2(n)
  {
    if n != 0 {
      XorBound(a / 2, b / 2, n - 1);
    }
  }

  lemma {:induction false} XorOdd(a: nat, b: nat)
    ensures Odd(Xor(a, b)) == (Odd(a) != Odd(b))
    decreases a + b
  {
    if a != 0 || b != 0 {
      XorOdd(a / 2, b / 2);
      XorDigits(a, b);
    }
  }

  /** Exchanging the inner pair of four exclusive ors. */
  lemma XorSwap(a: nat, b: nat, c: nat, d: nat)
    ensures Xor(Xor(a, b), Xor(c, d)) == Xor(Xor(a, c), Xor(b, d))
  {
    XorAssoc(a, b, Xor(c, d));
    XorAssoc(b, c, d);
    XorComm(b, c);
    XorAssoc(c, b, d);
    XorAssoc(a, c, Xor(b, d));
  }

  lemma Quotients(v: nat, p: nat)
    requires p >= 1
    ensures v / (2 * p) == v / 2 / p
  {
    var q, h := v / (2 * p), v / 2;
    assert v == 2 * p * q + v % (2 * p);
    assert p * q <= h < p * q + p;
    QuotientIs(h, p, q);
  }

  lemma QuotientIs(n: nat, d: nat, q: nat)
    requires d >= 1 && d * q <= n < d * q + d
    ensures n / d == q
  {
    var r := n / d;
    if r < q {
      Multiples(d, r + 1, q);
      assert false;
    } else if q < r {
      Multiples(d, q + 1, r);
      assert false;
    }
  }

  lemma Multiples(d: nat, a: nat, b: nat)
    requires a <= b
    ensures d * a <= d * b
  {
  }
}

/** The RTU checksum keeps valid frames of up to 32767 bits at least four bit flips apart.
    The register step multiplies by x modulo (x + 1)(x^15 + x + 1), and the powers of x
    repeat only after 32767 steps. */
module CrcDistance {
  import opened Bytes
  import opened Bits
  import opened Crc
  import opened CrcDetection

  const PERIOD := 32767

  /** The register's top digit. */
  const TOP: nat := 15

  // The bit sequence of x^15 + x + 1 -----------------------------------------------------

  /** One true, fourteen false, then each bit is the sum of the two 14 and 15 places back. */
  function B(n: nat): bool {
    if n < 15 then n == 0 else B(n - 14) != B(n - 15)
  }

  /** Squaring the polynomial doubles the distances in its recurrence. */
  lemma {:induction false} Rule(k: nat, n: nat)
    ensures B(n + 15 * Pow2(k)) == (B(n + Pow2(k)) != B(n))
    decreases k
  {
    if k != 0 {
      var d := Pow2(k - 1);
      Rule(k - 1, n + 15 * d);
      Rule(k - 1, n + d);
      Rule(k - 1, n);
    }
  }

  function F(k: nat, m: nat): bool {
    B(m + Pow2(k))
  }

  lemma Fold(k: nat, m: nat)
    ensures F(k + 4, m) == (F(k + 1, m) != F(k, m))
  {
    Rule(k, m + Pow2(k));
    assert Pow2(k + 4) == 2 * Pow2(k + 3);
    assert Pow2(k + 3) == 2 * Pow2(k + 2);
    assert Pow2(k + 2) == 2 * Pow2(k + 1);
  }

  /** The values at some distances from m in terms of those at distances 1, 2, 4 and 8. */
  lemma At64(m: nat)
    ensures B(m + 64) == (B(m + 8) != B(m + 4))
  {
    SmallPowers();
    Fold(2, m);
  }

  lemma At128(m: nat)
    ensures B(m + 128) == (B(m + 8) != (B(m + 2) != B(m + 1)))
  {
    SmallPowers();
    Fold(0, m);
    Fold(3, m);
  }

  lemma At512(m: nat)
    ensures B(m + 512) == (B(m + 8) != B(m + 2))
  {
    SmallPowers();
    Fold(1, m);
    Fold(2, m);
    Fold(5, m);
  }

  lemma At1024(m: nat)
    ensures B(m + 1024) == (B(m + 4) != (B(m + 2) != B(m + 1)))
  {
    SmallPowers();
    At64(m);
    At128(m);
    Fold(6, m);
  }

  lemma At4096(m: nat)
    ensures B(m + 4096) == ((B(m + 8) != B(m + 4)) != (B(m + 2) != B(m + 1)))
  {
    SmallPowers();
    At512(m);
    Fold(0, m);
    Fold(1, m);
    Fold(4, m);
    Fold(8, m);
  }

  /** Squaring fifteen times leads back to the start. */
  lemma At32768(m: nat)
    ensures B(m + 32768) == B(m + 1)
  {
    SmallPowers();
    At1024(m);
    At128(m);
    Fold(7, m);
    At4096(m);
    Fold(0, m);
    Fold(1, m);
    Fold(4, m);
    Fold(11, m);
  }

  lemma SmallPowers()
    ensures Pow2(0) == 1 && Pow2(1) == 2 && Pow2(2) == 4 && Pow2(3) == 8 && Pow2(4) == 16 && Pow2(5) == 32
    ensures Pow2(6) == 64 && Pow2(7) == 128 && Pow2(8) == 256 && Pow2(9) == 512 && Pow2(10) == 1024
    ensures Pow2(11) == 2048 && Pow2(12) == 4096 && Pow2(15) == 32768
  {
  }

  // Periods --------------------------------------------------------------------------------

  predicate Same(m: nat, n: nat) {
    B(n + m) == B(n)
  }

  ghost predicate Repeats(m: nat) {
    forall n: nat :: Same(m, n)
  }

  lemma StartsOver(n: nat)
    requires n == 0
    ensures B(n + PERIOD) == B(n)
  {
    At32768(n);
    At32768(n + 14);
    Rule(0, n + PERIOD);
    Rule(0, n);
  }

  lemma FullPeriod()
    ensures Repeats(PERIOD)
  {
    forall n: nat
      ensures Same(PERIOD, n)
    {
      if n == 0 {
        StartsOver(n);
      } else {
        At32768(n - 1);
      }
    }
  }

  /** Two periods have a common divisor that is a period. */
  lemma {:induction false} CommonPeriod(a: nat, b: nat) returns (g: nat, x: nat, y: nat)
    requires a >= 1 && b >= 1 && Repeats(a) && Repeats(b)
    ensures g >= 1 && Repeats(g) && a == x * g && b == y * g
    decreases a + b
  {
    if a == b {
      g, x, y := a, 1, 1;
    } else if a > b {
      Difference(a, b);
      g, x, y := CommonPeriod(a - b, b);
      Distribute(x, y, g);
      x := x + y;
    } else {
      Difference(b, a);
      g, x, y := CommonPeriod(a, b - a);
      Distribute(x, y, g);
      y := x + y;
    }
  }

  lemma Distribute(x: nat, y: nat, g: nat)
    ensures (x + y) * g == x * g + y * g
  {
  }

  lemma Difference(a: nat, b: nat)
    requires a > b && Repeats(a) && Repeats(b)
    ensures Repeats(a - b)
  {
    var c := a - b;
    forall n: nat
      ensures Same(c, n)
    {
      assert Same(b, n + c) && Same(a, n);
    }
  }

  lemma Grows(a: nat, b: nat, d: nat)
    requires a <= b
    ensures a * d <= b * d
  {
    Distribute(b - a, a, d);
    assert (b - a) * d >= 0;
  }

  lemma {:induction false} Multiple(g: nat, k: nat)
    requires Repeats(g)
    ensures Repeats(k * g)
  {
    if k != 0 {
      Multiple(g, k - 1);
      Distribute(k - 1, 1, g);
      forall n: nat
        ensures Same(k * g, n)
      {
        assert Same((k - 1) * g, n) && Same(g, n + (k - 1) * g);
      }
    }
  }

  lemma Quiet(n: nat)
    requires 1 <= n <= 14 || 16 <= n <= 28 || 31 <= n <= 42
    ensures !B(n)
  {
    if n >= 31 {
      assert B(n - 14) == (B(n - 28) != B(n - 29));
      assert B(n - 15) == (B(n - 29) != B(n - 30));
    }
  }

  lemma Not217(n: nat)
    requires n == 2
    ensures B(n + 217) != B(n)
  {
    At128(n + 89);
    At64(n + 33);
    At64(n + 27);
    At64(n + 26);
    Quiet(n);
    Quiet(n + 12);
    Quiet(n + 26);
    Quiet(n + 37);
    Quiet(n + 35);
    Quiet(n + 31);
    Quiet(n + 34);
    Quiet(n + 30);
    Rule(0, n + 26);
    Rule(0, n + 12);
    Rule(0, n - 2);
  }

  lemma Not1057(n: nat)
    requires n == 0
    ensures B(n + 1057) != B(n)
  {
    At1024(n + 33);
    Quiet(n + 37);
    Quiet(n + 35);
    Quiet(n + 34);
  }

  lemma At585(n: nat)
    ensures B(n + 585) == ((B(n + 25) != B(n + 21)) != (B(n + 19) != B(n + 15)))
  {
    At512(n + 73);
    At64(n + 17);
    At64(n + 11);
  }

  lemma Not4681(n: nat)
    requires n == 0
    ensures B(n + 4681) != B(n)
  {
    At4096(n + 585);
    At585(n + 8);
    At585(n + 4);
    At585(n + 2);
    At585(n + 1);
    Quiet(n + 33);
    Quiet(n + 27);
    Quiet(n + 23);
    Quiet(n + 25);
    Quiet(n + 19);
    Quiet(n + 21);
    Quiet(n + 17);
    Quiet(n + 26);
    Quiet(n + 22);
    Quiet(n + 20);
    Quiet(n + 16);
  }

  /** The three largest proper divisors of 32767 are not periods. */
  lemma NotRepeated(n: nat)
    requires n == 0
    ensures !Repeats(217) && !Repeats(1057) && !Repeats(4681)
  {
    Not217(n + 2);
    Not1057(n);
    Not4681(n);
    assert !Same(217, n + 2) && !Same(1057, n) && !Same(4681, n);
  }

  lemma SmallDivisor(d: nat, q: nat)
    requires q * d == 32767 && 2 <= d < 182
    ensures d == 7 || d == 31 || d == 151
  {
  }

  /** 32767 == 7 * 31 * 151, so a proper divisor divides one of the three products of two. */
  lemma ProperDivisor(g: nat, q: nat) returns (k: nat)
    requires q * g == 32767 && q >= 2
    ensures k * g == 217 || k * g == 1057 || k * g == 4681
  {
    if q < 182 {
      SmallDivisor(q, g);
      k := 1;
    } else if g == 1 {
      k := 217;
    } else {
      SmallDivisor(g, q);
      k := if g == 7 then 31 else 7;
    }
  }

  /** The sequence repeats after no fewer than 32767 places. */
  lemma NoShorterPeriod(m: nat)
    requires 1 <= m < PERIOD
    ensures !Repeats(m)
  {
    if Repeats(m) {
      FullPeriod();
      var g, x, y := CommonPeriod(m, PERIOD);
      if y < 2 {
        Grows(1, x, g);
        Grows(y, 1, g);
        assert false;
      }
      var k := ProperDivisor(g, y);
      Multiple(g, k);
      NotRepeated(0);
    }
  }

  // The register runs through that sequence --------------------------------------------------

  /** The k-th binary digit. */
  function Bit(n: nat, k: nat): bool
    decreases k, n
  {
    if k == 0 then n % 2 == 1 else Bit(n / 2, k - 1)
  }

  lemma {:induction false} BitXor(a: nat, b: nat, k: nat)
    ensures Bit(Xor(a, b), k) == (Bit(a, k) != Bit(b, k))
    decreases k
  {
    XorDigits(a, b);
    if k != 0 {
      BitXor(a / 2, b / 2, k - 1);
    }
  }

  lemma {:induction false} BitPow2(n: nat, k: nat)
    ensures Bit(Pow2(n), k) == (n == k)
    decreases k
  {
    if k == 0 {
    } else if n == 0 {
      ZeroBit(k - 1);
    } else {
      BitPow2(n - 1, k - 1);
    }
  }

  lemma {:induction false} ZeroBit(k: nat)
    ensures !Bit(0, k)
  {
    if k != 0 {
      ZeroBit(k - 1);
    }
  }

  lemma {:induction false} ShiftsAdd(r: nat, m: nat, n: nat)
    ensures Shifts(r, m + n) == Shifts(Shifts(r, m), n)
    decreases m
  {
    if m != 0 {
      ShiftsAdd(Shift(r), m - 1, n);
    }
  }

  lemma {:induction false} ShiftsLinear(a: nat, b: nat, n: nat)
    ensures Shifts(Xor(a, b), n) == Xor(Shifts(a, n), Shifts(b, n))
    decreases n
  {
    if n != 0 {
      ShiftLinear(a, b);
      ShiftsLinear(Shift(a), Shift(b), n - 1);
    }
  }

  lemma {:induction false} ShiftsPow2(k: nat, n: nat)
    requires n <= k
    ensures Shifts(Pow2(k), n) == Pow2(k - n)
    decreases n
  {
    if n != 0 {
      ShiftEven(Pow2(k - 1));
      ShiftsPow2(k - 1, n - 1);
    }
  }

  /** The powers of x: the register started with its top bit alone. */
  function Power(n: nat): nat {
    Shifts(Pow2(15), n)
  }

  lemma XorEven(a: nat, p: nat)
    ensures Xor(a, 2 * p) == a % 2 + 2 * Xor(a / 2, p)
  {
    var x := Xor(a, 2 * p);
    XorDigits(a, 2 * p);
    assert x == x % 2 + 2 * (x / 2);
  }

  lemma {:induction false} XorPow2(a: nat, k: nat)
    requires a < Pow2(k)
    ensures Xor(a, Pow2(k)) == a + Pow2(k)
    decreases k
  {
    if k == 0 {
      XorZero(1);
    } else {
      XorEven(a, Pow2(k - 1));
      XorPow2(a / 2, k - 1);
    }
  }

  /** x^16 is x^15 + x^2 + 1. */
  lemma Reduction()
    ensures Power(16) == Xor(Xor(Power(15), Power(2)), Power(0))
  {
    ShiftsPow2(15, 15);
    ShiftsPow2(15, 2);
    ShiftsAdd(Pow2(15), 15, 1);
    assert Shifts(1, 1) == Shift(1);
    XorZero(POLYNOMIAL);
    SmallPowers();
    assert Pow2(13) == 0x2000;
    XorPow2(1, 13);
    XorPow2(0x2001, 15);
  }

  lemma PowerRule(n: nat)
    ensures Power(n + 16) == Xor(Xor(Power(n + 15), Power(n + 2)), Power(n))
  {
    Reduction();
    ShiftsAdd(Pow2(15), 16, n);
    ShiftsAdd(Pow2(15), 15, n);
    ShiftsAdd(Pow2(15), 2, n);
    ShiftsLinear(Xor(Power(15), Power(2)), Power(0), n);
    ShiftsLinear(Power(15), Power(2), n);
  }

  function Top(n: nat): bool {
    Bit(Power(n), TOP)
  }

  lemma TopRule(n: nat)
    ensures Top(n + 16) == ((Top(n + 15) != Top(n + 2)) != Top(n))
  {
    PowerRule(n);
    BitXor(Xor(Power(n + 15), Power(n + 2)), Power(n), TOP);
    BitXor(Power(n + 15), Power(n + 2), TOP);
  }

  lemma TopStart(n: nat)
    requires n <= 15
    ensures Top(n) == (n == 0)
  {
    ShiftsPow2(15, n);
    BitPow2(15 - n, TOP);
  }

  /** The changes of the top bit are the sequence. */
  lemma {:induction false} TopChanges(n: nat)
    ensures (Top(n) != Top(n + 1)) == B(n)
  {
    if n < 15 {
      TopStart(n);
      TopStart(n + 1);
    } else {
      TopRule(n - 15);
      TopChanges(n - 14);
      TopChanges(n - 15);
    }
  }

  /** If the register returns to a bit it started from, the sequence repeats. */
  lemma ReturnRepeats(m: nat)
    requires Shifts(1, m) == 1
    ensures Repeats(m)
  {
    forall n: nat
      ensures Same(m, n)
    {
      BackTo(m, n);
    }
  }

  lemma {:induction false} BackTo(m: nat, n: nat)
    requires Shifts(1, m) == 1
    ensures B(n + m) == B(n)
    decreases if n < 15 then 15 - n else 0
  {
    if n < 15 {
      BackTo(m, n + 15);
      BackTo(m, n + 1);
      Rule(0, n + m);
      Rule(0, n);
    } else {
      SamePower(m, n - 15);
      SamePower(m, n - 14);
      TopChanges(n);
      TopChanges(n + m);
    }
  }

  lemma PowerPast(n: nat)
    ensures Power(15 + n) == Shifts(1, n)
  {
    ShiftsPow2(15, 15);
    ShiftsAdd(Pow2(15), 15, n);
  }

  lemma SamePower(m: nat, n: nat)
    requires Shifts(1, m) == 1
    ensures Power(15 + n + m) == Power(15 + n)
  {
    PowerPast(m + n);
    PowerPast(n);
    ShiftsAdd(1, m, n);
  }

  /** A single bit does not come back to itself within 32766 steps. */
  lemma OrderOfShift(m: nat)
    requires 1 <= m < PERIOD
    ensures Shifts(1, m) != 1
  {
    NoShorterPeriod(m);
    if Shifts(1, m) == 1 {
      ReturnRepeats(m);
    }
  }

  // Two flipped bits ---------------------------------------------------------------------------

  lemma {:induction false} NoWeight(d: seq<bool>)
    requires Weight(d) == 0
    ensures d == Clear(|d|)
  {
    if d != [] {
      NoWeight(d[1..]);
      assert d == [d[0]] + d[1..];
    }
  }

  lemma LastFlip(u: nat, rest: seq<bool>)
    requires u < 0x1_0000 && u != 1 && Weight(rest) == 0
    ensures FeedBits(Shift(Xor(u, 1)), rest) != 0
  {
    var x := Xor(u, 1);
    NoWeight(rest);
    ClearFeed(Shift(x), |rest|);
    XorByteBound(u, 1);
    ShiftBound(x);
    XorIsZero(u, 1);
    if Shifts(Shift(x), |rest|) == 0 {
      ShiftsInjective(Shift(x), |rest|);
      ShiftInjective(x);
    }
  }

  lemma {:induction false} SecondFlip(k: nat, d: seq<bool>)
    requires Weight(d) == 1 && k >= 1 && k + |d| <= PERIOD
    ensures FeedBits(Shifts(1, k), d) != 0
    decreases d
  {
    var u := Shifts(1, k);
    ShiftsBound(1, k);
    if d[0] {
      OrderOfShift(k);
      LastFlip(u, d[1..]);
    } else {
      XorZero(u);
      ShiftsAdd(1, k, 1);
      assert Shifts(u, 1) == Shift(u);
      SecondFlip(k + 1, d[1..]);
    }
  }

  /** Two flipped bits among the first 32767 leave a nonzero register. */
  lemma {:induction false} FirstFlip(d: seq<bool>)
    requires Weight(d) == 2 && |d| <= PERIOD
    ensures FeedBits(0, d) != 0
    decreases d
  {
    XorZero(Digit(d[0]));
    if d[0] {
      assert Shifts(1, 1) == Shift(1);
      SecondFlip(1, d[1..]);
    } else {
      FirstFlip(d[1..]);
    }
  }

  lemma {:induction false} WeightZeroIsSame(f: seq<byte>, g: seq<byte>)
    requires |f| == |g| && Weight(Corruption(f, g)) == 0
    ensures f == g
  {
    var d := Corruption(f, g);
    NoWeight(d);
    forall i | 0 <= i < |d|
      ensures BitString(f)[i] == BitString(g)[i]
    {
      assert !d[i];
    }
    SameBits(f, g);
  }

  lemma EvenFlips(d: seq<bool>)
    requires FeedBits(0, d) == 0
    ensures Weight(d) % 2 == 0
  {
    FeedOdd(0, d);
  }

  lemma FewFlips(d: seq<bool>)
    requires FeedBits(0, d) == 0 && |d| <= PERIOD && Weight(d) < 4
    ensures Weight(d) == 0
  {
    EvenFlips(d);
    if Weight(d) == 2 {
      FirstFlip(d);
    }
  }

  /** Two different valid frames of one length up to 4095 bytes differ in at least four
      bits: every one, two or three flipped bits are detected. */
  lemma DistanceFour(f: seq<byte>, g: seq<byte>)
    requires |f| == |g| && ValidCRC(f) && ValidCRC(g) && f != g
    requires 8 * |f| <= PERIOD
    ensures Weight(Corruption(f, g)) >= 4
  {
    CorruptionTheorem(f, g);
    if Weight(Corruption(f, g)) < 4 {
      FewFlips(Corruption(f, g));
      WeightZeroIsSame(f, g);
    }
  }

  // The limit of 32767 bits is exact ----------------------------------------------------------

  lemma SmallHasNoTop(n: nat)
    requires n < 0x8000
    ensures !Bit(n, TOP)
  {
    SmallPowers();
    NoBit(n, TOP);
  }

  lemma {:induction false} NoBit(n: nat, k: nat)
    requires n < Pow2(k)
    ensures !Bit(n, k)
    decreases k
  {
    if k != 0 {
      NoBit(n / 2, k - 1);
    }
  }

  lemma PolynomialTop()
    ensures Bit(POLYNOMIAL, TOP)
  {
    XorPow2(0x2001, 15);
    SmallPowers();
    BitXor(0x2001, 0x8000, TOP);
    SmallHasNoTop(0x2001);
    BitPow2(15, TOP);
  }

  /** The bit shifted out at the bottom comes in at the top. */
  lemma TopOfShift(r: nat)
    requires r < 0x1_0000
    ensures Bit(Shift(r), TOP) == (r % 2 == 1)
  {
    SmallHasNoTop(r / 2);
    PolynomialTop();
    BitXor(r / 2, POLYNOMIAL, TOP);
  }

  /** A register whose top bit stays clear is empty. */
  lemma {:induction false} Observe(v: nat, k: nat)
    requires k <= 16 && v < Pow2(k) && v < 0x1_0000
    requires forall n | 1 <= n <= k :: !Bit(Shifts(v, n), TOP)
    ensures v == 0
    decreases k
  {
    if k != 0 {
      assert Shifts(v, 1) == Shift(v);
      TopOfShift(v);
      forall n | 1 <= n <= k - 1
        ensures !Bit(Shifts(v / 2, n), TOP)
      {
        assert Shifts(v, n + 1) == Shifts(v / 2, n);
      }
      Observe(v / 2, k - 1);
    }
  }

  lemma {:induction false} ShiftsOdd(r: nat, n: nat)
    ensures Odd(Shifts(r, n)) == Odd(r)
    decreases n
  {
    if n != 0 {
      ShiftOdd(r);
      ShiftsOdd(Shift(r), n - 1);
    }
  }

  /** The top bits as running sums of the sequence. */
  function Sum(n: nat): bool {
    if n == 0 then true else Sum(n - 1) != B(n - 1)
  }

  lemma {:induction false} TopIsSum(n: nat)
    ensures Top(n) == Sum(n)
  {
    if n == 0 {
      TopStart(n);
    } else {
      TopIsSum(n - 1);
      TopChanges(n - 1);
    }
  }

  /** After a period of the sequence the sums agree throughout or differ throughout. */
  lemma {:induction false} SumsAfter(p: nat, n: nat)
    requires Repeats(p)
    ensures (Sum(n + p) != Sum(n)) == (Sum(p) != Sum(0))
    decreases n
  {
    if n != 0 {
      SumsAfter(p, n - 1);
      assert Same(p, n - 1);
    }
  }

  /** The register pattern that a step leaves alone. */
  const FIXED: nat := 0xC001

  function Scale(a: nat, k: nat): nat {
    if k == 0 then a else 2 * Scale(a, k - 1)
  }

  lemma {:induction false} XorScale(a: nat, b: nat, k: nat)
    ensures Xor(Scale(a, k), Scale(b, k)) == Scale(Xor(a, b), k)
  {
    if k != 0 {
      XorEven(Scale(a, k), Scale(b, k - 1));
      XorScale(a, b, k - 1);
    }
  }

  lemma ScaleFacts()
    ensures Scale(5, 12) == 0x5000 && Scale(3, 12) == 0x3000 && Scale(6, 12) == 0x6000
  {
  }

  lemma SmallXor()
    ensures Xor(5, 3) == 6
  {
  }

  lemma FixedStep()
    ensures Shift(FIXED) == FIXED
  {
    ScaleFacts();
    SmallXor();
    XorScale(5, 3, 12);
    XorEven(POLYNOMIAL, 0x3000);
    XorComm(0x6000, POLYNOMIAL);
  }

  lemma FixedFacts()
    ensures Shift(FIXED) == FIXED && Bit(FIXED, TOP) && Odd(FIXED)
  {
    FixedStep();
    TopOfShift(FIXED);
    assert Odd(0x1);
    assert !Odd(0x3);
    assert !Odd(0x18);
    assert !Odd(0x180);
    assert !Odd(0x1800);
    assert !Odd(0x6000);
  }

  lemma {:induction false} FixedStays(n: nat)
    ensures Shifts(FIXED, n) == FIXED
  {
    FixedFacts();
    if n != 0 {
      FixedStays(n - 1);
    }
  }

  lemma PowerBound(n: nat)
    ensures Power(n) < 0x1_0000
  {
    SmallPowers();
    ShiftsBound(0x8000, n);
  }

  /** What a period changes in the register. */
  function Change(p: nat): nat {
    Xor(Power(p), Power(0))
  }

  lemma ChangeBound(p: nat)
    ensures Change(p) < 0x1_0000
  {
    PowerBound(p);
    PowerBound(0);
    Pow2Word();
    XorBound(Power(p), Power(0), 16);
  }

  lemma ChangeTop(p: nat, n: nat)
    requires Repeats(p)
    ensures Bit(Shifts(Change(p), n), TOP) == (Sum(p) != Sum(0))
  {
    var a, b := Power(p), Power(0);
    ShiftsLinear(a, b, n);
    ShiftsAdd(Pow2(15), p, n);
    BitXor(Shifts(a, n), Shifts(b, n), TOP);
    assert Shifts(a, n) == Power(n + p) && Shifts(b, n) == Power(n);
    TopIsSum(n + p);
    TopIsSum(n);
    SumsAfter(p, n);
  }

  lemma ChangeIsEven(p: nat)
    ensures !Odd(Change(p))
  {
    ShiftsOdd(Pow2(15), p);
    XorOdd(Power(p), Power(0));
  }

  lemma FixedIsNotChange(p: nat)
    ensures Change(p) != FIXED
  {
    ChangeIsEven(p);
    FixedFacts();
  }

  /** A register whose top bit stays set is FIXED. */
  lemma ObserveFixed(v: nat)
    requires v < 0x1_0000
    requires forall n | 1 <= n <= 16 :: Bit(Shifts(v, n), TOP)
    ensures v == FIXED
  {
    var w := Xor(v, FIXED);
    Pow2Word();
    XorBound(v, FIXED, 16);
    forall n | 1 <= n <= 16
      ensures !Bit(Shifts(w, n), TOP)
    {
      ShiftsLinear(v, FIXED, n);
      FixedStays(n);
      FixedFacts();
      BitXor(Shifts(v, n), FIXED, TOP);
    }
    Observe(w, 16);
    XorIsZero(v, FIXED);
  }

  lemma NoChange(p: nat)
    requires Repeats(p)
    ensures Change(p) == 0
  {
    ChangeBound(p);
    Pow2Word();
    forall n | 1 <= n <= 16
      ensures Bit(Shifts(Change(p), n), TOP) == (Sum(p) != Sum(0))
    {
      ChangeTop(p, n);
    }
    if Sum(p) != Sum(0) {
      ObserveFixed(Change(p));
      FixedIsNotChange(p);
    } else {
      Observe(Change(p), 16);
    }
  }

  /** The converse of ReturnRepeats. */
  lemma RepeatReturns(p: nat)
    requires Repeats(p)
    ensures Shifts(1, p) == 1
  {
    NoChange(p);
    XorIsZero(Power(p), Power(0));
    PowerPast(p);
    PowerPast(0);
    ShiftsAdd(Pow2(15), p, 15);
  }

  /** A single bit comes back to itself after the multiples of 32767 steps, no others. */
  lemma ReturnsIff(m: nat)
    ensures Shifts(1, m) == 1 <==> m % 32767 == 0
  {
    var q, r := m / 32767, m % 32767;
    FullPeriod();
    Multiple(PERIOD, q);
    assert m == q * PERIOD + r;
    if r == 0 {
      RepeatReturns(m);
    } else if Shifts(1, m) == 1 {
      ReturnRepeats(m);
      if q != 0 {
        Difference(m, q * PERIOD);
      }
      NoShorterPeriod(r);
    }
  }

  lemma TwoFlipsReturn(m: nat, rest: nat)
    requires m >= 1
    ensures FeedBits(0, [true] + Clear(m - 1) + [true] + Clear(rest)) == 0 <==> Shifts(1, m) == 1
  {
    var u := Shifts(1, m);
    var front := [true] + Clear(m - 1);
    FeedConcat(0, front + [true], Clear(rest));
    FeedConcat(0, front, [true]);
    FeedConcat(0, [true], Clear(m - 1));
    OneFlip(0);
    OneFlip(u);
    XorZero(1);
    ClearFeed(Shift(1), m - 1);
    var x := Shift(Xor(u, 1));
    ClearFeed(x, rest);
    ShiftsBound(1, m);
    XorByteBound(u, 1);
    ShiftBound(Xor(u, 1));
    XorIsZero(u, 1);
    ShiftsZero(rest);
    if Shifts(x, rest) == 0 {
      ShiftsInjective(x, rest);
      ShiftInjective(Xor(u, 1));
    }
  }

  /** Two flips m places apart, with nothing else, are missed exactly when m is a multiple
      of 32767. */
  lemma TwoFlips(m: nat, rest: nat)
    requires m >= 1
    ensures FeedBits(0, [true] + Clear(m - 1) + [true] + Clear(rest)) == 0 <==> m % 32767 == 0
  {
    ReturnsIff(m);
    TwoFlipsReturn(m, rest);
  }

  lemma OneFlip(r: nat)
    ensures FeedBits(r, [true]) == Shift(Xor(r, 1))
  {
    assert [true][1..] == [];
  }

  /** The first bit of the first byte and the last bit of the last byte. */
  function FarFlips(n: nat): (p: seq<byte>)
    ensures |p| == n + 2
  {
    [1] + Zeros(n) + [0x80]
  }

  lemma {:induction false} ZeroBits(n: nat)
    ensures BitString(Zeros(n)) == Clear(8 * n)
  {
    if n != 0 {
      assert Zeros(n)[1..] == Zeros(n - 1);
      ZeroDigits(8);
      ZeroBits(n - 1);
    }
  }

  lemma {:induction false} PowerDigits(k: nat, n: nat)
    requires k < n
    ensures Digits(Pow2(k), n) == Clear(k) + [true] + Clear(n - k - 1)
  {
    if k == 0 {
      ZeroDigits(n - 1);
    } else {
      PowerDigits(k - 1, n - 1);
    }
  }

  lemma ByteBits(b: byte)
    ensures BitString([b]) == Digits(b, 8)
  {
    assert [b][1..] == [];
  }

  lemma ClearAdd(m: nat, n: nat)
    ensures Clear(m) + Clear(n) == Clear(m + n)
  {
  }

  lemma EndBytes()
    ensures BitString([1]) == [true] + Clear(7)
    ensures BitString([0x80]) == Clear(7) + [true]
  {
    ByteBits(1);
    ByteBits(0x80);
    assert Pow2(0) == 1 && Pow2(7) == 0x80;
    PowerDigits(0, 8);
    PowerDigits(7, 8);
  }

  lemma FarBits(n: nat)
    ensures BitString(FarFlips(n)) == [true] + Clear(8 * n + 14) + [true]
  {
    var one: seq<byte> := [1];
    var last: seq<byte> := [0x80];
    BitStringConcat(one + Zeros(n), last);
    BitStringConcat(one, Zeros(n));
    ZeroBits(n);
    EndBytes();
    ClearAdd(7, 8 * n);
    ClearAdd(8 * n + 7, 7);
    Assoc([true], Clear(7), Clear(8 * n));
    Assoc([true] + Clear(8 * n + 7), Clear(7), [true]);
    Assoc([true], Clear(8 * n + 7), Clear(7));
  }

  lemma FarPatternClears(pattern: seq<byte>)
    requires BitString(pattern) == [true] + Clear(PERIOD - 1) + [true]
    ensures FeedBits(0, BitString(pattern)) == 0
  {
    TwoFlips(PERIOD, 0);
    assert BitString(pattern) + Clear(0) == BitString(pattern);
  }

  lemma TwoFlipsCompanion(f: seq<byte>, n: nat) returns (g: seq<byte>)
    requires ValidCRC(f) && 8 * n + 15 == PERIOD && n + 2 <= |f|
    ensures |g| == |f| && g != f && ValidCRC(g)
    ensures Corruption(f, g) == [true] + Clear(PERIOD - 1) + [true] + Clear(8 * |f| - 1 - PERIOD)
  {
    var pattern := FarFlips(n);
    g := Flipped(f, pattern);
    FarBits(n);
    FarPatternClears(pattern);
    FlippedValidates(f, pattern);
    FlippedCorruption(f, pattern);
    assert Corruption(f, g)[0];
  }

  /** The 4095 bytes of DistanceFour cannot be raised: every longer valid frame has a
      valid companion that differs in two bits only. */
  lemma TwoFlipsMissed(f: seq<byte>) returns (g: seq<byte>)
    requires ValidCRC(f) && 8 * |f| > PERIOD
    ensures |g| == |f| && g != f && ValidCRC(g)
    ensures Corruption(f, g) == [true] + Clear(PERIOD - 1) + [true] + Clear(8 * |f| - 1 - PERIOD)
  {
    g := TwoFlipsCompanion(f, 4094);
  }
}

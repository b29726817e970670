/** The checksum by its textbook definition: long division of polynomials with binary
    coefficients. Nothing here names the register or its constants. */
module CrcDivision {
  import opened Bytes
  import opened Bits
  import opened Crc
  import opened CrcDetection

  /** x^16 + x^15 + x^2 + 1, highest power first. */
  function Generator(): (g: seq<bool>)
    ensures |g| == 17 && g[0]
  {
    [true, true] + Clear(12) + [true, false, true]
  }

  /** Long division leaves no remainder. The bits are coefficients, highest power first. */
  predicate Divisible(d: seq<bool>)
    decreases |d|
  {
    if |d| <= 16 then forall i | 0 <= i < |d| :: !d[i]
    else Divisible(Reduced(d)[1..])
  }

  /** One step of the division: the generator is taken off if its leading power occurs.
      Afterwards it does not. */
  function Reduced(d: seq<bool>): (r: seq<bool>)
    requires |d| >= 17
    ensures |r| == |d| && !r[0]
  {
    if d[0] then Flips(d[..17], Generator()) + d[17..] else d
  }

  /** The first 16 bits are sent inverted into the division. */
  function Inverted(bits: seq<bool>): (d: seq<bool>)
    ensures |d| == |bits|
  {
    seq(|bits|, i requires 0 <= i < |bits| => if i < 16 then !bits[i] else bits[i])
  }

  lemma {:induction false} PackClear(n: nat, rest: seq<bool>)
    ensures Pack(Clear(n) + rest) == Pow2(n) * Pack(rest)
  {
    if n == 0 {
      assert Clear(0) + rest == rest;
    } else {
      assert (Clear(n) + rest)[1..] == Clear(n - 1) + rest;
      PackClear(n - 1, rest);
      DoubleProduct(Pow2(n - 1), Pack(rest));
    }
  }

  lemma PackCons(bit: bool, rest: seq<bool>)
    ensures Pack([bit] + rest) == Digit(bit) + 2 * Pack(rest)
  {
    assert ([bit] + rest)[1..] == rest;
  }

  lemma PackTail(tail: seq<bool>)
    requires tail == [true, false, true]
    ensures Pack(tail) == 5
  {
    PackCons(true, [false, true]);
    PackCons(false, [true]);
    PackCons(true, []);
    assert tail == [true] + [false, true] && [false, true] == [false] + [true] && [true] == [true] + [];
  }

  lemma PackGenerator()
    ensures Pack(Generator()) == 0x1_4003
  {
    var tail := [true, false, true];
    var rest := Clear(12) + tail;
    PackTail(tail);
    PackClear(12, tail);
    assert Pow2(12) == 4096 by {
      assert Pow2(4) == 16 && Pow2(8) == 256;
    }
    PackCons(true, rest);
    PackCons(true, [true] + rest);
    assert Generator() == [true] + ([true] + rest);
  }

  lemma GeneratorFeeds(n: nat)
    ensures FeedBits(0, Generator() + Clear(n)) == 0
  {
    PackGenerator();
    FeedIsShift(0, Generator());
    XorZero(0x1_4003);
    XorIsZero(POLYNOMIAL, POLYNOMIAL);
    assert Shift(0x1_4003) == 0;
    ShiftsZero(16);
    FeedConcat(0, Generator(), Clear(n));
    ClearFeed(0, n);
    ShiftsZero(n);
  }

  lemma FlipNothing(s: seq<bool>)
    ensures Flips(s, Clear(|s|)) == s
  {
  }

  lemma SameFeed(d: seq<bool>, g: seq<bool>)
    requires |d| == |g| && FeedBits(0, g) == 0
    ensures FeedBits(0, Flips(d, g)) == FeedBits(0, d)
  {
    FeedLinear(0, 0, d, g);
    XorZero(0);
    XorZero(FeedBits(0, d));
  }

  /** A step of the division does not change what a cleared register ends at. */
  lemma ReducedFeeds(d: seq<bool>)
    requires |d| >= 17
    ensures FeedBits(0, Reduced(d)) == FeedBits(0, d)
  {
    if d[0] {
      var head, rest := d[..17], d[17..];
      GeneratorFeeds(|rest|);
      FlipsOfConcat(head, rest, Generator(), Clear(|rest|));
      FlipNothing(rest);
      assert d == head + rest;
      SameFeed(head + rest, Generator() + Clear(|rest|));
    }
  }

  lemma LeadingZero(d: seq<bool>)
    requires d != [] && !d[0]
    ensures FeedBits(0, d) == FeedBits(0, d[1..])
  {
    XorZero(0);
  }

  /** A cleared register ends at zero exactly when the generator divides what was fed. */
  lemma {:induction false} ClearsIffDivisible(d: seq<bool>)
    ensures FeedBits(0, d) == 0 <==> Divisible(d)
    decreases |d|
  {
    if |d| > 16 {
      ReducedFeeds(d);
      LeadingZero(Reduced(d));
      ClearsIffDivisible(Reduced(d)[1..]);
    } else if FeedBits(0, d) == 0 {
      ShortPattern(d, 0);
    } else if Divisible(d) {
      assert d == Clear(|d|);
      ClearFeed(0, |d|);
      ShiftsZero(|d|);
      assert false;
    }
  }

  function Ones(n: nat): seq<bool> {
    seq(n, _ => true)
  }

  lemma {:induction false} PackOnes(n: nat)
    ensures Pack(Ones(n)) == Pow2(n) - 1
  {
    if n != 0 {
      assert Ones(n)[1..] == Ones(n - 1);
      PackOnes(n - 1);
    }
  }

  lemma XorCons(a: bool, b: bool, x: nat, y: nat)
    ensures Xor(Digit(a) + 2 * x, Digit(b) + 2 * y) == Digit(a != b) + 2 * Xor(x, y)
  {
    var u, v := Digit(a) + 2 * x, Digit(b) + 2 * y;
    assert u / 2 == x && v / 2 == y;
    XorDigits(u, v);
  }

  lemma {:induction false} PackFlips(s: seq<bool>, t: seq<bool>)
    requires |s| == |t|
    ensures Pack(Flips(s, t)) == Xor(Pack(s), Pack(t))
    decreases s
  {
    if s != [] {
      assert Flips(s, t)[1..] == Flips(s[1..], t[1..]);
      PackFlips(s[1..], t[1..]);
      XorCons(s[0], t[0], Pack(s[1..]), Pack(t[1..]));
    }
  }

  /** Inverting the first word adds all its bits. */
  lemma InvertedWord(word: seq<bool>)
    requires |word| == 16
    ensures FeedBits(INITIAL, word) == FeedBits(0, Flips(Ones(16), word))
  {
    var flipped := Flips(Ones(16), word);
    FeedIsShift(INITIAL, word);
    FeedIsShift(0, flipped);
    PackFlips(Ones(16), word);
    PackOnes(16);
    Pow2Word();
    XorZero(Pack(flipped));
  }

  lemma InvertedFront(word: seq<bool>, rest: seq<bool>)
    requires |word| == 16
    ensures Inverted(word + rest) == Flips(Ones(16), word) + rest
  {
  }

  lemma SameStart(r: nat, q: nat, s: seq<bool>, t: seq<bool>, rest: seq<bool>)
    requires FeedBits(r, s) == FeedBits(q, t)
    ensures FeedBits(r, s + rest) == FeedBits(q, t + rest)
  {
    FeedConcat(r, s, rest);
    FeedConcat(q, t, rest);
  }

  /** Starting from the initial value equals starting from zero with the first word inverted. */
  lemma InitialInverts(bits: seq<bool>)
    requires |bits| >= 16
    ensures FeedBits(INITIAL, bits) == FeedBits(0, Inverted(bits))
  {
    var word, rest := bits[..16], bits[16..];
    assert bits == word + rest;
    InvertedWord(word);
    SameStart(INITIAL, 0, word, Flips(Ones(16), word), rest);
    InvertedFront(word, rest);
  }

  /** A frame is valid exactly when it has a checksum and, with its first 16 bits inverted
      and every byte read from its lowest bit, the generator divides it. */
  lemma ValidIffDivisible(frame: seq<byte>)
    ensures ValidCRC(frame) <==> |frame| >= 2 && Divisible(Inverted(BitString(frame)))
  {
    if |frame| >= 2 {
      ResidueTheorem(frame);
      RegisterIsBitSerial(INITIAL, frame);
      InitialInverts(BitString(frame));
      ClearsIffDivisible(Inverted(BitString(frame)));
    }
  }

  /** The n-th bit sent is digit n % 8 of byte n / 8. */
  lemma {:induction false} BitSent(frame: seq<byte>, n: nat)
    requires n < 8 * |frame|
    ensures BitString(frame)[n] <==> frame[n / 8] / Pow2(n % 8) % 2 == 1
    decreases frame
  {
    if n < 8 {
      DigitAt(frame[0], 8, n);
    } else {
      BitSent(frame[1..], n - 8);
      assert BitString(frame)[n] == BitString(frame[1..])[n - 8];
      assert frame[1..][(n - 8) / 8] == frame[n / 8];
    }
  }

  lemma {:induction false} DigitAt(v: nat, width: nat, n: nat)
    requires n < width
    ensures Digits(v, width)[n] <==> v / Pow2(n) % 2 == 1
    decreases n
  {
    if n > 0 {
      DigitAt(v / 2, width - 1, n - 1);
      assert Digits(v, width)[n] == Digits(v / 2, width - 1)[n - 1];
      Quotients(v, Pow2(n - 1));
    }
  }
}

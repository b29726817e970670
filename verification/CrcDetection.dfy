/** What the RTU checksum detects. The register is linear over exclusive or, so
    whether a corrupted frame still validates depends only on the flipped bits. */
module CrcDetection {
  import opened Bytes
  import opened Bits
  import opened Crc

  function Digit(bit: bool): nat {
    if bit then 1 else 0
  }

  /** The low n binary digits of v, least significant first. */
  function Digits(v: nat, n: nat): (bits: seq<bool>)
    ensures |bits| == n
  {
    if n == 0 then [] else [v % 2 == 1] + Digits(v / 2, n - 1)
  }

  function Pack(bits: seq<bool>): nat {
    if bits == [] then 0 else Digit(bits[0]) + 2 * Pack(bits[1..])
  }

  /** A byte string in transmission order, each byte least significant bit first. */
  function BitString(data: seq<byte>): (bits: seq<bool>)
    ensures |bits| == 8 * |data|
  {
    if data == [] then [] else Digits(data[0], 8) + BitString(data[1..])
  }

  /** The register fed one bit at a time. */
  function FeedBits(r: nat, bits: seq<bool>): nat
    decreases bits, r
  {
    if bits == [] then r else FeedBits(Shift(Xor(r, Digit(bits[0]))), bits[1..])
  }

  function Flips(s: seq<bool>, t: seq<bool>): (d: seq<bool>)
    requires |s| == |t|
    ensures |d| == |s|
    ensures forall i | 0 <= i < |d| :: d[i] == (s[i] != t[i])
  {
    seq(|s|, i requires 0 <= i < |s| => s[i] != t[i])
  }

  function Weight(bits: seq<bool>): nat {
    if bits == [] then 0 else Digit(bits[0]) + Weight(bits[1..])
  }

  /** The bits in which two frames of one length differ. */
  function Corruption(f: seq<byte>, g: seq<byte>): seq<bool>
    requires |f| == |g|
  {
    Flips(BitString(f), BitString(g))
  }

  /** Only bits k to k + width - 1 may be set. */
  predicate Confined(d: seq<bool>, k: nat, width: nat) {
    forall i | 0 <= i < |d| && !(k <= i < k + width) :: !d[i]
  }

  function Clear(n: nat): seq<bool> {
    seq(n, _ => false)
  }

  // Linearity ---------------------------------------------------------------

  lemma ShiftLinear(a: nat, b: nat)
    ensures Shift(Xor(a, b)) == Xor(Shift(a), Shift(b))
  {
    var p := POLYNOMIAL;
    var x, y := a / 2, b / 2;
    XorDigits(a, b);
    XorAssoc(x, y, p);
    XorAssoc(x, p, y);
    XorComm(y, p);
    XorAssoc(Xor(x, p), y, p);
    XorSwap(x, p, y, p);
    XorIsZero(p, p);
    XorZero(Xor(x, y));
  }

  lemma DigitFlip(a: bool, b: bool)
    ensures Xor(Digit(a), Digit(b)) == Digit(a != b)
  {
    XorZero(Digit(a));
    XorZero(Digit(b));
    XorIsZero(1, 1);
  }

  lemma {:induction false} FeedLinear(a: nat, b: nat, s: seq<bool>, t: seq<bool>)
    requires |s| == |t|
    ensures FeedBits(Xor(a, b), Flips(s, t)) == Xor(FeedBits(a, s), FeedBits(b, t))
    decreases s
  {
    if s != [] {
      var da, db := Digit(s[0]), Digit(t[0]);
      XorSwap(a, b, da, db);
      DigitFlip(s[0], t[0]);
      ShiftLinear(Xor(a, da), Xor(b, db));
      assert Flips(s, t)[1..] == Flips(s[1..], t[1..]);
      FeedLinear(Shift(Xor(a, da)), Shift(Xor(b, db)), s[1..], t[1..]);
    }
  }

  // Feeding bytes, words and runs of zeros -----------------------------------

  lemma AppendDigit(d: nat, p: nat)
    requires d < 2
    ensures Xor(d, 2 * p) == d + 2 * p
  {
    XorZero(p);
  }

  lemma ShiftEven(p: nat)
    ensures Shift(2 * p) == p
  {
  }

  lemma ShiftSplit(r: nat, d: nat, p: nat)
    requires d < 2
    ensures Shift(Xor(r, d + 2 * p)) == Xor(Shift(Xor(r, d)), p)
  {
    var q, x := 2 * p, Xor(r, d);
    AppendDigit(d, p);
    ShiftEven(p);
    XorAssoc(r, d, q);
    ShiftLinear(x, q);
  }

  /** Feeding bits one by one equals adding them all first and shifting afterwards. */
  lemma {:induction false} FeedIsShift(r: nat, bits: seq<bool>)
    ensures FeedBits(r, bits) == Shifts(Xor(r, Pack(bits)), |bits|)
    decreases bits
  {
    if bits == [] {
      XorZero(r);
    } else {
      ShiftSplit(r, Digit(bits[0]), Pack(bits[1..]));
      FeedIsShift(Shift(Xor(r, Digit(bits[0]))), bits[1..]);
    }
  }

  lemma {:induction false} PackDigits(v: nat, n: nat)
    requires v < Pow2(n)
    ensures Pack(Digits(v, n)) == v
  {
    if n != 0 {
      PackDigits(v / 2, n - 1);
      assert Digits(v, n)[1..] == Digits(v / 2, n - 1);
    }
  }

  lemma {:induction false} PackBound(bits: seq<bool>)
    ensures Pack(bits) < Pow2(|bits|)
  {
    if bits != [] {
      PackBound(bits[1..]);
    }
  }

  lemma {:induction false} PackZero(bits: seq<bool>)
    requires Pack(bits) == 0
    ensures forall i | 0 <= i < |bits| :: !bits[i]
  {
    if bits != [] {
      PackZero(bits[1..]);
      forall i | 0 <= i < |bits| ensures !bits[i] {
        if i > 0 {
          assert bits[i] == bits[1..][i - 1];
        }
      }
    }
  }

  lemma {:induction false} FeedConcat(r: nat, s: seq<bool>, t: seq<bool>)
    ensures FeedBits(r, s + t) == FeedBits(FeedBits(r, s), t)
    decreases s
  {
    if s == [] {
      assert s + t == t;
    } else {
      assert (s + t)[1..] == s[1..] + t;
      FeedConcat(Shift(Xor(r, Digit(s[0]))), s[1..], t);
    }
  }

  /** The byte-wise loop and the bit-serial register agree. */
  lemma {:induction false} RegisterIsBitSerial(r: nat, data: seq<byte>)
    ensures Register(r, data) == FeedBits(r, BitString(data))
    decreases data
  {
    if data != [] {
      var bits := Digits(data[0], 8);
      assert Pow2(8) == 0x100;
      PackDigits(data[0], 8);
      FeedIsShift(r, bits);
      FeedConcat(r, bits, BitString(data[1..]));
      RegisterIsBitSerial(FeedByte(r, data[0]), data[1..]);
    }
  }

  lemma {:induction false} ClearFeed(r: nat, n: nat)
    ensures FeedBits(r, Clear(n)) == Shifts(r, n)
    decreases n
  {
    if n != 0 {
      XorZero(r);
      assert Clear(n)[1..] == Clear(n - 1);
      ClearFeed(Shift(r), n - 1);
    }
  }

  // The register step is injective on 16-bit words ---------------------------

  lemma ShiftInjective(r: nat)
    requires r < 0x1_0000 && Shift(r) == 0
    ensures r == 0
  {
    if r % 2 == 1 {
      XorIsZero(r / 2, POLYNOMIAL);
      assert false;
    }
  }

  lemma {:induction false} ShiftsZero(n: nat)
    ensures Shifts(0, n) == 0
  {
    if n != 0 {
      ShiftsZero(n - 1);
    }
  }

  lemma {:induction false} ShiftsInjective(r: nat, n: nat)
    requires r < 0x1_0000 && Shifts(r, n) == 0
    ensures r == 0
    decreases n
  {
    if n != 0 {
      ShiftBound(r);
      ShiftsInjective(Shift(r), n - 1);
      ShiftInjective(r);
    }
  }

  // The residue --------------------------------------------------------------

  lemma {:induction false} PackPrefix(v: nat, n: nat, rest: seq<bool>)
    requires v < Pow2(n)
    ensures Pack(Digits(v, n) + rest) == v + Pow2(n) * Pack(rest)
  {
    if n == 0 {
      assert Digits(v, n) + rest == rest;
    } else {
      assert (Digits(v, n) + rest)[1..] == Digits(v / 2, n - 1) + rest;
      PackPrefix(v / 2, n - 1, rest);
      DoubleProduct(Pow2(n - 1), Pack(rest));
    }
  }

  lemma DoubleProduct(a: nat, b: nat)
    ensures 2 * a * b == 2 * (a * b)
  {
  }

  lemma PackWord(word: seq<byte>)
    requires |word| == 2
    ensures Pack(BitString(word)) == FromLE16(word)
  {
    assert Pow2(8) == 0x100;
    assert BitString(word) == Digits(word[0], 8) + BitString(word[1..]);
    assert BitString(word[1..]) == Digits(word[1], 8) + BitString(word[1..][1..]);
    assert word[1..][1..] == [];
    PackPrefix(word[1], 8, []);
    PackPrefix(word[0], 8, BitString(word[1..]));
  }

  /** A cancelled register is the only one that runs to zero. */
  lemma CancelledWord(c: uint16, w: uint16, n: nat)
    ensures Shifts(Xor(c, w), n) == 0 <==> c == w
  {
    XorIsZero(c, w);
    if c == w {
      ShiftsZero(n);
    } else if Shifts(Xor(c, w), n) == 0 {
      Pow2Word();
      XorBound(c, w, 16);
      ShiftsInjective(Xor(c, w), n);
    }
  }

  lemma WordValue(c: uint16, word: seq<byte>)
    requires |word| == 2
    ensures FromLE16(word) == c <==> word == LE16(c)
  {
    assert word == [word[0], word[1]];
  }

  lemma FeedWord(c: uint16, word: seq<byte>)
    requires |word| == 2
    ensures Register(c, word) == Shifts(Xor(c, FromLE16(word)), 16)
  {
    RegisterIsBitSerial(c, word);
    PackWord(word);
    FeedIsShift(c, BitString(word));
  }

  /** A frame validates exactly when the register, run over all of it with the
      checksum included, ends at zero. */
  lemma ResidueTheorem(frame: seq<byte>)
    ensures ValidCRC(frame) <==> Register(INITIAL, frame) == 0
  {
    if |frame| < 2 {
      if frame != [] {
        var r := Xor(INITIAL, frame[0]);
        XorByteBound(INITIAL, frame[0]);
        XorIsZero(INITIAL, frame[0]);
        assert frame[1..] == [];
        if Shifts(r, 8) == 0 {
          ShiftsInjective(r, 8);
        }
      }
    } else {
      var n := |frame| - 2;
      assert frame == frame[..n] + frame[n..];
      RegisterBound(INITIAL, frame[..n]);
      RegisterConcat(INITIAL, frame[..n], frame[n..]);
      var c, word := Checksum(frame[..n]), frame[n..];
      FeedWord(c, word);
      CancelledWord(c, FromLE16(word), 16);
      WordValue(c, word);
    }
  }

  /** WithCRC(payload) is the only two-byte extension that validates. */
  lemma UniqueExtension(payload: seq<byte>, tail: seq<byte>)
    requires |tail| == 2
    ensures ValidCRC(payload + tail) <==> payload + tail == WithCRC(payload)
  {
    assert (payload + tail)[..|payload|] == payload;
  }

  // Detection ----------------------------------------------------------------

  /** Whether a corrupted copy of a valid frame validates depends on the flipped
      bits alone: it does exactly when they drive a cleared register back to zero. */
  lemma CorruptionTheorem(f: seq<byte>, g: seq<byte>)
    requires |f| == |g| && ValidCRC(f)
    ensures ValidCRC(g) <==> FeedBits(0, Corruption(f, g)) == 0
  {
    ResidueTheorem(f);
    ResidueTheorem(g);
    RegisterIsBitSerial(INITIAL, f);
    RegisterIsBitSerial(INITIAL, g);
    FeedLinear(INITIAL, INITIAL, BitString(f), BitString(g));
    XorIsZero(INITIAL, INITIAL);
    XorZero(Register(INITIAL, g));
  }

  lemma {:induction false} DigitsInjective(a: nat, b: nat, n: nat)
    requires a < Pow2(n) && b < Pow2(n) && Digits(a, n) == Digits(b, n)
    ensures a == b
  {
    PackDigits(a, n);
    PackDigits(b, n);
  }

  lemma {:induction false} SameBits(f: seq<byte>, g: seq<byte>)
    requires BitString(f) == BitString(g)
    ensures f == g
  {
    if f != [] {
      var s, t := BitString(f), BitString(g);
      assert s[..8] == Digits(f[0], 8) && t[..8] == Digits(g[0], 8);
      assert s[8..] == BitString(f[1..]) && t[8..] == BitString(g[1..]);
      assert Pow2(8) == 0x100;
      DigitsInjective(f[0], g[0], 8);
      SameBits(f[1..], g[1..]);
      assert f == [f[0]] + f[1..] && g == [g[0]] + g[1..];
    }
  }

  /** At most 16 flips in a row, with nothing before them, leave a nonzero register. */
  lemma LeadingPattern(w: seq<bool>, n: nat)
    requires |w| <= 16 && FeedBits(0, w + Clear(n)) == 0
    ensures forall i | 0 <= i < |w| :: !w[i]
  {
    FeedConcat(0, w, Clear(n));
    ClearFeed(FeedBits(0, w), n);
    FeedIsShift(0, w);
    XorZero(Pack(w));
    WordPack(w);
    ShiftsBound(Pack(w), |w|);
    ShiftsInjective(FeedBits(0, w), n);
    ShiftsInjective(Pack(w), |w|);
    PackZero(w);
  }

  lemma Sandwich(d: seq<bool>, k: nat, e: nat)
    requires k <= e <= |d|
    requires forall i | 0 <= i < |d| && !(k <= i < e) :: !d[i]
    ensures d == Clear(k) + (d[k..e] + Clear(|d| - e))
  {
  }

  lemma SkipClear(n: nat, rest: seq<bool>)
    ensures FeedBits(0, Clear(n) + rest) == FeedBits(0, rest)
  {
    FeedConcat(0, Clear(n), rest);
    ClearFeed(0, n);
    ShiftsZero(n);
  }

  /** A pattern of flips confined to 16 consecutive bits clears the register only
      when it is empty. */
  lemma ShortPattern(d: seq<bool>, k: nat)
    requires FeedBits(0, d) == 0 && Confined(d, k, 16)
    ensures forall i | 0 <= i < |d| :: !d[i]
  {
    if k < |d| {
      var e := if k + 16 < |d| then k + 16 else |d|;
      var w := d[k..e];
      Sandwich(d, k, e);
      SkipClear(k, w + Clear(|d| - e));
      LeadingPattern(w, |d| - e);
      assert forall i | k <= i < e :: d[i] == w[i - k];
    }
  }

  lemma WordPack(w: seq<bool>)
    requires |w| <= 16
    ensures Pack(w) < 0x1_0000
  {
    PackBound(w);
    Pow2Word();
    Pow2Monotone(|w|, 16);
  }

  lemma {:induction false} Pow2Monotone(m: nat, n: nat)
    requires m <= n
    ensures Pow2(m) <= Pow2(n)
    decreases n
  {
    if m < n {
      Pow2Monotone(m, n - 1);
    }
  }

  /** Burst detection: two valid frames of one length that differ only inside some
      window of 16 consecutive bits are the same frame. */
  lemma BurstDetected(f: seq<byte>, g: seq<byte>, k: nat)
    requires |f| == |g| && ValidCRC(f) && ValidCRC(g)
    requires Confined(Corruption(f, g), k, 16)
    ensures f == g
  {
    CorruptionTheorem(f, g);
    ShortPattern(Corruption(f, g), k);
    assert forall i | 0 <= i < 8 * |f| :: Corruption(f, g)[i] == (BitString(f)[i] != BitString(g)[i]);
    SameBits(f, g);
  }

  // Parity -------------------------------------------------------------------

  lemma ShiftOdd(r: nat)
    ensures Odd(Shift(r)) == Odd(r)
  {
    assert Odd(POLYNOMIAL) by {
      assert Odd(0xA0) == false;
      assert Odd(0xA00) == false;
    }
    XorOdd(r / 2, POLYNOMIAL);
  }

  lemma {:induction false} FeedOdd(r: nat, bits: seq<bool>)
    ensures Odd(FeedBits(r, bits)) == (Odd(r) != (Weight(bits) % 2 == 1))
    decreases bits
  {
    if bits != [] {
      var x := Xor(r, Digit(bits[0]));
      XorOdd(r, Digit(bits[0]));
      ShiftOdd(x);
      FeedOdd(Shift(x), bits[1..]);
    }
  }

  /** The parity of the register changes only by the parity of the bytes fed in. */
  lemma RegisterParity(r: nat, data: seq<byte>)
    ensures Odd(Register(r, data)) == (Odd(r) != (Weight(BitString(data)) % 2 == 1))
  {
    RegisterIsBitSerial(r, data);
    FeedOdd(r, BitString(data));
  }

  /** Every valid frame has an even number of one bits. */
  lemma ValidFrameHasEvenWeight(frame: seq<byte>)
    requires ValidCRC(frame)
    ensures Weight(BitString(frame)) % 2 == 0
  {
    ResidueTheorem(frame);
    RegisterParity(INITIAL, frame);
    OddInitial();
  }

  lemma OddInitial()
    ensures !Odd(INITIAL)
  {
    assert !Odd(0xFF);
    assert !Odd(0xFFF);
  }

  /** Every corruption that flips an odd number of bits is rejected, at any length. */
  lemma OddCorruptionDetected(f: seq<byte>, g: seq<byte>)
    requires |f| == |g| && ValidCRC(f)
    requires Weight(Corruption(f, g)) % 2 == 1
    ensures !ValidCRC(g)
  {
    CorruptionTheorem(f, g);
    FeedOdd(0, Corruption(f, g));
  }

  // The burst bound is tight --------------------------------------------------

  lemma {:induction false} DigitsOfXor(a: nat, b: nat, n: nat)
    ensures Digits(Xor(a, b), n) == Flips(Digits(a, n), Digits(b, n))
  {
    if n != 0 {
      XorDigits(a, b);
      DigitsOfXor(a / 2, b / 2, n - 1);
    }
  }

  /** The generator pattern: bits 0, 1, 14 and 16. */
  const GENERATOR: seq<byte> := [0x03, 0x40, 0x01]

  lemma GeneratorPack()
    ensures Pack(BitString(GENERATOR)) == 0x1_4003
  {
    var word := [0x40, 0x01];
    assert GENERATOR[1..] == word;
    assert Pow2(8) == 0x100;
    PackWord(word);
    PackPrefix(0x03, 8, BitString(word));
  }

  lemma GeneratorClears()
    ensures FeedBits(0, BitString(GENERATOR)) == 0
  {
    GeneratorPack();
    FeedIsShift(0, BitString(GENERATOR));
    XorZero(0x1_4003);
    XorIsZero(POLYNOMIAL, POLYNOMIAL);
    assert Shift(0x1_4003) == 0;
    ShiftsZero(23);
  }

  lemma {:induction false} FlipsOfConcat(s: seq<bool>, t: seq<bool>, u: seq<bool>, v: seq<bool>)
    requires |s| == |u| && |t| == |v|
    ensures Flips(s + t, u + v) == Flips(s, u) + Flips(t, v)
  {
  }

  function XorBytes(s: seq<byte>, t: seq<byte>): (u: seq<byte>)
    requires |s| == |t|
    ensures |u| == |s|
  {
    if s == [] then []
    else
      assert Xor(s[0], t[0]) < 0x100 by { ByteXor(s[0], t[0]); }
      [Xor(s[0], t[0])] + XorBytes(s[1..], t[1..])
  }

  lemma ByteXor(a: byte, b: byte)
    ensures Xor(a, b) < 0x100
  {
    assert Pow2(8) == 0x100;
    XorBound(a, b, 8);
  }

  lemma {:induction false} BitStringOfXor(s: seq<byte>, t: seq<byte>)
    requires |s| == |t|
    ensures BitString(XorBytes(s, t)) == Flips(BitString(s), BitString(t))
  {
    if s != [] {
      DigitsOfXor(s[0], t[0], 8);
      BitStringOfXor(s[1..], t[1..]);
      FlipsOfConcat(Digits(s[0], 8), BitString(s[1..]), Digits(t[0], 8), BitString(t[1..]));
    }
  }

  lemma {:induction false} BitStringConcat(s: seq<byte>, t: seq<byte>)
    ensures BitString(s + t) == BitString(s) + BitString(t)
  {
    if s == [] {
      assert s + t == t;
    } else {
      assert (s + t)[1..] == s[1..] + t;
      BitStringConcat(s[1..], t);
    }
  }

  lemma {:induction false} FlipsOfFlips(s: seq<bool>, t: seq<bool>)
    requires |s| == |t|
    ensures Flips(s, Flips(s, t)) == t
  {
  }

  /** A frame with the one bits of a pattern flipped at its front. */
  function Flipped(f: seq<byte>, pattern: seq<byte>): (g: seq<byte>)
    requires |pattern| <= |f|
    ensures |g| == |f|
  {
    XorBytes(f[..|pattern|], pattern) + f[|pattern|..]
  }

  lemma CorruptionConcat(a: seq<byte>, b: seq<byte>, c: seq<byte>, d: seq<byte>)
    requires |a| == |c| && |b| == |d|
    ensures Corruption(a + b, c + d) == Corruption(a, c) + Corruption(b, d)
  {
    BitStringConcat(a, b);
    BitStringConcat(c, d);
    FlipsOfConcat(BitString(a), BitString(b), BitString(c), BitString(d));
  }

  lemma XorCorruption(f: seq<byte>, pattern: seq<byte>)
    requires |pattern| == |f|
    ensures Corruption(f, XorBytes(f, pattern)) == BitString(pattern)
  {
    BitStringOfXor(f, pattern);
    FlipsOfFlips(BitString(f), BitString(pattern));
  }

  lemma NoCorruption(f: seq<byte>)
    ensures Corruption(f, f) == Clear(8 * |f|)
  {
  }

  lemma FlippedCorruption(f: seq<byte>, pattern: seq<byte>)
    requires |pattern| <= |f|
    ensures Corruption(f, Flipped(f, pattern)) == BitString(pattern) + Clear(8 * (|f| - |pattern|))
  {
    var head, rest := f[..|pattern|], f[|pattern|..];
    assert f == head + rest;
    CorruptionConcat(head, rest, XorBytes(head, pattern), rest);
    XorCorruption(head, pattern);
    NoCorruption(rest);
  }

  /** Flipping a pattern that clears the register turns a valid frame into a valid one. */
  lemma FlippedValidates(f: seq<byte>, pattern: seq<byte>)
    requires |pattern| <= |f| && ValidCRC(f) && FeedBits(0, BitString(pattern)) == 0
    ensures ValidCRC(Flipped(f, pattern))
  {
    var n := 8 * (|f| - |pattern|);
    FlippedCorruption(f, pattern);
    FeedConcat(0, BitString(pattern), Clear(n));
    ClearFeed(0, n);
    ShiftsZero(n);
    CorruptionTheorem(f, Flipped(f, pattern));
  }

  /** The 16-bit bound of BurstDetected cannot be raised: every valid frame of three
      bytes or more has a different valid frame of its length that agrees with it
      outside the first 17 bits. */
  lemma SeventeenBitBurstMissed(f: seq<byte>) returns (g: seq<byte>)
    requires ValidCRC(f) && |f| >= 3
    ensures |g| == |f| && g != f && ValidCRC(g)
    ensures Confined(Corruption(f, g), 0, 17)
  {
    g := Flipped(f, GENERATOR);
    GeneratorClears();
    FlippedValidates(f, GENERATOR);
    FlippedCorruption(f, GENERATOR);
    GeneratorBits();
    assert Corruption(f, g)[0];
  }

  lemma GeneratorBits()
    ensures BitString(GENERATOR)[0]
    ensures forall i | 17 <= i < 24 :: !BitString(GENERATOR)[i]
  {
    ZeroDigits(7);
    BitStringConcat([0x03, 0x40], [0x01]);
    BitStringConcat([0x03], [0x40]);
    assert GENERATOR == [0x03, 0x40] + [0x01] && [0x03, 0x40] == [0x03] + [0x40];
    SingleByte(0x03);
    SingleByte(0x01);
  }

  lemma SingleByte(b: byte)
    ensures BitString([b]) == [b % 2 == 1] + Digits(b / 2, 7)
  {
    assert [b][1..] == [];
  }

  lemma {:induction false} ZeroDigits(n: nat)
    ensures Digits(0, n) == Clear(n)
  {
    if n != 0 {
      ZeroDigits(n - 1);
    }
  }
}

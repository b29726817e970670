/** Hexadecimal text of RTU frames (internal/modbus/rtu.go). */
module Hex {
  import opened Bytes

  datatype Error = OddLength | InvalidDigit

  function UpperDigit(n: nat): char
    requires n < 16
  {
    if n < 10 then '0' + n as char else 'A' + (n - 10) as char
  }

  function LowerDigit(n: nat): char
    requires n < 16
  {
    if n < 10 then '0' + n as char else 'a' + (n - 10) as char
  }

  function DigitValue(c: char): Option<nat> {
    if '0' <= c <= '9' then Some((c - '0') as nat)
    else if 'a' <= c <= 'f' then Some((c - 'a') as nat + 10)
    else if 'A' <= c <= 'F' then Some((c - 'A') as nat + 10)
    else None
  }

  function ToUpper(c: char): char {
    if 'a' <= c <= 'f' then 'A' + (c - 'a') else c
  }

  function Upper(s: string): (t: string)
    ensures |t| == |s|
  {
    if s == "" then "" else Upper(s[..|s| - 1]) + [ToUpper(s[|s| - 1])]
  }

  function Lowercase(data: seq<byte>): (s: string)
    ensures |s| == 2 * |data|
  {
    if data == [] then ""
    else
      var last := data[|data| - 1];
      Lowercase(data[..|data| - 1]) + [LowerDigit(last / 16), LowerDigit(last % 16)]
  }

  function Encode(data: seq<byte>): (s: string)
    ensures |s| == 2 * |data|
  {
    if data == [] then ""
    else
      var last := data[|data| - 1];
      Encode(data[..|data| - 1]) + [UpperDigit(last / 16), UpperDigit(last % 16)]
  }

  function Decode(s: string): Result<seq<byte>, Error> {
    if |s| % 2 != 0 then Err(OddLength)
    else if s == "" then Ok([])
    else
      var n := |s| - 2;
      Extend(Decode(s[..n]), DigitValue(s[n]), DigitValue(s[n + 1]))
  }

  function Extend(front: Result<seq<byte>, Error>, hi: Option<nat>, lo: Option<nat>): Result<seq<byte>, Error> {
    if front.Ok? && hi.Some? && lo.Some? then Ok(front.value + [Low(16 * hi.value + lo.value)]) else Err(InvalidDigit)
  }

  /** The digits as the library writes them, in lower case. */
  method LowercaseDigits(data: seq<byte>) returns (result: array<char>)
    ensures fresh(result) && result[..] == Lowercase(data)
  {
    result := new char[2 * |data|];
    for i := 0 to |data|
      invariant result[..2 * i] == Lowercase(data[..i])
    {
      result[2 * i] := LowerDigit(data[i] / 16);
      result[2 * i + 1] := LowerDigit(data[i] % 16);
      assert data[..i + 1][..i] == data[..i];
      assert result[..2 * (i + 1)] == result[..2 * i] + [LowerDigit(data[i] / 16), LowerDigit(data[i] % 16)];
    }
    assert data[..|data|] == data;
  }

  /** The letters are raised in place. */
  method RaiseLetters(result: array<char>)
    requires forall k | 0 <= k < result.Length :: result[k] <= 'f'
    modifies result
    ensures result[..] == Upper(old(result[..]))
  {
    ghost var lower := result[..];
    for index := 0 to result.Length
      invariant forall k | 0 <= k < index :: result[k] == ToUpper(lower[k])
      invariant forall k | index <= k < result.Length :: result[k] == lower[k]
    {
      var value := result[index];
      if 'a' <= value <= 'f' {
        result[index] := value - ('a' - 'A');
      }
    }
    UpperAt(lower, result[..]);
  }

  method EncodeHex(data: seq<byte>) returns (s: string)
    ensures s == Encode(data)
  {
    var result := LowercaseDigits(data);
    LowercaseLetters(data);
    assert forall k | 0 <= k < result.Length :: result[k] == result[..][k];
    RaiseLetters(result);
    UpperLowercase(data);
    s := result[..];
  }

  lemma {:induction false} UpperAt(s: string, t: string)
    requires |s| == |t| && forall k | 0 <= k < |s| :: t[k] == ToUpper(s[k])
    ensures t == Upper(s)
  {
    if s != "" {
      UpperAt(s[..|s| - 1], t[..|s| - 1]);
      assert t == t[..|s| - 1] + [t[|s| - 1]];
    }
  }

  lemma {:induction false} LowercaseLetters(data: seq<byte>)
    ensures forall k | 0 <= k < |Lowercase(data)| :: Lowercase(data)[k] <= 'f'
  {
    if data != [] {
      LowercaseLetters(data[..|data| - 1]);
    }
  }

  lemma UpperPair(s: string, a: char, b: char)
    ensures Upper(s + [a, b]) == Upper(s) + [ToUpper(a), ToUpper(b)]
  {
    assert (s + [a, b])[..|s| + 1] == s + [a];
    assert (s + [a])[..|s|] == s;
  }

  lemma {:induction false} UpperLowercase(data: seq<byte>)
    ensures Upper(Lowercase(data)) == Encode(data)
  {
    if data != [] {
      var last := data[|data| - 1];
      UpperLowercase(data[..|data| - 1]);
      UpperPair(Lowercase(data[..|data| - 1]), LowerDigit(last / 16), LowerDigit(last % 16));
    }
  }

  lemma DigitRoundTrip(n: nat)
    requires n < 16
    ensures DigitValue(UpperDigit(n)) == Some(n)
  {
  }

  lemma JoinNibbles(b: byte)
    ensures Low(16 * (b / 16) + b % 16) == b
  {
  }

  lemma ByteRoundTrip(b: byte, front: seq<byte>)
    ensures Extend(Ok(front), DigitValue(UpperDigit(b / 16)), DigitValue(UpperDigit(b % 16))) == Ok(front + [b])
  {
    DigitRoundTrip(b / 16);
    DigitRoundTrip(b % 16);
    JoinNibbles(b);
  }

  lemma PairRoundTrip(hi: char, lo: char)
    requires DigitValue(hi).Some? && DigitValue(lo).Some?
    ensures var b := Low(16 * DigitValue(hi).value + DigitValue(lo).value);
            [UpperDigit(b / 16), UpperDigit(b % 16)] == [ToUpper(hi), ToUpper(lo)]
  {
    UpperRoundTrip(hi);
    UpperRoundTrip(lo);
    Nibbles(DigitValue(hi).value, DigitValue(lo).value);
  }

  lemma UpperRoundTrip(c: char)
    requires DigitValue(c).Some?
    ensures DigitValue(c).value < 16 && UpperDigit(DigitValue(c).value) == ToUpper(c)
  {
  }

  lemma Nibbles(hi: nat, lo: nat)
    requires hi < 16 && lo < 16
    ensures Low(16 * hi + lo) / 16 == hi && Low(16 * hi + lo) % 16 == lo
  {
  }

  lemma EncodeSnoc(front: seq<byte>, last: byte)
    ensures Encode(front + [last]) == Encode(front) + [UpperDigit(last / 16), UpperDigit(last % 16)]
  {
    assert (front + [last])[..|front|] == front;
  }

  lemma DecodePair(s: string, a: char, b: char)
    requires |s| % 2 == 0
    ensures Decode(s + [a, b]) == Extend(Decode(s), DigitValue(a), DigitValue(b))
  {
    var t := s + [a, b];
    assert |t| % 2 == 0;
    assert t[..|t| - 2] == s && t[|t| - 2] == a && t[|t| - 1] == b;
  }

  lemma DecodeEncodeSnoc(front: seq<byte>, last: byte)
    ensures Decode(Encode(front + [last])) ==
            Extend(Decode(Encode(front)), DigitValue(UpperDigit(last / 16)), DigitValue(UpperDigit(last % 16)))
  {
    EncodeSnoc(front, last);
    DecodePair(Encode(front), UpperDigit(last / 16), UpperDigit(last % 16));
  }

  lemma DecodeEncodeAppend(front: seq<byte>, last: byte)
    requires Decode(Encode(front)) == Ok(front)
    ensures Decode(Encode(front + [last])) == Ok(front + [last])
  {
    DecodeEncodeSnoc(front, last);
    ByteRoundTrip(last, front);
  }

  lemma DecodeEncodeStep(data: seq<byte>, front: seq<byte>, last: byte)
    requires data == front + [last] && Decode(Encode(front)) == Ok(front)
    ensures Decode(Encode(data)) == Ok(data)
  {
    DecodeEncodeAppend(front, last);
  }

  lemma FrontAndLast(data: seq<byte>)
    requires data != []
    ensures data == data[..|data| - 1] + [data[|data| - 1]]
  {
  }

  /** What was encoded decodes to itself. */
  lemma {:induction false} DecodeEncode(data: seq<byte>)
    ensures Decode(Encode(data)) == Ok(data)
  {
    if data != [] {
      DecodeEncode(data[..|data| - 1]);
      FrontAndLast(data);
      DecodeEncodeStep(data, data[..|data| - 1], data[|data| - 1]);
    }
  }

  lemma ExtendEncode(front: seq<byte>, text: string, hi: char, lo: char)
    requires Encode(front) == Upper(text) && DigitValue(hi).Some? && DigitValue(lo).Some?
    ensures Extend(Ok(front), DigitValue(hi), DigitValue(lo)).Ok?
    ensures Encode(Extend(Ok(front), DigitValue(hi), DigitValue(lo)).value) == Upper(text + [hi, lo])
  {
    var b := Low(16 * DigitValue(hi).value + DigitValue(lo).value);
    PairRoundTrip(hi, lo);
    UpperPair(text, hi, lo);
    EncodeSnoc(front, b);
    assert Extend(Ok(front), DigitValue(hi), DigitValue(lo)) == Ok(front + [b]);
  }

  /** What decodes was the same digits, up to letter case. */
  lemma {:induction false} EncodeDecode(s: string)
    requires Decode(s).Ok?
    ensures Encode(Decode(s).value) == Upper(s)
  {
    if s != "" {
      var n := |s| - 2;
      var front, hi, lo := s[..n], s[n], s[n + 1];
      assert s == front + [hi, lo];
      DecodePair(front, hi, lo);
      EncodeDecode(front);
      ExtendEncode(Decode(front).value, front, hi, lo);
    }
  }

  predicate IsHexDigit(c: char) {
    '0' <= c <= '9' || 'a' <= c <= 'f' || 'A' <= c <= 'F'
  }

  predicate AllDigits(s: string) {
    forall i | 0 <= i < |s| :: IsHexDigit(s[i])
  }

  /** Exactly the even-length strings of hexadecimal digits decode, and a string of odd
      length is told apart from one with another character in it. */
  lemma {:induction false} DecodesIff(s: string)
    ensures Decode(s).Ok? <==> |s| % 2 == 0 && AllDigits(s)
    ensures Decode(s) == Err(OddLength) <==> |s| % 2 == 1
  {
    if |s| % 2 == 0 && s != "" {
      var n := |s| - 2;
      DecodesIff(s[..n]);
      assert forall i | 0 <= i < n :: s[..n][i] == s[i];
    }
  }

  /** The digits of byte i, high half first. */
  lemma {:induction false} EncodeAt(data: seq<byte>, i: nat)
    requires i < |data|
    ensures Encode(data)[2 * i] == "0123456789ABCDEF"[data[i] / 16]
    ensures Encode(data)[2 * i + 1] == "0123456789ABCDEF"[data[i] % 16]
    decreases |data|
  {
    var n := |data| - 1;
    if i < n {
      EncodeAt(data[..n], i);
      assert Encode(data)[..2 * n] == Encode(data[..n]);
    } else {
      UpperDigitIs(data[n] / 16);
      UpperDigitIs(data[n] % 16);
    }
  }

  lemma UpperDigitIs(n: nat)
    requires n < 16
    ensures UpperDigit(n) == "0123456789ABCDEF"[n]
  {
  }
}

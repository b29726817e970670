/** The RTU checksum of internal/modbus/rtu.go: a reflected 16-bit shift register
    (MODBUS over Serial Line V1.02, section 2.5.1.2). */
module Crc {
  import opened Bytes
  import opened Bits

  const POLYNOMIAL: uint16 := 0xA001
  const INITIAL: uint16 := 0xFFFF

  /** One step of the register. */
  function Shift(r: nat): nat {
    if r % 2 == 1 then Xor(r / 2, POLYNOMIAL) else r / 2
  }

  function Shifts(r: nat, n: nat): nat
    decreases n, r
  {
    if n == 0 then r else Shifts(Shift(r), n - 1)
  }

  function FeedByte(r: nat, b: byte): nat {
    Shifts(Xor(r, b), 8)
  }

  /** The register after a whole byte string. */
  function Register(r: nat, data: seq<byte>): nat
    decreases data, r
  {
    if data == [] then r else Register(FeedByte(r, data[0]), data[1..])
  }

  function Checksum(payload: seq<byte>): nat {
    Register(INITIAL, payload)
  }

  /** A payload followed by its checksum, low byte first. */
  function WithCRC(payload: seq<byte>): seq<byte> {
    payload + LE16(Checksum(payload))
  }

  ghost predicate ValidCRC(frame: seq<byte>) {
    |frame| >= 2 && frame == WithCRC(frame[..|frame| - 2])
  }

  lemma ShiftBound(r: nat)
    requires r < 0x1_0000
    ensures Shift(r) < 0x1_0000
  {
    Pow2Word();
    XorBound(r / 2, POLYNOMIAL, 16);
  }

  lemma {:induction false} ShiftsBound(r: nat, n: nat)
    requires r < 0x1_0000
    ensures Shifts(r, n) < 0x1_0000
    decreases n
  {
    if n != 0 {
      ShiftBound(r);
      ShiftsBound(Shift(r), n - 1);
    }
  }

  lemma XorByteBound(r: nat, b: byte)
    requires r < 0x1_0000
    ensures Xor(r, b) < 0x1_0000
  {
    Pow2Word();
    XorBound(r, b, 16);
  }

  lemma FeedByteBound(r: nat, b: byte)
    requires r < 0x1_0000
    ensures FeedByte(r, b) < 0x1_0000
  {
    XorByteBound(r, b);
    ShiftsBound(Xor(r, b), 8);
  }

  lemma {:induction false} RegisterBound(r: nat, data: seq<byte>)
    requires r < 0x1_0000
    ensures Register(r, data) < 0x1_0000
    decreases data
  {
    if data != [] {
      FeedByteBound(r, data[0]);
      RegisterBound(FeedByte(r, data[0]), data[1..]);
    }
  }

  lemma {:induction false} RegisterConcat(r: nat, s: seq<byte>, t: seq<byte>)
    ensures Register(r, s + t) == Register(Register(r, s), t)
    decreases s
  {
    if s == [] {
      assert s + t == t;
    } else {
      assert (s + t)[1..] == s[1..] + t;
      RegisterConcat(FeedByte(r, s[0]), s[1..], t);
    }
  }

  /** CRC16 skips the last two bytes of its argument, the checksum slot. */
  method CRC16(data: seq<byte>) returns (lo: byte, hi: byte)
    ensures [lo, hi] == LE16(Checksum(data[..if |data| < 2 then 0 else |data| - 2]))
  {
    var payloadLength := |data| - 2;
    if payloadLength < 0 {
      payloadLength := 0;
    }
    ghost var payload := data[..payloadLength];

    var crc: uint16 := INITIAL;
    for index := 0 to payloadLength
      invariant Register(crc, payload[index..]) == Checksum(payload)
    {
      var value := data[index];
      ghost var before := crc;
      XorByteBound(crc, value);
      crc := Xor(crc, value);
      for bit := 0 to 8
        invariant Shifts(crc, 8 - bit) == FeedByte(before, value)
      {
        ShiftBound(crc);
        if crc % 2 != 0 {
          crc := Xor(crc / 2, POLYNOMIAL);
        } else {
          crc := crc / 2;
        }
      }
      assert payload[index..][1..] == payload[index + 1..];
    }
    lo, hi := Low(crc), Low(crc / 0x100);
  }

  method AppendCRC(payload: seq<byte>) returns (result: seq<byte>)
    ensures result == WithCRC(payload)
  {
    var frame := new byte[|payload| + 2];
    Copy(frame, 0, payload);
    var lo, hi := CRC16(frame[..]);
    assert frame[..][..|payload|] == payload;
    frame[|payload|] := lo;
    frame[|payload| + 1] := hi;
    result := frame[..];
    assert result == payload + [lo, hi];
  }

  method ValidateCRC(frame: seq<byte>) returns (valid: bool)
    ensures valid <==> ValidCRC(frame)
  {
    if |frame| < 2 {
      return false;
    }
    var lo, hi := CRC16(frame);
    valid := frame[|frame| - 2] == lo && frame[|frame| - 1] == hi;
    assert frame == frame[..|frame| - 2] + [frame[|frame| - 2], frame[|frame| - 1]];
  }
}

/** Building RTU requests and interpreting RTU replies (internal/modbus/rtu.go and
    response.go). */
module Rtu {
  import opened Bytes
  import opened Crc
  import opened Framing

  const READ_HOLDING_REGISTERS: byte := 3
  const WRITE_MULTIPLE_REGISTERS: byte := 16

  /** A read request; none above the protocol limit of 125 registers. */
  function BuildReadHoldingRegisters(unit: byte, start: uint16, count: uint16): Option<seq<byte>> {
    if count > 125 then None
    else Some(WithCRC([unit, READ_HOLDING_REGISTERS] + BE16(start) + BE16(count)))
  }

  /** Values padded to whole registers. */
  function Padded(values: seq<byte>): (p: seq<byte>)
    ensures values <= p && |p| % 2 == 0 && |p| <= |values| + 1
  {
    if |values| % 2 == 0 then values else values + [0]
  }

  function BuildWriteMultipleRegisters(unit: byte, start: uint16, values: seq<byte>): Option<seq<byte>> {
    if |values| > 250 then None
    else
      var data := Padded(values);
      Some(WithCRC([unit, WRITE_MULTIPLE_REGISTERS] + BE16(start) + BE16(|data| / 2) + [|data|] + data))
  }

  /** A read request is built up to 125 registers: unit, function 3, start and count high
      byte first, checksum (MODBUS Application Protocol V1.1b3, section 6.3). */
  lemma ReadRequestTold(unit: byte, start: uint16, count: uint16)
    ensures BuildReadHoldingRegisters(unit, start, count).None? <==> count > 125
    ensures count <= 125 ==>
              var frame := BuildReadHoldingRegisters(unit, start, count).value;
              && ValidCRC(frame) && |frame| == 8
              && frame[..6] == [unit, 3, start / 256, start % 256, 0, count]
  {
    if count <= 125 {
      WithCRCShape([unit, READ_HOLDING_REGISTERS] + BE16(start) + BE16(count));
    }
  }

  /** A write request is built up to 250 bytes: unit, function 16, start, number of
      registers and of bytes, then the values, a zero byte if their number is odd, and the
      checksum (section 6.12 there). */
  lemma WriteRequestTold(unit: byte, start: uint16, values: seq<byte>)
    ensures BuildWriteMultipleRegisters(unit, start, values).None? <==> |values| > 250
    ensures |values| <= 250 ==>
              var frame, words := BuildWriteMultipleRegisters(unit, start, values).value, (|values| + 1) / 2;
              && ValidCRC(frame) && |frame| == 9 + 2 * words
              && frame[..7] == [unit, 0x10, start / 256, start % 256, 0, words, 2 * words]
              && frame[7..7 + |values|] == values
              && (|values| % 2 == 1 ==> frame[7 + |values|] == 0)
  {
    if |values| <= 250 {
      var data := Padded(values);
      var header := [unit, WRITE_MULTIPLE_REGISTERS] + BE16(start) + BE16(|data| / 2) + [|data|];
      var frame := WithCRC(header + data);
      WithCRCShape(header + data);
      assert frame[..|header + data|] == header + data;
      assert frame[7..7 + |values|] == (header + data)[7..7 + |values|] == values;
      assert frame[..7] == header;
    }
  }

  /** What a device answers. */
  function ReadReply(unit: byte, data: seq<byte>): seq<byte>
    requires |data| < 0x100
  {
    WithCRC([unit, READ_HOLDING_REGISTERS, |data|] + data)
  }

  function WriteReply(unit: byte, start: uint16, count: uint16): seq<byte> {
    WithCRC([unit, WRITE_MULTIPLE_REGISTERS] + BE16(start) + BE16(count))
  }

  function ExceptionReply(unit: byte, function_: byte, code: byte): seq<byte>
    requires function_ < 0x80
  {
    WithCRC([unit, function_ + 0x80, code])
  }

  datatype Parsed = ReadData(data: seq<byte>) | WriteEcho(frame: seq<byte>)

  datatype Error = WrongCRC | Malformed(length: nat) | Device(function_: int, code: byte)

  /** response.go: ParseResponse, after the checksum test. */
  function Interpret(rtu: seq<byte>): Result<Parsed, Error> {
    if |rtu| < 4 then Err(Malformed(|rtu|))
    else if rtu[1] > 128 then
      if |rtu| < 5 then Err(Malformed(|rtu|)) else Err(Device(rtu[1] - 128, rtu[2]))
    else if rtu[1] >= 5 && rtu[1] != 23 then Ok(WriteEcho(rtu))
    else if |rtu| < 5 || 3 + (rtu[2] as int) != |rtu| - 2 then Err(Malformed(|rtu|))
    else Ok(ReadData(rtu[3..|rtu| - 2]))
  }

  method ParseResponse(rtu: seq<byte>) returns (r: Result<Parsed, Error>)
    ensures r.Ok? ==> ValidCRC(rtu)
    ensures r == Err(WrongCRC) <==> !ValidCRC(rtu)
    ensures ValidCRC(rtu) ==> r == Interpret(rtu)
  {
    var valid := ValidateCRC(rtu);
    if !valid {
      return Err(WrongCRC);
    }
    return Interpret(rtu);
  }

  function Registers(data: seq<byte>): seq<uint16>
    requires |data| % 2 == 0
  {
    if data == [] then [] else [FromBE16(data[..2])] + Registers(data[2..])
  }

  function RegisterBytes(registers: seq<uint16>): (data: seq<byte>)
    ensures |data| == 2 * |registers|
  {
    if registers == [] then [] else BE16(registers[0]) + RegisterBytes(registers[1..])
  }

  lemma NextRegister(data: seq<byte>, offset: nat)
    requires offset % 2 == 0 && |data| % 2 == 0 && offset < |data|
    ensures Registers(data[offset..]) == [FromBE16(data[offset..offset + 2])] + Registers(data[offset + 2..])
  {
    var rest := data[offset..];
    assert rest[..2] == data[offset..offset + 2];
    assert rest[2..] == data[offset + 2..];
  }

  method DecodeRegisters(data: seq<byte>) returns (r: Result<seq<uint16>, Error>)
    ensures if |data| % 2 == 0 then r == Ok(Registers(data)) else r == Err(Malformed(|data|))
  {
    if |data| % 2 != 0 {
      return Err(Malformed(|data|));
    }
    var registers := new uint16[|data| / 2];
    for index := 0 to registers.Length
      invariant registers[..index] + Registers(data[2 * index..]) == Registers(data)
    {
      var offset := index * 2;
      NextRegister(data, offset);
      ghost var done := registers[..index];
      var value := FromBE16(data[offset..offset + 2]);
      registers[index] := value;
      assert registers[..index + 1] == done + [value];
      Assoc(done, [value], Registers(data[offset + 2..]));
    }
    assert data[2 * registers.Length..] == [];
    assert registers[..] == registers[..registers.Length] + [];
    return Ok(registers[..]);
  }

  /** Register i is made of bytes 2i and 2i + 1, the high byte first. */
  lemma {:induction false} RegisterAt(data: seq<byte>, i: nat)
    requires |data| % 2 == 0 && 2 * i < |data|
    ensures i < |Registers(data)| == |data| / 2
    ensures Registers(data)[i] == 256 * (data[2 * i] as int) + data[2 * i + 1] as int
    decreases i
  {
    RegisterCount(data);
    if i > 0 {
      RegisterAt(data[2..], i - 1);
    }
  }

  lemma {:induction false} RegisterCount(data: seq<byte>)
    requires |data| % 2 == 0
    ensures |Registers(data)| == |data| / 2
  {
    if data != [] {
      RegisterCount(data[2..]);
    }
  }

  lemma WordRoundTrip(w: uint16)
    ensures FromBE16(BE16(w)) == w && FromLE16(LE16(w)) == w
  {
  }

  lemma {:induction false} RegistersRoundTrip(registers: seq<uint16>)
    ensures Registers(RegisterBytes(registers)) == registers
  {
    if registers != [] {
      var data := RegisterBytes(registers);
      assert data[..2] == BE16(registers[0]);
      assert data[2..] == RegisterBytes(registers[1..]);
      WordRoundTrip(registers[0]);
      RegistersRoundTrip(registers[1..]);
    }
  }

  lemma WithCRCShape(payload: seq<byte>)
    ensures ValidCRC(WithCRC(payload)) && |WithCRC(payload)| == |payload| + 2
    ensures WithCRC(payload)[..|payload|] == payload
  {
  }

  /** A read reply parses back to the data the device put in. */
  lemma ReadReplyParses(unit: byte, data: seq<byte>)
    requires |data| < 0x100
    ensures ValidCRC(ReadReply(unit, data)) && IsFrame(ReadReply(unit, data))
    ensures Interpret(ReadReply(unit, data)) == Ok(ReadData(data))
  {
    var header := [unit, READ_HOLDING_REGISTERS, |data|];
    var reply := ReadReply(unit, data);
    WithCRCShape(header + data);
    assert reply[..3] == header;
    assert reply[0] == unit && reply[1] == READ_HOLDING_REGISTERS && reply[2] == |data|;
    assert reply[3..|reply| - 2] == data;
  }

  /** A register read survives the whole way: the device's reply is one valid frame, it
      parses as read data, and the data decodes to the registers the device held. */
  lemma ReadRoundTrip(unit: byte, registers: seq<uint16>, data: seq<byte>, reply: seq<byte>)
    requires |registers| <= 125 && data == RegisterBytes(registers) && reply == ReadReply(unit, data)
    ensures ValidCRC(reply) && IsFrame(reply)
    ensures Interpret(reply) == Ok(ReadData(data))
    ensures Registers(data) == registers
  {
    RegistersRoundTrip(registers);
    ReadReplyParses(unit, data);
  }

  /** The replies of the standard: those with a byte count (read coils, inputs and
      registers), those of eight bytes (single and multiple writes) and exceptions. The
      framing rule finds each of them, and the interpreter gives the data, the frame, or
      the function and code of the error. */
  lemma StandardReplies(unit: byte, function_: byte, data: seq<byte>, echoed: seq<byte>, code: byte)
    requires |data| < 0x100 && |echoed| == 4
    ensures function_ in {1, 2, 3, 4, 23} ==>
              var reply := WithCRC([unit, function_, |data|] + data);
              IsFrame(reply) && Interpret(reply) == Ok(ReadData(data))
    ensures function_ in {5, 6, 15, 16} ==>
              var reply := WithCRC([unit, function_] + echoed);
              IsFrame(reply) && Interpret(reply) == Ok(WriteEcho(reply))
    ensures 0 < function_ < 0x80 ==>
              IsFrame(ExceptionReply(unit, function_, code))
              && Interpret(ExceptionReply(unit, function_, code)) == Err(Device(function_, code))
  {
    if function_ in {1, 2, 3, 4, 23} {
      var reply := WithCRC([unit, function_, |data|] + data);
      WithCRCShape([unit, function_, |data|] + data);
      assert reply[..3 + |data|][3..] == data;
    }
    WithCRCShape([unit, function_] + echoed);
    if function_ < 0x80 {
      WithCRCShape([unit, function_ + 0x80, code]);
    }
  }

  /** The frames the interpreter refuses: exceptions of four bytes, and reads whose byte
      count is not that of their data. */
  lemma RefusedIff(rtu: seq<byte>)
    ensures Interpret(rtu) == Err(Malformed(|rtu|)) <==>
              |rtu| < 4 || (rtu[1] > 128 && |rtu| == 4)
              || ((rtu[1] < 5 || rtu[1] == 23) && rtu[2] as int != |rtu| - 5)
  {
  }

  lemma WriteReplyIsFrame(unit: byte, start: uint16, count: uint16)
    ensures IsFrame(WriteReply(unit, start, count)) && ValidCRC(WriteReply(unit, start, count))
    ensures |WriteReply(unit, start, count)| == 8
    ensures WriteReply(unit, start, count)[..3] == [unit, WRITE_MULTIPLE_REGISTERS, Low(start / 0x100)]
  {
    WithCRCShape([unit, WRITE_MULTIPLE_REGISTERS] + BE16(start) + BE16(count));
  }

  lemma ExceptionReplyIsFrame(unit: byte, function_: byte, code: byte)
    requires function_ < 0x80
    ensures IsFrame(ExceptionReply(unit, function_, code)) && ValidCRC(ExceptionReply(unit, function_, code))
    ensures |ExceptionReply(unit, function_, code)| == 5
  {
    WithCRCShape([unit, function_ + 0x80, code]);
  }

  /** Every reply a device can give is one frame with a valid checksum. */
  lemma RepliesAreFrames(unit: byte, data: seq<byte>, start: uint16, count: uint16, function_: byte, code: byte)
    requires |data| < 0x100 && function_ < 0x80
    ensures IsFrame(ReadReply(unit, data)) && ValidCRC(ReadReply(unit, data))
    ensures IsFrame(WriteReply(unit, start, count)) && ValidCRC(WriteReply(unit, start, count))
    ensures IsFrame(ExceptionReply(unit, function_, code)) && ValidCRC(ExceptionReply(unit, function_, code))
  {
    ReadReplyParses(unit, data);
    WriteReplyIsFrame(unit, start, count);
    ExceptionReplyIsFrame(unit, function_, code);
  }

  /** A read reply is accepted exactly when it is one frame by the framing rule. */
  lemma ReadAcceptedIffFramed(rtu: seq<byte>)
    requires |rtu| >= 4 && (rtu[1] < 5 || rtu[1] == 23)
    ensures Interpret(rtu).Ok? <==> IsFrame(rtu)
  {
  }

  /** How a reply is taken: as an exception, an acknowledgement or read data. */
  datatype Kind = AsException | AsWrite | AsRead

  /** The kind whose length the framing rule goes by. */
  function FramedAs(rtu: seq<byte>): Kind
    requires |rtu| >= 2
  {
    if rtu[1] >= 128 then AsException else if rtu[1] >= 5 && rtu[1] != 23 then AsWrite else AsRead
  }

  /** The kind whose branch the interpreter takes. */
  function InterpretedAs(rtu: seq<byte>): Kind
    requires |rtu| >= 2
  {
    if rtu[1] > 128 then AsException else if rtu[1] >= 5 && rtu[1] != 23 then AsWrite else AsRead
  }

  /** Both functions say what they are named for. */
  lemma KindsDescribe(rtu: seq<byte>)
    requires |rtu| >= 5
    ensures FramedAs(rtu).AsException? ==> ExpectedResponseLength(rtu) == Exactly(5)
    ensures FramedAs(rtu).AsWrite? ==> ExpectedResponseLength(rtu) == Exactly(8)
    ensures FramedAs(rtu).AsRead? ==> ExpectedResponseLength(rtu) == Exactly(5 + rtu[2] as int)
    ensures InterpretedAs(rtu).AsException? <==> Interpret(rtu).Err? && Interpret(rtu).error.Device?
    ensures InterpretedAs(rtu).AsWrite? <==> Interpret(rtu) == Ok(WriteEcho(rtu))
    ensures InterpretedAs(rtu).AsRead? ==> IsFrame(rtu) == (Interpret(rtu) == Ok(ReadData(rtu[3..|rtu| - 2])))
  {
  }

  /** The framing rule and the interpreter take a reply for different kinds exactly when
      its function code is 128. */
  lemma ExceptionDisagreement(rtu: seq<byte>)
    requires |rtu| >= 5
    ensures FramedAs(rtu) != InterpretedAs(rtu) <==> rtu[1] == 128
    ensures ExpectedResponseLength(rtu) == Exactly(5) && rtu[1] >= 5 && rtu[1] != 23 && Interpret(rtu).Ok? <==>
              rtu[1] == 128
    ensures IsFrame(rtu) ==> (Interpret(rtu).Ok? <==> rtu[1] <= 128)
    ensures IsFrame(rtu) && rtu[1] == 128 ==> |rtu| == 5 && Interpret(rtu) == Ok(WriteEcho(rtu))
  {
    KindsDescribe(rtu);
  }
}

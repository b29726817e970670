/** Modbus TCP (internal/driver/modbustcp/frame.go and transport.go): the checksum is
    replaced by a header on the way out and rebuilt on the way in
    (MODBUS Messaging on TCP/IP V1.0b, section 3.1.3; the transaction id is little-endian). */
module ModbusTcp {
  import opened Bytes
  import opened Cancellation
  import opened Crc
  import Rtu
  import opened Sequence
  import opened Wire

  const HEADER_LENGTH := 6
  const MAX_FRAME_SIZE := 1024
  const CONNECTION_ATTEMPTS := 11

  datatype FrameError =
    | TooShort(length: nat)
    | FrameTooLong(length: nat)
    | WrongTransaction
    | DeviceError(code: byte)
    | LengthExceedsPayload

  /** A header for a transaction followed by the unit and its payload. */
  function Mbap(transaction: uint16, pdu: seq<byte>): (frame: seq<byte>)
    ensures |frame| == 6 + |pdu|
  {
    LE16(transaction) + [0, 0] + BE16(|pdu|) + pdu
  }

  method BuildRequest(transaction: uint16, rtu: seq<byte>) returns (r: Result<seq<byte>, FrameError>)
    ensures |rtu| < 2 ==> r == Err(TooShort(|rtu|))
    ensures |rtu| > 0xFFFF + 2 ==> r == Err(FrameTooLong(|rtu|))
    ensures Fits(rtu) ==> r == Ok(Mbap(transaction, rtu[..|rtu| - 2]))
  {
    if |rtu| < 2 {
      return Err(TooShort(|rtu|));
    }
    var pduLength := |rtu| - 2;
    if pduLength > 0xFFFF {
      return Err(FrameTooLong(|rtu|));
    }
    var request := new byte[HEADER_LENGTH + pduLength];
    request[0], request[1] := Low(transaction), Low(transaction / 0x100);
    request[2], request[3] := 0, 0;
    request[4], request[5] := Low(pduLength / 0x100), Low(pduLength);
    ghost var header := request[..HEADER_LENGTH];
    assert header == LE16(transaction) + [0, 0] + BE16(pduLength);
    Copy(request, HEADER_LENGTH, rtu[..pduLength]);
    assert request[..] == header + rtu[..pduLength];
    return Ok(request[..]);
  }

  /** The frames that can be converted. */
  predicate Fits(rtu: seq<byte>) {
    2 <= |rtu| <= 0xFFFF + 2
  }

  /** What a call puts on the wire: nothing for a frame it cannot convert. */
  function Asked(transaction: uint16, rtu: seq<byte>): seq<byte> {
    if Fits(rtu) then Mbap(transaction, rtu[..|rtu| - 2]) else []
  }

  function ParseResponse(transaction: uint16, response: seq<byte>): Result<seq<byte>, FrameError> {
    if |response| < 10 then Err(TooShort(|response|))
    else if FromLE16(response[0..2]) != transaction then Err(WrongTransaction)
    else if response[8] > 127 then Err(DeviceError(response[9]))
    else
      var pduLength := FromBE16(response[4..6]);
      if pduLength > |response| - HEADER_LENGTH then Err(LengthExceedsPayload)
      else Ok(WithCRC(response[HEADER_LENGTH..HEADER_LENGTH + pduLength]))
  }

  /** Transaction id low byte first, two zero bytes, length high byte first, then the unit
      and its payload. */
  lemma MbapFields(transaction: uint16, pdu: seq<byte>)
    requires |pdu| <= 0xFFFF
    ensures var frame := Mbap(transaction, pdu);
            && |frame| == 6 + |pdu| && frame[6..] == pdu
            && frame[0] == transaction % 256 && frame[1] == transaction / 256
            && frame[2] == 0 && frame[3] == 0
            && frame[4] == |pdu| / 256 && frame[5] == |pdu| % 256
            && FromLE16(frame[0..2]) == transaction && FromBE16(frame[4..6]) == |pdu|
  {
    Rtu.WordRoundTrip(transaction);
    Rtu.WordRoundTrip(|pdu|);
    assert Mbap(transaction, pdu)[0..2] == LE16(transaction);
    assert Mbap(transaction, pdu)[4..6] == BE16(|pdu|);
  }

  /** Exactly which valid replies come through Modbus TCP unchanged: the parser takes the
      third byte of the reply for the exception marker and wants at least ten bytes. */
  lemma TransparentIff(transaction: uint16, reply: seq<byte>)
    requires ValidCRC(reply) && |reply| <= 0xFFFF + 2
    ensures ParseResponse(transaction, Mbap(transaction, reply[..|reply| - 2])) == Ok(reply)
            <==> |reply| >= 6 && reply[2] <= 127
  {
    var pdu := reply[..|reply| - 2];
    var frame := Mbap(transaction, pdu);
    MbapFields(transaction, pdu);
    if |frame| >= 10 {
      assert frame[8] == pdu[2] == reply[2];
      assert frame[HEADER_LENGTH..HEADER_LENGTH + |pdu|] == pdu;
    }
  }

  /** A reply sent through a header and parsed. */
  function Parsed(transaction: uint16, reply: seq<byte>): Result<seq<byte>, FrameError>
    requires |reply| >= 2
  {
    ParseResponse(transaction, Mbap(transaction, reply[..|reply| - 2]))
  }

  lemma LongReadLost(transaction: uint16, unit: byte, data: seq<byte>)
    requires 128 <= |data| <= 250
    ensures Parsed(transaction, Rtu.ReadReply(unit, data)) == Err(DeviceError(data[0]))
  {
    var pdu := [unit, Rtu.READ_HOLDING_REGISTERS, |data|] + data;
    Rtu.WithCRCShape(pdu);
    MbapFields(transaction, pdu);
  }

  lemma HighWriteLost(transaction: uint16, unit: byte, start: uint16, count: uint16)
    requires start >= 0x8000
    ensures Parsed(transaction, Rtu.WriteReply(unit, start, count)) == Err(DeviceError(start % 256))
  {
    var pdu := [unit, Rtu.WRITE_MULTIPLE_REGISTERS] + BE16(start) + BE16(count);
    Rtu.WithCRCShape(pdu);
    MbapFields(transaction, pdu);
  }

  /** What happens to the others: a read of 64 registers or more is reported as a device
      error, with its first data byte as the code; so is an acknowledgement of a write from
      address 0x8000 on, with the low byte of that address; an exception is too short. */
  lemma HowRepliesAreLost(transaction: uint16, unit: byte, data: seq<byte>, start: uint16, count: uint16,
                          function_: byte, code: byte)
    requires 128 <= |data| <= 250 && start >= 0x8000 && function_ < 0x80
    ensures Parsed(transaction, Rtu.ReadReply(unit, data)) == Err(DeviceError(data[0]))
    ensures Parsed(transaction, Rtu.WriteReply(unit, start, count)) == Err(DeviceError(start % 256))
    ensures Parsed(transaction, Rtu.ExceptionReply(unit, function_, code)) == Err(TooShort(9))
  {
    LongReadLost(transaction, unit, data);
    HighWriteLost(transaction, unit, start, count);
    Rtu.WithCRCShape([unit, function_ + 0x80, code]);
    MbapFields(transaction, [unit, function_ + 0x80, code]);
  }

  /** Bytes behind the announced length are dropped, a frame cut short behind its tenth
      byte is refused, and so is one with another transaction id. */
  lemma OtherFrames(transaction: uint16, other: uint16, pdu: seq<byte>, extra: seq<byte>, k: nat)
    requires 4 <= |pdu| <= 0xFFFF && pdu[2] <= 127 && other != transaction
    ensures ParseResponse(transaction, Mbap(transaction, pdu) + extra) == Ok(WithCRC(pdu))
    ensures 10 <= k < 6 + |pdu| ==>
              ParseResponse(transaction, Mbap(transaction, pdu)[..k]) == Err(LengthExceedsPayload)
    ensures k < 10 && k <= 6 + |pdu| ==> ParseResponse(transaction, Mbap(transaction, pdu)[..k]) == Err(TooShort(k))
    ensures ParseResponse(transaction, Mbap(other, pdu) + extra) == Err(WrongTransaction)
  {
    MbapFields(transaction, pdu);
    MbapFields(other, pdu);
    var frame := Mbap(transaction, pdu);
    SameHeader(frame, frame + extra);
    assert (frame + extra)[6..6 + |pdu|] == pdu;
    if 10 <= k < |frame| {
      SameHeader(frame[..k], frame);
    }
    SameHeader(Mbap(other, pdu), Mbap(other, pdu) + extra);
  }

  lemma SameHeader(f: seq<byte>, g: seq<byte>)
    requires 10 <= |f| && f <= g
    ensures f[0..2] == g[0..2] && f[4..6] == g[4..6] && f[8] == g[8] && f[9] == g[9]
  {
  }

  ghost predicate Survives(transaction: uint16, reply: seq<byte>)
  {
    |reply| >= 2 && ParseResponse(transaction, Mbap(transaction, reply[..|reply| - 2])) == Ok(reply)
  }

  lemma SurvivesIff(transaction: uint16, reply: seq<byte>)
    requires ValidCRC(reply) && |reply| <= 0x100
    ensures Survives(transaction, reply) <==> |reply| >= 6 && reply[2] <= 127
  {
    TransparentIff(transaction, reply);
  }

  lemma ReadSurvivesIff(transaction: uint16, unit: byte, data: seq<byte>)
    requires |data| <= 250 && |data| % 2 == 0
    ensures Survives(transaction, Rtu.ReadReply(unit, data)) <==> 1 <= |data| / 2 <= 63
  {
    var reply := Rtu.ReadReply(unit, data);
    Rtu.ReadReplyParses(unit, data);
    SurvivesIff(transaction, reply);
    assert |reply| == |data| + 5 && reply[2] == |data|;
  }

  lemma HighByte(start: uint16)
    ensures Low(start / 0x100) <= 127 <==> start < 0x8000
  {
  }

  lemma WriteSurvivesIff(transaction: uint16, unit: byte, start: uint16, count: uint16)
    ensures Survives(transaction, Rtu.WriteReply(unit, start, count)) <==> start < 0x8000
  {
    var reply := Rtu.WriteReply(unit, start, count);
    Rtu.WriteReplyIsFrame(unit, start, count);
    SurvivesIff(transaction, reply);
    HighByte(start);
    assert reply[2] == reply[..3][2] == Low(start / 0x100);
  }

  lemma ExceptionLost(transaction: uint16, unit: byte, function_: byte, code: byte)
    requires function_ < 0x80
    ensures !Survives(transaction, Rtu.ExceptionReply(unit, function_, code))
  {
    Rtu.ExceptionReplyIsFrame(unit, function_, code);
    SurvivesIff(transaction, Rtu.ExceptionReply(unit, function_, code));
  }

  /** So a register read comes through for 1 to 63 registers only, a write
      acknowledgement only for start addresses below 0x8000, and an exception never. */
  lemma WhichRepliesSurvive(transaction: uint16, unit: byte, data: seq<byte>, start: uint16, count: uint16,
                            function_: byte, code: byte)
    requires |data| <= 250 && |data| % 2 == 0 && function_ < 0x80
    ensures Survives(transaction, Rtu.ReadReply(unit, data)) <==> 1 <= |data| / 2 <= 63
    ensures Survives(transaction, Rtu.WriteReply(unit, start, count)) <==> start < 0x8000
    ensures !Survives(transaction, Rtu.ExceptionReply(unit, function_, code))
  {
    ReadSurvivesIff(transaction, unit, data);
    WriteSurvivesIff(transaction, unit, start, count);
    ExceptionLost(transaction, unit, function_, code);
  }

  /** Whatever is accepted carries the transaction id asked for and a valid checksum over
      bytes that were really received. */
  lemma ParseSound(transaction: uint16, response: seq<byte>)
    requires ParseResponse(transaction, response).Ok?
    ensures var reply := ParseResponse(transaction, response).value;
            && ValidCRC(reply)
            && response[0] == transaction % 256 && response[1] == transaction / 256
            && reply[..|reply| - 2] <= response[6..]
  {
    var n := FromBE16(response[4..6]);
    var pdu := response[HEADER_LENGTH..HEADER_LENGTH + n];
    Rtu.WithCRCShape(pdu);
    assert response[0..2] == [response[0], response[1]];
    assert response[HEADER_LENGTH..][..n] == pdu;
  }

  /** A frame as the reader cuts it: the header announces its length. */
  predicate IsMbap(frame: seq<byte>) {
    6 <= |frame| <= 1024 && |frame| == 6 + FromBE16(frame[4..6])
  }

  lemma HeaderField(stream: seq<byte>, start: nat, header: seq<byte>)
    requires |header| == HEADER_LENGTH && start + HEADER_LENGTH <= |stream|
    requires header == stream[start..start + HEADER_LENGTH]
    ensures header[4..6] == stream[start..][4..6] == stream[start + 4..start + 6]
  {
    assert stream[start..][..HEADER_LENGTH] == header;
  }

  lemma MbapUnique(f: seq<byte>, g: seq<byte>, stream: seq<byte>)
    requires IsMbap(f) && IsMbap(g) && f <= stream && g <= stream
    ensures f == g
  {
    assert f[4..6] == stream[4..6] == g[4..6];
  }

  /** A header at this place announces more bytes than a frame may have. */
  ghost predicate TooLongAt(stream: seq<byte>, at: nat) {
    at + 6 <= |stream| && 6 + FromBE16(stream[at + 4..at + 6]) > 1024
  }

  /** The bytes between two positions do not hold the whole frame their header announces. */
  ghost predicate Incomplete(stream: seq<byte>, from: nat, to: nat) {
    && from <= to <= |stream|
    && (to < from + 6 || to < from + 6 + FromBE16(stream[from + 4..from + 6]))
  }

  /** The bytes between two positions do not go beyond the frame their header announces. */
  ghost predicate NothingBeyond(stream: seq<byte>, from: nat, to: nat) {
    && from <= to <= |stream|
    && (to <= from + 6 || to <= from + 6 + FromBE16(stream[from + 4..from + 6]))
  }

  /** Since these marks the connection has failed or delivered a header that is refused,
      and no read was issued once a whole frame was there. */
  ghost predicate LetDown(conn: Conn, failures: nat, issued: nat, taken: nat)
    reads conn
  {
    && (|| conn.failures > failures
        || exists at | taken <= at && at + 6 <= conn.taken :: TooLongAt(conn.stream, at))
    && (conn.reading.issued > issued ==> Incomplete(conn.stream, taken, conn.reading.asked))
  }

  /** Every connection granted since carries a prefix of these bytes, and let its reader down or is
      the one given. */
  ghost predicate Spent(network: Network, before: seq<Conn>, current: Conn?, limit: seq<byte>)
    reads network, network.conns
  {
    && before <= network.conns
    && forall k | |before| <= k < |network.conns| ::
         && network.conns[k].sent <= limit
         && (network.conns[k] == current || LetDown(network.conns[k], 0, 0, 0))
  }

  lemma OneMoreGranted(network: Network, before: seq<Conn>, first: Conn, current: Conn?, limit: seq<byte>)
    requires Spent(network, before + [first], current, limit)
    requires first.sent <= limit && (first == current || LetDown(first, 0, 0, 0))
    ensures Spent(network, before, current, limit)
  {
    assert network.conns[|before|] == first;
  }

  datatype Error =
    | ConnectionLost
    | ReadFailed(fault: Fault)
    | WriteFailed(fault: Fault)
    | InvalidLength(length: nat)
    | DialFailed
    | BadSettings
    | Cancelled
    | BadFrame(frame: FrameError)
  {
    /** What a single attempt may fail with. */
    predicate OfAttempt() {
      !BadFrame? && !BadSettings? && !Cancelled?
    }
  }

  method Unpack(transaction: uint16, frame: seq<byte>) returns (r: Result<seq<byte>, Error>)
    ensures r.Ok? ==> ParseResponse(transaction, frame) == Ok(r.value) && ValidCRC(r.value)
    ensures r.Err? ==> ParseResponse(transaction, frame).Err?
                       && r.error == BadFrame(ParseResponse(transaction, frame).error)
  {
    var parsed := ParseResponse(transaction, frame);
    if parsed.Err? {
      return Err(BadFrame(parsed.error));
    }
    ParseSound(transaction, frame);
    return Ok(parsed.value);
  }

  class Transport {
    const address: string
    const port: int
    const network: Network
    const sequence: Generator
    var conn: Conn?

    /** The settings a connection can be made with. */
    predicate Addressed() {
      address != "" && 1 <= port <= 65535
    }

    ghost predicate Valid()
      reads this, conn, network, sequence
    {
      && sequence.Valid() && sequence.width == SixteenBits
      && (conn != null ==> Addressed() && conn.Valid() && conn in network.conns)
    }

    /** All that was read on the current connection since the latest write. */
    ghost predicate Answers(frame: seq<byte>)
      reads this, conn
    {
      conn != null && conn.Valid() && conn.stream[conn.turn..conn.taken] == frame
    }

    /** What was read since the latest write is one frame, and this is what it holds. */
    ghost predicate Replied(transaction: uint16, reply: Result<seq<byte>, FrameError>)
      reads this, conn
    {
      && conn != null && conn.Valid()
      && forall frame | Answers(frame) :: IsMbap(frame) && ParseResponse(transaction, frame) == reply
    }

    /** A reply, or a complaint about one, is what was read since the latest write. */
    ghost predicate Told(transaction: uint16, rtu: seq<byte>, r: Result<seq<byte>, Error>)
      reads this, conn
    {
      && (r.Ok? ==> ValidCRC(r.value) && Fits(rtu) && Replied(transaction, Ok(r.value)))
      && (r.Err? && r.error.BadFrame? ==> !Fits(rtu) || Replied(transaction, Err(r.error.frame)))
    }

    constructor (address: string, port: int, network: Network)
      ensures Valid() && conn == null && fresh(sequence) && sequence.calls == 0 && this.network == network
      ensures this.address == address && this.port == if port == 0 then 8899 else port
    {
      this.address, this.port, this.network := address, if port == 0 then 8899 else port, network;
      sequence := new Generator(SixteenBits);
      conn := null;
    }

    method ConnectLocked(ctx: Context) returns (error: Option<Error>)
      requires Valid()
      modifies this, network, ctx
      ensures Valid() && (error.None? <==> conn != null) && (old(ctx.done) ==> ctx.done)
      ensures old(conn) != null ==> unchanged(this) && unchanged(network)
      ensures old(conn) == null ==> Granted(network, old(network.conns), conn)
      ensures old(conn) == null && conn != null ==>
                fresh(conn) && conn.sent == [] && conn.failures == 0 && conn.taken == 0 && conn.reading.issued == 0
                && network.dials == old(network.dials) + 1
      ensures old(conn) == null && old(ctx.done) ==> error == Some(Cancelled)
      ensures error.Some? ==>
                match error.value
                case Cancelled => ctx.done && network.dials == old(network.dials)
                case BadSettings => !Addressed() && network.dials == old(network.dials)
                case DialFailed => network.dials == old(network.dials) + 1
                case _ => false
    {
      if conn != null {
        return None;
      }
      var cancelled := ctx.Err();
      if cancelled {
        return Some(Cancelled);
      }
      if address == "" || port < 1 || port > 65535 {
        return Some(BadSettings);
      }
      conn := network.Dial();
      if conn == null {
        return Some(DialFailed);
      }
      return None;
    }

    method CloseLocked()
      modifies this
      ensures conn == null
    {
      conn := null;
    }

    /** The bytes taken are one frame, and never one byte more. Once it is there nothing
        more is read, so it fails only if the deadline is refused, a read fails that was
        issued before, or the header announces more than the maximum. */
    method ReadFrameLocked() returns (r: Result<seq<byte>, Error>)
      requires Valid() && conn != null
      modifies conn`taken, conn`patience, conn`failures, conn`reading
      ensures Valid() && old(conn.taken) <= conn.taken && old(conn.failures) <= conn.failures
      ensures r.Ok? ==> IsMbap(r.value) && r.value == conn.stream[old(conn.taken)..conn.taken]
      ensures OneDeadline(old(conn.reading), conn.reading)
      ensures conn.reading.issued > old(conn.reading.issued) ==>
                Incomplete(conn.stream, old(conn.taken), conn.reading.asked)
      ensures NothingBeyond(conn.stream, old(conn.taken), conn.taken)
      ensures r.Err? ==>
                || (conn.failures > old(conn.failures) && (r.error.ReadFailed? || r.error.ConnectionLost?)
                    && (conn.reading.refused > old(conn.reading.refused)
                        || conn.reading.issued > old(conn.reading.issued)))
                || (TooLongAt(conn.stream, old(conn.taken)) && old(conn.taken) + 6 == conn.taken
                    && r.error.InvalidLength?
                    && r.error.length == 6 + FromBE16(conn.stream[old(conn.taken)..][4..6]))
    {
      var deadline := conn.SetReadDeadline();
      if deadline.Some? {
        return Err(ReadFailed(deadline.value));
      }
      ghost var start := conn.taken;
      var header, fault := conn.ReadFull(HEADER_LENGTH);
      if fault.Some? {
        return Err(if header == [] && fault == Some(Eof) then ConnectionLost else ReadFailed(fault.value));
      }
      var pduLength := FromBE16(header[4..6]);
      var frameLength := HEADER_LENGTH + pduLength;
      HeaderField(conn.stream, start, header);
      if frameLength > MAX_FRAME_SIZE {
        return Err(InvalidLength(frameLength));
      }
      ghost var middle := conn.taken;
      var pdu;
      pdu, fault := conn.ReadFull(pduLength);
      if fault.Some? {
        return Err(ReadFailed(fault.value));
      }
      SliceConcat(conn.stream, start, middle, conn.taken);
      assert (header + pdu)[4..6] == header[4..6];
      return Ok(header + pdu);
    }

    /** Write the request once, read one frame. */
    method WriteAndRead(request: seq<byte>) returns (r: Result<seq<byte>, Error>)
      requires Valid() && conn != null
      modifies conn
      ensures Valid()
      ensures r.Err? ==> LetDown(conn, old(conn.failures), old(conn.reading.issued), old(conn.taken))
      ensures r.Err? ==> r.error.OfAttempt()
      ensures conn.reading.deadlines <= old(conn.reading.deadlines) + 1
      ensures Within(old(conn.sent), conn.sent, request)
      ensures r.Ok? ==> conn.sent == old(conn.sent) + request
      ensures r.Ok? ==> IsMbap(r.value) && (request != [] ==> Answers(r.value))
    {
      var fault := conn.WriteFrame(request);
      if fault.Some? {
        return Err(WriteFailed(fault.value));
      }
      r := ReadFrameLocked();
    }

    /** Connect if needed, then one exchange. Both keep what holds of the connections
        granted since an earlier moment. */
    method Attempt(ctx: Context, request: seq<byte>, ghost before: seq<Conn>) returns (r: Result<seq<byte>, Error>)
      requires Valid() && Addressed()
      requires Spent(network, before, null, request)
      requires conn != null ==> network.conns == before
      modifies this, conn, network, ctx
      ensures Valid() && (conn == null || conn == old(conn) || (old(conn) == null && fresh(conn)))
      ensures old(ctx.done) ==> ctx.done
      ensures old(conn) != null ==> conn == old(conn) && unchanged(network)
      ensures old(conn) == null ==> Granted(network, old(network.conns), conn)
      ensures forall k | |old(network.conns)| <= k < |network.conns| :: fresh(network.conns[k])
      ensures Spent(network, before, if r.Ok? then conn else null, request)
      ensures old(conn) == null ==>
                network.dials == old(network.dials) + 1
                || (conn == null && r == Err(Cancelled) && network.dials == old(network.dials))
      ensures conn == null ==> r.Err?
      ensures r.Err? && old(conn) != null ==>
                LetDown(conn, old(conn.failures), old(conn.reading.issued), old(conn.taken))
      ensures r == Err(Cancelled) ==> ctx.done
      ensures r.Err? ==> r.error.OfAttempt() || r.error.Cancelled?
      ensures old(conn) != null ==> Within(old(conn.sent), conn.sent, request)
      ensures r.Ok? && old(conn) != null ==> conn.sent == old(conn.sent) + request
      ensures r.Ok? && old(conn) == null ==> conn.sent == request
      ensures r.Ok? ==> IsMbap(r.value) && (request != [] ==> Answers(r.value))
    {
      if conn == null {
        var refused := ConnectLocked(ctx);
        if refused.Some? {
          return Err(refused.value);
        }
        assert Spent(network, before, conn, request);
      }
      r := WriteAndRead(request);
    }

    /** After a failed attempt: gives up, or drops the connection and waits. */
    method GiveUp(ctx: Context, attempt: nat, failed: Error) returns (error: Option<Error>)
      requires Valid()
      modifies this, ctx
      ensures Valid() && (old(ctx.done) ==> ctx.done && error == Some(Cancelled))
      ensures error.None? ==> conn == null && attempt != CONNECTION_ATTEMPTS
      ensures error.Some? ==>
                (error.value == Cancelled && ctx.done) || (attempt == CONNECTION_ATTEMPTS && error.value == failed)
      ensures error.Some? ==> conn == null || conn == old(conn)
    {
      var cancelled := ctx.Err();
      if cancelled {
        return Some(Cancelled);
      }
      if attempt == CONNECTION_ATTEMPTS {
        return Some(failed);
      }
      CloseLocked();
      cancelled := ctx.Wait();
      return if cancelled then Some(Cancelled) else None;
    }

    /** One round of the retry loop: an attempt, and giving up or not if it fails. */
    method Round(ctx: Context, request: seq<byte>, attempt: nat, ghost before: seq<Conn>)
      returns (r: Result<seq<byte>, Error>, last: bool)
      requires Valid() && Addressed()
      requires Spent(network, before, null, request)
      requires conn != null ==> network.conns == before
      modifies this, conn, network, ctx
      ensures Valid() && (conn == null || conn == old(conn) || (old(conn) == null && fresh(conn)))
      ensures (old(ctx.done) ==> ctx.done) && (r.Ok? ==> conn != null && last)
      ensures NewlyGranted(network, old(network.conns), old(network.dials)) && old(network.conns) <= network.conns
      ensures forall k | |old(network.conns)| <= k < |network.conns| :: fresh(network.conns[k])
      ensures Spent(network, before, if r.Ok? then conn else null, request)
      ensures old(network.dials) <= network.dials <= old(network.dials) + if old(conn) == null then 1 else 0
      ensures !last || (r.Err? && r.error.OfAttempt()) ==>
                network.dials == old(network.dials) + if old(conn) == null then 1 else 0
      ensures !last ==> conn == null && attempt != CONNECTION_ATTEMPTS
      ensures last && r.Err? ==>
                (r.error == Cancelled && ctx.done) || (r.error.OfAttempt() && attempt == CONNECTION_ATTEMPTS)
      ensures old(conn) != null ==> Within(old(conn.sent), old(conn).sent, request)
      ensures old(conn) != null && r.Err? ==>
                LetDown(old(conn), old(conn.failures), old(conn.reading.issued), old(conn.taken))
      ensures r.Ok? && old(conn) != null ==> conn == old(conn) && conn.sent == old(conn.sent) + request
      ensures r.Ok? && old(conn) == null ==> conn.sent == request
      ensures r.Ok? ==> IsMbap(r.value) && (request != [] ==> Answers(r.value))
    {
      r := Attempt(ctx, request, before);
      if r.Ok? {
        return r, true;
      }
      var stop := GiveUp(ctx, attempt, r.error);
      return if stop.Some? then Err(stop.value) else r, stop.Some?;
    }

    /** At most 11 attempts, each on its own connection. A connection is dropped only after
        it let the reader down, and giving up takes all 11 attempts or a cancelled context. */
    method InternalSendLocked(ctx: Context, request: seq<byte>) returns (r: Result<seq<byte>, Error>)
      requires Valid() && conn != null
      modifies this, conn, network, ctx
      ensures Valid() && (conn == null || conn == old(conn) || fresh(conn)) && (old(ctx.done) ==> ctx.done)
      ensures old(network.dials) <= network.dials <= old(network.dials) + 10
      ensures r == Err(Cancelled) ==> ctx.done
      ensures r.Err? ==> r.error.OfAttempt() || r.error.Cancelled?
      ensures r.Err? && r.error.OfAttempt() ==> network.dials == old(network.dials) + 10
      ensures r.Err? || conn != old(conn) ==>
                LetDown(old(conn), old(conn.failures), old(conn.reading.issued), old(conn.taken))
      ensures Spent(network, old(network.conns), if r.Ok? then conn else null, request)
      ensures NewlyGranted(network, old(network.conns), old(network.dials))
      ensures forall k | |old(network.conns)| <= k < |network.conns| :: fresh(network.conns[k])
      ensures Within(old(conn.sent), old(conn).sent, request)
      ensures r.Ok? ==> conn != null && IsMbap(r.value) && (request != [] ==> Answers(r.value))
      ensures r.Ok? && conn == old(conn) ==> conn.sent == old(conn.sent) + request
      ensures r.Ok? && conn != old(conn) ==> conn.sent == request
    {
      ghost var before, first := network.conns, conn;
      var attempt := 1;
      while true
        invariant 1 <= attempt <= CONNECTION_ATTEMPTS && Valid() && Addressed() && (old(ctx.done) ==> ctx.done)
        invariant attempt == 1 ==> conn == first && unchanged(first)
        invariant attempt == 1 ==> network.conns == before && network.dials == old(network.dials)
        invariant attempt > 1 ==> conn == null && network.dials == old(network.dials) + attempt - 2
        invariant attempt > 1 ==> LetDown(first, old(conn.failures), old(conn.reading.issued), old(conn.taken))
        invariant Spent(network, before, null, request)
        invariant NewlyGranted(network, before, old(network.dials))
        invariant forall k | |before| <= k < |network.conns| :: fresh(network.conns[k])
        invariant Within(old(conn.sent), first.sent, request)
        decreases CONNECTION_ATTEMPTS - attempt
      {
        var last;
        r, last := Round(ctx, request, attempt, before);
        if last {
          return;
        }
        attempt := attempt + 1;
      }
    }

    /** The rest of SendRTU once the transaction id is drawn. */
    method Exchange(ctx: Context, transaction: uint16, rtu: seq<byte>) returns (r: Result<seq<byte>, Error>)
      requires Valid() && conn != null
      modifies this, conn, network, ctx
      ensures Valid() && (conn == null || conn == old(conn) || fresh(conn)) && (old(ctx.done) ==> ctx.done)
      ensures old(network.dials) <= network.dials <= old(network.dials) + 10
      ensures r == Err(Cancelled) ==> ctx.done
      ensures r.Err? ==> !r.error.BadSettings?
      ensures r.Err? && r.error.OfAttempt() ==> network.dials == old(network.dials) + 10
      ensures conn != old(conn) || (r.Err? && !r.error.BadFrame?) ==>
                LetDown(old(conn), old(conn.failures), old(conn.reading.issued), old(conn.taken))
      ensures Spent(network, old(network.conns), if r.Ok? || r.error.BadFrame? then conn else null,
                    Asked(transaction, rtu))
      ensures NewlyGranted(network, old(network.conns), old(network.dials))
      ensures forall k | |old(network.conns)| <= k < |network.conns| :: fresh(network.conns[k])
      ensures Within(old(conn.sent), old(conn).sent, Asked(transaction, rtu))
      ensures Told(transaction, rtu, r) && (r.Ok? ==> conn != null)
      ensures r.Ok? && conn == old(conn) ==> conn.sent == old(conn.sent) + Asked(transaction, rtu)
      ensures r.Ok? && conn != old(conn) ==> conn.sent == Asked(transaction, rtu)
    {
      var request := BuildRequest(transaction, rtu);
      if request.Err? {
        return Err(BadFrame(request.error));
      }
      var response := InternalSendLocked(ctx, request.value);
      if response.Err? {
        return response;
      }
      r := Unpack(transaction, response.value);
    }

    /** The rest of SendRTU once connected. */
    method NumberedExchange(ctx: Context, rtu: seq<byte>, ghost before: seq<Conn>)
      returns (r: Result<seq<byte>, Error>)
      requires Valid() && conn != null && Untouched(network, before, conn)
      modifies this, conn, network, sequence, ctx
      ensures Valid() && (conn == null || conn == old(conn) || fresh(conn)) && (old(ctx.done) ==> ctx.done)
      ensures old(network.dials) <= network.dials <= old(network.dials) + 10
      ensures r == Err(Cancelled) ==> ctx.done
      ensures r.Err? ==> !r.error.BadSettings?
      ensures r.Err? && r.error.OfAttempt() ==> network.dials == old(network.dials) + 10
      ensures conn != old(conn) || (r.Err? && !r.error.BadFrame?) ==>
                LetDown(old(conn), old(conn.failures), old(conn.reading.issued), old(conn.taken))
      ensures Spent(network, before, if r.Ok? || r.error.BadFrame? then conn else null, Asked(sequence.value, rtu))
      ensures NewlyGranted(network, old(network.conns), old(network.dials))
      ensures forall k | |old(network.conns)| <= k < |network.conns| :: fresh(network.conns[k])
      ensures sequence.calls == old(sequence.calls) + 1 && (old(sequence.calls) > 0 ==> unchanged(sequence`first))
      ensures sequence.value == (sequence.first + old(sequence.calls)) % 0x1_0000
      ensures old(network.conns) <= network.conns
      ensures Within(old(conn.sent), old(conn).sent, Asked(sequence.value, rtu))
      ensures Told(sequence.value, rtu, r) && (r.Ok? ==> conn != null)
      ensures r.Ok? && conn == old(conn) ==> conn.sent == old(conn.sent) + Asked(sequence.value, rtu)
      ensures r.Ok? && conn != old(conn) ==> conn.sent == Asked(sequence.value, rtu)
    {
      ghost var first, granted := conn, network.conns;
      var transaction := sequence.Next();
      r := Exchange(ctx, transaction, rtu);
      if granted != before {
        OneMoreGranted(network, before, first, if r.Ok? || r.error.BadFrame? then conn else null,
                       Asked(transaction, rtu));
      }
    }

    /** Each connection of the call carries at most one copy of the request, under this
        call's own transaction id. A reply, or a complaint about one, is the parse, under
        that id, of all that was read after the whole request was written. Without a
        cancellation a call fails otherwise only if the first dial is refused or all its
        attempts fail. */
    method SendRTU(ctx: Context, rtu: seq<byte>) returns (r: Result<seq<byte>, Error>)
      requires Valid()
      modifies this, conn, network, sequence, ctx
      ensures Valid() && (conn == null || conn == old(conn) || fresh(conn)) && (old(ctx.done) ==> ctx.done)
      ensures network.dials <= old(network.dials) + 11 - (if old(conn) == null then 0 else 1)
      ensures r == Err(Cancelled) ==> ctx.done
      ensures r == Err(BadSettings) ==> !Addressed() && network.dials == old(network.dials)
      ensures r.Err? && r.error.OfAttempt() ==>
                || (old(conn) == null && r.error == DialFailed && network.conns == old(network.conns)
                    && network.dials == old(network.dials) + 1)
                || network.dials == old(network.dials) + 11 - if old(conn) == null then 0 else 1
      ensures old(conn) != null && conn != old(conn) ==>
                LetDown(old(conn), old(conn.failures), old(conn.reading.issued), old(conn.taken))
      ensures old(conn) != null && r.Err? && !r.error.BadFrame? ==>
                LetDown(old(conn), old(conn.failures), old(conn.reading.issued), old(conn.taken))
      ensures Spent(network, old(network.conns), if r.Ok? || r.error.BadFrame? then conn else null,
                    Asked(sequence.value, rtu))
      ensures NewlyGranted(network, old(network.conns), old(network.dials))
      ensures forall k | |old(network.conns)| <= k < |network.conns| :: fresh(network.conns[k])
      ensures old(sequence.calls) <= sequence.calls <= old(sequence.calls) + 1
      ensures old(sequence.calls) > 0 ==> sequence.first == old(sequence.first)
      ensures sequence.calls > old(sequence.calls) ==>
                sequence.value == (sequence.first + old(sequence.calls)) % 0x1_0000
      ensures old(conn) != null ==> Within(old(conn.sent), old(conn).sent, Asked(sequence.value, rtu))
      ensures Told(sequence.value, rtu, r) && (r.Ok? ==> conn != null && sequence.calls == old(sequence.calls) + 1)
      ensures r.Ok? && conn == old(conn) ==> conn.sent == old(conn.sent) + Asked(sequence.value, rtu)
      ensures r.Ok? && conn != old(conn) ==> conn.sent == Asked(sequence.value, rtu)
    {
      ghost var before := network.conns;
      var refused := ConnectLocked(ctx);
      if refused.Some? {
        return Err(refused.value);
      }
      assert Untouched(network, before, conn);
      r := NumberedExchange(ctx, rtu, before);
    }
  }
}

/** RTU over a serial port (internal/driver/modbusserial/transport.go): a length-aware
    reader that never takes a byte beyond the frame, and its response deadline. */
module Serial {
  import opened Bytes
  import opened Cancellation
  import opened Crc
  import opened Framing
  import opened Rtu
  import opened Wire

  const MILLISECOND := 1_000_000
  const SECOND := 1_000_000_000

  datatype Parity = ParityNone | ParityEven | ParityOdd | Unsupported

  datatype Settings = Settings(device: string, baud: int, dataBits: int, parity: Parity, stopBits: int)

  datatype Error =
    | OpenFailed
    | BadSettings
    | PortFailed(fault: Fault)
    | TimedOut
    | Cancelled
    | FrameTooLong
    | BufferExceeded
    | WrongCRC
  {
    /** What only a port can cause. */
    predicate OfPort() {
      PortFailed? || TimedOut?
    }
  }

  /** serialMode: the settings a port is opened with. */
  predicate Usable(settings: Settings) {
    && settings.device != ""
    && settings.baud >= 1
    && 5 <= settings.dataBits <= 8
    && !settings.parity.Unsupported?
    && (settings.stopBits == 1 || settings.stopBits == 2)
  }

  /** The reply length foreseen from the request, used only for the deadline. */
  function PredictedLength(request: seq<byte>): nat {
    if |request| < 2 then 256
    else if request[1] >= 5 && request[1] != 23 then 8
    else if |request| >= 6 && 3 + 2 * FromBE16(request[4..6]) + 2 <= MAX_FRAME_SIZE then
      3 + 2 * FromBE16(request[4..6]) + 2
    else 256
  }

  function BitsPerCharacter(settings: Settings): int {
    1 + settings.dataBits + settings.stopBits + if settings.parity.ParityNone? then 0 else 1
  }

  /** The response deadline in nanoseconds. */
  function ResponseTimeout(settings: Settings, length: nat): int {
    if settings.baud < 1 then 5 * SECOND
    else
      var transmission := length * BitsPerCharacter(settings) * SECOND / settings.baud;
      var timeout := 100 * MILLISECOND + 2 * transmission;
      if timeout < 250 * MILLISECOND then 250 * MILLISECOND
      else if timeout > 5 * SECOND then 5 * SECOND
      else timeout
  }

  /** The two length rules agree on conforming replies to the two requests the driver sends. */
  lemma PredictionMatchesReply(unit: byte, start: uint16, count: uint16, data: seq<byte>, values: seq<byte>)
    requires count <= 125 && |data| == 2 * count && |values| <= 250
    ensures var request := BuildReadHoldingRegisters(unit, start, count);
            request.Some? && ExpectedResponseLength(ReadReply(unit, data)) == Exactly(PredictedLength(request.value))
    ensures var request := BuildWriteMultipleRegisters(unit, start, values);
            && request.Some?
            && ExpectedResponseLength(WriteReply(unit, start, |Padded(values)| / 2))
               == Exactly(PredictedLength(request.value))
  {
    var read := BuildReadHoldingRegisters(unit, start, count).value;
    WordRoundTrip(count);
    assert read[..6] == [unit, READ_HOLDING_REGISTERS] + BE16(start) + BE16(count);
    assert read[4..6] == BE16(count);
    assert ReadReply(unit, data)[..3] == [unit, READ_HOLDING_REGISTERS, |data|];
    var write := BuildWriteMultipleRegisters(unit, start, values).value;
    assert write[..2] == [unit, WRITE_MULTIPLE_REGISTERS];
    assert WriteReply(unit, start, |Padded(values)| / 2)[..2] == [unit, WRITE_MULTIPLE_REGISTERS];
  }

  /** What is foreseen for the other requests: 8 bytes for a write of any kind, 256 where
      the request does not say, and never more than 1024. */
  lemma PredictionTold(request: seq<byte>)
    ensures |request| >= 2 && 5 <= request[1] && request[1] != 23 ==> PredictedLength(request) == 8
    ensures |request| < 2 || ((request[1] < 5 || request[1] == 23) && |request| < 6) ==> PredictedLength(request) == 256
    ensures |request| >= 6 && (request[1] < 5 || request[1] == 23) ==>
              var length := 5 + 512 * (request[4] as int) + 2 * (request[5] as int);
              PredictedLength(request) == if length <= 1024 then length else 256
  {
  }

  /** A character on the line: start bit, data bits, parity bit if any, stop bits. */
  function Character(settings: Settings): int {
    settings.dataBits + settings.stopBits + if settings.parity == ParityNone then 1 else 2
  }

  /** Below 5 s the deadline is 100 ms more than twice the time of the transmission,
      rounded up to 250 ms, exactly to the 2 ns that whole nanoseconds cost; work is the
      transmission time multiplied by the baud rate. */
  lemma TimeoutTold(settings: Settings, length: nat, work: nat, time: int)
    requires Usable(settings) && work == length * Character(settings) * 1_000_000_000
    requires time == ResponseTimeout(settings, length)
    ensures time > 250_000_000 ==> (time - 100_000_000) * settings.baud <= 2 * work
    ensures time < 5_000_000_000 ==> 2 * work < (time - 100_000_000 + 2) * settings.baud
  {
    var twice := 2 * (work / settings.baud);
    assert time == if 100_000_000 + twice < 250_000_000 then 250_000_000
                   else if 100_000_000 + twice > 5_000_000_000 then 5_000_000_000
                   else 100_000_000 + twice;
    if time > 250_000_000 {
      NotLonger(work, settings.baud, time - 100_000_000);
    }
    if time < 5_000_000_000 {
      NotShorter(work, settings.baud, time - 100_000_000);
    }
  }

  lemma NotLonger(work: nat, baud: nat, time: nat)
    requires baud > 0 && time <= 2 * (work / baud)
    ensures time * baud <= 2 * work
  {
    var quotient := work / baud;
    assert baud * quotient <= work;
    Product(time, baud, 2 * quotient, baud);
    Twice(quotient, baud);
  }

  lemma NotShorter(work: nat, baud: nat, time: nat)
    requires baud > 0 && time >= 2 * (work / baud)
    ensures 2 * work < (time + 2) * baud
  {
    var quotient := work / baud;
    assert work < baud * quotient + baud;
    Product(2 * (quotient + 1), baud, time + 2, baud);
    Twice(quotient + 1, baud);
    assert baud * (quotient + 1) == baud * quotient + baud;
  }

  lemma Twice(n: nat, baud: nat)
    ensures 2 * n * baud == 2 * (baud * n)
  {
  }

  /** Without a baud rate the deadline is 5 s. */
  lemma NoBaud(settings: Settings, length: nat)
    requires settings.baud < 1
    ensures ResponseTimeout(settings, length) == 5_000_000_000
  {
  }

  /** The deadline is between 250 ms and 5 s and leaves room for the whole reply to be
      transmitted whenever that takes at most 5 s. Time t covers a transmission when
      t * baud >= bits * SECOND. */
  lemma TimeoutCoversTransmission(settings: Settings, length: nat)
    requires Usable(settings) && length <= 1024
    ensures 250_000_000 <= ResponseTimeout(settings, length) <= 5_000_000_000
    ensures var work := length * Character(settings) * 1_000_000_000;
            work <= 5_000_000_000 * settings.baud ==> ResponseTimeout(settings, length) * settings.baud >= work
    ensures length * Character(settings) * 1_000_000_000 < 0x8000_0000_0000_0000
  {
    var bits, baud := length * Character(settings), settings.baud;
    assert bits <= 1024 * 12 by {
      assert 0 <= Character(settings) <= 12;
      Product(length, Character(settings), 1024, 12);
    }
    var timeout := ResponseTimeout(settings, length);
    if timeout < 5 * SECOND {
      RoundedUp(bits * SECOND, baud, timeout);
    }
  }

  /** A time beyond the quotient covers the whole dividend. */
  lemma RoundedUp(work: nat, baud: nat, time: nat)
    requires baud > 0 && time >= work / baud + 1
    ensures time * baud >= work
  {
    var quotient := work / baud;
    Product(quotient + 1, baud, time, baud);
    assert work < baud * quotient + baud == (quotient + 1) * baud;
  }

  lemma Product(a: nat, b: nat, c: nat, d: nat)
    requires a <= c && b <= d
    ensures a * b <= c * d
  {
    assert a * b <= c * b;
    assert c * b <= c * d;
  }

  /** Since these marks the port has failed, and no read was issued once a whole frame was
      there behind the flushed input. */
  ghost predicate Failed(port: Conn, failures: nat, issued: nat)
    reads port
  {
    && port.failures > failures
    && (port.reading.issued > issued ==> Incomplete(port.stream, port.flushed, port.reading.asked))
  }

  /** What was read from one position to another holds no complete frame yet. */
  ghost predicate Incomplete(stream: seq<byte>, from: nat, to: nat) {
    from <= to <= |stream| && !HasFrame(stream[from..to])
  }

  /** A read of no more than is known to be missing takes nothing beyond the frame. */
  lemma NoneBeyond(frame: seq<byte>, chunk: seq<byte>, size: nat)
    requires !HasFrame(frame) && |chunk| <= size
    requires size == match ExpectedResponseLength(frame)
                     case Exactly(n) => n - |frame|
                     case _ => if |frame| < 2 then 2 - |frame| else 1
    ensures HasFrame(frame + chunk) ==> IsFrame(frame + chunk)
  {
    LengthBounds(frame);
    LengthBounds(frame + chunk);
    if ExpectedResponseLength(frame).Exactly? {
      LengthStable(frame, chunk);
    }
  }

  /** What was read from one position to another ends with the first frame if it holds one. */
  ghost predicate NothingBeyond(stream: seq<byte>, from: nat, to: nat) {
    from <= to <= |stream| && (HasFrame(stream[from..to]) ==> IsFrame(stream[from..to]))
  }

  /** The port was not flushed since, or nothing beyond the first frame was taken. */
  ghost predicate Moderate(port: Conn, flushes: nat)
    reads port
  {
    port.flushes == flushes || NothingBeyond(port.stream, port.flushed, port.taken)
  }

  class Transport {
    const settings: Settings
    /** Whoever opens the device when asked to. */
    const network: Network
    var port: Conn?

    constructor (settings: Settings, network: Network)
      ensures Valid() && port == null && this.settings == settings && this.network == network
    {
      this.settings, this.network := settings, network;
      port := null;
    }

    ghost predicate Valid()
      reads this, port
    {
      port != null ==> Usable(settings) && port.Valid()
    }

    method ConnectLocked(ctx: Context) returns (error: Option<Error>)
      requires Valid()
      modifies this, network, ctx
      ensures Valid() && (error.None? <==> port != null) && (old(ctx.done) ==> ctx.done)
      ensures old(port) != null ==> unchanged(this) && unchanged(network)
      ensures old(port) == null ==> Granted(network, old(network.conns), port)
      ensures old(port) == null && port != null ==>
                fresh(port) && port.sent == [] && port.flushes == 0 && port.failures == 0 && port.outputs == 0
                && port.reading.issued == 0
      ensures old(port) == null && old(ctx.done) ==> error == Some(Cancelled)
      ensures error.Some? ==>
                match error.value
                case Cancelled => ctx.done && network.dials == old(network.dials)
                case BadSettings =>
                  network.dials == old(network.dials)
                  && !(settings.device != "" && settings.baud > 0 && settings.dataBits in {5, 6, 7, 8}
                       && settings.parity in {ParityNone, ParityEven, ParityOdd} && settings.stopBits in {1, 2})
                case OpenFailed => network.dials == old(network.dials) + 1
                case _ => false
    {
      if port != null {
        return None;
      }
      var cancelled := ctx.Err();
      if cancelled {
        return Some(Cancelled);
      }
      if !Usable(settings) {
        return Some(BadSettings);
      }
      port := network.Dial();
      if port == null {
        return Some(OpenFailed);
      }
      return None;
    }

    /** One read of at most so many bytes. */
    method ReadMore(frame: seq<byte>, readSize: nat) returns (more: seq<byte>, error: Option<Error>)
      requires Valid() && port != null && readSize > 0
      modifies port`taken, port`patience, port`failures, port`reading
      ensures Valid() && old(port.taken) <= port.taken <= old(port.taken) + readSize
      ensures more == frame + port.stream[old(port.taken)..port.taken]
      ensures port.reading
              == old(port.reading).(issued := old(port.reading.issued) + 1, asked := old(port.taken))
      ensures error.None? ==> |more| > |frame| && port.failures == old(port.failures)
      ensures error.Some? ==> error.value.OfPort() && port.failures > old(port.failures)
    {
      var chunk, fault := port.Read(readSize);
      more := frame + chunk;
      if fault.Some? {
        return more, Some(PortFailed(fault.value));
      }
      return more, if chunk == [] then Some(TimedOut) else None;
    }

    /** Since these marks all reads began at this place, none was issued once a whole frame
        was there, and nothing beyond the frame was taken. */
    ghost predicate Reads(failures: nat, noted: Reading, start: nat)
      reads this, port
    {
      && port != null && failures <= port.failures && NothingBeyond(port.stream, start, port.taken)
      && noted.issued <= port.reading.issued
      && port.reading == noted.(issued := port.reading.issued, asked := port.reading.asked)
      && (port.reading.issued > noted.issued ==> Incomplete(port.stream, start, port.reading.asked))
    }

    /** One more read towards a frame that is not there as a whole, of no more than is known
        to be missing. */
    method ReadMissing(frame: seq<byte>, readSize: nat, ghost failures: nat, ghost noted: Reading, ghost start: nat)
      returns (more: seq<byte>, error: Option<Error>)
      requires Valid() && Reads(failures, noted, start) && readSize > 0 && !HasFrame(frame)
      requires start <= port.taken && frame == port.stream[start..port.taken]
      requires readSize == match ExpectedResponseLength(frame)
                           case Exactly(n) => n - |frame|
                           case _ => if |frame| < 2 then 2 - |frame| else 1
      modifies port`taken, port`patience, port`failures, port`reading
      ensures Valid() && Reads(failures, noted, start)
      ensures start <= port.taken && more == port.stream[start..port.taken] && |more| <= |frame| + readSize
      ensures error.None? ==> |more| > |frame|
      ensures error.Some? ==> error.value.OfPort() && port.failures > failures && port.reading.issued > noted.issued
    {
      ghost var before := port.taken;
      more, error := ReadMore(frame, readSize);
      SliceConcat(port.stream, start, before, port.taken);
      NoneBeyond(frame, port.stream[before..port.taken], readSize);
    }

    /** Exactly the first frame of the unread bytes on success, and never one byte more.
        Once a whole frame is there nothing more is read, so it fails only if a read fails
        that was issued before or the context is cancelled; the two length errors cannot
        occur. */
    method ReadFrameLocked(ctx: Context) returns (r: Result<seq<byte>, Error>)
      requires Valid() && port != null
      modifies port`taken, port`patience, port`failures, port`reading, ctx
      ensures Valid() && (old(ctx.done) ==> ctx.done)
      ensures Reads(old(port.failures), old(port.reading), old(port.taken)) && old(port.taken) <= port.taken
      ensures r.Ok? ==> IsFrame(r.value) && r.value == port.stream[old(port.taken)..port.taken]
      ensures r.Err? ==>
                || (r.error == Cancelled && ctx.done)
                || (r.error.OfPort() && port.failures > old(port.failures)
                    && port.reading.issued > old(port.reading.issued))
    {
      ghost var failures, noted, start := port.failures, port.reading, port.taken;
      var frame: seq<byte> := [];
      while true
        invariant Valid() && (old(ctx.done) ==> ctx.done) && Reads(failures, noted, start)
        invariant start <= port.taken && frame == port.stream[start..port.taken] && |frame| <= MAX_FRAME_SIZE
        decreases MAX_FRAME_SIZE - |frame|
      {
        var cancelled := ctx.Err();
        if cancelled {
          return Err(Cancelled);
        }
        LengthBounds(frame);
        var expected := ExpectedResponseLength(frame);
        if expected.TooLong? {
          return Err(FrameTooLong);
        }
        if expected.Exactly? && |frame| == expected.n {
          return Ok(frame);
        }
        var readSize := 1;
        if expected.Exactly? {
          readSize := expected.n - |frame|;
        } else if |frame| < 2 {
          readSize := 2 - |frame|;
        }
        if readSize < 1 || |frame| + readSize > MAX_FRAME_SIZE {
          return Err(BufferExceeded);
        }
        var error;
        frame, error := ReadMissing(frame, readSize, failures, noted, start);
        if error.Some? {
          return Err(error.value);
        }
      }
    }

    method CloseAfterError()
      modifies this
      ensures port == null
    {
      port := null;
    }

    /** Flush and write. A failed write closes the port. */
    method Ask(rtu: seq<byte>) returns (error: Option<Error>)
      requires Valid() && port != null
      modifies this, port
      ensures Valid() && (port == null || port == old(port)) && (error.None? ==> port != null) && old(port).Valid()
      ensures OneDeadline(old(port.reading), old(port).reading)
      ensures old(port).reading.issued == old(port.reading.issued)
      ensures old(port.sent) <= old(port).sent <= old(port.sent) + rtu
      ensures old(port).flushes == old(port.flushes) || old(port).flushed == old(port).taken
      ensures error.None? ==> port.flushes == old(port.flushes) + 1 && old(port.taken) <= port.flushed == port.taken
      ensures error.None? ==> old(port.failures) <= port.failures && (rtu != [] ==> port.turn == port.flushed)
      ensures error.None? ==> port.sentAtFlush == |old(port.sent)| && port.sent == old(port.sent) + rtu
      ensures error.Some? ==> error.value.OfPort() && old(port).failures > old(port.failures)
      ensures error.Some? && port != null ==> port.outputs == old(port.outputs)
    {
      var deadline := port.SetReadDeadline();
      if deadline.Some? {
        return Some(PortFailed(deadline.value));
      }
      var flushed := port.ResetInputBuffer();
      if flushed.Some? {
        return Some(PortFailed(flushed.value));
      }
      var fault := port.WriteAll(rtu);
      if fault.Some? {
        CloseAfterError();
        return Some(PortFailed(fault.value));
      }
      var drained := port.Drain();
      if drained.Some? {
        CloseAfterError();
        return Some(PortFailed(drained.value));
      }
      return None;
    }

    /** The rest of SendRTU once connected. */
    method Exchange(ctx: Context, rtu: seq<byte>) returns (r: Result<seq<byte>, Error>)
      requires Valid() && port != null
      modifies this, port, ctx
      ensures Valid() && (port == null || port == old(port)) && (old(ctx.done) ==> ctx.done)
      ensures old(port.sent) <= old(port).sent <= old(port.sent) + rtu
      ensures r.Ok? ==> port != null && ValidCRC(r.value) && IsFrame(r.value)
      ensures r.Ok? ==> r.value == port.stream[port.flushed..port.taken] && old(port.taken) <= port.flushed
      ensures r.Ok? ==> port.flushes == old(port.flushes) + 1 && (rtu != [] ==> port.turn == port.flushed)
      ensures r.Ok? ==> port.sentAtFlush == |old(port.sent)| && port.sent == old(port.sent) + rtu
      ensures r.Err? ==> r.error.OfPort() || (r.error == Cancelled && ctx.done) || (r.error.WrongCRC? && port != null)
      ensures r.Err? && r.error.OfPort() ==> Failed(old(port), old(port.failures), old(port.reading.issued))
      ensures r.Err? && !r.error.WrongCRC? && port != null ==> port.outputs == old(port.outputs)
      ensures OneDeadline(old(port.reading), old(port).reading)
      ensures Moderate(old(port), old(port.flushes))
    {
      var error := Ask(rtu);
      if error.Some? {
        return Err(error.value);
      }
      r := ReadFrameLocked(ctx);
      if r.Err? {
        CloseAfterError();
        return;
      }
      var valid := ValidateCRC(r.value);
      if !valid {
        return Err(Error.WrongCRC);
      }
    }

    /** Stale input is flushed, then the whole request written, and the reply is all that
        was read after that. Any failure after output was asked for closes the port, but
        for a wrong checksum. */
    method SendRTU(ctx: Context, rtu: seq<byte>) returns (r: Result<seq<byte>, Error>)
      requires Valid()
      modifies this, port, network, ctx
      ensures Valid() && (port == null || port == old(port) || fresh(port)) && (old(ctx.done) ==> ctx.done)
      ensures old(port) != null ==> old(port.sent) <= old(port).sent <= old(port.sent) + rtu
      ensures r.Ok? ==> port != null && ValidCRC(r.value) && IsFrame(r.value)
      ensures r.Ok? ==> r.value == port.stream[port.flushed..port.taken]
      ensures r.Ok? && rtu != [] ==> port.turn == port.flushed
      ensures r.Ok? ==> port.sentAtFlush + |rtu| == |port.sent|
      ensures r.Ok? && port == old(port) ==> old(port.taken) <= port.flushed && port.flushes == old(port.flushes) + 1
      ensures r.Ok? && port != old(port) ==> port.flushes == 1
      ensures r.Ok? && port == old(port) ==> port.sent == old(port.sent) + rtu
      ensures r.Ok? && port != old(port) ==> port.sent == rtu
      ensures r == Err(Error.WrongCRC) ==> port != null
      ensures r.Err? && !r.error.WrongCRC? && port != null ==>
                port.outputs == if port == old(port) then old(port.outputs) else 0
      ensures r == Err(Error.Cancelled) ==> ctx.done
      ensures r == Err(Error.BadSettings) ==>
                network.dials == old(network.dials)
                && !(settings.device != "" && settings.baud > 0 && settings.dataBits in {5, 6, 7, 8}
                     && settings.parity in {ParityNone, ParityEven, ParityOdd} && settings.stopBits in {1, 2})
      ensures r == Err(Error.OpenFailed) ==> old(port) == null && network.dials == old(network.dials) + 1
      ensures r.Err? && r.error.OfPort() && old(port) != null ==>
                Failed(old(port), old(port.failures), old(port.reading.issued))
      ensures r.Err? && r.error.OfPort() && old(port) == null ==>
                && |network.conns| == |old(network.conns)| + 1
                && Failed(network.conns[|old(network.conns)|], 0, 0)
      ensures old(port) != null ==> Moderate(old(port), old(port.flushes))
      ensures old(port) == null && port != null ==> Moderate(port, 0)
      ensures r.Err? ==> !r.error.FrameTooLong? && !r.error.BufferExceeded?
    {
      var refused := ConnectLocked(ctx);
      if refused.Some? {
        return Err(refused.value);
      }
      r := Exchange(ctx, rtu);
    }
  }
}

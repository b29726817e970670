/** SolarmanV5 over TCP (internal/driver/solarmanv5/frame.go and transport.go): RTU frames
    wrapped with a serial number and a wrapping sequence byte, retried 10 times on each
    of at most 11 connections. */
module Solarman {
  import opened Bytes
  import opened Cancellation
  import opened Sequence
  import opened Wire

  const START: byte := 0xA5
  const END: byte := 0x15
  const CONTROL: byte := 0x10
  const REQUEST_CONTROL: byte := 0x45
  const RESPONSE_CONTROL: byte := 0x15
  const FRAME_TYPE: byte := 0x02
  const REQUEST_RTU_OFFSET := 26
  const RESPONSE_RTU_OFFSET := 25
  const FRAME_LENGTH_OVERHEAD := 13
  const MAX_FRAME_SIZE := 1024
  const CONNECTION_ATTEMPTS := 11
  const SEQUENCE_ATTEMPTS := 10

  datatype FrameError =
    | FrameTooShort(length: nat)
    | WrongLength
    | WrongStart
    | WrongEnd
    | WrongControl
    | WrongSequence
    | WrongSerial
    | WrongType
    | NoPayload

  /** The sum of the bytes, wrapping at 256. */
  function Sum(data: seq<byte>): byte {
    if data == [] then 0 else Low(Sum(data[..|data| - 1]) + data[|data| - 1])
  }

  method Checksum(data: seq<byte>) returns (result: byte)
    ensures result == Sum(data)
  {
    result := 0;
    for i := 0 to |data|
      invariant result == Sum(data[..i])
    {
      assert data[..i + 1][..i] == data[..i];
      result := Low(result + data[i]);
    }
    assert data[..|data|] == data;
  }

  /** What a request looks like between the start byte and the trailer. */
  function RequestBody(sequence: byte, serial: int, rtu: seq<byte>): seq<byte> {
    LE16(|rtu| + 15) + [0x10, 0x45, sequence, 0] + LE32(serial) + [0x02] + Zeros(14) + rtu
  }

  function RequestFrame(sequence: byte, serial: int, rtu: seq<byte>): seq<byte> {
    var body := RequestBody(sequence, serial, rtu);
    [0xA5] + body + [Sum(body), 0x15]
  }

  function RequestHeader(size: seq<byte>, sequence: byte, digits: seq<byte>): (header: seq<byte>)
    requires |size| == 2 && |digits| == 4
    ensures |header| == 12
  {
    [START] + size + [CONTROL, REQUEST_CONTROL, sequence, 0] + digits + [FRAME_TYPE]
  }

  method FillHeader(frame: array<byte>, size: seq<byte>, sequence: byte, digits: seq<byte>)
    requires frame.Length >= REQUEST_RTU_OFFSET && |size| == 2 && |digits| == 4
    modifies frame
    ensures frame[..12] == RequestHeader(size, sequence, digits)
    ensures frame[12..] == old(frame[12..])
  {
    frame[0] := START;
    frame[1], frame[2] := size[0], size[1];
    frame[3], frame[4], frame[5], frame[6] := CONTROL, REQUEST_CONTROL, sequence, 0;
    frame[7], frame[8], frame[9], frame[10] := digits[0], digits[1], digits[2], digits[3];
    frame[11] := FRAME_TYPE;
  }

  lemma ZerosRest(n: nat, k: nat)
    requires k <= n
    ensures Zeros(n)[k..] == Zeros(n - k)
  {
  }

  method CreateFrame(sequence: byte, serial: int, rtu: seq<byte>) returns (result: seq<byte>)
    ensures result == RequestFrame(sequence, serial, rtu)
  {
    var frame := new byte[28 + |rtu|](_ => 0);
    assert frame[..] == Zeros(28 + |rtu|);
    FillHeader(frame, LE16(|rtu| + 15), sequence, LE32(serial));
    ghost var header := RequestHeader(LE16(|rtu| + 15), sequence, LE32(serial));
    ZerosRest(28 + |rtu|, 12);
    assert frame[..] == frame[..12] + frame[12..];
    Copy(frame, REQUEST_RTU_OFFSET, rtu);
    assert frame[..] == header + Zeros(14) + rtu + Zeros(2);
    var checksumOffset := frame.Length - 2;
    ghost var body := RequestBody(sequence, serial, rtu);
    HeaderBody(sequence, serial, rtu);
    assert frame[1..checksumOffset] == body;
    var sum := Checksum(frame[1..checksumOffset]);
    frame[checksumOffset] := sum;
    frame[frame.Length - 1] := END;
    result := frame[..];
    assert result[1..checksumOffset] == body;
    assert result == [START] + body + [sum, END];
  }

  lemma HeaderBody(sequence: byte, serial: int, rtu: seq<byte>)
    ensures RequestHeader(LE16(|rtu| + 15), sequence, LE32(serial)) + Zeros(14) + rtu
            == [START] + RequestBody(sequence, serial, rtu)
  {
  }

  /** The response checksum is not looked at. */
  function ParseFrame(sequence: byte, serial: int, frame: seq<byte>): Result<seq<byte>, FrameError> {
    var n := |frame|;
    if n < 5 then Err(FrameTooShort(n))
    else if n != FromLE16(frame[1..3]) + FRAME_LENGTH_OVERHEAD then Err(WrongLength)
    else if frame[0] != START then Err(WrongStart)
    else if frame[n - 1] != END then Err(WrongEnd)
    else if frame[3] != CONTROL || frame[4] != RESPONSE_CONTROL then Err(WrongControl)
    else if frame[5] != sequence then Err(WrongSequence)
    else if frame[7..11] != LE32(serial) then Err(WrongSerial)
    else if frame[11] != FRAME_TYPE then Err(WrongType)
    else if n - RESPONSE_RTU_OFFSET - 2 < 5 then Err(NoPayload)
    else Ok(frame[RESPONSE_RTU_OFFSET..n - 2])
  }

  /** A device's answer: free bytes at offset 6, in the 13 bytes before the payload and
      in place of the checksum. */
  function Wrap(sequence: byte, serial: int, rtu: seq<byte>, mark: byte, filler: seq<byte>, check: byte): seq<byte>
    requires |filler| == 13
  {
    [0xA5] + LE16(|rtu| + 14) + [0x10, 0x15, sequence, mark] + LE32(serial) + [0x02] + filler + rtu + [check, 0x15]
  }

  lemma WrapFields(sequence: byte, serial: int, rtu: seq<byte>, mark: byte, filler: seq<byte>, check: byte)
    requires |filler| == 13
    ensures var f := Wrap(sequence, serial, rtu, mark, filler, check);
            && |f| == |rtu| + 27 && f[0] == 0xA5 && f[1..3] == LE16(|rtu| + 14)
            && f[3] == 0x10 && f[4] == 0x15 && f[5] == sequence && f[6] == mark
            && f[7..11] == LE32(serial) && f[11] == 0x02 && f[12..25] == filler
            && f[25..|f| - 2] == rtu && f[|f| - 2] == check && f[|f| - 1] == 0x15
  {
    var size, digits := LE16(|rtu| + 14), LE32(serial);
    var head := [0xA5] + size + [0x10, 0x15, sequence, mark] + digits + [0x02];
    assert head[1..3] == size && head[7..11] == digits;
    WrapParts(head, filler, rtu, [check, END]);
  }

  lemma WrapParts(head: seq<byte>, filler: seq<byte>, rtu: seq<byte>, tail: seq<byte>)
    requires |head| == 12 && |filler| == 13 && |tail| == 2
    ensures var f := head + filler + rtu + tail;
            && f[..12] == head && f[1..3] == head[1..3] && f[7..11] == head[7..11]
            && f[12..25] == filler && f[25..|f| - 2] == rtu && f[|f| - 2..] == tail
  {
  }

  /** Two frames that agree field by field agree. */
  lemma FieldsDetermine(f: seq<byte>, g: seq<byte>)
    requires |f| == |g| >= 27
    requires f[0] == g[0] && f[1..3] == g[1..3] && f[3] == g[3] && f[4] == g[4] && f[5] == g[5] && f[6] == g[6]
    requires f[7..11] == g[7..11] && f[11] == g[11] && f[12..25] == g[12..25]
    requires f[25..|f| - 2] == g[25..|g| - 2] && f[|f| - 2] == g[|g| - 2] && f[|f| - 1] == g[|g| - 1]
    ensures f == g
  {
    forall i | 0 <= i < |f| ensures f[i] == g[i] {
      if i < 3 {
        assert i > 0 ==> f[i] == f[1..3][i - 1] && g[i] == g[1..3][i - 1];
      } else if 7 <= i < 11 {
        assert f[i] == f[7..11][i - 7] && g[i] == g[7..11][i - 7];
      } else if 12 <= i < 25 {
        assert f[i] == f[12..25][i - 12] && g[i] == g[12..25][i - 12];
      } else if 25 <= i < |f| - 2 {
        assert f[i] == f[25..|f| - 2][i - 25] && g[i] == g[25..|g| - 2][i - 25];
      }
    }
  }

  lemma LengthField(n: nat)
    ensures FromLE16(LE16(n)) == n <==> n <= 0xFFFF
  {
  }

  /** A wrapped reply is unwrapped to the same bytes exactly when it has at least five
      of them and its length fits the 16-bit field. */
  lemma UnwrapIff(sequence: byte, serial: int, rtu: seq<byte>, mark: byte, filler: seq<byte>, check: byte)
    requires |filler| == 13
    ensures ParseFrame(sequence, serial, Wrap(sequence, serial, rtu, mark, filler, check)) == Ok(rtu)
            <==> 5 <= |rtu| <= 0xFFFF - 14
  {
    WrapFields(sequence, serial, rtu, mark, filler, check);
    LengthField(|rtu| + 14);
  }

  /** Only wrapped replies with this sequence number and serial are accepted. */
  lemma AcceptedIsWrapped(sequence: byte, serial: int, frame: seq<byte>)
    requires ParseFrame(sequence, serial, frame).Ok?
    ensures var rtu := ParseFrame(sequence, serial, frame).value;
            frame == Wrap(sequence, serial, rtu, frame[6], frame[12..25], frame[|frame| - 2])
  {
    var rtu := ParseFrame(sequence, serial, frame).value;
    var g := Wrap(sequence, serial, rtu, frame[6], frame[12..25], frame[|frame| - 2]);
    WrapFields(sequence, serial, rtu, frame[6], frame[12..25], frame[|frame| - 2]);
    assert frame[1..3] == LE16(FromLE16(frame[1..3]));
    FieldsDetermine(frame, g);
  }

  /** Which byte of an accepted frame stands for what: a change to one of them is reported
      as an error of that field, is not noticed, or changes the payload. */
  lemma OneByteChanged(sequence: byte, serial: int, frame: seq<byte>, i: nat, value: byte)
    requires ParseFrame(sequence, serial, frame).Ok? && i < |frame| && value != frame[i]
    ensures var was, now := ParseFrame(sequence, serial, frame), ParseFrame(sequence, serial, frame[i := value]);
            && (i == 0 ==> now == Err(WrongStart))
            && (1 <= i <= 2 ==> now == Err(WrongLength))
            && (3 <= i <= 4 ==> now == Err(WrongControl))
            && (i == 5 ==> now == Err(WrongSequence))
            && (7 <= i <= 10 ==> now == Err(WrongSerial))
            && (i == 11 ==> now == Err(WrongType))
            && (i == |frame| - 1 ==> now == Err(WrongEnd))
            && (i == 6 || 12 <= i <= 24 || i == |frame| - 2 ==> now == was)
            && (25 <= i < |frame| - 2 ==> now == Ok(was.value[i - 25 := value]))
  {
    var other := frame[i := value];
    if 1 <= i <= 2 {
      assert other[1..3] == frame[1..3][i - 1 := value];
    } else {
      assert other[1..3] == frame[1..3];
    }
    if 7 <= i <= 10 {
      assert other[7..11][i - 7] != frame[7..11][i - 7];
    } else {
      assert other[7..11] == frame[7..11];
    }
    if 25 <= i < |frame| - 2 {
      assert other[25..|frame| - 2] == frame[25..|frame| - 2][i - 25 := value];
    } else {
      assert other[25..|frame| - 2] == frame[25..|frame| - 2];
    }
  }

  /** Any bytes: fewer than five are no frame, and the length field must fit. A wrapped
      payload of fewer than five bytes counts as none. */
  lemma LengthErrors(sequence: byte, serial: int, frame: seq<byte>,
                     rtu: seq<byte>, mark: byte, filler: seq<byte>, check: byte)
    requires |filler| == 13 && |rtu| < 5
    ensures ParseFrame(sequence, serial, frame) == Err(FrameTooShort(|frame|)) <==> |frame| < 5
    ensures ParseFrame(sequence, serial, frame) == Err(WrongLength) <==>
              |frame| >= 5 && (frame[1] as int) + 256 * (frame[2] as int) + 13 != |frame|
    ensures ParseFrame(sequence, serial, Wrap(sequence, serial, rtu, mark, filler, check)) == Err(NoPayload)
  {
    WrapFields(sequence, serial, rtu, mark, filler, check);
    LengthField(|rtu| + 14);
  }

  /** The four bytes of a number, low byte first. */
  predicate IsNumber(digits: seq<byte>, n: int) {
    && |digits| == 4 && digits[0] == n % 256 && digits[1] == n / 256 % 256
    && digits[2] == n / 65536 % 256 && digits[3] == n / 16777216 % 256
  }

  lemma NumberDigits(n: int)
    ensures IsNumber(LE32(n), n)
  {
  }

  /** The receiving side of a request, byte by byte: start, length, control code, sequence
      number, serial number, frame type, zeros, RTU frame, checksum and end. */
  ghost predicate DeviceAccepts(frame: seq<byte>, sequence: byte, serial: int, rtu: seq<byte>) {
    && |frame| >= 28
    && (frame[1] as int) + 256 * (frame[2] as int) + 13 == |frame|
    && frame[0] == 0xA5 && frame[3] == 0x10 && frame[4] == 0x45 && frame[5] == sequence && frame[6] == 0
    && IsNumber(frame[7..11], serial) && frame[11] == 0x02
    && (forall i | 12 <= i < 26 :: frame[i] == 0)
    && frame[26..|frame| - 2] == rtu
    && frame[|frame| - 2] == Sum(frame[1..|frame| - 2]) && frame[|frame| - 1] == 0x15
  }

  /** CreateFrame truncates the length of an over-long request, so a device can take the
      request exactly up to 65520 bytes. */
  lemma RequestAcceptedIff(sequence: byte, serial: int, rtu: seq<byte>)
    ensures DeviceAccepts(RequestFrame(sequence, serial, rtu), sequence, serial, rtu) <==> |rtu| <= 65520
  {
    var body := RequestBody(sequence, serial, rtu);
    var frame := RequestFrame(sequence, serial, rtu);
    assert |body| == |rtu| + 25;
    assert frame[1..|frame| - 2] == body;
    assert frame[1..3] == body[..2] == LE16(|rtu| + 15);
    assert frame[7..11] == body[6..10] == LE32(serial);
    assert frame[26..|frame| - 2] == body[25..] == rtu;
    assert frame[1] == frame[1..3][0] && frame[2] == frame[1..3][1];
    LengthField(|rtu| + 15);
    NumberDigits(serial);
  }

  /** A frame answering one of the 255 calls before this one is never returned. */
  lemma StaleFrameRejected(first: nat, call: nat, gap: nat, serial: int, frame: seq<byte>)
    requires 1 <= gap <= 255 && gap <= call
    requires ParseFrame((first + (call - gap)) % 0x100, serial, frame).Ok?
    ensures ParseFrame((first + call) % 0x100, serial, frame) == Err(WrongSequence)
  {
    NumbersDistinct(EightBits, first, call, gap);
  }

  /** A frame as the reader cuts it. */
  predicate IsCut(frame: seq<byte>) {
    13 <= |frame| <= 1024 && |frame| == FromLE16(frame[1..3]) + 13
  }

  lemma CutUnique(f: seq<byte>, g: seq<byte>, stream: seq<byte>)
    requires IsCut(f) && IsCut(g) && f <= stream && g <= stream
    ensures f == g
  {
    assert f[1..3] == stream[1..3] == g[1..3];
  }

  /** The place after the frame that the header at this place announces. */
  function EndOf(stream: seq<byte>, from: nat): (end: nat)
    requires from + 3 <= |stream|
    ensures end >= from + 13
  {
    from + (stream[from + 1] as int) + 0x100 * (stream[from + 2] as int) + 13
  }

  lemma HeaderField(stream: seq<byte>, start: nat, header: seq<byte>)
    requires |header| == 3 && start + 3 <= |stream| && header == stream[start..start + 3]
    ensures EndOf(stream, start) == start + FromLE16(header[1..3]) + FRAME_LENGTH_OVERHEAD
    ensures header[1..3] == stream[start..][1..3]
  {
    assert stream[start..][..3] == header;
  }

  /** A header at this place announces more bytes than a frame may have. */
  ghost predicate TooLongAt(stream: seq<byte>, at: nat) {
    at + 3 <= |stream| && EndOf(stream, at) > at + 1024
  }

  /** The bytes between two positions do not hold the whole frame their header announces. */
  ghost predicate Incomplete(stream: seq<byte>, from: nat, to: nat) {
    from <= to <= |stream| && (to < from + 3 || to < EndOf(stream, from))
  }

  /** The bytes between two positions do not go beyond the frame their header announces. */
  ghost predicate NothingBeyond(stream: seq<byte>, from: nat, to: nat) {
    from <= to <= |stream| && (to <= from + 3 || to <= EndOf(stream, from))
  }

  /** The bytes between two positions are so many whole frames, none of them with the
      number. */
  ghost predicate Stale(number: byte, stream: seq<byte>, from: nat, to: nat, frames: nat)
    decreases frames, number, stream, from, to
  {
    && from <= to <= |stream|
    && if frames == 0 then from == to
       else
         && from + 13 <= to && EndOf(stream, from) <= to && stream[from + 5] != number
         && Stale(number, stream, EndOf(stream, from), to, frames - 1)
  }

  /** The bytes between two positions are at most so many such frames and then an
      incomplete one. */
  ghost predicate Unanswered(number: byte, stream: seq<byte>, from: nat, to: nat, frames: nat)
    decreases frames, number, stream, from, to
  {
    && from <= to <= |stream|
    && (|| Incomplete(stream, from, to)
        || (frames > 0 && stream[from + 5] != number
            && Unanswered(number, stream, EndOf(stream, from), to, frames - 1)))
  }

  lemma {:induction false} OneMoreStale(number: byte, stream: seq<byte>, from: nat, to: nat, frames: nat)
    requires Stale(number, stream, from, to, frames) && to + FRAME_LENGTH_OVERHEAD <= |stream|
    requires EndOf(stream, to) <= |stream| && stream[to + 5] != number
    ensures Stale(number, stream, from, EndOf(stream, to), frames + 1)
    decreases frames
  {
    if frames > 0 {
      OneMoreStale(number, stream, EndOf(stream, from), to, frames - 1);
    }
  }

  lemma {:induction false} StaleThenIncomplete(number: byte, stream: seq<byte>, from: nat, to: nat, frames: nat,
                                               asked: nat, most: nat)
    requires Stale(number, stream, from, to, frames) && Incomplete(stream, to, asked) && frames <= most
    ensures Unanswered(number, stream, from, asked, most)
    decreases frames
  {
    if frames > 0 {
      StaleThenIncomplete(number, stream, EndOf(stream, from), to, frames - 1, asked, most - 1);
    }
  }

  predicate Echoes(frame: seq<byte>, number: byte) {
    |frame| > 5 && frame[5] == number
  }

  /** A moment in the life of a connection. */
  datatype Marks = Marks(sent: seq<byte>, failures: nat, issued: nat, taken: nat)

  /** Since these marks no read was issued once an answer with the number, or ten answers,
      were there. */
  ghost predicate AskedInTime(conn: Conn, number: byte, issued: nat, taken: nat)
    reads conn
  {
    conn.reading.issued > issued ==>
      Unanswered(number, conn.stream, taken, conn.reading.asked, 9)
  }

  /** Since these marks the connection has failed or delivered a header that is refused,
      and nothing more was read once that was enough. */
  ghost predicate LetDown(conn: Conn, number: byte, failures: nat, issued: nat, taken: nat)
    reads conn
  {
    && (conn.failures > failures || exists at | taken <= at && at + 3 <= conn.taken :: TooLongAt(conn.stream, at))
    && AskedInTime(conn, number, issued, taken)
  }

  /** Every connection granted since carries a prefix of these bytes, and let its reader down or is
      the one given. */
  ghost predicate Spent(network: Network, before: seq<Conn>, current: Conn?, number: byte, limit: seq<byte>)
    reads network, network.conns
  {
    && before <= network.conns
    && forall k | |before| <= k < |network.conns| ::
         && network.conns[k].sent <= limit
         && (network.conns[k] == current || LetDown(network.conns[k], number, 0, 0, 0))
  }

  lemma OneMoreGranted(network: Network, before: seq<Conn>, first: Conn, current: Conn?, number: byte, limit: seq<byte>)
    requires Spent(network, before + [first], current, number, limit)
    requires first.sent <= limit && (first == current || LetDown(first, number, 0, 0, 0))
    ensures Spent(network, before, current, number, limit)
  {
    assert network.conns[|before|] == first;
  }

  datatype Error =
    | ConnectionLost
    | ReadFailed(fault: Fault)
    | WriteFailed(fault: Fault)
    | InvalidLength(length: nat)
    | DialFailed
    | BadSettings
    | Cancelled
    | BadFrame(frame: FrameError)
  {
    /** What a single attempt may fail with. */
    predicate OfAttempt() {
      !BadFrame? && !BadSettings? && !Cancelled?
    }
  }

  class Transport {
    const address: string
    const port: int
    const serial: int
    const network: Network
    const sequence: Generator
    var conn: Conn?

    /** The settings a connection can be made with. */
    predicate Addressed() {
      address != "" && 1 <= port <= 65535 && serial != 0
    }

    ghost predicate Valid()
      reads this, conn, network, sequence
    {
      && sequence.Valid() && sequence.width == EightBits
      && (conn != null ==> Addressed() && conn.Valid() && conn in network.conns)
    }

    /** All that was read on the current connection since the latest write. */
    ghost predicate Answers(frame: seq<byte>)
      reads this, conn
    {
      conn != null && conn.Valid() && conn.stream[conn.turn..conn.taken] == frame
    }

    /** What was read since the latest write is one frame, and this is what it holds. */
    ghost predicate Replied(number: byte, reply: Result<seq<byte>, FrameError>)
      reads this, conn
    {
      && conn != null && conn.Valid()
      && forall frame | Answers(frame) :: IsCut(frame) && ParseFrame(number, serial, frame) == reply
    }

    constructor (address: string, port: int, serial: int, network: Network)
      ensures Valid() && conn == null && fresh(sequence) && sequence.calls == 0 && this.network == network
      ensures this.address == address && this.port == (if port == 0 then 8899 else port) && this.serial == serial
    {
      this.address, this.port, this.serial := address, if port == 0 then 8899 else port, serial;
      this.network := network;
      sequence := new Generator(EightBits);
      conn := null;
    }

    method ConnectLocked(ctx: Context) returns (error: Option<Error>)
      requires Valid()
      modifies this, network, ctx
      ensures Valid() && (error.None? <==> conn != null) && (old(ctx.done) ==> ctx.done)
      ensures old(conn) != null ==> unchanged(this) && unchanged(network)
      ensures old(conn) == null ==> Granted(network, old(network.conns), conn)
      ensures old(conn) == null && conn != null ==>
                fresh(conn) && conn.sent == [] && conn.failures == 0 && conn.taken == 0 && conn.reading.issued == 0
                && network.dials == old(network.dials) + 1
      ensures old(conn) == null && old(ctx.done) ==> error == Some(Cancelled)
      ensures error.Some? ==>
                match error.value
                case Cancelled => ctx.done && network.dials == old(network.dials)
                case BadSettings => !Addressed() && network.dials == old(network.dials)
                case DialFailed => network.dials == old(network.dials) + 1
                case _ => false
    {
      if conn != null {
        return None;
      }
      var cancelled := ctx.Err();
      if cancelled {
        return Some(Cancelled);
      }
      if address == "" || port < 1 || port > 65535 || serial == 0 {
        return Some(BadSettings);
      }
      conn := network.Dial();
      if conn == null {
        return Some(DialFailed);
      }
      return None;
    }

    method CloseLocked()
      modifies this
      ensures conn == null
    {
      conn := null;
    }

    /** The bytes taken are one frame, and never one byte more. Once it is there nothing
        more is read, so it fails only if the deadline is refused, a read fails that was
        issued before, or the header announces more than the maximum. */
    method ReadFrameLocked() returns (r: Result<seq<byte>, Error>)
      requires Valid() && conn != null
      modifies conn`taken, conn`patience, conn`failures, conn`reading
      ensures Valid() && old(conn.taken) <= conn.taken && old(conn.failures) <= conn.failures
      ensures r.Ok? ==> IsCut(r.value) && r.value == conn.stream[old(conn.taken)..conn.taken]
      ensures r.Ok? ==> conn.taken == EndOf(conn.stream, old(conn.taken))
                        && r.value[5] == conn.stream[old(conn.taken) + 5]
      ensures OneDeadline(old(conn.reading), conn.reading)
      ensures conn.reading.issued > old(conn.reading.issued) ==>
                Incomplete(conn.stream, old(conn.taken), conn.reading.asked)
      ensures conn.reading.issued == old(conn.reading.issued) ==> conn.reading.asked == old(conn.reading.asked)
      ensures NothingBeyond(conn.stream, old(conn.taken), conn.taken)
      ensures r.Err? ==>
                || (conn.failures > old(conn.failures) && (r.error.ReadFailed? || r.error.ConnectionLost?)
                    && (conn.reading.refused > old(conn.reading.refused)
                        || conn.reading.issued > old(conn.reading.issued)))
                || (TooLongAt(conn.stream, old(conn.taken)) && old(conn.taken) + 3 == conn.taken
                    && r.error.InvalidLength?
                    && r.error.length == FromLE16(conn.stream[old(conn.taken)..][1..3]) + 13)
    {
      var deadline := conn.SetReadDeadline();
      if deadline.Some? {
        return Err(ReadFailed(deadline.value));
      }
      ghost var start := conn.taken;
      var header, fault := conn.ReadFull(3);
      if fault.Some? {
        return Err(if header == [] && fault == Some(Eof) then ConnectionLost else ReadFailed(fault.value));
      }
      var frameLength := FromLE16(header[1..3]) + FRAME_LENGTH_OVERHEAD;
      HeaderField(conn.stream, start, header);
      if frameLength > MAX_FRAME_SIZE {
        return Err(InvalidLength(frameLength));
      }
      ghost var middle := conn.taken;
      var rest;
      rest, fault := conn.ReadFull(frameLength - 3);
      if fault.Some? {
        return Err(ReadFailed(fault.value));
      }
      SliceConcat(conn.stream, start, middle, conn.taken);
      assert (header + rest)[1..3] == header[1..3];
      return Ok(header + rest);
    }

    /** What was written, read and noted on the connection by now. */
    ghost function Now(): Marks
      reads this, conn
      requires conn != null
    {
      Marks(conn.sent, conn.failures, conn.reading.issued, conn.taken)
    }

    /** The frame is an answer that begins at this place and was read to its end since the
        latest write. */
    ghost predicate Answer(frame: seq<byte>, from: nat, request: seq<byte>)
      reads this, conn
    {
      && conn != null && conn.Valid() && from <= conn.taken
      && IsCut(frame) && frame == conn.stream[from..conn.taken] && (request != [] ==> Answers(frame))
    }

    /** Write the request once, read one frame. */
    method WriteAndRead(request: seq<byte>) returns (r: Result<seq<byte>, Error>)
      requires Valid() && conn != null
      modifies conn
      ensures Valid() && old(conn.taken) <= conn.taken && old(conn.failures) <= conn.failures
      ensures Within(old(conn.sent), conn.sent, request)
      ensures r.Ok? ==> conn.sent == old(conn.sent) + request && Answer(r.value, old(conn.taken), request)
      ensures r.Ok? ==> conn.taken == EndOf(conn.stream, old(conn.taken))
                        && r.value[5] == conn.stream[old(conn.taken) + 5]
      ensures conn.reading.issued >= old(conn.reading.issued)
      ensures if conn.reading.issued == old(conn.reading.issued) then conn.reading.asked == old(conn.reading.asked)
              else Incomplete(conn.stream, old(conn.taken), conn.reading.asked)
      ensures r.Err? ==> r.error.OfAttempt()
      ensures r.Err? ==>
                || conn.failures > old(conn.failures)
                || (TooLongAt(conn.stream, old(conn.taken)) && old(conn.taken) + 3 == conn.taken)
    {
      var fault := conn.WriteFrame(request);
      if fault.Some? {
        return Err(WriteFailed(fault.value));
      }
      r := ReadFrameLocked();
    }

    /** So many copies of the request were written since these marks, each answered by a
        whole frame without the number, and nothing else was read. */
    ghost predicate Refused(number: byte, request: seq<byte>, copies: nat, since: Marks)
      reads this, conn, network, sequence
    {
      && Valid() && conn != null
      && conn.sent == since.sent + Copies(request, copies)
      && since.failures <= conn.failures && since.issued <= conn.reading.issued && since.taken <= conn.taken
      && Stale(number, conn.stream, since.taken, conn.taken, copies)
      && AskedInTime(conn, number, since.issued, since.taken)
    }

    /** The outcome of one copy more than so many that were refused since these marks; its
        answer begins at the place given. */
    ghost predicate Exchanged(number: byte, request: seq<byte>, r: Result<seq<byte>, Error>, refused: nat, from: nat,
                              since: Marks)
      reads this, conn, network, sequence
    {
      && Valid() && conn != null
      && since.sent + Copies(request, refused) <= conn.sent <= since.sent + Copies(request, refused + 1)
      && AskedInTime(conn, number, since.issued, since.taken)
      && Stale(number, conn.stream, since.taken, from, refused)
      && (r.Ok? ==> conn.sent == since.sent + Copies(request, refused + 1) && Answer(r.value, from, request))
      && (r.Err? ==> LetDown(conn, number, since.failures, since.issued, since.taken) && r.error.OfAttempt())
    }

    /** One more copy of the request, and what answers it. */
    method OneCopy(number: byte, request: seq<byte>, ghost refused: nat, ghost since: Marks)
      returns (r: Result<seq<byte>, Error>)
      requires Refused(number, request, refused, since) && refused < SEQUENCE_ATTEMPTS
      modifies conn
      ensures Exchanged(number, request, r, refused, old(conn.taken), since)
      ensures r.Ok? && !Echoes(r.value, number) ==> Refused(number, request, refused + 1, since)
    {
      ghost var start, before := conn.taken, conn.reading.issued;
      Assoc(since.sent, Copies(request, refused), request);
      r := WriteAndRead(request);
      if conn.reading.issued > before {
        StaleThenIncomplete(number, conn.stream, since.taken, start, refused, conn.reading.asked,
                            SEQUENCE_ATTEMPTS - 1);
      }
      if r.Ok? && !Echoes(r.value, number) {
        OneMoreStale(number, conn.stream, since.taken, start, refused);
      }
    }

    /** Up to ten copies of the request. Each but the last was answered by a whole frame
        without the number; the tenth answer is returned even if it lacks it too. Once the
        answer is there nothing more is read. */
    method ExchangeLocked(number: byte, request: seq<byte>)
      returns (r: Result<seq<byte>, Error>, ghost copies: nat, ghost refused: nat, ghost from: nat)
      requires Valid() && conn != null
      modifies conn
      ensures refused + 1 == copies <= SEQUENCE_ATTEMPTS
      ensures Exchanged(number, request, r, refused, from, old(Now()))
      ensures r.Ok? ==> |r.value| > 5 && (r.value[5] == number || copies == 10)
    {
      ghost var since := Now();
      assert Copies(request, 0) == [];
      r, copies, refused, from := Err(Cancelled), 0, 0, 0;
      var attempt := 0;
      while attempt < SEQUENCE_ATTEMPTS
        invariant 0 <= attempt == copies <= SEQUENCE_ATTEMPTS
        invariant Refused(number, request, copies, since)
        invariant copies > 0 ==>
                    refused + 1 == copies && r.Ok? && Exchanged(number, request, r, refused, from, since)
      {
        refused, from := copies, conn.taken;
        r := OneCopy(number, request, refused, since);
        copies := copies + 1;
        if r.Err? || Echoes(r.value, number) {
          return;
        }
        attempt := attempt + 1;
      }
    }

    /** A frame answers the last of so many copies, after what the connection carried
        before. Only the answer to the tenth may lack the number. */
    ghost predicate Received(number: byte, carried: seq<byte>, request: seq<byte>, copies: nat, frame: seq<byte>)
      reads this, conn
    {
      && conn != null && 1 <= copies <= 10 && conn.sent == carried + Copies(request, copies)
      && |frame| > 5 && (frame[5] == number || copies == 10)
      && IsCut(frame) && (request != [] ==> Answers(frame))
    }

    /** The same, with the most that may be written named once. */
    method BoundedExchange(number: byte, request: seq<byte>, ghost limit: seq<byte>)
      returns (r: Result<seq<byte>, Error>, ghost copies: nat)
      requires Valid() && conn != null && limit == Copies(request, SEQUENCE_ATTEMPTS)
      modifies conn
      ensures Valid()
      ensures Within(old(conn.sent), conn.sent, limit)
      ensures r.Ok? ==> Received(number, old(conn.sent), request, copies, r.value)
      ensures r.Err? ==> LetDown(conn, number, old(conn.failures), old(conn.reading.issued), old(conn.taken))
      ensures r.Err? ==> r.error.OfAttempt()
    {
      ghost var base := conn.sent;
      ghost var refused, from;
      r, copies, refused, from := ExchangeLocked(number, request);
      CopiesWithin(base, request, copies, conn.sent, SEQUENCE_ATTEMPTS);
    }

    /** Connect if needed, then one exchange. Both keep what holds of the connections
        granted since an earlier moment. */
    method Attempt(ctx: Context, number: byte, request: seq<byte>, ghost before: seq<Conn>, ghost limit: seq<byte>)
      returns (r: Result<seq<byte>, Error>, ghost copies: nat)
      requires Valid() && Addressed() && limit == Copies(request, SEQUENCE_ATTEMPTS)
      requires Spent(network, before, null, number, limit)
      requires conn != null ==> network.conns == before
      modifies this, conn, network, ctx
      ensures Valid() && (conn == null || conn == old(conn) || (old(conn) == null && fresh(conn)))
      ensures old(ctx.done) ==> ctx.done
      ensures old(conn) != null ==> conn == old(conn) && unchanged(network)
      ensures old(conn) == null ==> Granted(network, old(network.conns), conn)
      ensures forall k | |old(network.conns)| <= k < |network.conns| :: fresh(network.conns[k])
      ensures Spent(network, before, if r.Ok? then conn else null, number, limit)
      ensures old(conn) == null ==>
                network.dials == old(network.dials) + 1
                || (conn == null && r == Err(Cancelled) && network.dials == old(network.dials))
      ensures conn == null ==> r.Err?
      ensures r.Err? && old(conn) != null ==>
                LetDown(conn, number, old(conn.failures), old(conn.reading.issued), old(conn.taken))
      ensures r == Err(Cancelled) ==> ctx.done
      ensures r.Err? ==> r.error.OfAttempt() || r.error.Cancelled?
      ensures old(conn) != null ==> Within(old(conn.sent), conn.sent, limit)
      ensures r.Ok? && old(conn) != null ==> Received(number, old(conn.sent), request, copies, r.value)
      ensures r.Ok? && old(conn) == null ==> Received(number, [], request, copies, r.value)
    {
      copies := 0;
      if conn == null {
        var refused := ConnectLocked(ctx);
        if refused.Some? {
          return Err(refused.value), copies;
        }
        assert Spent(network, before, conn, number, limit);
      }
      r, copies := BoundedExchange(number, request, limit);
    }

    /** After a failed attempt: gives up, or drops the connection and waits. */
    method GiveUp(ctx: Context, attempt: nat, failed: Error) returns (error: Option<Error>)
      requires Valid()
      modifies this, ctx
      ensures Valid() && (old(ctx.done) ==> ctx.done && error == Some(Cancelled))
      ensures error.None? ==> conn == null && attempt != CONNECTION_ATTEMPTS
      ensures error.Some? ==>
                (error.value == Cancelled && ctx.done) || (attempt == CONNECTION_ATTEMPTS && error.value == failed)
      ensures error.Some? ==> conn == null || conn == old(conn)
    {
      var cancelled := ctx.Err();
      if cancelled {
        return Some(Cancelled);
      }
      if attempt == CONNECTION_ATTEMPTS {
        return Some(failed);
      }
      CloseLocked();
      cancelled := ctx.Wait();
      return if cancelled then Some(Cancelled) else None;
    }

    /** One round of the retry loop: an attempt, and giving up or not if it fails. */
    method Round(ctx: Context, number: byte, request: seq<byte>, attempt: nat, ghost before: seq<Conn>,
                 ghost limit: seq<byte>)
      returns (r: Result<seq<byte>, Error>, last: bool, ghost copies: nat)
      requires Valid() && Addressed() && limit == Copies(request, SEQUENCE_ATTEMPTS)
      requires Spent(network, before, null, number, limit)
      requires conn != null ==> network.conns == before
      modifies this, conn, network, ctx
      ensures Valid() && (conn == null || conn == old(conn) || (old(conn) == null && fresh(conn)))
      ensures (old(ctx.done) ==> ctx.done) && (r.Ok? ==> conn != null && last)
      ensures NewlyGranted(network, old(network.conns), old(network.dials)) && old(network.conns) <= network.conns
      ensures forall k | |old(network.conns)| <= k < |network.conns| :: fresh(network.conns[k])
      ensures Spent(network, before, if r.Ok? then conn else null, number, limit)
      ensures old(network.dials) <= network.dials <= old(network.dials) + if old(conn) == null then 1 else 0
      ensures !last || (r.Err? && r.error.OfAttempt()) ==>
                network.dials == old(network.dials) + if old(conn) == null then 1 else 0
      ensures !last ==> conn == null && attempt != CONNECTION_ATTEMPTS
      ensures last && r.Err? ==>
                (r.error == Cancelled && ctx.done) || (r.error.OfAttempt() && attempt == CONNECTION_ATTEMPTS)
      ensures old(conn) != null ==> Within(old(conn.sent), old(conn).sent, limit)
      ensures old(conn) != null && r.Err? ==>
                LetDown(old(conn), number, old(conn.failures), old(conn.reading.issued), old(conn.taken))
      ensures r.Ok? && old(conn) != null ==>
                conn == old(conn) && Received(number, old(conn.sent), request, copies, r.value)
      ensures r.Ok? && old(conn) == null ==> Received(number, [], request, copies, r.value)
    {
      r, copies := Attempt(ctx, number, request, before, limit);
      if r.Ok? {
        return r, true, copies;
      }
      var stop := GiveUp(ctx, attempt, r.error);
      return if stop.Some? then Err(stop.value) else r, stop.Some?, copies;
    }

    /** At most 11 attempts, each writing at most ten copies of the request on its own
        connection. A connection is dropped only after it let the reader down, and giving
        up takes all 11 attempts or a cancelled context. */
    method InternalSendLocked(ctx: Context, number: byte, request: seq<byte>, ghost limit: seq<byte>)
      returns (r: Result<seq<byte>, Error>, ghost copies: nat)
      requires Valid() && conn != null && limit == Copies(request, SEQUENCE_ATTEMPTS)
      modifies this, conn, network, ctx
      ensures Valid() && (conn == null || conn == old(conn) || fresh(conn)) && (old(ctx.done) ==> ctx.done)
      ensures old(network.dials) <= network.dials <= old(network.dials) + 10
      ensures r == Err(Cancelled) ==> ctx.done
      ensures r.Err? ==> r.error.OfAttempt() || r.error.Cancelled?
      ensures r.Err? && r.error.OfAttempt() ==> network.dials == old(network.dials) + 10
      ensures r.Err? || conn != old(conn) ==>
                LetDown(old(conn), number, old(conn.failures), old(conn.reading.issued), old(conn.taken))
      ensures Spent(network, old(network.conns), if r.Ok? then conn else null, number, limit)
      ensures NewlyGranted(network, old(network.conns), old(network.dials))
      ensures forall k | |old(network.conns)| <= k < |network.conns| :: fresh(network.conns[k])
      ensures Within(old(conn.sent), old(conn).sent, limit)
      ensures r.Ok? && conn == old(conn) ==> Received(number, old(conn.sent), request, copies, r.value)
      ensures r.Ok? && conn != old(conn) ==> Received(number, [], request, copies, r.value)
    {
      ghost var before, first := network.conns, conn;
      var attempt := 1;
      while true
        invariant 1 <= attempt <= CONNECTION_ATTEMPTS && Valid() && Addressed() && (old(ctx.done) ==> ctx.done)
        invariant attempt == 1 ==> conn == first && unchanged(first)
        invariant attempt == 1 ==> network.conns == before && network.dials == old(network.dials)
        invariant attempt > 1 ==> conn == null && network.dials == old(network.dials) + attempt - 2
        invariant attempt > 1 ==> LetDown(first, number, old(conn.failures), old(conn.reading.issued), old(conn.taken))
        invariant Spent(network, before, null, number, limit)
        invariant NewlyGranted(network, before, old(network.dials))
        invariant forall k | |before| <= k < |network.conns| :: fresh(network.conns[k])
        invariant Within(old(conn.sent), first.sent, limit)
        decreases CONNECTION_ATTEMPTS - attempt
      {
        var last;
        r, last, copies := Round(ctx, number, request, attempt, before, limit);
        if last {
          return;
        }
        attempt := attempt + 1;
      }
    }

    /** The rest of SendRTU once the sequence number is drawn. */
    method Exchange(ctx: Context, number: byte, rtu: seq<byte>)
      returns (r: Result<seq<byte>, Error>, ghost copies: nat)
      requires Valid() && conn != null
      modifies this, conn, network, ctx
      ensures Valid() && (conn == null || conn == old(conn) || fresh(conn)) && (old(ctx.done) ==> ctx.done)
      ensures old(network.dials) <= network.dials <= old(network.dials) + 10
      ensures r == Err(Cancelled) ==> ctx.done
      ensures r.Err? ==> !r.error.BadSettings?
      ensures r.Err? && r.error.OfAttempt() ==> network.dials == old(network.dials) + 10
      ensures conn != old(conn) || (r.Err? && !r.error.BadFrame?) ==>
                LetDown(old(conn), number, old(conn.failures), old(conn.reading.issued), old(conn.taken))
      ensures Spent(network, old(network.conns), if r.Ok? || r.error.BadFrame? then conn else null, number,
                    Asked(number, serial, rtu, 10))
      ensures NewlyGranted(network, old(network.conns), old(network.dials))
      ensures forall k | |old(network.conns)| <= k < |network.conns| :: fresh(network.conns[k])
      ensures Within(old(conn.sent), old(conn).sent, Asked(number, serial, rtu, 10))
      ensures r.Ok? ==> conn != null && 1 <= copies <= 10 && Replied(number, Ok(r.value))
      ensures r.Ok? && conn == old(conn) ==> conn.sent == old(conn.sent) + Asked(number, serial, rtu, copies)
      ensures r.Ok? && conn != old(conn) ==> conn.sent == Asked(number, serial, rtu, copies)
      ensures r.Err? && r.error.BadFrame? ==> Replied(number, Err(r.error.frame))
      ensures r == Err(BadFrame(WrongSequence)) ==> copies == 10
    {
      var request := CreateFrame(number, serial, rtu);
      var response;
      response, copies := InternalSendLocked(ctx, number, request, Copies(request, SEQUENCE_ATTEMPTS));
      if response.Err? {
        return response, copies;
      }
      r := Unpack(number, serial, response.value);
    }

    /** The rest of SendRTU once connected. */
    method NumberedExchange(ctx: Context, rtu: seq<byte>, ghost before: seq<Conn>)
      returns (r: Result<seq<byte>, Error>, ghost copies: nat)
      requires Valid() && conn != null && Untouched(network, before, conn)
      modifies this, conn, network, sequence, ctx
      ensures Valid() && (conn == null || conn == old(conn) || fresh(conn)) && (old(ctx.done) ==> ctx.done)
      ensures old(network.dials) <= network.dials <= old(network.dials) + 10
      ensures r == Err(Cancelled) ==> ctx.done
      ensures r.Err? ==> !r.error.BadSettings?
      ensures r.Err? && r.error.OfAttempt() ==> network.dials == old(network.dials) + 10
      ensures conn != old(conn) || (r.Err? && !r.error.BadFrame?) ==>
                LetDown(old(conn), sequence.value, old(conn.failures), old(conn.reading.issued), old(conn.taken))
      ensures Spent(network, before, if r.Ok? || r.error.BadFrame? then conn else null, sequence.value,
                    Asked(sequence.value, serial, rtu, 10))
      ensures NewlyGranted(network, old(network.conns), old(network.dials))
      ensures forall k | |old(network.conns)| <= k < |network.conns| :: fresh(network.conns[k])
      ensures sequence.calls == old(sequence.calls) + 1 && (old(sequence.calls) > 0 ==> unchanged(sequence`first))
      ensures sequence.value == (sequence.first + old(sequence.calls)) % 0x100
      ensures old(network.conns) <= network.conns
      ensures Within(old(conn.sent), old(conn).sent, Asked(sequence.value, serial, rtu, 10))
      ensures r.Ok? ==> conn != null && 1 <= copies <= 10 && Replied(sequence.value, Ok(r.value))
      ensures r.Ok? && conn == old(conn) ==> conn.sent == old(conn.sent) + Asked(sequence.value, serial, rtu, copies)
      ensures r.Ok? && conn != old(conn) ==> conn.sent == Asked(sequence.value, serial, rtu, copies)
      ensures r.Err? && r.error.BadFrame? ==> Replied(sequence.value, Err(r.error.frame))
      ensures r == Err(BadFrame(WrongSequence)) ==> copies == 10
    {
      ghost var first, granted := conn, network.conns;
      var number := sequence.Next();
      r, copies := Exchange(ctx, number, rtu);
      if granted != before {
        OneMoreGranted(network, before, first, if r.Ok? || r.error.BadFrame? then conn else null, number,
                       Asked(number, serial, rtu, 10));
      }
    }

    /** One call dials at most 11 times, and each connection of the call carries at most
        ten copies of one and the same frame, so 110 in all. A reply, or a complaint about
        one, is the parse, under this call's own number, of all that was read after the
        last whole copy; a wrong number is reported only after ten copies. Without a
        cancellation a call fails otherwise only if the first dial is refused or all its
        attempts fail. */
    method SendRTU(ctx: Context, rtu: seq<byte>) returns (r: Result<seq<byte>, Error>, ghost copies: nat)
      requires Valid()
      modifies this, conn, network, sequence, ctx
      ensures Valid() && (conn == null || conn == old(conn) || fresh(conn)) && (old(ctx.done) ==> ctx.done)
      ensures network.dials <= old(network.dials) + 11 - (if old(conn) == null then 0 else 1)
      ensures r == Err(Cancelled) ==> ctx.done
      ensures r == Err(BadSettings) ==> !Addressed() && network.dials == old(network.dials)
      ensures r.Err? && r.error.OfAttempt() ==>
                || (old(conn) == null && r.error == DialFailed && network.conns == old(network.conns)
                    && network.dials == old(network.dials) + 1)
                || network.dials == old(network.dials) + 11 - if old(conn) == null then 0 else 1
      ensures r.Err? && r.error.BadFrame? ==> Replied(sequence.value, Err(r.error.frame))
      ensures r == Err(BadFrame(WrongSequence)) ==> copies == 10
      ensures old(conn) != null && conn != old(conn) ==>
                LetDown(old(conn), sequence.value, old(conn.failures), old(conn.reading.issued), old(conn.taken))
      ensures old(conn) != null && r.Err? && !r.error.BadFrame? ==>
                LetDown(old(conn), sequence.value, old(conn.failures), old(conn.reading.issued), old(conn.taken))
      ensures Spent(network, old(network.conns), if r.Ok? || r.error.BadFrame? then conn else null, sequence.value,
                    Asked(sequence.value, serial, rtu, 10))
      ensures NewlyGranted(network, old(network.conns), old(network.dials))
      ensures forall k | |old(network.conns)| <= k < |network.conns| :: fresh(network.conns[k])
      ensures old(sequence.calls) <= sequence.calls <= old(sequence.calls) + 1
      ensures old(sequence.calls) > 0 ==> sequence.first == old(sequence.first)
      ensures sequence.calls > old(sequence.calls) ==> sequence.value == (sequence.first + old(sequence.calls)) % 0x100
      ensures old(conn) != null ==>
                Within(old(conn.sent), old(conn).sent, Asked(sequence.value, serial, rtu, 10))
      ensures r.Ok? ==> conn != null && sequence.calls == old(sequence.calls) + 1 && 1 <= copies <= 10
      ensures r.Ok? && conn == old(conn) ==> conn.sent == old(conn.sent) + Asked(sequence.value, serial, rtu, copies)
      ensures r.Ok? && conn != old(conn) ==> conn.sent == Asked(sequence.value, serial, rtu, copies)
      ensures r.Ok? ==> Replied(sequence.value, Ok(r.value))
    {
      copies := 0;
      ghost var before := network.conns;
      var refused := ConnectLocked(ctx);
      if refused.Some? {
        return Err(refused.value), copies;
      }
      assert Untouched(network, before, conn);
      r, copies := NumberedExchange(ctx, rtu, before);
    }
  }

  /** What n copies of a request put on the wire. */
  function Asked(number: byte, serial: int, rtu: seq<byte>, n: nat): seq<byte> {
    Copies(RequestFrame(number, serial, rtu), n)
  }

  method Unpack(number: byte, serial: int, frame: seq<byte>) returns (r: Result<seq<byte>, Error>)
    ensures r.Ok? ==> ParseFrame(number, serial, frame) == Ok(r.value)
    ensures r.Err? ==>
              ParseFrame(number, serial, frame).Err? && r.error == BadFrame(ParseFrame(number, serial, frame).error)
    ensures r == Err(BadFrame(WrongSequence)) ==> |frame| > 5 && frame[5] != number
  {
    var parsed := ParseFrame(number, serial, frame);
    if parsed.Err? {
      return Err(BadFrame(parsed.error));
    }
    return Ok(parsed.value);
  }

  /** Between one and all copies: what was there before is still there, and the most that
      may be written is not exceeded. */
  lemma CopiesWithin(base: seq<byte>, frame: seq<byte>, n: nat, sent: seq<byte>, most: nat)
    requires 1 <= n <= most && base + Copies(frame, n - 1) <= sent <= base + Copies(frame, n)
    ensures base <= sent <= base + Copies(frame, most)
    ensures base == [] ==> sent <= Copies(frame, most) && base + Copies(frame, n) == Copies(frame, n)
  {
    CopiesGrow(frame, n, most);
    assert base <= base + Copies(frame, n - 1);
    assert base + Copies(frame, n) <= base + Copies(frame, most);
    assert base == [] ==> base + Copies(frame, most) == Copies(frame, most);
  }
}

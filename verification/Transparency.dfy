/** One device reply through the four transports. Each reader promises to cut a frame of
    its own kind off the front of the unread bytes; here it is shown which frame that must
    be, what it is unpacked to, and so what one read of each transport returns. */
module Transparency {
  import opened Bytes
  import opened Cancellation
  import opened Crc
  import opened Framing
  import ModbusTcp
  import RtuTcp
  import Serial
  import Solarman
  import opened Wire

  /** Raw RTU, over TCP or a serial line: any frame cut off the front is the reply. */
  lemma RawReaders(reply: seq<byte>, later: seq<byte>, cut: seq<byte>)
    requires IsFrame(reply) && IsFrame(cut) && cut <= reply + later
    ensures cut == reply
  {
    FrameUnique(cut, reply, reply + later);
  }

  /** Modbus TCP: the reply comes back exactly under the stated condition. */
  lemma ModbusTcpReader(reply: seq<byte>, later: seq<byte>, cut: seq<byte>, transaction: uint16)
    requires ValidCRC(reply) && IsFrame(reply)
    requires ModbusTcp.IsMbap(cut) && cut <= ModbusTcp.Mbap(transaction, reply[..|reply| - 2]) + later
    ensures ModbusTcp.ParseResponse(transaction, cut) == Ok(reply) <==> |reply| >= 6 && reply[2] <= 127
  {
    LengthBounds(reply);
    var pdu := reply[..|reply| - 2];
    var sent := ModbusTcp.Mbap(transaction, pdu);
    ModbusTcp.MbapFields(transaction, pdu);
    ModbusTcp.MbapUnique(cut, sent, sent + later);
    ModbusTcp.TransparentIff(transaction, reply);
  }

  /** SolarmanV5: the reply always comes back. */
  lemma SolarmanReader(reply: seq<byte>, later: seq<byte>, cut: seq<byte>,
                       sequence: byte, serial: int, mark: byte, filler: seq<byte>, check: byte)
    requires IsFrame(reply) && |filler| == 13
    requires Solarman.IsCut(cut) && cut <= Solarman.Wrap(sequence, serial, reply, mark, filler, check) + later
    ensures Solarman.ParseFrame(sequence, serial, cut) == Ok(reply)
  {
    LengthBounds(reply);
    var sent := Solarman.Wrap(sequence, serial, reply, mark, filler, check);
    Solarman.WrapFields(sequence, serial, reply, mark, filler, check);
    Solarman.LengthField(|reply| + 14);
    Solarman.CutUnique(cut, sent, sent + later);
    Solarman.UnwrapIff(sequence, serial, reply, mark, filler, check);
  }

  /** All four transports hand the caller the same bytes for a reply of at least six
      bytes whose third byte is below 128, whatever follows it on the wire. */
  lemma AllTransportsAgree(reply: seq<byte>, later: seq<byte>, raw: seq<byte>, mbap: seq<byte>, wrapped: seq<byte>,
                           transaction: uint16, sequence: byte, serial: int, mark: byte, filler: seq<byte>, check: byte)
    requires ValidCRC(reply) && IsFrame(reply) && |reply| >= 6 && reply[2] <= 127 && |filler| == 13
    requires IsFrame(raw) && raw <= reply + later
    requires ModbusTcp.IsMbap(mbap) && mbap <= ModbusTcp.Mbap(transaction, reply[..|reply| - 2]) + later
    requires Solarman.IsCut(wrapped) && wrapped <= Solarman.Wrap(sequence, serial, reply, mark, filler, check) + later
    ensures raw == reply
    ensures ModbusTcp.ParseResponse(transaction, mbap) == Ok(raw)
    ensures Solarman.ParseFrame(sequence, serial, wrapped) == Ok(raw)
  {
    RawReaders(reply, later, raw);
    ModbusTcpReader(reply, later, mbap, transaction);
    SolarmanReader(reply, later, wrapped, sequence, serial, mark, filler, check);
  }

  // One read of each transport, whatever the chunks --------------------------------------

  lemma Front(stream: seq<byte>, a: nat, b: nat)
    requires a <= b <= |stream|
    ensures stream[a..b] <= stream[a..]
  {
    assert stream[a..] == stream[a..b] + stream[b..];
  }

  /** When no frame was complete, the reply was not there as a whole. */
  lemma Missing(reply: seq<byte>, later: seq<byte>, buffered: seq<byte>, stream: seq<byte>, from: nat, to: nat)
    requires IsFrame(reply) && Unfinished(buffered, stream, from, to) && buffered + stream[from..] == reply + later
    ensures |buffered| + to - from < |reply|
  {
    Front(stream, from, to);
    assert buffered + stream[from..to] <= buffered + stream[from..];
    NotYet(reply, later, buffered + stream[from..to]);
  }

  /** Between two notes a deadline was refused, or reads were issued, all of them before so
      many bytes from the start on had been taken. */
  predicate CutShort(before: Reading, after: Reading, start: int, size: nat) {
    after.refused > before.refused || (after.issued > before.issued && after.asked < start + size)
  }

  lemma Rest(pending: seq<byte>, stream: seq<byte>, a: nat, b: nat, frame: seq<byte>, rest: seq<byte>, later: seq<byte>)
    requires a <= b <= |stream| && frame + rest == pending + stream[a..b] && pending + stream[a..] == frame + later
    ensures rest + stream[b..] == later
  {
    assert stream[a..] == stream[a..b] + stream[b..];
    Assoc(pending, stream[a..b], stream[b..]);
    Assoc(frame, rest, stream[b..]);
    assert later == (frame + later)[|frame|..] == rest + stream[b..];
  }

  /** With the reply at the front of the unread bytes, buffered or not, a read returns it,
      unless the deadline is refused or a read fails that was issued before the whole reply
      was there. So a reply that has arrived is never waited on. */
  method ReadRtuTcp(transport: RtuTcp.Transport, ghost reply: seq<byte>, ghost later: seq<byte>)
    returns (r: Result<seq<byte>, RtuTcp.Error>)
    requires transport.Valid() && transport.conn != null && IsFrame(reply)
    requires transport.Unread() == reply + later
    modifies transport, transport.conn
    ensures transport.Valid() && transport.conn == old(transport.conn)
    ensures r == Ok(reply)
            || (r.Err? && transport.conn.failures > old(transport.conn.failures)
                && CutShort(old(transport.conn.reading), transport.conn.reading,
                            old(transport.conn.taken - |transport.pending|), |reply|))
    ensures transport.conn.reading.issued > old(transport.conn.reading.issued) ==>
              transport.conn.reading.asked < old(transport.conn.taken - |transport.pending|) + |reply|
    ensures r.Ok? ==> transport.Unread() == later
  {
    ghost var stream, before, pending := transport.conn.stream, transport.conn.taken, transport.pending;
    r := transport.ReadFrameLocked();
    if transport.conn.reading.issued > old(transport.conn.reading.issued) {
      Missing(reply, later, pending, stream, before, transport.conn.reading.asked);
    }
    if r.Ok? {
      ghost var after := transport.conn.taken;
      Front(stream, before, after);
      assert r.value + transport.pending <= reply + later;
      RawReaders(reply, later, r.value);
      Rest(pending, stream, before, after, reply, transport.pending, later);
    }
  }

  lemma MissingUnbuffered(reply: seq<byte>, later: seq<byte>, stream: seq<byte>, from: nat, to: nat)
    requires IsFrame(reply) && Serial.Incomplete(stream, from, to) && stream[from..] == reply + later
    ensures to - from < |reply|
  {
    Front(stream, from, to);
    NotYet(reply, later, stream[from..to]);
  }

  lemma NoneBeyondReply(reply: seq<byte>, later: seq<byte>, stream: seq<byte>, from: nat, to: nat)
    requires IsFrame(reply) && Serial.NothingBeyond(stream, from, to) && stream[from..] == reply + later
    ensures to - from <= |reply|
  {
    var data := stream[from..to];
    Front(stream, from, to);
    if !HasFrame(data) {
      NotYet(reply, later, data);
    } else {
      RawReaders(reply, later, data);
    }
  }

  /** Likewise, but for a cancelled context, and no byte beyond the reply is taken. */
  method ReadSerial(transport: Serial.Transport, ctx: Context, ghost reply: seq<byte>, ghost later: seq<byte>)
    returns (r: Result<seq<byte>, Serial.Error>)
    requires transport.Valid() && transport.port != null && IsFrame(reply)
    requires transport.port.stream[transport.port.taken..] == reply + later
    modifies transport.port, ctx
    ensures r == Ok(reply) || (r == Err(Serial.Cancelled) && ctx.done)
            || (r.Err? && transport.port.failures > old(transport.port.failures)
                && CutShort(old(transport.port.reading), transport.port.reading, old(transport.port.taken), |reply|))
    ensures transport.port.reading.issued > old(transport.port.reading.issued) ==>
              transport.port.reading.asked < old(transport.port.taken) + |reply|
    ensures transport.port.taken <= old(transport.port.taken) + |reply|
    ensures r.Ok? ==> transport.port.taken == old(transport.port.taken) + |reply|
  {
    ghost var stream, before := transport.port.stream, transport.port.taken;
    r := transport.ReadFrameLocked(ctx);
    if transport.port.reading.issued > old(transport.port.reading.issued) {
      MissingUnbuffered(reply, later, stream, before, transport.port.reading.asked);
    }
    NoneBeyondReply(reply, later, stream, before, transport.port.taken);
    if r.Ok? {
      Front(stream, before, transport.port.taken);
      RawReaders(reply, later, r.value);
    }
  }

  /** A header announces the same length whatever follows it. */
  lemma AnnouncedLength(pdu: seq<byte>, transaction: uint16, later: seq<byte>)
    requires |pdu| <= 0xFFFF
    ensures FromBE16((ModbusTcp.Mbap(transaction, pdu) + later)[4..6]) == |pdu|
  {
    ModbusTcp.MbapFields(transaction, pdu);
    assert (ModbusTcp.Mbap(transaction, pdu) + later)[4..6] == ModbusTcp.Mbap(transaction, pdu)[4..6];
  }

  /** A reply that meets the condition is returned, unless the deadline is refused or a
      read fails that was issued before all of its frame was there; any other is never
      returned. */
  method ReadModbusTcp(transport: ModbusTcp.Transport, transaction: uint16, ghost reply: seq<byte>,
                       ghost later: seq<byte>)
    returns (r: Result<seq<byte>, ModbusTcp.Error>)
    requires transport.Valid() && transport.conn != null && ValidCRC(reply) && IsFrame(reply)
    requires transport.conn.stream[transport.conn.taken..] == ModbusTcp.Mbap(transaction, reply[..|reply| - 2]) + later
    modifies transport.conn
    ensures |reply| >= 6 && reply[2] <= 127 ==> r == Ok(reply) || (r.Err? && !r.error.BadFrame?)
    ensures r.Err? && !r.error.BadFrame? ==>
              && transport.conn.failures > old(transport.conn.failures)
              && CutShort(old(transport.conn.reading), transport.conn.reading, old(transport.conn.taken),
                          6 + |reply| - 2)
    ensures transport.conn.reading.issued > old(transport.conn.reading.issued) ==>
              transport.conn.reading.asked < old(transport.conn.taken) + 6 + |reply| - 2
    ensures !(|reply| >= 6 && reply[2] <= 127) ==> r != Ok(reply)
  {
    ghost var stream, before := transport.conn.stream, transport.conn.taken;
    LengthBounds(reply);
    AnnouncedLength(reply[..|reply| - 2], transaction, later);
    assert stream[before..][4..6] == stream[before + 4..before + 6];
    r := transport.ReadFrameLocked();
    if r.Ok? {
      Front(stream, before, transport.conn.taken);
      ModbusTcpReader(reply, later, r.value, transaction);
      r := ModbusTcp.Unpack(transaction, r.value);
    }
  }

  lemma WrappedLength(sequence: byte, serial: int, reply: seq<byte>, later: seq<byte>, mark: byte, filler: seq<byte>,
                      check: byte)
    requires |filler| == 13 && |reply| + 14 <= 0xFFFF
    ensures FromLE16((Solarman.Wrap(sequence, serial, reply, mark, filler, check) + later)[1..3]) == |reply| + 14
  {
    var frame := Solarman.Wrap(sequence, serial, reply, mark, filler, check);
    Solarman.WrapFields(sequence, serial, reply, mark, filler, check);
    Solarman.LengthField(|reply| + 14);
    assert (frame + later)[1..3] == frame[1..3];
  }

  /** The reply is returned, unless the deadline is refused or a read fails that was issued
      before all of its frame was there. */
  method ReadSolarman(transport: Solarman.Transport, sequence: byte, ghost reply: seq<byte>, ghost later: seq<byte>,
                      ghost mark: byte, ghost filler: seq<byte>, ghost check: byte)
    returns (r: Result<seq<byte>, Solarman.Error>)
    requires transport.Valid() && transport.conn != null && IsFrame(reply) && |filler| == 13
    requires transport.conn.stream[transport.conn.taken..]
             == Solarman.Wrap(sequence, transport.serial, reply, mark, filler, check) + later
    modifies transport.conn
    ensures r == Ok(reply)
            || (r.Err? && transport.conn.failures > old(transport.conn.failures)
                && CutShort(old(transport.conn.reading), transport.conn.reading, old(transport.conn.taken),
                            27 + |reply|))
    ensures transport.conn.reading.issued > old(transport.conn.reading.issued) ==>
              transport.conn.reading.asked
              < old(transport.conn.taken) + 27 + |reply|
  {
    ghost var stream, before := transport.conn.stream, transport.conn.taken;
    LengthBounds(reply);
    WrappedLength(sequence, transport.serial, reply, later, mark, filler, check);
    assert stream[before..][1..3] == stream[before + 1..before + 3];
    r := transport.ReadFrameLocked();
    if r.Ok? {
      Front(stream, before, transport.conn.taken);
      SolarmanReader(reply, later, r.value, sequence, transport.serial, mark, filler, check);
      r := Solarman.Unpack(sequence, transport.serial, r.value);
    }
  }
}

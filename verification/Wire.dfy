/** A byte-stream connection with an adversarial peer and scheduler: the peer fixes the
    stream, and every call may deliver any number of bytes, or fail, as it likes. */
module Wire {
  import opened Bytes

  datatype Fault = Eof | UnexpectedEof | Timeout | Reset

  lemma SliceConcat(stream: seq<byte>, a: nat, b: nat, c: nat)
    requires a <= b <= c <= |stream|
    ensures stream[a..b] + stream[b..c] == stream[a..c]
  {
  }

  /** One frame written n times over. */
  function Copies(frame: seq<byte>, n: nat): (c: seq<byte>)
    ensures |c| == n * |frame|
  {
    if n == 0 then [] else Copies(frame, n - 1) + frame
  }

  lemma {:induction false} CopiesGrow(frame: seq<byte>, m: nat, n: nat)
    requires m <= n
    ensures Copies(frame, m) <= Copies(frame, n)
  {
    if m < n {
      CopiesGrow(frame, m, n - 1);
    }
  }

  /** No more than a prefix of these bytes was added to what had been sent before. */
  predicate Within(before: seq<byte>, sent: seq<byte>, limit: seq<byte>) {
    before <= sent <= before + limit && (before == [] ==> sent <= limit)
  }

  /** The reading side as an observer notes it: how many deadlines were set, how many of
      them failed, and how many reads had been issued when the latest was set; how many
      were issued, and the read position at the latest. */
  datatype Reading = Reading(deadlines: nat, refused: nat, armed: nat, issued: nat, asked: nat)

  function Deadline(before: Reading, ok: bool): Reading {
    before.(deadlines := before.deadlines + 1, refused := before.refused + if ok then 0 else 1,
            armed := before.issued)
  }

  /** One deadline was set between two notes, and before any of the reads. */
  predicate OneDeadline(before: Reading, after: Reading) {
    && after.deadlines == before.deadlines + 1 && after.armed == before.issued
    && before.refused <= after.refused && before.issued <= after.issued
  }

  class Conn {
    /** Everything the peer will ever send on this connection. */
    const stream: seq<byte>
    /** How much of it has been delivered or dropped. */
    var taken: nat
    /** Everything written so far. */
    var sent: seq<byte>
    /** Reads of a full buffer that may still return before the deadline makes them fail. */
    var patience: nat
    /** What an observer notes: the reading side; how often a call failed or moved none of the bytes asked
        for; how often output was asked for; the read position at the latest write; the
        read position and the number of bytes written at the latest flush; how many
        flushes. */
    ghost var reading: Reading
    ghost var failures: nat
    ghost var outputs: nat
    ghost var turn: nat
    ghost var flushed: nat
    ghost var sentAtFlush: nat
    ghost var flushes: nat

    ghost predicate Valid()
      reads this
    {
      turn <= taken <= |stream| && flushed <= taken && reading.asked <= taken
    }

    ghost function Delivered(): seq<byte>
      reads this
      requires Valid()
    {
      stream[..taken]
    }

    constructor (stream: seq<byte>)
      ensures Valid() && this.stream == stream && taken == 0 && sent == []
      ensures flushes == 0 && failures == 0 && outputs == 0 && reading.issued == 0
    {
      this.stream := stream;
      taken, sent, patience := 0, [], 0;
      turn, flushed, sentAtFlush, flushes, failures, outputs := 0, 0, 0, 0, 0, 0;
      reading := Reading(0, 0, 0, 0, 0);
    }

    method SetReadDeadline() returns (fault: Option<Fault>)
      modifies this`patience, this`failures, this`reading
      ensures failures == old(failures) + (if fault.Some? then 1 else 0)
      ensures reading == Deadline(old(reading), fault.None?)
    {
      patience := *;
      fault := *;
      reading := Deadline(reading, fault.None?);
      failures := failures + if fault.Some? then 1 else 0;
    }

    /** io.Reader: any prefix of what is left, possibly empty, possibly with an error. */
    method Read(max: nat) returns (chunk: seq<byte>, fault: Option<Fault>)
      requires Valid()
      modifies this`taken, this`patience, this`failures, this`reading
      ensures Valid() && old(taken) <= taken <= old(taken) + max
      ensures reading == old(reading).(issued := old(reading.issued) + 1, asked := old(taken))
      ensures chunk == stream[old(taken)..taken]
      ensures fault.None? ==> patience < old(patience)
      ensures failures == old(failures) + (if fault.Some? || (chunk == [] && max > 0) then 1 else 0)
    {
      reading := reading.(issued := reading.issued + 1, asked := taken);
      var count: nat :| count <= max && taken + count <= |stream|;
      chunk := stream[taken..taken + count];
      taken := taken + count;
      if patience == 0 {
        fault := Some(Timeout);
      } else {
        patience := patience - 1;
        fault := *;
      }
      failures := failures + if fault.Some? || (chunk == [] && max > 0) then 1 else 0;
    }

    /** io.ReadFull: all the bytes asked for, or an error. Every read comes before they are
        there. */
    method ReadFull(size: nat) returns (data: seq<byte>, fault: Option<Fault>)
      requires Valid()
      modifies this`taken, this`patience, this`failures, this`reading
      ensures reading == old(reading).(issued := reading.issued, asked := reading.asked)
      ensures old(reading.issued) <= reading.issued
      ensures reading.issued == old(reading.issued) ==> size == 0 && fault.None? && reading == old(reading)
      ensures reading.issued > old(reading.issued) ==> old(taken) <= reading.asked < old(taken) + size
      ensures Valid() && old(taken) <= taken && data == stream[old(taken)..taken]
      ensures |data| <= size && (fault.None? <==> |data| == size)
      ensures old(failures) <= failures && (fault.Some? ==> failures > old(failures))
      ensures fault == Some(Eof) ==> data == []
    {
      data, fault := [], None;
      while |data| < size && fault.None?
        invariant Valid() && old(taken) <= taken && data == stream[old(taken)..taken]
        invariant |data| <= size && (fault.Some? ==> reading.issued > old(reading.issued))
        invariant reading == old(reading).(issued := reading.issued, asked := reading.asked)
        invariant old(reading.issued) <= reading.issued
        invariant reading.issued == old(reading.issued) ==> data == [] && reading == old(reading)
        invariant reading.issued > old(reading.issued) ==> old(taken) <= reading.asked < old(taken) + size
        invariant old(failures) <= failures && (fault.Some? ==> failures > old(failures))
        decreases fault.None?, patience
      {
        var chunk;
        ghost var before := taken;
        chunk, fault := Read(size - |data|);
        SliceConcat(stream, old(taken), before, taken);
        data := data + chunk;
      }
      if |data| == size {
        fault := None;
      } else if data != [] && fault == Some(Eof) {
        fault := Some(UnexpectedEof);
      }
    }

    /** io.Writer: any prefix is accepted, possibly with an error. */
    method Write(data: seq<byte>) returns (count: nat, fault: Option<Fault>)
      modifies this`sent, this`turn, this`failures, this`outputs
      ensures count <= |data| && sent == old(sent) + data[..count] && turn == taken
      ensures failures == old(failures) + (if fault.Some? || (count == 0 && data != []) then 1 else 0)
      ensures outputs == old(outputs) + 1
    {
      count :| 0 <= count <= |data|;
      fault := *;
      sent := sent + data[..count];
      turn, outputs := taken, outputs + 1;
      failures := failures + if fault.Some? || (count == 0 && data != []) then 1 else 0;
    }

    /** The write loop all transports share: stops at an error or at a write of nothing. */
    method WriteAll(data: seq<byte>) returns (fault: Option<Fault>)
      modifies this`sent, this`turn, this`failures, this`outputs
      ensures old(sent) <= sent <= old(sent) + data
      ensures fault.None? ==> sent == old(sent) + data
      ensures turn == if data == [] then old(turn) else taken
      ensures old(failures) <= failures && (fault.Some? ==> failures > old(failures))
      ensures old(outputs) <= outputs
    {
      var written := 0;
      while written < |data|
        invariant written <= |data| && sent == old(sent) + data[..written]
        invariant turn == if written == 0 then old(turn) else taken
        invariant old(failures) <= failures && old(outputs) <= outputs
        decreases |data| - written
      {
        var count, err := Write(data[written..]);
        assert data[..written] + data[written..][..count] == data[..written + count];
        written := written + count;
        if err.Some? {
          return err;
        }
        if count == 0 {
          return Some(UnexpectedEof);
        }
      }
      return None;
    }

    /** The write of one frame over TCP: a deadline, then the loop. */
    method WriteFrame(data: seq<byte>) returns (fault: Option<Fault>)
      modifies this`sent, this`turn, this`failures, this`outputs
      ensures Within(old(sent), sent, data)
      ensures fault.None? ==> sent == old(sent) + data && turn == if data == [] then old(turn) else taken
      ensures turn == old(turn) || turn == taken
      ensures old(failures) <= failures && (fault.Some? ==> failures > old(failures))
    {
      fault := *;
      if fault.Some? {
        failures := failures + 1;
        return;
      }
      fault := WriteAll(data);
    }

    /** Waits until all output has left. */
    method Drain() returns (fault: Option<Fault>)
      modifies this`failures, this`outputs
      ensures failures == old(failures) + (if fault.Some? then 1 else 0) && outputs == old(outputs) + 1
    {
      fault := *;
      failures, outputs := failures + (if fault.Some? then 1 else 0), outputs + 1;
    }

    /** Drops any amount of input that has arrived and not been read. */
    method ResetInputBuffer() returns (fault: Option<Fault>)
      requires Valid()
      modifies this`taken, this`flushed, this`sentAtFlush, this`flushes, this`failures
      ensures Valid() && old(taken) <= taken == flushed && sentAtFlush == |sent| && flushes == old(flushes) + 1
      ensures failures == old(failures) + (if fault.Some? then 1 else 0)
    {
      var stale: nat :| taken + stale <= |stream|;
      taken := taken + stale;
      flushed, sentAtFlush, flushes := taken, |sent|, flushes + 1;
      fault := *;
      failures := failures + if fault.Some? then 1 else 0;
    }
  }

  /** Whoever answers calls, or opens a device: it counts them and remembers the
      connections it granted. */
  class Network {
    var dials: nat
    var conns: seq<Conn>

    constructor ()
      ensures dials == 0 && conns == []
    {
      dials, conns := 0, [];
    }

    method Dial() returns (conn: Conn?)
      modifies this
      ensures dials == old(dials) + 1
      ensures conn == null ==> conns == old(conns)
      ensures conn != null ==>
                fresh(conn) && conn.Valid() && conn.taken == 0 && conn.sent == [] && conn.failures == 0
                && conn.outputs == 0 && conn.flushes == 0 && conn.reading.issued == 0 && conns == old(conns) + [conn]
    {
      dials := dials + 1;
      var refused: bool, stream: seq<byte> := *, *;
      if refused {
        return null;
      }
      var granted := new Conn(stream);
      conns := conns + [granted];
      return granted;
    }
  }

  /** No connection was granted since, or only this one, and nothing was done with it. */
  ghost predicate Untouched(network: Network, before: seq<Conn>, conn: Conn)
    reads network, conn
  {
    || network.conns == before
    || (network.conns == before + [conn] && conn.sent == [] && conn.failures == 0 && conn.taken == 0
        && conn.reading.issued == 0)
  }

  /** The network granted at most the current connection since. */
  ghost predicate Granted(network: Network, before: seq<Conn>, current: Conn?)
    reads network
  {
    network.conns == if current == null then before else before + [current]
  }

  /** No more connections were granted than calls made. */
  ghost predicate NewlyGranted(network: Network, before: seq<Conn>, dials: nat)
    reads network
  {
    |network.conns| - |before| <= network.dials - dials
  }
}

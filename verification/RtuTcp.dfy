/** Raw RTU over TCP (internal/driver/modbusrtutcp/transport.go): frames are cut out of
    a stream of arbitrarily fragmented or coalesced reads. */
module RtuTcp {
  import opened Bytes
  import opened Cancellation
  import opened Crc
  import opened Framing
  import opened Wire

  const CONNECTION_ATTEMPTS := 11

  datatype Error =
    | ConnectionLost
    | ReadFailed(fault: Fault)
    | WriteFailed(fault: Fault)
    | DialFailed
    | BadSettings
    | Cancelled
    | FrameTooLong
    | BufferExceeded
    | WrongCRC
  {
    /** What a single attempt may fail with. */
    predicate OfAttempt() {
      !WrongCRC? && !BadSettings? && !Cancelled?
    }
  }

  /** The frames returned so far and the unread rest account for the bytes delivered. */
  ghost predicate Accounted(returned: seq<seq<byte>>, pending: seq<byte>, delivered: seq<byte>) {
    AllFrames(returned) && Flatten(returned) + pending == delivered
  }

  /** Whatever the read sizes were, an accounted history is a prefix of what parsing the
      peer's whole stream at once gives, and the rest of that parse is still to come. */
  lemma DeframingRefinesBatch(returned: seq<seq<byte>>, pending: seq<byte>, stream: seq<byte>, taken: nat)
    requires taken <= |stream| && Accounted(returned, pending, stream[..taken])
    ensures Frames(stream) == returned + Frames(pending + stream[taken..])
    ensures Leftover(stream) == Leftover(pending + stream[taken..])
  {
    FramesOfFlatten(returned, pending + stream[taken..]);
    Assoc(Flatten(returned), pending, stream[taken..]);
    assert stream == stream[..taken] + stream[taken..];
  }

  /** Since these marks the connection has failed, and no read was issued once a whole
      frame was there. */
  ghost predicate Failed(conn: Conn, failures: nat, issued: nat, buffered: seq<byte>, taken: nat)
    reads conn
  {
    && conn.failures > failures
    && (conn.reading.issued > issued ==> Unfinished(buffered, conn.stream, taken, conn.reading.asked))
  }

  /** Every connection granted since carries a prefix of these bytes, and has failed or is
      the one given. */
  ghost predicate Spent(network: Network, before: seq<Conn>, current: Conn?, limit: seq<byte>)
    reads network, network.conns
  {
    && before <= network.conns
    && forall k | |before| <= k < |network.conns| ::
         && network.conns[k].sent <= limit
         && (network.conns[k] == current || Failed(network.conns[k], 0, 0, [], 0))
  }

  lemma OneMoreGranted(network: Network, before: seq<Conn>, first: Conn, current: Conn?, limit: seq<byte>)
    requires Spent(network, before + [first], current, limit)
    requires first.sent <= limit && (first == current || Failed(first, 0, 0, [], 0))
    ensures Spent(network, before, current, limit)
  {
    assert network.conns[|before|] == first;
  }

  method Check(frame: seq<byte>) returns (r: Result<seq<byte>, Error>)
    ensures r == if ValidCRC(frame) then Ok(frame) else Err(WrongCRC)
  {
    var valid := ValidateCRC(frame);
    return if valid then Ok(frame) else Err(WrongCRC);
  }

  class Transport {
    const address: string
    const port: int
    const network: Network
    var conn: Conn?
    var pending: seq<byte>
    /** Frames returned on the current connection. */
    ghost var returned: seq<seq<byte>>

    /** The settings a connection can be made with. */
    predicate Addressed() {
      address != "" && 1 <= port <= 65535
    }

    ghost predicate Valid()
      reads this, conn, network
    {
      && (conn == null ==> pending == [])
      && (conn != null ==> Addressed() && conn.Valid() && conn in network.conns)
      && |pending| <= 1019
    }

    ghost predicate Aligned()
      reads this, conn
    {
      conn != null && conn.Valid() && Accounted(returned, pending, conn.Delivered())
    }

    /** The latest frame returned, after what the connection carried and gave before. */
    ghost predicate Answered(carried: seq<byte>, gave: seq<seq<byte>>, request: seq<byte>, frame: seq<byte>)
      reads this, conn
    {
      conn != null && IsFrame(frame) && conn.sent == carried + request && returned == gave + [frame]
    }

    /** What the next read starts with: the buffer, then all the peer will send. */
    ghost function Unread(): seq<byte>
      requires conn != null && conn.Valid()
      reads this, conn
    {
      pending + conn.stream[conn.taken..]
    }

    lemma AlignedRefinesBatch()
      requires Aligned()
      ensures returned <= Frames(conn.stream)
    {
      DeframingRefinesBatch(returned, pending, conn.stream, conn.taken);
    }

    constructor (address: string, port: int, network: Network)
      ensures Valid() && conn == null && this.network == network
      ensures this.address == address && this.port == if port == 0 then 8899 else port
    {
      this.address, this.port, this.network := address, if port == 0 then 8899 else port, network;
      conn, pending, returned := null, [], [];
    }

    method ConnectLocked(ctx: Context) returns (error: Option<Error>)
      requires Valid()
      modifies this, network, ctx
      ensures Valid() && (old(ctx.done) ==> ctx.done)
      ensures old(conn) != null ==> error.None? && unchanged(this) && unchanged(network)
      ensures error.None? ==> conn != null
      ensures error.Some? ==> conn == null && network.conns == old(network.conns)
      ensures old(conn) == null && old(ctx.done) ==> error == Some(Cancelled)
      ensures error.Some? ==>
                match error.value
                case Cancelled => ctx.done && network.dials == old(network.dials)
                case BadSettings => !Addressed() && network.dials == old(network.dials)
                case DialFailed => network.dials == old(network.dials) + 1
                case _ => false
      ensures old(conn) == null ==> Granted(network, old(network.conns), conn)
      ensures old(conn) == null && conn != null ==>
                fresh(conn) && conn.sent == [] && conn.failures == 0 && conn.taken == 0 && conn.reading.issued == 0
      ensures old(conn) == null && conn != null ==>
                Aligned() && pending == [] && returned == [] && network.dials == old(network.dials) + 1
    {
      if conn != null {
        return None;
      }
      var cancelled := ctx.Err();
      if cancelled {
        return Some(Cancelled);
      }
      if address == "" || port < 1 || port > 65535 {
        return Some(BadSettings);
      }
      conn := network.Dial();
      if conn == null {
        return Some(DialFailed);
      }
      pending := [];
      returned := [];
      return None;
    }

    method CloseLocked()
      modifies this
      ensures Valid() && conn == null
    {
      pending := [];
      conn := null;
    }

    /** One read into what is left of the buffer. */
    method ReadMore(buffer: seq<byte>) returns (more: seq<byte>, error: Option<Error>)
      requires Valid() && conn != null && |buffer| < MAX_FRAME_SIZE
      modifies conn`taken, conn`patience, conn`failures, conn`reading
      ensures Valid() && old(conn.taken) <= conn.taken && |more| <= MAX_FRAME_SIZE
      ensures more == buffer + conn.stream[old(conn.taken)..conn.taken]
      ensures conn.reading
              == old(conn.reading).(issued := old(conn.reading.issued) + 1, asked := old(conn.taken))
      ensures error.None? ==> |more| > |buffer| && conn.failures == old(conn.failures)
      ensures error.Some? ==> conn.failures > old(conn.failures)
      ensures error.Some? ==> error.value.ReadFailed? || error.value.ConnectionLost?
    {
      var chunk, fault := conn.Read(MAX_FRAME_SIZE - |buffer|);
      more := buffer + chunk;
      if fault.Some? {
        return more, Some(if more == [] && fault == Some(Eof) then ConnectionLost else ReadFailed(fault.value));
      }
      return more, if chunk == [] then Some(ConnectionLost) else None;
    }

    /** One frame off the connection. On success it is cut from the front of the unread
        bytes, and exactly those are spent. Once a whole frame is there nothing more is
        read, so it fails only if the deadline is refused or a read fails that was issued
        before; the two length errors cannot occur. */
    method ReadFrameLocked() returns (r: Result<seq<byte>, Error>)
      requires Valid() && conn != null
      modifies this, conn`taken, conn`patience, conn`failures, conn`reading
      ensures Valid() && conn == old(conn)
      ensures old(conn.taken) <= conn.taken && old(conn.failures) <= conn.failures
      ensures r.Ok? ==> IsFrame(r.value) && returned == old(returned) + [r.value]
      ensures r.Ok? ==> r.value + pending == old(pending) + conn.stream[old(conn.taken)..conn.taken]
      ensures OneDeadline(old(conn.reading), conn.reading)
      ensures conn.reading.issued > old(conn.reading.issued) ==>
                Unfinished(old(pending), conn.stream, old(conn.taken), conn.reading.asked)
      ensures r.Err? ==> returned == old(returned) && conn.failures > old(conn.failures)
      ensures r.Err? ==>
                conn.reading.refused > old(conn.reading.refused) || conn.reading.issued > old(conn.reading.issued)
      ensures r.Err? ==> pending == [] || (pending == old(pending) && conn.taken == old(conn.taken))
      ensures r.Err? ==> r.error.ReadFailed? || r.error.ConnectionLost?
    {
      var deadline := conn.SetReadDeadline();
      if deadline.Some? {
        return Err(ReadFailed(deadline.value));
      }
      var buffer := pending;
      pending := [];
      while true
        invariant Valid() && conn == old(conn) && pending == [] && returned == old(returned)
        invariant old(conn.taken) <= conn.taken && old(conn.failures) <= conn.failures
        invariant buffer == old(pending) + conn.stream[old(conn.taken)..conn.taken]
        invariant |buffer| <= MAX_FRAME_SIZE && OneDeadline(old(conn.reading), conn.reading)
        invariant conn.reading.issued > old(conn.reading.issued) ==>
                    Unfinished(old(pending), conn.stream, old(conn.taken), conn.reading.asked)
        decreases MAX_FRAME_SIZE - |buffer|
      {
        LengthBounds(buffer);
        var expected := ExpectedResponseLength(buffer);
        if expected.TooLong? {
          return Err(FrameTooLong);
        }
        if expected.Exactly? && |buffer| >= expected.n {
          FirstFrameIsFrame(buffer);
          var frame := buffer[..expected.n];
          pending := buffer[expected.n..];
          returned := returned + [frame];
          return Ok(frame);
        }
        if |buffer| >= MAX_FRAME_SIZE {
          return Err(BufferExceeded);
        }
        ghost var before := conn.taken;
        var error;
        buffer, error := ReadMore(buffer);
        if error.Some? {
          return Err(error.value);
        }
        ExtendSlice(old(pending), conn.stream, old(conn.taken), before, conn.taken);
      }
    }

    /** Write the request once, read one frame. */
    method WriteAndRead(request: seq<byte>) returns (r: Result<seq<byte>, Error>)
      requires Valid() && conn != null
      modifies this, conn
      ensures Valid() && conn == old(conn)
      ensures r.Err? ==> Failed(conn, old(conn.failures), old(conn.reading.issued), old(pending), old(conn.taken))
      ensures r.Err? ==> r.error.OfAttempt()
      ensures conn.reading.deadlines <= old(conn.reading.deadlines) + 1
      ensures Within(old(conn.sent), conn.sent, request)
      ensures r.Ok? ==> Answered(old(conn.sent), old(returned), request, r.value)
      ensures r.Ok? && old(Aligned()) ==> Aligned()
    {
      ghost var wasAligned, delivered, unread, history := Aligned(), conn.Delivered(), pending, returned;
      var fault := conn.WriteFrame(request);
      if fault.Some? {
        return Err(WriteFailed(fault.value));
      }
      ghost var start := conn.taken;
      r := ReadFrameLocked();
      if r.Ok? && wasAligned {
        var slice := conn.stream[start..conn.taken];
        AccountRead(history, unread, delivered, r.value, pending, slice);
        assert conn.Delivered() == delivered + slice;
      }
    }

    /** Connect if needed, then one exchange. Both keep what holds of the connections
        granted since an earlier moment. */
    method Attempt(ctx: Context, request: seq<byte>, ghost before: seq<Conn>) returns (r: Result<seq<byte>, Error>)
      requires Valid() && Addressed()
      requires Spent(network, before, null, request)
      requires conn != null ==> network.conns == before
      modifies this, conn, network, ctx
      ensures Valid() && (conn == null || conn == old(conn) || (old(conn) == null && fresh(conn)))
      ensures old(ctx.done) ==> ctx.done
      ensures old(conn) != null ==> conn == old(conn) && unchanged(network)
      ensures old(conn) == null ==> Granted(network, old(network.conns), conn)
      ensures forall k | |old(network.conns)| <= k < |network.conns| :: fresh(network.conns[k])
      ensures Spent(network, before, if r.Ok? then conn else null, request)
      ensures old(conn) == null ==>
                network.dials == old(network.dials) + 1
                || (conn == null && r == Err(Cancelled) && network.dials == old(network.dials))
      ensures conn == null ==> r.Err?
      ensures r.Err? && old(conn) != null ==>
                Failed(conn, old(conn.failures), old(conn.reading.issued), old(pending), old(conn.taken))
      ensures r == Err(Cancelled) ==> ctx.done
      ensures r.Err? ==> r.error.OfAttempt() || r.error.Cancelled?
      ensures old(conn) != null ==> Within(old(conn.sent), conn.sent, request)
      ensures r.Ok? && old(conn) != null ==> Answered(old(conn.sent), old(returned), request, r.value)
      ensures r.Ok? && old(conn) == null ==> Answered([], [], request, r.value)
      ensures r.Ok? && old(conn) == null ==> Aligned()
      ensures r.Ok? && old(conn) != null && old(Aligned()) ==> Aligned()
    {
      if conn == null {
        var refused := ConnectLocked(ctx);
        if refused.Some? {
          return Err(refused.value);
        }
        assert Spent(network, before, conn, request);
      }
      r := WriteAndRead(request);
    }

    /** After a failed attempt: gives up, or drops the connection and waits. */
    method GiveUp(ctx: Context, attempt: nat, failed: Error) returns (error: Option<Error>)
      requires Valid()
      modifies this, ctx
      ensures Valid() && (old(ctx.done) ==> ctx.done && error == Some(Cancelled))
      ensures error.None? ==> conn == null && attempt != CONNECTION_ATTEMPTS
      ensures error.Some? ==>
                (error.value == Cancelled && ctx.done) || (attempt == CONNECTION_ATTEMPTS && error.value == failed)
      ensures error.Some? ==> conn == null || conn == old(conn)
    {
      var cancelled := ctx.Err();
      if cancelled {
        return Some(Cancelled);
      }
      if attempt == CONNECTION_ATTEMPTS {
        return Some(failed);
      }
      CloseLocked();
      cancelled := ctx.Wait();
      return if cancelled then Some(Cancelled) else None;
    }

    /** One round of the retry loop: an attempt, and giving up or not if it fails. */
    method Round(ctx: Context, request: seq<byte>, attempt: nat, ghost before: seq<Conn>)
      returns (r: Result<seq<byte>, Error>, last: bool)
      requires Valid() && Addressed()
      requires Spent(network, before, null, request)
      requires conn != null ==> network.conns == before
      modifies this, conn, network, ctx
      ensures Valid() && (conn == null || conn == old(conn) || (old(conn) == null && fresh(conn)))
      ensures (old(ctx.done) ==> ctx.done) && (r.Ok? ==> conn != null && last)
      ensures NewlyGranted(network, old(network.conns), old(network.dials)) && old(network.conns) <= network.conns
      ensures forall k | |old(network.conns)| <= k < |network.conns| :: fresh(network.conns[k])
      ensures Spent(network, before, if r.Ok? then conn else null, request)
      ensures old(network.dials) <= network.dials <= old(network.dials) + if old(conn) == null then 1 else 0
      ensures !last || (r.Err? && r.error.OfAttempt()) ==>
                network.dials == old(network.dials) + if old(conn) == null then 1 else 0
      ensures !last ==> conn == null && attempt != CONNECTION_ATTEMPTS
      ensures last && r.Err? ==>
                (r.error == Cancelled && ctx.done) || (r.error.OfAttempt() && attempt == CONNECTION_ATTEMPTS)
      ensures old(conn) != null ==> Within(old(conn.sent), old(conn).sent, request)
      ensures old(conn) != null && r.Err? ==>
                Failed(old(conn), old(conn.failures), old(conn.reading.issued), old(pending), old(conn.taken))
      ensures r.Ok? && old(conn) != null ==>
                conn == old(conn) && Answered(old(conn.sent), old(returned), request, r.value)
      ensures r.Ok? && old(conn) == null ==> Answered([], [], request, r.value)
      ensures r.Ok? && old(conn) == null ==> Aligned()
      ensures r.Ok? && old(conn) != null && old(Aligned()) ==> Aligned()
    {
      r := Attempt(ctx, request, before);
      if r.Ok? {
        return r, true;
      }
      var stop := GiveUp(ctx, attempt, r.error);
      return if stop.Some? then Err(stop.value) else r, stop.Some?;
    }

    /** At most 11 attempts, each writing at most one copy of the request on its own
        connection; between two attempts the connection is dropped, and only a connection
        that failed is. Giving up takes all 11 attempts or a cancelled context. The last
        connection stays open, and so does one that failed under a cancelled context. */
    method InternalSendLocked(ctx: Context, request: seq<byte>) returns (r: Result<seq<byte>, Error>)
      requires Valid() && conn != null
      modifies this, conn, network, ctx
      ensures Valid() && (conn == null || conn == old(conn) || fresh(conn)) && (old(ctx.done) ==> ctx.done)
      ensures old(network.dials) <= network.dials <= old(network.dials) + 10
      ensures r == Err(Cancelled) ==> ctx.done
      ensures r.Err? && r.error.OfAttempt() ==> network.dials == old(network.dials) + 10
      ensures r.Err? || conn != old(conn) ==>
                Failed(old(conn), old(conn.failures), old(conn.reading.issued), old(pending), old(conn.taken))
      ensures Spent(network, old(network.conns), if r.Ok? then conn else null, request)
      ensures NewlyGranted(network, old(network.conns), old(network.dials))
      ensures forall k | |old(network.conns)| <= k < |network.conns| :: fresh(network.conns[k])
      ensures Within(old(conn.sent), old(conn).sent, request)
      ensures r.Err? ==> r.error.OfAttempt() || r.error.Cancelled?
      ensures r.Ok? && conn == old(conn) ==> Answered(old(conn.sent), old(returned), request, r.value)
      ensures r.Ok? && conn != old(conn) ==> Answered([], [], request, r.value)
      ensures r.Ok? && (conn == old(conn) ==> old(Aligned())) ==> Aligned()
    {
      ghost var before, first := network.conns, conn;
      var attempt := 1;
      while true
        invariant 1 <= attempt <= CONNECTION_ATTEMPTS && Valid() && Addressed() && (old(ctx.done) ==> ctx.done)
        invariant attempt == 1 ==>
                    conn == first && returned == old(returned) && pending == old(pending) && unchanged(first)
        invariant attempt == 1 ==> (old(Aligned()) ==> Aligned())
        invariant attempt == 1 ==> network.conns == before && network.dials == old(network.dials)
        invariant attempt > 1 ==> conn == null && network.dials == old(network.dials) + attempt - 2
        invariant attempt > 1 ==>
                    Failed(first, old(conn.failures), old(conn.reading.issued), old(pending), old(conn.taken))
        invariant Spent(network, before, null, request)
        invariant NewlyGranted(network, before, old(network.dials))
        invariant forall k | |before| <= k < |network.conns| :: fresh(network.conns[k])
        invariant Within(old(conn.sent), first.sent, request)
        decreases CONNECTION_ATTEMPTS - attempt
      {
        var last;
        r, last := Round(ctx, request, attempt, before);
        if last {
          return;
        }
        attempt := attempt + 1;
      }
    }

    /** The rest of SendRTU once connected. */
    method Exchange(ctx: Context, rtu: seq<byte>, ghost before: seq<Conn>) returns (r: Result<seq<byte>, Error>)
      requires Valid() && conn != null && Untouched(network, before, conn)
      requires network.conns != before ==> pending == []
      modifies this, conn, network, ctx
      ensures Valid() && (conn == null || conn == old(conn) || fresh(conn)) && (old(ctx.done) ==> ctx.done)
      ensures old(network.dials) <= network.dials <= old(network.dials) + 10
      ensures r == Err(Cancelled) ==> ctx.done
      ensures r == Err(WrongCRC) ==> conn != null && returned != [] && !ValidCRC(returned[|returned| - 1])
      ensures r.Err? && r.error.OfAttempt() ==> network.dials == old(network.dials) + 10
      ensures r.Err? ==> !r.error.BadSettings?
      ensures Spent(network, before, if r.Ok? || r == Err(WrongCRC) then conn else null, rtu)
      ensures (r.Err? && r.error != WrongCRC) || conn != old(conn) ==>
                Failed(old(conn), old(conn.failures), old(conn.reading.issued), old(pending), old(conn.taken))
      ensures old(network.conns) <= network.conns
      ensures NewlyGranted(network, old(network.conns), old(network.dials))
      ensures forall k | |old(network.conns)| <= k < |network.conns| :: fresh(network.conns[k])
      ensures Within(old(conn.sent), old(conn).sent, rtu)
      ensures r.Ok? ==> ValidCRC(r.value)
      ensures r.Ok? && conn == old(conn) ==> Answered(old(conn.sent), old(returned), rtu, r.value)
      ensures r.Ok? && conn != old(conn) ==> Answered([], [], rtu, r.value)
      ensures (r.Ok? || r == Err(WrongCRC)) && (conn == old(conn) ==> old(Aligned())) ==>
                Aligned() && returned <= Frames(conn.stream)
    {
      ghost var first, granted := conn, network.conns;
      r := InternalSendLocked(ctx, rtu);
      if granted != before {
        OneMoreGranted(network, before, first, if r.Ok? then conn else null, rtu);
      }
      if r.Ok? {
        if Aligned() {
          AlignedRefinesBatch();
        }
        r := Check(r.value);
      }
    }

    /** On an aligned (or fresh) connection the k-th reply is the k-th frame of the whole
        stream the peer sends, however it is chunked. Each connection of the call carries
        at most one copy of the request, and a reply only follows a whole one. Without a
        cancellation a call fails only if the first dial is refused, or all its attempts
        fail, or the reply has a wrong checksum. */
    method SendRTU(ctx: Context, rtu: seq<byte>) returns (r: Result<seq<byte>, Error>)
      requires Valid()
      modifies this, conn, network, ctx
      ensures Valid() && (conn == null || conn == old(conn) || fresh(conn)) && (old(ctx.done) ==> ctx.done)
      ensures network.dials <= old(network.dials) + 11 - (if old(conn) == null then 0 else 1)
      ensures r == Err(Cancelled) ==> ctx.done
      ensures r == Err(BadSettings) ==> !Addressed() && network.dials == old(network.dials)
      ensures r == Err(WrongCRC) ==> conn != null && returned != [] && !ValidCRC(returned[|returned| - 1])
      ensures r.Err? && r.error.OfAttempt() ==>
                || (old(conn) == null && r.error == DialFailed && network.conns == old(network.conns)
                    && network.dials == old(network.dials) + 1)
                || network.dials == old(network.dials) + 11 - if old(conn) == null then 0 else 1
      ensures Spent(network, old(network.conns), if r.Ok? || r == Err(WrongCRC) then conn else null, rtu)
      ensures old(conn) != null && conn != old(conn) ==>
                Failed(old(conn), old(conn.failures), old(conn.reading.issued), old(pending), old(conn.taken))
      ensures old(conn) != null && r.Err? && r.error != WrongCRC ==>
                Failed(old(conn), old(conn.failures), old(conn.reading.issued), old(pending), old(conn.taken))
      ensures NewlyGranted(network, old(network.conns), old(network.dials))
      ensures forall k | |old(network.conns)| <= k < |network.conns| :: fresh(network.conns[k])
      ensures old(conn) != null ==> Within(old(conn.sent), old(conn).sent, rtu)
      ensures r.Ok? ==> conn != null && ValidCRC(r.value)
      ensures r.Ok? && conn == old(conn) ==> Answered(old(conn.sent), old(returned), rtu, r.value)
      ensures r.Ok? && conn != old(conn) ==> Answered([], [], rtu, r.value)
      ensures (r.Ok? || r == Err(WrongCRC)) && (conn == old(conn) ==> old(Aligned())) ==>
                Aligned() && returned <= Frames(conn.stream)
    {
      ghost var before := network.conns;
      var refused := ConnectLocked(ctx);
      if refused.Some? {
        return Err(refused.value);
      }
      r := Exchange(ctx, rtu, before);
    }

    method Close()
      requires Valid()
      modifies this
      ensures Valid() && conn == null && pending == []
    {
      CloseLocked();
    }
  }

  lemma ExtendSlice(before: seq<byte>, stream: seq<byte>, a: nat, b: nat, c: nat)
    requires a <= b <= c <= |stream|
    ensures (before + stream[a..b]) + stream[b..c] == before + stream[a..c]
  {
    SliceConcat(stream, a, b, c);
    Assoc(before, stream[a..b], stream[b..c]);
  }

  /** A successful read keeps the account. */
  lemma AccountRead(returned: seq<seq<byte>>, unread: seq<byte>, delivered: seq<byte>,
                    frame: seq<byte>, rest: seq<byte>, slice: seq<byte>)
    requires Accounted(returned, unread, delivered) && IsFrame(frame)
    requires frame + rest == unread + slice
    ensures Accounted(returned + [frame], rest, delivered + slice)
  {
    FlattenSnoc(returned, frame);
    Assoc(Flatten(returned), frame, rest);
    Assoc(Flatten(returned), unread, slice);
  }

  /** A failed read drops its buffer; the account survives exactly when there was
      nothing to drop. */
  lemma AccountLoss(returned: seq<seq<byte>>, unread: seq<byte>, delivered: seq<byte>, slice: seq<byte>)
    requires Accounted(returned, unread, delivered)
    ensures Accounted(returned, [], delivered + slice) <==> unread + slice == []
  {
    assert |Flatten(returned)| == |delivered| - |unread|;
    if unread + slice == [] {
      assert unread == [] && slice == [];
      assert delivered + slice == delivered;
    }
  }

  /** The acknowledgement of a write of nine registers from address seven on. */
  function Acknowledgement(): (reply: seq<byte>)
    ensures |reply| == 8 && reply[..6] == [1, 6, 0, 7, 0, 9] && ValidCRC(reply)
  {
    WithCRC([1, 6, 0, 7, 0, 9])
  }

  /** With one byte missing, two good replies parse as one frame that was never sent. */
  lemma LostByteMisframes(reply: seq<byte>)
    requires reply == Acknowledgement()
    ensures Frames(reply + reply) == [reply, reply]
    ensures HasFrame((reply + reply)[1..]) && FirstFrame((reply + reply)[1..]) !in Frames(reply + reply)
  {
    assert reply[1] == reply[..6][1] == 6 && reply[2] == reply[..6][2] == 0 && reply[3] == reply[..6][3] == 7;
    Misframed(reply);
  }

  /** The length rule takes the register count of the first reply for a byte count. */
  lemma Misframed(reply: seq<byte>)
    requires |reply| == 8 && reply[1] == 6 && reply[2] == 0 && reply[3] == 7
    ensures Frames(reply + reply) == [reply, reply]
    ensures HasFrame((reply + reply)[1..]) && FirstFrame((reply + reply)[1..]) !in Frames(reply + reply)
  {
    FramesCons(reply, reply + []);
    FramesCons(reply, []);
    assert reply + [] == reply;
    var rest := (reply + reply)[1..];
    assert ExpectedResponseLength(rest) == Exactly(12);
    assert |FirstFrame(rest)| == 12;
  }

  /** A frame and the new buffer come off the front of what was unread. */
  lemma CutFromRest(pending: seq<byte>, stream: seq<byte>, start: nat, end: nat, frame: seq<byte>, rest: seq<byte>)
    requires start <= end <= |stream| && IsFrame(frame) && frame + rest == pending + stream[start..end]
    ensures HasFrame(pending + stream[start..]) && FirstFrame(pending + stream[start..]) == frame
  {
    assert stream[start..] == stream[start..end] + stream[end..];
    Assoc(pending, stream[start..end], stream[end..]);
    Assoc(frame, rest, stream[end..]);
    FrameFirst(frame, rest + stream[end..]);
  }

  /** One more frame continues the batch parse exactly when it is the first of the rest. */
  lemma NextOfBatch(returned: seq<seq<byte>>, pending: seq<byte>, stream: seq<byte>, taken: nat, frame: seq<byte>)
    requires taken <= |stream| && Accounted(returned, pending, stream[..taken])
    ensures returned + [frame] <= Frames(stream) <==>
            HasFrame(pending + stream[taken..]) && FirstFrame(pending + stream[taken..]) == frame
  {
    var unread := pending + stream[taken..];
    DeframingRefinesBatch(returned, pending, stream, taken);
    if returned + [frame] <= Frames(stream) {
      assert Frames(stream)[|returned|] == frame;
      assert Frames(unread) != [];
    } else if HasFrame(unread) && FirstFrame(unread) == frame {
      assert Frames(stream) == returned + ([frame] + Frames(unread[FrameLength(unread)..]));
      Assoc(returned, [frame], Frames(unread[FrameLength(unread)..]));
      assert false;
    }
  }

  /** What a read returns after one that failed and left the buffer or emptied it. */
  lemma FrameAfterLoss(pending: seq<byte>, stream: seq<byte>, taken: nat, kept: seq<byte>, after: nat, end: nat,
                       frame: seq<byte>, rest: seq<byte>)
    returns (lost: nat)
    requires taken <= after <= end <= |stream| && IsFrame(frame) && frame + rest == kept + stream[after..end]
    requires kept == [] || (kept == pending && after == taken)
    ensures lost <= |pending + stream[taken..]| && kept + stream[after..] == (pending + stream[taken..])[lost..]
    ensures HasFrame(kept + stream[after..]) && FirstFrame(kept + stream[after..]) == frame
  {
    CutFromRest(kept, stream, after, end, frame, rest);
    lost := if kept == [] then |pending| + after - taken else 0;
    assert kept + stream[after..] == (pending + stream[taken..])[lost..];
  }

  /** A failed read on a kept connection loses bytes: the next read that succeeds returns
      what the remaining ones start with. The frames returned are then still those of the
      peer's stream if and only if that is also what the lost bytes started with; when one
      byte of two replies was lost, it is not. */
  method ReadAfterLoss(transport: Transport) returns (first: Result<seq<byte>, Error>, second: Result<seq<byte>, Error>,
                                                      ghost lost: nat)
    requires transport.Valid() && transport.Aligned()
    modifies transport, transport.conn
    ensures transport.Valid() && transport.conn == old(transport.conn) && lost <= |old(transport.Unread())|
    ensures first.Err? && second.Ok? ==>
              && HasFrame(old(transport.Unread())[lost..])
              && second.value == FirstFrame(old(transport.Unread())[lost..])
    ensures first.Err? && second.Ok? ==>
              (transport.returned <= Frames(transport.conn.stream) <==>
               HasFrame(old(transport.Unread())) && FirstFrame(old(transport.Unread())) == second.value)
    ensures first.Err? && second.Ok? && lost == 1
            && old(transport.Unread()) == Acknowledgement() + Acknowledgement() ==>
              !(transport.returned <= Frames(transport.conn.stream))
  {
    ghost var stream, taken, pending := transport.conn.stream, transport.conn.taken, transport.pending;
    ghost var returned := transport.returned;
    first := transport.ReadFrameLocked();
    second, lost := first, 0;
    if first.Err? {
      ghost var after, kept := transport.conn.taken, transport.pending;
      second := transport.ReadFrameLocked();
      if second.Ok? {
        lost := FrameAfterLoss(pending, stream, taken, kept, after, transport.conn.taken, second.value,
                               transport.pending);
        NextOfBatch(returned, pending, stream, taken, second.value);
        LostByteMisframes(Acknowledgement());
      }
    }
  }
}

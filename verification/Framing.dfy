/** The framing rule shared by the RTU-over-TCP and serial readers
    (internal/driver/modbusrtutcp/frame.go) and the batch parser it induces. */
module Framing {
  import opened Bytes

  const MAX_FRAME_SIZE := 1024

  /** The three answers of the framing rule: more bytes needed, a length, or an error. */
  datatype Length = More | Exactly(n: nat) | TooLong(n: nat)

  function ExpectedResponseLength(data: seq<byte>): Length {
    if |data| < 2 then More
    else if data[1] >= 0x80 then Exactly(5)
    else if data[1] >= 5 && data[1] != 23 then Exactly(8)
    else if |data| < 3 then More
    else
      var length := 3 + (data[2] as int) + 2;
      if length > MAX_FRAME_SIZE then TooLong(length) else Exactly(length)
  }

  /** The length is never refused, lies in 5..260, and is settled by three bytes. */
  lemma LengthBounds(data: seq<byte>)
    ensures !ExpectedResponseLength(data).TooLong?
    ensures ExpectedResponseLength(data).More? <==> |data| < 2 || (|data| == 2 && (data[1] < 5 || data[1] == 23))
    ensures ExpectedResponseLength(data).Exactly? ==> 5 <= ExpectedResponseLength(data).n <= 260
  {
  }

  /** Once known, the length is not changed by later bytes. */
  lemma LengthStable(data: seq<byte>, more: seq<byte>)
    requires ExpectedResponseLength(data).Exactly?
    ensures ExpectedResponseLength(data + more) == ExpectedResponseLength(data)
  {
  }

  predicate HasFrame(data: seq<byte>) {
    var length := ExpectedResponseLength(data);
    length.Exactly? && length.n <= |data|
  }

  function FrameLength(data: seq<byte>): (n: nat)
    requires HasFrame(data)
    ensures 5 <= n <= |data|
  {
    LengthBounds(data);
    ExpectedResponseLength(data).n
  }

  function FirstFrame(data: seq<byte>): seq<byte>
    requires HasFrame(data)
  {
    data[..FrameLength(data)]
  }

  /** What was buffered and what was read from one position to another hold no complete
      frame yet. */
  ghost predicate Unfinished(buffered: seq<byte>, stream: seq<byte>, from: nat, to: nat) {
    from <= to <= |stream| && !HasFrame(buffered + stream[from..to])
  }

  /** A complete frame and nothing more. */
  predicate IsFrame(frame: seq<byte>) {
    ExpectedResponseLength(frame) == Exactly(|frame|)
  }

  /** All complete frames of a byte string, in order. */
  function Frames(data: seq<byte>): seq<seq<byte>>
    decreases |data|
  {
    if HasFrame(data) then [FirstFrame(data)] + Frames(data[FrameLength(data)..]) else []
  }

  /** The bytes after the last complete frame. */
  function Leftover(data: seq<byte>): seq<byte>
    decreases |data|
  {
    if HasFrame(data) then Leftover(data[FrameLength(data)..]) else data
  }

  ghost predicate AllFrames(frames: seq<seq<byte>>) {
    forall f | f in frames :: IsFrame(f)
  }

  /** A frame followed by anything is recognised, and only that frame is taken. */
  lemma FrameFirst(frame: seq<byte>, rest: seq<byte>)
    requires IsFrame(frame)
    ensures HasFrame(frame + rest)
    ensures FirstFrame(frame + rest) == frame && (frame + rest)[FrameLength(frame + rest)..] == rest
  {
    LengthStable(frame, rest);
  }

  /** At most one prefix of a byte string is a frame, so two readers that each cut a
      frame off the front of one stream agree. */
  lemma FrameUnique(f: seq<byte>, g: seq<byte>, data: seq<byte>)
    requires IsFrame(f) && IsFrame(g) && f <= data && g <= data
    ensures f == g && HasFrame(data) && FirstFrame(data) == f
  {
    assert data == f + data[|f|..] && data == g + data[|g|..];
    LengthStable(f, data[|f|..]);
    LengthStable(g, data[|g|..]);
  }

  /** As long as no frame is complete, the frame to come is not there as a whole. */
  lemma NotYet(frame: seq<byte>, later: seq<byte>, data: seq<byte>)
    requires IsFrame(frame) && data <= frame + later && !HasFrame(data)
    ensures |data| < |frame|
  {
    if |frame| <= |data| {
      assert data == frame + data[|frame|..];
      FrameFirst(frame, data[|frame|..]);
    }
  }

  lemma FirstFrameIsFrame(data: seq<byte>)
    requires HasFrame(data)
    ensures IsFrame(FirstFrame(data))
  {
    var n := FrameLength(data);
    assert data[..n][1] == data[1];
    if n > 2 && |data| > 2 {
      assert data[..n][2] == data[2];
    }
  }

  /** The batch parser splits its input without losing or inventing a byte. */
  lemma {:induction false} FramesPartition(data: seq<byte>)
    ensures Flatten(Frames(data)) + Leftover(data) == data
    ensures AllFrames(Frames(data)) && !HasFrame(Leftover(data))
    decreases |data|
  {
    if HasFrame(data) {
      var rest := data[FrameLength(data)..];
      FramesPartition(rest);
      FirstFrameIsFrame(data);
      assert Frames(data)[1..] == Frames(rest);
      assert data == FirstFrame(data) + rest;
    }
  }

  lemma FramesCons(frame: seq<byte>, rest: seq<byte>)
    requires IsFrame(frame)
    ensures Frames(frame + rest) == [frame] + Frames(rest)
    ensures Leftover(frame + rest) == Leftover(rest)
  {
    FrameFirst(frame, rest);
  }

  /** The framing is self-delimiting: any list of frames is recovered from its
      concatenation, whatever follows it. */
  lemma {:induction false} FramesOfFlatten(frames: seq<seq<byte>>, rest: seq<byte>)
    requires AllFrames(frames)
    ensures Frames(Flatten(frames) + rest) == frames + Frames(rest)
    ensures Leftover(Flatten(frames) + rest) == Leftover(rest)
  {
    if frames == [] {
      assert Flatten(frames) + rest == rest;
    } else {
      var first, others := frames[0], frames[1..];
      FramesOfFlatten(others, rest);
      FramesCons(first, Flatten(others) + rest);
      Assoc(first, Flatten(others), rest);
      Assoc([first], others, Frames(rest));
      assert frames == [first] + others;
    }
  }

  /** Bytes that arrive later only add frames at the end. */
  lemma FramesGrow(data: seq<byte>, more: seq<byte>)
    ensures Frames(data) <= Frames(data + more)
  {
    var frames, rest := Frames(data), Leftover(data);
    FramesPartition(data);
    FramesOfFlatten(frames, rest + more);
    Assoc(Flatten(frames), rest, more);
  }
}

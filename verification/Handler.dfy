/** Executing one cloud request (internal/cloud/handler.go): a batch of Modbus lines is
    run in order and rewritten in place until one fails; then the log is prepared, the
    response published, and only after that the log cursor committed. */
module Handler {
  import opened Bytes
  import Hex
  import LogStream

  /** One line of a request and, afterwards, of its response. */
  datatype Line = Line(
    lineNo: int,
    tag: Option<string>,
    timestamp: Option<int>,
    modbus: Option<string>,
    error: Option<string>)

  /** What a device does with one frame. */
  datatype Outcome = Reply(data: seq<byte>) | Failure(message: string)

  /** Any device: its n-th answer, whatever the frame. */
  type Device = nat -> Outcome

  function DecodeMessage(error: Hex.Error): string {
    match error
    case OddLength => "hex string must have even length"
    case InvalidDigit => "decode hex string"
  }

  function Cleared(line: Line): Line {
    line.(modbus := None)
  }

  function ClearedAll(lines: seq<Line>): (cleared: seq<Line>)
    ensures |cleared| == |lines|
  {
    seq(|lines|, i requires 0 <= i < |lines| => Cleared(lines[i]))
  }

  /** The lines after the batch ran against a device that has answered n frames before. */
  function Executed(lines: seq<Line>, device: Device, n: nat): (after: seq<Line>)
    ensures |after| == |lines|
  {
    if lines == [] then []
    else if lines[0].modbus.None? then [lines[0]] + Executed(lines[1..], device, n)
    else
      match Hex.Decode(lines[0].modbus.value)
      case Err(error) => [Cleared(lines[0]).(error := Some(DecodeMessage(error)))] + ClearedAll(lines[1..])
      case Ok(_) =>
        match device(n)
        case Failure(message) => [Cleared(lines[0]).(error := Some(message))] + ClearedAll(lines[1..])
        case Reply(data) => [lines[0].(modbus := Some(Hex.Encode(data)))] + Executed(lines[1..], device, n + 1)
  }

  /** The frames the device is sent meanwhile. */
  function Sent(lines: seq<Line>, device: Device, n: nat): seq<seq<byte>> {
    if lines == [] then []
    else if lines[0].modbus.None? then Sent(lines[1..], device, n)
    else
      match Hex.Decode(lines[0].modbus.value)
      case Err(_) => []
      case Ok(frame) => [frame] + if device(n).Reply? then Sent(lines[1..], device, n + 1) else []
  }

  /** How many of the first k lines carry a frame. */
  function FramesBefore(lines: seq<Line>, k: nat): nat
    requires k <= |lines|
    decreases k, lines
  {
    if k == 0 then 0 else FramesBefore(lines, k - 1) + Used(lines[k - 1])
  }

  /** Device answers used up by one line. */
  function Used(line: Line): nat {
    if line.modbus.Some? then 1 else 0
  }

  // The shape of a cascade -------------------------------------------------------------

  /** The line carries a frame that cannot be decoded, or that the device refuses. */
  predicate Fails(lines: seq<Line>, device: Device, n: nat, k: nat)
    requires k < |lines|
  {
    lines[k].modbus.Some?
    && (Hex.Decode(lines[k].modbus.value).Err? || device(n + FramesBefore(lines, k)).Failure?)
  }

  /** The cut: the first failing line, or the number of lines. */
  predicate IsCut(lines: seq<Line>, device: Device, n: nat, cut: nat) {
    && cut <= |lines|
    && (cut < |lines| ==> Fails(lines, device, n, cut))
    && forall i | 0 <= i < cut :: !Fails(lines, device, n, i)
  }

  /** Every batch on every device has exactly one cut. */
  lemma CutExists(lines: seq<Line>, device: Device, n: nat) returns (cut: nat)
    ensures IsCut(lines, device, n, cut)
    ensures forall other | IsCut(lines, device, n, other) :: other == cut
  {
    cut := 0;
    while cut < |lines| && !Fails(lines, device, n, cut)
      invariant cut <= |lines|
      invariant forall i | 0 <= i < cut :: !Fails(lines, device, n, i)
    {
      cut := cut + 1;
    }
  }

  lemma {:induction false} FramesTail(lines: seq<Line>, k: nat)
    requires 0 < k <= |lines|
    ensures FramesBefore(lines, k) == Used(lines[0]) + FramesBefore(lines[1..], k - 1)
    decreases k
  {
    if k > 1 {
      FramesTail(lines, k - 1);
    }
  }

  /** Failing is not changed by splitting off a line that did not fail. */
  lemma FailsTail(lines: seq<Line>, device: Device, n: nat, k: nat)
    requires 0 < k < |lines|
    ensures FramesBefore(lines, k) == Used(lines[0]) + FramesBefore(lines[1..], k - 1)
    ensures Fails(lines, device, n, k) <==> Fails(lines[1..], device, n + Used(lines[0]), k - 1)
  {
    FramesTail(lines, k);
  }

  lemma CutTail(lines: seq<Line>, device: Device, n: nat, cut: nat)
    requires IsCut(lines, device, n, cut) && cut > 0
    ensures IsCut(lines[1..], device, n + Used(lines[0]), cut - 1)
    ensures !Fails(lines, device, n, 0)
    ensures lines[0].modbus.Some? ==> Hex.Decode(lines[0].modbus.value).Ok? && device(n).Reply?
  {
    assert !Fails(lines, device, n, 0);
    var rest, m := lines[1..], n + Used(lines[0]);
    forall i | 0 <= i < cut - 1 ensures !Fails(rest, device, m, i) {
      FailsTail(lines, device, n, i + 1);
    }
    if cut < |lines| {
      FailsTail(lines, device, n, cut);
    }
  }

  function FailureMessage(lines: seq<Line>, device: Device, n: nat, k: nat): string
    requires k < |lines| && Fails(lines, device, n, k)
  {
    match Hex.Decode(lines[k].modbus.value)
    case Err(error) => DecodeMessage(error)
    case Ok(_) => device(n + FramesBefore(lines, k)).message
  }

  /** Line i afterwards, read off the cut. */
  function LineAfter(lines: seq<Line>, device: Device, n: nat, cut: nat, i: nat): Line
    requires IsCut(lines, device, n, cut) && i < |lines|
  {
    if i < cut then
      if lines[i].modbus.None? then lines[i]
      else
        assert !Fails(lines, device, n, i);
        lines[i].(modbus := Some(Hex.Encode(device(n + FramesBefore(lines, i)).data)))
    else if i == cut then Cleared(lines[i]).(error := Some(FailureMessage(lines, device, n, cut)))
    else Cleared(lines[i])
  }

  lemma LineAfterTail(lines: seq<Line>, device: Device, n: nat, cut: nat, i: nat)
    requires IsCut(lines, device, n, cut) && 0 < cut && 0 < i < |lines|
    ensures IsCut(lines[1..], device, n + Used(lines[0]), cut - 1)
    ensures LineAfter(lines, device, n, cut, i) == LineAfter(lines[1..], device, n + Used(lines[0]), cut - 1, i - 1)
  {
    CutTail(lines, device, n, cut);
    FailsTail(lines, device, n, i);
  }

  lemma HeadSurvives(lines: seq<Line>, device: Device, n: nat)
    requires lines != [] && !Fails(lines, device, n, 0)
    ensures Executed(lines, device, n)
            == [if lines[0].modbus.None? then lines[0] else lines[0].(modbus := Some(Hex.Encode(device(n).data)))]
               + Executed(lines[1..], device, n + Used(lines[0]))
  {
  }

  lemma HeadFails(lines: seq<Line>, device: Device, n: nat)
    requires lines != [] && Fails(lines, device, n, 0)
    ensures Executed(lines, device, n)
            == [Cleared(lines[0]).(error := Some(FailureMessage(lines, device, n, 0)))] + ClearedAll(lines[1..])
  {
  }

  lemma CutFirst(lines: seq<Line>, device: Device, n: nat, i: nat)
    requires IsCut(lines, device, n, 0) && i < |lines|
    ensures Executed(lines, device, n)[i] == LineAfter(lines, device, n, 0, i)
  {
    HeadFails(lines, device, n);
  }

  lemma FirstSurvives(lines: seq<Line>, device: Device, n: nat, cut: nat)
    requires IsCut(lines, device, n, cut) && cut > 0
    ensures Executed(lines, device, n)[0] == LineAfter(lines, device, n, cut, 0)
    ensures Executed(lines, device, n)[1..] == Executed(lines[1..], device, n + Used(lines[0]))
  {
    CutTail(lines, device, n, cut);
    HeadSurvives(lines, device, n);
  }

  lemma OthersFollow(lines: seq<Line>, device: Device, n: nat, cut: nat, i: nat)
    requires IsCut(lines, device, n, cut) && 0 < cut && 0 < i < |lines|
    requires var rest, m := lines[1..], n + Used(lines[0]);
             IsCut(rest, device, m, cut - 1)
             && Executed(rest, device, m)[i - 1] == LineAfter(rest, device, m, cut - 1, i - 1)
    ensures Executed(lines, device, n)[i] == LineAfter(lines, device, n, cut, i)
  {
    FirstSurvives(lines, device, n, cut);
    LineAfterTail(lines, device, n, cut, i);
    assert Executed(lines, device, n)[i] == Executed(lines, device, n)[1..][i - 1];
  }

  /** The cascade: lines before the cut hold the answer to their own frame, or are
      untouched if they had none; the line at the cut gains an error; from there on all
      frames are gone; nothing else changes. */
  lemma {:induction false} CascadeShape(lines: seq<Line>, device: Device, n: nat, cut: nat, i: nat)
    requires IsCut(lines, device, n, cut) && i < |lines|
    ensures Executed(lines, device, n)[i] == LineAfter(lines, device, n, cut, i)
    decreases i
  {
    if cut == 0 {
      CutFirst(lines, device, n, i);
    } else if i == 0 {
      FirstSurvives(lines, device, n, cut);
    } else {
      CutTail(lines, device, n, cut);
      CascadeShape(lines[1..], device, n + Used(lines[0]), cut - 1, i - 1);
      OthersFollow(lines, device, n, cut, i);
    }
  }

  /** The same line by line: whatever the device answers, every line keeps its number, tag
      and time stamp; before the cut a frame is replaced by its own answer; from the cut on
      no line has a frame any more; and only the line at the cut changes its error. */
  lemma CascadeClears(lines: seq<Line>, device: Device, n: nat, cut: nat, i: nat)
    requires IsCut(lines, device, n, cut) && i < |lines|
    ensures var line := Executed(lines, device, n)[i];
            && line.lineNo == lines[i].lineNo && line.tag == lines[i].tag && line.timestamp == lines[i].timestamp
            && (i >= cut || lines[i].modbus.None? ==> line.modbus == None)
            && (i < cut && lines[i].modbus.Some? ==>
                  device(n + FramesBefore(lines, i)).Reply?
                  && line.modbus == Some(Hex.Encode(device(n + FramesBefore(lines, i)).data)))
            && (i != cut ==> line.error == lines[i].error)
            && (i == cut ==> line.error == Some(FailureMessage(lines, device, n, cut)))
  {
    CascadeShape(lines, device, n, cut, i);
    assert i < cut ==> !Fails(lines, device, n, i);
  }

  /** The ways a line fails, and the message each leaves. */
  lemma FailureTold(lines: seq<Line>, device: Device, n: nat, k: nat)
    requires k < |lines| && Fails(lines, device, n, k)
    ensures lines[k].modbus.Some?
    ensures var text, message := lines[k].modbus.value, FailureMessage(lines, device, n, k);
            && (|text| % 2 == 1 ==> message == "hex string must have even length")
            && (|text| % 2 == 0 && !Hex.AllDigits(text) ==> message == "decode hex string")
            && (|text| % 2 == 0 && Hex.AllDigits(text) ==> device(n + FramesBefore(lines, k)) == Failure(message))
  {
    Hex.DecodesIff(lines[k].modbus.value);
  }

  /** The decoded frame of a line, if it carries one. */
  function Request(line: Line): seq<seq<byte>> {
    if line.modbus.Some? && Hex.Decode(line.modbus.value).Ok? then [Hex.Decode(line.modbus.value).value] else []
  }

  function Requests(lines: seq<Line>): seq<seq<byte>> {
    if lines == [] then [] else Request(lines[0]) + Requests(lines[1..])
  }

  lemma SentOn(lines: seq<Line>, device: Device, n: nat)
    requires lines != [] && !Fails(lines, device, n, 0)
    ensures Sent(lines, device, n) == Request(lines[0]) + Sent(lines[1..], device, n + Used(lines[0]))
  {
  }

  lemma SentLast(lines: seq<Line>, device: Device, n: nat)
    requires lines != [] && Fails(lines, device, n, 0)
    ensures Sent(lines, device, n) == Request(lines[0])
  {
  }

  /** The lines up to and including the cut. */
  function Upto(lines: seq<Line>, cut: nat): seq<Line> {
    if cut < |lines| then lines[..cut + 1] else lines
  }

  lemma RequestsOn(lines: seq<Line>, cut: nat)
    requires lines != [] && cut > 0
    ensures Requests(Upto(lines, cut)) == Request(lines[0]) + Requests(Upto(lines[1..], cut - 1))
  {
    assert Upto(lines, cut)[1..] == Upto(lines[1..], cut - 1);
  }

  lemma RequestsLast(lines: seq<Line>)
    requires lines != []
    ensures Requests(Upto(lines, 0)) == Request(lines[0])
  {
    assert Upto(lines, 0)[1..] == [];
  }

  lemma SawOn(lines: seq<Line>, device: Device, n: nat, cut: nat)
    requires lines != [] && cut > 0 && !Fails(lines, device, n, 0)
    requires Sent(lines[1..], device, n + Used(lines[0])) == Requests(Upto(lines[1..], cut - 1))
    ensures Sent(lines, device, n) == Requests(Upto(lines, cut))
  {
    SentOn(lines, device, n);
    RequestsOn(lines, cut);
  }

  lemma SawLast(lines: seq<Line>, device: Device, n: nat)
    requires IsCut(lines, device, n, 0)
    ensures Sent(lines, device, n) == Requests(Upto(lines, 0))
  {
    if lines != [] {
      SentLast(lines, device, n);
      RequestsLast(lines);
    }
  }

  /** The device saw exactly the decoded frames up to and including the cut, in order. */
  lemma {:induction false} DeviceSaw(lines: seq<Line>, device: Device, n: nat, cut: nat)
    requires IsCut(lines, device, n, cut)
    ensures Sent(lines, device, n) == Requests(Upto(lines, cut))
    decreases cut
  {
    if cut == 0 {
      SawLast(lines, device, n);
    } else {
      CutTail(lines, device, n, cut);
      DeviceSaw(lines[1..], device, n + Used(lines[0]), cut - 1);
      SawOn(lines, device, n, cut);
    }
  }

  // The request handler --------------------------------------------------------------------

  class Header {
    var error: Option<string>
    var lastLog: Option<string>
    const sendLastLog: Option<int>
    const lines: array<Line>

    constructor (lines: array<Line>, error: Option<string>, sendLastLog: Option<int>, lastLog: Option<string>)
      ensures this.lines == lines && this.error == error && this.sendLastLog == sendLastLog && this.lastLog == lastLog
    {
      this.lines, this.error, this.sendLastLog, this.lastLog := lines, error, sendLastLog, lastLog;
    }

    predicate WantsLog() {
      sendLastLog.Some? && sendLastLog.value != 0
    }
  }

  /** A driver for one request, in front of any device. */
  class Driver {
    const device: Device
    var answered: nat
    var seen: seq<seq<byte>>
    var closes: nat

    constructor (device: Device)
      ensures this.device == device && answered == 0 && seen == [] && closes == 0
    {
      this.device, answered, seen, closes := device, 0, [], 0;
    }

    method SendDataToDevice(frame: seq<byte>) returns (outcome: Outcome)
      modifies this
      ensures outcome == device(old(answered)) && answered == old(answered) + 1
      ensures seen == old(seen) + [frame] && closes == old(closes)
    {
      outcome := device(answered);
      answered := answered + 1;
      seen := seen + [frame];
    }

    method Close()
      modifies this
      ensures closes == old(closes) + 1 && seen == old(seen)
    {
      closes := closes + 1;
    }
  }

  /** clearModbus on the lines from one index on. */
  method ClearModbus(lines: array<Line>, from: nat)
    requires from <= lines.Length
    modifies lines
    ensures forall i | 0 <= i < lines.Length ::
              lines[i] == if i < from then old(lines[i]) else old(lines[i]).(modbus := None)
    ensures lines[..from] == old(lines[..from]) && lines[from..] == ClearedAll(old(lines[from..]))
  {
    for index := from to lines.Length
      invariant forall i | 0 <= i < from || index <= i < lines.Length :: lines[i] == old(lines[i])
      invariant forall i | from <= i < index :: lines[i] == Cleared(old(lines[i]))
    {
      lines[index] := lines[index].(modbus := None);
    }
  }

  method SetGlobalError(header: Header, message: string)
    modifies header`error, header.lines
    ensures header.error == Some(message) && header.lines[..] == ClearedAll(old(header.lines[..]))
    ensures forall i | 0 <= i < header.lines.Length :: header.lines[i] == old(header.lines[i]).(modbus := None)
  {
    header.error := Some(message);
    ClearModbus(header.lines, 0);
    assert header.lines[0..] == header.lines[..] && old(header.lines[0..]) == old(header.lines[..]);
  }

  /** One pass of the batch loop: the line is skipped, answered, or ends the batch. */
  method RunLine(lines: array<Line>, index: nat, driver: Driver) returns (goesOn: bool)
    requires index < lines.Length
    modifies lines, driver
    ensures driver.closes == old(driver.closes) && lines[..index] == old(lines[..index])
    ensures goesOn ==>
              && lines[index + 1..] == old(lines[index + 1..])
              && Executed(old(lines[index..]), driver.device, old(driver.answered))
                 == [lines[index]] + Executed(old(lines[index + 1..]), driver.device, driver.answered)
              && old(driver.seen) + Sent(old(lines[index..]), driver.device, old(driver.answered))
                 == driver.seen + Sent(old(lines[index + 1..]), driver.device, driver.answered)
    ensures !goesOn ==>
              && lines[index..] == Executed(old(lines[index..]), driver.device, old(driver.answered))
              && driver.seen == old(driver.seen) + Sent(old(lines[index..]), driver.device, old(driver.answered))
  {
    var line := lines[index];
    ghost var before, rest, n, seen := lines[index..], lines[index + 1..], driver.answered, driver.seen;
    assert before == [line] + rest;
    if line.modbus.None? {
      return true;
    }
    var request := Hex.Decode(line.modbus.value);
    if request.Err? {
      FailLine(lines, index, DecodeMessage(request.error));
      assert seen + [] == seen;
      return false;
    }
    var outcome := driver.SendDataToDevice(request.value);
    if outcome.Failure? {
      FailLine(lines, index, outcome.message);
      return false;
    }
    var encoded := Hex.EncodeHex(outcome.data);
    lines[index] := line.(modbus := Some(encoded));
    Assoc(seen, [request.value], Sent(rest, driver.device, n + 1));
    return true;
  }

  /** The lines before index are done, the others untouched, and what is left to do
      completes the batch. */
  ghost predicate Halfway(before: seq<Line>, device: Device, index: nat, current: seq<Line>, n: nat,
                          seen: seq<seq<byte>>)
  {
    && index <= |before| == |current| && current[index..] == before[index..]
    && current[..index] + Executed(before[index..], device, n) == Executed(before, device, 0)
    && seen + Sent(before[index..], device, n) == Sent(before, device, 0)
  }

  lemma Advances(before: seq<Line>, device: Device, index: nat, current: seq<Line>, n: nat, seen: seq<seq<byte>>,
                 next: seq<Line>, n': nat, seen': seq<seq<byte>>)
    requires Halfway(before, device, index, current, n, seen)
    requires index < |next| == |current| && next[..index] == current[..index]
    requires next[index + 1..] == current[index + 1..]
    requires Executed(current[index..], device, n) == [next[index]] + Executed(current[index + 1..], device, n')
    requires seen + Sent(current[index..], device, n) == seen' + Sent(current[index + 1..], device, n')
    ensures Halfway(before, device, index + 1, next, n', seen')
  {
    assert current[index + 1..] == current[index..][1..] == before[index + 1..];
    Assoc(next[..index], [next[index]], Executed(before[index + 1..], device, n'));
    assert next[..index + 1] == next[..index] + [next[index]];
  }

  lemma Finishes(before: seq<Line>, device: Device, index: nat, current: seq<Line>, n: nat, seen: seq<seq<byte>>,
                 next: seq<Line>, seen': seq<seq<byte>>)
    requires Halfway(before, device, index, current, n, seen)
    requires |next| == |current| && next[..index] == current[..index]
    requires next[index..] == Executed(current[index..], device, n) && seen' == seen + Sent(current[index..], device, n)
    ensures next == Executed(before, device, 0) && seen' == Sent(before, device, 0)
  {
    assert next == next[..index] + next[index..];
  }

  /** The batch loop against a connected driver. */
  method RunLines(lines: array<Line>, driver: Driver)
    requires driver.answered == 0 && driver.seen == []
    modifies lines, driver
    ensures lines[..] == Executed(old(lines[..]), driver.device, 0)
    ensures driver.seen == Sent(old(lines[..]), driver.device, 0)
    ensures driver.closes == old(driver.closes)
  {
    ghost var before, device := lines[..], driver.device;
    var index := 0;
    while index < lines.Length
      invariant 0 <= index <= lines.Length && driver.closes == old(driver.closes)
      invariant Halfway(before, device, index, lines[..], driver.answered, driver.seen)
    {
      ghost var current, n, seen := lines[..], driver.answered, driver.seen;
      var goesOn := RunLine(lines, index, driver);
      ghost var next := lines[..];
      if !goesOn {
        Finishes(before, device, index, current, n, seen, next, driver.seen);
        return;
      }
      Advances(before, device, index, current, n, seen, next, driver.answered, driver.seen);
      index := index + 1;
    }
    Finishes(before, device, index, lines[..], driver.answered, driver.seen, lines[..], driver.seen);
  }

  lemma ClearedCons(line: Line, rest: seq<Line>)
    ensures ClearedAll([line] + rest) == [Cleared(line)] + ClearedAll(rest)
  {
  }

  /** The error goes to one line, and that line and all after it lose their frames. */
  method FailLine(lines: array<Line>, index: nat, message: string)
    requires index < lines.Length
    modifies lines
    ensures lines[..index] == old(lines[..index])
    ensures lines[index..]
            == [Cleared(old(lines[index])).(error := Some(message))] + ClearedAll(old(lines[index + 1..]))
  {
    ghost var rest := lines[index + 1..];
    var failed := lines[index].(error := Some(message));
    lines[index] := failed;
    assert lines[index..] == [failed] + rest;
    ClearModbus(lines, index);
    ClearedCons(failed, rest);
  }

  /** How resolving the target, constructing a driver and connecting it go, each failing
      with a message or not, and the device behind the driver. */
  datatype Setup = Setup(unresolved: Option<string>, refused: Option<string>, unreachable: Option<string>,
                         device: Device)
  {
    predicate HasDriver() {
      unresolved.None? && refused.None?
    }

    predicate Connects() {
      HasDriver() && unreachable.None?
    }

    /** The message of the first step that fails. */
    function Message(): string
      requires !Connects()
    {
      if unresolved.Some? then unresolved.value
      else if refused.Some? then refused.value
      else unreachable.value
    }
  }

  /** Resolve, construct, connect and run. When one of the first three fails, nothing is
      sent and every frame is cleared. A constructed driver is closed exactly once. */
  method Execute(header: Header, setup: Setup) returns (driver: Driver?)
    modifies header`error, header.lines
    ensures driver != null <==> setup.HasDriver()
    ensures driver != null ==> fresh(driver) && driver.closes == 1 && driver.device == setup.device
    ensures !setup.Connects() ==>
              && header.error == Some(setup.Message()) && (driver != null ==> driver.seen == [])
              && forall i | 0 <= i < header.lines.Length :: header.lines[i] == old(header.lines[i]).(modbus := None)
    ensures setup.Connects() ==>
              && header.error == old(header.error)
              && header.lines[..] == Executed(old(header.lines[..]), setup.device, 0)
              && driver.seen == Sent(old(header.lines[..]), setup.device, 0)
  {
    driver := null;
    if setup.unresolved.Some? {
      SetGlobalError(header, setup.unresolved.value);
      return;
    }
    if setup.refused.Some? {
      SetGlobalError(header, setup.refused.value);
      return;
    }
    driver := new Driver(setup.device);
    if setup.unreachable.Some? {
      SetGlobalError(header, setup.unreachable.value);
    } else {
      RunLines(header.lines, driver);
    }
    driver.Close();
  }

  /** Whether the response can be encoded, is published, and the new cursor stored. */
  datatype Delivery = Delivery(encoded: bool, published: bool, stored: bool)

  datatype Handled = EncodeFailed | PublishFailed | CommitFailed | Published

  class RequestHandler {
    /** The stored log cursor of the plant. */
    var cursor: LogStream.PlantState

    constructor (cursor: LogStream.PlantState)
      ensures this.cursor == cursor
    {
      this.cursor := cursor;
    }

    /** One decoded request. The cursor moves exactly if a log was asked for and read, the
        response carrying its text was published, and the store took the new cursor; then
        it moves to the end of the text that was published. */
    method Handle(header: Header, files: LogStream.Files, today: int, setup: Setup, delivery: Delivery)
      returns (r: Handled, driver: Driver?)
      modifies this, header, header.lines
      ensures driver != null <==> setup.HasDriver()
      ensures driver != null ==> fresh(driver) && driver.closes == 1
      ensures setup.Connects() ==>
                && header.error == old(header.error)
                && header.lines[..] == Executed(old(header.lines[..]), setup.device, 0)
                && driver.seen == Sent(old(header.lines[..]), setup.device, 0)
      ensures !setup.Connects() ==>
                && header.error == Some(setup.Message())
                && forall i | 0 <= i < header.lines.Length :: header.lines[i] == old(header.lines[i]).(modbus := None)
      ensures var read := LogStream.Prepare(files, today, old(cursor));
              var ready := header.sendLastLog.Some? && header.sendLastLog.value != 0 && read.Ok?;
              && header.lastLog == (if ready then read.value.text else old(header.lastLog))
              && cursor == (if ready && delivery == Delivery(true, true, true) then read.value.next else old(cursor))
              && (r.EncodeFailed? <==> !delivery.encoded)
              && (r.PublishFailed? <==> delivery.encoded && !delivery.published)
              && (r.CommitFailed? <==> ready && delivery == Delivery(true, true, false))
    {
      driver := Execute(header, setup);
      var prepared: Option<LogStream.Read> := None;
      if header.WantsLog() {
        var read := LogStream.Prepare(files, today, cursor);
        if read.Ok? {
          header.lastLog := read.value.text;
          prepared := Some(read.value);
        }
      }
      if !delivery.encoded {
        return EncodeFailed, driver;
      }
      if !delivery.published {
        return PublishFailed, driver;
      }
      if prepared.Some? {
        if !delivery.stored {
          return CommitFailed, driver;
        }
        cursor := prepared.value.next;
      }
      return Published, driver;
    }
  }
}

# A verified model of the GBB connector

The connector talks Modbus RTU to solar inverters through four transports (raw RTU over TCP, a
serial port, Modbus TCP and SolarmanV5), runs batches of requests that arrive from a cloud broker,
streams its daily log back to the cloud, and looks for loggers on the local network. This project
models those parts in Dafny and proves what they keep over all inputs, all read schedules and all
interleavings. `dafny verify dfyconfig.toml` checks everything.

## How the model is built

* Code that changes things step by step is written that way: the checksum loops, the comma stripper,
  the frame builders over arrays, the four transports with their retry loops, the request handler,
  the executor, the store and the daily log file are methods or classes, each proved against a
  specification function or a stated new state. What the specification means is proved in lemmas.
* What runs concurrently (the scan pipeline, the executor's callers, the shutdown of a plant worker,
  the state store with crashes, the log cursor against its writer) is a step system: a `World`, an
  `Action`, `Enabled`, `Step`, and an invariant that every step keeps. `Runs` and `After` then speak
  about whole runs with any interleaving. For each of the five systems a history module
  (`ShutdownHistory`, `LogHistory`, `StoreHistory`, `ExecutorHistory`, `ScanHistory`) says the same
  a second time without a state: which steps may follow the steps taken so far. `RunsIffLawful`
  proves that both describe the same runs, and `RunTold` that every flag of the state is what the
  past says, so that the promises can be stated on actions alone.
* Constants and layouts are written twice as well: the code goes by named constants as the source
  does, the specifications by the byte values and numbers of the standard or the protocol.
* A byte is an integer from 0 to 255 and a 16-bit word an integer below 65536. Shifts, masks and
  truncating conversions are written as division, comparison and remainder; exclusive or is defined
  on binary digits. Go's `int` is taken as unbounded where the code bounds it itself;
  `Serial.TimeoutCoversTransmission` also shows that the deadline arithmetic stays inside 64 bits.
* The network is a fixed byte stream per connection and an adversary: every read may return any
  number of bytes and may fail, every write may be cut short, every dial may fail, every probe,
  publish and system call may fail. What is promised is stated on what this environment records, not
  on counters of the code's own: `Wire.Network` counts the dials and keeps every connection it
  granted; a `Wire.Conn` keeps all bytes written, how often a call failed or moved nothing, which
  deadlines were set and refused, where the latest read was issued, and the read position at the
  latest write and the latest flush; a `Cancellation.Context` may become cancelled at any moment; a
  state directory and a log disk count their failures. So an error is never just reported: it is
  tied to a failure the environment recorded, to a cancelled context, or to the bytes that were
  read. Days and times are integers.

## Main results

**Checksum.** A frame validates exactly when, its first 16 bits inverted, the polynomial x^16 + x^15
+ x^2 + 1 divides it (`CrcDivision.ValidIffDivisible`), which is the textbook definition of this
checksum and names neither register nor constants. Whether a corrupted frame still validates depends
only on the flipped bits. Every burst of up to 16 bits and every odd number of flips is rejected at
any length, and 17-bit bursts exist that are not. Different valid frames of up to 4095 bytes differ
in at least four bits, because the register repeats after exactly 32767 steps; from 4096 bytes on
every valid frame has a valid companion two bits away.

**Transports.** Cutting frames out of arbitrarily fragmented reads gives exactly the frames of the
whole stream in order. All four transports return the same bytes for a reply of six bytes or more
whose third byte is below 128. They fail to only if the deadline is refused, the context of a serial
call is cancelled, or a read fails that was issued before the whole reply was there: no reader waits
for a byte it does not need, and none but raw RTU over TCP takes a byte beyond the frame. A call
gives up only after all of its attempts, drops a connection only after that failed so (or announced
a frame above the maximum), dials at most 11 times and puts nothing on any connection but copies of
its own request: at most one per connection, at most ten with SolarmanV5. A reply of Modbus TCP,
SolarmanV5 or the serial port is cut from the bytes read after the request was written, and a stale
SolarmanV5 frame is never returned.

**Requests, log and shutdown.** A batch leaves exactly one cut. Over any run the committed log texts
join to the log between the first cursor and the current one if and only if no step of the run is
one of three kinds that lose text, described below. A closed gate never accepts again. When the
worker's context ends a cycle, the context of its requests is cancelled only after each of them is
done, unless the grace period expired, and a shutdown that drains loses no commit. The state file is
never torn, and a load finds what the latest rename or crash left.

**Algorithms.** Trailing-comma removal maps every layout of a JSON value to the strict text of the
same value, in a grammar written in byte values. An uncancelled scan returns exactly the reachable
usable addresses, once each and in order, and every scan ends. At most one transaction holds the
executor, and local sends keep their distance.

## Where the code does not do what one might expect

Each of these is a property that fails on some input. The model keeps the code as it is, a lemma
shows a failing case, and another says exactly when the property holds.

* Modbus TCP drops valid replies: `ParseResponse` takes the third byte of the reply for the
  exception marker and wants ten bytes. A reply survives if and only if it has six bytes or more and
  a third byte up to 127 (`ModbusTcp.TransparentIff`): reads of 1 to 63 registers, acknowledgements
  of writes below address 0x8000, and no exception (`ModbusTcp.WhichRepliesSurvive`). The others are
  reported as device errors with a data byte for the code, or as too short
  (`ModbusTcp.HowRepliesAreLost`).
* `CreateFrame` truncates the length field: a device can accept the request if and only if the RTU
  frame has at most 65520 bytes (`Solarman.RequestAcceptedIff`).
* The framing rule takes function codes from 128 on for exceptions, the interpreter from 129 on;
  they disagree on 128 only (`Rtu.ExceptionDisagreement`).
* After a failed read the RTU-over-TCP framing stays aligned if and only if nothing had been read
  (`RtuTcp.AccountLoss`); the next read then returns whatever the remaining bytes start with, which
  may be a frame that was never sent (`RtuTcp.ReadAfterLoss`). `SendRTU` rejects it unless its last
  two bytes happen to be the checksum of the others. This needs a connection that stays open after a
  failure: the one of the 11th attempt does, and so does that of any attempt that fails under a
  cancelled context.
* A second pass of `removeTrailingCommas` changes nothing if and only if no two commas stand
  directly before a closer (`TrailingCommas.SecondPassIff`).
* Log text is lost in three ways, and in no other (`LogStream.CommittedExactlyOnceIff`): a line is
  written to a day the cursor has already left; a poll across midnight is committed although the old
  day's file has grown since it was read; or a poll from a cursor older than yesterday, which starts
  over at the end of today's file, is committed past a stretch of log that is not empty.
  `LogStream.MidnightRace`, `LogStream.LateCommitLosesText` and `LogStream.StartOverLosesText` are
  one run each in which a line is never delivered. None of it happens if every poll comes within a
  day of the last commit and none crosses midnight over a line stamped but not yet written
  (`LogStream.CarefulLosesNothing`).
* A save that succeeded can be undone by a crash of the machine, because the directory is never
  synced: a plant may come back with any state once renamed into place or with the zero value, and
  with nothing else (`Store.CrashMayRestore`). A crash in `LogStream` is one of the process and
  keeps the stored cursor. If a crash of the machine puts an earlier cursor back and the log files
  survive, a run without a lossy step delivers the log again from there and skips nothing
  (`LogStream.RevertedCursorRepeats`); if it puts the zero value back, everything up to the end of
  the current day's file is skipped (`LogStream.ForgottenCursorSkips`).
* The final write-back of the plant state can undo a commit if a request is still running
  (`Shutdown.RunningRequestLosesCommit`), and is harmless if none is
  (`Shutdown.FinalPersistHarmless`, `ShutdownHistory.CleanShutdown`).
* A cycle that fails during setup leaves its request gate open, and only such a cycle does; what it
  accepts never runs (`ShutdownHistory.OpenAfterEndIff`, `ShutdownHistory.CancelledNeverRuns`).

MODBUS Messaging on TCP/IP V1.0b, section 3.1.3, puts the transaction id in network order; the code
writes and reads it little-endian, and so does the model.

## Model

| member | source | states |
|---|---|---|
| `Crc.CRC16` | internal/modbus/rtu.go:19-37 | the nested loops compute the register over all but the last two bytes, low byte first; what the register is, is said by the division theorem |
| `Crc.AppendCRC` | internal/modbus/rtu.go:40-47 | the frame is the payload followed by its checksum |
| `Crc.ValidateCRC` | internal/modbus/rtu.go:50-56 | true exactly for a payload of any length followed by its own checksum |
| `CrcDivision.BitSent` | internal/modbus/rtu.go:26-35 | the n-th bit of a frame in sending order is digit n modulo 8 of byte n / 8 |
| `CrcDivision.ClearsIffDivisible` | internal/modbus/rtu.go:26-35 | a register started at zero ends at zero if and only if long division by x^16 + x^15 + x^2 + 1 leaves no remainder |
| `CrcDivision.ValidIffDivisible` | internal/modbus/rtu.go:19-56 | a frame of two bytes or more validates if and only if the polynomial divides it after its first 16 bits are inverted, which pins the start value, the polynomial, the bit order and the byte order |
| `CrcDetection.RegisterIsBitSerial` | internal/modbus/rtu.go:26-35 | the byte loop equals a register fed one bit at a time, least significant bit first |
| `CrcDetection.FeedLinear` | internal/modbus/rtu.go:26-35 | the register is linear over exclusive or of start value and input |
| `CrcDetection.ResidueTheorem` | internal/modbus/rtu.go:19-56 | a frame validates if and only if the register run over all of it, checksum included, ends at zero |
| `CrcDetection.UniqueExtension` | internal/modbus/rtu.go:39-56 | `AppendCRC` gives the only two-byte extension that validates |
| `CrcDetection.CorruptionTheorem` | internal/modbus/rtu.go:19-56 | a corrupted copy of a valid frame validates if and only if its flipped bits clear a cleared register |
| `CrcDetection.BurstDetected` | internal/modbus/rtu.go:19-56 | two valid frames of one length whose differences are confined to 16 consecutive bits are equal |
| `CrcDetection.SeventeenBitBurstMissed` | internal/modbus/rtu.go:19-56 | every valid frame of three bytes or more has another valid one that differs within 17 bits, so 16 is the limit |
| `CrcDetection.RegisterParity` | internal/modbus/rtu.go:25-36 | the parity of the register changes only by the parity of the bytes fed in |
| `CrcDetection.ValidFrameHasEvenWeight` | internal/modbus/rtu.go:50-56 | every valid frame has an even number of one bits |
| `CrcDetection.OddCorruptionDetected` | internal/modbus/rtu.go:50-56 | flipping an odd number of bits of a valid frame is always detected |
| `CrcDistance.NoShorterPeriod` | internal/modbus/rtu.go:26-35 | the recurrence behind the register has no period below 32767 |
| `CrcDistance.ReturnsIff` | internal/modbus/rtu.go:26-35 | shifting brings a single bit back to itself after the multiples of 32767 steps and no others |
| `CrcDistance.TwoFlips` | internal/modbus/rtu.go:26-35 | two flipped bits are missed if and only if their distance is a multiple of 32767 |
| `CrcDistance.DistanceFour` | internal/modbus/rtu.go:50-56 | different valid frames of one length up to 4095 bytes differ in at least four bits |
| `CrcDistance.TwoFlipsMissed` | internal/modbus/rtu.go:50-56 | every valid frame of 4096 bytes or more has a valid companion that differs in two bits, so 4095 is the limit |
| `Hex.EncodeHex` | internal/modbus/rtu.go:97-106 | lower-case digits raised in place give the upper-case encoding |
| `Hex.EncodeAt` | internal/modbus/rtu.go:97-106 | the two characters of each byte are those of "0123456789ABCDEF" for its high and its low half |
| `Hex.DecodeEncode` | internal/modbus/rtu.go:96-118 | decoding an encoded frame gives the frame back |
| `Hex.EncodeDecode` | internal/modbus/rtu.go:96-118 | encoding what was decoded gives the same digits in upper case |
| `Hex.DecodesIff` | internal/modbus/rtu.go:108-118 | exactly the even-length strings of the digits 0-9, a-f and A-F decode; an odd length is told apart from a wrong character |
| `Rtu.ParseResponse` | internal/modbus/response.go:31-75 | a wrong checksum is reported exactly when there is one, else the interpretation of the frame |
| `Rtu.DecodeRegisters` | internal/modbus/response.go:79-90 | the loop gives the registers of the data, or an error exactly for an odd length |
| `Rtu.RegisterAt` | internal/modbus/response.go:79-90 | register i is 256 times byte 2i plus byte 2i + 1 |
| `Rtu.RegistersRoundTrip` | internal/modbus/response.go:79-90 | register bytes decode to the registers they were made of |
| `Rtu.ReadRoundTrip` | internal/modbus/response.go:31-90 | up to 125 registers survive reply, checksum, framing, interpretation and decoding |
| `Rtu.ReadRequestTold` | internal/modbus/rtu.go:60-71 | a read request is built exactly up to 125 registers, with each byte of it and a valid checksum |
| `Rtu.WriteRequestTold` | internal/modbus/rtu.go:75-94 | a write request is built exactly up to 250 bytes, with each byte of its header, the values, the padding and a valid checksum |
| `Rtu.StandardReplies` | internal/modbus/response.go:31-75 | the replies of the standard for function codes 1 to 6, 15, 16 and 23 and every exception are frames of the framing rule, and are interpreted as their data, as themselves, or as the error with its function and code |
| `Rtu.RefusedIff` | internal/modbus/response.go:35-75 | malformed are exactly the frames below four bytes, exceptions of four, and reads whose byte count is not that of their data |
| `Rtu.RepliesAreFrames` | internal/driver/modbusrtutcp/frame.go:7-28 | every read, write and exception reply is one valid frame by the shared framing rule |
| `Rtu.ReadAcceptedIffFramed` | internal/modbus/response.go:42-75 | a read reply is accepted exactly when its length is the one the framing rule gives |
| `Rtu.KindsDescribe` | internal/modbus/response.go:35-75 | the kinds: the framing rule gives 5 bytes for exceptions, 8 for acknowledgements, the announced length for reads; the interpreter reports a device error, echoes the frame, or returns the data exactly when the frame has that length |
| `Rtu.ExceptionDisagreement` | internal/modbus/response.go:35-75 | framing rule and interpreter take a reply for different kinds if and only if its function code is 128; a framed reply is accepted if and only if its code is at most 128 |
| `Framing.LengthBounds` | internal/driver/modbusrtutcp/frame.go:7-28 | lengths lie in 5..260 and are never refused; more bytes are asked for exactly below two, or at two for a function code below 5 or 23 |
| `Framing.LengthStable` | internal/driver/modbusrtutcp/frame.go:7-28 | later bytes never change a length once known |
| `Framing.FramesPartition` | internal/driver/modbusrtutcp/frame.go:7-28 | the batch parser splits its input into frames and a rest without losing or inventing a byte |
| `Framing.FramesOfFlatten` | internal/driver/modbusrtutcp/frame.go:7-28 | any list of frames is recovered from its concatenation, whatever follows |
| `Framing.FramesGrow` | internal/driver/modbusrtutcp/frame.go:7-28 | bytes that arrive later only add frames at the end |
| `Framing.FrameUnique` | internal/driver/modbusrtutcp/frame.go:7-28 | at most one prefix of a stream is a frame, and it is the first one |
| `Framing.NotYet` | internal/driver/modbusrtutcp/frame.go:7-28 | as long as the rule sees no complete frame, the frame to come is not there as a whole |
| `RtuTcp.DeframingRefinesBatch` | internal/driver/modbusrtutcp/transport.go:209-246 | frames returned so far, under any read sizes, are a prefix of the batch parse of the whole stream, and the rest is still to come |
| `RtuTcp.AccountRead` | internal/driver/modbusrtutcp/transport.go:214-246 | a successful read keeps frames returned plus unread bytes equal to the bytes delivered |
| `RtuTcp.AccountLoss` | internal/driver/modbusrtutcp/transport.go:214-246 | a failed read keeps that account if and only if nothing had been buffered or read |
| `RtuTcp.NextOfBatch` | internal/driver/modbusrtutcp/transport.go:214-246 | one more frame continues the batch parse of the peer's stream if and only if it is the first frame of the unread rest |
| `RtuTcp.LostByteMisframes` | internal/driver/modbusrtutcp/frame.go:7-28 | with one byte missing, two acknowledgements with good checksums start with a frame that neither of them is |
| `RtuTcp.ReadAfterLoss` | internal/driver/modbusrtutcp/transport.go:209-246 | anywhere in an aligned stream, after a failed read the next successful one returns what the remaining bytes start with; the frames returned are still those of the peer's stream if and only if the unread bytes started with the same frame before the loss; with one byte of two acknowledgements lost they are not |
| `RtuTcp.Transport.ConnectLocked` | internal/driver/modbusrtutcp/transport.go:86-118 | an open connection is kept; else one dial unless the context is cancelled or the settings are bad, and nothing else is an error; a new connection starts with no bytes of an earlier one |
| `RtuTcp.Transport.CloseLocked` | internal/driver/modbusrtutcp/transport.go:255-266 | connection and buffer are gone |
| `RtuTcp.Transport.ReadFrameLocked` | internal/driver/modbusrtutcp/transport.go:209-246 | under any chunking a success is one frame cut off the front of the unread bytes; frame plus new buffer is old buffer plus bytes read; one deadline is set first, and nothing is read once a whole frame is there, so an error means a refused deadline or a failed read issued before; both length errors are unreachable |
| `RtuTcp.Transport.InternalSendLocked` | internal/driver/modbusrtutcp/transport.go:148-186 | an error is either cancellation or comes after exactly ten more dials; every connection given up failed while no whole frame was there; at most one copy of the request and nothing else on each connection, a whole one before a reply; the framing of an aligned connection kept |
| `RtuTcp.Transport.SendRTU` | internal/driver/modbusrtutcp/transport.go:123-146 | the k-th reply on an aligned connection is the k-th frame of the peer's stream, also after a wrong checksum, and a returned one validates; at most 11 dials, one copy of the request per connection and nothing else; an error is cancellation, bad settings, a refused first dial, a wrong checksum, or the failure of all attempts |
| `Serial.Transport.ReadFrameLocked` | internal/driver/modbusserial/transport.go:143-179 | a success is exactly the first frame of the unread bytes, and in no case is a byte beyond it taken or waited for; an error means a failed read issued before the whole frame was there, or a cancelled context; both length errors are unreachable |
| `Serial.Transport.SendRTU` | internal/driver/modbusserial/transport.go:97-141 | input is flushed once, then exactly the request written; the reply is all that was read after that and validates; a wrong checksum leaves the port open, any other error after output was asked for closes it; each error is tied to a call of the port that failed while no whole frame was there, a refused opening, bad settings or a cancelled context; nothing beyond the first frame after the flush is taken |
| `Serial.PredictionMatchesReply` | internal/driver/modbusserial/transport.go:258-274 | the length foreseen from a read or write request is the one the framing rule reads off a conforming reply |
| `Serial.TimeoutTold` | internal/driver/modbusserial/transport.go:276-295 | between its bounds the deadline is 100 ms plus twice the transmission time of the characters, exact to two nanoseconds |
| `Serial.TimeoutCoversTransmission` | internal/driver/modbusserial/transport.go:276-295 | the deadline lies in 250 ms..5 s, covers the transmission whenever that takes at most 5 s, and does not overflow |
| `Sequence.Generator.Next` | internal/driver/modbustcp/sequence.go:19-31 | the n-th call gives the first number plus n, modulo the width |
| `Sequence.NumbersDistinct` | internal/driver/solarmanv5/sequence.go:19-31 | numbers fewer than a full turn apart never coincide |
| `ModbusTcp.BuildRequest` | internal/driver/modbustcp/frame.go:14-28 | the checksum is replaced by a header for every length that fits, an error else |
| `ModbusTcp.MbapFields` | internal/driver/modbustcp/frame.go:14-57 | every byte of the header: id low byte first, two zeros, length high byte first; id, length and payload are read back |
| `ModbusTcp.TransparentIff` | internal/driver/modbustcp/frame.go:31-57 | a valid reply comes through unchanged if and only if it has at least six bytes and a third byte up to 127 |
| `ModbusTcp.WhichRepliesSurvive` | internal/driver/modbustcp/frame.go:31-57 | reads of 1 to 63 registers and write acknowledgements below 0x8000 survive, exceptions never do |
| `ModbusTcp.HowRepliesAreLost` | internal/driver/modbustcp/frame.go:31-57 | reads of 64 registers or more become device errors with the first data byte for a code, write acknowledgements from 0x8000 on with the low address byte, exceptions are too short |
| `ModbusTcp.OtherFrames` | internal/driver/modbustcp/frame.go:31-57 | bytes behind the announced length are dropped, a frame cut short is refused, and so is another transaction id |
| `ModbusTcp.ParseSound` | internal/driver/modbustcp/frame.go:31-57 | what is accepted carries the id asked for and a valid checksum over bytes really received |
| `ModbusTcp.Transport.ReadFrameLocked` | internal/driver/modbustcp/transport.go:217-242 | a success is exactly the bytes taken, as long as the header announces, and in no case is a byte beyond taken or waited for; an error means a refused deadline, a failed read issued before the whole frame was there, or a header that announces more than 1024 bytes |
| `ModbusTcp.Transport.InternalSendLocked` | internal/driver/modbustcp/transport.go:156-194 | an error is either cancellation or comes after exactly ten more dials; every connection given up failed while no whole frame was there, or announced too long a frame; at most one copy of the request on each, a whole one before an answer |
| `ModbusTcp.Transport.SendRTU` | internal/driver/modbustcp/transport.go:124-154 | each connection carries at most one copy of the request under this call's own id and nothing else; a reply, or a complaint about one, is the parse, under that id, of all that was read after the whole request was written; any other error is cancellation, bad settings, a refused first dial or the failure of all of at most 11 attempts |
| `Solarman.Checksum` | internal/driver/solarmanv5/frame.go:93-99 | the sum of the bytes modulo 256 |
| `Solarman.CreateFrame` | internal/driver/solarmanv5/frame.go:23-42 | the array filled in place is the wrapped request |
| `Solarman.RequestAcceptedIff` | internal/driver/solarmanv5/frame.go:23-42 | a device that looks at every byte of the request (start, length, control code, number, serial, type, zeros, checksum, end) can accept it if and only if the RTU frame has at most 65520 bytes |
| `Solarman.UnwrapIff` | internal/driver/solarmanv5/frame.go:47-91 | a wrapped reply is unwrapped to itself if and only if it has 5 to 65521 bytes |
| `Solarman.AcceptedIsWrapped` | internal/driver/solarmanv5/frame.go:47-91 | only replies wrapped with this sequence number and serial are accepted |
| `Solarman.OneByteChanged` | internal/driver/solarmanv5/frame.go:47-91 | what each single byte of an accepted frame stands for: a change is the error of its field, goes unnoticed in the free bytes and the checksum, or changes the payload |
| `Solarman.LengthErrors` | internal/driver/solarmanv5/frame.go:47-91 | for any bytes: too short means fewer than five, a wrong length means that the length field does not fit; a wrapped payload below five bytes counts as none |
| `Solarman.StaleFrameRejected` | internal/driver/solarmanv5/transport.go:130-156 | a frame that answers one of the previous 255 calls is refused by this one |
| `Solarman.Transport.ReadFrameLocked` | internal/driver/solarmanv5/transport.go:243-269 | a success is exactly the bytes taken, as long as the header announces, and in no case is a byte beyond taken or waited for; an error means a refused deadline, a failed read issued before the whole frame was there, or a header that announces more than 1024 bytes |
| `Solarman.Transport.ExchangeLocked` | internal/driver/solarmanv5/transport.go:196-220 | the connection carries one to ten copies of the request, all but the last whole and each answered by a whole frame without the number; the answer returned begins right behind those, was read after the last copy, and echoes the number or is the tenth; an error means that the connection failed or announced too long a frame before such an answer was there |
| `Solarman.OneMoreStale` | internal/driver/solarmanv5/transport.go:196-220 | a whole frame without the number extends the run of those read before |
| `Solarman.StaleThenIncomplete` | internal/driver/solarmanv5/transport.go:196-220 | at most so many whole frames without the number followed by an incomplete one count as unanswered |
| `Solarman.Transport.InternalSendLocked` | internal/driver/solarmanv5/transport.go:158-194 | an error is either cancellation or comes after exactly ten more dials; every connection given up failed or announced too long a frame while neither an answer with the number nor ten answers were there; at most ten copies of the request on each |
| `Solarman.Transport.SendRTU` | internal/driver/solarmanv5/transport.go:130-156 | at most 11 dials, on each connection at most ten copies of one frame and nothing else; a reply, or a complaint about one, is the parse, under this call's number and the configured serial, of all that was read after the last whole copy; any other error is cancellation, bad settings, a refused first dial or the failure of all attempts |
| `Transparency.RawReaders` | internal/driver/modbusserial/transport.go:143-179 | whatever follows on the wire, a frame cut off the front is the device's reply |
| `Transparency.ModbusTcpReader` | internal/driver/modbustcp/transport.go:217-242 | the frame the reader cuts is unpacked to the reply if and only if the reply has six bytes and a third byte up to 127 |
| `Transparency.SolarmanReader` | internal/driver/solarmanv5/transport.go:243-269 | the frame the reader cuts is always unpacked to the reply |
| `Transparency.AllTransportsAgree` | internal/driver/modbustcp/frame.go:31-57 | the four transports hand over the same bytes for the same reply |
| `Transparency.ReadRtuTcp` | internal/driver/modbusrtutcp/transport.go:209-246 | with the reply next on the wire, buffered or not, a read under any chunking returns it and leaves what follows, unless the deadline is refused or a read fails that was issued before the whole reply was there |
| `Transparency.ReadSerial` | internal/driver/modbusserial/transport.go:143-179 | the reply is returned unless the context is cancelled or a read fails that was issued before the whole reply was there; in no case is a byte beyond the reply taken |
| `Transparency.ReadModbusTcp` | internal/driver/modbustcp/transport.go:124-154 | a reply of six bytes and third byte up to 127 is returned unless the deadline is refused or a read fails that was issued before its whole frame was there; any other reply is never returned |
| `Transparency.ReadSolarman` | internal/driver/solarmanv5/transport.go:130-156 | the reply is returned, given this call's number and serial, unless the deadline is refused or a read fails that was issued before its whole frame was there |
| `TrailingCommas.RemoveTrailingCommas` | internal/protocol/codec.go:33-82 | on any bytes the loop with its flags and lookahead deletes exactly the commas outside strings that stand, white space (20, 09, 0A, 0D) aside, before a closing brace or bracket |
| `TrailingCommas.KeptIsScan` | internal/protocol/codec.go:33-72 | that set of positions equals a left-to-right scan |
| `TrailingCommas.StripPreservesMeaning` | internal/protocol/codec.go:33-72 | every layout of a JSON value (RFC 8259, in byte values) with optional trailing commas becomes the strict text of the same value, strings and escapes unchanged |
| `TrailingCommas.PrettyPrinted` | internal/protocol/codec.go:33-72 | such a layout, with commas trailing across a line feed, and its strict text, byte by byte |
| `TrailingCommas.SecondPassIff` | internal/protocol/codec.go:33-72 | a second pass changes nothing if and only if no two commas stand before a closer |
| `TrailingCommas.DoubledCommaNeedsTwoPasses` | internal/protocol/codec.go:62-68 | the smallest text on which it does |
| `LogStream.PollOffersSlice` | internal/cloud/logstream.go:52-106 | a poll from a cursor no older than yesterday offers exactly the log between the cursor and the next one, also across midnight |
| `LogStream.StartsOverAtEnd` | internal/cloud/logstream.go:71-127 | a poll with an unset cursor, or one older than yesterday, offers nothing and goes on behind whatever the day's file holds |
| `LogStream.ReadsOn` | internal/cloud/logstream.go:90-106 | from yesterday's cursor or a later one, the text and the next cursor for a missing file, a position inside the file and one past its end |
| `LogStream.PollFailsIff` | internal/cloud/logstream.go:74-97 | a poll fails exactly on an unreadable date or a negative position that is to be used |
| `LogStream.StepAccounts` | internal/cloud/handler.go:147-166 | whatever comes, every append, day change, poll, publish, commit and crash leaves the account exact if and only if it was and the step is not one of the three lossy ones; nothing repairs a broken account |
| `LogStream.CommittedExactlyOnceIff` | internal/cloud/handler.go:147-166 | over any run the committed texts join to the log between first and current cursor, once each, if and only if no step was lossy |
| `LogHistory.RunsIffLawful` | internal/cloud/handler.go:147-166 | the runs are exactly the sequences in which each step is allowed by those before it |
| `LogHistory.RunTold` | internal/cloud/handler.go:147-166 | after any run every file is what the writes since say, the cursor is that of the latest committed poll, and the delivered texts are those of the committed polls |
| `LogStream.HistoryStands` | internal/cloud/handler.go:147-166 | over any run the first cursor stays the first and no committed text is taken back |
| `LogStream.DeliversFromFirstCursor` | internal/cloud/logstream.go:52-114 | from any cursor inside the log, a run without a lossy step delivers exactly the log from that cursor to the last one |
| `LogStream.LateWriteIff` | internal/logbuf/logbuf.go:395-428 | a write lengthens the accounted log exactly by what it adds to a day the cursor has left |
| `LogStream.CarefulLosesNothing` | internal/cloud/logstream.go:52-106 | a run whose polls all come within a day of the last commit, and never cross midnight over an unwritten line, has no lossy step |
| `LogStream.MidnightRace` | internal/logbuf/logbuf.go:395-450 | a run in which a line stamped before midnight is never delivered |
| `LogStream.LateCommitLosesText` | internal/cloud/handler.go:147-166 | a run in which a line written between the poll across midnight and its commit is never delivered |
| `LogStream.StartOverLosesText` | internal/cloud/logstream.go:86-88 | a run in which a line logged two days before the next poll is never delivered |
| `LogStream.StartOverSkips` | internal/cloud/logstream.go:86-88 | from any cursor older than yesterday, poll, publish and commit deliver nothing, move the cursor behind the day's file, and lose text exactly if some was logged in between |
| `LogStream.UncommittedOfferedAgain` | internal/cloud/logstream.go:52-106 | the text of an uncommitted poll is a prefix of what the next poll offers while the cursor is recent enough, and is dropped after |
| `LogStream.OfferedAgain` | internal/cloud/handler.go:147-166 | over any run without a successful commit, what a poll offered at its start is a prefix of what one offers at its end, or dropped when the cursor is older than yesterday by then |
| `LogStream.StepGrows` | internal/cloud/logstream.go:108-114 | the log only grows, and only a successful commit moves the cursor |
| `LogStream.CursorWaits` | internal/cloud/logstream.go:108-114 | over any run without a successful commit the cursor stays |
| `LogStream.EarlierCursorStands` | internal/cloud/logstream.go:52-106 | the cursor of any earlier moment of a run still lies in the log |
| `LogStream.RevertedCursorRepeats` | internal/state/store.go:204-207 | when a crash puts an earlier cursor back, a run without a lossy step delivers exactly the log from that cursor on |
| `LogStream.ForgottenCursorSkips` | internal/cloud/logstream.go:71-73 | when a crash puts the zero value back, the next poll offers nothing and its commit passes all the log up to the end of the day's file |
| `LogStream.DailyFileState.OpenDay` | internal/logbuf/logbuf.go:430-450 | it succeeds exactly when no call to the disk fails, and then the file of the day is the one open file; if the old file cannot be closed it is kept, if the new one cannot be opened there is none; nothing else changes |
| `LogStream.DailyFileState.Write` | internal/logbuf/logbuf.go:395-428 | a prefix of the line goes to the end of its own day's file and every other file stays as it was; the whole of it exactly when no call to the disk fails |
| `Handler.ClearModbus` | internal/cloud/handler.go:321-325 | every line from the index on has no frame any more and is otherwise as it was, every line before it is as it was |
| `Handler.SetGlobalError` | internal/cloud/handler.go:315-319 | the header gains the error, and every line has no frame any more and is otherwise as it was |
| `Handler.RunLines` | internal/cloud/handler.go:266-287 | the loop over the lines leaves them as the specification says, and the driver saw the frames it says |
| `Handler.CutExists` | internal/cloud/handler.go:266-287 | every batch on every device has exactly one cut |
| `Handler.CascadeShape` | internal/cloud/handler.go:266-287 | the result of the batch is read off the cut, line by line |
| `Handler.CascadeClears` | internal/cloud/handler.go:266-287 | line by line: number, tag and time stamp stay; before the cut a frame is replaced by the answer to it; from the cut on there is none; only the line at the cut changes its error |
| `Handler.FailureTold` | internal/modbus/rtu.go:108-118 | the message at the cut: odd length, a character that is no digit, or what the device reported |
| `Handler.DeviceSaw` | internal/cloud/handler.go:272-281 | the device saw exactly the decoded frames up to the cut, in order |
| `Handler.Execute` | internal/cloud/handler.go:239-288 | the first of resolving, constructing and connecting that fails sets the global error, clears all frames and sends nothing; else the batch runs; a constructed driver is closed exactly once |
| `Handler.RequestHandler.Handle` | internal/cloud/handler.go:114-168 | the cursor moves exactly when a log was asked for and read, encoding, publish and store all succeed, and then to the end of the text published; which step failed is what is reported; a log text that came with the request is echoed unless a log was asked for and read |
| `Store.StepKeeps` | internal/state/store.go:169-209 | every system call, failure and crash keeps plant files whole and locks exclusive |
| `Store.LoadIsZeroOrSaved` | internal/state/store.go:97-133 | in every run a load yields the zero value or a state that a save for that plant wrote completely, synced and renamed into place |
| `Store.RenamedIffCompleted` | internal/state/store.go:187-207 | over any run the states put in place are exactly those of renames from a whole and synced temporary file |
| `Store.LoadSeesLatest` | internal/state/store.go:97-116 | in every run a load returns the state renamed last since the latest crash, and without a crash the zero value before any rename |
| `Store.CrashMayRestore` | internal/state/store.go:204-207 | at any point of any run a crash may leave a plant with a state if and only if it is the zero value or was once renamed into place for it |
| `StoreHistory.RunsIffLawful` | internal/state/store.go:97-209 | the runs are exactly the sequences in which calls for one plant exclude each other, a save takes its steps in order, and a crash leaves what was once put in place; after each a load finds what the latest rename or crash left, else an unset date and position zero |
| `StoreHistory.CrashMayLeave` | internal/state/store.go:204-207 | in terms of the steps taken alone: what a crash may leave of a plant |
| `Store.OnlyOwnRenameShows` | internal/state/store.go:118-133 | only the rename of a save for the same plant changes what a load returns |
| `Store.LoadIsUndisturbed` | internal/state/store.go:97-116 | no step of another thread changes the file while a load reads it |
| `Store.UnsyncedRenameWouldTear` | internal/state/store.go:196-207 | from any state of the system in which a saver has just written, going on to close and rename without the sync lets a crash leave a torn file |
| `StoreFiles.StateStore.Save` | internal/state/store.go:118-133 | it succeeds exactly when no system call fails, and then the plant file holds the whole new state on disk; else no plant file changed; a temporary file stays behind only if removing it fails too |
| `StoreFiles.StateStore.Fill` | internal/state/store.go:187-202 | permissions, write, sync and close: it succeeds exactly when none of them fails, and then the whole data is in the temporary file and synced |
| `StoreFiles.StateStore.Load` | internal/state/store.go:97-116 | zero value for a missing file, an error exactly for a failed read or a torn file, else the state in it |
| `StoreFiles.SaveThenLoad` | internal/state/store.go:97-133 | a load after a successful save returns it, after a failed one the state before; only a failed system call makes either fail |
| `Shutdown.StepKeeps` | internal/supervisor/supervisor.go:240-398 | every step of worker and callbacks, in any order, keeps the gate invariant |
| `Shutdown.InFlightShrinks` | internal/supervisor/supervisor.go:449-467 | no step fills the wait group of a closed gate |
| `Shutdown.NothingAcceptedAfterClose` | internal/supervisor/supervisor.go:449-467 | over any run a closed gate stays closed and the requests holding its slots only get fewer |
| `Shutdown.RequestNeverStuck` | internal/supervisor/supervisor.go:283-300 | every accepted request has a next step, also when cancelled or panicking |
| `Shutdown.SlotIsReleased` | internal/supervisor/supervisor.go:283-300 | each own step brings it nearer to giving its slot back, and nobody else's step takes it back |
| `Shutdown.FinalPersistHarmless` | internal/supervisor/supervisor.go:389-398 | with no request running the stored cursor keeps its value across the final load and save, whatever comes |
| `Shutdown.DrainedEndsQuiet` | internal/supervisor/supervisor.go:373-387 | a drained cycle ends in that state |
| `Shutdown.RunningRequestLosesCommit` | internal/supervisor/supervisor.go:389-398 | with a request still running there is always a run in which its commit is undone |
| `Shutdown.GraceCanExpire` | internal/supervisor/supervisor.go:373-387 | such a state is reachable from the start |
| `ShutdownHistory.RunsIffLawful` | internal/supervisor/supervisor.go:240-398 | the runs of worker and callbacks are exactly the sequences in which each step is allowed by those before it: the order of the worker's steps on its three ways out of a cycle, and the steps of each request |
| `ShutdownHistory.RunTold` | internal/supervisor/supervisor.go:240-398 | after any run each flag of each gate, each request, the worker's place and the stored cursor are what the actions say |
| `ShutdownHistory.GracefulCancellation` | internal/supervisor/supervisor.go:359-387 | in every run: if a cycle observed the cancelled context, or the end of its lifecycle after it, and its grace did not expire, its request context is cancelled only after every request accepted in it is done |
| `ShutdownHistory.WaitsWhenClosed` | internal/supervisor/supervisor.go:330-371 | the worker waits for a cycle's requests only when its gate is closed and its lifecycle has ended, and it has cancelled their context by then exactly if the cycle does not end gracefully |
| `ShutdownHistory.NoAddAfterWait` | internal/supervisor/supervisor.go:449-481 | in every run, once the worker has begun to wait for a gate no request is accepted through it |
| `ShutdownHistory.OpenAfterEndIff` | internal/supervisor/supervisor.go:279-316 | a cycle that is over still accepts requests if and only if it failed during setup, and its request context is cancelled |
| `ShutdownHistory.CancelledNeverRuns` | internal/supervisor/supervisor.go:296-299 | a request started after its context was cancelled never runs, and only one that ran commits |
| `ShutdownHistory.CleanShutdown` | internal/supervisor/supervisor.go:373-398 | when the last cycle ends drained under a cancelled context and no earlier request still runs, the stored cursor is for ever that of the latest commit |
| `Addresses.ForEachUsableIPv4` | internal/discovery/subnet.go:279-300 | the visits are the usable addresses in order, all of them unless the visitor stopped, then a prefix |
| `Addresses.NoWrap` | internal/discovery/subnet.go:279-300 | for every prefix length the addresses with the same leading bits are an interval that does not pass the end of the 32-bit space |
| `Addresses.UsableExactly` | internal/discovery/subnet.go:279-300 | usable are exactly the block's addresses, less the first and last if and only if there are four or more |
| `Addresses.UsableAscending` | internal/discovery/subnet.go:291-299 | each once, strictly ascending, and how many |
| `Scan.StepKeeps` | internal/discovery/subnet.go:78-121 | every step of producer, workers and collector keeps each host in exactly one place |
| `Scan.ProbesBounded` | internal/discovery/subnet.go:81-98 | in every run at most as many hosts are under probe as there are workers, none by two |
| `Scan.Progress` | internal/discovery/subnet.go:78-121 | in no state reached by a run is the scan stuck before everything has stopped, cancelled or not |
| `Scan.StepMeasures` | internal/discovery/subnet.go:78-121 | every step lowers a measure |
| `Scan.RunsEnd` | internal/discovery/subnet.go:78-121 | every run has at most five steps a host, one a worker and four more |
| `Scan.UncancelledScanIsExact` | internal/discovery/subnet.go:50-127 | the sorted result of an uncancelled scan is exactly the reachable usable addresses, ascending, for every interleaving |
| `Scan.CancelledScanIsSubset` | internal/discovery/subnet.go:113-127 | at any point the result holds reachable usable addresses only, none twice |
| `ScanHistory.RunsIffLawful` | internal/discovery/subnet.go:78-127 | the runs of producer, workers and collector are exactly the sequences in which each step is allowed by those before it |
| `ScanHistory.SortedResultIsExact` | internal/discovery/subnet.go:50-127 | in every run in which the collector ended and nothing was cancelled, the sorted addresses delivered are exactly the reachable ones of the block, less first and last from four addresses on, strictly ascending |
| `Fingerprint.ExtractSolarmanSerial` | internal/discovery/subnet.go:244-266 | the serial of the first announcing frame in the bytes, found if and only if there is one |
| `Fingerprint.LoggerIsFound` | internal/discovery/subnet.go:244-266 | any logger frame after bytes without a start byte gives away exactly its serial |
| `Executor.Executor.Execute` | internal/driver/executor.go:54-87 | the token is back after every outcome; exactly one send unless the context is cancelled; a local send begins no sooner than its delay after the last successful local send ended; only such a send moves that mark |
| `Executor.StepKeeps` | internal/driver/executor.go:54-87 | every step of any number of callers keeps exclusion and spacing |
| `Executor.MutualExclusion` | internal/driver/executor.go:64-71 | in every run at most one call holds the token |
| `Executor.LocalSendsAreSpaced` | internal/driver/executor.go:73-85 | in every run a local send begins at least its own delay after every earlier successful local send ended |
| `Executor.RawCallsIgnoreSpacing` | internal/driver/executor.go:73-85 | a raw call neither waits nor moves the mark |
| `Executor.HolderProgresses` | internal/driver/executor.go:64-87 | the holder always has a next step, at most its own delay away, and each brings the token nearer to its return |
| `ExecutorHistory.RunsIffLawful` | internal/driver/executor.go:54-87 | the runs of any number of calls are exactly the sequences in which each step is allowed by those before it: queue, token, pause if the delay has not passed, send, release |
| `ExecutorHistory.OneOwner` | internal/driver/executor.go:64-71 | in terms of the steps taken alone: no two calls have the token at once |
| `ExecutorHistory.SendsAreSpaced` | internal/driver/executor.go:73-85 | in terms of the steps taken alone: a local send begins at least its own delay after every successful local send that ended before it |

## Left out

* MQTT, TLS, DNS, sockets, real serial ports, HTTP status pages, UDP discovery and time formatting: only a byte stream or a free choice of outcome stands for them.
* JSON, XML and YAML decoding, schema checks, configuration, command line and service handling: shallow or library code; the comma stripper is modelled on bytes.
* Decoding a request, choosing its target inverter and applying its log level: `Handler.RequestHandler.Handle` starts from a decoded header, and resolving, constructing and connecting may fail with any message.
* The numbers and wrapped texts inside error messages are not modelled.
* The handler's token and a cancelled context inside one batch: a cancelled call is a device failure with that message; the order of concurrent requests is that of the shutdown and log step systems.
* Serialization of requests of one plant across worker restarts: the token belongs to one handler, and an old request may outlive the grace period.
* `KeepaliveLoop` and its cadence.
* Runtime state (`LoadRuntime`, `SaveRuntime`): the same save procedure under one lock.
* Temporary files that a crash leaves behind stay in the model, garbled, and are never cleaned up, as in the code; directory creation and file modes are not modelled.
* The encoding of a plant state as JSON: a file is whole or torn. A day is a number, so a stored date is unset, unreadable or a day.
* Reading and checking the log file are one step in a poll; a failing stat or read is an error that changes nothing.
* Transport log output and the length of the pauses between retries: no effect on bytes. A pause only matters as a moment at which a cancellation is noticed. Resolving an address counts as part of the dial.
* RtuTcp.Transport.SendRTU: states which frame of the stream is returned, not that it answers this request, because the protocol carries no correlation id.
* Serial.Transport.SendRTU: says the reply was read after the request was written, not that the device sent it in answer to the request.
* Scan.Progress: assumes that a probe returns; the probe's own deadlines are not modelled.
* Argument checks of the subnet scan, the status-page fallback of a probe, and the fields of a found logger other than its address: no effect on which hosts are returned.

/** Reading a logger's serial number off the bytes it sends unasked
    (internal/discovery/subnet.go). */
module Fingerprint {
  import opened Bytes
  import Solarman

  function FromLE32(s: seq<byte>): nat
    requires |s| == 4
  {
    (s[0] as int) + 0x100 * (s[1] as int) + 0x1_0000 * (s[2] as int) + 0x100_0000 * (s[3] as int)
  }

  lemma SerialDigits(serial: nat)
    requires serial < 0x1_0000_0000
    ensures FromLE32(LE32(serial)) == serial
  {
    var low, high := serial % 0x1_0000, serial / 0x1_0000;
    Digits(low);
    Digits(high);
    assert serial / 0x100 % 0x100 == low / 0x100;
  }

  lemma Digits(word: uint16)
    ensures Low(word) + 0x100 * Low(word / 0x100) == word
  {
  }

  /** A whole frame that carries a nonzero serial number starts at this offset. */
  predicate Announces(data: seq<byte>, offset: nat) {
    offset + 12 <= |data| && data[offset] == 0xA5
    && var length := FromLE16(data[offset + 1..offset + 3]) + 13;
    && offset + length <= |data|
    && data[offset + 3] == 0x10 && data[offset + 4] == 0x15 && data[offset + 11] == 0x02
    && data[offset + length - 1] == 0x15
    && FromLE32(data[offset + 7..offset + 11]) != 0
  }

  lemma SliceOfSlice(data: seq<byte>, a: nat, b: nat, i: nat, j: nat)
    requires a <= b <= |data| && i <= j <= b - a
    ensures data[a..b][i..j] == data[a + i..a + j]
  {
    var left, right := data[a..b][i..j], data[a + i..a + j];
    forall k | 0 <= k < j - i
      ensures left[k] == right[k]
    {
      assert left[k] == data[a..b][i + k];
    }
  }

  lemma Zoom(data: seq<byte>, offset: nat, length: nat)
    requires length >= 13 && offset + length <= |data|
    ensures var frame := data[offset..offset + length];
            && frame[3] == data[offset + 3] && frame[4] == data[offset + 4] && frame[11] == data[offset + 11]
            && frame[|frame| - 1] == data[offset + length - 1] && frame[7..11] == data[offset + 7..offset + 11]
  {
    SliceOfSlice(data, offset, offset + length, 7, 11);
  }

  /** The serial number of the first announcement, if there is one. */
  method ExtractSolarmanSerial(data: seq<byte>) returns (serial: int, ok: bool)
    ensures ok <==> exists offset: nat :: Announces(data, offset)
    ensures ok ==> exists offset: nat :: Announces(data, offset) && serial == FromLE32(data[offset + 7..offset + 11])
                     && forall earlier: nat | earlier < offset :: !Announces(data, earlier)
  {
    var offset := 0;
    while offset + 12 <= |data|
      invariant offset >= 0
      invariant forall earlier: nat | earlier < offset :: !Announces(data, earlier)
    {
      if data[offset] != 0xA5 {
        offset := offset + 1;
        continue;
      }
      var frameLength := FromLE16(data[offset + 1..offset + 3]) + 13;
      if frameLength < 13 || offset + frameLength > |data| {
        offset := offset + 1;
        continue;
      }
      var frame := data[offset..offset + frameLength];
      Zoom(data, offset, frameLength);
      if frame[3] != 0x10 || frame[4] != 0x15 || frame[11] != 0x02 || frame[|frame| - 1] != 0x15 {
        offset := offset + 1;
        continue;
      }
      var found := FromLE32(frame[7..11]);
      if found != 0 {
        assert Announces(data, offset);
        return found, true;
      }
      offset := offset + 1;
    }
    return 0, false;
  }

  lemma FrameInStream(noise: seq<byte>, frame: seq<byte>, rest: seq<byte>, i: nat)
    requires i < |frame|
    ensures (noise + frame + rest)[|noise| + i] == frame[i]
  {
  }

  lemma SliceInStream(noise: seq<byte>, frame: seq<byte>, rest: seq<byte>, i: nat, j: nat)
    requires i <= j <= |frame|
    ensures (noise + frame + rest)[|noise| + i..|noise| + j] == frame[i..j]
  {
  }

  lemma WrapAnnounces(data: seq<byte>, noise: seq<byte>, frame: seq<byte>, rest: seq<byte>, size: nat, serial: nat)
    requires data == noise + frame + rest && 14 <= size < 0x1_0000 && |frame| == size + 13
    requires frame[0] == 0xA5 && frame[1..3] == LE16(size) && frame[3] == 0x10 && frame[4] == 0x15
    requires frame[7..11] == LE32(serial) && frame[11] == 0x02 && frame[|frame| - 1] == 0x15
    requires 0 < serial < 0x1_0000_0000
    ensures Announces(data, |noise|) && FromLE32(data[|noise| + 7..|noise| + 11]) == serial
  {
    SliceInStream(noise, frame, rest, 1, 3);
    SliceInStream(noise, frame, rest, 7, 11);
    SerialDigits(serial);
    FrameInStream(noise, frame, rest, 0);
    FrameInStream(noise, frame, rest, 3);
    FrameInStream(noise, frame, rest, 4);
    FrameInStream(noise, frame, rest, 11);
    FrameInStream(noise, frame, rest, |frame| - 1);
    assert FromLE16(data[|noise| + 1..|noise| + 3]) == size;
  }

  /** Any answer of a logger that follows bytes without a start byte gives away exactly its
      serial number, whatever comes after it. */
  lemma LoggerIsFound(noise: seq<byte>, rest: seq<byte>, sequence: byte, serial: nat, rtu: seq<byte>, mark: byte,
                      filler: seq<byte>, check: byte)
    requires |filler| == 13 && |rtu| + 14 < 0x1_0000 && 0 < serial < 0x1_0000_0000
    requires 0xA5 !in noise
    ensures var data := noise + Solarman.Wrap(sequence, serial, rtu, mark, filler, check) + rest;
            && Announces(data, |noise|) && FromLE32(data[|noise| + 7..|noise| + 11]) == serial
            && forall earlier: nat | earlier < |noise| :: !Announces(data, earlier)
  {
    var frame := Solarman.Wrap(sequence, serial, rtu, mark, filler, check);
    var data := noise + frame + rest;
    Solarman.WrapFields(sequence, serial, rtu, mark, filler, check);
    WrapAnnounces(data, noise, frame, rest, |rtu| + 14, serial);
    forall earlier: nat | earlier < |noise|
      ensures !Announces(data, earlier)
    {
      assert data[earlier] == noise[earlier] != 0xA5;
    }
  }
}

/** Bytes, fixed-width words and the few sequence helpers the wire formats share. */
module Bytes {
  type byte = x: int | 0 <= x < 0x100
  type uint16 = x: int | 0 <= x < 0x1_0000

  datatype Option<+T> = None | Some(value: T)

  datatype Result<+T, +E> = Ok(value: T) | Err(error: E)

  /** The truncating conversion to an unsigned byte. */
  function Low(n: int): byte {
    n % 0x100
  }

  function LE16(n: int): seq<byte> {
    [Low(n), Low(n / 0x100)]
  }

  function BE16(n: int): seq<byte> {
    [Low(n / 0x100), Low(n)]
  }

  function LE32(n: int): seq<byte> {
    LE16(n) + LE16(n / 0x1_0000)
  }

  function FromLE16(s: seq<byte>): uint16
    requires |s| == 2
  {
    (s[0] as int) + 0x100 * (s[1] as int)
  }

  function FromBE16(s: seq<byte>): uint16
    requires |s| == 2
  {
    0x100 * (s[0] as int) + (s[1] as int)
  }

  function Zeros(n: nat): (s: seq<byte>)
    ensures |s| == n
  {
    seq(n, _ => 0)
  }

  function Flatten<T>(parts: seq<seq<T>>): seq<T> {
    if parts == [] then [] else parts[0] + Flatten(parts[1..])
  }

  /** The copy statement: data replaces the bytes of frame from offset on. */
  method Copy(frame: array<byte>, offset: nat, data: seq<byte>)
    requires offset + |data| <= frame.Length
    modifies frame
    ensures frame[..] == old(frame[..offset]) + data + old(frame[offset + |data|..])
  {
    for i := 0 to |data|
      invariant forall k | 0 <= k < i :: frame[offset + k] == data[k]
      invariant forall k | 0 <= k < offset || offset + i <= k < frame.Length :: frame[k] == old(frame[k])
    {
      frame[offset + i] := data[i];
    }
  }

  lemma Assoc<T>(a: seq<T>, b: seq<T>, c: seq<T>)
    ensures (a + b) + c == a + (b + c)
  {
  }

  lemma {:induction false} FlattenSnoc<T>(parts: seq<seq<T>>, last: seq<T>)
    ensures Flatten(parts + [last]) == Flatten(parts) + last
  {
    if parts == [] {
      assert [last][1..] == [];
      assert Flatten([last]) == last + Flatten<T>([]);
    } else {
      assert (parts + [last])[1..] == parts[1..] + [last];
      FlattenSnoc(parts[1..], last);
    }
  }
}

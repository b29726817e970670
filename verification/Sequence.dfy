/** The wrapping request counters of the Modbus TCP (16-bit) and SolarmanV5 (8-bit)
    transports (internal/driver/modbustcp/sequence.go, solarmanv5/sequence.go). */
module Sequence {
  datatype Width = EightBits | SixteenBits {
    function Size(): nat {
      if EightBits? then 0x100 else 0x1_0000
    }

    /** Arithmetic of this width wraps around. */
    function Wrap(n: nat): (w: nat)
      ensures w < Size()
      ensures n < Size() ==> w == n
    {
      if EightBits? then n % 0x100 else n % 0x1_0000
    }
  }

  class Generator {
    const width: Width
    var initialized: bool
    var value: nat
    /** How many numbers were handed out, and the first of them. */
    ghost var calls: nat
    ghost var first: nat

    ghost predicate Valid()
      reads this
    {
      && value < width.Size()
      && (initialized <==> calls > 0)
      && (initialized ==> 1 <= first < width.Size() && value == width.Wrap(first + calls - 1))
    }

    constructor (width: Width)
      ensures Valid() && calls == 0 && this.width == width
    {
      this.width := width;
      initialized, value, calls, first := false, 0, 0, 0;
    }

    /** The n-th call returns the first number plus n, wrapping around. */
    method Next() returns (number: nat)
      requires Valid()
      modifies this
      ensures Valid() && calls == old(calls) + 1 && initialized && number == value
      ensures old(calls) > 0 ==> first == old(first)
      ensures number == (first + old(calls)) % if width.EightBits? then 0x100 else 0x1_0000
      ensures first >= 1
    {
      if !initialized {
        var initial :| 0 <= initial < width.Size();
        value := initial;
        if value == 0 {
          value := 1;
        }
        initialized := true;
        calls, first := 1, value;
        return value;
      }
      Successor(width, first + calls - 1);
      value := width.Wrap(value + 1);
      calls := calls + 1;
      return value;
    }
  }

  lemma Successor(width: Width, n: nat)
    ensures width.Wrap(width.Wrap(n) + 1) == width.Wrap(n + 1)
  {
    match width
    case EightBits => ByteSuccessor(n);
    case SixteenBits => WordSuccessor(n);
  }

  lemma ByteSuccessor(n: nat)
    ensures (n % 0x100 + 1) % 0x100 == (n + 1) % 0x100
  {
  }

  lemma WordSuccessor(n: nat)
    ensures (n % 0x1_0000 + 1) % 0x1_0000 == (n + 1) % 0x1_0000
  {
  }

  /** Fewer than a full turn apart, two numbers never coincide. */
  lemma NumbersDistinct(width: Width, first: nat, call: nat, gap: nat)
    requires 1 <= gap <= call && gap < if width.EightBits? then 0x100 else 0x1_0000
    ensures var turn := if width.EightBits? then 0x100 else 0x1_0000;
            (first + call) % turn != (first + (call - gap)) % turn
  {
  }
}

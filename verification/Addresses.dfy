/** The usable addresses of an IPv4 block (internal/discovery/subnet.go). */
module Addresses {
  import opened Bits

  const WORD := 0x1_0000_0000

  /** Conversion to a 32-bit word. */
  function Word(n: nat): (w: nat)
    ensures w < WORD
    ensures n < WORD ==> w == n
  {
    n % 0x1_0000_0000
  }

  /** The digits of a number without its last k. */
  function Leading(a: nat, k: nat): nat
    decreases k
  {
    if k == 0 then a else Leading(a / 2, k - 1)
  }

  /** The number with its last k digits cleared. */
  function Masked(a: nat, k: nat): nat
    decreases k
  {
    if k == 0 then a else 2 * Masked(a / 2, k - 1)
  }

  datatype Prefix = Prefix(address: nat, bits: nat) {
    predicate Valid() {
      address < WORD && bits <= 32
    }

    function Size(): nat
      requires Valid()
    {
      Pow2(32 - bits)
    }

    function Network(): nat
      requires Valid()
    {
      Masked(address, 32 - bits)
    }

    /** The address and that of the prefix have the same leading bits. */
    predicate Contains(a: nat)
      requires Valid()
    {
      a / Pow2(32 - bits) == address / Pow2(32 - bits)
    }
  }

  function FirstOffset(bits: nat): nat
    requires bits <= 32
  {
    if 32 - bits >= 2 then 1 else 0
  }

  function EndOffset(bits: nat): int
    requires bits <= 32
  {
    if 32 - bits >= 2 then Pow2(32 - bits) - 1 else Pow2(32 - bits)
  }

  lemma SizeSplit(bits: nat)
    requires bits <= 32
    ensures 32 - bits >= 2 <==> Pow2(32 - bits) >= 4
    ensures 32 - bits < 2 ==> Pow2(32 - bits) <= 2
    ensures EndOffset(bits) >= FirstOffset(bits)
  {
    if 32 - bits >= 2 {
      assert Pow2(32 - bits) == 2 * Pow2(31 - bits);
      assert Pow2(31 - bits) == 2 * Pow2(30 - bits);
    }
  }

  /** n consecutive numbers. */
  function Range(first: nat, n: nat): (r: seq<nat>)
    ensures |r| == n && forall i | 0 <= i < n :: r[i] == first + i
  {
    seq(n, i requires 0 <= i < n => first + i)
  }

  /** The addresses visited when nobody stops early. */
  function Usable(p: Prefix): seq<nat>
    requires p.Valid()
  {
    SizeSplit(p.bits);
    Range(p.Network() + FirstOffset(p.bits), EndOffset(p.bits) - FirstOffset(p.bits))
  }

  /** The callback: it remembers what it saw and may ask to stop at any call. */
  class Visitor {
    var visited: seq<nat>
    var stopped: bool

    constructor ()
      ensures visited == [] && !stopped
    {
      visited, stopped := [], false;
    }

    method Visit(a: nat) returns (more: bool)
      requires !stopped
      modifies this
      ensures visited == old(visited) + [a] && more == !stopped
    {
      visited := visited + [a];
      more := *;
      stopped := !more;
    }
  }

  lemma {:induction false} MaskedIsBlockStart(a: nat, address: nat, k: nat)
    ensures Leading(a, k) == Leading(address, k) <==> Masked(address, k) <= a < Masked(address, k) + Pow2(k)
    decreases k
  {
    if k != 0 {
      MaskedIsBlockStart(a / 2, address / 2, k - 1);
    }
  }

  lemma {:induction false} LeadingIsQuotient(a: nat, k: nat)
    ensures Leading(a, k) == a / Pow2(k)
    decreases k
  {
    if k != 0 {
      LeadingIsQuotient(a / 2, k - 1);
      Quotients(a, Pow2(k - 1));
    }
  }

  lemma {:induction false} MaskedFits(a: nat, k: nat, n: nat)
    requires k <= n && a < Pow2(n)
    ensures Masked(a, k) + Pow2(k) <= Pow2(n)
    decreases k
  {
    if k != 0 {
      MaskedFits(a / 2, k - 1, n - 1);
    }
  }

  lemma Pow2Of32()
    ensures Pow2(32) == WORD
  {
    Pow2Word();
    assert Pow2(20) == 16 * Pow2(16);
    assert Pow2(24) == 16 * Pow2(20);
    assert Pow2(28) == 16 * Pow2(24);
  }

  lemma ContainsIff(p: Prefix, a: nat)
    requires p.Valid()
    ensures p.Contains(a) <==> p.Network() <= a < p.Network() + p.Size()
  {
    MaskedIsBlockStart(a, p.address, 32 - p.bits);
    LeadingIsQuotient(a, 32 - p.bits);
    LeadingIsQuotient(p.address, 32 - p.bits);
  }

  /** The block is an interval that never runs over the end of the 32-bit space. */
  lemma NoWrap(p: Prefix)
    requires p.Valid()
    ensures p.Network() + p.Size() <= 0x1_0000_0000
    ensures forall a: nat :: p.Contains(a) <==> p.Network() <= a < p.Network() + p.Size()
  {
    Pow2Of32();
    MaskedFits(p.address, 32 - p.bits, 32);
    forall a: nat
      ensures p.Contains(a) <==> p.Network() <= a < p.Network() + p.Size()
    {
      ContainsIff(p, a);
    }
  }

  /** The 32-bit sum the loop forms for its k-th offset is the k-th usable address. */
  lemma NextUsable(p: Prefix, k: nat)
    requires p.Valid() && k < |Usable(p)|
    ensures var offset := FirstOffset(p.bits) + k;
            Usable(p)[..k + 1] == Usable(p)[..k] + [Word(p.Network() + Word(offset))]
  {
    NoWrap(p);
    SizeSplit(p.bits);
    assert Usable(p)[k] == p.Network() + FirstOffset(p.bits) + k;
  }

  /** The loop over 64-bit offsets with a 32-bit sum shows the usable addresses in order,
      and an early stop leaves a prefix of them. */
  method ForEachUsableIPv4(p: Prefix, visitor: Visitor)
    requires p.Valid() && !visitor.stopped && visitor.visited == []
    modifies visitor
    ensures visitor.visited <= Usable(p)
    ensures visitor.visited == Usable(p) || visitor.stopped
  {
    var network := Masked(p.address, 32 - p.bits);
    var hostBits := 32 - p.bits;
    var addressCount := Pow2(hostBits);
    var firstOffset, endOffset := 0, addressCount;
    if hostBits >= 2 {
      firstOffset := 1;
      endOffset := endOffset - 1;
    }
    SizeSplit(p.bits);
    ghost var usable := Usable(p);
    var offset := firstOffset;
    while offset < endOffset
      invariant firstOffset <= offset <= endOffset
      invariant !visitor.stopped && visitor.visited == usable[..offset - firstOffset]
    {
      var value := Word(network + Word(offset));
      NextUsable(p, offset - firstOffset);
      var more := visitor.Visit(value);
      if !more {
        return;
      }
      offset := offset + 1;
    }
  }

  /** Exactly the addresses of the block, except that a block of four or more loses its
      first (network) and last (broadcast) address. */
  lemma UsableExactly(p: Prefix, a: nat)
    requires p.Valid()
    ensures a in Usable(p) <==>
              p.Contains(a) && (p.Size() >= 4 ==> a != p.Network() && a != p.Network() + p.Size() - 1)
  {
    NoWrap(p);
    SizeSplit(p.bits);
    var usable := Usable(p);
    if p.Contains(a) && (p.Size() >= 4 ==> a != p.Network() && a != p.Network() + p.Size() - 1) {
      assert usable[a - p.Network() - FirstOffset(p.bits)] == a;
    }
  }

  /** Every address once, in ascending order, each within 32 bits. */
  lemma UsableAscending(p: Prefix)
    requires p.Valid()
    ensures forall i, j | 0 <= i < j < |Usable(p)| :: Usable(p)[i] < Usable(p)[j]
    ensures forall i | 0 <= i < |Usable(p)| :: Usable(p)[i] < 0x1_0000_0000
    ensures |Usable(p)| == if p.bits <= 30 then Pow2(32 - p.bits) - 2 else Pow2(32 - p.bits)
  {
    NoWrap(p);
    SizeSplit(p.bits);
    var usable := Usable(p);
    var first := p.Network() + FirstOffset(p.bits);
    assert forall i | 0 <= i < |usable| :: usable[i] == first + i;
  }
}

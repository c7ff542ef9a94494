/**
 Address blocks. An address is its bytes in network order, four of them for IPv4 and sixteen
 for IPv6; a prefix is an address and a count of leading bits (section 3.1 of RFC 4632).
 */
module Cidr {
  import opened Bits
  import opened Wrappers

  type Address = a: seq<Octet> | |a| == 4 || |a| == 16
    witness var zero: Octet := Repeat(false, 8); [zero, zero, zero, zero]

  datatype Prefix = Prefix(addr: Address, bits: nat) {
    predicate Valid() { bits <= Width() }

    function Width(): nat { 8 * |addr| }

    function HostBits(): nat
      requires Valid()
    {
      Width() - bits
    }

    /** The leading bits, the only ones that identify the block. */
    function Network(): (net: seq<bool>)
      requires Valid()
      ensures |net| == bits
    {
      BufferBits(addr)[HostBits()..]
    }
  }

  predicate SameFamily(p: Prefix, q: Prefix) { |p.addr| == |q.addr| }

  /** Reference meaning of membership: the leading bits agree. */
  predicate InBlock(p: Prefix, ip: Address)
    requires p.Valid()
  {
    |ip| == |p.addr| && BufferBits(ip)[p.HostBits()..] == p.Network()
  }

  /** Reference meaning of containment, which PostgreSQL's "contained by or equals" operator computes. */
  predicate Covers(p: Prefix, q: Prefix)
    requires p.Valid()
  {
    p.bits <= q.bits && InBlock(p, q.addr)
  }

  /** The block of one address, as the handler expands an address without a mask length. */
  function Host(ip: Address): (p: Prefix)
    ensures p.Valid()
  {
    Prefix(ip, 8 * |ip|)
  }

  function Lowest(p: Prefix): nat
    requires p.Valid()
  {
    FromBits(Repeat(false, p.HostBits()) + p.Network())
  }

  function Highest(p: Prefix): nat
    requires p.Valid()
  {
    FromBits(Repeat(true, p.HostBits()) + p.Network())
  }

  // ---------- byte masks ----------

  /** Byte i of the mask with the given number of leading ones. */
  function MaskByte(ones: nat, i: nat): Octet {
    if ones >= 8 * (i + 1) then AllOnesShiftedRight(0)
    else if ones <= 8 * i then Repeat(false, 8)
    else Not(AllOnesShiftedRight(ones - 8 * i))
  }

  function MaskedBytes(p: Prefix): (a: Address)
    requires p.Valid()
    ensures |a| == |p.addr|
  {
    seq(|p.addr|, i requires 0 <= i < |p.addr| => And(p.addr[i], MaskByte(p.bits, i)))
  }

  function Masked(p: Prefix): Prefix
    requires p.Valid()
  {
    Prefix(MaskedBytes(p), p.bits)
  }

  lemma MaskBit(n: nat, ones: nat, j: nat)
    requires j < 8 * n && ones <= 8 * n
    ensures MaskByte(ones, n - 1 - j / 8)[j % 8] <==> 8 * n - ones <= j
  {}

  /** Masking clears exactly the host bits. */
  lemma MaskedBits(p: Prefix)
    requires p.Valid()
    ensures BufferBits(MaskedBytes(p)) == Repeat(false, p.HostBits()) + p.Network()
  {
    forall j | 0 <= j < p.Width()
      ensures BufferBits(MaskedBytes(p))[j] == (Repeat(false, p.HostBits()) + p.Network())[j]
    {
      MaskedBit(p, j);
    }
  }

  lemma MaskedBit(p: Prefix, j: nat)
    requires p.Valid() && j < p.Width()
    ensures BufferBit(MaskedBytes(p), j) <==> p.HostBits() <= j && BufferBit(p.addr, j)
  {
    var i := |p.addr| - 1 - j / 8;
    MaskBit(|p.addr|, p.bits, j);
    assert MaskedBytes(p)[i] == And(p.addr[i], MaskByte(p.bits, i));
  }

  /** The last address of a block, as bytes. */
  function Filled(p: Prefix): (a: Address)
    requires p.Valid()
    ensures |a| == |p.addr|
  {
    seq(|p.addr|, i requires 0 <= i < |p.addr| => Or(p.addr[i], Not(MaskByte(p.bits, i))))
  }

  lemma FilledBit(p: Prefix, j: nat)
    requires p.Valid() && j < p.Width()
    ensures BufferBit(Filled(p), j) <==> p.HostBits() > j || BufferBit(p.addr, j)
  {
    var i := |p.addr| - 1 - j / 8;
    MaskBit(|p.addr|, p.bits, j);
    assert Filled(p)[i] == Or(p.addr[i], Not(MaskByte(p.bits, i)));
  }

  lemma FilledBits(p: Prefix)
    requires p.Valid()
    ensures BufferBits(Filled(p)) == Repeat(true, p.HostBits()) + p.Network()
  {
    forall j | 0 <= j < p.Width()
      ensures BufferBits(Filled(p))[j] == (Repeat(true, p.HostBits()) + p.Network())[j]
    {
      FilledBit(p, j);
    }
  }

  /** Bytewise comparison under the mask, as net.IPNet decides membership. */
  predicate MaskContains(p: Prefix, ip: Address)
    requires p.Valid()
  {
    |ip| == |p.addr| &&
    forall i | 0 <= i < |ip| :: And(p.addr[i], MaskByte(p.bits, i)) == And(ip[i], MaskByte(p.bits, i))
  }

  lemma MaskContainsIsInBlock(p: Prefix, ip: Address)
    requires p.Valid()
    ensures MaskContains(p, ip) <==> InBlock(p, ip)
  {
    if |ip| == |p.addr| {
      var q := Prefix(ip, p.bits);
      var a, b := MaskedBytes(p), MaskedBytes(q);
      MaskedBits(p);
      MaskedBits(q);
      var zeros := Repeat(false, p.HostBits());
      assert (zeros + p.Network())[p.HostBits()..] == p.Network();
      assert (zeros + q.Network())[p.HostBits()..] == q.Network();
      if InBlock(p, ip) {
        SameBitsSameBuffer(a, b);
        assert forall i | 0 <= i < |ip| :: And(p.addr[i], MaskByte(p.bits, i)) == a[i];
      }
      if MaskContains(p, ip) {
        assert a == b;
      }
    }
  }

  lemma SameBitsSameBuffer(a: seq<Octet>, b: seq<Octet>)
    requires |a| == |b| && BufferBits(a) == BufferBits(b)
    ensures a == b
  {
    forall i | 0 <= i < |a|
      ensures a[i] == b[i]
    {
      forall k | 0 <= k < 8
        ensures a[i][k] == b[i][k]
      {
        var j := 8 * (|a| - 1 - i) + k;
        assert BufferBits(a)[j] == BufferBits(b)[j];
        assert j / 8 == |a| - 1 - i && j % 8 == k;
      }
    }
  }

  /** The trusted-proxy check: true exactly when the parsed peer lies in some trusted block. */
  method IpAllowed(ip: Option<Address>, trusted: seq<Prefix>) returns (allowed: bool)
    requires forall p | p in trusted :: p.Valid()
    ensures allowed <==> ip.Some? && exists i | 0 <= i < |trusted| :: InBlock(trusted[i], ip.value)
  {
    if |trusted| == 0 {
      return false;
    }
    if ip.None? {
      return false;
    }
    for n := 0 to |trusted|
      invariant forall i | 0 <= i < n :: !InBlock(trusted[i], ip.value)
    {
      MaskContainsIsInBlock(trusted[n], ip.value);
      if MaskContains(trusted[n], ip.value) {
        return true;
      }
    }
    return false;
  }

  // ---------- numeric ranges ----------

  lemma RangeShape(p: Prefix)
    requires p.Valid()
    ensures Lowest(p) == Pow2(p.HostBits()) * FromBits(p.Network())
    ensures Highest(p) == Lowest(p) + Pow2(p.HostBits()) - 1
  {
    RepeatValue(p.HostBits());
    FromBitsAppend(Repeat(false, p.HostBits()), p.Network());
    FromBitsAppend(Repeat(true, p.HostBits()), p.Network());
  }

  lemma RangeSize(p: Prefix)
    requires p.Valid()
    ensures Highest(p) == Lowest(p) + Pow2(p.HostBits()) - 1
  {
    RangeShape(p);
  }

  /** A block is the interval from its lowest to its highest address. */
  lemma InBlockIsInterval(p: Prefix, ip: Address)
    requires p.Valid() && |ip| == |p.addr|
    ensures InBlock(p, ip) <==> Lowest(p) <= BigEndian(ip) <= Highest(p)
  {
    var h := p.HostBits();
    var bits := BufferBits(ip);
    var m, hi, net := Pow2(h), FromBits(bits[h..]), FromBits(p.Network());
    BigEndianIsBits(ip);
    HighBits(bits, h);
    FromBitsBound(bits[..h]);
    RangeShape(p);
    Commutes(m, hi);
    Commutes(m, net);
    LeadingDigit(hi, FromBits(bits[..h]), net, 0, m);
    LeadingDigit(hi, FromBits(bits[..h]), net, m - 1, m);
    if hi == net {
      FromBitsInjective(bits[h..], p.Network());
    }
  }

  datatype Range = V4(start4: nat, end4: nat) | V6(start6: seq<Octet>, end6: seq<Octet>) {
    function Low(): nat { if V4? then start4 else BigEndian(start6) }
    function High(): nat { if V4? then end4 else BigEndian(end6) }
  }

  /** r holds the bounds of p in the columns of p's family. */
  predicate RangeOf(p: Prefix, r: Range)
    requires p.Valid()
  {
    Columns(|p.addr|, r) && r.Low() == Lowest(p) && r.High() == Highest(p)
  }

  predicate Columns(bytes: nat, r: Range) {
    if bytes == 4 then r.V4? else r.V6? && |r.start6| == |r.end6| == 16
  }

  /** Wrap-around of 64-bit unsigned arithmetic. */
  function Uint64(v: int): nat { v % 0x1_0000_0000_0000_0000 }

  lemma Range4(p: Prefix)
    requires p.Valid() && |p.addr| == 4
    ensures var start := BigEndian(MaskedBytes(p));
            RangeOf(p, V4(start, Uint64(Uint64(start + Pow2(p.HostBits())) - 1)))
  {
    MaskedBits(p);
    BigEndianIsBits(MaskedBytes(p));
    BigEndianBound(MaskedBytes(p));
    Pow2Monotone(p.HostBits(), 32);
    Pow2Of32();
    RangeSize(p);
    NoWrap(Lowest(p), Pow2(p.HostBits()));
  }

  // Sums of two 32-bit values do not wrap in 64 bits.
  lemma NoWrap(start: nat, size: nat)
    requires start < 0x1_0000_0000 && 0 < size <= 0x1_0000_0000
    ensures Uint64(Uint64(start + size) - 1) == start + size - 1
  {}

  lemma Pow2Of32()
    ensures Pow2(32) == 0x1_0000_0000
  {
    Pow2Add(16, 16);
    Pow2Add(8, 8);
    Pow2Add(4, 4);
  }

  lemma {:induction false} Pow2Monotone(a: nat, b: nat)
    requires a <= b
    ensures Pow2(a) <= Pow2(b)
  {
    if a < b {
      Pow2Monotone(a, b - 1);
    }
  }

  /** The numeric range of a prefix: arithmetic for IPv4, and for IPv6 one bit at a time in a byte buffer. */
  method IpRange(cidr: Prefix) returns (r: Range)
    requires cidr.Valid()
    ensures RangeOf(cidr, r)
  {
    var prefix := Masked(cidr);
    var addr := prefix.addr;
    if |addr| == 4 {
      var start := BigEndian(addr);
      var hostBits := 32 - prefix.bits;
      var end := Uint64(Uint64(start + Pow2(hostBits)) - 1);
      r := V4(start, end);
      assert RangeOf(cidr, r) by {
        assert hostBits == cidr.HostBits();
        Range4(cidr);
      }
      return;
    }
    var end := FillHostBits(addr, 128 - prefix.bits);
    r := V6(addr, end);
    assert RangeOf(cidr, r) by {
      Range6(cidr, end);
    }
  }

  lemma Range6(p: Prefix, end: seq<Octet>)
    requires p.Valid() && |p.addr| == 16
    requires LowBitsSet(MaskedBytes(p), end, p.HostBits())
    ensures RangeOf(p, V6(MaskedBytes(p), end))
  {
    var start := MaskedBytes(p);
    MaskedBits(p);
    BigEndianIsBits(start);
    BigEndianIsBits(end);
    assert BufferBits(start)[p.HostBits()..] == p.Network();
  }

  /** The loop that sets the low bits of a copy of start, from bit 0 upwards. */
  method FillHostBits(start: seq<Octet>, hostBits: nat) returns (filled: seq<Octet>)
    requires |start| == 16 && hostBits <= 128
    ensures |filled| == 16
    ensures LowBitsSet(start, filled, hostBits)
  {
    var end := new Octet[16](i requires 0 <= i < 16 => start[i]);
    assert end[..] == start;
    for i := 0 to hostBits
      invariant LowBitsSet(start, end[..], i)
    {
      var byteIdx := 15 - i / 8;
      var bitIdx := i % 8;
      ghost var before := end[..];
      end[byteIdx] := Or(end[byteIdx], OneShiftedLeft(bitIdx));
      assert end[..] == before[byteIdx := Or(before[byteIdx], OneShiftedLeft(bitIdx))];
      LowBitsStep(start, before, i);
    }
    return end[..];
  }

  /** The low i bits of end are set and no bit above them differs from start. */
  ghost predicate LowBitsSet(start: seq<Octet>, end: seq<Octet>, i: nat)
    requires i <= 8 * |start|
  {
    |end| == |start| && BufferBits(end) == Repeat(true, i) + BufferBits(start)[i..]
  }

  lemma LowBitsStep(start: seq<Octet>, end: seq<Octet>, i: nat)
    requires i < 8 * |start| && LowBitsSet(start, end, i)
    ensures var idx := |start| - 1 - i / 8;
            LowBitsSet(start, end[idx := Or(end[idx], OneShiftedLeft(i % 8))], i + 1)
  {
    var idx := |start| - 1 - i / 8;
    var next := end[idx := Or(end[idx], OneShiftedLeft(i % 8))];
    forall j | 0 <= j < 8 * |start|
      ensures BufferBits(next)[j] == (Repeat(true, i + 1) + BufferBits(start)[i + 1..])[j]
    {
      assert BufferBits(end)[j] == (Repeat(true, i) + BufferBits(start)[i..])[j];
      SameBitIndex(i, j);
    }
  }

  lemma SameBitIndex(i: nat, j: nat)
    ensures i / 8 == j / 8 && i % 8 == j % 8 <==> i == j
  {}

  /** The comparison MySQL evaluates; IPv6 bounds are binary columns. */
  predicate MySqlMatches(row: Range, q: Range) {
    match (row, q)
    case (V4(rs, re), V4(qs, qe)) => rs <= qs && re >= qe
    case (V6(rs, re), V6(qs, qe)) => LexLessEqual(rs, qs) && LexLessEqual(qe, re)
    case _ => false
  }

  lemma MySqlMatchesIsNumeric(bytes: nat, row: Range, q: Range)
    requires Columns(bytes, row) && Columns(bytes, q)
    ensures MySqlMatches(row, q) <==> row.Low() <= q.Low() && q.High() <= row.High()
  {
    if bytes != 4 {
      LexIsNumeric(row.start6, q.start6);
      LexIsNumeric(q.end6, row.end6);
    }
  }

  lemma IntervalIsCovers(p: Prefix, q: Prefix)
    requires p.Valid() && q.Valid() && SameFamily(p, q)
    ensures Lowest(p) <= Lowest(q) && Highest(q) <= Highest(p) <==> Covers(p, q)
  {
    RangeShape(p);
    RangeShape(q);
    InBlockIsInterval(p, q.addr);
    InBlockIsInterval(q, q.addr);
    if p.bits > q.bits {
      Pow2Strict(p.HostBits(), q.HostBits());
    } else if InBlock(p, q.addr) {
      var low, high := MaskedBytes(q), Filled(q);
      MaskedBits(q);
      FilledBits(q);
      assert (Repeat(false, q.HostBits()) + q.Network())[p.HostBits()..] == q.Network()[p.HostBits() - q.HostBits()..];
      assert (Repeat(true, q.HostBits()) + q.Network())[p.HostBits()..] == q.Network()[p.HostBits() - q.HostBits()..];
      assert BufferBits(q.addr)[p.HostBits()..] == q.Network()[p.HostBits() - q.HostBits()..];
      InBlockIsInterval(p, low);
      InBlockIsInterval(p, high);
      BigEndianIsBits(low);
      BigEndianIsBits(high);
    }
  }

  lemma {:induction false} Pow2Strict(a: nat, b: nat)
    requires a < b
    ensures Pow2(a) < Pow2(b)
  {
    Pow2Monotone(a, b - 1);
  }

  /** Over a row storing one block, the MySQL range test is the PostgreSQL containment test. */
  lemma RangeTestIsContainment(p: Prefix, row: Range, q: Prefix, query: Range)
    requires p.Valid() && q.Valid() && RangeOf(p, row) && RangeOf(q, query)
    ensures MySqlMatches(row, query) <==> Covers(p, q)
  {
    if SameFamily(p, q) {
      MySqlMatchesIsNumeric(|p.addr|, row, query);
      IntervalIsCovers(p, q);
    }
  }

  /** Two blocks are nested or share no address. */
  lemma NestedOrDisjoint(p: Prefix, q: Prefix)
    requires p.Valid() && q.Valid() && SameFamily(p, q)
    ensures Covers(p, q) || Covers(q, p) <==> Lowest(p) <= Highest(q) && Lowest(q) <= Highest(p)
  {
    RangeSize(p);
    RangeSize(q);
    IntervalIsCovers(p, q);
    IntervalIsCovers(q, p);
    if p.bits <= q.bits {
      OutsideShorter(p, q);
    } else {
      OutsideShorter(q, p);
    }
  }

  // A block that a shorter prefix does not cover lies in another block of that prefix length.
  lemma OutsideShorter(p: Prefix, q: Prefix)
    requires p.Valid() && q.Valid() && SameFamily(p, q) && p.bits <= q.bits
    ensures Covers(p, q) || Highest(p) < Lowest(q) || Highest(q) < Lowest(p)
  {
    var around := Prefix(q.addr, p.bits);
    IntervalIsCovers(around, q);
    SameSizeDisjoint(p, around);
  }

  lemma SameSizeDisjoint(p: Prefix, q: Prefix)
    requires p.Valid() && q.Valid() && SameFamily(p, q) && p.bits == q.bits
    ensures Covers(p, q) || Highest(p) < Lowest(q) || Highest(q) < Lowest(p)
  {
    var m, a, b := Pow2(p.HostBits()), FromBits(p.Network()), FromBits(q.Network());
    RangeShape(p);
    RangeShape(q);
    Commutes(m, a);
    Commutes(m, b);
    if a == b {
      FromBitsInjective(p.Network(), q.Network());
    } else if a < b {
      LeadingDigit(a, m - 1, b, 0, m);
    } else {
      LeadingDigit(b, m - 1, a, 0, m);
    }
  }
}

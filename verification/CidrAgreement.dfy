/**
 The server's and the web page's membership and containment tests, shown to be one relation where
 they are, and shown exactly where they part where they are not.
 */
module CidrAgreement {
  import opened Bits
  import opened Cidr

  // ---------- the web page's test on big integers ----------

  /** Bitwise and on integers of unlimited width, negative numbers in two's complement. */
  function BigIntAnd(x: int, y: int): int
    decreases if x < 0 then -x else x
  {
    if x == 0 || y == 0 then 0
    else if x == -1 then y
    else if y == -1 then x
    else (if x % 2 == 1 && y % 2 == 1 then 1 else 0) + 2 * BigIntAnd(x / 2, y / 2)
  }

  function BigIntNot(x: int): int { -x - 1 }

  /** The page's membership test; total is the width of the range's family. */
  predicate AddrInRange(addr: nat, net: nat, total: nat, bits: nat)
    requires bits <= total
  {
    var hostMask := Pow2(total - bits) - 1;
    BigIntAnd(addr, BigIntNot(hostMask)) == BigIntAnd(net, BigIntNot(hostMask))
  }

  lemma {:induction false} AndClearsLowBits(x: nat, h: nat)
    ensures BigIntAnd(x, BigIntNot(Pow2(h) - 1)) == Pow2(h) * (x / Pow2(h))
  {
    if h == 0 {
    } else if x == 0 {
      assert 0 / Pow2(h) == 0;
    } else {
      AndClearsLowBits(x / 2, h - 1);
      AndClearsOneMore(x, Pow2(h - 1));
    }
  }

  lemma AndClearsOneMore(x: nat, p: nat)
    requires x > 0 && p > 0
    requires BigIntAnd(x / 2, BigIntNot(p - 1)) == p * (x / 2 / p)
    ensures BigIntAnd(x, BigIntNot(2 * p - 1)) == 2 * p * (x / (2 * p))
  {
    var y := BigIntNot(2 * p - 1);
    assert y % 2 == 0 && y / 2 == BigIntNot(p - 1);
    HalveThenDivide(x, p);
    Associates(p, Quotient(x / 2, p));
  }

  lemma HalveThenDivide(x: nat, p: nat)
    requires p > 0
    ensures x / 2 / p == x / (2 * p)
  {
    var q, r := x / 2 / p, x / 2 % p;
    assert x / 2 == p * q + r;
    Associates(p, q);
    SplitAt(q, 2 * r + x % 2, 2 * p);
  }

  function Quotient(x: nat, m: nat): (q: nat)
    requires m > 0
    ensures q == x / m
  {
    x / m
  }

  lemma SameMultiple(m: nat, x: nat, y: nat)
    requires m > 0
    ensures m * x == m * y <==> x == y
  {
    LeadingDigit(x, 0, y, 0, m);
    Commutes(x, m);
    Commutes(y, m);
  }

  /** The page compares what is left of both integers after dropping the host bits. */
  lemma AddrInRangeIsQuotients(addr: nat, net: nat, total: nat, bits: nat)
    requires bits <= total
    ensures AddrInRange(addr, net, total, bits) <==> addr / Pow2(total - bits) == net / Pow2(total - bits)
  {
    var m := Pow2(total - bits);
    var mask := BigIntNot(m - 1);
    var a, n := Quotient(addr, m), Quotient(net, m);
    assert BigIntAnd(addr, mask) == m * a by { AndClearsLowBits(addr, total - bits); }
    assert BigIntAnd(net, mask) == m * n by { AndClearsLowBits(net, total - bits); }
    SameMultiple(m, a, n);
  }

  lemma AddrInRangeIsInBlock(p: Prefix, ip: Address)
    requires p.Valid() && |ip| == |p.addr|
    ensures AddrInRange(BigEndian(ip), BigEndian(p.addr), p.Width(), p.bits) <==> InBlock(p, ip)
  {
    var h := p.HostBits();
    var a, n := BufferBits(ip), BufferBits(p.addr);
    BigEndianIsBits(ip);
    BigEndianIsBits(p.addr);
    AddrInRangeIsQuotients(FromBits(a), FromBits(n), p.Width(), p.bits);
    HighBits(a, h);
    HighBits(n, h);
    if FromBits(a[h..]) == FromBits(n[h..]) {
      FromBitsInjective(a[h..], n[h..]);
    }
  }

  /** Masked bytes, masked big integers and the numeric range decide the same membership. */
  lemma MembershipTestsAgree(p: Prefix, ip: Address, r: Range)
    requires p.Valid() && |ip| == |p.addr| && RangeOf(p, r)
    ensures MaskContains(p, ip) <==> r.Low() <= BigEndian(ip) <= r.High()
    ensures AddrInRange(BigEndian(ip), BigEndian(p.addr), p.Width(), p.bits) <==> r.Low() <= BigEndian(ip) <= r.High()
    ensures Covers(p, Host(ip)) <==> r.Low() <= BigEndian(ip) <= r.High()
  {
    MaskContainsIsInBlock(p, ip);
    AddrInRangeIsInBlock(p, ip);
    InBlockIsInterval(p, ip);
  }

  /** Across families the server never matches, and the page matches by the integers alone. */
  lemma MixedFamilies(p: Prefix, ip: Address)
    requires p.Valid() && |ip| != |p.addr|
    ensures !MaskContains(p, ip)
    ensures AddrInRange(BigEndian(ip), BigEndian(p.addr), p.Width(), p.bits)
            <==> BigEndian(ip) / Pow2(p.HostBits()) == BigEndian(p.addr) / Pow2(p.HostBits())
  {
    AddrInRangeIsQuotients(BigEndian(ip), BigEndian(p.addr), p.Width(), p.bits);
  }

  // ---------- rows with several blocks ----------

  /** The blocks of one stored row: at least one, all of one family. */
  predicate Row(ps: seq<Prefix>, bytes: nat) {
    |ps| > 0 && forall i | 0 <= i < |ps| :: ps[i].Valid() && |ps[i].addr| == bytes
  }

  /** PostgreSQL: some stored block contains the query. */
  predicate PostgresMatches(ps: seq<Prefix>, q: Prefix)
    requires forall i | 0 <= i < |ps| :: ps[i].Valid()
  {
    exists i | 0 <= i < |ps| :: Covers(ps[i], q)
  }

  /** The stored range runs from the lowest to the highest address of any block of the row. */
  predicate HullOf(ps: seq<Prefix>, bytes: nat, hull: Range)
    requires Row(ps, bytes)
  {
    Columns(bytes, hull)
    && (forall i | 0 <= i < |ps| :: hull.Low() <= Lowest(ps[i]) && Highest(ps[i]) <= hull.High())
    && (exists i | 0 <= i < |ps| :: hull.Low() == Lowest(ps[i]))
    && (exists i | 0 <= i < |ps| :: hull.High() == Highest(ps[i]))
  }

  /** The query lies beside the block or is wider than it. */
  predicate BesideOrWider(p: Prefix, q: Prefix)
    requires p.Valid() && q.Valid()
  {
    Highest(p) < Lowest(q) || Highest(q) < Lowest(p) || (p.bits > q.bits && Covers(q, p))
  }

  lemma NotCovered(p: Prefix, q: Prefix)
    requires p.Valid() && q.Valid() && SameFamily(p, q)
    ensures !Covers(p, q) <==> BesideOrWider(p, q)
  {
    NestedOrDisjoint(p, q);
    IntervalIsCovers(p, q);
  }

  /** Whatever PostgreSQL matches, MySQL matches on the hull. */
  lemma PostgresMatchIsMySqlMatch(ps: seq<Prefix>, bytes: nat, hull: Range, q: Prefix, query: Range)
    requires Row(ps, bytes) && HullOf(ps, bytes, hull)
    requires q.Valid() && RangeOf(q, query)
    ensures PostgresMatches(ps, q) ==> MySqlMatches(hull, query)
  {
    if PostgresMatches(ps, q) {
      var i :| 0 <= i < |ps| && Covers(ps[i], q);
      IntervalIsCovers(ps[i], q);
      MySqlMatchesIsNumeric(bytes, hull, query);
    }
  }

  /** MySQL matches more exactly when the query fits the hull and every block is beside it or narrower. */
  lemma MySqlMatchesMoreExactly(ps: seq<Prefix>, bytes: nat, hull: Range, q: Prefix, query: Range)
    requires Row(ps, bytes) && HullOf(ps, bytes, hull)
    requires q.Valid() && |q.addr| == bytes && RangeOf(q, query)
    ensures MySqlMatches(hull, query) && !PostgresMatches(ps, q)
            <==> hull.Low() <= Lowest(q) && Highest(q) <= hull.High()
                 && forall i | 0 <= i < |ps| :: BesideOrWider(ps[i], q)
  {
    MySqlMatchesIsNumeric(bytes, hull, query);
    forall i | 0 <= i < |ps|
      ensures !Covers(ps[i], q) <==> BesideOrWider(ps[i], q)
    {
      NotCovered(ps[i], q);
    }
  }

  /** With one stored block the two databases match the same queries. */
  lemma OneBlockRowsAgree(p: Prefix, hull: Range, q: Prefix, query: Range)
    requires p.Valid() && HullOf([p], |p.addr|, hull)
    requires q.Valid() && RangeOf(q, query)
    ensures MySqlMatches(hull, query) <==> PostgresMatches([p], q)
  {
    assert [p][0] == p;
    assert PostgresMatches([p], q) <==> Covers(p, q);
    RangeTestIsContainment(p, hull, q, query);
  }

  /** A row storing both halves of the address space: MySQL finds the whole space, PostgreSQL does not. */
  lemma HullMatchesWithoutPostgres()
    ensures exists ps: seq<Prefix>, hull: Range, q: Prefix, query: Range ::
              Row(ps, 4) && HullOf(ps, 4, hull) && q.Valid() && RangeOf(q, query)
              && MySqlMatches(hull, query) && !PostgresMatches(ps, q)
  {
    var zero: Octet := Repeat(false, 8);
    var top: Octet := OneShiftedLeft(7);
    var p0, p1 := Prefix([zero, zero, zero, zero], 1), Prefix([top, zero, zero, zero], 1);
    var q := Prefix([zero, zero, zero, zero], 0);
    var query := V4(Lowest(q), Highest(q));
    HalvesMakeHull(p0, p1, q);
    assert Row([p0, p1], 4) && HullOf([p0, p1], 4, query) && RangeOf(q, query);
    assert MySqlMatches(query, query) && !PostgresMatches([p0, p1], q);
  }

  lemma HalvesMakeHull(p0: Prefix, p1: Prefix, q: Prefix)
    requires p0.bits == p1.bits == 1 && q.bits == 0 && |p0.addr| == |p1.addr| == |q.addr| == 4
    requires !p0.addr[0][7] && p1.addr[0][7]
    ensures HullOf([p0, p1], 4, V4(Lowest(q), Highest(q)))
  {
    assert p0.Network() == [false] && p1.Network() == [true] && q.Network() == [];
    assert Repeat(false, 31) + [false] == Repeat(false, 32) + [];
    assert Repeat(true, 31) + [true] == Repeat(true, 32) + [];
    IntervalIsCovers(q, p0);
    IntervalIsCovers(q, p1);
    var ps := [p0, p1];
    assert ps[0] == p0 && ps[1] == p1;
  }
}

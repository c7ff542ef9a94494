/** Binary numerals, bytes as their eight bits, and big-endian byte buffers. */
module Bits {

  function Pow2(n: nat): (p: nat)
    ensures p >= 1
  {
    if n == 0 then 1 else 2 * Pow2(n - 1)
  }

  lemma {:induction false} Pow2Add(a: nat, b: nat)
    ensures Pow2(a + b) == Pow2(a) * Pow2(b)
  {
    if a > 0 {
      Pow2Add(a - 1, b);
      assert Pow2(a + b) == 2 * (Pow2(a - 1) * Pow2(b));
    }
  }

  lemma LeadingDigit(h: nat, l: nat, h': nat, l': nat, m: nat)
    requires l < m && l' < m
    ensures h < h' ==> h * m + l < h' * m + l'
    ensures h > h' ==> h * m + l > h' * m + l'
  {
    if h < h' {
      assert (h + 1) * m <= h' * m;
    } else if h > h' {
      assert (h' + 1) * m <= h * m;
    }
  }

  // The quotient and remainder of a sum that is already split at m.
  lemma SplitAt(hi: nat, lo: nat, m: nat)
    requires lo < m
    ensures (lo + m * hi) / m == hi
    ensures (lo + m * hi) % m == lo
  {
    var v := lo + m * hi;
    LeadingDigit(v / m, v % m, hi, lo, m);
  }

  // ---------- bit strings, least significant bit first ----------

  function FromBits(bits: seq<bool>): (v: nat) {
    if |bits| == 0 then 0 else (if bits[0] then 1 else 0) + 2 * FromBits(bits[1..])
  }

  lemma Associates(x: nat, y: nat)
    ensures 2 * (x * y) == 2 * x * y
  {}

  lemma {:induction false} FromBitsAppend(a: seq<bool>, b: seq<bool>)
    ensures FromBits(a + b) == FromBits(a) + Pow2(|a|) * FromBits(b)
  {
    if |a| == 0 {
      assert a + b == b;
    } else {
      FromBitsAppend(a[1..], b);
      assert (a + b)[1..] == a[1..] + b;
      Associates(Pow2(|a| - 1), FromBits(b));
    }
  }

  lemma {:induction false} FromBitsBound(bits: seq<bool>)
    ensures FromBits(bits) < Pow2(|bits|)
  {
    if |bits| > 0 {
      FromBitsBound(bits[1..]);
    }
  }

  lemma {:induction false} FromBitsInjective(a: seq<bool>, b: seq<bool>)
    requires |a| == |b| && FromBits(a) == FromBits(b)
    ensures a == b
  {
    if |a| > 0 {
      FromBitsInjective(a[1..], b[1..]);
      assert a == [a[0]] + a[1..] && b == [b[0]] + b[1..];
    }
  }

  /** Dividing by a power of two drops that many low bits, and the remainder is the bits dropped. */
  lemma HighBits(bits: seq<bool>, k: nat)
    requires k <= |bits|
    ensures FromBits(bits) / Pow2(k) == FromBits(bits[k..])
    ensures FromBits(bits) % Pow2(k) == FromBits(bits[..k])
    ensures FromBits(bits) == FromBits(bits[..k]) + Pow2(k) * FromBits(bits[k..])
  {
    assert bits == bits[..k] + bits[k..];
    assert FromBits(bits) == FromBits(bits[..k]) + Pow2(k) * FromBits(bits[k..]) by {
      FromBitsAppend(bits[..k], bits[k..]);
    }
    FromBitsBound(bits[..k]);
    SplitAt(FromBits(bits[k..]), FromBits(bits[..k]), Pow2(k));
  }

  function Repeat(bit: bool, n: nat): (r: seq<bool>)
    ensures |r| == n && forall i | 0 <= i < n :: r[i] == bit
  {
    seq(n, i => bit)
  }

  lemma {:induction false} RepeatValue(n: nat)
    ensures FromBits(Repeat(false, n)) == 0
    ensures FromBits(Repeat(true, n)) == Pow2(n) - 1
  {
    if n > 0 {
      RepeatValue(n - 1);
      assert Repeat(false, n)[1..] == Repeat(false, n - 1);
      assert Repeat(true, n)[1..] == Repeat(true, n - 1);
    }
  }

  // ---------- bytes ----------

  /** A byte is its eight bits, least significant first; these are the bitwise operators on it. */
  type Octet = b: seq<bool> | |b| == 8 witness [false, false, false, false, false, false, false, false]

  function And(a: Octet, b: Octet): Octet { seq(8, k requires 0 <= k < 8 => a[k] && b[k]) }

  function Or(a: Octet, b: Octet): Octet { seq(8, k requires 0 <= k < 8 => a[k] || b[k]) }

  function Not(a: Octet): Octet { seq(8, k requires 0 <= k < 8 => !a[k]) }

  function OneShiftedLeft(n: nat): Octet { seq(8, k => k == n) }

  function AllOnesShiftedRight(n: nat): Octet { seq(8, k => k + n < 8) }

  function ByteValue(b: Octet): (v: nat)
    ensures v < 256
  {
    FromBitsBound(b);
    assert Pow2(8) == 256 by { Pow2Add(4, 4); }
    FromBits(b)
  }

  // ---------- byte buffers ----------

  /** Bit i of a big-endian buffer, counted from the last byte's lowest bit. */
  predicate BufferBit(s: seq<Octet>, i: nat)
    requires i < 8 * |s|
  {
    s[|s| - 1 - i / 8][i % 8]
  }

  function BufferBits(s: seq<Octet>): (bits: seq<bool>)
    ensures |bits| == 8 * |s|
    ensures forall i | 0 <= i < 8 * |s| :: bits[i] == BufferBit(s, i)
  {
    seq(8 * |s|, i requires 0 <= i < 8 * |s| => BufferBit(s, i))
  }

  /** The unsigned integer a buffer spells, most significant byte first. */
  function BigEndian(s: seq<Octet>): (v: nat) {
    if |s| == 0 then 0 else ByteValue(s[0]) * Pow2(8 * (|s| - 1)) + BigEndian(s[1..])
  }

  lemma BufferBitsSplit(s: seq<Octet>)
    requires |s| > 0
    ensures BufferBits(s) == BufferBits(s[1..]) + s[0]
  {
    var n := 8 * |s[1..]|;
    forall i | 0 <= i < 8 * |s|
      ensures BufferBits(s)[i] == (BufferBits(s[1..]) + s[0])[i]
    {
      if i < n {
        assert s[1..][|s[1..]| - 1 - i / 8] == s[|s| - 1 - i / 8];
      } else {
        assert i / 8 == |s| - 1 && i % 8 == i - n;
      }
    }
  }

  lemma Commutes(x: nat, y: nat)
    ensures x * y == y * x
  {}

  /** The big-endian value of a buffer is the value of its bits. */
  lemma {:induction false} BigEndianIsBits(s: seq<Octet>)
    ensures BigEndian(s) == FromBits(BufferBits(s))
  {
    if |s| > 0 {
      BigEndianIsBits(s[1..]);
      BufferBitsSplit(s);
      FromBitsAppend(BufferBits(s[1..]), s[0]);
      Commutes(ByteValue(s[0]), Pow2(8 * (|s| - 1)));
    }
  }

  /** Byte-string comparison, as a binary column compares. */
  predicate LexLessEqual(a: seq<Octet>, b: seq<Octet>) {
    |a| == 0 || (|b| > 0 && (ByteValue(a[0]) < ByteValue(b[0]) || (a[0] == b[0] && LexLessEqual(a[1..], b[1..]))))
  }

  lemma BigEndianBound(s: seq<Octet>)
    ensures BigEndian(s) < Pow2(8 * |s|)
  {
    BigEndianIsBits(s);
    FromBitsBound(BufferBits(s));
  }

  /** Between buffers of one length, byte-string order is numeric order. */
  lemma {:induction false} LexIsNumeric(a: seq<Octet>, b: seq<Octet>)
    requires |a| == |b|
    ensures LexLessEqual(a, b) <==> BigEndian(a) <= BigEndian(b)
  {
    if |a| > 0 {
      LexIsNumeric(a[1..], b[1..]);
      BigEndianBound(a[1..]);
      BigEndianBound(b[1..]);
      LeadingDigit(ByteValue(a[0]), BigEndian(a[1..]), ByteValue(b[0]), BigEndian(b[1..]), Pow2(8 * (|a| - 1)));
      if ByteValue(a[0]) == ByteValue(b[0]) {
        FromBitsInjective(a[0], b[0]);
      }
    }
  }
}

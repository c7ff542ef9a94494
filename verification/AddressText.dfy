/** The web page's reading of address text, including the "::" abbreviation (section 2.2 of RFC 4291). */
module AddressText {
  import opened Text
  import opened Bits
  import opened Cidr
  import opened CidrAgreement

  // ---------- numbers in text ----------

  function Digit(c: char): nat {
    if '0' <= c <= '9' then (c - '0') as nat
    else if 'a' <= c <= 'f' then (c - 'a') as nat + 10
    else if 'A' <= c <= 'F' then (c - 'A') as nat + 10
    else 0
  }

  predicate IsHex(c: char) { '0' <= c <= '9' || 'a' <= c <= 'f' || 'A' <= c <= 'F' }

  /** The value of a string of digits. */
  function ParseInt(s: string, base: nat): nat {
    if s == "" then 0 else base * ParseInt(s[..|s| - 1], base) + Digit(s[|s| - 1])
  }

  /** The leading hexadecimal digits, which are all that parseInt reads. */
  function HexPrefix(s: string): string {
    if s == "" || !IsHex(s[0]) then "" else [s[0]] + HexPrefix(s[1..])
  }

  lemma {:induction false} AllHex(s: string)
    requires forall i | 0 <= i < |s| :: IsHex(s[i])
    ensures HexPrefix(s) == s
  {
    if s != "" {
      AllHex(s[1..]);
    }
  }

  // ---------- the numerals themselves ----------

  const LOWER_DIGITS := "0123456789abcdef"
  const UPPER_DIGITS := "0123456789ABCDEF"

  /** The text writes n in the base, in digits of either case and with any number of leading zeros. */
  predicate Numeral(text: string, n: nat, base: nat)
    requires 2 <= base <= 16
  {
    if text == "" then n == 0
    else
      (text[|text| - 1] == LOWER_DIGITS[n % base] || text[|text| - 1] == UPPER_DIGITS[n % base])
      && Numeral(text[..|text| - 1], n / base, base)
  }

  lemma DigitIs(v: nat)
    requires v < 16
    ensures Digit(LOWER_DIGITS[v]) == v && IsHex(LOWER_DIGITS[v]) && Digit(UPPER_DIGITS[v]) == v && IsHex(UPPER_DIGITS[v])
    ensures v < 10 ==> '0' <= LOWER_DIGITS[v] <= '9' && LOWER_DIGITS[v] == UPPER_DIGITS[v]
  {
    if v < 4 {
      assert v == 0 || v == 1 || v == 2 || v == 3;
    } else if v < 8 {
      assert v == 4 || v == 5 || v == 6 || v == 7;
    } else if v < 12 {
      assert v == 8 || v == 9 || v == 10 || v == 11;
    } else {
      assert v == 12 || v == 13 || v == 14 || v == 15;
    }
  }

  lemma HexIsDigit(c: char)
    requires IsHex(c)
    ensures Digit(c) < 16 && (c == LOWER_DIGITS[Digit(c)] || c == UPPER_DIGITS[Digit(c)])
    ensures '0' <= c <= '9' ==> Digit(c) < 10
  {
    var v := Digit(c);
    if v < 4 {
      assert v == 0 || v == 1 || v == 2 || v == 3;
    } else if v < 8 {
      assert v == 4 || v == 5 || v == 6 || v == 7;
    } else if v < 12 {
      assert v == 8 || v == 9 || v == 10 || v == 11;
    } else {
      assert v == 12 || v == 13 || v == 14 || v == 15;
    }
  }

  lemma LastPlace(q: nat, d: nat, base: nat)
    requires d < base
    ensures (base * q + d) / base == q && (base * q + d) % base == d
  {
    SplitAt(q, d, base);
  }

  lemma DivMod(n: nat, base: nat)
    requires base > 0
    ensures n == base * (n / base) + n % base
  {}

  /** A numeral is read as the number it writes. */
  lemma {:induction false} NumeralIsRead(text: string, n: nat, base: nat)
    requires 2 <= base <= 16 && Numeral(text, n, base)
    ensures ParseInt(text, base) == n && forall i | 0 <= i < |text| :: IsHex(text[i])
    ensures base <= 10 ==> forall i | 0 <= i < |text| :: '0' <= text[i] <= '9'
  {
    if text != "" {
      NumeralIsRead(text[..|text| - 1], n / base, base);
      DigitIs(n % base);
      DivMod(n, base);
      assert text == text[..|text| - 1] + [text[|text| - 1]];
    }
  }

  /** Any digits write the number they are read as. */
  lemma {:induction false} DigitsAreNumeral(text: string, base: nat)
    requires base == 10 || base == 16
    requires forall i | 0 <= i < |text| :: if base == 10 then '0' <= text[i] <= '9' else IsHex(text[i])
    ensures Numeral(text, ParseInt(text, base), base)
  {
    if text != "" {
      var front, c := text[..|text| - 1], text[|text| - 1];
      DigitsAreNumeral(front, base);
      HexIsDigit(c);
      LastPlace(ParseInt(front, base), Digit(c), base);
    }
  }

  /** One to four hexadecimal digits. */
  predicate Hextet(s: string) { 1 <= |s| <= 4 && forall i | 0 <= i < |s| :: IsHex(s[i]) }

  /** One to three decimal digits with a value below 256. */
  predicate Decimal(s: string) { 1 <= |s| <= 3 && (forall i | 0 <= i < |s| :: '0' <= s[i] <= '9') && ParseInt(s, 10) < 256 }

  lemma HextetBound(s: string)
    requires Hextet(s)
    ensures ParseInt(s, 16) < 0x1_0000
  {
    DigitsBound(s);
  }

  lemma {:induction false} DigitsBound(s: string)
    requires forall i | 0 <= i < |s| :: IsHex(s[i])
    ensures ParseInt(s, 16) < Pow2(4 * |s|)
    ensures |s| <= 4 ==> Pow2(4 * |s|) <= 0x1_0000
  {
    if s != "" {
      DigitsBound(s[..|s| - 1]);
      assert Pow2(4 * |s|) == 16 * Pow2(4 * (|s| - 1)) by { Pow2Add(4, 4 * (|s| - 1)); }
    }
    if |s| <= 4 {
      Pow2Monotone(4 * |s|, 16);
      assert Pow2(16) == 0x1_0000 by { Pow2Add(8, 8); Pow2Add(4, 4); }
    }
  }

  // ---------- shift and or ----------

  function BigIntOr(x: nat, y: nat): nat {
    if x == 0 then y else if y == 0 then x else (if x % 2 == 1 || y % 2 == 1 then 1 else 0) + 2 * BigIntOr(x / 2, y / 2)
  }

  lemma {:induction false} OrFillsLowBits(x: nat, v: nat, k: nat)
    requires v < Pow2(k)
    ensures BigIntOr(Pow2(k) * x, v) == Pow2(k) * x + v
  {
    if k > 0 && x > 0 && v > 0 {
      OrFillsLowBits(x, v / 2, k - 1);
      Associates(Pow2(k - 1), x);
    }
  }

  /** The page's loop: shift by the width of a piece and or the next piece in. */
  method Accumulate(values: seq<nat>, width: nat) returns (acc: nat)
    requires forall i | 0 <= i < |values| :: values[i] < Pow2(width)
    ensures acc == Positional(values, Pow2(width))
  {
    acc := 0;
    for i := 0 to |values|
      invariant acc == Positional(values[..i], Pow2(width))
    {
      assert values[..i + 1][..i] == values[..i];
      OrFillsLowBits(acc, values[i], width);
      acc := BigIntOr(Pow2(width) * acc, values[i]);
    }
    assert values[..|values|] == values;
  }

  /** The number with the given digits, most significant first. */
  function Positional(values: seq<nat>, base: nat): nat {
    if values == [] then 0 else base * Positional(values[..|values| - 1], base) + values[|values| - 1]
  }

  // ---------- IPv6 ----------

  /** Splitting at "::", from the left. */
  function SplitPairs(s: string): (parts: seq<string>)
    ensures |parts| > 0
  {
    if |s| < 2 then [s]
    else if s[0] == ':' && s[1] == ':' then [""] + SplitPairs(s[2..])
    else
      var rest := SplitPairs(s[1..]);
      [[s[0]] + rest[0]] + rest[1..]
  }

  predicate HasPair(s: string) { exists i | 0 <= i < |s| - 1 :: s[i] == ':' && s[i + 1] == ':' }

  /** The pieces the page reads: the abbreviation filled with zeros, or the text as it stands. */
  function Pieces(s: string): seq<string> {
    if HasPair(s) then
      var parts := SplitPairs(s);
      Filled(Side(parts[0]), if |parts| > 1 then Side(parts[1]) else [])
    else Split(s, ':')
  }

  function Side(text: string): seq<string> { if text != "" then Split(text, ':') else [] }

  function Filled(left: seq<string>, right: seq<string>): seq<string> {
    left + Zeros(8 - |left| - |right|) + right
  }

  function Zeros(n: int): seq<string> { if n <= 0 then [] else seq(n, i => "0") }

  predicate Hextets(groups: seq<string>) { forall i | 0 <= i < |groups| :: Hextet(groups[i]) }

  function Values(groups: seq<string>): seq<nat> {
    seq(|groups|, i requires 0 <= i < |groups| => ParseInt(HexPrefix(groups[i]), 16))
  }

  /** Text that spells eight groups: in full, or with one run of zero groups left out. */
  ghost predicate Spells(s: string, groups: seq<string>) {
    |groups| == 8 && Hextets(groups)
    && (s == Join(groups, ':')
        || exists i, j | 0 <= i < j <= 8 ::
             groups[i..j] == Zeros(j - i) && s == Group(groups[..i]) + "::" + Group(groups[j..]))
  }

  function Group(groups: seq<string>): string { if groups == [] then "" else Join(groups, ':') }

  predicate Solid(parts: seq<string>) { forall i | 0 <= i < |parts| :: parts[i] != "" && ':' !in parts[i] }

  // Joined pieces never bring two colons together, and begin and end with something else.
  lemma {:induction false} JoinedPieces(parts: seq<string>)
    requires |parts| > 0 && Solid(parts)
    ensures var s := Join(parts, ':');
            s != "" && s[0] != ':' && s[|s| - 1] != ':' && !HasPair(s)
  {
    if |parts| > 1 {
      JoinedPieces(parts[1..]);
    }
  }

  lemma TailHasNoPair(s: string)
    requires s != "" && !HasPair(s)
    ensures !HasPair(s[1..])
  {
    forall i | 0 <= i < |s[1..]| - 1
      ensures !(s[1..][i] == ':' && s[1..][i + 1] == ':')
    {
      assert !(s[i + 1] == ':' && s[i + 1 + 1] == ':');
    }
  }

  lemma {:induction false} SplitPairsAt(a: string, b: string)
    requires !HasPair(a) && (a == "" || a[|a| - 1] != ':')
    ensures SplitPairs(a + "::" + b) == [a] + SplitPairs(b)
  {
    var s := a + "::" + b;
    if a == "" {
      assert s[2..] == b;
    } else {
      TailHasNoPair(a);
      SplitPairsAt(a[1..], b);
      assert s[1..] == a[1..] + "::" + b;
      assert s[0] == ':' ==> s[1] != ':' by {
        if s[0] == ':' {
          assert |a| > 1 && a[0] == ':' && a[0 + 1] == s[1];
        }
      }
      assert a == [a[0]] + a[1..];
    }
  }

  lemma {:induction false} SplitPairsPlain(s: string)
    requires !HasPair(s)
    ensures SplitPairs(s) == [s]
  {
    if |s| >= 2 {
      TailHasNoPair(s);
      SplitPairsPlain(s[1..]);
      assert !(s[0] == ':' && s[0 + 1] == ':');
      assert s == [s[0]] + s[1..];
    }
  }

  lemma TwoParts(a: string, b: string)
    requires !HasPair(a) && !HasPair(b) && (a == "" || a[|a| - 1] != ':')
    ensures SplitPairs(a + "::" + b) == [a, b]
  {
    SplitPairsAt(a, b);
    SplitPairsPlain(b);
  }

  lemma HextetsAreSolid(groups: seq<string>)
    requires Hextets(groups)
    ensures Solid(groups)
  {}

  lemma PiecesOfElided(left: seq<string>, n: nat, right: seq<string>)
    requires Solid(left) && Solid(right) && |left| + n + |right| == 8
    ensures Pieces(Group(left) + "::" + Group(right)) == left + Zeros(n) + right
  {
    GroupText(left);
    GroupText(right);
    PiecesOfSides(Group(left), Group(right));
  }

  lemma PiecesOfSides(a: string, b: string)
    requires !HasPair(a) && !HasPair(b) && (a == "" || a[|a| - 1] != ':')
    ensures Pieces(a + "::" + b) == Filled(Side(a), Side(b))
  {
    HasPairBetween(a, b);
    TwoParts(a, b);
    FilledPieces(a + "::" + b, a, b);
  }

  lemma ThreeParts(groups: seq<string>, i: nat, j: nat)
    requires i <= j <= |groups|
    ensures groups[..i] + groups[i..j] + groups[j..] == groups
  {}

  lemma FilledPieces(s: string, a: string, b: string)
    requires HasPair(s) && SplitPairs(s) == [a, b]
    ensures Pieces(s) == Filled(Side(a), Side(b))
  {}

  lemma HasPairBetween(a: string, b: string)
    ensures HasPair(a + "::" + b)
  {
    var s := a + "::" + b;
    assert s[|a|] == ':' && s[|a| + 1] == ':';
  }

  lemma GroupText(groups: seq<string>)
    requires Solid(groups)
    ensures var a := Group(groups);
            Side(a) == groups && !HasPair(a) && (a == "" || a[|a| - 1] != ':')
  {
    if groups != [] {
      JoinedPieces(groups);
      SplitOfJoin(groups, ':');
    }
  }

  lemma PiecesOfFull(parts: seq<string>)
    requires |parts| > 0 && Solid(parts)
    ensures Pieces(Join(parts, ':')) == parts
  {
    JoinedPieces(parts);
    SplitOfJoin(parts, ':');
  }

  /** Every way of writing eight groups is read as those groups. */
  lemma PiecesOfSpelling(s: string, groups: seq<string>)
    requires Spells(s, groups)
    ensures Pieces(s) == groups
  {
    HextetsAreSolid(groups);
    if s == Join(groups, ':') {
      PiecesOfFull(groups);
    } else {
      var i, j :| 0 <= i < j <= 8 && groups[i..j] == Zeros(j - i) && s == Group(groups[..i]) + "::" + Group(groups[j..]);
      PiecesOfShort(groups, i, j);
    }
  }

  lemma PiecesOfShort(groups: seq<string>, i: nat, j: nat)
    requires |groups| == 8 && Solid(groups) && i < j <= 8 && groups[i..j] == Zeros(j - i)
    ensures Pieces(Group(groups[..i]) + "::" + Group(groups[j..])) == groups
  {
    PiecesOfElided(groups[..i], j - i, groups[j..]);
    ThreeParts(groups, i, j);
  }

  // ---------- IPv6 text that ends in an IPv4 address ----------

  /** Four decimal pieces. */
  predicate Quad(s: string) { |Split(s, '.')| == 4 && forall i | 0 <= i < 4 :: Decimal(Split(s, '.')[i]) }

  function QuadValue(s: string, i: nat): nat
    requires Quad(s) && i < 4
  {
    ParseInt(Split(s, '.')[i], 10)
  }

  /** Six groups and a dotted IPv4 address; elided says that some zero groups after left are left out. */
  ghost predicate SpellsMixed(s: string, left: seq<string>, elided: bool, right: seq<string>, quad: string) {
    Hextets(left) && Hextets(right) && Quad(quad)
    && if elided then |left| + |right| <= 5 && s == Group(left) + "::" + Group(right + [quad])
       else left == [] && |right| == 6 && s == Join(right + [quad], ':')
  }

  /** The eight groups that such text stands for. */
  function MixedGroups(left: seq<string>, right: seq<string>, quad: string): seq<nat>
    requires Quad(quad) && |left| + |right| <= 6
  {
    Values(left) + Zeroes(6 - |left| - |right|) + Values(right)
    + [256 * QuadValue(quad, 0) + QuadValue(quad, 1), 256 * QuadValue(quad, 2) + QuadValue(quad, 3)]
  }

  function Zeroes(n: nat): seq<nat> { seq(n, _ => 0) }

  predicate AllZero(values: seq<nat>) { forall i | 0 <= i < |values| :: values[i] == 0 }

  lemma {:induction false} FirstPiece(s: string)
    requires forall i | 0 <= i < |Split(s, '.')[0]| :: IsHex(Split(s, '.')[0][i])
    ensures HexPrefix(s) == Split(s, '.')[0]
  {
    if s != "" && s[0] != '.' {
      var rest := Split(s[1..], '.');
      assert Split(s, '.')[0] == [s[0]] + rest[0];
      assert forall i | 0 <= i < |rest[0]| :: rest[0][i] == Split(s, '.')[0][i + 1];
      assert IsHex(Split(s, '.')[0][0]);
      FirstPiece(s[1..]);
    }
  }

  lemma {:induction false} ZeroInAnyBase(s: string)
    requires forall i | 0 <= i < |s| :: '0' <= s[i] <= '9'
    ensures ParseInt(s, 16) == 0 <==> ParseInt(s, 10) == 0
  {
    if s != "" {
      ZeroInAnyBase(s[..|s| - 1]);
    }
  }

  lemma {:induction false} PositionalInjective(x: seq<nat>, y: seq<nat>, base: nat)
    requires |x| == |y| && base > 0
    requires (forall i | 0 <= i < |x| :: x[i] < base) && (forall i | 0 <= i < |y| :: y[i] < base)
    requires Positional(x, base) == Positional(y, base)
    ensures x == y
  {
    if x != [] {
      var n := |x| - 1;
      Commutes(Positional(x[..n], base), base);
      Commutes(Positional(y[..n], base), base);
      LeadingDigit(Positional(x[..n], base), x[n], Positional(y[..n], base), y[n], base);
      PositionalInjective(x[..n], y[..n], base);
      assert x == x[..n] + [x[n]] && y == y[..n] + [y[n]];
    }
  }

  lemma {:induction false} LeadingZero(x: seq<nat>, base: nat)
    ensures Positional([0] + x, base) == Positional(x, base)
  {
    var z := [0] + x;
    if x == [] {
      assert z[..0] == [];
    } else {
      LeadingZero(x[..|x| - 1], base);
      assert z[..|x|] == [0] + x[..|x| - 1];
    }
  }

  lemma {:induction false} ShiftedAt(run: seq<nat>, p: nat, hi: nat, lo: nat, k: nat)
    requires [0] + run + [p] == run + [hi, lo] && k < |run|
    ensures run[k] == 0
  {
    var a, b := [0] + run + [p], run + [hi, lo];
    assert a[k] == b[k];
    if k > 0 {
      ShiftedAt(run, p, hi, lo, k - 1);
    }
  }

  // A run shifted by one place equals itself only if it is all zeros.
  lemma ShiftedRun(run: seq<nat>, p: nat, hi: nat, lo: nat)
    requires [0] + run + [p] == run + [hi, lo]
    ensures AllZero(run) && hi == 0 && lo == p
  {
    forall k | 0 <= k < |run|
      ensures run[k] == 0
    {
      ShiftedAt(run, p, hi, lo, k);
    }
    var a, b := [0] + run + [p], run + [hi, lo];
    assert a[|run|] == b[|run|] && a[|run| + 1] == b[|run| + 1];
  }

  predicate Bounded(values: seq<nat>) { forall i | 0 <= i < |values| :: values[i] < 0x1_0000 }

  lemma SameReadingIff(front: seq<nat>, run: seq<nat>, p: nat, hi: nat, lo: nat)
    requires Bounded(front + ([0] + run + [p])) && Bounded(front + (run + [hi, lo]))
    ensures Positional(front + ([0] + run + [p]), 0x1_0000) == Positional(front + (run + [hi, lo]), 0x1_0000)
            <==> AllZero(run) && hi == 0 && lo == p
  {
    var x, y := [0] + run + [p], run + [hi, lo];
    if AllZero(run) && hi == 0 && lo == p {
      assert x == y;
    } else if Positional(front + x, 0x1_0000) == Positional(front + y, 0x1_0000) {
      PositionalInjective(front + x, front + y, 0x1_0000);
      SameFront(front, x, y);
      ShiftedRun(run, p, hi, lo);
    }
  }

  /** The eight groups that the page reads: the dotted address is one piece to it, cut off at the first dot. */
  function ReadGroups(left: seq<string>, right: seq<string>, quad: string): seq<nat>
    requires |left| + |right| <= 6
  {
    Values(left) + Zeroes(7 - |left| - |right|) + Values(right) + [ParseInt(HexPrefix(quad), 16)]
  }

  lemma ValuesConcat(a: seq<string>, b: seq<string>)
    ensures Values(a + b) == Values(a) + Values(b)
  {}

  lemma ValuesOfZeros(n: nat)
    ensures Values(Zeros(n)) == Zeroes(n)
  {
    AllHex("0");
    assert "0"[..0] == "";
  }

  lemma HextetValues(groups: seq<string>)
    requires Hextets(groups)
    ensures Bounded(Values(groups))
  {
    forall i | 0 <= i < |groups|
      ensures Values(groups)[i] < 0x1_0000
    {
      AllHex(groups[i]);
      HextetBound(groups[i]);
    }
  }

  lemma QuadPiece(quad: string)
    requires Quad(quad)
    ensures ParseInt(HexPrefix(quad), 16) < 0x1_0000
    ensures ParseInt(HexPrefix(quad), 16) == 0 <==> QuadValue(quad, 0) == 0
    ensures forall i | 0 <= i < 4 :: QuadValue(quad, i) < 256
  {
    var first := Split(quad, '.')[0];
    FirstPiece(quad);
    DigitsBound(first);
    ZeroInAnyBase(first);
  }

  lemma QuadIsSolid(s: string)
    requires Quad(s)
    ensures s != "" && ':' !in s && '/' !in s
  {
    JoinOfSplit(s, '.');
    JoinAvoids(Split(s, '.'), '.', ':');
    JoinAvoids(Split(s, '.'), '.', '/');
  }

  lemma {:induction false} JoinAvoids(parts: seq<string>, sep: char, c: char)
    requires |parts| > 0 && c != sep && forall i | 0 <= i < |parts| :: c !in parts[i]
    ensures c !in Join(parts, sep)
  {
    if |parts| > 1 {
      JoinAvoids(parts[1..], sep, c);
    }
  }

  lemma MixedPieces(s: string, left: seq<string>, elided: bool, right: seq<string>, quad: string)
    requires SpellsMixed(s, left, elided, right, quad)
    ensures Pieces(s) == if elided then left + Zeros(7 - |left| - |right|) + (right + [quad]) else right + [quad]
  {
    HextetsAreSolid(left);
    HextetsAreSolid(right);
    QuadIsSolid(quad);
    if elided {
      PiecesOfElided(left, 7 - |left| - |right|, right + [quad]);
    } else {
      PiecesOfFull(right + [quad]);
    }
  }

  // The page's pieces are the groups it reads, but for a zero in front when nothing is elided.
  lemma MixedValues(left: seq<string>, right: seq<string>, quad: string)
    requires |left| + |right| <= 6
    ensures Values(left + Zeros(7 - |left| - |right|) + (right + [quad])) == ReadGroups(left, right, quad)
    ensures left == [] && |right| == 6 ==> [0] + Values(right + [quad]) == ReadGroups(left, right, quad)
  {
    var n := 7 - |left| - |right|;
    ValuesConcat(right, [quad]);
    ValuesConcat(left + Zeros(n), right + [quad]);
    ValuesConcat(left, Zeros(n));
    ValuesOfZeros(n);
  }

  lemma MixedReading(s: string, left: seq<string>, elided: bool, right: seq<string>, quad: string)
    requires SpellsMixed(s, left, elided, right, quad)
    ensures Positional(Values(Pieces(s)), 0x1_0000) == Positional(ReadGroups(left, right, quad), 0x1_0000)
    ensures Bounded(Values(Pieces(s)))
  {
    MixedPieces(s, left, elided, right, quad);
    MixedValues(left, right, quad);
    ReadIsBounded(left, right, quad);
    var v, r := Values(Pieces(s)), ReadGroups(left, right, quad);
    if !elided {
      LeadingZero(v, 0x1_0000);
      assert r == [0] + v;
      assert forall i | 0 <= i < |v| :: v[i] == r[i + 1];
    }
  }

  lemma ReadIsBounded(left: seq<string>, right: seq<string>, quad: string)
    requires Hextets(left) && Hextets(right) && Quad(quad) && |left| + |right| <= 6
    ensures Bounded(ReadGroups(left, right, quad)) && Bounded(MixedGroups(left, right, quad))
  {
    HextetValues(left);
    HextetValues(right);
    QuadPiece(quad);
  }

  /** Every group after the elision, and the dotted address, is zero. */
  predicate TailIsZero(right: seq<string>, quad: string)
    requires Quad(quad)
  {
    AllZero(Values(right)) && forall i | 0 <= i < 4 :: QuadValue(quad, i) == 0
  }

  lemma SameFront(front: seq<nat>, x: seq<nat>, y: seq<nat>)
    requires front + x == front + y
    ensures x == y
  {
    assert (front + x)[|front|..] == x && (front + y)[|front|..] == y;
  }

  lemma Regrouped(left: seq<string>, right: seq<string>, quad: string)
    requires Quad(quad) && |left| + |right| <= 6
    ensures var front, run := Values(left) + Zeroes(6 - |left| - |right|), Values(right);
            ReadGroups(left, right, quad) == front + ([0] + run + [ParseInt(HexPrefix(quad), 16)])
            && MixedGroups(left, right, quad)
               == front + (run + [256 * QuadValue(quad, 0) + QuadValue(quad, 1), 256 * QuadValue(quad, 2) + QuadValue(quad, 3)])
  {
    assert Zeroes(7 - |left| - |right|) == Zeroes(6 - |left| - |right|) + [0];
  }

  /** The page reads such text right exactly when everything after the elision is zero. */
  lemma MixedReadRightIff(left: seq<string>, right: seq<string>, quad: string)
    requires Hextets(left) && Hextets(right) && Quad(quad) && |left| + |right| <= 6
    ensures Positional(ReadGroups(left, right, quad), 0x1_0000) == Positional(MixedGroups(left, right, quad), 0x1_0000)
            <==> TailIsZero(right, quad)
  {
    QuadPiece(quad);
    Regrouped(left, right, quad);
    ReadIsBounded(left, right, quad);
    SameReadingIff(Values(left) + Zeroes(6 - |left| - |right|), Values(right), ParseInt(HexPrefix(quad), 16),
                   256 * QuadValue(quad, 0) + QuadValue(quad, 1), 256 * QuadValue(quad, 2) + QuadValue(quad, 3));
  }

  /** Text that spells an IPv6 address, in hexadecimal groups or with a dotted address at its end. */
  ghost predicate WellFormed(ip: string) {
    (exists groups :: Spells(ip, groups)) || (exists left, elided, right, quad :: SpellsMixed(ip, left, elided, right, quad))
  }

  /** The page's IPv6 reader: right on hexadecimal groups, and on a dotted ending exactly when all of it is zero. */
  method Ipv6ToBigInt(ip: string) returns (acc: nat)
    requires WellFormed(ip)
    ensures forall groups | Spells(ip, groups) :: acc == Positional(Values(groups), 0x1_0000)
    ensures forall left, elided, right, quad | SpellsMixed(ip, left, elided, right, quad) ::
              acc == Positional(MixedGroups(left, right, quad), 0x1_0000) <==> TailIsZero(right, quad)
  {
    var hextets := Pieces(ip);
    WellFormedIsBounded(ip);
    assert Pow2(16) == 0x1_0000 by { Pow2Add(8, 8); Pow2Add(4, 4); }
    acc := Accumulate(Values(hextets), 16);
    forall groups | Spells(ip, groups)
      ensures acc == Positional(Values(groups), 0x1_0000)
    {
      PiecesOfSpelling(ip, groups);
    }
    forall left, elided, right, quad | SpellsMixed(ip, left, elided, right, quad)
      ensures acc == Positional(MixedGroups(left, right, quad), 0x1_0000) <==> TailIsZero(right, quad)
    {
      MixedReading(ip, left, elided, right, quad);
      MixedReadRightIff(left, right, quad);
    }
  }

  lemma WellFormedIsBounded(ip: string)
    requires WellFormed(ip)
    ensures Bounded(Values(Pieces(ip)))
  {
    if groups :| Spells(ip, groups) {
      PiecesOfSpelling(ip, groups);
      HextetValues(groups);
    } else {
      var left, elided, right, quad :| SpellsMixed(ip, left, elided, right, quad);
      MixedReading(ip, left, elided, right, quad);
    }
  }

  /** The page's IPv4 reader, on four decimal pieces. */
  method Ipv4ToBigInt(ip: string) returns (acc: nat)
    requires Quad(ip)
    ensures acc == Positional(seq(4, i requires 0 <= i < 4 => QuadValue(ip, i)), 256)
  {
    var octets := Split(ip, '.');
    var values := seq(4, i requires 0 <= i < 4 => ParseInt(octets[i], 10));
    assert Pow2(8) == 256 by { Pow2Add(4, 4); }
    acc := Accumulate(values, 8);
    assert values == seq(4, i requires 0 <= i < 4 => QuadValue(ip, i));
  }

  // ---------- the same number as the server's bytes ----------

  /** The values of the bytes taken two at a time. */
  function ByteDigits(a: seq<Octet>): seq<nat> { seq(|a|, i requires 0 <= i < |a| => ByteValue(a[i])) }

  function ByteHextets(a: seq<Octet>): seq<nat>
    requires |a| % 2 == 0
  {
    seq(|a| / 2, i requires 0 <= i < |a| / 2 => 256 * ByteValue(a[2 * i]) + ByteValue(a[2 * i + 1]))
  }

  lemma {:induction false} BigEndianAppend(s: seq<Octet>, b: Octet)
    ensures BigEndian(s + [b]) == 256 * BigEndian(s) + ByteValue(b)
  {
    if s == [] {
      assert [] + [b] == [b] && [b][1..] == [];
    } else {
      BigEndianAppend(s[1..], b);
      assert (s + [b])[1..] == s[1..] + [b];
      assert Pow2(8 * |s|) == 256 * Pow2(8 * (|s| - 1)) by { Pow2Add(8, 8 * (|s| - 1)); Pow2Add(4, 4); }
      Rearranged(ByteValue(s[0]), Pow2(8 * (|s| - 1)));
    }
  }

  lemma Rearranged(x: nat, p: nat)
    ensures x * (256 * p) == 256 * (x * p)
  {}

  lemma {:induction false} BytesArePositional(a: seq<Octet>)
    ensures BigEndian(a) == Positional(ByteDigits(a), 256)
  {
    if a != [] {
      var front, b := a[..|a| - 1], a[|a| - 1];
      BytesArePositional(front);
      BigEndianAppend(front, b);
      assert a == front + [b];
      assert ByteDigits(a)[..|a| - 1] == ByteDigits(front);
    }
  }

  lemma LastHextet(a: seq<Octet>)
    requires |a| % 2 == 0 && |a| > 0
    ensures ByteHextets(a) == ByteHextets(a[..|a| - 2]) + [256 * ByteValue(a[|a| - 2]) + ByteValue(a[|a| - 1])]
  {}

  lemma {:induction false} HextetsArePositional(a: seq<Octet>)
    requires |a| % 2 == 0
    ensures BigEndian(a) == Positional(ByteHextets(a), 0x1_0000)
  {
    if a != [] {
      var front, hi, lo := a[..|a| - 2], a[|a| - 2], a[|a| - 1];
      HextetsArePositional(front);
      BigEndianAppend(front, hi);
      BigEndianAppend(front + [hi], lo);
      assert a == front + [hi] + [lo];
      LastHextet(a);
    }
  }

  // ---------- printed addresses ----------

  /** The sixteen bits of group i of an IPv6 address. */
  function GroupOf(a: Address, i: nat): nat
    requires |a| == 16 && i < 8
  {
    256 * ByteValue(a[2 * i]) + ByteValue(a[2 * i + 1])
  }

  predicate PrintsGroup(text: string, n: nat) { 1 <= |text| <= 4 && Numeral(text, n, 16) }

  /** Eight groups with colons between them, or with "::" for one run of zero groups. */
  ghost predicate Prints6(text: string, a: Address)
    requires |a| == 16
  {
    exists groups :: |groups| == 8 && (forall i | 0 <= i < 8 :: PrintsGroup(groups[i], GroupOf(a, i))) && Prints6With(text, a, groups)
  }

  ghost predicate Prints6With(text: string, a: Address, groups: seq<string>)
    requires |a| == 16 && |groups| == 8
  {
    text == Join(groups, ':')
    || exists i, j | 0 <= i < j <= 8 :: (forall k | i <= k < j :: GroupOf(a, k) == 0) && text == Group(groups[..i]) + "::" + Group(groups[j..])
  }

  predicate PrintsByte(text: string, n: nat) { 1 <= |text| <= 3 && Numeral(text, n, 10) }

  /** Four decimal numbers with dots between them. */
  ghost predicate Prints4(text: string, a: Address)
    requires |a| == 4
  {
    exists d0, d1, d2, d3 ::
      PrintsByte(d0, ByteValue(a[0])) && PrintsByte(d1, ByteValue(a[1])) && PrintsByte(d2, ByteValue(a[2])) && PrintsByte(d3, ByteValue(a[3]))
      && text == d0 + "." + (d1 + "." + (d2 + "." + d3))
  }

  ghost predicate Prints(text: string, a: Address) { if |a| == 16 then Prints6(text, a) else |a| == 4 && Prints4(text, a) }

  /** The address alone, or followed by a slash and the prefix length. */
  ghost predicate PrintsRange(text: string, p: Prefix)
    requires p.Valid()
  {
    exists net, bits :: Prints(net, p.addr) && ((text == net && p.bits == p.Width()) || (PrintsByte(bits, p.bits) && text == net + "/" + bits))
  }

  lemma GroupIsHextet(text: string, n: nat)
    requires PrintsGroup(text, n)
    ensures Hextet(text) && ParseInt(HexPrefix(text), 16) == n
  {
    NumeralIsRead(text, n, 16);
    AllHex(text);
  }

  lemma GroupsAreHextets(groups: seq<string>, a: Address)
    requires |a| == 16 && |groups| == 8 && forall i | 0 <= i < 8 :: PrintsGroup(groups[i], GroupOf(a, i))
    ensures Hextets(groups) && Values(groups) == ByteHextets(a)
  {
    forall i | 0 <= i < 8
      ensures Hextet(groups[i]) && Values(groups)[i] == ByteHextets(a)[i]
    {
      GroupIsHextet(groups[i], GroupOf(a, i));
    }
  }

  // The groups that are left out may as well be written as single zeros.
  lemma ElidedAreZeros(groups: seq<string>, a: Address, i: nat, j: nat)
    requires |a| == 16 && |groups| == 8 && i < j <= 8
    requires (forall k | 0 <= k < 8 :: PrintsGroup(groups[k], GroupOf(a, k))) && forall k | i <= k < j :: GroupOf(a, k) == 0
    ensures var zeroed := groups[..i] + Zeros(j - i) + groups[j..];
            |zeroed| == 8 && zeroed[..i] == groups[..i] && zeroed[j..] == groups[j..] && zeroed[i..j] == Zeros(j - i)
            && forall k | 0 <= k < 8 :: PrintsGroup(zeroed[k], GroupOf(a, k))
  {
    var zeroed := groups[..i] + Zeros(j - i) + groups[j..];
    ZeroPrintsZero();
    forall k | 0 <= k < 8
      ensures PrintsGroup(zeroed[k], GroupOf(a, k))
    {
      assert zeroed[k] == if i <= k < j then "0" else groups[k];
    }
  }

  lemma ZeroPrintsZero()
    ensures PrintsGroup("0", 0)
  {
    assert "0"[..0] == "";
  }

  lemma Printed6IsSpelled(text: string, a: Address)
    requires |a| == 16 && Prints6(text, a)
    ensures SpellsAddress(text, a)
  {
    var groups :| |groups| == 8 && (forall i | 0 <= i < 8 :: PrintsGroup(groups[i], GroupOf(a, i))) && Prints6With(text, a, groups);
    if text == Join(groups, ':') {
      GroupsAreHextets(groups, a);
      assert Spells(text, groups);
    } else {
      var i, j :| 0 <= i < j <= 8 && (forall k | i <= k < j :: GroupOf(a, k) == 0) && text == Group(groups[..i]) + "::" + Group(groups[j..]);
      ElidedAreZeros(groups, a, i, j);
      var zeroed := groups[..i] + Zeros(j - i) + groups[j..];
      GroupsAreHextets(zeroed, a);
      assert Spells(text, zeroed);
    }
  }

  lemma FourPieces(d0: string, d1: string, d2: string, d3: string)
    requires '.' !in d0 && '.' !in d1 && '.' !in d2 && '.' !in d3
    ensures Split(d0 + "." + (d1 + "." + (d2 + "." + d3)), '.') == [d0, d1, d2, d3]
  {
    SplitAfter(d0, d1 + "." + (d2 + "." + d3), '.');
    SplitAfter(d1, d2 + "." + d3, '.');
    SplitAfter(d2, d3, '.');
    SplitOfPlain(d3, '.');
  }

  lemma ByteIsDecimal(text: string, n: nat)
    requires PrintsByte(text, n)
    ensures ParseInt(text, 10) == n && '.' !in text && '/' !in text && (n < 256 ==> Decimal(text))
  {
    NumeralIsRead(text, n, 10);
  }

  lemma Printed4IsSpelled(text: string, a: Address)
    requires |a| == 4 && Prints4(text, a)
    ensures SpellsAddress(text, a)
  {
    var d0, d1, d2, d3 :|
      PrintsByte(d0, ByteValue(a[0])) && PrintsByte(d1, ByteValue(a[1])) && PrintsByte(d2, ByteValue(a[2])) && PrintsByte(d3, ByteValue(a[3]))
      && text == d0 + "." + (d1 + "." + (d2 + "." + d3));
    ByteIsDecimal(d0, ByteValue(a[0]));
    ByteIsDecimal(d1, ByteValue(a[1]));
    ByteIsDecimal(d2, ByteValue(a[2]));
    ByteIsDecimal(d3, ByteValue(a[3]));
    FourPieces(d0, d1, d2, d3);
    assert ByteDigits(a) == seq(4, i requires 0 <= i < 4 => QuadValue(text, i));
  }

  lemma HextetsArePrinted(groups: seq<string>, a: Address)
    requires |a| == 16 && |groups| == 8 && Hextets(groups) && Values(groups) == ByteHextets(a)
    ensures forall i | 0 <= i < 8 :: PrintsGroup(groups[i], GroupOf(a, i))
  {
    forall i | 0 <= i < 8
      ensures PrintsGroup(groups[i], GroupOf(a, i))
    {
      AllHex(groups[i]);
      DigitsAreNumeral(groups[i], 16);
      assert Values(groups)[i] == ByteHextets(a)[i];
    }
  }

  lemma ZeroGroup(n: nat)
    requires PrintsGroup("0", n)
    ensures n == 0
  {
    ZeroPrintsZero();
    GroupIsHextet("0", 0);
    GroupIsHextet("0", n);
  }

  /** And every spelling is such a print. */
  lemma SpelledIsPrinted(text: string, a: Address)
    requires |a| == 16 && SpellsAddress(text, a)
    ensures Prints6(text, a)
  {
    var groups :| Spells(text, groups) && Values(groups) == ByteHextets(a);
    HextetsArePrinted(groups, a);
    if text != Join(groups, ':') {
      var i, j :| 0 <= i < j <= 8 && groups[i..j] == Zeros(j - i) && text == Group(groups[..i]) + "::" + Group(groups[j..]);
      forall k | i <= k < j
        ensures GroupOf(a, k) == 0
      {
        assert groups[k] == groups[i..j][k - i] == "0";
        ZeroGroup(GroupOf(a, k));
      }
    }
    assert Prints6With(text, a, groups);
  }

  lemma PrintedIsSpelled(text: string, a: Address)
    requires Prints(text, a)
    ensures SpellsAddress(text, a)
  {
    if |a| == 16 {
      Printed6IsSpelled(text, a);
    } else {
      Printed4IsSpelled(text, a);
    }
  }

  // ---------- the whole test ----------

  /** Text that spells the bytes: abbreviated or full hexadecimal groups, or four decimal pieces. */
  ghost predicate SpellsAddress(text: string, a: Address) {
    if |a| == 16 then exists groups :: Spells(text, groups) && Values(groups) == ByteHextets(a)
    else |a| == 4 && Quad(text) && ByteDigits(a) == seq(4, i requires 0 <= i < 4 => QuadValue(text, i))
  }

  /** The address alone, or followed by the prefix length. */
  predicate WithLength(text: string, net: string, bits: string, p: Prefix)
    requires p.Valid()
  {
    (text == net && p.bits == p.Width()) || (text == net + "/" + bits && bits != "" && '/' !in bits && ParseInt(bits, 10) == p.bits)
  }

  lemma {:induction false} ColonBetween(groups: seq<string>)
    requires |groups| > 1
    ensures ':' in Join(groups, ':')
  {
    assert Join(groups, ':')[|groups[0]|] == ':';
  }

  lemma GroupHasNoSlash(groups: seq<string>)
    requires Hextets(groups)
    ensures '/' !in Group(groups)
  {
    if groups != [] {
      JoinAvoids(groups, ':', '/');
    }
  }

  // The family is told by a colon, and neither family's text has a slash.
  lemma FamilyOfText(text: string, a: Address)
    requires SpellsAddress(text, a)
    ensures '/' !in text && (':' in text <==> |a| == 16)
  {
    if |a| == 16 {
      var groups :| Spells(text, groups) && Values(groups) == ByteHextets(a);
      if text == Join(groups, ':') {
        ColonBetween(groups);
        GroupHasNoSlash(groups);
      } else {
        var i, j :| 0 <= i < j <= 8 && groups[i..j] == Zeros(j - i) && text == Group(groups[..i]) + "::" + Group(groups[j..]);
        GroupHasNoSlash(groups[..i]);
        GroupHasNoSlash(groups[j..]);
        assert text[|Group(groups[..i])|] == ':';
      }
    } else {
      QuadIsSolid(text);
    }
  }

  lemma RangePieces(text: string, net: string, bits: string, p: Prefix)
    requires p.Valid() && SpellsAddress(net, p.addr) && WithLength(text, net, bits, p)
    ensures Split(text, '/')[0] == net
    ensures if |Split(text, '/')| > 1 then Split(text, '/')[1] != "" && ParseInt(Split(text, '/')[1], 10) == p.bits else p.bits == p.Width()
  {
    FamilyOfText(net, p.addr);
    if text == net {
      SplitOfPlain(net, '/');
    } else {
      SplitAfter(net, bits, '/');
      SplitOfPlain(bits, '/');
    }
  }

  lemma PrintedRangePieces(text: string, p: Prefix)
    requires p.Valid() && PrintsRange(text, p)
    ensures var parts := Split(text, '/');
            SpellsAddress(parts[0], p.addr)
            && if |parts| > 1 then parts[1] != "" && ParseInt(parts[1], 10) == p.bits else p.bits == p.Width()
  {
    var net, bits :| Prints(net, p.addr) && ((text == net && p.bits == p.Width()) || (PrintsByte(bits, p.bits) && text == net + "/" + bits));
    PrintedIsSpelled(net, p.addr);
    if PrintsByte(bits, p.bits) {
      ByteIsDecimal(bits, p.bits);
    }
    RangePieces(text, net, bits, p);
  }

  /** Reads an address of either family. */
  method Bigint(ip: string, ghost a: Address) returns (v: nat)
    requires SpellsAddress(ip, a)
    ensures v == BigEndian(a)
  {
    FamilyOfText(ip, a);
    if ':' in ip {
      v := Ipv6ToBigInt(ip);
      HextetsArePositional(a);
    } else {
      v := Ipv4ToBigInt(ip);
      BytesArePositional(a);
    }
  }

  /**
   The page's test as it runs on printed text: split the range, choose the family, read both addresses and compare. Its verdict
   is the server's on the bytes; across families it is that of the integers left after the host bits.
   */
  method AddrInRangeOnText(addr: string, range: string, ghost ip: Address, ghost p: Prefix) returns (inRange: bool)
    requires p.Valid() && Prints(addr, ip) && PrintsRange(range, p)
    ensures |ip| == |p.addr| ==> (inRange <==> MaskContains(p, ip))
    ensures |ip| != |p.addr| ==> (inRange <==> BigEndian(ip) / Pow2(p.HostBits()) == BigEndian(p.addr) / Pow2(p.HostBits()))
  {
    PrintedIsSpelled(addr, ip);
    PrintedRangePieces(range, p);
    var parts := Split(range, '/');
    var net := parts[0];
    FamilyOfText(net, p.addr);
    var total := if ':' in net then 128 else 32;
    var bits := if |parts| > 1 && parts[1] != "" then ParseInt(parts[1], 10) else total;
    var a := Bigint(addr, ip);
    var n := Bigint(net, p.addr);
    inRange := AddrInRange(a, n, total, bits);
    if |ip| == |p.addr| {
      AddrInRangeIsInBlock(p, ip);
      MaskContainsIsInBlock(p, ip);
    } else {
      MixedFamilies(p, ip);
    }
  }
}

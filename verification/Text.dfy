/** The string operations of the standard libraries that the modelled code calls, on ASCII text. */
module Text {

  /** Replacement of every occurrence of one character. */
  function ReplaceAll(s: string, from: char, to: string): string {
    if s == "" then "" else (if s[0] == from then to else [s[0]]) + ReplaceAll(s[1..], from, to)
  }

  lemma {:induction false} ReplaceAllConcat(a: string, b: string, from: char, to: string)
    ensures ReplaceAll(a + b, from, to) == ReplaceAll(a, from, to) + ReplaceAll(b, from, to)
  {
    if a == "" {
      assert a + b == b;
    } else {
      var head := if a[0] == from then to else [a[0]];
      assert (a + b)[1..] == a[1..] + b;
      assert ReplaceAll(a + b, from, to) == head + ReplaceAll(a[1..] + b, from, to);
      ReplaceAllConcat(a[1..], b, from, to);
      Associate(head, ReplaceAll(a[1..], from, to), ReplaceAll(b, from, to));
    }
  }

  lemma Associate(a: string, b: string, c: string)
    ensures a + (b + c) == a + b + c
  {}

  function LowerChar(c: char): char {
    if 'A' <= c <= 'Z' then c - 'A' + 'a' else c
  }

  function Lower(s: string): (r: string)
    ensures |r| == |s| && forall i | 0 <= i < |s| :: r[i] == LowerChar(s[i])
  {
    seq(|s|, i requires 0 <= i < |s| => LowerChar(s[i]))
  }

  lemma LowerTwice(s: string)
    ensures Lower(Lower(s)) == Lower(s)
  {}

  /** The same letter, or one letter in both cases. */
  predicate SameLetter(c: char, d: char) {
    c == d
    || ('A' <= c <= 'Z' && d as int == c as int + 32)
    || ('A' <= d <= 'Z' && c as int == d as int + 32)
  }

  /** The same text but for the case of its letters. */
  predicate SameLetters(s: string, t: string) {
    |s| == |t| && forall i | 0 <= i < |s| :: SameLetter(s[i], t[i])
  }

  /** Lowering forgets the case of letters and nothing else. */
  lemma LowerForgetsCase(s: string, t: string)
    ensures Lower(s) == Lower(t) <==> SameLetters(s, t)
  {
    if Lower(s) == Lower(t) {
      forall i | 0 <= i < |s|
        ensures SameLetter(s[i], t[i])
      {
        assert Lower(s)[i] == Lower(t)[i];
      }
    }
    if SameLetters(s, t) {
      forall i | 0 <= i < |s|
        ensures Lower(s)[i] == Lower(t)[i]
      {
        assert SameLetter(s[i], t[i]);
      }
    }
  }

  /** No capital letter. */
  predicate NoCapitals(s: string) { forall i | 0 <= i < |s| :: !('A' <= s[i] <= 'Z') }

  /** Lowering gives the one spelling without capitals. */
  lemma LowerIsUncapitalised(s: string, t: string)
    ensures NoCapitals(t) ==> (Lower(s) == t <==> SameLetters(s, t))
    ensures NoCapitals(Lower(s)) && SameLetters(s, Lower(s))
  {
    LowerForgetsCase(s, t);
    forall i | 0 <= i < |s|
      ensures SameLetter(s[i], Lower(s)[i])
    {}
    if NoCapitals(t) {
      assert forall i | 0 <= i < |t| :: LowerChar(t[i]) == t[i];
      assert Lower(t) == t;
    }
  }

  // ---------- splitting and joining ----------

  /** The pieces between separators; there is always at least one. */
  function Split(s: string, sep: char): (parts: seq<string>)
    ensures |parts| > 0
  {
    if s == "" then [""]
    else if s[0] == sep then [""] + Split(s[1..], sep)
    else
      var rest := Split(s[1..], sep);
      [[s[0]] + rest[0]] + rest[1..]
  }

  function Join(parts: seq<string>, sep: char): string
    requires |parts| > 0
  {
    if |parts| == 1 then parts[0] else parts[0] + [sep] + Join(parts[1..], sep)
  }

  lemma {:induction false} JoinOfSplit(s: string, sep: char)
    ensures Join(Split(s, sep), sep) == s
    ensures forall i | 0 <= i < |Split(s, sep)| :: sep !in Split(s, sep)[i]
  {
    if s != "" {
      JoinOfSplit(s[1..], sep);
      var rest := Split(s[1..], sep);
      if s[0] == sep {
        assert ([""] + rest)[1..] == rest;
      } else {
        assert Split(s, sep)[1..] == rest[1..];
        assert |rest| > 1 ==> Join(Split(s, sep), sep) == [s[0]] + Join(rest, sep);
      }
    }
  }

  lemma {:induction false} SplitOfPlain(s: string, sep: char)
    requires sep !in s
    ensures Split(s, sep) == [s]
  {
    if s != "" {
      SplitOfPlain(s[1..], sep);
      assert s == [s[0]] + s[1..];
    }
  }

  lemma {:induction false} SplitAfter(head: string, tail: string, sep: char)
    requires sep !in head
    ensures Split(head + [sep] + tail, sep) == [head] + Split(tail, sep)
  {
    var s := head + [sep] + tail;
    if head == "" {
      assert s[1..] == tail;
    } else {
      SplitAfter(head[1..], tail, sep);
      assert s[1..] == head[1..] + [sep] + tail;
      assert head == [head[0]] + head[1..];
    }
  }

  lemma {:induction false} SplitOfJoin(parts: seq<string>, sep: char)
    requires |parts| > 0 && forall i | 0 <= i < |parts| :: sep !in parts[i]
    ensures Split(Join(parts, sep), sep) == parts
  {
    if |parts| == 1 {
      SplitOfPlain(parts[0], sep);
    } else {
      SplitOfJoin(parts[1..], sep);
      SplitAfter(parts[0], Join(parts[1..], sep), sep);
      assert parts == [parts[0]] + parts[1..];
    }
  }

  // ---------- white space and suffixes ----------

  predicate IsSpace(c: char) {
    c == ' ' || c == '\t' || c == '\n' || c == '\r' || c as int == 11 || c as int == 12
  }

  predicate NoSpace(s: string) { forall i | 0 <= i < |s| :: !IsSpace(s[i]) }

  function TrimLeft(s: string): string {
    if s != "" && IsSpace(s[0]) then TrimLeft(s[1..]) else s
  }

  function TrimRight(s: string): string {
    if s != "" && IsSpace(s[|s| - 1]) then TrimRight(s[..|s| - 1]) else s
  }

  function TrimSpace(s: string): string { TrimRight(TrimLeft(s)) }

  predicate EndsInDot(s: string) { s != "" && s[|s| - 1] == '.' }

  /** Drops one final dot, if there is one. */
  function TrimDot(s: string): string {
    if EndsInDot(s) then s[..|s| - 1] else s
  }

  /** The length of the leading run without white space. */
  function WordLength(s: string): (n: nat)
    ensures n <= |s| && NoSpace(s[..n]) && (n < |s| ==> IsSpace(s[n]))
  {
    if s == "" || IsSpace(s[0]) then 0 else 1 + WordLength(s[1..])
  }

  /** The words of a line. */
  function Fields(s: string): seq<string>
    decreases |s|
  {
    if s == "" then []
    else if IsSpace(s[0]) then Fields(s[1..])
    else [s[..WordLength(s)]] + Fields(s[WordLength(s)..])
  }

  lemma WordLengthAll(s: string)
    requires NoSpace(s)
    ensures WordLength(s) == |s|
  {}

  lemma FieldsOfWord(s: string)
    requires NoSpace(s) && s != ""
    ensures Fields(s) == [s]
  {
    WordLengthAll(s);
    assert s[..|s|] == s && s[|s|..] == "";
  }

  lemma {:induction false} WordLengthBefore(word: string, rest: string)
    requires NoSpace(word) && rest != "" && IsSpace(rest[0])
    ensures WordLength(word + rest) == |word|
  {
    if word != "" {
      WordLengthBefore(word[1..], rest);
      assert (word + rest)[1..] == word[1..] + rest;
    }
  }

  predicate AllSpace(s: string) { forall i | 0 <= i < |s| :: s[i] in [' ', '\t', '\n', 11 as char, 12 as char, '\r'] }

  lemma {:induction false} FieldsAfterSpace(gap: string, s: string)
    requires AllSpace(gap)
    ensures Fields(gap + s) == Fields(s)
  {
    if gap == "" {
      assert gap + s == s;
    } else {
      assert (gap + s)[1..] == gap[1..] + s;
      FieldsAfterSpace(gap[1..], s);
    }
  }

  lemma FieldsOfTwoWords(first: string, gap: string, second: string)
    requires NoSpace(first) && first != "" && NoSpace(second) && second != "" && AllSpace(gap) && gap != ""
    ensures Fields(first + gap + second) == [first, second]
  {
    var s := first + gap + second;
    var rest := gap + second;
    assert s == first + rest && rest[0] == gap[0];
    WordLengthBefore(first, rest);
    assert s[|first|..] == rest && s[..|first|] == first;
    FieldsAfterSpace(gap, second);
    FieldsOfWord(second);
  }

  lemma {:induction false} TrimLeftDrops(pad: string, s: string)
    requires AllSpace(pad) && (s == "" || !IsSpace(s[0]))
    ensures TrimLeft(pad + s) == s
  {
    if pad == "" {
      assert pad + s == s;
    } else {
      assert (pad + s)[1..] == pad[1..] + s;
      TrimLeftDrops(pad[1..], s);
    }
  }

  lemma {:induction false} TrimRightDrops(s: string, pad: string)
    requires AllSpace(pad) && (s == "" || !IsSpace(s[|s| - 1]))
    ensures TrimRight(s + pad) == s
  {
    if pad == "" {
      assert s + pad == s;
    } else {
      var t := s + pad;
      assert t[..|t| - 1] == s + pad[..|pad| - 1] && t[|t| - 1] == pad[|pad| - 1];
      TrimRightDrops(s, pad[..|pad| - 1]);
    }
  }

  /** Trimming takes off all white space around a text and none within it. */
  lemma TrimSpaceDrops(left: string, s: string, right: string)
    requires AllSpace(left) && AllSpace(right) && (s == "" || (!IsSpace(s[0]) && !IsSpace(s[|s| - 1])))
    ensures TrimSpace(left + s + right) == s
  {
    if s == "" {
      assert left + s + right == left + right;
      AllTrimmed(left + right);
    } else {
      Associate(left, s, right);
      TrimLeftDrops(left, s + right);
      TrimRightDrops(s, right);
    }
  }

  lemma {:induction false} AllTrimmed(pad: string)
    requires AllSpace(pad)
    ensures TrimLeft(pad) == ""
  {
    if pad != "" {
      AllTrimmed(pad[1..]);
    }
  }
}

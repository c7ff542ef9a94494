/** Validation and normalisation of domain names (LDH labels: section 2.3.1 of RFC 5890). */
module DomainNames {
  import opened Wrappers
  import opened Text

  predicate LdhChar(c: char) { 'a' <= c <= 'z' || '0' <= c <= '9' || c == '-' }

  /** One to 63 letters, digits and hyphens, with no hyphen at either end. */
  predicate ValidLabel(part: string) {
    1 <= |part| <= 63 && part[0] != '-' && part[|part| - 1] != '-' && forall i | 0 <= i < |part| :: LdhChar(part[i])
  }

  /** ASCII codes of the lower-case letters, the digits and the hyphen (section 2.3.1 of RFC 5890). */
  predicate LabelCode(code: int) { 97 <= code <= 122 || 48 <= code <= 57 || code == 45 }

  /** A label as the standard describes it. */
  predicate IsLabel(part: string) {
    0 < |part| < 64 && part[0] as int != 45 && part[|part| - 1] as int != 45
    && forall i | 0 <= i < |part| :: LabelCode(part[i] as int)
  }

  lemma ValidLabelIs(part: string)
    ensures ValidLabel(part) <==> IsLabel(part)
  {
    assert forall i | 0 <= i < |part| :: LdhChar(part[i]) <==> LabelCode(part[i] as int);
  }

  /** Valid labels joined by dots, with or without one final dot, at most 253 characters in all. */
  ghost predicate IsLdhName(name: string) {
    |name| <= 253
    && exists labels: seq<string> :: |labels| > 0 && (forall i | 0 <= i < |labels| :: IsLabel(labels[i]))
                                     && (name == Join(labels, '.') || name == Join(labels, '.') + ".")
  }

  /** The test on the pieces between dots; LdhNameIff shows that it decides IsLdhName. */
  predicate LdhName(name: string) {
    1 <= |name| <= 253 && forall i | 0 <= i < |Split(TrimDot(name), '.')| :: ValidLabel(Split(TrimDot(name), '.')[i])
  }

  lemma {:induction false} JoinOfLabels(labels: seq<string>)
    requires |labels| > 0 && forall i | 0 <= i < |labels| :: ValidLabel(labels[i])
    ensures Join(labels, '.') != "" && !EndsInDot(Join(labels, '.'))
    ensures forall c | c in Join(labels, '.') :: LdhChar(c) || c == '.'
  {
    if |labels| > 1 {
      JoinOfLabels(labels[1..]);
    }
  }

  lemma LdhNameIsLabels(name: string)
    requires LdhName(name)
    ensures IsLdhName(name)
  {
    JoinOfSplit(TrimDot(name), '.');
    var labels := Split(TrimDot(name), '.');
    forall i | 0 <= i < |labels|
      ensures IsLabel(labels[i])
    {
      ValidLabelIs(labels[i]);
    }
    assert name == Join(labels, '.') || name == Join(labels, '.') + ".";
  }

  lemma LabelsAreLdhName(name: string, labels: seq<string>)
    requires 1 <= |name| <= 253 && |labels| > 0 && (forall i | 0 <= i < |labels| :: IsLabel(labels[i]))
    requires name == Join(labels, '.') || name == Join(labels, '.') + "."
    ensures LdhName(name)
  {
    forall i | 0 <= i < |labels|
      ensures ValidLabel(labels[i]) && '.' !in labels[i]
    {
      ValidLabelIs(labels[i]);
    }
    JoinOfLabels(labels);
    SplitOfJoin(labels, '.');
    assert TrimDot(name) == Join(labels, '.');
  }

  lemma LdhNameIff(name: string)
    ensures LdhName(name) <==> IsLdhName(name)
  {
    if LdhName(name) {
      LdhNameIsLabels(name);
    }
    if IsLdhName(name) {
      var labels: seq<string> :| |labels| > 0 && (forall i | 0 <= i < |labels| :: IsLabel(labels[i]))
                                 && (name == Join(labels, '.') || name == Join(labels, '.') + ".");
      NotEmpty(labels);
      LabelsAreLdhName(name, labels);
    }
  }

  lemma NotEmpty(labels: seq<string>)
    requires |labels| > 0 && forall i | 0 <= i < |labels| :: IsLabel(labels[i])
    ensures Join(labels, '.') != ""
  {}

  /** The inner loop, over the characters of one label. */
  method ValidateLabel(part: string) returns (ok: bool)
    ensures ok <==> ValidLabel(part)
  {
    if |part| == 0 || |part| > 63 {
      return false;
    }
    for i := 0 to |part|
      invariant forall k | 0 <= k < i :: LdhChar(part[k]) && ((k == 0 || k == |part| - 1) ==> part[k] != '-')
    {
      var r := part[i];
      if i == 0 || i == |part| - 1 {
        if r == '-' {
          return false;
        }
      }
      if !('a' <= r <= 'z' || '0' <= r <= '9' || r == '-') {
        return false;
      }
    }
    return true;
  }

  method ValidateLDHName(name: string) returns (ok: bool)
    ensures ok <==> LdhName(name)
  {
    if |name| == 0 || |name| > 253 {
      return false;
    }
    var labels := Split(TrimDot(name), '.');
    for n := 0 to |labels|
      invariant forall i | 0 <= i < n :: ValidLabel(labels[i])
    {
      var valid := ValidateLabel(labels[n]);
      if !valid {
        return false;
      }
    }
    return true;
  }

  predicate IsAscii(s: string) { forall i | 0 <= i < |s| :: s[i] as int < 128 }

  /** Normalisation of an ASCII name: trimmed, lowered, without one final dot, and then validated. */
  function NormalizeDomainName(name: string): Option<string>
    requires IsAscii(name)
  {
    var n := TrimDot(Lower(TrimSpace(name)));
    if LdhName(n) then Some(n) else None
  }

  lemma LdhNameChars(n: string)
    requires LdhName(n)
    ensures forall i | 0 <= i < |n| :: LdhChar(n[i]) || n[i] == '.'
    ensures TrimDot(n) != "" && !EndsInDot(TrimDot(n))
  {
    var t := TrimDot(n);
    JoinOfSplit(t, '.');
    JoinOfLabels(Split(t, '.'));
    forall i | 0 <= i < |n|
      ensures LdhChar(n[i]) || n[i] == '.'
    {
      if i < |t| {
        assert n[i] == t[i];
        assert t[i] in t;
      }
    }
  }

  lemma LdhNameShape(n: string)
    requires LdhName(n)
    ensures NoSpace(n) && IsAscii(n) && TrimSpace(n) == n && Lower(n) == n
    ensures TrimDot(n) != "" && !EndsInDot(TrimDot(n)) && LdhName(TrimDot(n))
  {
    LdhNameChars(n);
    assert TrimDot(TrimDot(n)) == TrimDot(n);
    assert forall i | 0 <= i < |n| :: LowerChar(n[i]) == n[i];
  }

  predicate EndsInTwoDots(s: string) { |s| >= 2 && s[|s| - 1] == '.' && s[|s| - 2] == '.' }

  lemma LowerDots(s: string)
    ensures EndsInDot(Lower(s)) <==> EndsInDot(s)
    ensures EndsInTwoDots(Lower(s)) <==> EndsInTwoDots(s)
  {}

  /** Normalising reaches a fixed point at once, or at the second time when the trimmed name ends in two dots. */
  lemma NormalizeFixedPoint(name: string)
    requires IsAscii(name) && NormalizeDomainName(name).Some?
    ensures var n := NormalizeDomainName(name).value;
            IsAscii(n) && IsAscii(TrimDot(n))
            && NormalizeDomainName(n) == Some(TrimDot(n)) && NormalizeDomainName(TrimDot(n)) == Some(TrimDot(n))
            && (TrimDot(n) != n <==> EndsInTwoDots(TrimSpace(name)))
  {
    var n := NormalizeDomainName(name).value;
    LdhNameShape(n);
    LdhNameShape(TrimDot(n));
    LowerDots(TrimSpace(name));
  }
}

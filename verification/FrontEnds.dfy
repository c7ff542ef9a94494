/** The RDAP and WHOIS domain lookups over one memory store, compared name by name. */
module FrontEnds {
  import opened Wrappers
  import opened Text
  import opened Registry
  import opened DomainNames
  import opened MemoryStore

  // ---------- WHOIS query lines ----------

  datatype Kind = DomainQuery | NameserverQuery | EntityQuery | IpQuery | AutnumQuery | NoQuery

  predicate IsNumeric(s: string) { s != "" && forall i | 0 <= i < |s| :: '0' <= s[i] <= '9' }

  predicate HasPrefix(s: string, prefix: string) { prefix <= s }

  /** What a keyword says the next word is; None when the word is no keyword. */
  function Keyword(word: string): Option<Kind> { KeywordIn(Lower(word)) }

  function KeywordIn(w: string): Option<Kind> {
    if w == "domain" || w == "dom" then Some(DomainQuery)
    else if w == "nameserver" || w == "ns" then Some(NameserverQuery)
    else if w == "entity" || w == "contact" then Some(EntityQuery)
    else if w == "ip" || w == "ipnetwork" || w == "network" then Some(IpQuery)
    else if w == "asn" || w == "autnum" then Some(AutnumQuery)
    else None
  }

  /** The kind of a lone word. */
  function Detect(t: string): Kind {
    var lower := Lower(t);
    if HasPrefix(lower, "as") && IsNumeric(lower[2..]) then AutnumQuery
    else if '/' in t then IpQuery
    else if HasPrefix(lower, "ns") && '.' in t then NameserverQuery
    else if '.' in t then DomainQuery
    else EntityQuery
  }

  function ParseQuery(line: string): (string, Kind) {
    var trimmed := TrimSpace(line);
    var fields := Fields(trimmed);
    if fields == [] then ("", NoQuery)
    else if |fields| >= 2 && Keyword(fields[0]).Some? then (fields[1], Keyword(fields[0]).value)
    else (fields[0], Detect(fields[0]))
  }

  // ---------- the two lookups ----------

  /** A WHOIS line finds a domain when it is a domain query whose name the store has. */
  function WhoisLookup(domains: map<string, Domain>, t: Tables, line: string): Option<Aggregate> {
    var (query, kind) := ParseQuery(line);
    if kind == DomainQuery then AggregateOf(domains, t, Lower(TrimDot(query))) else None
  }

  /** The RDAP path finds a domain when its normalised form is valid and the store has it. */
  function RdapLookup(domains: map<string, Domain>, t: Tables, name: string): Option<Aggregate>
    requires IsAscii(name)
  {
    if name == "" then None
    else
      var n := NormalizeDomainName(name);
      if n.None? then None else AggregateOf(domains, t, n.value)
  }

  /** Every key is a valid name without a final dot. */
  predicate ValidKeys(domains: map<string, Domain>) {
    forall k | k in domains :: LdhName(k) && !EndsInDot(k)
  }

  lemma LowerTrims(s: string)
    ensures TrimDot(Lower(s)) == Lower(TrimDot(s))
  {}

  lemma NothingToTrim(s: string)
    requires s == "" || (!IsSpace(s[0]) && !IsSpace(s[|s| - 1]))
    ensures TrimSpace(s) == s
  {}

  // ---------- what the parser recognises ----------

  lemma LoweredKeywords(w: string)
    ensures KeywordIn(w) == Some(DomainQuery) <==> w == "domain" || w == "dom"
    ensures KeywordIn(w) == Some(NameserverQuery) <==> w == "nameserver" || w == "ns"
    ensures KeywordIn(w) == Some(EntityQuery) <==> w == "entity" || w == "contact"
    ensures KeywordIn(w) == Some(IpQuery) <==> w == "ip" || w == "ipnetwork" || w == "network"
    ensures KeywordIn(w) == Some(AutnumQuery) <==> w == "asn" || w == "autnum"
    ensures KeywordIn(w) != Some(NoQuery)
  {}

  /** The word is one of two keywords, in any case. */
  predicate Either(word: string, k1: string, k2: string) { SameLetters(word, k1) || SameLetters(word, k2) }

  lemma EitherIs(word: string, k1: string, k2: string)
    requires NoCapitals(k1) && NoCapitals(k2)
    ensures Either(word, k1, k2) <==> Lower(word) == k1 || Lower(word) == k2
  {
    LowerIsUncapitalised(word, k1);
    LowerIsUncapitalised(word, k2);
  }

  /** The keywords, in any case. */
  lemma KeywordsAre(word: string)
    ensures Keyword(word) == Some(DomainQuery) <==> Either(word, "domain", "dom")
    ensures Keyword(word) == Some(NameserverQuery) <==> Either(word, "nameserver", "ns")
    ensures Keyword(word) == Some(EntityQuery) <==> Either(word, "entity", "contact")
    ensures Keyword(word) == Some(IpQuery) <==> Either(word, "ip", "ipnetwork") || Either(word, "network", "network")
    ensures Keyword(word) == Some(AutnumQuery) <==> Either(word, "asn", "autnum")
    ensures Keyword(word) != Some(NoQuery)
  {
    LoweredKeywords(Lower(word));
    EitherIs(word, "domain", "dom");
    EitherIs(word, "nameserver", "ns");
    EitherIs(word, "entity", "contact");
    EitherIs(word, "ip", "ipnetwork");
    EitherIs(word, "network", "network");
    EitherIs(word, "asn", "autnum");
  }

  /** A keyword, white space and a name, with any white space around them, ask for the name as the keyword says. */
  lemma KeywordLine(left: string, word: string, gap: string, name: string, right: string)
    requires AllSpace(left) && AllSpace(gap) && AllSpace(right) && gap != ""
    requires NoSpace(word) && word != "" && NoSpace(name) && name != ""
    ensures Keyword(word).Some? ==> ParseQuery(left + (word + gap + name) + right) == (name, Keyword(word).value)
  {
    var line := word + gap + name;
    assert line[0] == word[0] && line[|line| - 1] == name[|name| - 1];
    TrimSpaceDrops(left, line, right);
    FieldsOfTwoWords(word, gap, name);
  }

  lemma DomainLine(name: string)
    requires NoSpace(name) && name != ""
    ensures ParseQuery("domain " + name) == (name, DomainQuery)
  {
    var line := "domain" + " " + name;
    assert "domain " + name == line && "" + line + "" == line;
    KeywordsAre("domain");
    KeywordLine("", "domain", " ", name, "");
  }

  lemma BareLine(name: string)
    requires NoSpace(name) && name != ""
    ensures ParseQuery(name) == (name, Detect(name))
  {
    assert "" + name + "" == name;
    PaddedBareLine("", name, "");
  }

  lemma PaddedBareLine(left: string, name: string, right: string)
    requires AllSpace(left) && AllSpace(right) && NoSpace(name) && name != ""
    ensures ParseQuery(left + name + right) == (name, Detect(name))
  {
    TrimSpaceDrops(left, name, right);
    FieldsOfWord(name);
  }

  /** A line of white space asks for nothing. */
  lemma BlankLine(line: string)
    requires AllSpace(line)
    ensures ParseQuery(line) == ("", NoQuery)
  {
    assert line + "" + "" == line;
    TrimSpaceDrops(line, "", "");
  }

  /** AS, in any case, and a number. */
  predicate AsNumber(t: string) {
    |t| > 2 && SameLetters(t[..2], "as") && forall i | 2 <= i < |t| :: '0' <= t[i] <= '9'
  }

  /** What a lone word is taken for. */
  lemma DetectIs(t: string)
    requires t != ""
    ensures Detect(t) == AutnumQuery <==> AsNumber(t)
    ensures Detect(t) == IpQuery <==> !AsNumber(t) && '/' in t
    ensures Detect(t) == NameserverQuery <==> '/' !in t && '.' in t && |t| >= 2 && SameLetters(t[..2], "ns")
    ensures Detect(t) == DomainQuery <==> '/' !in t && '.' in t && !(|t| >= 2 && SameLetters(t[..2], "ns"))
    ensures Detect(t) == EntityQuery <==> '/' !in t && '.' !in t && !AsNumber(t)
  {
    PrefixIs(t, "as");
    PrefixIs(t, "ns");
    if HasPrefix(Lower(t), "as") {
      DigitsAre(t);
    }
    if AsNumber(t) {
      NumberHasNoSign(t);
    }
  }

  lemma NumberHasNoSign(t: string)
    requires AsNumber(t)
    ensures '.' !in t && '/' !in t
    ensures !SameLetters(t[..2], "ns")
  {
    assert SameLetter(t[..2][0], "as"[0]) && SameLetter(t[..2][1], "as"[1]);
    assert !SameLetter(t[..2][0], "ns"[0]);
  }

  lemma PrefixIs(t: string, prefix: string)
    requires NoCapitals(prefix)
    ensures HasPrefix(Lower(t), prefix) <==> |t| >= |prefix| && SameLetters(t[..|prefix|], prefix)
  {
    if |t| >= |prefix| {
      assert Lower(t[..|prefix|]) == Lower(t)[..|prefix|];
      LowerIsUncapitalised(t[..|prefix|], prefix);
    }
  }

  lemma DigitsAre(t: string)
    requires |t| >= 2
    ensures IsNumeric(Lower(t)[2..]) <==> |t| > 2 && forall i | 2 <= i < |t| :: '0' <= t[i] <= '9'
  {
    var d := Lower(t)[2..];
    assert forall i | 2 <= i < |t| :: d[i - 2] == LowerChar(t[i]);
    if IsNumeric(d) {
      forall i | 2 <= i < |t|
        ensures '0' <= t[i] <= '9'
      {
        assert '0' <= d[i - 2] <= '9';
      }
    }
  }

  /** A key of the store stays valid with one final dot put back, unless it has the greatest length. */
  lemma DottedKey(k: string)
    requires LdhName(k) && !EndsInDot(k)
    ensures LdhName(k + ".") <==> |k| < 253
  {
    assert TrimDot(k + ".") == k && TrimDot(k) == k;
  }

  /** The name is a stored one of 253 characters with two final dots. */
  predicate TooLongWithDots(domains: map<string, Domain>, name: string) {
    |name| == 255 && EndsInTwoDots(name) && Lower(TrimDot(TrimDot(name))) in domains
  }

  /**
   For every name without white space, the RDAP lookup and the WHOIS query "domain X" give the same aggregate or
   neither finds one, exactly unless the name is a stored one of 253 characters with two final dots. Only WHOIS
   finds that.
   */
  lemma DomainQueryAgrees(domains: map<string, Domain>, t: Tables, name: string)
    requires ValidKeys(domains) && NoSpace(name) && IsAscii(name) && name != ""
    ensures RdapLookup(domains, t, name) == WhoisLookup(domains, t, "domain " + name) <==> !TooLongWithDots(domains, name)
    ensures TooLongWithDots(domains, name) ==> RdapLookup(domains, t, name) == None && WhoisLookup(domains, t, "domain " + name).Some?
  {
    DomainLine(name);
    NothingToTrim(name);
    LookupKey(name);
    if Lower(TrimDot(TrimDot(name))) in domains {
      ValidUnlessTooLong(name);
    }
  }

  // Both lookups lower the name, take off one final dot, and leave a second one to the store.
  lemma LookupKey(name: string)
    ensures TrimDot(Lower(name)) == Lower(TrimDot(name))
    ensures Lower(TrimDot(Lower(TrimDot(name)))) == Lower(TrimDot(TrimDot(name)))
  {
    LowerTrims(name);
    LowerTrims(TrimDot(name));
    LowerTwice(TrimDot(TrimDot(name)));
  }

  lemma ValidUnlessTooLong(name: string)
    requires LdhName(Lower(TrimDot(TrimDot(name)))) && !EndsInDot(Lower(TrimDot(TrimDot(name))))
    ensures LdhName(Lower(TrimDot(name))) <==> !(|name| == 255 && EndsInTwoDots(name))
  {
    var n, key := Lower(TrimDot(name)), Lower(TrimDot(TrimDot(name)));
    LowerTrims(TrimDot(name));
    if EndsInDot(n) {
      assert n == key + ".";
      DottedKey(key);
    }
  }

  // ---------- which names are found ----------

  /** The name is k in any case, with so many final dots. */
  predicate SpelledWith(name: string, k: string, dots: nat) {
    |name| == |k| + dots && SameLetters(name[..|k|], k) && forall i | |k| <= i < |name| :: name[i] == '.'
  }

  /** Every stored name is found under each of its spellings, with up to two final dots. */
  lemma EverySpellingIsFound(domains: map<string, Domain>, t: Tables, name: string, k: string, dots: nat)
    requires ValidKeys(domains) && NoSpace(name) && IsAscii(name) && name != ""
    requires k in domains && dots <= 2 && SpelledWith(name, k, dots)
    ensures WhoisLookup(domains, t, "domain " + name) == Some(ResolveInMemory(domains[k], t))
    ensures RdapLookup(domains, t, name) == if dots == 2 && |k| == 253 then None else Some(ResolveInMemory(domains[k], t))
  {
    SpellingLeadsToKey(name, k, dots);
    WhoisIsByKey(domains, t, name);
    DomainQueryAgrees(domains, t, name);
  }

  lemma WhoisIsByKey(domains: map<string, Domain>, t: Tables, name: string)
    requires NoSpace(name) && name != ""
    ensures var key := Lower(TrimDot(TrimDot(name)));
            WhoisLookup(domains, t, "domain " + name) == if key in domains then Some(ResolveInMemory(domains[key], t)) else None
  {
    DomainLine(name);
    LookupKey(name);
    LookupKey(TrimDot(name));
  }

  /** And no name is found that is not such a spelling of a stored one. */
  lemma OnlySpellingsAreFound(domains: map<string, Domain>, t: Tables, name: string)
    requires NoSpace(name) && name != "" && WhoisLookup(domains, t, "domain " + name).Some?
    ensures exists k, dots: nat :: k in domains && dots <= 2 && SpelledWith(name, k, dots)
  {
    WhoisIsByKey(domains, t, name);
    KeyIsSpelled(name);
  }

  lemma KeyIsSpelled(name: string)
    ensures |Lower(TrimDot(TrimDot(name)))| <= |name| <= |Lower(TrimDot(TrimDot(name)))| + 2
    ensures var key := Lower(TrimDot(TrimDot(name))); SpelledWith(name, key, |name| - |key|)
  {
    var base := TrimDot(TrimDot(name));
    LowerIsUncapitalised(base, Lower(base));
    assert name[..|base|] == base;
  }

  lemma SpellingLeadsToKey(name: string, k: string, dots: nat)
    requires LdhName(k) && !EndsInDot(k) && dots <= 2 && SpelledWith(name, k, dots)
    ensures Lower(TrimDot(TrimDot(name))) == k
    ensures EndsInTwoDots(name) <==> dots == 2
  {
    var base := name[..|k|];
    LdhNameShape(k);
    LdhHasNoCapitals(k);
    LowerIsUncapitalised(base, k);
    assert SameLetter(base[|k| - 1], k[|k| - 1]);
    assert name[|k| - 1] == base[|k| - 1] != '.';
    assert TrimDot(TrimDot(name)) == base;
  }

  lemma LdhHasNoCapitals(k: string)
    requires LdhName(k)
    ensures NoCapitals(k)
  {
    LdhNameChars(k);
  }

  /** Neither front end minds the case of the name it is asked for. */
  lemma CaseIsIgnored(domains: map<string, Domain>, t: Tables, name: string, other: string)
    requires SameLetters(name, other) && IsAscii(name) && IsAscii(other) && NoSpace(name) && NoSpace(other) && name != ""
    ensures RdapLookup(domains, t, name) == RdapLookup(domains, t, other)
    ensures WhoisLookup(domains, t, "domain " + name) == WhoisLookup(domains, t, "domain " + other)
  {
    LowerForgetsCase(name, other);
    NothingToTrim(name);
    NothingToTrim(other);
    LookupKey(name);
    LookupKey(other);
    DomainLine(name);
    DomainLine(other);
  }

  /** RDAP ignores white space around the name. */
  lemma RdapIgnoresPadding(domains: map<string, Domain>, t: Tables, left: string, name: string, right: string)
    requires AllSpace(left) && AllSpace(right) && NoSpace(name) && IsAscii(name) && name != ""
    ensures IsAscii(left + name + right) && RdapLookup(domains, t, left + name + right) == RdapLookup(domains, t, name)
  {
    TrimSpaceDrops(left, name, right);
    NothingToTrim(name);
  }

  lemma SameParse(domains: map<string, Domain>, t: Tables, line: string, other: string)
    requires ParseQuery(line) == ParseQuery(other)
    ensures WhoisLookup(domains, t, line) == WhoisLookup(domains, t, other)
  {}

  /** WHOIS ignores white space around the line and takes any for the gap, and either keyword in any case. */
  lemma WhoisIgnoresPadding(domains: map<string, Domain>, t: Tables, left: string, word: string, gap: string, name: string, right: string)
    requires AllSpace(left) && AllSpace(right) && AllSpace(gap) && gap != "" && NoSpace(name) && name != ""
    requires Either(word, "domain", "dom") && NoSpace(word)
    ensures WhoisLookup(domains, t, left + (word + gap + name) + right) == WhoisLookup(domains, t, "domain " + name)
    ensures WhoisLookup(domains, t, left + name + right) == WhoisLookup(domains, t, name)
  {
    KeywordsAre(word);
    KeywordLine(left, word, gap, name, right);
    DomainLine(name);
    SameParse(domains, t, left + (word + gap + name) + right, "domain " + name);
    BareLine(name);
    PaddedBareLine(left, name, right);
    SameParse(domains, t, left + name + right, name);
  }

  /** A label of n letters. */
  function LongLabel(n: nat): string { seq(n, _ => 'a') }

  function LongLabels(): seq<string> { [LongLabel(63), LongLabel(63), LongLabel(63), LongLabel(61)] }

  /** A valid name of 253 characters. */
  function LongestName(): string { Join(LongLabels(), '.') }

  lemma LongestNameIsValid()
    ensures LdhName(LongestName()) && !EndsInDot(LongestName()) && |LongestName()| == 253
  {
    var labels := LongLabels();
    JoinOfLabels(labels);
    forall i | 0 <= i < |labels| {
      ValidLabelIs(labels[i]);
    }
    assert labels[1..] == [LongLabel(63), LongLabel(63), LongLabel(61)];
    assert labels[1..][1..] == [LongLabel(63), LongLabel(61)];
    assert labels[1..][1..][1..] == [LongLabel(61)];
    LdhNameIff(LongestName());
  }

  // Any name of that length, under two final dots.
  lemma TwoDots(key: string, d: Domain, t: Tables)
    requires LdhName(key) && !EndsInDot(key) && |key| == 253
    ensures var domains, name := map[key := d], key + "..";
            ValidKeys(domains) && NoSpace(name) && IsAscii(name)
            && RdapLookup(domains, t, name) == None && WhoisLookup(domains, t, "domain " + name) == Some(ResolveInMemory(d, t))
  {
    var name := key + "..";
    LdhNameShape(key);
    assert TrimDot(name) == key + "." && TrimDot(TrimDot(name)) == key;
    DomainQueryAgrees(map[key := d], t, name);
    DomainLine(name);
    LowerTrims(TrimDot(name));
  }

  /** The front ends do part: WHOIS finds the longest name under two final dots, and RDAP does not. */
  lemma OnlyWhoisFindsTwoDots(d: Domain, t: Tables)
    ensures var domains, name := map[LongestName() := d], LongestName() + "..";
            ValidKeys(domains) && NoSpace(name) && IsAscii(name)
            && RdapLookup(domains, t, name) == None && WhoisLookup(domains, t, "domain " + name) == Some(ResolveInMemory(d, t))
  {
    LongestNameIsValid();
    TwoDots(LongestName(), d, t);
  }

  /**
   A WHOIS line that is the name alone finds what "domain X" finds if the name has a dot and does not begin with
   "ns", and nothing otherwise: the name is then taken for a nameserver or an entity.
   */
  lemma BareQueryAgrees(domains: map<string, Domain>, t: Tables, name: string)
    requires ValidKeys(domains) && NoSpace(name) && IsAscii(name) && name != ""
    ensures WhoisLookup(domains, t, name)
            == if '.' in name && !HasPrefix(Lower(name), "ns") then WhoisLookup(domains, t, "domain " + name) else None
    ensures RdapLookup(domains, t, name).Some? ==>
              (WhoisLookup(domains, t, name) == RdapLookup(domains, t, name) <==> '.' in name && !HasPrefix(Lower(name), "ns"))
    ensures RdapLookup(domains, t, name).None? ==>
              (WhoisLookup(domains, t, name).Some?
               <==> TooLongWithDots(domains, name) && '.' in name && !HasPrefix(Lower(name), "ns"))
  {
    DomainQueryAgrees(domains, t, name);
    DomainLine(name);
    BareLine(name);
    if WhoisLookup(domains, t, "domain " + name).Some? {
      FoundNameHasNoSlash(domains, name);
    }
    if '.' in name && HasPrefix(Lower(name), "as") {
      DotIsNotNumeric(name);
    }
  }

  lemma FoundNameHasNoSlash(domains: map<string, Domain>, name: string)
    requires ValidKeys(domains) && Lower(TrimDot(Lower(TrimDot(name)))) in domains
    ensures '/' !in name
  {
    LowerTrims(TrimDot(name));
    var key := Lower(TrimDot(Lower(TrimDot(name))));
    LdhNameChars(key);
    forall i | 0 <= i < |name|
      ensures name[i] != '/'
    {
      assert i < |key| ==> key[i] == LowerChar(LowerChar(name[i]));
    }
  }

  lemma DotIsNotNumeric(name: string)
    requires '.' in name && HasPrefix(Lower(name), "as")
    ensures !IsNumeric(Lower(name)[2..])
  {
    var l := Lower(name);
    var i :| 0 <= i < |name| && name[i] == '.';
    assert l[i] == '.' && l[0] == 'a' && l[1] == 's';
    assert l[2..][i - 2] == '.';
  }
}

/** The memory store: lookups and searches over maps that iterate in an arbitrary order. */
module MemoryStore {
  import opened Wrappers
  import opened Text
  import opened Registry
  import Glob
  import opened Regexp
  import opened NamePatterns

  // ---------- what a search may return ----------

  predicate Distinct(keys: seq<string>) { forall i, j | 0 <= i < j < |keys| :: keys[i] != keys[j] }

  /** At most limit of n, where a limit that is not positive means no limit. */
  function Capped(limit: int, n: nat): nat { if limit > 0 && limit < n then limit else n }

  /** The results are the records under distinct matching keys, as many as there are up to the limit. */
  ghost predicate Selection<T>(results: seq<T>, table: map<string, T>, matching: set<string>, limit: int) {
    |results| == Capped(limit, |matching|)
    && exists keys: seq<string> :: Distinct(keys) && Taken(results, keys, table, matching)
  }

  ghost predicate Taken<T>(results: seq<T>, keys: seq<string>, table: map<string, T>, matching: set<string>) {
    |keys| == |results| && forall i | 0 <= i < |keys| :: keys[i] in matching && keys[i] in table && results[i] == table[keys[i]]
  }

  lemma {:induction false} DistinctCount(keys: seq<string>, s: set<string>)
    requires Distinct(keys) && forall k :: k in keys <==> k in s
    ensures |s| == |keys|
  {
    if keys != [] {
      var last := keys[|keys| - 1];
      assert forall k :: k in keys[..|keys| - 1] <==> k in s - {last};
      DistinctCount(keys[..|keys| - 1], s - {last});
    } else {
      assert s == {};
    }
  }

  function Passing<T>(table: map<string, T>, keep: (string, T) -> bool): set<string> {
    set k | k in table && keep(k, table[k])
  }

  /** What has been taken when todo is still to be looked at and the limit is not reached. */
  ghost predicate Progress<T>(results: seq<T>, keys: seq<string>, table: map<string, T>, matching: set<string>, todo: set<string>, limit: int) {
    todo <= table.Keys && Distinct(keys) && Taken(results, keys, table, matching)
    && (forall k :: k in keys <==> k in matching - todo) && (limit > 0 ==> |results| < limit)
  }

  lemma Skip<T>(results: seq<T>, keys: seq<string>, table: map<string, T>, matching: set<string>, todo: set<string>, limit: int, k: string)
    requires Progress(results, keys, table, matching, todo, limit) && k in todo && k !in matching
    ensures Progress(results, keys, table, matching, todo - {k}, limit)
  {
    assert matching - (todo - {k}) == matching - todo;
  }

  lemma Take<T>(results: seq<T>, keys: seq<string>, table: map<string, T>, matching: set<string>, todo: set<string>, limit: int, k: string)
    requires Progress(results, keys, table, matching, todo, limit) && k in todo && k in matching
    ensures var more := results + [table[k]];
            if limit > 0 && |more| >= limit then Selection(more, table, matching, limit)
            else Progress(more, keys + [k], table, matching, todo - {k}, limit)
  {
    assert k !in matching - todo;
    assert k !in keys;
    assert matching - (todo - {k}) == matching - todo + {k};
    AtMost(keys + [k], matching);
    assert Taken(results + [table[k]], keys + [k], table, matching);
  }

  lemma Exhausted<T>(results: seq<T>, keys: seq<string>, table: map<string, T>, matching: set<string>, limit: int)
    requires Progress(results, keys, table, matching, {}, limit)
    ensures Selection(results, table, matching, limit)
  {
    assert matching - {} == matching;
    DistinctCount(keys, matching);
  }

  /** The loop of every search over a map: keep what passes, stop when the limit is reached. */
  method Collect<T>(table: map<string, T>, keep: (string, T) -> bool, limit: int) returns (results: seq<T>)
    ensures Selection(results, table, Passing(table, keep), limit)
  {
    ghost var matching := Passing(table, keep);
    ghost var keys: seq<string> := [];
    results := [];
    var todo := table.Keys;
    while todo != {}
      invariant Progress(results, keys, table, matching, todo, limit)
    {
      var k :| k in todo;
      if keep(k, table[k]) {
        Take(results, keys, table, matching, todo, limit, k);
        results := results + [table[k]];
        keys := keys + [k];
        if limit > 0 && |results| >= limit {
          return;
        }
      } else {
        Skip(results, keys, table, matching, todo, limit, k);
      }
      todo := todo - {k};
    }
    Exhausted(results, keys, table, matching, limit);
  }

  lemma AtMost(keys: seq<string>, s: set<string>)
    requires Distinct(keys) && forall i | 0 <= i < |keys| :: keys[i] in s
    ensures |keys| <= |s|
  {
    var inside := set k | k in s && k in keys;
    DistinctCount(keys, inside);
    SubsetIsSmaller(inside, s);
  }

  lemma SubsetIsSmaller(a: set<string>, b: set<string>)
    requires a <= b
    ensures |a| <= |b|
  {
    assert b == a + (b - a);
  }

  // ---------- entities of a domain ----------

  datatype SearchError = InvalidPattern

  /** One entity matches a reverse-search property under the compiled pattern. */
  predicate EntityMatches(handle: string, c: Contact, property: string, re: Matcher) {
    match property
    case "role" => exists i | 0 <= i < |c.roles| :: re(Lower(c.roles[i]))
    case "handle" => re(Lower(handle))
    case "fn" => c.vcard.Some? && re(Lower(c.vcard.value.fullName))
    case "email" => c.vcard.Some? && re(Lower(c.vcard.value.email))
    case _ => false
  }

  /** Some entity that the domain names, and that exists, matches. */
  predicate AnyEntityMatches(contacts: map<string, Contact>, d: Domain, property: string, re: Matcher) {
    exists h | h in Wanted(d) :: h in contacts && EntityMatches(h, contacts[h], property, re)
  }

  /** The loop over the gathered handles, in any order, stopping at the first match. */
  method DomainMatchesEntity(contacts: map<string, Contact>, d: Domain, property: string, re: Matcher) returns (found: bool)
    ensures found == AnyEntityMatches(contacts, d, property, re)
  {
    var todo := Wanted(d);
    while todo != {}
      invariant todo <= Wanted(d)
      invariant forall h | h in Wanted(d) - todo && h in contacts :: !EntityMatches(h, contacts[h], property, re)
    {
      var h :| h in todo;
      todo := todo - {h};
      if h !in contacts {
        continue;
      }
      if EntityMatches(h, contacts[h], property, re) {
        return true;
      }
    }
    return false;
  }

  /** The domains some entity of which matches. */
  function WithEntity(domains: map<string, Domain>, contacts: map<string, Contact>, property: string, re: Matcher): set<string> {
    set k | k in domains && AnyEntityMatches(contacts, domains[k], property, re)
  }

  method CollectWithEntity(domains: map<string, Domain>, contacts: map<string, Contact>, property: string, re: Matcher, limit: int)
    returns (results: seq<Domain>)
    ensures Selection(results, domains, WithEntity(domains, contacts, property, re), limit)
  {
    ghost var matching := WithEntity(domains, contacts, property, re);
    ghost var keys: seq<string> := [];
    results := [];
    var todo := domains.Keys;
    while todo != {}
      invariant Progress(results, keys, domains, matching, todo, limit)
    {
      var k :| k in todo;
      var found := DomainMatchesEntity(contacts, domains[k], property, re);
      if found {
        Take(results, keys, domains, matching, todo, limit, k);
        results := results + [domains[k]];
        keys := keys + [k];
        if limit > 0 && |results| >= limit {
          return;
        }
      } else {
        Skip(results, keys, domains, matching, todo, limit, k);
      }
      todo := todo - {k};
    }
    Exhausted(results, keys, domains, matching, limit);
  }

  // ---------- the handlers' limit ----------

  /** The limit a request is entitled to: its own if it lies within the maximum. */
  function RequestLimit(max: int, param: Option<int>): int {
    if param.Some? && 1 <= param.value <= max then param.value else max
  }

  /** The limit a request gets; param is None when absent or not a number. */
  method ClampLimit(max: int, param: Option<int>) returns (limit: int)
    ensures max > 0 ==> 1 <= limit <= max
    ensures param.Some? && 1 <= param.value <= max ==> limit == param.value
    ensures !(param.Some? && 1 <= param.value <= max) ==> limit == max
  {
    limit := max;
    if param.Some? {
      var parsed := param.value;
      if parsed > 0 && parsed <= limit {
        limit := parsed;
      }
    }
  }

  // ---------- nameservers by address ----------

  function WithAddress(table: map<string, NameServer>, keys: set<string>, ip: string, v4: bool): set<string> {
    set k | k in keys && k in table && ip in (if v4 then table[k].ipv4 else table[k].ipv6)
  }

  /** Every nameserver once for each address family that lists the address. */
  function Hits(table: map<string, NameServer>, keys: set<string>, ip: string): multiset<string> {
    multiset(WithAddress(table, keys, ip, true)) + multiset(WithAddress(table, keys, ip, false))
  }

  lemma WithAddressOneMore(table: map<string, NameServer>, done: set<string>, k: string, ip: string, v4: bool)
    requires k in table && k !in done
    ensures var before := WithAddress(table, done, ip, v4);
            k !in before
            && WithAddress(table, done + {k}, ip, v4) == if ip in (if v4 then table[k].ipv4 else table[k].ipv6) then before + {k} else before
  {}

  lemma AddedOnce(s: set<string>, k: string)
    requires k !in s
    ensures multiset(s + {k}) == multiset(s) + multiset{k}
  {}

  lemma HitsOneMore(table: map<string, NameServer>, done: set<string>, k: string, ip: string)
    requires k in table && k !in done
    ensures Hits(table, done + {k}, ip) == Hits(table, done, ip) + multiset(Families(table[k], k, ip))
  {
    WithAddressOneMore(table, done, k, ip, true);
    WithAddressOneMore(table, done, k, ip, false);
    AddedOnce(WithAddress(table, done, ip, true), k);
    AddedOnce(WithAddress(table, done, ip, false), k);
  }

  /** The nameserver's key, once for each family that lists the address. */
  function Families(n: NameServer, k: string, ip: string): seq<string> {
    (if ip in n.ipv4 then [k] else []) + (if ip in n.ipv6 then [k] else [])
  }

  lemma HitsGrow(table: map<string, NameServer>, some: set<string>, all: set<string>, ip: string)
    requires some <= all
    ensures Hits(table, some, ip) <= Hits(table, all, ip)
  {
    forall v4
      ensures WithAddress(table, some, ip, v4) <= WithAddress(table, all, ip, v4)
    {}
  }

  lemma FewerAreFewer(a: multiset<string>, b: multiset<string>)
    requires a <= b
    ensures |a| <= |b|
  {
    assert b == a + (b - a);
  }

  /** A nameserver is hit once for its IPv4 list and once for its IPv6 list. */
  lemma HitsCount(table: map<string, NameServer>, ip: string, k: string)
    ensures Hits(table, table.Keys, ip)[k]
            == if k in table then (if ip in table[k].ipv4 then 1 else 0) + (if ip in table[k].ipv6 then 1 else 0) else 0
  {}

  /** The results are the records under some of the hits, as many as there are up to the limit. */
  ghost predicate HitSelection(results: seq<NameServer>, table: map<string, NameServer>, hits: multiset<string>, limit: int) {
    |results| == Capped(limit, |hits|)
    && exists keys: seq<string> :: multiset(keys) <= hits && Taken(results, keys, table, table.Keys)
  }

  /** What has been taken when todo is still to be looked at and the limit is not reached. */
  ghost predicate HitProgress(results: seq<NameServer>, keys: seq<string>, table: map<string, NameServer>, todo: set<string>, ip: string, limit: int) {
    todo <= table.Keys && Taken(results, keys, table, table.Keys) && multiset(keys) == Hits(table, table.Keys - todo, ip)
    && (limit > 0 ==> |results| < limit)
  }

  function Listed(n: NameServer, addresses: seq<string>, ip: string): seq<NameServer> {
    if ip in addresses then [n] else []
  }

  // After the first address list of one more nameserver the results are complete if the limit is reached.
  lemma AfterIPv4(results: seq<NameServer>, keys: seq<string>, table: map<string, NameServer>, todo: set<string>, ip: string, limit: int, k: string)
    requires HitProgress(results, keys, table, todo, ip, limit) && k in todo
    ensures var more := results + Listed(table[k], table[k].ipv4, ip);
            limit > 0 && |more| >= limit ==> HitSelection(more, table, Hits(table, table.Keys, ip), limit)
  {
    var n, hits := table[k], Hits(table, table.Keys, ip);
    if ip in n.ipv4 {
      HitsOneMore(table, table.Keys - todo, k, ip);
      HitsGrow(table, table.Keys - todo + {k}, table.Keys, ip);
      assert multiset(keys + [k]) == multiset(keys) + multiset{k};
      assert multiset(Families(n, k, ip)) == multiset{k} + multiset(if ip in n.ipv6 then [k] else []);
      if limit > 0 && |results| + 1 >= limit {
        assert multiset(keys + [k]) <= hits;
        Complete(results + [n], keys + [k], table, hits, limit);
      }
    }
  }

  lemma BothKeys(keys: seq<string>, table: map<string, NameServer>, todo: set<string>, ip: string, k: string)
    requires todo <= table.Keys && k in todo && multiset(keys) == Hits(table, table.Keys - todo, ip)
    ensures multiset(keys + Families(table[k], k, ip)) == Hits(table, table.Keys - (todo - {k}), ip)
    ensures multiset(keys + Families(table[k], k, ip)) <= Hits(table, table.Keys, ip)
  {
    HitsOneMore(table, table.Keys - todo, k, ip);
    HitsGrow(table, table.Keys - todo + {k}, table.Keys, ip);
    assert table.Keys - (todo - {k}) == table.Keys - todo + {k};
  }

  lemma TakenBoth(results: seq<NameServer>, keys: seq<string>, table: map<string, NameServer>, ip: string, k: string)
    requires k in table && Taken(results, keys, table, table.Keys)
    ensures var n := table[k];
            Taken(results + Listed(n, n.ipv4, ip) + Listed(n, n.ipv6, ip), keys + Families(n, k, ip), table, table.Keys)
  {}

  lemma AfterBoth(results: seq<NameServer>, keys: seq<string>, table: map<string, NameServer>, todo: set<string>, ip: string, limit: int, k: string)
    requires HitProgress(results, keys, table, todo, ip, limit) && k in todo
    requires limit > 0 ==> |results| + |Listed(table[k], table[k].ipv4, ip)| < limit
    ensures var more := results + Listed(table[k], table[k].ipv4, ip) + Listed(table[k], table[k].ipv6, ip);
            if limit > 0 && |more| >= limit then HitSelection(more, table, Hits(table, table.Keys, ip), limit)
            else HitProgress(more, keys + Families(table[k], k, ip), table, todo - {k}, ip, limit)
  {
    var n, hits := table[k], Hits(table, table.Keys, ip);
    var more := results + Listed(n, n.ipv4, ip) + Listed(n, n.ipv6, ip);
    var moreKeys := keys + Families(n, k, ip);
    BothKeys(keys, table, todo, ip, k);
    TakenBoth(results, keys, table, ip, k);
    if limit > 0 && |more| >= limit {
      Complete(more, moreKeys, table, hits, limit);
    }
  }

  lemma Complete(results: seq<NameServer>, keys: seq<string>, table: map<string, NameServer>, hits: multiset<string>, limit: int)
    requires Taken(results, keys, table, table.Keys) && multiset(keys) <= hits
    requires if limit > 0 && multiset(keys) != hits then |results| == limit else limit > 0 ==> |results| <= limit
    requires limit <= 0 ==> multiset(keys) == hits
    ensures HitSelection(results, table, hits, limit)
  {
    if multiset(keys) == hits {
      assert |results| == |hits| by { assert |multiset(keys)| == |keys|; }
    }
    FewerAreFewer(multiset(keys), hits);
    assert |multiset(keys)| == |keys|;
  }

  /** Both address lists of every nameserver are tried, and the limit is checked after each. */
  method CollectByAddress(table: map<string, NameServer>, ip: string, limit: int) returns (results: seq<NameServer>)
    ensures HitSelection(results, table, Hits(table, table.Keys, ip), limit)
  {
    ghost var keys: seq<string> := [];
    results := [];
    var todo := table.Keys;
    while todo != {}
      invariant HitProgress(results, keys, table, todo, ip, limit)
    {
      var k :| k in todo;
      var n := table[k];
      ghost var before := results;
      AfterIPv4(results, keys, table, todo, ip, limit, k);
      if ip in n.ipv4 {
        results := results + [n];
      }
      assert results == before + Listed(n, n.ipv4, ip);
      if limit > 0 && |results| >= limit {
        return;
      }
      AfterBoth(before, keys, table, todo, ip, limit, k);
      if ip in n.ipv6 {
        results := results + [n];
      }
      assert results == before + Listed(n, n.ipv4, ip) + Listed(n, n.ipv6, ip);
      if limit > 0 && |results| >= limit {
        return;
      }
      keys := keys + Families(n, k, ip);
      todo := todo - {k};
    }
    assert table.Keys - {} == table.Keys;
    Complete(results, keys, table, Hits(table, table.Keys, ip), limit);
  }

  // ---------- domains by nameserver ----------

  /** The stored domains among the names, in order. */
  function Stored(domains: map<string, Domain>, names: seq<string>): seq<Domain> {
    if names == [] then []
    else Stored(domains, names[..|names| - 1])
         + (if names[|names| - 1] in domains then [domains[names[|names| - 1]]] else [])
  }

  lemma {:induction false} StoredPrefix(domains: map<string, Domain>, names: seq<string>, n: nat)
    requires n <= |names|
    ensures Stored(domains, names[..n]) <= Stored(domains, names)
  {
    if n < |names| {
      assert names[..|names| - 1][..n] == names[..n];
      StoredPrefix(domains, names[..|names| - 1], n);
    } else {
      assert names[..n] == names;
    }
  }

  /** The stored domains listed for a nameserver, up to the limit. */
  function ServedBy(domains: map<string, Domain>, domainByNS: map<string, seq<string>>, nsName: string, limit: int): seq<Domain> {
    var stored := Stored(domains, if Lower(nsName) in domainByNS then domainByNS[Lower(nsName)] else []);
    stored[..Capped(limit, |stored|)]
  }

  /** The stored domains of one list after another are those of both. */
  lemma {:induction false} StoredConcat(domains: map<string, Domain>, a: seq<string>, b: seq<string>)
    ensures Stored(domains, a + b) == Stored(domains, a) + Stored(domains, b)
  {
    if b == [] {
      assert a + b == a;
    } else {
      var s := a + b;
      assert s[..|s| - 1] == a + b[..|b| - 1] && s[|s| - 1] == b[|b| - 1];
      StoredConcat(domains, a, b[..|b| - 1]);
    }
  }

  lemma StoredOne(domains: map<string, Domain>)
    ensures forall n | n in domains :: Stored(domains, [n]) == [domains[n]]
    ensures forall n | n !in domains :: Stored(domains, [n]) == []
  {
    forall n
      ensures Stored(domains, [n]) == if n in domains then [domains[n]] else []
    {
      assert [n][..0] == [];
    }
  }

  /** A stored nameserver name without capitals is found in any case, with its list of domains. */
  lemma ServedByAnyCase(domains: map<string, Domain>, domainByNS: map<string, seq<string>>, nsName: string, key: string)
    requires NoCapitals(key) && SameLetters(nsName, key) && key in domainByNS
    ensures ServedBy(domains, domainByNS, nsName, 0) == Stored(domains, domainByNS[key])
    ensures forall limit: nat | limit > 0 ::
              ServedBy(domains, domainByNS, nsName, limit)
              == if limit < |Stored(domains, domainByNS[key])| then Stored(domains, domainByNS[key])[..limit] else Stored(domains, domainByNS[key])
  {
    LowerIsUncapitalised(nsName, key);
  }

  /** The stored aggregate of a name, looked up under its lowered form without a final dot. */
  function AggregateOf(domains: map<string, Domain>, t: Tables, name: string): Option<Aggregate> {
    var key := Lower(TrimDot(name));
    if key in domains then Some(ResolveInMemory(domains[key], t)) else None
  }

  // ---------- what the pattern searches answer ----------

  /** The search fails exactly when the expression does not compile, and otherwise selects the records it matches. */
  ghost predicate Answers<T>(r: Result<seq<T>, SearchError>, re: Option<Matcher>, table: map<string, T>, subject: T -> string, limit: int) {
    match re
    case None => r == Failure(InvalidPattern)
    case Some(matches) => r.Success? && Selection(r.value, table, Passing(table, (k, x: T) => matches(subject(x))), limit)
  }

  ghost predicate AnswersNameSearch(r: Result<seq<Domain>, SearchError>, compile: Compiler, domains: map<string, Domain>, pattern: string, limit: int) {
    Answers(r, compile(GlobText(DomainPattern(pattern))), domains, (d: Domain) => d.ldhName, limit)
  }

  ghost predicate AnswersContactSearch(r: Result<seq<Contact>, SearchError>, compile: Compiler, contacts: map<string, Contact>, pattern: string, limit: int) {
    Answers(r, compile(GlobText(Lower(pattern))), contacts, (c: Contact) => Lower(c.handle), limit)
  }

  ghost predicate AnswersNameserverSearch(r: Result<seq<NameServer>, SearchError>, compile: Compiler, nameservers: map<string, NameServer>,
                                          pattern: string, limit: int) {
    Answers(r, compile(GlobText(Lower(pattern))), nameservers, (n: NameServer) => n.ldhName, limit)
  }

  ghost predicate AnswersReverseSearch(r: Result<seq<Domain>, SearchError>, compile: Compiler, domains: map<string, Domain>,
                                       contacts: map<string, Contact>, property: string, pattern: string, limit: int) {
    match compile(GlobText(Lower(pattern)))
    case None => r == Failure(InvalidPattern)
    case Some(re) => r.Success? && Selection(r.value, domains, WithEntity(domains, contacts, property, re), limit)
  }

  /** The keys of the records whose subject is wanted. */
  function Matching<T>(table: map<string, T>, subject: T -> string, want: Matcher): set<string> {
    set k | k in table && want(subject(table[k]))
  }

  lemma AnswersAre<T>(r: Result<seq<T>, SearchError>, re: Option<Matcher>, table: map<string, T>, subject: T -> string, limit: int, want: Matcher)
    requires re.Some? && (forall s :: re.value(s) <==> want(s)) && Answers(r, re, table, subject, limit)
    ensures r.Success? && Selection(r.value, table, Matching(table, subject, want), limit)
  {
    var matches := re.value;
    assert Passing(table, (k, x: T) => matches(subject(x))) == Matching(table, subject, want);
  }

  lemma CompiledIs(compile: Compiler, p: string, s: string)
    requires Conforms(compile) && CompileGlob(p).Program?
    ensures compile(GlobText(p)).Some? && (compile(GlobText(p)).value(s) <==> GlobSelects(p, s))
  {
    assert ConformsOn(compile, GlobText(p));
  }

  /** With the library's compiler the search by name answers the domains that the dotted reading matches. */
  lemma NameSearchIsDotted(r: Result<seq<Domain>, SearchError>, compile: Compiler, domains: map<string, Domain>, pattern: string, limit: int)
    requires Conforms(compile) && RegexSafePattern(pattern) && AnswersNameSearch(r, compile, domains, pattern, limit)
    ensures r.Success?
    ensures Selection(r.value, domains, Matching(domains, (d: Domain) => d.ldhName, s => DottedMatches(Lower(pattern), s)), limit)
  {
    var p := DomainPattern(pattern);
    var re, want := compile(GlobText(p)), (s: string) => DottedMatches(Lower(pattern), s);
    DomainSearchLanguage(pattern, "");
    CompiledIs(compile, p, "");
    forall s: string
      ensures re.value(s) <==> want(s)
    {
      DomainSearchLanguage(pattern, s);
      CompiledIs(compile, p, s);
    }
    AnswersAre(r, re, domains, (d: Domain) => d.ldhName, limit, want);
  }

  /** Without '?', the other pattern searches answer the records whose subject the lowered glob matches. */
  lemma PatternSearchIsGlob<T>(r: Result<seq<T>, SearchError>, compile: Compiler, table: map<string, T>, subject: T -> string, pattern: string, limit: int)
    requires Conforms(compile) && RegexSafePattern(pattern) && '?' !in pattern
    requires Answers(r, compile(GlobText(Lower(pattern))), table, subject, limit)
    ensures r.Success?
    ensures Selection(r.value, table, Matching(table, subject, s => Glob.Matches(Lower(pattern), s, true)), limit)
  {
    var p := Lower(pattern);
    LowerKeeps(pattern);
    var re, want := compile(GlobText(p)), (s: string) => Glob.Matches(p, s, true);
    CompileGlobLanguage(p, "");
    CompiledIs(compile, p, "");
    forall s: string
      ensures re.value(s) <==> want(s)
    {
      CompileGlobLanguage(p, s);
      CompiledIs(compile, p, s);
    }
    AnswersAre(r, re, table, subject, limit, want);
  }

  /** The glob matches the subject, whatever the case of the letters in either. */
  ghost predicate MatchesAnyCase(p: string, s: string) {
    exists q, u :: NoCapitals(q) && NoCapitals(u) && SameLetters(p, q) && SameLetters(s, u) && Glob.Matches(q, u, true)
  }

  /** The glob matches the subject as it stands, its own letters lowered. */
  ghost predicate MatchesLowered(p: string, s: string) {
    exists q :: NoCapitals(q) && SameLetters(p, q) && Glob.Matches(q, s, true)
  }

  lemma AnyCaseIsLowered(p: string, s: string)
    ensures MatchesAnyCase(p, s) <==> Glob.Matches(Lower(p), Lower(s), true)
    ensures MatchesLowered(p, s) <==> Glob.Matches(Lower(p), s, true)
  {
    LowerIsUncapitalised(p, Lower(p));
    LowerIsUncapitalised(s, Lower(s));
    forall q, u | NoCapitals(q) && NoCapitals(u) && SameLetters(p, q) && SameLetters(s, u)
      ensures q == Lower(p) && u == Lower(s)
    {
      LowerIsUncapitalised(p, q);
      LowerIsUncapitalised(s, u);
    }
    forall q | NoCapitals(q) && SameLetters(p, q)
      ensures q == Lower(p)
    {
      LowerIsUncapitalised(p, q);
    }
  }

  /** Without '?', the contact search selects the contacts whose handle the pattern matches in any case. */
  lemma ContactSearchIsGlob(r: Result<seq<Contact>, SearchError>, compile: Compiler, contacts: map<string, Contact>, pattern: string, limit: int)
    requires Conforms(compile) && RegexSafePattern(pattern) && '?' !in pattern && AnswersContactSearch(r, compile, contacts, pattern, limit)
    ensures r.Success? && Selection(r.value, contacts, (set k | k in contacts && MatchesAnyCase(pattern, contacts[k].handle)), limit)
  {
    var subject := (c: Contact) => Lower(c.handle);
    PatternSearchIsGlob(r, compile, contacts, subject, pattern, limit);
    forall k | k in contacts {
      AnyCaseIsLowered(pattern, contacts[k].handle);
    }
    assert Matching(contacts, subject, s => Glob.Matches(Lower(pattern), s, true))
           == set k | k in contacts && MatchesAnyCase(pattern, contacts[k].handle);
  }

  /** Without '?', the nameserver search selects the nameservers whose name the lowered pattern matches. */
  lemma NameserverSearchIsGlob(r: Result<seq<NameServer>, SearchError>, compile: Compiler, nameservers: map<string, NameServer>, pattern: string, limit: int)
    requires Conforms(compile) && RegexSafePattern(pattern) && '?' !in pattern && AnswersNameserverSearch(r, compile, nameservers, pattern, limit)
    ensures r.Success? && Selection(r.value, nameservers, (set k | k in nameservers && MatchesLowered(pattern, nameservers[k].ldhName)), limit)
  {
    var subject := (n: NameServer) => n.ldhName;
    PatternSearchIsGlob(r, compile, nameservers, subject, pattern, limit);
    forall k | k in nameservers {
      AnyCaseIsLowered(pattern, nameservers[k].ldhName);
    }
    assert Matching(nameservers, subject, s => Glob.Matches(Lower(pattern), s, true))
           == set k | k in nameservers && MatchesLowered(pattern, nameservers[k].ldhName);
  }

  /** The texts that a reverse-search property looks at. */
  function Subjects(property: string, handle: string, c: Contact): seq<string> {
    match property
    case "handle" => [handle]
    case "role" => c.roles
    case "fn" => if c.vcard.Some? then [c.vcard.value.fullName] else []
    case "email" => if c.vcard.Some? then [c.vcard.value.email] else []
    case _ => []
  }

  ghost predicate SomeMatches(p: string, subjects: seq<string>) { exists i | 0 <= i < |subjects| :: MatchesAnyCase(p, subjects[i]) }

  lemma EntityMatchesIs(handle: string, c: Contact, property: string, re: Matcher, p: string)
    requires forall s :: re(Lower(s)) <==> MatchesAnyCase(p, s)
    ensures EntityMatches(handle, c, property, re) <==> SomeMatches(p, Subjects(property, handle, c))
  {
    var subjects := Subjects(property, handle, c);
    if EntityMatches(handle, c, property, re) {
      var i: nat :| i < |subjects| && re(Lower(subjects[i]));
      assert MatchesAnyCase(p, subjects[i]);
    }
    if SomeMatches(p, subjects) {
      var i :| 0 <= i < |subjects| && MatchesAnyCase(p, subjects[i]);
      assert re(Lower(subjects[i]));
    }
  }

  /** The domains with a linked, stored contact some subject of which the pattern matches in any case. */
  ghost function EntityHits(domains: map<string, Domain>, contacts: map<string, Contact>, property: string, p: string): set<string> {
    set k | k in domains && exists h | Linked(domains[k], h) :: h in contacts && SomeMatches(p, Subjects(property, h, contacts[h]))
  }

  /** Without '?', the reverse search selects exactly those domains. */
  lemma ReverseSearchIsGlob(r: Result<seq<Domain>, SearchError>, compile: Compiler, domains: map<string, Domain>, contacts: map<string, Contact>,
                            property: string, pattern: string, limit: int)
    requires Conforms(compile) && RegexSafePattern(pattern) && '?' !in pattern
    requires AnswersReverseSearch(r, compile, domains, contacts, property, pattern, limit)
    ensures r.Success? && Selection(r.value, domains, EntityHits(domains, contacts, property, pattern), limit)
  {
    var p := Lower(pattern);
    LowerKeeps(pattern);
    CompileGlobLanguage(p, "");
    CompiledIs(compile, p, "");
    var re := compile(GlobText(p)).value;
    forall s: string
      ensures re(Lower(s)) <==> MatchesAnyCase(pattern, s)
    {
      CompileGlobLanguage(p, Lower(s));
      CompiledIs(compile, p, Lower(s));
      AnyCaseIsLowered(pattern, s);
    }
    HitsAreEntities(domains, contacts, property, re, pattern);
  }

  lemma HitsAreEntities(domains: map<string, Domain>, contacts: map<string, Contact>, property: string, re: Matcher, p: string)
    requires forall s :: re(Lower(s)) <==> MatchesAnyCase(p, s)
    ensures WithEntity(domains, contacts, property, re) == EntityHits(domains, contacts, property, p)
  {
    forall k, h | k in domains
      ensures h in Wanted(domains[k]) <==> Linked(domains[k], h)
      ensures h in contacts ==> (EntityMatches(h, contacts[h], property, re) <==> SomeMatches(p, Subjects(property, h, contacts[h])))
    {
      WantedIsLinked(domains[k], h);
      if h in contacts {
        EntityMatchesIs(h, contacts[h], property, re, p);
      }
    }
  }

  /** No search minds the case of its pattern. */
  lemma PatternCaseIsIgnored(compile: Compiler, p: string, q: string)
    requires SameLetters(p, q)
    ensures compile(GlobText(DomainPattern(p))) == compile(GlobText(DomainPattern(q)))
    ensures compile(GlobText(Lower(p))) == compile(GlobText(Lower(q)))
  {
    LowerForgetsCase(p, q);
  }

  // ---------- what the handlers answer ----------

  datatype Answer<T> = NotImplemented | BadRequest | SearchFailed(error: SearchError) | Found(results: seq<T>)

  function ToAnswer<T>(r: Result<seq<T>, SearchError>): Answer<T> {
    match r
    case Success(results) => Found(results)
    case Failure(e) => SearchFailed(e)
  }

  /** The properties in the order in which the handler looks for them. */
  const ENTITY_PROPERTIES := ["handle", "role", "fn", "email"]

  /** A query parameter, empty when absent. */
  function Param(query: map<string, string>, name: string): string { if name in query then query[name] else "" }

  predicate Given(query: map<string, string>, name: string) { name in query && query[name] != "" }

  /** The property is the one, and the only one, that the query gives. */
  predicate OnlyProperty(query: map<string, string>, property: string) {
    var handle, role, fn, email := Given(query, "handle"), Given(query, "role"), Given(query, "fn"), Given(query, "email");
    match property
    case "handle" => handle && !role && !fn && !email
    case "role" => role && !handle && !fn && !email
    case "fn" => fn && !handle && !role && !email
    case "email" => email && !handle && !role && !fn
    case _ => false
  }

  lemma OnlyPropertyIs(query: map<string, string>, property: string)
    ensures OnlyProperty(query, property)
            <==> property in ENTITY_PROPERTIES && Param(query, property) != ""
                 && forall other | other in ENTITY_PROPERTIES && other != property :: Param(query, other) == ""
  {
    assert forall name :: Given(query, name) <==> Param(query, name) != "";
    assert ENTITY_PROPERTIES[0] == "handle" && ENTITY_PROPERTIES[1] == "role" && ENTITY_PROPERTIES[2] == "fn" && ENTITY_PROPERTIES[3] == "email";
  }

  /** The loop over the properties, collecting those that the query gives. */
  method PropertiesGiven(query: map<string, string>) returns (preds: seq<string>)
    ensures if |preds| == 1 then forall p :: OnlyProperty(query, p) <==> p == preds[0] else forall p :: !OnlyProperty(query, p)
  {
    preds := [];
    for i := 0 to 4
      invariant Distinct(preds)
      invariant forall p :: p in preds <==> p in ENTITY_PROPERTIES[..i] && Param(query, p) != ""
    {
      var p := ENTITY_PROPERTIES[i];
      assert ENTITY_PROPERTIES[..i + 1] == ENTITY_PROPERTIES[..i] + [p];
      assert p !in ENTITY_PROPERTIES[..i];
      if Param(query, p) != "" {
        preds := preds + [p];
      }
    }
    assert ENTITY_PROPERTIES[..4] == ENTITY_PROPERTIES;
    forall p
      ensures OnlyProperty(query, p) <==> preds == [p]
    {
      OnlyPropertyIs(query, p);
      assert forall q :: q in preds <==> q in ENTITY_PROPERTIES && Param(query, q) != "";
      OnlyOne(preds, p);
    }
  }

  lemma OnlyOne(preds: seq<string>, p: string)
    requires Distinct(preds)
    ensures preds == [p] <==> p in preds && forall q | q in preds :: q == p
  {
    if p in preds && forall q | q in preds :: q == p {
      forall j | 0 <= j < |preds|
        ensures preds[j] == p
      {
        assert preds[j] in preds;
      }
      if |preds| > 1 {
        assert preds[0] == preds[1];
      }
    }
  }

  class MemoryStore {
    var domains: map<string, Domain>
    var contacts: map<string, Contact>
    var nameservers: map<string, NameServer>
    var domainByNS: map<string, seq<string>>

    /** The whole read happens under one read lock, so these fields do not change meanwhile. */
    method GetDomainAggregate(name: string) returns (r: Option<Aggregate>)
      ensures r == AggregateOf(domains, Tables(contacts, nameservers), name)
    {
      var key := Lower(TrimDot(name));
      if key !in domains {
        return None;
      }
      var d := domains[key];
      var registrar := Get(contacts, d.registrar);
      var resolved: map<string, Contact> := map[];
      if registrar.Some? {
        resolved := resolved[d.registrar := registrar.value];
      }
      ghost var handles := {d.registrar};
      var roles := d.contacts.Keys;
      while roles != {}
        invariant roles <= d.contacts.Keys
        invariant handles == {d.registrar} + HandlesIn(d, d.contacts.Keys - roles)
        invariant resolved == Select(contacts, handles)
      {
        var role :| role in roles;
        var hs := d.contacts[role];
        ghost var before := handles;
        for i := 0 to |hs|
          invariant handles == before + set j | 0 <= j < i :: hs[j]
          invariant resolved == Select(contacts, handles)
        {
          SelectOneMore(contacts, handles, hs[i]);
          if hs[i] in contacts {
            resolved := resolved[hs[i] := contacts[hs[i]]];
          }
          handles := handles + {hs[i]};
        }
        HandlesInOneMore(d, d.contacts.Keys - roles, role);
        assert d.contacts.Keys - (roles - {role}) == d.contacts.Keys - roles + {role};
        roles := roles - {role};
      }
      assert handles == RoleHandles(d) + {d.registrar} by {
        assert d.contacts.Keys - {} == d.contacts.Keys;
      }
      var hosts := ResolveHosts(d);
      r := Some(Aggregate(d, registrar, resolved, hosts));
    }

    method ResolveHosts(d: Domain) returns (hosts: map<string, NameServer>)
      ensures hosts == Select(nameservers, NsHandles(d))
    {
      hosts := map[];
      for i := 0 to |d.nameservers|
        invariant hosts == Select(nameservers, set j | 0 <= j < i :: d.nameservers[j].handle)
      {
        var h := d.nameservers[i].handle;
        if h in nameservers {
          hosts := hosts[h := nameservers[h]];
        }
      }
    }

    method SearchDomainsByName(compile: Compiler, pattern: string, limit: int) returns (r: Result<seq<Domain>, SearchError>)
      ensures AnswersNameSearch(r, compile, domains, pattern, limit)
    {
      var re := compile(GlobText(DomainPattern(pattern)));
      if re.None? {
        return Failure(InvalidPattern);
      }
      var results := Collect(domains, (k, d: Domain) => re.value(d.ldhName), limit);
      assert Passing(domains, (k, d: Domain) => re.value(d.ldhName))
             == Passing(domains, (k, d: Domain) => re.value(((d: Domain) => d.ldhName)(d)));
      return Success(results);
    }

    /** Contacts are searched by handle whichever of the two contact searches is asked for. */
    method SearchContactsByName(compile: Compiler, pattern: string, limit: int) returns (r: Result<seq<Contact>, SearchError>)
      ensures AnswersContactSearch(r, compile, contacts, pattern, limit)
    {
      var re := compile(GlobText(Lower(pattern)));
      if re.None? {
        return Failure(InvalidPattern);
      }
      var results := Collect(contacts, (k, c: Contact) => re.value(Lower(c.handle)), limit);
      assert Passing(contacts, (k, c: Contact) => re.value(Lower(c.handle)))
             == Passing(contacts, (k, c: Contact) => re.value(((c: Contact) => Lower(c.handle))(c)));
      return Success(results);
    }

    method SearchNameserversByName(compile: Compiler, pattern: string, limit: int) returns (r: Result<seq<NameServer>, SearchError>)
      ensures AnswersNameserverSearch(r, compile, nameservers, pattern, limit)
    {
      var re := compile(GlobText(Lower(pattern)));
      if re.None? {
        return Failure(InvalidPattern);
      }
      var results := Collect(nameservers, (k, n: NameServer) => re.value(n.ldhName), limit);
      assert Passing(nameservers, (k, n: NameServer) => re.value(n.ldhName))
             == Passing(nameservers, (k, n: NameServer) => re.value(((n: NameServer) => n.ldhName)(n)));
      return Success(results);
    }

    method ReverseSearchDomainsByEntity(compile: Compiler, property: string, pattern: string, limit: int)
      returns (r: Result<seq<Domain>, SearchError>)
      ensures AnswersReverseSearch(r, compile, domains, contacts, property, pattern, limit)
    {
      var re := compile(GlobText(Lower(pattern)));
      if re.None? {
        return Failure(InvalidPattern);
      }
      var results := CollectWithEntity(domains, contacts, property, re.value, limit);
      return Success(results);
    }

    /** The names listed for the nameserver, in their order; a repeated name is returned repeatedly. */
    method SearchDomainsByNS(nsName: string, limit: int) returns (results: seq<Domain>)
      ensures results == ServedBy(domains, domainByNS, nsName, limit)
    {
      if Lower(nsName) !in domainByNS {
        return [];
      }
      var names := domainByNS[Lower(nsName)];
      results := [];
      for i := 0 to |names|
        invariant results == Stored(domains, names[..i])
        invariant limit > 0 ==> |results| < limit
      {
        assert names[..i + 1][..i] == names[..i];
        if names[i] in domains {
          results := results + [domains[names[i]]];
          if limit > 0 && |results| >= limit {
            StoredPrefix(domains, names, i + 1);
            return;
          }
        }
      }
      assert names[..|names|] == names;
    }

    method SearchNameserversByIP(ip: string, limit: int) returns (results: seq<NameServer>)
      ensures HitSelection(results, nameservers, Hits(nameservers, nameservers.Keys, ip), limit)
    {
      results := CollectByAddress(nameservers, ip, limit);
    }

    /** One of two patterns must be given; whatever limit is asked for, the answer stays within a positive configured maximum. */
    method HandleSearchDomains(compile: Compiler, namePattern: string, nsPattern: string, max: int, param: Option<int>) returns (a: Answer<Domain>)
      ensures a.BadRequest? <==> (namePattern != "" <==> nsPattern != "")
      ensures namePattern != "" && nsPattern == "" ==>
                exists r | AnswersNameSearch(r, compile, domains, namePattern, RequestLimit(max, param)) :: a == ToAnswer(r)
      ensures namePattern == "" && nsPattern != "" ==> a == Found(ServedBy(domains, domainByNS, nsPattern, RequestLimit(max, param)))
      ensures a.Found? && max > 0 ==> |a.results| <= max
    {
      var limit := ClampLimit(max, param);
      if namePattern != "" && nsPattern != "" {
        return BadRequest;
      }
      if namePattern != "" {
        var r := SearchDomainsByName(compile, namePattern, limit);
        return ToAnswer(r);
      } else if nsPattern != "" {
        var results := SearchDomainsByNS(nsPattern, limit);
        return Found(results);
      } else {
        return BadRequest;
      }
    }

    /** Exactly one property must be given, when the extension is enabled at all. */
    method HandleReverseSearch(enabled: bool, compile: Compiler, query: map<string, string>, max: int, param: Option<int>) returns (a: Answer<Domain>)
      ensures a.NotImplemented? <==> !enabled
      ensures a.BadRequest? <==> enabled && forall p :: !OnlyProperty(query, p)
      ensures forall p | enabled && OnlyProperty(query, p) ::
                exists r | AnswersReverseSearch(r, compile, domains, contacts, p, query[p], RequestLimit(max, param)) :: a == ToAnswer(r)
      ensures a.Found? && max > 0 ==> |a.results| <= max
    {
      if !enabled {
        return NotImplemented;
      }
      var limit := ClampLimit(max, param);
      var preds := PropertiesGiven(query);
      if |preds| == 0 {
        return BadRequest;
      }
      if |preds| > 1 {
        return BadRequest;
      }
      assert OnlyProperty(query, preds[0]);
      var r := ReverseSearchDomainsByEntity(compile, preds[0], Param(query, preds[0]), limit);
      a := ToAnswer(r);
    }

    method HandleSearchNameservers(compile: Compiler, namePattern: string, ip: string, max: int, param: Option<int>) returns (a: Answer<NameServer>)
      ensures a.BadRequest? <==> (namePattern != "" <==> ip != "")
      ensures namePattern != "" && ip == "" ==>
                exists r | AnswersNameserverSearch(r, compile, nameservers, namePattern, RequestLimit(max, param)) :: a == ToAnswer(r)
      ensures namePattern == "" && ip != "" ==>
                a.Found? && HitSelection(a.results, nameservers, Hits(nameservers, nameservers.Keys, ip), RequestLimit(max, param))
      ensures a.Found? && max > 0 ==> |a.results| <= max
    {
      var limit := ClampLimit(max, param);
      if namePattern != "" && ip != "" {
        return BadRequest;
      }
      if namePattern != "" {
        var r := SearchNameserversByName(compile, namePattern, limit);
        return ToAnswer(r);
      } else if ip != "" {
        var results := SearchNameserversByIP(ip, limit);
        return Found(results);
      } else {
        return BadRequest;
      }
    }
  }
}

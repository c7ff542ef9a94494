/**
 The fragment of Go's regular expressions that the stores' patterns reach: literals, escaped
 punctuation, '.', '^', '$', and the repetitions '*' and '?' with their lazy forms.
 */
module Regexp {
  import opened Wrappers

  datatype Atom = Literal(c: char) | AnyButNewline | BeginText | EndText

  datatype Times = Once | Star | Quest

  datatype Item = Item(atom: Atom, times: Times)

  /** OutsideFragment marks text whose meaning this model does not give. */
  datatype Parsed = Program(items: seq<Item>) | BadSyntax | OutsideFragment

  datatype AtomParsed = AtomAt(atom: Atom, length: nat) | NoAtom(why: Parsed)

  datatype TimesParsed = TimesAt(times: Times, length: nat) | NoTimes(why: Parsed)

  predicate IsAlphanumeric(c: char) { 'a' <= c <= 'z' || 'A' <= c <= 'Z' || '0' <= c <= '9' }

  function ParseAtom(t: string): (r: AtomParsed)
    requires t != ""
    ensures r.AtomAt? ==> 0 < r.length <= |t|
  {
    match t[0]
    case '.' => AtomAt(AnyButNewline, 1)
    case '^' => AtomAt(BeginText, 1)
    case '$' => AtomAt(EndText, 1)
    case '\\' =>
      if |t| == 1 then NoAtom(BadSyntax)
      else if IsAlphanumeric(t[1]) || t[1] as int >= 128 then NoAtom(OutsideFragment)
      else AtomAt(Literal(t[1]), 2)
    case '*' => NoAtom(BadSyntax)
    case '+' => NoAtom(BadSyntax)
    case '?' => NoAtom(BadSyntax)
    case '(' => NoAtom(OutsideFragment)
    case ')' => NoAtom(OutsideFragment)
    case '[' => NoAtom(OutsideFragment)
    case '|' => NoAtom(OutsideFragment)
    case '{' => NoAtom(OutsideFragment)
    case c => AtomAt(Literal(c), 1)
  }

  predicate StartsWith(t: string, c: char) { t != "" && t[0] == c }

  /** Reads the repetition after an atom, with its lazy mark; a repetition may not follow another. */
  function ParseTimes(t: string): (r: TimesParsed)
    ensures r.TimesAt? ==> r.length <= |t|
  {
    if StartsWith(t, '+') || StartsWith(t, '{') then NoTimes(OutsideFragment)
    else if StartsWith(t, '*') || StartsWith(t, '?') then
      var length := if StartsWith(t[1..], '?') then 2 else 1;
      var after := t[length..];
      if StartsWith(after, '*') || StartsWith(after, '+') || StartsWith(after, '?') then NoTimes(BadSyntax)
      else if StartsWith(after, '{') then NoTimes(OutsideFragment)
      else TimesAt(if t[0] == '*' then Star else Quest, length)
    else TimesAt(Once, 0)
  }

  function Parse(t: string): Parsed {
    if t == "" then Program([])
    else
      var a := ParseAtom(t);
      if a.NoAtom? then a.why
      else
        var n := ParseTimes(t[a.length..]);
        if n.NoTimes? then n.why
        else Prepend(Item(a.atom, n.times), Parse(t[a.length..][n.length..]))
  }

  lemma ParseUnfolds(t: string, atom: Atom, length: nat)
    requires t != "" && ParseAtom(t) == AtomAt(atom, length)
    ensures var n := ParseTimes(t[length..]);
            Parse(t) == if n.NoTimes? then n.why else Prepend(Item(atom, n.times), Parse(t[length..][n.length..]))
  {}

  function Prepend(item: Item, tail: Parsed): Parsed {
    match tail
    case Program(items) => Program([item] + items)
    case failed => failed
  }

  // ---------- what the items match ----------

  /** The atom matches the subject from i to k. */
  predicate MatchAtom(a: Atom, s: string, i: nat, k: nat)
    requires i <= k <= |s|
  {
    match a
    case Literal(c) => k == i + 1 && s[i] == c
    case AnyButNewline => k == i + 1 && s[i] != '\n'
    case BeginText => i == k == 0
    case EndText => i == k == |s|
  }

  predicate MatchStar(a: Atom, s: string, i: nat, k: nat)
    requires i <= k <= |s|
    decreases k - i
  {
    i == k || exists m | i < m <= k :: MatchAtom(a, s, i, m) && MatchStar(a, s, m, k)
  }

  predicate MatchItem(item: Item, s: string, i: nat, k: nat)
    requires i <= k <= |s|
  {
    match item.times
    case Once => MatchAtom(item.atom, s, i, k)
    case Quest => i == k || MatchAtom(item.atom, s, i, k)
    case Star => MatchStar(item.atom, s, i, k)
  }

  predicate MatchItems(items: seq<Item>, s: string, i: nat, j: nat)
    requires i <= j <= |s|
  {
    if |items| == 0 then i == j
    else exists k | i <= k <= j :: MatchItem(items[0], s, i, k) && MatchItems(items[1..], s, k, j)
  }

  /** Unanchored search: some stretch of the subject matches. */
  predicate MatchString(items: seq<Item>, s: string) {
    exists i | 0 <= i <= |s| :: MatchFrom(items, s, i)
  }

  predicate MatchFrom(items: seq<Item>, s: string, i: nat)
    requires i <= |s|
  {
    exists j | i <= j <= |s| :: MatchItems(items, s, i, j)
  }

  /** ".*" matches exactly the stretches without a line feed. */
  lemma {:induction false} AnyRun(s: string, i: nat, k: nat)
    requires i <= k <= |s|
    ensures MatchStar(AnyButNewline, s, i, k) <==> '\n' !in s[i..k]
    decreases k - i
  {
    if i < k {
      AnyRun(s, i + 1, k);
      assert s[i..k] == [s[i]] + s[i + 1..k];
      assert MatchAtom(AnyButNewline, s, i, i + 1) <==> s[i] != '\n';
    }
  }

  // ---------- the library's compiler ----------

  type Matcher = string -> bool

  /** The library's compiler, which knows more of the language than this model; None is its error. */
  type Compiler = string -> Option<Matcher>

  /** The compiler does to this fragment what the model says. */
  ghost predicate Conforms(compile: Compiler) {
    forall t: string :: ConformsOn(compile, t)
  }

  ghost predicate ConformsOn(compile: Compiler, t: string) {
    match Parse(t)
    case Program(items) => compile(t).Some? && forall s: string :: compile(t).value(s) == MatchString(items, s)
    case BadSyntax => compile(t).None?
    case OutsideFragment => true
  }

  /** Such compilers exist: the model itself is one. */
  lemma TheModelConforms()
    ensures Conforms(t => match Parse(t) case Program(items) => Some(s => MatchString(items, s)) case BadSyntax => None case OutsideFragment => None)
  {}
}

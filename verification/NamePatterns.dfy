/**
 The stores' translations of a search pattern: into a regular expression in the memory store and
 into LIKE in the SQL stores, with the languages that result.
 */
module NamePatterns {
  import opened Wrappers
  import opened Text
  import Glob
  import opened Regexp
  import SqlLike

  /** The expression text of the memory store: dots escaped, then stars widened. */
  function GlobText(p: string): string {
    "^" + ReplaceAll(ReplaceAll(p, '.', "\\."), '*', ".*") + "$"
  }

  function CompileGlob(p: string): Parsed { Parse(GlobText(p)) }

  function PatternToSQL(p: string): string {
    ReplaceAll(ReplaceAll(p, '*', "%"), '?', "_")
  }

  /** Characters that mean themselves in a regular expression, apart from '.', '*' and '?'. */
  predicate RegexSafe(c: char) {
    c != '\\' && c != '+' && c != '(' && c != ')' && c != '|' && c != '[' && c != '{' && c != '^' && c != '$'
  }

  /** Characters that mean themselves in LIKE. */
  predicate LikeSafe(c: char) { c != '\\' && c != '%' && c != '_' }

  predicate RegexSafePattern(p: string) { forall i | 0 <= i < |p| :: RegexSafe(p[i]) }

  predicate LikeSafePattern(p: string) { forall i | 0 <= i < |p| :: LikeSafe(p[i]) }

  // ---------- the text between the anchors, character by character ----------

  function Escape(c: char): string {
    if c == '.' then "\\." else if c == '*' then ".*" else [c]
  }

  function Body(p: string): string { ReplaceAll(ReplaceAll(p, '.', "\\."), '*', ".*") }

  lemma BodyStep(p: string)
    requires p != ""
    ensures Body(p) == Escape(p[0]) + Body(p[1..])
  {
    var head := if p[0] == '.' then "\\." else [p[0]];
    ReplaceAllConcat(head, ReplaceAll(p[1..], '.', "\\."), '*', ".*");
    assert p[0] == '.' ==> ReplaceAll(head, '*', ".*") == "\\." by {
      assert head[1..] == "." || p[0] != '.';
      assert ReplaceAll(".", '*', ".*") == ".";
    }
    assert p[0] != '.' ==> ReplaceAll(head, '*', ".*") == Escape(p[0]);
  }

  /** The item one pattern character becomes. */
  function ItemOf(c: char): Item {
    if c == '*' then Item(AnyButNewline, Star) else Item(Literal(c), Once)
  }

  function ItemsOf(p: string): seq<Item> {
    if p == "" then [Item(EndText, Once)] else [ItemOf(p[0])] + ItemsOf(p[1..])
  }

  function Tail(p: string): string { Body(p) + "$" }

  lemma MarkStep(p: string)
    requires StartsWith(p, '?')
    ensures Tail(p)[0] == '?' && Tail(p)[1..] == Tail(p[1..])
  {
    BodyStep(p);
  }

  lemma FirstOfBody(p: string)
    requires RegexSafePattern(p)
    ensures var t := Body(p) + "$";
            t != "" && t[0] != '*' && t[0] != '+' && t[0] != '{' && (t[0] == '?' <==> p != "" && p[0] == '?')
  {
    if p != "" {
      BodyStep(p);
    }
  }

  function DropMarks(p: string): (q: string)
    ensures q == "" || q[0] != '?'
    ensures |q| <= |p| && forall i | 0 <= i < |q| :: q[i] == p[|p| - |q| + i]
    ensures p == "" || p[0] != '?' ==> q == p
  {
    if p != "" && p[0] == '?' then DropMarks(p[1..]) else p
  }

  // The only repetition that the text after an atom can begin with is a mark of the pattern.
  predicate OnlyMarkFirst(p: string) {
    var t := Tail(p);
    StartsWith(t, '?') == StartsWith(p, '?') && !StartsWith(t, '*') && !StartsWith(t, '+') && !StartsWith(t, '{')
  }

  lemma AfterAtom(q: string)
    requires RegexSafePattern(q)
    ensures OnlyMarkFirst(q)
    ensures StartsWith(q, '?') ==> (Tail(q)[1..] == Tail(q[1..]) && OnlyMarkFirst(q[1..]))
    ensures StartsWith(q, '?') && StartsWith(q[1..], '?') ==> (Tail(q)[2..] == Tail(q[2..]) && OnlyMarkFirst(q[2..]))
  {
    FirstOfBody(q);
    if StartsWith(q, '?') {
      MarkStep(q);
      FirstOfBody(q[1..]);
      if StartsWith(q[1..], '?') {
        MarkStep(q[1..]);
        FirstOfBody(q[2..]);
        assert q[1..][1..] == q[2..];
      }
    }
  }

  // The marks at the start of q are the repetition read before its tail.
  lemma Marks(q: string)
    requires RegexSafePattern(q)
    ensures var n := ParseTimes(Tail(q));
            n.TimesAt? ==> n.times == (if StartsWith(q, '?') then Quest else Once) && Tail(q)[n.length..] == Tail(DropMarks(q))
    ensures !StartsWith(q, '?') ==> ParseTimes(Tail(q)) == TimesAt(Once, 0)
  {
    AfterAtom(q);
  }

  lemma StarMarks(q: string)
    requires RegexSafePattern(q)
    ensures var t := "*" + Tail(q);
            var n := ParseTimes(t);
            n.TimesAt? ==> n.times == Star && t[n.length..] == Tail(DropMarks(q))
    ensures !StartsWith(q, '?') ==> ParseTimes("*" + Tail(q)) == TimesAt(Star, 1)
  {
    AfterAtom(q);
    var t := "*" + Tail(q);
    assert t[1..] == Tail(q);
    assert StartsWith(q, '?') ==> t[2..] == Tail(q[1..]);
  }

  function TimesOf(p: string): Times
    requires p != ""
  {
    if p[0] == '*' then Star else if StartsWith(p[1..], '?') then Quest else Once
  }

  // The atom that one pattern character other than '?' is written as.
  lemma HeadAtom(p: string)
    requires RegexSafePattern(p) && p != "" && p[0] != '?'
    ensures var length := if p[0] == '.' then 2 else 1;
            ParseAtom(Tail(p)) == AtomAt(ItemOf(p[0]).atom, length)
            && Tail(p)[length..] == if p[0] == '*' then "*" + Tail(p[1..]) else Tail(p[1..])
  {
    assert Tail(p) == Escape(p[0]) + Tail(p[1..]) by {
      BodyStep(p);
    }
    EscapedAtom(p[0], Tail(p[1..]));
  }

  lemma EscapedAtom(c: char, rest: string)
    requires RegexSafe(c) && c != '?'
    ensures var t, length := Escape(c) + rest, if c == '.' then 2 else 1;
            ParseAtom(t) == AtomAt(ItemOf(c).atom, length)
            && t[length..] == if c == '*' then "*" + rest else rest
  {}

  // One pattern character and the '?' marks after it become one item, or the text has no meaning.
  lemma ParseHead(p: string)
    requires RegexSafePattern(p) && p != "" && p[0] != '?'
    ensures var after := Parse(Tail(DropMarks(p[1..])));
            Parse(Tail(p)) == Prepend(Item(ItemOf(p[0]).atom, TimesOf(p)), after) || !Parse(Tail(p)).Program?
    ensures !StartsWith(p[1..], '?') ==> Parse(Tail(p)) == Prepend(ItemOf(p[0]), Parse(Tail(p[1..])))
  {
    var t, q := Tail(p), p[1..];
    var length := if p[0] == '.' then 2 else 1;
    HeadAtom(p);
    ParseUnfolds(t, ItemOf(p[0]).atom, length);
    if p[0] == '*' {
      StarMarks(q);
    } else {
      Marks(q);
    }
  }

  lemma {:induction false} ParseBody(p: string)
    requires RegexSafePattern(p) && '?' !in p
    ensures Parse(Tail(p)) == Program(ItemsOf(p))
  {
    if p == "" {
      assert Tail(p) == "$" && Tail(p)[1..] == "";
    } else {
      ParseBody(p[1..]);
      ParseHead(p);
    }
  }

  lemma {:induction false} ItemsMatchGlob(p: string, s: string, i: nat, j: nat)
    requires '?' !in p && i <= j <= |s|
    ensures MatchItems(ItemsOf(p), s, i, j) <==> j == |s| && Glob.Matches(p, s[i..], true)
  {
    var items := ItemsOf(p);
    if p == "" {
      assert items[1..] == [];
      assert MatchItems(items[1..], s, j, j);
      assert MatchItem(items[0], s, i, j) <==> i == j == |s|;
    } else {
      assert items[1..] == ItemsOf(p[1..]);
      forall k | i <= k <= j
        ensures MatchItems(items[1..], s, k, j) <==> j == |s| && Glob.Matches(p[1..], s[k..], true)
      {
        ItemsMatchGlob(p[1..], s, k, j);
      }
      if p[0] == '*' {
        StarMatchesRun(p, s, i, j);
      } else if i < j {
        assert s[i..][1..] == s[i + 1..];
      }
    }
  }

  lemma StarMatchesRun(p: string, s: string, i: nat, j: nat)
    requires p != "" && p[0] == '*' && i <= j <= |s|
    requires forall k | i <= k <= j :: MatchItems(ItemsOf(p[1..]), s, k, j) <==> j == |s| && Glob.Matches(p[1..], s[k..], true)
    ensures MatchItems(ItemsOf(p), s, i, j) <==> j == |s| && Glob.Matches(p, s[i..], true)
  {
    var items := ItemsOf(p);
    assert items[1..] == ItemsOf(p[1..]);
    forall k | i <= k <= j
      ensures MatchItem(items[0], s, i, k) <==> '\n' !in s[i..][..k - i]
      ensures s[k..] == s[i..][k - i..]
    {
      AnyRun(s, i, k);
      assert s[i..k] == s[i..][..k - i];
    }
    if j == |s| && Glob.Matches(p, s[i..], true) {
      var k :| 0 <= k <= |s[i..]| && '\n' !in s[i..][..k] && Glob.Matches(p[1..], s[i..][k..], true);
      assert MatchItem(items[0], s, i, i + k);
    }
    if MatchItems(items, s, i, j) {
      var k :| i <= k <= j && MatchItem(items[0], s, i, k) && MatchItems(items[1..], s, k, j);
      assert Glob.Matches(p[1..], s[i..][k - i..], true);
    }
  }

  /** Leading '?' marks follow the '^' anchor, so none may start the pattern here. */
  lemma Anchored(tail: seq<Item>, s: string)
    ensures MatchString([Item(BeginText, Once)] + tail, s) <==> exists j | 0 <= j <= |s| :: MatchItems(tail, s, 0, j)
  {
    var items := [Item(BeginText, Once)] + tail;
    assert items[1..] == tail;
    if MatchString(items, s) {
      var i :| 0 <= i <= |s| && MatchFrom(items, s, i);
      var j :| i <= j <= |s| && MatchItems(items, s, i, j);
      var k :| i <= k <= j && MatchItem(items[0], s, i, k) && MatchItems(items[1..], s, k, j);
    }
    if j :| 0 <= j <= |s| && MatchItems(tail, s, 0, j) {
      assert MatchItem(items[0], s, 0, 0) && MatchItems(items[1..], s, 0, j);
      assert MatchItems(items, s, 0, j);
      assert MatchFrom(items, s, 0);
    }
  }

  lemma CompiledItems(p: string)
    requires RegexSafePattern(p) && '?' !in p
    ensures CompileGlob(p) == Program([Item(BeginText, Once)] + ItemsOf(p))
  {
    ParseBody(p);
    Marks(p);
    assert !StartsWith(p, '?');
    ParseAnchored(p);
    assert Tail(p)[0..] == Tail(p);
  }

  lemma AnchorText(p: string)
    ensures GlobText(p) != "" && GlobText(p)[1..] == Tail(p) && ParseAtom(GlobText(p)) == AtomAt(BeginText, 1)
  {
    assert GlobText(p) == "^" + Tail(p);
  }

  // The expression is the anchor, with the repetition that follows it, and then the rest.
  lemma ParseAnchored(p: string)
    ensures var n := ParseTimes(Tail(p));
            CompileGlob(p) == if n.NoTimes? then n.why else Prepend(Item(BeginText, n.times), Parse(Tail(p)[n.length..]))
  {
    AnchorText(p);
    ParseUnfolds(GlobText(p), BeginText, 1);
  }

  /** Without '?', the compiled expression matches exactly the pattern's language, runs staying on one line. */
  lemma CompileGlobLanguage(p: string, s: string)
    requires RegexSafePattern(p) && '?' !in p
    ensures CompileGlob(p).Program?
    ensures MatchString(CompileGlob(p).items, s) <==> Glob.Matches(p, s, true)
  {
    CompiledItems(p);
    Anchored(ItemsOf(p), s);
    forall j | 0 <= j <= |s|
      ensures MatchItems(ItemsOf(p), s, 0, j) <==> j == |s| && Glob.Matches(p, s, true)
    {
      ItemsMatchGlob(p, s, 0, j);
      assert s[0..] == s;
    }
    assert MatchItems(ItemsOf(p), s, 0, |s|) <==> Glob.Matches(p, s, true);
  }

  // ---------- '?' in a pattern given to compileGlob ----------

  /** What is left of a pattern when every character that '?' makes optional, and every run, is empty. */
  function Shortest(p: string): string
    requires p == "" || p[0] != '?'
    decreases |p|
  {
    if p == "" then ""
    else if p[0] == '*' || StartsWith(p[1..], '?') then Shortest(DropMarks(p[1..]))
    else [p[0]] + Shortest(p[1..])
  }

  lemma {:induction false} ShortestMatches(p: string, s: string, i: nat)
    requires RegexSafePattern(p) && (p == "" || p[0] != '?') && Parse(Tail(p)).Program?
    requires i <= |s| && s[i..] == Shortest(p)
    ensures MatchItems(Parse(Tail(p)).items, s, i, |s|)
    decreases |p|
  {
    var items := Parse(Tail(p)).items;
    if p == "" {
      ParseBody(p);
      assert MatchItems(items[1..], s, i, |s|);
      assert MatchItem(items[0], s, i, i);
    } else {
      ParseHead(p);
      var q := DropMarks(p[1..]);
      var rest := Parse(Tail(q)).items;
      var next := if TimesOf(p).Once? then i + 1 else i;
      ShortestStep(p, s, i);
      ShortestMatches(q, s, next);
      FirstThenRest(Item(ItemOf(p[0]).atom, TimesOf(p)), rest, s, i, next);
    }
  }

  // The first item takes one character of the shortest reading, or none.
  lemma ShortestStep(p: string, s: string, i: nat)
    requires p != "" && p[0] != '?' && i <= |s| && s[i..] == Shortest(p)
    ensures var next := if TimesOf(p).Once? then i + 1 else i;
            next <= |s| && s[next..] == Shortest(DropMarks(p[1..]))
            && MatchItem(Item(ItemOf(p[0]).atom, TimesOf(p)), s, i, next)
  {
    if TimesOf(p).Once? {
      assert s[i + 1..] == s[i..][1..];
    }
  }

  lemma FirstThenRest(first: Item, rest: seq<Item>, s: string, i: nat, next: nat)
    requires i <= next <= |s| && MatchItem(first, s, i, next) && MatchItems(rest, s, next, |s|)
    ensures MatchItems([first] + rest, s, i, |s|)
  {
    var items := [first] + rest;
    assert items[0] == first && items[1..] == rest;
  }

  /** Whenever a pattern compiles, it matches its shortest reading. */
  lemma CompiledMatchesShortest(p: string)
    requires RegexSafePattern(p) && CompileGlob(p).Program?
    ensures MatchString(CompileGlob(p).items, Shortest(DropMarks(p)))
  {
    var q := DropMarks(p);
    var s := Shortest(q);
    var first := Item(BeginText, if StartsWith(p, '?') then Quest else Once);
    AnchorStep(p);
    assert s[0..] == s;
    ShortestMatches(q, s, 0);
    FirstThenRest(first, Parse(Tail(q)).items, s, 0, 0);
    assert MatchFrom(CompileGlob(p).items, s, 0);
  }

  // Marks at the start of the pattern fall on the anchor.
  lemma AnchorStep(p: string)
    requires RegexSafePattern(p) && CompileGlob(p).Program?
    ensures Parse(Tail(DropMarks(p))).Program?
    ensures CompileGlob(p).items
            == [Item(BeginText, if StartsWith(p, '?') then Quest else Once)] + Parse(Tail(DropMarks(p))).items
  {
    ParseAnchored(p);
    Marks(p);
  }

  lemma {:induction false} ShortestIsShort(p: string)
    requires p == "" || p[0] != '?'
    ensures |Shortest(p)| <= Glob.Fixed(p)
    ensures '?' in p ==> |Shortest(p)| < Glob.Fixed(p)
    decreases |p|
  {
    if p != "" {
      var q := DropMarks(p[1..]);
      ShortestIsShort(q);
      DropMarksFixed(p[1..]);
      assert '?' in p ==> '?' in p[1..];
    }
  }

  lemma {:induction false} ShortestIsOneLine(p: string)
    requires (p == "" || p[0] != '?') && '\n' !in p
    ensures '\n' !in Shortest(p)
    decreases |p|
  {
    if p != "" {
      ShortestIsOneLine(DropMarks(p[1..]));
    }
  }

  lemma {:induction false} DropMarksFixed(p: string)
    ensures Glob.Fixed(DropMarks(p)) <= Glob.Fixed(p)
    ensures StartsWith(p, '?') ==> Glob.Fixed(DropMarks(p)) < Glob.Fixed(p)
  {
    if StartsWith(p, '?') {
      var tail := p[1..];
      DropMarksFixed(tail);
      assert DropMarks(p) == DropMarks(tail) && Glob.Fixed(p) == 1 + Glob.Fixed(tail);
    }
  }

  /** The memory store selects a subject: the pattern compiles and the expression matches. */
  predicate GlobSelects(p: string, s: string) {
    CompileGlob(p).Program? && MatchString(CompileGlob(p).items, s)
  }

  predicate Lowered(s: string) { forall i | 0 <= i < |s| :: LowerChar(s[i]) == s[i] }

  lemma {:induction false} ShortestIsLowered(p: string)
    requires (p == "" || p[0] != '?') && Lowered(p)
    ensures Lowered(Shortest(p))
    decreases |p|
  {
    if p != "" {
      ShortestIsLowered(DropMarks(p[1..]));
    }
  }

  /** The pattern with every run empty and every '?' an 'a'. */
  function Sample(p: string): string {
    if p == "" then "" else (if p[0] == '*' then "" else if p[0] == '?' then "a" else [p[0]]) + Sample(p[1..])
  }

  lemma {:induction false} SampleMatches(p: string)
    requires '\n' !in p
    ensures Glob.Matches(p, Sample(p), false) && '\n' !in Sample(p)
  {
    if p != "" {
      SampleMatches(p[1..]);
      var s := Sample(p);
      assert s[0..] == s;
      if p[0] != '*' {
        assert s[1..] == Sample(p[1..]);
      }
      assert p == [p[0]] + p[1..];
    }
  }

  lemma {:induction false} SampleIsLowered(p: string)
    requires Lowered(p)
    ensures Lowered(Sample(p))
  {
    if p != "" {
      SampleIsLowered(p[1..]);
    }
  }

  /** A subject on which a pattern with '?' is not read as a glob; it is in lower case if the pattern is. */
  lemma MarksAreMissed(p: string) returns (s: string)
    requires RegexSafePattern(p) && '\n' !in p && '?' in p
    ensures '\n' !in s && (Lowered(p) ==> Lowered(s))
    ensures GlobSelects(p, s) != Glob.Matches(p, s, false)
  {
    if CompileGlob(p).Program? {
      var q := DropMarks(p);
      s := Shortest(q);
      CompiledMatchesShortest(p);
      ShortestIsShort(q);
      ShortestIsOneLine(q);
      DropMarksFixed(p);
      if Lowered(p) {
        ShortestIsLowered(q);
      }
      if Glob.Matches(p, s, false) {
        Glob.MatchIsLongEnough(p, s, false);
      }
    } else {
      s := Sample(p);
      SampleMatches(p);
      if Lowered(p) {
        SampleIsLowered(p);
      }
    }
  }

  /** compileGlob reads a pattern as a glob, '?' included, exactly when the pattern has no '?'. */
  lemma CompileGlobHonoursMarksIff(p: string)
    requires RegexSafePattern(p) && '\n' !in p
    ensures (forall s :: '\n' !in s ==> (GlobSelects(p, s) <==> Glob.Matches(p, s, false))) <==> '?' !in p
  {
    if '?' !in p {
      forall s | '\n' !in s
        ensures GlobSelects(p, s) <==> Glob.Matches(p, s, false)
      {
        CompileGlobLanguage(p, s);
        Glob.OneLine(p, s);
      }
    } else {
      var s := MarksAreMissed(p);
    }
  }

  // ---------- the SQL stores ----------

  function TokenOf(c: char): SqlLike.Token {
    if c == '*' then SqlLike.AnyRun else if c == '?' then SqlLike.AnyOne else SqlLike.Exactly(c)
  }

  function TokensOf(p: string): seq<SqlLike.Token> {
    if p == "" then [] else [TokenOf(p[0])] + TokensOf(p[1..])
  }

  lemma {:induction false} PatternToSQLTokens(p: string)
    requires LikeSafePattern(p)
    ensures SqlLike.Tokens(PatternToSQL(p)) == Some(TokensOf(p))
  {
    if p != "" {
      PatternToSQLTokens(p[1..]);
      var c := if p[0] == '*' then '%' else if p[0] == '?' then '_' else p[0];
      var q := PatternToSQL(p);
      assert q == [c] + PatternToSQL(p[1..]);
      assert q[1..] == PatternToSQL(p[1..]);
    }
  }

  lemma {:induction false} TokensMatchGlob(p: string, s: string)
    ensures SqlLike.MatchTokens(TokensOf(p), s) <==> Glob.Matches(p, s, false)
  {
    if p != "" {
      var ts := TokensOf(p);
      assert ts[0] == TokenOf(p[0]) && ts[1..] == TokensOf(p[1..]);
      forall k | 0 <= k <= |s|
        ensures SqlLike.MatchTokens(ts[1..], s[k..]) <==> Glob.Matches(p[1..], s[k..], false)
      {
        TokensMatchGlob(p[1..], s[k..]);
      }
      if p[0] == '*' && Glob.Matches(p, s, false) {
        var k :| 0 <= k <= |s| && Glob.Matches(p[1..], s[k..], false);
        assert SqlLike.MatchTokens(ts[1..], s[k..]);
      }
    }
  }

  /** LIKE on the translated pattern matches exactly the pattern's language. */
  lemma LikeLanguage(p: string, s: string)
    requires LikeSafePattern(p)
    ensures SqlLike.Like(s, PatternToSQL(p)) <==> Glob.Matches(p, s, false)
  {
    PatternToSQLTokens(p);
    TokensMatchGlob(p, s);
  }

  // ---------- memory store against SQL stores ----------

  /** The two kinds of store select the same one-line subjects exactly when the pattern has no '?'. */
  lemma StoresAgreeIff(p: string)
    requires RegexSafePattern(p) && LikeSafePattern(p) && '\n' !in p
    ensures (forall s :: '\n' !in s ==> (GlobSelects(p, s) <==> SqlLike.Like(s, PatternToSQL(p)))) <==> '?' !in p
  {
    forall s
      ensures SqlLike.Like(s, PatternToSQL(p)) <==> Glob.Matches(p, s, false)
    {
      LikeLanguage(p, s);
    }
    CompileGlobHonoursMarksIff(p);
  }

  /** PostgreSQL's ILIKE, which folds case on both sides. */
  predicate ILike(s: string, p: string) { SqlLike.Like(Lower(s), Lower(p)) }

  /** Both handle searches take the handle or both leave it. */
  predicate HandleSearchesConcur(p: string, handle: string) {
    GlobSelects(Lower(p), Lower(handle)) <==> ILike(handle, PatternToSQL(p))
  }

  lemma ILikeLanguage(p: string, handle: string)
    requires LikeSafePattern(p)
    ensures ILike(handle, PatternToSQL(p)) <==> Glob.Matches(Lower(p), Lower(handle), false)
  {
    LowerKeeps(p);
    LowerCommutes(p);
    LikeLanguage(Lower(p), Lower(handle));
  }

  /** Contact-handle search folds case in both kinds of store; they select the same handles exactly when the pattern has no '?'. */
  lemma HandleSearchesAgreeIff(p: string)
    requires RegexSafePattern(p) && LikeSafePattern(p) && '\n' !in p
    ensures (forall handle :: '\n' !in handle ==> HandleSearchesConcur(p, handle)) <==> '?' !in p
  {
    var q := Lower(p);
    LowerKeeps(p);
    if '?' !in p {
      forall handle | '\n' !in handle
        ensures HandleSearchesConcur(p, handle)
      {
        LowerKeeps(handle);
        ILikeLanguage(p, handle);
        CompileGlobLanguage(q, Lower(handle));
        Glob.OneLine(q, Lower(handle));
      }
    } else {
      var handle := MarksAreMissed(q);
      assert Lower(handle) == handle;
      ILikeLanguage(p, handle);
      assert !HandleSearchesConcur(p, handle);
    }
  }

  lemma LowerKeeps(p: string)
    ensures RegexSafePattern(p) ==> RegexSafePattern(Lower(p))
    ensures LikeSafePattern(p) ==> LikeSafePattern(Lower(p))
    ensures '?' in Lower(p) <==> '?' in p
    ensures '*' in Lower(p) <==> '*' in p
    ensures '\n' in Lower(p) <==> '\n' in p
  {
    var q := Lower(p);
    forall c | c == '?' || c == '*' || c == '\n'
      ensures c in q <==> c in p
    {
      if i :| 0 <= i < |p| && p[i] == c {
        assert q[i] == c;
      }
    }
  }

  lemma {:induction false} LowerCommutes(p: string)
    ensures Lower(PatternToSQL(p)) == PatternToSQL(Lower(p))
  {
    if p != "" {
      LowerCommutes(p[1..]);
      var c := if p[0] == '*' then '%' else if p[0] == '?' then '_' else p[0];
      assert PatternToSQL(p) == [c] + PatternToSQL(p[1..]);
      assert Lower(p)[1..] == Lower(p[1..]);
      assert PatternToSQL(Lower(p)) == [LowerChar(c)] + PatternToSQL(Lower(p[1..]));
    }
  }

  // ---------- domain-name search in the memory store ----------

  /** The rewriting SearchDomainsByName does before compileGlob rewrites the pattern again. */
  function DomainPattern(p: string): string {
    ReplaceAll(ReplaceAll(Lower(p), '*', ".*"), '?', ".")
  }

  /** What the twice-rewritten pattern asks for: '*' is a dot and then any run, '?' is a dot. */
  predicate DottedMatches(p: string, s: string) {
    if p == "" then s == ""
    else if p[0] == '*' then
      s != "" && s[0] == '.' && exists k | 0 <= k <= |s| - 1 :: '\n' !in s[1..][..k] && DottedMatches(p[1..], s[1..][k..])
    else
      s != "" && s[0] == (if p[0] == '?' then '.' else p[0]) && DottedMatches(p[1..], s[1..])
  }

  lemma {:induction false} RewriteOnce(p: string)
    ensures p != "" ==> ReplaceAll(ReplaceAll(p, '*', ".*"), '?', ".")
                        == (if p[0] == '*' then ".*" else if p[0] == '?' then "." else [p[0]])
                           + ReplaceAll(ReplaceAll(p[1..], '*', ".*"), '?', ".")
  {
    if p != "" {
      var head := if p[0] == '*' then ".*" else [p[0]];
      ReplaceAllConcat(head, ReplaceAll(p[1..], '*', ".*"), '?', ".");
      assert p[0] == '*' ==> head[1..] == "*" && ReplaceAll("*", '?', ".") == "*";
    }
  }

  lemma {:induction false} RewrittenMatches(p: string, s: string)
    ensures Glob.Matches(ReplaceAll(ReplaceAll(p, '*', ".*"), '?', "."), s, true) <==> DottedMatches(p, s)
  {
    var q := ReplaceAll(ReplaceAll(p, '*', ".*"), '?', ".");
    if p != "" {
      RewriteOnce(p);
      var rest := ReplaceAll(ReplaceAll(p[1..], '*', ".*"), '?', ".");
      if p[0] == '*' {
        assert q[1..] == "*" + rest && q[1..][1..] == rest;
        if s != "" {
          forall k | 0 <= k <= |s| - 1
            ensures Glob.Matches(rest, s[1..][k..], true) <==> DottedMatches(p[1..], s[1..][k..])
          {
            RewrittenMatches(p[1..], s[1..][k..]);
          }
        }
      } else {
        assert q[1..] == rest;
        if s != "" {
          RewrittenMatches(p[1..], s[1..]);
        }
      }
    }
  }

  lemma {:induction false} RewrittenIsSafe(p: string)
    requires RegexSafePattern(p)
    ensures var q := ReplaceAll(ReplaceAll(p, '*', ".*"), '?', "."); RegexSafePattern(q) && '?' !in q
  {
    if p != "" {
      RewriteOnce(p);
      RewrittenIsSafe(p[1..]);
    }
  }

  /** The double translation always compiles and matches exactly the dotted reading of the lowered pattern. */
  lemma DomainSearchLanguage(p: string, s: string)
    requires RegexSafePattern(p)
    ensures CompileGlob(DomainPattern(p)).Program?
    ensures GlobSelects(DomainPattern(p), s) <==> DottedMatches(Lower(p), s)
  {
    LowerKeeps(p);
    RewrittenIsSafe(Lower(p));
    RewrittenMatches(Lower(p), s);
    CompileGlobLanguage(DomainPattern(p), s);
  }

  lemma {:induction false} DottedIsGlob(p: string, s: string)
    requires DottedMatches(p, s)
    ensures Glob.Matches(p, s, false)
  {
    if p != "" {
      if p[0] == '*' {
        var k :| 0 <= k <= |s| - 1 && DottedMatches(p[1..], s[1..][k..]);
        DottedIsGlob(p[1..], s[1..][k..]);
        assert s[k + 1..] == s[1..][k..];
      } else {
        DottedIsGlob(p[1..], s[1..]);
      }
    }
  }

  /** Whatever the memory store finds by domain name, LIKE on the lowered pattern finds. */
  lemma DomainSearchFindsNoMore(p: string, s: string)
    requires RegexSafePattern(p) && LikeSafePattern(p)
    ensures GlobSelects(DomainPattern(p), s) ==> SqlLike.Like(s, PatternToSQL(Lower(p)))
  {
    LowerKeeps(p);
    DomainSearchLanguage(p, s);
    LikeLanguage(Lower(p), s);
    if DottedMatches(Lower(p), s) {
      DottedIsGlob(Lower(p), s);
    }
  }

  function Count(s: string, dotsOnly: bool): nat {
    if s == "" then 0
    else (if s[0] == '.' || (!dotsOnly && (s[0] == '*' || s[0] == '?')) then 1 else 0) + Count(s[1..], dotsOnly)
  }

  lemma {:induction false} CountSuffix(s: string, k: nat)
    requires k <= |s|
    ensures Count(s[k..], true) <= Count(s, true)
  {
    if k > 0 {
      CountSuffix(s[1..], k - 1);
      assert s[1..][k - 1..] == s[k..];
    }
  }

  // A dotted match needs one dot for every dot and every wildcard of the pattern.
  lemma {:induction false} DottedNeedsDots(p: string, s: string)
    requires DottedMatches(p, s)
    ensures Count(s, true) >= Count(p, false)
  {
    if p != "" {
      if p[0] == '*' {
        var k :| 0 <= k <= |s| - 1 && DottedMatches(p[1..], s[1..][k..]);
        DottedNeedsDots(p[1..], s[1..][k..]);
        CountSuffix(s[1..], k);
      } else {
        DottedNeedsDots(p[1..], s[1..]);
      }
    }
  }

  lemma {:induction false} SampleHasFewerDots(p: string)
    ensures Count(Sample(p), true) <= Count(p, false)
    ensures '*' in p || '?' in p ==> Count(Sample(p), true) < Count(p, false)
  {
    if p != "" {
      SampleHasFewerDots(p[1..]);
      if p[0] == '*' {
        assert Sample(p) == Sample(p[1..]);
      } else {
        assert Sample(p)[1..] == Sample(p[1..]);
      }
      assert p == [p[0]] + p[1..];
    }
  }

  lemma {:induction false} NoWildcards(p: string, s: string)
    requires '*' !in p && '?' !in p
    ensures DottedMatches(p, s) <==> Glob.Matches(p, s, false)
  {
    if p != "" && s != "" {
      NoWildcards(p[1..], s[1..]);
    }
  }

  /** The memory store's domain-name search finds what LIKE finds exactly when the pattern has no wildcard. */
  lemma DomainSearchesAgreeIff(p: string)
    requires RegexSafePattern(p) && LikeSafePattern(p) && '\n' !in p
    ensures (forall s :: '\n' !in s ==> (GlobSelects(DomainPattern(p), s) <==> SqlLike.Like(s, PatternToSQL(Lower(p)))))
            <==> '*' !in p && '?' !in p
  {
    var q := Lower(p);
    LowerKeeps(p);
    forall s
      ensures GlobSelects(DomainPattern(p), s) <==> DottedMatches(q, s)
      ensures SqlLike.Like(s, PatternToSQL(q)) <==> Glob.Matches(q, s, false)
    {
      DomainSearchLanguage(p, s);
      LikeLanguage(q, s);
    }
    if '*' !in p && '?' !in p {
      forall s
        ensures DottedMatches(q, s) <==> Glob.Matches(q, s, false)
      {
        NoWildcards(q, s);
      }
    } else {
      SampleMatches(q);
      SampleHasFewerDots(q);
      var s := Sample(q);
      if DottedMatches(q, s) {
        DottedNeedsDots(q, s);
      }
      assert !DottedMatches(q, s);
    }
  }
}

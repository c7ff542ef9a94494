/** Wildcard patterns: '*' stands for any run of characters and '?' for any one character. */
module Glob {

  /** With lines set, a run or a single character may not include a line feed. */
  predicate Matches(p: string, s: string, lines: bool) {
    if p == "" then s == ""
    else if p[0] == '*' then exists k | 0 <= k <= |s| :: (lines ==> '\n' !in s[..k]) && Matches(p[1..], s[k..], lines)
    else if p[0] == '?' then s != "" && (lines ==> s[0] != '\n') && Matches(p[1..], s[1..], lines)
    else s != "" && s[0] == p[0] && Matches(p[1..], s[1..], lines)
  }

  /** On one line of text the two readings coincide. */
  lemma {:induction false} OneLine(p: string, s: string)
    requires '\n' !in s
    ensures Matches(p, s, true) <==> Matches(p, s, false)
  {
    if p != "" {
      if p[0] == '*' {
        forall k | 0 <= k <= |s|
          ensures Matches(p[1..], s[k..], true) <==> Matches(p[1..], s[k..], false)
        {
          OneLine(p[1..], s[k..]);
        }
        assert forall k | 0 <= k <= |s| :: '\n' !in s[..k];
      } else if s != "" {
        OneLine(p[1..], s[1..]);
      }
    }
  }

  /** How many characters every match must have at least. */
  function Fixed(p: string): nat {
    if p == "" then 0 else (if p[0] == '*' then 0 else 1) + Fixed(p[1..])
  }

  lemma {:induction false} MatchIsLongEnough(p: string, s: string, lines: bool)
    requires Matches(p, s, lines)
    ensures |s| >= Fixed(p)
  {
    if p != "" {
      if p[0] == '*' {
        var k :| 0 <= k <= |s| && Matches(p[1..], s[k..], lines);
        MatchIsLongEnough(p[1..], s[k..], lines);
      } else {
        MatchIsLongEnough(p[1..], s[1..], lines);
      }
    }
  }
}

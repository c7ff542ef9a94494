/** SQL LIKE patterns with the default escape character. */
module SqlLike {
  import opened Wrappers

  datatype Token = AnyRun | AnyOne | Exactly(c: char)

  /** None when the pattern ends in the escape character, which the database rejects. */
  function Tokens(p: string): Option<seq<Token>> {
    if p == "" then Some([])
    else if p[0] == '\\' then
      if |p| == 1 then None else Prepend(Exactly(p[1]), Tokens(p[2..]))
    else
      Prepend(if p[0] == '%' then AnyRun else if p[0] == '_' then AnyOne else Exactly(p[0]), Tokens(p[1..]))
  }

  function Prepend(t: Token, rest: Option<seq<Token>>): Option<seq<Token>> {
    if rest.None? then None else Some([t] + rest.value)
  }

  predicate MatchTokens(ts: seq<Token>, s: string) {
    if |ts| == 0 then s == ""
    else match ts[0]
      case AnyRun => exists k | 0 <= k <= |s| :: MatchTokens(ts[1..], s[k..])
      case AnyOne => s != "" && MatchTokens(ts[1..], s[1..])
      case Exactly(c) => s != "" && s[0] == c && MatchTokens(ts[1..], s[1..])
  }

  predicate Like(s: string, p: string) {
    Tokens(p).Some? && MatchTokens(Tokens(p).value, s)
  }
}

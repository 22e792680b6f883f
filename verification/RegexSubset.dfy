/** The part of JavaScript's regular expressions that ignore patterns compile to: its syntax and its meaning. */
module RegexSubset {
  import opened Common

  datatype Regex = Nothing | Literal(c: char) | Dot | NotSlash | Star(body: Regex) | Optional(body: Regex)
    | Then(first: Regex, rest: Regex)

  predicate LineTerminator(c: char) {
    c == '\n' || c == '\r' || c == '\U{2028}' || c == '\U{2029}'
  }

  predicate SyntaxCharacter(c: char) {
    c in ['^', '$', '\\', '.', '*', '+', '?', '(', ')', '[', ']', '{', '}', '|']
  }

  /** The whole of `s` is in the language of `r`. */
  ghost predicate Matches(r: Regex, s: string)
    decreases r, |s|
  {
    match r
    case Nothing => s == []
    case Literal(c) => s == [c]
    case Dot => |s| == 1 && !LineTerminator(s[0])
    case NotSlash => |s| == 1 && s[0] != '/'
    case Star(body) => s == [] || exists k :: 0 < k <= |s| && Matches(body, s[..k]) && Matches(r, s[k..])
    case Optional(body) => s == [] || Matches(body, s)
    case Then(first, rest) => exists k :: 0 <= k <= |s| && Matches(first, s[..k]) && Matches(rest, s[k..])
  }

  // ----- syntax -----

  /** Terms up to the end or a closing parenthesis. */
  function ParseTerms(s: string): (r: Option<(Regex, string)>)
    ensures r.Some? ==> |r.value.1| <= |s|
    decreases |s|, 1
  {
    if s == [] || s[0] == ')' then Some((Nothing, s)) else
    match ParseAtom(s)
    case None => None
    case Some((atom, after)) =>
      var (term, rest) := Quantified(atom, after);
      match ParseTerms(rest)
      case None => None
      case Some((terms, end)) => Some((Then(term, terms), end))
  }

  function Quantified(atom: Regex, after: string): (r: (Regex, string))
    ensures |r.1| <= |after|
  {
    if after != [] && after[0] == '*' then (Star(atom), after[1..])
    else if after != [] && after[0] == '?' then (Optional(atom), after[1..])
    else (atom, after)
  }

  function ParseAtom(s: string): (r: Option<(Regex, string)>)
    requires s != []
    ensures r.Some? ==> |r.value.1| < |s|
    decreases |s|, 0
  {
    if s[0] == '.' then Some((Dot, s[1..]))
    else if s[0] == '[' then
      if |s| >= 4 && s[1] == '^' && s[2] == '/' && s[3] == ']' then Some((NotSlash, s[4..])) else None
    else if s[0] == '\\' then
      if |s| >= 2 && SyntaxCharacter(s[1]) then Some((Literal(s[1]), s[2..])) else None
    else if s[0] == '(' then
      if |s| >= 3 && s[1] == '?' && s[2] == ':' then
        match ParseTerms(s[3..])
        case None => None
        case Some((inside, end)) => if end != [] then Some((inside, end[1..])) else None
      else None
    else if SyntaxCharacter(s[0]) then None
    else Some((Literal(s[0]), s[1..]))
  }

  /** An expression anchored at both ends. */
  function ParseAnchored(source: string): Option<Regex> {
    if |source| < 2 || source[0] != '^' || source[|source| - 1] != '$' then None else
    match ParseTerms(source[1..|source| - 1])
    case None => None
    case Some((r, end)) => if end == [] then Some(r) else None
  }

  /** `new RegExp(source).test(text)` for an anchored source. */
  ghost predicate Test(source: string, text: string) {
    ParseAnchored(source).Some? && Matches(ParseAnchored(source).value, text)
  }

  // ----- meaning -----

  predicate AllDots(s: string) {
    forall i :: 0 <= i < |s| ==> !LineTerminator(s[i])
  }

  predicate NoSlash(s: string) {
    forall i :: 0 <= i < |s| ==> s[i] != '/'
  }

  lemma {:induction false} StarDotIff(s: string)
    ensures Matches(Star(Dot), s) <==> AllDots(s)
    decreases |s|
  {
    if s != [] {
      StarDotIff(s[1..]);
      assert s[..1] == [s[0]] && forall i :: 0 <= i < |s[1..]| ==> s[1..][i] == s[i + 1];
      if AllDots(s) {
        assert Matches(Dot, s[..1]) && Matches(Star(Dot), s[1..]);
      }
      if Matches(Star(Dot), s) {
        var k :| 0 < k <= |s| && Matches(Dot, s[..k]) && Matches(Star(Dot), s[k..]);
        assert k == 1;
        forall i | 0 <= i < |s| ensures !LineTerminator(s[i]) {
          assert i == 0 || s[i] == s[1..][i - 1];
        }
      }
    }
  }

  lemma {:induction false} StarNotSlashIff(s: string)
    ensures Matches(Star(NotSlash), s) <==> NoSlash(s)
    decreases |s|
  {
    if s != [] {
      StarNotSlashIff(s[1..]);
      assert s[..1] == [s[0]] && forall i :: 0 <= i < |s[1..]| ==> s[1..][i] == s[i + 1];
      if NoSlash(s) {
        assert Matches(NotSlash, s[..1]) && Matches(Star(NotSlash), s[1..]);
      }
      if Matches(Star(NotSlash), s) {
        var k :| 0 < k <= |s| && Matches(NotSlash, s[..k]) && Matches(Star(NotSlash), s[k..]);
        assert k == 1;
        forall i | 0 <= i < |s| ensures s[i] != '/' {
          assert i == 0 || s[i] == s[1..][i - 1];
        }
      }
    }
  }
}

/** Ignore patterns: the globs users write, the expressions they compile to, and what is ignored. */
module IgnoreGlob {
  import opened Common
  import opened RegexSubset

  // ----- the language of a glob, without regular expressions -----

  /** `**` is any text on one line, `*` any text within one path segment, anything else stands for itself. */
  ghost predicate Accepts(pattern: string, path: string)
    decreases |pattern|
  {
    if pattern == [] then path == []
    else if IsDoubleStar(pattern) then
      exists k :: 0 <= k <= |path| && AllDots(path[..k]) && Accepts(pattern[2..], path[k..])
    else if pattern[0] == '*' then
      exists k :: 0 <= k <= |path| && NoSlash(path[..k]) && Accepts(pattern[1..], path[k..])
    else path != [] && path[0] == pattern[0] && Accepts(pattern[1..], path[1..])
  }

  predicate IsDoubleStar(pattern: string) {
    |pattern| >= 2 && pattern[0] == '*' && pattern[1] == '*'
  }

  predicate EndsWithSlash(pattern: string) {
    pattern != [] && pattern[|pattern| - 1] == '/'
  }

  /** A trailing slash stands for the directory and everything below it. */
  ghost predicate InLanguage(pattern: string, path: string) {
    if EndsWithSlash(pattern) then
      exists k :: 0 <= k <= |path| && Accepts(pattern[..|pattern| - 1], path[..k]) && IsBelow(path[k..])
    else Accepts(pattern, path)
  }

  predicate IsBelow(tail: string) {
    tail == [] || (tail[0] == '/' && AllDots(tail[1..]))
  }

  // ----- the compiler -----

  predicate Escaped(c: char) {
    c in ['.', '+', '?', '^', '$', '{', '}', '(', ')', '|', '[', ']', '\\']
  }

  function EscapeRegex(c: char): string {
    if Escaped(c) then ['\\', c] else [c]
  }

  function Source(pattern: string): string {
    if pattern == [] then []
    else if IsDoubleStar(pattern) then ".*" + Source(pattern[2..])
    else if pattern[0] == '*' then "[^/]*" + Source(pattern[1..])
    else EscapeRegex(pattern[0]) + Source(pattern[1..])
  }

  const Below := "(?:/.*)?"

  function RegexSource(pattern: string): string {
    if EndsWithSlash(pattern) then "^" + Source(pattern[..|pattern| - 1]) + Below + "$"
    else "^" + Source(pattern) + "$"
  }

  method IgnorePatternSource(pattern: string) returns (source: string)
    ensures source == Source(pattern)
  {
    source := "";
    var index := 0;
    while index < |pattern|
      invariant index <= |pattern|
      invariant source + Source(pattern[index..]) == Source(pattern)
    {
      var c := pattern[index];
      ghost var rest := pattern[index..];
      if c == '*' && index + 1 < |pattern| && pattern[index + 1] == '*' {
        assert IsDoubleStar(rest) && rest[2..] == pattern[index + 2..];
        ConcatAssociative(source, ".*", Source(pattern[index + 2..]));
        source := source + ".*";
        index := index + 2;
        continue;
      }
      assert !IsDoubleStar(rest) && rest[1..] == pattern[index + 1..];
      if c == '*' {
        ConcatAssociative(source, "[^/]*", Source(pattern[index + 1..]));
        source := source + "[^/]*";
      } else {
        ConcatAssociative(source, EscapeRegex(c), Source(pattern[index + 1..]));
        source := source + EscapeRegex(c);
      }
      index := index + 1;
    }
  }

  method IgnorePatternRegex(pattern: string) returns (source: string)
    ensures source == RegexSource(pattern)
  {
    var directoryPrefix := EndsWithSlash(pattern);
    var normalized := if directoryPrefix then pattern[..|pattern| - 1] else pattern;
    var body := IgnorePatternSource(normalized);
    if directoryPrefix {
      return "^" + body + Below + "$";
    }
    return "^" + body + "$";
  }

  // ----- what the compiled expression parses to -----

  function Compiled(pattern: string, tail: Regex): Regex {
    if pattern == [] then tail
    else if IsDoubleStar(pattern) then Then(Star(Dot), Compiled(pattern[2..], tail))
    else if pattern[0] == '*' then Then(Star(NotSlash), Compiled(pattern[1..], tail))
    else Then(Literal(pattern[0]), Compiled(pattern[1..], tail))
  }

  predicate NoQuantifier(s: string) {
    s == [] || (s[0] != '*' && s[0] != '?')
  }

  lemma {:induction false} SourceStartsATerm(pattern: string, tail: string)
    requires NoQuantifier(tail)
    ensures NoQuantifier(Source(pattern) + tail)
    ensures pattern != [] ==> Source(pattern) != [] && Source(pattern)[0] != ')'
  {
    if pattern == [] {
      assert Source(pattern) + tail == tail;
    }
  }

  lemma {:induction false} AtomOf(s: string, after: string, c: char)
    requires c != '*' && s == EscapeRegex(c) + after
    ensures s != [] && s[0] != ')' && ParseAtom(s) == Some((Literal(c), after))
  {
    if Escaped(c) {
      assert s[2..] == after;
    } else {
      assert s[1..] == after;
    }
  }

  lemma {:induction false} StarsParse(s: string, after: string)
    ensures s == ".*" + after ==> ParseAtom(s) == Some((Dot, s[1..])) && Quantified(Dot, s[1..]) == (Star(Dot), after)
    ensures s == "[^/]*" + after ==>
              ParseAtom(s) == Some((NotSlash, s[4..])) && Quantified(NotSlash, s[4..]) == (Star(NotSlash), after)
  {
    if s == ".*" + after {
      assert s[1..][1..] == after;
    }
    if s == "[^/]*" + after {
      assert s[4..][1..] == after;
    }
  }

  /** Parsing what was emitted gives back the pattern's terms, and then whatever the tail is. */
  lemma {:induction false} ParsesAsCompiled(pattern: string, tail: string, rest: Regex)
    requires NoQuantifier(tail) && ParseTerms(tail) == Some((rest, []))
    ensures ParseTerms(Source(pattern) + tail) == Some((Compiled(pattern, rest), []))
    decreases |pattern|
  {
    var s := Source(pattern) + tail;
    if pattern == [] {
      assert s == tail;
    } else if IsDoubleStar(pattern) {
      var after := Source(pattern[2..]) + tail;
      ConcatAssociative(".*", Source(pattern[2..]), tail);
      StarsParse(s, after);
      ParsesAsCompiled(pattern[2..], tail, rest);
    } else if pattern[0] == '*' {
      var after := Source(pattern[1..]) + tail;
      ConcatAssociative("[^/]*", Source(pattern[1..]), tail);
      StarsParse(s, after);
      ParsesAsCompiled(pattern[1..], tail, rest);
    } else {
      var after := Source(pattern[1..]) + tail;
      ConcatAssociative(EscapeRegex(pattern[0]), Source(pattern[1..]), tail);
      AtomOf(s, after, pattern[0]);
      SourceStartsATerm(pattern[1..], tail);
      assert Quantified(Literal(pattern[0]), after) == (Literal(pattern[0]), after);
      ParsesAsCompiled(pattern[1..], tail, rest);
    }
  }

  // ----- meaning is preserved -----

  lemma {:induction false} Slices(path: string, j: nat, k: nat)
    requires j <= k <= |path|
    ensures path[..k][..j] == path[..j] && path[..k][j..] == path[j..][..k - j] && path[j..][k - j..] == path[k..]
  {
  }

  /** Whether the text a star has taken is one it may take. */
  ghost predicate StarTakes(dots: bool, text: string) {
    if dots then AllDots(text) else NoSlash(text)
  }

  ghost predicate SplitMatches(pattern: string, tail: Regex, path: string) {
    exists k :: 0 <= k <= |path| && Accepts(pattern, path[..k]) && Matches(tail, path[k..])
  }

  lemma {:induction false} StarStep(dots: bool, pattern: string, shorter: string, tail: Regex, path: string)
    requires forall rest :: |rest| <= |path| ==>
               (Matches(Compiled(shorter, tail), rest) <==> SplitMatches(shorter, tail, rest))
    requires forall p :: Accepts(pattern, p) <==>
                         exists j :: 0 <= j <= |p| && StarTakes(dots, p[..j]) && Accepts(shorter, p[j..])
    ensures (exists j :: 0 <= j <= |path| && StarTakes(dots, path[..j]) && Matches(Compiled(shorter, tail), path[j..]))
            <==> SplitMatches(pattern, tail, path)
  {
    hide Accepts, Matches, Compiled, StarTakes;
    if j :| 0 <= j <= |path| && StarTakes(dots, path[..j]) && Matches(Compiled(shorter, tail), path[j..]) {
      var rest := path[j..];
      assert SplitMatches(shorter, tail, rest);
      var n :| 0 <= n <= |rest| && Accepts(shorter, rest[..n]) && Matches(tail, rest[n..]);
      Slices(path, j, j + n);
      assert StarTakes(dots, path[..j + n][..j]) && Accepts(shorter, path[..j + n][j..]);
      assert Accepts(pattern, path[..j + n]) && Matches(tail, path[j + n..]);
    }
    if SplitMatches(pattern, tail, path) {
      var k :| 0 <= k <= |path| && Accepts(pattern, path[..k]) && Matches(tail, path[k..]);
      var j :| 0 <= j <= k && StarTakes(dots, path[..k][..j]) && Accepts(shorter, path[..k][j..]);
      Slices(path, j, k);
      var rest := path[j..];
      assert Accepts(shorter, rest[..k - j]) && Matches(tail, rest[k - j..]);
      assert SplitMatches(shorter, tail, rest);
      assert StarTakes(dots, path[..j]) && Matches(Compiled(shorter, tail), path[j..]);
    }
  }

  lemma {:induction false} ThenStarIff(dots: bool, rest: Regex, path: string)
    ensures Matches(Then(Star(if dots then Dot else NotSlash), rest), path) <==>
            exists j :: 0 <= j <= |path| && StarTakes(dots, path[..j]) && Matches(rest, path[j..])
  {
    forall text: string ensures Matches(Star(if dots then Dot else NotSlash), text) <==> StarTakes(dots, text) {
      StarDotIff(text);
      StarNotSlashIff(text);
    }
  }

  lemma {:induction false} AcceptsStarIff(pattern: string, p: string)
    requires pattern != [] && pattern[0] == '*'
    ensures Accepts(pattern, p) <==>
            exists j :: 0 <= j <= |p| && StarTakes(IsDoubleStar(pattern), p[..j]) &&
                        Accepts(pattern[if IsDoubleStar(pattern) then 2 else 1..], p[j..])
  {
  }

  lemma {:induction false} ThenLiteralIff(c: char, rest: Regex, path: string)
    ensures Matches(Then(Literal(c), rest), path) <==> path != [] && path[0] == c && Matches(rest, path[1..])
  {
    if path != [] {
      assert path[..1] == [path[0]];
      if path[0] == c && Matches(rest, path[1..]) {
        assert Matches(Literal(c), path[..1]);
      }
    }
    if Matches(Then(Literal(c), rest), path) {
      var k :| 0 <= k <= |path| && Matches(Literal(c), path[..k]) && Matches(rest, path[k..]);
      assert k == 1 && path[..k][0] == path[0];
    }
  }

  lemma {:induction false} AcceptsLiteralIff(pattern: string, p: string)
    requires pattern != [] && pattern[0] != '*'
    ensures Accepts(pattern, p) <==> p != [] && p[0] == pattern[0] && Accepts(pattern[1..], p[1..])
  {
  }

  lemma {:induction false} SplitLiteralIff(pattern: string, tail: Regex, path: string)
    requires pattern != [] && pattern[0] != '*'
    ensures SplitMatches(pattern, tail, path) <==>
            path != [] && path[0] == pattern[0] && SplitMatches(pattern[1..], tail, path[1..])
  {
    hide Accepts, Matches;
    if SplitMatches(pattern, tail, path) {
      var k :| 0 <= k <= |path| && Accepts(pattern, path[..k]) && Matches(tail, path[k..]);
      AcceptsLiteralIff(pattern, path[..k]);
      Slices(path, 1, k);
      assert Accepts(pattern[1..], path[1..][..k - 1]) && Matches(tail, path[1..][k - 1..]);
    }
    if path != [] && path[0] == pattern[0] && SplitMatches(pattern[1..], tail, path[1..]) {
      var n :| 0 <= n <= |path[1..]| && Accepts(pattern[1..], path[1..][..n]) && Matches(tail, path[1..][n..]);
      Slices(path, 1, n + 1);
      AcceptsLiteralIff(pattern, path[..n + 1]);
      assert Accepts(pattern, path[..n + 1]) && Matches(tail, path[n + 1..]);
    }
  }

  lemma {:induction false} CompiledIff(pattern: string, tail: Regex, path: string)
    ensures Matches(Compiled(pattern, tail), path) <==> SplitMatches(pattern, tail, path)
    decreases |pattern|
  {
    if pattern == [] {
      assert path[..0] == [] && path[0..] == path;
    } else if pattern[0] == '*' {
      var dots := IsDoubleStar(pattern);
      var shorter := pattern[if dots then 2 else 1..];
      forall rest | |rest| <= |path|
        ensures Matches(Compiled(shorter, tail), rest) <==> SplitMatches(shorter, tail, rest)
      {
        CompiledIff(shorter, tail, rest);
      }
      forall p ensures Accepts(pattern, p) <==>
                       exists j :: 0 <= j <= |p| && StarTakes(dots, p[..j]) && Accepts(shorter, p[j..])
      {
        AcceptsStarIff(pattern, p);
      }
      StarStep(dots, pattern, shorter, tail, path);
      ThenStarIff(dots, Compiled(shorter, tail), path);
    } else {
      if path != [] {
        CompiledIff(pattern[1..], tail, path[1..]);
      }
      SplitLiteralIff(pattern, tail, path);
      ThenLiteralIff(pattern[0], Compiled(pattern[1..], tail), path);
    }
  }

  const BelowRegex := Then(Optional(Then(Literal('/'), Then(Star(Dot), Nothing))), Nothing)

  lemma {:induction false} BelowParses()
    ensures ParseTerms(Below) == Some((BelowRegex, []))
  {
    assert Below[3..] == "/.*)?";
    assert "/.*)?"[1..] == ".*)?" && ".*)?"[1..] == "*)?" && "*)?"[1..] == ")?";
    assert ParseTerms(")?") == Some((Nothing, ")?"));
    assert ParseTerms(".*)?") == Some((Then(Star(Dot), Nothing), ")?"));
    assert ParseTerms("/.*)?") == Some((Then(Literal('/'), Then(Star(Dot), Nothing)), ")?"));
    assert ")?"[1..] == "?" && "?"[1..] == "";
  }

  lemma {:induction false} AnySplitAtEnd(r: Regex, s: string)
    ensures Matches(Then(r, Nothing), s) <==> Matches(r, s)
  {
    assert s[..|s|] == s && s[|s|..] == [];
  }

  lemma {:induction false} BelowIff(s: string)
    ensures Matches(BelowRegex, s) <==> IsBelow(s)
  {
    var slash := Then(Literal('/'), Then(Star(Dot), Nothing));
    AnySplitAtEnd(Optional(slash), s);
    if s != [] {
      assert s[..1] == [s[0]];
      AnySplitAtEnd(Star(Dot), s[1..]);
      StarDotIff(s[1..]);
      if IsBelow(s) {
        assert Matches(Literal('/'), s[..1]) && Matches(Then(Star(Dot), Nothing), s[1..]);
      }
      if Matches(slash, s) {
        var k :| 0 <= k <= |s| && Matches(Literal('/'), s[..k]) && Matches(Then(Star(Dot), Nothing), s[k..]);
        assert k == 1;
      }
    }
  }

  lemma {:induction false} Unanchored(body: string)
    ensures ParseAnchored("^" + body + "$") ==
            match ParseTerms(body) { case None => None case Some((r, end)) => if end == [] then Some(r) else None }
  {
    var source := "^" + body + "$";
    assert source[1..|source| - 1] == body;
  }

  /** The compiled expression accepts exactly the glob's language, whatever characters the pattern holds. */
  lemma {:induction false} CompilingPreservesMeaning(pattern: string, path: string)
    ensures Test(RegexSource(pattern), path) <==> InLanguage(pattern, path)
  {
    if EndsWithSlash(pattern) {
      var p := pattern[..|pattern| - 1];
      ConcatAssociative("^", Source(p), Below);
      Unanchored(Source(p) + Below);
      BelowParses();
      ParsesAsCompiled(p, Below, BelowRegex);
      CompiledIff(p, BelowRegex, path);
      forall k | 0 <= k <= |path| ensures Matches(BelowRegex, path[k..]) <==> IsBelow(path[k..]) {
        BelowIff(path[k..]);
      }
    } else {
      Unanchored(Source(pattern));
      assert Source(pattern) + [] == Source(pattern);
      ParsesAsCompiled(pattern, [], Nothing);
      CompiledIff(pattern, Nothing, path);
      assert path[..|path|] == path && path[|path|..] == [];
      if SplitMatches(pattern, Nothing, path) {
        var k :| 0 <= k <= |path| && Accepts(pattern, path[..k]) && Matches(Nothing, path[k..]);
        assert k == |path|;
      }
    }
  }
}

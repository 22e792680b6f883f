/** Which repository paths the privacy ignore patterns exclude. */
module IgnorePolicy {
  import opened Common
  import opened RegexSubset
  import opened IgnoreGlob

  /** A loaded pattern with the source of its matcher. */
  datatype Pattern = Pattern(pattern: string, matcher: string, basenameOnly: bool)

  function Slashes(s: string): (r: string)
    ensures |r| == |s|
  {
    seq(|s|, i requires 0 <= i < |s| => if s[i] == '\\' then '/' else s[i])
  }

  function WithoutLeadingSlashes(s: string): string {
    if s != [] && s[0] == '/' then WithoutLeadingSlashes(s[1..]) else s
  }

  function NormalizeRepoPath(path: string): string {
    WithoutLeadingSlashes(Slashes(path))
  }

  /** `trimmed` is the line without its surrounding blanks. */
  function ParseIgnoreLine(trimmed: string): Option<string> {
    if trimmed == "" || trimmed[0] == '#' || trimmed[0] == '!' then None
    else Some(NormalizeRepoPath(WithoutLeadingSlashes(trimmed)))
  }

  /** `s.split("/")` */
  function Split(s: string): (r: seq<string>)
    ensures r != []
  {
    if s == [] then [[]]
    else if s[0] == '/' then [[]] + Split(s[1..])
    else
      var rest := Split(s[1..]);
      [[s[0]] + rest[0]] + rest[1..]
  }

  method LoadPatterns(trimmedLines: seq<string>) returns (patterns: seq<Pattern>)
    ensures patterns == Loaded(trimmedLines)
  {
    patterns := [];
    for i := 0 to |trimmedLines|
      invariant patterns == Loaded(trimmedLines[..i])
    {
      assert trimmedLines[..i + 1][..i] == trimmedLines[..i];
      var parsed := ParseIgnoreLine(trimmedLines[i]);
      if parsed.None? {
        continue;
      }
      var matcher := IgnorePatternRegex(parsed.value);
      patterns := patterns + [Pattern(parsed.value, matcher, '/' !in parsed.value)];
    }
    assert trimmedLines[..|trimmedLines|] == trimmedLines;
  }

  function Compile(pattern: string): Pattern {
    Pattern(pattern, RegexSource(pattern), '/' !in pattern)
  }

  function Loaded(trimmedLines: seq<string>): seq<Pattern> {
    if trimmedLines == [] then [] else
    var init, parsed := trimmedLines[..|trimmedLines| - 1], ParseIgnoreLine(trimmedLines[|trimmedLines| - 1]);
    Loaded(init) + if parsed.Some? then [Compile(parsed.value)] else []
  }

  // ----- what is ignored -----

  ghost predicate MatchedBy(pattern: Pattern, path: string) {
    if pattern.basenameOnly then exists part :: part in Split(path) && Test(pattern.matcher, part)
    else Test(pattern.matcher, path)
  }

  ghost predicate IsIgnored(repoPath: string, patterns: seq<Pattern>) {
    exists p :: p in patterns && MatchedBy(p, NormalizeRepoPath(repoPath))
  }

  /** The same said of the patterns as written: a bare name matches any segment, any other pattern the whole path. */
  ghost predicate Excluded(pattern: string, path: string) {
    if '/' !in pattern then exists part :: part in Split(path) && InLanguage(pattern, part)
    else InLanguage(pattern, path)
  }

  lemma {:induction false} MatchedIffExcluded(pattern: string, path: string)
    ensures MatchedBy(Compile(pattern), path) <==> Excluded(pattern, path)
  {
    hide Test, InLanguage, RegexSource;
    forall text ensures Test(RegexSource(pattern), text) <==> InLanguage(pattern, text) {
      CompilingPreservesMeaning(pattern, text);
    }
  }

  lemma {:induction false} LoadedIff(trimmedLines: seq<string>, p: Pattern)
    ensures p in Loaded(trimmedLines) <==>
            exists line :: line in trimmedLines && ParseIgnoreLine(line).Some? &&
              p == Compile(ParseIgnoreLine(line).value)
    decreases |trimmedLines|
  {
    hide ParseIgnoreLine, Compile;
    if trimmedLines != [] {
      SplitLast(trimmedLines);
      LoadedIff(trimmedLines[..|trimmedLines| - 1], p);
    }
  }

  // ----- rule lines -----

  /** Every line is a rule but an empty one, a comment and a negation. */
  predicate IsRule(line: string) {
    line != "" && line[0] != '#' && line[0] != '!'
  }

  /** `text` is `s` from position `k` on, with slashes for backslashes. */
  predicate ReadsFrom(s: string, k: nat, text: string) {
    && k <= |s| && |text| == |s| - k
    && forall i :: 0 <= i < |text| ==> text[i] == if s[k + i] == '\\' then '/' else s[k + i]
  }

  /** Only slashes of either kind have been left out, and all of them at the front. */
  predicate Normalized(s: string, text: string) {
    && (text == "" || text[0] != '/')
    && exists k :: 0 <= k <= |s| && ReadsFrom(s, k, text) && forall i :: 0 <= i < k ==> s[i] == '/' || s[i] == '\\'
  }

  lemma {:induction false} StrippedFrom(s: string) returns (k: nat)
    ensures k <= |s| && WithoutLeadingSlashes(s) == s[k..] && forall i :: 0 <= i < k ==> s[i] == '/'
    ensures k < |s| ==> s[k] != '/'
    decreases |s|
  {
    k := 0;
    if s != [] && s[0] == '/' {
      var j := StrippedFrom(s[1..]);
      k := j + 1;
      assert s[1..][j..] == s[k..];
      assert forall i :: 1 <= i < k ==> s[i] == s[1..][i - 1];
    }
  }

  lemma {:induction false} PathIsNormalized(s: string)
    ensures Normalized(s, NormalizeRepoPath(s))
  {
    var k := StrippedFrom(Slashes(s));
    forall i | 0 <= i < k ensures s[i] == '/' || s[i] == '\\' {
      assert Slashes(s)[i] == '/';
    }
    assert k < |s| ==> NormalizeRepoPath(s)[0] == Slashes(s)[k];
    assert ReadsFrom(s, k, NormalizeRepoPath(s));
  }

  lemma {:induction false} NormalizedOnce(s: string, t: string, u: string)
    requires Normalized(s, t) && Normalized(s, u)
    ensures t == u
  {
    var j :| 0 <= j <= |s| && ReadsFrom(s, j, t) && forall i :: 0 <= i < j ==> s[i] == '/' || s[i] == '\\';
    var k :| 0 <= k <= |s| && ReadsFrom(s, k, u) && forall i :: 0 <= i < k ==> s[i] == '/' || s[i] == '\\';
    assert j < |s| ==> t[0] == if s[j] == '\\' then '/' else s[j];
    assert k < |s| ==> u[0] == if s[k] == '\\' then '/' else s[k];
    assert j == k;
  }

  /** Each rule line gives a pattern, the line itself but for leading slashes and the kind of the others. */
  lemma {:induction false} LineIsRule(line: string)
    ensures ParseIgnoreLine(line).Some? <==> IsRule(line)
    ensures IsRule(line) ==> Normalized(line, ParseIgnoreLine(line).value)
    ensures IsRule(line) && line[0] != '/' && '\\' !in line ==> ParseIgnoreLine(line) == Some(line)
  {
    if IsRule(line) {
      var k := StrippedFrom(line);
      var rest, text := line[k..], NormalizeRepoPath(line[k..]);
      PathIsNormalized(rest);
      var j :| 0 <= j <= |rest| && ReadsFrom(rest, j, text) && forall i :: 0 <= i < j ==>
        rest[i] == '/' || rest[i] == '\\';
      assert ReadsFrom(line, k + j, text);
      if line[0] != '/' && '\\' !in line {
        assert ReadsFrom(line, 0, line);
        NormalizedOnce(line, text, line);
      }
    }
  }

  /** Loading keeps every rule line, in order: its pattern, the expression for it, and whether it is a bare name. */
  lemma {:induction false} LoadedInOrder(trimmedLines: seq<string>)
    ensures |Loaded(trimmedLines)| == |Filter(trimmedLines, IsRule)|
    ensures forall i :: 0 <= i < |Loaded(trimmedLines)| ==>
              var p := Loaded(trimmedLines)[i];
              && Normalized(Filter(trimmedLines, IsRule)[i], p.pattern) && p.matcher == RegexSource(p.pattern)
              && (p.basenameOnly <==> '/' !in p.pattern)
    decreases |trimmedLines|
  {
    hide ParseIgnoreLine, IsRule, Normalized, RegexSource;
    if trimmedLines != [] {
      LoadedInOrder(trimmedLines[..|trimmedLines| - 1]);
      LineIsRule(trimmedLines[|trimmedLines| - 1]);
    }
  }

  /** Of rule lines alone: a path is ignored iff the pattern of some rule line, read as a glob, excludes it. */
  lemma {:induction false} IgnoredByLines(repoPath: string, path: string, trimmedLines: seq<string>)
    requires Normalized(repoPath, path)
    ensures IsIgnored(repoPath, Loaded(trimmedLines)) <==>
            exists line, text ::
              line in trimmedLines && IsRule(line) && Normalized(line, text) && Excluded(text, path)
  {
    hide ParseIgnoreLine, Excluded, Loaded, NormalizeRepoPath, IsIgnored, IsRule, Normalized;
    IgnoredIff(repoPath, trimmedLines);
    PathIsNormalized(repoPath);
    NormalizedOnce(repoPath, path, NormalizeRepoPath(repoPath));
    forall line ensures ParseIgnoreLine(line).Some? <==> IsRule(line) {
      LineIsRule(line);
    }
    if line :| line in trimmedLines && ParseIgnoreLine(line).Some? && Excluded(ParseIgnoreLine(line).value, path) {
      LineIsRule(line);
    }
    if line, text :| line in trimmedLines && IsRule(line) && Normalized(line, text) && Excluded(text, path) {
      LineIsRule(line);
      NormalizedOnce(line, text, ParseIgnoreLine(line).value);
    }
  }

  function Joined(parts: seq<string>): string {
    if parts == [] then "" else if |parts| == 1 then parts[0] else parts[0] + "/" + Joined(parts[1..])
  }

  lemma {:induction false} JoinedFront(c: char, parts: seq<string>)
    requires parts != []
    ensures Joined([[c] + parts[0]] + parts[1..]) == [c] + Joined(parts)
  {
    var more := [[c] + parts[0]] + parts[1..];
    assert more[0] == [c] + parts[0] && more[1..] == parts[1..];
    if |parts| > 1 {
      ConcatAssociative([c], parts[0], "/" + Joined(parts[1..]));
      ConcatAssociative(parts[0], "/", Joined(parts[1..]));
      ConcatAssociative([c] + parts[0], "/", Joined(parts[1..]));
    }
  }

  lemma {:induction false} SegmentsAreSlashFree(s: string)
    ensures forall part :: part in Split(s) ==> '/' !in part
    decreases |s|
  {
    if s != [] {
      var rest := Split(s[1..]);
      SegmentsAreSlashFree(s[1..]);
      assert rest[0] in rest;
      assert forall part :: part in rest[1..] ==> part in rest;
    }
  }

  /** The segments of a path: slash-free, and the path when joined again. */
  lemma {:induction false} SplitIsSegments(s: string)
    ensures Joined(Split(s)) == s && forall part :: part in Split(s) ==> '/' !in part
    decreases |s|
  {
    SegmentsAreSlashFree(s);
    if s != [] {
      var rest := Split(s[1..]);
      SplitIsSegments(s[1..]);
      hide Joined;
      assert s == [s[0]] + s[1..];
      if s[0] == '/' {
        JoinedFirst([[]] + rest);
        assert ([[]] + rest)[1..] == rest;
      } else {
        JoinedFront(s[0], rest);
      }
    }
  }

  lemma {:induction false} JoinedFirst(parts: seq<string>)
    requires |parts| > 1 && parts[0] == []
    ensures Joined(parts) == "/" + Joined(parts[1..])
  {
    assert [] + "/" == "/";
  }

  /** End to end: a path is ignored exactly when some rule line, read as a glob, excludes it. */
  lemma {:induction false} IgnoredIff(repoPath: string, trimmedLines: seq<string>)
    ensures IsIgnored(repoPath, Loaded(trimmedLines)) <==>
            exists line :: line in trimmedLines && ParseIgnoreLine(line).Some? &&
                           Excluded(ParseIgnoreLine(line).value, NormalizeRepoPath(repoPath))
  {
    hide ParseIgnoreLine, Compile, MatchedBy, Excluded, Loaded, NormalizeRepoPath;
    var path := NormalizeRepoPath(repoPath);
    if IsIgnored(repoPath, Loaded(trimmedLines)) {
      var p :| p in Loaded(trimmedLines) && MatchedBy(p, path);
      LoadedIff(trimmedLines, p);
      var line :| line in trimmedLines && ParseIgnoreLine(line).Some? && p == Compile(ParseIgnoreLine(line).value);
      MatchedIffExcluded(ParseIgnoreLine(line).value, path);
    }
    if line :| line in trimmedLines && ParseIgnoreLine(line).Some? && Excluded(ParseIgnoreLine(line).value, path) {
      var p := Compile(ParseIgnoreLine(line).value);
      LoadedIff(trimmedLines, p);
      MatchedIffExcluded(ParseIgnoreLine(line).value, path);
      assert p in Loaded(trimmedLines) && MatchedBy(p, path);
    }
  }

  // ----- going down a directory -----

  function Under(path: string, rest: string): string {
    path + "/" + rest
  }

  lemma {:induction false} SplitJoin(path: string, rest: string)
    ensures Split(Under(path, rest)) == Split(path) + Split(rest)
    decreases |path|
  {
    var joined := Under(path, rest);
    if path == [] {
      assert joined[1..] == rest;
    } else {
      assert joined[1..] == Under(path[1..], rest);
      SplitJoin(path[1..], rest);
    }
  }

  lemma {:induction false} StripBelow(s: string, t: string)
    ensures WithoutLeadingSlashes(s) != [] ==> WithoutLeadingSlashes(s + t) == WithoutLeadingSlashes(s) + t
    decreases |s|
  {
    if s != [] && s[0] == '/' {
      assert (s + t)[1..] == s[1..] + t;
      StripBelow(s[1..], t);
    }
  }

  lemma {:induction false} NormalizeBelow(path: string, rest: string)
    requires NormalizeRepoPath(path) != []
    ensures NormalizeRepoPath(Under(path, rest)) == Under(NormalizeRepoPath(path), Slashes(rest))
  {
    assert Slashes(Under(path, rest)) == Slashes(path) + ("/" + Slashes(rest));
    StripBelow(Slashes(path), "/" + Slashes(rest));
    ConcatAssociative(NormalizeRepoPath(path), "/", Slashes(rest));
  }

  /** A bare-name pattern that excludes a path excludes everything below it. */
  lemma {:induction false} BareNameCoversBelow(pattern: string, path: string, rest: string)
    requires '/' !in pattern && Excluded(pattern, path)
    ensures Excluded(pattern, Under(path, rest))
  {
    SplitJoin(path, rest);
    var part :| part in Split(path) && InLanguage(pattern, part);
    assert part in Split(Under(path, rest));
  }

  /** So does a pattern with a trailing slash, as long as the rest of the path has no line terminator. */
  lemma {:induction false} DirectoryCoversBelow(pattern: string, path: string, rest: string)
    requires EndsWithSlash(pattern) && AllDots(rest) && Excluded(pattern, path)
    ensures Excluded(pattern, Under(path, rest))
  {
    hide Accepts;
    assert '/' in pattern;
    var joined := Under(path, rest);
    var k :| 0 <= k <= |path| && Accepts(pattern[..|pattern| - 1], path[..k]) && IsBelow(path[k..]);
    assert joined[..k] == path[..k];
    var tail := joined[k..];
    assert tail == path[k..] + "/" + rest;
    assert IsBelow(tail) by {
      if k < |path| {
        assert path[k..] == ['/'] + path[k + 1..];
        assert tail[1..] == path[k + 1..] + "/" + rest;
      } else {
        assert tail[1..] == rest;
      }
    }
    assert Accepts(pattern[..|pattern| - 1], joined[..k]) && IsBelow(joined[k..]);
  }

  /** For a literal directory rule that is exact: a line terminator below the directory lets a path through. */
  lemma {:induction false} LiteralDirectoryCoversIff(directory: string, rest: string)
    requires '*' !in directory
    ensures Excluded(directory + "/", Under(directory, rest)) <==> AllDots(rest)
  {
    var pattern, path := directory + "/", Under(directory, rest);
    assert '/' in pattern && EndsWithSlash(pattern) && pattern[..|pattern| - 1] == directory;
    forall k | 0 <= k <= |path| ensures Accepts(directory, path[..k]) <==> k == |directory| {
      LiteralsAcceptThemselves(directory, path[..k]);
    }
    var tail := path[|directory|..];
    assert tail == "/" + rest && tail[1..] == rest;
    hide Accepts;
    assert IsBelow(tail) <==> AllDots(rest);
  }

  /** Ignoring by bare-name and trailing-slash rules is closed under going down from any path that names something. */
  lemma {:induction false} IgnoringIsClosedBelow(repoPath: string, rest: string, trimmedLines: seq<string>)
    requires NormalizeRepoPath(repoPath) != [] && AllDots(rest)
    requires forall line :: line in trimmedLines && ParseIgnoreLine(line).Some? ==>
               '/' !in ParseIgnoreLine(line).value || EndsWithSlash(ParseIgnoreLine(line).value)
    requires IsIgnored(repoPath, Loaded(trimmedLines))
    ensures IsIgnored(Under(repoPath, rest), Loaded(trimmedLines))
  {
    hide ParseIgnoreLine, Excluded, Loaded, NormalizeRepoPath, IsIgnored;
    var path := NormalizeRepoPath(repoPath);
    NormalizeBelow(repoPath, rest);
    IgnoredIff(repoPath, trimmedLines);
    IgnoredIff(Under(repoPath, rest), trimmedLines);
    var line :| line in trimmedLines && ParseIgnoreLine(line).Some? && Excluded(ParseIgnoreLine(line).value, path);
    var pattern := ParseIgnoreLine(line).value;
    assert AllDots(Slashes(rest));
    if '/' !in pattern {
      BareNameCoversBelow(pattern, path, Slashes(rest));
    } else {
      DirectoryCoversBelow(pattern, path, Slashes(rest));
    }
  }

  /** A path of nothing but slashes names nothing, and the rule `/` ignores just that. */
  lemma {:induction false} TheEmptyPathIsNotClosed(trimmedLines: seq<string>)
    requires trimmedLines == ["/"]
    ensures IsIgnored("", Loaded(trimmedLines)) && !IsIgnored(Under("", "x"), Loaded(trimmedLines))
  {
    IgnoredIff("", trimmedLines);
    IgnoredIff(Under("", "x"), trimmedLines);
    assert WithoutLeadingSlashes("/") == [];
    assert ParseIgnoreLine("/") == Some("");
    assert NormalizeRepoPath(Under("", "x")) == "x" by {
      assert Slashes(Under("", "x")) == "/x" && "/x"[1..] == "x";
    }
    forall part | part in Split("x") ensures part != [] {
      assert "x"[1..] == [] && |Split([])| == 1;
    }
    assert Split("") == [[]] && InLanguage("", "") && [] in Split("");
    assert "/" in trimmedLines && Excluded(ParseIgnoreLine("/").value, "");
  }

  // ----- text on one line -----

  /** The glob language with `**` standing for any text at all. */
  ghost predicate AcceptsAnyText(pattern: string, path: string)
    decreases |pattern|
  {
    if pattern == [] then path == []
    else if IsDoubleStar(pattern) then exists k :: 0 <= k <= |path| && AcceptsAnyText(pattern[2..], path[k..])
    else if pattern[0] == '*' then
      exists k :: 0 <= k <= |path| && NoSlash(path[..k]) && AcceptsAnyText(pattern[1..], path[k..])
    else path != [] && path[0] == pattern[0] && AcceptsAnyText(pattern[1..], path[1..])
  }

  /** On paths without line terminators `**` is any text. */
  lemma {:induction false} DoubleStarIsAnyText(pattern: string, path: string)
    requires AllDots(path)
    ensures Accepts(pattern, path) <==> AcceptsAnyText(pattern, path)
    decreases |pattern|
  {
    if pattern != [] {
      var shorter := pattern[if IsDoubleStar(pattern) then 2 else 1..];
      forall k | 0 <= k <= |path| ensures Accepts(shorter, path[k..]) <==> AcceptsAnyText(shorter, path[k..]) {
        DoubleStarIsAnyText(shorter, path[k..]);
      }
      assert forall k :: 0 <= k <= |path| ==> AllDots(path[..k]);
    }
  }

  /** Otherwise it stops short: alone it accepts exactly the paths on one line. */
  lemma {:induction false} DoubleStarStaysOnOneLine(path: string)
    ensures Accepts("**", path) <==> AllDots(path)
    ensures AcceptsAnyText("**", path)
  {
    assert "**"[2..] == [];
    assert path[..|path|] == path && path[|path|..] == [];
    if Accepts("**", path) {
      var k :| 0 <= k <= |path| && AllDots(path[..k]) && Accepts("**"[2..], path[k..]);
      assert k == |path|;
    }
  }

  /** A single star accepts exactly the texts of one segment, whatever lines they have. */
  lemma {:induction false} StarStaysInSegment(path: string)
    ensures Accepts("*", path) <==> '/' !in path
    ensures Excluded("*", path)
  {
    assert "*"[1..] == [] && path[..|path|] == path && path[|path|..] == [];
    if Accepts("*", path) {
      var k :| 0 <= k <= |path| && NoSlash(path[..k]) && Accepts("*"[1..], path[k..]);
      assert k == |path|;
    }
    var part := Split(path)[0];
    SegmentsAreSlashFree(path);
    assert part in Split(path) && part[..|part|] == part && part[|part|..] == [];
    assert InLanguage("*", part);
  }

  /** A pattern with an inner slash and no trailing one covers its own path only. */
  lemma {:induction false} InnerSlashCoversOnlyItself(pattern: string, path: string)
    requires '/' in pattern && '*' !in pattern && !EndsWithSlash(pattern)
    ensures Excluded(pattern, path) <==> path == pattern
    ensures Excluded(pattern, pattern) && !Excluded(pattern, Under(pattern, "x"))
  {
    LiteralsAcceptThemselves(pattern, path);
    LiteralsAcceptThemselves(pattern, pattern);
    LiteralsAcceptThemselves(pattern, Under(pattern, "x"));
  }

  lemma {:induction false} LiteralsAcceptThemselves(pattern: string, path: string)
    requires '*' !in pattern
    ensures Accepts(pattern, path) <==> path == pattern
    decreases |pattern|
  {
    if pattern != [] {
      assert pattern == [pattern[0]] + pattern[1..];
      if path != [] {
        assert path == [path[0]] + path[1..];
        LiteralsAcceptThemselves(pattern[1..], path[1..]);
      }
    }
  }
}

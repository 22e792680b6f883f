/** Three-valued comparison of claim scopes, dimension by dimension. */
module ScopeComparison {
  import opened Common
  import opened Ordering

  datatype Flag = TextFlag(text: string) | BoolFlag(value: bool) | OtherFlag

  /** What a scope record may hold under a key: a string, an object, or something no comparison looks at. */
  datatype ScopeValue = Text(text: string) | Flags(flags: map<string, Flag>) | Other

  type ScopeRecord = map<string, ScopeValue>

  datatype Comparison = Match | Mismatch | Unknown | NotApplicable

  datatype Status = Overlap | Disjoint | UnknownOverlap

  datatype OverlapResult = OverlapResult(
    status: Status, matched: seq<string>, mismatched: seq<string>, unknown: seq<string>, reason: string)

  /** What one comparison function records, and under which name. */
  datatype Verdict = Verdict(dimension: string, result: Comparison)

  function StringScope(scope: ScopeRecord, key: string): string {
    if key in scope && scope[key].Text? then scope[key].text else ""
  }

  function PackageRootOf(scope: ScopeRecord): string {
    var root := StringScope(scope, "packageRoot");
    if root != "" then root else StringScope(scope, "serviceRoot")
  }

  // ----- feature flags -----

  datatype FeatureScope = FeatureScope(present: bool, unknown: bool, flags: map<string, string>)

  function FlagText(flag: Flag): string {
    match flag
    case TextFlag(text) => text
    case BoolFlag(value) => if value then "true" else "false"
    case OtherFlag => ""
  }

  function NormalizeFeatures(scope: ScopeRecord): FeatureScope {
    var featureFlag := StringScope(scope, "featureFlag");
    if featureFlag == "unknown" then FeatureScope(true, true, map[])
    else if featureFlag != "" then FeatureScope(true, false, map[featureFlag := "true"])
    else if "featureFlags" in scope && scope["featureFlags"].Flags? then
      var flags := scope["featureFlags"].flags;
      FeatureScope(true, exists k :: k in flags && flags[k] == TextFlag("unknown"),
                   map k | k in flags && !flags[k].OtherFlag? :: k := FlagText(flags[k]))
    else FeatureScope(false, false, map[])
  }

  function CompareFeatures(left: FeatureScope, right: FeatureScope): Comparison {
    if !left.present && !right.present then NotApplicable
    else if left.unknown || right.unknown then Unknown
    else if !left.present || !right.present then Unknown
    else if exists k :: k in left.flags && k in right.flags && right.flags[k] != left.flags[k] then Mismatch
    else Match
  }

  // ----- single values -----

  function CompareEnvironment(left: string, right: string): Comparison {
    if left == "" && right == "" then NotApplicable
    else if left == "unknown" || right == "unknown" then Unknown
    else if left == "*" || right == "*" then Match
    else if left == "" || right == "" then Unknown
    else if left == right then Match else Mismatch
  }

  function CompareOptional(left: string, right: string): Comparison {
    if left == "" && right == "" then NotApplicable
    else if left == "" || right == "" then Unknown
    else if left == right then Match else Mismatch
  }

  function CompareRequired(left: string, right: string): Comparison {
    if left == "" || right == "" then Unknown else if left == right then Match else Mismatch
  }

  // ----- verdicts -----

  function RequiredVerdict(left: ScopeRecord, right: ScopeRecord, key: string): Verdict {
    Verdict(key, CompareRequired(StringScope(left, key), StringScope(right, key)))
  }

  function EnvironmentVerdict(left: ScopeRecord, right: ScopeRecord): Verdict {
    Verdict("environment", CompareEnvironment(StringScope(left, "environment"), StringScope(right, "environment")))
  }

  function FeatureVerdict(left: ScopeRecord, right: ScopeRecord): Verdict {
    Verdict("featureFlags", CompareFeatures(NormalizeFeatures(left), NormalizeFeatures(right)))
  }

  function PackageVerdict(left: ScopeRecord, right: ScopeRecord): Verdict {
    Verdict("packageRoot", CompareOptional(PackageRootOf(left), PackageRootOf(right)))
  }

  function SessionVerdict(left: ScopeRecord, right: ScopeRecord): Verdict {
    Verdict("sessionId", CompareOptional(StringScope(left, "sessionId"), StringScope(right, "sessionId")))
  }

  function SourceVerdict(left: ScopeRecord, right: ScopeRecord): Verdict {
    var l, r := StringScope(left, "sourceScope"), StringScope(right, "sourceScope");
    if l == "" || r == "" then Verdict("sourceScope", Unknown)
    else if l == "committed" && r == "committed" then Verdict("sourceScope", Match)
    else if l == "committed" || r == "committed" then Verdict("sourceScope", Mismatch)
    else RequiredVerdict(left, right, "worktreeHash")
  }

  function SharedVerdicts(left: ScopeRecord, right: ScopeRecord): seq<Verdict> {
    [EnvironmentVerdict(left, right), FeatureVerdict(left, right), PackageVerdict(left, right),
     SessionVerdict(left, right), SourceVerdict(left, right)]
  }

  function OverlapVerdicts(left: ScopeRecord, right: ScopeRecord): seq<Verdict> {
    [RequiredVerdict(left, right, "branch"), RequiredVerdict(left, right, "commit")] + SharedVerdicts(left, right)
  }

  function SupersessionVerdicts(left: ScopeRecord, right: ScopeRecord): seq<Verdict> {
    [RequiredVerdict(left, right, "branch"), RequiredVerdict(left, right, "commit"),
     RequiredVerdict(left, right, "sourceRef")] + SharedVerdicts(left, right)
  }

  function DimensionOf(v: Verdict): string { v.dimension }

  function DimensionsWith(verdicts: seq<Verdict>, result: Comparison): seq<string> {
    Map(Filter(verdicts, (v: Verdict) => v.result == result), DimensionOf)
  }

  // ----- the result -----

  function Deduplicated(names: seq<string>): seq<string> {
    if names == [] then [] else
    var init, last := names[..|names| - 1], names[|names| - 1];
    if last in init then Deduplicated(init) else Deduplicated(init) + [last]
  }

  function Details(names: seq<string>): seq<string> {
    Sort(Deduplicated(names), StringLess)
  }

  function StatusOf(verdicts: seq<Verdict>): Status {
    if DimensionsWith(verdicts, Mismatch) != [] then Disjoint
    else if DimensionsWith(verdicts, Unknown) != [] then UnknownOverlap
    else Overlap
  }

  function StatusName(status: Status): string {
    match status case Overlap => "overlap" case Disjoint => "disjoint" case UnknownOverlap => "unknown"
  }

  function JoinedNames(names: seq<string>): string {
    if names == [] then ""
    else if |names| == 1 then names[0]
    else JoinedNames(names[..|names| - 1]) + ", " + names[|names| - 1]
  }

  /** Names are joined by commas, wherever the list is cut. */
  lemma {:induction false} JoinedByCommas(a: seq<string>, b: seq<string>)
    requires a != [] && b != []
    ensures JoinedNames(a + b) == JoinedNames(a) + ", " + JoinedNames(b)
    ensures JoinedNames([a[0]]) == a[0]
    decreases |b|
  {
    var init, last := b[..|b| - 1], b[|b| - 1];
    assert (a + b)[..|a + b| - 1] == a + init;
    if init == [] {
      assert a + init == a;
    } else {
      JoinedByCommas(a, init);
      ConcatAssociative(JoinedNames(a) + ", ", JoinedNames(init), ", " + last);
      ConcatAssociative(JoinedNames(init), ", ", last);
      ConcatAssociative(JoinedNames(a) + ", " + JoinedNames(init), ", ", last);
    }
  }

  /** The sentence names the dimensions that decided the status. */
  function ScopeReason(status: Status, matched: seq<string>, mismatched: seq<string>, unknown: seq<string>): string {
    var said := "scope " + StatusName(status) + ": ";
    if mismatched != [] then said + "mismatched " + JoinedNames(mismatched)
    else if unknown != [] then said + "unknown " + JoinedNames(unknown)
    else if matched != [] then said + "matched " + JoinedNames(matched)
    else said + "no scoped dimensions"
  }

  function ResultWith(
    status: Status, matched: seq<string>, mismatched: seq<string>, unknown: seq<string>): OverlapResult
  {
    OverlapResult(status, matched, mismatched, unknown, ScopeReason(status, matched, mismatched, unknown))
  }

  function ResultOf(verdicts: seq<Verdict>): OverlapResult {
    ResultWith(StatusOf(verdicts), Details(DimensionsWith(verdicts, Match)),
               Details(DimensionsWith(verdicts, Mismatch)), Details(DimensionsWith(verdicts, Unknown)))
  }

  function ScopesOverlap(left: ScopeRecord, right: ScopeRecord): OverlapResult {
    ResultOf(OverlapVerdicts(left, right))
  }

  function ScopesCompatible(source: ScopeRecord, target: ScopeRecord): OverlapResult {
    ResultOf(SupersessionVerdicts(source, target))
  }

  // ----- the mutable comparison -----

  class MutableScopeComparison {
    var matchedDimensions: seq<string>
    var mismatchedDimensions: seq<string>
    var unknownDimensions: seq<string>

    ghost predicate Records(verdicts: seq<Verdict>)
      reads this
    {
      && matchedDimensions == DimensionsWith(verdicts, Match)
      && mismatchedDimensions == DimensionsWith(verdicts, Mismatch)
      && unknownDimensions == DimensionsWith(verdicts, Unknown)
    }

    constructor ()
      ensures Records([])
    {
      matchedDimensions, mismatchedDimensions, unknownDimensions := [], [], [];
    }

    method RecordDimension(dimension: string, result: Comparison, ghost verdicts: seq<Verdict>)
      requires Records(verdicts) && (result.Match? || result.Mismatch?)
      modifies this
      ensures Records(verdicts + [Verdict(dimension, result)])
    {
      Recorded(verdicts, Verdict(dimension, result));
      if result == Match {
        matchedDimensions := matchedDimensions + [dimension];
      } else {
        mismatchedDimensions := mismatchedDimensions + [dimension];
      }
    }

    method RecordOptionalDimension(dimension: string, result: Comparison, ghost verdicts: seq<Verdict>)
      requires Records(verdicts)
      modifies this
      ensures Records(verdicts + [Verdict(dimension, result)])
    {
      if result == Match || result == Mismatch {
        RecordDimension(dimension, result, verdicts);
      } else {
        Recorded(verdicts, Verdict(dimension, result));
        if result == Unknown {
          unknownDimensions := unknownDimensions + [dimension];
        }
      }
    }

    method CompareRequiredStringDimensions(
      left: ScopeRecord, right: ScopeRecord, key: string, ghost verdicts: seq<Verdict>)
      requires Records(verdicts)
      modifies this
      ensures Records(verdicts + [RequiredVerdict(left, right, key)])
    {
      var leftValue, rightValue := StringScope(left, key), StringScope(right, key);
      if leftValue == "" || rightValue == "" {
        Recorded(verdicts, Verdict(key, Unknown));
        unknownDimensions := unknownDimensions + [key];
        return;
      }
      RecordDimension(key, if leftValue == rightValue then Match else Mismatch, verdicts);
    }

    method CompareSourceScopeDimensions(left: ScopeRecord, right: ScopeRecord, ghost verdicts: seq<Verdict>)
      requires Records(verdicts)
      modifies this
      ensures Records(verdicts + [SourceVerdict(left, right)])
    {
      Recorded(verdicts, SourceVerdict(left, right));
      var l, r := StringScope(left, "sourceScope"), StringScope(right, "sourceScope");
      if l == "" || r == "" {
        unknownDimensions := unknownDimensions + ["sourceScope"];
        return;
      }
      if l == "committed" && r == "committed" {
        matchedDimensions := matchedDimensions + ["sourceScope"];
        return;
      }
      if l == "committed" || r == "committed" {
        mismatchedDimensions := mismatchedDimensions + ["sourceScope"];
        return;
      }
      CompareRequiredStringDimensions(left, right, "worktreeHash", verdicts);
    }

    /** The five comparisons both operations end with. */
    method CompareShared(left: ScopeRecord, right: ScopeRecord, ghost verdicts: seq<Verdict>)
      requires Records(verdicts)
      modifies this
      ensures Records(verdicts + SharedVerdicts(left, right))
    {
      hide Records, SourceVerdict, NormalizeFeatures, CompareFeatures, CompareEnvironment, CompareOptional;
      ghost var vs := SharedVerdicts(left, right);
      RecordOptionalDimension("environment",
        CompareEnvironment(StringScope(left, "environment"), StringScope(right, "environment")), verdicts);
      RecordOptionalDimension("featureFlags",
        CompareFeatures(NormalizeFeatures(left), NormalizeFeatures(right)), verdicts + [vs[0]]);
      RecordOptionalDimension("packageRoot",
        CompareOptional(PackageRootOf(left), PackageRootOf(right)), verdicts + [vs[0]] + [vs[1]]);
      RecordOptionalDimension("sessionId",
        CompareOptional(StringScope(left, "sessionId"), StringScope(right, "sessionId")),
        verdicts + [vs[0]] + [vs[1]] + [vs[2]]);
      CompareSourceScopeDimensions(left, right, verdicts + [vs[0]] + [vs[1]] + [vs[2]] + [vs[3]]);
      assert verdicts + [vs[0]] + [vs[1]] + [vs[2]] + [vs[3]] + [vs[4]] == verdicts + vs;
    }

    method Result(ghost verdicts: seq<Verdict>) returns (r: OverlapResult)
      requires Records(verdicts)
      ensures r == ResultOf(verdicts)
    {
      var status :=
        if |mismatchedDimensions| > 0 then Disjoint else if |unknownDimensions| > 0 then UnknownOverlap else Overlap;
      r := ResultWith(status, Details(matchedDimensions), Details(mismatchedDimensions), Details(unknownDimensions));
    }
  }

  lemma {:induction false} Recorded(verdicts: seq<Verdict>, v: Verdict)
    ensures forall result :: DimensionsWith(verdicts + [v], result) ==
                             DimensionsWith(verdicts, result) + if v.result == result then [v.dimension] else []
  {
    forall result ensures DimensionsWith(verdicts + [v], result) ==
                          DimensionsWith(verdicts, result) + if v.result == result then [v.dimension] else []
    {
      FilterSnoc(verdicts, v, (w: Verdict) => w.result == result);
    }
  }

  method ClaimScopesOverlap(left: ScopeRecord, right: ScopeRecord) returns (r: OverlapResult)
    ensures r == ScopesOverlap(left, right)
  {
    hide ResultOf, RequiredVerdict, SharedVerdicts;
    var comparison := new MutableScopeComparison();
    ghost var branch, commit := RequiredVerdict(left, right, "branch"), RequiredVerdict(left, right, "commit");
    comparison.CompareRequiredStringDimensions(left, right, "branch", []);
    comparison.CompareRequiredStringDimensions(left, right, "commit", [] + [branch]);
    comparison.CompareShared(left, right, [] + [branch] + [commit]);
    assert [] + [branch] + [commit] == [branch, commit];
    r := comparison.Result(OverlapVerdicts(left, right));
  }

  method ClaimScopesCompatibleForSupersession(source: ScopeRecord, target: ScopeRecord) returns (r: OverlapResult)
    ensures r == ScopesCompatible(source, target)
  {
    hide ResultOf, RequiredVerdict, SharedVerdicts;
    var comparison := new MutableScopeComparison();
    ghost var branch, commit := RequiredVerdict(source, target, "branch"), RequiredVerdict(source, target, "commit");
    ghost var ref := RequiredVerdict(source, target, "sourceRef");
    comparison.CompareRequiredStringDimensions(source, target, "branch", []);
    comparison.CompareRequiredStringDimensions(source, target, "commit", [] + [branch]);
    comparison.CompareRequiredStringDimensions(source, target, "sourceRef", [] + [branch] + [commit]);
    comparison.CompareShared(source, target, [] + [branch] + [commit] + [ref]);
    assert [] + [branch] + [commit] + [ref] == [branch, commit, ref];
    r := comparison.Result(SupersessionVerdicts(source, target));
  }

  // ----- what comparison promises -----

  lemma {:induction false} FeaturesSymmetric(left: FeatureScope, right: FeatureScope)
    ensures CompareFeatures(left, right) == CompareFeatures(right, left)
  {
    if k :| k in left.flags && k in right.flags && right.flags[k] != left.flags[k] {
      assert k in right.flags && k in left.flags && left.flags[k] != right.flags[k];
    }
    if k :| k in right.flags && k in left.flags && left.flags[k] != right.flags[k] {
      assert k in left.flags && k in right.flags && right.flags[k] != left.flags[k];
    }
  }

  /** Swapping the scopes changes nothing: not the status, not one dimension list. */
  lemma {:induction false} ComparisonIsSymmetric(left: ScopeRecord, right: ScopeRecord)
    ensures ScopesOverlap(left, right) == ScopesOverlap(right, left)
    ensures ScopesCompatible(left, right) == ScopesCompatible(right, left)
  {
    FeaturesSymmetric(NormalizeFeatures(left), NormalizeFeatures(right));
    hide ResultOf, NormalizeFeatures, CompareFeatures, StringScope;
    assert SharedVerdicts(left, right) == SharedVerdicts(right, left);
    assert OverlapVerdicts(left, right) == OverlapVerdicts(right, left);
    assert SupersessionVerdicts(left, right) == SupersessionVerdicts(right, left);
  }

  lemma {:induction false} SomeVerdictIff(verdicts: seq<Verdict>, result: Comparison)
    ensures DimensionsWith(verdicts, result) != [] <==> exists i :: 0 <= i < |verdicts| && verdicts[i].result == result
  {
    var p := (v: Verdict) => v.result == result;
    FilterContains(verdicts, p);
    if Filter(verdicts, p) != [] {
      assert Filter(verdicts, p)[0] in verdicts;
    }
    if i :| 0 <= i < |verdicts| && verdicts[i].result == result {
      assert verdicts[i] in Filter(verdicts, p);
    }
  }

  /** The three statuses, each by what some or all comparisons said. */
  lemma {:induction false} StatusIff(verdicts: seq<Verdict>)
    ensures StatusOf(verdicts) == Disjoint <==> exists v :: v in verdicts && v.result == Mismatch
    ensures StatusOf(verdicts) == Overlap <==>
              forall v :: v in verdicts ==> v.result == Match || v.result == NotApplicable
  {
    SomeVerdictIff(verdicts, Mismatch);
    SomeVerdictIff(verdicts, Unknown);
    if StatusOf(verdicts) == Overlap {
      forall v | v in verdicts ensures v.result == Match || v.result == NotApplicable {
        var i :| 0 <= i < |verdicts| && verdicts[i] == v;
      }
    }
  }

  /** A claim may supersede another only if their scopes overlap, and then exactly if they name the same source. */
  lemma {:induction false} CompatibleIffOverlapOnSameSource(left: ScopeRecord, right: ScopeRecord)
    ensures ScopesCompatible(left, right).status == Overlap <==>
            ScopesOverlap(left, right).status == Overlap &&
            StringScope(left, "sourceRef") == StringScope(right, "sourceRef") != ""
  {
    hide SharedVerdicts;
    var overlap, compatible := OverlapVerdicts(left, right), SupersessionVerdicts(left, right);
    var ref := RequiredVerdict(left, right, "sourceRef");
    StatusIff(overlap);
    StatusIff(compatible);
    assert compatible[2] == ref && ref in compatible;
    forall v ensures v in compatible <==> v in overlap || v == ref {
      assert compatible == [compatible[0], compatible[1]] + [ref] + SharedVerdicts(left, right);
      assert overlap == [compatible[0], compatible[1]] + SharedVerdicts(left, right);
    }
  }

  lemma {:induction false} FeaturesMatchThemselves(scope: FeatureScope)
    ensures CompareFeatures(scope, scope) != Mismatch
  {
  }

  lemma {:induction false} NoMismatchWithItself(scope: ScopeRecord, v: Verdict)
    requires v in OverlapVerdicts(scope, scope) || v in SupersessionVerdicts(scope, scope)
    ensures v.result != Mismatch
  {
    FeaturesMatchThemselves(NormalizeFeatures(scope));
    hide NormalizeFeatures, CompareFeatures, StringScope;
  }

  /** No scope is disjoint from itself, whatever it leaves unknown. */
  lemma {:induction false} NeverDisjointFromItself(scope: ScopeRecord)
    ensures ScopesOverlap(scope, scope).status != Disjoint && ScopesCompatible(scope, scope).status != Disjoint
  {
    hide OverlapVerdicts, SupersessionVerdicts, StatusOf;
    StatusIff(OverlapVerdicts(scope, scope));
    StatusIff(SupersessionVerdicts(scope, scope));
    forall v | v in OverlapVerdicts(scope, scope) || v in SupersessionVerdicts(scope, scope)
      ensures v.result != Mismatch
    {
      NoMismatchWithItself(scope, v);
    }
  }

  // ----- filling in what a scope left open -----

  /** `learned` says everything `scope` says. */
  predicate Extends(scope: ScopeRecord, learned: ScopeRecord) {
    forall k :: k in scope ==> k in learned && learned[k] == scope[k]
  }

  /** No package root takes over from the one in force. */
  predicate KeepsRoot(scope: ScopeRecord, learned: ScopeRecord) {
    PackageRootOf(scope) == "" || PackageRootOf(learned) == PackageRootOf(scope)
  }

  /** Known flags stay known and keep their values. */
  predicate KeepsFlags(scope: ScopeRecord, learned: ScopeRecord) {
    var before, after := NormalizeFeatures(scope), NormalizeFeatures(learned);
    before.present && !before.unknown && before.flags != map[] ==>
      !after.unknown && forall k :: k in before.flags ==> k in after.flags && after.flags[k] == before.flags[k]
  }

  ghost predicate NeverReconciles(left: ScopeRecord, learned: ScopeRecord) {
    forall right :: ScopesOverlap(left, right).status == Disjoint ==> ScopesOverlap(learned, right).status == Disjoint
  }

  lemma {:induction false} ExtendedText(scope: ScopeRecord, learned: ScopeRecord, key: string)
    requires Extends(scope, learned)
    ensures StringScope(scope, key) != "" ==> StringScope(learned, key) == StringScope(scope, key)
  {
  }

  lemma {:induction false} ExtendedValues(left: ScopeRecord, learned: ScopeRecord, right: ScopeRecord, key: string)
    requires Extends(left, learned)
    ensures RequiredVerdict(left, right, key).result == Mismatch ==>
              RequiredVerdict(learned, right, key).result == Mismatch
    ensures EnvironmentVerdict(left, right).result == Mismatch ==> EnvironmentVerdict(learned, right).result == Mismatch
    ensures SessionVerdict(left, right).result == Mismatch ==> SessionVerdict(learned, right).result == Mismatch
  {
    ExtendedText(left, learned, key);
    ExtendedText(left, learned, "environment");
    ExtendedText(left, learned, "sessionId");
    hide Extends, StringScope;
  }

  lemma {:induction false} ExtendedSource(left: ScopeRecord, learned: ScopeRecord, right: ScopeRecord)
    requires Extends(left, learned)
    ensures SourceVerdict(left, right).result == Mismatch ==> SourceVerdict(learned, right).result == Mismatch
  {
    ExtendedText(left, learned, "sourceScope");
    ExtendedText(left, learned, "worktreeHash");
    hide Extends, StringScope;
  }

  lemma {:induction false} KeptPlace(left: ScopeRecord, learned: ScopeRecord, right: ScopeRecord)
    requires KeepsRoot(left, learned) && KeepsFlags(left, learned)
    ensures FeatureVerdict(left, right).result == Mismatch ==> FeatureVerdict(learned, right).result == Mismatch
    ensures PackageVerdict(left, right).result == Mismatch ==> PackageVerdict(learned, right).result == Mismatch
  {
    FlagsMeanPresent(learned);
    hide NormalizeFeatures, PackageRootOf;
  }

  lemma {:induction false} FlagsMeanPresent(scope: ScopeRecord)
    ensures NormalizeFeatures(scope).flags != map[] ==> NormalizeFeatures(scope).present
  {
  }

  lemma {:induction false} SevenVerdicts(left: ScopeRecord, right: ScopeRecord)
    ensures forall v :: v in OverlapVerdicts(left, right) <==>
              v in {RequiredVerdict(left, right, "branch"), RequiredVerdict(left, right, "commit"),
                    EnvironmentVerdict(left, right), FeatureVerdict(left, right), PackageVerdict(left, right),
                    SessionVerdict(left, right), SourceVerdict(left, right)}
  {
    hide RequiredVerdict, EnvironmentVerdict, FeatureVerdict, PackageVerdict, SessionVerdict, SourceVerdict;
    var vs := OverlapVerdicts(left, right);
    assert |vs| == 7 && vs[0] == RequiredVerdict(left, right, "branch") &&
      vs[1] == RequiredVerdict(left, right, "commit");
    assert vs[2] == EnvironmentVerdict(left, right) && vs[3] == FeatureVerdict(left, right);
    assert vs[4] == PackageVerdict(left, right) && vs[5] == SessionVerdict(left, right);
    assert vs[6] == SourceVerdict(left, right);
  }

  /** Two scopes are disjoint iff one of the seven verdicts is a mismatch; one unknown verdict rules out overlap. */
  lemma {:induction false} DisjointIff(left: ScopeRecord, right: ScopeRecord)
    ensures ScopesOverlap(left, right).status == Disjoint <==>
            || RequiredVerdict(left, right, "branch").result == Mismatch
            || RequiredVerdict(left, right, "commit").result == Mismatch
            || EnvironmentVerdict(left, right).result == Mismatch || FeatureVerdict(left, right).result == Mismatch
            || PackageVerdict(left, right).result == Mismatch || SessionVerdict(left, right).result == Mismatch
            || SourceVerdict(left, right).result == Mismatch
    ensures RequiredVerdict(left, right, "branch").result == Unknown ==> ScopesOverlap(left, right).status != Overlap
  {
    hide RequiredVerdict, EnvironmentVerdict, FeatureVerdict, PackageVerdict, SessionVerdict, SourceVerdict;
    hide OverlapVerdicts, StatusOf;
    SevenVerdicts(left, right);
    StatusIff(OverlapVerdicts(left, right));
  }

  lemma {:induction false} StaysDisjoint(left: ScopeRecord, learned: ScopeRecord, right: ScopeRecord)
    requires Extends(left, learned) && KeepsRoot(left, learned) && KeepsFlags(left, learned)
    requires ScopesOverlap(left, right).status == Disjoint
    ensures ScopesOverlap(learned, right).status == Disjoint
  {
    KeptPlace(left, learned, right);
    ExtendedValues(left, learned, right, "branch");
    ExtendedValues(left, learned, right, "commit");
    ExtendedSource(left, learned, right);
    DisjointIff(left, right);
    DisjointIff(learned, right);
    hide Extends, KeepsRoot, KeepsFlags, ScopesOverlap, RequiredVerdict, EnvironmentVerdict, FeatureVerdict;
    hide PackageVerdict, SessionVerdict, SourceVerdict;
  }

  /** A scope that names only a package root, or only feature flags. */
  predicate NamesOnly(scope: ScopeRecord, keys: set<string>) {
    scope.Keys <= keys && keys <= {"packageRoot", "featureFlags"}
  }

  lemma {:induction false} OtherwiseSilent(left: ScopeRecord, right: ScopeRecord)
    requires NamesOnly(right, right.Keys)
    ensures RequiredVerdict(left, right, "branch").result == Unknown &&
            RequiredVerdict(left, right, "commit").result == Unknown
    ensures EnvironmentVerdict(left, right).result != Mismatch && SessionVerdict(left, right).result != Mismatch
    ensures SourceVerdict(left, right).result != Mismatch
  {
    forall key | key in {"branch", "commit", "environment", "sessionId", "sourceScope"}
      ensures StringScope(right, key) == ""
    {
    }
    hide StringScope, NamesOnly;
  }

  /** Against such a scope only the package root and the flags can mismatch. */
  lemma {:induction false} TwoDecide(left: ScopeRecord, right: ScopeRecord)
    requires NamesOnly(right, right.Keys)
    ensures ScopesOverlap(left, right).status ==
            if FeatureVerdict(left, right).result == Mismatch ||
              PackageVerdict(left, right).result == Mismatch then Disjoint
            else UnknownOverlap
  {
    OtherwiseSilent(left, right);
    DisjointIff(left, right);
    hide NamesOnly, FeatureVerdict, PackageVerdict, RequiredVerdict, EnvironmentVerdict, SessionVerdict, SourceVerdict;
    hide ScopesOverlap;
  }

  function OnlyRoot(root: string): ScopeRecord {
    map["packageRoot" := Text(root)]
  }

  function OnlyFlag(key: string, value: string): ScopeRecord {
    map["featureFlags" := Flags(map[key := TextFlag(value)])]
  }

  lemma {:induction false} OnlyRootFacts(root: string)
    ensures NamesOnly(OnlyRoot(root), OnlyRoot(root).Keys) && PackageRootOf(OnlyRoot(root)) == root
    ensures !NormalizeFeatures(OnlyRoot(root)).present
  {
  }

  lemma {:induction false} OnlyFlagFacts(key: string, value: string)
    requires value != "unknown"
    ensures NamesOnly(OnlyFlag(key, value), OnlyFlag(key, value).Keys) && PackageRootOf(OnlyFlag(key, value)) == ""
    ensures NormalizeFeatures(OnlyFlag(key, value)) == FeatureScope(true, false, map[key := value])
  {
    var scope := OnlyFlag(key, value);
    assert NormalizeFeatures(scope).flags == map[key := value];
  }

  /** A package root added over a service root meets whoever already had it. */
  lemma {:induction false} RootTakesOver(left: ScopeRecord, learned: ScopeRecord)
    requires Extends(left, learned) && !KeepsRoot(left, learned)
    ensures var right := OnlyRoot(PackageRootOf(learned));
            ScopesOverlap(left, right).status == Disjoint && ScopesOverlap(learned, right).status == UnknownOverlap
  {
    var right := OnlyRoot(PackageRootOf(learned));
    ExtendedText(left, learned, "packageRoot");
    ExtendedText(left, learned, "serviceRoot");
    OnlyRootFacts(PackageRootOf(learned));
    assert PackageRootOf(learned) != "" && PackageRootOf(left) != "";
    TwoDecide(left, right);
    TwoDecide(learned, right);
    hide NormalizeFeatures, Extends;
  }

  /** A value other than `mine` for a flag, and one that `theirs` does not contradict. */
  function OtherValue(mine: string, theirs: FeatureScope, key: string): string {
    if key in theirs.flags && theirs.flags[key] != mine && theirs.flags[key] != "unknown" then theirs.flags[key]
    else if mine == "on" then "off" else "on"
  }

  lemma {:induction false} KnownFlagsAreNotUnknown(scope: ScopeRecord, key: string)
    requires !NormalizeFeatures(scope).unknown && key in NormalizeFeatures(scope).flags
    ensures NormalizeFeatures(scope).flags[key] != "unknown"
  {
  }

  lemma {:induction false} FlagAgainst(left: ScopeRecord, key: string, value: string)
    requires value != "unknown"
    ensures var before := NormalizeFeatures(left);
            FeatureVerdict(left, OnlyFlag(key, value)).result == Mismatch <==>
            before.present && !before.unknown && key in before.flags && before.flags[key] != value
  {
    OnlyFlagFacts(key, value);
    hide NormalizeFeatures, OnlyFlag;
    var right := NormalizeFeatures(OnlyFlag(key, value));
    assert key in right.flags && right.flags[key] == value;
    assert forall k :: k in right.flags ==> k == key;
  }

  lemma {:induction false} FlagDecides(left: ScopeRecord, key: string, value: string)
    requires value != "unknown"
    ensures ScopesOverlap(left, OnlyFlag(key, value)).status ==
            if FeatureVerdict(left, OnlyFlag(key, value)).result == Mismatch then Disjoint else UnknownOverlap
  {
    OnlyFlagFacts(key, value);
    TwoDecide(left, OnlyFlag(key, value));
    hide OnlyFlag, FeatureVerdict, ScopesOverlap, NamesOnly, PackageRootOf, NormalizeFeatures;
  }

  /** Flags that are dropped or become unknown meet whoever had another value. */
  lemma {:induction false} FlagsTakeOver(left: ScopeRecord, learned: ScopeRecord) returns (right: ScopeRecord)
    requires !KeepsFlags(left, learned)
    ensures ScopesOverlap(left, right).status == Disjoint && ScopesOverlap(learned, right).status == UnknownOverlap
  {
    var before, after := NormalizeFeatures(left), NormalizeFeatures(learned);
    hide NormalizeFeatures, ScopesOverlap, OnlyFlag, FeatureVerdict;
    var key: string;
    if after.unknown {
      key :| key in before.flags;
    } else {
      key :| key in before.flags && !(key in after.flags && after.flags[key] == before.flags[key]);
      if key in after.flags {
        KnownFlagsAreNotUnknown(learned, key);
      }
    }
    var value := OtherValue(before.flags[key], after, key);
    right := OnlyFlag(key, value);
    FlagAgainst(left, key, value);
    FlagAgainst(learned, key, value);
    FlagDecides(left, key, value);
    FlagDecides(learned, key, value);
  }

  /**
    Filling in a scope keeps every scope disjoint from it disjoint iff no package root takes over from the one in force
    and flags once known stay known with their values.
  */
  lemma {:induction false} LearningNeverReconcilesIff(left: ScopeRecord, learned: ScopeRecord)
    requires Extends(left, learned)
    ensures NeverReconciles(left, learned) <==> KeepsRoot(left, learned) && KeepsFlags(left, learned)
  {
    hide Extends, KeepsRoot, KeepsFlags, ScopesOverlap;
    if KeepsRoot(left, learned) && KeepsFlags(left, learned) {
      forall right | ScopesOverlap(left, right).status == Disjoint
        ensures ScopesOverlap(learned, right).status == Disjoint
      {
        StaysDisjoint(left, learned, right);
      }
    } else if KeepsRoot(left, learned) {
      var right := FlagsTakeOver(left, learned);
    } else {
      RootTakesOver(left, learned);
    }
  }

  /** Concretely: a service root and a package root added later. */
  lemma {:induction false} PackageRootReconciles(left: ScopeRecord, learned: ScopeRecord)
    requires left == map["serviceRoot" := Text("svc/a")] && learned == left["packageRoot" := Text("pkg/b")]
    ensures Extends(left, learned) && !NeverReconciles(left, learned)
  {
    assert PackageRootOf(left) == "svc/a" && PackageRootOf(learned) == "pkg/b";
    assert "svc/a"[0] != "pkg/b"[0];
    LearningNeverReconcilesIff(left, learned);
  }

  /** Concretely: flags and a single flag added later. */
  lemma {:induction false} OneFlagReconciles(left: ScopeRecord, learned: ScopeRecord)
    requires left == map["featureFlags" := Flags(map["beta" := BoolFlag(true)])]
    requires learned == left["featureFlag" := Text("new-ui")]
    ensures Extends(left, learned) && !NeverReconciles(left, learned)
  {
    assert "beta" in NormalizeFeatures(left).flags;
    assert NormalizeFeatures(learned).flags == map["new-ui" := "true"];
    assert "beta"[0] != "new-ui"[0];
    LearningNeverReconcilesIff(left, learned);
  }

  /** The reported dimension lists are sorted and name each recorded dimension once. */
  lemma {:induction false} DetailsAreTheSortedNames(names: seq<string>)
    ensures Sorted(Details(names), StringLess) && Distinct(Details(names))
    ensures forall name :: name in Details(names) <==> name in names
  {
    DeduplicatedIff(names);
    StringOrderIsTotal();
    TotalIsWeak(StringLess);
    SortSorts(Deduplicated(names), StringLess);
    DistinctCardinality(Deduplicated(names));
    DistinctCardinality(Details(names));
    assert (set x | x in Details(names)) == (set x | x in Deduplicated(names));
  }

  lemma {:induction false} DeduplicatedIff(names: seq<string>)
    ensures Distinct(Deduplicated(names))
    ensures forall name :: name in Deduplicated(names) <==> name in names
    decreases |names|
  {
    if names != [] {
      SplitLast(names);
      DeduplicatedIff(names[..|names| - 1]);
    }
  }
}

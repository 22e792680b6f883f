/** What scope records say, value by value, and what that decides about two of them. */
module ScopeValues {
  import opened Common
  import opened ScopeComparison

  predicate Says(scope: ScopeRecord, key: string, value: string) {
    key in scope && scope[key] == Text(value) && value != ""
  }

  predicate Silent(scope: ScopeRecord, key: string) {
    key !in scope || !scope[key].Text? || scope[key].text == ""
  }

  /** Both name a value for the key, and not the same. */
  ghost predicate TwoValues(left: ScopeRecord, right: ScopeRecord, key: string) {
    exists v, w :: v != w && Says(left, key, v) && Says(right, key, w)
  }

  ghost predicate OneValue(left: ScopeRecord, right: ScopeRecord, key: string) {
    exists v :: Says(left, key, v) && Says(right, key, v)
  }

  predicate BothSilent(left: ScopeRecord, right: ScopeRecord, key: string) {
    Silent(left, key) && Silent(right, key)
  }

  /** The package root, or the service root where no package root is named. */
  predicate HasRoot(scope: ScopeRecord, root: string) {
    Says(scope, "packageRoot", root) || (Silent(scope, "packageRoot") && Says(scope, "serviceRoot", root))
  }

  predicate NoRoot(scope: ScopeRecord) {
    Silent(scope, "packageRoot") && Silent(scope, "serviceRoot")
  }

  predicate Shows(flag: Flag, value: string) {
    flag == TextFlag(value) || (flag == BoolFlag(value == "true") && value in {"true", "false"})
  }

  predicate ListsFlags(scope: ScopeRecord) {
    Silent(scope, "featureFlag") && "featureFlags" in scope && scope["featureFlags"].Flags?
  }

  /** One flag of a record is named and switched on, or all of them are listed. */
  predicate NamesFlags(scope: ScopeRecord) {
    !Silent(scope, "featureFlag") || ListsFlags(scope)
  }

  predicate SomeUnknown(flags: map<string, Flag>) {
    exists k :: k in flags && flags[k] == TextFlag("unknown")
  }

  predicate FlagsUnknown(scope: ScopeRecord) {
    || Says(scope, "featureFlag", "unknown")
    || (ListsFlags(scope) && SomeUnknown(scope["featureFlags"].flags))
  }

  predicate HasFlag(scope: ScopeRecord, flag: string, value: string) {
    || (Says(scope, "featureFlag", flag) && flag != "unknown" && value == "true")
    || (ListsFlags(scope) && !FlagsUnknown(scope) && flag in scope["featureFlags"].flags &&
        Shows(scope["featureFlags"].flags[flag], value))
  }

  ghost predicate TwoFlagValues(left: ScopeRecord, right: ScopeRecord) {
    exists flag, v, w :: v != w && HasFlag(left, flag, v) && HasFlag(right, flag, w)
  }

  predicate Uncommitted(scope: ScopeRecord) {
    !Silent(scope, "sourceScope") && !Says(scope, "sourceScope", "committed")
  }

  ghost predicate Clashes(left: ScopeRecord, right: ScopeRecord, dimension: string) {
    if dimension in {"branch", "commit", "sessionId"} then TwoValues(left, right, dimension)
    else if dimension == "environment" then
      exists v, w :: v != w && v !in {"unknown", "*"} && w !in {"unknown", "*"} &&
        Says(left, dimension, v) && Says(right, dimension, w)
    else if dimension == "packageRoot" then exists v, w :: v != w && HasRoot(left, v) && HasRoot(right, w)
    else if dimension == "featureFlags" then TwoFlagValues(left, right)
    else if dimension == "sourceScope" then
      || (Says(left, dimension, "committed") && Uncommitted(right))
      || (Uncommitted(left) && Says(right, dimension, "committed"))
    else
      dimension == "worktreeHash" && Uncommitted(left) && Uncommitted(right) && TwoValues(left, right, dimension)
  }

  ghost predicate Agrees(left: ScopeRecord, right: ScopeRecord, dimension: string) {
    if dimension in {"branch", "commit", "sessionId"} then OneValue(left, right, dimension)
    else if dimension == "environment" then
      && !Says(left, dimension, "unknown") && !Says(right, dimension, "unknown")
      && (Says(left, dimension, "*") || Says(right, dimension, "*") || OneValue(left, right, dimension))
    else if dimension == "packageRoot" then exists v :: HasRoot(left, v) && HasRoot(right, v)
    else if dimension == "featureFlags" then
      && NamesFlags(left) && NamesFlags(right) && !FlagsUnknown(left) && !FlagsUnknown(right)
      && !TwoFlagValues(left, right)
    else if dimension == "sourceScope" then
      Says(left, dimension, "committed") && Says(right, dimension, "committed")
    else
      dimension == "worktreeHash" && Uncommitted(left) && Uncommitted(right) && OneValue(left, right, dimension)
  }

  /** Nothing to compare: neither record says anything. */
  predicate NotAsked(left: ScopeRecord, right: ScopeRecord, dimension: string) {
    if dimension == "packageRoot" then NoRoot(left) && NoRoot(right)
    else if dimension == "featureFlags" then !NamesFlags(left) && !NamesFlags(right)
    else dimension in {"environment", "sessionId"} && BothSilent(left, right, dimension)
  }

  /** What a verdict has to be. */
  ghost predicate ByValues(left: ScopeRecord, right: ScopeRecord, v: Verdict) {
    && (v.result == Mismatch <==> Clashes(left, right, v.dimension))
    && (v.result == Match <==> Agrees(left, right, v.dimension))
    && (v.result == NotApplicable <==> NotAsked(left, right, v.dimension))
  }

  // ----- single values -----

  lemma {:induction false} TextIs(scope: ScopeRecord, key: string)
    ensures Silent(scope, key) <==> StringScope(scope, key) == ""
    ensures forall v :: Says(scope, key, v) <==> v != "" && StringScope(scope, key) == v
  {
  }

  lemma {:induction false} ValuesAre(left: ScopeRecord, right: ScopeRecord, key: string)
    ensures var l, r := StringScope(left, key), StringScope(right, key);
            && (TwoValues(left, right, key) <==> l != "" && r != "" && l != r)
            && (OneValue(left, right, key) <==> l != "" && l == r)
            && (BothSilent(left, right, key) <==> l == "" && r == "")
  {
    TextIs(left, key);
    TextIs(right, key);
    var l, r := StringScope(left, key), StringScope(right, key);
    hide StringScope, Says;
    if l != "" && r != "" && l != r {
      assert Says(left, key, l) && Says(right, key, r);
    }
    if l != "" && l == r {
      assert Says(left, key, l) && Says(right, key, l);
    }
  }

  lemma {:induction false} RequiredByValues(left: ScopeRecord, right: ScopeRecord, key: string)
    requires key in {"branch", "commit"}
    ensures ByValues(left, right, RequiredVerdict(left, right, key))
  {
    ValuesAre(left, right, key);
    hide StringScope, TwoValues, OneValue;
  }

  lemma {:induction false} SessionByValues(left: ScopeRecord, right: ScopeRecord)
    ensures ByValues(left, right, SessionVerdict(left, right))
  {
    ValuesAre(left, right, "sessionId");
    hide StringScope, TwoValues, OneValue;
  }

  lemma {:induction false} EnvironmentByValues(left: ScopeRecord, right: ScopeRecord)
    ensures ByValues(left, right, EnvironmentVerdict(left, right))
  {
    var key := "environment";
    TextIs(left, key);
    TextIs(right, key);
    ValuesAre(left, right, key);
    var l, r := StringScope(left, key), StringScope(right, key);
    hide StringScope, Says, TwoValues, OneValue;
    if l != "" && r != "" {
      assert Says(left, key, l) && Says(right, key, r);
    }
  }

  lemma {:induction false} RootIs(scope: ScopeRecord)
    ensures NoRoot(scope) <==> PackageRootOf(scope) == ""
    ensures forall v :: HasRoot(scope, v) <==> v != "" && PackageRootOf(scope) == v
  {
    TextIs(scope, "packageRoot");
    TextIs(scope, "serviceRoot");
    hide StringScope, Says, Silent;
  }

  lemma {:induction false} PackageByValues(left: ScopeRecord, right: ScopeRecord)
    ensures ByValues(left, right, PackageVerdict(left, right))
  {
    RootIs(left);
    RootIs(right);
    var l, r := PackageRootOf(left), PackageRootOf(right);
    hide PackageRootOf, HasRoot, NoRoot;
    if l != "" && r != "" {
      assert HasRoot(left, l) && HasRoot(right, r);
    }
  }

  lemma {:induction false} SourceByValues(left: ScopeRecord, right: ScopeRecord)
    ensures ByValues(left, right, SourceVerdict(left, right))
  {
    TextIs(left, "sourceScope");
    TextIs(right, "sourceScope");
    ValuesAre(left, right, "worktreeHash");
    hide StringScope, Says, Silent, TwoValues, OneValue;
  }

  lemma {:induction false} FlagsAre(scope: ScopeRecord)
    ensures NamesFlags(scope) <==> NormalizeFeatures(scope).present
    ensures FlagsUnknown(scope) <==> NormalizeFeatures(scope).unknown
    ensures forall flag, v :: HasFlag(scope, flag, v) <==>
              !NormalizeFeatures(scope).unknown && flag in NormalizeFeatures(scope).flags &&
              NormalizeFeatures(scope).flags[flag] == v
  {
    TextIs(scope, "featureFlag");
    hide StringScope, Says, Silent;
  }

  lemma {:induction false} FeaturesByValues(left: ScopeRecord, right: ScopeRecord)
    ensures ByValues(left, right, FeatureVerdict(left, right))
  {
    FlagsAre(left);
    FlagsAre(right);
    FlagsMeanPresent(left);
    FlagsMeanPresent(right);
    var l, r := NormalizeFeatures(left), NormalizeFeatures(right);
    hide NormalizeFeatures, HasFlag, FlagsUnknown, NamesFlags;
    if !l.unknown && !r.unknown {
      if k :| k in l.flags && k in r.flags && r.flags[k] != l.flags[k] {
        assert HasFlag(left, k, l.flags[k]) && HasFlag(right, k, r.flags[k]);
      }
    }
  }

  // ----- two scopes -----

  lemma {:induction false} VerdictsByValues(left: ScopeRecord, right: ScopeRecord)
    ensures forall v :: v in OverlapVerdicts(left, right) ==> ByValues(left, right, v)
  {
    hide ByValues, OverlapVerdicts, RequiredVerdict, EnvironmentVerdict, FeatureVerdict, PackageVerdict;
    hide SessionVerdict, SourceVerdict;
    SevenVerdicts(left, right);
    RequiredByValues(left, right, "branch");
    RequiredByValues(left, right, "commit");
    EnvironmentByValues(left, right);
    FeaturesByValues(left, right);
    PackageByValues(left, right);
    SessionByValues(left, right);
    SourceByValues(left, right);
  }

  lemma {:induction false} SourceIsNamed(left: ScopeRecord, right: ScopeRecord, dimension: string)
    requires Clashes(left, right, dimension) || Agrees(left, right, dimension)
    requires dimension == "sourceScope" || dimension == "worktreeHash"
    ensures SourceVerdict(left, right).dimension == dimension
  {
    TextIs(left, "sourceScope");
    TextIs(right, "sourceScope");
    hide StringScope, Says, Silent, OneValue, TwoValues, HasRoot, TwoFlagValues, NamesFlags;
  }

  lemma {:induction false} DimensionsAre(left: ScopeRecord, right: ScopeRecord, dimension: string)
    requires Clashes(left, right, dimension) || Agrees(left, right, dimension)
    ensures dimension in {"branch", "commit", "sessionId", "environment", "packageRoot", "featureFlags", "sourceScope",
                          "worktreeHash"}
  {
    hide TwoValues, OneValue, TwoFlagValues, HasRoot, Says;
  }

  lemma {:induction false} VerdictNames(left: ScopeRecord, right: ScopeRecord, dimension: string)
    requires Clashes(left, right, dimension) || Agrees(left, right, dimension)
    ensures exists v :: v in OverlapVerdicts(left, right) && v.dimension == dimension
  {
    SevenVerdicts(left, right);
    MustBeAsked(left, right);
    DimensionsAre(left, right, dimension);
    if dimension == "sourceScope" || dimension == "worktreeHash" {
      SourceIsNamed(left, right, dimension);
    }
    hide Clashes, Agrees, OverlapVerdicts, RequiredVerdict, EnvironmentVerdict, FeatureVerdict, PackageVerdict;
    hide SessionVerdict, SourceVerdict;
  }

  lemma {:induction false} NamesWith(verdicts: seq<Verdict>, result: Comparison)
    ensures forall d :: d in DimensionsWith(verdicts, result) <==>
                        exists v :: v in verdicts && v.dimension == d && v.result == result
  {
    var p := (v: Verdict) => v.result == result;
    var kept := Filter(verdicts, p);
    FilterContains(verdicts, p);
    forall d ensures d in DimensionsWith(verdicts, result) <==>
                     exists v :: v in verdicts && v.dimension == d && v.result == result
    {
      if d in DimensionsWith(verdicts, result) {
        var i :| 0 <= i < |kept| && kept[i].dimension == d;
        assert kept[i] in kept;
      }
      if v :| v in verdicts && v.dimension == d && v.result == result {
        var i :| 0 <= i < |kept| && kept[i] == v;
        assert DimensionsWith(verdicts, result)[i] == d;
      }
    }
  }

  /** The reported dimensions, by the values of the two records: what clashes, and what agrees. */
  lemma {:induction false} DimensionsByValues(left: ScopeRecord, right: ScopeRecord, dimension: string)
    ensures dimension in ScopesOverlap(left, right).mismatched <==> Clashes(left, right, dimension)
    ensures dimension in ScopesOverlap(left, right).matched <==> Agrees(left, right, dimension)
  {
    var verdicts := OverlapVerdicts(left, right);
    VerdictsByValues(left, right);
    NamesWith(verdicts, Mismatch);
    NamesWith(verdicts, Match);
    DetailsAreTheSortedNames(DimensionsWith(verdicts, Mismatch));
    DetailsAreTheSortedNames(DimensionsWith(verdicts, Match));
    hide OverlapVerdicts, Clashes, Agrees, NotAsked, DimensionsWith, Details, StatusOf;
    if Clashes(left, right, dimension) || Agrees(left, right, dimension) {
      VerdictNames(left, right, dimension);
    }
  }

  /** Two scopes are disjoint iff some dimension of them clashes. */
  lemma {:induction false} DisjointByValues(left: ScopeRecord, right: ScopeRecord)
    ensures ScopesOverlap(left, right).status == Disjoint <==> exists d :: Clashes(left, right, d)
  {
    var verdicts := OverlapVerdicts(left, right);
    StatusIff(verdicts);
    VerdictsByValues(left, right);
    hide OverlapVerdicts, Clashes, Agrees, NotAsked, StatusOf;
    forall d | Clashes(left, right, d) ensures exists v :: v in verdicts && v.dimension == d && v.result == Mismatch {
      VerdictNames(left, right, d);
    }
    if v :| v in verdicts && v.result == Mismatch {
      assert Clashes(left, right, v.dimension);
    }
  }

  ghost predicate Settled(left: ScopeRecord, right: ScopeRecord, dimension: string) {
    Agrees(left, right, dimension) || NotAsked(left, right, dimension)
  }

  /** They overlap iff every dimension agrees, or is one that may be left out and is. */
  ghost predicate AllSettled(left: ScopeRecord, right: ScopeRecord) {
    && Agrees(left, right, "branch") && Agrees(left, right, "commit")
    && Settled(left, right, "environment") && Settled(left, right, "featureFlags")
    && Settled(left, right, "packageRoot") && Settled(left, right, "sessionId")
    && (Agrees(left, right, "sourceScope") || Agrees(left, right, "worktreeHash"))
  }

  lemma {:induction false} SourceSettled(left: ScopeRecord, right: ScopeRecord)
    ensures SourceVerdict(left, right).dimension in {"sourceScope", "worktreeHash"}
    ensures Agrees(left, right, "sourceScope") ==> SourceVerdict(left, right).dimension == "sourceScope"
    ensures Agrees(left, right, "worktreeHash") ==> SourceVerdict(left, right).dimension == "worktreeHash"
  {
    TextIs(left, "sourceScope");
    TextIs(right, "sourceScope");
    hide StringScope, Says, Silent, OneValue;
  }

  lemma {:induction false} OverlapByValues(left: ScopeRecord, right: ScopeRecord)
    ensures ScopesOverlap(left, right).status == Overlap <==> AllSettled(left, right)
  {
    var branch, commit := RequiredVerdict(left, right, "branch"), RequiredVerdict(left, right, "commit");
    var environment, features := EnvironmentVerdict(left, right), FeatureVerdict(left, right);
    var root, session, source :=
      PackageVerdict(left, right), SessionVerdict(left, right), SourceVerdict(left, right);
    StatusIff(OverlapVerdicts(left, right));
    SevenVerdicts(left, right);
    SettledVerdicts(left, right);
    SourceSettled(left, right);
    MustBeAsked(left, right);
    hide OverlapVerdicts, Settled, Agrees, StatusOf, RequiredVerdict, EnvironmentVerdict, FeatureVerdict;
    hide PackageVerdict, SessionVerdict, SourceVerdict;
    assert ScopesOverlap(left, right).status == Overlap <==>
      forall v :: v in {branch, commit, environment, features, root, session, source} ==>
        Settled(left, right, v.dimension);
  }

  lemma {:induction false} MustBeAsked(left: ScopeRecord, right: ScopeRecord)
    ensures forall d :: d in {"branch", "commit", "sourceScope", "worktreeHash"} ==>
                          (Settled(left, right, d) <==> Agrees(left, right, d))
    ensures RequiredVerdict(left, right, "branch").dimension == "branch"
    ensures RequiredVerdict(left, right, "commit").dimension == "commit"
    ensures EnvironmentVerdict(left, right).dimension == "environment"
    ensures FeatureVerdict(left, right).dimension == "featureFlags"
    ensures PackageVerdict(left, right).dimension == "packageRoot"
    ensures SessionVerdict(left, right).dimension == "sessionId"
  {
    hide Agrees;
  }

  lemma {:induction false} SettledVerdicts(left: ScopeRecord, right: ScopeRecord)
    ensures forall v :: v in OverlapVerdicts(left, right) ==>
              (v.result == Match || v.result == NotApplicable <==> Settled(left, right, v.dimension))
  {
    VerdictsByValues(left, right);
    hide OverlapVerdicts, Clashes, Agrees, NotAsked;
  }

  /** A claim may supersede another iff, besides, both name the same source. */
  lemma {:induction false} CompatibleByValues(left: ScopeRecord, right: ScopeRecord)
    ensures ScopesCompatible(left, right).status == Overlap <==>
            AllSettled(left, right) && OneValue(left, right, "sourceRef")
  {
    OverlapByValues(left, right);
    CompatibleIffOverlapOnSameSource(left, right);
    ValuesAre(left, right, "sourceRef");
    hide AllSettled, ScopesOverlap, ScopesCompatible, StringScope, OneValue;
  }

  /** The sentence that goes with a result names the status and the dimensions that decided it. */
  lemma {:induction false} ReasonNamesWhy(left: ScopeRecord, right: ScopeRecord)
    ensures var r := ScopesOverlap(left, right);
            match r.status
            case Disjoint => r.mismatched != [] && r.reason == "scope disjoint: mismatched " + JoinedNames(r.mismatched)
            case UnknownOverlap =>
              r.mismatched == [] && r.unknown != [] && r.reason == "scope unknown: unknown " + JoinedNames(r.unknown)
            case Overlap =>
              r.mismatched == [] && r.unknown == [] && "branch" in r.matched && "commit" in r.matched &&
              r.reason == "scope overlap: matched " + JoinedNames(r.matched)
  {
    OverlapByValues(left, right);
    DimensionsByValues(left, right, "branch");
    DimensionsByValues(left, right, "commit");
    hide OverlapVerdicts, Agrees, Clashes, JoinedNames, Settled, ResultOf;
    ResultNamesWhy(OverlapVerdicts(left, right));
  }

  lemma {:induction false} ResultNamesWhy(verdicts: seq<Verdict>)
    ensures var r := ResultOf(verdicts);
            match r.status
            case Disjoint => r.mismatched != [] && r.reason == "scope disjoint: mismatched " + JoinedNames(r.mismatched)
            case UnknownOverlap =>
              r.mismatched == [] && r.unknown != [] && r.reason == "scope unknown: unknown " + JoinedNames(r.unknown)
            case Overlap =>
              r.mismatched == [] && r.unknown == [] &&
              (r.matched != [] ==> r.reason == "scope overlap: matched " + JoinedNames(r.matched))
  {
    EmptyDetails(DimensionsWith(verdicts, Mismatch));
    EmptyDetails(DimensionsWith(verdicts, Unknown));
    SentenceStarts();
    hide DimensionsWith, Details, JoinedNames, StatusName;
  }

  lemma {:induction false} SentenceStarts()
    ensures "scope " + StatusName(Disjoint) + ": " + "mismatched " == "scope disjoint: mismatched "
    ensures "scope " + StatusName(UnknownOverlap) + ": " + "unknown " == "scope unknown: unknown "
    ensures "scope " + StatusName(Overlap) + ": " + "matched " == "scope overlap: matched "
  {
  }

  lemma {:induction false} EmptyDetails(names: seq<string>)
    ensures Details(names) == [] <==> names == []
  {
    DetailsAreTheSortedNames(names);
    EmptyIff(names);
    EmptyIff(Details(names));
  }
}

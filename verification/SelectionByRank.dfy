/** What the scores and the reasons of the candidates decide about the selection. */
module SelectionByRank {
  import opened Common
  import opened Ordering
  import opened SeedSlots
  import opened RankedSpread
  import opened SpreadLaws
  import opened TierSelection
  import opened SelectionGuarantees

  // ----- the ranking -----

  predicate LastScore(candidates: seq<Candidate>, i: nat, ref: string, score: int) {
    && i < |candidates| && candidates[i] == Candidate(ref, score)
    && forall j :: i < j < |candidates| ==> candidates[j].sourceRef != ref
  }

  /** The score of a ref: that of its last candidate, 0 without one. */
  predicate ScoreIs(candidates: seq<Candidate>, ref: string, score: int) {
    || (exists i :: 0 <= i < |candidates| && LastScore(candidates, i, ref, score))
    || (score == 0 && forall c :: c in candidates ==> c.sourceRef != ref)
  }

  /** A higher score, or the same score and the smaller name. */
  predicate Outranks(a: string, m: int, b: string, n: int) {
    m > n || (m == n && StringLess(a, b))
  }

  lemma {:induction false} ScoreIsLookedUp(candidates: seq<Candidate>, ref: string, score: int)
    ensures ScoreIs(candidates, ref, score) <==> score == ScoreOf(Index(candidates, RefOfCandidate), ref)
    decreases |candidates|
  {
    if candidates != [] {
      var init, last := candidates[..|candidates| - 1], candidates[|candidates| - 1];
      SplitLast(candidates);
      ScoreIsLookedUp(init, ref, score);
      IndexSnoc(init, last, RefOfCandidate);
      hide Index;
      if last.sourceRef == ref {
        if last.score == score {
          assert LastScore(candidates, |init|, ref, score);
        }
        assert candidates[|init|] == last && last in candidates;
      } else {
        if i :| 0 <= i < |init| && LastScore(init, i, ref, score) {
          assert LastScore(candidates, i, ref, score);
        }
        if i :| 0 <= i < |candidates| && LastScore(candidates, i, ref, score) {
          assert LastScore(init, i, ref, score);
        }
      }
    }
  }

  /** Along the ranking scores do not increase, and refs with equal scores stand by name. */
  lemma {:induction false} RankedByScore(
    refs: seq<string>, candidates: seq<Candidate>, i: nat, j: nat, m: int, n: int)
    requires i < j < |Ranked(refs, candidates)|
    requires ScoreIs(candidates, Ranked(refs, candidates)[i], m) && ScoreIs(candidates, Ranked(refs, candidates)[j], n)
    ensures !Outranks(Ranked(refs, candidates)[j], n, Ranked(refs, candidates)[i], m)
    ensures multiset(Ranked(refs, candidates)) == multiset(refs)
  {
    var scores := Index(candidates, RefOfCandidate);
    ScoreIsLookedUp(candidates, Ranked(refs, candidates)[i], m);
    ScoreIsLookedUp(candidates, Ranked(refs, candidates)[j], n);
    RankingIsTotal(scores);
    TotalIsWeak(RanksBefore(scores));
    SortSorts(refs, RanksBefore(scores));
  }

  // ----- what is taken of a tier -----

  function TierPart(entries: seq<Entry>, context: Context, kind: TaskKind, tier: Tier): seq<string> {
    Filter(Selected(entries, context, RealSlots(entries, context, kind)), InRefs(TierRefs(entries, tier)))
  }

  function InRefs(refs: seq<string>): string -> bool {
    ref => ref in refs
  }

  lemma {:induction false} OtherTiersPart(
    entries: seq<Entry>, context: Context, tier: Tier, other: Tier, refs: seq<string>)
    requires IsMap(entries) && RefsNamed(entries) && refs <= Offered(entries, context, other)
    ensures Filter(refs, InRefs(TierRefs(entries, tier))) == if tier == other then refs else []
  {
    hide Offered, TierRefs;
    OfferedFacts(entries, context, other);
    forall ref | ref in refs ensures ref in TierRefs(entries, tier) <==> tier == other {
      assert ref in Offered(entries, context, other);
      if ref in TierRefs(entries, tier) {
        TiersDisjoint(entries, tier, other, ref);
      }
    }
    if tier == other {
      FilterKeepsAll(refs, InRefs(TierRefs(entries, tier)));
    } else {
      FilterKeepsNone(refs, InRefs(TierRefs(entries, tier)));
    }
  }

  /** The selected refs of a tier are the first of what it offers, in that order. */
  lemma {:induction false} TierPartIsPrefix(entries: seq<Entry>, context: Context, kind: TaskKind, tier: Tier)
    requires IsMap(entries) && RefsNamed(entries)
    ensures TierPart(entries, context, kind, tier) <= Offered(entries, context, tier)
  {
    hide Offered, Selected, RealSlots, TierRefs, Filter, InRefs;
    var a, b, c, d := RealParts(entries, context, kind);
    var p := InRefs(TierRefs(entries, tier));
    OtherTiersPart(entries, context, tier, Tier1a, a);
    OtherTiersPart(entries, context, tier, Tier1b, b);
    OtherTiersPart(entries, context, tier, Tier2, c);
    OtherTiersPart(entries, context, tier, Tier3, d);
    FilterFour(a, b, c, d, p);
  }

  lemma {:induction false} FilterFour(a: seq<string>, b: seq<string>, c: seq<string>, d: seq<string>, p: string -> bool)
    ensures Filter(a + b + c + d, p) == Filter(a, p) + Filter(b, p) + Filter(c, p) + Filter(d, p)
  {
    hide Filter;
    FilterConcat(a + b + c, d, p);
    FilterConcat(a + b, c, p);
    FilterConcat(a, b, p);
  }

  /** Where the order of the offer agrees with the ranking, what is taken outranks what is left. */
  lemma {:induction false} PrefixByRank(
    ranked: seq<string>, offered: seq<string>, n: nat, p: string -> bool, better: string, worse: string)
    returns (i: nat, j: nat)
    requires n <= |offered| && Filter(offered, p) == Filter(ranked, p) && p(better) && p(worse)
    requires worse in offered[..n] && better in offered && better !in offered[..n]
    ensures i < j < |ranked| && ranked[i] == worse && ranked[j] == better
  {
    var x, y := offered[..n], offered[n..];
    assert offered == x + y && better in y;
    FilterConcat(x, y, p);
    FilterContains(x, p);
    FilterContains(y, p);
    var s, t := Filter(x, p), Filter(y, p);
    hide Filter;
    var k :| 0 <= k < |s| && s[k] == worse;
    var m :| 0 <= m < |t| && t[m] == better;
    assert (s + t)[k] == worse && (s + t)[|s| + m] == better;
    i, j := FilterPosition(ranked, p, k, |s| + m);
  }

  function PackagesOf(context: Context): Key {
    PackageRoot(context.pathRoots, context.metadataRoots)
  }

  predicate Names(m: map<string, string>, ref: string, value: string) {
    ref in m && m[ref] == value && value != ""
  }

  /** The package is read off the path, and only where the path tells none from metadata; an empty name is none. */
  lemma {:induction false} PlaceOfRef(context: Context, ref: string, name: string)
    ensures PackagesOf(context)(ref) == Some(name) <==>
            || Names(context.pathRoots, ref, name)
            || (ref !in context.pathRoots && Names(context.metadataRoots, ref, name))
    ensures Scoped(context.languages)(ref) == Some(name) <==> Names(context.languages, ref, name)
  {
    ScopedIff(context.pathRoots, ref, name);
    ScopedIff(context.metadataRoots, ref, name);
    ScopedIff(context.languages, ref, name);
    hide Names, Scoped;
    assert PackagesOf(context)(ref) ==
      (if ref in context.pathRoots then Scoped(context.pathRoots)(ref) else Scoped(context.metadataRoots)(ref));
    assert Names(context.pathRoots, ref, name) ==> ref in context.pathRoots by {
      NamesIsIn(context.pathRoots, ref, name);
    }
  }

  lemma {:induction false} NamesIsIn(m: map<string, string>, ref: string, name: string)
    ensures Names(m, ref, name) ==> ref in m
  {
  }

  lemma {:induction false} ScopedIff(m: map<string, string>, ref: string, name: string)
    ensures Scoped(m)(ref) == Some(name) <==> Names(m, ref, name)
  {
    assert Scoped(m)(ref) == (if ref in m && m[ref] != "" then Some(m[ref]) else None);
  }

  /** The package, the language and, in the second tier, the evidence role of a ref. */
  function KindIn(entries: seq<Entry>, context: Context, tier: Tier, ref: string): Kind {
    KindOf(PackagesOf(context), context.languages, RolesFor(entries, tier), ref)
  }

  /** At most one package, one language and, in the second tier, one evidence role to spread over. */
  ghost predicate OneKind(entries: seq<Entry>, context: Context, tier: Tier) {
    var refs, roles := TierRefs(entries, tier), RolesFor(entries, tier);
    && OneKey(refs, PackagesOf(context)) && OneKey(refs, Scoped(context.languages))
    && (roles.Some? ==> OneKey(refs, Scoped(roles.value)))
  }

  lemma {:induction false} OfferKeepsKinds(entries: seq<Entry>, context: Context, tier: Tier, kind: Kind)
    requires IsMap(entries) && RefsNamed(entries) && |entries| <= MAX_SAFE_INTEGER
    ensures var p := OfKind(PackagesOf(context), context.languages, RolesFor(entries, tier), kind);
            Filter(Offered(entries, context, tier), p) ==
            Filter(Ranked(TierRefs(entries, tier), context.candidates), p)
  {
    RankedTier(entries, context, tier);
    SpreadKeepsKinds(Ranked(TierRefs(entries, tier), context.candidates), PackagesOf(context), context.languages,
                     RolesFor(entries, tier), kind);
  }

  lemma {:induction false} RankedTier(entries: seq<Entry>, context: Context, tier: Tier)
    requires RefsNamed(entries)
    ensures var ranked := Ranked(TierRefs(entries, tier), context.candidates);
            && multiset(ranked) == multiset(TierRefs(entries, tier)) && "" !in ranked && |ranked| <= |entries|
            && forall ref :: ref in ranked <==> ref in TierRefs(entries, tier)
  {
    var ranked := Ranked(TierRefs(entries, tier), context.candidates);
    TierRefsIff(entries, tier, "");
    PermutationFacts(ranked, TierRefs(entries, tier));
  }

  lemma {:induction false} OfferIsRanking(entries: seq<Entry>, context: Context, tier: Tier)
    requires RefsNamed(entries) && OneKind(entries, context, tier)
    ensures Offered(entries, context, tier) == Ranked(TierRefs(entries, tier), context.candidates)
  {
    hide TierRefs, RolesFor;
    RankedTier(entries, context, tier);
    NothingToSpread(Ranked(TierRefs(entries, tier), context.candidates), PackagesOf(context), context.languages,
                    RolesFor(entries, tier));
  }

  /**
    No ref of a tier is left out for one it outranks that has the same package, language and role, nor for any, where
    the tier has fewer than two of each.
  */
  lemma {:induction false} BestOfItsKindFirst(
    entries: seq<Entry>, context: Context, kind: TaskKind, tier: Tier, better: string, worse: string, m: int, n: int)
    requires IsMap(entries) && RefsNamed(entries) && |entries| <= MAX_SAFE_INTEGER
    requires better in TierRefs(entries, tier) && worse in TierRefs(entries, tier)
    requires ScoreIs(context.candidates, better, m) && ScoreIs(context.candidates, worse, n)
    requires Outranks(better, m, worse, n)
    requires KindIn(entries, context, tier, better) == KindIn(entries, context, tier, worse) ||
             OneKind(entries, context, tier)
    requires worse in Selected(entries, context, RealSlots(entries, context, kind))
    ensures better in Selected(entries, context, RealSlots(entries, context, kind))
  {
    hide Offered, Selected, RealSlots, TierRefs, RolesFor, OneKind, Ranked;
    var selected, part := Selected(entries, context, RealSlots(entries, context, kind)),
      TierPart(entries, context, kind, tier);
    var offered, ranked := Offered(entries, context, tier), Ranked(TierRefs(entries, tier), context.candidates);
    TierPartIsPrefix(entries, context, kind, tier);
    FilterContains(selected, InRefs(TierRefs(entries, tier)));
    OfferedFacts(entries, context, tier);
    assert offered[..|part|] == part;
    if better !in selected {
      var i, j;
      if OneKind(entries, context, tier) {
        OfferIsRanking(entries, context, tier);
        i, j := PrefixByRank(ranked, offered, |part|, ref => true, better, worse);
      } else {
        var k := KindIn(entries, context, tier, better);
        OfferKeepsKinds(entries, context, tier, k);
        i, j := PrefixByRank(
          ranked, offered, |part|, OfKind(PackagesOf(context), context.languages, RolesFor(entries, tier), k), better,
          worse);
      }
      RankedByScore(TierRefs(entries, tier), context.candidates, i, j, n, m);
    }
  }

  /** In a tier of two packages or more these share what is taken of it, as long as they have refs left. */
  lemma {:induction false} PackagesShareTheTier(
    entries: seq<Entry>, context: Context, kind: TaskKind, tier: Tier, a: string, b: string)
    requires IsMap(entries) && RefsNamed(entries) && |entries| <= MAX_SAFE_INTEGER
    requires a in TierRefs(entries, tier) && b in TierRefs(entries, tier)
    requires PackagesOf(context)(a).Some? && PackagesOf(context)(b).Some?
    requires PackagesOf(context)(a) != PackagesOf(context)(b)
    ensures var taken := TierPart(entries, context, kind, tier);
            var ofA, ofB := HasKey(PackagesOf(context), PackagesOf(context)(a)),
              HasKey(PackagesOf(context), PackagesOf(context)(b));
            |Filter(taken, ofA)| < |Filter(TierRefs(entries, tier), ofA)| ==>
              |Filter(taken, ofB)| <= |Filter(taken, ofA)| + 1
  {
    hide Selected, RealSlots, TierRefs, RolesFor, Ranked, SpreadContext;
    var ranked := Ranked(TierRefs(entries, tier), context.candidates);
    var part := TierPart(entries, context, kind, tier);
    var ofA := HasKey(PackagesOf(context), PackagesOf(context)(a));
    TierPartIsPrefix(entries, context, kind, tier);
    RankedTier(entries, context, tier);
    PackagesShare(ranked, PackagesOf(context), context.languages, RolesFor(entries, tier), |part|, a, b);
    SameFilterSize(ranked, TierRefs(entries, tier), ofA);
    assert Offered(entries, context, tier)[..|part|] == part;
  }

  lemma {:induction false} SameFilterSize(s: seq<string>, t: seq<string>, p: string -> bool)
    requires multiset(s) == multiset(t)
    ensures |Filter(s, p)| == |Filter(t, p)|
  {
    forall x ensures multiset(Filter(s, p))[x] == multiset(Filter(t, p))[x] {
      FilterMultiplicity(s, p, x);
      FilterMultiplicity(t, p, x);
    }
    assert multiset(Filter(s, p)) == multiset(Filter(t, p));
    PermutationFacts(Filter(s, p), Filter(t, p));
  }

  // ----- reasons -----

  /** Reasons that count as evidence, the strongest first, and the roles they give. */
  const EvidenceOrder := [ObservedFailureLink, RelatedTest, SymbolMatch]
  const EvidenceNames := ["observed_failure_link", "related_test", "symbol_match"]

  predicate HasEvidence(reasons: set<Reason>) {
    exists i :: 0 <= i < 3 && EvidenceOrder[i] in reasons
  }

  predicate IsSeed(reasons: set<Reason>) {
    ExplicitSeed in reasons || TestSeed in reasons
  }

  lemma {:induction false} TierByReasons(entries: seq<Entry>, e: Entry)
    requires IsMap(entries) && e in entries
    ensures e.ref in TierRefs(entries, Tier1a) <==> ExplicitSeed in e.reasons
    ensures e.ref in TierRefs(entries, Tier1b) <==> TestSeed in e.reasons && ExplicitSeed !in e.reasons
    ensures e.ref in TierRefs(entries, Tier2) <==> HasEvidence(e.reasons) && !IsSeed(e.reasons)
    ensures e.ref in TierRefs(entries, Tier3) <==> !HasEvidence(e.reasons) && !IsSeed(e.reasons)
  {
    assert EvidenceOrder[0] == ObservedFailureLink && EvidenceOrder[1] == RelatedTest &&
      EvidenceOrder[2] == SymbolMatch;
    forall tier: Tier ensures e.ref in TierRefs(entries, tier) <==> StrongestTier(e.reasons) == tier {
      TierRefsIff(entries, tier, e.ref);
      if x :| x in entries && x.ref == e.ref && StrongestTier(x.reasons) == tier {
        SameRefSameEntry(entries, x, e);
      }
    }
  }

  /**
    What the reasons promise: a ref that is no seed is selected only if every explicit seed is, and one without evidence
    either only if every ref with evidence is, the unreserved test seeds aside.
  */
  lemma {:induction false} ReasonsDecideFirst(
    entries: seq<Entry>, context: Context, kind: TaskKind, stronger: Entry, weaker: Entry)
    requires IsMap(entries) && RefsNamed(entries) && stronger in entries && weaker in entries
    requires weaker.ref in Selected(entries, context, RealSlots(entries, context, kind)) && !IsSeed(weaker.reasons)
    requires || ExplicitSeed in stronger.reasons
             || (HasEvidence(stronger.reasons) && TestSeed !in stronger.reasons && !HasEvidence(weaker.reasons))
    ensures stronger.ref in Selected(entries, context, RealSlots(entries, context, kind))
  {
    hide Selected, RealSlots, TierRefs;
    TierByReasons(entries, stronger);
    TierByReasons(entries, weaker);
    StrongerTiersFirst(entries, context, kind, weaker.ref);
  }

  /** Evidence roles are spread over in the second tier only, each ref under its strongest reason. */
  lemma {:induction false} RoleIsStrongestEvidence(entries: seq<Entry>, e: Entry, i: nat)
    requires IsMap(entries) && e in entries && !IsSeed(e.reasons)
    requires i < 3 && EvidenceOrder[i] in e.reasons && forall j :: 0 <= j < i ==> EvidenceOrder[j] !in e.reasons
    ensures RolesFor(entries, Tier2).Some? && RoleOf(RolesFor(entries, Tier2), e.ref) == Some(EvidenceNames[i])
    ensures forall tier :: tier != Tier2 ==> RolesFor(entries, tier).None?
  {
    assert EvidenceOrder[0] == ObservedFailureLink && EvidenceOrder[1] == RelatedTest &&
      EvidenceOrder[2] == SymbolMatch;
    TierByReasons(entries, e);
    IndexFacts(entries, RefOf);
    SameRefSameEntry(entries, e, Index(entries, RefOf)[e.ref]);
    assert EvidenceOrder[0] !in e.reasons || i == 0;
    assert i == 2 ==> EvidenceOrder[1] !in e.reasons;
  }
}

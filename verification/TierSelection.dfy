/** Choosing the source refs that fit under the cap, tier by tier. */
module TierSelection {
  import opened Common
  import opened Ordering
  import opened RankedSpread
  import opened SeedSlots

  datatype Reason = ExplicitSeed | TestSeed | ObservedFailureLink | RelatedTest | GraphRelated | SymbolMatch
    | LexicalMatch

  /** One entry of the insertion-ordered map from source refs to the reasons they were found. */
  datatype Entry = Entry(ref: string, reasons: set<Reason>)

  datatype Candidate = Candidate(sourceRef: string, score: int)

  datatype Tier = Tier1a | Tier1b | Tier2 | Tier3

  /** Everything the selection reads besides the entries. */
  datatype Context = Context(
    maxSelectedSources: int, candidates: seq<Candidate>, pathRoots: map<string, string>,
    metadataRoots: map<string, string>, languages: map<string, string>)

  function RefOf(e: Entry): string { e.ref }

  ghost predicate IsMap(entries: seq<Entry>) {
    Distinct(Map(entries, RefOf))
  }

  function StrongestTier(reasons: set<Reason>): Tier {
    if ExplicitSeed in reasons then Tier1a
    else if TestSeed in reasons then Tier1b
    else if SymbolMatch in reasons || RelatedTest in reasons || ObservedFailureLink in reasons then Tier2
    else Tier3
  }

  function InTier(tier: Tier): Entry -> bool {
    (e: Entry) => StrongestTier(e.reasons) == tier
  }

  function TierRefs(entries: seq<Entry>, tier: Tier): (r: seq<string>) {
    Map(Filter(entries, InTier(tier)), RefOf)
  }

  // ----- ranking -----

  function ScoreOf(scores: map<string, Candidate>, ref: string): int {
    if ref in scores then scores[ref].score else 0
  }

  function RefOfCandidate(c: Candidate): string { c.sourceRef }

  function RanksBefore(scores: map<string, Candidate>): (string, string) -> bool {
    (a, b) => if ScoreOf(scores, a) != ScoreOf(scores, b) then ScoreOf(scores, a) > ScoreOf(scores, b)
      else StringLess(a, b)
  }

  function Ranked(refs: seq<string>, candidates: seq<Candidate>): seq<string> {
    if |refs| <= 1 then refs else Sort(refs, RanksBefore(Index(candidates, RefOfCandidate)))
  }

  /** By score and then by name: no two different refs tie. */
  lemma {:induction false} RankingIsTotal(scores: map<string, Candidate>)
    ensures StrictTotalOrder(RanksBefore(scores))
  {
    StringOrderIsTotal();
  }

  lemma {:induction false} RankedIsCanonical(a: seq<string>, b: seq<string>, candidates: seq<Candidate>)
    requires multiset(a) == multiset(b)
    ensures Ranked(a, candidates) == Ranked(b, candidates)
  {
    var scores := Index(candidates, RefOfCandidate);
    PermutationFacts(a, b);
    if |a| <= 1 {
      if |a| == 1 {
        assert a[0] in b;
      }
    } else {
      RankingIsTotal(scores);
      SortCanonical(a, b, RanksBefore(scores));
    }
  }

  // ----- evidence roles -----

  function ExactEvidenceRole(reasons: set<Reason>): Option<string> {
    if ObservedFailureLink in reasons then Some("observed_failure_link")
    else if RelatedTest in reasons then Some("related_test")
    else if SymbolMatch in reasons then Some("symbol_match")
    else None
  }

  function ReasonsOf(entries: seq<Entry>, ref: string): set<Reason> {
    var index := Index(entries, RefOf);
    if ref in index then index[ref].reasons else {}
  }

  function EvidenceRoles(entries: seq<Entry>, refs: seq<string>): map<string, string> {
    map ref | ref in refs && ExactEvidenceRole(ReasonsOf(entries, ref)).Some? ::
      ref := ExactEvidenceRole(ReasonsOf(entries, ref)).value
  }

  method EvidenceRolesBySourceRef(refs: seq<string>, entries: seq<Entry>) returns (roles: map<string, string>)
    ensures roles == EvidenceRoles(entries, refs)
  {
    roles := map[];
    for i := 0 to |refs|
      invariant roles == EvidenceRoles(entries, refs[..i])
    {
      var role := ExactEvidenceRole(ReasonsOf(entries, refs[i]));
      assert refs[..i + 1] == refs[..i] + [refs[i]];
      if role.Some? {
        roles := roles[refs[i] := role.value];
      }
    }
    assert refs[..|refs|] == refs;
  }

  // ----- the selection -----

  function RolesFor(entries: seq<Entry>, tier: Tier): Option<map<string, string>> {
    if tier == Tier2 then Some(EvidenceRoles(entries, TierRefs(entries, Tier2))) else None
  }

  /** The order in which a tier's refs are offered. */
  function Offered(entries: seq<Entry>, context: Context, tier: Tier): seq<string> {
    SpreadContext(Ranked(TierRefs(entries, tier), context.candidates),
                  PackageRoot(context.pathRoots, context.metadataRoots), context.languages, RolesFor(entries, tier))
  }

  function Take(refs: seq<string>, n: int): (r: seq<string>)
    ensures |r| == Max(0, Min(n, |refs|)) && r <= refs
  {
    if n <= 0 then [] else if n < |refs| then refs[..n] else refs
  }

  method PartitionByTier(entries: seq<Entry>)
    returns (tier1a: seq<string>, tier1b: seq<string>, tier2: seq<string>, tier3: seq<string>)
    ensures tier1a == TierRefs(entries, Tier1a) && tier1b == TierRefs(entries, Tier1b)
    ensures tier2 == TierRefs(entries, Tier2) && tier3 == TierRefs(entries, Tier3)
  {
    hide TierRefs;
    NoTierRefs();
    assert entries[..0] == [];
    tier1a, tier1b, tier2, tier3 := [], [], [], [];
    for i := 0 to |entries|
      invariant tier1a == TierRefs(entries[..i], Tier1a) && tier1b == TierRefs(entries[..i], Tier1b)
      invariant tier2 == TierRefs(entries[..i], Tier2) && tier3 == TierRefs(entries[..i], Tier3)
    {
      TierRefsSnoc(entries[..i], entries[..i + 1], entries[i]);
      match StrongestTier(entries[i].reasons)
      case Tier1a => tier1a := tier1a + [entries[i].ref];
      case Tier1b => tier1b := tier1b + [entries[i].ref];
      case Tier2 => tier2 := tier2 + [entries[i].ref];
      case Tier3 => tier3 := tier3 + [entries[i].ref];
    }
    assert entries[..|entries|] == entries;
  }

  lemma {:induction false} NoTierRefs()
    ensures forall tier :: TierRefs([], tier) == []
  {
  }

  lemma {:induction false} TierRefsSnoc(before: seq<Entry>, after: seq<Entry>, e: Entry)
    requires after == before + [e]
    ensures forall tier :: TierRefs(after, tier) ==
                           TierRefs(before, tier) + if StrongestTier(e.reasons) == tier then [e.ref] else []
  {
    forall tier ensures TierRefs(after, tier) ==
                        TierRefs(before, tier) + if StrongestTier(e.reasons) == tier then [e.ref] else []
    {
      FilterSnoc(before, e, InTier(tier));
    }
  }

  /** What is neither selected already nor a repeat. */
  function Unseen(selected: seq<string>, refs: seq<string>): seq<string> {
    if refs == [] then [] else
    var init, last := refs[..|refs| - 1], refs[|refs| - 1];
    Unseen(selected, init) + if last in selected || last in init then [] else [last]
  }

  function Picked(selected: seq<string>, refs: seq<string>, n: int): (r: seq<string>)
    ensures selected <= r
  {
    selected + Take(Unseen(selected, refs), n)
  }

  lemma {:induction false} UnseenSnoc(selected: seq<string>, refs: seq<string>, ref: string)
    ensures Unseen(selected, refs + [ref]) ==
            Unseen(selected, refs) + if ref in selected || ref in refs then [] else [ref]
  {
    assert (refs + [ref])[..|refs|] == refs;
  }

  lemma {:induction false} NothingUnseen(selected: seq<string>)
    ensures Unseen(selected, []) == []
  {
  }

  lemma {:induction false} UnseenIff(selected: seq<string>, refs: seq<string>)
    ensures forall ref :: ref in Unseen(selected, refs) <==> ref in refs && ref !in selected
    decreases |refs|
  {
    if refs != [] {
      SplitLast(refs);
      UnseenIff(selected, refs[..|refs| - 1]);
    }
  }

  lemma {:induction false} AllUnseen(selected: seq<string>, refs: seq<string>)
    requires Distinct(selected + refs)
    ensures Unseen(selected, refs) == refs
    decreases |refs|
  {
    if refs != [] {
      var init, last := refs[..|refs| - 1], refs[|refs| - 1];
      SplitLast(refs);
      ConcatAssociative(selected, init, [last]);
      var all := (selected + init) + [last];
      assert selected + refs == all && last == all[|all| - 1];
      assert forall i :: 0 <= i < |selected + init| ==> (selected + init)[i] == all[i] != last;
      assert last !in selected + init;
      AllUnseen(selected, init);
    }
  }

  lemma {:induction false} UnseenGrows(selected: seq<string>, refs: seq<string>, k: nat)
    requires k <= |refs|
    ensures Unseen(selected, refs[..k]) <= Unseen(selected, refs)
    decreases |refs| - k
  {
    if k == |refs| {
      assert refs[..k] == refs;
    } else {
      assert refs[..k + 1] == refs[..k] + [refs[k]];
      UnseenSnoc(selected, refs[..k], refs[k]);
      UnseenGrows(selected, refs, k + 1);
    }
  }

  /** The taking loop, with its check against what is selected already. */
  method TakeFromTier(selected: seq<string>, rankedRefs: seq<string>, maxToTake: int) returns (after: seq<string>)
    ensures after == Picked(selected, rankedRefs, maxToTake)
  {
    hide Unseen;
    NothingUnseen(selected);
    after := selected;
    if maxToTake <= 0 {
      return;
    }
    var selectedSet := set ref | ref in selected;
    var taken := 0;
    for i := 0 to |rankedRefs|
      invariant taken == |Unseen(selected, rankedRefs[..i])| <= maxToTake
      invariant after == selected + Unseen(selected, rankedRefs[..i])
      invariant selectedSet == set ref | ref in after
    {
      UnseenGrows(selected, rankedRefs, i);
      if taken >= maxToTake {
        return;
      }
      var ref := rankedRefs[i];
      assert rankedRefs[..i + 1] == rankedRefs[..i] + [ref];
      UnseenSnoc(selected, rankedRefs[..i], ref);
      UnseenIff(selected, rankedRefs[..i]);
      if ref in selectedSet {
        continue;
      }
      after := after + [ref];
      selectedSet := selectedSet + {ref};
      taken := taken + 1;
    }
    assert rankedRefs[..|rankedRefs|] == rankedRefs;
  }

  // ----- what the tiers are -----

  lemma {:induction false} TierRefsIff(entries: seq<Entry>, tier: Tier, ref: string)
    ensures ref in TierRefs(entries, tier) <==>
              exists e :: e in entries && e.ref == ref && StrongestTier(e.reasons) == tier
  {
    var kept := Filter(entries, InTier(tier));
    FilterContains(entries, InTier(tier));
    if ref in TierRefs(entries, tier) {
      var i :| 0 <= i < |kept| && kept[i].ref == ref;
      assert kept[i] in kept;
    }
    if e :| e in entries && e.ref == ref && StrongestTier(e.reasons) == tier {
      var i :| 0 <= i < |kept| && kept[i] == e;
      assert TierRefs(entries, tier)[i] == ref;
    }
  }

  lemma {:induction false} TierRefsDistinct(entries: seq<Entry>, tier: Tier)
    requires IsMap(entries)
    ensures Distinct(TierRefs(entries, tier))
  {
    var kept := Filter(entries, InTier(tier));
    forall i, j | 0 <= i < j < |kept| ensures kept[i].ref != kept[j].ref {
      var a, b := FilterPosition(entries, InTier(tier), i, j);
      assert Map(entries, RefOf)[a] != Map(entries, RefOf)[b];
    }
  }

  lemma {:induction false} SameRefSameEntry(entries: seq<Entry>, a: Entry, b: Entry)
    requires IsMap(entries) && a in entries && b in entries && a.ref == b.ref
    ensures a == b
  {
    var i :| 0 <= i < |entries| && entries[i] == a;
    var j :| 0 <= j < |entries| && entries[j] == b;
    assert Map(entries, RefOf)[i] == Map(entries, RefOf)[j];
  }

  lemma {:induction false} TiersDisjoint(entries: seq<Entry>, s: Tier, t: Tier, ref: string)
    requires IsMap(entries) && ref in TierRefs(entries, s) && ref in TierRefs(entries, t)
    ensures s == t
  {
    TierRefsIff(entries, s, ref);
    TierRefsIff(entries, t, ref);
    var a :| a in entries && a.ref == ref && StrongestTier(a.reasons) == s;
    var b :| b in entries && b.ref == ref && StrongestTier(b.reasons) == t;
    SameRefSameEntry(entries, a, b);
  }

  ghost predicate RefsNamed(entries: seq<Entry>) {
    forall e :: e in entries ==> e.ref != ""
  }

  /** Ranking and spreading a tier permutes it. */
  lemma {:induction false} OfferedPermutes(entries: seq<Entry>, context: Context, tier: Tier)
    requires RefsNamed(entries)
    ensures multiset(Offered(entries, context, tier)) == multiset(TierRefs(entries, tier))
  {
    TierRefsIff(entries, tier, "");
    var refs := TierRefs(entries, tier);
    var ranked := Ranked(refs, context.candidates);
    PermutationFacts(ranked, refs);
    SpreadPermutes(ranked, PackageRoot(context.pathRoots, context.metadataRoots), context.languages,
                   RolesFor(entries, tier));
  }

  lemma {:induction false} DistinctByMultiset(a: seq<string>, b: seq<string>)
    requires multiset(a) == multiset(b) && Distinct(a)
    ensures Distinct(b)
  {
    PermutationFacts(a, b);
    DistinctCardinality(a);
    DistinctCardinality(b);
    assert (set x | x in a) == (set x | x in b);
  }

  lemma {:induction false} OfferedFacts(entries: seq<Entry>, context: Context, tier: Tier)
    requires IsMap(entries) && RefsNamed(entries)
    ensures Distinct(Offered(entries, context, tier))
    ensures |Offered(entries, context, tier)| == |TierRefs(entries, tier)|
    ensures forall ref :: ref in Offered(entries, context, tier) <==> ref in TierRefs(entries, tier)
  {
    OfferedPermutes(entries, context, tier);
    TierRefsDistinct(entries, tier);
    PermutationFacts(Offered(entries, context, tier), TierRefs(entries, tier));
    DistinctByMultiset(TierRefs(entries, tier), Offered(entries, context, tier));
  }

  // ----- the selection -----

  function Remaining(selected: seq<string>, cap: int): int {
    Max(0, cap - |selected|)
  }

  function AfterTier1a(entries: seq<Entry>, context: Context, slots: ReservedSeedSlots): seq<string> {
    Picked([], Offered(entries, context, Tier1a), Min(slots.maxExplicitSourceSlots, context.maxSelectedSources))
  }

  function AfterTier1b(entries: seq<Entry>, context: Context, slots: ReservedSeedSlots): seq<string> {
    var selected := AfterTier1a(entries, context, slots);
    Picked(selected, Offered(entries, context, Tier1b),
           Min(slots.maxTestSeedSlots, Remaining(selected, context.maxSelectedSources)))
  }

  function AfterTier2(entries: seq<Entry>, context: Context, slots: ReservedSeedSlots): seq<string> {
    var selected := AfterTier1b(entries, context, slots);
    Picked(selected, Offered(entries, context, Tier2), Remaining(selected, context.maxSelectedSources))
  }

  function Selected(entries: seq<Entry>, context: Context, slots: ReservedSeedSlots): seq<string> {
    var selected := AfterTier2(entries, context, slots);
    Picked(selected, Offered(entries, context, Tier3), Remaining(selected, context.maxSelectedSources))
  }

  method Offer(refs: seq<string>, context: Context, roles: Option<map<string, string>>) returns (r: seq<string>)
    ensures r == SpreadContext(Ranked(refs, context.candidates), PackageRoot(context.pathRoots, context.metadataRoots),
                               context.languages, roles)
  {
    r := SpreadRankedContextRefs(Ranked(refs, context.candidates),
      PackageRoot(context.pathRoots, context.metadataRoots),
                                 context.languages, roles);
  }

  method SelectTieredSourceRefs(entries: seq<Entry>, context: Context, slots: ReservedSeedSlots)
    returns (selected: seq<string>)
    ensures selected == Selected(entries, context, slots)
  {
    hide TierRefs, Picked, SpreadContext, EvidenceRoles;
    if |entries| == 0 {
      NothingOffered(context, slots);
      return [];
    }
    var cap := context.maxSelectedSources;
    var tier1a, tier1b, tier2, tier3 := PartitionByTier(entries);
    var ranked1a := Offer(tier1a, context, None);
    var ranked1b := Offer(tier1b, context, None);
    var roles := EvidenceRolesBySourceRef(tier2, entries);
    var ranked2 := Offer(tier2, context, Some(roles));
    var ranked3 := Offer(tier3, context, None);
    selected := TakeFromTier([], ranked1a, Min(slots.maxExplicitSourceSlots, cap));
    selected := TakeFromTier(selected, ranked1b, Min(slots.maxTestSeedSlots, Remaining(selected, cap)));
    selected := TakeFromTier(selected, ranked2, Remaining(selected, cap));
    selected := TakeFromTier(selected, ranked3, Remaining(selected, cap));
  }

  lemma {:induction false} NothingOffered(context: Context, slots: ReservedSeedSlots)
    ensures Selected([], context, slots) == []
  {
    NoTierRefs();
    assert forall tier :: Offered([], context, tier) == [];
  }
}

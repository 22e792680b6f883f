/** What tiered selection promises when its slots come from the real tier sizes. */
module SelectionGuarantees {
  import opened Common
  import opened Ordering
  import opened SeedSlots
  import opened RankedSpread
  import opened TierSelection

  function HasReason(reason: Reason): Entry -> bool {
    (e: Entry) => reason in e.reasons
  }

  function CountRefsForReason(entries: seq<Entry>, reason: Reason): nat {
    |Filter(entries, HasReason(reason))|
  }

  method CountForReason(entries: seq<Entry>, reason: Reason) returns (count: nat)
    ensures count == CountRefsForReason(entries, reason)
  {
    count := 0;
    for i := 0 to |entries|
      invariant count == CountRefsForReason(entries[..i], reason)
    {
      assert entries[..i + 1] == entries[..i] + [entries[i]];
      FilterSnoc(entries[..i], entries[i], HasReason(reason));
      if reason in entries[i].reasons {
        count := count + 1;
      }
    }
    assert entries[..|entries|] == entries;
  }

  function TestNotExplicit(e: Entry): bool {
    TestSeed in e.reasons && ExplicitSeed !in e.reasons
  }

  function CountTier1bRefs(entries: seq<Entry>): nat {
    |Filter(entries, TestNotExplicit)|
  }

  /** The slots as retrieval computes them from the candidates at hand. */
  function RealSlots(entries: seq<Entry>, context: Context, kind: TaskKind): ReservedSeedSlots {
    ComputeReservedSeedSlots(
      context.maxSelectedSources, CountRefsForReason(entries, ExplicitSeed), CountTier1bRefs(entries), kind)
  }

  /** The wiring: the slots come from the candidates that are then selected from. */
  method SelectSources(entries: seq<Entry>, context: Context, kind: TaskKind) returns (selected: seq<string>)
    ensures selected == Selected(entries, context, RealSlots(entries, context, kind))
  {
    hide Selected;
    var explicitSeedCount := CountForReason(entries, ExplicitSeed);
    var slots := ComputeReservedSeedSlots(
      context.maxSelectedSources, explicitSeedCount, |Filter(entries, TestNotExplicit)|, kind);
    selected := SelectTieredSourceRefs(entries, context, slots);
  }

  lemma {:induction false} SlotsSeeTheTiers(entries: seq<Entry>)
    ensures CountRefsForReason(entries, ExplicitSeed) == |TierRefs(entries, Tier1a)|
    ensures CountTier1bRefs(entries) == |TierRefs(entries, Tier1b)|
  {
    FilterAgrees(entries, HasReason(ExplicitSeed), InTier(Tier1a));
    FilterAgrees(entries, TestNotExplicit, InTier(Tier1b));
  }

  // ----- the selection in four parts -----

  lemma {:induction false} Appends(selected: seq<string>, refs: seq<string>, n: int)
    requires Distinct(selected) && Distinct(refs) && forall ref :: ref in refs ==> ref !in selected
    ensures Picked(selected, refs, n) == selected + Take(refs, n) && Distinct(selected + Take(refs, n))
  {
    var all := selected + refs;
    forall i, j | 0 <= i < j < |all| ensures all[i] != all[j] {
      if i < |selected| <= j {
        assert refs[j - |selected|] in refs;
      }
    }
    AllUnseen(selected, refs);
    assert selected + Take(refs, n) <= selected + refs;
  }

  ghost predicate FromTiers(entries: seq<Entry>, refs: seq<string>, tiers: set<Tier>) {
    forall ref :: ref in refs ==> exists t :: t in tiers && ref in TierRefs(entries, t)
  }

  lemma {:induction false} PickTier(
    entries: seq<Entry>, context: Context, selected: seq<string>, before: set<Tier>, tier: Tier, n: int)
    requires IsMap(entries) && RefsNamed(entries)
    requires Distinct(selected) && FromTiers(entries, selected, before) && tier !in before
    ensures var taken := Take(Offered(entries, context, tier), n);
            var after := Picked(selected, Offered(entries, context, tier), n);
            after == selected + taken && Distinct(after) && FromTiers(entries, after, before + {tier})
  {
    hide TierRefs, Offered, Picked;
    var refs := Offered(entries, context, tier);
    OfferedFacts(entries, context, tier);
    forall ref | ref in refs ensures ref !in selected {
      if ref in selected {
        var t :| t in before && ref in TierRefs(entries, t);
        TiersDisjoint(entries, t, tier, ref);
      }
    }
    Appends(selected, refs, n);
    forall ref | ref in selected + Take(refs, n)
      ensures exists t :: t in before + {tier} && ref in TierRefs(entries, t)
    {
      if ref in selected {
        var t :| t in before && ref in TierRefs(entries, t);
        assert t in before + {tier};
      } else {
        assert ref in refs && tier in before + {tier};
      }
    }
  }

  /** Every tier contributes a prefix of what it offers, and no ref comes twice. */
  lemma {:induction false} SelectedInParts(entries: seq<Entry>, context: Context, slots: ReservedSeedSlots)
    returns (a: seq<string>, b: seq<string>, c: seq<string>, d: seq<string>)
    requires IsMap(entries) && RefsNamed(entries)
    ensures var cap := context.maxSelectedSources;
            && a == Take(Offered(entries, context, Tier1a), Min(slots.maxExplicitSourceSlots, cap))
            && b == Take(Offered(entries, context, Tier1b), Min(slots.maxTestSeedSlots, Max(0, cap - |a|)))
            && c == Take(Offered(entries, context, Tier2), Max(0, cap - |a| - |b|))
            && d == Take(Offered(entries, context, Tier3), Max(0, cap - |a| - |b| - |c|))
    ensures Selected(entries, context, slots) == a + b + c + d
    ensures Distinct(Selected(entries, context, slots))
    ensures FromTiers(entries, Selected(entries, context, slots), {Tier1a, Tier1b, Tier2, Tier3})
  {
    hide Offered, Picked, TierRefs, FromTiers, Distinct, Take, IsMap, RefsNamed;
    var cap := context.maxSelectedSources;
    NothingYetSelected(entries);
    a := Take(Offered(entries, context, Tier1a), Min(slots.maxExplicitSourceSlots, cap));
    PickTier(entries, context, [], {}, Tier1a, Min(slots.maxExplicitSourceSlots, cap));
    assert AfterTier1a(entries, context, slots) == a;
    b := Take(Offered(entries, context, Tier1b), Min(slots.maxTestSeedSlots, Remaining(a, cap)));
    PickTier(entries, context, a, {} + {Tier1a}, Tier1b, Min(slots.maxTestSeedSlots, Remaining(a, cap)));
    var ab := AfterTier1b(entries, context, slots);
    c := Take(Offered(entries, context, Tier2), Remaining(ab, cap));
    PickTier(entries, context, ab, {} + {Tier1a} + {Tier1b}, Tier2, Remaining(ab, cap));
    var abc := AfterTier2(entries, context, slots);
    d := Take(Offered(entries, context, Tier3), Remaining(abc, cap));
    PickTier(entries, context, abc, {} + {Tier1a} + {Tier1b} + {Tier2}, Tier3, Remaining(abc, cap));
    assert {} + {Tier1a} + {Tier1b} + {Tier2} + {Tier3} == {Tier1a, Tier1b, Tier2, Tier3};
  }

  lemma {:induction false} NothingYetSelected(entries: seq<Entry>)
    ensures FromTiers(entries, [], {}) && Distinct<string>([])
  {
  }

  // ----- the theorems -----

  /** Where the four parts end, given the real slots. */
  lemma {:induction false} RealParts(entries: seq<Entry>, context: Context, kind: TaskKind)
    returns (a: seq<string>, b: seq<string>, c: seq<string>, d: seq<string>)
    requires IsMap(entries) && RefsNamed(entries)
    ensures Selected(entries, context, RealSlots(entries, context, kind)) == a + b + c + d
    ensures a <= Offered(entries, context, Tier1a) && b <= Offered(entries, context, Tier1b)
    ensures c <= Offered(entries, context, Tier2) && d <= Offered(entries, context, Tier3)
    ensures |b| == Max(0, RealSlots(entries, context, kind).maxTestSeedSlots)
    ensures |a| + |b| + |c| + |d| <= Max(0, context.maxSelectedSources)
    ensures |a| + |b| + |c| + |d| == Max(0, context.maxSelectedSources) ||
            (a == Offered(entries, context, Tier1a) && c == Offered(entries, context, Tier2) &&
             d == Offered(entries, context, Tier3))
    ensures c + d != [] ==> a == Offered(entries, context, Tier1a)
    ensures d != [] ==> c == Offered(entries, context, Tier2)
  {
    hide Offered, Selected;
    var slots := RealSlots(entries, context, kind);
    a, b, c, d := SelectedInParts(entries, context, slots);
    SlotsSeeTheTiers(entries);
    OfferedFacts(entries, context, Tier1b);
  }

  /**
    No repeats, nothing but candidates, never over the cap; and the cap is reached unless all but test seeds are in.
  */
  lemma {:induction false} NearlyWorkConserving(entries: seq<Entry>, context: Context, kind: TaskKind)
    requires IsMap(entries) && RefsNamed(entries)
    ensures var selected := Selected(entries, context, RealSlots(entries, context, kind));
            && Distinct(selected) && |selected| <= Max(0, context.maxSelectedSources)
            && FromTiers(entries, selected, {Tier1a, Tier1b, Tier2, Tier3})
            && (|selected| == Max(0, context.maxSelectedSources) ||
                forall e :: e in entries && StrongestTier(e.reasons) != Tier1b ==> e.ref in selected)
  {
    hide Offered, Selected, RealSlots, TierRefs, FromTiers, Distinct, IsMap;
    var slots := RealSlots(entries, context, kind);
    var selected := Selected(entries, context, slots);
    var p, q, r, s := SelectedInParts(entries, context, slots);
    var a, b, c, d := RealParts(entries, context, kind);
    if |selected| != Max(0, context.maxSelectedSources) {
      forall e | e in entries && StrongestTier(e.reasons) != Tier1b ensures e.ref in selected {
        var tier := StrongestTier(e.reasons);
        TierRefsIff(entries, tier, e.ref);
        OfferedFacts(entries, context, tier);
        assert e.ref in a || e.ref in c || e.ref in d;
      }
    }
  }

  lemma {:induction false} TiersCover(entries: seq<Entry>)
    ensures |entries| == |TierRefs(entries, Tier1a)| + |TierRefs(entries, Tier1b)| + |TierRefs(entries, Tier2)| +
                         |TierRefs(entries, Tier3)|
    decreases |entries|
  {
    if entries != [] {
      TiersCover(entries[..|entries| - 1]);
    }
  }

  /**
    As much is selected as fits, exactly when the test seeds beyond the reserved ones could not have been used anyway.
  */
  lemma {:induction false} WorkConservingIff(entries: seq<Entry>, context: Context, kind: TaskKind)
    requires IsMap(entries) && RefsNamed(entries)
    ensures var slots := RealSlots(entries, context, kind);
            var cap, reserved, tests :=
              Max(0, context.maxSelectedSources), Max(0, slots.maxTestSeedSlots), CountTier1bRefs(entries);
            && |Selected(entries, context, slots)| == Min(cap, |entries| - tests + reserved)
            && (|Selected(entries, context, slots)| == Min(cap, |entries|) <==>
                tests <= reserved || |entries| - tests + reserved >= cap)
  {
    hide Offered, Selected, RealSlots, TierRefs;
    var a, b, c, d := RealParts(entries, context, kind);
    OfferedFacts(entries, context, Tier1a);
    OfferedFacts(entries, context, Tier1b);
    OfferedFacts(entries, context, Tier2);
    OfferedFacts(entries, context, Tier3);
    SlotsSeeTheTiers(entries);
    TiersCover(entries);
  }

  /** Exactly the reserved number of test seeds is taken, so at least one if there is one and room for two refs. */
  lemma {:induction false} ReservedTestSeedsTaken(entries: seq<Entry>, context: Context, kind: TaskKind)
    requires IsMap(entries) && RefsNamed(entries)
    ensures var slots := RealSlots(entries, context, kind);
            var taken := Filter(Selected(entries, context, slots), ref => ref in TierRefs(entries, Tier1b));
            && |taken| == Max(0, slots.maxTestSeedSlots)
            && (TierRefs(entries, Tier1b) != [] && context.maxSelectedSources >= 2 ==> taken != [])
  {
    var isTest := ref => ref in TierRefs(entries, Tier1b);
    var a, b, c, d := RealParts(entries, context, kind);
    FilterConcat(a + b + c, d, isTest);
    FilterConcat(a + b, c, isTest);
    FilterConcat(a, b, isTest);
    NoneOfTheseTests(entries, context, Tier1a, a);
    NoneOfTheseTests(entries, context, Tier2, c);
    NoneOfTheseTests(entries, context, Tier3, d);
    AllOfTheseTests(entries, context, b);
    SlotsSeeTheTiers(entries);
  }

  lemma {:induction false} NoneOfTheseTests(entries: seq<Entry>, context: Context, tier: Tier, refs: seq<string>)
    requires IsMap(entries) && RefsNamed(entries) && tier != Tier1b && refs <= Offered(entries, context, tier)
    ensures Filter(refs, ref => ref in TierRefs(entries, Tier1b)) == []
  {
    hide Offered, TierRefs;
    var isTest := ref => ref in TierRefs(entries, Tier1b);
    OfferedFacts(entries, context, tier);
    FilterContains(refs, isTest);
    if Filter(refs, isTest) != [] {
      var ref := Filter(refs, isTest)[0];
      assert ref in refs && ref in Offered(entries, context, tier);
      TiersDisjoint(entries, tier, Tier1b, ref);
    }
  }

  lemma {:induction false} AllOfTheseTests(entries: seq<Entry>, context: Context, refs: seq<string>)
    requires IsMap(entries) && RefsNamed(entries) && refs <= Offered(entries, context, Tier1b)
    ensures Filter(refs, ref => ref in TierRefs(entries, Tier1b)) == refs
    decreases |refs|
  {
    hide Offered, TierRefs;
    OfferedFacts(entries, context, Tier1b);
    if refs != [] {
      var init, last := refs[..|refs| - 1], refs[|refs| - 1];
      SplitLast(refs);
      AllOfTheseTests(entries, context, init);
      FilterSnoc(init, last, ref => ref in TierRefs(entries, Tier1b));
      assert last in Offered(entries, context, Tier1b);
    }
  }

  /** A weaker tier gets a slot only once every ref of the stronger one has its own. */
  lemma {:induction false} StrongerTiersFirst(entries: seq<Entry>, context: Context, kind: TaskKind, ref: string)
    requires IsMap(entries) && RefsNamed(entries)
    requires ref in Selected(entries, context, RealSlots(entries, context, kind))
    ensures ref in TierRefs(entries, Tier2) || ref in TierRefs(entries, Tier3) ==>
              forall other :: other in TierRefs(entries, Tier1a) ==>
                other in Selected(entries, context, RealSlots(entries, context, kind))
    ensures ref in TierRefs(entries, Tier3) ==>
              forall other :: other in TierRefs(entries, Tier2) ==>
                other in Selected(entries, context, RealSlots(entries, context, kind))
  {
    hide Offered, TierRefs, Selected, RealSlots;
    var a, b, c, d := RealParts(entries, context, kind);
    OfferedFacts(entries, context, Tier1a);
    OfferedFacts(entries, context, Tier1b);
    OfferedFacts(entries, context, Tier2);
    OfferedFacts(entries, context, Tier3);
    forall s, t: Tier | s != t && ref in TierRefs(entries, s) ensures ref !in TierRefs(entries, t) {
      if ref in TierRefs(entries, t) {
        TiersDisjoint(entries, s, t, ref);
      }
    }
    assert ref in a || ref in b || ref in c || ref in d;
  }

  // ----- determinism -----

  lemma {:induction false} FilterMultiplicity<T(!new)>(s: seq<T>, p: T -> bool, x: T)
    ensures multiset(Filter(s, p))[x] == if p(x) then multiset(s)[x] else 0
    decreases |s|
  {
    if s != [] {
      SplitLast(s);
      FilterMultiplicity(s[..|s| - 1], p, x);
    }
  }

  lemma {:induction false} RemoveAt(s: seq<Entry>, i: nat, rest: seq<Entry>)
    requires i < |s| && rest == s[..i] + s[i + 1..]
    ensures multiset(s) == multiset(rest) + multiset{s[i]}
    ensures multiset(Map(s, RefOf)) == multiset(Map(rest, RefOf)) + multiset{s[i].ref}
  {
    assert s == s[..i] + [s[i]] + s[i + 1..];
    var p, q := Map(s[..i], RefOf), Map(s[i + 1..], RefOf);
    assert Map(s, RefOf) == p + [s[i].ref] + q;
    assert Map(rest, RefOf) == p + q;
  }

  lemma {:induction false} Cancel<T>(a: multiset<T>, b: multiset<T>, x: T)
    requires a + multiset{x} == b + multiset{x}
    ensures a == b
  {
    assert a == (a + multiset{x}) - multiset{x};
    assert b == (b + multiset{x}) - multiset{x};
  }

  lemma {:induction false} IndexIn(e: Entry, s: seq<Entry>) returns (i: nat)
    requires e in s
    ensures i < |s| && s[i] == e
  {
    i :| i < |s| && s[i] == e;
  }

  lemma {:induction false} MapMultiset(a: seq<Entry>, b: seq<Entry>)
    requires multiset(a) == multiset(b)
    ensures multiset(Map(a, RefOf)) == multiset(Map(b, RefOf))
    decreases |a|
  {
    PermutationFacts(a, b);
    if a != [] {
      hide Map;
      var i := IndexIn(a[0], b);
      var restA, restB := a[..0] + a[1..], b[..i] + b[i + 1..];
      RemoveAt(a, 0, restA);
      RemoveAt(b, i, restB);
      Cancel(multiset(restA), multiset(restB), a[0]);
      MapMultiset(restA, restB);
    }
  }

  lemma {:induction false} TierIsAMultiset(a: seq<Entry>, b: seq<Entry>, tier: Tier)
    requires multiset(a) == multiset(b)
    ensures multiset(TierRefs(a, tier)) == multiset(TierRefs(b, tier))
  {
    forall x ensures multiset(Filter(a, InTier(tier)))[x] == multiset(Filter(b, InTier(tier)))[x] {
      FilterMultiplicity(a, InTier(tier), x);
      FilterMultiplicity(b, InTier(tier), x);
    }
    MapMultiset(Filter(a, InTier(tier)), Filter(b, InTier(tier)));
  }

  lemma {:induction false} ReasonsAreLookedUp(a: seq<Entry>, b: seq<Entry>, ref: string)
    requires IsMap(a) && IsMap(b) && multiset(a) == multiset(b)
    ensures ReasonsOf(a, ref) == ReasonsOf(b, ref)
  {
    PermutationFacts(a, b);
    IndexFacts(a, RefOf);
    IndexFacts(b, RefOf);
    if ref in Index(a, RefOf) {
      var e := Index(a, RefOf)[ref];
      SameRefSameEntry(b, e, Index(b, RefOf)[ref]);
    }
  }

  /** The selection depends on which candidates there are, not on the order they were found in. */
  lemma {:induction false} SelectionIgnoresInsertionOrder(
    a: seq<Entry>, b: seq<Entry>, context: Context, kind: TaskKind)
    requires IsMap(a) && IsMap(b) && multiset(a) == multiset(b)
    ensures Selected(a, context, RealSlots(a, context, kind)) == Selected(b, context, RealSlots(b, context, kind))
  {
    hide TierRefs, Picked, SpreadContext, ReasonsOf, Ranked;
    forall tier ensures Offered(a, context, tier) == Offered(b, context, tier) {
      TierIsAMultiset(a, b, tier);
      RankedIsCanonical(TierRefs(a, tier), TierRefs(b, tier), context.candidates);
      RolesIgnoreInsertionOrder(a, b, tier);
    }
    TierIsAMultiset(a, b, Tier1a);
    TierIsAMultiset(a, b, Tier1b);
    PermutationFacts(TierRefs(a, Tier1a), TierRefs(b, Tier1a));
    PermutationFacts(TierRefs(a, Tier1b), TierRefs(b, Tier1b));
    SlotsSeeTheTiers(a);
    SlotsSeeTheTiers(b);
  }

  lemma {:induction false} RolesIgnoreInsertionOrder(a: seq<Entry>, b: seq<Entry>, tier: Tier)
    requires IsMap(a) && IsMap(b) && multiset(a) == multiset(b)
    ensures RolesFor(a, tier) == RolesFor(b, tier)
  {
    hide TierRefs, ReasonsOf;
    TierIsAMultiset(a, b, Tier2);
    PermutationFacts(TierRefs(a, Tier2), TierRefs(b, Tier2));
    forall ref ensures ReasonsOf(a, ref) == ReasonsOf(b, ref) {
      ReasonsAreLookedUp(a, b, ref);
    }
    var m, n := EvidenceRoles(a, TierRefs(a, Tier2)), EvidenceRoles(b, TierRefs(b, Tier2));
    assert m.Keys == n.Keys;
    assert m == n;
  }
}

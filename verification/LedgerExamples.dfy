/** Small runs that show which conditions of the run theorems are needed. */
module LedgerExamples {
  import opened Common
  import opened Ordering
  import opened LedgerTypes
  import opened Staleness
  import opened ContextDiff
  import opened SessionLedger
  import opened DurableBuild
  import opened LedgerInvariants
  import opened LedgerReconstruction
  import opened LedgerFreshness
  import opened LedgerHistory
  import opened LedgerMemory
  import opened LedgerRuns
  import opened LedgerAgentRuns

  // ----- ids -----

  lemma {:induction false} IdsDiffer(
    sessionId: string, id1: string, id2: string, x: string, y: string, s1: DiffState, s2: DiffState)
    requires |id1| == |id2| && id1 != id2
    ensures ItemId(sessionId, id1, x, s1) != ItemId(sessionId, id2, y, s2)
  {
    var n := |sessionId| + 1;
    assert ItemId(sessionId, id1, x, s1)[n..n + |id1|] == id1;
    assert ItemId(sessionId, id2, y, s2)[n..n + |id2|] == id2;
  }

  lemma {:induction false} DependencyIdsDiffer(id1: string, id2: string, d: string)
    requires |id1| == |id2| && id1 != id2
    ensures StoredDependencyId(id1, d) != StoredDependencyId(id2, d)
  {
    assert StoredDependencyId(id1, d)[..|id1|] == id1 && StoredDependencyId(id2, d)[..|id2|] == id2;
  }

  lemma {:induction false} OmitAndRestoreIdsDiffer(sessionId: string, id: string, x: string)
    ensures ItemId(sessionId, id, x, OmitUnchanged) != ItemId(sessionId, id, x, RestoreAvailable)
  {
    var n := |sessionId| + |id| + |x| + 3;
    assert ItemId(sessionId, id, x, OmitUnchanged)[n] == 'O';
    assert ItemId(sessionId, id, x, RestoreAvailable)[n] == 'R';
  }

  lemma {:induction false} CommonPrefixKeepsOrder(p: string, a: string, b: string)
    requires StringLess(a, b)
    ensures StringLess(p + a, p + b)
    decreases |p|
  {
    if p == [] {
      assert p + a == a && p + b == b;
    } else {
      CommonPrefixKeepsOrder(p[1..], a, b);
      assert (p + a)[1..] == p[1..] + a && (p + b)[1..] == p[1..] + b;
    }
  }

  lemma {:induction false} EqualLengthDecides(a: string, b: string, u: string, v: string)
    requires |a| == |b| && StringLess(a, b)
    ensures StringLess(a + u, b + v)
    decreases |a|
  {
    if a[0] == b[0] {
      EqualLengthDecides(a[1..], b[1..], u, v);
    }
    assert (a + u)[1..] == a[1..] + u && (b + v)[1..] == b[1..] + v;
  }

  lemma {:induction false} ItemIdSplit(sessionId: string, id: string, x: string, s: DiffState)
    ensures ItemId(sessionId, id, x, s) == (sessionId + ":") + (id + (":" + x + ":" + StateName(s)))
  {
  }

  lemma {:induction false} SmallerArtifactSmallerId(p: string, id1: string, id2: string, u: string, v: string)
    requires |id1| == |id2| && StringLess(id1, id2)
    ensures StringLess(p + (id1 + u), p + (id2 + v))
  {
    EqualLengthDecides(id1, id2, u, v);
    CommonPrefixKeepsOrder(p, id1 + u, id2 + v);
  }

  lemma {:induction false} SmallerArtifactSortsFirst(
    sessionId: string, id1: string, id2: string, x: string, s1: DiffState, s2: DiffState)
    requires |id1| == |id2| && StringLess(id1, id2)
    ensures StringLess(ItemId(sessionId, id1, x, s1), ItemId(sessionId, id2, x, s2))
  {
    ItemIdSplit(sessionId, id1, x, s1);
    ItemIdSplit(sessionId, id2, x, s2);
    SmallerArtifactSmallerId(sessionId + ":", id1, id2, ":" + x + ":" + StateName(s1), ":" + x + ":" + StateName(s2));
  }

  // ----- keys -----

  /** A table of known ids and the rows to be added to it. */
  lemma {:induction false} ApartByIds<R>(a: seq<R>, b: seq<R>, key: R -> string, ids: seq<string>, added: seq<string>)
    requires |a| == |ids| && (forall i :: 0 <= i < |a| ==> key(a[i]) == ids[i])
    requires |b| == |added| && (forall j :: 0 <= j < |b| ==> key(b[j]) == added[j])
    requires forall i, j :: 0 <= i < |ids| && 0 <= j < |added| ==> ids[i] != added[j]
    requires Distinct(added)
    ensures Apart(a, b, key) && DistinctKeys(b, key)
  {
  }

  lemma {:induction false} CommitsIf(l: Ledger, req: Request)
    requires req.artifact.sessionId == req.sessionId && req.artifact.artifactId !in l.artifacts && KeysDistinct(l)
    requires DistinctKeys(NewDependencies(req), DependencyRowId) &&
             Apart(l.dependencies, NewDependencies(req), DependencyRowId)
    requires DistinctKeys(NewPacks(l, req), PackRowId) && Apart(l.packs, NewPacks(l, req), PackRowId)
    requires DistinctKeys(NewSent(l, req), SentRowId) && Apart(l.sent, NewSent(l, req), SentRowId)
    requires DistinctKeys(NewOmitted(l, req), OmittedRowId) && Apart(l.omitted, NewOmitted(l, req), OmittedRowId)
    ensures Commits(l, req)
  {
    CommitsByKeys(l, req);
  }

  // ----- builds of one section -----

  lemma {:induction false} FilterSingleton<T>(x: T, p: T -> bool)
    ensures Filter([x], p) == if p(x) then [x] else []
  {
    FilterSnoc([], x, p);
    assert [] + [x] == [x];
  }

  lemma {:induction false} SortSingleton<T(!new)>(x: T, less: (T, T) -> bool)
    ensures Sort([x], less) == [x]
  {
    assert [x][..0] == [];
  }

  lemma {:induction false} PackOfOne(
    sessionId: string, artifactId: string, x: Section, previous: map<string, PriorItem>)
    ensures PackFor(sessionId, artifactId, [x], previous) == SectionItems(sessionId, artifactId, x, previous)
  {
    assert [x][..0] == [];
    assert PackFor(sessionId, artifactId, [], previous) == [];
  }

  lemma {:induction false} SectionsOfOne(x: Section, previous: map<string, PriorItem>)
    ensures SentSections([x], previous) == if IsOmitted(x, previous) then [] else [x]
    ensures OmittedSections([x], previous) == if IsOmitted(x, previous) then [x] else []
  {
    FilterSingleton(x, s => IsOmitted(s, previous));
    FilterSingleton(x, s => !IsOmitted(s, previous));
  }

  /** A build for one session of one section with one dependency. */
  predicate Builds(req: Request, sessionId: string, id: string, x: Section, d: string) {
    && req.sessionId == sessionId && req.artifact.sessionId == sessionId && req.artifact.artifactId == id
    && req.artifact.sections == [x] && |req.artifact.dependencies| == 1 && req.artifact.dependencies[0].id == d
  }

  /** Two requests from one branch, commit and manifest. */
  predicate SamePlace(a: Artifact, b: Artifact) {
    a.branch == b.branch && a.commit == b.commit && a.manifestHash == b.manifestHash
  }

  lemma {:induction false} RowFacts(l: Ledger, req: Request, x: Section)
    ensures var r := SentRowFor(l, req, x);
            && r.sentItemId == ItemId(req.sessionId, req.artifact.artifactId, x.id,
              Classify(x, PreviousFor(x, Previous(l, req))))
            && r.sessionId == req.sessionId && r.sectionId == x.id && r.contentHash == x.contentHash
            && r.branch == req.artifact.branch && r.commit == req.artifact.commit && r.lastSentAt == req.now
            && r.manifestHash == req.artifact.manifestHash && r.resetId == req.reset
  {
  }

  lemma {:induction false} OneSend(l: Ledger, req: Request, x: Section)
    requires req.artifact.sections == [x] && !IsOmitted(x, Previous(l, req))
    ensures NewSent(l, req) == [SentRowFor(l, req, x)] && NewOmitted(l, req) == []
  {
    hide NewSent, NewOmitted, SentRowFor, Previous, IsOmitted;
    SectionsOfOne(x, Previous(l, req));
    NewSentRows(l, req);
    assert Sent(l, req) == [x];
    assert NewSent(l, req)[0] == SentRowFor(l, req, Sent(l, req)[0]);
    NothingOmitted(l, req);
  }

  lemma {:induction false} NothingOmitted(l: Ledger, req: Request)
    requires OmittedSections(req.artifact.sections, Previous(l, req)) == []
    ensures NewOmitted(l, req) == []
  {
    hide Previous;
  }

  lemma {:induction false} OnePackRow(l: Ledger, req: Request, x: Section)
    requires req.artifact.sections == [x] && StalePrior(l, req) == [] && !IsOmitted(x, Previous(l, req))
    ensures |NewPacks(l, req)| == 1 && NewPacks(l, req)[0].packItemId == SentRowFor(l, req, x).sentItemId
  {
    PackOfOne(req.sessionId, req.artifact.artifactId, x, Previous(l, req));
    assert Invalidations(req, []) == [];
    assert Pack(l, req) == [SendItem(req.sessionId, req.artifact.artifactId, x, Previous(l, req))];
    assert NewPacks(l, req)[0] == ToPackRow(req, Pack(l, req)[0]);
  }

  lemma {:induction false} OneDependencyRow(req: Request, sessionId: string, id: string, x: Section, d: string)
    requires Builds(req, sessionId, id, x, d)
    ensures |NewDependencies(req)| == 1 && NewDependencies(req)[0].dependencyId == StoredDependencyId(id, d)
  {
  }

  // ----- two sends of one section -----

  ghost predicate OneSurvives(l: Ledger, r: SentRow, id: string, d: string) {
    && WellFormed(l) && l.sent == [r] && Surviving(l, r.sessionId) == [r]
    && |l.packs| == 1 && l.packs[0].packItemId == r.sentItemId && l.omitted == [] && l.artifacts == {id}
    && |l.dependencies| == 1 && l.dependencies[0].dependencyId == StoredDependencyId(id, d)
  }

  ghost predicate TwoSurvive(l: Ledger, r1: SentRow, r2: SentRow, id1: string, id2: string, d: string) {
    && WellFormed(l) && l.sent == [r1, r2] && r1.sessionId == r2.sessionId && Surviving(l, r1.sessionId) == [r1, r2]
    && |l.packs| == 2 && l.packs[0].packItemId == r1.sentItemId && l.packs[1].packItemId == r2.sentItemId
    && l.omitted == [] && l.artifacts == {id1, id2}
    && |l.dependencies| == 2 && l.dependencies[0].dependencyId == StoredDependencyId(id1, d)
    && l.dependencies[1].dependencyId == StoredDependencyId(id2, d)
  }

  lemma {:induction false} EmptyHasNoPrior(req: Request)
    ensures Surviving(EmptyLedger, req.sessionId) == [] && StalePrior(EmptyLedger, req) == []
    ensures Previous(EmptyLedger, req) == map[] && WellFormed(EmptyLedger)
  {
    assert Prior(EmptyLedger, req) == [] && CurrentPrior(EmptyLedger, req) == [];
    assert OfSession([], req.sessionId) == [];
  }

  lemma {:induction false} FirstCommits(req: Request, sessionId: string, id: string, x: Section, d: string)
    requires Builds(req, sessionId, id, x, d)
    ensures Commits(EmptyLedger, req) && StalePrior(EmptyLedger, req) == [] && !IsOmitted(x, Previous(EmptyLedger, req))
  {
    var l := EmptyLedger;
    EmptyHasNoPrior(req);
    OneSend(l, req, x);
    OnePackRow(l, req, x);
    OneDependencyRow(req, sessionId, id, x, d);
    CommitsIf(l, req);
  }

  /** What a row was sent with. */
  predicate SentAs(r: SentRow, req: Request, x: Section, s: DiffState) {
    && r.sentItemId == ItemId(req.sessionId, req.artifact.artifactId, x.id, s) && r.sessionId == req.sessionId
    && r.sectionId == x.id && r.contentHash == x.contentHash && r.branch == req.artifact.branch
    && r.commit == req.artifact.commit && r.manifestHash == req.artifact.manifestHash && r.lastSentAt == req.now
  }

  lemma {:induction false} FirstRow(req: Request, x: Section)
    ensures SentAs(SentRowFor(EmptyLedger, req, x), req, x, if x.pinned then Pinned else New)
  {
    EmptyHasNoPrior(req);
    RowFacts(EmptyLedger, req, x);
    hide SentRowFor, Previous, ItemId;
  }

  lemma {:induction false} FirstSend(req: Request, sessionId: string, id: string, x: Section, d: string)
    returns (l: Ledger, r: SentRow)
    requires Builds(req, sessionId, id, x, d)
    ensures l == Next(EmptyLedger, req) && OneSurvives(l, r, id, d)
    ensures SentAs(r, req, x, if x.pinned then Pinned else New)
  {
    hide Commits, NewSent, NewPacks, NewOmitted, NewDependencies, SentRowFor, Previous, Surviving, StalePrior;
    hide ItemId, StoredDependencyId, WellFormed, IsOmitted;
    l, r := Recorded(EmptyLedger, req), SentRowFor(EmptyLedger, req, x);
    FirstCommits(req, sessionId, id, x, d);
    EmptyHasNoPrior(req);
    OneSend(EmptyLedger, req, x);
    OnePackRow(EmptyLedger, req, x);
    OneDependencyRow(req, sessionId, id, x, d);
    BuildKeepsWellFormed(EmptyLedger, req);
    SurvivingAfter(EmptyLedger, req);
    assert Kept(EmptyLedger, req) == [];
    FirstRow(req, x);
  }

  lemma {:induction false} ListedOfOne(l: Ledger, r: SentRow)
    requires Surviving(l, r.sessionId) == [r]
    ensures ListActive(l, r.sessionId) == [r]
  {
    NewerIsStrict(r, r);
    FilterSingleton(r, x => NewestOfSection([r], x));
    SortSingleton(r, ListedBefore);
  }

  lemma {:induction false} ListedOfTwo(l: Ledger, r1: SentRow, r2: SentRow, top: SentRow)
    requires Surviving(l, r1.sessionId) == [r1, r2] && r1.sectionId == r2.sectionId
    requires (top == r1 && Newer(r1, r2)) || (top == r2 && Newer(r2, r1))
    ensures ListActive(l, r1.sessionId) == [top]
  {
    var rows := [r1, r2];
    NewerIsStrict(r1, r1);
    NewerIsStrict(r2, r2);
    NewerIsStrict(r1, r2);
    assert r1 in rows && r2 in rows;
    assert NewestOfSection(rows, top);
    var p := r => NewestOfSection(rows, r);
    FilterSingleton(r1, p);
    FilterSnoc([r1], r2, p);
    assert [r1] + [r2] == rows;
    if top == r2 {
      assert !NewestOfSection(rows, r1) && [] + [r2] == [r2];
    } else {
      assert !NewestOfSection(rows, r2);
    }
    SortSingleton(top, ListedBefore);
  }

  lemma {:induction false} OneListedIsCurrent(l: Ledger, req: Request, r: SentRow)
    requires WellFormed(l) && ListActive(l, req.sessionId) == [r] && req.reset.None?
    requires r.branch == req.artifact.branch && r.commit == req.artifact.commit &&
             r.manifestHash == req.artifact.manifestHash
    ensures StalePrior(l, req) == [] && CurrentPrior(l, req) == [r]
    ensures r.sectionId in Previous(l, req) && Previous(l, req)[r.sectionId] == ToPriorItem(r)
  {
    var payloads := ListActivePayloads(l, req.sessionId);
    FilterSingleton(r, r => !req.reset.Some? && !IsStale(r, payloads, req.artifact, Lister(l)));
    FilterSingleton(r, r => req.reset.Some? || IsStale(r, payloads, req.artifact, Lister(l)));
    PreviousIsCurrentRow(l, req, r.sectionId);
    assert r in CurrentPrior(l, req);
  }

  lemma {:induction false} SecondCommits(
    l: Ledger, req: Request, r1: SentRow, sessionId: string, id1: string, id2: string, y: Section, d: string)
    requires OneSurvives(l, r1, id1, d) && Builds(req, sessionId, id2, y, d) && |id1| == |id2| && id1 != id2
    requires StalePrior(l, req) == [] && !IsOmitted(y, Previous(l, req))
    requires r1.sentItemId != SentRowFor(l, req, y).sentItemId
    ensures Commits(l, req)
  {
    hide ItemId, SentRowFor, Previous, StalePrior, NewPacks, NewSent, NewOmitted, NewDependencies, IsOmitted;
    hide Surviving, StoredDependencyId;
    var id := SentRowFor(l, req, y).sentItemId;
    assert Apart(l.dependencies, NewDependencies(req), DependencyRowId) &&
      DistinctKeys(NewDependencies(req), DependencyRowId) by {
      OneDependencyRow(req, sessionId, id2, y, d);
      DependencyIdsDiffer(id1, id2, d);
    }
    assert Apart(l.packs, NewPacks(l, req), PackRowId) && DistinctKeys(NewPacks(l, req), PackRowId) by {
      OnePackRow(l, req, y);
      ApartByIds(l.packs, NewPacks(l, req), PackRowId, [r1.sentItemId], [id]);
    }
    assert Apart(l.sent, NewSent(l, req), SentRowId) && DistinctKeys(NewSent(l, req), SentRowId) by {
      OneSend(l, req, y);
      ApartByIds(l.sent, NewSent(l, req), SentRowId, [r1.sentItemId], [id]);
    }
    assert Apart(l.omitted, NewOmitted(l, req), OmittedRowId) && DistinctKeys(NewOmitted(l, req), OmittedRowId) by {
      OneSend(l, req, y);
    }
    CommitsIf(l, req);
  }

  lemma {:induction false} SecondRecorded(
    l: Ledger, req: Request, r1: SentRow, sessionId: string, id1: string, id2: string, y: Section, d: string)
    requires OneSurvives(l, r1, id1, d) && Builds(req, sessionId, id2, y, d) && Commits(l, req)
    requires StalePrior(l, req) == [] && !IsOmitted(y, Previous(l, req)) && r1.sessionId == sessionId
    ensures TwoSurvive(Recorded(l, req), r1, SentRowFor(l, req, y), id1, id2, d)
  {
    hide ItemId, SentRowFor, Previous, StalePrior, NewPacks, NewSent, NewOmitted, NewDependencies, IsOmitted;
    hide WellFormed, StoredDependencyId;
    var r2, after := SentRowFor(l, req, y), Recorded(l, req);
    assert NewSent(l, req) == [r2] && after.omitted == [] by {
      OneSend(l, req, y);
    }
    assert after.packs[0].packItemId == r1.sentItemId && after.packs[1].packItemId == r2.sentItemId &&
      |after.packs| == 2 by {
      OnePackRow(l, req, y);
    }
    assert |after.dependencies| == 2 && after.dependencies[1].dependencyId == StoredDependencyId(id2, d) by {
      OneDependencyRow(req, sessionId, id2, y, d);
    }
    assert WellFormed(after) by {
      BuildKeepsWellFormed(l, req);
    }
    assert Surviving(after, sessionId) == [r1, r2] by {
      SurvivingAfter(l, req);
      FilterKeepsAll([r1], r => r !in StalePrior(l, req));
    }
    RowFacts(l, req, y);
  }

  lemma {:induction false} SecondSend(
    l: Ledger, req: Request, r1: SentRow, sessionId: string, id1: string, id2: string, y: Section, d: string)
    returns (after: Ledger, r2: SentRow)
    requires OneSurvives(l, r1, id1, d) && Builds(req, sessionId, id2, y, d) && |id1| == |id2| && id1 != id2
    requires r1.sessionId == sessionId && r1.sectionId == y.id && req.reset.None?
    requires r1.branch == req.artifact.branch && r1.commit == req.artifact.commit &&
             r1.manifestHash == req.artifact.manifestHash
    requires y.pinned || r1.contentHash != y.contentHash
    requires r1.sentItemId != ItemId(sessionId, id2, y.id, if y.pinned then Pinned else Changed)
    ensures after == Next(l, req) && TwoSurvive(after, r1, r2, id1, id2, d)
    ensures SentAs(r2, req, y, if y.pinned then Pinned else Changed)
  {
    ListedOfOne(l, r1);
    OneListedIsCurrent(l, req, r1);
    RowFacts(l, req, y);
    after, r2 := Recorded(l, req), SentRowFor(l, req, y);
    SecondCommits(l, req, r1, sessionId, id1, id2, y, d);
    SecondRecorded(l, req, r1, sessionId, id1, id2, y, d);
  }

  lemma {:induction false} LedgerAfterTwo(first: Request, second: Request)
    ensures LedgerAfter([first, second]) == Next(Next(EmptyLedger, first), second)
  {
    assert [first, second][..1] == [first] && [first][..0] == [];
    assert LedgerAfter([first]) == Next(LedgerAfter([]), first);
    assert [first, second][1] == second && |[first, second]| == 2;
  }

  /** Two sends of one section from the same place leave both rows standing. */
  lemma {:induction false} TwoSends(
    first: Request, second: Request, sessionId: string, id1: string, id2: string, x: Section, y: Section, d: string)
    returns (l: Ledger, r1: SentRow, r2: SentRow)
    requires Builds(first, sessionId, id1, x, d) && Builds(second, sessionId, id2, y, d) && |id1| == |id2| && id1 != id2
    requires SamePlace(first.artifact, second.artifact) && second.reset.None? && x.id == y.id
    requires y.pinned || x.contentHash != y.contentHash
    ensures l == LedgerAfter([first, second]) && TwoSurvive(l, r1, r2, id1, id2, d)
    ensures SentAs(r1, first, x, if x.pinned then Pinned else New)
    ensures SentAs(r2, second, y, if y.pinned then Pinned else Changed)
  {
    l, r1 := FirstSend(first, sessionId, id1, x, d);
    IdsDiffer(sessionId, id1, id2, x.id, x.id, if x.pinned then Pinned else New, if y.pinned then Pinned else Changed);
    l, r2 := SecondSend(l, second, r1, sessionId, id1, id2, y, d);
    LedgerAfterTwo(first, second);
  }

  lemma {:induction false} ThirdBuild(first: Request, second: Request, third: Request)
    ensures var reqs := [first, second, third];
            reqs[..|reqs| - 1] == [first, second] && reqs[|reqs| - 1] == third
    ensures LastCommits([first, second, third]) <==> Commits(LedgerAfter([first, second]), third)
    ensures Commits(LedgerAfter([first, second]), third) ==>
              LedgerAfter([first, second, third]) == Recorded(LedgerAfter([first, second]), third)
  {
    assert [first, second, third][..2] == [first, second];
  }

  lemma {:induction false} OneSectionEach(first: Request, second: Request, third: Request)
    requires |first.artifact.sections| == |second.artifact.sections| == |third.artifact.sections| == 1
    ensures SectionsUnique([first, second, third])
  {
  }

  // ----- equal timestamps -----

  lemma {:induction false} OmittedItems(l: Ledger, req: Request, x: Section)
    requires req.artifact.sections == [x] && IsOmitted(x, Previous(l, req)) && StalePrior(l, req) == []
    ensures NewSent(l, req) == [] && |NewOmitted(l, req)| == 1 && |NewPacks(l, req)| == 2
    ensures NewPacks(l, req)[0].packItemId == ItemId(req.sessionId, req.artifact.artifactId, x.id, OmitUnchanged)
    ensures NewPacks(l, req)[1].packItemId == ItemId(req.sessionId, req.artifact.artifactId, x.id, RestoreAvailable)
  {
    PackOfOne(req.sessionId, req.artifact.artifactId, x, Previous(l, req));
    SectionsOfOne(x, Previous(l, req));
    NewSentRows(l, req);
    assert |Sent(l, req)| == 0;
    assert Invalidations(req, []) == [];
    assert Pack(l, req) == SectionItems(req.sessionId, req.artifact.artifactId, x, Previous(l, req));
    assert |OmittedSections(req.artifact.sections, Previous(l, req))| == 1;
  }

  lemma {:induction false} OmissionCommits(
    l: Ledger, req: Request, r1: SentRow, r2: SentRow, sessionId: string, id1: string, id2: string, id3: string,
    x: Section, d: string)
    requires TwoSurvive(l, r1, r2, id1, id2, d) && Builds(req, sessionId, id3, x, d)
    requires |id1| == |id2| == |id3| && id3 != id1 && id3 != id2
    requires StalePrior(l, req) == [] && IsOmitted(x, Previous(l, req))
    requires PackIdsApart(r1.sentItemId, r2.sentItemId, ItemId(sessionId, id3, x.id, OmitUnchanged),
                          ItemId(sessionId, id3, x.id, RestoreAvailable))
    ensures Commits(l, req)
  {
    hide ItemId, SentRowFor, Previous, StalePrior, NewPacks, NewSent, NewOmitted, NewDependencies, IsOmitted;
    hide Surviving, StoredDependencyId;
    ThirdDependencies(l, req, r1, r2, sessionId, id1, id2, id3, x, d);
    assert Apart(l.packs, NewPacks(l, req), PackRowId) && DistinctKeys(NewPacks(l, req), PackRowId) by {
      OmittedItems(l, req, x);
      ApartByIds(l.packs, NewPacks(l, req), PackRowId, [r1.sentItemId, r2.sentItemId],
        [NewPacks(l, req)[0].packItemId, NewPacks(l, req)[1].packItemId]);
    }
    assert NewSent(l, req) == [] && |NewOmitted(l, req)| == 1 by {
      OmittedItems(l, req, x);
    }
    CommitsIf(l, req);
  }

  lemma {:induction false} ThirdDependencies(
    l: Ledger, req: Request, r1: SentRow, r2: SentRow, sessionId: string, id1: string, id2: string, id3: string,
    x: Section, d: string)
    requires TwoSurvive(l, r1, r2, id1, id2, d) && Builds(req, sessionId, id3, x, d)
    requires |id1| == |id2| == |id3| && id3 != id1 && id3 != id2
    ensures Apart(l.dependencies, NewDependencies(req), DependencyRowId) &&
            DistinctKeys(NewDependencies(req), DependencyRowId)
  {
    OneDependencyRow(req, sessionId, id3, x, d);
    DependencyIdsDiffer(id1, id3, d);
    DependencyIdsDiffer(id2, id3, d);
  }

  predicate PackIdsApart(a: string, b: string, c: string, d: string) {
    a != c && a != d && b != c && b != d && c != d
  }

  lemma {:induction false} OmissionIdsApart(
    r1: SentRow, r2: SentRow, sessionId: string, id1: string, id2: string, id3: string, x: string)
    requires |id1| == |id2| == |id3| && id3 != id1 && id3 != id2
    requires r1.sentItemId == ItemId(sessionId, id1, x, New) && r2.sentItemId == ItemId(sessionId, id2, x, Changed)
    ensures PackIdsApart(r1.sentItemId, r2.sentItemId, ItemId(sessionId, id3, x, OmitUnchanged),
                         ItemId(sessionId, id3, x, RestoreAvailable))
  {
    OmitAndRestoreIdsDiffer(sessionId, id3, x);
    forall s | s in [OmitUnchanged, RestoreAvailable]
      ensures r1.sentItemId != ItemId(sessionId, id3, x, s) && r2.sentItemId != ItemId(sessionId, id3, x, s)
    {
      IdsDiffer(sessionId, id1, id3, x, x, New, s);
      IdsDiffer(sessionId, id2, id3, x, x, Changed, s);
    }
    assert OmitUnchanged in [OmitUnchanged, RestoreAvailable] && RestoreAvailable in [OmitUnchanged, RestoreAvailable];
  }

  /** Three builds at one instant: a text, a change of it under a smaller artifact id, and the first text again. */
  predicate Tied(
    first: Request, second: Request, third: Request, sessionId: string, id1: string, id2: string, id3: string,
    x: Section, y: Section, d: string)
  {
    && Builds(first, sessionId, id1, x, d) && Builds(second, sessionId, id2, y, d) &&
      Builds(third, sessionId, id3, x, d)
    && SamePlace(first.artifact, second.artifact) && SamePlace(first.artifact, third.artifact)
    && first.now == second.now == third.now && second.reset.None? && third.reset.None?
    && x.id == y.id && !x.pinned && !y.pinned && x.contentHash != y.contentHash
    && |id1| == |id2| == |id3| && StringLess(id2, id1) && id3 != id1 && id3 != id2
  }

  lemma {:induction false} ThirdTied(
    l: Ledger, third: Request, r1: SentRow, r2: SentRow, sessionId: string, id1: string, id2: string, id3: string,
    x: Section, d: string)
    requires TwoSurvive(l, r1, r2, id1, id2, d) && Builds(third, sessionId, id3, x, d) && r1.sessionId == sessionId
    requires |id1| == |id2| == |id3| && id3 != id1 && id3 != id2 && third.reset.None? && !x.pinned
    requires r1.sectionId == r2.sectionId == x.id && r1.contentHash == x.contentHash != r2.contentHash
    requires r1.branch == third.artifact.branch && r1.commit == third.artifact.commit
    requires r1.manifestHash == third.artifact.manifestHash
    requires r1.lastSentAt == r2.lastSentAt && StringLess(r2.sentItemId, r1.sentItemId)
    requires PackIdsApart(r1.sentItemId, r2.sentItemId, ItemId(sessionId, id3, x.id, OmitUnchanged),
                          ItemId(sessionId, id3, x.id, RestoreAvailable))
    ensures Commits(l, third) && !OmissionsAgree(l, third, Surviving(l, third.sessionId))
  {
    ListedOfTwo(l, r1, r2, r1);
    OneListedIsCurrent(l, third, r1);
    OmissionCommits(l, third, r1, r2, sessionId, id1, id2, id3, x, d);
    assert LastOfSection([r1, r2], x.id) == Some(r2);
    assert x in third.artifact.sections && !LastArrivedIs(Surviving(l, sessionId), x);
  }

  /** Every such run leaves the agent with the changed text where the artifact has the first one. */
  lemma {:induction false} TiedRunMisreconstructs(
    first: Request, second: Request, third: Request, sessionId: string, id1: string, id2: string, id3: string,
    x: Section, y: Section, d: string)
    requires Tied(first, second, third, sessionId, id1, id2, id3, x, y, d)
    ensures LastCommits([first, second, third])
    ensures !Reconstructs(AgentAfter([first, second, third], sessionId), [x])
  {
    StringLessIrreflexive(id1);
    var l, r1, r2 := TwoSends(first, second, sessionId, id1, id2, x, y, d);
    SmallerArtifactSortsFirst(sessionId, id2, id1, x.id, Changed, New);
    OmissionIdsApart(r1, r2, sessionId, id1, id2, id3, x.id);
    ThirdTied(l, third, r1, r2, sessionId, id1, id2, id3, x, d);
    TiedConclusion(first, second, third, l);
  }

  /** A reset of the first build forgets nothing, and the second is none. */
  lemma {:induction false} RemembersBoth(first: Request, second: Request, sessionId: string)
    requires second.reset.None?
    ensures Remembered([first, second], sessionId) == Surviving(LedgerAfter([first, second]), sessionId)
  {
    hide Commits, Surviving, SentSince;
    assert [first, second][..1] == [first] && [first][..0] == [];
    assert ResetMark([], sessionId) == 0 && |LedgerAfter([]).sent| == 0;
    assert ResetMark([first], sessionId) == 0;
    assert ResetMark([first, second], sessionId) == 0;
    SinceTheStart(LedgerAfter([first, second]), sessionId);
  }

  lemma {:induction false} TiedConclusion(first: Request, second: Request, third: Request, l: Ledger)
    requires l == LedgerAfter([first, second]) && second.reset.None? && Commits(l, third)
    requires !OmissionsAgree(l, third, Surviving(l, third.sessionId))
    requires |first.artifact.sections| == |second.artifact.sections| == |third.artifact.sections| == 1
    ensures LastCommits([first, second, third])
    ensures !Reconstructs(AgentAfter([first, second, third], third.sessionId), third.artifact.sections)
  {
    hide OmissionsAgree, Reconstructs, LedgerAfter, AgentAfter, Commits, SectionsUnique, LastCommits;
    hide Remembered, Surviving;
    OneSectionEach(first, second, third);
    ThirdBuild(first, second, third);
    RemembersBoth(first, second, third.sessionId);
    RunReconstructsIff([first, second, third]);
  }

  function Span(id: string, text: string, pinned: bool): Section {
    Section(id, "code_span", "title", text, ["d"], ContentSha256([id, "title", text, "d"]), pinned)
  }

  function Build(id: string, section: Section, fileHash: string, now: nat, reset: Option<string>): Request {
    var dependencies := [Dependency("d", "src/a.ts", fileHash)];
    Request("s", Artifact(id, "s", "main", "c0", [section], dependencies, ManifestSha256(dependencies, "", "")), now,
      reset)
  }

  lemma {:induction false} TiedInput()
    returns (first: Request, second: Request, third: Request, sessionId: string, id1: string, id2: string, id3: string,
             x: Section, y: Section, d: string)
    ensures x.body == "one" && y.body == "two" && HonestContentHash(x) && HonestContentHash(y)
    ensures Tied(first, second, third, sessionId, id1, id2, id3, x, y, d) && first.now == second.now == third.now == 5
    ensures sessionId == "s" == third.sessionId && third.artifact.sections == [x]
    ensures |first.artifact.sections| == |second.artifact.sections| == |third.artifact.sections| == 1
  {
    sessionId, id1, id2, id3, d := "s", "b", "a", "c", "d";
    x, y := Span("x", "one", false), Span("x", "two", false);
    first, second, third := Build("b", x, "h", 5, None), Build("a", y, "h", 5, None), Build("c", x, "h", 5, None);
    assert "one"[0] != "two"[0];
    assert x.contentHash.parts[2] == "one" && y.contentHash.parts[2] == "two";
    assert x.contentHash.parts == [x.id, x.title, x.body] + x.dependencyRefs;
    assert y.contentHash.parts == [y.id, y.title, y.body] + y.dependencyRefs;
    assert "c"[0] != "b"[0] && "c"[0] != "a"[0];
  }

  /** A concrete run on a clock that never goes backwards but stands still: "one", "two", "one" ends with "two" held. */
  lemma {:induction false} EqualTimestampsBreakReconstruction()
    returns (first: Request, second: Request, third: Request)
    ensures first.now == second.now == third.now == 5
    ensures SectionsUnique([first, second, third]) && LastCommits([first, second, third]) && third.sessionId == "s"
    ensures !Reconstructs(AgentAfter([first, second, third], "s"), third.artifact.sections)
  {
    hide Tied, LedgerAfter, AgentAfter, Reconstructs, SectionsUnique, LastCommits;
    var sessionId, id1, id2, id3, x, y, d;
    first, second, third, sessionId, id1, id2, id3, x, y, d := TiedInput();
    OneSectionEach(first, second, third);
    TiedRunMisreconstructs(first, second, third, sessionId, id1, id2, id3, x, y, d);
  }

  // ----- a covered row resurfaces -----

  lemma {:induction false} GoneSectionPartition(l: Ledger, req: Request, r: SentRow, y: Section)
    requires WellFormed(l) && ListActive(l, req.sessionId) == [r] && req.artifact.sections == [y]
    requires r.sectionId != y.id && r.manifestHash != req.artifact.manifestHash
    ensures StalePrior(l, req) == [r] && CurrentPrior(l, req) == [] && !IsOmitted(y, Previous(l, req))
  {
    var payloads := ListActivePayloads(l, req.sessionId);
    IndexFacts([y], SectionId);
    assert IsStale(r, payloads, req.artifact, Lister(l));
    FilterSingleton(r, r => !req.reset.Some? && !IsStale(r, payloads, req.artifact, Lister(l)));
    FilterSingleton(r, r => req.reset.Some? || IsStale(r, payloads, req.artifact, Lister(l)));
    PreviousIsCurrentRow(l, req, y.id);
  }

  lemma {:induction false} GoneSectionItems(l: Ledger, req: Request, r: SentRow, y: Section)
    requires req.artifact.sections == [y] && StalePrior(l, req) == [r] && !IsOmitted(y, Previous(l, req))
    ensures |NewPacks(l, req)| == 2
    ensures NewPacks(l, req)[0].packItemId == CreateInvalidationPackItem(req, r).itemId
    ensures NewPacks(l, req)[1].packItemId == SentRowFor(l, req, y).sentItemId
  {
    PackOfOne(req.sessionId, req.artifact.artifactId, y, Previous(l, req));
    assert Pack(l, req) ==
      [CreateInvalidationPackItem(req, r), SendItem(req.sessionId, req.artifact.artifactId, y, Previous(l, req))];
  }

  lemma {:induction false} InvalidationIdDiffers(req: Request, r: SentRow, other: string, y: string, s: DiffState)
    requires |other| == |req.artifact.artifactId| && y != [] && y[0] != 'i'
    ensures other != req.artifact.artifactId ==>
              CreateInvalidationPackItem(req, r).itemId != ItemId(req.sessionId, other, y, s)
    ensures CreateInvalidationPackItem(req, r).itemId != ItemId(req.sessionId, req.artifact.artifactId, y, s)
  {
    var n, m := |req.sessionId| + 1, |req.artifact.artifactId|;
    assert CreateInvalidationPackItem(req, r).itemId[n..n + m] == req.artifact.artifactId;
    assert ItemId(req.sessionId, other, y, s)[n..n + m] == other;
    assert CreateInvalidationPackItem(req, r).itemId[n + m + 1] == 'i';
    assert ItemId(req.sessionId, req.artifact.artifactId, y, s)[n + m + 1] == y[0];
  }

  predicate GoneIdsApart(a: string, b: string, invalidation: string, send: string) {
    a != invalidation && b != invalidation && a != send && b != send && invalidation != send
  }

  lemma {:induction false} GoneSectionCommits(
    l: Ledger, req: Request, r1: SentRow, r2: SentRow, gone: SentRow, sessionId: string,
    id1: string, id2: string, id3: string, y: Section, d: string)
    requires TwoSurvive(l, r1, r2, id1, id2, d) && Builds(req, sessionId, id3, y, d)
    requires |id1| == |id2| == |id3| && id3 != id1 && id3 != id2
    requires StalePrior(l, req) == [gone] && !IsOmitted(y, Previous(l, req))
    requires GoneIdsApart(r1.sentItemId, r2.sentItemId, CreateInvalidationPackItem(req, gone).itemId,
                          SentRowFor(l, req, y).sentItemId)
    ensures Commits(l, req)
  {
    hide ItemId, SentRowFor, Previous, StalePrior, NewPacks, NewSent, NewOmitted, NewDependencies, IsOmitted;
    hide Surviving, StoredDependencyId, CreateInvalidationPackItem;
    var ids, send := [r1.sentItemId, r2.sentItemId], SentRowFor(l, req, y).sentItemId;
    ThirdDependencies(l, req, r1, r2, sessionId, id1, id2, id3, y, d);
    assert Apart(l.packs, NewPacks(l, req), PackRowId) && DistinctKeys(NewPacks(l, req), PackRowId) by {
      GoneSectionItems(l, req, gone, y);
      ApartByIds(l.packs, NewPacks(l, req), PackRowId, ids, [CreateInvalidationPackItem(req, gone).itemId, send]);
    }
    assert Apart(l.sent, NewSent(l, req), SentRowId) && DistinctKeys(NewSent(l, req), SentRowId) by {
      OneSend(l, req, y);
      ApartByIds(l.sent, NewSent(l, req), SentRowId, ids, [send]);
    }
    assert NewOmitted(l, req) == [] by {
      OneSend(l, req, y);
    }
    CommitsIf(l, req);
  }

  lemma {:induction false} GoneSectionIdsApart(
    req: Request, r1: SentRow, r2: SentRow, gone: SentRow, id1: string, id2: string, x: string, y: string,
    s1: DiffState, s2: DiffState, state: DiffState)
    requires |id1| == |id2| == |req.artifact.artifactId| && req.artifact.artifactId != id1 &&
             req.artifact.artifactId != id2
    requires y != [] && y[0] != 'i' && x != [] && x[0] != 'i'
    requires r1.sentItemId == ItemId(req.sessionId, id1, x, s1) && r2.sentItemId == ItemId(req.sessionId, id2, x, s2)
    ensures GoneIdsApart(r1.sentItemId, r2.sentItemId, CreateInvalidationPackItem(req, gone).itemId,
                         ItemId(req.sessionId, req.artifact.artifactId, y, state))
  {
    IdsDiffer(req.sessionId, id1, req.artifact.artifactId, x, y, s1, state);
    IdsDiffer(req.sessionId, id2, req.artifact.artifactId, x, y, s2, state);
    InvalidationIdDiffers(req, gone, id1, x, s1);
    InvalidationIdDiffers(req, gone, id2, x, s2);
    InvalidationIdDiffers(req, gone, id1, y, state);
  }

  /** A pinned section sent twice, then gone from an artifact with another manifest. */
  predicate PinnedThenGone(
    first: Request, second: Request, third: Request, sessionId: string, id1: string, id2: string, id3: string,
    x: Section, y: Section, d: string)
  {
    && Builds(first, sessionId, id1, x, d) && Builds(second, sessionId, id2, x, d) &&
      Builds(third, sessionId, id3, y, d)
    && SamePlace(first.artifact, second.artifact) && first.artifact.manifestHash != third.artifact.manifestHash
    && first.now < second.now < third.now && first.reset.None? && second.reset.None?
    && x.pinned && x.id != y.id && x.id != [] && x.id[0] != 'i' && y.id != [] && y.id[0] != 'i'
    && |id1| == |id2| == |id3| && id1 != id2 && id3 != id1 && id3 != id2
  }

  lemma {:induction false} GoneRowResurfaces(l: Ledger, third: Request, r1: SentRow, r2: SentRow, y: Section)
    requires WellFormed(l) && Surviving(l, third.sessionId) == [r1, r2] && r1 != r2 && third.artifact.sections == [y]
    requires StalePrior(l, third) == [r2] && CurrentPrior(l, third) == []
    requires r1.sectionId != y.id && r1.manifestHash != third.artifact.manifestHash
    ensures Resurfaces(l, third, r1) && RowStale(l, r1, third.artifact)
  {
    hide WellFormed, StalePrior, CurrentPrior, Surviving, Kept;
    KeptMembers(l, third);
    NewerIsStrict(r1, r1);
    assert r1 in Surviving(l, third.sessionId);
    forall n | n in Kept(l, third) ensures n == r1 {
      assert n in [r1, r2];
    }
    IndexFacts([y], SectionId);
  }

  lemma {:induction false} ThirdGone(
    l: Ledger, third: Request, r1: SentRow, r2: SentRow, sessionId: string, id1: string, id2: string, id3: string,
    x: string, y: Section, d: string)
    requires TwoSurvive(l, r1, r2, id1, id2, d) && Builds(third, sessionId, id3, y, d) && r1.sessionId == sessionId
    requires |id1| == |id2| == |id3| && id3 != id1 && id3 != id2
    requires y.id != [] && y.id[0] != 'i' && x != [] && x[0] != 'i' && x != y.id
    requires r1.sentItemId == ItemId(sessionId, id1, x, Pinned) && r2.sentItemId == ItemId(sessionId, id2, x, Pinned)
    requires r1.sectionId == r2.sectionId == x && r1.lastSentAt < r2.lastSentAt
    requires r1.manifestHash == r2.manifestHash != third.artifact.manifestHash
    ensures Commits(l, third) && Resurfaces(l, third, r1) && RowStale(l, r1, third.artifact)
  {
    ListedOfTwo(l, r1, r2, r2);
    GoneSectionPartition(l, third, r2, y);
    RowFacts(l, third, y);
    GoneSectionIdsApart(
      third, r1, r2, r2, id1, id2, x, y.id, Pinned, Pinned, Classify(y, PreviousFor(y, Previous(l, third))));
    GoneSectionCommits(l, third, r1, r2, r2, sessionId, id1, id2, id3, y, d);
    GoneRowResurfaces(l, third, r1, r2, y);
  }

  lemma {:induction false} CoveredRowResurfaces(
    first: Request, second: Request, third: Request, sessionId: string, id1: string, id2: string, id3: string,
    x: Section, y: Section, d: string) returns (l: Ledger, r: SentRow)
    requires PinnedThenGone(first, second, third, sessionId, id1, id2, id3, x, y, d)
    ensures l == LedgerAfter([first, second]) && WellFormed(l)
    ensures Commits(l, third) && ClockAdvances(l, third) && Resurfaces(l, third, r) && RowStale(l, r, third.artifact)
    ensures r.lastSentAt < third.now && r.sectionId == x.id
  {
    var r2;
    l, r, r2 := TwoSends(first, second, sessionId, id1, id2, x, x, d);
    ThirdGone(l, third, r, r2, sessionId, id1, id2, id3, x.id, y, d);
  }

  lemma {:induction false} ResurfacedIsActive(first: Request, second: Request, third: Request, l: Ledger, r: SentRow)
    requires l == LedgerAfter([first, second]) && WellFormed(l) && Commits(l, third) && ClockAdvances(l, third)
    requires UniqueSections(third.artifact.sections) && Resurfaces(l, third, r) && RowStale(l, r, third.artifact)
    ensures LastCommits([first, second, third])
    ensures !AllActiveFresh(LedgerAfter([first, second, third]), third.sessionId, third.artifact)
    ensures r in ListActive(LedgerAfter([first, second, third]), third.sessionId)
  {
    ThirdBuild(first, second, third);
    AdvancingClockHidesNothing(l, third);
    UncoveredIsResurfaced(l, third, r);
    KeptMembers(l, third);
    SurvivingMembers(l, third.sessionId);
    RowStaleIff(l, r, third.artifact);
    FreshAfterBuildIff(l, third);
    ListedAfterBuild(l, third);
  }

  lemma {:induction false} PinnedThenGoneInput(reset: Option<string>)
    returns (first: Request, second: Request, third: Request, x: Section, y: Section)
    ensures PinnedThenGone(first, second, third, "s", "a", "b", "c", x, y, "d") && third.reset == reset
  {
    x, y := Span("x", "rule", true), Span("y", "code", false);
    first, second, third := Build("a", x, "h", 1, None), Build("b", x, "h", 2, None), Build("c", y, "h2", 3, reset);
    assert "a"[0] != "b"[0] && "c"[0] != "a"[0] && "c"[0] != "b"[0] && "x"[0] != "y"[0];
    assert |"h"| != |"h2"|;
    assert first.artifact.manifestHash.dependencies[0].hash == "h" &&
      third.artifact.manifestHash.dependencies[0].hash == "h2";
  }

  /**
    Concretely: invalidating the newest row of a vanished pinned section puts the older, stale row back on the active
    list, with or without a session reset.
  */
  lemma {:induction false} StaleRowResurfaces(reset: Option<string>)
    returns (first: Request, second: Request, third: Request)
    ensures third.reset == reset && third.sessionId == "s"
    ensures SectionsUnique([first, second, third]) && ClockRuns([first, second, third]) &&
            LastCommits([first, second, third])
    ensures !AllActiveFresh(LedgerAfter([first, second, third]), "s", third.artifact)
    ensures exists r :: r in ListActive(LedgerAfter([first, second, third]), "s") && r.lastSentAt < third.now &&
                        !InArtifact(third, r.sectionId)
  {
    hide AllActiveFresh, ListActive, LedgerAfter, Commits, WellFormed, Resurfaces, RowStale, ClockAdvances;
    hide SectionsUnique, LastCommits;
    var x, y;
    first, second, third, x, y := PinnedThenGoneInput(reset);
    var l, r := CoveredRowResurfaces(first, second, third, "s", "a", "b", "c", x, y, "d");
    OneSectionEach(first, second, third);
    ResurfacedIsActive(first, second, third, l, r);
  }

  // ----- a clock that stands still -----

  /** Three builds of one pinned section at one instant, under ever smaller artifact ids. */
  predicate StandsStill(
    first: Request, second: Request, third: Request, sessionId: string, id1: string, id2: string, id3: string,
    x: Section, d: string)
  {
    && Builds(first, sessionId, id1, x, d) && Builds(second, sessionId, id2, x, d) &&
      Builds(third, sessionId, id3, x, d)
    && SamePlace(first.artifact, second.artifact) && first.now == second.now == third.now
    && second.reset.None? && third.reset.None? && x.pinned && x.id != [] && x.id[0] != 'i'
    && |id1| == |id2| == |id3| && StringLess(id2, id1) && StringLess(id3, id2)
  }

  /** After the first two the older row is the listed one. */
  lemma {:induction false} FirstIsListed(
    first: Request, second: Request, third: Request, sessionId: string, id1: string, id2: string, id3: string,
    x: Section, d: string) returns (l: Ledger, r1: SentRow, r2: SentRow)
    requires StandsStill(first, second, third, sessionId, id1, id2, id3, x, d)
    ensures l == LedgerAfter([first, second]) && TwoSurvive(l, r1, r2, id1, id2, d)
    ensures SentAs(r1, first, x, Pinned) && SentAs(r2, second, x, Pinned)
    ensures ListActive(l, sessionId) == [r1] && r1 != r2 && id1 != id2 && id3 != id2 && id3 != id1
    ensures r1.sessionId == sessionId && forall n :: n in Surviving(l, sessionId) ==> n.sectionId == x.id
  {
    StringLessIrreflexive(id1);
    StringLessIrreflexive(id2);
    StringLessIrreflexive(id3);
    StringLessTransitive(id3, id2, id1);
    l, r1, r2 := TwoSends(first, second, sessionId, id1, id2, x, x, d);
    SmallerArtifactSortsFirst(sessionId, id2, id1, x.id, Pinned, Pinned);
    IdsDiffer(sessionId, id1, id2, x.id, x.id, Pinned, Pinned);
    ListedOfTwo(l, r1, r2, r1);
  }

  lemma {:induction false} MovedPartition(l: Ledger, req: Request, r: SentRow, y: Section)
    requires WellFormed(l) && ListActive(l, req.sessionId) == [r] && req.artifact.sections == [y]
    requires r.commit != req.artifact.commit
    ensures StalePrior(l, req) == [r] && CurrentPrior(l, req) == [] && !IsOmitted(y, Previous(l, req))
  {
    var payloads := ListActivePayloads(l, req.sessionId);
    assert IsStale(r, payloads, req.artifact, Lister(l));
    FilterSingleton(r, r => !req.reset.Some? && !IsStale(r, payloads, req.artifact, Lister(l)));
    FilterSingleton(r, r => req.reset.Some? || IsStale(r, payloads, req.artifact, Lister(l)));
    PreviousIsCurrentRow(l, req, y.id);
  }

  /** The listed row is invalidated; the other one is stale too, yet newer than the row just sent. */
  lemma {:induction false} OtherRowHides(l: Ledger, third: Request, r1: SentRow, r2: SentRow, x: Section, b: SentRow)
    requires WellFormed(l) && Commits(l, third) && Surviving(l, third.sessionId) == [r1, r2] && r1 != r2
    requires StalePrior(l, third) == [r1] && CurrentPrior(l, third) == [] && NewSent(l, third) == [b]
    requires r1.sectionId == r2.sectionId == b.sectionId && Newer(r2, b) && r2.commit != third.artifact.commit
    ensures Uncovered(l, third, r2) && !SeenUnchanged(l, r2, third.artifact) && HidesResentRow(l, third)
  {
    hide WellFormed, Commits, StalePrior, CurrentPrior, Surviving, Kept, NewSent;
    KeptMembers(l, third);
    NewerIsStrict(r2, r2);
    NewerIsStrict(r2, b);
    assert r2 in Surviving(l, third.sessionId);
    forall n | n in After(l, third) ensures n == r2 || n == b {
      if n in Kept(l, third) {
        assert n in [r1, r2];
      }
    }
    assert r1 in StalePrior(l, third) && r2 in Kept(l, third) && b in NewSent(l, third);
  }

  lemma {:induction false} ThirdHidden(
    l: Ledger, third: Request, r1: SentRow, r2: SentRow, sessionId: string, id1: string, id2: string, id3: string,
    x: Section, d: string)
    requires TwoSurvive(l, r1, r2, id1, id2, d) && Builds(third, sessionId, id3, x, d) && r1.sessionId == sessionId
    requires |id1| == |id2| == |id3| && id3 != id1 && id3 != id2 && StringLess(id3, id2) && r1 != r2
    requires x.pinned && x.id != [] && x.id[0] != 'i' && ListActive(l, sessionId) == [r1]
    requires r1.sentItemId == ItemId(sessionId, id1, x.id, Pinned) &&
             r2.sentItemId == ItemId(sessionId, id2, x.id, Pinned)
    requires r1.sectionId == r2.sectionId == x.id && r2.lastSentAt == third.now
    requires r1.commit == r2.commit != third.artifact.commit
    ensures Commits(l, third) && Uncovered(l, third, r2) && !SeenUnchanged(l, r2, third.artifact)
    ensures HidesResentRow(l, third)
  {
    MovedPartition(l, third, r1, x);
    RowFacts(l, third, x);
    var b := SentRowFor(l, third, x);
    assert b.sentItemId == ItemId(sessionId, id3, x.id, Pinned);
    GoneSectionIdsApart(third, r1, r2, r1, id1, id2, x.id, x.id, Pinned, Pinned, Pinned);
    GoneSectionCommits(l, third, r1, r2, r1, sessionId, id1, id2, id3, x, d);
    OneSend(l, third, x);
    SmallerArtifactSortsFirst(sessionId, id3, id2, x.id, Pinned, Pinned);
    OtherRowHides(l, third, r1, r2, x, b);
  }

  /** Moving to another commit at the same instant leaves a stale row listed for a section the artifact still has. */
  lemma {:induction false} StandingClockHidesResentRow(
    first: Request, second: Request, third: Request, sessionId: string, id1: string, id2: string, id3: string,
    x: Section, d: string) returns (r: SentRow)
    requires StandsStill(first, second, third, sessionId, id1, id2, id3, x, d)
    requires first.artifact.commit == second.artifact.commit != third.artifact.commit
    ensures LastCommits([first, second, third]) && r.sectionId == x.id
    ensures r in ListActive(LedgerAfter([first, second, third]), sessionId)
    ensures !AllActiveFresh(LedgerAfter([first, second, third]), sessionId, third.artifact)
    ensures !CoversOlderRow(LedgerAfter([first, second]), third) && HidesResentRow(LedgerAfter([first, second]), third)
  {
    hide OneSurvives, LedgerAfter, TwoSurvive, WellFormed, Commits, LastCommits, AllActiveFresh, ListActive, Surviving;
    hide SeenUnchanged, Uncovered, CoversOlderRow, HidesResentRow, ItemId;
    var l, r1, r2 := FirstIsListed(first, second, third, sessionId, id1, id2, id3, x, d);
    ThirdHidden(l, third, r1, r2, sessionId, id1, id2, id3, x, d);
    r := r2;
    BothSurvive(l, r1, r2, id1, id2, d);
    HiddenConclusion(first, second, third, l, r2, x);
  }

  lemma {:induction false} BothSurvive(l: Ledger, r1: SentRow, r2: SentRow, id1: string, id2: string, d: string)
    requires TwoSurvive(l, r1, r2, id1, id2, d)
    ensures WellFormed(l) && Surviving(l, r1.sessionId) == [r1, r2]
  {
  }

  lemma {:induction false} HiddenConclusion(
    first: Request, second: Request, third: Request, l: Ledger, r: SentRow, x: Section)
    requires l == LedgerAfter([first, second]) && WellFormed(l) && Commits(l, third)
    requires Uncovered(l, third, r) && !SeenUnchanged(l, r, third.artifact) && third.artifact.sections == [x]
    requires forall n :: n in Surviving(l, third.sessionId) ==> n.sectionId == x.id
    ensures LastCommits([first, second, third]) && r in ListActive(LedgerAfter([first, second, third]), third.sessionId)
    ensures !AllActiveFresh(LedgerAfter([first, second, third]), third.sessionId, third.artifact)
    ensures !CoversOlderRow(l, third)
  {
    ThirdBuild(first, second, third);
    FreshAfterBuildIff(l, third);
    ListedAfterBuild(l, third);
    assert x in third.artifact.sections && InArtifact(third, x.id);
    hide WellFormed, Commits, LedgerAfter, SeenUnchanged, Uncovered, AllActiveFresh, ListActive, LastCommits;
  }

  // ----- send counts on a clock that stands still -----

  lemma {:induction false} ThirdSendCommits(
    l: Ledger, req: Request, r1: SentRow, r2: SentRow, sessionId: string, id1: string, id2: string, id3: string,
    x: Section, d: string)
    requires TwoSurvive(l, r1, r2, id1, id2, d) && Builds(req, sessionId, id3, x, d)
    requires |id1| == |id2| == |id3| && id3 != id1 && id3 != id2
    requires StalePrior(l, req) == [] && !IsOmitted(x, Previous(l, req))
    requires r1.sentItemId != SentRowFor(l, req, x).sentItemId && r2.sentItemId != SentRowFor(l, req, x).sentItemId
    ensures Commits(l, req)
  {
    hide ItemId, SentRowFor, Previous, StalePrior, NewPacks, NewSent, NewOmitted, NewDependencies, IsOmitted, Surviving;
    hide StoredDependencyId;
    var ids, send := [r1.sentItemId, r2.sentItemId], SentRowFor(l, req, x).sentItemId;
    ThirdDependencies(l, req, r1, r2, sessionId, id1, id2, id3, x, d);
    assert Apart(l.packs, NewPacks(l, req), PackRowId) && DistinctKeys(NewPacks(l, req), PackRowId) by {
      OnePackRow(l, req, x);
      ApartByIds(l.packs, NewPacks(l, req), PackRowId, ids, [send]);
    }
    assert Apart(l.sent, NewSent(l, req), SentRowId) && DistinctKeys(NewSent(l, req), SentRowId) by {
      OneSend(l, req, x);
      ApartByIds(l.sent, NewSent(l, req), SentRowId, ids, [send]);
    }
    assert NewOmitted(l, req) == [] by {
      OneSend(l, req, x);
    }
    CommitsIf(l, req);
  }

  lemma {:induction false} PinnedIsSent(l: Ledger, req: Request, x: Section)
    requires req.artifact.sections == [x] && x.pinned
    ensures !IsOmitted(x, Previous(l, req)) && x in Sent(l, req)
    ensures SentRowFor(l, req, x).sentItemId == ItemId(req.sessionId, req.artifact.artifactId, x.id, Pinned)
  {
    RowFacts(l, req, x);
    SectionsOfOne(x, Previous(l, req));
  }

  lemma {:induction false} ThirdResent(
    l: Ledger, third: Request, r1: SentRow, r2: SentRow, sessionId: string, id1: string, id2: string, id3: string,
    x: Section, d: string)
    requires TwoSurvive(l, r1, r2, id1, id2, d) && Builds(third, sessionId, id3, x, d) && r1.sessionId == sessionId
    requires |id1| == |id2| == |id3| && id3 != id1 && id3 != id2 && third.reset.None? && x.pinned
    requires ListActive(l, sessionId) == [r1] && r1.sectionId == r2.sectionId == x.id
    requires r1.sentItemId == ItemId(sessionId, id1, x.id, Pinned) &&
             r2.sentItemId == ItemId(sessionId, id2, x.id, Pinned)
    requires r1.branch == third.artifact.branch && r1.commit == third.artifact.commit
    requires r1.manifestHash == third.artifact.manifestHash && r1.sendCount < r2.sendCount
    ensures Commits(l, third) && !ListedCarriesLargest(l, third)
  {
    hide WellFormed, Surviving, ListActive, Commits, Previous, StalePrior, CurrentPrior, IsOmitted, ItemId, SentRowFor;
    BothSurvive(l, r1, r2, id1, id2, d);
    OneListedIsCurrent(l, third, r1);
    RowFacts(l, third, x);
    PinnedIsSent(l, third, x);
    IdsDiffer(sessionId, id1, id3, x.id, x.id, Pinned, Pinned);
    IdsDiffer(sessionId, id2, id3, x.id, x.id, Pinned, Pinned);
    ThirdSendCommits(l, third, r1, r2, sessionId, id1, id2, id3, x, d);
    assert SectionSent(l, third, r1.sectionId);
    assert r1 in Prior(l, third) && r2 in Surviving(l, third.sessionId);
  }

  lemma {:induction false} OneRowCounts(l: Ledger, r: SentRow, req: Request)
    requires Surviving(l, req.sessionId) == [r]
    ensures CountsGrow(Surviving(l, req.sessionId)) && ListedCarriesLargest(l, req)
  {
    ActiveMembers(l, req.sessionId);
  }

  lemma {:induction false} LedgerAfterOne(first: Request)
    ensures LedgerAfter([first]) == Next(EmptyLedger, first)
  {
    assert [first][..0] == [];
  }

  lemma {:induction false} TwoCountsGrow(
    first: Request, second: Request, sessionId: string, id1: string, x: Section, d: string)
    requires Builds(first, sessionId, id1, x, d) && Builds(second, sessionId, second.artifact.artifactId, x, d)
    ensures CountsGrow(Surviving(LedgerAfter([first, second]), sessionId))
  {
    hide LedgerAfter, Commits, Surviving, ListedCarriesLargest, CountsGrow, WellFormed, Next;
    var reqs := [first, second];
    assert reqs[..1] == [first];
    var l, r := FirstSend(first, sessionId, id1, x, d);
    LedgerAfterOne(first);
    OneRowCounts(l, r, second);
    LastBuildCounts(reqs, sessionId);
  }

  /** The third send continues from the listed first row, so its count repeats the second one's. */
  lemma {:induction false} StandingClockStallsCounts(
    first: Request, second: Request, third: Request, sessionId: string, id1: string, id2: string, id3: string,
    x: Section, d: string)
    requires StandsStill(first, second, third, sessionId, id1, id2, id3, x, d) &&
             SamePlace(first.artifact, third.artifact)
    ensures LastCommits([first, second, third])
    ensures CountsGrow(Surviving(LedgerAfter([first, second]), sessionId))
    ensures !CountsGrow(Surviving(LedgerAfter([first, second, third]), sessionId))
  {
    var l, r1, r2 := FirstIsListed(first, second, third, sessionId, id1, id2, id3, x, d);
    TwoCountsGrow(first, second, sessionId, id1, x, d);
    assert Surviving(l, sessionId)[0] == r1 && Surviving(l, sessionId)[1] == r2;
    ThirdResent(l, third, r1, r2, sessionId, id1, id2, id3, x, d);
    StallConclusion(first, second, third, l);
  }

  lemma {:induction false} StallConclusion(first: Request, second: Request, third: Request, l: Ledger)
    requires l == LedgerAfter([first, second]) && WellFormed(l) && Commits(l, third) && !ListedCarriesLargest(l, third)
    requires CountsGrow(Surviving(l, third.sessionId)) && UniqueSections(third.artifact.sections)
    ensures LastCommits([first, second, third])
    ensures !CountsGrow(Surviving(LedgerAfter([first, second, third]), third.sessionId))
  {
    hide LedgerAfter, Commits, CountsGrow, ListedCarriesLargest, WellFormed;
    ThirdBuild(first, second, third);
    BuildKeepsCountsIff(l, third);
  }

  lemma {:induction false} StandingInput(commit: string)
    returns (first: Request, second: Request, third: Request, sessionId: string, id1: string, id2: string, id3: string,
             x: Section, d: string)
    ensures StandsStill(first, second, third, sessionId, id1, id2, id3, x, d) && sessionId == "s"
    ensures first.now == second.now == third.now == 5
    ensures first.artifact.commit == second.artifact.commit == "c0" && third.artifact.commit == commit
    ensures commit == "c0" ==> SamePlace(first.artifact, third.artifact)
  {
    sessionId, id1, id2, id3, d := "s", "c", "b", "a", "d";
    x := Span("x", "rule", true);
    first, second, third := Build("c", x, "h", 5, None), Build("b", x, "h", 5, None), Build("a", x, "h", 5, None);
    third := third.(artifact := third.artifact.(commit := commit));
  }

  /** Concretely: at one instant, a move to another commit leaves the row of the old commit listed. */
  lemma {:induction false} EqualTimestampsHideResentRow() returns (first: Request, second: Request, third: Request)
    ensures first.now == second.now == third.now == 5 && LastCommits([first, second, third])
    ensures !AllActiveFresh(LedgerAfter([first, second, third]), "s", third.artifact)
    ensures !CoversOlderRow(LedgerAfter([first, second]), third)
  {
    hide StandsStill, LedgerAfter, AllActiveFresh, LastCommits, CoversOlderRow, HidesResentRow;
    var sessionId, id1, id2, id3, x, d;
    assert "c0"[1] != "c1"[1];
    first, second, third, sessionId, id1, id2, id3, x, d := StandingInput("c1");
    var r := StandingClockHidesResentRow(first, second, third, sessionId, id1, id2, id3, x, d);
  }

  /** Concretely: at one instant, three sends of a pinned section do not count up. */
  lemma {:induction false} EqualTimestampsStallCounts() returns (first: Request, second: Request, third: Request)
    ensures first.now == second.now == third.now == 5 && LastCommits([first, second, third])
    ensures !CountsGrow(Surviving(LedgerAfter([first, second, third]), "s"))
  {
    hide StandsStill, LedgerAfter, CountsGrow, LastCommits, Surviving;
    var sessionId, id1, id2, id3, x, d;
    first, second, third, sessionId, id1, id2, id3, x, d := StandingInput("c0");
    StandingClockStallsCounts(first, second, third, sessionId, id1, id2, id3, x, d);
  }
}

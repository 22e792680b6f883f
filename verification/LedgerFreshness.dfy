/** Which items are active after a build, and when none of them is stale. */
module LedgerFreshness {
  import opened Common
  import opened LedgerTypes
  import opened Staleness
  import opened ContextDiff
  import opened SessionLedger
  import opened DurableBuild
  import opened LedgerInvariants
  import opened LedgerReconstruction

  /** The staleness rule for any stored row, listed or not. */
  predicate RowStale(l: Ledger, r: SentRow, artifact: Artifact) {
    IsStale(r, l.packs, artifact, Lister(l))
  }

  lemma {:induction false} PackRowFound(packs: seq<PackRow>, p: PackRow)
    requires DistinctKeys(packs, PackRowId) && p in packs
    ensures p.packItemId in Index(packs, PackRowId) && Index(packs, PackRowId)[p.packItemId] == p
  {
    forall i, j | 0 <= i < j < |packs| ensures PackRowId(packs[i]) != PackRowId(packs[j]) {
    }
    IndexFinds(packs, PackRowId, p);
  }

  /** Joining pack rows to the active list gives each listed row the pack row it was sent with. */
  lemma {:induction false} ListedStaleness(l: Ledger, sessionId: string, r: SentRow, artifact: Artifact)
    requires WellFormed(l) && r in ListActive(l, sessionId)
    ensures IsStale(r, ListActivePayloads(l, sessionId), artifact, Lister(l)) == RowStale(l, r, artifact)
  {
    var payloads := ListActivePayloads(l, sessionId);
    ActiveMembers(l, sessionId);
    SurvivingMembers(l, sessionId);
    var p :| p in l.packs && IsPackRowOf(p, r);
    FilterContains(l.packs, p => IsPayloadOf(p, sessionId, ListActive(l, sessionId)));
    assert IsPayloadOf(p, sessionId, ListActive(l, sessionId));
    forall i, j | 0 <= i < j < |payloads| ensures PackRowId(payloads[i]) != PackRowId(payloads[j]) {
      var a, b := FilterPosition(l.packs, p => IsPayloadOf(p, sessionId, ListActive(l, sessionId)), i, j);
    }
    PackRowFound(l.packs, p);
    PackRowFound(payloads, p);
  }

  lemma {:induction false} DependenciesStay(l: Ledger, req: Request, artifactId: string)
    requires artifactId in l.artifacts && req.artifact.artifactId !in l.artifacts
    ensures ListDependencies(Recorded(l, req), artifactId) == ListDependencies(l, artifactId)
  {
    var p := (d: DependencyRow) => d.artifactId == artifactId;
    FilterConcat(l.dependencies, NewDependencies(req), p);
    FilterKeepsNone(NewDependencies(req), p);
    assert ListDependencies(l, artifactId) == Filter(l.dependencies, p);
  }

  /** Recording a later build does not change what an earlier row is judged by. */
  lemma {:induction false} RowStaleStays(l: Ledger, req: Request, r: SentRow, artifact: Artifact)
    requires WellFormed(l) && Commits(l, req) && r in l.sent
    ensures RowStale(Recorded(l, req), r, artifact) == RowStale(l, r, artifact)
  {
    var p :| p in l.packs && IsPackRowOf(p, r);
    PackRowFound(l.packs, p);
    PackRowFound(Recorded(l, req).packs, p);
    DependenciesStay(l, req, r.artifactId);
  }

  predicate InArtifact(req: Request, sectionId: string) {
    exists s :: s in req.artifact.sections && s.id == sectionId
  }

  predicate SectionSent(l: Ledger, req: Request, sectionId: string) {
    exists s :: s in Sent(l, req) && s.id == sectionId
  }

  /** What the session's surviving rows will be. */
  function After(l: Ledger, req: Request): seq<SentRow> {
    Kept(l, req) + NewSent(l, req)
  }

  /** An older row that is not current, yet the newest of its section once the build is recorded. */
  predicate Uncovered(l: Ledger, req: Request, r: SentRow) {
    r in Kept(l, req) && r !in CurrentPrior(l, req) && NewestOfSection(After(l, req), r)
  }

  // ----- the staleness rule in comparisons -----

  predicate SameManifest(r: SentRow, a: Artifact) {
    r.branch == a.branch && r.commit == a.commit && r.manifestHash == a.manifestHash
  }

  /** The artifact's section cites the refs the row was sent with, and each has the hash stored with the row. */
  predicate CitedRefsHold(l: Ledger, r: SentRow, a: Artifact) {
    var sections := Index(a.sections, SectionId);
    r.sectionId in sections &&
    exists p :: p in l.packs && IsPackRowOf(p, r) && SameStringSet(p.inputRefs, sections[r.sectionId].dependencyRefs) &&
      forall ref :: ref in p.inputRefs ==>
        RefUnchanged(ref, DependencyIndex(ListDependencies(l, r.artifactId), r.artifactId),
                     Index(a.dependencies, DependencyId))
  }

  predicate SeenUnchanged(l: Ledger, r: SentRow, a: Artifact) {
    r.branch == a.branch && r.commit == a.commit && (r.manifestHash == a.manifestHash || CitedRefsHold(l, r, a))
  }

  lemma {:induction false} RowStaleIff(l: Ledger, r: SentRow, a: Artifact)
    requires WellFormed(l) && r in l.sent
    ensures RowStale(l, r, a) <==> !SeenUnchanged(l, r, a)
  {
    var p :| p in l.packs && IsPackRowOf(p, r);
    PackRowFound(l.packs, p);
    forall q | q in l.packs && IsPackRowOf(q, r) ensures q == p {
      PackRowFound(l.packs, q);
    }
    hide SameStringSet, RefUnchanged, DependencyIndex, Index, IsPackRowOf;
  }

  /** A row whose section the artifact does not have is fresh only under the very manifest. */
  lemma {:induction false} AbsentSectionStaleIff(l: Ledger, req: Request, r: SentRow)
    requires !InArtifact(req, r.sectionId)
    ensures RowStale(l, r, req.artifact) <==> !SameManifest(r, req.artifact)
  {
    IndexFacts(req.artifact.sections, SectionId);
  }

  // ----- what is listed after a build -----

  lemma {:induction false} KeptMembers(l: Ledger, req: Request)
    ensures forall r :: r in Kept(l, req) <==> r in Surviving(l, req.sessionId) && r !in StalePrior(l, req)
  {
    FilterContains(Surviving(l, req.sessionId), r => r !in StalePrior(l, req));
  }

  lemma {:induction false} CurrentIsKept(l: Ledger, req: Request, r: SentRow)
    requires r in CurrentPrior(l, req)
    ensures r in Kept(l, req) && NewestOfSection(Kept(l, req), r)
  {
    StaleMembers(l, req);
    ActiveMembers(l, req.sessionId);
    KeptMembers(l, req);
  }

  lemma {:induction false} KeptNewestUnique(l: Ledger, req: Request, a: SentRow, b: SentRow)
    requires WellFormed(l) && a in Kept(l, req) && b in Kept(l, req) && a.sectionId == b.sectionId
    requires NewestOfSection(Kept(l, req), a) && NewestOfSection(Kept(l, req), b)
    ensures a == b
  {
    KeptMembers(l, req);
    SurvivingMembers(l, req.sessionId);
    NewestUnique(Kept(l, req), a, b);
    SameIdSameRow(l.sent, a, b);
  }

  /** On any clock: what is listed is the newest of each section among what was kept and what was sent. */
  lemma {:induction false} ListedAfterBuild(l: Ledger, req: Request)
    requires WellFormed(l) && Commits(l, req)
    ensures forall r :: r in ListActive(Recorded(l, req), req.sessionId) <==>
              r in After(l, req) && NewestOfSection(After(l, req), r)
    ensures forall r :: r in ListActive(Recorded(l, req), req.sessionId) <==>
              || (r in NewSent(l, req) && NewestOfSection(After(l, req), r))
              || (r in CurrentPrior(l, req) && NewestOfSection(After(l, req), r))
              || Uncovered(l, req, r)
  {
    SurvivingAfter(l, req);
    ActiveMembers(Recorded(l, req), req.sessionId);
    forall r | r in CurrentPrior(l, req) ensures r in Kept(l, req) {
      CurrentIsKept(l, req, r);
    }
    hide NewestOfSection, ListActive, Surviving, Recorded, WellFormed, Commits, Kept, NewSent, CurrentPrior;
  }

  lemma {:induction false} OldAndNewDiffer(l: Ledger, req: Request, a: SentRow, b: SentRow)
    requires WellFormed(l) && Commits(l, req) && a in Kept(l, req) && b in NewSent(l, req)
    ensures a.sentItemId != b.sentItemId && (Newer(a, b) <==> !Newer(b, a))
  {
    KeptMembers(l, req);
    SurvivingMembers(l, req.sessionId);
    FreshIds(l.sent, NewSent(l, req), a, b);
    NewerIsStrict(a, b);
  }

  lemma {:induction false} OneNewRowPerSection(l: Ledger, req: Request, a: SentRow, b: SentRow)
    requires UniqueSections(req.artifact.sections) && a in NewSent(l, req) && b in NewSent(l, req)
    requires a.sectionId == b.sectionId
    ensures a == b
  {
    var x := NewRowOrigin(l, req, a);
    var y := NewRowOrigin(l, req, b);
    SectionByIdUnique(req.artifact.sections, x, y);
  }

  /** A new row is listed iff no kept row of its section is newer. */
  lemma {:induction false} NewRowListedIff(l: Ledger, req: Request, b: SentRow)
    requires WellFormed(l) && Commits(l, req) && UniqueSections(req.artifact.sections) && b in NewSent(l, req)
    ensures NewestOfSection(After(l, req), b) <==>
            forall a :: a in Kept(l, req) && a.sectionId == b.sectionId ==> Newer(b, a)
  {
    forall a | a in Kept(l, req) ensures Newer(a, b) <==> !Newer(b, a) {
      OldAndNewDiffer(l, req, a, b);
    }
    forall n | n in NewSent(l, req) && n.sectionId == b.sectionId ensures !Newer(n, b) {
      OneNewRowPerSection(l, req, n, b);
      NewerIsStrict(b, b);
    }
    hide Newer, Kept, NewSent, WellFormed, Commits;
  }

  /** Known before a build: every row it sends will be newer than the kept rows of its section. */
  predicate ResentAreNewest(l: Ledger, req: Request) {
    forall a, b :: a in Kept(l, req) && b in NewSent(l, req) && a.sectionId == b.sectionId ==> Newer(b, a)
  }

  /** All new rows are listed iff none of them meets a newer kept row of its section. */
  lemma {:induction false} NewRowsListedIff(l: Ledger, req: Request)
    requires WellFormed(l) && Commits(l, req) && UniqueSections(req.artifact.sections)
    ensures (forall b :: b in NewSent(l, req) ==> b in ListActive(Recorded(l, req), req.sessionId)) <==>
            ResentAreNewest(l, req)
  {
    ListedAfterBuild(l, req);
    hide Newer, Kept, NewSent, WellFormed, Commits, ListActive, Recorded, NewestOfSection;
    forall b | b in NewSent(l, req)
      ensures b in ListActive(Recorded(l, req), req.sessionId) <==>
              forall a :: a in Kept(l, req) && a.sectionId == b.sectionId ==> Newer(b, a)
    {
      NewRowListedIff(l, req, b);
    }
  }

  // ----- when an older row is uncovered -----

  /** Some stale item's section is gone from the artifact but has an older surviving row. */
  ghost predicate CoversOlderRow(l: Ledger, req: Request) {
    exists stale, r :: stale in StalePrior(l, req) && r in Surviving(l, req.sessionId) &&
      r.sectionId == stale.sectionId && r != stale && !InArtifact(req, r.sectionId)
  }

  /** Some stale item's section is sent again, but a kept row of it is newer than the new one. */
  ghost predicate HidesResentRow(l: Ledger, req: Request) {
    exists stale, a, b :: stale in StalePrior(l, req) && a in Kept(l, req) && b in NewSent(l, req) &&
      stale.sectionId == a.sectionId == b.sectionId && Newer(a, b)
  }

  lemma {:induction false} UncoveredTop(l: Ledger, req: Request, r: SentRow) returns (top: SentRow)
    requires WellFormed(l) && Uncovered(l, req, r)
    ensures top in StalePrior(l, req) && top.sectionId == r.sectionId && top != r && r in Surviving(l, req.sessionId)
  {
    KeptMembers(l, req);
    StaleMembers(l, req);
    ActiveMembers(l, req.sessionId);
    top := NewestExists(Surviving(l, req.sessionId), r.sectionId);
    if top !in StalePrior(l, req) {
      CurrentIsKept(l, req, top);
      KeptNewestUnique(l, req, top, r);
    }
  }

  lemma {:induction false} UncoveredIsResent(l: Ledger, req: Request, r: SentRow) returns (b: SentRow)
    requires WellFormed(l) && Commits(l, req) && Uncovered(l, req, r) && InArtifact(req, r.sectionId)
    ensures b in NewSent(l, req) && b.sectionId == r.sectionId && Newer(r, b)
  {
    var s :| s in req.artifact.sections && s.id == r.sectionId;
    SentMembers(l, req);
    if IsOmitted(s, Previous(l, req)) {
      var c := OmittedHasCurrentRow(l, req, s);
      CurrentIsKept(l, req, c);
      KeptNewestUnique(l, req, c, r);
    }
    SentSectionHasRow(l, req, s);
    b := SentRowFor(l, req, s);
    OldAndNewDiffer(l, req, r, b);
  }

  lemma {:induction false} CoveredRowIsUncovered(l: Ledger, req: Request)
    requires WellFormed(l) && CoversOlderRow(l, req)
    ensures exists r :: Uncovered(l, req, r) && !InArtifact(req, r.sectionId)
  {
    var s := req.sessionId;
    var stale, r :| stale in StalePrior(l, req) && r in Surviving(l, s) && r.sectionId == stale.sectionId &&
      r != stale && !InArtifact(req, r.sectionId);
    StaleMembers(l, req);
    KeptMembers(l, req);
    if r in StalePrior(l, req) {
      OneActivePerSection(l, s, r, stale);
    }
    var top := NewestExists(Kept(l, req), r.sectionId);
    if top in CurrentPrior(l, req) {
      OneActivePerSection(l, s, top, stale);
    }
    NothingSentFor(l, req, top.sectionId);
    assert Uncovered(l, req, top);
  }

  lemma {:induction false} NothingSentFor(l: Ledger, req: Request, sectionId: string)
    requires !InArtifact(req, sectionId)
    ensures forall b :: b in NewSent(l, req) ==> b.sectionId != sectionId
  {
    forall b | b in NewSent(l, req) ensures b.sectionId != sectionId {
      var s := NewRowOrigin(l, req, b);
    }
  }

  lemma {:induction false} HiddenRowIsUncovered(l: Ledger, req: Request)
    requires WellFormed(l) && Commits(l, req) && UniqueSections(req.artifact.sections) && HidesResentRow(l, req)
    ensures exists r :: Uncovered(l, req, r)
  {
    var stale, a, b :| stale in StalePrior(l, req) && a in Kept(l, req) && b in NewSent(l, req) &&
      stale.sectionId == a.sectionId == b.sectionId && Newer(a, b);
    StaleMembers(l, req);
    var top := NewestExists(Kept(l, req), a.sectionId);
    if top in CurrentPrior(l, req) {
      OneActivePerSection(l, req.sessionId, top, stale);
    }
    forall n | n in After(l, req) && n.sectionId == top.sectionId ensures !Newer(n, top) {
      if n in NewSent(l, req) {
        OneNewRowPerSection(l, req, n, b);
        NewerIsStrict(n, top);
        if Newer(n, top) {
          NewerTransitive(a, b, top);
        }
      }
    }
    assert Uncovered(l, req, top);
  }

  /** Known before a build: an older row is uncovered iff an invalidated item covered one or a resent one is hidden. */
  lemma {:induction false} UncoveredIff(l: Ledger, req: Request)
    requires WellFormed(l) && Commits(l, req) && UniqueSections(req.artifact.sections)
    ensures (exists r :: Uncovered(l, req, r)) <==> CoversOlderRow(l, req) || HidesResentRow(l, req)
  {
    if r :| Uncovered(l, req, r) {
      var top := UncoveredTop(l, req, r);
      if InArtifact(req, r.sectionId) {
        var b := UncoveredIsResent(l, req, r);
      }
    }
    if CoversOlderRow(l, req) {
      CoveredRowIsUncovered(l, req);
    }
    if HidesResentRow(l, req) {
      HiddenRowIsUncovered(l, req);
    }
  }

  // ----- freshness -----

  ghost predicate AllActiveFresh(l: Ledger, sessionId: string, artifact: Artifact) {
    forall r :: r in ListActive(l, sessionId) ==> !RowStale(l, r, artifact)
  }

  lemma {:induction false} ListedRowStaleness(l: Ledger, req: Request, r: SentRow)
    requires WellFormed(l) && Commits(l, req) && r in After(l, req)
    ensures r in NewSent(l, req) || (r in CurrentPrior(l, req) && req.reset.None?) ==>
              !RowStale(Recorded(l, req), r, req.artifact)
    ensures r in Kept(l, req) ==>
              r in l.sent && RowStale(Recorded(l, req), r, req.artifact) == !SeenUnchanged(l, r, req.artifact)
  {
    if r in Kept(l, req) {
      KeptMembers(l, req);
      SurvivingMembers(l, req.sessionId);
      RowStaleStays(l, req, r, req.artifact);
      RowStaleIff(l, r, req.artifact);
    }
    if r in NewSent(l, req) {
      var origin := NewRowOrigin(l, req, r);
    } else if r in CurrentPrior(l, req) && req.reset.None? {
      StaleMembers(l, req);
      ListedStaleness(l, req.sessionId, r, req.artifact);
    }
  }

  /** On any clock: no active item is stale for the artifact just built iff every uncovered row was seen unchanged. */
  lemma {:induction false} FreshAfterBuildIff(l: Ledger, req: Request)
    requires WellFormed(l) && Commits(l, req)
    ensures AllActiveFresh(Recorded(l, req), req.sessionId, req.artifact) <==>
            forall r :: Uncovered(l, req, r) ==> SeenUnchanged(l, r, req.artifact)
  {
    ListedAfterBuild(l, req);
    CurrentMeansNoReset(l, req);
    hide WellFormed, Commits, Recorded, ListActive, Kept, NewSent, CurrentPrior, SeenUnchanged, RowStale;
    hide NewestOfSection;
    forall r | r in ListActive(Recorded(l, req), req.sessionId)
      ensures RowStale(Recorded(l, req), r, req.artifact) <==>
              Uncovered(l, req, r) && !SeenUnchanged(l, r, req.artifact)
    {
      ListedRowStaleness(l, req, r);
    }
  }

  lemma {:induction false} CurrentMeansNoReset(l: Ledger, req: Request)
    ensures req.reset.Some? ==> CurrentPrior(l, req) == []
  {
    if req.reset.Some? {
      NothingCurrent(l, req);
    }
  }

  /** With nothing current to build on, every section is sent and none omitted. */
  lemma {:induction false} FullResend(l: Ledger, req: Request)
    requires WellFormed(l) && CurrentPrior(l, req) == []
    ensures Sent(l, req) == req.artifact.sections
    ensures |NewSent(l, req)| == |req.artifact.sections| && NewOmitted(l, req) == []
    ensures forall i :: 0 <= i < |NewSent(l, req)| ==>
              NewSent(l, req)[i].sectionId == req.artifact.sections[i].id &&
              NewSent(l, req)[i].contentHash == req.artifact.sections[i].contentHash
  {
    forall s | s in req.artifact.sections ensures !IsOmitted(s, Previous(l, req)) {
      PreviousIsCurrentRow(l, req, s.id);
    }
    FilterKeepsAll(req.artifact.sections, s => !IsOmitted(s, Previous(l, req)));
    FilterKeepsNone(req.artifact.sections, s => IsOmitted(s, Previous(l, req)));
    NewSentRows(l, req);
  }

  predicate StartsOver(l: Ledger, req: Request) {
    || req.reset.Some?
    || (forall r :: r in Prior(l, req) ==> r.branch != req.artifact.branch || r.commit != req.artifact.commit)
  }

  /** A reset, or a branch or commit no prior item was sent from, leaves nothing current. */
  lemma {:induction false} NothingCurrent(l: Ledger, req: Request)
    requires StartsOver(l, req)
    ensures CurrentPrior(l, req) == []
  {
    var payloads := ListActivePayloads(l, req.sessionId);
    FilterKeepsNone(Prior(l, req), r => !req.reset.Some? && !IsStale(r, payloads, req.artifact, Lister(l)));
  }

  ghost predicate ExactlyResentActive(l: Ledger, req: Request) {
    forall r :: r in ListActive(Recorded(l, req), req.sessionId) <==> r in NewSent(l, req)
  }

  /** After such a build exactly the new rows are active iff no covered row comes up and no new row is hidden. */
  lemma {:induction false} ActiveIsExactlyResentIff(l: Ledger, req: Request)
    requires WellFormed(l) && Commits(l, req) && UniqueSections(req.artifact.sections) && StartsOver(l, req)
    ensures ExactlyResentActive(l, req) <==> !CoversOlderRow(l, req) && ResentAreNewest(l, req)
    ensures Sent(l, req) == req.artifact.sections && NewOmitted(l, req) == []
  {
    NothingCurrent(l, req);
    FullResend(l, req);
    UncoveredIff(l, req);
    ListedAfterBuild(l, req);
    NewRowsListedIff(l, req);
    UncoveredIsOld(l, req);
    hide WellFormed, Commits, Recorded, ListActive, NewSent, NewOmitted, CoversOlderRow, Prior, Sent, Kept, Newer;
    hide Uncovered;
    hide NewestOfSection;
  }

  lemma {:induction false} UncoveredIsOld(l: Ledger, req: Request)
    requires WellFormed(l) && Commits(l, req)
    ensures forall r :: Uncovered(l, req, r) ==> r !in NewSent(l, req)
  {
    forall r | Uncovered(l, req, r) ensures r !in NewSent(l, req) {
      KeptMembers(l, req);
      SurvivingMembers(l, req.sessionId);
      if r in NewSent(l, req) {
        FreshIds(l.sent, NewSent(l, req), r, r);
      }
    }
  }

  // ----- building the same again -----

  /** A later build of the same branch, commit, manifest and sections. */
  predicate SameContext(a: Artifact, b: Artifact) {
    a.branch == b.branch && a.commit == b.commit && a.sections == b.sections &&
    a.dependencies == b.dependencies && a.manifestHash == b.manifestHash
  }

  predicate SteadyRequest(req: Request, again: Request) {
    again.sessionId == req.sessionId && again.reset.None? && SameContext(req.artifact, again.artifact)
  }

  /** The kept row that will be listed in place of the one a section was resent with. */
  predicate HoldsBack(l: Ledger, req: Request, s: Section, n: SentRow) {
    s in Sent(l, req) && n in Kept(l, req) && n.sectionId == s.id && NewestOfSection(After(l, req), n)
  }

  predicate ListedWith(l: Ledger, sessionId: string, r: SentRow, s: Section) {
    r in ListActive(l, sessionId) && r.sectionId == s.id
  }

  predicate AsGoodAsNew(l: Ledger, r: SentRow, s: Section, a: Artifact) {
    r.contentHash == s.contentHash && SeenUnchanged(l, r, a)
  }

  /** After a build every section has a listed row, fresh and with its content iff a row holding it back is. */
  lemma {:induction false} SectionIsActiveAfterIff(l: Ledger, req: Request, s: Section) returns (r: SentRow)
    requires WellFormed(l) && Commits(l, req) && UniqueSections(req.artifact.sections) && s in req.artifact.sections
    ensures ListedWith(Recorded(l, req), req.sessionId, r, s)
    ensures r.contentHash == s.contentHash && !RowStale(Recorded(l, req), r, req.artifact) <==>
            forall n :: HoldsBack(l, req, s, n) ==> AsGoodAsNew(l, n, s, req.artifact)
  {
    ListedAfterBuild(l, req);
    SentMembers(l, req);
    hide WellFormed, Commits, Recorded, Previous, StalePrior, ListActive, Surviving, NewSent, Kept, RowStale;
    hide SeenUnchanged;
    if IsOmitted(s, Previous(l, req)) {
      r := OmittedStaysListed(l, req, s);
    } else {
      SentSectionHasRow(l, req, s);
      var b := SentRowFor(l, req, s);
      assert b in After(l, req) && b.sectionId == s.id;
      r := NewestExists(After(l, req), s.id);
      ListedRowStaleness(l, req, r);
      if r in NewSent(l, req) {
        OneNewRowPerSection(l, req, r, b);
        NothingHoldsBack(l, req, s, r);
      } else {
        forall n | HoldsBack(l, req, s, n) ensures n == r {
          SameNewestAfter(l, req, n, r);
        }
        assert HoldsBack(l, req, s, r);
      }
    }
  }

  lemma {:induction false} SameNewestAfter(l: Ledger, req: Request, a: SentRow, b: SentRow)
    requires WellFormed(l) && a in Kept(l, req) && b in Kept(l, req) && a.sectionId == b.sectionId
    requires NewestOfSection(After(l, req), a) && NewestOfSection(After(l, req), b)
    ensures a == b
  {
    KeptNewestUnique(l, req, a, b);
  }

  lemma {:induction false} NothingHoldsBack(l: Ledger, req: Request, s: Section, b: SentRow)
    requires WellFormed(l) && Commits(l, req) && b in NewSent(l, req) && b.sectionId == s.id
    requires NewestOfSection(After(l, req), b)
    ensures forall n :: !HoldsBack(l, req, s, n)
  {
    forall n | n in Kept(l, req) && n.sectionId == s.id ensures !NewestOfSection(After(l, req), n) {
      OldAndNewDiffer(l, req, n, b);
      assert n in After(l, req) && b in After(l, req);
      assert !Newer(n, b);
    }
  }

  lemma {:induction false} OmittedStaysListed(l: Ledger, req: Request, s: Section) returns (r: SentRow)
    requires WellFormed(l) && Commits(l, req) && UniqueSections(req.artifact.sections)
    requires s in req.artifact.sections && IsOmitted(s, Previous(l, req))
    ensures ListedWith(Recorded(l, req), req.sessionId, r, s)
    ensures r.contentHash == s.contentHash && !RowStale(Recorded(l, req), r, req.artifact)
    ensures forall n :: !HoldsBack(l, req, s, n)
  {
    r := OmittedHasCurrentRow(l, req, s);
    CurrentIsKept(l, req, r);
    NothingSentForOmitted(l, req, s);
    ListedAfterBuild(l, req);
    CurrentMeansNoReset(l, req);
    ListedRowStaleness(l, req, r);
    SentMembers(l, req);
  }

  lemma {:induction false} NothingSentForOmitted(l: Ledger, req: Request, s: Section)
    requires UniqueSections(req.artifact.sections) && s in req.artifact.sections && IsOmitted(s, Previous(l, req))
    ensures forall b :: b in NewSent(l, req) ==> b.sectionId != s.id
    ensures s !in Sent(l, req)
  {
    SentMembers(l, req);
    forall b | b in NewSent(l, req) ensures b.sectionId != s.id {
      var t := NewRowOrigin(l, req, b);
      if t.id == s.id {
        SectionByIdUnique(req.artifact.sections, s, t);
      }
    }
  }

  /** The next build of the same context omits a section iff it is not pinned and its listed row is fresh and equal. */
  lemma {:induction false} OmittedAgainIff(after: Ledger, again: Request, s: Section, r: SentRow)
    requires WellFormed(after) && again.reset.None? && s in again.artifact.sections
    requires ListedWith(after, again.sessionId, r, s)
    ensures IsOmitted(s, Previous(after, again)) <==>
            !s.pinned && r.contentHash == s.contentHash && !RowStale(after, r, again.artifact)
  {
    ListedStaleness(after, again.sessionId, r, again.artifact);
    StaleMembers(after, again);
    PreviousIsCurrentRow(after, again, s.id);
    if IsOmitted(s, Previous(after, again)) {
      var c := OmittedHasCurrentRow(after, again, s);
      OneActivePerSection(after, again.sessionId, c, r);
    }
  }

  /**
    Building the same context again omits exactly the sections not pinned iff every row holding one back is as good.
  */
  lemma {:induction false} SteadyStateSendsPinnedOnlyIff(l: Ledger, req: Request, again: Request)
    requires WellFormed(l) && Commits(l, req) && UniqueSections(req.artifact.sections) && SteadyRequest(req, again)
    ensures (forall s :: s in again.artifact.sections ==>
               (IsOmitted(s, Previous(Recorded(l, req), again)) <==> !s.pinned)) <==>
            (forall s, n :: HoldsBack(l, req, s, n) && !s.pinned ==> AsGoodAsNew(l, n, s, req.artifact))
  {
    var after := Recorded(l, req);
    BuildKeepsWellFormed(l, req);
    SentMembers(l, req);
    hide WellFormed, Commits, Recorded, HoldsBack, AsGoodAsNew, RowStale, IsOmitted, ListedWith, UniqueSections;
    forall s | s in again.artifact.sections
      ensures (IsOmitted(s, Previous(after, again)) <==> !s.pinned) <==>
              s.pinned || forall n :: HoldsBack(l, req, s, n) ==> AsGoodAsNew(l, n, s, req.artifact)
    {
      var r := SectionIsActiveAfterIff(l, req, s);
      SameStalenessAgain(after, r, req, again);
      OmittedAgainIff(after, again, s, r);
    }
    forall s, n | HoldsBack(l, req, s, n) ensures s in again.artifact.sections {
      HeldBackIsSent(l, req, s, n);
    }
  }

  lemma {:induction false} HeldBackIsSent(l: Ledger, req: Request, s: Section, n: SentRow)
    requires HoldsBack(l, req, s, n)
    ensures s in req.artifact.sections
  {
    SentMembers(l, req);
  }

  lemma {:induction false} SameStalenessAgain(l: Ledger, r: SentRow, req: Request, again: Request)
    requires SteadyRequest(req, again)
    ensures RowStale(l, r, again.artifact) == RowStale(l, r, req.artifact)
  {
  }

  /** ... so it sends pinned sections only, whenever the build before it hid none of its own rows. */
  lemma {:induction false} SteadyStateSendsPinnedOnly(l: Ledger, req: Request, again: Request)
    requires WellFormed(l) && Commits(l, req) && UniqueSections(req.artifact.sections) && SteadyRequest(req, again)
    requires ResentAreNewest(l, req)
    ensures forall s :: s in again.artifact.sections ==>
              (IsOmitted(s, Previous(Recorded(l, req), again)) <==> !s.pinned)
    ensures forall r :: r in NewSent(Recorded(l, req), again) ==> r.pinned && r.state.Pinned?
  {
    var after := Recorded(l, req);
    forall s, n ensures !HoldsBack(l, req, s, n) {
      NewestHoldsNothingBack(l, req, s, n);
    }
    SteadyStateSendsPinnedOnlyIff(l, req, again);
    forall r | r in NewSent(after, again) ensures r.pinned && r.state.Pinned? {
      var s := NewRowOrigin(after, again, r);
      SentMembers(after, again);
    }
  }

  lemma {:induction false} NewestHoldsNothingBack(l: Ledger, req: Request, s: Section, n: SentRow)
    requires ResentAreNewest(l, req)
    ensures !HoldsBack(l, req, s, n)
  {
    if s in Sent(l, req) {
      SentSectionHasRow(l, req, s);
      assert SentRowFor(l, req, s) in After(l, req);
    }
  }

  /** On any clock: building the same context again invalidates nothing iff every uncovered row was seen unchanged. */
  lemma {:induction false} SteadyStateInvalidatesNothingIff(l: Ledger, req: Request, again: Request)
    requires WellFormed(l) && Commits(l, req) && SteadyRequest(req, again)
    ensures StalePrior(Recorded(l, req), again) == [] <==>
            forall r :: Uncovered(l, req, r) ==> SeenUnchanged(l, r, req.artifact)
  {
    var after := Recorded(l, req);
    BuildKeepsWellFormed(l, req);
    FreshAfterBuildIff(l, req);
    StaleMembers(after, again);
    forall r | r in ListActive(after, req.sessionId)
      ensures r in StalePrior(after, again) <==> RowStale(after, r, req.artifact)
    {
      ListedStaleness(after, req.sessionId, r, again.artifact);
    }
    EmptyIff(StalePrior(after, again));
  }

  // ----- on a clock that advances -----

  /** A row that was covered by a newer one and is listed again because that one was invalidated and not resent. */
  predicate Resurfaces(l: Ledger, req: Request, r: SentRow) {
    && r in Kept(l, req) && NewestOfSection(Kept(l, req), r)
    && r !in CurrentPrior(l, req) && !InArtifact(req, r.sectionId)
  }

  lemma {:induction false} AdvancingClockHidesNothing(l: Ledger, req: Request)
    requires ClockAdvances(l, req)
    ensures ResentAreNewest(l, req)
  {
    KeptMembers(l, req);
    forall a, b | a in Kept(l, req) && b in NewSent(l, req) ensures Newer(b, a) {
      var origin := NewRowOrigin(l, req, b);
    }
  }

  /** When no new row is hidden, an uncovered row is one whose section is gone. */
  lemma {:induction false} UncoveredIsResurfaced(l: Ledger, req: Request, r: SentRow)
    requires WellFormed(l) && Commits(l, req) && ResentAreNewest(l, req)
    ensures Uncovered(l, req, r) <==> Resurfaces(l, req, r)
  {
    if Uncovered(l, req, r) && InArtifact(req, r.sectionId) {
      var b := UncoveredIsResent(l, req, r);
      OldAndNewDiffer(l, req, r, b);
    }
    if Resurfaces(l, req, r) {
      NothingSentFor(l, req, r.sectionId);
    }
  }

  /** ... and what decides freshness then are three comparisons. */
  lemma {:induction false} FreshWhenNoneHiddenIff(l: Ledger, req: Request)
    requires WellFormed(l) && Commits(l, req) && ResentAreNewest(l, req)
    ensures AllActiveFresh(Recorded(l, req), req.sessionId, req.artifact) <==>
            forall r :: Resurfaces(l, req, r) ==> SameManifest(r, req.artifact)
  {
    FreshAfterBuildIff(l, req);
    KeptMembers(l, req);
    SurvivingMembers(l, req.sessionId);
    forall r ensures Uncovered(l, req, r) <==> Resurfaces(l, req, r) {
      UncoveredIsResurfaced(l, req, r);
    }
    forall r | Resurfaces(l, req, r) ensures SeenUnchanged(l, r, req.artifact) <==> SameManifest(r, req.artifact) {
      RowStaleIff(l, r, req.artifact);
      AbsentSectionStaleIff(l, req, r);
    }
  }

  /** The active list: what was sent, what is current and not resent, and what resurfaces. */
  lemma {:induction false} ActiveAfterBuild(l: Ledger, req: Request, r: SentRow)
    requires WellFormed(l) && Commits(l, req) && UniqueSections(req.artifact.sections) && ResentAreNewest(l, req)
    ensures r in ListActive(Recorded(l, req), req.sessionId) <==>
            || r in NewSent(l, req)
            || (r in CurrentPrior(l, req) && !SectionSent(l, req, r.sectionId))
            || Resurfaces(l, req, r)
  {
    ListedAfterBuild(l, req);
    NewRowsListedIff(l, req);
    UncoveredIsResurfaced(l, req, r);
    if r in CurrentPrior(l, req) {
      CurrentListedIff(l, req, r);
    }
  }

  lemma {:induction false} CurrentListedIff(l: Ledger, req: Request, r: SentRow)
    requires WellFormed(l) && Commits(l, req) && ResentAreNewest(l, req) && r in CurrentPrior(l, req)
    ensures NewestOfSection(After(l, req), r) <==> !SectionSent(l, req, r.sectionId)
  {
    CurrentIsKept(l, req, r);
    if s :| s in Sent(l, req) && s.id == r.sectionId {
      SentSectionHasRow(l, req, s);
      assert SentRowFor(l, req, s) in After(l, req);
    } else {
      forall b | b in NewSent(l, req) ensures b.sectionId != r.sectionId {
        var s := NewRowOrigin(l, req, b);
      }
    }
  }

  /** Rows resurface exactly when an invalidated item of a section that is gone covered an older row. */
  lemma {:induction false} ResurfacesIff(l: Ledger, req: Request)
    requires WellFormed(l)
    ensures (exists r :: Resurfaces(l, req, r)) <==> CoversOlderRow(l, req)
  {
    if r :| Resurfaces(l, req, r) {
      NothingSentFor(l, req, r.sectionId);
      assert Uncovered(l, req, r);
      var top := UncoveredTop(l, req, r);
    }
    if CoversOlderRow(l, req) {
      CoveredRowIsUncovered(l, req);
      var r :| Uncovered(l, req, r) && !InArtifact(req, r.sectionId);
      assert Resurfaces(l, req, r);
    }
  }
}

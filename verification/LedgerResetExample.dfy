/** A reset that leaves an older row behind, and a later omission that rests on it. */
module LedgerResetExample {
  import opened Common
  import opened LedgerTypes
  import opened Staleness
  import opened ContextDiff
  import opened SessionLedger
  import opened DurableBuild
  import opened LedgerInvariants
  import opened LedgerMemory
  import opened LedgerAgent
  import opened LedgerReconstruction
  import opened LedgerFreshness
  import opened LedgerRuns
  import opened LedgerAgentRuns
  import opened LedgerExamples

  // ----- from any ledger -----

  /** Of two surviving rows of one section the reset invalidates the newer, listed one only. */
  lemma {:induction false} ResetUncovers(l: Ledger, reset: Request, r1: SentRow, r2: SentRow)
    requires WellFormed(l) && Commits(l, reset) && Surviving(l, reset.sessionId) == [r1, r2] && reset.reset.Some?
    requires r1.sectionId == r2.sectionId && Newer(r2, r1) && !InArtifact(reset, r1.sectionId)
    ensures r1 in ListActive(Recorded(l, reset), reset.sessionId)
  {
    hide WellFormed, Commits, Recorded, ListActive, Surviving, Kept, NewSent, StalePrior;
    var s := reset.sessionId;
    ListedIsStale(l, reset, r1, r2);
    KeptMembers(l, reset);
    ListedAfterBuild(l, reset);
    NothingSentFor(l, reset, r1.sectionId);
    NewerIsStrict(r1, r1);
    assert r1 in Surviving(l, s);
    forall n | n in After(l, reset) && n.sectionId == r1.sectionId ensures !Newer(n, r1) {
      assert n in Kept(l, reset) && n in [r1, r2];
    }
  }

  lemma {:induction false} ListedIsStale(l: Ledger, reset: Request, r1: SentRow, r2: SentRow)
    requires Surviving(l, reset.sessionId) == [r1, r2] && reset.reset.Some?
    requires r1.sectionId == r2.sectionId && Newer(r2, r1)
    ensures r2 in StalePrior(l, reset) && r1 !in StalePrior(l, reset)
  {
    var s := reset.sessionId;
    hide Surviving, ListActive, StalePrior, IsStale, CurrentPrior;
    ActiveMembers(l, s);
    StaleMembers(l, reset);
    NewerIsStrict(r1, r2);
    NewerIsStrict(r2, r2);
    assert r1 in Surviving(l, s) && r2 in Surviving(l, s);
    assert forall n :: n in Surviving(l, s) ==> n == r1 || n == r2;
  }

  /** Building again from where the older row came from omits its section, which the reset did not send. */
  lemma {:induction false} OmittedAfterReset(
    l: Ledger, reset: Request, again: Request, r1: SentRow, r2: SentRow, x: Section)
    requires WellFormed(l) && Commits(l, reset) && Surviving(l, reset.sessionId) == [r1, r2] && reset.reset.Some?
    requires r1.sectionId == r2.sectionId == x.id && Newer(r2, r1) && !InArtifact(reset, x.id)
    requires again.sessionId == reset.sessionId && again.reset.None? && SameManifest(r1, again.artifact)
    requires !x.pinned && r1.contentHash == x.contentHash
    ensures IsOmitted(x, Previous(Recorded(l, reset), again))
    ensures r1 in CurrentPrior(Recorded(l, reset), again)
  {
    var after := Recorded(l, reset);
    BuildKeepsWellFormed(l, reset);
    ResetUncovers(l, reset, r1, r2);
    StaleMembers(after, again);
    PreviousIsCurrentRow(after, again, x.id);
  }

  /** The agent that started over at the reset then has nothing of it. */
  lemma {:induction false} ResetForgets(
    l: Ledger, reset: Request, again: Request, r1: SentRow, r2: SentRow, x: Section)
    requires WellFormed(l) && Commits(l, reset) && Surviving(l, reset.sessionId) == [r1, r2] && reset.reset.Some?
    requires r1.sectionId == r2.sectionId == x.id && Newer(r2, r1) && !InArtifact(reset, x.id)
    requires again.sessionId == reset.sessionId && again.reset.None? && SameManifest(r1, again.artifact)
    requires !x.pinned && r1.contentHash == x.contentHash
    requires x in again.artifact.sections && UniqueSections(again.artifact.sections)
    ensures !Holds(Replay(Replay([], Pack(l, reset)), Pack(Recorded(l, reset), again)), x)
  {
    var after, rows := Recorded(l, reset), NewSent(l, reset);
    OmittedAfterReset(l, reset, again, r1, r2, x);
    BuildKeepsWellFormed(l, reset);
    NothingInSync();
    ReplayTracks(l, reset, [], []);
    NothingLeftOfNothing(l, reset);
    SurvivingAfter(l, reset);
    NothingSentFor(l, reset, x.id);
    LastOfSectionFacts(rows, x.id);
    hide WellFormed, Commits, Recorded, Surviving, NewSent, Previous, IsOmitted, Replay, Pack, Unstale, InSync;
    assert forall r :: r in rows ==> r in Surviving(after, again.sessionId);
    ReplayTracks(after, again, Replay([], Pack(l, reset)), rows);
    HoldsAfterIff(after, again, Replay(Replay([], Pack(l, reset)), Pack(after, again)), rows, x);
  }

  // ----- a committed run -----

  /** A reset build of an artifact without sections. */
  predicate Empties(req: Request, sessionId: string, id: string, d: string) {
    && req.sessionId == sessionId && req.artifact.sessionId == sessionId && req.artifact.artifactId == id
    && req.artifact.sections == [] && |req.artifact.dependencies| == 1 && req.artifact.dependencies[0].id == d
    && req.reset.Some?
  }

  lemma {:induction false} ResetPartition(l: Ledger, req: Request, r: SentRow)
    requires ListActive(l, req.sessionId) == [r] && req.reset.Some?
    ensures StalePrior(l, req) == [r]
  {
    var payloads := ListActivePayloads(l, req.sessionId);
    FilterSingleton(r, r => req.reset.Some? || IsStale(r, payloads, req.artifact, Lister(l)));
  }

  lemma {:induction false} EmptyPack(l: Ledger, req: Request, gone: SentRow)
    requires req.artifact.sections == [] && StalePrior(l, req) == [gone]
    ensures NewSent(l, req) == [] && NewOmitted(l, req) == [] && |NewPacks(l, req)| == 1
    ensures NewPacks(l, req)[0].packItemId == CreateInvalidationPackItem(req, gone).itemId
  {
    NewSentRows(l, req);
    assert Sent(l, req) == [];
    assert Pack(l, req) == [CreateInvalidationPackItem(req, gone)];
    assert NewPacks(l, req)[0] == ToPackRow(req, Pack(l, req)[0]);
  }

  lemma {:induction false} EmptyDependencyRow(req: Request, sessionId: string, id: string, d: string)
    requires Empties(req, sessionId, id, d)
    ensures |NewDependencies(req)| == 1 && NewDependencies(req)[0].dependencyId == StoredDependencyId(id, d)
  {
  }

  predicate FourIds(id1: string, id2: string, id3: string, id4: string) {
    && |id1| == |id2| == |id3| == |id4| && id1 != id2 && id1 != id3 && id1 != id4 && id2 != id3 && id2 != id4
    && id3 != id4
  }

  /** The ledger after two sends of a section and the reset. */
  ghost predicate AfterReset(
    l: Ledger, r1: SentRow, r2: SentRow, invalidation: string, id1: string, id2: string, id3: string, d: string)
  {
    && WellFormed(l) && Surviving(l, r1.sessionId) == [r1] && l.sent == [r1, r2] && l.omitted == []
    && |l.packs| == 3 && l.packs[0].packItemId == r1.sentItemId && l.packs[1].packItemId == r2.sentItemId
    && l.packs[2].packItemId == invalidation && l.artifacts == {id1, id2, id3} && |l.dependencies| == 3
    && l.dependencies[0].dependencyId == StoredDependencyId(id1, d)
    && l.dependencies[1].dependencyId == StoredDependencyId(id2, d)
    && l.dependencies[2].dependencyId == StoredDependencyId(id3, d)
  }

  lemma {:induction false} ResetCommits(
    l: Ledger, req: Request, r1: SentRow, r2: SentRow, sessionId: string, id1: string, id2: string, id3: string,
    x: string, d: string)
    requires TwoSurvive(l, r1, r2, id1, id2, d) && Empties(req, sessionId, id3, d) && r1.sessionId == sessionId
    requires |id1| == |id2| == |id3| && id1 != id3 && id2 != id3 && ListActive(l, sessionId) == [r2]
    requires r1.sentItemId == ItemId(sessionId, id1, x, New) && r2.sentItemId == ItemId(sessionId, id2, x, Changed)
    requires x != [] && x[0] != 'i'
    ensures Commits(l, req) && StalePrior(l, req) == [r2]
  {
    hide ItemId, NewPacks, NewSent, NewOmitted, NewDependencies, Surviving, StalePrior, ListActive;
    hide StoredDependencyId, CreateInvalidationPackItem, WellFormed;
    var ids, id := [r1.sentItemId, r2.sentItemId], CreateInvalidationPackItem(req, r2).itemId;
    ResetPartition(l, req, r2);
    assert Apart(l.dependencies, NewDependencies(req), DependencyRowId) &&
      DistinctKeys(NewDependencies(req), DependencyRowId) by
    {
      EmptyDependencyRow(req, sessionId, id3, d);
      DependencyIdsDiffer(id1, id3, d);
      DependencyIdsDiffer(id2, id3, d);
    }
    assert Apart(l.packs, NewPacks(l, req), PackRowId) && DistinctKeys(NewPacks(l, req), PackRowId) by {
      EmptyPack(l, req, r2);
      InvalidationIdDiffers(req, r2, id1, x, New);
      InvalidationIdDiffers(req, r2, id2, x, Changed);
      ApartByIds(l.packs, NewPacks(l, req), PackRowId, ids, [id]);
    }
    assert NewSent(l, req) == [] && NewOmitted(l, req) == [] by {
      EmptyPack(l, req, r2);
    }
    KeysOf(l, r1, r2, id1, id2, d);
    CommitsIf(l, req);
  }

  lemma {:induction false} KeysOf(l: Ledger, r1: SentRow, r2: SentRow, id1: string, id2: string, d: string)
    requires TwoSurvive(l, r1, r2, id1, id2, d)
    ensures KeysDistinct(l) && l.artifacts == {id1, id2}
  {
  }

  lemma {:induction false} ResetRecorded(
    l: Ledger, req: Request, r1: SentRow, r2: SentRow, sessionId: string, id1: string, id2: string, id3: string,
    d: string)
    requires TwoSurvive(l, r1, r2, id1, id2, d) && Empties(req, sessionId, id3, d) && r1.sessionId == sessionId
    requires Commits(l, req) && StalePrior(l, req) == [r2] && r1 != r2
    ensures AfterReset(Recorded(l, req), r1, r2, CreateInvalidationPackItem(req, r2).itemId, id1, id2, id3, d)
    ensures NewSent(l, req) == []
  {
    hide ItemId, NewPacks, NewSent, NewOmitted, NewDependencies, Commits, StalePrior, WellFormed;
    hide StoredDependencyId, CreateInvalidationPackItem;
    var after := Recorded(l, req);
    EmptyPack(l, req, r2);
    EmptyDependencyRow(req, sessionId, id3, d);
    assert WellFormed(after) by {
      BuildKeepsWellFormed(l, req);
    }
    assert Surviving(after, sessionId) == [r1] by {
      SurvivingAfter(l, req);
      FilterSingleton(r1, r => r !in StalePrior(l, req));
      FilterSnoc([r1], r2, r => r !in StalePrior(l, req));
      assert [r1] + [r2] == [r1, r2];
      assert Kept(l, req) == [r1];
    }
    assert after.sent == [r1, r2] && after.omitted == [];
  }

  lemma {:induction false} AgainCommits(
    l: Ledger, req: Request, r1: SentRow, r2: SentRow, invalidation: string, sessionId: string,
    id1: string, id2: string, id3: string, id4: string, x: Section, d: string)
    requires AfterReset(l, r1, r2, invalidation, id1, id2, id3, d) && Builds(req, sessionId, id4, x, d)
    requires FourIds(id1, id2, id3, id4) && StalePrior(l, req) == [] && IsOmitted(x, Previous(l, req))
    requires PackIdsApart(r1.sentItemId, r2.sentItemId, ItemId(sessionId, id4, x.id, OmitUnchanged),
                          ItemId(sessionId, id4, x.id, RestoreAvailable))
    requires invalidation != ItemId(sessionId, id4, x.id, OmitUnchanged)
    requires invalidation != ItemId(sessionId, id4, x.id, RestoreAvailable)
    ensures Commits(l, req)
  {
    hide ItemId, Previous, StalePrior, NewPacks, NewSent, NewOmitted, NewDependencies, IsOmitted, Surviving;
    hide StoredDependencyId;
    OmittedItems(l, req, x);
    OneDependencyRow(req, sessionId, id4, x, d);
    DependencyIdsDiffer(id1, id4, d);
    DependencyIdsDiffer(id2, id4, d);
    DependencyIdsDiffer(id3, id4, d);
    ApartByIds(l.packs, NewPacks(l, req), PackRowId, [r1.sentItemId, r2.sentItemId, invalidation],
      [NewPacks(l, req)[0].packItemId, NewPacks(l, req)[1].packItemId]);
    CommitsIf(l, req);
  }

  /** A text, a change of it, a reset that sends nothing, and the first text again, on an advancing clock. */
  predicate ResetsBetween(
    first: Request, second: Request, reset: Request, again: Request, sessionId: string,
    id1: string, id2: string, id3: string, id4: string, x: Section, y: Section, d: string)
  {
    && Builds(first, sessionId, id1, x, d) && Builds(second, sessionId, id2, y, d) && Empties(reset, sessionId, id3, d)
    && Builds(again, sessionId, id4, x, d) && SamePlace(first.artifact, second.artifact)
    && SamePlace(first.artifact, again.artifact) && second.reset.None? && again.reset.None?
    && first.now < second.now < reset.now < again.now && FourIds(id1, id2, id3, id4)
    && x.id == y.id && x.id != [] && x.id[0] != 'i' && !x.pinned && !y.pinned && x.contentHash != y.contentHash
  }

  lemma {:induction false} UpToReset(
    first: Request, second: Request, reset: Request, again: Request, sessionId: string,
    id1: string, id2: string, id3: string, id4: string, x: Section, y: Section, d: string)
    returns (l: Ledger, r1: SentRow, r2: SentRow)
    requires ResetsBetween(first, second, reset, again, sessionId, id1, id2, id3, id4, x, y, d)
    ensures l == LedgerAfter([first, second]) && WellFormed(l) && Commits(l, reset)
    ensures SentAs(r1, first, x, New) && SentAs(r2, second, y, Changed) && NewSent(l, reset) == []
    ensures AfterReset(Recorded(l, reset), r1, r2, CreateInvalidationPackItem(reset, r2).itemId, id1, id2, id3, d)
  {
    l, r1, r2 := TwoSends(first, second, sessionId, id1, id2, x, y, d);
    ListedOfTwo(l, r1, r2, r2);
    ResetCommits(l, reset, r1, r2, sessionId, id1, id2, id3, x.id, d);
    IdsDiffer(sessionId, id1, id2, x.id, x.id, New, Changed);
    ResetRecorded(l, reset, r1, r2, sessionId, id1, id2, id3, d);
  }

  lemma {:induction false} AgainOmits(
    l: Ledger, first: Request, second: Request, reset: Request, again: Request, r1: SentRow, r2: SentRow,
    sessionId: string, id1: string, id2: string, id3: string, id4: string, x: Section, y: Section, d: string)
    requires ResetsBetween(first, second, reset, again, sessionId, id1, id2, id3, id4, x, y, d)
    requires SentAs(r1, first, x, New) && SentAs(r2, second, y, Changed)
    requires AfterReset(l, r1, r2, CreateInvalidationPackItem(reset, r2).itemId, id1, id2, id3, d)
    ensures Commits(l, again) && IsOmitted(x, Previous(l, again)) && CurrentPrior(l, again) == [r1]
  {
    ListedOfOne(l, r1);
    OneListedIsCurrent(l, again, r1);
    OmissionIdsApart(r1, r2, sessionId, id1, id2, id4, x.id);
    InvalidationIdDiffers(reset, r2, id4, x.id, OmitUnchanged);
    InvalidationIdDiffers(reset, r2, id4, x.id, RestoreAvailable);
    AgainCommits(l, again, r1, r2, CreateInvalidationPackItem(reset, r2).itemId, sessionId, id1, id2, id3, id4, x, d);
  }

  lemma {:induction false} LedgerAfterThree(first: Request, second: Request, reset: Request)
    requires Commits(LedgerAfter([first, second]), reset)
    ensures LedgerAfter([first, second, reset]) == Recorded(LedgerAfter([first, second]), reset)
    ensures reset.reset.Some? ==>
              Remembered([first, second, reset], reset.sessionId) ==
              Unstale(LedgerAfter([first, second]), reset, []) + NewSent(LedgerAfter([first, second]), reset)
  {
    hide Remembered;
    ThirdBuild(first, second, reset);
    RememberedStep([first, second, reset], reset.sessionId);
  }

  /** Every such run ends with a section omitted of which the agent, having started over, holds nothing. */
  lemma {:induction false} ResetRunMisreconstructs(
    first: Request, second: Request, reset: Request, again: Request, sessionId: string,
    id1: string, id2: string, id3: string, id4: string, x: Section, y: Section, d: string)
    requires ResetsBetween(first, second, reset, again, sessionId, id1, id2, id3, id4, x, y, d)
    ensures LastCommits([first, second, reset, again])
    ensures IsOmitted(x, Previous(LedgerAfter([first, second, reset]), again))
    ensures Remembered([first, second, reset], sessionId) == []
    ensures !Reconstructs(AgentAfter([first, second, reset, again], sessionId), [x])
  {
    var l, r1, r2 := UpToReset(first, second, reset, again, sessionId, id1, id2, id3, id4, x, y, d);
    LedgerAfterThree(first, second, reset);
    NothingLeftOfNothing(l, reset);
    AgainOmits(
      LedgerAfter([first, second, reset]), first, second, reset, again, r1, r2, sessionId, id1, id2, id3, id4, x, y, d);
    ResetConclusion(first, second, reset, again, x);
  }

  lemma {:induction false} ResetConclusion(first: Request, second: Request, reset: Request, again: Request, x: Section)
    requires Commits(LedgerAfter([first, second, reset]), again) && again.artifact.sections == [x]
    requires IsOmitted(x, Previous(LedgerAfter([first, second, reset]), again))
    requires Remembered([first, second, reset], again.sessionId) == []
    requires |first.artifact.sections| <= 1 && |second.artifact.sections| <= 1 && |reset.artifact.sections| <= 1
    ensures LastCommits([first, second, reset, again])
    ensures !Reconstructs(AgentAfter([first, second, reset, again], again.sessionId), [x])
  {
    hide LedgerAfter, Commits, Remembered, AgentAfter, Reconstructs, Previous, IsOmitted;
    var reqs := [first, second, reset, again];
    assert reqs[..3] == [first, second, reset] && reqs[3] == again;
    assert SectionsUnique(reqs);
    RunReconstructsIff(reqs);
    assert x in again.artifact.sections && !LastArrivedIs([], x);
  }

  lemma {:induction false} ResetInput()
    returns (first: Request, second: Request, reset: Request, again: Request, sessionId: string,
             id1: string, id2: string, id3: string, id4: string, x: Section, y: Section, d: string)
    ensures ResetsBetween(first, second, reset, again, sessionId, id1, id2, id3, id4, x, y, d)
    ensures HonestContentHash(x) && HonestContentHash(y) && x.body == "one" && y.body == "two"
    ensures first.now == 1 && second.now == 2 && reset.now == 3 && again.now == 4
    ensures sessionId == "s" == again.sessionId && again.artifact.sections == [x]
  {
    sessionId, id1, id2, id3, id4, d := "s", "a", "b", "c", "e", "d";
    x, y := Span("x", "one", false), Span("x", "two", false);
    first, second, again := Build("a", x, "h", 1, None), Build("b", y, "h", 2, None), Build("e", x, "h", 4, None);
    reset := Build("c", x, "h", 3, Some("reset"));
    reset := reset.(artifact := reset.artifact.(sections := []));
    assert "one"[0] != "two"[0];
    assert x.contentHash.parts[2] == "one" && y.contentHash.parts[2] == "two";
    assert x.contentHash.parts == [x.id, x.title, x.body] + x.dependencyRefs;
    assert y.contentHash.parts == [y.id, y.title, y.body] + y.dependencyRefs;
    assert "a"[0] != "b"[0] && "a"[0] != "c"[0] && "a"[0] != "e"[0];
    assert "b"[0] != "c"[0] && "b"[0] != "e"[0] && "c"[0] != "e"[0];
  }

  /** Concretely, at times 1, 2, 3 and 4: "one", "two", a reset, and "one" again, which is omitted. */
  lemma {:induction false} ResetBreaksReconstruction()
    returns (first: Request, second: Request, reset: Request, again: Request)
    ensures first.now == 1 && second.now == 2 && reset.now == 3 && again.now == 4
    ensures LastCommits([first, second, reset, again]) && again.sessionId == "s"
    ensures !Reconstructs(AgentAfter([first, second, reset, again], "s"), again.artifact.sections)
  {
    hide ResetsBetween, LedgerAfter, AgentAfter, Reconstructs, LastCommits, Remembered, IsOmitted, Previous;
    var sessionId, id1, id2, id3, id4, x, y, d;
    first, second, reset, again, sessionId, id1, id2, id3, id4, x, y, d := ResetInput();
    ResetRunMisreconstructs(first, second, reset, again, sessionId, id1, id2, id3, id4, x, y, d);
  }
}

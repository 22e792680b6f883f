/** Whole runs of builds over one ledger, with any number of sessions interleaved. */
module LedgerRuns {
  import opened Common
  import opened LedgerTypes
  import opened Staleness
  import opened ContextDiff
  import opened SessionLedger
  import opened DurableBuild
  import opened LedgerInvariants
  import opened LedgerReconstruction
  import opened LedgerFreshness
  import opened LedgerHistory

  function LedgerAfter(reqs: seq<Request>): Ledger {
    if reqs == [] then EmptyLedger else Next(LedgerAfter(reqs[..|reqs| - 1]), reqs[|reqs| - 1])
  }

  /** The artifact behind each committed build. */
  function Built(reqs: seq<Request>): map<string, Artifact> {
    if reqs == [] then map[] else
    var before, last := reqs[..|reqs| - 1], reqs[|reqs| - 1];
    if Commits(LedgerAfter(before), last) then Built(before)[last.artifact.artifactId := last.artifact]
      else Built(before)
  }

  predicate SectionsUnique(reqs: seq<Request>) {
    forall i :: 0 <= i < |reqs| ==> UniqueSections(reqs[i].artifact.sections)
  }

  /** Two builds of one session never carry the same timestamp, and later ones carry later ones. */
  predicate ClockRuns(reqs: seq<Request>) {
    forall i, j :: 0 <= i < j < |reqs| && reqs[i].sessionId == reqs[j].sessionId ==> reqs[i].now < reqs[j].now
  }

  predicate LastCommits(reqs: seq<Request>) {
    reqs != [] && Commits(LedgerAfter(reqs[..|reqs| - 1]), reqs[|reqs| - 1])
  }

  lemma {:induction false} RunWellFormed(reqs: seq<Request>)
    ensures WellFormed(LedgerAfter(reqs))
    decreases |reqs|
  {
    if reqs != [] {
      RunWellFormed(reqs[..|reqs| - 1]);
      BuildKeepsWellFormed(LedgerAfter(reqs[..|reqs| - 1]), reqs[|reqs| - 1]);
    }
  }

  predicate SentDuring(reqs: seq<Request>, r: SentRow) {
    exists i :: 0 <= i < |reqs| && reqs[i].sessionId == r.sessionId && reqs[i].now == r.lastSentAt
  }

  lemma {:induction false} RowsAreSentDuringRun(reqs: seq<Request>)
    ensures forall r :: r in LedgerAfter(reqs).sent ==> SentDuring(reqs, r)
    decreases |reqs|
  {
    if reqs != [] {
      var before, last := reqs[..|reqs| - 1], reqs[|reqs| - 1];
      RowsAreSentDuringRun(before);
      forall r | r in LedgerAfter(reqs).sent ensures SentDuring(reqs, r) {
        if r in LedgerAfter(before).sent {
          var i :| 0 <= i < |before| && before[i].sessionId == r.sessionId && before[i].now == r.lastSentAt;
          assert reqs[i] == before[i];
        } else {
          var section := NewRowOrigin(LedgerAfter(before), last, r);
          assert reqs[|reqs| - 1] == last;
        }
      }
    }
  }

  lemma {:induction false} RunClockAdvances(reqs: seq<Request>)
    requires reqs != [] && ClockRuns(reqs)
    ensures ClockAdvances(LedgerAfter(reqs[..|reqs| - 1]), reqs[|reqs| - 1])
  {
    var before, last := reqs[..|reqs| - 1], reqs[|reqs| - 1];
    RowsAreSentDuringRun(before);
    SurvivingMembers(LedgerAfter(before), last.sessionId);
    forall r | r in Surviving(LedgerAfter(before), last.sessionId) ensures r.lastSentAt < last.now {
      assert SentDuring(before, r);
      var i :| 0 <= i < |before| && before[i].sessionId == r.sessionId && before[i].now == r.lastSentAt;
      assert reqs[i] == before[i] && reqs[|reqs| - 1] == last;
    }
  }

  /** On an advancing clock later rows are newer in every reachable ledger, for every session. */
  lemma {:induction false} RunKeepsSendOrder(reqs: seq<Request>, sessionId: string)
    requires SectionsUnique(reqs) && ClockRuns(reqs)
    ensures SendOrder(Surviving(LedgerAfter(reqs), sessionId))
    decreases |reqs|
  {
    if reqs != [] {
      var before, last := reqs[..|reqs| - 1], reqs[|reqs| - 1];
      RunKeepsSendOrder(before, sessionId);
      RunWellFormed(before);
      if Commits(LedgerAfter(before), last) {
        if last.sessionId == sessionId {
          RunClockAdvances(reqs);
          BuildKeepsSendOrder(LedgerAfter(before), last);
        } else {
          OtherSessionsUntouched(LedgerAfter(before), last, sessionId);
        }
      }
    }
  }

  /** The clock of a session never goes back; it may stand still. */
  predicate ClockNeverBack(reqs: seq<Request>) {
    forall i, j :: 0 <= i < j < |reqs| && reqs[i].sessionId == reqs[j].sessionId ==> reqs[i].now <= reqs[j].now
  }

  lemma {:induction false} RunClockHolds(reqs: seq<Request>)
    requires reqs != [] && ClockNeverBack(reqs)
    ensures ClockHolds(LedgerAfter(reqs[..|reqs| - 1]), reqs[|reqs| - 1])
  {
    var before, last := reqs[..|reqs| - 1], reqs[|reqs| - 1];
    RowsAreSentDuringRun(before);
    SurvivingMembers(LedgerAfter(before), last.sessionId);
    forall r | r in Surviving(LedgerAfter(before), last.sessionId) ensures r.lastSentAt <= last.now {
      assert SentDuring(before, r);
      var i :| 0 <= i < |before| && before[i].sessionId == r.sessionId && before[i].now == r.lastSentAt;
      assert reqs[i] == before[i] && reqs[|reqs| - 1] == last;
    }
  }

  /** In every reachable ledger the surviving rows of a section share their first send, no later than any of them. */
  lemma {:induction false} RunKeepsFirstSend(reqs: seq<Request>, sessionId: string)
    requires ClockNeverBack(reqs)
    ensures FirstSendShared(Surviving(LedgerAfter(reqs), sessionId))
    decreases |reqs|
  {
    hide FirstSendShared;
    if reqs != [] {
      var before, last := reqs[..|reqs| - 1], reqs[|reqs| - 1];
      RunKeepsFirstSend(before, sessionId);
      RunWellFormed(before);
      if Commits(LedgerAfter(before), last) {
        if last.sessionId == sessionId {
          RunClockHolds(reqs);
          BuildKeepsFirstSend(LedgerAfter(before), last);
        } else {
          OtherSessionsUntouched(LedgerAfter(before), last, sessionId);
        }
      }
    } else {
      NothingSentYet(sessionId);
    }
  }

  lemma {:induction false} NothingSentYet(sessionId: string)
    ensures FirstSendShared(Surviving(LedgerAfter([]), sessionId)) && CountsGrow(Surviving(LedgerAfter([]), sessionId))
  {
  }

  ghost predicate CountsGrowThroughout(reqs: seq<Request>, sessionId: string) {
    forall k :: 0 <= k <= |reqs| ==> CountsGrow(Surviving(LedgerAfter(reqs[..k]), sessionId))
  }

  /** Each committed build of the session found the largest count of the sections it sent on their listed rows. */
  ghost predicate ListedCarryLargestThroughout(reqs: seq<Request>, sessionId: string) {
    forall k :: 0 <= k < |reqs| && reqs[k].sessionId == sessionId && Commits(LedgerAfter(reqs[..k]), reqs[k]) ==>
      ListedCarriesLargest(LedgerAfter(reqs[..k]), reqs[k])
  }

  /**
    Over every run, on any clock: send counts grow in send order throughout iff the listed rows carried the largest.
  */
  lemma {:induction false} RunCountsGrowIff(reqs: seq<Request>, sessionId: string)
    requires SectionsUnique(reqs)
    ensures CountsGrowThroughout(reqs, sessionId) <==> ListedCarryLargestThroughout(reqs, sessionId)
    decreases |reqs|
  {
    if reqs == [] {
      NothingSentYet(sessionId);
      assert reqs[..0] == [];
    } else {
      hide CountsGrowThroughout, ListedCarryLargestThroughout, CountsGrow, ListedCarriesLargest, LedgerAfter;
      RunCountsGrowIff(reqs[..|reqs| - 1], sessionId);
      CountsThroughoutSnoc(reqs, sessionId);
      ListedThroughoutSnoc(reqs, sessionId);
      if CountsGrowThroughout(reqs[..|reqs| - 1], sessionId) {
        LastBuildCounts(reqs, sessionId);
      }
    }
  }

  lemma {:induction false} CountsThroughoutSnoc(reqs: seq<Request>, sessionId: string)
    requires reqs != []
    ensures CountsGrowThroughout(reqs, sessionId) <==>
            CountsGrowThroughout(reqs[..|reqs| - 1], sessionId) && CountsGrow(Surviving(LedgerAfter(reqs), sessionId))
    ensures CountsGrowThroughout(reqs[..|reqs| - 1], sessionId) ==>
              CountsGrow(Surviving(LedgerAfter(reqs[..|reqs| - 1]), sessionId))
  {
    hide CountsGrow, LedgerAfter, Surviving;
    var before := reqs[..|reqs| - 1];
    assert forall k :: 0 <= k <= |before| ==> before[..k] == reqs[..k];
    assert reqs[..|reqs|] == reqs && before[..|before|] == before;
  }

  lemma {:induction false} ListedThroughoutSnoc(reqs: seq<Request>, sessionId: string)
    requires reqs != []
    ensures var before, last := reqs[..|reqs| - 1], reqs[|reqs| - 1];
            ListedCarryLargestThroughout(reqs, sessionId) <==>
            ListedCarryLargestThroughout(before, sessionId) &&
            (last.sessionId == sessionId && Commits(LedgerAfter(before), last) ==>
               ListedCarriesLargest(LedgerAfter(before), last))
  {
    hide ListedCarriesLargest, LedgerAfter, Commits;
    var before := reqs[..|reqs| - 1];
    assert forall k :: 0 <= k <= |before| ==> before[..k] == reqs[..k];
    assert forall k :: 0 <= k < |before| ==> before[k] == reqs[k];
  }

  lemma {:induction false} LastBuildCounts(reqs: seq<Request>, sessionId: string)
    requires SectionsUnique(reqs) && reqs != []
    requires CountsGrow(Surviving(LedgerAfter(reqs[..|reqs| - 1]), sessionId))
    ensures var before, last := reqs[..|reqs| - 1], reqs[|reqs| - 1];
            CountsGrow(Surviving(LedgerAfter(reqs), sessionId)) <==>
            (last.sessionId == sessionId && Commits(LedgerAfter(before), last) ==>
               ListedCarriesLargest(LedgerAfter(before), last))
  {
    var before, last := reqs[..|reqs| - 1], reqs[|reqs| - 1];
    RunWellFormed(before);
    if Commits(LedgerAfter(before), last) {
      if last.sessionId == sessionId {
        BuildKeepsCountsIff(LedgerAfter(before), last);
      } else {
        OtherSessionsUntouched(LedgerAfter(before), last, sessionId);
      }
    }
  }

  /** ... which an advancing clock guarantees. */
  lemma {:induction false} RunKeepsCounts(reqs: seq<Request>, sessionId: string)
    requires SectionsUnique(reqs) && ClockRuns(reqs)
    ensures CountsGrow(Surviving(LedgerAfter(reqs), sessionId))
    decreases |reqs|
  {
    if reqs == [] {
      NothingSentYet(sessionId);
    } else {
      PrefixRuns(reqs);
      RunKeepsCounts(reqs[..|reqs| - 1], sessionId);
      LastBuildCounts(reqs, sessionId);
      if reqs[|reqs| - 1].sessionId == sessionId {
        RunKeepsSendOrder(reqs[..|reqs| - 1], sessionId);
        SendOrderCarriesLargest(LedgerAfter(reqs[..|reqs| - 1]), reqs[|reqs| - 1]);
      }
    }
  }

  lemma {:induction false} PrefixRuns(reqs: seq<Request>)
    requires reqs != [] && SectionsUnique(reqs) && ClockRuns(reqs)
    ensures SectionsUnique(reqs[..|reqs| - 1]) && ClockRuns(reqs[..|reqs| - 1])
  {
  }

  function HashOf(dependencies: seq<Dependency>, ref: string): Option<string> {
    var m := Index(dependencies, DependencyId);
    if ref in m then Some(m[ref].hash) else None
  }

  function StoredHashOf(rows: seq<DependencyRow>, artifactId: string, ref: string): Option<string> {
    var m := DependencyIndex(rows, artifactId);
    if ref in m then Some(m[ref].hash) else None
  }

  /** A sent row and its stored inputs say what the artifact it came from said. */
  ghost predicate RecordsArtifact(l: Ledger, r: SentRow, a: Artifact) {
    && r.branch == a.branch && r.commit == a.commit && r.manifestHash == a.manifestHash
    && (exists s :: s in a.sections && s.id == r.sectionId && s.contentHash == r.contentHash &&
          exists p :: p in l.packs && IsPackRowOf(p, r) && p.inputRefs == s.dependencyRefs)
    && (forall ref :: StoredHashOf(ListDependencies(l, r.artifactId), r.artifactId, ref) == HashOf(a.dependencies, ref))
  }

  /** Storing a manifest under prefixed ids and reading it back gives the same lookups. */
  lemma {:induction false} StoredManifestReadsBack(artifactId: string, dependencies: seq<Dependency>, ref: string)
    ensures StoredHashOf(Map(dependencies, d => ToDependencyRow(artifactId, d)), artifactId, ref) ==
              HashOf(dependencies, ref)
    decreases |dependencies|
  {
    var rows := Map(dependencies, d => ToDependencyRow(artifactId, d));
    if dependencies != [] {
      var init, last := dependencies[..|dependencies| - 1], dependencies[|dependencies| - 1];
      StoredManifestReadsBack(artifactId, init, ref);
      assert rows[..|rows| - 1] == Map(init, d => ToDependencyRow(artifactId, d));
      LocalIdRoundTrip(artifactId, last.id);
    }
  }

  lemma {:induction false} NewDependenciesListed(l: Ledger, req: Request)
    requires WellFormed(l) && Commits(l, req)
    ensures ListDependencies(Recorded(l, req), req.artifact.artifactId) == NewDependencies(req)
  {
    var p := (d: DependencyRow) => d.artifactId == req.artifact.artifactId;
    FilterConcat(l.dependencies, NewDependencies(req), p);
    FilterKeepsNone(l.dependencies, p);
    FilterKeepsAll(NewDependencies(req), p);
  }

  lemma {:induction false} FindSectionFinds(sections: seq<Section>, s: Section)
    requires UniqueSections(sections) && s in sections
    ensures FindSection(sections, s.id) == Some(s)
    decreases |sections|
  {
    if sections[0].id != s.id {
      FindSectionFinds(sections[1..], s);
    } else {
      SectionByIdUnique(sections, sections[0], s);
    }
  }

  lemma {:induction false} NewRowRecordsArtifact(l: Ledger, req: Request, r: SentRow)
    requires WellFormed(l) && Commits(l, req) && UniqueSections(req.artifact.sections) && r in NewSent(l, req)
    ensures RecordsArtifact(Recorded(l, req), r, req.artifact)
  {
    var s := NewRowOrigin(l, req, r);
    var items := Filter(Pack(l, req), IsSentItem);
    FilterContains(Pack(l, req), IsSentItem);
    NewSentRows(l, req);
    var item := SendItem(req.sessionId, req.artifact.artifactId, s, Previous(l, req));
    assert item in items by {
      var i :| 0 <= i < |Sent(l, req)| && Sent(l, req)[i] == s;
      assert items[i] == item;
    }
    var k :| 0 <= k < |Pack(l, req)| && Pack(l, req)[k] == item;
    var p := NewPacks(l, req)[k];
    FindSectionFinds(req.artifact.sections, s);
    assert p == ToPackRow(req, item);
    assert p in Recorded(l, req).packs && IsPackRowOf(p, r) && p.inputRefs == s.dependencyRefs;
    NewDependenciesListed(l, req);
    forall ref ensures StoredHashOf(NewDependencies(req), r.artifactId, ref) == HashOf(req.artifact.dependencies, ref) {
      StoredManifestReadsBack(req.artifact.artifactId, req.artifact.dependencies, ref);
    }
  }

  lemma {:induction false} RecordStays(l: Ledger, req: Request, r: SentRow, a: Artifact)
    requires WellFormed(l) && Commits(l, req) && r in l.sent && RecordsArtifact(l, r, a)
    ensures RecordsArtifact(Recorded(l, req), r, a)
  {
    DependenciesStay(l, req, r.artifactId);
    var s :| s in a.sections && s.id == r.sectionId && s.contentHash == r.contentHash &&
             exists p :: p in l.packs && IsPackRowOf(p, r) && p.inputRefs == s.dependencyRefs;
    var p :| p in l.packs && IsPackRowOf(p, r) && p.inputRefs == s.dependencyRefs;
    assert p in Recorded(l, req).packs;
  }

  /** Over every run each stored row records the artifact it was sent from. */
  lemma {:induction false} RunRecordsArtifacts(reqs: seq<Request>)
    requires SectionsUnique(reqs)
    ensures forall r :: r in LedgerAfter(reqs).sent ==>
              r.artifactId in Built(reqs) && RecordsArtifact(LedgerAfter(reqs), r, Built(reqs)[r.artifactId])
    decreases |reqs|
  {
    if reqs != [] {
      var before, last := reqs[..|reqs| - 1], reqs[|reqs| - 1];
      var l := LedgerAfter(before);
      RunRecordsArtifacts(before);
      RunWellFormed(before);
      if Commits(l, last) {
        forall r | r in LedgerAfter(reqs).sent
          ensures r.artifactId in Built(reqs) && RecordsArtifact(LedgerAfter(reqs), r, Built(reqs)[r.artifactId])
        {
          if r in l.sent {
            RecordStays(l, last, r, Built(before)[r.artifactId]);
          } else {
            NewRowRecordsArtifact(l, last, r);
            var s := NewRowOrigin(l, last, r);
          }
        }
      }
    }
  }

  /** What it means to be fresh: same branch and commit, and every cited ref still has the hash it had when sent. */
  ghost predicate StillTrue(r: SentRow, origin: Artifact, current: Artifact) {
    && r.branch == current.branch && r.commit == current.commit
    && exists s :: s in origin.sections && s.id == r.sectionId && s.contentHash == r.contentHash &&
         forall ref :: ref in s.dependencyRefs ==> HashOf(origin.dependencies, ref) == HashOf(current.dependencies, ref)
  }

  /** The staleness rule is sound: a row it passes is still true of the artifact. */
  lemma {:induction false} NotStaleIsStillTrue(l: Ledger, r: SentRow, origin: Artifact, current: Artifact)
    requires WellFormed(l) && r in l.sent && RecordsArtifact(l, r, origin) && !RowStale(l, r, current)
    requires HonestManifestHash(origin) && HonestManifestHash(current)
    ensures StillTrue(r, origin, current)
  {
    var s :| s in origin.sections && s.id == r.sectionId && s.contentHash == r.contentHash &&
             exists p :: p in l.packs && IsPackRowOf(p, r) && p.inputRefs == s.dependencyRefs;
    var p :| p in l.packs && IsPackRowOf(p, r) && p.inputRefs == s.dependencyRefs;
    if r.manifestHash == current.manifestHash {
      assert origin.dependencies == current.dependencies;
    } else {
      PackRowFound(l.packs, p);
      var stored := DependencyIndex(ListDependencies(l, r.artifactId), r.artifactId);
      forall ref | ref in s.dependencyRefs
        ensures HashOf(origin.dependencies, ref) == HashOf(current.dependencies, ref)
      {
        assert ref in p.inputRefs;
        assert RefUnchanged(ref, stored, Index(current.dependencies, DependencyId));
        assert StoredHashOf(ListDependencies(l, r.artifactId), r.artifactId, ref) == HashOf(origin.dependencies, ref);
      }
    }
  }

  predicate HonestManifests(reqs: seq<Request>) {
    forall i :: 0 <= i < |reqs| ==> HonestManifestHash(reqs[i].artifact)
  }

  lemma {:induction false} BuiltHonestly(reqs: seq<Request>)
    requires HonestManifests(reqs)
    ensures forall a :: a in Built(reqs) ==> HonestManifestHash(Built(reqs)[a])
    decreases |reqs|
  {
    if reqs != [] {
      BuiltHonestly(reqs[..|reqs| - 1]);
    }
  }

  lemma {:induction false} LastIsRecorded(reqs: seq<Request>)
    requires LastCommits(reqs)
    ensures var before, last := reqs[..|reqs| - 1], reqs[|reqs| - 1];
            && WellFormed(LedgerAfter(before)) && Commits(LedgerAfter(before), last)
            && LedgerAfter(reqs) == Recorded(LedgerAfter(before), last)
  {
    hide WellFormed, Commits, Recorded;
    RunWellFormed(reqs[..|reqs| - 1]);
  }

  /**
    Over every run, on any clock: nothing active is stale iff every row the last build uncovered was seen unchanged.
  */
  lemma {:induction false} RunFreshIff(reqs: seq<Request>)
    requires LastCommits(reqs)
    ensures var before, last := reqs[..|reqs| - 1], reqs[|reqs| - 1];
            AllActiveFresh(LedgerAfter(reqs), last.sessionId, last.artifact) <==>
            forall r :: Uncovered(LedgerAfter(before), last, r) ==> SeenUnchanged(LedgerAfter(before), r, last.artifact)
  {
    var before, last := reqs[..|reqs| - 1], reqs[|reqs| - 1];
    hide AllActiveFresh, Uncovered, SeenUnchanged, WellFormed, LedgerAfter, Commits, Recorded;
    LastIsRecorded(reqs);
    FreshAfterBuildIff(LedgerAfter(before), last);
  }

  /** ... and on an advancing clock iff every row that resurfaced is of the very manifest. */
  lemma {:induction false} RunFreshOnAdvancingClockIff(reqs: seq<Request>)
    requires ClockRuns(reqs) && LastCommits(reqs)
    ensures var before, last := reqs[..|reqs| - 1], reqs[|reqs| - 1];
            AllActiveFresh(LedgerAfter(reqs), last.sessionId, last.artifact) <==>
            forall r :: Resurfaces(LedgerAfter(before), last, r) ==> SameManifest(r, last.artifact)
  {
    var before, last := reqs[..|reqs| - 1], reqs[|reqs| - 1];
    hide AllActiveFresh, Resurfaces, SameManifest, ResentAreNewest, WellFormed, LedgerAfter, Commits, Recorded;
    LastIsRecorded(reqs);
    RunClockAdvances(reqs);
    AdvancingClockHidesNothing(LedgerAfter(before), last);
    FreshWhenNoneHiddenIff(LedgerAfter(before), last);
  }

  /**
    Freshness over runs, on any clock: every active item that was not uncovered is still true of the newest artifact.
  */
  lemma {:induction false} RunActiveItemsStillTrue(reqs: seq<Request>, r: SentRow)
    requires SectionsUnique(reqs) && LastCommits(reqs) && HonestManifests(reqs)
    requires r in ListActive(LedgerAfter(reqs), reqs[|reqs| - 1].sessionId)
    requires !Uncovered(LedgerAfter(reqs[..|reqs| - 1]), reqs[|reqs| - 1], r)
    ensures r.artifactId in Built(reqs) && StillTrue(r, Built(reqs)[r.artifactId], reqs[|reqs| - 1].artifact)
  {
    var before, last := reqs[..|reqs| - 1], reqs[|reqs| - 1];
    var l := LedgerAfter(before);
    RunWellFormed(before);
    RunWellFormed(reqs);
    RunRecordsArtifacts(reqs);
    BuiltHonestly(reqs);
    ActiveMembers(LedgerAfter(reqs), last.sessionId);
    SurvivingMembers(LedgerAfter(reqs), last.sessionId);
    assert !RowStale(LedgerAfter(reqs), r, last.artifact) by {
      ListedAfterBuild(l, last);
      CurrentMeansNoReset(l, last);
      ListedRowStaleness(l, last, r);
    }
    assert reqs[|reqs| - 1] == last && HonestManifestHash(last.artifact);
    NotStaleIsStillTrue(LedgerAfter(reqs), r, Built(reqs)[r.artifactId], last.artifact);
  }
}

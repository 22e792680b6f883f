/** When a row is still true of a new artifact, and when a build omits a section on its strength. */
module LedgerOmissions {
  import opened Common
  import opened LedgerTypes
  import opened Staleness
  import opened ContextDiff
  import opened SessionLedger
  import opened DurableBuild
  import opened LedgerInvariants
  import opened LedgerReconstruction
  import opened LedgerFreshness
  import opened LedgerRuns
  import opened LedgerAgentRuns

  // ----- the staleness rule, decided by the two artifacts -----

  /** Each of the refs is known to the artifact a row came from, and has the same hash in the current one. */
  predicate InputsUnchanged(origin: Artifact, current: Artifact, refs: seq<string>) {
    forall ref :: ref in refs ==>
      HashOf(origin.dependencies, ref).Some? && HashOf(origin.dependencies, ref) == HashOf(current.dependencies, ref)
  }

  /** The current artifact has the section, citing the same refs with the same hashes. */
  predicate SectionUnchanged(origin: Artifact, o: Section, current: Artifact) {
    exists s :: s in current.sections && s.id == o.id && SameStringSet(o.dependencyRefs, s.dependencyRefs) &&
      InputsUnchanged(origin, current, o.dependencyRefs)
  }

  lemma {:induction false} RefUnchangedIff(
    stored: seq<DependencyRow>, artifactId: string, origin: seq<Dependency>, current: seq<Dependency>, ref: string)
    requires StoredHashOf(stored, artifactId, ref) == HashOf(origin, ref)
    ensures RefUnchanged(ref, DependencyIndex(stored, artifactId), Index(current, DependencyId)) <==>
            HashOf(origin, ref).Some? && HashOf(origin, ref) == HashOf(current, ref)
  {
    hide DependencyIndex, Index;
  }

  lemma {:induction false} IndexedSection(a: Artifact, s: Section)
    requires UniqueSections(a.sections) && s in a.sections
    ensures s.id in Index(a.sections, SectionId) && Index(a.sections, SectionId)[s.id] == s
  {
    forall i, j | 0 <= i < j < |a.sections| ensures SectionId(a.sections[i]) != SectionId(a.sections[j]) {
    }
    IndexFinds(a.sections, SectionId, s);
  }

  lemma {:induction false} RecordedRefs(l: Ledger, r: SentRow, origin: Artifact, o: Section) returns (p: PackRow)
    requires WellFormed(l) && RecordsArtifact(l, r, origin) && UniqueSections(origin.sections)
    requires o in origin.sections && o.id == r.sectionId
    ensures p in l.packs && IsPackRowOf(p, r) && p.inputRefs == o.dependencyRefs && o.contentHash == r.contentHash
    ensures r.sentItemId in Index(l.packs, PackRowId) && Index(l.packs, PackRowId)[r.sentItemId] == p
  {
    var s :| s in origin.sections && s.id == r.sectionId && s.contentHash == r.contentHash &&
             exists p :: p in l.packs && IsPackRowOf(p, r) && p.inputRefs == s.dependencyRefs;
    SectionByIdUnique(origin.sections, s, o);
    p :| p in l.packs && IsPackRowOf(p, r) && p.inputRefs == s.dependencyRefs;
    PackRowFound(l.packs, p);
  }

  /**
    Both ways, in terms of the artifact a row was sent from and the current one: the row is not stale iff branch and
    commit are the same and either the manifests are or the section cites the same refs, each with the hash it had.
  */
  lemma {:induction false} StaleIffChanged(l: Ledger, r: SentRow, origin: Artifact, o: Section, current: Artifact)
    requires WellFormed(l) && r in l.sent && RecordsArtifact(l, r, origin) && UniqueSections(origin.sections)
    requires o in origin.sections && o.id == r.sectionId && UniqueSections(current.sections)
    ensures !RowStale(l, r, current) <==>
            origin.branch == current.branch && origin.commit == current.commit &&
            (origin.manifestHash == current.manifestHash || SectionUnchanged(origin, o, current))
  {
    var p := RecordedRefs(l, r, origin, o);
    var stored := ListDependencies(l, r.artifactId);
    forall ref ensures RefUnchanged(ref, DependencyIndex(stored, r.artifactId),
                                    Index(current.dependencies, DependencyId)) <==>
                       HashOf(origin.dependencies, ref).Some? &&
                       HashOf(origin.dependencies, ref) == HashOf(current.dependencies, ref)
    {
      assert StoredHashOf(stored, r.artifactId, ref) == HashOf(origin.dependencies, ref);
      RefUnchangedIff(stored, r.artifactId, origin.dependencies, current.dependencies, ref);
    }
    SectionFoundIff(current, o.id);
    hide RefUnchanged, DependencyIndex, Index, SameStringSet, WellFormed, HashOf, StoredHashOf, ListDependencies;
    hide UniqueSections, IsPackRowOf;
  }

  lemma {:induction false} SectionFoundIff(a: Artifact, id: string)
    requires UniqueSections(a.sections)
    ensures var sections := Index(a.sections, SectionId);
            && (id in sections <==> exists s :: s in a.sections && s.id == id)
            && (forall s :: s in a.sections && s.id == id ==> id in sections && sections[id] == s)
  {
    IndexFacts(a.sections, SectionId);
    forall s | s in a.sections && s.id == id ensures Index(a.sections, SectionId)[id] == s {
      IndexedSection(a, s);
    }
  }

  /** Over every run: a stored row is judged by the artifact it was sent from and the current one alone. */
  lemma {:induction false} RunStaleIff(reqs: seq<Request>, r: SentRow, o: Section, current: Artifact)
    requires SectionsUnique(reqs) && r in LedgerAfter(reqs).sent && UniqueSections(current.sections)
    requires r.artifactId in Built(reqs) && o in Built(reqs)[r.artifactId].sections && o.id == r.sectionId
    ensures var origin := Built(reqs)[r.artifactId];
            !RowStale(LedgerAfter(reqs), r, current) <==>
            origin.branch == current.branch && origin.commit == current.commit &&
            (origin.manifestHash == current.manifestHash || SectionUnchanged(origin, o, current))
  {
    hide RowStale, SectionUnchanged, WellFormed, RecordsArtifact, LedgerAfter, Built;
    RunWellFormed(reqs);
    RunRecordsArtifacts(reqs);
    BuiltUnique(reqs);
    StaleIffChanged(LedgerAfter(reqs), r, Built(reqs)[r.artifactId], o, current);
  }

  lemma {:induction false} BuiltUnique(reqs: seq<Request>)
    requires SectionsUnique(reqs)
    ensures forall a :: a in Built(reqs) ==> UniqueSections(Built(reqs)[a].sections)
    decreases |reqs|
  {
    hide UniqueSections, Commits, LedgerAfter;
    if reqs != [] {
      BuiltUnique(reqs[..|reqs| - 1]);
    }
  }

  // ----- when a section is omitted -----

  /** Sections cite only dependencies the artifact lists. */
  predicate RefsKnown(a: Artifact) {
    forall s, ref :: s in a.sections && ref in s.dependencyRefs ==> HashOf(a.dependencies, ref).Some?
  }

  /** Requests as the compiler makes them: hashes over what they name, and no unknown refs. */
  predicate Compiled(reqs: seq<Request>) {
    && SectionsUnique(reqs) && HonestManifests(reqs) && HonestContent(reqs)
    && forall i :: 0 <= i < |reqs| ==> RefsKnown(reqs[i].artifact)
  }

  predicate CompiledArtifact(a: Artifact) {
    && UniqueSections(a.sections) && HonestManifestHash(a) && RefsKnown(a)
    && forall s :: s in a.sections ==> HonestContentHash(s)
  }

  lemma {:induction false} BuiltCompiled(reqs: seq<Request>)
    requires Compiled(reqs)
    ensures forall a :: a in Built(reqs) ==> CompiledArtifact(Built(reqs)[a])
    decreases |reqs|
  {
    hide Commits, LedgerAfter, RefsKnown, UniqueSections, HonestManifestHash, HonestContentHash;
    if reqs != [] {
      var before, last := reqs[..|reqs| - 1], reqs[|reqs| - 1];
      assert forall i :: 0 <= i < |before| ==> before[i] == reqs[i];
      BuiltCompiled(before);
      assert reqs[|reqs| - 1] == last;
    }
  }

  /** A row sent from a place where nothing the section cites has changed since. */
  ghost predicate StillHolds(r: SentRow, origin: Artifact, s: Section, current: Artifact) {
    && r.sectionId == s.id && r.contentHash == s.contentHash
    && origin.branch == current.branch && origin.commit == current.commit
    && forall ref :: ref in s.dependencyRefs ==> HashOf(origin.dependencies, ref) == HashOf(current.dependencies, ref)
  }

  lemma {:induction false} SameContentSameRefs(o: Section, s: Section)
    requires HonestContentHash(o) && HonestContentHash(s) && o.contentHash == s.contentHash
    ensures o.id == s.id && o.dependencyRefs == s.dependencyRefs
  {
    var x, y := [o.id, o.title, o.body] + o.dependencyRefs, [s.id, s.title, s.body] + s.dependencyRefs;
    assert x == y && x[0] == o.id && y[0] == s.id && x[3..] == o.dependencyRefs && y[3..] == s.dependencyRefs;
  }

  /** Of a compiled section with the row's content: the row is not stale iff it still holds. */
  lemma {:induction false} FreshIffHolds(l: Ledger, r: SentRow, origin: Artifact, s: Section, current: Artifact)
    requires WellFormed(l) && r in l.sent && RecordsArtifact(l, r, origin)
    requires CompiledArtifact(origin) && CompiledArtifact(current) && s in current.sections
    requires r.sectionId == s.id && r.contentHash == s.contentHash
    ensures !RowStale(l, r, current) <==> StillHolds(r, origin, s, current)
  {
    var o :| o in origin.sections && o.id == r.sectionId && o.contentHash == r.contentHash &&
             exists p :: p in l.packs && IsPackRowOf(p, r) && p.inputRefs == o.dependencyRefs;
    SameContentSameRefs(o, s);
    StaleIffChanged(l, r, origin, o, current);
    forall t | t in current.sections && t.id == s.id ensures t == s {
      SectionByIdUnique(current.sections, t, s);
    }
    hide RowStale, WellFormed, RecordsArtifact, HashOf, UniqueSections, HonestContentHash;
    assert SameStringSet(o.dependencyRefs, s.dependencyRefs);
    if origin.manifestHash == current.manifestHash {
      assert origin.dependencies == current.dependencies;
    }
  }

  lemma {:induction false} OmittedIff(l: Ledger, req: Request, s: Section)
    requires WellFormed(l)
    ensures IsOmitted(s, Previous(l, req)) <==>
            !s.pinned && req.reset.None? &&
            exists r :: r in ListActive(l, req.sessionId) && r.sectionId == s.id && r.contentHash == s.contentHash &&
              !RowStale(l, r, req.artifact)
  {
    PreviousIsCurrentRow(l, req, s.id);
    StaleMembers(l, req);
    forall r | r in ListActive(l, req.sessionId)
      ensures r in CurrentPrior(l, req) <==> req.reset.None? && !RowStale(l, r, req.artifact)
    {
      ListedStaleness(l, req.sessionId, r, req.artifact);
    }
    hide RowStale, IsStale, WellFormed, ListActive, CurrentPrior, StalePrior, Previous;
    if IsOmitted(s, Previous(l, req)) {
      var r := OmittedHasCurrentRow(l, req, s);
    }
  }

  /**
    Over every run of compiled requests, on any clock: a section is omitted iff it is not pinned, the build is no reset,
    and a listed row of it has the same content, branch, commit and, ref by ref, the hashes of all it cites.
  */
  lemma {:induction false} RunOmitsIff(reqs: seq<Request>, s: Section)
    requires reqs != [] && Compiled(reqs) && s in reqs[|reqs| - 1].artifact.sections
    ensures var before, last := reqs[..|reqs| - 1], reqs[|reqs| - 1];
            IsOmitted(s, Previous(LedgerAfter(before), last)) <==>
            !s.pinned && last.reset.None? &&
            exists r :: r in ListActive(LedgerAfter(before), last.sessionId) && r.artifactId in Built(before) &&
              StillHolds(r, Built(before)[r.artifactId], s, last.artifact)
  {
    var before, last := reqs[..|reqs| - 1], reqs[|reqs| - 1];
    var l := LedgerAfter(before);
    RunWellFormed(before);
    CompiledPrefix(reqs);
    RunRecordsArtifacts(before);
    BuiltCompiled(before);
    OmittedIff(l, last, s);
    ActiveMembers(l, last.sessionId);
    SurvivingMembers(l, last.sessionId);
    hide WellFormed, RecordsArtifact, RowStale, IsOmitted, Previous, LedgerAfter, Built, ListActive, CompiledArtifact;
    forall r | r in ListActive(l, last.sessionId) && r.sectionId == s.id && r.contentHash == s.contentHash
      ensures !RowStale(l, r, last.artifact) <==> StillHolds(r, Built(before)[r.artifactId], s, last.artifact)
    {
      FreshIffHolds(l, r, Built(before)[r.artifactId], s, last.artifact);
    }
  }

  lemma {:induction false} CompiledPrefix(reqs: seq<Request>)
    requires reqs != [] && Compiled(reqs)
    ensures Compiled(reqs[..|reqs| - 1]) && CompiledArtifact(reqs[|reqs| - 1].artifact)
  {
    hide RefsKnown, UniqueSections, HonestManifestHash, HonestContentHash;
    var before := reqs[..|reqs| - 1];
    assert forall i :: 0 <= i < |before| ==> before[i] == reqs[i];
  }
}

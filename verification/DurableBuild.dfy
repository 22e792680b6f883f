/** One build of a session's context: read the ledger, invalidate, diff, record what was sent. */
module DurableBuild {
  import opened Common
  import opened Ordering
  import opened LedgerTypes
  import opened Staleness
  import opened ContextDiff
  import opened SessionLedger

  datatype Request = Request(sessionId: string, artifact: Artifact, now: nat, reset: Option<string>)

  datatype BuildError = SessionMismatch | ConstraintFailed

  datatype BuildOutput = BuildOutput(
    contextPackItems: seq<PackItem>, sentItems: seq<SentRow>, omittedItems: seq<OmittedRow>, unsafeOmissions: nat)

  function ToPriorItem(r: SentRow): PriorItem {
    PriorItem(r.sentItemId, r.sessionId, r.artifactId, r.sectionId, r.contentHash, r.pinned)
  }

  function InvalidationBody(previousItemId: string, reset: bool): string {
    if reset then
      "Previously sent context item " + previousItemId + " is invalid because the agent session was reset."
    else
      "Previously sent context item " + previousItemId + " is stale for this dependency manifest."
  }

  function CreateInvalidationPackItem(req: Request, previous: SentRow): PackItem {
    PackItem(
      req.sessionId + ":" + req.artifact.artifactId + ":invalidate:" + previous.sentItemId,
      req.artifact.artifactId, req.sessionId, previous.sectionId, InvalidatePrevious,
      "Invalidate previous context", InvalidationBody(previous.sentItemId, req.reset.Some?), previous.contentHash,
      Some(previous.sentItemId), None, None, false,
      ["previous_context_invalidated",
       if req.reset.Some? then "session_reset_forced_full_resend" else "dependency_manifest_changed"])
  }

  function RowsOfSection(rows: seq<SentRow>, sectionId: string): seq<SentRow> {
    Filter(rows, (r: SentRow) => r.sectionId == sectionId)
  }

  function LatestPriorSentItem(priorSentItems: seq<SentRow>, sectionId: string): Option<SentRow> {
    var sorted := Sort(RowsOfSection(priorSentItems, sectionId),
      (a: SentRow, b: SentRow) => a.lastSentAt < b.lastSentAt);
    if sorted == [] then None else Some(sorted[|sorted| - 1])
  }

  function ToSentRow(req: Request, item: PackItem, priorSentItems: seq<SentRow>): SentRow {
    var previous := LatestPriorSentItem(priorSentItems, item.sectionId);
    SentRow(
      item.itemId, req.sessionId, req.artifact.artifactId, item.sectionId, item.contentHash,
      req.artifact.branch, req.artifact.commit, req.artifact.manifestHash, item.pinned, item.state, req.reset,
      if previous.Some? then previous.value.firstSentAt else req.now, req.now,
      (if previous.Some? then previous.value.sendCount else 0) + 1)
  }

  function FindSection(sections: seq<Section>, sectionId: string): Option<Section> {
    if sections == [] then None
    else if sections[0].id == sectionId then Some(sections[0])
    else FindSection(sections[1..], sectionId)
  }

  function ToPackRow(req: Request, item: PackItem): PackRow {
    var section := FindSection(req.artifact.sections, item.sectionId);
    PackRow(
      item.itemId, req.sessionId, req.artifact.artifactId, item.sectionId, item.state, item.contentHash, item.pinned,
      if item.state.InvalidatePrevious? then item.previousItemId else None, item.restoreToken,
      if section.Some? then section.value.dependencyRefs else Map(req.artifact.dependencies, DependencyId))
  }

  function ToOmittedRow(req: Request, item: OmittedItem): OmittedRow {
    var section := FindSection(req.artifact.sections, item.sectionId);
    OmittedRow(
      "omitted:" + item.restoreToken, req.sessionId, req.artifact.artifactId, item.sectionId,
      if section.Some? then section.value.contentHash else ContentSha256([]), item.restoreToken, req.now)
  }

  function ToDependencyRow(artifactId: string, d: Dependency): DependencyRow {
    DependencyRow(StoredDependencyId(artifactId, d.id), artifactId, d.ref, d.hash)
  }

  function Prior(l: Ledger, req: Request): seq<SentRow> {
    ListActive(l, req.sessionId)
  }

  function Lister(l: Ledger): DependencyLister {
    artifactId => ListDependencies(l, artifactId)
  }

  function StalePrior(l: Ledger, req: Request): seq<SentRow> {
    StaleItems(Prior(l, req), ListActivePayloads(l, req.sessionId), req.artifact, Lister(l), req.reset.Some?)
  }

  function CurrentPrior(l: Ledger, req: Request): seq<SentRow> {
    CurrentItems(Prior(l, req), ListActivePayloads(l, req.sessionId), req.artifact, Lister(l), req.reset.Some?)
  }

  function Previous(l: Ledger, req: Request): map<string, PriorItem> {
    PreviousBySection(Map(CurrentPrior(l, req), ToPriorItem), req.sessionId)
  }

  function Invalidations(req: Request, stale: seq<SentRow>): seq<PackItem> {
    Map(stale, r => CreateInvalidationPackItem(req, r))
  }

  /** The context pack a build delivers: invalidations first, then the diff of the artifact. */
  function Pack(l: Ledger, req: Request): seq<PackItem> {
    Invalidations(req, StalePrior(l, req)) +
    PackFor(req.sessionId, req.artifact.artifactId, req.artifact.sections, Previous(l, req))
  }

  function NewSent(l: Ledger, req: Request): seq<SentRow> {
    Map(Filter(Pack(l, req), IsSentItem), item => ToSentRow(req, item, Prior(l, req)))
  }

  function NewPacks(l: Ledger, req: Request): seq<PackRow> {
    Map(Pack(l, req), item => ToPackRow(req, item))
  }

  function NewOmitted(l: Ledger, req: Request): seq<OmittedRow> {
    Map(OmittedFor(req.sessionId, req.artifact.artifactId, req.artifact.sections, Previous(l, req)),
        item => ToOmittedRow(req, item))
  }

  function NewDependencies(req: Request): seq<DependencyRow> {
    Map(req.artifact.dependencies, d => ToDependencyRow(req.artifact.artifactId, d))
  }

  function Recorded(l: Ledger, req: Request): Ledger {
    Ledger(
      l.artifacts + {req.artifact.artifactId}, l.dependencies + NewDependencies(req), l.sent + NewSent(l, req),
      l.packs + NewPacks(l, req), l.omitted + NewOmitted(l, req))
  }

  predicate KeysDistinct(l: Ledger) {
    && DistinctKeys(l.dependencies, DependencyRowId)
    && DistinctKeys(l.sent, SentRowId)
    && DistinctKeys(l.packs, PackRowId)
    && DistinctKeys(l.omitted, OmittedRowId)
  }

  /** The build commits exactly when the artifact matches the session and no primary key repeats. */
  predicate Commits(l: Ledger, req: Request) {
    && req.artifact.sessionId == req.sessionId
    && req.artifact.artifactId !in l.artifacts
    && KeysDistinct(Recorded(l, req))
  }

  function Next(l: Ledger, req: Request): Ledger {
    if Commits(l, req) then Recorded(l, req) else l
  }

  function Outcome(l: Ledger, req: Request): Result<BuildOutput, BuildError> {
    if Commits(l, req) then Ok(BuildOutput(Pack(l, req), NewSent(l, req), NewOmitted(l, req), 0))
    else if req.artifact.sessionId != req.sessionId then Err(SessionMismatch)
    else Err(ConstraintFailed)
  }

  /** The ledger database; every build is one transaction over it. */
  class LedgerStore {
    var artifacts: set<string>
    var dependencies: seq<DependencyRow>
    var sent: seq<SentRow>
    var packs: seq<PackRow>
    var omitted: seq<OmittedRow>

    function State(): Ledger
      reads this
    {
      Ledger(artifacts, dependencies, sent, packs, omitted)
    }

    constructor ()
      ensures State() == EmptyLedger
    {
      artifacts, dependencies, sent, packs, omitted := {}, [], [], [], [];
    }

    method PersistArtifact(artifact: Artifact) returns (ok: bool)
      requires DistinctKeys(dependencies, DependencyRowId)
      modifies this`artifacts, this`dependencies
      ensures var rows := old(dependencies) + Map(artifact.dependencies, d => ToDependencyRow(artifact.artifactId, d));
              ok <==> artifact.artifactId !in old(artifacts) && DistinctKeys(rows, DependencyRowId)
      ensures ok ==> artifacts == old(artifacts) + {artifact.artifactId}
      ensures ok ==>
                dependencies ==
                old(dependencies) + Map(artifact.dependencies, d => ToDependencyRow(artifact.artifactId, d))
    {
      if artifact.artifactId in artifacts {
        return false;
      }
      artifacts := artifacts + {artifact.artifactId};
      var rows := Map(artifact.dependencies, d => ToDependencyRow(artifact.artifactId, d));
      var grown := InsertAll(dependencies, rows, DependencyRowId);
      if grown.None? {
        return false;
      }
      dependencies := grown.value;
      return true;
    }

    method RecordRows(packRows: seq<PackRow>, sentRows: seq<SentRow>, omittedRows: seq<OmittedRow>) returns (ok: bool)
      requires DistinctKeys(packs, PackRowId) && DistinctKeys(sent, SentRowId) && DistinctKeys(omitted, OmittedRowId)
      modifies this`packs, this`sent, this`omitted
      ensures ok <==> DistinctKeys(old(packs) + packRows, PackRowId) &&
                      DistinctKeys(old(sent) + sentRows, SentRowId) &&
                      DistinctKeys(old(omitted) + omittedRows, OmittedRowId)
      ensures ok ==>
                packs == old(packs) + packRows && sent == old(sent) + sentRows &&
                omitted == old(omitted) + omittedRows
    {
      var newPacks := InsertAll(packs, packRows, PackRowId);
      if newPacks.None? { return false; }
      packs := newPacks.value;
      var newSent := InsertAll(sent, sentRows, SentRowId);
      if newSent.None? { return false; }
      sent := newSent.value;
      var newOmitted := InsertAll(omitted, omittedRows, OmittedRowId);
      if newOmitted.None? { return false; }
      omitted := newOmitted.value;
      return true;
    }

    /** Commits the whole build or leaves every table as it was. */
    method BuildDurableContext(req: Request) returns (r: Result<BuildOutput, BuildError>)
      requires KeysDistinct(State())
      modifies this
      ensures State() == Next(old(State()), req)
      ensures r == Outcome(old(State()), req)
      ensures KeysDistinct(State())
    {
      if req.artifact.sessionId != req.sessionId {
        return Err(SessionMismatch);
      }
      ghost var before := State();
      var savepoint := State();
      var priorSentItems := ListActive(savepoint, req.sessionId);
      var sentPackItems := ListActivePayloads(savepoint, req.sessionId);
      var current, stale := PartitionPriorContextByStaleness(
        priorSentItems, sentPackItems, req.artifact, Lister(savepoint), req.reset.Some?);
      var ok := PersistArtifact(req.artifact);
      var output := BuildOutput([], [], [], 0);
      if ok {
        var invalidationItems := Invalidations(req, stale);
        var diffItems, omittedDiff, unsafeOmissions := CreateInMemoryContextDiff(
          req.sessionId, req.artifact, Map(current, ToPriorItem));
        var contextPackItems := invalidationItems + diffItems;
        var sentItems := Map(Filter(contextPackItems, IsSentItem), item => ToSentRow(req, item, priorSentItems));
        var omittedItems := Map(omittedDiff, item => ToOmittedRow(req, item));
        assert contextPackItems == Pack(before, req);
        assert sentItems == NewSent(before, req);
        assert omittedItems == NewOmitted(before, req);
        ok := RecordRows(Map(contextPackItems, item => ToPackRow(req, item)), sentItems, omittedItems);
        output := BuildOutput(contextPackItems, sentItems, omittedItems, unsafeOmissions);
      }
      if ok {
        r := Ok(output);
      } else {
        artifacts, dependencies, sent := savepoint.artifacts, savepoint.dependencies, savepoint.sent;
        packs, omitted := savepoint.packs, savepoint.omitted;
        r := Err(ConstraintFailed);
      }
    }
  }
}

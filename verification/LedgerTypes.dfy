/** The values that travel through the session ledger: artifacts, pack items and stored rows. */
module LedgerTypes {
  import opened Common

  datatype DiffState = New | Changed | Pinned | OmitUnchanged | InvalidatePrevious | RestoreAvailable

  /** SHA-256 values, kept as what was hashed: equal hashes mean equal inputs. */
  datatype ContentHash = ContentSha256(parts: seq<string>)
  datatype ManifestHash = ManifestSha256(dependencies: seq<Dependency>, snapshotId: string, worktreeStateId: string)

  datatype Dependency = Dependency(id: string, ref: string, hash: string)

  datatype Section = Section(
    id: string, kind: string, title: string, body: string,
    dependencyRefs: seq<string>, contentHash: ContentHash, pinned: bool)

  datatype Artifact = Artifact(
    artifactId: string, sessionId: string, branch: string, commit: string,
    sections: seq<Section>, dependencies: seq<Dependency>, manifestHash: ManifestHash)

  datatype PackItem = PackItem(
    itemId: string, artifactId: string, sessionId: string, sectionId: string, state: DiffState,
    title: string, body: string, contentHash: ContentHash, previousItemId: Option<string>,
    restoreToken: Option<string>, safeOmissionReason: Option<string>, pinned: bool, warnings: seq<string>)

  datatype OmittedItem = OmittedItem(sessionId: string, artifactId: string, sectionId: string, restoreToken: string)

  datatype SentRow = SentRow(
    sentItemId: string, sessionId: string, artifactId: string, sectionId: string, contentHash: ContentHash,
    branch: string, commit: string, manifestHash: ManifestHash, pinned: bool, state: DiffState,
    resetId: Option<string>, firstSentAt: nat, lastSentAt: nat, sendCount: nat)

  datatype PackRow = PackRow(
    packItemId: string, sessionId: string, artifactId: string, sectionId: string, state: DiffState,
    contentHash: ContentHash, pinned: bool, invalidates: Option<string>, restoreId: Option<string>,
    inputRefs: seq<string>)

  datatype DependencyRow = DependencyRow(dependencyId: string, artifactId: string, ref: string, hash: string)

  datatype OmittedRow = OmittedRow(
    omittedItemId: string, sessionId: string, artifactId: string, sectionId: string,
    contentHash: ContentHash, restoreId: string, omittedAt: nat)

  predicate IsSentState(state: DiffState) {
    state.New? || state.Changed? || state.Pinned?
  }

  predicate UniqueSections(sections: seq<Section>) {
    forall i, j :: 0 <= i < j < |sections| ==> sections[i].id != sections[j].id
  }

  /** The compiler's content hash: over the id, title, body and dependency refs of the section. */
  predicate HonestContentHash(s: Section) {
    s.contentHash == ContentSha256([s.id, s.title, s.body] + s.dependencyRefs)
  }

  /** The compiler's manifest hash: over the whole dependency list. */
  predicate HonestManifestHash(a: Artifact) {
    a.manifestHash.dependencies == a.dependencies
  }

  function SectionId(s: Section): string { s.id }
  function PackRowId(p: PackRow): string { p.packItemId }
  function DependencyId(d: Dependency): string { d.id }
  function SentRowId(r: SentRow): string { r.sentItemId }
}

/**
  The part list behind `snapshotHash`. Unlike the worktree's, its parts carry no tags: which list a part belongs to has
  to be read off its last fields.
*/
module SnapshotFingerprint {
  import opened Common
  import opened ColonFields
  import opened StableParts
  import opened WorktreeFingerprint

  datatype Snapshot = Snapshot(repoId: string, rootPath: string, worktreeHash: string, worktree: Worktree)

  function DirtyText(d: DirtyPath): string {
    Colon(d.path, ScopeName(d.scope))
  }

  function FileText(f: FileHash): string {
    Colon(Colon(f.path, f.sha256), KindName(f.kind))
  }

  function ListParts(w: Worktree): seq<string> {
    Map(w.dirty, DirtyText) + (Map(w.files, FileText) + Map(w.rejected, RejectedFileHashPart))
  }

  function HeadParts(s: Snapshot): seq<string> {
    [s.repoId, s.rootPath, s.worktree.branch, s.worktree.commit, StatusName(s.worktree.status), s.worktreeHash]
  }

  function SnapshotParts(s: Snapshot): seq<string> {
    HeadParts(s) + ListParts(s.worktree)
  }

  /** Sizes are JavaScript's safe integers. */
  const SIZE_LIMIT: nat := 9007199254740992

  /** A digest has 64 hexadecimal digits, and no size has that many. */
  predicate FullHashes(w: Worktree) {
    && HexHashes(w)
    && (forall f :: f in w.files ==> |f.sha256| == 64)
    && (forall r :: r in w.rejected && MetadataOf(r).sizeBytes.Some? ==> MetadataOf(r).sizeBytes.value < SIZE_LIMIT)
  }

  predicate SameSnapshot(a: Snapshot, b: Snapshot) {
    a.repoId == b.repoId && a.rootPath == b.rootPath && a.worktreeHash == b.worktreeHash &&
      SameWorktree(a.worktree, b.worktree)
  }

  // ----- telling the three kinds of parts apart -----

  ghost predicate IsDirtyText(part: string) {
    exists path, scope :: part == Colon(path, ScopeName(scope))
  }

  /** The field before the last is as long as a digest. */
  ghost predicate IsFileText(part: string) {
    exists path, sha, kind :: |sha| == 64 && ColonFree(sha) && ColonFree(kind) && part == Colon(Colon(path, sha), kind)
  }

  lemma {:induction false} ScopeIsNoKind(scope: SourceScope, kind: SourceKind)
    ensures ScopeName(scope) != KindName(kind) && ScopeName(scope) != ""
  {
    assert ScopeName(scope)[1] != KindName(kind)[1] || ScopeName(scope)[0] != KindName(kind)[0];
  }

  lemma {:induction false} ScopeIsNoKindField(scope: SourceScope, m: Metadata)
    ensures ScopeName(scope) != KindField(m)
  {
    ScopeIsNoKind(scope, if m.kind.Some? then m.kind.value else SourceFile);
  }

  lemma {:induction false} EndsInScope(part: string, path: string, last: string)
    requires part == Colon(path, last) && ColonFree(last) && IsDirtyText(part)
    ensures exists scope :: last == ScopeName(scope)
  {
    hide Colon, ColonFree, ScopeName;
    var p, scope :| part == Colon(p, ScopeName(scope));
    ScopeAndKindColonFree(scope, SourceFile);
    LastField(path, last, p, ScopeName(scope));
  }

  lemma {:induction false} FileIsNotDirty(f: FileHash)
    ensures !IsDirtyText(FileText(f))
  {
    hide IsDirtyText, Colon, ColonFree, ScopeName, KindName;
    ScopeAndKindColonFree(Staged, f.kind);
    if IsDirtyText(FileText(f)) {
      EndsInScope(FileText(f), Colon(f.path, f.sha256), KindName(f.kind));
      var scope :| KindName(f.kind) == ScopeName(scope);
      ScopeIsNoKind(scope, f.kind);
    }
  }

  lemma {:induction false} RejectedIsNotDirty(r: Rejection)
    ensures !IsDirtyText(RejectedFileHashPart(r))
  {
    hide IsDirtyText, Colon, ColonFree, ScopeName, KindField, SizeField;
    var m := MetadataOf(r);
    KindFieldDecides(m, m);
    if IsDirtyText(RejectedFileHashPart(r)) {
      var before := Colon(Colon(Colon(Colon(r.path, ReasonName(r.reason)), PrivacyName(r.privacy)), ShaField(m)),
        SizeField(m));
      EndsInScope(RejectedFileHashPart(r), before, KindField(m));
      var scope :| KindField(m) == ScopeName(scope);
      ScopeIsNoKindField(scope, m);
    }
  }

  lemma {:induction false} RejectedIsNoFile(r: Rejection)
    requires MetadataOf(r).sizeBytes.Some? ==> MetadataOf(r).sizeBytes.value < SIZE_LIMIT
    ensures !IsFileText(RejectedFileHashPart(r))
  {
    hide Colon, ColonFree, KindField, SizeField, ShaField, ReasonName, PrivacyName;
    var m, part := MetadataOf(r), RejectedFileHashPart(r);
    var before := Colon(Colon(Colon(r.path, ReasonName(r.reason)), PrivacyName(r.privacy)), ShaField(m));
    KindFieldDecides(m, m);
    SizeFieldDecides(m, m);
    SizeFieldIsShort(m);
    if IsFileText(part) {
      var path, sha, kind :| |sha| == 64 && ColonFree(sha) && ColonFree(kind) && part == Colon(Colon(path, sha), kind);
      LastField(Colon(before, SizeField(m)), KindField(m), Colon(path, sha), kind);
      LastField(before, SizeField(m), path, sha);
    }
  }

  lemma {:induction false} SizeFieldIsShort(m: Metadata)
    requires m.sizeBytes.Some? ==> m.sizeBytes.value < SIZE_LIMIT
    ensures |SizeField(m)| < 64
  {
    if m.sizeBytes.Some? {
      assert Power10(4) == 10000;
      assert Power10(8) == 10000 * Power10(4);
      assert Power10(12) == 10000 * Power10(8);
      assert Power10(16) == 10000 * Power10(12);
      DecimalLength(m.sizeBytes.value, 16);
    }
  }

  function Power10(k: nat): nat {
    if k == 0 then 1 else 10 * Power10(k - 1)
  }

  lemma {:induction false} DecimalLength(n: nat, k: nat)
    requires k > 0 && n < Power10(k)
    ensures |Decimal(n)| <= k
    decreases k
  {
    if n >= 10 {
      assert k > 1;
      DecimalLength(n / 10, k - 1);
    }
  }

  // ----- nothing is lost -----

  lemma {:induction false} DirtyTextDecides(a: DirtyPath, b: DirtyPath)
    requires DirtyText(a) == DirtyText(b)
    ensures a == b
  {
    hide Colon, ColonFree, ScopeName;
    ScopeAndKindColonFree(a.scope, SourceFile);
    ScopeAndKindColonFree(b.scope, SourceFile);
    LastField(a.path, ScopeName(a.scope), b.path, ScopeName(b.scope));
    ScopeNameInjective(a.scope, b.scope);
  }

  lemma {:induction false} FileTextDecides(a: FileHash, b: FileHash)
    requires FileText(a) == FileText(b) && ColonFree(a.sha256) && ColonFree(b.sha256)
    ensures a == b
  {
    hide Colon, ColonFree, KindName;
    ScopeAndKindColonFree(Staged, a.kind);
    ScopeAndKindColonFree(Staged, b.kind);
    LastField(Colon(a.path, a.sha256), KindName(a.kind), Colon(b.path, b.sha256), KindName(b.kind));
    LastField(a.path, a.sha256, b.path, b.sha256);
    KindNameInjective(a.kind, b.kind);
  }

  lemma {:induction false} RejectedTextDecides(a: Rejection, b: Rejection)
    requires RejectedFileHashPart(a) == RejectedFileHashPart(b)
    requires ColonFree(ShaField(MetadataOf(a))) && ColonFree(ShaField(MetadataOf(b)))
    ensures SameRejection(a, b)
  {
    hide RejectedFileHashPart;
    RejectedPartDecides(a, b);
  }

  lemma {:induction false} KindsOfParts(w: Worktree)
    requires FullHashes(w)
    ensures forall p :: p in Map(w.dirty, DirtyText) ==> IsDirtyText(p)
    ensures forall p :: p in Map(w.files, FileText) ==> IsFileText(p) && !IsDirtyText(p)
    ensures forall p :: p in Map(w.rejected, RejectedFileHashPart) ==> !IsFileText(p) && !IsDirtyText(p)
  {
    forall p | p in Map(w.dirty, DirtyText) ensures IsDirtyText(p) {
      var i :| 0 <= i < |w.dirty| && DirtyText(w.dirty[i]) == p;
    }
    forall p | p in Map(w.files, FileText) ensures IsFileText(p) && !IsDirtyText(p) {
      var i :| 0 <= i < |w.files| && FileText(w.files[i]) == p;
      var f := w.files[i];
      assert f in w.files;
      FileIsNotDirty(f);
      ScopeAndKindColonFree(Staged, f.kind);
      assert p == Colon(Colon(f.path, f.sha256), KindName(f.kind));
    }
    forall p | p in Map(w.rejected, RejectedFileHashPart) ensures !IsFileText(p) && !IsDirtyText(p) {
      var i :| 0 <= i < |w.rejected| && RejectedFileHashPart(w.rejected[i]) == p;
      assert w.rejected[i] in w.rejected;
      RejectedIsNoFile(w.rejected[i]);
      RejectedIsNotDirty(w.rejected[i]);
    }
  }

  /** Without tags the lists can still be told apart. */
  lemma {:induction false} ListsSeparate(a: Worktree, b: Worktree)
    requires FullHashes(a) && FullHashes(b) && ListParts(a) == ListParts(b)
    ensures Map(a.dirty, DirtyText) == Map(b.dirty, DirtyText)
    ensures Map(a.files, FileText) == Map(b.files, FileText)
    ensures Map(a.rejected, RejectedFileHashPart) == Map(b.rejected, RejectedFileHashPart)
  {
    hide IsDirtyText, IsFileText, FullHashes, DirtyText, FileText, RejectedFileHashPart;
    KindsOfParts(a);
    KindsOfParts(b);
    var ad, af, ar := Map(a.dirty, DirtyText), Map(a.files, FileText), Map(a.rejected, RejectedFileHashPart);
    var bd, bf, br := Map(b.dirty, DirtyText), Map(b.files, FileText), Map(b.rejected, RejectedFileHashPart);
    FirstOfBoth(af, ar);
    FirstOfBoth(bf, br);
    Border(ad, af + ar, bd, bf + br, p => IsDirtyText(p));
    Border(af, ar, bf, br, p => IsFileText(p));
  }

  lemma {:induction false} FirstOfBoth(a: seq<string>, b: seq<string>)
    ensures a + b != [] ==> (a + b)[0] in a || (a + b)[0] in b
    ensures b != [] ==> b[0] in b
  {
  }

  lemma {:induction false} ListPartsDecide(a: Worktree, b: Worktree)
    requires FullHashes(a) && FullHashes(b) && ListParts(a) == ListParts(b)
    ensures a.dirty == b.dirty && a.files == b.files && |a.rejected| == |b.rejected|
    ensures forall i :: 0 <= i < |a.rejected| ==> SameRejection(a.rejected[i], b.rejected[i])
  {
    ListsSeparate(a, b);
    hide DirtyText, FileText, RejectedFileHashPart, SameRejection, ColonFree;
    forall i | 0 <= i < |a.dirty| && i < |b.dirty| && DirtyText(a.dirty[i]) == DirtyText(b.dirty[i])
      ensures a.dirty[i] == b.dirty[i]
    {
      DirtyTextDecides(a.dirty[i], b.dirty[i]);
    }
    MapInjective(a.dirty, b.dirty, DirtyText);
    forall i | 0 <= i < |a.files| && i < |b.files| && FileText(a.files[i]) == FileText(b.files[i])
      ensures a.files[i] == b.files[i]
    {
      assert a.files[i] in a.files && b.files[i] in b.files;
      FileTextDecides(a.files[i], b.files[i]);
    }
    MapInjective(a.files, b.files, FileText);
    assert |a.rejected| == |Map(a.rejected, RejectedFileHashPart)| == |b.rejected|;
    forall i | 0 <= i < |a.rejected| ensures SameRejection(a.rejected[i], b.rejected[i]) {
      assert Map(a.rejected, RejectedFileHashPart)[i] == Map(b.rejected, RejectedFileHashPart)[i];
      assert a.rejected[i] in a.rejected && b.rejected[i] in b.rejected;
      RejectedTextDecides(a.rejected[i], b.rejected[i]);
    }
  }

  lemma {:induction false} HeadsDecide(a: Snapshot, b: Snapshot)
    requires SnapshotParts(a) == SnapshotParts(b)
    ensures a.repoId == b.repoId && a.rootPath == b.rootPath && a.worktreeHash == b.worktreeHash
    ensures a.worktree.branch == b.worktree.branch && a.worktree.commit == b.worktree.commit
    ensures a.worktree.status == b.worktree.status && ListParts(a.worktree) == ListParts(b.worktree)
  {
    hide ListParts, StatusName;
    var p, q := SnapshotParts(a), SnapshotParts(b);
    assert p[..6] == HeadParts(a) && q[..6] == HeadParts(b);
    assert p[6..] == ListParts(a.worktree) && q[6..] == ListParts(b.worktree);
    var h, k := HeadParts(a), HeadParts(b);
    assert h[0] == k[0] && h[1] == k[1] && h[2] == k[2] && h[3] == k[3] && h[4] == k[4] && h[5] == k[5];
    StatusNameInjective(a.worktree.status, b.worktree.status);
  }

  lemma {:induction false} SameSnapshotSameParts(a: Snapshot, b: Snapshot)
    requires SameSnapshot(a, b)
    ensures SnapshotParts(a) == SnapshotParts(b)
  {
    hide StatusName, DirtyText, FileText;
    forall i | 0 <= i < |a.worktree.rejected|
      ensures RejectedFileHashPart(a.worktree.rejected[i]) == RejectedFileHashPart(b.worktree.rejected[i])
    {
      assert SameRejection(a.worktree.rejected[i], b.worktree.rejected[i]);
    }
    assert Map(a.worktree.rejected, RejectedFileHashPart) == Map(b.worktree.rejected, RejectedFileHashPart);
  }

  /** The untagged text is as good as the tagged one: equal exactly for the same snapshot. */
  lemma {:induction false} SnapshotFingerprintIff(a: Snapshot, b: Snapshot)
    requires FullHashes(a.worktree) && FullHashes(b.worktree)
    ensures EncodeParts(SnapshotParts(a)) == EncodeParts(SnapshotParts(b)) <==> SameSnapshot(a, b)
  {
    hide FullHashes, EncodeParts, SnapshotParts, ListParts, SameRejection;
    if EncodeParts(SnapshotParts(a)) == EncodeParts(SnapshotParts(b)) {
      EncodePartsInjective(SnapshotParts(a), SnapshotParts(b));
      HeadsDecide(a, b);
      ListPartsDecide(a.worktree, b.worktree);
    }
    if SameSnapshot(a, b) {
      SameSnapshotSameParts(a, b);
    }
  }

  /** With digests of any length a file and a rejected file could be taken for each other. */
  lemma {:induction false} ShortHashConfuses(sha: string, size: nat, f: FileHash, r: Rejection)
    requires f == FileHash(Colon(Colon(Colon("p", "too_large"), "allowed"), sha), Decimal(size), SourceFile)
    requires r == Rejection("p", TooLarge, Allowed, Some(Metadata(Some(sha), Some(size), Some(SourceFile))))
    ensures FileText(f) == RejectedFileHashPart(r)
  {
    hide Colon;
  }
}

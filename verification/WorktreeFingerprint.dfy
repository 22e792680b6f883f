/** The part list behind `worktreeHash`: nothing it is built from is lost, even when paths contain colons. */
module WorktreeFingerprint {
  import opened Common
  import opened ColonFields
  import opened StableParts

  datatype WorktreeStatus = Clean | Dirty | UnknownStatus
  datatype SourceScope = Staged | Unstaged | Untracked
  datatype SourceKind = SourceFile | TestFile | RuleFile | ConfigFile | PackageFile | DocFile
  datatype RejectionReason = GitIgnored | PrivacyIgnored | GrapeRuntime | Unreadable | TooLarge | Binary
  datatype PrivacyStatus = Allowed | Ignored | Private

  datatype DirtyPath = DirtyPath(path: string, scope: SourceScope)
  datatype FileHash = FileHash(path: string, sha256: string, kind: SourceKind)
  datatype Metadata = Metadata(sha256: Option<string>, sizeBytes: Option<nat>, kind: Option<SourceKind>)
  datatype Rejection = Rejection(path: string, reason: RejectionReason, privacy: PrivacyStatus,
    metadata: Option<Metadata>)

  datatype Worktree = Worktree(
    branch: string, commit: string, status: WorktreeStatus,
    dirty: seq<DirtyPath>, files: seq<FileHash>, rejected: seq<Rejection>)

  function StatusName(s: WorktreeStatus): string {
    match s case Clean => "clean" case Dirty => "dirty" case UnknownStatus => "unknown"
  }

  function ScopeName(s: SourceScope): string {
    match s case Staged => "staged" case Unstaged => "unstaged" case Untracked => "untracked"
  }

  function KindName(k: SourceKind): string {
    match k
    case SourceFile => "source" case TestFile => "test" case RuleFile => "rule"
    case ConfigFile => "config" case PackageFile => "package" case DocFile => "doc"
  }

  function ReasonName(r: RejectionReason): string {
    match r
    case GitIgnored => "git_ignored" case PrivacyIgnored => "privacy_ignored" case GrapeRuntime => "grape_runtime"
    case Unreadable => "unreadable" case TooLarge => "too_large" case Binary => "binary"
  }

  function PrivacyName(p: PrivacyStatus): string {
    match p case Allowed => "allowed" case Ignored => "ignored" case Private => "private"
  }

  function MetadataOf(r: Rejection): Metadata {
    if r.metadata.Some? then r.metadata.value else Metadata(None, None, None)
  }

  function ShaField(m: Metadata): string { if m.sha256.Some? then m.sha256.value else "" }
  function SizeField(m: Metadata): string { if m.sizeBytes.Some? then Decimal(m.sizeBytes.value) else "" }
  function KindField(m: Metadata): string { if m.kind.Some? then KindName(m.kind.value) else "" }

  function DirtyPart(d: DirtyPath): string {
    Colon(Colon("dirty", d.path), ScopeName(d.scope))
  }

  function FilePart(f: FileHash): string {
    Colon(Colon(Colon("file", f.path), f.sha256), KindName(f.kind))
  }

  function RejectedFileHashPart(r: Rejection): string {
    var m := MetadataOf(r);
    Colon(Colon(Colon(Colon(Colon(r.path, ReasonName(r.reason)), PrivacyName(r.privacy)), ShaField(m)), SizeField(m)),
      KindField(m))
  }

  function RejectedPart(r: Rejection): string {
    Colon("rejected", RejectedFileHashPart(r))
  }

  function WorktreeParts(w: Worktree): seq<string> {
    [w.branch, w.commit, StatusName(w.status)] + TaggedParts(w)
  }

  function TaggedParts(w: Worktree): seq<string> {
    Map(w.dirty, DirtyPart) + (Map(w.files, FilePart) + Map(w.rejected, RejectedPart))
  }

  /** Content hashes are hexadecimal text: no colon in them. */
  predicate HexHashes(w: Worktree) {
    && (forall f :: f in w.files ==> ColonFree(f.sha256))
    && (forall r :: r in w.rejected ==> ColonFree(ShaField(MetadataOf(r))))
  }

  /** Equal but for absent metadata counting as empty. */
  predicate SameRejection(a: Rejection, b: Rejection) {
    && a.path == b.path && a.reason == b.reason && a.privacy == b.privacy
    && ShaField(MetadataOf(a)) == ShaField(MetadataOf(b))
    && MetadataOf(a).sizeBytes == MetadataOf(b).sizeBytes && MetadataOf(a).kind == MetadataOf(b).kind
  }

  predicate SameWorktree(a: Worktree, b: Worktree) {
    && a.branch == b.branch && a.commit == b.commit && a.status == b.status
    && a.dirty == b.dirty && a.files == b.files && |a.rejected| == |b.rejected|
    && forall i :: 0 <= i < |a.rejected| ==> SameRejection(a.rejected[i], b.rejected[i])
  }

  lemma {:induction false} AfterTag(tag: string, a: string, b: string)
    requires Colon(tag, a) == Colon(tag, b)
    ensures a == b
  {
    assert Colon(tag, a)[|tag| + 1..] == a && Colon(tag, b)[|tag| + 1..] == b;
  }

  lemma {:induction false} ScopeAndKindColonFree(s: SourceScope, k: SourceKind)
    ensures ColonFree(ScopeName(s)) && ColonFree(KindName(k))
  {
  }

  lemma {:induction false} ReasonAndPrivacyColonFree(r: RejectionReason, p: PrivacyStatus)
    ensures ColonFree(ReasonName(r)) && ColonFree(PrivacyName(p))
  {
  }

  lemma {:induction false} ScopeNameInjective(a: SourceScope, b: SourceScope)
    requires ScopeName(a) == ScopeName(b)
    ensures a == b
  {
    assert |"staged"| == 6 && |"unstaged"| == 8 && |"untracked"| == 9;
  }

  lemma {:induction false} KindNameInjective(a: SourceKind, b: SourceKind)
    requires KindName(a) == KindName(b)
    ensures a == b
  {
    assert KindName(a)[0] == KindName(b)[0];
  }

  lemma {:induction false} ReasonNameInjective(a: RejectionReason, b: RejectionReason)
    requires ReasonName(a) == ReasonName(b)
    ensures a == b
  {
    assert ReasonName(a)[0] == ReasonName(b)[0] && ReasonName(a)[1] == ReasonName(b)[1];
  }

  lemma {:induction false} PrivacyNameInjective(a: PrivacyStatus, b: PrivacyStatus)
    requires PrivacyName(a) == PrivacyName(b)
    ensures a == b
  {
    assert PrivacyName(a)[0] == PrivacyName(b)[0];
  }

  lemma {:induction false} StatusNameInjective(a: WorktreeStatus, b: WorktreeStatus)
    requires StatusName(a) == StatusName(b)
    ensures a == b
  {
    assert StatusName(a)[0] == StatusName(b)[0];
  }

  lemma {:induction false} DirtyPartInjective(a: DirtyPath, b: DirtyPath)
    requires DirtyPart(a) == DirtyPart(b)
    ensures a == b
  {
    ScopeAndKindColonFree(a.scope, SourceFile);
    ScopeAndKindColonFree(b.scope, SourceFile);
    LastField(Colon("dirty", a.path), ScopeName(a.scope), Colon("dirty", b.path), ScopeName(b.scope));
    AfterTag("dirty", a.path, b.path);
    ScopeNameInjective(a.scope, b.scope);
  }

  lemma {:induction false} FilePartInjective(a: FileHash, b: FileHash)
    requires FilePart(a) == FilePart(b) && ColonFree(a.sha256) && ColonFree(b.sha256)
    ensures a == b
  {
    ScopeAndKindColonFree(Staged, a.kind);
    ScopeAndKindColonFree(Staged, b.kind);
    LastField(Colon(Colon("file", a.path), a.sha256), KindName(a.kind), Colon(Colon("file", b.path), b.sha256),
      KindName(b.kind));
    LastField(Colon("file", a.path), a.sha256, Colon("file", b.path), b.sha256);
    AfterTag("file", a.path, b.path);
    KindNameInjective(a.kind, b.kind);
  }

  lemma {:induction false} SizeFieldDecides(a: Metadata, b: Metadata)
    ensures ColonFree(SizeField(a))
    ensures SizeField(a) == SizeField(b) ==> a.sizeBytes == b.sizeBytes
  {
    if SizeField(a) == SizeField(b) && a.sizeBytes.Some? && b.sizeBytes.Some? {
      DecimalInjective(a.sizeBytes.value, b.sizeBytes.value);
    }
  }

  lemma {:induction false} KindFieldDecides(a: Metadata, b: Metadata)
    ensures ColonFree(KindField(a))
    ensures KindField(a) == KindField(b) ==> a.kind == b.kind
  {
    if a.kind.Some? {
      ScopeAndKindColonFree(Staged, a.kind.value);
      assert KindName(a.kind.value) != "";
    }
    if b.kind.Some? {
      assert KindName(b.kind.value) != "";
    }
    if KindField(a) == KindField(b) && a.kind.Some? && b.kind.Some? {
      KindNameInjective(a.kind.value, b.kind.value);
    }
  }

  lemma {:induction false} RejectedPartDecides(a: Rejection, b: Rejection)
    requires RejectedPart(a) == RejectedPart(b)
    requires ColonFree(ShaField(MetadataOf(a))) && ColonFree(ShaField(MetadataOf(b)))
    ensures SameRejection(a, b)
  {
    hide Colon, ColonFree, ReasonName, PrivacyName, SizeField, KindField, ShaField;
    var m, n := MetadataOf(a), MetadataOf(b);
    AfterTag("rejected", RejectedFileHashPart(a), RejectedFileHashPart(b));
    SizeFieldDecides(m, n);
    SizeFieldDecides(n, m);
    KindFieldDecides(m, n);
    KindFieldDecides(n, m);
    ReasonAndPrivacyColonFree(a.reason, a.privacy);
    ReasonAndPrivacyColonFree(b.reason, b.privacy);
    var a1, b1 := Colon(a.path, ReasonName(a.reason)), Colon(b.path, ReasonName(b.reason));
    var a2, b2 := Colon(a1, PrivacyName(a.privacy)), Colon(b1, PrivacyName(b.privacy));
    var a3, b3 := Colon(a2, ShaField(m)), Colon(b2, ShaField(n));
    var a4, b4 := Colon(a3, SizeField(m)), Colon(b3, SizeField(n));
    LastField(a4, KindField(m), b4, KindField(n));
    LastField(a3, SizeField(m), b3, SizeField(n));
    LastField(a2, ShaField(m), b2, ShaField(n));
    LastField(a1, PrivacyName(a.privacy), b1, PrivacyName(b.privacy));
    LastField(a.path, ReasonName(a.reason), b.path, ReasonName(b.reason));
    PrivacyNameInjective(a.privacy, b.privacy);
    ReasonNameInjective(a.reason, b.reason);
  }

  predicate AllTagged(parts: seq<string>, c: char) {
    forall p :: p in parts ==> p != "" && p[0] == c
  }

  predicate NoneTagged(parts: seq<string>, c: char) {
    forall p :: p in parts ==> p != "" && p[0] != c
  }

  /** Parts with one tag in front of parts without it: the border is where the tag ends. */
  lemma {:induction false} TagSeparates(a: seq<string>, x: seq<string>, b: seq<string>, y: seq<string>, c: char)
    requires a + x == b + y && AllTagged(a, c) && AllTagged(b, c) && NoneTagged(x, c) && NoneTagged(y, c)
    ensures a == b && x == y
  {
    Border(a, x, b, y, part => part != "" && part[0] == c);
  }

  lemma {:induction false} Tags(w: Worktree)
    ensures AllTagged(Map(w.dirty, DirtyPart), 'd')
    ensures AllTagged(Map(w.files, FilePart), 'f')
    ensures NoneTagged(Map(w.files, FilePart) + Map(w.rejected, RejectedPart), 'd')
    ensures NoneTagged(Map(w.rejected, RejectedPart), 'f')
  {
    forall p | p in Map(w.dirty, DirtyPart) ensures p != "" && p[0] == 'd' {
    }
    forall p | p in Map(w.files, FilePart) ensures p != "" && p[0] == 'f' {
    }
    forall p | p in Map(w.rejected, RejectedPart) ensures p != "" && p[0] == 'r' {
    }
  }

  lemma {:induction false} MapInjective<T>(a: seq<T>, b: seq<T>, f: T -> string)
    requires Map(a, f) == Map(b, f)
    requires forall i :: 0 <= i < |a| && i < |b| && f(a[i]) == f(b[i]) ==> a[i] == b[i]
    ensures a == b
  {
    assert |a| == |Map(a, f)| == |b|;
    forall i | 0 <= i < |a| ensures a[i] == b[i] {
      assert Map(a, f)[i] == f(a[i]) && Map(b, f)[i] == f(b[i]);
    }
  }

  lemma {:induction false} FirstThree<T>(a0: T, a1: T, a2: T, a: seq<T>, b0: T, b1: T, b2: T, b: seq<T>)
    requires [a0, a1, a2] + a == [b0, b1, b2] + b
    ensures a0 == b0 && a1 == b1 && a2 == b2 && a == b
  {
    var p, q := [a0, a1, a2] + a, [b0, b1, b2] + b;
    assert p[0] == q[0] && p[1] == q[1] && p[2] == q[2] && p[3..] == a && q[3..] == b;
  }

  lemma {:induction false} SplitParts(a: Worktree, b: Worktree)
    requires WorktreeParts(a) == WorktreeParts(b)
    ensures a.branch == b.branch && a.commit == b.commit && StatusName(a.status) == StatusName(b.status)
    ensures Map(a.dirty, DirtyPart) == Map(b.dirty, DirtyPart)
    ensures Map(a.files, FilePart) == Map(b.files, FilePart)
    ensures Map(a.rejected, RejectedPart) == Map(b.rejected, RejectedPart)
  {
    hide DirtyPart, FilePart, RejectedPart, StatusName;
    FirstThree(a.branch, a.commit, StatusName(a.status), TaggedParts(a), b.branch, b.commit, StatusName(b.status),
      TaggedParts(b));
    Tags(a);
    Tags(b);
    var af, ar, bf, br :=
      Map(a.files, FilePart), Map(a.rejected, RejectedPart), Map(b.files, FilePart), Map(b.rejected, RejectedPart);
    TagSeparates(Map(a.dirty, DirtyPart), af + ar, Map(b.dirty, DirtyPart), bf + br, 'd');
    TagSeparates(af, ar, bf, br, 'f');
  }

  /** Equal part lists mean the same worktree. */
  lemma {:induction false} PartsDecideWorktree(a: Worktree, b: Worktree)
    requires HexHashes(a) && HexHashes(b) && WorktreeParts(a) == WorktreeParts(b)
    ensures SameWorktree(a, b)
  {
    SplitParts(a, b);
    StatusNameInjective(a.status, b.status);
    forall i | 0 <= i < |a.dirty| && i < |b.dirty| && DirtyPart(a.dirty[i]) == DirtyPart(b.dirty[i])
      ensures a.dirty[i] == b.dirty[i]
    {
      DirtyPartInjective(a.dirty[i], b.dirty[i]);
    }
    MapInjective(a.dirty, b.dirty, DirtyPart);
    forall i | 0 <= i < |a.files| && i < |b.files| && FilePart(a.files[i]) == FilePart(b.files[i])
      ensures a.files[i] == b.files[i]
    {
      assert a.files[i] in a.files && b.files[i] in b.files;
      FilePartInjective(a.files[i], b.files[i]);
    }
    MapInjective(a.files, b.files, FilePart);
    assert |a.rejected| == |Map(a.rejected, RejectedPart)| == |b.rejected|;
    forall i | 0 <= i < |a.rejected| ensures SameRejection(a.rejected[i], b.rejected[i]) {
      assert Map(a.rejected, RejectedPart)[i] == Map(b.rejected, RejectedPart)[i];
      assert a.rejected[i] in a.rejected && b.rejected[i] in b.rejected;
      RejectedPartDecides(a.rejected[i], b.rejected[i]);
    }
  }

  lemma {:induction false} SameWorktreeSameParts(a: Worktree, b: Worktree)
    requires SameWorktree(a, b)
    ensures WorktreeParts(a) == WorktreeParts(b)
  {
    hide DirtyPart, FilePart, StatusName;
    forall i | 0 <= i < |a.rejected| ensures RejectedPart(a.rejected[i]) == RejectedPart(b.rejected[i]) {
      assert SameRejection(a.rejected[i], b.rejected[i]);
    }
    assert Map(a.rejected, RejectedPart) == Map(b.rejected, RejectedPart);
  }

  /** The fingerprint loses nothing: the hashed texts agree exactly for the same worktree. */
  lemma {:induction false} FingerprintIff(a: Worktree, b: Worktree)
    requires HexHashes(a) && HexHashes(b)
    ensures EncodeParts(WorktreeParts(a)) == EncodeParts(WorktreeParts(b)) <==> SameWorktree(a, b)
  {
    hide HexHashes, EncodeParts, WorktreeParts, SameWorktree;
    if EncodeParts(WorktreeParts(a)) == EncodeParts(WorktreeParts(b)) {
      EncodePartsInjective(WorktreeParts(a), WorktreeParts(b));
      PartsDecideWorktree(a, b);
    }
    if SameWorktree(a, b) {
      SameWorktreeSameParts(a, b);
    }
  }

  /** With a colon in the hash field the border between path and hash is lost. */
  lemma {:induction false} ColonInHashConfuses()
    ensures var a, b := FileHash("p:q", "r", SourceFile), FileHash("p", "q:r", SourceFile);
            a != b && FilePart(a) == FilePart(b)
  {
    assert "p" != "p:q" by { assert |"p"| != |"p:q"|; }
    assert Colon(Colon("file", "p:q"), "r") == Colon(Colon("file", "p"), "q:r");
  }
}

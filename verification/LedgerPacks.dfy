/** What the context pack and the rows of a build say of each section, field by field. */
module LedgerPacks {
  import opened Common
  import opened LedgerTypes
  import opened ContextDiff
  import opened SessionLedger
  import opened DurableBuild
  import opened LedgerInvariants
  import opened LedgerReconstruction
  import opened LedgerHistory
  import opened Ordering
  import opened LedgerRuns
  import opened LedgerCommits

  /** The items of a section in a pack, invalidations aside. */
  function ItemsFor(pack: seq<PackItem>, sectionId: string): seq<PackItem> {
    Filter(pack, OfSection(sectionId))
  }

  function OfSection(sectionId: string): PackItem -> bool {
    (item: PackItem) => item.sectionId == sectionId && !item.state.InvalidatePrevious?
  }

  /** The row a build compares a section with. */
  ghost predicate ComparedWith(l: Ledger, req: Request, s: Section, row: Option<SentRow>) {
    match row
    case Some(r) => r in CurrentPrior(l, req) && r.sectionId == s.id
    case None => forall r :: r in CurrentPrior(l, req) ==> r.sectionId != s.id
  }

  /** The parts every item of a section has: its ids, title, hash and pin. */
  predicate ItemOf(item: PackItem, req: Request, s: Section) {
    && item.sessionId == req.sessionId && item.artifactId == req.artifact.artifactId && item.sectionId == s.id
    && item.itemId == req.sessionId + ":" + req.artifact.artifactId + ":" + s.id + ":" + StateName(item.state)
    && item.title == s.title && item.contentHash == s.contentHash && item.pinned == s.pinned && item.warnings == []
  }

  /** Sends the section: its body, and nothing to restore. */
  predicate Carries(item: PackItem, req: Request, s: Section, previous: Option<string>) {
    && ItemOf(item, req, s) && item.body == s.body && item.previousItemId == previous
    && item.restoreToken == None && item.safeOmissionReason == None
  }

  /** Withholds the section: no body, and the token to ask for it with. */
  predicate Withholds(item: PackItem, req: Request, s: Section, previous: string) {
    && ItemOf(item, req, s) && item.body == "" && item.previousItemId == Some(previous)
    && item.restoreToken == Some("restore:" + req.sessionId + ":" + req.artifact.artifactId + ":" + s.id)
    && item.safeOmissionReason == Some("unchanged_restorable")
  }

  /** What the items of a section have to be, given the row it is compared with. */
  predicate Told(items: seq<PackItem>, req: Request, s: Section, row: Option<SentRow>) {
    if !s.pinned && row.Some? && row.value.contentHash == s.contentHash then
      && |items| == 2 && items[0].state == OmitUnchanged && items[1].state == RestoreAvailable
      && Withholds(items[0], req, s, row.value.sentItemId) && Withholds(items[1], req, s, row.value.sentItemId)
    else
      && |items| == 1
      && items[0].state == (if s.pinned then Pinned else if row.None? then New else Changed)
      && Carries(items[0], req, s, if row.None? then None else Some(row.value.sentItemId))
  }

  lemma {:induction false} RowComparedWith(l: Ledger, req: Request, s: Section, row: Option<SentRow>)
    requires WellFormed(l) && ComparedWith(l, req, s, row)
    ensures PreviousFor(s, Previous(l, req)) == if row.None? then None else Some(ToPriorItem(row.value))
  {
    PreviousIsCurrentRow(l, req, s.id);
  }

  lemma {:induction false} ItemSays(req: Request, s: Section, state: DiffState, previous: Option<PriorItem>)
    ensures var item := CreatePackItem(req.sessionId, req.artifact.artifactId, s, state, previous);
            && item.state == state
            && (state.OmitUnchanged? || state.RestoreAvailable? ==>
                  previous.Some? ==> Withholds(item, req, s, previous.value.itemId))
            && (!state.OmitUnchanged? && !state.RestoreAvailable? ==>
                  Carries(item, req, s, if previous.Some? then Some(previous.value.itemId) else None))
  {
    hide StateName;
  }

  lemma {:induction false} SectionIsTold(l: Ledger, req: Request, s: Section, row: Option<SentRow>)
    requires WellFormed(l) && ComparedWith(l, req, s, row)
    ensures Told(SectionItems(req.sessionId, req.artifact.artifactId, s, Previous(l, req)), req, s, row)
  {
    RowComparedWith(l, req, s, row);
    hide Previous, ComparedWith, CreatePackItem, Carries, Withholds, WellFormed;
    var previous := PreviousFor(s, Previous(l, req));
    ItemSays(req, s, OmitUnchanged, previous);
    ItemSays(req, s, RestoreAvailable, previous);
    ItemSays(req, s, Classify(s, previous), previous);
  }

  lemma {:induction false} SectionItemsAreItsOwn(
    sessionId: string, artifactId: string, s: Section, previous: map<string, PriorItem>, sectionId: string)
    ensures Filter(SectionItems(sessionId, artifactId, s, previous), OfSection(sectionId)) ==
            if s.id == sectionId then SectionItems(sessionId, artifactId, s, previous) else []
  {
    hide ItemId, RestoreToken;
    var items := SectionItems(sessionId, artifactId, s, previous);
    if s.id == sectionId {
      FilterKeepsAll(items, OfSection(sectionId));
    } else {
      FilterKeepsNone(items, OfSection(sectionId));
    }
  }

  lemma {:induction false} NoItemsFor(
    sessionId: string, artifactId: string, sections: seq<Section>, previous: map<string, PriorItem>, id: string)
    requires forall x :: x in sections ==> x.id != id
    ensures ItemsFor(PackFor(sessionId, artifactId, sections, previous), id) == []
    decreases |sections|
  {
    hide SectionItems;
    if sections != [] {
      NoItemsFor(sessionId, artifactId, sections[..|sections| - 1], previous, id);
      ItemsForSnoc(sessionId, artifactId, sections, previous, id);
    }
  }

  lemma {:induction false} ItemsForSnoc(
    sessionId: string, artifactId: string, sections: seq<Section>, previous: map<string, PriorItem>, id: string)
    requires sections != []
    ensures var init, last := sections[..|sections| - 1], sections[|sections| - 1];
            ItemsFor(PackFor(sessionId, artifactId, sections, previous), id) ==
            ItemsFor(PackFor(sessionId, artifactId, init, previous), id) +
            if last.id == id then SectionItems(sessionId, artifactId, last, previous) else []
  {
    hide SectionItems;
    var init, last := sections[..|sections| - 1], sections[|sections| - 1];
    SectionItemsAreItsOwn(sessionId, artifactId, last, previous, id);
    FilterConcat(PackFor(sessionId, artifactId, init, previous), SectionItems(sessionId, artifactId, last, previous),
                 OfSection(id));
  }

  lemma {:induction false} DiffItemsFor(
    sessionId: string, artifactId: string, sections: seq<Section>, previous: map<string, PriorItem>, s: Section)
    requires UniqueSections(sections) && s in sections
    ensures ItemsFor(PackFor(sessionId, artifactId, sections, previous), s.id) ==
              SectionItems(sessionId, artifactId, s, previous)
    decreases |sections|
  {
    hide SectionItems, PackFor, ItemsFor;
    var init, last := sections[..|sections| - 1], sections[|sections| - 1];
    SplitLast(sections);
    ItemsForSnoc(sessionId, artifactId, sections, previous, s.id);
    if last.id == s.id {
      SectionByIdUnique(sections, s, last);
      forall x | x in init ensures x.id != last.id {
        var i :| 0 <= i < |init| && init[i] == x;
        assert sections[i] == x;
      }
      NoItemsFor(sessionId, artifactId, init, previous, s.id);
    } else {
      DiffItemsFor(sessionId, artifactId, init, previous, s);
    }
  }

  /** For every section of a build: its items in the context pack are exactly these, and say exactly this. */
  lemma {:induction false} PackTellsSection(l: Ledger, req: Request, s: Section, row: Option<SentRow>)
    requires WellFormed(l) && UniqueSections(req.artifact.sections) && s in req.artifact.sections
    requires ComparedWith(l, req, s, row)
    ensures Told(ItemsFor(Pack(l, req), s.id), req, s, row)
  {
    hide StalePrior, Previous, PackFor, ComparedWith, WellFormed, SectionItems, Told, InvalidationBody;
    var a, sections := req.artifact.artifactId, req.artifact.sections;
    var invalidations := Invalidations(req, StalePrior(l, req));
    FilterConcat(invalidations, PackFor(req.sessionId, a, sections, Previous(l, req)), OfSection(s.id));
    FilterKeepsNone(invalidations, OfSection(s.id));
    DiffItemsFor(req.sessionId, a, sections, Previous(l, req), s);
    SectionIsTold(l, req, s, row);
    var told := SectionItems(req.sessionId, a, s, Previous(l, req));
    assert [] + told == told;
  }

  /** The invalidations come first, one for each stale row, in order, and name it. */
  lemma {:induction false} PackTellsStale(l: Ledger, req: Request, i: nat)
    requires i < |StalePrior(l, req)|
    ensures i < |Pack(l, req)|
    ensures var r, item := StalePrior(l, req)[i], Pack(l, req)[i];
            && item.state == InvalidatePrevious && item.previousItemId == Some(r.sentItemId)
            && item.sectionId == r.sectionId && item.contentHash == r.contentHash && !item.pinned
            && item.title == "Invalidate previous context"
            && item.body == "Previously sent context item " + r.sentItemId +
                            (if req.reset.Some? then " is invalid because the agent session was reset."
                             else " is stale for this dependency manifest.")
            && item.itemId == req.sessionId + ":" + req.artifact.artifactId + ":invalidate:" + r.sentItemId
            && item.warnings == ["previous_context_invalidated",
                                 if req.reset.Some? then "session_reset_forced_full_resend"
                                 else "dependency_manifest_changed"]
  {
    hide StalePrior, PackFor, Previous;
  }

  // ----- rows -----

  /** The manifest is stored entry by entry, each under the artifact's prefix. */
  lemma {:induction false} DependencyRowSays(req: Request, i: nat)
    requires i < |req.artifact.dependencies|
    ensures |NewDependencies(req)| == |req.artifact.dependencies|
    ensures var row, d := NewDependencies(req)[i], req.artifact.dependencies[i];
            row == DependencyRow(req.artifact.artifactId + ":" + d.id, req.artifact.artifactId, d.ref, d.hash)
  {
  }

  /** A pack row says what its item says; only an invalidation names the row it drops. */
  lemma {:induction false} PackRowSays(l: Ledger, req: Request, i: nat)
    requires UniqueSections(req.artifact.sections) && i < |Pack(l, req)|
    ensures |NewPacks(l, req)| == |Pack(l, req)|
    ensures var p, item := NewPacks(l, req)[i], Pack(l, req)[i];
            && p.packItemId == item.itemId && p.sessionId == req.sessionId && p.artifactId == req.artifact.artifactId
            && p.sectionId == item.sectionId && p.state == item.state && p.contentHash == item.contentHash
            && p.pinned == item.pinned && p.restoreId == item.restoreToken
            && p.invalidates == (if item.state == InvalidatePrevious then item.previousItemId else None)
            && (forall s :: s in req.artifact.sections && s.id == item.sectionId ==> p.inputRefs == s.dependencyRefs)
  {
    hide Pack;
    forall s | s in req.artifact.sections && s.id == Pack(l, req)[i].sectionId
      ensures FindSection(req.artifact.sections, s.id) == Some(s)
    {
      FindSectionFinds(req.artifact.sections, s);
    }
  }

  /** Every omitted section is recorded, with the token its items carry and the content it can be restored with. */
  lemma {:induction false} OmissionsAreRecorded(l: Ledger, req: Request, i: nat)
    requires UniqueSections(req.artifact.sections) && i < |NewOmitted(l, req)|
    ensures |NewOmitted(l, req)| == |OmittedSections(req.artifact.sections, Previous(l, req))|
    ensures var o, s := NewOmitted(l, req)[i], OmittedSections(req.artifact.sections, Previous(l, req))[i];
            && o.sessionId == req.sessionId && o.artifactId == req.artifact.artifactId && o.sectionId == s.id
            && o.contentHash == s.contentHash && o.omittedAt == req.now
            && o.restoreId == "restore:" + req.sessionId + ":" + req.artifact.artifactId + ":" + s.id
            && o.omittedItemId == "omitted:" + o.restoreId
  {
    hide Previous, IsOmitted;
    var s := OmittedSections(req.artifact.sections, Previous(l, req))[i];
    FilterContains(req.artifact.sections, x => IsOmitted(x, Previous(l, req)));
    assert s in OmittedSections(req.artifact.sections, Previous(l, req));
    FindSectionFinds(req.artifact.sections, s);
  }

  /**
    A new row says where and when its section was sent, and continues the history of the row the section was listed
    with, stale or not.
  */
  lemma {:induction false} NewRowSays(l: Ledger, req: Request, r: SentRow) returns (s: Section)
    requires WellFormed(l) && r in NewSent(l, req)
    ensures s in req.artifact.sections && r.sectionId == s.id && r.contentHash == s.contentHash && r.pinned == s.pinned
    ensures r.sessionId == req.sessionId && r.artifactId == req.artifact.artifactId && r.resetId == req.reset
    ensures r.branch == req.artifact.branch && r.commit == req.artifact.commit
    ensures r.manifestHash == req.artifact.manifestHash && r.lastSentAt == req.now
    ensures r.sentItemId == r.sessionId + ":" + r.artifactId + ":" + s.id + ":" + StateName(r.state)
    ensures forall listed :: listed in Prior(l, req) && listed.sectionId == s.id ==>
              r.firstSentAt == listed.firstSentAt && r.sendCount == listed.sendCount + 1
    ensures (forall listed :: listed in Prior(l, req) ==> listed.sectionId != s.id) ==>
              r.firstSentAt == req.now && r.sendCount == 1
  {
    s := NewRowOrigin(l, req, r);
    LatestPriorIsListed(l, req, s.id);
    hide Prior, Previous, LatestPriorSentItem, WellFormed;
  }

  lemma {:induction false} ListedBeforeIsWeak()
    ensures StrictWeakOrder(ListedBefore)
  {
    StringOrderIsTotal();
    TotalIsWeak(StringLess);
    forall a, b | ListedBefore(a, b) ensures !ListedBefore(b, a) {
      NewerIsStrict(a, b);
    }
    forall a, b, c | !ListedBefore(a, b) && !ListedBefore(b, c) ensures !ListedBefore(a, c) {
      StringLessTotal(a.sectionId, b.sectionId);
      StringLessTotal(b.sectionId, c.sectionId);
      NewerTotal(a, b, c);
    }
  }

  lemma {:induction false} NewerTotal(a: SentRow, b: SentRow, c: SentRow)
    ensures !Newer(b, a) && !Newer(c, b) ==> !Newer(c, a)
  {
    StringLessTotal(a.sentItemId, b.sentItemId);
    StringLessTotal(b.sentItemId, c.sentItemId);
    StringLessTotal(a.sentItemId, c.sentItemId);
    StringOrderIsTotal();
  }

  /** The listed rows stand in the order of their section ids, one for each. */
  lemma {:induction false} ListedInSectionOrder(l: Ledger, sessionId: string, i: nat, j: nat)
    requires WellFormed(l) && i < j < |ListActive(l, sessionId)|
    ensures StringLess(ListActive(l, sessionId)[i].sectionId, ListActive(l, sessionId)[j].sectionId)
  {
    var rows := NewestPerSection(Surviving(l, sessionId));
    var listed := ListActive(l, sessionId);
    ListedBeforeIsWeak();
    SortSorts(rows, ListedBefore);
    ListedOnce(l, sessionId);
    assert listed[i] in listed && listed[j] in listed && SentRowId(listed[i]) != SentRowId(listed[j]);
    if listed[i].sectionId == listed[j].sectionId {
      OneActivePerSection(l, sessionId, listed[i], listed[j]);
    }
    StringLessTotal(listed[i].sectionId, listed[j].sectionId);
    assert !ListedBefore(listed[j], listed[i]);
  }
}

/** The delta encoder: what to send of each section, given what the session already holds. */
module ContextDiff {
  import opened Common
  import opened LedgerTypes

  datatype PriorItem = PriorItem(
    itemId: string, sessionId: string, artifactId: string, sectionId: string, contentHash: ContentHash, pinned: bool)

  function PriorSectionId(p: PriorItem): string { p.sectionId }

  function OfSession(items: seq<PriorItem>, sessionId: string): seq<PriorItem> {
    Filter(items, (p: PriorItem) => p.sessionId == sessionId)
  }

  function PreviousBySection(previouslySent: seq<PriorItem>, sessionId: string): map<string, PriorItem> {
    Index(OfSession(previouslySent, sessionId), PriorSectionId)
  }

  function StateName(state: DiffState): string {
    match state
    case New => "NEW"
    case Changed => "CHANGED"
    case Pinned => "PINNED"
    case OmitUnchanged => "OMIT_UNCHANGED"
    case InvalidatePrevious => "INVALIDATE_PREVIOUS"
    case RestoreAvailable => "RESTORE_AVAILABLE"
  }

  function ItemId(sessionId: string, artifactId: string, sectionId: string, state: DiffState): string {
    sessionId + ":" + artifactId + ":" + sectionId + ":" + StateName(state)
  }

  function RestoreToken(sessionId: string, artifactId: string, sectionId: string): (token: string)
    ensures |token| > 0
  {
    "restore:" + sessionId + ":" + artifactId + ":" + sectionId
  }

  function Classify(section: Section, previous: Option<PriorItem>): DiffState {
    if section.pinned then Pinned
    else if previous.None? then New
    else if previous.value.contentHash != section.contentHash then Changed
    else OmitUnchanged
  }

  function CreatePackItem(
    sessionId: string, artifactId: string, section: Section, state: DiffState, previous: Option<PriorItem>): PackItem
  {
    var omission := state.OmitUnchanged? || state.RestoreAvailable?;
    PackItem(
      ItemId(sessionId, artifactId, section.id, state), artifactId, sessionId, section.id, state, section.title,
      if omission then "" else section.body, section.contentHash,
      if previous.Some? then Some(previous.value.itemId) else None,
      if omission then Some(RestoreToken(sessionId, artifactId, section.id)) else None,
      if omission then Some("unchanged_restorable") else None,
      section.pinned, [])
  }

  function PreviousFor(section: Section, previous: map<string, PriorItem>): Option<PriorItem> {
    Get(previous, section.id)
  }

  predicate IsOmitted(section: Section, previous: map<string, PriorItem>) {
    Classify(section, PreviousFor(section, previous)).OmitUnchanged?
  }

  /** The item that carries a section which is sent, not omitted; a NEW item names no predecessor. */
  function SendItem(
    sessionId: string, artifactId: string, section: Section, previous: map<string, PriorItem>): PackItem
  {
    var prior := PreviousFor(section, previous);
    CreatePackItem(sessionId, artifactId, section, Classify(section, prior), prior)
  }

  function SectionItems(
    sessionId: string, artifactId: string, section: Section, previous: map<string, PriorItem>): seq<PackItem>
  {
    if IsOmitted(section, previous) then
      [CreatePackItem(sessionId, artifactId, section, OmitUnchanged, PreviousFor(section, previous)),
       CreatePackItem(sessionId, artifactId, section, RestoreAvailable, PreviousFor(section, previous))]
    else
      [SendItem(sessionId, artifactId, section, previous)]
  }

  function PackFor(
    sessionId: string, artifactId: string, sections: seq<Section>, previous: map<string, PriorItem>): seq<PackItem>
  {
    if sections == [] then [] else
    PackFor(sessionId, artifactId, sections[..|sections| - 1], previous) +
    SectionItems(sessionId, artifactId, sections[|sections| - 1], previous)
  }

  function OmittedSections(sections: seq<Section>, previous: map<string, PriorItem>): seq<Section> {
    Filter(sections, s => IsOmitted(s, previous))
  }

  function SentSections(sections: seq<Section>, previous: map<string, PriorItem>): seq<Section> {
    Filter(sections, s => !IsOmitted(s, previous))
  }

  function OmittedFor(
    sessionId: string, artifactId: string, sections: seq<Section>, previous: map<string, PriorItem>): seq<OmittedItem>
  {
    Map(OmittedSections(sections, previous), s => OmissionOf(sessionId, artifactId, s))
  }

  function OmissionOf(sessionId: string, artifactId: string, section: Section): OmittedItem {
    OmittedItem(sessionId, artifactId, section.id, RestoreToken(sessionId, artifactId, section.id))
  }

  function SendItems(
    sessionId: string, artifactId: string, sections: seq<Section>, previous: map<string, PriorItem>): (r: seq<PackItem>)
    ensures |r| == |sections|
    ensures forall i :: 0 <= i < |r| ==> r[i] == SendItem(sessionId, artifactId, sections[i], previous)
  {
    Map(sections, s => SendItem(sessionId, artifactId, s, previous))
  }

  predicate IsSentItem(item: PackItem) {
    IsSentState(item.state)
  }

  method IndexPrevious(previouslySent: seq<PriorItem>, sessionId: string)
    returns (previousBySection: map<string, PriorItem>)
    ensures previousBySection == PreviousBySection(previouslySent, sessionId)
  {
    previousBySection := map[];
    for i := 0 to |previouslySent|
      invariant previousBySection == PreviousBySection(previouslySent[..i], sessionId)
    {
      var item := previouslySent[i];
      PreviousSnoc(previouslySent[..i], item, sessionId);
      assert previouslySent[..i + 1] == previouslySent[..i] + [item];
      if item.sessionId == sessionId {
        previousBySection := previousBySection[item.sectionId := item];
      }
    }
    assert previouslySent[..|previouslySent|] == previouslySent;
  }

  lemma {:induction false} PreviousSnoc(items: seq<PriorItem>, item: PriorItem, sessionId: string)
    ensures PreviousBySection(items + [item], sessionId) ==
            if item.sessionId == sessionId then PreviousBySection(items, sessionId)[item.sectionId := item]
            else PreviousBySection(items, sessionId)
  {
    var kept := OfSession(items, sessionId);
    assert (items + [item])[..|items|] == items;
    assert (kept + [item])[..|kept|] == kept;
  }

  lemma {:induction false} PackSnoc(
    sessionId: string, artifactId: string, sections: seq<Section>, section: Section, previous: map<string, PriorItem>)
    ensures PackFor(sessionId, artifactId, sections + [section], previous) ==
            PackFor(sessionId, artifactId, sections, previous) + SectionItems(sessionId, artifactId, section, previous)
  {
    assert (sections + [section])[..|sections|] == sections;
  }

  lemma {:induction false} SentSnoc(sections: seq<Section>, section: Section, previous: map<string, PriorItem>)
    ensures SentSections(sections + [section], previous) ==
            if IsOmitted(section, previous) then SentSections(sections, previous)
              else SentSections(sections, previous) + [section]
  {
    assert (sections + [section])[..|sections|] == sections;
  }

  lemma {:induction false} OmittedSnoc(
    sessionId: string, artifactId: string, sections: seq<Section>, section: Section, previous: map<string, PriorItem>)
    ensures OmittedFor(sessionId, artifactId, sections + [section], previous) ==
            if IsOmitted(section, previous) then
              OmittedFor(sessionId, artifactId, sections, previous) + [OmissionOf(sessionId, artifactId, section)]
            else OmittedFor(sessionId, artifactId, sections, previous)
  {
    assert (sections + [section])[..|sections|] == sections;
  }

  lemma {:induction false} NothingPacked(sessionId: string, artifactId: string, previous: map<string, PriorItem>)
    ensures PackFor(sessionId, artifactId, [], previous) == [] && OmittedFor(sessionId, artifactId, [], previous) == []
  {
  }

  predicate IsLastOf(items: seq<PriorItem>, i: nat, sessionId: string, sectionId: string) {
    && i < |items| && items[i].sessionId == sessionId && items[i].sectionId == sectionId
    && forall j :: i < j < |items| ==> !(items[j].sessionId == sessionId && items[j].sectionId == sectionId)
  }

  /** A section is compared with the last prior item of this session for it; other sessions' items do not count. */
  lemma {:induction false} PreviousIsLastOfSession(items: seq<PriorItem>, sessionId: string, sectionId: string)
    ensures var previous := PreviousBySection(items, sessionId);
            && (sectionId in previous <==> exists i :: 0 <= i < |items| && IsLastOf(items, i, sessionId, sectionId))
            && (forall i :: 0 <= i < |items| && IsLastOf(items, i, sessionId, sectionId) ==>
                  sectionId in previous && previous[sectionId] == items[i])
    decreases |items|
  {
    if items != [] {
      var init, last := items[..|items| - 1], items[|items| - 1];
      SplitLast(items);
      PreviousIsLastOfSession(init, sessionId, sectionId);
      PreviousSnoc(init, last, sessionId);
      hide PreviousBySection, IsLastOf;
      LastOfSnoc(init, last, sessionId, sectionId);
      assert items[|init|] == last;
    }
  }

  lemma {:induction false} LastOfSnoc(items: seq<PriorItem>, last: PriorItem, sessionId: string, sectionId: string)
    ensures IsLastOf(items + [last], |items|, sessionId, sectionId) <==>
            last.sessionId == sessionId && last.sectionId == sectionId
    ensures forall i :: 0 <= i < |items| ==>
              (IsLastOf(items + [last], i, sessionId, sectionId) <==>
               IsLastOf(items, i, sessionId, sectionId) &&
               !(last.sessionId == sessionId && last.sectionId == sectionId))
  {
    var more := items + [last];
    assert forall i :: 0 <= i < |items| ==> more[i] == items[i];
    assert more[|items|] == last;
  }

  method CreateInMemoryContextDiff(sessionId: string, artifact: Artifact, previouslySent: seq<PriorItem>)
    returns (contextPackItems: seq<PackItem>, omittedItems: seq<OmittedItem>, unsafeOmissions: nat)
    ensures var previous := PreviousBySection(previouslySent, sessionId);
            && contextPackItems == PackFor(sessionId, artifact.artifactId, artifact.sections, previous)
            && omittedItems == OmittedFor(sessionId, artifact.artifactId, artifact.sections, previous)
    ensures unsafeOmissions == 0
    ensures |contextPackItems| == |artifact.sections| + |omittedItems|
  {
    hide ItemId, RestoreToken, PackFor, OmittedFor, OmittedSections;
    var previousBySection := IndexPrevious(previouslySent, sessionId);
    NothingPacked(sessionId, artifact.artifactId, previousBySection);
    assert artifact.sections[..0] == [];
    contextPackItems, omittedItems, unsafeOmissions := [], [], 0;
    var artifactId, sections := artifact.artifactId, artifact.sections;
    for i := 0 to |sections|
      invariant contextPackItems == PackFor(sessionId, artifactId, sections[..i], previousBySection)
      invariant omittedItems == OmittedFor(sessionId, artifactId, sections[..i], previousBySection)
      invariant unsafeOmissions == 0
      invariant |contextPackItems| == i + |omittedItems|
    {
      var section := sections[i];
      var previous := Get(previousBySection, section.id);
      assert sections[..i + 1] == sections[..i] + [section];
      PackSnoc(sessionId, artifactId, sections[..i], section, previousBySection);
      OmittedSnoc(sessionId, artifactId, sections[..i], section, previousBySection);
      if section.pinned {
        contextPackItems := contextPackItems + [CreatePackItem(sessionId, artifactId, section, Pinned, previous)];
      } else if previous.None? {
        contextPackItems := contextPackItems + [CreatePackItem(sessionId, artifactId, section, New, None)];
      } else if previous.value.contentHash != section.contentHash {
        contextPackItems := contextPackItems + [CreatePackItem(sessionId, artifactId, section, Changed, previous)];
      } else {
        var restoreToken := RestoreToken(sessionId, artifactId, section.id);
        if |restoreToken| == 0 {
          assert false;
        }
        omittedItems := omittedItems + [OmittedItem(sessionId, artifactId, section.id, restoreToken)];
        contextPackItems := contextPackItems + [
          CreatePackItem(sessionId, artifactId, section, OmitUnchanged, previous),
          CreatePackItem(sessionId, artifactId, section, RestoreAvailable, previous)];
      }
    }
    assert sections[..|sections|] == sections;
  }

  /** The sent items are the sections that are not omitted, one each, in section order. */
  lemma {:induction false} SentItemsOfPack(
    sessionId: string, artifactId: string, sections: seq<Section>, previous: map<string, PriorItem>)
    ensures Filter(PackFor(sessionId, artifactId, sections, previous), IsSentItem) ==
            SendItems(sessionId, artifactId, SentSections(sections, previous), previous)
    decreases |sections|
  {
    if sections != [] {
      var init, last := sections[..|sections| - 1], sections[|sections| - 1];
      SplitLast(sections);
      SentItemsOfPack(sessionId, artifactId, init, previous);
      PackSnoc(sessionId, artifactId, init, last, previous);
      SentSnoc(init, last, previous);
      var head := PackFor(sessionId, artifactId, init, previous);
      SentItemsOfSection(sessionId, artifactId, last, previous);
      SendItemsSnoc(sessionId, artifactId, SentSections(init, previous), last, previous);
      FilterConcat(head, SectionItems(sessionId, artifactId, last, previous), IsSentItem);
    }
  }

  lemma {:induction false} SendItemsSnoc(
    sessionId: string, artifactId: string, sections: seq<Section>, section: Section, previous: map<string, PriorItem>)
    ensures SendItems(sessionId, artifactId, sections + [section], previous) ==
            SendItems(sessionId, artifactId, sections, previous) + [SendItem(sessionId, artifactId, section, previous)]
  {
  }

  lemma {:induction false} SentItemsOfSection(
    sessionId: string, artifactId: string, section: Section, previous: map<string, PriorItem>)
    ensures Filter(SectionItems(sessionId, artifactId, section, previous), IsSentItem) ==
            if IsOmitted(section, previous) then [] else [SendItem(sessionId, artifactId, section, previous)]
  {
    hide ItemId, RestoreToken;
    var items := SectionItems(sessionId, artifactId, section, previous);
    FilterSnoc([], items[0], IsSentItem);
    assert [] + [items[0]] == [items[0]];
    if IsOmitted(section, previous) {
      FilterSnoc([items[0]], items[1], IsSentItem);
      assert [items[0]] + [items[1]] == items;
    }
  }
}

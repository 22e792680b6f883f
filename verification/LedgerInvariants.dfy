/** What every build keeps true of the ledger, and which rows survive it. */
module LedgerInvariants {
  import opened Common
  import opened LedgerTypes
  import opened Staleness
  import opened ContextDiff
  import opened SessionLedger
  import opened DurableBuild

  predicate IsPackRowOf(p: PackRow, r: SentRow) {
    && p.packItemId == r.sentItemId && p.sessionId == r.sessionId && p.artifactId == r.artifactId
    && p.sectionId == r.sectionId && p.contentHash == r.contentHash && IsSentState(p.state)
  }

  predicate HasPackRow(packs: seq<PackRow>, r: SentRow) {
    exists p :: p in packs && IsPackRowOf(p, r)
  }

  predicate IsSentId(sent: seq<SentRow>, id: string) {
    exists r :: r in sent && r.sentItemId == id
  }

  /** The run invariant: keys are unique, each sent row has its pack row, invalidations name sent rows. */
  ghost predicate WellFormed(l: Ledger) {
    && KeysDistinct(l)
    && (forall r :: r in l.sent ==> HasPackRow(l.packs, r))
    && (forall p :: p in l.packs && p.state.InvalidatePrevious? ==>
        p.invalidates.Some? && IsSentId(l.sent, p.invalidates.value))
    && (forall r :: r in l.sent ==> r.artifactId in l.artifacts)
    && (forall d :: d in l.dependencies ==> d.artifactId in l.artifacts)
  }

  function SentRowFor(l: Ledger, req: Request, section: Section): SentRow {
    ToSentRow(req, SendItem(req.sessionId, req.artifact.artifactId, section, Previous(l, req)), Prior(l, req))
  }

  function Sent(l: Ledger, req: Request): seq<Section> {
    SentSections(req.artifact.sections, Previous(l, req))
  }

  lemma {:induction false} NothingSentFilter(items: seq<PackItem>)
    requires forall i :: i in items ==> !IsSentItem(i)
    ensures Filter(items, IsSentItem) == []
    decreases |items|
  {
    if items != [] {
      NothingSentFilter(items[..|items| - 1]);
    }
  }

  /** A build sends exactly the sections its diff does not omit, one row each, in section order. */
  lemma {:induction false} NewSentRows(l: Ledger, req: Request)
    ensures |NewSent(l, req)| == |Sent(l, req)|
    ensures forall i :: 0 <= i < |Sent(l, req)| ==> NewSent(l, req)[i] == SentRowFor(l, req, Sent(l, req)[i])
    ensures Filter(Pack(l, req), IsSentItem) ==
            SendItems(req.sessionId, req.artifact.artifactId, Sent(l, req), Previous(l, req))
  {
    var invalidations := Invalidations(req, StalePrior(l, req));
    var diff := PackFor(req.sessionId, req.artifact.artifactId, req.artifact.sections, Previous(l, req));
    FilterConcat(invalidations, diff, IsSentItem);
    NothingSentFilter(invalidations);
    SentItemsOfPack(req.sessionId, req.artifact.artifactId, req.artifact.sections, Previous(l, req));
    assert Filter(Pack(l, req), IsSentItem) ==
      SendItems(req.sessionId, req.artifact.artifactId, Sent(l, req), Previous(l, req));
  }

  lemma {:induction false} SentMembers(l: Ledger, req: Request)
    ensures forall s :: s in Sent(l, req) <==> s in req.artifact.sections && !IsOmitted(s, Previous(l, req))
  {
    FilterContains(req.artifact.sections, s => !IsOmitted(s, Previous(l, req)));
  }

  lemma {:induction false} NewRowOrigin(l: Ledger, req: Request, r: SentRow) returns (s: Section)
    requires r in NewSent(l, req)
    ensures s in Sent(l, req) && s in req.artifact.sections && r == SentRowFor(l, req, s)
  {
    NewSentRows(l, req);
    SentMembers(l, req);
    var i :| 0 <= i < |NewSent(l, req)| && NewSent(l, req)[i] == r;
    s := Sent(l, req)[i];
  }

  lemma {:induction false} SentSectionHasRow(l: Ledger, req: Request, s: Section)
    requires s in Sent(l, req)
    ensures SentRowFor(l, req, s) in NewSent(l, req)
  {
    NewSentRows(l, req);
    var i :| 0 <= i < |Sent(l, req)| && Sent(l, req)[i] == s;
    assert NewSent(l, req)[i] == SentRowFor(l, req, s);
  }

  lemma {:induction false} DiffItemOrigin(
    sessionId: string, artifactId: string, sections: seq<Section>, previous: map<string, PriorItem>, item: PackItem)
    requires item in PackFor(sessionId, artifactId, sections, previous)
    ensures exists s :: s in sections && item in SectionItems(sessionId, artifactId, s, previous)
    decreases |sections|
  {
    var init, last := sections[..|sections| - 1], sections[|sections| - 1];
    SplitLast(sections);
    if item in PackFor(sessionId, artifactId, init, previous) {
      DiffItemOrigin(sessionId, artifactId, init, previous, item);
    } else {
      assert last in sections && item in SectionItems(sessionId, artifactId, last, previous);
    }
  }

  lemma {:induction false} DiffItemIsNoInvalidation(l: Ledger, req: Request, item: PackItem)
    requires item in PackFor(req.sessionId, req.artifact.artifactId, req.artifact.sections, Previous(l, req))
    ensures !item.state.InvalidatePrevious?
  {
    DiffItemOrigin(req.sessionId, req.artifact.artifactId, req.artifact.sections, Previous(l, req), item);
    var s :| s in req.artifact.sections &&
      item in SectionItems(req.sessionId, req.artifact.artifactId, s, Previous(l, req));
  }

  lemma {:induction false} PackItemOrigin(l: Ledger, req: Request, i: nat)
    requires i < |Pack(l, req)|
    ensures i < |StalePrior(l, req)| ==> Pack(l, req)[i] == CreateInvalidationPackItem(req, StalePrior(l, req)[i])
    ensures i >= |StalePrior(l, req)| ==> !Pack(l, req)[i].state.InvalidatePrevious?
  {
    hide PackFor, StalePrior, Previous, CreateInvalidationPackItem;
    var stale := StalePrior(l, req);
    if i >= |stale| {
      var diff := PackFor(req.sessionId, req.artifact.artifactId, req.artifact.sections, Previous(l, req));
      assert Pack(l, req)[i] == diff[i - |stale|];
      DiffItemIsNoInvalidation(l, req, diff[i - |stale|]);
    }
  }

  /** Every invalidation row a build adds names a stale item of that build. */
  lemma {:induction false} NewPackRowOrigin(l: Ledger, req: Request, p: PackRow)
    requires p in NewPacks(l, req)
    ensures p.sessionId == req.sessionId && p.artifactId == req.artifact.artifactId
    ensures p.state.InvalidatePrevious? ==>
              exists r :: r in StalePrior(l, req) && p.invalidates == Some(r.sentItemId)
  {
    var i :| 0 <= i < |NewPacks(l, req)| && NewPacks(l, req)[i] == p;
    PackItemOrigin(l, req, i);
    assert p == ToPackRow(req, Pack(l, req)[i]);
    if i < |StalePrior(l, req)| {
      assert StalePrior(l, req)[i] in StalePrior(l, req);
    }
  }

  lemma {:induction false} StaleIsInvalidated(l: Ledger, req: Request, r: SentRow)
    requires r in StalePrior(l, req) && r.sessionId == req.sessionId
    ensures Invalidated(Recorded(l, req).packs, r)
  {
    var stale := StalePrior(l, req);
    var i :| 0 <= i < |stale| && stale[i] == r;
    var p := NewPacks(l, req)[i];
    assert Pack(l, req)[i] == CreateInvalidationPackItem(req, r);
    assert p == ToPackRow(req, CreateInvalidationPackItem(req, r));
    assert p in Recorded(l, req).packs && Invalidates(p, r.sessionId, r.sentItemId);
  }

  lemma {:induction false} StaleMembers(l: Ledger, req: Request)
    ensures forall r :: r in StalePrior(l, req) ==> r in Prior(l, req)
    ensures forall r :: r in CurrentPrior(l, req) ==> r in Prior(l, req)
    ensures forall r :: r in Prior(l, req) ==> r in StalePrior(l, req) || r in CurrentPrior(l, req)
    ensures forall r :: r in StalePrior(l, req) ==> r !in CurrentPrior(l, req)
    ensures forall r :: r in Prior(l, req) ==>
              (r in StalePrior(l, req) <==>
               req.reset.Some? || IsStale(r, ListActivePayloads(l, req.sessionId), req.artifact, Lister(l)))
  {
    var items, payloads := Prior(l, req), ListActivePayloads(l, req.sessionId);
    FilterContains(items, r => !req.reset.Some? && !IsStale(r, payloads, req.artifact, Lister(l)));
    FilterContains(items, r => req.reset.Some? || IsStale(r, payloads, req.artifact, Lister(l)));
  }

  lemma {:induction false} PriorMembers(l: Ledger, req: Request)
    ensures forall r :: r in Prior(l, req) ==>
              r in l.sent && r.sessionId == req.sessionId && !Invalidated(l.packs, r)
  {
    ActiveMembers(l, req.sessionId);
    SurvivingMembers(l, req.sessionId);
  }

  lemma {:induction false} SameIdSameRow(rows: seq<SentRow>, a: SentRow, b: SentRow)
    requires DistinctKeys(rows, SentRowId) && a in rows && b in rows && a.sentItemId == b.sentItemId
    ensures a == b
  {
    var i :| 0 <= i < |rows| && rows[i] == a;
    var j :| 0 <= j < |rows| && rows[j] == b;
    assert SentRowId(rows[i]) == SentRowId(rows[j]);
  }

  /** A build invalidates exactly the stale rows of its own session. */
  lemma {:induction false} OldRowInvalidated(l: Ledger, req: Request, r: SentRow)
    requires WellFormed(l) && r in l.sent
    ensures Invalidated(Recorded(l, req).packs, r) <==>
            Invalidated(l.packs, r) || (r.sessionId == req.sessionId && r in StalePrior(l, req))
  {
    StaleMembers(l, req);
    PriorMembers(l, req);
    if r.sessionId == req.sessionId && r in StalePrior(l, req) {
      StaleIsInvalidated(l, req, r);
    }
    if Invalidated(Recorded(l, req).packs, r) && !Invalidated(l.packs, r) {
      var p :| p in Recorded(l, req).packs && Invalidates(p, r.sessionId, r.sentItemId);
      assert p in NewPacks(l, req);
      NewPackRowOrigin(l, req, p);
      var stale :| stale in StalePrior(l, req) && p.invalidates == Some(stale.sentItemId);
      SameIdSameRow(l.sent, stale, r);
    }
  }

  lemma {:induction false} NewRowNotInvalidated(l: Ledger, req: Request, r: SentRow)
    requires WellFormed(l) && Commits(l, req) && r in NewSent(l, req)
    ensures !Invalidated(Recorded(l, req).packs, r)
  {
    if Invalidated(Recorded(l, req).packs, r) {
      var p :| p in Recorded(l, req).packs && Invalidates(p, r.sessionId, r.sentItemId);
      var earlier: SentRow;
      if p in l.packs {
        earlier :| earlier in l.sent && earlier.sentItemId == r.sentItemId;
      } else {
        NewPackRowOrigin(l, req, p);
        StaleMembers(l, req);
        PriorMembers(l, req);
        earlier :| earlier in StalePrior(l, req) && earlier.sentItemId == r.sentItemId;
      }
      FreshIds(l.sent, NewSent(l, req), earlier, r);
    }
  }

  /** Key by key: the new rows differ from each other and from the rows there are. */
  lemma {:induction false} CommitsByKeys(l: Ledger, req: Request)
    requires KeysDistinct(l)
    ensures Commits(l, req) <==>
            && req.artifact.sessionId == req.sessionId && req.artifact.artifactId !in l.artifacts
            && DistinctKeys(NewDependencies(req), DependencyRowId)
            && Apart(l.dependencies, NewDependencies(req), DependencyRowId)
            && DistinctKeys(NewSent(l, req), SentRowId) && Apart(l.sent, NewSent(l, req), SentRowId)
            && DistinctKeys(NewPacks(l, req), PackRowId) && Apart(l.packs, NewPacks(l, req), PackRowId)
            && DistinctKeys(NewOmitted(l, req), OmittedRowId) && Apart(l.omitted, NewOmitted(l, req), OmittedRowId)
  {
    hide NewDependencies, NewSent, NewPacks, NewOmitted, DistinctKeys, Apart;
    KeysAppendIff(l.dependencies, NewDependencies(req), DependencyRowId);
    KeysAppendIff(l.sent, NewSent(l, req), SentRowId);
    KeysAppendIff(l.packs, NewPacks(l, req), PackRowId);
    KeysAppendIff(l.omitted, NewOmitted(l, req), OmittedRowId);
  }

  lemma {:induction false} FreshIds(earlier: seq<SentRow>, added: seq<SentRow>, a: SentRow, b: SentRow)
    requires DistinctKeys(earlier + added, SentRowId) && a in earlier && b in added
    ensures a.sentItemId != b.sentItemId
  {
    var i :| 0 <= i < |earlier| && earlier[i] == a;
    var j :| 0 <= j < |added| && added[j] == b;
    assert (earlier + added)[i] == a && (earlier + added)[|earlier| + j] == b;
    assert SentRowId((earlier + added)[i]) != SentRowId((earlier + added)[|earlier| + j]);
  }

  /** The surviving rows a build leaves in place. */
  function Kept(l: Ledger, req: Request): seq<SentRow> {
    Filter(Surviving(l, req.sessionId), r => r !in StalePrior(l, req))
  }

  /** After a build the session's surviving rows are the kept ones followed by the new ones. */
  lemma {:induction false} SurvivingAfter(l: Ledger, req: Request)
    requires WellFormed(l) && Commits(l, req)
    ensures Surviving(Recorded(l, req), req.sessionId) == Kept(l, req) + NewSent(l, req)
  {
    var after, s := Recorded(l, req), req.sessionId;
    var p := (r: SentRow) => r.sessionId == s && !Invalidated(l.packs, r);
    var q := (r: SentRow) => r !in StalePrior(l, req);
    var both := (r: SentRow) => r.sessionId == s && !Invalidated(after.packs, r);
    forall r | r in l.sent ensures both(r) == (p(r) && q(r)) {
      OldRowInvalidated(l, req, r);
    }
    FilterTwice(l.sent, p, q, both);
    forall r | r in NewSent(l, req) ensures both(r) {
      NewRowNotInvalidated(l, req, r);
      var section := NewRowOrigin(l, req, r);
    }
    FilterKeepsAll(NewSent(l, req), both);
    FilterConcat(l.sent, NewSent(l, req), both);
    assert Surviving(l, s) == Filter(l.sent, p);
    assert Surviving(after, s) == Filter(after.sent, both);
    assert Kept(l, req) == Filter(Surviving(l, s), q);
  }

  /** Building for one session changes nothing another session holds. */
  lemma {:induction false} OtherSessionsUntouched(l: Ledger, req: Request, other: string)
    requires WellFormed(l) && other != req.sessionId
    ensures Surviving(Next(l, req), other) == Surviving(l, other)
    ensures ListActive(Next(l, req), other) == ListActive(l, other)
  {
    if Commits(l, req) {
      var after := Recorded(l, req);
      var p := (r: SentRow) => r.sessionId == other && !Invalidated(l.packs, r);
      var q := (r: SentRow) => r.sessionId == other && !Invalidated(after.packs, r);
      forall r | r in l.sent ensures p(r) == q(r) {
        OldRowInvalidated(l, req, r);
      }
      FilterAgrees(l.sent, p, q);
      forall r | r in NewSent(l, req) ensures !q(r) {
        var section := NewRowOrigin(l, req, r);
      }
      FilterKeepsNone(NewSent(l, req), q);
      FilterConcat(l.sent, NewSent(l, req), q);
      assert Surviving(l, other) == Filter(l.sent, p);
      assert Surviving(after, other) == Filter(after.sent, q);
    }
  }

  lemma {:induction false} SentItemHasPackRow(l: Ledger, req: Request, r: SentRow)
    requires r in NewSent(l, req)
    ensures HasPackRow(NewPacks(l, req), r)
  {
    hide Pack, Prior, LatestPriorSentItem, FindSection;
    var items := Filter(Pack(l, req), IsSentItem);
    FilterContains(Pack(l, req), IsSentItem);
    var i :| 0 <= i < |items| && r == ToSentRow(req, items[i], Prior(l, req));
    assert items[i] in Pack(l, req);
    var k :| 0 <= k < |Pack(l, req)| && Pack(l, req)[k] == items[i];
    var p := NewPacks(l, req)[k];
    assert p == ToPackRow(req, items[i]);
    assert p in NewPacks(l, req) && IsPackRowOf(p, r);
  }

  /** Every build, committed or rolled back, keeps the ledger well formed. */
  lemma {:induction false} BuildKeepsWellFormed(l: Ledger, req: Request)
    requires WellFormed(l)
    ensures WellFormed(Next(l, req))
  {
    if Commits(l, req) {
      var after := Recorded(l, req);
      forall r | r in after.sent ensures HasPackRow(after.packs, r) && r.artifactId in after.artifacts {
        if r in l.sent {
          var p :| p in l.packs && IsPackRowOf(p, r);
          assert p in after.packs;
        } else {
          SentItemHasPackRow(l, req, r);
          var p :| p in NewPacks(l, req) && IsPackRowOf(p, r);
          assert p in after.packs;
          var section := NewRowOrigin(l, req, r);
        }
      }
      forall p | p in after.packs && p.state.InvalidatePrevious?
        ensures p.invalidates.Some? && IsSentId(after.sent, p.invalidates.value)
      {
        if p in l.packs {
          var r :| r in l.sent && r.sentItemId == p.invalidates.value;
          assert r in after.sent;
        } else {
          NewPackRowOrigin(l, req, p);
          var r :| r in StalePrior(l, req) && p.invalidates == Some(r.sentItemId);
          StaleMembers(l, req);
          PriorMembers(l, req);
          assert r in after.sent;
        }
      }
    }
  }
}

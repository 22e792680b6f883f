/** When the agent's latest piece of every section is exactly the artifact's section. */
module LedgerReconstruction {
  import opened Common
  import opened LedgerTypes
  import opened ContextDiff
  import opened SessionLedger
  import opened DurableBuild
  import opened LedgerInvariants
  import opened LedgerMemory
  import opened LedgerAgent

  function LastHeld(held: seq<Held>, sectionId: string): Option<Held> {
    if held == [] then None
    else if held[|held| - 1].sectionId == sectionId then Some(held[|held| - 1])
    else LastHeld(held[..|held| - 1], sectionId)
  }

  /** The row of a section that arrived last. */
  function LastOfSection(rows: seq<SentRow>, sectionId: string): Option<SentRow> {
    if rows == [] then None
    else if rows[|rows| - 1].sectionId == sectionId then Some(rows[|rows| - 1])
    else LastOfSection(rows[..|rows| - 1], sectionId)
  }

  predicate Holds(held: seq<Held>, s: Section) {
    LastHeld(held, s.id).Some? && LastHeld(held, s.id).value.contentHash == s.contentHash
  }

  /** The agent's view of the artifact: every section's latest piece has that section's content. */
  predicate Reconstructs(held: seq<Held>, sections: seq<Section>) {
    forall s :: s in sections ==> Holds(held, s)
  }

  predicate LastArrivedIs(rows: seq<SentRow>, s: Section) {
    LastOfSection(rows, s.id).Some? && LastOfSection(rows, s.id).value.contentHash == s.contentHash
  }

  /** Checkable before a build: each section about to be omitted is what last arrived for it, among these rows. */
  predicate OmissionsAgree(l: Ledger, req: Request, rows: seq<SentRow>) {
    forall s :: s in req.artifact.sections && IsOmitted(s, Previous(l, req)) ==> LastArrivedIs(rows, s)
  }

  /** Checkable before a build: the row behind each omission is among these rows. */
  predicate OmissionsRemembered(l: Ledger, req: Request, rows: seq<SentRow>) {
    forall s, r ::
      s in req.artifact.sections && IsOmitted(s, Previous(l, req)) && r in CurrentPrior(l, req) &&
        r.sectionId == s.id ==>
        r in rows
  }

  lemma {:induction false} LastHeldMirrors(held: seq<Held>, rows: seq<SentRow>, sectionId: string)
    requires InSync(held, rows)
    ensures LastHeld(held, sectionId).Some? <==> LastOfSection(rows, sectionId).Some?
    ensures LastHeld(held, sectionId).Some? ==>
              Mirrors(LastHeld(held, sectionId).value, LastOfSection(rows, sectionId).value)
    decreases |held|
  {
    if held != [] && held[|held| - 1].sectionId != sectionId {
      LastHeldMirrors(held[..|held| - 1], rows[..|rows| - 1], sectionId);
    }
  }

  lemma {:induction false} LastOfSectionFacts(rows: seq<SentRow>, sectionId: string)
    ensures LastOfSection(rows, sectionId).Some? <==> exists r :: r in rows && r.sectionId == sectionId
    ensures LastOfSection(rows, sectionId).Some? ==>
              LastOfSection(rows, sectionId).value in rows &&
                LastOfSection(rows, sectionId).value.sectionId == sectionId
    decreases |rows|
  {
    if rows != [] {
      SplitLast(rows);
      LastOfSectionFacts(rows[..|rows| - 1], sectionId);
    }
  }

  lemma {:induction false} LastOfConcat(a: seq<SentRow>, b: seq<SentRow>, sectionId: string)
    ensures LastOfSection(a + b, sectionId) ==
            if LastOfSection(b, sectionId).Some? then LastOfSection(b, sectionId) else LastOfSection(a, sectionId)
    decreases |b|
  {
    if b == [] {
      assert a + b == a;
    } else {
      assert (a + b)[..|a + b| - 1] == a + b[..|b| - 1];
      LastOfConcat(a, b[..|b| - 1], sectionId);
    }
  }

  lemma {:induction false} LastSurvivesFilter(rows: seq<SentRow>, p: SentRow -> bool, sectionId: string)
    requires forall r :: r in rows && r.sectionId == sectionId ==> p(r)
    ensures LastOfSection(Filter(rows, p), sectionId) == LastOfSection(rows, sectionId)
    decreases |rows|
  {
    if rows != [] {
      SplitLast(rows);
      var init, last := rows[..|rows| - 1], rows[|rows| - 1];
      LastSurvivesFilter(init, p, sectionId);
      if p(last) {
        assert (Filter(init, p) + [last])[..|Filter(init, p)|] == Filter(init, p);
      }
    }
  }

  /** A session lists at most one active row for each section. */
  lemma {:induction false} OneActivePerSection(l: Ledger, sessionId: string, a: SentRow, b: SentRow)
    requires WellFormed(l) && a in ListActive(l, sessionId) && b in ListActive(l, sessionId)
    requires a.sectionId == b.sectionId
    ensures a == b
  {
    ActiveMembers(l, sessionId);
    SurvivingMembers(l, sessionId);
    NewestUnique(Surviving(l, sessionId), a, b);
    SameIdSameRow(l.sent, a, b);
  }

  /** The diff compares a section with the listed row that is still current, if there is one. */
  lemma {:induction false} PreviousIsCurrentRow(l: Ledger, req: Request, sectionId: string)
    requires WellFormed(l)
    ensures sectionId in Previous(l, req) ==>
              exists r :: r in CurrentPrior(l, req) && r.sectionId == sectionId &&
                Previous(l, req)[sectionId] == ToPriorItem(r)
    ensures forall r :: r in CurrentPrior(l, req) && r.sectionId == sectionId ==>
              sectionId in Previous(l, req) && Previous(l, req)[sectionId] == ToPriorItem(r)
  {
    var current, s := CurrentPrior(l, req), req.sessionId;
    var items := Map(current, ToPriorItem);
    StaleMembers(l, req);
    PriorMembers(l, req);
    FilterContains(items, (p: PriorItem) => p.sessionId == s);
    IndexFacts(OfSession(items, s), PriorSectionId);
    if sectionId in Previous(l, req) {
      var item := Previous(l, req)[sectionId];
      assert item in items;
      var i :| 0 <= i < |items| && items[i] == item;
      assert current[i] in current && item == ToPriorItem(current[i]);
    }
    forall r | r in current && r.sectionId == sectionId
      ensures sectionId in Previous(l, req) && Previous(l, req)[sectionId] == ToPriorItem(r)
    {
      var j :| 0 <= j < |current| && current[j] == r;
      assert items[j] == ToPriorItem(r) && items[j] in items && items[j].sessionId == s;
      assert items[j] in OfSession(items, s);
      var item := Previous(l, req)[sectionId];
      assert item in items;
      var i :| 0 <= i < |items| && items[i] == item;
      assert current[i] in current;
      OneActivePerSection(l, s, current[i], r);
    }
  }

  /** An omission rests on a listed row, not stale, with the section's content. */
  lemma {:induction false} OmittedHasCurrentRow(l: Ledger, req: Request, s: Section) returns (r: SentRow)
    requires WellFormed(l) && IsOmitted(s, Previous(l, req))
    ensures r in CurrentPrior(l, req) && r.sectionId == s.id && r.contentHash == s.contentHash
  {
    PreviousIsCurrentRow(l, req, s.id);
    r :| r in CurrentPrior(l, req) && r.sectionId == s.id && Previous(l, req)[s.id] == ToPriorItem(r);
  }

  lemma {:induction false} LastUnstaleOfCurrent(l: Ledger, req: Request, rows: seq<SentRow>, r: SentRow)
    requires WellFormed(l) && r in CurrentPrior(l, req)
    ensures LastOfSection(Unstale(l, req, rows), r.sectionId) == LastOfSection(rows, r.sectionId)
  {
    StaleMembers(l, req);
    forall x | x in rows && x.sectionId == r.sectionId ensures x !in StalePrior(l, req) {
      if x in StalePrior(l, req) {
        OneActivePerSection(l, req.sessionId, x, r);
      }
    }
    LastSurvivesFilter(rows, x => x !in StalePrior(l, req), r.sectionId);
  }

  lemma {:induction false} SectionByIdUnique(sections: seq<Section>, a: Section, b: Section)
    requires UniqueSections(sections) && a in sections && b in sections && a.id == b.id
    ensures a == b
  {
    var i :| 0 <= i < |sections| && sections[i] == a;
    var j :| 0 <= j < |sections| && sections[j] == b;
    assert i == j;
  }

  lemma {:induction false} LastNewRow(l: Ledger, req: Request, s: Section)
    requires UniqueSections(req.artifact.sections) && s in req.artifact.sections
    ensures LastOfSection(NewSent(l, req), s.id) ==
            if IsOmitted(s, Previous(l, req)) then None else Some(SentRowFor(l, req, s))
  {
    var rows := NewSent(l, req);
    LastOfSectionFacts(rows, s.id);
    SentMembers(l, req);
    if LastOfSection(rows, s.id).Some? {
      var origin := NewRowOrigin(l, req, LastOfSection(rows, s.id).value);
      SectionByIdUnique(req.artifact.sections, origin, s);
    } else if s in Sent(l, req) {
      SentSectionHasRow(l, req, s);
    }
  }

  /**
    For one build from any ledger and an agent that holds the pieces of some of the surviving rows: it ends with the
    artifact iff every omission agrees with what arrived last among them.
  */
  lemma {:induction false} BuildReconstructsIff(l: Ledger, req: Request, held: seq<Held>, rows: seq<SentRow>)
    requires WellFormed(l) && UniqueSections(req.artifact.sections)
    requires InSync(held, rows) && forall r :: r in rows ==> r in Surviving(l, req.sessionId)
    ensures Reconstructs(Replay(held, Pack(l, req)), req.artifact.sections) <==> OmissionsAgree(l, req, rows)
  {
    hide WellFormed, Surviving, Replay, Pack, NewSent, Unstale, Previous, IsOmitted, InSync;
    ReplayTracks(l, req, held, rows);
    forall s | s in req.artifact.sections
      ensures Holds(Replay(held, Pack(l, req)), s) <==> (IsOmitted(s, Previous(l, req)) ==> LastArrivedIs(rows, s))
    {
      HoldsAfterIff(l, req, Replay(held, Pack(l, req)), rows, s);
    }
  }

  lemma {:induction false} HoldsAfterIff(l: Ledger, req: Request, after: seq<Held>, rows: seq<SentRow>, s: Section)
    requires WellFormed(l) && UniqueSections(req.artifact.sections) && s in req.artifact.sections
    requires InSync(after, Unstale(l, req, rows) + NewSent(l, req))
    ensures Holds(after, s) <==> (IsOmitted(s, Previous(l, req)) ==> LastArrivedIs(rows, s))
  {
    hide WellFormed, NewSent, Unstale, Previous;
    LastHeldMirrors(after, Unstale(l, req, rows) + NewSent(l, req), s.id);
    LastOfConcat(Unstale(l, req, rows), NewSent(l, req), s.id);
    LastNewRow(l, req, s);
    if IsOmitted(s, Previous(l, req)) {
      var r := OmittedHasCurrentRow(l, req, s);
      LastUnstaleOfCurrent(l, req, rows, r);
    }
  }

  /** Send order and timestamps agree: within a section a later row is newer. */
  predicate SendOrder(rows: seq<SentRow>) {
    forall i, j :: 0 <= i < j < |rows| && rows[i].sectionId == rows[j].sectionId ==> Newer(rows[j], rows[i])
  }

  lemma {:induction false} NewestArrivedLast(rows: seq<SentRow>, r: SentRow)
    requires SendOrder(rows) && r in rows && NewestOfSection(rows, r)
    ensures LastOfSection(rows, r.sectionId) == Some(r)
    decreases |rows|
  {
    var init, last := rows[..|rows| - 1], rows[|rows| - 1];
    SplitLast(rows);
    if last.sectionId == r.sectionId {
      var i :| 0 <= i < |rows| && rows[i] == r;
      assert !Newer(rows[|rows| - 1], rows[i]);
    } else {
      NewestArrivedLast(init, r);
    }
  }

  /**
    When later rows are newer, the omissions agree with the last of the surviving rows iff the row behind each one is
    among them; with all of the surviving rows they always do.
  */
  lemma {:induction false} SendOrderOmissionsAgreeIff(
    l: Ledger, req: Request, earlier: seq<SentRow>, rows: seq<SentRow>)
    requires WellFormed(l) && SendOrder(Surviving(l, req.sessionId)) && Surviving(l, req.sessionId) == earlier + rows
    ensures OmissionsAgree(l, req, rows) <==> OmissionsRemembered(l, req, rows)
  {
    hide WellFormed, Surviving, Previous, IsOmitted, CurrentPrior;
    forall s, r | s in req.artifact.sections && IsOmitted(s, Previous(l, req)) && r in CurrentPrior(l, req) &&
      r.sectionId == s.id
      ensures LastArrivedIs(rows, s) <==> r in rows
    {
      LastArrivedIffRemembered(l, req, earlier, rows, s, r);
    }
    forall s | s in req.artifact.sections && IsOmitted(s, Previous(l, req))
      ensures exists r :: r in CurrentPrior(l, req) && r.sectionId == s.id
    {
      var r := OmittedHasCurrentRow(l, req, s);
    }
  }

  lemma {:induction false} LastArrivedIffRemembered(
    l: Ledger, req: Request, earlier: seq<SentRow>, rows: seq<SentRow>, s: Section, r: SentRow)
    requires WellFormed(l) && SendOrder(Surviving(l, req.sessionId)) && Surviving(l, req.sessionId) == earlier + rows
    requires IsOmitted(s, Previous(l, req)) && r in CurrentPrior(l, req) && r.sectionId == s.id
    ensures LastArrivedIs(rows, s) <==> r in rows
  {
    var c := OmittedHasCurrentRow(l, req, s);
    StaleMembers(l, req);
    OneActivePerSection(l, req.sessionId, c, r);
    ActiveMembers(l, req.sessionId);
    hide WellFormed, Surviving, CurrentPrior;
    NewestArrivedLast(Surviving(l, req.sessionId), r);
    LastOfConcat(earlier, rows, s.id);
    LastOfSectionFacts(rows, s.id);
  }

  /** The clock has moved on since the session's surviving rows were sent. */
  predicate ClockAdvances(l: Ledger, req: Request) {
    forall r :: r in Surviving(l, req.sessionId) ==> r.lastSentAt < req.now
  }

  lemma {:induction false} FilterSendOrder(rows: seq<SentRow>, p: SentRow -> bool)
    requires SendOrder(rows)
    ensures SendOrder(Filter(rows, p))
  {
    forall i, j | 0 <= i < j < |Filter(rows, p)| && Filter(rows, p)[i].sectionId == Filter(rows, p)[j].sectionId
      ensures Newer(Filter(rows, p)[j], Filter(rows, p)[i])
    {
      var a, b := FilterPosition(rows, p, i, j);
    }
  }

  lemma {:induction false} NewRowSections(l: Ledger, req: Request, i: nat, j: nat)
    requires UniqueSections(req.artifact.sections) && i < j < |NewSent(l, req)|
    ensures NewSent(l, req)[i].sectionId != NewSent(l, req)[j].sectionId
  {
    NewSentRows(l, req);
    var a, b := FilterPosition(req.artifact.sections, s => !IsOmitted(s, Previous(l, req)), i, j);
    assert Sent(l, req)[i] == req.artifact.sections[a] && Sent(l, req)[j] == req.artifact.sections[b];
  }

  lemma {:induction false} AppendSendOrder(kept: seq<SentRow>, added: seq<SentRow>)
    requires SendOrder(kept)
    requires forall i, j :: 0 <= i < j < |added| ==> added[i].sectionId != added[j].sectionId
    requires forall a, b :: a in kept && b in added ==> a.lastSentAt < b.lastSentAt
    ensures SendOrder(kept + added)
  {
    var rows := kept + added;
    forall i, j | 0 <= i < j < |rows| && rows[i].sectionId == rows[j].sectionId ensures Newer(rows[j], rows[i]) {
      if j >= |kept| {
        assert rows[j] in added;
        if i < |kept| {
          assert rows[i] in kept;
        }
      }
    }
  }

  /** A build on an advancing clock keeps send order. */
  lemma {:induction false} BuildKeepsSendOrder(l: Ledger, req: Request)
    requires WellFormed(l) && Commits(l, req) && UniqueSections(req.artifact.sections)
    requires SendOrder(Surviving(l, req.sessionId)) && ClockAdvances(l, req)
    ensures SendOrder(Surviving(Recorded(l, req), req.sessionId))
  {
    SurvivingAfter(l, req);
    FilterSendOrder(Surviving(l, req.sessionId), r => r !in StalePrior(l, req));
    FilterContains(Surviving(l, req.sessionId), r => r !in StalePrior(l, req));
    forall i, j | 0 <= i < j < |NewSent(l, req)| ensures NewSent(l, req)[i].sectionId != NewSent(l, req)[j].sectionId {
      NewRowSections(l, req, i, j);
    }
    forall a, b | a in Kept(l, req) && b in NewSent(l, req) ensures a.lastSentAt < b.lastSentAt {
      var origin := NewRowOrigin(l, req, b);
    }
    AppendSendOrder(Kept(l, req), NewSent(l, req));
  }
}

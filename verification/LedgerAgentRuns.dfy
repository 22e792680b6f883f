/** An agent over whole runs: it replays the packs of its session, and a reset is its word that it starts over. */
module LedgerAgentRuns {
  import opened Common
  import opened LedgerTypes
  import opened ContextDiff
  import opened SessionLedger
  import opened DurableBuild
  import opened LedgerInvariants
  import opened LedgerMemory
  import opened LedgerAgent
  import opened LedgerReconstruction
  import opened LedgerFreshness
  import opened LedgerRuns

  /** What an agent of a session holds after the packs of its committed builds; a reset means it holds nothing more. */
  function AgentAfter(reqs: seq<Request>, sessionId: string): seq<Held> {
    if reqs == [] then [] else
    var before, last := reqs[..|reqs| - 1], reqs[|reqs| - 1];
    if last.sessionId == sessionId && Commits(LedgerAfter(before), last) then
      Replay(if last.reset.Some? then [] else AgentAfter(before, sessionId), Pack(LedgerAfter(before), last))
    else AgentAfter(before, sessionId)
  }

  /** How many rows the ledger had when the session last started over. */
  function ResetMark(reqs: seq<Request>, sessionId: string): nat {
    if reqs == [] then 0 else
    var before, last := reqs[..|reqs| - 1], reqs[|reqs| - 1];
    if last.sessionId == sessionId && last.reset.Some? && Commits(LedgerAfter(before), last) then
      |LedgerAfter(before).sent|
    else ResetMark(before, sessionId)
  }

  /** The session's surviving rows that were sent since its last committed reset. */
  function Remembered(reqs: seq<Request>, sessionId: string): seq<SentRow> {
    SentSince(LedgerAfter(reqs), sessionId, ResetMark(reqs, sessionId))
  }

  lemma {:induction false} NextHasMoreRows(l: Ledger, req: Request)
    ensures |l.sent| <= |Next(l, req).sent|
  {
    hide Commits, NewSent, NewPacks, NewOmitted, NewDependencies;
  }

  lemma {:induction false} MarkIsWithin(reqs: seq<Request>, sessionId: string)
    ensures ResetMark(reqs, sessionId) <= |LedgerAfter(reqs).sent|
    decreases |reqs|
  {
    hide Next, Commits;
    if reqs != [] {
      MarkIsWithin(reqs[..|reqs| - 1], sessionId);
      NextHasMoreRows(LedgerAfter(reqs[..|reqs| - 1]), reqs[|reqs| - 1]);
    }
  }

  predicate Delivers(reqs: seq<Request>, sessionId: string) {
    LastCommits(reqs) && reqs[|reqs| - 1].sessionId == sessionId
  }

  /** What one more request does to the rows remembered. */
  lemma {:induction false} RememberedStep(reqs: seq<Request>, sessionId: string)
    requires reqs != []
    ensures var before, last := reqs[..|reqs| - 1], reqs[|reqs| - 1];
            Remembered(reqs, sessionId) ==
            if !Delivers(reqs, sessionId) then Remembered(before, sessionId)
            else
              Unstale(LedgerAfter(before), last, if last.reset.Some? then [] else Remembered(before, sessionId)) +
              NewSent(LedgerAfter(before), last)
  {
    var before, last := reqs[..|reqs| - 1], reqs[|reqs| - 1];
    var l, mark := LedgerAfter(before), ResetMark(before, sessionId);
    RunWellFormed(before);
    MarkIsWithin(before, sessionId);
    hide WellFormed, Commits, Recorded, NewSent, StalePrior, SentSince;
    if Commits(l, last) {
      if last.sessionId != sessionId {
        SinceInOtherSession(l, last, sessionId, mark);
      } else if last.reset.Some? {
        SinceJustBefore(l, last);
        NothingLeftOfNothing(l, last);
      } else {
        SinceAfterBuild(l, last, mark);
      }
    }
  }

  lemma {:induction false} NothingLeftOfNothing(l: Ledger, req: Request)
    ensures Unstale(l, req, []) + NewSent(l, req) == NewSent(l, req)
  {
    hide NewSent, StalePrior;
    assert Unstale(l, req, []) == [];
  }

  lemma {:induction false} RememberedSurvives(reqs: seq<Request>, sessionId: string)
    ensures forall r :: r in Remembered(reqs, sessionId) ==> r in Surviving(LedgerAfter(reqs), sessionId)
  {
    SinceMembers(LedgerAfter(reqs), sessionId, ResetMark(reqs, sessionId));
  }

  /** The rows remembered are the last of the surviving ones. */
  lemma {:induction false} RememberedIsSuffix(reqs: seq<Request>, sessionId: string) returns (earlier: seq<SentRow>)
    ensures Surviving(LedgerAfter(reqs), sessionId) == earlier + Remembered(reqs, sessionId)
  {
    MarkIsWithin(reqs, sessionId);
    earlier := SinceIsSuffix(LedgerAfter(reqs), sessionId, ResetMark(reqs, sessionId));
  }

  /** Over every run the agent of every session holds exactly the surviving rows sent since its last committed reset. */
  lemma {:induction false} RunKeepsAgentInSync(reqs: seq<Request>, sessionId: string)
    ensures InSync(AgentAfter(reqs, sessionId), Remembered(reqs, sessionId))
    decreases |reqs|
  {
    if reqs == [] {
      assert Remembered(reqs, sessionId) == [];
    } else {
      var before, last := reqs[..|reqs| - 1], reqs[|reqs| - 1];
      RunKeepsAgentInSync(before, sessionId);
      RememberedStep(reqs, sessionId);
      if Delivers(reqs, sessionId) {
        RunWellFormed(before);
        RememberedSurvives(before, sessionId);
        hide WellFormed, Commits, LedgerAfter, Remembered, Surviving, Replay, Unstale, NewSent, InSync;
        var rows := if last.reset.Some? then [] else Remembered(before, sessionId);
        var held := if last.reset.Some? then [] else AgentAfter(before, sessionId);
        NothingInSync();
        ReplayTracks(LedgerAfter(before), last, held, rows);
      }
    }
  }

  lemma {:induction false} NothingInSync()
    ensures InSync([], [])
  {
  }

  // ----- when resets leave nothing behind -----

  /** Each committed reset of the session invalidated all that had survived. */
  ghost predicate ResetsLeaveNothing(reqs: seq<Request>, sessionId: string) {
    forall k ::
      0 <= k < |reqs| && reqs[k].sessionId == sessionId && reqs[k].reset.Some? &&
      Commits(LedgerAfter(reqs[..k]), reqs[k]) ==>
        Kept(LedgerAfter(reqs[..k]), reqs[k]) == []
  }

  ghost predicate RemembersAllThroughout(reqs: seq<Request>, sessionId: string) {
    forall k :: 0 <= k <= |reqs| ==>
      Remembered(reqs[..k], sessionId) == Surviving(LedgerAfter(reqs[..k]), sessionId)
  }

  lemma {:induction false} LastRemembersAll(reqs: seq<Request>, sessionId: string)
    requires reqs != []
    requires Remembered(reqs[..|reqs| - 1], sessionId) == Surviving(LedgerAfter(reqs[..|reqs| - 1]), sessionId)
    ensures var before, last := reqs[..|reqs| - 1], reqs[|reqs| - 1];
            Remembered(reqs, sessionId) == Surviving(LedgerAfter(reqs), sessionId) <==>
            (Delivers(reqs, sessionId) && last.reset.Some? ==> Kept(LedgerAfter(before), last) == [])
  {
    var before, last := reqs[..|reqs| - 1], reqs[|reqs| - 1];
    var l := LedgerAfter(before);
    RunWellFormed(before);
    RememberedStep(reqs, sessionId);
    hide WellFormed, Commits, Recorded, NewSent, StalePrior, Remembered, Surviving;
    if Commits(l, last) {
      if last.sessionId != sessionId {
        OtherSessionsUntouched(l, last, sessionId);
      } else {
        SurvivingAfter(l, last);
        assert Unstale(l, last, Surviving(l, sessionId)) == Kept(l, last);
        NothingLeftOfNothing(l, last);
        assert Kept(l, last) == [] ==> [] + NewSent(l, last) == NewSent(l, last);
        assert |Kept(l, last) + NewSent(l, last)| == |Kept(l, last)| + |NewSent(l, last)|;
      }
    }
  }

  /** The agent remembers all that survives throughout a run iff every committed reset left nothing behind. */
  lemma {:induction false} RemembersAllIff(reqs: seq<Request>, sessionId: string)
    ensures RemembersAllThroughout(reqs, sessionId) <==> ResetsLeaveNothing(reqs, sessionId)
    decreases |reqs|
  {
    if reqs == [] {
      assert reqs[..0] == [] && Remembered([], sessionId) == [] == Surviving(LedgerAfter([]), sessionId);
    } else {
      hide RemembersAllThroughout, ResetsLeaveNothing, Remembered, LedgerAfter;
      RemembersAllIff(reqs[..|reqs| - 1], sessionId);
      RemembersAllSnoc(reqs, sessionId);
      LeaveNothingSnoc(reqs, sessionId);
      if RemembersAllThroughout(reqs[..|reqs| - 1], sessionId) {
        LastRemembersAll(reqs, sessionId);
      }
    }
  }

  lemma {:induction false} RemembersAllSnoc(reqs: seq<Request>, sessionId: string)
    requires reqs != []
    ensures RemembersAllThroughout(reqs, sessionId) <==>
            RemembersAllThroughout(reqs[..|reqs| - 1], sessionId) &&
            Remembered(reqs, sessionId) == Surviving(LedgerAfter(reqs), sessionId)
    ensures RemembersAllThroughout(reqs[..|reqs| - 1], sessionId) ==>
              Remembered(reqs[..|reqs| - 1], sessionId) == Surviving(LedgerAfter(reqs[..|reqs| - 1]), sessionId)
  {
    hide Remembered, LedgerAfter, Surviving;
    var before := reqs[..|reqs| - 1];
    assert forall k :: 0 <= k <= |before| ==> before[..k] == reqs[..k];
    assert reqs[..|reqs|] == reqs && before[..|before|] == before;
  }

  lemma {:induction false} LeaveNothingSnoc(reqs: seq<Request>, sessionId: string)
    requires reqs != []
    ensures var before, last := reqs[..|reqs| - 1], reqs[|reqs| - 1];
            ResetsLeaveNothing(reqs, sessionId) <==>
            ResetsLeaveNothing(before, sessionId) &&
            (Delivers(reqs, sessionId) && last.reset.Some? ==> Kept(LedgerAfter(before), last) == [])
  {
    hide LedgerAfter, Commits, Kept;
    var before := reqs[..|reqs| - 1];
    assert forall k :: 0 <= k <= |before| ==> before[..k] == reqs[..k];
    assert forall k :: 0 <= k < |before| ==> before[k] == reqs[k];
  }

  lemma {:induction false} RemembersAll(reqs: seq<Request>, sessionId: string)
    requires ResetsLeaveNothing(reqs, sessionId)
    ensures Remembered(reqs, sessionId) == Surviving(LedgerAfter(reqs), sessionId)
  {
    hide Remembered, LedgerAfter, Surviving, ResetsLeaveNothing;
    RemembersAllIff(reqs, sessionId);
    assert reqs[..|reqs|] == reqs;
  }

  // ----- reconstruction -----

  /**
    Exact reconstruction: over every run, on any clock and with any resets, the agent ends with the newest artifact iff
    each omission agrees with what arrived last since the session started over.
  */
  lemma {:induction false} RunReconstructsIff(reqs: seq<Request>)
    requires SectionsUnique(reqs) && LastCommits(reqs)
    ensures var before, last := reqs[..|reqs| - 1], reqs[|reqs| - 1];
            Reconstructs(AgentAfter(reqs, last.sessionId), last.artifact.sections) <==>
            OmissionsAgree(LedgerAfter(before), last, Remembered(before, last.sessionId))
  {
    var before, last := reqs[..|reqs| - 1], reqs[|reqs| - 1];
    var l, s := LedgerAfter(before), last.sessionId;
    RunWellFormed(before);
    RunKeepsAgentInSync(before, s);
    RememberedSurvives(before, s);
    AfterDelivery(reqs);
    hide WellFormed, Commits, LedgerAfter, Remembered, Surviving, Replay, AgentAfter, OmissionsAgree, Reconstructs;
    if last.reset.Some? {
      NothingInSync();
      BuildReconstructsIff(l, last, [], []);
      ResetOmitsNothing(l, last);
    } else {
      BuildReconstructsIff(l, last, AgentAfter(before, s), Remembered(before, s));
    }
  }

  lemma {:induction false} AfterDelivery(reqs: seq<Request>)
    requires LastCommits(reqs)
    ensures var before, last := reqs[..|reqs| - 1], reqs[|reqs| - 1];
            AgentAfter(reqs, last.sessionId) ==
            Replay(if last.reset.Some? then [] else AgentAfter(before, last.sessionId), Pack(LedgerAfter(before), last))
  {
  }

  lemma {:induction false} ResetOmitsNothing(l: Ledger, req: Request)
    requires WellFormed(l) && req.reset.Some?
    ensures forall s :: s in req.artifact.sections ==> !IsOmitted(s, Previous(l, req))
    ensures forall rows :: OmissionsAgree(l, req, rows)
  {
    NothingCurrent(l, req);
    FullResend(l, req);
    SentMembers(l, req);
  }

  /** A reset build always hands the agent the whole artifact. */
  lemma {:induction false} RunReconstructsAtReset(reqs: seq<Request>)
    requires SectionsUnique(reqs) && LastCommits(reqs) && reqs[|reqs| - 1].reset.Some?
    ensures Reconstructs(AgentAfter(reqs, reqs[|reqs| - 1].sessionId), reqs[|reqs| - 1].artifact.sections)
  {
    RunReconstructsIff(reqs);
    RunWellFormed(reqs[..|reqs| - 1]);
    ResetOmitsNothing(LedgerAfter(reqs[..|reqs| - 1]), reqs[|reqs| - 1]);
  }

  /** On an advancing clock: iff the row behind each omission was sent since the session started over. */
  lemma {:induction false} RunReconstructsOnAdvancingClockIff(reqs: seq<Request>)
    requires SectionsUnique(reqs) && ClockRuns(reqs) && LastCommits(reqs)
    ensures var before, last := reqs[..|reqs| - 1], reqs[|reqs| - 1];
            Reconstructs(AgentAfter(reqs, last.sessionId), last.artifact.sections) <==>
            OmissionsRemembered(LedgerAfter(before), last, Remembered(before, last.sessionId))
  {
    var before, last := reqs[..|reqs| - 1], reqs[|reqs| - 1];
    RunReconstructsIff(reqs);
    PrefixRuns(reqs);
    RunKeepsSendOrder(before, last.sessionId);
    RunWellFormed(before);
    var earlier := RememberedIsSuffix(before, last.sessionId);
    hide WellFormed, Commits, LedgerAfter, Remembered, Surviving, AgentAfter, OmissionsAgree, OmissionsRemembered;
    SendOrderOmissionsAgreeIff(LedgerAfter(before), last, earlier, Remembered(before, last.sessionId));
  }

  /** ... which holds whenever the resets so far left nothing behind. */
  lemma {:induction false} RunReconstructs(reqs: seq<Request>)
    requires SectionsUnique(reqs) && ClockRuns(reqs) && LastCommits(reqs)
    requires ResetsLeaveNothing(reqs[..|reqs| - 1], reqs[|reqs| - 1].sessionId)
    ensures Reconstructs(AgentAfter(reqs, reqs[|reqs| - 1].sessionId), reqs[|reqs| - 1].artifact.sections)
  {
    var before, last := reqs[..|reqs| - 1], reqs[|reqs| - 1];
    RunReconstructsOnAdvancingClockIff(reqs);
    RemembersAll(before, last.sessionId);
    CurrentSurvives(LedgerAfter(before), last);
  }

  lemma {:induction false} CurrentSurvives(l: Ledger, req: Request)
    ensures forall r :: r in CurrentPrior(l, req) ==> r in Surviving(l, req.sessionId)
  {
    StaleMembers(l, req);
    ActiveMembers(l, req.sessionId);
  }

  predicate NoResets(reqs: seq<Request>, sessionId: string) {
    forall k :: 0 <= k < |reqs| && reqs[k].sessionId == sessionId ==> reqs[k].reset.None?
  }

  /** In particular in a session that never reset. */
  lemma {:induction false} RunReconstructsWithoutResets(reqs: seq<Request>)
    requires SectionsUnique(reqs) && ClockRuns(reqs) && LastCommits(reqs)
    requires NoResets(reqs, reqs[|reqs| - 1].sessionId)
    ensures Reconstructs(AgentAfter(reqs, reqs[|reqs| - 1].sessionId), reqs[|reqs| - 1].artifact.sections)
  {
    var before := reqs[..|reqs| - 1];
    assert forall k :: 0 <= k < |before| ==> before[k] == reqs[k];
    RunReconstructs(reqs);
  }

  predicate HonestContent(reqs: seq<Request>) {
    forall i, s :: 0 <= i < |reqs| && s in reqs[i].artifact.sections ==> HonestContentHash(s)
  }

  ghost predicate HeldHonestly(h: Held) {
    exists refs: seq<string> :: h.contentHash == ContentSha256([h.sectionId, h.title, h.body] + refs)
  }

  predicate CarriesSection(h: Held, s: Section) {
    h.sectionId == s.id && h.title == s.title && h.body == s.body && h.contentHash == s.contentHash
  }

  lemma {:induction false} SentItemCarriesSection(l: Ledger, req: Request, item: PackItem)
    requires item in Pack(l, req) && IsSentItem(item)
    ensures exists s :: s in req.artifact.sections && CarriesSection(ToHeld(item), s)
  {
    NewSentRows(l, req);
    SentMembers(l, req);
    FilterContains(Pack(l, req), IsSentItem);
    var items := Filter(Pack(l, req), IsSentItem);
    assert item in items;
    var i :| 0 <= i < |items| && items[i] == item;
    var s := Sent(l, req)[i];
    assert item == SendItem(req.sessionId, req.artifact.artifactId, s, Previous(l, req));
    assert s in Sent(l, req) && CarriesSection(ToHeld(item), s);
  }

  lemma {:induction false} ReplayKeepsOrAdds(held: seq<Held>, items: seq<PackItem>, h: Held)
    requires h in Replay(held, items)
    ensures h in held || exists item :: item in items && IsSentItem(item) && h == ToHeld(item)
    decreases |items|
  {
    if items != [] {
      var init, last := items[..|items| - 1], items[|items| - 1];
      var before := Replay(held, init);
      SplitLast(items);
      if last.previousItemId.Some? {
        FilterContains(before, (h: Held) => h.itemId != last.previousItemId.value);
      }
      if h in before {
        ReplayKeepsOrAdds(held, init, h);
      } else {
        assert h in Receive(before, last) && last in items;
      }
    }
  }

  lemma {:induction false} RunHoldsHonestly(reqs: seq<Request>, sessionId: string)
    requires HonestContent(reqs)
    ensures forall h :: h in AgentAfter(reqs, sessionId) ==> HeldHonestly(h)
    decreases |reqs|
  {
    if reqs != [] {
      var before, last := reqs[..|reqs| - 1], reqs[|reqs| - 1];
      forall i, s | 0 <= i < |before| && s in before[i].artifact.sections ensures HonestContentHash(s) {
        assert before[i] == reqs[i];
      }
      RunHoldsHonestly(before, sessionId);
      forall h | h in AgentAfter(reqs, sessionId) ensures HeldHonestly(h) {
        if h !in AgentAfter(before, sessionId) {
          var held := if last.reset.Some? then [] else AgentAfter(before, sessionId);
          ReplayKeepsOrAdds(held, Pack(LedgerAfter(before), last), h);
          var item :| item in Pack(LedgerAfter(before), last) && IsSentItem(item) && h == ToHeld(item);
          SentItemCarriesSection(LedgerAfter(before), last, item);
          var s :| s in last.artifact.sections && CarriesSection(h, s);
          assert reqs[|reqs| - 1] == last && HonestContentHash(s);
          assert h.contentHash == ContentSha256([h.sectionId, h.title, h.body] + s.dependencyRefs);
        }
      }
    }
  }

  lemma {:induction false} LastHeldIsHeld(held: seq<Held>, sectionId: string)
    ensures LastHeld(held, sectionId).Some? ==>
              LastHeld(held, sectionId).value in held && LastHeld(held, sectionId).value.sectionId == sectionId
    decreases |held|
  {
    if held != [] {
      SplitLast(held);
      LastHeldIsHeld(held[..|held| - 1], sectionId);
    }
  }

  lemma {:induction false} SameHashSameText(
    id: string, t1: string, b1: string, refs1: seq<string>, t2: string, b2: string, refs2: seq<string>)
    requires [id, t1, b1] + refs1 == [id, t2, b2] + refs2
    ensures t1 == t2 && b1 == b2
  {
    var x, y := [id, t1, b1] + refs1, [id, t2, b2] + refs2;
    assert x[1] == t1 && y[1] == t2 && x[2] == b1 && y[2] == b2;
  }

  /** With the compiler's content hashes a reconstructing agent holds the very title and body of every section. */
  lemma {:induction false} RunReconstructsText(reqs: seq<Request>, sessionId: string, s: Section)
    requires HonestContent(reqs) && HonestContentHash(s) && Holds(AgentAfter(reqs, sessionId), s)
    ensures var held := LastHeld(AgentAfter(reqs, sessionId), s.id);
            held.Some? && held.value.title == s.title && held.value.body == s.body
  {
    RunHoldsHonestly(reqs, sessionId);
    LastHeldIsHeld(AgentAfter(reqs, sessionId), s.id);
    var h := LastHeld(AgentAfter(reqs, sessionId), s.id).value;
    assert HeldHonestly(h);
    var refs: seq<string> :| h.contentHash == ContentSha256([h.sectionId, h.title, h.body] + refs);
    SameHashSameText(s.id, h.title, h.body, refs, s.title, s.body, s.dependencyRefs);
  }

  // ----- omissions -----

  ghost predicate HoldsPieceOf(held: seq<Held>, r: SentRow) {
    exists h :: h in held && Mirrors(h, r)
  }

  lemma {:induction false} PieceIffRow(l: Ledger, sessionId: string, held: seq<Held>, rows: seq<SentRow>, r: SentRow)
    requires WellFormed(l) && InSync(held, rows) && r in Surviving(l, sessionId)
    requires forall x :: x in rows ==> x in Surviving(l, sessionId)
    ensures HoldsPieceOf(held, r) <==> r in rows
  {
    SurvivingMembers(l, sessionId);
    if h :| h in held && Mirrors(h, r) {
      var i :| 0 <= i < |held| && held[i] == h;
      assert Mirrors(held[i], rows[i]) && rows[i] in rows;
      SameIdSameRow(l.sent, rows[i], r);
    }
    if r in rows {
      var i :| 0 <= i < |rows| && rows[i] == r;
      assert Mirrors(held[i], rows[i]) && held[i] in held;
    }
  }

  /**
    Over every run, on any clock and with any resets: an omission rests on a listed, non-stale row of this session with
    the section's content; the agent held that row's piece before the build, and holds it after, iff the row was sent
    since the session started over.
  */
  lemma {:induction false} RunOmissionIsHeldIff(reqs: seq<Request>, s: Section) returns (r: SentRow)
    requires LastCommits(reqs)
    requires IsOmitted(s, Previous(LedgerAfter(reqs[..|reqs| - 1]), reqs[|reqs| - 1]))
    ensures var before, last := reqs[..|reqs| - 1], reqs[|reqs| - 1];
            && r in CurrentPrior(LedgerAfter(before), last) && r.sectionId == s.id && r.contentHash == s.contentHash
            && (HoldsPieceOf(AgentAfter(before, last.sessionId), r) <==> r in Remembered(before, last.sessionId))
            && (HoldsPieceOf(AgentAfter(reqs, last.sessionId), r) <==> r in Remembered(before, last.sessionId))
  {
    var before, last := reqs[..|reqs| - 1], reqs[|reqs| - 1];
    var l, id := LedgerAfter(before), last.sessionId;
    RunWellFormed(before);
    r := OmittedHasCurrentRow(l, last, s);
    CurrentMeansNoReset(l, last);
    CurrentSurvives(l, last);
    RunKeepsAgentInSync(before, id);
    RememberedSurvives(before, id);
    AfterDelivery(reqs);
    hide LedgerAfter, Remembered, AgentAfter, Replay, InSync, HoldsPieceOf, WellFormed, Commits, Surviving;
    hide CurrentPrior;
    PieceIffRow(l, id, AgentAfter(before, id), Remembered(before, id), r);
    KeptPieceIff(l, last, AgentAfter(before, id), Remembered(before, id), r);
  }

  lemma {:induction false} KeptPieceIff(l: Ledger, req: Request, held: seq<Held>, rows: seq<SentRow>, r: SentRow)
    requires WellFormed(l) && Commits(l, req) && InSync(held, rows) && r in CurrentPrior(l, req)
    requires forall x :: x in rows ==> x in Surviving(l, req.sessionId)
    ensures HoldsPieceOf(Replay(held, Pack(l, req)), r) <==> r in rows
  {
    var after := Unstale(l, req, rows) + NewSent(l, req);
    ReplayTracks(l, req, held, rows);
    FilterContains(rows, x => x !in StalePrior(l, req));
    StaleMembers(l, req);
    ActiveMembers(l, req.sessionId);
    SurvivingMembers(l, req.sessionId);
    hide Replay, InSync, Surviving, NewSent, StalePrior, CurrentPrior, WellFormed, Commits;
    assert r in after <==> r in rows by {
      if r in NewSent(l, req) {
        OldIsNotNew(l, req, r);
      }
    }
    forall i | 0 <= i < |after| && after[i].sentItemId == r.sentItemId ensures after[i] == r {
      assert after[i] in after;
      SameRowAfter(l, req, after[i], r);
    }
    PieceIffRowIn(Replay(held, Pack(l, req)), after, r);
  }

  lemma {:induction false} OldIsNotNew(l: Ledger, req: Request, r: SentRow)
    requires Commits(l, req) && r in l.sent
    ensures r !in NewSent(l, req)
  {
    hide NewSent;
    if r in NewSent(l, req) {
      FreshIds(l.sent, NewSent(l, req), r, r);
    }
  }

  lemma {:induction false} SameRowAfter(l: Ledger, req: Request, a: SentRow, r: SentRow)
    requires WellFormed(l) && Commits(l, req) && r in l.sent && (a in l.sent || a in NewSent(l, req))
    requires a.sentItemId == r.sentItemId
    ensures a == r
  {
    hide NewSent;
    if a in l.sent {
      SameIdSameRow(l.sent, a, r);
    } else {
      FreshIds(l.sent, NewSent(l, req), r, a);
    }
  }

  lemma {:induction false} PieceIffRowIn(held: seq<Held>, rows: seq<SentRow>, r: SentRow)
    requires InSync(held, rows)
    requires forall i :: 0 <= i < |rows| && rows[i].sentItemId == r.sentItemId ==> rows[i] == r
    ensures HoldsPieceOf(held, r) <==> r in rows
  {
    if h :| h in held && Mirrors(h, r) {
      var i :| 0 <= i < |held| && held[i] == h;
      assert Mirrors(held[i], rows[i]);
      assert rows[i] == r;
    }
    if r in rows {
      var i :| 0 <= i < |rows| && rows[i] == r;
      assert Mirrors(held[i], rows[i]) && held[i] in held;
    }
  }

  /** When the resets so far left nothing behind, every omission is of something the agent held and still holds. */
  lemma {:induction false} RunOmissionsAreHeld(reqs: seq<Request>, s: Section) returns (r: SentRow)
    requires LastCommits(reqs) && ResetsLeaveNothing(reqs[..|reqs| - 1], reqs[|reqs| - 1].sessionId)
    requires IsOmitted(s, Previous(LedgerAfter(reqs[..|reqs| - 1]), reqs[|reqs| - 1]))
    ensures r.sectionId == s.id && r.contentHash == s.contentHash
    ensures HoldsPieceOf(AgentAfter(reqs[..|reqs| - 1], reqs[|reqs| - 1].sessionId), r)
    ensures HoldsPieceOf(AgentAfter(reqs, reqs[|reqs| - 1].sessionId), r)
  {
    var before, last := reqs[..|reqs| - 1], reqs[|reqs| - 1];
    hide LedgerAfter, Remembered, AgentAfter, HoldsPieceOf, Commits, Surviving, CurrentPrior, ResetsLeaveNothing;
    r := RunOmissionIsHeldIff(reqs, s);
    CurrentSurvives(LedgerAfter(before), last);
    RemembersAll(before, last.sessionId);
  }

  /** With the compiler's content hashes a held piece of an omitted section has its very title and body. */
  lemma {:induction false} RunOmissionsHoldText(reqs: seq<Request>, sessionId: string, s: Section, r: SentRow)
    returns (h: Held)
    requires HonestContent(reqs) && HonestContentHash(s) && HoldsPieceOf(AgentAfter(reqs, sessionId), r)
    requires r.sectionId == s.id && r.contentHash == s.contentHash
    ensures h in AgentAfter(reqs, sessionId) && Mirrors(h, r) && h.title == s.title && h.body == s.body
  {
    h :| h in AgentAfter(reqs, sessionId) && Mirrors(h, r);
    RunHoldsHonestly(reqs, sessionId);
    assert HeldHonestly(h);
    var refs: seq<string> :| h.contentHash == ContentSha256([h.sectionId, h.title, h.body] + refs);
    SameHashSameText(s.id, h.title, h.body, refs, s.title, s.body, s.dependencyRefs);
  }
}

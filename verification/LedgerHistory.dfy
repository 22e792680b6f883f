/** First-sent times and send counts over the surviving rows of a section. */
module LedgerHistory {
  import opened Common
  import opened Ordering
  import opened LedgerTypes
  import opened SessionLedger
  import opened DurableBuild
  import opened LedgerInvariants
  import opened LedgerReconstruction
  import opened LedgerFreshness

  /** Rows of one section share the time of their first send, which is no later than their own. */
  predicate FirstSendShared(rows: seq<SentRow>) {
    && (forall r :: r in rows ==> r.firstSentAt <= r.lastSentAt && r.sendCount > 0)
    && (forall a, b :: a in rows && b in rows && a.sectionId == b.sectionId ==> a.firstSentAt == b.firstSentAt)
  }

  /** Within a section send counts strictly increase in send order. */
  predicate CountsGrow(rows: seq<SentRow>) {
    forall i, j :: 0 <= i < j < |rows| && rows[i].sectionId == rows[j].sectionId ==>
      rows[i].sendCount < rows[j].sendCount
  }

  /** The clock has not gone back since the session's surviving rows were sent. */
  predicate ClockHolds(l: Ledger, req: Request) {
    forall r :: r in Surviving(l, req.sessionId) ==> r.lastSentAt <= req.now
  }

  /** Known before a build: of each section it sends, the listed row carries the largest send count. */
  predicate ListedCarriesLargest(l: Ledger, req: Request) {
    forall t, r ::
      t in Prior(l, req) && r in Surviving(l, req.sessionId) && r.sectionId == t.sectionId &&
      SectionSent(l, req, t.sectionId) ==>
        r.sendCount <= t.sendCount
  }

  /** The earlier row a resend continues from is the one the section is listed with. */
  lemma {:induction false} LatestPriorIsListed(l: Ledger, req: Request, sectionId: string)
    requires WellFormed(l)
    ensures forall r :: r in Prior(l, req) && r.sectionId == sectionId ==>
              LatestPriorSentItem(Prior(l, req), sectionId) == Some(r)
    ensures LatestPriorSentItem(Prior(l, req), sectionId).Some? ==>
              LatestPriorSentItem(Prior(l, req), sectionId).value in Prior(l, req) &&
              LatestPriorSentItem(Prior(l, req), sectionId).value.sectionId == sectionId
  {
    var prior := Prior(l, req);
    FilterContains(prior, (r: SentRow) => r.sectionId == sectionId);
    var sorted := Sort(RowsOfSection(prior, sectionId), (a: SentRow, b: SentRow) => a.lastSentAt < b.lastSentAt);
    if sorted != [] {
      assert sorted[|sorted| - 1] in sorted;
    }
    forall r | r in prior && r.sectionId == sectionId ensures LatestPriorSentItem(prior, sectionId) == Some(r) {
      assert r in sorted;
      OneActivePerSection(l, req.sessionId, sorted[|sorted| - 1], r);
    }
  }

  /** A section with surviving rows is resent from its listed row. */
  lemma {:induction false} ResendContinuesListed(l: Ledger, req: Request, earlier: SentRow, added: SentRow)
    returns (t: SentRow)
    requires WellFormed(l) && earlier in Surviving(l, req.sessionId) && added in NewSent(l, req)
    requires earlier.sectionId == added.sectionId
    ensures t in Prior(l, req) && t in Surviving(l, req.sessionId) && t.sectionId == added.sectionId
    ensures added.firstSentAt == t.firstSentAt && added.sendCount == t.sendCount + 1
  {
    var section := NewRowOrigin(l, req, added);
    t := NewestExists(Surviving(l, req.sessionId), earlier.sectionId);
    ActiveMembers(l, req.sessionId);
    LatestPriorIsListed(l, req, earlier.sectionId);
  }

  lemma {:induction false} NewRowHistory(l: Ledger, req: Request, r: SentRow)
    requires WellFormed(l) && ClockHolds(l, req) && FirstSendShared(Surviving(l, req.sessionId)) && r in NewSent(l, req)
    ensures r.firstSentAt <= r.lastSentAt && r.sendCount > 0
  {
    var section := NewRowOrigin(l, req, r);
    LatestPriorIsListed(l, req, r.sectionId);
    ActiveMembers(l, req.sessionId);
  }

  lemma {:induction false} NewRowsShareFirst(l: Ledger, req: Request, a: SentRow, b: SentRow)
    requires a in NewSent(l, req) && b in NewSent(l, req) && a.sectionId == b.sectionId
    ensures a.firstSentAt == b.firstSentAt
  {
    var x := NewRowOrigin(l, req, a);
    var y := NewRowOrigin(l, req, b);
  }

  /** A build on any clock that does not go back keeps the shared first send, also when it invalidates and resends. */
  lemma {:induction false} BuildKeepsFirstSend(l: Ledger, req: Request)
    requires WellFormed(l) && Commits(l, req) && ClockHolds(l, req) && FirstSendShared(Surviving(l, req.sessionId))
    ensures FirstSendShared(Surviving(Recorded(l, req), req.sessionId))
  {
    hide WellFormed, Commits, Recorded, Surviving, Kept, NewSent, Prior;
    SurvivingAfter(l, req);
    KeptMembers(l, req);
    forall r | r in NewSent(l, req) ensures r.firstSentAt <= r.lastSentAt && r.sendCount > 0 {
      NewRowHistory(l, req, r);
    }
    forall a, b | a in NewSent(l, req) && b in NewSent(l, req) && a.sectionId == b.sectionId
      ensures a.firstSentAt == b.firstSentAt
    {
      NewRowsShareFirst(l, req, a, b);
    }
    forall a, b | a in Kept(l, req) && b in NewSent(l, req) && a.sectionId == b.sectionId
      ensures a.firstSentAt == b.firstSentAt
    {
      var t := ResendContinuesListed(l, req, a, b);
    }
  }

  lemma {:induction false} FilterCounts(rows: seq<SentRow>, p: SentRow -> bool)
    requires CountsGrow(rows)
    ensures CountsGrow(Filter(rows, p))
  {
    forall i, j | 0 <= i < j < |Filter(rows, p)| && Filter(rows, p)[i].sectionId == Filter(rows, p)[j].sectionId
      ensures Filter(rows, p)[i].sendCount < Filter(rows, p)[j].sendCount
    {
      var a, b := FilterPosition(rows, p, i, j);
    }
  }

  lemma {:induction false} AppendCountsIff(kept: seq<SentRow>, added: seq<SentRow>)
    requires CountsGrow(kept)
    requires forall i, j :: 0 <= i < j < |added| ==> added[i].sectionId != added[j].sectionId
    ensures CountsGrow(kept + added) <==>
            forall a, b :: a in kept && b in added && a.sectionId == b.sectionId ==> a.sendCount < b.sendCount
  {
    var rows := kept + added;
    if CountsGrow(rows) {
      forall a, b | a in kept && b in added && a.sectionId == b.sectionId ensures a.sendCount < b.sendCount {
        var i :| 0 <= i < |kept| && kept[i] == a;
        var j :| 0 <= j < |added| && added[j] == b;
        assert rows[i] == a && rows[|kept| + j] == b;
      }
    }
    if forall a, b :: a in kept && b in added && a.sectionId == b.sectionId ==> a.sendCount < b.sendCount {
      forall i, j | 0 <= i < j < |rows| && rows[i].sectionId == rows[j].sectionId
        ensures rows[i].sendCount < rows[j].sendCount
      {
        if i < |kept| <= j {
          assert rows[i] in kept && rows[j] in added;
        }
      }
    }
  }

  /** A build keeps counts growing iff the listed row of each section it sends carries the largest count. */
  lemma {:induction false} BuildKeepsCountsIff(l: Ledger, req: Request)
    requires WellFormed(l) && Commits(l, req) && UniqueSections(req.artifact.sections)
    requires CountsGrow(Surviving(l, req.sessionId))
    ensures CountsGrow(Surviving(Recorded(l, req), req.sessionId)) <==> ListedCarriesLargest(l, req)
  {
    hide WellFormed, Commits, Recorded, Surviving, NewSent, Prior, SectionSent;
    SurvivingAfter(l, req);
    FilterCounts(Surviving(l, req.sessionId), r => r !in StalePrior(l, req));
    forall i, j | 0 <= i < j < |NewSent(l, req)| ensures NewSent(l, req)[i].sectionId != NewSent(l, req)[j].sectionId {
      NewRowSections(l, req, i, j);
    }
    AppendCountsIff(Kept(l, req), NewSent(l, req));
    hide Kept;
    KeptMembers(l, req);
    if ListedCarriesLargest(l, req) {
      forall a, b | a in Kept(l, req) && b in NewSent(l, req) && a.sectionId == b.sectionId
        ensures a.sendCount < b.sendCount
      {
        var t := ResendContinuesListed(l, req, a, b);
        NewRowMeansSent(l, req, b);
      }
    }
    if forall a, b :: a in Kept(l, req) && b in NewSent(l, req) && a.sectionId == b.sectionId ==>
      a.sendCount < b.sendCount {
      forall t, r | t in Prior(l, req) && r in Surviving(l, req.sessionId) && r.sectionId == t.sectionId &&
        SectionSent(l, req, t.sectionId)
        ensures r.sendCount <= t.sendCount
      {
        ListedCarriesLargestOf(l, req, t, r);
      }
    }
  }

  lemma {:induction false} NewRowMeansSent(l: Ledger, req: Request, b: SentRow)
    requires b in NewSent(l, req)
    ensures SectionSent(l, req, b.sectionId)
  {
    var s := NewRowOrigin(l, req, b);
  }

  lemma {:induction false} ListedCarriesLargestOf(l: Ledger, req: Request, t: SentRow, r: SentRow)
    requires WellFormed(l) && t in Prior(l, req) && r in Surviving(l, req.sessionId) && r.sectionId == t.sectionId
    requires SectionSent(l, req, t.sectionId)
    requires forall a, b :: a in Kept(l, req) && b in NewSent(l, req) && a.sectionId == b.sectionId ==>
               a.sendCount < b.sendCount
    ensures r.sendCount <= t.sendCount
  {
    hide WellFormed, Surviving, NewSent, ListActive, Kept;
    var s :| s in Sent(l, req) && s.id == t.sectionId;
    SentSectionHasRow(l, req, s);
    var b := SentRowFor(l, req, s);
    var listed := ResendContinuesListed(l, req, r, b);
    OneActivePerSection(l, req.sessionId, listed, t);
    KeptMembers(l, req);
    StaleMembers(l, req);
    if r in StalePrior(l, req) {
      OneActivePerSection(l, req.sessionId, r, t);
    }
  }

  /** When later rows are newer, the listed row is the last one sent and carries the largest count. */
  lemma {:induction false} SendOrderCarriesLargest(l: Ledger, req: Request)
    requires SendOrder(Surviving(l, req.sessionId)) && CountsGrow(Surviving(l, req.sessionId))
    ensures ListedCarriesLargest(l, req)
  {
    hide Surviving, ListActive, SectionSent, Newer;
    var rows := Surviving(l, req.sessionId);
    ActiveMembers(l, req.sessionId);
    forall t, r | t in Prior(l, req) && r in rows && r.sectionId == t.sectionId ensures r.sendCount <= t.sendCount {
      var i :| 0 <= i < |rows| && rows[i] == r;
      var j :| 0 <= j < |rows| && rows[j] == t;
      assert !Newer(rows[i], rows[j]);
    }
  }
}

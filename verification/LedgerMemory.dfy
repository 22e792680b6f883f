/** The rows a session was sent from some point on: what an agent that started over there can know of. */
module LedgerMemory {
  import opened Common
  import opened LedgerTypes
  import opened DurableBuild
  import opened SessionLedger
  import opened LedgerInvariants

  function Stands(l: Ledger, sessionId: string): SentRow -> bool {
    (r: SentRow) => r.sessionId == sessionId && !Invalidated(l.packs, r)
  }

  /** Among the rows from `mark` on, those of the session that are not invalidated, in send order. */
  function SentSince(l: Ledger, sessionId: string, mark: nat): seq<SentRow> {
    if mark <= |l.sent| then Filter(l.sent[mark..], Stands(l, sessionId)) else []
  }

  /** What a build leaves of some rows. */
  function Unstale(l: Ledger, req: Request, rows: seq<SentRow>): seq<SentRow> {
    Filter(rows, r => r !in StalePrior(l, req))
  }

  lemma {:induction false} SurvivingStand(l: Ledger, sessionId: string)
    ensures Surviving(l, sessionId) == Filter(l.sent, Stands(l, sessionId))
  {
    var p := (r: SentRow) => r.sessionId == sessionId && !Invalidated(l.packs, r);
    FilterAgrees(l.sent, p, Stands(l, sessionId));
    assert Surviving(l, sessionId) == Filter(l.sent, p);
  }

  lemma {:induction false} SinceTheStart(l: Ledger, sessionId: string)
    ensures SentSince(l, sessionId, 0) == Surviving(l, sessionId)
  {
    assert l.sent[0..] == l.sent;
    SurvivingStand(l, sessionId);
  }

  /** They end the session's surviving rows. */
  lemma {:induction false} SinceIsSuffix(l: Ledger, sessionId: string, mark: nat) returns (earlier: seq<SentRow>)
    requires mark <= |l.sent|
    ensures Surviving(l, sessionId) == earlier + SentSince(l, sessionId, mark)
  {
    earlier := Filter(l.sent[..mark], Stands(l, sessionId));
    assert l.sent == l.sent[..mark] + l.sent[mark..];
    FilterConcat(l.sent[..mark], l.sent[mark..], Stands(l, sessionId));
    SurvivingStand(l, sessionId);
  }

  lemma {:induction false} OldRowStands(l: Ledger, req: Request, sessionId: string, r: SentRow)
    requires WellFormed(l) && Commits(l, req) && r in l.sent
    ensures Stands(Recorded(l, req), sessionId)(r) <==>
            Stands(l, sessionId)(r) && !(sessionId == req.sessionId && r in StalePrior(l, req))
  {
    hide WellFormed, Commits, Recorded, StalePrior, Invalidated;
    OldRowInvalidated(l, req, r);
  }

  lemma {:induction false} NewRowStands(l: Ledger, req: Request, sessionId: string, r: SentRow)
    requires WellFormed(l) && Commits(l, req) && r in NewSent(l, req)
    ensures Stands(Recorded(l, req), sessionId)(r) <==> sessionId == req.sessionId
  {
    hide WellFormed, Commits, Recorded, Invalidated, NewSent;
    NewRowNotInvalidated(l, req, r);
    var section := NewRowOrigin(l, req, r);
  }

  lemma {:induction false} RowsSince(l: Ledger, req: Request, mark: nat)
    requires mark <= |l.sent|
    ensures mark <= |Recorded(l, req).sent|
    ensures Recorded(l, req).sent[mark..] == l.sent[mark..] + NewSent(l, req)
  {
    hide NewSent, NewPacks, NewOmitted, NewDependencies;
  }

  /** A build of the session drops the stale ones and adds the new ones. */
  lemma {:induction false} SinceAfterBuild(l: Ledger, req: Request, mark: nat)
    requires WellFormed(l) && Commits(l, req) && mark <= |l.sent|
    ensures SentSince(Recorded(l, req), req.sessionId, mark) ==
              Unstale(l, req, SentSince(l, req.sessionId, mark)) + NewSent(l, req)
  {
    hide WellFormed, Commits, Recorded, Stands, NewSent, StalePrior;
    var s, rows := req.sessionId, l.sent[mark..];
    var p, both := Stands(l, s), Stands(Recorded(l, req), s);
    RowsSince(l, req, mark);
    forall r | r in rows ensures both(r) == (p(r) && r !in StalePrior(l, req)) {
      OldRowStands(l, req, s, r);
    }
    FilterTwice(rows, p, r => r !in StalePrior(l, req), both);
    forall r | r in NewSent(l, req) ensures both(r) {
      NewRowStands(l, req, s, r);
    }
    FilterKeepsAll(NewSent(l, req), both);
    FilterConcat(rows, NewSent(l, req), both);
  }

  /** Since just before a build only what it sent has arrived. */
  lemma {:induction false} SinceJustBefore(l: Ledger, req: Request)
    requires WellFormed(l) && Commits(l, req)
    ensures SentSince(Recorded(l, req), req.sessionId, |l.sent|) == NewSent(l, req)
  {
    SinceAfterBuild(l, req, |l.sent|);
    assert SentSince(l, req.sessionId, |l.sent|) == [];
    assert [] + NewSent(l, req) == NewSent(l, req);
  }

  /** A build for another session changes nothing here. */
  lemma {:induction false} SinceInOtherSession(l: Ledger, req: Request, other: string, mark: nat)
    requires WellFormed(l) && Commits(l, req) && other != req.sessionId && mark <= |l.sent|
    ensures SentSince(Recorded(l, req), other, mark) == SentSince(l, other, mark)
  {
    hide WellFormed, Commits, Recorded, Stands, NewSent, StalePrior;
    var rows := l.sent[mark..];
    var p, q := Stands(l, other), Stands(Recorded(l, req), other);
    RowsSince(l, req, mark);
    forall r | r in rows ensures p(r) == q(r) {
      OldRowStands(l, req, other, r);
    }
    FilterAgrees(rows, p, q);
    forall r | r in NewSent(l, req) ensures !q(r) {
      NewRowStands(l, req, other, r);
    }
    FilterKeepsNone(NewSent(l, req), q);
    FilterConcat(rows, NewSent(l, req), q);
  }

  lemma {:induction false} SinceMembers(l: Ledger, sessionId: string, mark: nat)
    ensures forall r :: r in SentSince(l, sessionId, mark) ==> r in Surviving(l, sessionId)
  {
    if mark <= |l.sent| {
      var earlier := SinceIsSuffix(l, sessionId, mark);
    }
  }

  /** A reset build leaves all it should of the past iff every surviving row was a listed one. */
  lemma {:induction false} ResetLeavesNothingIff(l: Ledger, req: Request)
    requires req.reset.Some?
    ensures Kept(l, req) == [] <==> forall r :: r in Surviving(l, req.sessionId) ==> r in Prior(l, req)
  {
    var rows := Surviving(l, req.sessionId);
    StaleMembers(l, req);
    FilterContains(rows, r => r !in StalePrior(l, req));
    EmptyIff(Kept(l, req));
  }
}

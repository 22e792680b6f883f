/** The agent's side: all it does is replay the packs it is handed. */
module LedgerAgent {
  import opened Common
  import opened LedgerTypes
  import opened ContextDiff
  import opened SessionLedger
  import opened DurableBuild
  import opened LedgerInvariants
  import opened LedgerMemory

  /** One piece of context the agent keeps. */
  datatype Held = Held(itemId: string, sectionId: string, contentHash: ContentHash, title: string, body: string)

  function Without(held: seq<Held>, itemId: string): seq<Held> {
    Filter(held, (h: Held) => h.itemId != itemId)
  }

  function Receive(held: seq<Held>, item: PackItem): seq<Held> {
    match item.state
    case New => held + [Held(item.itemId, item.sectionId, item.contentHash, item.title, item.body)]
    case Changed => held + [Held(item.itemId, item.sectionId, item.contentHash, item.title, item.body)]
    case Pinned => held + [Held(item.itemId, item.sectionId, item.contentHash, item.title, item.body)]
    case InvalidatePrevious => if item.previousItemId.Some? then Without(held, item.previousItemId.value) else held
    case OmitUnchanged => held
    case RestoreAvailable => held
  }

  function Replay(held: seq<Held>, items: seq<PackItem>): seq<Held> {
    if items == [] then held else Receive(Replay(held, items[..|items| - 1]), items[|items| - 1])
  }

  predicate Mirrors(h: Held, r: SentRow) {
    h.itemId == r.sentItemId && h.sectionId == r.sectionId && h.contentHash == r.contentHash
  }

  /** The agent holds, in order, what the ledger believes it holds. */
  predicate InSync(held: seq<Held>, rows: seq<SentRow>) {
    |held| == |rows| && forall i :: 0 <= i < |held| ==> Mirrors(held[i], rows[i])
  }

  function ToHeld(item: PackItem): Held {
    Held(item.itemId, item.sectionId, item.contentHash, item.title, item.body)
  }

  lemma {:induction false} ReplayConcat(held: seq<Held>, a: seq<PackItem>, b: seq<PackItem>)
    ensures Replay(held, a + b) == Replay(Replay(held, a), b)
    decreases |b|
  {
    if b == [] {
      assert a + b == a;
    } else {
      var init, last := b[..|b| - 1], b[|b| - 1];
      SplitLast(b);
      ConcatAssociative(a, init, [last]);
      ReplayConcat(held, a, init);
      assert ((a + init) + [last])[..|a + init|] == a + init;
    }
  }

  /** A diff only adds: one held piece per sent item, in order. */
  lemma {:induction false} ReplayDiff(held: seq<Held>, items: seq<PackItem>)
    requires forall i :: i in items ==> !i.state.InvalidatePrevious?
    ensures Replay(held, items) == held + Map(Filter(items, IsSentItem), ToHeld)
    decreases |items|
  {
    if items == [] {
      assert Map(Filter(items, IsSentItem), ToHeld) == [];
    } else {
      var init, last := items[..|items| - 1], items[|items| - 1];
      SplitLast(items);
      ReplayDiff(held, init);
      if IsSentItem(last) {
        assert Map(Filter(items, IsSentItem), ToHeld) == Map(Filter(init, IsSentItem), ToHeld) + [ToHeld(last)];
        ConcatAssociative(held, Map(Filter(init, IsSentItem), ToHeld), [ToHeld(last)]);
      }
    }
  }

  predicate Dropped(stale: seq<SentRow>, itemId: string) {
    exists r :: r in stale && r.sentItemId == itemId
  }

  function Retained(held: seq<Held>, stale: seq<SentRow>): seq<Held> {
    Filter(held, (h: Held) => !Dropped(stale, h.itemId))
  }

  lemma {:induction false} ReplaySnoc(held: seq<Held>, items: seq<PackItem>, item: PackItem)
    ensures Replay(held, items + [item]) == Receive(Replay(held, items), item)
  {
    assert (items + [item])[..|items|] == items;
  }

  lemma {:induction false} ReceiveInvalidation(held: seq<Held>, req: Request, r: SentRow)
    ensures Receive(held, CreateInvalidationPackItem(req, r)) == Without(held, r.sentItemId)
  {
  }

  lemma {:induction false} RetainedSnoc(held: seq<Held>, stale: seq<SentRow>, r: SentRow)
    ensures Retained(held, stale + [r]) == Without(Retained(held, stale), r.sentItemId)
  {
    var p := (h: Held) => !Dropped(stale, h.itemId);
    var q := (h: Held) => h.itemId != r.sentItemId;
    var both := (h: Held) => !Dropped(stale + [r], h.itemId);
    forall h | h in held ensures both(h) == (p(h) && q(h)) {
      assert forall x :: x in stale + [r] <==> x in stale || x == r;
    }
    FilterTwice(held, p, q, both);
    assert Retained(held, stale) == Filter(held, p);
    assert Retained(held, stale + [r]) == Filter(held, both);
  }

  /** Replaying the invalidations drops exactly the stale items. */
  lemma {:induction false} ReplayInvalidations(held: seq<Held>, req: Request, stale: seq<SentRow>)
    ensures Replay(held, Invalidations(req, stale)) == Retained(held, stale)
    decreases |stale|
  {
    if stale == [] {
      FilterKeepsAll(held, (h: Held) => !Dropped(stale, h.itemId));
    } else {
      hide CreateInvalidationPackItem, Receive, Retained, Without;
      var init, last := stale[..|stale| - 1], stale[|stale| - 1];
      SplitLast(stale);
      ReplayInvalidations(held, req, init);
      assert Invalidations(req, stale) == Invalidations(req, init) + [CreateInvalidationPackItem(req, last)];
      ReplaySnoc(held, Invalidations(req, init), CreateInvalidationPackItem(req, last));
      ReceiveInvalidation(Retained(held, init), req, last);
      RetainedSnoc(held, init, last);
    }
  }

  lemma {:induction false} FilterInSync(held: seq<Held>, rows: seq<SentRow>, p: Held -> bool, q: SentRow -> bool)
    requires InSync(held, rows)
    requires forall i :: 0 <= i < |held| ==> p(held[i]) == q(rows[i])
    ensures InSync(Filter(held, p), Filter(rows, q))
    decreases |held|
  {
    if held != [] {
      FilterInSync(held[..|held| - 1], rows[..|rows| - 1], p, q);
    }
  }

  /**
    An agent that holds the pieces of some of the surviving rows, in order, holds after one pack those of them that are
    not stale, followed by what was sent.
  */
  lemma {:induction false} ReplayTracks(l: Ledger, req: Request, held: seq<Held>, rows: seq<SentRow>)
    requires WellFormed(l) && InSync(held, rows) && forall r :: r in rows ==> r in Surviving(l, req.sessionId)
    ensures InSync(Replay(held, Pack(l, req)), Unstale(l, req, rows) + NewSent(l, req))
  {
    hide Surviving, StalePrior, Prior, Previous, PackFor, NewSent, Invalidations, Replay, WellFormed;
    var stale := StalePrior(l, req);
    var diff := PackFor(req.sessionId, req.artifact.artifactId, req.artifact.sections, Previous(l, req));
    ReplayConcat(held, Invalidations(req, stale), diff);
    ReplayInvalidations(held, req, stale);
    forall item | item in diff ensures !item.state.InvalidatePrevious? {
      DiffItemIsNoInvalidation(l, req, item);
    }
    ReplayDiff(Retained(held, stale), diff);
    var p := (h: Held) => !Dropped(stale, h.itemId);
    var q := (r: SentRow) => r !in stale;
    forall i | 0 <= i < |held| ensures p(held[i]) == q(rows[i]) {
      assert rows[i] in rows;
      DroppedIff(l, req, rows[i]);
    }
    FilterInSync(held, rows, p, q);
    assert Retained(held, stale) == Filter(held, p);
    assert Unstale(l, req, rows) == Filter(rows, q);
    SentInSync(l, req, diff);
  }

  lemma {:induction false} DroppedIff(l: Ledger, req: Request, r: SentRow)
    requires WellFormed(l) && r in Surviving(l, req.sessionId)
    ensures Dropped(StalePrior(l, req), r.sentItemId) <==> r in StalePrior(l, req)
  {
    SurvivingMembers(l, req.sessionId);
    StaleMembers(l, req);
    PriorMembers(l, req);
    hide Surviving, StalePrior, Prior;
    forall stale | stale in StalePrior(l, req) && stale.sentItemId == r.sentItemId ensures stale == r {
      SameIdSameRow(l.sent, stale, r);
    }
  }

  /** For an agent in step with all that survives: one pack takes it to the new ledger. */
  lemma {:induction false} BuildKeepsAgentInSync(l: Ledger, req: Request, held: seq<Held>)
    requires WellFormed(l) && Commits(l, req)
    requires InSync(held, Surviving(l, req.sessionId))
    ensures InSync(Replay(held, Pack(l, req)), Surviving(Recorded(l, req), req.sessionId))
  {
    hide Surviving, StalePrior, NewSent, Replay, Recorded, Commits, Pack, WellFormed;
    ReplayTracks(l, req, held, Surviving(l, req.sessionId));
    SurvivingAfter(l, req);
    assert Unstale(l, req, Surviving(l, req.sessionId)) == Kept(l, req);
  }

  lemma {:induction false} SentInSync(l: Ledger, req: Request, diff: seq<PackItem>)
    requires diff == PackFor(req.sessionId, req.artifact.artifactId, req.artifact.sections, Previous(l, req))
    ensures InSync(Map(Filter(diff, IsSentItem), ToHeld), NewSent(l, req))
  {
    NewSentRows(l, req);
    SentItemsOfPack(req.sessionId, req.artifact.artifactId, req.artifact.sections, Previous(l, req));
  }
}

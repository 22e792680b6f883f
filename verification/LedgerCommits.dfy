/** When a build commits: the ids it joins from colons are ids that no row of the ledger has. */
module LedgerCommits {
  import opened Common
  import opened Ordering
  import opened ColonFields
  import opened LedgerTypes
  import opened Staleness
  import opened ContextDiff
  import opened SessionLedger
  import opened DurableBuild
  import opened LedgerInvariants
  import opened LedgerRuns

  // ----- ids as the compiler makes them -----

  const InvalidationMark := ":invalidate:"

  /** A session id in which no invalidation id can hide. */
  predicate PlainSession(sessionId: string) {
    forall k :: 0 <= k <= |sessionId| ==> !(InvalidationMark <= sessionId[k..])
  }

  /** Artifact ids of one length, a prefix and the beginning of a digest, and section ids without a colon. */
  predicate PlainRequest(req: Request, width: nat) {
    && |req.artifact.artifactId| == width && PlainSession(req.sessionId)
    && forall s :: s in req.artifact.sections ==> ColonFree(s.id)
  }

  predicate UniqueDependencies(a: Artifact) {
    forall i, j :: 0 <= i < j < |a.dependencies| ==> a.dependencies[i].id != a.dependencies[j].id
  }

  function SectionState(s: Section, previous: map<string, PriorItem>): DiffState {
    Classify(s, PreviousFor(s, previous))
  }

  /** No two sections with one id are sent, or omitted, in the same state. */
  predicate SectionsApart(sections: seq<Section>, previous: map<string, PriorItem>) {
    forall i, j :: 0 <= i < j < |sections| && sections[i].id == sections[j].id ==>
      SectionState(sections[i], previous) != SectionState(sections[j], previous)
  }

  /** What a build is refused for. */
  predicate Buildable(l: Ledger, req: Request) {
    && req.artifact.sessionId == req.sessionId && req.artifact.artifactId !in l.artifacts
    && UniqueDependencies(req.artifact) && SectionsApart(req.artifact.sections, Previous(l, req))
  }

  // ----- what an id says -----

  lemma {:induction false} StateNamesDiffer(s: DiffState, t: DiffState)
    ensures StateName(s) == StateName(t) ==> s == t
  {
    StateLetters(s);
    StateLetters(t);
    hide StateName;
    assert "NE"[0] != "CH"[0] && "NE"[0] != "PI"[0] && "NE"[0] != "OM"[0] && "NE"[0] != "IN"[0] && "NE"[0] != "RE"[0];
  }

  lemma {:induction false} StateNameColonFree(s: DiffState)
    ensures ColonFree(StateName(s))
  {
  }

  lemma {:induction false} StateLetters(s: DiffState)
    ensures |StateName(s)| >= 2
    ensures StateName(s)[..2] == match s
                                 case New => "NE"
                                 case Changed => "CH"
                                 case Pinned => "PI"
                                 case OmitUnchanged => "OM"
                                 case InvalidatePrevious => "IN"
                                 case RestoreAvailable => "RE"
  {
  }

  lemma {:induction false} ItemIdEndsIn(x: string, n: string, y: string, m: string, a: string, b: string)
    requires ColonFree(x) && ColonFree(y) && ColonFree(n) && ColonFree(m)
    requires a + ":" + x + ":" + n == b + ":" + y + ":" + m
    ensures a == b && x == y && n == m
  {
    LastField(Colon(a, x), n, Colon(b, y), m);
    LastField(a, x, b, y);
  }

  /** With artifact ids of one length and colon-free section ids an item id decides all it is made of. */
  lemma {:induction false} ItemIdDecides(
    s1: string, a1: string, x1: string, t1: DiffState, s2: string, a2: string, x2: string, t2: DiffState)
    requires ColonFree(x1) && ColonFree(x2) && |a1| == |a2| && ItemId(s1, a1, x1, t1) == ItemId(s2, a2, x2, t2)
    ensures s1 == s2 && a1 == a2 && x1 == x2 && t1 == t2
  {
    StateNamesDiffer(t1, t2);
    StateNameColonFree(t1);
    StateNameColonFree(t2);
    ItemIdEndsIn(x1, StateName(t1), x2, StateName(t2), s1 + ":" + a1, s2 + ":" + a2);
    SameWidth(s1, a1, s2, a2);
  }

  lemma {:induction false} SameWidth(s1: string, a1: string, s2: string, a2: string)
    requires s1 + ":" + a1 == s2 + ":" + a2 && |a1| == |a2|
    ensures s1 == s2 && a1 == a2
  {
    var t := s1 + ":" + a1;
    assert t[..|s1|] == s1 && t[..|s2|] == s2 && t[|s1| + 1..] == a1 && t[|s2| + 1..] == a2;
  }

  function InvalidationId(sessionId: string, artifactId: string, sentItemId: string): string {
    sessionId + ":" + artifactId + ":invalidate:" + sentItemId
  }

  /** Read as an item id, an invalidation names a session of this form. */
  function Foreign(sessionId: string, artifactId: string, of: string): string {
    sessionId + ":" + artifactId + InvalidationMark + of
  }

  lemma {:induction false} ItemIdAfterSession(s: string, a: string, x: string, t: DiffState)
    ensures ItemId(s, a, x, t) == s + (":" + a + ":" + x + ":" + StateName(t))
  {
  }

  lemma {:induction false} InvalidationReadsAsItem(s: string, a: string, of: string, b: string, x: string, t: DiffState)
    ensures InvalidationId(s, a, ItemId(of, b, x, t)) == ItemId(Foreign(s, a, of), b, x, t)
  {
    var head, tail := s + ":" + a + ":invalidate:", ":" + b + ":" + x + ":" + StateName(t);
    ItemIdAfterSession(of, b, x, t);
    ItemIdAfterSession(Foreign(s, a, of), b, x, t);
    hide ItemId;
    ConcatAssociative(head, of, tail);
  }

  lemma {:induction false} ForeignIsNotPlain(s: string, a: string, of: string)
    ensures !PlainSession(Foreign(s, a, of)) && |Foreign(s, a, of)| > |of|
  {
    var k := |s + ":" + a|;
    assert Foreign(s, a, of)[k..] == InvalidationMark + of;
  }

  lemma {:induction false} ForeignDecides(s1: string, a1: string, s2: string, a2: string)
    requires Foreign(s1, a1, s1) == Foreign(s2, a2, s2) && |a1| == |a2|
    ensures s1 == s2 && a1 == a2
  {
    assert |Foreign(s1, a1, s1)| == 2 * |s1| + |a1| + 13;
    assert |Foreign(s2, a2, s2)| == 2 * |s2| + |a2| + 13;
    var n := |s1|;
    assert Foreign(s1, a1, s1)[..n] == s1 && Foreign(s2, a2, s2)[..n] == s2;
    assert Foreign(s1, a1, s1)[n + 1..n + 1 + |a1|] == a1 && Foreign(s2, a2, s2)[n + 1..n + 1 + |a2|] == a2;
  }

  // ----- the invariant -----

  predicate PlainSent(r: SentRow, width: nat) {
    && |r.artifactId| == width && ColonFree(r.sectionId)
    && r.sentItemId == ItemId(r.sessionId, r.artifactId, r.sectionId, r.state)
  }

  predicate PlainDiffRow(p: PackRow) {
    ColonFree(p.sectionId) && p.packItemId == ItemId(p.sessionId, p.artifactId, p.sectionId, p.state)
  }

  predicate PlainInvalidation(sent: seq<SentRow>, p: PackRow) {
    exists r :: r in sent && r.sessionId == p.sessionId &&
      p.packItemId == InvalidationId(p.sessionId, p.artifactId, r.sentItemId)
  }

  predicate PlainPack(sent: seq<SentRow>, p: PackRow, width: nat) {
    |p.artifactId| == width && PlainSession(p.sessionId) && (PlainDiffRow(p) || PlainInvalidation(sent, p))
  }

  predicate PlainOmitted(o: OmittedRow, width: nat) {
    && |o.artifactId| == width && ColonFree(o.sectionId)
    && o.omittedItemId == "omitted:" + RestoreToken(o.sessionId, o.artifactId, o.sectionId)
  }

  predicate PlainDependency(d: DependencyRow, width: nat) {
    |d.artifactId| == width && d.artifactId + ":" <= d.dependencyId
  }

  /** Every row carries the id its fields make, and comes from a recorded artifact. */
  ghost predicate PlainLedger(l: Ledger, width: nat) {
    && (forall r :: r in l.sent ==> PlainSent(r, width))
    && (forall p :: p in l.packs ==> PlainPack(l.sent, p, width) && p.artifactId in l.artifacts)
    && (forall o :: o in l.omitted ==> PlainOmitted(o, width) && o.artifactId in l.artifacts)
    && (forall d :: d in l.dependencies ==> PlainDependency(d, width))
  }

  lemma {:induction false} SentRowIsPlain(l: Ledger, req: Request, width: nat, r: SentRow)
    requires PlainRequest(req, width) && r in NewSent(l, req)
    ensures PlainSent(r, width) && r.sessionId == req.sessionId && r.artifactId == req.artifact.artifactId
  {
    var s := NewRowOrigin(l, req, r);
  }

  lemma {:induction false} PackItemIs(l: Ledger, req: Request, item: PackItem)
    requires item in Pack(l, req)
    ensures || (exists r :: r in StalePrior(l, req) && item == CreateInvalidationPackItem(req, r))
            || (exists s :: s in req.artifact.sections &&
                  item in SectionItems(req.sessionId, req.artifact.artifactId, s, Previous(l, req)))
  {
    hide StalePrior, Previous, PackFor, SectionItems, CreateInvalidationPackItem;
    var stale := StalePrior(l, req);
    var diff := PackFor(req.sessionId, req.artifact.artifactId, req.artifact.sections, Previous(l, req));
    if item in diff {
      DiffItemOrigin(req.sessionId, req.artifact.artifactId, req.artifact.sections, Previous(l, req), item);
    } else {
      assert item in Invalidations(req, stale);
      var i :| 0 <= i < |Invalidations(req, stale)| && Invalidations(req, stale)[i] == item;
      assert stale[i] in stale && item == CreateInvalidationPackItem(req, stale[i]);
    }
  }

  /** What the pack row of a build is: an item of one of its sections, or the invalidation of a stale row. */
  lemma {:induction false} PackRowIs(l: Ledger, req: Request, p: PackRow)
    requires p in NewPacks(l, req)
    ensures p.sessionId == req.sessionId && p.artifactId == req.artifact.artifactId
    ensures || (exists r :: r in StalePrior(l, req) &&
                  p.packItemId == InvalidationId(p.sessionId, p.artifactId, r.sentItemId))
            || (exists s :: s in req.artifact.sections && s.id == p.sectionId &&
                  p.packItemId == ItemId(p.sessionId, p.artifactId, p.sectionId, p.state))
  {
    hide StalePrior, Previous, Pack, RestoreToken, FindSection, StateName, InvalidationBody;
    var i :| 0 <= i < |NewPacks(l, req)| && NewPacks(l, req)[i] == p;
    var item := Pack(l, req)[i];
    assert p == ToPackRow(req, item);
    PackItemIs(l, req, item);
    if r :| r in StalePrior(l, req) && item == CreateInvalidationPackItem(req, r) {
      assert p.packItemId == InvalidationId(p.sessionId, p.artifactId, r.sentItemId);
    } else {
      var s :| s in req.artifact.sections &&
        item in SectionItems(req.sessionId, req.artifact.artifactId, s, Previous(l, req));
      assert s.id == p.sectionId && p.packItemId == ItemId(p.sessionId, p.artifactId, p.sectionId, p.state);
    }
  }

  lemma {:induction false} OmittedRowIs(l: Ledger, req: Request, o: OmittedRow) returns (s: Section)
    requires o in NewOmitted(l, req)
    ensures s in req.artifact.sections && IsOmitted(s, Previous(l, req))
    ensures o.sessionId == req.sessionId && o.artifactId == req.artifact.artifactId && o.sectionId == s.id
    ensures o.omittedItemId == "omitted:" + RestoreToken(o.sessionId, o.artifactId, o.sectionId)
  {
    hide Previous, RestoreToken, IsOmitted;
    var sections := OmittedSections(req.artifact.sections, Previous(l, req));
    FilterContains(req.artifact.sections, s => IsOmitted(s, Previous(l, req)));
    var i :| 0 <= i < |NewOmitted(l, req)| && NewOmitted(l, req)[i] == o;
    s := sections[i];
    assert s in sections;
  }

  lemma {:induction false} BuildKeepsPlain(l: Ledger, req: Request, width: nat)
    requires WellFormed(l) && PlainLedger(l, width) && PlainRequest(req, width)
    ensures PlainLedger(Next(l, req), width)
  {
    hide NewSent, NewPacks, NewOmitted, StalePrior, WellFormed, Commits;
    if Commits(l, req) {
      var after := Recorded(l, req);
      forall r | r in NewSent(l, req) ensures PlainSent(r, width) {
        SentRowIsPlain(l, req, width, r);
      }
      forall p | p in after.packs ensures PlainPack(after.sent, p, width) && p.artifactId in after.artifacts {
        if p in l.packs {
          PackStaysPlain(l.sent, after.sent, p, width);
        } else {
          PackRowIs(l, req, p);
          StaleMembers(l, req);
          PriorMembers(l, req);
        }
      }
      forall o | o in NewOmitted(l, req) ensures PlainOmitted(o, width) && o.artifactId in after.artifacts {
        var s := OmittedRowIs(l, req, o);
      }
      forall d | d in NewDependencies(req) ensures PlainDependency(d, width) {
        var i :| 0 <= i < |NewDependencies(req)| && NewDependencies(req)[i] == d;
        assert d == ToDependencyRow(req.artifact.artifactId, req.artifact.dependencies[i]);
      }
    }
  }

  lemma {:induction false} PackStaysPlain(before: seq<SentRow>, after: seq<SentRow>, p: PackRow, width: nat)
    requires PlainPack(before, p, width) && forall r :: r in before ==> r in after
    ensures PlainPack(after, p, width)
  {
  }

  // ----- new rows against each other -----

  function PackItemId(item: PackItem): string { item.itemId }

  /** Within one build, whatever the ids contain, an item id decides section and state. */
  lemma {:induction false} OneBuildItemId(s: string, a: string, x: string, t: DiffState, y: string, u: DiffState)
    requires ItemId(s, a, x, t) == ItemId(s, a, y, u)
    ensures x == y && t == u
  {
    StateNamesDiffer(t, u);
    StateNameColonFree(t);
    StateNameColonFree(u);
    hide StateName, ColonFree;
    var head := s + ":" + a + ":";
    LastField(head + x, StateName(t), head + y, StateName(u));
    assert x == (head + x)[|head|..] && y == (head + y)[|head|..];
  }

  lemma {:induction false} SectionItemIs(
    s: string, a: string, section: Section, previous: map<string, PriorItem>, item: PackItem)
    requires item in SectionItems(s, a, section, previous)
    ensures item.itemId == ItemId(s, a, section.id, item.state)
    ensures item.state == SectionState(section, previous) ||
            (item.state == RestoreAvailable && SectionState(section, previous) == OmitUnchanged)
    ensures SectionState(section, previous) != RestoreAvailable
  {
    hide ItemId;
  }

  lemma {:induction false} SectionHasItem(
    s: string, a: string, section: Section, previous: map<string, PriorItem>) returns (item: PackItem)
    ensures item in SectionItems(s, a, section, previous)
    ensures item.itemId == ItemId(s, a, section.id, SectionState(section, previous))
  {
    hide ItemId;
    item := SectionItems(s, a, section, previous)[0];
  }

  lemma {:induction false} SectionItemsApart(s: string, a: string, section: Section, previous: map<string, PriorItem>)
    ensures DistinctKeys(SectionItems(s, a, section, previous), PackItemId)
  {
    hide ItemId;
    if ItemId(s, a, section.id, OmitUnchanged) == ItemId(s, a, section.id, RestoreAvailable) {
      OneBuildItemId(s, a, section.id, OmitUnchanged, section.id, RestoreAvailable);
    }
  }

  lemma {:induction false} DiffHasSection(
    s: string, a: string, sections: seq<Section>, section: Section, previous: map<string, PriorItem>)
    returns (item: PackItem)
    requires section in sections
    ensures item in PackFor(s, a, sections, previous)
    ensures item.itemId == ItemId(s, a, section.id, SectionState(section, previous))
    decreases |sections|
  {
    hide SectionItems, ItemId, SectionState;
    var init, last := sections[..|sections| - 1], sections[|sections| - 1];
    SplitLast(sections);
    if section in init {
      item := DiffHasSection(s, a, init, section, previous);
    } else {
      item := SectionHasItem(s, a, last, previous);
    }
  }

  predicate ApartFrom(sections: seq<Section>, last: Section, previous: map<string, PriorItem>) {
    forall x :: x in sections && x.id == last.id ==> SectionState(x, previous) != SectionState(last, previous)
  }

  lemma {:induction false} SectionsApartSnoc(sections: seq<Section>, last: Section, previous: map<string, PriorItem>)
    ensures SectionsApart(sections + [last], previous) <==>
            SectionsApart(sections, previous) && ApartFrom(sections, last, previous)
  {
    hide SectionState;
    var more := sections + [last];
    assert forall i :: 0 <= i < |sections| ==> more[i] == sections[i];
    if SectionsApart(more, previous) {
      forall x | x in sections && x.id == last.id ensures SectionState(x, previous) != SectionState(last, previous) {
        var i :| 0 <= i < |sections| && sections[i] == x;
        assert more[i] == x && more[|sections|] == last;
      }
    }
  }

  lemma {:induction false} DiffApartIff(
    s: string, a: string, sections: seq<Section>, last: Section, previous: map<string, PriorItem>)
    ensures Apart(PackFor(s, a, sections, previous), SectionItems(s, a, last, previous), PackItemId) <==>
            ApartFrom(sections, last, previous)
  {
    hide SectionItems, ItemId, SectionState, PackFor, Apart;
    var diff, items := PackFor(s, a, sections, previous), SectionItems(s, a, last, previous);
    ApartByMembers(diff, items, PackItemId);
    if x :| x in sections && x.id == last.id && SectionState(x, previous) == SectionState(last, previous) {
      var p := DiffHasSection(s, a, sections, x, previous);
      var q := SectionHasItem(s, a, last, previous);
      assert p in diff && q in items && PackItemId(p) == PackItemId(q);
    }
    if p, q :| p in diff && q in items && PackItemId(p) == PackItemId(q) {
      DiffItemOrigin(s, a, sections, previous, p);
      var x :| x in sections && p in SectionItems(s, a, x, previous);
      SectionItemIs(s, a, x, previous, p);
      SectionItemIs(s, a, last, previous, q);
      OneBuildItemId(s, a, x.id, p.state, last.id, q.state);
      assert SectionState(x, previous) == SectionState(last, previous);
    }
  }

  /** The items of a diff have ids of their own iff no two sections with one id are in the same state. */
  lemma {:induction false} DiffKeysIff(s: string, a: string, sections: seq<Section>, previous: map<string, PriorItem>)
    ensures DistinctKeys(PackFor(s, a, sections, previous), PackItemId) <==> SectionsApart(sections, previous)
    decreases |sections|
  {
    hide SectionItems, SectionState, DistinctKeys, Apart, ApartFrom;
    if sections == [] {
      assert PackFor(s, a, sections, previous) == [];
      NoKeys<PackItem>(PackItemId);
    } else {
      var init, last := sections[..|sections| - 1], sections[|sections| - 1];
      SplitLast(sections);
      hide PackFor, SectionsApart;
      DiffKeysIff(s, a, init, previous);
      PackSnoc(s, a, init, last, previous);
      KeysAppendIff(PackFor(s, a, init, previous), SectionItems(s, a, last, previous), PackItemId);
      SectionItemsApart(s, a, last, previous);
      DiffApartIff(s, a, init, last, previous);
      SectionsApartSnoc(init, last, previous);
    }
  }

  lemma {:induction false} NoKeys<R>(key: R -> string)
    ensures DistinctKeys([], key)
  {
  }

  lemma {:induction false} FilterKeepsKeys<R(!new)>(rows: seq<R>, p: R -> bool, key: R -> string)
    requires DistinctKeys(rows, key)
    ensures DistinctKeys(Filter(rows, p), key)
  {
    forall i, j | 0 <= i < j < |Filter(rows, p)| ensures key(Filter(rows, p)[i]) != key(Filter(rows, p)[j]) {
      var a, b := FilterPosition(rows, p, i, j);
    }
  }

  lemma {:induction false} KeysDecideRows<R(!new)>(rows: seq<R>, key: R -> string)
    requires Distinct(rows) && forall x, y :: x in rows && y in rows && key(x) == key(y) ==> x == y
    ensures DistinctKeys(rows, key)
  {
  }

  /** No row is listed twice. */
  lemma {:induction false} ListedOnce(l: Ledger, sessionId: string)
    requires WellFormed(l)
    ensures DistinctKeys(ListActive(l, sessionId), SentRowId)
  {
    var surviving := Surviving(l, sessionId);
    FilterKeepsKeys(l.sent, (r: SentRow) => r.sessionId == sessionId && !Invalidated(l.packs, r), SentRowId);
    FilterKeepsKeys(surviving, r => NewestOfSection(surviving, r), SentRowId);
    var newest, listed := NewestPerSection(surviving), ListActive(l, sessionId);
    ActiveMembers(l, sessionId);
    SurvivingMembers(l, sessionId);
    assert Distinct(newest) by {
      assert forall i, j :: 0 <= i < j < |newest| ==> SentRowId(newest[i]) != SentRowId(newest[j]);
    }
    SameElementsDistinct(newest, listed);
    forall x, y | x in listed && y in listed && SentRowId(x) == SentRowId(y) ensures x == y {
      SameIdSameRow(l.sent, x, y);
    }
    KeysDecideRows(listed, SentRowId);
  }

  lemma {:induction false} SameElementsDistinct<T(!new)>(a: seq<T>, b: seq<T>)
    requires multiset(a) == multiset(b) && Distinct(a)
    ensures Distinct(b)
  {
    PermutationFacts(a, b);
    DistinctCardinality(a);
    DistinctCardinality(b);
    assert (set x | x in a) == (set x | x in b);
  }

  lemma {:induction false} StaleOnce(l: Ledger, req: Request)
    requires WellFormed(l)
    ensures DistinctKeys(StalePrior(l, req), SentRowId)
  {
    hide WellFormed, ListActive, IsStale;
    ListedOnce(l, req.sessionId);
    var payloads := ListActivePayloads(l, req.sessionId);
    FilterKeepsKeys(
      Prior(l, req), r => req.reset.Some? || IsStale(r, payloads, req.artifact, Lister(l)), SentRowId);
  }

  lemma {:induction false} InvalidationsApart(l: Ledger, req: Request)
    requires WellFormed(l)
    ensures DistinctKeys(Invalidations(req, StalePrior(l, req)), PackItemId)
  {
    StaleOnce(l, req);
    hide StalePrior, WellFormed, InvalidationBody;
    var stale := StalePrior(l, req);
    forall i, j | 0 <= i < j < |stale|
      ensures CreateInvalidationPackItem(req, stale[i]).itemId != CreateInvalidationPackItem(req, stale[j]).itemId
    {
      assert SentRowId(stale[i]) != SentRowId(stale[j]);
      SameInvalidationSameRow(req.sessionId, req.artifact.artifactId, stale[i].sentItemId, stale[j].sentItemId);
    }
  }

  lemma {:induction false} SameInvalidationSameRow(s: string, a: string, id: string, other: string)
    requires id != other
    ensures InvalidationId(s, a, id) != InvalidationId(s, a, other)
  {
    var head := s + ":" + a + ":invalidate:";
    assert (head + id)[|head|..] == id && (head + other)[|head|..] == other;
  }

  lemma {:induction false} InvalidationsApartFromDiff(l: Ledger, req: Request, width: nat)
    requires WellFormed(l) && PlainLedger(l, width) && PlainRequest(req, width)
    ensures Apart(Invalidations(req, StalePrior(l, req)),
                  PackFor(req.sessionId, req.artifact.artifactId, req.artifact.sections, Previous(l, req)), PackItemId)
  {
    StaleMembers(l, req);
    PriorMembers(l, req);
    hide StalePrior, Previous, Prior, PackFor, SectionItems, ItemId, Apart, InvalidationBody, WellFormed;
    var s, a := req.sessionId, req.artifact.artifactId;
    var stale, diff := StalePrior(l, req), PackFor(s, a, req.artifact.sections, Previous(l, req));
    forall x, y | x in Invalidations(req, stale) && y in diff ensures PackItemId(x) != PackItemId(y) {
      var i :| 0 <= i < |stale| && Invalidations(req, stale)[i] == x;
      var r := stale[i];
      assert r in stale && PackItemId(x) == InvalidationId(s, a, r.sentItemId) && PlainSent(r, width);
      DiffItemOrigin(s, a, req.artifact.sections, Previous(l, req), y);
      var section :| section in req.artifact.sections && y in SectionItems(s, a, section, Previous(l, req));
      SectionItemIs(s, a, section, Previous(l, req), y);
      InvalidationIsNoItem(s, a, r, section.id, y.state, width);
    }
    ApartByMembers(Invalidations(req, stale), diff, PackItemId);
  }

  /** An invalidation of the session is no item of its own. */
  lemma {:induction false} InvalidationIsNoItem(
    s: string, a: string, r: SentRow, x: string, t: DiffState, width: nat)
    requires PlainSent(r, width) && r.sessionId == s && |a| == width && ColonFree(x)
    ensures InvalidationId(s, a, r.sentItemId) != ItemId(s, a, x, t)
  {
    hide ItemId, InvalidationId, Foreign;
    InvalidationReadsAsItem(s, a, s, r.artifactId, r.sectionId, r.state);
    ForeignIsNotPlain(s, a, s);
    if InvalidationId(s, a, r.sentItemId) == ItemId(s, a, x, t) {
      ItemIdDecides(Foreign(s, a, s), r.artifactId, r.sectionId, r.state, s, a, x, t);
    }
  }

  lemma {:induction false} NewPackKeysIff(l: Ledger, req: Request, width: nat)
    requires WellFormed(l) && PlainLedger(l, width) && PlainRequest(req, width)
    ensures DistinctKeys(NewPacks(l, req), PackRowId) <==> SectionsApart(req.artifact.sections, Previous(l, req))
  {
    var s, a, sections := req.sessionId, req.artifact.artifactId, req.artifact.sections;
    assert DistinctKeys(NewPacks(l, req), PackRowId) <==> DistinctKeys(Pack(l, req), PackItemId) by {
      hide Pack, FindSection;
      assert forall i :: 0 <= i < |Pack(l, req)| ==> PackRowId(NewPacks(l, req)[i]) == PackItemId(Pack(l, req)[i]);
    }
    hide StalePrior, Previous, NewPacks, DistinctKeys, Apart, PackFor, SectionsApart, WellFormed, PlainLedger;
    InvalidationsApart(l, req);
    InvalidationsApartFromDiff(l, req, width);
    KeysAppendIff(Invalidations(req, StalePrior(l, req)), PackFor(s, a, sections, Previous(l, req)), PackItemId);
    DiffKeysIff(s, a, sections, Previous(l, req));
  }

  lemma {:induction false} SectionsApartKeysApart(l: Ledger, req: Request)
    requires SectionsApart(req.artifact.sections, Previous(l, req))
    ensures DistinctKeys(NewSent(l, req), SentRowId) && DistinctKeys(NewOmitted(l, req), OmittedRowId)
  {
    var s, a, sections, previous := req.sessionId, req.artifact.artifactId, req.artifact.sections, Previous(l, req);
    hide Previous, ItemId, RestoreToken;
    NewSentRows(l, req);
    forall i, j | 0 <= i < j < |Sent(l, req)| ensures NewSent(l, req)[i].sentItemId != NewSent(l, req)[j].sentItemId {
      var m, n := FilterPosition(sections, x => !IsOmitted(x, previous), i, j);
      var x, y := Sent(l, req)[i], Sent(l, req)[j];
      if ItemId(s, a, x.id, SectionState(x, previous)) == ItemId(s, a, y.id, SectionState(y, previous)) {
        OneBuildItemId(s, a, x.id, SectionState(x, previous), y.id, SectionState(y, previous));
      }
    }
    var omitted := OmittedSections(sections, previous);
    FilterContains(sections, x => IsOmitted(x, previous));
    forall i, j | 0 <= i < j < |omitted|
      ensures NewOmitted(l, req)[i].omittedItemId != NewOmitted(l, req)[j].omittedItemId
    {
      var m, n := FilterPosition(sections, x => IsOmitted(x, previous), i, j);
      assert omitted[i] in omitted && omitted[j] in omitted;
      RestoreTokensDiffer(s, a, omitted[i].id, omitted[j].id);
    }
  }

  lemma {:induction false} RestoreTokensDiffer(s: string, a: string, x: string, y: string)
    requires x != y
    ensures "omitted:" + RestoreToken(s, a, x) != "omitted:" + RestoreToken(s, a, y)
  {
    var head := "restore:" + s + ":" + a + ":";
    assert RestoreToken(s, a, x)[|head|..] == x && RestoreToken(s, a, y)[|head|..] == y;
    assert ("omitted:" + RestoreToken(s, a, x))[8..] == RestoreToken(s, a, x);
    assert ("omitted:" + RestoreToken(s, a, y))[8..] == RestoreToken(s, a, y);
  }

  // ----- new rows against old ones -----

  lemma {:induction false} SentApart(l: Ledger, req: Request, width: nat)
    requires WellFormed(l) && PlainLedger(l, width) && PlainRequest(req, width)
    requires req.artifact.artifactId !in l.artifacts
    ensures Apart(l.sent, NewSent(l, req), SentRowId)
  {
    hide NewSent, ItemId, Apart;
    forall x, y | x in l.sent && y in NewSent(l, req) ensures SentRowId(x) != SentRowId(y) {
      SentRowIsPlain(l, req, width, y);
      if x.sentItemId == y.sentItemId {
        ItemIdDecides(x.sessionId, x.artifactId, x.sectionId, x.state, y.sessionId, y.artifactId, y.sectionId, y.state);
      }
    }
    ApartByMembers(l.sent, NewSent(l, req), SentRowId);
  }

  lemma {:induction false} OmittedApart(l: Ledger, req: Request, width: nat)
    requires PlainLedger(l, width) && PlainRequest(req, width) && req.artifact.artifactId !in l.artifacts
    ensures Apart(l.omitted, NewOmitted(l, req), OmittedRowId)
  {
    hide NewOmitted, RestoreToken, Apart;
    forall x, y | x in l.omitted && y in NewOmitted(l, req) ensures OmittedRowId(x) != OmittedRowId(y) {
      var s := OmittedRowIs(l, req, y);
      if x.omittedItemId == y.omittedItemId {
        TokenDecidesArtifact(x.sessionId, x.artifactId, x.sectionId, y.sessionId, y.artifactId, y.sectionId);
      }
    }
    ApartByMembers(l.omitted, NewOmitted(l, req), OmittedRowId);
  }

  lemma {:induction false} TokenDecidesArtifact(s1: string, a1: string, x1: string, s2: string, a2: string, x2: string)
    requires "omitted:" + RestoreToken(s1, a1, x1) == "omitted:" + RestoreToken(s2, a2, x2)
    requires ColonFree(x1) && ColonFree(x2) && |a1| == |a2|
    ensures a1 == a2
  {
    assert ("omitted:" + RestoreToken(s1, a1, x1))[8..] == RestoreToken(s1, a1, x1);
    assert ("omitted:" + RestoreToken(s2, a2, x2))[8..] == RestoreToken(s2, a2, x2);
    LastField("restore:" + s1 + ":" + a1, x1, "restore:" + s2 + ":" + a2, x2);
    SameWidth("restore:" + s1, a1, "restore:" + s2, a2);
  }

  lemma {:induction false} DependenciesApart(l: Ledger, req: Request, width: nat)
    requires WellFormed(l) && PlainLedger(l, width) && PlainRequest(req, width)
    requires req.artifact.artifactId !in l.artifacts
    ensures Apart(l.dependencies, NewDependencies(req), DependencyRowId)
  {
    hide Apart;
    var a := req.artifact.artifactId;
    forall x, y | x in l.dependencies && y in NewDependencies(req) ensures DependencyRowId(x) != DependencyRowId(y) {
      var i :| 0 <= i < |NewDependencies(req)| && NewDependencies(req)[i] == y;
      assert y.dependencyId[..width] == a;
      assert x.dependencyId[..width] == x.artifactId && x.artifactId in l.artifacts;
    }
    ApartByMembers(l.dependencies, NewDependencies(req), DependencyRowId);
  }

  lemma {:induction false} DependencyKeysIff(req: Request)
    ensures DistinctKeys(NewDependencies(req), DependencyRowId) <==> UniqueDependencies(req.artifact)
  {
    var a, ds := req.artifact.artifactId, req.artifact.dependencies;
    forall i, j | 0 <= i < j < |ds|
      ensures StoredDependencyId(a, ds[i].id) == StoredDependencyId(a, ds[j].id) <==> ds[i].id == ds[j].id
    {
      LocalIdRoundTrip(a, ds[i].id);
      LocalIdRoundTrip(a, ds[j].id);
    }
  }

  /** An item of a new artifact is nothing the packs hold. */
  lemma {:induction false} NewItemIsNew(
    l: Ledger, width: nat, p: PackRow, s: string, a: string, x: string, t: DiffState)
    requires WellFormed(l) && PlainLedger(l, width) && p in l.packs
    requires a !in l.artifacts && |a| == width && ColonFree(x)
    ensures p.packItemId != ItemId(s, a, x, t)
  {
    hide ItemId, InvalidationId, Foreign;
    if p.packItemId == ItemId(s, a, x, t) {
      if PlainDiffRow(p) {
        ItemIdDecides(p.sessionId, p.artifactId, p.sectionId, p.state, s, a, x, t);
      } else {
        var r :| r in l.sent && r.sessionId == p.sessionId &&
          p.packItemId == InvalidationId(p.sessionId, p.artifactId, r.sentItemId);
        InvalidationReadsAsItem(p.sessionId, p.artifactId, r.sessionId, r.artifactId, r.sectionId, r.state);
        ItemIdDecides(Foreign(p.sessionId, p.artifactId, r.sessionId), r.artifactId, r.sectionId, r.state, s, a, x, t);
      }
    }
  }

  /** So is an invalidation that a new artifact brings. */
  lemma {:induction false} NewInvalidationIsNew(
    l: Ledger, width: nat, p: PackRow, s: string, a: string, r: SentRow)
    requires WellFormed(l) && PlainLedger(l, width) && p in l.packs && r in l.sent && r.sessionId == s
    requires a !in l.artifacts && |a| == width
    ensures p.packItemId != InvalidationId(s, a, r.sentItemId)
  {
    hide ItemId, InvalidationId, Foreign;
    if p.packItemId == InvalidationId(s, a, r.sentItemId) {
      InvalidationReadsAsItem(s, a, s, r.artifactId, r.sectionId, r.state);
      if PlainDiffRow(p) {
        ItemIdDecides(Foreign(s, a, s), r.artifactId, r.sectionId, r.state, p.sessionId, p.artifactId, p.sectionId,
                      p.state);
        ForeignIsNotPlain(s, a, s);
      } else {
        var q :| q in l.sent && q.sessionId == p.sessionId &&
          p.packItemId == InvalidationId(p.sessionId, p.artifactId, q.sentItemId);
        InvalidationReadsAsItem(p.sessionId, p.artifactId, q.sessionId, q.artifactId, q.sectionId, q.state);
        ItemIdDecides(Foreign(s, a, s), r.artifactId, r.sectionId, r.state,
                      Foreign(p.sessionId, p.artifactId, q.sessionId), q.artifactId, q.sectionId, q.state);
        ForeignDecides(s, a, p.sessionId, p.artifactId);
      }
    }
  }

  lemma {:induction false} PacksApart(l: Ledger, req: Request, width: nat)
    requires WellFormed(l) && PlainLedger(l, width) && PlainRequest(req, width)
    requires req.artifact.artifactId !in l.artifacts
    ensures Apart(l.packs, NewPacks(l, req), PackRowId)
  {
    StaleMembers(l, req);
    PriorMembers(l, req);
    hide NewPacks, StalePrior, Prior, ItemId, InvalidationId, Apart, WellFormed, PlainLedger, PlainSession;
    forall x, y | x in l.packs && y in NewPacks(l, req) ensures PackRowId(x) != PackRowId(y) {
      PackRowIs(l, req, y);
      if r :| r in StalePrior(l, req) && y.packItemId == InvalidationId(y.sessionId, y.artifactId, r.sentItemId) {
        NewInvalidationIsNew(l, width, x, y.sessionId, y.artifactId, r);
      } else {
        NewItemIsNew(l, width, x, y.sessionId, y.artifactId, y.sectionId, y.state);
      }
    }
    ApartByMembers(l.packs, NewPacks(l, req), PackRowId);
  }

  // ----- when a build commits -----

  /**
    From any ledger whose rows carry plain ids: a build commits iff the artifact is the session's, has a new id and no
    repeated dependency, and no two of its sections share both id and state.
  */
  lemma {:induction false} BuildCommitsIff(l: Ledger, req: Request, width: nat)
    requires WellFormed(l) && PlainLedger(l, width) && PlainRequest(req, width)
    ensures Commits(l, req) <==> Buildable(l, req)
  {
    CommitsByKeys(l, req);
    hide NewDependencies, NewSent, NewPacks, NewOmitted, DistinctKeys, Apart, Previous, SectionsApart;
    hide WellFormed, PlainLedger, PlainRequest, UniqueDependencies, Commits;
    DependencyKeysIff(req);
    NewPackKeysIff(l, req, width);
    if req.artifact.artifactId !in l.artifacts {
      SentApart(l, req, width);
      OmittedApart(l, req, width);
      DependenciesApart(l, req, width);
      PacksApart(l, req, width);
    }
    if SectionsApart(req.artifact.sections, Previous(l, req)) {
      SectionsApartKeysApart(l, req);
    }
  }

  /** Sections with ids of their own are apart, whatever was sent before. */
  lemma {:induction false} UniqueSectionsAreApart(sections: seq<Section>, previous: map<string, PriorItem>)
    requires UniqueSections(sections)
    ensures SectionsApart(sections, previous)
  {
  }

  predicate PlainRun(reqs: seq<Request>, width: nat) {
    forall i :: 0 <= i < |reqs| ==> PlainRequest(reqs[i], width)
  }

  lemma {:induction false} RunPlain(reqs: seq<Request>, width: nat)
    requires PlainRun(reqs, width)
    ensures PlainLedger(LedgerAfter(reqs), width)
    decreases |reqs|
  {
    if reqs != [] {
      hide WellFormed, Next, PlainLedger, PlainRequest;
      RunPlain(reqs[..|reqs| - 1], width);
      RunWellFormed(reqs[..|reqs| - 1]);
      BuildKeepsPlain(LedgerAfter(reqs[..|reqs| - 1]), reqs[|reqs| - 1], width);
    }
  }

  lemma {:induction false} BuiltAreTheArtifacts(reqs: seq<Request>)
    ensures LedgerAfter(reqs).artifacts == Built(reqs).Keys
    decreases |reqs|
  {
    hide Commits;
    if reqs != [] {
      BuiltAreTheArtifacts(reqs[..|reqs| - 1]);
    }
  }

  /** Over every run, on any clock, with any sessions and resets: the last build commits iff it is buildable. */
  lemma {:induction false} RunCommitsIff(reqs: seq<Request>, width: nat)
    requires reqs != [] && PlainRun(reqs, width)
    ensures var before, last := reqs[..|reqs| - 1], reqs[|reqs| - 1];
            LastCommits(reqs) <==>
            && last.artifact.sessionId == last.sessionId && last.artifact.artifactId !in Built(before)
            && UniqueDependencies(last.artifact)
            && SectionsApart(last.artifact.sections, Previous(LedgerAfter(before), last))
  {
    var before, last := reqs[..|reqs| - 1], reqs[|reqs| - 1];
    hide WellFormed, PlainLedger, PlainRequest, SectionsApart, UniqueDependencies, Commits, LedgerAfter, Built;
    RunWellFormed(before);
    RunPlain(before, width);
    BuiltAreTheArtifacts(before);
    BuildCommitsIff(LedgerAfter(before), last, width);
  }

  /**
    What it answers: the context pack with the rows recorded for it, or that the artifact is another session's, or that
    a row could not be inserted; and in both of the last cases the ledger is as before.
  */
  lemma {:induction false} RunAnswers(reqs: seq<Request>, width: nat)
    requires reqs != [] && PlainRun(reqs, width)
    ensures var before, last := reqs[..|reqs| - 1], reqs[|reqs| - 1];
            var l, answer := LedgerAfter(before), Outcome(LedgerAfter(before), last);
            && (answer.Ok? <==> Buildable(l, last))
            && (answer == Err(SessionMismatch) <==> last.artifact.sessionId != last.sessionId)
            && (answer == Err(ConstraintFailed) <==>
                last.artifact.sessionId == last.sessionId && !Buildable(l, last))
            && (answer.Ok? ==> answer.value == BuildOutput(Pack(l, last), NewSent(l, last), NewOmitted(l, last), 0))
            && (answer.Err? ==> LedgerAfter(reqs) == l)
  {
    var before, last := reqs[..|reqs| - 1], reqs[|reqs| - 1];
    RunWellFormed(before);
    RunPlain(before, width);
    BuildCommitsIff(LedgerAfter(before), last, width);
    hide WellFormed, PlainLedger, PlainRequest, SectionsApart, UniqueDependencies, Commits, Pack, NewSent, NewOmitted;
  }

  /** Each request is for its own session, with an artifact id never used before and ids within it used once. */
  predicate WellMade(reqs: seq<Request>) {
    && (forall i :: 0 <= i < |reqs| ==>
          reqs[i].artifact.sessionId == reqs[i].sessionId && UniqueDependencies(reqs[i].artifact) &&
            UniqueSections(reqs[i].artifact.sections))
    && forall i, j :: 0 <= i < j < |reqs| ==> reqs[i].artifact.artifactId != reqs[j].artifact.artifactId
  }

  lemma {:induction false} BuiltAreRequested(reqs: seq<Request>)
    ensures forall a :: a in Built(reqs) ==> exists i :: 0 <= i < |reqs| && reqs[i].artifact.artifactId == a
    decreases |reqs|
  {
    hide Commits, LedgerAfter;
    if reqs != [] {
      var before, last := reqs[..|reqs| - 1], reqs[|reqs| - 1];
      BuiltAreRequested(before);
      forall a | a in Built(reqs) ensures exists i :: 0 <= i < |reqs| && reqs[i].artifact.artifactId == a {
        if a in Built(before) {
          var i :| 0 <= i < |before| && before[i].artifact.artifactId == a;
          assert reqs[i].artifact.artifactId == a;
        } else {
          assert reqs[|reqs| - 1].artifact.artifactId == a;
        }
      }
    }
  }

  /** So in a run of such requests every build commits and answers with its context pack. */
  lemma {:induction false} EveryBuildCommits(reqs: seq<Request>, width: nat)
    requires reqs != [] && PlainRun(reqs, width) && WellMade(reqs)
    ensures LastCommits(reqs) && Outcome(LedgerAfter(reqs[..|reqs| - 1]), reqs[|reqs| - 1]).Ok?
  {
    var before, last := reqs[..|reqs| - 1], reqs[|reqs| - 1];
    hide PlainRequest, SectionsApart, UniqueDependencies, UniqueSections, Commits, LedgerAfter, Built;
    RunCommitsIff(reqs, width);
    BuiltAreRequested(before);
    UniqueSectionsAreApart(last.artifact.sections, Previous(LedgerAfter(before), last));
  }

  /** Section ids have to be plain: one that spells out an invalidation rolls the build back, from any ledger. */
  lemma {:induction false} InvalidationAsSectionRollsBack(l: Ledger, req: Request, r: SentRow, s: Section)
    requires r in StalePrior(l, req) && s in req.artifact.sections
    requires s.id + ":" + StateName(SectionState(s, Previous(l, req))) == "invalidate:" + r.sentItemId
    ensures !Commits(l, req)
  {
    var a, previous := req.artifact.artifactId, Previous(l, req);
    var item := DiffHasSection(req.sessionId, a, req.artifact.sections, s, previous);
    SpellsInvalidation(req.sessionId, a, s.id, SectionState(s, previous), r.sentItemId);
    hide StalePrior, Previous, SectionState, PackFor, InvalidationBody, ItemId, NewPacks, IsStale;
    var i, j := PackPositions(l, req, r, item);
    SameItemIdSameKey(l, req, i, j);
    KeysAppendIff(l.packs, NewPacks(l, req), PackRowId);
  }

  lemma {:induction false} PackPositions(l: Ledger, req: Request, r: SentRow, item: PackItem) returns (i: nat, j: nat)
    requires r in StalePrior(l, req)
    requires item in PackFor(req.sessionId, req.artifact.artifactId, req.artifact.sections, Previous(l, req))
    ensures i < j < |Pack(l, req)| && Pack(l, req)[i] == CreateInvalidationPackItem(req, r) && Pack(l, req)[j] == item
  {
    hide StalePrior, Previous, PackFor, CreateInvalidationPackItem;
    var stale := StalePrior(l, req);
    var diff := PackFor(req.sessionId, req.artifact.artifactId, req.artifact.sections, Previous(l, req));
    i :| 0 <= i < |stale| && stale[i] == r;
    var k :| 0 <= k < |diff| && diff[k] == item;
    j := |stale| + k;
  }

  lemma {:induction false} SameItemIdSameKey(l: Ledger, req: Request, i: nat, j: nat)
    requires i < j < |Pack(l, req)| && Pack(l, req)[i].itemId == Pack(l, req)[j].itemId
    ensures !DistinctKeys(NewPacks(l, req), PackRowId)
  {
    hide Pack, FindSection;
    assert PackRowId(NewPacks(l, req)[i]) == PackRowId(NewPacks(l, req)[j]);
  }

  lemma {:induction false} SpellsInvalidation(s: string, a: string, x: string, t: DiffState, id: string)
    requires x + ":" + StateName(t) == "invalidate:" + id
    ensures ItemId(s, a, x, t) == InvalidationId(s, a, id)
  {
    var head := s + ":" + a + ":";
    ConcatAssociative(head, x, ":" + StateName(t));
    ConcatAssociative(x, ":", StateName(t));
    ConcatAssociative(head + x, ":", StateName(t));
    assert InvalidationId(s, a, id) == head + ("invalidate:" + id);
  }
}

/** The tables behind a session ledger and the queries a build reads them with. */
module SessionLedger {
  import opened Common
  import opened Ordering
  import opened LedgerTypes

  datatype Ledger = Ledger(
    artifacts: set<string>, dependencies: seq<DependencyRow>, sent: seq<SentRow>,
    packs: seq<PackRow>, omitted: seq<OmittedRow>)

  const EmptyLedger := Ledger({}, [], [], [], [])

  predicate Invalidates(p: PackRow, sessionId: string, sentItemId: string) {
    p.state.InvalidatePrevious? && p.sessionId == sessionId && p.invalidates == Some(sentItemId)
  }

  predicate Invalidated(packs: seq<PackRow>, row: SentRow) {
    exists p :: p in packs && Invalidates(p, row.sessionId, row.sentItemId)
  }

  /** What the session was sent and never told to drop, in send order. */
  function Surviving(l: Ledger, sessionId: string): seq<SentRow> {
    Filter(l.sent, (r: SentRow) => r.sessionId == sessionId && !Invalidated(l.packs, r))
  }

  predicate Newer(a: SentRow, b: SentRow) {
    a.lastSentAt > b.lastSentAt || (a.lastSentAt == b.lastSentAt && StringLess(b.sentItemId, a.sentItemId))
  }

  predicate NewestOfSection(rows: seq<SentRow>, row: SentRow) {
    forall n :: n in rows && n.sectionId == row.sectionId ==> !Newer(n, row)
  }

  predicate ListedBefore(a: SentRow, b: SentRow) {
    StringLess(a.sectionId, b.sectionId) || (a.sectionId == b.sectionId && Newer(b, a))
  }

  function NewestPerSection(rows: seq<SentRow>): seq<SentRow> {
    Filter(rows, r => NewestOfSection(rows, r))
  }

  /** Only the newest surviving row of each section is listed as active. */
  function ListActive(l: Ledger, sessionId: string): seq<SentRow> {
    Sort(NewestPerSection(Surviving(l, sessionId)), ListedBefore)
  }

  predicate IsPayloadOf(p: PackRow, sessionId: string, active: seq<SentRow>) {
    IsSentState(p.state) && p.sessionId == sessionId && exists r :: r in active && r.sentItemId == p.packItemId
  }

  function ListActivePayloads(l: Ledger, sessionId: string): seq<PackRow> {
    Filter(l.packs, p => IsPayloadOf(p, sessionId, ListActive(l, sessionId)))
  }

  function ListDependencies(l: Ledger, artifactId: string): seq<DependencyRow> {
    Filter(l.dependencies, (d: DependencyRow) => d.artifactId == artifactId)
  }

  predicate DistinctKeys<R>(rows: seq<R>, key: R -> string) {
    forall i, j :: 0 <= i < j < |rows| ==> key(rows[i]) != key(rows[j])
  }

  predicate Apart<R>(a: seq<R>, b: seq<R>, key: R -> string) {
    forall i, j :: 0 <= i < |a| && 0 <= j < |b| ==> key(a[i]) != key(b[j])
  }

  lemma {:induction false} KeysAppendIff<R>(a: seq<R>, b: seq<R>, key: R -> string)
    ensures DistinctKeys(a + b, key) <==> DistinctKeys(a, key) && DistinctKeys(b, key) && Apart(a, b, key)
  {
    var both := a + b;
    assert forall i :: 0 <= i < |a| ==> both[i] == a[i];
    assert forall j :: 0 <= j < |b| ==> both[|a| + j] == b[j];
    if DistinctKeys(both, key) {
      forall i, j | 0 <= i < j < |b| ensures key(b[i]) != key(b[j]) {
        assert key(both[|a| + i]) != key(both[|a| + j]);
      }
      forall i, j | 0 <= i < |a| && 0 <= j < |b| ensures key(a[i]) != key(b[j]) {
        assert key(both[i]) != key(both[|a| + j]);
      }
    }
  }

  lemma {:induction false} ApartByMembers<R(!new)>(a: seq<R>, b: seq<R>, key: R -> string)
    ensures Apart(a, b, key) <==> forall x, y :: x in a && y in b ==> key(x) != key(y)
  {
  }

  function DependencyRowId(d: DependencyRow): string { d.dependencyId }
  function OmittedRowId(o: OmittedRow): string { o.omittedItemId }

  /** Inserts rows one by one; a repeated primary key fails the whole insert. */
  method InsertAll<R>(table: seq<R>, rows: seq<R>, key: R -> string) returns (r: Option<seq<R>>)
    requires DistinctKeys(table, key)
    ensures r == if DistinctKeys(table + rows, key) then Some(table + rows) else None
  {
    var grown := table;
    for i := 0 to |rows|
      invariant grown == table + rows[..i] && DistinctKeys(grown, key)
    {
      if k :| 0 <= k < |grown| && key(grown[k]) == key(rows[i]) {
        assert (table + rows)[k] == grown[k] && (table + rows)[|table| + i] == rows[i];
        return None;
      }
      grown := grown + [rows[i]];
    }
    assert grown == table + rows;
    return Some(grown);
  }

  lemma {:induction false} SurvivingMembers(l: Ledger, sessionId: string)
    ensures forall r :: r in Surviving(l, sessionId) <==>
              r in l.sent && r.sessionId == sessionId && !Invalidated(l.packs, r)
  {
    FilterContains(l.sent, (r: SentRow) => r.sessionId == sessionId && !Invalidated(l.packs, r));
  }

  lemma {:induction false} ActiveMembers(l: Ledger, sessionId: string)
    ensures forall r :: r in ListActive(l, sessionId) <==>
              r in Surviving(l, sessionId) && NewestOfSection(Surviving(l, sessionId), r)
  {
    var rows := Surviving(l, sessionId);
    FilterContains(rows, r => NewestOfSection(rows, r));
  }

  lemma {:induction false} NewerIsStrict(a: SentRow, b: SentRow)
    ensures !Newer(a, a)
    ensures a.sentItemId != b.sentItemId ==> Newer(a, b) || Newer(b, a)
    ensures !(Newer(a, b) && Newer(b, a))
  {
    StringLessIrreflexive(a.sentItemId);
    StringLessTotal(a.sentItemId, b.sentItemId);
  }

  lemma {:induction false} NewerTransitive(a: SentRow, b: SentRow, c: SentRow)
    requires Newer(a, b) && Newer(b, c)
    ensures Newer(a, c)
  {
    if a.lastSentAt == b.lastSentAt == c.lastSentAt {
      StringLessTransitive(c.sentItemId, b.sentItemId, a.sentItemId);
    }
  }

  /** A section with any row has a newest one. */
  lemma {:induction false} NewestExists(rows: seq<SentRow>, sectionId: string) returns (newest: SentRow)
    requires exists r :: r in rows && r.sectionId == sectionId
    ensures newest in rows && newest.sectionId == sectionId && NewestOfSection(rows, newest)
    decreases |rows|
  {
    var init, last := rows[..|rows| - 1], rows[|rows| - 1];
    SplitLast(rows);
    if exists r :: r in init && r.sectionId == sectionId {
      newest := NewestExists(init, sectionId);
      if last.sectionId == sectionId && Newer(last, newest) {
        forall n | n in rows && n.sectionId == sectionId ensures !Newer(n, last) {
          NewerIsStrict(last, last);
          if n in init && Newer(n, last) {
            NewerTransitive(n, last, newest);
          }
        }
        newest := last;
      }
    } else {
      newest := last;
      NewerIsStrict(last, last);
    }
  }

  lemma {:induction false} NewestUnique(rows: seq<SentRow>, a: SentRow, b: SentRow)
    requires a in rows && b in rows && a.sectionId == b.sectionId
    requires NewestOfSection(rows, a) && NewestOfSection(rows, b)
    ensures a.sentItemId == b.sentItemId
  {
    NewerIsStrict(a, b);
  }
}

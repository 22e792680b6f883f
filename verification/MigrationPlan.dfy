/**
  Planning storage migrations: what has been applied must be the first of what is available. The order of ids is the
  planner's own (`localeCompare`), any weak order.
*/
module MigrationPlan {
  import opened Common
  import opened Ordering

  datatype Definition = Definition(
    id: string, filename: string, checksum: string, compatible: seq<string>, sql: Sql)

  /** A migration script: its hash, the objects it creates, and whether it runs at all. */
  datatype Sql = Sql(sha256: string, creates: set<string>, runs: bool)

  datatype AppliedRow = AppliedRow(id: string, filename: string, checksum: string, appliedAt: string)

  datatype Plan = Plan(alreadyApplied: seq<Definition>, pending: seq<Definition>)

  datatype PlanError = DuplicateId | NotSorted | InvalidChecksum | NotAvailable | ChecksumChanged | NotPrefix

  type Order = (string, string) -> bool

  function DefinitionId(d: Definition): string { d.id }
  function AppliedId(a: AppliedRow): string { a.id }

  function Ids(available: seq<Definition>): (r: seq<string>)
    ensures |r| == |available| && forall i :: 0 <= i < |r| ==> r[i] == available[i].id
  {
    Map(available, DefinitionId)
  }

  function AppliedIds(applied: seq<AppliedRow>): (r: seq<string>)
    ensures |r| == |applied| && forall i :: 0 <= i < |r| ==> r[i] == applied[i].id
  {
    Map(applied, AppliedId)
  }

  predicate ValidChecksum(s: string) {
    |s| == 64 && forall c :: c in s ==> 'a' <= c <= 'f' || '0' <= c <= '9'
  }

  predicate ChecksumsValid(d: Definition) {
    ValidChecksum(d.checksum) && forall c :: c in d.compatible ==> ValidChecksum(c)
  }

  predicate Accepts(d: Definition, checksum: string) {
    d.checksum == checksum || checksum in d.compatible
  }

  predicate UniqueIds(available: seq<Definition>, applied: seq<AppliedRow>) {
    Distinct(Ids(available)) && Distinct(AppliedIds(applied))
  }

  ghost predicate SortedIds(available: seq<Definition>, applied: seq<AppliedRow>, order: Order) {
    Sorted(Ids(available), order) && Sorted(AppliedIds(applied), order)
  }

  predicate AllChecksumsValid(available: seq<Definition>, applied: seq<AppliedRow>) {
    (forall d :: d in available ==> ChecksumsValid(d)) && (forall a :: a in applied ==> ValidChecksum(a.checksum))
  }

  /** The applied rows, in their order, are the first migrations, each with a checksum that migration still accepts. */
  predicate AppliedPrefix(available: seq<Definition>, applied: seq<AppliedRow>) {
    |applied| <= |available| && forall i :: 0 <= i < |applied| ==>
      applied[i].id == available[i].id && Accepts(available[i], applied[i].checksum)
  }

  function IdSet(applied: seq<AppliedRow>): set<string> {
    set a | a in applied :: a.id
  }

  /** The same in any order: as many of the first migrations as there are applied rows, each still accepting its row. */
  predicate AppliedFirst(available: seq<Definition>, applied: seq<AppliedRow>) {
    && |applied| <= |available| && SplitsAt(available, IdSet(applied), |applied|)
    && forall a :: a in applied ==> Known(available, a)
  }

  ghost predicate Plannable(available: seq<Definition>, applied: seq<AppliedRow>, order: Order) {
    && UniqueIds(available, applied) && SortedIds(available, applied, order) && AllChecksumsValid(available, applied)
    && AppliedFirst(available, applied)
  }

  method AssertUniqueMigrationIds(ids: seq<string>) returns (ok: bool)
    ensures ok <==> Distinct(ids)
  {
    var seen: set<string> := {};
    for i := 0 to |ids|
      invariant seen == set k | 0 <= k < i :: ids[k]
      invariant Distinct(ids[..i])
    {
      if ids[i] in seen {
        var k :| 0 <= k < i && ids[k] == ids[i];
        return false;
      }
      seen := seen + {ids[i]};
    }
    assert ids[..|ids|] == ids;
    return true;
  }

  method AssertSortedById(ids: seq<string>, order: Order) returns (ok: bool)
    requires StrictWeakOrder(order)
    ensures ok <==> Sorted(ids, order)
  {
    var sorted := Sort(ids, order);
    SortOfSorted(ids, order);
    for i := 0 to |ids|
      invariant forall k :: 0 <= k < i ==> ids[k] == sorted[k]
    {
      if ids[i] != sorted[i] {
        return false;
      }
    }
    assert ids == sorted;
    return true;
  }

  method AssertChecksums(available: seq<Definition>) returns (ok: bool)
    ensures ok <==> forall d :: d in available ==> ChecksumsValid(d)
  {
    for i := 0 to |available|
      invariant forall k :: 0 <= k < i ==> ChecksumsValid(available[k])
    {
      if !ValidChecksum(available[i].checksum) {
        assert available[i] in available;
        return false;
      }
      for j := 0 to |available[i].compatible|
        invariant forall k :: 0 <= k < j ==> ValidChecksum(available[i].compatible[k])
      {
        if !ValidChecksum(available[i].compatible[j]) {
          assert available[i].compatible[j] in available[i].compatible && available[i] in available;
          return false;
        }
      }
    }
    return true;
  }

  method AssertAppliedChecksums(applied: seq<AppliedRow>) returns (ok: bool)
    ensures ok <==> forall a :: a in applied ==> ValidChecksum(a.checksum)
  {
    for i := 0 to |applied|
      invariant forall k :: 0 <= k < i ==> ValidChecksum(applied[k].checksum)
    {
      if !ValidChecksum(applied[i].checksum) {
        assert applied[i] in applied;
        return false;
      }
    }
    return true;
  }

  /** Each applied row names an available migration that accepts its checksum. */
  predicate Known(available: seq<Definition>, a: AppliedRow) {
    exists d :: d in available && d.id == a.id && Accepts(d, a.checksum)
  }

  /** The first applied row that is not known decides which error is reported. */
  predicate FirstUnknown(available: seq<Definition>, applied: seq<AppliedRow>, error: PlanError) {
    exists i ::
      0 <= i < |applied| && !Known(available, applied[i]) &&
        (forall k :: 0 <= k < i ==> Known(available, applied[k])) &&
      error == if exists d :: d in available && d.id == applied[i].id then ChecksumChanged else NotAvailable
  }

  method CheckApplied(available: seq<Definition>, applied: seq<AppliedRow>) returns (error: Option<PlanError>)
    requires Distinct(Ids(available))
    ensures error.None? <==> forall a :: a in applied ==> Known(available, a)
    ensures error.Some? ==> FirstUnknown(available, applied, error.value)
  {
    var availableById := Index(available, DefinitionId);
    IndexFacts(available, DefinitionId);
    for i := 0 to |applied|
      invariant forall k :: 0 <= k < i ==> Known(available, applied[k])
    {
      var a := applied[i];
      if a.id !in availableById {
        assert a in applied && !Known(available, a);
        return Some(NotAvailable);
      }
      var current := availableById[a.id];
      if !Accepts(current, a.checksum) {
        forall d | d in available && d.id == a.id ensures d == current {
          SameIdSameDefinition(available, d, current);
        }
        assert a in applied && !Known(available, a) && current in available && current.id == applied[i].id;
        return Some(ChecksumChanged);
      }
      assert current in available && Known(available, a);
    }
    return None;
  }

  // ----- checksums -----

  const HexDigits := "0123456789abcdef"

  /** The check on a checksum accepts exactly the 64-digit texts of a SHA-256 in lower-case hexadecimal. */
  lemma {:induction false} ValidChecksumIff(s: string)
    ensures ValidChecksum(s) <==> |s| == 64 && forall c :: c in s ==> c in HexDigits
  {
    forall c | 'a' <= c <= 'f' || '0' <= c <= '9' ensures c in HexDigits {
      var i := if c <= '9' then c as int - '0' as int else 10 + (c as int - 'a' as int);
      assert HexDigits[i] == c;
    }
  }

  /**
    A migration goes on accepting what it was applied with: of an accepted history with one checksum replaced, the new
    one is accepted iff it is the migration's own or one it lists as compatible.
  */
  lemma {:induction false} ChecksumDecides(
    available: seq<Definition>, applied: seq<AppliedRow>, order: Order, i: nat, d: Definition, checksum: string)
    requires Plannable(available, applied, order) && i < |applied| && d in available && d.id == applied[i].id
    ensures Plannable(available, applied[i := applied[i].(checksum := checksum)], order) <==>
            checksum == d.checksum || checksum in d.compatible
  {
    hide Sorted, SplitsAt, Distinct, Ids, ValidChecksum;
    var row := applied[i].(checksum := checksum);
    var after := applied[i := row];
    assert AppliedIds(after) == AppliedIds(applied);
    IdSetIs(applied);
    IdSetIs(after);
    assert row in after && applied[i] in applied;
    assert Known(available, row) <==> checksum == d.checksum || checksum in d.compatible by {
      forall e | e in available && e.id == d.id ensures e == d {
        SameIdSameDefinition(available, e, d);
      }
    }
    hide Known, Accepts, IdSet, AppliedIds;
    assert forall a :: a in after ==> a == row || a in applied;
    forall a | a in applied && a != applied[i] ensures a in after {
      var j :| 0 <= j < |applied| && applied[j] == a;
      assert after[j] == a;
    }
    assert ChecksumsValid(d);
  }

  lemma {:induction false} SameIdSameDefinition(available: seq<Definition>, a: Definition, b: Definition)
    requires Distinct(Ids(available)) && a in available && b in available && a.id == b.id
    ensures a == b
  {
    var i :| 0 <= i < |available| && available[i] == a;
    var j :| 0 <= j < |available| && available[j] == b;
    assert Ids(available)[i] == Ids(available)[j];
  }

  /** Walks the available list: applied ones first, then pending ones, else an error. */
  method SplitAvailable(available: seq<Definition>, appliedIds: set<string>) returns (r: Option<nat>, plan: Plan)
    ensures r.Some? <==> exists k :: 0 <= k <= |available| && SplitsAt(available, appliedIds, k)
    ensures r.Some? ==> r.value <= |available| && SplitsAt(available, appliedIds, r.value) &&
                        plan == Plan(available[..r.value], available[r.value..])
  {
    var alreadyApplied: seq<Definition>, pending: seq<Definition> := [], [];
    var seenPendingMigration := false;
    for i := 0 to |available|
      invariant |alreadyApplied| <= i
      invariant alreadyApplied == available[..|alreadyApplied|] && pending == available[|alreadyApplied|..i]
      invariant seenPendingMigration <==> |alreadyApplied| < i
      invariant forall k :: 0 <= k < i ==> (available[k].id in appliedIds <==> k < |alreadyApplied|)
    {
      if available[i].id in appliedIds {
        if seenPendingMigration {
          var first := |alreadyApplied|;
          forall k | 0 <= k <= |available| ensures !SplitsAt(available, appliedIds, k) {
            assert available[first].id !in appliedIds && first < i;
          }
          return None, Plan([], []);
        }
        alreadyApplied := alreadyApplied + [available[i]];
      } else {
        seenPendingMigration := true;
        pending := pending + [available[i]];
      }
    }
    assert SplitsAt(available, appliedIds, |alreadyApplied|);
    return Some(|alreadyApplied|), Plan(alreadyApplied, pending);
  }

  predicate SplitsAt(available: seq<Definition>, appliedIds: set<string>, k: nat) {
    forall i :: 0 <= i < |available| ==> (available[i].id in appliedIds <==> i < k)
  }

  lemma {:induction false} IdSetIs(applied: seq<AppliedRow>)
    ensures IdSet(applied) == (set x | x in AppliedIds(applied))
  {
    var ids := AppliedIds(applied);
    forall x ensures x in IdSet(applied) <==> x in ids {
      if x in ids {
        var i :| 0 <= i < |ids| && ids[i] == x;
        assert applied[i] in applied;
      }
      if x in IdSet(applied) {
        var a :| a in applied && a.id == x;
        var i :| 0 <= i < |applied| && applied[i] == a;
        assert ids[i] == x;
      }
    }
  }

  lemma {:induction false} FirstIdsAre(available: seq<Definition>, appliedIds: set<string>, k: nat)
    requires k <= |available| && SplitsAt(available, appliedIds, k)
    requires forall x :: x in appliedIds ==> exists d :: d in available && d.id == x
    ensures appliedIds == (set x | x in Ids(available[..k]))
  {
    var first := Ids(available[..k]);
    forall x ensures x in appliedIds <==> x in first {
      if x in appliedIds {
        var d :| d in available && d.id == x;
        var j :| 0 <= j < |available| && available[j] == d;
        assert j < k && first[j] == x;
      }
      if x in first {
        var j :| 0 <= j < |first| && first[j] == x;
      }
    }
  }

  /** A list that splits behind known, unique applied ids splits at their number. */
  lemma {:induction false} SplitsAtTheirNumber(available: seq<Definition>, applied: seq<AppliedRow>, k: nat)
    requires UniqueIds(available, applied) && (forall a :: a in applied ==> Known(available, a))
    requires k <= |available| && SplitsAt(available, IdSet(applied), k)
    ensures k == |applied|
  {
    var first := Ids(available[..k]);
    forall x | x in IdSet(applied) ensures exists d :: d in available && d.id == x {
      var a :| a in applied && a.id == x;
      assert Known(available, a);
    }
    FirstIdsAre(available, IdSet(applied), k);
    IdSetIs(applied);
    assert Distinct(first) by {
      assert forall i :: 0 <= i < |first| ==> first[i] == Ids(available)[i];
    }
    DistinctCardinality(first);
    DistinctCardinality(AppliedIds(applied));
  }

  /** When no two ids tie, an accepted history lists the first migrations in their order. */
  lemma {:induction false} AppliedAreFirst(available: seq<Definition>, applied: seq<AppliedRow>, order: Order)
    requires Plannable(available, applied, order) && StrictTotalOrder(order)
    ensures AppliedIds(applied) == Ids(available[..|applied|])
  {
    var left, right := AppliedIds(applied), Ids(available[..|applied|]);
    forall x | x in IdSet(applied) ensures exists d :: d in available && d.id == x {
      var a :| a in applied && a.id == x;
      assert Known(available, a);
    }
    FirstIdsAre(available, IdSet(applied), |applied|);
    IdSetIs(applied);
    assert Distinct(right) && Sorted(right, order) by {
      assert forall i :: 0 <= i < |right| ==> right[i] == Ids(available)[i];
    }
    hide IdSet, Ids, AppliedIds;
    SameSetSameMembers(left, right);
    DistinctSameSet(left, right);
    SortedUnique(left, right, order);
  }

  lemma {:induction false} DistinctSameSet(a: seq<string>, b: seq<string>)
    requires Distinct(a) && Distinct(b) && forall x :: x in a <==> x in b
    ensures multiset(a) == multiset(b)
  {
    forall x ensures multiset(a)[x] == multiset(b)[x] {
      OneOccurrence(a, x);
      OneOccurrence(b, x);
    }
  }

  lemma {:induction false} OneOccurrence(a: seq<string>, x: string)
    requires Distinct(a)
    ensures multiset(a)[x] == if x in a then 1 else 0
    decreases |a|
  {
    if a != [] {
      var init, last := a[..|a| - 1], a[|a| - 1];
      SplitLast(a);
      OneOccurrence(init, x);
      assert multiset(a) == multiset(init) + multiset{last};
      assert last !in init by {
        assert forall i :: 0 <= i < |init| ==> init[i] == a[i] != a[|a| - 1];
      }
    }
  }

  /** A prefix in the listed order is one in any order. */
  lemma {:induction false} PrefixIsFirst(available: seq<Definition>, applied: seq<AppliedRow>)
    requires Distinct(Ids(available)) && AppliedPrefix(available, applied)
    ensures AppliedFirst(available, applied) && Distinct(AppliedIds(applied))
  {
    forall a | a in applied ensures Known(available, a) {
      var i :| 0 <= i < |applied| && applied[i] == a;
      assert available[i] in available;
    }
    forall i | 0 <= i < |available| ensures available[i].id in IdSet(applied) <==> i < |applied| {
      if i < |applied| {
        assert applied[i] in applied;
      } else {
        forall a | a in applied ensures a.id != available[i].id {
          var j :| 0 <= j < |applied| && applied[j] == a;
          assert Ids(available)[j] != Ids(available)[i];
        }
      }
    }
    forall i, j | 0 <= i < j < |applied| ensures AppliedIds(applied)[i] != AppliedIds(applied)[j] {
      assert Ids(available)[i] != Ids(available)[j];
    }
  }

  /** Accepts exactly the histories that come first, and splits the list there; otherwise says what is wrong first. */
  method PlanPendingStorageMigrations(available: seq<Definition>, applied: seq<AppliedRow>, order: Order)
    returns (r: Result<Plan, PlanError>)
    requires StrictWeakOrder(order)
    ensures r.Ok? <==> Plannable(available, applied, order)
    ensures r.Ok? ==> r.value == Plan(available[..|applied|], available[|applied|..])
    ensures r == Err(DuplicateId) <==> !UniqueIds(available, applied)
    ensures r == Err(NotSorted) <==> UniqueIds(available, applied) && !SortedIds(available, applied, order)
    ensures r == Err(InvalidChecksum) <==>
            UniqueIds(available, applied) && SortedIds(available, applied, order) &&
            !AllChecksumsValid(available, applied)
    ensures r == Err(NotPrefix) ==> forall a :: a in applied ==> Known(available, a)
    ensures r == Err(NotAvailable) || r == Err(ChecksumChanged) ==> FirstUnknown(available, applied, r.error)
  {
    hide Known, Accepts, ChecksumsValid, ValidChecksum, Distinct, Sorted, Ids, AppliedIds, IdSet, SplitsAt;
    var availableUnique := AssertUniqueMigrationIds(Ids(available));
    if !availableUnique { return Err(DuplicateId); }
    var appliedUnique := AssertUniqueMigrationIds(AppliedIds(applied));
    if !appliedUnique { return Err(DuplicateId); }
    var availableSorted := AssertSortedById(Ids(available), order);
    if !availableSorted { return Err(NotSorted); }
    var appliedSorted := AssertSortedById(AppliedIds(applied), order);
    if !appliedSorted { return Err(NotSorted); }
    var availableValid := AssertChecksums(available);
    if !availableValid { return Err(InvalidChecksum); }
    var appliedValid := AssertAppliedChecksums(applied);
    if !appliedValid { return Err(InvalidChecksum); }

    var error := CheckApplied(available, applied);
    if error.Some? { return Err(error.value); }
    var split, plan := SplitAvailable(available, IdSet(applied));
    if split.None? { return Err(NotPrefix); }
    SplitsAtTheirNumber(available, applied, split.value);
    return Ok(plan);
  }
}

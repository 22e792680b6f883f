/** Applying migrations, one transaction each, as a state machine that may be cut off at any point. */
module MigrationRuns {
  import opened Common
  import opened Ordering
  import opened MigrationPlan

  const TABLE := "schema_migrations"

  /** The order the planner checks ids by (`localeCompare`), and the one the table lists them in (`ORDER BY id`). */
  datatype Collation = Collation(plan: Order, table: Order)

  /** Locale comparison may let different ids tie; the table's comparison of bytes never does. */
  ghost predicate Proper(c: Collation) {
    StrictWeakOrder(c.plan) && StrictTotalOrder(c.table)
  }

  datatype Database = Database(objects: set<string>, rows: seq<AppliedRow>)

  const EmptyDatabase := Database({}, [])

  datatype Run =
    | Idle
    | Between(pending: seq<Definition>)
    | Opened(pending: seq<Definition>, working: Database)
    | Executed(pending: seq<Definition>, working: Database)
    | Inserted(pending: seq<Definition>, working: Database)

  /** The committed database, the migrations this program version ships, and where the run stands. */
  datatype State = State(catalog: seq<Definition>, db: Database, run: Run)

  function RowsBy(order: Order): (AppliedRow, AppliedRow) -> bool {
    (a: AppliedRow, b: AppliedRow) => order(a.id, b.id)
  }

  function ReadApplied(db: Database, order: Order): seq<AppliedRow> {
    if TABLE in db.objects then Sort(db.rows, RowsBy(order)) else []
  }

  predicate TrustedBootstrap(db: Database) {
    TABLE in db.objects || db.objects == {}
  }

  predicate SourceChecksumsMatch(catalog: seq<Definition>) {
    forall d :: d in catalog ==> d.sql.sha256 == d.checksum
  }

  ghost predicate CatalogOk(catalog: seq<Definition>, order: Order) {
    && Distinct(Ids(catalog)) && Sorted(Ids(catalog), order)
    && (forall d :: d in catalog ==> ChecksumsValid(d)) && SourceChecksumsMatch(catalog)
  }

  /** Whatever the planner puts strictly before, the table does too. */
  predicate OrdersAgree(ids: seq<string>, c: Collation) {
    forall i, j :: 0 <= i < j < |ids| && c.plan(ids[i], ids[j]) ==> c.table(ids[i], ids[j])
  }

  function RowFor(d: Definition, now: string): AppliedRow {
    AppliedRow(d.id, d.filename, d.checksum, now)
  }

  // ----- steps -----

  ghost predicate PlanAccepts(catalog: seq<Definition>, db: Database, c: Collation) {
    Plannable(catalog, ReadApplied(db, c.table), c.plan)
  }

  ghost predicate Start(s: State, t: State, c: Collation) {
    && s.run.Idle? && TrustedBootstrap(s.db) && SourceChecksumsMatch(s.catalog) && PlanAccepts(s.catalog, s.db, c)
    && t == s.(run := Between(s.catalog[|ReadApplied(s.db, c.table)|..]))
  }

  predicate Begin(s: State, t: State) {
    s.run.Between? && s.run.pending != [] && t == s.(run := Opened(s.run.pending, s.db))
  }

  function AfterScript(db: Database, d: Definition): Database {
    db.(objects := db.objects + d.sql.creates)
  }

  predicate Execute(s: State, t: State) {
    && s.run.Opened? && s.run.pending != [] && s.run.pending[0].sql.runs
    && t == s.(run := Executed(s.run.pending, AfterScript(s.run.working, s.run.pending[0])))
  }

  /** The id is the primary key and the file name is unique too. */
  predicate CanInsert(working: Database, d: Definition) {
    TABLE in working.objects && forall r :: r in working.rows ==> r.id != d.id && r.filename != d.filename
  }

  function AfterInsert(db: Database, d: Definition, now: string): Database {
    db.(rows := db.rows + [RowFor(d, now)])
  }

  predicate InsertRow(s: State, t: State, now: string) {
    && s.run.Executed? && s.run.pending != [] && CanInsert(s.run.working, s.run.pending[0])
    && t == s.(run := Inserted(s.run.pending, AfterInsert(s.run.working, s.run.pending[0], now)))
  }

  predicate Commit(s: State, t: State) {
    s.run.Inserted? && s.run.pending != [] && t == State(s.catalog, s.run.working, Between(s.run.pending[1..]))
  }

  /** A failing statement or a crash: whatever transaction is open is rolled back. */
  predicate CutOff(s: State, t: State) {
    !s.run.Idle? && t == s.(run := Idle)
  }

  /** Nothing is left to apply; planning once more may still throw, but touches nothing. */
  predicate Finish(s: State, t: State) {
    s.run == Between([]) && t == s.(run := Idle)
  }

  /** A new program version: more migrations at the end, every old checksum still accepted. */
  ghost predicate Upgrade(s: State, t: State, c: Collation) {
    && s.run.Idle? && t.run.Idle? && t.db == s.db && CatalogOk(t.catalog, c.plan) && |s.catalog| <= |t.catalog|
    && forall i :: 0 <= i < |s.catalog| ==> StillAccepts(s.catalog[i], t.catalog[i])
  }

  ghost predicate StillAccepts(d: Definition, e: Definition) {
    d.id == e.id && forall sum :: Accepts(d, sum) ==> Accepts(e, sum)
  }

  ghost predicate InsideRun(s: State, t: State) {
    Begin(s, t) || Execute(s, t) || (exists now :: InsertRow(s, t, now)) || CutOff(s, t) || Finish(s, t)
  }

  ghost predicate Step(s: State, t: State, c: Collation) {
    Start(s, t, c) || InsideRun(s, t) || Commit(s, t) || Upgrade(s, t, c)
  }

  ghost predicate Behavior(trace: seq<State>, c: Collation) {
    trace != [] && forall i :: 0 < i < |trace| ==> Step(trace[i - 1], trace[i], c)
  }

  ghost predicate Initial(s: State, c: Collation) {
    s.db == EmptyDatabase && s.run.Idle? && CatalogOk(s.catalog, c.plan)
  }

  // ----- the invariant -----

  /** A table has to exist to have rows. */
  predicate RowsNeedTable(db: Database) {
    db.rows != [] ==> TABLE in db.objects
  }

  /** What is committed are the first of what is available, and the table is there once anything is. */
  ghost predicate DatabaseOk(catalog: seq<Definition>, db: Database) {
    && AppliedFirst(catalog, db.rows) && Distinct(AppliedIds(db.rows))
    && (forall r :: r in db.rows ==> ValidChecksum(r.checksum)) && TrustedBootstrap(db) && RowsNeedTable(db)
  }

  ghost predicate Pending(s: State, pending: seq<Definition>) {
    |s.db.rows| <= |s.catalog| && pending == s.catalog[|s.db.rows|..]
  }

  ghost predicate RunOk(s: State) {
    match s.run
    case Idle => true
    case Between(pending) => Pending(s, pending)
    case Opened(pending, working) => pending != [] && Pending(s, pending) && working == s.db
    case Executed(pending, working) => pending != [] && Pending(s, pending) && working.rows == s.db.rows
    case Inserted(pending, working) =>
      && pending != [] && Pending(s, pending) && TABLE in working.objects
      && exists now :: working.rows == s.db.rows + [RowFor(pending[0], now)]
  }

  ghost predicate Inv(s: State, c: Collation) {
    CatalogOk(s.catalog, c.plan) && DatabaseOk(s.catalog, s.db) && RunOk(s)
  }

  // ----- reading back -----

  lemma {:induction false} ReadBackFacts(db: Database, order: Order)
    requires RowsNeedTable(db)
    ensures |ReadApplied(db, order)| == |db.rows| && forall r :: r in ReadApplied(db, order) <==> r in db.rows
    ensures IdSet(ReadApplied(db, order)) == IdSet(db.rows)
    ensures Distinct(AppliedIds(ReadApplied(db, order))) <==> Distinct(AppliedIds(db.rows))
  {
    var rows := ReadApplied(db, order);
    IdSetIs(rows);
    IdSetIs(db.rows);
    DistinctCardinality(AppliedIds(rows));
    DistinctCardinality(AppliedIds(db.rows));
  }

  lemma {:induction false} ReadBackInTableOrder(db: Database, order: Order)
    requires StrictTotalOrder(order)
    ensures Sorted(AppliedIds(ReadApplied(db, order)), order)
  {
    TotalIsWeak(order);
    hide StrictTotalOrder;
    RowsAreWeaklyOrdered(order);
    SortSorts(db.rows, RowsBy(order));
    var rows := ReadApplied(db, order);
    forall i, j | 0 <= i < j < |rows| ensures !order(AppliedIds(rows)[j], AppliedIds(rows)[i]) {
      assert !RowsBy(order)(rows[j], rows[i]);
    }
  }

  lemma {:induction false} RowsAreWeaklyOrdered(order: Order)
    requires StrictWeakOrder(order)
    ensures StrictWeakOrder(RowsBy(order))
  {
    var less := RowsBy(order);
    forall x, y | less(x, y) ensures !less(y, x) {
      assert order(x.id, y.id);
    }
    forall x, y, z | !less(x, y) && !less(y, z) ensures !less(x, z) {
      assert !order(x.id, y.id) && !order(y.id, z.id);
    }
  }

  /** The same ids in both lists, each list in its own order: they agree where the orders do. */
  lemma {:induction false} SortedBothIff(first: seq<string>, listed: seq<string>, c: Collation)
    requires Proper(c) && Distinct(first) && Sorted(first, c.plan) && Sorted(listed, c.table)
    requires forall x :: x in first <==> x in listed
    ensures Sorted(listed, c.plan) <==> OrdersAgree(first, c)
  {
    if OrdersAgree(first, c) {
      forall p, q | 0 <= p < q < |listed| ensures !c.plan(listed[q], listed[p]) {
        assert listed[p] in first && listed[q] in first;
        var i :| 0 <= i < |first| && first[i] == listed[p];
        var j :| 0 <= j < |first| && first[j] == listed[q];
      }
    }
    if Sorted(listed, c.plan) {
      forall i, j | 0 <= i < j < |first| && c.plan(first[i], first[j]) ensures c.table(first[i], first[j]) {
        assert first[i] in listed && first[j] in listed;
        var p :| 0 <= p < |listed| && listed[p] == first[i];
        var q :| 0 <= q < |listed| && listed[q] == first[j];
        assert p < q;
      }
    }
  }

  lemma {:induction false} FirstIdsAreListed(catalog: seq<Definition>, db: Database, order: Order)
    requires DatabaseOk(catalog, db) && Distinct(Ids(catalog))
    ensures var first, listed := Ids(catalog[..|db.rows|]), AppliedIds(ReadApplied(db, order));
            Distinct(first) && forall x :: x in first <==> x in listed
  {
    var first, listed := Ids(catalog[..|db.rows|]), AppliedIds(ReadApplied(db, order));
    ReadBackFacts(db, order);
    IdSetIs(ReadApplied(db, order));
    hide ReadApplied;
    forall x | x in IdSet(db.rows) ensures exists d :: d in catalog && d.id == x {
      var a :| a in db.rows && a.id == x;
      assert Known(catalog, a);
    }
    FirstIdsAre(catalog, IdSet(db.rows), |db.rows|);
    assert forall i :: 0 <= i < |first| ==> first[i] == Ids(catalog)[i];
    SameSetSameMembers(first, listed);
  }

  /** Only the order of ids can make a plan throw on what the invariant describes. */
  lemma {:induction false} OnlySortingFails(catalog: seq<Definition>, db: Database, c: Collation)
    requires CatalogOk(catalog, c.plan) && DatabaseOk(catalog, db)
    ensures var rows := ReadApplied(db, c.table);
            UniqueIds(catalog, rows) && AllChecksumsValid(catalog, rows) && AppliedFirst(catalog, rows)
  {
    ReadBackFacts(db, c.table);
    hide Distinct, Sorted, Ids, AppliedIds, ReadApplied, ChecksumsValid, ValidChecksum, Known, IdSet;
  }

  lemma {:induction false} ReadBackSortedIff(catalog: seq<Definition>, db: Database, c: Collation)
    requires Proper(c) && CatalogOk(catalog, c.plan) && DatabaseOk(catalog, db)
    ensures Sorted(AppliedIds(ReadApplied(db, c.table)), c.plan) <==> OrdersAgree(Ids(catalog[..|db.rows|]), c)
  {
    var first := Ids(catalog[..|db.rows|]);
    FirstIdsAreListed(catalog, db, c.table);
    ReadBackInTableOrder(db, c.table);
    assert Sorted(first, c.plan) by {
      assert forall i :: 0 <= i < |first| ==> first[i] == Ids(catalog)[i];
    }
    hide CatalogOk, DatabaseOk, ReadApplied, Ids, AppliedIds;
    SortedBothIff(first, AppliedIds(ReadApplied(db, c.table)), c);
  }

  /** What a plan accepts is exactly the invariant, where the two orders agree on what has been applied. */
  lemma {:induction false} PlannableIff(catalog: seq<Definition>, db: Database, c: Collation)
    requires Proper(c) && RowsNeedTable(db)
    ensures CatalogOk(catalog, c.plan) && DatabaseOk(catalog, db) && OrdersAgree(Ids(catalog[..|db.rows|]), c) <==>
            TrustedBootstrap(db) && SourceChecksumsMatch(catalog) && PlanAccepts(catalog, db, c)
  {
    ReadBackFacts(db, c.table);
    if CatalogOk(catalog, c.plan) && DatabaseOk(catalog, db) {
      ReadBackSortedIff(catalog, db, c);
    }
    hide Distinct, Sorted, Ids, AppliedIds, ReadApplied, ChecksumsValid, ValidChecksum, Known, IdSet, OrdersAgree;
    hide Proper;
  }

  // ----- steps keep the invariant -----

  lemma {:induction false} AppliedFirstGrows(catalog: seq<Definition>, rows: seq<AppliedRow>, now: string)
    requires Distinct(Ids(catalog)) && AppliedFirst(catalog, rows) && Distinct(AppliedIds(rows)) && |rows| < |catalog|
    ensures var grown := rows + [RowFor(catalog[|rows|], now)];
            AppliedFirst(catalog, grown) && Distinct(AppliedIds(grown))
  {
    var d := catalog[|rows|];
    var grown := rows + [RowFor(d, now)];
    assert d in catalog && Known(catalog, RowFor(d, now));
    assert IdSet(grown) == IdSet(rows) + {d.id};
    forall i | 0 <= i < |catalog| ensures catalog[i].id in IdSet(grown) <==> i < |grown| {
      assert i != |rows| ==> Ids(catalog)[i] != Ids(catalog)[|rows|];
    }
    assert d.id !in IdSet(rows);
    forall i, j | 0 <= i < j < |grown| ensures AppliedIds(grown)[i] != AppliedIds(grown)[j] {
      assert grown[i] == rows[i] && rows[i] in rows;
      assert j < |rows| ==> AppliedIds(rows)[i] != AppliedIds(rows)[j];
    }
  }

  lemma {:induction false} CommitKeepsFirst(
    catalog: seq<Definition>, db: Database, after: Database, now: string, c: Collation)
    requires CatalogOk(catalog, c.plan) && DatabaseOk(catalog, db) && |db.rows| < |catalog|
    requires TABLE in after.objects && after.rows == db.rows + [RowFor(catalog[|db.rows|], now)]
    ensures DatabaseOk(catalog, after)
  {
    AppliedFirstGrows(catalog, db.rows, now);
    assert catalog[|db.rows|] in catalog && ChecksumsValid(catalog[|db.rows|]);
  }

  lemma {:induction false} UpgradeKeepsFirst(s: State, t: State, c: Collation)
    requires DatabaseOk(s.catalog, s.db) && Upgrade(s, t, c)
    ensures DatabaseOk(t.catalog, t.db)
  {
    var rows := s.db.rows;
    forall r | r in rows ensures Known(t.catalog, r) {
      var d :| d in s.catalog && d.id == r.id && Accepts(d, r.checksum);
      var i :| 0 <= i < |s.catalog| && s.catalog[i] == d;
      assert StillAccepts(s.catalog[i], t.catalog[i]) && t.catalog[i] in t.catalog;
    }
    forall i | 0 <= i < |t.catalog| ensures t.catalog[i].id in IdSet(rows) <==> i < |rows| {
      if i < |s.catalog| {
        assert StillAccepts(s.catalog[i], t.catalog[i]);
      } else {
        forall r | r in rows ensures r.id != t.catalog[i].id {
          assert Known(s.catalog, r);
          var d :| d in s.catalog && d.id == r.id;
          var j :| 0 <= j < |s.catalog| && s.catalog[j] == d;
          assert StillAccepts(s.catalog[j], t.catalog[j]);
          assert Ids(t.catalog)[j] != Ids(t.catalog)[i];
        }
      }
    }
  }

  lemma {:induction false} InsideRunKeepsInv(s: State, t: State, c: Collation)
    requires Inv(s, c) && InsideRun(s, t)
    ensures Inv(t, c)
  {
    hide CatalogOk, DatabaseOk;
  }

  lemma {:induction false} RowsWithinCatalog(catalog: seq<Definition>, db: Database)
    requires DatabaseOk(catalog, db)
    ensures |db.rows| <= |catalog| && RowsNeedTable(db)
  {
  }

  lemma {:induction false} StepKeepsInv(s: State, t: State, c: Collation)
    requires Inv(s, c) && Step(s, t, c)
    ensures Inv(t, c)
  {
    hide CatalogOk, DatabaseOk, ReadApplied, PlanAccepts;
    RowsWithinCatalog(s.catalog, s.db);
    if Start(s, t, c) {
      ReadBackFacts(s.db, c.table);
    } else if Commit(s, t) {
      var now :| s.run.working.rows == s.db.rows + [RowFor(s.run.pending[0], now)];
      CommitKeepsFirst(s.catalog, s.db, t.db, now, c);
    } else if Upgrade(s, t, c) {
      UpgradeKeepsFirst(s, t, c);
    } else {
      InsideRunKeepsInv(s, t, c);
    }
  }

  /** Only a commit changes the database, and it adds exactly the next migration. */
  lemma {:induction false} OnlyCommitChangesRows(s: State, t: State, c: Collation)
    requires Inv(s, c) && Step(s, t, c) && t.db != s.db
    ensures Commit(s, t) && |s.db.rows| < |s.catalog|
    ensures exists now :: t.db.rows == s.db.rows + [RowFor(s.catalog[|s.db.rows|], now)]
  {
    hide CatalogOk, DatabaseOk, PlanAccepts;
    var now :| s.run.working.rows == s.db.rows + [RowFor(s.run.pending[0], now)];
    assert t.db.rows == s.db.rows + [RowFor(s.catalog[|s.db.rows|], now)];
  }

  lemma {:induction false} NextIsAccepted(d: Definition)
    ensures Accepts(d, d.checksum)
  {
  }

  lemma {:induction false} StepKeepsRowsInOrder(s: State, t: State, c: Collation)
    requires Inv(s, c) && Step(s, t, c) && AppliedPrefix(s.catalog, s.db.rows)
    ensures AppliedPrefix(t.catalog, t.db.rows)
  {
    hide CatalogOk, DatabaseOk, PlanAccepts, Accepts;
    if t.db != s.db {
      OnlyCommitChangesRows(s, t, c);
      NextIsAccepted(s.catalog[|s.db.rows|]);
    } else if Upgrade(s, t, c) {
      forall i | 0 <= i < |s.db.rows|
        ensures s.db.rows[i].id == t.catalog[i].id && Accepts(t.catalog[i], s.db.rows[i].checksum)
      {
        assert StillAccepts(s.catalog[i], t.catalog[i]);
      }
    }
  }

  /**
    Crash safety: over every behaviour the committed rows, in commit order, are a prefix of the available migrations.
  */
  lemma {:induction false} CommittedIsAlwaysAPrefix(trace: seq<State>, c: Collation, i: nat)
    requires Behavior(trace, c) && Initial(trace[0], c) && i < |trace|
    ensures Inv(trace[i], c) && AppliedPrefix(trace[i].catalog, trace[i].db.rows)
    decreases i
  {
    if i > 0 {
      CommittedIsAlwaysAPrefix(trace, c, i - 1);
      assert Step(trace[i - 1], trace[i], c);
      StepKeepsInv(trace[i - 1], trace[i], c);
      StepKeepsRowsInOrder(trace[i - 1], trace[i], c);
    }
  }

  /** Over every behaviour the next plan is accepted iff the two orders agree on the ids applied so far. */
  lemma {:induction false} ReplanningIff(trace: seq<State>, c: Collation, i: nat)
    requires Proper(c) && Behavior(trace, c) && Initial(trace[0], c) && i < |trace|
    ensures |trace[i].db.rows| <= |trace[i].catalog|
    ensures PlanAccepts(trace[i].catalog, trace[i].db, c) <==>
            OrdersAgree(Ids(trace[i].catalog[..|trace[i].db.rows|]), c)
  {
    CommittedIsAlwaysAPrefix(trace, c, i);
    PlannableIff(trace[i].catalog, trace[i].db, c);
    RowsWithinCatalog(trace[i].catalog, trace[i].db);
  }

  lemma {:induction false} FullyApplied(catalog: seq<Definition>, order: Order) returns (db: Database)
    requires CatalogOk(catalog, order)
    ensures DatabaseOk(catalog, db) && |db.rows| == |catalog|
  {
    var rows := seq(|catalog|, i requires 0 <= i < |catalog| => RowFor(catalog[i], ""));
    db := Database({TABLE}, rows);
    assert AppliedPrefix(catalog, rows);
    PrefixIsFirst(catalog, rows);
    forall r | r in rows ensures ValidChecksum(r.checksum) {
      var i :| 0 <= i < |rows| && rows[i] == r;
      assert catalog[i] in catalog && ChecksumsValid(catalog[i]);
    }
  }

  /**
    ... so a catalog is planned again without fail, however far it has been applied, iff the orders agree on all of it.
  */
  lemma {:induction false} AlwaysReplannableIff(catalog: seq<Definition>, c: Collation)
    requires Proper(c) && CatalogOk(catalog, c.plan)
    ensures (forall db :: DatabaseOk(catalog, db) ==> PlanAccepts(catalog, db, c)) <==> OrdersAgree(Ids(catalog), c)
  {
    if OrdersAgree(Ids(catalog), c) {
      forall db | DatabaseOk(catalog, db) ensures PlanAccepts(catalog, db, c) {
        PlannableIff(catalog, db, c);
        var first := Ids(catalog[..|db.rows|]);
        assert forall i :: 0 <= i < |first| ==> first[i] == Ids(catalog)[i];
      }
    } else {
      var db := FullyApplied(catalog, c.plan);
      PlannableIff(catalog, db, c);
      assert catalog[..|catalog|] == catalog;
    }
  }

  /** When the planner lets no two ids tie, agreeing means that its sorted catalog is sorted for the table as well. */
  lemma {:induction false} AgreeIffSortedInBoth(ids: seq<string>, c: Collation)
    requires Proper(c) && StrictTotalOrder(c.plan) && Distinct(ids) && Sorted(ids, c.plan)
    ensures OrdersAgree(ids, c) <==> Sorted(ids, c.table)
  {
    forall i, j | 0 <= i < j < |ids|
      ensures c.plan(ids[i], ids[j]) && (c.table(ids[i], ids[j]) <==> !c.table(ids[j], ids[i]))
    {
      assert ids[i] != ids[j];
    }
  }

  /**
    A run that has nothing pending has applied everything; the next one starts iff the orders agree, with nothing to
    do.
  */
  lemma {:induction false} FinishedLeavesNothing(s: State, t: State, c: Collation)
    requires Proper(c) && Inv(s, c) && Finish(s, t)
    ensures |t.db.rows| == |t.catalog| && AppliedFirst(t.catalog, t.db.rows)
    ensures (exists next :: Start(t, next, c)) <==> OrdersAgree(Ids(t.catalog), c)
    ensures forall next :: Start(t, next, c) ==> next.run == Between([])
  {
    PlannableIff(t.catalog, t.db, c);
    ReadBackFacts(t.db, c.table);
    assert t.catalog[..|t.catalog|] == t.catalog && t.catalog[|t.catalog|..] == [];
    if OrdersAgree(Ids(t.catalog), c) {
      assert Start(t, t.(run := Between([])), c);
    }
  }

  // ----- what stops a run, and what does not -----

  /** What a run refuses, said of the database and the catalog. */
  ghost predicate Refused(s: State) {
    || (s.db.objects != {} && TABLE !in s.db.objects)
    || (exists d :: d in s.catalog && d.sql.sha256 != d.checksum)
    || (TABLE in s.db.objects && exists r :: r in s.db.rows && Disowned(s.catalog, r))
  }

  /** No migration with the row's id vouches for the row's checksum. */
  ghost predicate Disowned(catalog: seq<Definition>, r: AppliedRow) {
    forall d :: d in catalog && d.id == r.id ==> r.checksum != d.checksum && r.checksum !in d.compatible
  }

  /**
    No run starts on objects that are not its own, from a script that is not the one hashed, or over a history with a
    checksum that its migration does not list or an id that no migration has: every step leaves the database alone.
  */
  lemma {:induction false} RefusedStaysIdle(s: State, t: State, c: Collation)
    requires s.run.Idle? && Refused(s) && Step(s, t, c)
    ensures t.run.Idle? && t.db == s.db
  {
    assert Start(s, t, c) ==> forall r :: r in ReadApplied(s.db, c.table) ==> Known(s.catalog, r);
  }

  /** A database with other objects is never touched, whatever the catalogs that come with later versions. */
  lemma {:induction false} ForeignDatabaseIsLeftAlone(trace: seq<State>, c: Collation, i: nat)
    requires Behavior(trace, c) && i < |trace| && trace[0].run.Idle?
    requires trace[0].db.objects != {} && TABLE !in trace[0].db.objects
    ensures trace[i].run.Idle? && trace[i].db == trace[0].db
    decreases i
  {
    if i > 0 {
      ForeignDatabaseIsLeftAlone(trace, c, i - 1);
      assert Step(trace[i - 1], trace[i], c);
      RefusedStaysIdle(trace[i - 1], trace[i], c);
    }
  }

  /** The scripts run, the first of them or an earlier one makes the table, and no file name is used twice. */
  predicate Applicable(db: Database, pending: seq<Definition>) {
    && (forall d :: d in pending ==> d.sql.runs)
    && (pending != [] ==> TABLE in db.objects || TABLE in pending[0].sql.creates)
    && (forall i, j :: 0 <= i < j < |pending| ==> pending[i].filename != pending[j].filename)
    && (forall r, d :: r in db.rows && d in pending ==> r.filename != d.filename)
  }

  function RowsOf(pending: seq<Definition>, now: nat -> string): (rows: seq<AppliedRow>)
    ensures |rows| == |pending|
    ensures forall i :: 0 <= i < |pending| ==>
              rows[i] == AppliedRow(pending[i].id, pending[i].filename, pending[i].checksum, now(i))
  {
    seq(|pending|, i requires 0 <= i < |pending| => RowFor(pending[i], now(i)))
  }

  lemma {:induction false} NextIdIsNew(s: State, c: Collation)
    requires Inv(s, c) && s.run.Between? && s.run.pending != []
    ensures forall r :: r in s.db.rows ==> r.id != s.run.pending[0].id
  {
    var catalog, n := s.catalog, |s.db.rows|;
    assert catalog[n] == s.run.pending[0] && catalog[n].id !in IdSet(s.db.rows);
  }

  /** One migration at a time. */
  lemma {:induction false} ApplicableStep(db: Database, pending: seq<Definition>, now: string)
    requires pending != [] && forall r :: r in db.rows ==> r.id != pending[0].id
    ensures var d := pending[0];
            Applicable(db, pending) <==>
            d.sql.runs && CanInsert(AfterScript(db, d), d) &&
            Applicable(AfterInsert(AfterScript(db, d), d, now), pending[1..])
  {
    var d, rest := pending[0], pending[1..];
    var after := AfterInsert(AfterScript(db, d), d, now);
    assert pending == [d] + rest;
    if Applicable(db, pending) {
      forall r, e | r in after.rows && e in rest ensures r.filename != e.filename {
        var j :| 0 <= j < |rest| && rest[j] == e;
        assert pending[j + 1] == e && e in pending;
        assert r in db.rows || r == RowFor(d, now);
      }
      forall i, j | 0 <= i < j < |rest| ensures rest[i].filename != rest[j].filename {
        assert pending[i + 1] == rest[i] && pending[j + 1] == rest[j];
      }
    }
    if d.sql.runs && CanInsert(AfterScript(db, d), d) && Applicable(after, rest) {
      forall i, j | 0 <= i < j < |pending| ensures pending[i].filename != pending[j].filename {
        assert pending[j] == rest[j - 1] && pending[j] in rest && RowFor(d, now) in after.rows;
        assert i > 0 ==> pending[i] == rest[i - 1];
      }
      forall r, e | r in db.rows && e in pending ensures r.filename != e.filename {
        assert r in after.rows;
      }
    }
  }

  lemma {:induction false} NothingToApply(db: Database)
    ensures Applicable(db, [])
  {
  }

  // ----- the procedure -----

  datatype RunError =
    | UntrustedDatabase
    | ChecksumMismatch
    | PlanFailed(error: PlanError)
    | StatementFailed
    | ReplanFailed(error: PlanError)

  datatype RunResult = RunResult(
    alreadyApplied: seq<Definition>, applied: seq<string>, pendingAfterApply: seq<Definition>)

  lemma {:induction false} FinishIsAStep(catalog: seq<Definition>, db: Database, c: Collation)
    ensures Step(State(catalog, db, Between([])), State(catalog, db, Idle), c)
  {
    assert Finish(State(catalog, db, Between([])), State(catalog, db, Idle));
  }

  /** What one transaction may do next, from each of its four places. */
  lemma {:induction false} TransactionSteps(
    catalog: seq<Definition>, db: Database, pending: seq<Definition>, now: string, c: Collation)
    requires pending != []
    ensures Step(State(catalog, db, Between(pending)), State(catalog, db, Opened(pending, db)), c)
    ensures Step(State(catalog, db, Opened(pending, db)), State(catalog, db, Idle), c)
    ensures var ran := AfterScript(db, pending[0]);
            pending[0].sql.runs ==>
              && Step(State(catalog, db, Opened(pending, db)), State(catalog, db, Executed(pending, ran)), c)
              && Step(State(catalog, db, Executed(pending, ran)), State(catalog, db, Idle), c)
              && (CanInsert(ran, pending[0]) ==>
                    var grown := AfterInsert(ran, pending[0], now);
                    && Step(State(catalog, db, Executed(pending, ran)), State(catalog, db, Inserted(pending, grown)), c)
                    && Step(State(catalog, db, Inserted(pending, grown)), State(catalog, grown, Between(pending[1..])),
                      c))
  {
    var ran := AfterScript(db, pending[0]);
    var grown := AfterInsert(ran, pending[0], now);
    assert CutOff(State(catalog, db, Opened(pending, db)), State(catalog, db, Idle));
    if pending[0].sql.runs && CanInsert(ran, pending[0]) {
      assert InsertRow(State(catalog, db, Executed(pending, ran)), State(catalog, db, Inserted(pending, grown)), now);
    }
  }

  ghost function Extend(trace: seq<State>, s: State, c: Collation): (r: seq<State>)
    requires Behavior(trace, c) && Step(trace[|trace| - 1], s, c)
    ensures Behavior(r, c) && trace <= r && r[|r| - 1] == s
  {
    trace + [s]
  }

  class MigrationDatabase {
    const collation: Collation
    var committed: Database
    var working: Database
    var open: bool
    ghost var trace: seq<State>

    constructor (db: Database, collation: Collation)
      ensures committed == db && this.collation == collation && !open && trace == []
    {
      this.collation := collation;
      committed, working, open, trace := db, db, false, [];
    }

    /** Begins, runs the script, inserts the row and commits; or rolls back and reports the failure. */
    method ApplyOne(source: Definition, now: string, ghost catalog: seq<Definition>, ghost pending: seq<Definition>)
      returns (ok: bool)
      requires !open && pending != [] && pending[0] == source
      requires Behavior(trace, collation) && trace[|trace| - 1] == State(catalog, committed, Between(pending))
      modifies this
      ensures !open && Behavior(trace, collation) && old(trace) <= trace
      ensures ok <==>
              && source.sql.runs && (TABLE in old(committed).objects || TABLE in source.sql.creates)
              && forall r :: r in old(committed).rows ==> r.id != source.id && r.filename != source.filename
      ensures ok ==> committed == AfterInsert(AfterScript(old(committed), source), source, now)
      ensures ok ==> trace[|trace| - 1] == State(catalog, committed, Between(pending[1..]))
      ensures !ok ==> committed == old(committed) && trace[|trace| - 1] == State(catalog, committed, Idle)
    {
      hide Step;
      open, working := true, committed;
      TransactionSteps(catalog, committed, pending, now, collation);
      trace := Extend(trace, State(catalog, committed, Opened(pending, working)), collation);
      if source.sql.runs {
        working := AfterScript(working, source);
        trace := Extend(trace, State(catalog, committed, Executed(pending, working)), collation);
        if CanInsert(working, source) {
          working := AfterInsert(working, source, now);
          trace := Extend(trace, State(catalog, committed, Inserted(pending, working)), collation);
          committed, open := working, false;
          trace := Extend(trace, State(catalog, committed, Between(pending[1..])), collation);
          return true;
        }
      }
      working, open := committed, false;
      trace := Extend(trace, State(catalog, committed, Idle), collation);
      return false;
    }

    /** The loop over the pending migrations, each stamped with the time of its own insert. */
    method ApplyPending(pending: seq<Definition>, now: nat -> string, ghost catalog: seq<Definition>)
      returns (ok: bool, applied: seq<string>)
      requires !open && Behavior(trace, collation) && trace[|trace| - 1] == State(catalog, committed, Between(pending))
      requires Inv(trace[|trace| - 1], collation)
      modifies this
      ensures !open && Behavior(trace, collation) && old(trace) <= trace
      ensures trace[|trace| - 1] == State(catalog, committed, Idle) && DatabaseOk(catalog, committed)
      ensures ok ==> applied == Ids(pending) && |committed.rows| == |catalog|
      ensures ok <==> Applicable(old(committed), pending)
      ensures ok ==> committed.rows == old(committed.rows) + RowsOf(pending, now)
    {
      hide Inv, Step, DatabaseOk, Applicable;
      applied := [];
      for i := 0 to |pending|
        invariant !open && Behavior(trace, collation) && old(trace) <= trace
        invariant trace[|trace| - 1] == State(catalog, committed, Between(pending[i..]))
        invariant Inv(trace[|trace| - 1], collation)
        invariant applied == Ids(pending[..i])
        invariant Applicable(old(committed), pending) <==> Applicable(committed, pending[i..])
        invariant committed.rows == old(committed.rows) + RowsOf(pending[..i], now)
      {
        ghost var done := |trace| - 1;
        NextIdIsNew(trace[done], collation);
        ApplicableStep(committed, pending[i..], now(i));
        ok := ApplyOne(pending[i], now(i), catalog, pending[i..]);
        StaysOk(trace, collation, done);
        if !ok {
          InvDatabaseOk(trace[|trace| - 1], collation);
          return;
        }
        assert pending[i..][1..] == pending[i + 1..];
        applied := applied + [pending[i].id];
        assert applied == Ids(pending[..i + 1]);
        assert RowsOf(pending[..i + 1], now) == RowsOf(pending[..i], now) + [RowFor(pending[i], now(i))];
      }
      NothingToApply(committed);
      assert pending[|pending|..] == [] && pending[..|pending|] == pending;
      ok := true;
      InvDatabaseOk(trace[|trace| - 1], collation);
      FinishIsAStep(catalog, committed, collation);
      trace := Extend(trace, State(catalog, committed, Idle), collation);
    }

    /** Everything after planning: opens the run, applies what is pending, and plans again. */
    method RunPlan(migrations: seq<Definition>, pending: seq<Definition>, now: nat -> string)
      returns (ok: bool, applied: seq<string>, planned: Result<Plan, PlanError>)
      requires !open && Proper(collation) && CatalogOk(migrations, collation.plan) && DatabaseOk(migrations, committed)
      requires PlanAccepts(migrations, committed, collation) && pending == migrations[|committed.rows|..]
      modifies this
      ensures !open && Behavior(trace, collation) && DatabaseOk(migrations, committed)
      ensures trace[0] == State(migrations, old(committed), Idle)
      ensures trace[|trace| - 1] == State(migrations, committed, Idle)
      ensures ok ==> applied == Ids(pending) && |committed.rows| == |migrations|
      ensures ok <==> Applicable(old(committed), pending)
      ensures ok ==> committed.rows == old(committed.rows) + RowsOf(pending, now)
      ensures ok ==> (planned.Ok? <==> OrdersAgree(Ids(migrations), collation))
      ensures ok ==> planned == Err(NotSorted) || (planned.Ok? && planned.value.pending == [])
    {
      hide Behavior, Inv, CatalogOk, DatabaseOk, PlanAccepts, AppliedIds, Ids, ReadApplied, OrdersAgree, Proper;
      hide Applicable;
      ghost var opening := OpeningRun(migrations, committed, collation);
      trace := opening;
      ok, applied := ApplyPending(pending, now, migrations);
      assert trace[0] == opening[0];
      planned := Err(NotSorted);
      if ok {
        planned := Replan(migrations);
      }
    }

    /** Planning a fully applied catalog again. */
    method Replan(migrations: seq<Definition>) returns (planned: Result<Plan, PlanError>)
      requires Proper(collation) && CatalogOk(migrations, collation.plan) && DatabaseOk(migrations, committed)
      requires |committed.rows| == |migrations|
      ensures planned.Ok? <==> OrdersAgree(Ids(migrations), collation)
      ensures planned == Err(NotSorted) || (planned.Ok? && planned.value.pending == [])
    {
      hide Distinct, Sorted, OrdersAgree, ReadApplied, AppliedFirst, ChecksumsValid, ValidChecksum;
      PlannableIff(migrations, committed, collation);
      OnlySortingFails(migrations, committed, collation);
      ReadBackFacts(committed, collation.table);
      assert migrations[..|migrations|] == migrations;
      planned := PlanPendingStorageMigrations(migrations, ReadApplied(committed, collation.table), collation.plan);
    }

    /**
      One call of `applyStorageMigrations`: refuses without touching anything, or is a behaviour of the state machine
      that ends idle on a prefix. If it gets through, everything is applied; it then returns iff the two orders agree
      on the catalog, and otherwise throws on planning again.
    */
    method ApplyStorageMigrations(migrations: seq<Definition>, now: nat -> string)
      returns (r: Result<RunResult, RunError>)
      requires !open && RowsNeedTable(committed) && Proper(collation)
      modifies this
      ensures !open && RowsNeedTable(committed)
      ensures r == Err(UntrustedDatabase) <==> !TrustedBootstrap(old(committed))
      ensures r == Err(ChecksumMismatch) <==> TrustedBootstrap(old(committed)) && !SourceChecksumsMatch(migrations)
      ensures r.Err? && r.error.PlanFailed? <==>
              TrustedBootstrap(old(committed)) && SourceChecksumsMatch(migrations) &&
              !PlanAccepts(migrations, old(committed), collation)
      ensures r.Err? && (r.error.UntrustedDatabase? || r.error.ChecksumMismatch? || r.error.PlanFailed?) ==>
                committed == old(committed)
      ensures r.Ok? || r.error.StatementFailed? || r.error.ReplanFailed? ==>
                Behavior(trace, collation) && trace[0] == State(migrations, old(committed), Idle) &&
                trace[|trace| - 1] == State(migrations, committed, Idle) && DatabaseOk(migrations, committed)
      ensures r.Ok? || r.error.ReplanFailed? ==> |committed.rows| == |migrations|
      ensures r.Ok? || r.error.StatementFailed? || r.error.ReplanFailed? ==>
                |old(committed).rows| <= |migrations| &&
                (Applicable(old(committed), migrations[|old(committed).rows|..]) <==>
                 r.Ok? || r.error.ReplanFailed?)
      ensures r.Ok? || r.error.ReplanFailed? ==>
                |old(committed).rows| <= |migrations| &&
                committed.rows == old(committed).rows + RowsOf(migrations[|old(committed).rows|..], now)
      ensures r.Ok? ==> OrdersAgree(Ids(migrations), collation) && r.value.pendingAfterApply == []
      ensures r.Err? && r.error.ReplanFailed? ==> !OrdersAgree(Ids(migrations), collation) && r.error.error.NotSorted?
      ensures r.Ok? ==> |old(committed).rows| <= |migrations| &&
                        r.value.alreadyApplied == migrations[..|old(committed).rows|] &&
                        r.value.applied == Ids(migrations[|old(committed).rows|..])
    {
      hide Step, Behavior, CatalogOk, DatabaseOk, Plannable, SourceChecksumsMatch, TrustedBootstrap, OrdersAgree;
      hide Applicable;
      if !TrustedBootstrap(committed) {
        return Err(UntrustedDatabase);
      }
      if !SourceChecksumsMatch(migrations) {
        return Err(ChecksumMismatch);
      }
      var planned := PlanPendingStorageMigrations(migrations, ReadApplied(committed, collation.table), collation.plan);
      if planned.Err? {
        return Err(PlanFailed(planned.error));
      }
      AcceptedIsOk(migrations, committed, collation);
      var plan := planned.value;
      var ok, applied, replanned := RunPlan(migrations, plan.pending, now);
      RowsWithinCatalog(migrations, committed);
      if !ok {
        return Err(StatementFailed);
      }
      if replanned.Err? {
        return Err(ReplanFailed(replanned.error));
      }
      return Ok(RunResult(plan.alreadyApplied, applied, replanned.value.pending));
    }
  }

  lemma {:induction false} InvDatabaseOk(s: State, c: Collation)
    requires Inv(s, c)
    ensures DatabaseOk(s.catalog, s.db) && |s.db.rows| <= |s.catalog|
    ensures s.run == Between([]) ==> |s.db.rows| == |s.catalog|
  {
  }

  lemma {:induction false} AcceptedIsOk(catalog: seq<Definition>, db: Database, c: Collation)
    requires Proper(c) && RowsNeedTable(db) && TrustedBootstrap(db) && SourceChecksumsMatch(catalog)
    requires PlanAccepts(catalog, db, c)
    ensures CatalogOk(catalog, c.plan) && DatabaseOk(catalog, db)
    ensures |db.rows| <= |catalog| && |ReadApplied(db, c.table)| == |db.rows|
  {
    PlannableIff(catalog, db, c);
    ReadBackFacts(db, c.table);
  }

  lemma {:induction false} OpeningRun(catalog: seq<Definition>, db: Database, c: Collation) returns (trace: seq<State>)
    requires CatalogOk(catalog, c.plan) && DatabaseOk(catalog, db) && PlanAccepts(catalog, db, c)
    ensures |trace| == 2 && |db.rows| <= |catalog| && Behavior(trace, c) && Inv(trace[1], c)
    ensures trace[0] == State(catalog, db, Idle) && trace[1] == State(catalog, db, Between(catalog[|db.rows|..]))
  {
    hide PlanAccepts, ReadApplied;
    ReadBackFacts(db, c.table);
    trace := [State(catalog, db, Idle), State(catalog, db, Between(catalog[|db.rows|..]))];
    assert Start(trace[0], trace[1], c);
  }

  lemma {:induction false} StaysOk(trace: seq<State>, c: Collation, i: nat)
    requires Behavior(trace, c) && i < |trace| && Inv(trace[i], c)
    ensures Inv(trace[|trace| - 1], c)
    decreases |trace| - i
  {
    if i < |trace| - 1 {
      assert Step(trace[i], trace[i + 1], c);
      StepKeepsInv(trace[i], trace[i + 1], c);
      StaysOk(trace, c, i + 1);
    }
  }
}

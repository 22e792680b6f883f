/** A catalog that is sorted for the planner and not for the table. */
module MigrationExamples {
  import opened Common
  import opened Ordering
  import opened MigrationPlan
  import opened MigrationRuns

  function LowerCase(c: char): char {
    if 'A' <= c <= 'Z' then (c as int + 32) as char else c
  }

  /** As locale comparison has it, letters before their case. */
  function CaseBlind(a: string, b: string): bool {
    StringLess(Map(a, LowerCase), Map(b, LowerCase))
  }

  const CaseBlindPlan := Collation(CaseBlind, StringLess)

  lemma {:induction false} CaseBlindIsProper()
    ensures Proper(CaseBlindPlan)
  {
    StringOrderIsTotal();
    TotalIsWeak(StringLess);
    forall x, y | CaseBlind(x, y) ensures !CaseBlind(y, x) {
    }
    forall x, y, z | !CaseBlind(x, y) && !CaseBlind(y, z) ensures !CaseBlind(x, z) {
    }
  }

  /** A migration whose script runs; `sum` is its checksum. */
  predicate Runs(d: Definition, id: string, filename: string, sum: string) {
    && d.id == id && d.filename == filename && d.checksum == sum && d.compatible == []
    && d.sql.sha256 == sum && d.sql.runs
  }

  /** One whole transaction as four steps. */
  lemma {:induction false} Transaction(
    trace: seq<State>, catalog: seq<Definition>, db: Database, pending: seq<Definition>, now: string, c: Collation)
    returns (longer: seq<State>)
    requires Behavior(trace, c) && trace[|trace| - 1] == State(catalog, db, Between(pending)) && pending != []
    requires pending[0].sql.runs && CanInsert(AfterScript(db, pending[0]), pending[0])
    ensures Behavior(longer, c) && longer[0] == trace[0]
    ensures longer[|longer| - 1] ==
            State(catalog, AfterInsert(AfterScript(db, pending[0]), pending[0], now), Between(pending[1..]))
  {
    hide Step;
    TransactionSteps(catalog, db, pending, now, c);
    var ran := AfterScript(db, pending[0]);
    var grown := AfterInsert(ran, pending[0], now);
    longer := Extend(trace, State(catalog, db, Opened(pending, db)), c);
    longer := Extend(longer, State(catalog, db, Executed(pending, ran)), c);
    longer := Extend(longer, State(catalog, db, Inserted(pending, grown)), c);
    longer := Extend(longer, State(catalog, grown, Between(pending[1..])), c);
  }

  lemma {:induction false} TwoIds(a: Definition, b: Definition, c: Collation)
    requires a.id == "a" && b.id == "B" && c == CaseBlindPlan
    ensures Ids([a, b]) == ["a", "B"] && Distinct(Ids([a, b])) && Sorted(Ids([a, b]), c.plan)
    ensures !OrdersAgree(Ids([a, b]), c)
  {
    var ids := Ids([a, b]);
    assert "a"[0] != "B"[0];
    var x, y := Map("a", LowerCase), Map("B", LowerCase);
    assert x[0] == 'a' && y[0] == 'b';
    assert StringLess(x, y) && !StringLess(y, x);
    assert !StringLess("a", "B");
    assert c.plan(ids[0], ids[1]) && !c.table(ids[0], ids[1]);
  }

  lemma {:induction false} FreshDatabase(catalog: seq<Definition>, c: Collation)
    requires Proper(c) && CatalogOk(catalog, c.plan)
    ensures Initial(State(catalog, EmptyDatabase, Idle), c) && PlanAccepts(catalog, EmptyDatabase, c)
    ensures Step(State(catalog, EmptyDatabase, Idle), State(catalog, EmptyDatabase, Between(catalog)), c)
  {
    var s, t := State(catalog, EmptyDatabase, Idle), State(catalog, EmptyDatabase, Between(catalog));
    assert EmptyDatabase.rows == [] && IdSet([]) == {};
    assert DatabaseOk(catalog, EmptyDatabase);
    assert catalog[..0] == [] && catalog[0..] == catalog;
    PlannableIff(catalog, EmptyDatabase, c);
    assert Start(s, t, c);
  }

  lemma {:induction false} BothInsert(
    a: Definition, b: Definition, sum: string, now: string, one: Database, two: Database)
    requires Runs(a, "a", "a.sql", sum) && Runs(b, "B", "B.sql", sum) && TABLE in a.sql.creates
    requires one == AfterInsert(AfterScript(EmptyDatabase, a), a, now) &&
             two == AfterInsert(AfterScript(one, b), b, now)
    ensures CanInsert(AfterScript(EmptyDatabase, a), a) && CanInsert(AfterScript(one, b), b)
    ensures |two.rows| == 2 && AppliedIds(two.rows) == ["a", "B"]
  {
    assert "a"[0] != "B"[0] && "a.sql"[0] != "B.sql"[0];
    assert two.rows == [RowFor(a, now), RowFor(b, now)];
  }

  /** Two migrations, both applied by one run that then throws on planning again, as does every later one. */
  lemma {:induction false} RunOfTwo(a: Definition, b: Definition, sum: string, now: string) returns (trace: seq<State>)
    requires ValidChecksum(sum) && Runs(a, "a", "a.sql", sum) && Runs(b, "B", "B.sql", sum) && TABLE in a.sql.creates
    ensures Behavior(trace, CaseBlindPlan) && Initial(trace[0], CaseBlindPlan) && trace[0].catalog == [a, b]
    ensures PlanAccepts([a, b], trace[0].db, CaseBlindPlan)
    ensures var last := trace[|trace| - 1];
            && last.catalog == [a, b] && last.run.Idle? && AppliedIds(last.db.rows) == ["a", "B"]
            && !PlanAccepts([a, b], last.db, CaseBlindPlan)
  {
    var c, catalog := CaseBlindPlan, [a, b];
    CaseBlindIsProper();
    TwoIds(a, b, c);
    FreshDatabase(catalog, c);
    hide Step, PlanAccepts, OrdersAgree, Proper, Behavior, CatalogOk, Initial, ValidChecksum;
    var one := AfterInsert(AfterScript(EmptyDatabase, a), a, now);
    var two := AfterInsert(AfterScript(one, b), b, now);
    BothInsert(a, b, sum, now, one, two);
    assert catalog[1..] == [b] && catalog[1..][1..] == [];
    trace := [State(catalog, EmptyDatabase, Idle), State(catalog, EmptyDatabase, Between(catalog))];
    trace := Transaction(trace, catalog, EmptyDatabase, catalog, now, c);
    trace := Transaction(trace, catalog, one, [b], now, c);
    FinishIsAStep(catalog, two, c);
    trace := Extend(trace, State(catalog, two, Idle), c);
    assert catalog[..2] == catalog;
    ReplanningIff(trace, c, |trace| - 1);
  }

  /** Concretely. */
  lemma {:induction false} LocaleOrderDefeatsReplanning() returns (trace: seq<State>)
    ensures Behavior(trace, CaseBlindPlan) && Initial(trace[0], CaseBlindPlan)
    ensures PlanAccepts(trace[0].catalog, trace[0].db, CaseBlindPlan)
    ensures var last := trace[|trace| - 1];
            && last.run.Idle? && AppliedIds(last.db.rows) == ["a", "B"] == Ids(last.catalog)
            && !PlanAccepts(last.catalog, last.db, CaseBlindPlan)
  {
    hide Behavior, Initial, PlanAccepts;
    var sum := seq(64, i => 'a');
    var a := Definition("a", "a.sql", sum, [], Sql(sum, {TABLE}, true));
    var b := Definition("B", "B.sql", sum, [], Sql(sum, {}, true));
    trace := RunOfTwo(a, b, sum, "now");
  }
}

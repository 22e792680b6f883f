/** How many of the selected sources are reserved for test seeds. */
module SeedSlots {
  import opened Common

  datatype TaskKind = Default | TestFocused

  datatype ReservedSeedSlots = ReservedSeedSlots(maxExplicitSourceSlots: int, maxTestSeedSlots: int)

  const TEST_SEED_ABSOLUTE_MAX := 4

  /** The ratios are a quarter and a half; integer division here rounds down, as `Math.floor` does. */
  function ComputeReservedSeedSlots(
    maxSelectedSources: int, explicitSeedCount: nat, testSeedCount: nat, taskKind: TaskKind)
    : (r: ReservedSeedSlots)
    ensures maxSelectedSources >= 0 ==>
              r.maxExplicitSourceSlots + r.maxTestSeedSlots == maxSelectedSources && r.maxTestSeedSlots >= 0 &&
              r.maxExplicitSourceSlots >= 0
    ensures r.maxTestSeedSlots <= testSeedCount && r.maxTestSeedSlots <= 4
    ensures testSeedCount > 0 && maxSelectedSources >= 2 ==>
              1 <= r.maxTestSeedSlots && 2 * r.maxTestSeedSlots <= maxSelectedSources
    ensures maxSelectedSources <= 0 ==> r.maxExplicitSourceSlots <= 0 && r.maxTestSeedSlots <= 0
    ensures taskKind.Default? && maxSelectedSources >= 4 ==> 4 * r.maxTestSeedSlots <= maxSelectedSources
    ensures maxSelectedSources >= 2 ==>
              var more := r.maxTestSeedSlots + 1;
              more > testSeedCount || more > 4 ||
              (if taskKind == TestFocused then 2 * more > maxSelectedSources else 4 * more > Max(4, maxSelectedSources))
    ensures maxSelectedSources == 1 ==>
              (r.maxTestSeedSlots == 1 <==> testSeedCount > 0 && explicitSeedCount == 0)
  {
    if testSeedCount == 0 || maxSelectedSources == 0 then ReservedSeedSlots(maxSelectedSources, 0) else
    var ratioSlots := Max(1, if taskKind == TestFocused then maxSelectedSources / 2 else maxSelectedSources / 4);
    var maxTestSeedSlots := Min(Min(ratioSlots, TEST_SEED_ABSOLUTE_MAX), Min(maxSelectedSources, testSeedCount));
    var reservedTestSlots := if maxSelectedSources == 1 && explicitSeedCount > 0 then 0 else maxTestSeedSlots;
    ReservedSeedSlots(Max(0, maxSelectedSources - reservedTestSlots), reservedTestSlots)
  }
}

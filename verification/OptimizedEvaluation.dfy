/** The planner's optimised evaluation of a set of active facilities. */
module OptimizedEvaluation {
  import opened Basics
  import opened Rates
  import opened Scenarios
  import opened Transport
  import opened OptimizedScenario
  import opened PlanOptimality
  import opened ResidualGraph
  import opened Allocator

  // ----- Active facilities ----------------------------------------------------

  function FacilityUpTo(facilities: seq<Facility>, id: int, n: nat): Option<Facility>
    requires n <= |facilities|
  {
    if n == 0 then None
    else if facilities[n - 1].facilityId == id then Some(facilities[n - 1])
    else FacilityUpTo(facilities, id, n - 1)
  }

  function FacilityById(facilities: seq<Facility>, id: int): Option<Facility> {
    FacilityUpTo(facilities, id, |facilities|)
  }

  lemma {:induction false} FacilityFound(facilities: seq<Facility>, id: int, n: nat)
    requires n <= |facilities|
    ensures var r := FacilityUpTo(facilities, id, n);
            && (r.Some? <==> exists k :: 0 <= k < n && facilities[k].facilityId == id)
            && (r.Some? ==> r.value in facilities && r.value.facilityId == id)
  {
    if n == 0 {
    } else {
      FacilityFound(facilities, id, n - 1);
    }
  }

  lemma FacilityByIdFinds(facilities: seq<Facility>, id: int)
    ensures FacilityById(facilities, id).Some? <==> id in FacilityIds(facilities)
    ensures FacilityById(facilities, id).Some? ==>
              FacilityById(facilities, id).value in facilities && FacilityById(facilities, id).value.facilityId == id
  {
    FacilityFound(facilities, id, |facilities|);
    var ids := FacilityIds(facilities);
    if id in ids {
      var k :| 0 <= k < |ids| && ids[k] == id;
      assert facilities[k].facilityId == id;
    }
  }

  function KnownFacility(facilities: seq<Facility>, id: int): (f: Facility)
    requires id in FacilityIds(facilities)
    ensures f in facilities && f.facilityId == id
  {
    FacilityByIdFinds(facilities, id);
    FacilityById(facilities, id).value
  }

  predicate AllKnown(snapshot: Snapshot, ids: seq<int>) {
    forall j :: 0 <= j < |ids| ==> ids[j] in FacilityIds(snapshot.input.facilities)
  }

  function ActiveFacilities(snapshot: Snapshot, ids: seq<int>): (facilities: seq<Facility>)
    requires AllKnown(snapshot, ids)
    ensures FacilityIds(facilities) == ids
    ensures forall f :: f in facilities ==> f in snapshot.input.facilities
  {
    seq(|ids|, j requires 0 <= j < |ids| => KnownFacility(snapshot.input.facilities, ids[j]))
  }

  function SortedDemands(snapshot: Snapshot): seq<DemandPoint> {
    SortBy(snapshot.input.demands, DemandKey)
  }

  function SortedIds(ids: seq<int>): seq<int> { SortBy(ids, IdKey) }

  lemma SortedIdsKnown(snapshot: Snapshot, active: seq<int>)
    requires AllKnown(snapshot, active)
    ensures AllKnown(snapshot, SortedIds(active))
  {
    SortByMembers(active, IdKey);
    forall j | 0 <= j < |SortedIds(active)|
      ensures SortedIds(active)[j] in FacilityIds(snapshot.input.facilities)
    {
      assert SortedIds(active)[j] in active;
    }
  }

  // ----- Collecting the eligible pairs ----------------------------------------

  /** No unit cost in the network exceeds `most`. */
  ghost predicate CostsWithin(snapshot: Snapshot, matrix: RouteMatrix, most: nat) {
    forall f, d :: f in snapshot.input.facilities && d in snapshot.input.demands ==>
      CostValue(InTimeCost(snapshot, matrix, f, d)) <= most
  }

  /** Unit costs and demand are small enough for the solver's sentinel. */
  ghost predicate CostsSafe(snapshot: Snapshot, matrix: RouteMatrix, most: nat) {
    && CostsWithin(snapshot, matrix, most)
    && |snapshot.input.demands| * most + Penalty(most, DemandUnits(snapshot.input.demands)) < INFINITE
  }

  /** Up to 10**12 demand points, units and smallest money units per unit are safe. */
  lemma OrdinarySizesAreSafe(snapshot: Snapshot, matrix: RouteMatrix, most: nat)
    requires CostsWithin(snapshot, matrix, most) && most <= 1_000_000_000_000
    requires |snapshot.input.demands| <= 1_000_000_000_000
    requires 0 <= DemandUnits(snapshot.input.demands) <= 1_000_000_000_000
    ensures CostsSafe(snapshot, matrix, most)
  {
    var big := 1_000_000_000_000;
    ProductAtMost(|snapshot.input.demands|, most, big, big);
    ProductAtMost(most + 1, DemandUnits(snapshot.input.demands) + 1, big + 1, big + 1);
  }

  lemma ProductAtMost(a: nat, b: nat, c: nat, d: nat)
    requires a <= c && b <= d
    ensures a * b <= c * d
  {
    assert a * b <= c * b <= c * d;
  }

  /** `issue` reports that one of the first `n` facilities has no route to this demand point. */
  ghost predicate ReportsMissing(snapshot: Snapshot, matrix: RouteMatrix, facilities: seq<Facility>,
                                 demand: DemandPoint, n: nat, issue: Issue)
    requires n <= |facilities|
  {
    exists j :: 0 <= j < n && issue == MissingRoute(facilities[j].facilityId, demand.demandId)
                && NoneJoins(matrix.entries, facilities[j].facilityId, demand.demandId, |matrix.entries|)
  }

  method CollectRow(snapshot: Snapshot, matrix: RouteMatrix, demand: DemandPoint, facilities: seq<Facility>, max0: nat)
    returns (row: seq<Option<nat>>, legs: seq<Option<Leg>>, maxUnitCost: nat, issues: seq<Issue>)
    ensures row == CostRow(snapshot, matrix, facilities, demand) && legs == LegRow(snapshot, matrix, facilities, demand)
    ensures max0 <= maxUnitCost && forall j :: 0 <= j < |row| ==> CostValue(row[j]) <= maxUnitCost
    ensures maxUnitCost == max0 || exists j :: 0 <= j < |row| && CostValue(row[j]) == maxUnitCost
    ensures forall issue :: issue in issues <==>
              ReportsMissing(snapshot, matrix, facilities, demand, |facilities|, issue)
  {
    row, legs, maxUnitCost, issues := [], [], max0, [];
    for j := 0 to |facilities|
      invariant |row| == j && forall k :: 0 <= k < j ==> row[k] == InTimeCost(snapshot, matrix, facilities[k], demand)
      invariant |legs| == j && forall k :: 0 <= k < j ==> legs[k] == InTimeLeg(snapshot, matrix, facilities[k], demand)
      invariant max0 <= maxUnitCost && forall k :: 0 <= k < j ==> CostValue(row[k]) <= maxUnitCost
      invariant maxUnitCost == max0 || exists k :: 0 <= k < j && CostValue(row[k]) == maxUnitCost
      invariant forall issue :: issue in issues <==> ReportsMissing(snapshot, matrix, facilities, demand, j, issue)
    {
      var service := ServiceOf(snapshot, matrix, facilities[j], demand);
      NoRouteIffNone(snapshot, matrix, facilities[j], demand);
      ghost var before := row;
      if service.NoRoute? {
        issues := issues + [MissingRoute(facilities[j].facilityId, demand.demandId)];
      }
      if service.Timed? && service.leg.seconds <= snapshot.input.policy.maxDeliverySeconds {
        row, legs := row + [Some(service.unitCost)], legs + [Some(service.leg)];
        assert CostValue(row[j]) == service.unitCost;
        if service.unitCost > maxUnitCost { maxUnitCost := service.unitCost; }
      } else {
        row, legs := row + [None], legs + [None];
      }
      assert forall k :: 0 <= k < j ==> row[k] == before[k];
    }
  }

  /** The issues are exactly the missing routes between these demand points and facilities. */
  ghost predicate ListsMissing(snapshot: Snapshot, matrix: RouteMatrix, demands: seq<DemandPoint>,
                               facilities: seq<Facility>, issues: seq<Issue>) {
    forall issue :: issue in issues <==>
      exists i :: 0 <= i < |demands| && ReportsMissing(snapshot, matrix, facilities, demands[i], |facilities|, issue)
  }

  /** `most` is zero or some eligible pair's unit cost. */
  ghost predicate Attained(p: Problem, most: nat)
    requires IsProblem(p)
  {
    most == 0 || exists i, j :: 0 <= i < |p.demand| && 0 <= j < |p.capacity| && UnitCost(p, i, j) == most
  }

  /** `most` bounds these costs and is zero or one of them. */
  ghost predicate IsGreatest(cost: seq<seq<Option<nat>>>, most: nat) {
    && (forall r, j :: 0 <= r < |cost| && 0 <= j < |cost[r]| ==> CostValue(cost[r][j]) <= most)
    && (most == 0 || exists r, j :: 0 <= r < |cost| && 0 <= j < |cost[r]| && CostValue(cost[r][j]) == most)
  }

  lemma GreatestExtends(cost: seq<seq<Option<nat>>>, most0: nat, row: seq<Option<nat>>, most: nat)
    requires IsGreatest(cost, most0) && most0 <= most && forall j :: 0 <= j < |row| ==> CostValue(row[j]) <= most
    requires most == most0 || exists j :: 0 <= j < |row| && CostValue(row[j]) == most
    ensures IsGreatest(cost + [row], most)
  {
    var all := cost + [row];
    assert all[|cost|] == row;
    if j :| 0 <= j < |row| && CostValue(row[j]) == most {
      assert CostValue(all[|cost|][j]) == most;
    } else if most != 0 {
      var r, j :| 0 <= r < |cost| && 0 <= j < |cost[r]| && CostValue(cost[r][j]) == most;
      assert CostValue(all[r][j]) == most;
    }
  }

  lemma MissingExtends(snapshot: Snapshot, matrix: RouteMatrix, demands: seq<DemandPoint>, facilities: seq<Facility>,
                       issues: seq<Issue>, demand: DemandPoint, missing: seq<Issue>)
    requires ListsMissing(snapshot, matrix, demands, facilities, issues)
    requires forall issue :: issue in missing <==>
               ReportsMissing(snapshot, matrix, facilities, demand, |facilities|, issue)
    ensures ListsMissing(snapshot, matrix, demands + [demand], facilities, issues + missing)
  {
    var all := demands + [demand];
    assert all[|demands|] == demand;
    forall issue | issue in issues + missing
      ensures exists i :: 0 <= i < |all| && ReportsMissing(snapshot, matrix, facilities, all[i], |facilities|, issue)
    {
      if issue in issues {
        var i :| 0 <= i < |demands| && ReportsMissing(snapshot, matrix, facilities, demands[i], |facilities|, issue);
        assert all[i] == demands[i];
      }
    }
  }

  function CaseFor(snapshot: Snapshot, matrix: RouteMatrix, demands: seq<DemandPoint>, facilities: seq<Facility>)
    : (c: Case)
    ensures IsCase(c)
  {
    Case(ProblemFor(snapshot, matrix, demands, facilities), demands, facilities,
         LegsFor(snapshot, matrix, demands, facilities))
  }

  /** The rows of these demand points have been collected. */
  ghost predicate Collected(snapshot: Snapshot, matrix: RouteMatrix, demands: seq<DemandPoint>,
                            facilities: seq<Facility>,
                            cost: seq<seq<Option<nat>>>, legs: seq<seq<Option<Leg>>>) {
    && cost == ProblemFor(snapshot, matrix, demands, facilities).cost
    && legs == LegsFor(snapshot, matrix, demands, facilities)
  }

  lemma CollectedExtends(snapshot: Snapshot, matrix: RouteMatrix, demands: seq<DemandPoint>, facilities: seq<Facility>,
                         cost: seq<seq<Option<nat>>>, legs: seq<seq<Option<Leg>>>, demand: DemandPoint)
    requires Collected(snapshot, matrix, demands, facilities, cost, legs)
    ensures Collected(snapshot, matrix, demands + [demand], facilities,
                      cost + [CostRow(snapshot, matrix, facilities, demand)],
                      legs + [LegRow(snapshot, matrix, facilities, demand)])
  {
    var all := demands + [demand];
    assert forall i :: 0 <= i < |demands| ==> all[i] == demands[i];
  }

  /** What the collection holds after these demand points. */
  ghost predicate Gathered(snapshot: Snapshot, matrix: RouteMatrix, demands: seq<DemandPoint>,
                           facilities: seq<Facility>,
                           cost: seq<seq<Option<nat>>>, legs: seq<seq<Option<Leg>>>, most: nat, issues: seq<Issue>) {
    && Collected(snapshot, matrix, demands, facilities, cost, legs) && IsGreatest(cost, most)
    && ListsMissing(snapshot, matrix, demands, facilities, issues)
  }

  method CollectNext(snapshot: Snapshot, matrix: RouteMatrix, ghost done: seq<DemandPoint>, facilities: seq<Facility>,
                     cost0: seq<seq<Option<nat>>>, legs0: seq<seq<Option<Leg>>>, most0: nat, issues0: seq<Issue>,
                     demand: DemandPoint)
    returns (cost: seq<seq<Option<nat>>>, legs: seq<seq<Option<Leg>>>, most: nat, issues: seq<Issue>)
    requires Gathered(snapshot, matrix, done, facilities, cost0, legs0, most0, issues0)
    ensures Gathered(snapshot, matrix, done + [demand], facilities, cost, legs, most, issues)
  {
    var row, rowLegs, missing;
    row, rowLegs, most, missing := CollectRow(snapshot, matrix, demand, facilities, most0);
    CollectedExtends(snapshot, matrix, done, facilities, cost0, legs0, demand);
    GreatestExtends(cost0, most0, row, most);
    MissingExtends(snapshot, matrix, done, facilities, issues0, demand, missing);
    cost, legs, issues := cost0 + [row], legs0 + [rowLegs], issues0 + missing;
  }

  method CollectEligible(snapshot: Snapshot, matrix: RouteMatrix, demands: seq<DemandPoint>, facilities: seq<Facility>)
    returns (c: Case, maxUnitCost: nat, issues: seq<Issue>)
    ensures c == CaseFor(snapshot, matrix, demands, facilities)
    ensures CostsAtMost(c.problem, maxUnitCost) && Attained(c.problem, maxUnitCost)
    ensures ListsMissing(snapshot, matrix, demands, facilities, issues)
  {
    var cost: seq<seq<Option<nat>>>, legs: seq<seq<Option<Leg>>> := [], [];
    maxUnitCost, issues := 0, [];
    ghost var done: seq<DemandPoint> := [];
    for i := 0 to |demands|
      invariant done == demands[..i] && Gathered(snapshot, matrix, done, facilities, cost, legs, maxUnitCost, issues)
    {
      cost, legs, maxUnitCost, issues :=
        CollectNext(snapshot, matrix, done, facilities, cost, legs, maxUnitCost, issues, demands[i]);
      done := done + [demands[i]];
    }
    assert done == demands;
    c := Case(Problem(UnitsOf(demands), CapacitiesOf(facilities), cost), demands, facilities, legs);
    GreatestIsAttained(c.problem, maxUnitCost);
  }

  lemma GreatestIsAttained(p: Problem, most: nat)
    requires IsProblem(p) && IsGreatest(p.cost, most)
    ensures CostsAtMost(p, most) && Attained(p, most)
  {
    assert forall i, j :: 0 <= i < |p.demand| && 0 <= j < |p.capacity| ==> UnitCost(p, i, j) == CostValue(p.cost[i][j]);
  }

  // ----- The evaluation -------------------------------------------------------

  function ScenarioFacilities(snapshot: Snapshot, active: seq<int>): (facilities: seq<Facility>)
    requires AllKnown(snapshot, active)
    ensures FacilityIds(facilities) == SortedIds(active)
    ensures forall f :: f in facilities ==> f in snapshot.input.facilities
  {
    SortedIdsKnown(snapshot, active);
    ActiveFacilities(snapshot, SortedIds(active))
  }

  function ScenarioProblem(snapshot: Snapshot, matrix: RouteMatrix, active: seq<int>): (p: Problem)
    requires AllKnown(snapshot, active)
    ensures IsProblem(p) && |p.demand| == |SortedDemands(snapshot)| && |p.capacity| == |SortedIds(active)|
  {
    ProblemFor(snapshot, matrix, SortedDemands(snapshot), ScenarioFacilities(snapshot, active))
  }

  /** `value` reports an optimal plan for these active facilities. */
  function ScenarioCase(snapshot: Snapshot, matrix: RouteMatrix, active: seq<int>): (c: Case)
    requires AllKnown(snapshot, active)
    ensures c.problem == ScenarioProblem(snapshot, matrix, active) && IsCase(c)
    ensures c.demands == SortedDemands(snapshot) && c.facilities == ScenarioFacilities(snapshot, active)
  {
    CaseFor(snapshot, matrix, SortedDemands(snapshot), ScenarioFacilities(snapshot, active))
  }

  ghost predicate IsOptimized(snapshot: Snapshot, matrix: RouteMatrix, active: seq<int>, value: ScenarioResult,
                              plan: Plan)
    requires AllKnown(snapshot, active)
  {
    var c := ScenarioCase(snapshot, matrix, active);
    && Optimal(c.problem, plan) && Reports(c, plan)
    && value.allocations == PlanAllocations(c, plan)
    && value.metrics == MetricsOf(snapshot.input.demands, c.facilities, value.allocations)
    && value.activeFacilityIds == SortedIds(active) && value.mode == Optimized
    && value.snapshotId == snapshot.snapshotId && value.matrixId == matrix.matrixId
  }

  lemma ScenarioDemand(snapshot: Snapshot, matrix: RouteMatrix, active: seq<int>)
    requires AllKnown(snapshot, active)
    ensures TotalDemand(ScenarioProblem(snapshot, matrix, active).demand, |SortedDemands(snapshot)|) ==
              DemandUnits(snapshot.input.demands)
    ensures |SortedDemands(snapshot)| == |snapshot.input.demands|
  {
    var demands := SortedDemands(snapshot);
    TotalIsDemandUnits(demands, |demands|);
    assert demands[..|demands|] == demands;
    SortedUnits(snapshot.input.demands);
    SortByMembers(snapshot.input.demands, DemandKey);
  }

  lemma SmallerCostsStaySafe(count: nat, most: nat, least: nat, total: nat)
    requires least <= most && count * most + Penalty(most, total) < INFINITE
    ensures count * least + Penalty(least, total) < INFINITE
  {
    TimesMonotone(count, least, most);
    TimesMonotone(total + 1, least + 1, most + 1);
  }

  lemma ScenarioIsSafe(snapshot: Snapshot, matrix: RouteMatrix, active: seq<int>, most: nat, maxUnitCost: nat)
    requires AllKnown(snapshot, active) && CostsSafe(snapshot, matrix, most)
    requires Attained(ScenarioProblem(snapshot, matrix, active), maxUnitCost)
    ensures SentinelSafe(ScenarioProblem(snapshot, matrix, active), maxUnitCost)
  {
    var demands, facilities := SortedDemands(snapshot), ScenarioFacilities(snapshot, active);
    SortByMembers(snapshot.input.demands, DemandKey);
    if maxUnitCost != 0 {
      var i, j :| 0 <= i < |demands| && 0 <= j < |facilities|
                  && UnitCost(ScenarioProblem(snapshot, matrix, active), i, j) == maxUnitCost;
      assert demands[i] in demands && facilities[j] in snapshot.input.facilities;
      assert CostValue(InTimeCost(snapshot, matrix, facilities[j], demands[i])) <= most;
    }
    ScenarioDemand(snapshot, matrix, active);
    SmallerCostsStaySafe(|snapshot.input.demands|, most, maxUnitCost, DemandUnits(snapshot.input.demands));
  }

  datatype EvaluationError = SnapshotMismatch | UnknownFacility | DuplicateFacility

  method SolveScenario(snapshot: Snapshot, matrix: RouteMatrix, active: seq<int>, ghost most: nat)
    returns (value: ScenarioResult, ghost plan: Plan)
    requires CostsSafe(snapshot, matrix, most) && AllKnown(snapshot, active)
    ensures IsOptimized(snapshot, matrix, active, value, plan)
    ensures ListsMissing(snapshot, matrix, SortedDemands(snapshot), ScenarioFacilities(snapshot, active), value.issues)
  {
    var demands, facilities := SortedDemands(snapshot), ScenarioFacilities(snapshot, active);
    var c, maxUnitCost, issues := CollectEligible(snapshot, matrix, demands, facilities);
    ScenarioIsSafe(snapshot, matrix, active, most, maxUnitCost);
    var found, uncovered := Allocate(c.problem, maxUnitCost);
    var allocations := ListAllocations(c, found, uncovered);
    plan := found;
    value := ScenarioResult(snapshot.snapshotId, matrix.matrixId, Optimized, SortedIds(active),
                            MetricsOf(snapshot.input.demands, facilities, allocations), allocations, issues);
  }

  method EvaluateOptimized(snapshot: Snapshot, matrix: RouteMatrix, active: seq<int>, ghost most: nat)
    returns (r: Result<ScenarioResult, EvaluationError>, ghost plan: Plan)
    requires Evaluable(snapshot, matrix) && CostsSafe(snapshot, matrix, most)
    ensures r == Err(SnapshotMismatch) <==> matrix.snapshotId != snapshot.snapshotId
    ensures r == Err(UnknownFacility) <==> matrix.snapshotId == snapshot.snapshotId && !AllKnown(snapshot, active)
    ensures r == Err(DuplicateFacility) <==>
              matrix.snapshotId == snapshot.snapshotId && AllKnown(snapshot, active) && !Distinct(active)
    ensures r.Ok? <==> matrix.snapshotId == snapshot.snapshotId && AllKnown(snapshot, active) && Distinct(active)
    ensures r.Ok? ==> IsOptimized(snapshot, matrix, active, r.value, plan)
    ensures r.Ok? ==> ListsMissing(snapshot, matrix, SortedDemands(snapshot), ScenarioFacilities(snapshot, active),
                                   r.value.issues)
  {
    plan := [];
    if matrix.snapshotId != snapshot.snapshotId { return Err(SnapshotMismatch), []; }
    if !AllKnown(snapshot, active) { return Err(UnknownFacility), []; }
    DistinctIffFullSet(active);
    if |active| != |Elements(active)| { return Err(DuplicateFacility), []; }
    var value;
    value, plan := SolveScenario(snapshot, matrix, active, most);
    r := Ok(value);
  }

  // ----- What an optimised result guarantees ----------------------------------

  lemma SortedDemandIdsDistinct(snapshot: Snapshot)
    requires Distinct(DemandIds(snapshot.input.demands))
    ensures Distinct(DemandIds(SortedDemands(snapshot)))
  {
    var s, ids := snapshot.input.demands, DemandIds(snapshot.input.demands);
    forall i, j | 0 <= i < j < |s|
      ensures DemandKey(s[i]) != DemandKey(s[j])
    {
      assert ids[i] != ids[j];
    }
    SortByStrict(s, DemandKey);
    var r := SortedDemands(snapshot);
    forall i, j | 0 <= i < j < |r|
      ensures DemandIds(r)[i] != DemandIds(r)[j]
    {
      assert DemandKey(r[i]) < DemandKey(r[j]);
    }
  }

  lemma SortedIdsStrict(active: seq<int>)
    requires Distinct(active)
    ensures StrictlySortedBy(SortedIds(active), IdKey) && Distinct(SortedIds(active))
  {
    SortByStrict(active, IdKey);
    var r := SortedIds(active);
    forall i, j | 0 <= i < j < |r|
      ensures r[i] != r[j]
    {
      assert IdKey(r[i]) < IdKey(r[j]);
    }
  }

  /** Demand is conserved, the metrics agree with the plan, and no clipping happens. */
  lemma OptimizedIsConsistent(snapshot: Snapshot, matrix: RouteMatrix, active: seq<int>, value: ScenarioResult,
                              plan: Plan)
    requires Distinct(DemandIds(snapshot.input.demands))
    requires AllKnown(snapshot, active) && IsOptimized(snapshot, matrix, active, value, plan)
    ensures Consistent(snapshot.input.demands, value)
    ensures value.metrics.coveredUnits == Coverage(plan)
    ensures value.metrics.variableCost == Cost(ScenarioProblem(snapshot, matrix, active), plan)
  {
    var demands, facilities := SortedDemands(snapshot), ScenarioFacilities(snapshot, active);
    var p := ScenarioProblem(snapshot, matrix, active);
    var c := ScenarioCase(snapshot, matrix, active);
    PlanAllocationsAddUp(c, plan);
    ScenarioDemand(snapshot, matrix, active);
    CoveredBounds(p, plan, |plan|);
    SortedDemandIdsDistinct(snapshot);
    SortByMembers(snapshot.input.demands, DemandKey);
    forall d | d in snapshot.input.demands
      ensures Units(value.allocations, ForDemand(d.demandId)) == d.units
    {
      assert d in demands;
      var i :| 0 <= i < |demands| && demands[i] == d;
      PlanServesDemand(c, plan, i);
    }
  }

  /** No active facility ships more than its capacity. */
  lemma OptimizedRespectsCapacity(snapshot: Snapshot, matrix: RouteMatrix, active: seq<int>, value: ScenarioResult,
                                  plan: Plan, facility: Facility)
    requires AllKnown(snapshot, active) && Distinct(active) && IsOptimized(snapshot, matrix, active, value, plan)
    requires facility in ScenarioFacilities(snapshot, active)
    ensures Units(value.allocations, AtFacility(facility.facilityId)) <= facility.capacityUnits
  {
    var facilities := ScenarioFacilities(snapshot, active);
    SortedIdsStrict(active);
    var k :| 0 <= k < |facilities| && facilities[k] == facility;
    PlanRespectsCapacity(ScenarioCase(snapshot, matrix, active), plan, k);
  }

  /** The fixed costs are those of exactly the active facilities. */
  lemma ActiveFixedCosts(snapshot: Snapshot, active: seq<int>)
    requires Distinct(FacilityIds(snapshot.input.facilities)) && AllKnown(snapshot, active) && Distinct(active)
    ensures var all := snapshot.input.facilities;
            && FixedCosts(ScenarioFacilities(snapshot, active)) == OpenCosts(all, active, |all|)
            && OpenCosts(all, SortedIds(active), |all|) == OpenCosts(all, active, |all|)
    ensures |ScenarioFacilities(snapshot, active)| == |active|
  {
    var facilities, all := ScenarioFacilities(snapshot, active), snapshot.input.facilities;
    SortedIdsStrict(active);
    SortByMembers(active, IdKey);
    assert FacilityIds(facilities) == SortedIds(active);
    forall k | 0 <= k < |facilities| ensures facilities[k] in all[..|all|] {
      assert facilities[k] in facilities && all[..|all|] == all;
    }
    FixedCostsAreOpen(all, facilities, |all|);
    SameOpenCosts(all, SortedIds(active), active, |all|);
  }

  lemma OptimizedChargesFixed(snapshot: Snapshot, matrix: RouteMatrix, active: seq<int>, value: ScenarioResult,
                              plan: Plan)
    requires Distinct(FacilityIds(snapshot.input.facilities)) && AllKnown(snapshot, active) && Distinct(active)
    requires IsOptimized(snapshot, matrix, active, value, plan)
    ensures ChargesFixedCosts(snapshot.input.facilities, value)
  {
    ActiveFixedCosts(snapshot, active);
  }

  /** The allocation is a shipment over this route: in time, with the route's time and distance,
      at the unit cost of this rate. */
  ghost predicate ServesInTime(snapshot: Snapshot, matrix: RouteMatrix, f: Facility, d: DemandPoint, entry: RouteEntry,
                               rate: TransportRate, unitCost: int, a: Allocation) {
    && a.demandId == d.demandId && a.facilityId == Some(f.facilityId) && a.reason == NoReason
    && InTime(snapshot, matrix, f, d, entry)
    && a.leg.Some? && IsPriced(snapshot, f, d, entry, a.leg.value, unitCost, rate)
    && a.units > 0 && a.variableCost == a.units * unitCost
  }

  /** Whatever is reported as covered is shipped by an active facility over a ready route of
      exactly this pair, and door to door within the promised time. */
  lemma CoveredIsInTime(snapshot: Snapshot, matrix: RouteMatrix, active: seq<int>, value: ScenarioResult, plan: Plan,
                        a: Allocation)
    returns (f: Facility, d: DemandPoint, entry: RouteEntry, rate: TransportRate, unitCost: int)
    requires AllKnown(snapshot, active) && IsOptimized(snapshot, matrix, active, value, plan)
    requires a in value.allocations && a.covered
    ensures f in snapshot.input.facilities && f.facilityId in active && d in snapshot.input.demands
    ensures ServesInTime(snapshot, matrix, f, d, entry, rate, unitCost, a)
  {
    var c := ScenarioCase(snapshot, matrix, active);
    CoveredIsShipped(c, plan, a);
    var i: nat, j: nat :| ShipsOver(c, a, i, j);
    f, d := c.facilities[j], c.demands[i];
    SortByMembers(snapshot.input.demands, DemandKey);
    SortByMembers(active, IdKey);
    assert f in c.facilities && d in c.demands && FacilityIds(c.facilities)[j] in SortedIds(active);
    assert c.legs[i] == LegRow(snapshot, matrix, c.facilities, d);
    entry, rate := TimedMeans(snapshot, matrix, f, d);
    unitCost := ServiceOf(snapshot, matrix, f, d).unitCost;
  }

  /** What is reported as uncovered has no facility, leg or cost. */
  lemma UncoveredIsUnserved(snapshot: Snapshot, matrix: RouteMatrix, active: seq<int>, value: ScenarioResult,
                            plan: Plan, a: Allocation)
    returns (d: DemandPoint)
    requires AllKnown(snapshot, active) && IsOptimized(snapshot, matrix, active, value, plan)
    requires a in value.allocations && !a.covered
    ensures d in snapshot.input.demands && a.units > 0
    ensures a == Allocation(d.demandId, None, a.units, false, None, 0, NoEligibleCapacity)
  {
    var c := ScenarioCase(snapshot, matrix, active);
    var i := UncoveredIsRest(c, plan, a);
    d := c.demands[i];
    SortByMembers(snapshot.input.demands, DemandKey);
    assert d in c.demands;
  }

  /** The allocation problem may use a pair exactly when the matrix has a ready route for it
      that keeps the promised time, and each side has the units of its record. */
  lemma EligibleIffInTime(snapshot: Snapshot, matrix: RouteMatrix, active: seq<int>, i: nat, j: nat)
    requires Evaluable(snapshot, matrix) && AllKnown(snapshot, active)
    requires i < |SortedDemands(snapshot)| && j < |SortedIds(active)|
    ensures var p := ScenarioProblem(snapshot, matrix, active);
            var f, d := ScenarioFacilities(snapshot, active)[j], SortedDemands(snapshot)[i];
            && (Eligible(p, i, j) <==> exists entry :: InTime(snapshot, matrix, f, d, entry))
            && p.demand[i] == d.units && p.capacity[j] == f.capacityUnits
  {
    var facilities, demands := ScenarioFacilities(snapshot, active), SortedDemands(snapshot);
    SortByMembers(snapshot.input.demands, DemandKey);
    assert facilities[j] in facilities && demands[i] in demands;
    InTimeIffRoute(snapshot, matrix, facilities[j], demands[i]);
  }

  lemma SortedDemandsIncrease(snapshot: Snapshot)
    requires Distinct(DemandIds(snapshot.input.demands))
    ensures forall i, j :: 0 <= i < j < |SortedDemands(snapshot)| ==>
              SortedDemands(snapshot)[i].demandId < SortedDemands(snapshot)[j].demandId
  {
    var s, r, ids := snapshot.input.demands, SortedDemands(snapshot), DemandIds(snapshot.input.demands);
    assert forall i, j :: 0 <= i < j < |s| ==> ids[i] != ids[j];
    SortByStrict(s, DemandKey);
    assert forall i, j :: 0 <= i < j < |r| ==> DemandKey(r[i]) < DemandKey(r[j]);
  }

  /** The report lists every pair at most once, by demand point and then by facility. */
  lemma OptimizedIsOrdered(snapshot: Snapshot, matrix: RouteMatrix, active: seq<int>, value: ScenarioResult, plan: Plan)
    requires Distinct(DemandIds(snapshot.input.demands)) && Distinct(active) && AllKnown(snapshot, active)
    requires IsOptimized(snapshot, matrix, active, value, plan)
    ensures Ordered(value.allocations)
    ensures forall i, j :: 0 <= i < j < |value.activeFacilityIds| ==>
              value.activeFacilityIds[i] < value.activeFacilityIds[j]
    ensures forall id :: id in value.activeFacilityIds <==> id in active
  {
    var c, ids := ScenarioCase(snapshot, matrix, active), SortedIds(active);
    SortedDemandsIncrease(snapshot);
    SortedIdsStrict(active);
    SortByMembers(active, IdKey);
    assert forall i, j :: 0 <= i < j < |ids| ==> IdKey(ids[i]) < IdKey(ids[j]);
    assert FacilityIds(c.facilities) == ids;
    JoinedOrdered(c, plan, |c.demands|);
  }
}

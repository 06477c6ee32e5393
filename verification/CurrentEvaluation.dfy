/**
 Evaluating the recorded customer-to-warehouse assignment, and comparing it with the
 optimised evaluation of the same existing facilities.
 */
module CurrentEvaluation {
  import opened Basics
  import opened Rates
  import opened Scenarios
  import opened Transport
  import opened OptimizedScenario
  import opened OptimizedEvaluation

  function ExistingUpTo(facilities: seq<Facility>, n: nat): seq<Facility>
    requires n <= |facilities|
  {
    if n == 0 then []
    else if facilities[n - 1].isExisting then ExistingUpTo(facilities, n - 1) + [facilities[n - 1]]
    else ExistingUpTo(facilities, n - 1)
  }

  function Existing(facilities: seq<Facility>): seq<Facility> { ExistingUpTo(facilities, |facilities|) }

  lemma {:induction false} ExistingMembersUpTo(facilities: seq<Facility>, n: nat)
    requires n <= |facilities|
    ensures forall f :: f in ExistingUpTo(facilities, n) <==>
              f.isExisting && exists k :: 0 <= k < n && facilities[k] == f
  {
    if n == 0 {
    } else {
      ExistingMembersUpTo(facilities, n - 1);
    }
  }

  lemma ExistingMembers(facilities: seq<Facility>)
    ensures forall f :: f in Existing(facilities) <==> f in facilities && f.isExisting
  {
    ExistingMembersUpTo(facilities, |facilities|);
  }

  /** A demand point that is not served, and why. */
  function Unserved(d: DemandPoint, facilityId: Option<int>, reason: Reason): Allocation {
    Allocation(d.demandId, facilityId, d.units, false, None, 0, reason)
  }

  /** How the current assignment of one demand point is judged. */
  function CurrentAllocation(snapshot: Snapshot, matrix: RouteMatrix, d: DemandPoint): Allocation {
    if d.currentFacilityId.None? then Unserved(d, None, MissingAssignment)
    else
      var facility := FacilityById(Existing(snapshot.input.facilities), d.currentFacilityId.value);
      if facility.None? then Unserved(d, d.currentFacilityId, FacilityNotActive)
      else
        var service := ServiceOf(snapshot, matrix, facility.value, d);
        if !service.Timed? then Unserved(d, d.currentFacilityId, RouteUnavailable)
        else
          var covered := service.leg.seconds <= snapshot.input.policy.maxDeliverySeconds;
          Allocation(d.demandId, d.currentFacilityId, d.units, covered, Some(service.leg), service.unitCost * d.units,
                     if covered then NoReason else ServiceLevelExceeded)
  }

  function CurrentIssues(snapshot: Snapshot, matrix: RouteMatrix, d: DemandPoint): seq<Issue> {
    match CurrentAllocation(snapshot, matrix, d).reason
    case MissingAssignment => [NoCurrentFacility(d.demandId)]
    case FacilityNotActive => [CurrentFacilityNotExisting(d.demandId, d.currentFacilityId.GetOr(0))]
    case RouteUnavailable => [CurrentRouteUnavailable(d.demandId, d.currentFacilityId.GetOr(0))]
    case _ => []
  }

  function IssuesUpTo(snapshot: Snapshot, matrix: RouteMatrix, demands: seq<DemandPoint>, n: nat): seq<Issue>
    requires n <= |demands|
  {
    if n == 0 then []
    else IssuesUpTo(snapshot, matrix, demands, n - 1) + CurrentIssues(snapshot, matrix, demands[n - 1])
  }

  lemma NoCapacityIssue(snapshot: Snapshot, matrix: RouteMatrix, d: DemandPoint)
    ensures forall issue :: issue in CurrentIssues(snapshot, matrix, d) ==> !issue.CapacityExceeded?
  {
  }

  lemma {:induction false} NoCapacityIssueYet(snapshot: Snapshot, matrix: RouteMatrix, demands: seq<DemandPoint>,
                                              n: nat)
    requires n <= |demands|
    ensures forall issue :: issue in IssuesUpTo(snapshot, matrix, demands, n) ==> !issue.CapacityExceeded?
  {
    if n == 0 {
    } else {
      NoCapacityIssueYet(snapshot, matrix, demands, n - 1);
      NoCapacityIssue(snapshot, matrix, demands[n - 1]);
    }
  }

  /** Units of the first `n` demand points assigned to a facility, reachable or not. */
  function Assigned(demands: seq<DemandPoint>, facilityId: int, n: nat): nat
    requires n <= |demands|
  {
    if n == 0 then 0
    else if demands[n - 1].currentFacilityId == Some(facilityId) then
      Assigned(demands, facilityId, n - 1) + demands[n - 1].units
    else Assigned(demands, facilityId, n - 1)
  }

  ghost predicate Judges(snapshot: Snapshot, matrix: RouteMatrix, demands: seq<DemandPoint>,
                         allocations: seq<Allocation>) {
    && |allocations| == |demands|
    && forall i :: 0 <= i < |demands| ==> allocations[i] == CurrentAllocation(snapshot, matrix, demands[i])
  }

  /** `used` holds what the first `n` demand points assign to each of these facilities. */
  ghost predicate Tallies(used: map<int, nat>, ids: seq<int>, demands: seq<DemandPoint>, n: nat)
    requires n <= |demands|
  {
    && (forall id :: id in used <==> id in ids)
    && (forall id :: id in used ==> used[id] == Assigned(demands, id, n))
  }

  method TallyDemand(used0: map<int, nat>, ghost ids: seq<int>, ghost demands: seq<DemandPoint>, ghost i: nat,
                     d: DemandPoint)
    returns (used: map<int, nat>)
    requires i < |demands| && d == demands[i] && Tallies(used0, ids, demands, i)
    ensures Tallies(used, ids, demands, i + 1)
  {
    used := used0;
    if d.currentFacilityId.Some? && d.currentFacilityId.value in used {
      used := used[d.currentFacilityId.value := used[d.currentFacilityId.value] + d.units];
    }
  }

  method JudgeAssignments(snapshot: Snapshot, matrix: RouteMatrix, demands: seq<DemandPoint>, existingIds: seq<int>)
    returns (allocations: seq<Allocation>, issues: seq<Issue>, used: map<int, nat>)
    ensures Judges(snapshot, matrix, demands, allocations)
    ensures issues == IssuesUpTo(snapshot, matrix, demands, |demands|)
    ensures Tallies(used, existingIds, demands, |demands|)
  {
    allocations, issues := [], [];
    used := map id | id in existingIds :: 0;
    for i := 0 to |demands|
      invariant |allocations| == i
      invariant forall k :: 0 <= k < i ==> allocations[k] == CurrentAllocation(snapshot, matrix, demands[k])
      invariant issues == IssuesUpTo(snapshot, matrix, demands, i)
      invariant Tallies(used, existingIds, demands, i)
    {
      var allocation := CurrentAllocation(snapshot, matrix, demands[i]);
      allocations := allocations + [allocation];
      issues := issues + CurrentIssues(snapshot, matrix, demands[i]);
      used := TallyDemand(used, existingIds, demands, i, demands[i]);
    }
  }

  ghost predicate OverCapacity(demands: seq<DemandPoint>, f: Facility) {
    Assigned(demands, f.facilityId, |demands|) > f.capacityUnits
  }

  ghost function ExceededIssue(demands: seq<DemandPoint>, f: Facility): Issue {
    CapacityExceeded(f.facilityId, Assigned(demands, f.facilityId, |demands|), f.capacityUnits)
  }

  /** The issues of the first `n` facilities whose assigned demand exceeds their capacity. */
  ghost function ExceededUpTo(demands: seq<DemandPoint>, facilities: seq<Facility>, n: nat): seq<Issue>
    requires n <= |facilities|
  {
    if n == 0 then []
    else if OverCapacity(demands, facilities[n - 1]) then
      ExceededUpTo(demands, facilities, n - 1) + [ExceededIssue(demands, facilities[n - 1])]
    else ExceededUpTo(demands, facilities, n - 1)
  }

  lemma {:induction false} ExceededMembers(demands: seq<DemandPoint>, facilities: seq<Facility>, n: nat, issue: Issue)
    requires n <= |facilities|
    ensures issue in ExceededUpTo(demands, facilities, n) <==>
              exists k :: 0 <= k < n && OverCapacity(demands, facilities[k])
                          && issue == ExceededIssue(demands, facilities[k])
  {
    if n == 0 {
    } else {
      ExceededMembers(demands, facilities, n - 1, issue);
    }
  }

  method CheckCapacities(facilities: seq<Facility>, used: map<int, nat>, ghost demands: seq<DemandPoint>)
    returns (issues: seq<Issue>)
    requires forall f :: f in facilities ==>
               f.facilityId in used && used[f.facilityId] == Assigned(demands, f.facilityId, |demands|)
    ensures issues == ExceededUpTo(demands, facilities, |facilities|)
  {
    issues := [];
    for j := 0 to |facilities|
      invariant issues == ExceededUpTo(demands, facilities, j)
    {
      var f := facilities[j];
      assert f in facilities;
      if used[f.facilityId] > f.capacityUnits {
        issues := issues + [CapacityExceeded(f.facilityId, used[f.facilityId], f.capacityUnits)];
      }
    }
  }

  /** The existing facilities by identifier. */
  function SortedExisting(snapshot: Snapshot): seq<Facility> {
    SortBy(Existing(snapshot.input.facilities), FacilityKey)
  }

  /** `value` judges every demand point where it is assigned now, and reports the facilities
      that are assigned too much. */
  ghost predicate IsCurrent(snapshot: Snapshot, matrix: RouteMatrix, value: ScenarioResult) {
    var demands, active := SortedDemands(snapshot), SortedExisting(snapshot);
    && Judges(snapshot, matrix, demands, value.allocations)
    && value.metrics == MetricsOf(snapshot.input.demands, active, value.allocations)
    && value.issues == IssuesUpTo(snapshot, matrix, demands, |demands|) + ExceededUpTo(demands, active, |active|)
    && value.activeFacilityIds == FacilityIds(active) && value.mode == CurrentAssignment
    && value.snapshotId == snapshot.snapshotId && value.matrixId == matrix.matrixId
  }

  /** Capacity issues are reported for exactly the overloaded existing facilities. */
  lemma ExceededIffOverloaded(snapshot: Snapshot, matrix: RouteMatrix, value: ScenarioResult, issue: Issue)
    requires IsCurrent(snapshot, matrix, value) && issue.CapacityExceeded?
    ensures issue in value.issues <==>
              exists f :: f in Existing(snapshot.input.facilities) && OverCapacity(SortedDemands(snapshot), f)
                          && issue == ExceededIssue(SortedDemands(snapshot), f)
  {
    var demands, active := SortedDemands(snapshot), SortedExisting(snapshot);
    NoCapacityIssueYet(snapshot, matrix, demands, |demands|);
    ExceededMembers(demands, active, |active|, issue);
    SortByMembers(Existing(snapshot.input.facilities), FacilityKey);
    if k :| 0 <= k < |active| && OverCapacity(demands, active[k]) && issue == ExceededIssue(demands, active[k]) {
      assert active[k] in active;
    }
    if f :| f in Existing(snapshot.input.facilities) && OverCapacity(demands, f) && issue == ExceededIssue(demands, f) {
      assert f in active;
    }
  }

  lemma ExistingAreTallied(facilities: seq<Facility>, used: map<int, nat>, demands: seq<DemandPoint>)
    requires Tallies(used, FacilityIds(facilities), demands, |demands|)
    ensures forall f :: f in facilities ==>
              f.facilityId in used && used[f.facilityId] == Assigned(demands, f.facilityId, |demands|)
  {
    forall f | f in facilities ensures f.facilityId in used {
      var k :| 0 <= k < |facilities| && facilities[k] == f;
      assert FacilityIds(facilities)[k] == f.facilityId;
    }
  }

  method EvaluateCurrent(snapshot: Snapshot, matrix: RouteMatrix) returns (r: Result<ScenarioResult, EvaluationError>)
    requires Evaluable(snapshot, matrix)
    ensures r.Err? <==> matrix.snapshotId != snapshot.snapshotId
    ensures r.Ok? ==> IsCurrent(snapshot, matrix, r.value)
  {
    if matrix.snapshotId != snapshot.snapshotId { return Err(SnapshotMismatch); }
    var demands := SortedDemands(snapshot);
    var existing := Existing(snapshot.input.facilities);
    var allocations, judged, used := JudgeAssignments(snapshot, matrix, demands, FacilityIds(existing));
    var active := SortedExisting(snapshot);
    SortByMembers(existing, FacilityKey);
    ExistingAreTallied(existing, used, demands);
    var exceeded := CheckCapacities(active, used, demands);
    r := Ok(ScenarioResult(snapshot.snapshotId, matrix.matrixId, CurrentAssignment, FacilityIds(active),
                           MetricsOf(snapshot.input.demands, active, allocations), allocations, judged + exceeded));
  }

  // ----- Conservation ---------------------------------------------------------

  lemma {:induction false} JudgedUnits(snapshot: Snapshot, matrix: RouteMatrix, demands: seq<DemandPoint>,
                                       allocations: seq<Allocation>, n: nat)
    requires Judges(snapshot, matrix, demands, allocations) && n <= |demands|
    ensures UnitsUpTo(allocations, All, n) == TotalDemand(UnitsOf(demands), n)
    ensures 0 <= UnitsUpTo(allocations, CoveredOnly, n) <= TotalDemand(UnitsOf(demands), n)
  {
    if n == 0 {
    } else {
      JudgedUnits(snapshot, matrix, demands, allocations, n - 1);
      assert allocations[n - 1] == CurrentAllocation(snapshot, matrix, demands[n - 1]);
    }
  }

  lemma {:induction false} JudgedUnitsForDemand(snapshot: Snapshot, matrix: RouteMatrix, demands: seq<DemandPoint>,
                                                allocations: seq<Allocation>, r: nat, n: nat)
    requires Judges(snapshot, matrix, demands, allocations) && n <= |demands| && r < |demands|
    requires Distinct(DemandIds(demands))
    ensures UnitsUpTo(allocations, ForDemand(demands[r].demandId), n) == if r < n then demands[r].units else 0
  {
    if n == 0 {
    } else {
      JudgedUnitsForDemand(snapshot, matrix, demands, allocations, r, n - 1);
      var ids := DemandIds(demands);
      assert r != n - 1 ==> ids[r] != ids[n - 1];
      assert allocations[n - 1] == CurrentAllocation(snapshot, matrix, demands[n - 1]);
    }
  }

  lemma CurrentIsConsistent(snapshot: Snapshot, matrix: RouteMatrix, value: ScenarioResult)
    requires Distinct(DemandIds(snapshot.input.demands)) && IsCurrent(snapshot, matrix, value)
    ensures Consistent(snapshot.input.demands, value)
  {
    var demands := SortedDemands(snapshot);
    JudgedUnits(snapshot, matrix, demands, value.allocations, |demands|);
    TotalIsDemandUnits(demands, |demands|);
    assert demands[..|demands|] == demands;
    SortedUnits(snapshot.input.demands);
    SortedDemandIdsDistinct(snapshot);
    SortByMembers(snapshot.input.demands, DemandKey);
    forall d | d in snapshot.input.demands
      ensures Units(value.allocations, ForDemand(d.demandId)) == d.units
    {
      assert d in demands;
      var i :| 0 <= i < |demands| && demands[i] == d;
      JudgedUnitsForDemand(snapshot, matrix, demands, value.allocations, i, |demands|);
    }
  }

  /** The fixed costs are those of exactly the existing facilities, listed in order. */
  lemma CurrentChargesFixed(snapshot: Snapshot, matrix: RouteMatrix, value: ScenarioResult)
    requires Distinct(FacilityIds(snapshot.input.facilities)) && IsCurrent(snapshot, matrix, value)
    ensures ChargesFixedCosts(snapshot.input.facilities, value)
    ensures forall i, j :: 0 <= i < j < |value.activeFacilityIds| ==>
              value.activeFacilityIds[i] < value.activeFacilityIds[j]
    ensures forall id :: id in value.activeFacilityIds <==>
              exists f :: f in snapshot.input.facilities && f.isExisting && f.facilityId == id
  {
    var all, active := snapshot.input.facilities, SortedExisting(snapshot);
    ExistingInOrder(snapshot);
    SortedExistingMembers(snapshot);
    forall id ensures id in FacilityIds(active) <==> exists f :: f in active && f.facilityId == id {
      IdsOfFacilities(active, id);
    }
    forall k | 0 <= k < |active| ensures active[k] in all[..|all|] {
      assert active[k] in active && all[..|all|] == all;
    }
    FixedCostsAreOpen(all, active, |all|);
  }

  lemma SortedExistingMembers(snapshot: Snapshot)
    ensures forall f :: f in SortedExisting(snapshot) <==> f in snapshot.input.facilities && f.isExisting
  {
    ExistingMembers(snapshot.input.facilities);
    SortByMembers(Existing(snapshot.input.facilities), FacilityKey);
  }

  lemma IdsOfFacilities(facilities: seq<Facility>, id: int)
    ensures id in FacilityIds(facilities) <==> exists f :: f in facilities && f.facilityId == id
  {
    var ids := FacilityIds(facilities);
    if id in ids {
      var k :| 0 <= k < |ids| && ids[k] == id;
      assert facilities[k] in facilities;
    }
    if f :| f in facilities && f.facilityId == id {
      var k :| 0 <= k < |facilities| && facilities[k] == f;
      assert ids[k] == id;
    }
  }

  lemma ExistingInOrder(snapshot: Snapshot)
    requires Distinct(FacilityIds(snapshot.input.facilities))
    ensures var ids := FacilityIds(SortedExisting(snapshot)); forall i, j :: 0 <= i < j < |ids| ==> ids[i] < ids[j]
  {
    var all, s, r := snapshot.input.facilities, Existing(snapshot.input.facilities), SortedExisting(snapshot);
    ExistingIdsDistinctUpTo(all, |all|);
    var ids := FacilityIds(s);
    assert forall i, j :: 0 <= i < j < |s| ==> ids[i] != ids[j];
    SortByStrict(s, FacilityKey);
    assert forall i, j :: 0 <= i < j < |r| ==> FacilityKey(r[i]) < FacilityKey(r[j]);
  }

  // ----- Each judgement, said of the route matrix -----------------------------

  /** The demand point is assigned to this existing facility. */
  ghost predicate AssignedTo(snapshot: Snapshot, d: DemandPoint, f: Facility) {
    f in snapshot.input.facilities && f.isExisting && d.currentFacilityId == Some(f.facilityId)
  }

  lemma AssignedFacility(snapshot: Snapshot, d: DemandPoint, f: Facility)
    requires Distinct(FacilityIds(snapshot.input.facilities)) && AssignedTo(snapshot, d, f)
    ensures FacilityById(Existing(snapshot.input.facilities), f.facilityId) == Some(f)
  {
    var s := Existing(snapshot.input.facilities);
    ExistingMembers(snapshot.input.facilities);
    FacilityByIdFinds(s, f.facilityId);
    var k :| 0 <= k < |s| && s[k] == f;
    assert FacilityIds(s)[k] == f.facilityId;
    OneFacilityPerId(snapshot.input.facilities, f, FacilityById(s, f.facilityId).value);
  }

  lemma NoAssignedFacility(snapshot: Snapshot, d: DemandPoint)
    requires d.currentFacilityId.Some? && forall f :: !AssignedTo(snapshot, d, f)
    ensures FacilityById(Existing(snapshot.input.facilities), d.currentFacilityId.value).None?
  {
    var s := Existing(snapshot.input.facilities);
    ExistingMembers(snapshot.input.facilities);
    FacilityByIdFinds(s, d.currentFacilityId.value);
    var found := FacilityById(s, d.currentFacilityId.value);
    if found.Some? { assert AssignedTo(snapshot, d, found.value); }
  }

  /** A demand point with a ready route from its facility is charged for every unit over that
      route, in time or late, and is covered exactly when the route is in time. */
  lemma RoutedIsCharged(snapshot: Snapshot, matrix: RouteMatrix, d: DemandPoint, f: Facility, entry: RouteEntry)
    returns (rate: TransportRate, unitCost: int)
    requires Evaluable(snapshot, matrix) && d in snapshot.input.demands
    requires AssignedTo(snapshot, d, f) && IsReady(matrix, f, d, entry)
    ensures var a := CurrentAllocation(snapshot, matrix, d);
            && a.demandId == d.demandId && a.facilityId == Some(f.facilityId) && a.units == d.units
            && a.leg.Some? && IsPriced(snapshot, f, d, entry, a.leg.value, unitCost, rate)
            && a.variableCost == unitCost * d.units
            && (a.covered <==> InTime(snapshot, matrix, f, d, entry))
            && a.reason == (if a.covered then NoReason else ServiceLevelExceeded)
    ensures CurrentIssues(snapshot, matrix, d) == []
  {
    AssignedFacility(snapshot, d, f);
    rate := ReadyIsTimed(snapshot, matrix, f, d, entry);
    unitCost := ServiceOf(snapshot, matrix, f, d).unitCost;
  }

  /** Without a ready route from an existing facility nothing is covered or charged, and the
      first obstacle is reported. */
  lemma UnroutedIsUnserved(snapshot: Snapshot, matrix: RouteMatrix, d: DemandPoint)
    requires Evaluable(snapshot, matrix) && d in snapshot.input.demands
    requires forall f, entry :: AssignedTo(snapshot, d, f) ==> !IsReady(matrix, f, d, entry)
    ensures var a := CurrentAllocation(snapshot, matrix, d);
            && a == Allocation(d.demandId, d.currentFacilityId, d.units, false, None, 0, a.reason)
            && match d.currentFacilityId
               case None =>
                 a.reason == MissingAssignment && CurrentIssues(snapshot, matrix, d) == [NoCurrentFacility(d.demandId)]
               case Some(id) =>
                 if exists f :: AssignedTo(snapshot, d, f)
                 then && a.reason == RouteUnavailable
                      && CurrentIssues(snapshot, matrix, d) == [CurrentRouteUnavailable(d.demandId, id)]
                 else && a.reason == FacilityNotActive
                      && CurrentIssues(snapshot, matrix, d) == [CurrentFacilityNotExisting(d.demandId, id)]
  {
    if d.currentFacilityId.Some? {
      if f :| AssignedTo(snapshot, d, f) {
        AssignedFacility(snapshot, d, f);
        if ServiceOf(snapshot, matrix, f, d).Timed? { var entry, rate := TimedMeans(snapshot, matrix, f, d); }
      } else {
        NoAssignedFacility(snapshot, d);
      }
    }
  }

  /** The current report has one allocation for every demand point, by identifier. */
  lemma CurrentIsOrdered(snapshot: Snapshot, matrix: RouteMatrix, value: ScenarioResult)
    requires Distinct(DemandIds(snapshot.input.demands)) && IsCurrent(snapshot, matrix, value)
    ensures |value.allocations| == |snapshot.input.demands|
    ensures forall i, j :: 0 <= i < j < |value.allocations| ==>
              value.allocations[i].demandId < value.allocations[j].demandId
    ensures forall a :: a in value.allocations <==>
              exists d :: d in snapshot.input.demands && a == CurrentAllocation(snapshot, matrix, d)
  {
    var demands := SortedDemands(snapshot);
    SortedDemandsIncrease(snapshot);
    SortByMembers(snapshot.input.demands, DemandKey);
    forall i | 0 <= i < |demands| ensures value.allocations[i].demandId == demands[i].demandId {
      assert value.allocations[i] == CurrentAllocation(snapshot, matrix, demands[i]);
    }
    forall d | d in snapshot.input.demands ensures CurrentAllocation(snapshot, matrix, d) in value.allocations {
      assert d in demands;
      var i :| 0 <= i < |demands| && demands[i] == d;
      assert value.allocations[i] == CurrentAllocation(snapshot, matrix, demands[i]);
    }
    forall a | a in value.allocations
      ensures exists d :: d in snapshot.input.demands && a == CurrentAllocation(snapshot, matrix, d)
    {
      var i :| 0 <= i < |demands| && value.allocations[i] == a;
      assert demands[i] in demands;
    }
  }

  /** The scenario checks accept every result of the optimised evaluation. */
  method ChecksAcceptOptimized(snapshot: Snapshot, ghost matrix: RouteMatrix, ghost active: seq<int>,
                               value: ScenarioResult, ghost plan: Plan)
    returns (errors: seq<ScenarioError>)
    requires Distinct(DemandIds(snapshot.input.demands))
    requires AllKnown(snapshot, active) && IsOptimized(snapshot, matrix, active, value, plan)
    ensures errors == []
  {
    OptimizedIsConsistent(snapshot, matrix, active, value, plan);
    errors := ValidateScenario(value);
  }

  /** The scenario checks accept every result of the current evaluation. */
  method ChecksAcceptCurrent(snapshot: Snapshot, ghost matrix: RouteMatrix, value: ScenarioResult)
    returns (errors: seq<ScenarioError>)
    requires Distinct(DemandIds(snapshot.input.demands)) && IsCurrent(snapshot, matrix, value)
    ensures errors == []
  {
    CurrentIsConsistent(snapshot, matrix, value);
    errors := ValidateScenario(value);
  }

  // ----- Current against optimised --------------------------------------------

  function ExistingIds(snapshot: Snapshot): seq<int> { FacilityIds(Existing(snapshot.input.facilities)) }

  lemma ExistingIdsKnown(snapshot: Snapshot)
    ensures AllKnown(snapshot, ExistingIds(snapshot))
  {
    var s := Existing(snapshot.input.facilities);
    ExistingMembers(snapshot.input.facilities);
    forall j | 0 <= j < |s|
      ensures ExistingIds(snapshot)[j] in FacilityIds(snapshot.input.facilities)
    {
      assert s[j] in s;
      var k :| 0 <= k < |snapshot.input.facilities| && snapshot.input.facilities[k] == s[j];
      assert FacilityIds(snapshot.input.facilities)[k] == s[j].facilityId;
    }
  }

  /** With distinct identifiers there is one facility per identifier. */
  lemma OneFacilityPerId(facilities: seq<Facility>, f: Facility, g: Facility)
    requires Distinct(FacilityIds(facilities)) && f in facilities && g in facilities && f.facilityId == g.facilityId
    ensures f == g
  {
    var i :| 0 <= i < |facilities| && facilities[i] == f;
    var j :| 0 <= j < |facilities| && facilities[j] == g;
    var ids := FacilityIds(facilities);
    assert ids[i] == ids[j];
  }

  lemma {:induction false} ExistingIdsDistinctUpTo(facilities: seq<Facility>, n: nat)
    requires n <= |facilities| && Distinct(FacilityIds(facilities))
    ensures Distinct(FacilityIds(ExistingUpTo(facilities, n)))
  {
    if n == 0 {
    } else {
      ExistingIdsDistinctUpTo(facilities, n - 1);
      ExistingMembersUpTo(facilities, n - 1);
      var r, e, ids := ExistingUpTo(facilities, n - 1), ExistingUpTo(facilities, n), FacilityIds(facilities);
      forall k | 0 <= k < |r|
        ensures r[k].facilityId != facilities[n - 1].facilityId
      {
        assert r[k] in r;
        var i :| 0 <= i < n - 1 && facilities[i] == r[k];
        assert ids[i] != ids[n - 1];
      }
      forall i, j | 0 <= i < j < |e|
        ensures FacilityIds(e)[i] != FacilityIds(e)[j]
      {
        if j < |r| { assert FacilityIds(r)[i] != FacilityIds(r)[j]; }
      }
    }
  }

  ghost predicate ServedNow(snapshot: Snapshot, matrix: RouteMatrix, d: DemandPoint, id: int) {
    CurrentAllocation(snapshot, matrix, d).covered && d.currentFacilityId == Some(id)
  }

  /** The current assignment, as far as it covers demand, seen as a plan. */
  ghost function CurrentPlan(snapshot: Snapshot, matrix: RouteMatrix, demands: seq<DemandPoint>, ids: seq<int>)
    : (b: Plan)
    ensures |b| == |demands| && forall i :: 0 <= i < |b| ==> |b[i]| == |ids|
    ensures forall i, j :: 0 <= i < |b| && 0 <= j < |ids| ==>
              b[i][j] == if ServedNow(snapshot, matrix, demands[i], ids[j]) then demands[i].units else 0
  {
    seq(|demands|, i requires 0 <= i < |demands| =>
      seq(|ids|,
          j requires 0 <= j < |ids| => if ServedNow(snapshot, matrix, demands[i], ids[j]) then demands[i].units else 0))
  }

  lemma {:induction false} CurrentServed(snapshot: Snapshot, matrix: RouteMatrix, demands: seq<DemandPoint>,
                                         ids: seq<int>, i: nat, at: nat, j: nat)
    requires i < |demands| && j <= |ids| && at < |ids| && Distinct(ids)
    requires forall k :: 0 <= k < |ids| && ServedNow(snapshot, matrix, demands[i], ids[k]) ==> k == at
    ensures Served(CurrentPlan(snapshot, matrix, demands, ids), i, j)
         == if at < j && ServedNow(snapshot, matrix, demands[i], ids[at]) then demands[i].units else 0
  {
    if j == 0 {
    } else {
      CurrentServed(snapshot, matrix, demands, ids, i, at, j - 1);
    }
  }

  lemma {:induction false} NothingServed(snapshot: Snapshot, matrix: RouteMatrix, demands: seq<DemandPoint>,
                                         ids: seq<int>, i: nat, j: nat)
    requires i < |demands| && j <= |ids| && !CurrentAllocation(snapshot, matrix, demands[i]).covered
    ensures Served(CurrentPlan(snapshot, matrix, demands, ids), i, j) == 0
  {
    if j == 0 {
    } else {
      NothingServed(snapshot, matrix, demands, ids, i, j - 1);
    }
  }

  lemma {:induction false} CurrentLoad(snapshot: Snapshot, matrix: RouteMatrix, demands: seq<DemandPoint>,
                                       ids: seq<int>, j: nat, i: nat)
    requires i <= |demands| && j < |ids|
    ensures Load(CurrentPlan(snapshot, matrix, demands, ids), j, i) <= Assigned(demands, ids[j], i)
  {
    if i == 0 {
    } else {
      CurrentLoad(snapshot, matrix, demands, ids, j, i - 1);
    }
  }

  /** All of a demand point that is covered now is served in the plan, and nothing else. */
  lemma CurrentRow(snapshot: Snapshot, matrix: RouteMatrix, demands: seq<DemandPoint>, ids: seq<int>, i: nat)
    requires i < |demands| && Distinct(ids)
    requires forall f :: f in Existing(snapshot.input.facilities) ==> f.facilityId in ids
    ensures Served(CurrentPlan(snapshot, matrix, demands, ids), i, |ids|)
         == if CurrentAllocation(snapshot, matrix, demands[i]).covered then demands[i].units else 0
  {
    if CurrentAllocation(snapshot, matrix, demands[i]).covered {
      FacilityByIdFinds(Existing(snapshot.input.facilities), demands[i].currentFacilityId.value);
      var at :| 0 <= at < |ids| && ids[at] == demands[i].currentFacilityId.value;
      CurrentServed(snapshot, matrix, demands, ids, i, at, |ids|);
    } else {
      NothingServed(snapshot, matrix, demands, ids, i, |ids|);
    }
  }

  lemma {:induction false} CurrentCoverage(snapshot: Snapshot, matrix: RouteMatrix, demands: seq<DemandPoint>,
                                           ids: seq<int>, allocations: seq<Allocation>, n: nat)
    requires Judges(snapshot, matrix, demands, allocations) && n <= |demands| && Distinct(ids)
    requires forall f :: f in Existing(snapshot.input.facilities) ==> f.facilityId in ids
    ensures Covered(CurrentPlan(snapshot, matrix, demands, ids), n) == UnitsUpTo(allocations, CoveredOnly, n)
  {
    if n == 0 {
    } else {
      CurrentCoverage(snapshot, matrix, demands, ids, allocations, n - 1);
      CurrentRow(snapshot, matrix, demands, ids, n - 1);
      assert allocations[n - 1] == CurrentAllocation(snapshot, matrix, demands[n - 1]);
    }
  }

  lemma ServedNowIsEligible(snapshot: Snapshot, matrix: RouteMatrix, d: DemandPoint, f: Facility)
    requires Distinct(FacilityIds(snapshot.input.facilities)) && f in snapshot.input.facilities
    requires ServedNow(snapshot, matrix, d, f.facilityId)
    ensures InTimeCost(snapshot, matrix, f, d).Some?
  {
    ExistingMembers(snapshot.input.facilities);
    FacilityByIdFinds(Existing(snapshot.input.facilities), f.facilityId);
    var g := FacilityById(Existing(snapshot.input.facilities), f.facilityId).value;
    OneFacilityPerId(snapshot.input.facilities, f, g);
  }

  lemma CurrentPlanFits(snapshot: Snapshot, matrix: RouteMatrix, demands: seq<DemandPoint>, facilities: seq<Facility>)
    requires Distinct(FacilityIds(snapshot.input.facilities)) && Distinct(FacilityIds(facilities))
    requires forall f :: f in facilities <==> f in Existing(snapshot.input.facilities)
    requires forall f :: f in facilities ==> f in snapshot.input.facilities && !OverCapacity(demands, f)
    ensures Fits(ProblemFor(snapshot, matrix, demands, facilities),
                 CurrentPlan(snapshot, matrix, demands, FacilityIds(facilities)))
  {
    var p, ids := ProblemFor(snapshot, matrix, demands, facilities), FacilityIds(facilities);
    var b := CurrentPlan(snapshot, matrix, demands, ids);
    forall i, j | 0 <= i < |b| && 0 <= j < |b[i]|
      ensures b[i][j] >= 0 && (b[i][j] > 0 ==> Eligible(p, i, j))
    {
      if b[i][j] > 0 {
        assert facilities[j] in facilities;
        ServedNowIsEligible(snapshot, matrix, demands[i], facilities[j]);
      }
    }
    forall f | f in Existing(snapshot.input.facilities)
      ensures f.facilityId in ids
    {
      var k :| 0 <= k < |facilities| && facilities[k] == f;
      assert ids[k] == f.facilityId;
    }
    forall i | 0 <= i < |b|
      ensures Served(b, i, |p.capacity|) <= p.demand[i]
    {
      CurrentRow(snapshot, matrix, demands, ids, i);
    }
    forall j | 0 <= j < |p.capacity|
      ensures Load(b, j, |b|) <= p.capacity[j]
    {
      CurrentLoad(snapshot, matrix, demands, ids, j, |b|);
      assert facilities[j] in facilities;
    }
  }

  lemma ScenarioOfExisting(snapshot: Snapshot)
    requires Distinct(FacilityIds(snapshot.input.facilities))
    ensures AllKnown(snapshot, ExistingIds(snapshot))
    ensures Distinct(FacilityIds(ScenarioFacilities(snapshot, ExistingIds(snapshot))))
    ensures forall f :: f in ScenarioFacilities(snapshot, ExistingIds(snapshot)) <==>
              f in Existing(snapshot.input.facilities)
  {
    ExistingIdsKnown(snapshot);
    ExistingIdsDistinctUpTo(snapshot.input.facilities, |snapshot.input.facilities|);
    ExistingMembers(snapshot.input.facilities);
    SortedIdsStrict(ExistingIds(snapshot));
    var ids := ExistingIds(snapshot);
    SortByMembers(ids, IdKey);
    var facilities, existing := ScenarioFacilities(snapshot, ids), Existing(snapshot.input.facilities);
    forall f | f in facilities
      ensures f in existing
    {
      var j :| 0 <= j < |facilities| && facilities[j] == f;
      assert FacilityIds(facilities)[j] in ids;
      var k :| 0 <= k < |existing| && ids[k] == f.facilityId;
      assert existing[k] in existing;
      OneFacilityPerId(snapshot.input.facilities, f, existing[k]);
    }
    forall f | f in existing
      ensures f in facilities
    {
      var k :| 0 <= k < |existing| && existing[k] == f;
      assert ids[k] in SortedIds(ids);
      var j :| 0 <= j < |facilities| && SortedIds(ids)[j] == f.facilityId;
      assert FacilityIds(facilities)[j] == f.facilityId;
      assert facilities[j] in facilities;
      OneFacilityPerId(snapshot.input.facilities, f, facilities[j]);
    }
  }

  /** When the current assignment overloads no facility, reallocating over the same
      facilities covers at least as much. */
  lemma OptimizedCoversCurrent(snapshot: Snapshot, matrix: RouteMatrix, current: ScenarioResult,
                               optimized: ScenarioResult, plan: Plan)
    requires Distinct(DemandIds(snapshot.input.demands)) && Distinct(FacilityIds(snapshot.input.facilities))
    requires AllKnown(snapshot, ExistingIds(snapshot))
    requires IsCurrent(snapshot, matrix, current)
    requires IsOptimized(snapshot, matrix, ExistingIds(snapshot), optimized, plan)
    requires forall issue :: issue in current.issues ==> !issue.CapacityExceeded?
    ensures optimized.metrics.coveredUnits >= current.metrics.coveredUnits
  {
    var demands := SortedDemands(snapshot);
    var facilities := ScenarioFacilities(snapshot, ExistingIds(snapshot));
    ScenarioOfExisting(snapshot);
    forall f | f in facilities
      ensures !OverCapacity(demands, f)
    {
      ExceededIffOverloaded(snapshot, matrix, current, ExceededIssue(demands, f));
    }
    CurrentPlanFits(snapshot, matrix, demands, facilities);
    CurrentFacilitiesListed(snapshot, facilities);
    CurrentCoverage(snapshot, matrix, demands, FacilityIds(facilities), current.allocations, |demands|);
    OptimizedIsConsistent(snapshot, matrix, ExistingIds(snapshot), optimized, plan);
  }

  lemma CurrentFacilitiesListed(snapshot: Snapshot, facilities: seq<Facility>)
    requires forall f :: f in facilities <==> f in Existing(snapshot.input.facilities)
    ensures forall f :: f in Existing(snapshot.input.facilities) ==> f.facilityId in FacilityIds(facilities)
  {
    forall f | f in Existing(snapshot.input.facilities)
      ensures f.facilityId in FacilityIds(facilities)
    {
      var k :| 0 <= k < |facilities| && facilities[k] == f;
      assert FacilityIds(facilities)[k] == f.facilityId;
    }
  }
}

/**
 Evaluating a set of open facilities: the best coverage and, for it, the least variable
 cost that reallocating the demand can reach, reported as allocations and metrics.
 */
module OptimizedScenario {
  import opened Basics
  import opened Rates
  import opened Scenarios
  import opened Transport

  // ----- The allocation problem of a scenario ---------------------------------

  function CostRow(snapshot: Snapshot, matrix: RouteMatrix, facilities: seq<Facility>, demand: DemandPoint)
    : (row: seq<Option<nat>>)
    ensures |row| == |facilities|
  {
    seq(|facilities|, j requires 0 <= j < |facilities| => InTimeCost(snapshot, matrix, facilities[j], demand))
  }

  function UnitsOf(demands: seq<DemandPoint>): (units: seq<nat>)
    ensures |units| == |demands| && forall i :: 0 <= i < |units| ==> units[i] == demands[i].units
  {
    seq(|demands|, i requires 0 <= i < |demands| => demands[i].units)
  }

  function CapacitiesOf(facilities: seq<Facility>): (capacities: seq<nat>)
    ensures |capacities| == |facilities| && forall j :: 0 <= j < |capacities| ==>
              capacities[j] == facilities[j].capacityUnits
  {
    seq(|facilities|, j requires 0 <= j < |facilities| => facilities[j].capacityUnits)
  }

  function ProblemFor(snapshot: Snapshot, matrix: RouteMatrix, demands: seq<DemandPoint>, facilities: seq<Facility>)
    : (p: Problem)
    ensures IsProblem(p) && |p.demand| == |demands| && |p.capacity| == |facilities|
  {
    Problem(UnitsOf(demands), CapacitiesOf(facilities),
            seq(|demands|, i requires 0 <= i < |demands| => CostRow(snapshot, matrix, facilities, demands[i])))
  }

  lemma {:induction false} DemandUnitsSnoc(s: seq<DemandPoint>)
    requires s != []
    ensures DemandUnits(s) == DemandUnits(s[..|s| - 1]) + s[|s| - 1].units
  {
    if |s| > 1 {
      DemandUnitsSnoc(s[1..]);
      assert s[1..][..|s| - 2] == s[..|s| - 1][1..];
    }
  }

  lemma {:induction false} TotalIsDemandUnits(demands: seq<DemandPoint>, i: nat)
    requires i <= |demands|
    ensures TotalDemand(UnitsOf(demands), i) == DemandUnits(demands[..i])
  {
    if i == 0 {
    } else {
      TotalIsDemandUnits(demands, i - 1);
      DemandUnitsSnoc(demands[..i]);
      assert demands[..i][..i - 1] == demands[..i - 1];
    }
  }

  // ----- Reporting a plan -----------------------------------------------------

  function CostValue(cost: Option<nat>): nat { if cost.Some? then cost.value else 0 }

  function LegRow(snapshot: Snapshot, matrix: RouteMatrix, facilities: seq<Facility>, demand: DemandPoint)
    : (row: seq<Option<Leg>>)
    ensures |row| == |facilities|
    ensures forall j :: 0 <= j < |row| ==> row[j] == InTimeLeg(snapshot, matrix, facilities[j], demand)
  {
    seq(|facilities|, j requires 0 <= j < |facilities| => InTimeLeg(snapshot, matrix, facilities[j], demand))
  }

  function LegsFor(snapshot: Snapshot, matrix: RouteMatrix, demands: seq<DemandPoint>, facilities: seq<Facility>)
    : (legs: seq<seq<Option<Leg>>>)
    ensures |legs| == |demands|
    ensures forall i :: 0 <= i < |legs| ==> legs[i] == LegRow(snapshot, matrix, facilities, demands[i])
  {
    seq(|demands|, i requires 0 <= i < |demands| => LegRow(snapshot, matrix, facilities, demands[i]))
  }

  /** An allocation problem with the records it was made from. */
  datatype Case = Case(problem: Problem, demands: seq<DemandPoint>, facilities: seq<Facility>,
                       legs: seq<seq<Option<Leg>>>)

  ghost predicate IsCase(c: Case) {
    && IsProblem(c.problem) && c.problem.demand == UnitsOf(c.demands) && |c.problem.capacity| == |c.facilities|
    && |c.legs| == |c.demands| && forall i :: 0 <= i < |c.legs| ==> |c.legs[i]| == |c.facilities|
  }

  ghost predicate Reports(c: Case, plan: Plan) { IsCase(c) && Fits(c.problem, plan) }

  function Shipment(c: Case, i: nat, j: nat, units: int): Allocation
    requires IsCase(c) && i < |c.demands| && j < |c.facilities|
  {
    Allocation(c.demands[i].demandId, Some(c.facilities[j].facilityId), units, true,
               c.legs[i][j], units * CostValue(c.problem.cost[i][j]), NoReason)
  }

  function Rest(c: Case, i: nat, units: int): Allocation
    requires i < |c.demands|
  {
    Allocation(c.demands[i].demandId, None, units, false, None, 0, NoEligibleCapacity)
  }

  /** What the first `j` facilities ship to demand point `i`. */
  function RowShips(c: Case, i: nat, row: seq<int>, j: nat): seq<Allocation>
    requires IsCase(c) && i < |c.demands| && j <= |c.facilities| == |row|
  {
    if j == 0 then []
    else if row[j - 1] > 0 then RowShips(c, i, row, j - 1) + [Shipment(c, i, j - 1, row[j - 1])]
    else RowShips(c, i, row, j - 1)
  }

  /** The allocations of one demand point: what each facility ships, then what stays uncovered. */
  function RowAllocations(c: Case, i: nat, row: seq<int>, uncovered: int): seq<Allocation>
    requires IsCase(c) && i < |c.demands| && |c.facilities| == |row|
  {
    var ships := RowShips(c, i, row, |c.facilities|);
    if uncovered != 0 then ships + [Rest(c, i, uncovered)] else ships
  }

  /** The allocations of every demand point. */
  ghost function PlanRows(c: Case, plan: Plan): (rows: seq<seq<Allocation>>)
    requires Reports(c, plan)
    ensures |rows| == |c.demands|
  {
    seq(|c.demands|, i requires 0 <= i < |c.demands| =>
      RowAllocations(c, i, plan[i], c.demands[i].units - Served(plan, i, |c.facilities|)))
  }

  ghost function PlanAllocations(c: Case, plan: Plan): seq<Allocation>
    requires Reports(c, plan)
  {
    Joined(PlanRows(c, plan), |c.demands|)
  }

  lemma {:induction false} RowShipsUnits(c: Case, plan: Plan, i: nat, j: nat, pick: Pick)
    requires Reports(c, plan) && i < |c.demands| && j <= |c.facilities| && !pick.AtFacility?
    ensures Units(RowShips(c, i, plan[i], j), pick)
         == if pick.ForDemand? && pick.demandId != c.demands[i].demandId then 0 else Served(plan, i, j)
  {
    if j == 0 {
    } else {
      RowShipsUnits(c, plan, i, j - 1, pick);
      Appended(RowShips(c, i, plan[i], j - 1), Shipment(c, i, j - 1, plan[i][j - 1]), pick);
    }
  }

  lemma {:induction false} RowShipsCharges(c: Case, plan: Plan, i: nat, j: nat)
    requires Reports(c, plan) && i < |c.demands| && j <= |c.facilities|
    ensures Charges(RowShips(c, i, plan[i], j)) == RowCost(c.problem, plan, i, j)
  {
    if j == 0 {
    } else {
      RowShipsCharges(c, plan, i, j - 1);
      Appended(RowShips(c, i, plan[i], j - 1), Shipment(c, i, j - 1, plan[i][j - 1]), All);
    }
  }

  /** The units of a row that go to the facility with this identifier. */
  lemma {:induction false} RowShipsAt(c: Case, i: nat, row: seq<int>, j: nat, k: nat)
    requires IsCase(c) && i < |c.demands| && j <= |c.facilities| == |row| && k < |row| && row[k] >= 0
    requires Distinct(FacilityIds(c.facilities))
    ensures Units(RowShips(c, i, row, j), AtFacility(c.facilities[k].facilityId)) == if k < j then row[k] else 0
  {
    if j == 0 {
    } else {
      RowShipsAt(c, i, row, j - 1, k);
      var ids := FacilityIds(c.facilities);
      assert k != j - 1 ==> ids[k] != ids[j - 1];
      Appended(RowShips(c, i, row, j - 1), Shipment(c, i, j - 1, row[j - 1]), AtFacility(c.facilities[k].facilityId));
    }
  }

  lemma PlanRowUnits(c: Case, plan: Plan, i: nat, pick: Pick)
    requires Reports(c, plan) && i < |c.demands| && !pick.AtFacility?
    ensures Units(PlanRows(c, plan)[i], pick) ==
              match pick
              case All => c.demands[i].units
              case CoveredOnly => Served(plan, i, |c.facilities|)
              case ForDemand(id) => if id == c.demands[i].demandId then c.demands[i].units else 0
  {
    RowShipsUnits(c, plan, i, |c.facilities|, pick);
    Appended(RowShips(c, i, plan[i], |c.facilities|), Rest(c, i, c.demands[i].units - Served(plan, i, |c.facilities|)),
             pick);
  }

  lemma PlanRowCharges(c: Case, plan: Plan, i: nat)
    requires Reports(c, plan) && i < |c.demands|
    ensures Charges(PlanRows(c, plan)[i]) == RowCost(c.problem, plan, i, |c.facilities|)
  {
    RowShipsCharges(c, plan, i, |c.facilities|);
    Appended(RowShips(c, i, plan[i], |c.facilities|), Rest(c, i, c.demands[i].units - Served(plan, i, |c.facilities|)),
             All);
  }

  lemma PlanRowAt(c: Case, plan: Plan, i: nat, k: nat)
    requires Reports(c, plan) && i < |c.demands| && k < |c.facilities| && Distinct(FacilityIds(c.facilities))
    ensures Units(PlanRows(c, plan)[i], AtFacility(c.facilities[k].facilityId)) == plan[i][k]
  {
    RowShipsAt(c, i, plan[i], |c.facilities|, k);
    Appended(RowShips(c, i, plan[i], |c.facilities|), Rest(c, i, c.demands[i].units - Served(plan, i, |c.facilities|)),
             AtFacility(c.facilities[k].facilityId));
  }

  lemma {:induction false} PlanUnits(c: Case, plan: Plan, i: nat)
    requires Reports(c, plan) && i <= |c.demands|
    ensures UnitsOver(PlanRows(c, plan), All, i) == TotalDemand(c.problem.demand, i)
    ensures UnitsOver(PlanRows(c, plan), CoveredOnly, i) == Covered(plan, i)
    ensures ChargesOver(PlanRows(c, plan), i) == PlanCost(c.problem, plan, i)
  {
    if i == 0 {
    } else {
      PlanUnits(c, plan, i - 1);
      PlanRowUnits(c, plan, i - 1, All);
      PlanRowUnits(c, plan, i - 1, CoveredOnly);
      PlanRowCharges(c, plan, i - 1);
    }
  }

  lemma {:induction false} PlanLoads(c: Case, plan: Plan, i: nat, k: nat)
    requires Reports(c, plan) && i <= |c.demands| && k < |c.facilities| && Distinct(FacilityIds(c.facilities))
    ensures UnitsOver(PlanRows(c, plan), AtFacility(c.facilities[k].facilityId), i) == Load(plan, k, i)
  {
    if i == 0 {
    } else {
      PlanLoads(c, plan, i - 1, k);
      PlanRowAt(c, plan, i - 1, k);
    }
  }

  /** The reported allocations add up: per demand point, per facility and overall. */
  lemma PlanAllocationsAddUp(c: Case, plan: Plan)
    requires Reports(c, plan)
    ensures var s := PlanAllocations(c, plan);
            && Units(s, All) == TotalDemand(c.problem.demand, |c.demands|) && Units(s, CoveredOnly) == Coverage(plan)
            && Charges(s) == Cost(c.problem, plan)
  {
    var rows := PlanRows(c, plan);
    JoinedSums(rows, All, |c.demands|);
    JoinedSums(rows, CoveredOnly, |c.demands|);
    PlanUnits(c, plan, |c.demands|);
  }

  lemma PlanServesDemand(c: Case, plan: Plan, r: nat)
    requires Reports(c, plan) && r < |c.demands| && Distinct(DemandIds(c.demands))
    ensures Units(PlanAllocations(c, plan), ForDemand(c.demands[r].demandId)) == c.demands[r].units
  {
    var rows, pick := PlanRows(c, plan), ForDemand(c.demands[r].demandId);
    var ids := DemandIds(c.demands);
    forall k | 0 <= k < |c.demands| && k != r
      ensures Units(rows[k], pick) == 0
    {
      assert ids[k] != ids[r];
      PlanRowUnits(c, plan, k, pick);
    }
    PlanRowUnits(c, plan, r, pick);
    JoinedSums(rows, pick, |c.demands|);
    UnitsOverSingle(rows, pick, |c.demands|, r);
  }

  lemma PlanRespectsCapacity(c: Case, plan: Plan, k: nat)
    requires Reports(c, plan) && k < |c.facilities| && Distinct(FacilityIds(c.facilities))
    requires c.problem.capacity == CapacitiesOf(c.facilities)
    ensures Units(PlanAllocations(c, plan), AtFacility(c.facilities[k].facilityId)) <= c.facilities[k].capacityUnits
  {
    JoinedSums(PlanRows(c, plan), AtFacility(c.facilities[k].facilityId), |c.demands|);
    PlanLoads(c, plan, |c.demands|, k);
  }

  // ----- Every covered unit has its leg ---------------------------------------

  /** The allocation is a shipment over an eligible pair, with that pair's leg and unit cost. */
  ghost predicate ShipsOver(c: Case, a: Allocation, i: nat, j: nat)
    requires IsCase(c)
  {
    && i < |c.demands| && j < |c.facilities| && a.units > 0
    && Eligible(c.problem, i, j) && a == Shipment(c, i, j, a.units)
  }

  ghost predicate IsShipment(c: Case, a: Allocation)
    requires IsCase(c)
  {
    exists i: nat, j: nat :: ShipsOver(c, a, i, j)
  }

  lemma {:induction false} RowShipsOver(c: Case, plan: Plan, i: nat, j: nat, a: Allocation)
    requires Reports(c, plan) && i < |c.demands| && j <= |c.facilities| && a in RowShips(c, i, plan[i], j)
    ensures IsShipment(c, a)
  {
    if j == 0 {
    } else {
      if a in RowShips(c, i, plan[i], j - 1) {
        RowShipsOver(c, plan, i, j - 1, a);
      } else {
        assert ShipsOver(c, a, i, j - 1);
      }
    }
  }

  lemma {:induction false} JoinedFrom(rows: seq<seq<Allocation>>, n: nat, a: Allocation)
    requires n <= |rows| && a in Joined(rows, n)
    ensures exists i :: 0 <= i < n && a in rows[i]
  {
    if n > 0 && a !in rows[n - 1] { JoinedFrom(rows, n - 1, a); }
  }

  /** Every covered allocation of a plan ships over an eligible pair. */
  lemma CoveredIsShipped(c: Case, plan: Plan, a: Allocation)
    requires Reports(c, plan) && a in PlanAllocations(c, plan) && a.covered
    ensures IsShipment(c, a)
  {
    JoinedFrom(PlanRows(c, plan), |c.demands|, a);
    var i :| 0 <= i < |c.demands| && a in PlanRows(c, plan)[i];
    RowShipsOver(c, plan, i, |c.facilities|, a);
  }

  /** Whatever stays uncovered is reported without facility, leg and cost. */
  lemma UncoveredIsRest(c: Case, plan: Plan, a: Allocation) returns (i: nat)
    requires Reports(c, plan) && a in PlanAllocations(c, plan) && !a.covered
    ensures i < |c.demands| && a.units > 0
    ensures a == Allocation(c.demands[i].demandId, None, a.units, false, None, 0, NoEligibleCapacity)
  {
    JoinedFrom(PlanRows(c, plan), |c.demands|, a);
    i :| i < |c.demands| && a in PlanRows(c, plan)[i];
    var ships := RowShips(c, i, plan[i], |c.facilities|);
    if a in ships { RowShipsOver(c, plan, i, |c.facilities|, a); }
  }

  // ----- The order of the report ----------------------------------------------

  /** By demand point, then by facility, and what stays uncovered last. */
  ghost predicate Precedes(a: Allocation, b: Allocation) {
    || a.demandId < b.demandId
    || (a.demandId == b.demandId && a.facilityId.Some?
        && (b.facilityId.Some? ==> a.facilityId.value < b.facilityId.value))
  }

  ghost predicate Ordered(allocations: seq<Allocation>) {
    forall i, j :: 0 <= i < j < |allocations| ==> Precedes(allocations[i], allocations[j])
  }

  lemma OrderedJoin(a: seq<Allocation>, b: seq<Allocation>)
    requires Ordered(a) && Ordered(b) && forall x, y :: x in a && y in b ==> Precedes(x, y)
    ensures Ordered(a + b)
  {
  }

  /** The facilities come in the order of their identifiers. */
  ghost predicate InFacilityOrder(c: Case) {
    forall j, k :: 0 <= j < k < |c.facilities| ==> c.facilities[j].facilityId < c.facilities[k].facilityId
  }

  ghost predicate FromOneOf(c: Case, i: nat, j: nat, a: Allocation)
    requires i < |c.demands| && j <= |c.facilities|
  {
    && a.demandId == c.demands[i].demandId
    && exists k :: 0 <= k < j && a.facilityId == Some(c.facilities[k].facilityId)
  }

  lemma {:induction false} RowShipsOrdered(c: Case, i: nat, row: seq<int>, j: nat)
    requires IsCase(c) && InFacilityOrder(c) && i < |c.demands| && j <= |c.facilities| == |row|
    ensures Ordered(RowShips(c, i, row, j)) && forall a :: a in RowShips(c, i, row, j) ==> FromOneOf(c, i, j, a)
  {
    if j == 0 {
    } else {
      RowShipsOrdered(c, i, row, j - 1);
      var before := RowShips(c, i, row, j - 1);
      var next := Shipment(c, i, j - 1, row[j - 1]);
      forall a | a in before ensures Precedes(a, next) && FromOneOf(c, i, j, a) { assert FromOneOf(c, i, j - 1, a); }
      assert FromOneOf(c, i, j, next);
      OrderedJoin(before, [next]);
    }
  }

  lemma RowOrdered(c: Case, i: nat, row: seq<int>, uncovered: int)
    requires IsCase(c) && InFacilityOrder(c) && i < |c.demands| && |c.facilities| == |row|
    ensures Ordered(RowAllocations(c, i, row, uncovered))
    ensures forall a :: a in RowAllocations(c, i, row, uncovered) ==> a.demandId == c.demands[i].demandId
  {
    RowShipsOrdered(c, i, row, |c.facilities|);
    OrderedJoin(RowShips(c, i, row, |c.facilities|), [Rest(c, i, uncovered)]);
  }

  lemma {:induction false} JoinedOrdered(c: Case, plan: Plan, n: nat)
    requires Reports(c, plan) && InFacilityOrder(c) && n <= |c.demands|
    requires forall i, j :: 0 <= i < j < |c.demands| ==> c.demands[i].demandId < c.demands[j].demandId
    ensures Ordered(Joined(PlanRows(c, plan), n))
    ensures forall a :: a in Joined(PlanRows(c, plan), n) ==>
              exists i :: 0 <= i < n && a.demandId == c.demands[i].demandId
  {
    if n == 0 {
    } else {
      JoinedOrdered(c, plan, n - 1);
      RowOrdered(c, n - 1, plan[n - 1], c.demands[n - 1].units - Served(plan, n - 1, |c.facilities|));
      OrderedJoin(Joined(PlanRows(c, plan), n - 1), PlanRows(c, plan)[n - 1]);
    }
  }

  method ListAllocations(c: Case, plan: Plan, uncovered: seq<int>) returns (allocations: seq<Allocation>)
    requires Reports(c, plan) && |uncovered| == |c.demands|
    requires forall r :: 0 <= r < |c.demands| ==> uncovered[r] == c.demands[r].units - Served(plan, r, |c.facilities|)
    ensures allocations == PlanAllocations(c, plan)
  {
    allocations := [];
    ghost var rows := PlanRows(c, plan);
    for i := 0 to |c.demands|
      invariant allocations == Joined(rows, i)
    {
      ghost var before := allocations;
      for j := 0 to |c.facilities|
        invariant allocations == before + RowShips(c, i, plan[i], j)
      {
        var units := plan[i][j];
        if units > 0 { allocations := allocations + [Shipment(c, i, j, units)]; }
      }
      if uncovered[i] != 0 { allocations := allocations + [Rest(c, i, uncovered[i])]; }
      assert allocations == before + rows[i];
    }
  }
}

/**
 What the planner reports about a network: service times and unit costs of a route,
 allocations, metrics, and the consistency checks made on a stored result.
 */
module Scenarios {
  import opened Basics
  import opened Rates

  datatype RouteStatus = Ready | Unreachable | Failed

  datatype RouteEntry = RouteEntry(originFacilityId: int, destinationDemandId: int,
                                   distanceMeters: Option<nat>, travelSeconds: Option<nat>, status: RouteStatus)

  datatype RouteMatrix = RouteMatrix(matrixId: int, snapshotId: int, entries: seq<RouteEntry>)

  datatype Snapshot = Snapshot(snapshotId: int, input: Input)

  /** Ready entries carry both measurements: the record is checked on its own. */
  predicate ValidMatrix(matrix: RouteMatrix) {
    forall k :: 0 <= k < |matrix.entries| && matrix.entries[k].status.Ready? ==>
      matrix.entries[k].distanceMeters.Some? && matrix.entries[k].travelSeconds.Some?
  }

  /** The last of the first `n` entries for the pair, as a dictionary built from them keeps. */
  function RouteUpTo(entries: seq<RouteEntry>, facilityId: int, demandId: int, n: nat): Option<RouteEntry>
    requires n <= |entries|
  {
    if n == 0 then None
    else if entries[n - 1].originFacilityId == facilityId
        && entries[n - 1].destinationDemandId == demandId then Some(entries[n - 1])
    else RouteUpTo(entries, facilityId, demandId, n - 1)
  }

  function RouteOf(entries: seq<RouteEntry>, facilityId: int, demandId: int): Option<RouteEntry> {
    RouteUpTo(entries, facilityId, demandId, |entries|)
  }

  ghost predicate Joins(entry: RouteEntry, facilityId: int, demandId: int) {
    entry.originFacilityId == facilityId && entry.destinationDemandId == demandId
  }

  /** `entry` is the last one for the pair among the first `n`. */
  ghost predicate IsLastFor(entries: seq<RouteEntry>, facilityId: int, demandId: int, n: nat, entry: RouteEntry)
    requires n <= |entries|
  {
    exists k :: 0 <= k < n && entries[k] == entry && Joins(entry, facilityId, demandId)
                && forall m :: k < m < n ==> !Joins(entries[m], facilityId, demandId)
  }

  ghost predicate NoneJoins(entries: seq<RouteEntry>, facilityId: int, demandId: int, n: nat)
    requires n <= |entries|
  {
    forall k :: 0 <= k < n ==> !Joins(entries[k], facilityId, demandId)
  }

  lemma {:induction false} RouteUpToIsLast(entries: seq<RouteEntry>, facilityId: int, demandId: int, n: nat,
                                           entry: RouteEntry)
    requires n <= |entries|
    ensures RouteUpTo(entries, facilityId, demandId, n) == Some(entry) <==>
              IsLastFor(entries, facilityId, demandId, n, entry)
    ensures RouteUpTo(entries, facilityId, demandId, n).None? <==> NoneJoins(entries, facilityId, demandId, n)
  {
    if n == 0 {
    } else {
      RouteUpToIsLast(entries, facilityId, demandId, n - 1, entry);
      var last := entries[n - 1];
      if Joins(last, facilityId, demandId) {
        assert IsLastFor(entries, facilityId, demandId, n, last);
        assert IsLastFor(entries, facilityId, demandId, n, entry) ==> entry == last;
      } else if k :| 0 <= k < n - 1 && entries[k] == entry && Joins(entry, facilityId, demandId)
                     && forall m :: k < m < n - 1 ==> !Joins(entries[m], facilityId, demandId) {
        assert IsLastFor(entries, facilityId, demandId, n, entry);
      }
    }
  }

  /** The entry the planner uses for a facility and a demand point. */
  ghost predicate IsRoute(matrix: RouteMatrix, facility: Facility, demand: DemandPoint, entry: RouteEntry) {
    IsLastFor(matrix.entries, facility.facilityId, demand.demandId, |matrix.entries|, entry)
  }

  /** The route of a pair is the last entry with exactly this origin and destination. */
  lemma RouteIsLast(matrix: RouteMatrix, facility: Facility, demand: DemandPoint, entry: RouteEntry)
    ensures RouteOf(matrix.entries, facility.facilityId, demand.demandId) == Some(entry) <==>
              IsRoute(matrix, facility, demand, entry)
    ensures RouteOf(matrix.entries, facility.facilityId, demand.demandId).None? <==>
              NoneJoins(matrix.entries, facility.facilityId, demand.demandId, |matrix.entries|)
  {
    RouteUpToIsLast(matrix.entries, facility.facilityId, demand.demandId, |matrix.entries|, entry);
  }

  // ----- Service time and unit cost -------------------------------------------

  function EndToEndSeconds(policy: ServicePolicy, facility: Facility, travel: nat): nat {
    policy.orderCutoffWaitSeconds + facility.handlingSeconds + travel + policy.lastMileBufferSeconds
  }

  /** Millionths per unit, the distance part rounded half up. */
  function UnitCostOver(facility: Facility, rate: TransportRate, meters: nat): nat {
    facility.handlingCostPerUnit + rate.baseCostPerUnit + (rate.costPerKmPerUnit * meters + 500) / 1000
  }

  /** `cost` is the one whole number of millionths nearest to the exact cost, ties upwards. */
  ghost predicate IsNearestCost(facility: Facility, rate: TransportRate, meters: nat, cost: int) {
    var exact := 1000 * (facility.handlingCostPerUnit + rate.baseCostPerUnit) + rate.costPerKmPerUnit * meters;
    1000 * cost - 500 <= exact < 1000 * cost + 500
  }

  lemma UnitCostIsNearest(facility: Facility, rate: TransportRate, meters: nat, cost: int)
    ensures cost == UnitCostOver(facility, rate, meters) <==> IsNearestCost(facility, rate, meters, cost)
  {
    var part := rate.costPerKmPerUnit * meters + 500;
    assert part == 1000 * (part / 1000) + part % 1000;
  }

  /** How a demand point is reached: the time from order to door, the distance and the rate. */
  datatype Leg = Leg(seconds: nat, meters: nat, rateId: int)

  /** What the route matrix says about serving a demand point from a facility; `Broken`
      where the planner would raise for want of a measurement or a rate. */
  datatype Service = NoRoute | NotReady | Broken | Timed(leg: Leg, unitCost: nat)

  function ServiceOf(snapshot: Snapshot, matrix: RouteMatrix, facility: Facility, demand: DemandPoint): Service {
    var route := RouteOf(matrix.entries, facility.facilityId, demand.demandId);
    if route.None? then NoRoute
    else if !route.value.status.Ready? then NotReady
    else
      var rate := ResolveRate(snapshot.input.rates, facility.facilityId, demand);
      if route.value.travelSeconds.None? || route.value.distanceMeters.None? || rate.None? then Broken
      else
        var seconds := EndToEndSeconds(snapshot.input.policy, facility, route.value.travelSeconds.value);
        var meters := route.value.distanceMeters.value;
        Timed(Leg(seconds, meters, rate.value.rateId), UnitCostOver(facility, rate.value, meters))
  }

  /** The unit cost when the demand point can be served in time. */
  function InTimeCost(snapshot: Snapshot, matrix: RouteMatrix, facility: Facility, demand: DemandPoint): Option<nat> {
    match ServiceOf(snapshot, matrix, facility, demand)
    case Timed(leg,
               unitCost) => if leg.seconds <= snapshot.input.policy.maxDeliverySeconds then Some(unitCost) else None
    case _ => None
  }

  /** The leg when the demand point can be served in time. */
  function InTimeLeg(snapshot: Snapshot, matrix: RouteMatrix, facility: Facility, demand: DemandPoint): Option<Leg> {
    match ServiceOf(snapshot, matrix, facility, demand)
    case Timed(leg, _) => if leg.seconds <= snapshot.input.policy.maxDeliverySeconds then Some(leg) else None
    case _ => None
  }

  // ----- What a service is, said of the matrix and the policy -----------------

  /** The matrix has a ready route for exactly this pair. */
  ghost predicate IsReady(matrix: RouteMatrix, facility: Facility, demand: DemandPoint, entry: RouteEntry) {
    && IsRoute(matrix, facility, demand, entry) && entry.status == Ready
    && entry.distanceMeters.Some? && entry.travelSeconds.Some?
  }

  /** Waiting for the cutoff, handling, travel and the last-mile buffer. */
  ghost predicate TakesTime(policy: ServicePolicy, facility: Facility, entry: RouteEntry, seconds: nat) {
    && entry.travelSeconds.Some?
    && seconds == policy.orderCutoffWaitSeconds + facility.handlingSeconds + entry.travelSeconds.value
                  + policy.lastMileBufferSeconds
  }

  /** The leg and unit cost of a ready route; on validated input at the rate for the demand
      point, else for its region, else the facility's default. */
  ghost predicate IsPriced(snapshot: Snapshot, facility: Facility, demand: DemandPoint, entry: RouteEntry, leg: Leg,
                           unitCost: int, rate: TransportRate) {
    && TakesTime(snapshot.input.policy, facility, entry, leg.seconds) && entry.distanceMeters == Some(leg.meters)
    && leg.rateId == rate.rateId && IsNearestCost(facility, rate, leg.meters, unitCost)
    && (Validated(snapshot.input) ==> IsChosen(snapshot.input.rates, facility.facilityId, demand, rate))
  }

  /** A service comes from a ready route and its price from the chosen rate. */
  lemma TimedMeans(snapshot: Snapshot, matrix: RouteMatrix, facility: Facility, demand: DemandPoint)
    returns (entry: RouteEntry, rate: TransportRate)
    requires facility in snapshot.input.facilities && demand in snapshot.input.demands
    requires ServiceOf(snapshot, matrix, facility, demand).Timed?
    ensures IsReady(matrix, facility, demand, entry)
    ensures var service := ServiceOf(snapshot, matrix, facility, demand);
            IsPriced(snapshot, facility, demand, entry, service.leg, service.unitCost, rate)
  {
    var service := ServiceOf(snapshot, matrix, facility, demand);
    entry := RouteOf(matrix.entries, facility.facilityId, demand.demandId).value;
    rate := ResolveRate(snapshot.input.rates, facility.facilityId, demand).value;
    RouteIsLast(matrix, facility, demand, entry);
    UnitCostIsNearest(facility, rate, service.leg.meters, service.unitCost);
    if Validated(snapshot.input) { ValidatedResolves(snapshot.input, facility, demand); }
  }

  /** A demand point has a service from a facility exactly when the matrix has a ready route. */
  lemma ReadyIsTimed(snapshot: Snapshot, matrix: RouteMatrix, facility: Facility, demand: DemandPoint,
                     entry: RouteEntry)
    returns (rate: TransportRate)
    requires Evaluable(snapshot, matrix) && facility in snapshot.input.facilities && demand in snapshot.input.demands
    requires IsReady(matrix, facility, demand, entry)
    ensures ServiceOf(snapshot, matrix, facility, demand).Timed?
    ensures var service := ServiceOf(snapshot, matrix, facility, demand);
            IsPriced(snapshot, facility, demand, entry, service.leg, service.unitCost, rate)
  {
    RouteIsLast(matrix, facility, demand, entry);
    assert !ServiceOf(snapshot, matrix, facility, demand).Broken?;
    var found;
    found, rate := TimedMeans(snapshot, matrix, facility, demand);
    RouteIsLast(matrix, facility, demand, found);
  }

  lemma NoRouteIffNone(snapshot: Snapshot, matrix: RouteMatrix, facility: Facility, demand: DemandPoint)
    ensures ServiceOf(snapshot, matrix, facility, demand).NoRoute? <==>
              NoneJoins(matrix.entries, facility.facilityId, demand.demandId, |matrix.entries|)
  {
    var any := RouteEntry(0, 0, None, None, Failed);
    RouteIsLast(matrix, facility, demand, any);
  }

  /** The matrix has a ready route for the pair that keeps the delivery promise. */
  ghost predicate InTime(snapshot: Snapshot, matrix: RouteMatrix, facility: Facility, demand: DemandPoint,
                         entry: RouteEntry) {
    && IsReady(matrix, facility, demand, entry)
    && var policy := snapshot.input.policy;
    policy.orderCutoffWaitSeconds + facility.handlingSeconds + entry.travelSeconds.value + policy.lastMileBufferSeconds
    <= policy.maxDeliverySeconds
  }

  /** A pair is in time exactly when its route is. */
  lemma InTimeIffRoute(snapshot: Snapshot, matrix: RouteMatrix, facility: Facility, demand: DemandPoint)
    requires Evaluable(snapshot, matrix) && facility in snapshot.input.facilities && demand in snapshot.input.demands
    ensures InTimeCost(snapshot, matrix, facility, demand).Some? <==>
              exists entry :: InTime(snapshot, matrix, facility, demand, entry)
  {
    if InTimeCost(snapshot, matrix, facility, demand).Some? {
      var entry, rate := TimedMeans(snapshot, matrix, facility, demand);
      assert InTime(snapshot, matrix, facility, demand, entry);
    }
    if entry :| InTime(snapshot, matrix, facility, demand, entry) {
      var rate := ReadyIsTimed(snapshot, matrix, facility, demand, entry);
    }
  }

  /** What the evaluations rely on. */
  ghost predicate Evaluable(snapshot: Snapshot, matrix: RouteMatrix) {
    && Distinct(DemandIds(snapshot.input.demands)) && Distinct(FacilityIds(snapshot.input.facilities))
    && forall f, d :: f in snapshot.input.facilities && d in snapshot.input.demands ==>
      !ServiceOf(snapshot, matrix, f, d).Broken?
  }

  /** Validated inputs and route entries never make an evaluation raise. */
  lemma ValidatedIsEvaluable(snapshot: Snapshot, matrix: RouteMatrix)
    requires Validated(snapshot.input) && ValidMatrix(matrix)
    ensures Evaluable(snapshot, matrix)
  {
    ValidatedIdsDistinct(snapshot.input);
    forall f, d | f in snapshot.input.facilities && d in snapshot.input.demands
      ensures !ServiceOf(snapshot, matrix, f, d).Broken?
    {
      ValidatedResolves(snapshot.input, f, d);
      var route := RouteOf(matrix.entries, f.facilityId, d.demandId);
      if route.Some? { RouteIsLast(matrix, f, d, route.value); }
    }
  }

  // ----- Sorting by identifier ------------------------------------------------

  function InsertBy<T>(x: T, s: seq<T>, key: T -> int): seq<T> {
    if s == [] then [x]
    else if key(x) <= key(s[0]) then [x] + s
    else [s[0]] + InsertBy(x, s[1..], key)
  }

  function SortBy<T>(s: seq<T>, key: T -> int): seq<T> {
    if s == [] then [] else InsertBy(s[0], SortBy(s[1..], key), key)
  }

  ghost predicate SortedBy<T>(s: seq<T>, key: T -> int) {
    forall i, j :: 0 <= i < j < |s| ==> key(s[i]) <= key(s[j])
  }

  lemma {:induction false} InsertByKeeps<T>(x: T, s: seq<T>, key: T -> int)
    ensures multiset(InsertBy(x, s, key)) == multiset(s) + multiset{x}
  {
    if s == [] {
    } else {
      assert s == [s[0]] + s[1..];
      if key(x) > key(s[0]) { InsertByKeeps(x, s[1..], key); }
    }
  }

  lemma {:induction false} InsertBySorts<T>(x: T, s: seq<T>, key: T -> int)
    requires SortedBy(s, key)
    ensures SortedBy(InsertBy(x, s, key), key)
  {
    if s != [] && key(x) > key(s[0]) {
      var t := s[1..];
      InsertBySorts(x, t, key);
      InsertByKeeps(x, t, key);
      var r := InsertBy(x, t, key);
      forall k | 0 <= k < |r|
        ensures key(s[0]) <= key(r[k])
      {
        assert r[k] in multiset(r);
        assert r[k] == x || r[k] in t;
      }
    }
  }

  lemma {:induction false} SortBySorts<T>(s: seq<T>, key: T -> int)
    ensures SortedBy(SortBy(s, key), key)
    ensures multiset(SortBy(s, key)) == multiset(s)
  {
    if s == [] {
    } else {
      SortBySorts(s[1..], key);
      InsertBySorts(s[0], SortBy(s[1..], key), key);
      InsertByKeeps(s[0], SortBy(s[1..], key), key);
      assert s == [s[0]] + s[1..];
    }
  }

  lemma SortByMembers<T>(s: seq<T>, key: T -> int)
    ensures |SortBy(s, key)| == |s|
    ensures forall x :: x in SortBy(s, key) <==> x in s
  {
    SortBySorts(s, key);
    var r := SortBy(s, key);
    assert |multiset(r)| == |r| && |multiset(s)| == |s|;
    assert forall x :: x in r <==> x in multiset(r);
    assert forall x :: x in s <==> x in multiset(s);
  }

  ghost predicate StrictlySortedBy<T>(s: seq<T>, key: T -> int) {
    forall i, j :: 0 <= i < j < |s| ==> key(s[i]) < key(s[j])
  }

  lemma {:induction false} InsertByStrict<T>(x: T, s: seq<T>, key: T -> int)
    requires StrictlySortedBy(s, key) && forall k :: 0 <= k < |s| ==> key(s[k]) != key(x)
    ensures StrictlySortedBy(InsertBy(x, s, key), key)
  {
    if s != [] && key(x) > key(s[0]) {
      var t := s[1..];
      InsertByStrict(x, t, key);
      InsertByKeeps(x, t, key);
      var r := InsertBy(x, t, key);
      forall k | 0 <= k < |r|
        ensures key(s[0]) < key(r[k])
      {
        assert r[k] in multiset(r);
        assert r[k] == x || r[k] in t;
      }
    }
  }

  /** Distinct keys come out strictly increasing. */
  lemma {:induction false} SortByStrict<T>(s: seq<T>, key: T -> int)
    requires forall i, j :: 0 <= i < j < |s| ==> key(s[i]) != key(s[j])
    ensures StrictlySortedBy(SortBy(s, key), key)
  {
    if s == [] {
    } else {
      var t := s[1..];
      SortByStrict(t, key);
      SortBySorts(t, key);
      var r := SortBy(t, key);
      forall k | 0 <= k < |r|
        ensures key(r[k]) != key(s[0])
      {
        assert r[k] in multiset(r);
        assert r[k] in t;
      }
      InsertByStrict(s[0], r, key);
    }
  }

  function DemandKey(demand: DemandPoint): int { demand.demandId }

  function FacilityKey(facility: Facility): int { facility.facilityId }

  function IdKey(id: int): int { id }

  // ----- Allocations ----------------------------------------------------------

  datatype Reason =
    | NoReason | MissingAssignment | FacilityNotActive | RouteUnavailable | ServiceLevelExceeded | NoEligibleCapacity

  datatype Allocation = Allocation(demandId: int, facilityId: Option<int>, units: int, covered: bool,
                                   leg: Option<Leg>, variableCost: int, reason: Reason)

  datatype Pick = All | CoveredOnly | ForDemand(demandId: int) | AtFacility(facilityId: int)

  predicate Picks(pick: Pick, a: Allocation) {
    match pick
    case All => true
    case CoveredOnly => a.covered
    case ForDemand(id) => a.demandId == id
    case AtFacility(id) => a.facilityId == Some(id)
  }

  /** The units of the first `n` allocations, counting those that `pick` selects. */
  function UnitsUpTo(allocations: seq<Allocation>, pick: Pick, n: nat): int
    requires n <= |allocations|
  {
    if n == 0 then 0
    else UnitsUpTo(allocations, pick, n - 1) + (if Picks(pick, allocations[n - 1]) then allocations[n - 1].units else 0)
  }

  function Units(allocations: seq<Allocation>, pick: Pick): int {
    UnitsUpTo(allocations, pick, |allocations|)
  }

  function ChargesUpTo(allocations: seq<Allocation>, n: nat): int
    requires n <= |allocations|
  {
    if n == 0 then 0 else ChargesUpTo(allocations, n - 1) + allocations[n - 1].variableCost
  }

  function Charges(allocations: seq<Allocation>): int {
    ChargesUpTo(allocations, |allocations|)
  }

  lemma {:induction false} SumsOfPrefix(a: seq<Allocation>, b: seq<Allocation>, pick: Pick, n: nat)
    requires n <= |a|
    ensures UnitsUpTo(a + b, pick, n) == UnitsUpTo(a, pick, n) && ChargesUpTo(a + b, n) == ChargesUpTo(a, n)
  {
    if n == 0 {
    } else {
      SumsOfPrefix(a, b, pick, n - 1);
    }
  }

  lemma {:induction false} SumsOfSuffix(a: seq<Allocation>, b: seq<Allocation>, pick: Pick, n: nat)
    requires n <= |b|
    ensures UnitsUpTo(a + b, pick, |a| + n) == Units(a, pick) + UnitsUpTo(b, pick, n)
    ensures ChargesUpTo(a + b, |a| + n) == Charges(a) + ChargesUpTo(b, n)
  {
    if n == 0 {
      SumsOfPrefix(a, b, pick, |a|);
    } else {
      SumsOfSuffix(a, b, pick, n - 1);
    }
  }

  lemma SumsConcat(a: seq<Allocation>, b: seq<Allocation>, pick: Pick)
    ensures Units(a + b, pick) == Units(a, pick) + Units(b, pick)
    ensures Charges(a + b) == Charges(a) + Charges(b)
  {
    SumsOfSuffix(a, b, pick, |b|);
  }

  lemma Appended(s: seq<Allocation>, a: Allocation, pick: Pick)
    ensures Units(s + [a], pick) == Units(s, pick) + (if Picks(pick, a) then a.units else 0)
    ensures Charges(s + [a]) == Charges(s) + a.variableCost
  {
    SumsOfPrefix(s, [a], pick, |s|);
    assert |s + [a]| == |s| + 1 && (s + [a])[|s|] == a;
  }

  /** The first `i` lists, joined. */
  function Joined(lists: seq<seq<Allocation>>, i: nat): seq<Allocation>
    requires i <= |lists|
  {
    if i == 0 then [] else Joined(lists, i - 1) + lists[i - 1]
  }

  ghost function UnitsOver(lists: seq<seq<Allocation>>, pick: Pick, i: nat): int
    requires i <= |lists|
  {
    if i == 0 then 0 else UnitsOver(lists, pick, i - 1) + Units(lists[i - 1], pick)
  }

  ghost function ChargesOver(lists: seq<seq<Allocation>>, i: nat): int
    requires i <= |lists|
  {
    if i == 0 then 0 else ChargesOver(lists, i - 1) + Charges(lists[i - 1])
  }

  lemma {:induction false} JoinedSums(lists: seq<seq<Allocation>>, pick: Pick, i: nat)
    requires i <= |lists|
    ensures Units(Joined(lists, i), pick) == UnitsOver(lists, pick, i)
    ensures Charges(Joined(lists, i)) == ChargesOver(lists, i)
  {
    if i == 0 {
    } else {
      JoinedSums(lists, pick, i - 1);
      SumsConcat(Joined(lists, i - 1), lists[i - 1], pick);
    }
  }

  /** When one list alone holds what `pick` selects, it holds all of it. */
  lemma {:induction false} UnitsOverSingle(lists: seq<seq<Allocation>>, pick: Pick, i: nat, r: nat)
    requires i <= |lists| && r < |lists|
    requires forall k :: 0 <= k < |lists| && k != r ==> Units(lists[k], pick) == 0
    ensures UnitsOver(lists, pick, i) == if r < i then Units(lists[r], pick) else 0
  {
    if i == 0 {
    } else {
      UnitsOverSingle(lists, pick, i - 1, r);
    }
  }

  function DemandUnits(demands: seq<DemandPoint>): nat {
    if demands == [] then 0 else demands[0].units + DemandUnits(demands[1..])
  }

  lemma {:induction false} InsertedUnits(d: DemandPoint, s: seq<DemandPoint>)
    ensures DemandUnits(InsertBy(d, s, DemandKey)) == d.units + DemandUnits(s)
  {
    if s != [] {
      if DemandKey(d) <= DemandKey(s[0]) {
        assert ([d] + s)[1..] == s;
      } else {
        InsertedUnits(d, s[1..]);
        assert ([s[0]] + InsertBy(d, s[1..], DemandKey))[1..] == InsertBy(d, s[1..], DemandKey);
      }
    } else {
      assert [d][1..] == [];
    }
  }

  lemma {:induction false} SortedUnits(s: seq<DemandPoint>)
    ensures DemandUnits(SortBy(s, DemandKey)) == DemandUnits(s)
  {
    if s == [] {
    } else {
      SortedUnits(s[1..]);
      InsertedUnits(s[0], SortBy(s[1..], DemandKey));
    }
  }

  // ----- Metrics and results --------------------------------------------------

  datatype Metrics = Metrics(totalUnits: int, coveredUnits: int, uncoveredUnits: int, coverageRatio: real,
                             fixedCost: int, variableCost: int, totalCost: int, activeFacilities: nat)

  function FixedCosts(facilities: seq<Facility>): nat {
    if facilities == [] then 0 else facilities[0].fixedCost + FixedCosts(facilities[1..])
  }

  /** The fixed costs of those of the first `n` facilities whose identifiers are listed. */
  ghost function OpenCosts(facilities: seq<Facility>, ids: seq<int>, n: nat): nat
    requires n <= |facilities|
  {
    if n == 0 then 0
    else if facilities[n - 1].facilityId in ids then OpenCosts(facilities, ids, n - 1) + facilities[n - 1].fixedCost
    else OpenCosts(facilities, ids, n - 1)
  }

  lemma {:induction false} FixedCostsWithout(s: seq<Facility>, k: nat)
    requires k < |s|
    ensures FixedCosts(s) == s[k].fixedCost + FixedCosts(s[..k] + s[k + 1..])
  {
    if k == 0 {
      assert s[..0] + s[1..] == s[1..];
    } else {
      FixedCostsWithout(s[1..], k - 1);
      var rest := s[..k] + s[k + 1..];
      assert s[1..][..k - 1] + s[1..][k..] == rest[1..];
    }
  }

  /** Fixed costs of these facilities, wherever else the list of all facilities holds more. */
  lemma {:induction false} FixedCostsAreOpen(facilities: seq<Facility>, open: seq<Facility>, n: nat)
    requires n <= |facilities| && Distinct(FacilityIds(facilities)) && Distinct(FacilityIds(open))
    requires forall k :: 0 <= k < |open| ==> open[k] in facilities[..n]
    ensures FixedCosts(open) == OpenCosts(facilities, FacilityIds(open), n)
  {
    if n == 0 {
      if open != [] { assert false; }
    } else {
      var last, ids := facilities[n - 1], FacilityIds(open);
      assert facilities[..n] == facilities[..n - 1] + [last];
      if last in open {
        var k :| 0 <= k < |open| && open[k] == last;
        var rest := open[..k] + open[k + 1..];
        FixedCostsWithout(open, k);
        RestIsOpen(facilities, open, n, k);
        FixedCostsAreOpen(facilities, rest, n - 1);
        SameOpenCosts(facilities, ids, FacilityIds(rest), n - 1);
        assert ids[k] == last.facilityId;
      } else {
        LastIsClosed(facilities, open, n);
        FixedCostsAreOpen(facilities, open, n - 1);
      }
    }
  }

  /** Dropping one of different elements drops just that one. */
  lemma DropOne<T>(s: seq<T>, k: nat)
    requires k < |s| && Distinct(s)
    ensures var rest := s[..k] + s[k + 1..];
            Distinct(rest) && forall x :: x in rest <==> x in s && x != s[k]
  {
    var rest := s[..k] + s[k + 1..];
    forall x | x in s && x != s[k] ensures x in rest {
      var m :| 0 <= m < |s| && s[m] == x;
      assert rest[if m < k then m else m - 1] == x;
    }
    forall x | x in rest ensures x in s && x != s[k] {
      var r :| 0 <= r < |rest| && rest[r] == x;
      assert s[if r < k then r else r + 1] == x;
    }
  }

  lemma IdsOfRest(open: seq<Facility>, k: nat)
    requires k < |open| && Distinct(FacilityIds(open))
    ensures Distinct(open)
    ensures FacilityIds(open[..k] + open[k + 1..]) == FacilityIds(open)[..k] + FacilityIds(open)[k + 1..]
  {
    var ids := FacilityIds(open);
    forall i, j | 0 <= i < j < |open| ensures open[i] != open[j] { assert ids[i] != ids[j]; }
  }

  /** Without its `k`-th member, which is the last facility, the open ones come earlier. */
  lemma RestIsOpen(facilities: seq<Facility>, open: seq<Facility>, n: nat, k: nat)
    requires 0 < n <= |facilities| && k < |open| && open[k] == facilities[n - 1]
    requires Distinct(FacilityIds(facilities)) && Distinct(FacilityIds(open))
    requires forall k :: 0 <= k < |open| ==> open[k] in facilities[..n]
    ensures var rest := open[..k] + open[k + 1..];
            && Distinct(FacilityIds(rest)) && (forall k :: 0 <= k < |rest| ==> rest[k] in facilities[..n - 1])
            && forall i :: 0 <= i < n - 1 ==>
                 (facilities[i].facilityId in FacilityIds(open) <==> facilities[i].facilityId in FacilityIds(rest))
  {
    var rest, all := open[..k] + open[k + 1..], FacilityIds(facilities);
    IdsOfRest(open, k);
    DropOne(open, k);
    DropOne(FacilityIds(open), k);
    assert facilities[..n] == facilities[..n - 1] + [facilities[n - 1]];
    forall r | 0 <= r < |rest| ensures rest[r] in facilities[..n - 1] {
      assert rest[r] in rest;
      var m :| 0 <= m < |open| && open[m] == rest[r];
    }
    forall i | 0 <= i < n - 1 ensures all[i] != all[n - 1] {}
  }

  lemma {:induction false} SameOpenCosts(facilities: seq<Facility>, a: seq<int>, b: seq<int>, n: nat)
    requires n <= |facilities|
    requires forall i :: 0 <= i < n ==> (facilities[i].facilityId in a <==> facilities[i].facilityId in b)
    ensures OpenCosts(facilities, a, n) == OpenCosts(facilities, b, n)
  {
    if n == 0 {
    } else {
      SameOpenCosts(facilities, a, b, n - 1);
    }
  }

  lemma LastIsClosed(facilities: seq<Facility>, open: seq<Facility>, n: nat)
    requires 0 < n <= |facilities| && facilities[n - 1] !in open && Distinct(FacilityIds(facilities))
    requires forall k :: 0 <= k < |open| ==> open[k] in facilities[..n]
    ensures facilities[n - 1].facilityId !in FacilityIds(open)
    ensures forall k :: 0 <= k < |open| ==> open[k] in facilities[..n - 1]
  {
    var ids, all := FacilityIds(open), FacilityIds(facilities);
    forall k | 0 <= k < |open|
      ensures ids[k] != all[n - 1] && open[k] in facilities[..n - 1]
    {
      assert open[k] in facilities[..n] && open[k] in open;
      var i :| 0 <= i < n && facilities[i] == open[k];
      assert all[i] != all[n - 1];
      assert facilities[..n - 1][i] == open[k];
    }
  }

  function Ratio(part: int, whole: int): real {
    if whole == 0 then 0.0 else part as real / whole as real
  }

  function MetricsOf(demands: seq<DemandPoint>, facilities: seq<Facility>, allocations: seq<Allocation>): Metrics {
    var total := DemandUnits(demands);
    var covered := Units(allocations, CoveredOnly);
    Metrics(total, covered, if total - covered > 0 then total - covered else 0, Ratio(covered, total),
            FixedCosts(facilities), Charges(allocations), FixedCosts(facilities) + Charges(allocations), |facilities|)
  }

  datatype Mode = CurrentAssignment | Optimized

  datatype Issue =
    | NoCurrentFacility(demandId: int)
    | CurrentFacilityNotExisting(demandId: int, facilityId: int)
    | CurrentRouteUnavailable(demandId: int, facilityId: int)
    | CapacityExceeded(facilityId: int, used: int, capacity: int)
    | MissingRoute(facilityId: int, demandId: int)

  datatype ScenarioResult = ScenarioResult(snapshotId: int, matrixId: int, mode: Mode, activeFacilityIds: seq<int>,
                                           metrics: Metrics, allocations: seq<Allocation>, issues: seq<Issue>)

  datatype ScenarioError = UnitsMismatch | CoveredMismatch | RatioMismatch

  /** Equal up to the tolerance of the checks. */
  predicate Close(a: real, b: real) { -0.000000000001 <= a - b <= 0.000000000001 }

  /** The scenario checks on a stored result. */
  method ValidateScenario(value: ScenarioResult) returns (errors: seq<ScenarioError>)
    ensures UnitsMismatch in errors <==> Units(value.allocations, All) != value.metrics.totalUnits
    ensures CoveredMismatch in errors <==> Units(value.allocations, CoveredOnly) != value.metrics.coveredUnits
    ensures RatioMismatch in errors <==>
              var expected := Ratio(Units(value.allocations, CoveredOnly), value.metrics.totalUnits);
              !Close(expected, value.metrics.coverageRatio)
    ensures errors == [] || UnitsMismatch in errors || CoveredMismatch in errors || RatioMismatch in errors
  {
    errors := [];
    if Units(value.allocations, All) != value.metrics.totalUnits {
      errors := errors + [UnitsMismatch];
    }
    var covered := Units(value.allocations, CoveredOnly);
    if covered != value.metrics.coveredUnits {
      errors := errors + [CoveredMismatch];
    }
    var expected := Ratio(covered, value.metrics.totalUnits);
    if !Close(expected, value.metrics.coverageRatio) {
      errors := errors + [RatioMismatch];
    }
  }

  /** A result whose allocations account for the demand exactly: the scenario checks
      accept it, and clipping uncovered units at zero changes nothing. */
  ghost predicate Consistent(demands: seq<DemandPoint>, value: ScenarioResult) {
    && Units(value.allocations, All) == value.metrics.totalUnits == DemandUnits(demands)
    && Units(value.allocations, CoveredOnly) == value.metrics.coveredUnits
    && 0 <= value.metrics.coveredUnits <= value.metrics.totalUnits
    && value.metrics.uncoveredUnits == value.metrics.totalUnits - value.metrics.coveredUnits
    && value.metrics.coverageRatio == Ratio(value.metrics.coveredUnits, value.metrics.totalUnits)
    && value.metrics.variableCost == Charges(value.allocations)
    && value.metrics.totalCost == value.metrics.fixedCost + value.metrics.variableCost
    && (forall d :: d in demands ==> Units(value.allocations, ForDemand(d.demandId)) == d.units)
  }

  /** The fixed cost is that of exactly these facilities, each counted once. */
  ghost predicate ChargesFixedCosts(facilities: seq<Facility>, value: ScenarioResult) {
    && value.metrics.fixedCost == OpenCosts(facilities, value.activeFacilityIds, |facilities|)
    && value.metrics.activeFacilities == |value.activeFacilityIds|
  }

  /** The ratio times the whole is the part; of nothing it is zero. */
  lemma RatioTimesWhole(part: int, whole: int)
    ensures whole != 0 ==> Ratio(part, whole) * whole as real == part as real
    ensures whole == 0 ==> Ratio(part, whole) == 0.0
  {
  }
}

/**
 Network inputs of the planner: their reference checks, and the choice of the
 transport rate for a facility and a demand point.

 Identifiers and regions are integers here: the planner only compares them for
 equality and order.  Money is in millionths of a currency unit.
 */
module Rates {
  import opened Basics

  datatype ServicePolicy = ServicePolicy(maxDeliverySeconds: nat, orderCutoffWaitSeconds: nat,
                                         lastMileBufferSeconds: nat)

  datatype DemandPoint = DemandPoint(demandId: int, units: nat, region: Option<int>, currentFacilityId: Option<int>)

  datatype Facility = Facility(facilityId: int, capacityUnits: nat, isExisting: bool, handlingSeconds: nat,
                               fixedCost: nat, handlingCostPerUnit: nat)

  datatype TransportRate = TransportRate(rateId: int, originFacilityId: int, destinationDemandId: Option<int>,
                                         destinationRegion: Option<int>, baseCostPerUnit: nat, costPerKmPerUnit: nat)

  datatype Input = Input(policy: ServicePolicy, demands: seq<DemandPoint>, facilities: seq<Facility>,
                         rates: seq<TransportRate>)

  /** A rate selects a demand point, a region or everything: its record is checked on its own. */
  predicate OneSelector(rate: TransportRate) {
    rate.destinationDemandId.None? || rate.destinationRegion.None?
  }

  predicate Applies(rate: TransportRate, facilityId: int, demand: DemandPoint) {
    && rate.originFacilityId == facilityId
    && (|| rate.destinationDemandId == Some(demand.demandId)
        || (rate.destinationDemandId.None? && rate.destinationRegion == demand.region)
        || (rate.destinationDemandId.None? && rate.destinationRegion.None?))
  }

  /** The order of the pair (selects a demand, selects a region). */
  function Specificity(rate: TransportRate): nat {
    (if rate.destinationDemandId.Some? then 2 else 0) + (if rate.destinationRegion.Some? then 1 else 0)
  }

  /** The first of the most specific applicable rates among the first `n`. */
  function BestRate(rates: seq<TransportRate>, facilityId: int, demand: DemandPoint, n: nat): Option<TransportRate>
    requires n <= |rates|
  {
    if n == 0 then None
    else
      var best, rate := BestRate(rates, facilityId, demand, n - 1), rates[n - 1];
      if !Applies(rate, facilityId, demand) then best
      else if best.None? || Specificity(rate) > Specificity(best.value) then Some(rate)
      else best
  }

  function ResolveRate(rates: seq<TransportRate>, facilityId: int, demand: DemandPoint): Option<TransportRate> {
    BestRate(rates, facilityId, demand, |rates|)
  }

  // ----- Reference checks -----------------------------------------------------

  datatype Selector = ByDemand(origin: int, demandId: int) | ByRegion(origin: int, region: int) | Default(origin: int)

  function SelectorOf(rate: TransportRate): Selector {
    if rate.destinationDemandId.Some? then ByDemand(rate.originFacilityId, rate.destinationDemandId.value)
    else if rate.destinationRegion.Some? then ByRegion(rate.originFacilityId, rate.destinationRegion.value)
    else Default(rate.originFacilityId)
  }

  function Elements<T(==)>(s: seq<T>): set<T> { set x | x in s }

  /** A list is free of duplicates when its set is as large as it is. */
  lemma {:induction false} DistinctIffFullSet<T>(s: seq<T>)
    ensures |Elements(s)| <= |s|
    ensures |Elements(s)| == |s| <==> Distinct(s)
  {
    if s == [] {
      assert Elements(s) == {};
    } else {
      var t, x := s[..|s| - 1], s[|s| - 1];
      DistinctIffFullSet(t);
      assert s == t + [x];
      assert Elements(s) == Elements(t) + {x};
      if x in t {
        assert Elements(s) == Elements(t);
        var i :| 0 <= i < |t| && t[i] == x;
        assert s[i] == s[|s| - 1];
      } else {
        assert forall i, j :: 0 <= i < j < |t| ==> s[i] == t[i] && s[j] == t[j];
        assert Distinct(s) <==> Distinct(t) by {
          if Distinct(t) {
            forall i, j | 0 <= i < j < |s| ensures s[i] != s[j] { assert s[i] == t[i]; }
          }
          if Distinct(s) {
            forall i, j | 0 <= i < j < |t| ensures t[i] != t[j] { assert s[i] == t[i] && s[j] == t[j]; }
          }
        }
      }
    }
  }

  function DemandIds(demands: seq<DemandPoint>): (ids: seq<int>)
    ensures |ids| == |demands| && forall i :: 0 <= i < |ids| ==> ids[i] == demands[i].demandId
  {
    seq(|demands|, i requires 0 <= i < |demands| => demands[i].demandId)
  }

  function FacilityIds(facilities: seq<Facility>): (ids: seq<int>)
    ensures |ids| == |facilities| && forall i :: 0 <= i < |ids| ==> ids[i] == facilities[i].facilityId
  {
    seq(|facilities|, i requires 0 <= i < |facilities| => facilities[i].facilityId)
  }

  function RateIds(rates: seq<TransportRate>): (ids: seq<int>)
    ensures |ids| == |rates| && forall i :: 0 <= i < |ids| ==> ids[i] == rates[i].rateId
  {
    seq(|rates|, i requires 0 <= i < |rates| => rates[i].rateId)
  }

  function Regions(demands: seq<DemandPoint>): set<int> {
    set d | d in demands && d.region.Some? :: d.region.value
  }

  predicate RateReferences(input: Input, rate: TransportRate) {
    && rate.originFacilityId in FacilityIds(input.facilities)
    && (rate.destinationDemandId.Some? ==> rate.destinationDemandId.value in DemandIds(input.demands))
    && (rate.destinationRegion.Some? ==> rate.destinationRegion.value in Regions(input.demands))
  }

  predicate HasRate(rates: seq<TransportRate>, facilityId: int, demand: DemandPoint) {
    exists k :: 0 <= k < |rates| && Applies(rates[k], facilityId, demand)
  }

  // What a network input must satisfy, said of its fields.

  ghost predicate IdsDiffer(input: Input) {
    && (forall i, j :: 0 <= i < j < |input.demands| ==> input.demands[i].demandId != input.demands[j].demandId)
    && (forall i, j :: 0 <= i < j < |input.facilities| ==>
          input.facilities[i].facilityId != input.facilities[j].facilityId)
    && (forall i, j :: 0 <= i < j < |input.rates| ==> input.rates[i].rateId != input.rates[j].rateId)
  }

  ghost predicate HasFacility(input: Input, id: int) { exists f :: f in input.facilities && f.facilityId == id }

  ghost predicate AssignmentsKnown(input: Input) {
    forall d :: d in input.demands && d.currentFacilityId.Some? ==> HasFacility(input, d.currentFacilityId.value)
  }

  ghost predicate RateKnown(input: Input, rate: TransportRate) {
    && HasFacility(input, rate.originFacilityId)
    && (rate.destinationDemandId.Some? ==>
          exists d :: d in input.demands && d.demandId == rate.destinationDemandId.value)
    && (rate.destinationRegion.Some? ==> exists d :: d in input.demands && d.region == rate.destinationRegion)
  }

  ghost predicate RatesKnown(input: Input) { forall rate :: rate in input.rates ==> RateKnown(input, rate) }

  /** Rates of one facility for one demand point, for one region, or for everything. */
  ghost predicate SameSelector(a: TransportRate, b: TransportRate) {
    && a.originFacilityId == b.originFacilityId && a.destinationDemandId == b.destinationDemandId
    && (a.destinationDemandId.None? ==> a.destinationRegion == b.destinationRegion)
  }

  ghost predicate SelectorsDiffer(rates: seq<TransportRate>) {
    forall k, m :: 0 <= k < m < |rates| ==> !SameSelector(rates[k], rates[m])
  }

  /** The rate is for this demand point, for its region, or for everything. */
  ghost predicate IsFor(rate: TransportRate, facilityId: int, demand: DemandPoint) {
    && rate.originFacilityId == facilityId
    && match rate.destinationDemandId
       case Some(id) => id == demand.demandId
       case None => rate.destinationRegion.None? || rate.destinationRegion == demand.region
  }

  ghost predicate AllPriced(input: Input) {
    forall d, f :: d in input.demands && f in input.facilities ==>
      exists rate :: rate in input.rates && IsFor(rate, f.facilityId, d)
  }

  ghost predicate WellReferenced(input: Input) {
    IdsDiffer(input) && AssignmentsKnown(input) && RatesKnown(input) && SelectorsDiffer(input.rates) && AllPriced(input)
  }

  datatype ReferenceError =
    | DuplicateIdentifier | UnknownCurrentFacility | UnknownReference | AmbiguousRates | MissingRate

  lemma FacilityIsListed(input: Input, id: int)
    ensures id in FacilityIds(input.facilities) <==> HasFacility(input, id)
  {
    var ids := FacilityIds(input.facilities);
    if id in ids {
      var k :| 0 <= k < |ids| && ids[k] == id;
      assert input.facilities[k] in input.facilities;
    }
    if f :| f in input.facilities && f.facilityId == id {
      var k :| 0 <= k < |input.facilities| && input.facilities[k] == f;
      assert ids[k] == id;
    }
  }

  lemma DemandIsListed(input: Input, id: int)
    ensures id in DemandIds(input.demands) <==> exists d :: d in input.demands && d.demandId == id
  {
    var ids := DemandIds(input.demands);
    if id in ids {
      var k :| 0 <= k < |ids| && ids[k] == id;
      assert input.demands[k] in input.demands;
    }
    if d :| d in input.demands && d.demandId == id {
      var k :| 0 <= k < |input.demands| && input.demands[k] == d;
      assert ids[k] == id;
    }
  }

  lemma ReferencesAreKnown(input: Input, rate: TransportRate)
    ensures RateReferences(input, rate) <==> RateKnown(input, rate)
  {
    FacilityIsListed(input, rate.originFacilityId);
    if rate.destinationDemandId.Some? { DemandIsListed(input, rate.destinationDemandId.value); }
  }

  lemma IdsDifferIffFullSets(input: Input)
    ensures IdsDiffer(input) <==>
              && |Elements(DemandIds(input.demands))| == |input.demands|
              && |Elements(FacilityIds(input.facilities))| == |input.facilities|
              && |Elements(RateIds(input.rates))| == |input.rates|
  {
    var a, b, c := DemandIds(input.demands), FacilityIds(input.facilities), RateIds(input.rates);
    DistinctIffFullSet(a);
    DistinctIffFullSet(b);
    DistinctIffFullSet(c);
    if Distinct(a) && Distinct(b) && Distinct(c) {
      assert forall i, j :: 0 <= i < j < |a| ==> a[i] != a[j];
      assert forall i, j :: 0 <= i < j < |b| ==> b[i] != b[j];
      assert forall i, j :: 0 <= i < j < |c| ==> c[i] != c[j];
    }
  }

  method CheckCurrentFacilities(input: Input) returns (ok: bool)
    ensures ok <==> AssignmentsKnown(input)
  {
    for k := 0 to |input.demands|
      invariant forall j :: 0 <= j < k && input.demands[j].currentFacilityId.Some? ==>
                  HasFacility(input, input.demands[j].currentFacilityId.value)
    {
      var demand := input.demands[k];
      if demand.currentFacilityId.Some? {
        FacilityIsListed(input, demand.currentFacilityId.value);
        if demand.currentFacilityId.value !in FacilityIds(input.facilities) {
          assert demand in input.demands;
          return false;
        }
      }
    }
    return true;
  }

  /** The first rate that refers to something unknown, or repeats an earlier selector, decides. */
  method CheckRates(input: Input) returns (error: Option<ReferenceError>)
    ensures error.None? <==> RatesKnown(input) && SelectorsDiffer(input.rates)
    ensures error.Some? ==> error.value in {UnknownReference, AmbiguousRates}
    ensures error == Some(UnknownReference) ==> !RatesKnown(input)
    ensures error == Some(AmbiguousRates) ==> !SelectorsDiffer(input.rates)
  {
    var selectors: set<Selector> := {};
    for k := 0 to |input.rates|
      invariant selectors == set j | 0 <= j < k :: SelectorOf(input.rates[j])
      invariant forall j :: 0 <= j < k ==> RateKnown(input, input.rates[j])
      invariant forall j, m :: 0 <= j < m < k ==> !SameSelector(input.rates[j], input.rates[m])
    {
      var rate := input.rates[k];
      ReferencesAreKnown(input, rate);
      if !RateReferences(input, rate) {
        assert rate in input.rates;
        return Some(UnknownReference);
      }
      var selector := SelectorOf(rate);
      if selector in selectors {
        ghost var j :| 0 <= j < k && SelectorOf(input.rates[j]) == selector;
        assert SameSelector(input.rates[j], input.rates[k]);
        return Some(AmbiguousRates);
      }
      selectors := selectors + {selector};
    }
    return None;
  }

  lemma PricedIffHasRate(input: Input, facilityId: int, demand: DemandPoint)
    ensures HasRate(input.rates, facilityId, demand) <==>
              exists rate :: rate in input.rates && IsFor(rate, facilityId, demand)
  {
    if rate :| rate in input.rates && IsFor(rate, facilityId, demand) {
      var k :| 0 <= k < |input.rates| && input.rates[k] == rate;
      assert Applies(input.rates[k], facilityId, demand);
    }
    if k :| 0 <= k < |input.rates| && Applies(input.rates[k], facilityId, demand) {
      assert IsFor(input.rates[k], facilityId, demand);
    }
  }

  method CheckCoverage(input: Input) returns (ok: bool)
    ensures ok <==> AllPriced(input)
  {
    for i := 0 to |input.demands|
      invariant forall r, f :: 0 <= r < i && f in input.facilities ==>
                  HasRate(input.rates, f.facilityId, input.demands[r])
    {
      for j := 0 to |input.facilities|
        invariant forall c :: 0 <= c < j ==> HasRate(input.rates, input.facilities[c].facilityId, input.demands[i])
      {
        if !HasRate(input.rates, input.facilities[j].facilityId, input.demands[i]) {
          PricedIffHasRate(input, input.facilities[j].facilityId, input.demands[i]);
          assert input.demands[i] in input.demands && input.facilities[j] in input.facilities;
          return false;
        }
      }
    }
    forall d, f | d in input.demands && f in input.facilities
      ensures exists rate :: rate in input.rates && IsFor(rate, f.facilityId, d)
    {
      var r :| 0 <= r < |input.demands| && input.demands[r] == d;
      PricedIffHasRate(input, f.facilityId, input.demands[r]);
    }
    return true;
  }

  /** The checks in the order the model validator makes them. */
  method ValidateReferences(input: Input) returns (r: Result<(), ReferenceError>)
    ensures r.Ok? <==> WellReferenced(input)
    ensures r == Err(DuplicateIdentifier) <==> !IdsDiffer(input)
    ensures r == Err(UnknownCurrentFacility) <==> IdsDiffer(input) && !AssignmentsKnown(input)
    ensures r == Err(UnknownReference) ==> !RatesKnown(input)
    ensures r == Err(AmbiguousRates) ==> !SelectorsDiffer(input.rates)
    ensures r == Err(MissingRate) <==>
              && IdsDiffer(input) && AssignmentsKnown(input) && RatesKnown(input) && SelectorsDiffer(input.rates)
              && !AllPriced(input)
  {
    IdsDifferIffFullSets(input);
    if |Elements(DemandIds(input.demands))| != |input.demands|
       || |Elements(FacilityIds(input.facilities))| != |input.facilities|
       || |Elements(RateIds(input.rates))| != |input.rates| {
      return Err(DuplicateIdentifier);
    }
    var current := CheckCurrentFacilities(input);
    if !current { return Err(UnknownCurrentFacility); }
    var rates := CheckRates(input);
    if rates.Some? { return Err(rates.value); }
    var covered := CheckCoverage(input);
    if !covered { return Err(MissingRate); }
    return Ok(());
  }

  // ----- Resolution -----------------------------------------------------------

  lemma {:induction false} BestRateIsBest(rates: seq<TransportRate>, facilityId: int, demand: DemandPoint, n: nat)
    requires n <= |rates|
    ensures var best := BestRate(rates, facilityId, demand, n);
            && (best.Some? <==> exists k :: 0 <= k < n && Applies(rates[k], facilityId, demand))
            && (best.Some? ==> best.value in rates[..n] && Applies(best.value, facilityId, demand))
            && (forall k :: 0 <= k < n && Applies(rates[k], facilityId, demand) ==>
                  best.Some? && Specificity(rates[k]) <= Specificity(best.value))
  {
    if n == 0 {
    } else {
      BestRateIsBest(rates, facilityId, demand, n - 1);
      assert rates[..n] == rates[..n - 1] + [rates[n - 1]];
    }
  }

  ghost predicate Validated(input: Input) {
    WellReferenced(input) && forall k :: 0 <= k < |input.rates| ==> OneSelector(input.rates[k])
  }

  lemma ValidatedIdsDistinct(input: Input)
    requires IdsDiffer(input)
    ensures Distinct(DemandIds(input.demands)) && Distinct(FacilityIds(input.facilities))
  {
  }

  ghost predicate NamesDemand(rate: TransportRate, facilityId: int, demand: DemandPoint) {
    rate.originFacilityId == facilityId && rate.destinationDemandId == Some(demand.demandId)
  }

  ghost predicate NamesRegion(rate: TransportRate, facilityId: int, demand: DemandPoint) {
    && rate.originFacilityId == facilityId && rate.destinationDemandId.None?
    && rate.destinationRegion.Some? && rate.destinationRegion == demand.region
  }

  ghost predicate IsDefault(rate: TransportRate, facilityId: int) {
    rate.originFacilityId == facilityId && rate.destinationDemandId.None? && rate.destinationRegion.None?
  }

  /** The rate for the demand point, failing that the one for its region, failing that the default. */
  ghost predicate IsChosen(rates: seq<TransportRate>, facilityId: int, demand: DemandPoint, rate: TransportRate) {
    && rate in rates
    && if exists other :: other in rates && NamesDemand(other, facilityId, demand)
       then NamesDemand(rate, facilityId, demand)
       else if exists other :: other in rates && NamesRegion(other, facilityId, demand)
       then NamesRegion(rate, facilityId, demand)
       else IsDefault(rate, facilityId)
  }

  /** A most specific applicable rate is a chosen one. */
  lemma MostSpecificIsChosen(rates: seq<TransportRate>, facilityId: int, demand: DemandPoint, best: TransportRate)
    requires best in rates && OneSelector(best) && Applies(best, facilityId, demand)
    requires forall other :: other in rates && Applies(other, facilityId, demand) ==>
               Specificity(other) <= Specificity(best)
    requires forall other :: other in rates ==> OneSelector(other)
    ensures IsChosen(rates, facilityId, demand, best)
  {
  }

  /** With different selectors only one rate can be chosen. */
  lemma ChosenIsUnique(rates: seq<TransportRate>, facilityId: int, demand: DemandPoint, a: TransportRate,
                       b: TransportRate)
    requires SelectorsDiffer(rates)
    requires IsChosen(rates, facilityId, demand, a) && IsChosen(rates, facilityId, demand, b)
    ensures a == b
  {
    var k :| 0 <= k < |rates| && rates[k] == a;
    var m :| 0 <= m < |rates| && rates[m] == b;
    assert SameSelector(rates[k], rates[m]) && SameSelector(rates[m], rates[k]);
  }

  /** If every rate has one selector and some rate applies, the resolved rate is a chosen one. */
  lemma ResolvedIsChosen(rates: seq<TransportRate>, facilityId: int, demand: DemandPoint)
    requires forall rate :: rate in rates ==> OneSelector(rate)
    requires exists rate :: rate in rates && IsFor(rate, facilityId, demand)
    ensures ResolveRate(rates, facilityId, demand).Some?
    ensures IsChosen(rates, facilityId, demand, ResolveRate(rates, facilityId, demand).value)
  {
    BestRateIsBest(rates, facilityId, demand, |rates|);
    assert rates[..|rates|] == rates;
    var rate :| rate in rates && IsFor(rate, facilityId, demand);
    var k :| 0 <= k < |rates| && rates[k] == rate;
    assert Applies(rates[k], facilityId, demand);
    var best := ResolveRate(rates, facilityId, demand).value;
    forall other | other in rates && Applies(other, facilityId, demand)
      ensures Specificity(other) <= Specificity(best)
    {
      var m :| 0 <= m < |rates| && rates[m] == other;
    }
    MostSpecificIsChosen(rates, facilityId, demand, best);
  }

  lemma ValidatedResolves(input: Input, facility: Facility, demand: DemandPoint)
    requires Validated(input) && facility in input.facilities && demand in input.demands
    ensures ResolveRate(input.rates, facility.facilityId, demand).Some?
    ensures IsChosen(input.rates, facility.facilityId, demand,
                     ResolveRate(input.rates, facility.facilityId, demand).value)
  {
    ResolvedIsChosen(input.rates, facility.facilityId, demand);
  }

  /** Resolution on a validated input always finds a rate, and it is the one for the demand
      point if there is one, else the one for its region, else the facility's default. */
  lemma ResolutionIsUnique(input: Input, facility: Facility, demand: DemandPoint, rate: TransportRate)
    requires Validated(input) && facility in input.facilities && demand in input.demands
    ensures ResolveRate(input.rates, facility.facilityId, demand).Some?
    ensures ResolveRate(input.rates, facility.facilityId, demand) == Some(rate) <==>
              IsChosen(input.rates, facility.facilityId, demand, rate)
  {
    var f := facility.facilityId;
    ValidatedResolves(input, facility, demand);
    if IsChosen(input.rates, f, demand, rate) {
      ChosenIsUnique(input.rates, f, demand, ResolveRate(input.rates, f, demand).value, rate);
    }
  }

  lemma ChosenFromMembers(a: seq<TransportRate>, b: seq<TransportRate>, facilityId: int, demand: DemandPoint,
                          rate: TransportRate)
    requires IsChosen(a, facilityId, demand, rate) && forall other :: other in a <==> other in b
    ensures IsChosen(b, facilityId, demand, rate)
  {
  }

  lemma ShuffledMembers<T>(a: seq<T>, b: seq<T>)
    requires multiset(a) == multiset(b)
    ensures forall x :: x in a <==> x in b
  {
    assert forall x :: x in a <==> x in multiset(a);
    assert forall x :: x in b <==> x in multiset(b);
  }

  /** The order in which rates are listed does not matter. */
  lemma ResolutionIgnoresOrder(input: Input, shuffled: seq<TransportRate>, facility: Facility, demand: DemandPoint)
    requires Validated(input) && facility in input.facilities && demand in input.demands
    requires multiset(shuffled) == multiset(input.rates)
    ensures ResolveRate(shuffled, facility.facilityId, demand) == ResolveRate(input.rates, facility.facilityId, demand)
  {
    var f := facility.facilityId;
    ShuffledMembers(shuffled, input.rates);
    ResolvedIsChosen(shuffled, f, demand);
    var best := ResolveRate(shuffled, f, demand).value;
    ChosenFromMembers(shuffled, input.rates, f, demand, best);
    ResolutionIsUnique(input, facility, demand, best);
  }
}

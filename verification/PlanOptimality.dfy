/**
 Why the cheapest flow on the allocation network is an optimal plan.
 */
module PlanOptimality {
  import opened Basics
  import opened FlowNetwork
  import opened Transport
  import opened TransportFlow

  // ----- Every plan is a flow -------------------------------------------------

  ghost function PlanLoad(p: Problem, b: Plan, j: nat): int
    requires IsProblem(p) && HasShape(p, b)
  {
    if j < |p.capacity| then Load(b, j, |b|) else 0
  }

  /** What plan `b` puts on every lane. */
  ghost function ValuesOf(p: Problem, b: Plan): (f: Lane -> int)
    requires IsProblem(p) && HasShape(p, b)
    ensures forall i :: 0 <= i < |b| ==> f(Supply(i)) == p.demand[i]
    ensures forall i, j :: 0 <= i < |b| && 0 <= j < |p.capacity| ==> f(Ship(i, j)) == b[i][j]
    ensures forall i :: 0 <= i < |b| ==> f(Unmet(i)) == p.demand[i] - Served(b, i, |p.capacity|)
    ensures forall j :: 0 <= j < |p.capacity| ==> f(Site(j)) == PlanLoad(p, b, j)
    ensures f(Spill) == TotalDemand(p.demand, |b|) - Covered(b, |b|)
  {
    (lane: Lane) => match lane
      case Supply(i) => if i < |b| then p.demand[i] else 0
      case Ship(i, j) => if i < |b| && j < |p.capacity| then b[i][j] else 0
      case Unmet(i) => if i < |b| then p.demand[i] - Served(b, i, |p.capacity|) else 0
      case Site(j) => PlanLoad(p, b, j)
      case Spill => TotalDemand(p.demand, |b|) - Covered(b, |b|)
  }

  ghost function FlowOf(lanes: seq<Lane>, val: Lane -> int): (x: seq<int>)
    ensures Carries(lanes, x, val)
  {
    seq(|lanes|, e requires 0 <= e < |lanes| => val(lanes[e]))
  }

  lemma {:induction false} ServedIsNonNegative(p: Problem, b: Plan, i: nat, j: nat)
    requires IsProblem(p) && Fits(p, b) && i < |b| && j <= |p.capacity|
    ensures 0 <= Served(b, i, j)
    ensures forall k :: 0 <= k < j ==> b[i][k] <= Served(b, i, j)
  {
    if j == 0 {
    } else {
      ServedIsNonNegative(p, b, i, j - 1);
    }
  }

  lemma {:induction false} LoadIsNonNegative(p: Problem, b: Plan, j: nat, i: nat)
    requires IsProblem(p) && Fits(p, b) && i <= |b| && j < |p.capacity|
    ensures 0 <= Load(b, j, i)
  {
    if i == 0 {
    } else {
      LoadIsNonNegative(p, b, j, i - 1);
    }
  }

  lemma {:induction false} CoveredBounds(p: Problem, b: Plan, i: nat)
    requires IsProblem(p) && Fits(p, b) && i <= |b|
    ensures 0 <= Covered(b, i) <= TotalDemand(p.demand, i)
  {
    if i == 0 {
    } else {
      CoveredBounds(p, b, i - 1);
      ServedIsNonNegative(p, b, i - 1, |p.capacity|);
    }
  }

  lemma LaneWithinCapacity(p: Problem, b: Plan, penalty: int, lane: Lane)
    requires IsProblem(p) && Fits(p, b) && IsLane(p, lane)
    ensures 0 <= ValuesOf(p, b)(lane) <= ArcOf(p, penalty, lane).cap
  {
    match lane
    case Supply(i) =>
    case Ship(i, j) => ServedIsNonNegative(p, b, i, |p.capacity|);
    case Unmet(i) => ServedIsNonNegative(p, b, i, |p.capacity|);
    case Site(j) => LoadIsNonNegative(p, b, j, |b|);
    case Spill => CoveredBounds(p, b, |b|);
  }

  lemma PlanAgrees(p: Problem, b: Plan)
    requires IsProblem(p) && Fits(p, b)
    ensures Agrees(p, b, ValuesOf(p, b))
  {
  }

  lemma {:induction false} SupplyOfPlan(p: Problem, b: Plan, i: nat)
    requires IsProblem(p) && HasShape(p, b) && i <= |b|
    ensures SupplyTotal(ValuesOf(p, b), i) == TotalDemand(p.demand, i)
  {
    if i == 0 {
    } else {
      SupplyOfPlan(p, b, i - 1);
    }
  }

  /** Sends all of the demand from the source to the sink and is balanced elsewhere. */
  ghost predicate ShipsAll(p: Problem, net: seq<Arc>, x: seq<int>)
    requires IsProblem(p) && IsNetwork(net, NodeCount(p)) && |x| == |net|
  {
    forall v :: 0 <= v < NodeCount(p) - 1 ==>
      Balance(net, NodeCount(p), x, v) == if v == 0 then TotalDemand(p.demand, |p.demand|) else 0
  }

  lemma PlanBalance(p: Problem, b: Plan, v: nat)
    requires IsProblem(p) && Fits(p, b) && v < NodeCount(p) - 1
    ensures GrandTotal(p, At(p, ValuesOf(p, b), v)) == if v == 0 then TotalDemand(p.demand, |p.demand|) else 0
  {
    if v == 0 {
      PlanSourceBalance(p, b);
    } else if v < SiteNode(p, 0) {
      PlanDemandBalance(p, b, v - 1, v);
    } else if v < Hub(p) {
      PlanSiteBalance(p, b, v - SiteNode(p, 0), v);
    } else {
      PlanHubBalance(p, b, v);
    }
  }

  lemma PlanSourceBalance(p: Problem, b: Plan)
    requires IsProblem(p) && Fits(p, b)
    ensures GrandTotal(p, At(p, ValuesOf(p, b), 0)) == TotalDemand(p.demand, |p.demand|)
  {
    SourceTotal(p, ValuesOf(p, b));
    SupplyOfPlan(p, b, |b|);
  }

  lemma PlanHubBalance(p: Problem, b: Plan, v: nat)
    requires IsProblem(p) && Fits(p, b) && v == Hub(p)
    ensures GrandTotal(p, At(p, ValuesOf(p, b), v)) == 0
  {
    HubTotal(p, ValuesOf(p, b));
    UnmetOfPlan(p, b);
  }

  lemma PlanDemandBalance(p: Problem, b: Plan, i: nat, v: nat)
    requires IsProblem(p) && Fits(p, b) && i < |p.demand| && v == DemandNode(i)
    ensures GrandTotal(p, At(p, ValuesOf(p, b), v)) == 0
  {
    PlanAgrees(p, b);
    DemandTotal(p, ValuesOf(p, b), i);
    AgreeShips(p, b, ValuesOf(p, b), 0, i, |p.capacity|);
  }

  lemma PlanSiteBalance(p: Problem, b: Plan, j: nat, v: nat)
    requires IsProblem(p) && Fits(p, b) && j < |p.capacity| && v == SiteNode(p, j)
    ensures GrandTotal(p, At(p, ValuesOf(p, b), v)) == 0
  {
    PlanAgrees(p, b);
    SiteNodeTotal(p, ValuesOf(p, b), j);
    AgreeLoads(p, b, ValuesOf(p, b), j, |b|);
  }

  lemma PlanIsFeasible(p: Problem, penalty: int, b: Plan)
    requires IsProblem(p) && Fits(p, b) && AllLanes(p, Lanes(p))
    ensures Feasible(Network(p, penalty, Lanes(p)), FlowOf(Lanes(p), ValuesOf(p, b)))
  {
    var lanes, val := Lanes(p), ValuesOf(p, b);
    forall e | 0 <= e < |lanes|
      ensures 0 <= FlowOf(lanes, val)[e] <= Network(p, penalty, lanes)[e].cap
    {
      LaneWithinCapacity(p, b, penalty, lanes[e]);
    }
  }

  lemma PlanShipsAll(p: Problem, penalty: int, b: Plan)
    requires IsProblem(p) && Fits(p, b) && AllLanes(p, Lanes(p))
    requires IsNetwork(Network(p, penalty, Lanes(p)), NodeCount(p))
    ensures ShipsAll(p, Network(p, penalty, Lanes(p)), FlowOf(Lanes(p), ValuesOf(p, b)))
  {
    var val := ValuesOf(p, b);
    var y := FlowOf(Lanes(p), val);
    forall v | 0 <= v < NodeCount(p) - 1
      ensures Balance(Network(p, penalty, Lanes(p)), NodeCount(p), y, v)
           == if v == 0 then TotalDemand(p.demand, |p.demand|) else 0
    {
      BalanceByLane(p, penalty, y, val, v);
      PlanBalance(p, b, v);
    }
  }

  ghost function Unserved(p: Problem, b: Plan): int
    requires IsProblem(p) && HasShape(p, b)
  {
    TotalDemand(p.demand, |b|) - Coverage(b)
  }

  lemma PlanCostAsFlow(p: Problem, penalty: int, b: Plan, unserved: int)
    requires IsProblem(p) && Fits(p, b) && AllLanes(p, Lanes(p)) && unserved == Unserved(p, b)
    ensures FlowCost(Network(p, penalty, Lanes(p)), FlowOf(Lanes(p), ValuesOf(p, b))) == Cost(p, b) + penalty * unserved
  {
    var val := ValuesOf(p, b);
    PlanAgrees(p, b);
    PlanFlowCost(p, penalty, FlowOf(Lanes(p), val), val, b);
    UnmetOfPlan(p, b);
  }

  lemma UnmetOfPlan(p: Problem, b: Plan)
    requires IsProblem(p) && Fits(p, b)
    ensures UnmetTotal(ValuesOf(p, b), |p.demand|) == Unserved(p, b)
  {
    PlanAgrees(p, b);
    AgreeCoverage(p, b, ValuesOf(p, b), |b|);
  }

  // ----- Every flow is a plan -------------------------------------------------

  ghost function Lookup(lanes: seq<Lane>, x: seq<int>, lane: Lane): int
    requires |x| == |lanes|
  {
    if lanes == [] then 0
    else if lanes[|lanes| - 1] == lane then x[|x| - 1]
    else Lookup(lanes[..|lanes| - 1], x[..|x| - 1], lane)
  }

  ghost function Values(lanes: seq<Lane>, x: seq<int>): (f: Lane -> int)
    requires |x| == |lanes|
    ensures forall lane :: f(lane) == Lookup(lanes, x, lane)
  {
    lane => Lookup(lanes, x, lane)
  }

  lemma {:induction false} LookupFinds(lanes: seq<Lane>, x: seq<int>, e: nat)
    requires |x| == |lanes| && Distinct(lanes) && e < |lanes|
    ensures Lookup(lanes, x, lanes[e]) == x[e]
  {
    if e < |lanes| - 1 { LookupFinds(lanes[..|lanes| - 1], x[..|x| - 1], e); }
  }

  lemma {:induction false} LookupBounds(p: Problem, penalty: int, lanes: seq<Lane>, x: seq<int>, lane: Lane)
    requires IsProblem(p) && AllLanes(p, lanes) && IsLane(p, lane) && Feasible(Network(p, penalty, lanes), x)
    ensures 0 <= Lookup(lanes, x, lane) <= ArcOf(p, penalty, lane).cap
  {
    if lanes == [] {
    } else {
      var n := |lanes| - 1;
      assert Network(p, penalty, lanes)[n] == ArcOf(p, penalty, lanes[n]);
      if lanes[n] != lane {
        var net, shorter := Network(p, penalty, lanes), Network(p, penalty, lanes[..n]);
        assert forall e :: 0 <= e < n ==> shorter[e] == net[e];
        LookupBounds(p, penalty, lanes[..n], x[..n], lane);
      }
    }
  }

  /** A total that is met from amounts that are each capped must meet every cap. */
  lemma {:induction false} SuppliesAreFull(p: Problem, val: Lane -> int, i: nat)
    requires i <= |p.demand| && forall r :: 0 <= r < |p.demand| ==> val(Supply(r)) <= p.demand[r]
    ensures SupplyTotal(val, i) <= TotalDemand(p.demand, i)
    ensures SupplyTotal(val, i) == TotalDemand(p.demand, i) ==>
              forall r :: 0 <= r < i ==> val(Supply(r)) == p.demand[r]
  {
    if i == 0 {
    } else {
      SuppliesAreFull(p, val, i - 1);
    }
  }

  lemma LookupCarries(lanes: seq<Lane>, x: seq<int>)
    requires |x| == |lanes| && Distinct(lanes)
    ensures Carries(lanes, x, Values(lanes, x))
  {
    forall e | 0 <= e < |lanes| ensures x[e] == Values(lanes, x)(lanes[e]) { LookupFinds(lanes, x, e); }
  }

  /** A feasible flow that ships everything, with its lane values. */
  ghost predicate FullFlow(p: Problem, penalty: int, x: seq<int>, val: Lane -> int)
    requires IsProblem(p)
  {
    && AllLanes(p, Lanes(p)) && Carries(Lanes(p), x, val)
    && IsNetwork(Network(p, penalty, Lanes(p)), NodeCount(p))
    && ShipsAll(p, Network(p, penalty, Lanes(p)), x)
    && forall lane :: IsLane(p, lane) ==> 0 <= val(lane) <= ArcOf(p, penalty, lane).cap
  }

  lemma FlowIsFull(p: Problem, penalty: int, x: seq<int>)
    requires IsProblem(p) && AllLanes(p, Lanes(p)) && Distinct(Lanes(p))
    requires IsNetwork(Network(p, penalty, Lanes(p)), NodeCount(p))
    requires Feasible(Network(p, penalty, Lanes(p)), x) && ShipsAll(p, Network(p, penalty, Lanes(p)), x)
    ensures FullFlow(p, penalty, x, Values(Lanes(p), x))
  {
    LookupCarries(Lanes(p), x);
    forall lane | IsLane(p, lane)
      ensures 0 <= Values(Lanes(p), x)(lane) <= ArcOf(p, penalty, lane).cap
    {
      LookupBounds(p, penalty, Lanes(p), x, lane);
    }
  }

  lemma FullSupply(p: Problem, penalty: int, x: seq<int>, val: Lane -> int, i: nat)
    requires IsProblem(p) && FullFlow(p, penalty, x, val) && i < |p.demand|
    ensures val(Supply(i)) == p.demand[i]
  {
    forall r | 0 <= r < |p.demand|
      ensures val(Supply(r)) <= p.demand[r]
    {
      assert IsLane(p, Supply(r));
    }
    BalanceByLane(p, penalty, x, val, 0);
    SourceTotal(p, val);
    SuppliesAreFull(p, val, |p.demand|);
  }

  lemma FullRow(p: Problem, penalty: int, x: seq<int>, val: Lane -> int, a: Plan, i: nat)
    requires IsProblem(p) && FullFlow(p, penalty, x, val) && Agrees(p, a, val) && i < |a|
    ensures val(Unmet(i)) == p.demand[i] - Served(a, i, |p.capacity|)
    ensures Served(a, i, |p.capacity|) <= p.demand[i]
  {
    FullSupply(p, penalty, x, val, i);
    BalanceByLane(p, penalty, x, val, DemandNode(i));
    DemandTotal(p, val, i);
    AgreeShips(p, a, val, penalty, i, |p.capacity|);
    assert IsLane(p, Unmet(i));
  }

  lemma FullSite(p: Problem, penalty: int, x: seq<int>, val: Lane -> int, a: Plan, j: nat)
    requires IsProblem(p) && FullFlow(p, penalty, x, val) && Agrees(p, a, val) && j < |p.capacity|
    ensures Load(a, j, |a|) <= p.capacity[j]
  {
    BalanceByLane(p, penalty, x, val, SiteNode(p, j));
    SiteNodeTotal(p, val, j);
    AgreeLoads(p, a, val, j, |a|);
    assert IsLane(p, Site(j));
  }

  lemma FlowIsPlan(p: Problem, penalty: int, x: seq<int>, val: Lane -> int, a: Plan)
    requires IsProblem(p) && FullFlow(p, penalty, x, val) && Agrees(p, a, val)
    ensures Fits(p, a)
  {
    forall i | 0 <= i < |a| ensures Served(a, i, |p.capacity|) <= p.demand[i] { FullRow(p, penalty, x, val, a, i); }
    forall j | 0 <= j < |p.capacity| ensures Load(a, j, |a|) <= p.capacity[j] { FullSite(p, penalty, x, val, a, j); }
    forall i, j | 0 <= i < |a| && 0 <= j < |a[i]|
      ensures a[i][j] >= 0 && (a[i][j] > 0 ==> Eligible(p, i, j))
    {
      if Eligible(p, i, j) { assert IsLane(p, Ship(i, j)); }
    }
  }

  lemma FullUnmet(p: Problem, penalty: int, x: seq<int>, val: Lane -> int, a: Plan)
    requires IsProblem(p) && FullFlow(p, penalty, x, val) && Agrees(p, a, val)
    ensures UnmetTotal(val, |p.demand|) == Unserved(p, a)
  {
    forall i | 0 <= i < |a|
      ensures val(Unmet(i)) == p.demand[i] - Served(a, i, |p.capacity|)
    {
      FullRow(p, penalty, x, val, a, i);
    }
    AgreeCoverage(p, a, val, |a|);
  }

  lemma FlowCostAsPlan(p: Problem, penalty: int, x: seq<int>, val: Lane -> int, a: Plan, unserved: int)
    requires IsProblem(p) && FullFlow(p, penalty, x, val) && Agrees(p, a, val) && unserved == Unserved(p, a)
    ensures FlowCost(Network(p, penalty, Lanes(p)), x) == Cost(p, a) + penalty * unserved
  {
    FullUnmet(p, penalty, x, val, a);
    PlanFlowCost(p, penalty, x, val, a);
  }

  // ----- One penalty, two objectives ------------------------------------------

  ghost predicate CostsAtMost(p: Problem, most: nat)
    requires IsProblem(p)
  {
    forall i, j :: 0 <= i < |p.demand| && 0 <= j < |p.capacity| ==> UnitCost(p, i, j) <= most
  }

  lemma {:induction false} RowCostBounds(p: Problem, b: Plan, most: nat, i: nat, j: nat)
    requires IsProblem(p) && Fits(p, b) && CostsAtMost(p, most) && i < |b| && j <= |p.capacity|
    ensures 0 <= RowCost(p, b, i, j) <= most * Served(b, i, j)
  {
    if j == 0 {
    } else {
      RowCostBounds(p, b, most, i, j - 1);
      var units, unit := b[i][j - 1], UnitCost(p, i, j - 1);
      TimesMonotone(units, unit, most);
      Distributes(most, Served(b, i, j - 1), units);
    }
  }

  lemma {:induction false} PlanCostBounds(p: Problem, b: Plan, most: nat, i: nat)
    requires IsProblem(p) && Fits(p, b) && CostsAtMost(p, most) && i <= |b|
    ensures 0 <= PlanCost(p, b, i) <= most * Covered(b, i)
  {
    if i == 0 {
    } else {
      PlanCostBounds(p, b, most, i - 1);
      RowCostBounds(p, b, most, i - 1, |p.capacity|);
      Distributes(most, Covered(b, i - 1), Served(b, i - 1, |p.capacity|));
    }
  }

  function Penalty(most: nat, total: nat): nat { (most + 1) * (total + 1) }

  lemma PenaltyExceedsProduct(most: nat, total: nat)
    ensures Penalty(most, total) > most * total
  {
    assert (most + 1) * (total + 1) == most * total + most + total + 1;
  }

  lemma Distributes(w: int, a: int, b: int)
    ensures w * (a + b) == w * a + w * b
  {
  }

  lemma {:induction false} TimesAtLeastOne(w: nat, k: nat)
    requires k >= 1
    ensures w * k >= w
  {
    if k > 1 {
      TimesAtLeastOne(w, k - 1);
      Distributes(w, k - 1, 1);
    }
  }

  lemma {:induction false} TimesMonotone(units: nat, a: nat, b: nat)
    requires a <= b
    ensures 0 <= units * a <= units * b
  {
    if units == 0 {
    } else {
      TimesMonotone(units - 1, a, b);
      Distributes(a, units - 1, 1);
      Distributes(b, units - 1, 1);
    }
  }

  lemma HeavierByAtLeast(w: int, a: int, b: int)
    requires w > 0 && a > b
    ensures w * a >= w * b + w
  {
    TimesAtLeastOne(w, a - b);
    Distributes(w, b, a - b);
  }

  /** With a weight above any possible cost, comparing weighted sums compares coverage first. */
  lemma WeightDominates(w: int, unservedA: int, costA: int, unservedB: int, costB: int)
    requires w > costB && 0 <= costA && w > 0
    requires costA + w * unservedA <= costB + w * unservedB
    ensures unservedA < unservedB || (unservedA == unservedB && costA <= costB)
  {
    if unservedA > unservedB { HeavierByAtLeast(w, unservedA, unservedB); }
  }

  ghost predicate CheapestFlow(p: Problem, penalty: int, x: seq<int>)
    requires IsProblem(p) && AllLanes(p, Lanes(p)) && |x| == |Lanes(p)|
    requires IsNetwork(Network(p, penalty, Lanes(p)), NodeCount(p))
  {
    forall y | Feasible(Network(p, penalty, Lanes(p)), y) ::
      SameBalances(Network(p, penalty, Lanes(p)), NodeCount(p), x, y) ==>
      FlowCost(Network(p, penalty, Lanes(p)), x) <= FlowCost(Network(p, penalty, Lanes(p)), y)
  }

  /** A plan that fits is a flow with the same balances, so it is no cheaper in weighted cost. */
  lemma WeightedCostsCompare(p: Problem, penalty: int, x: seq<int>, val: Lane -> int, a: Plan, b: Plan, unservedA: int,
                             unservedB: int)
    requires IsProblem(p) && FullFlow(p, penalty, x, val) && Agrees(p, a, val) && Fits(p, b)
    requires CheapestFlow(p, penalty, x) && unservedA == Unserved(p, a) && unservedB == Unserved(p, b)
    ensures Cost(p, a) + penalty * unservedA <= Cost(p, b) + penalty * unservedB
  {
    FlowCostAsPlan(p, penalty, x, val, a, unservedA);
    PlanCostAsFlow(p, penalty, b, unservedB);
    PlanCompetes(p, penalty, x, b);
  }

  lemma PlanCompetes(p: Problem, penalty: int, x: seq<int>, b: Plan)
    requires IsProblem(p) && Fits(p, b) && AllLanes(p, Lanes(p)) && |x| == |Lanes(p)|
    requires IsNetwork(Network(p, penalty, Lanes(p)), NodeCount(p))
    requires ShipsAll(p, Network(p, penalty, Lanes(p)), x) && CheapestFlow(p, penalty, x)
    ensures FlowCost(Network(p, penalty, Lanes(p)), x)
         <= FlowCost(Network(p, penalty, Lanes(p)), FlowOf(Lanes(p), ValuesOf(p, b)))
  {
    PlanIsFeasible(p, penalty, b);
    PlanShipsAll(p, penalty, b);
    LastBalance(Network(p, penalty, Lanes(p)), NodeCount(p), x, FlowOf(Lanes(p), ValuesOf(p, b)), NodeCount(p) - 1);
  }

  lemma CheapestFlowIsOptimalPlan(p: Problem, most: nat, x: seq<int>, val: Lane -> int, a: Plan)
    requires IsProblem(p) && CostsAtMost(p, most) && Agrees(p, a, val)
    requires FullFlow(p, Penalty(most, TotalDemand(p.demand, |p.demand|)), x, val)
    requires CheapestFlow(p, Penalty(most, TotalDemand(p.demand, |p.demand|)), x)
    ensures Optimal(p, a)
  {
    var total := TotalDemand(p.demand, |p.demand|);
    var penalty := Penalty(most, total);
    FlowIsPlan(p, penalty, x, val, a);
    forall b | Fits(p, b)
      ensures Coverage(b) < Coverage(a) || (Coverage(b) == Coverage(a) && Cost(p, a) <= Cost(p, b))
    {
      PlanBeatsPlan(p, most, total, penalty, x, val, a, b);
    }
  }

  lemma PlanBeatsPlan(p: Problem, most: nat, total: nat, penalty: int, x: seq<int>, val: Lane -> int, a: Plan, b: Plan)
    requires IsProblem(p) && CostsAtMost(p, most) && Agrees(p, a, val) && Fits(p, a) && Fits(p, b)
    requires total == TotalDemand(p.demand, |p.demand|) && penalty == Penalty(most, total)
    requires FullFlow(p, penalty, x, val) && CheapestFlow(p, penalty, x)
    ensures Coverage(b) < Coverage(a) || (Coverage(b) == Coverage(a) && Cost(p, a) <= Cost(p, b))
  {
    WeightedCostsCompare(p, penalty, x, val, a, b, Unserved(p, a), Unserved(p, b));
    PenaltyExceedsAnyCost(p, a, most, total);
    PenaltyExceedsAnyCost(p, b, most, total);
    WeightDominates(penalty, Unserved(p, a), Cost(p, a), Unserved(p, b), Cost(p, b));
  }

  lemma PlanCostAtMost(p: Problem, b: Plan, most: nat, total: nat)
    requires IsProblem(p) && CostsAtMost(p, most) && Fits(p, b) && total == TotalDemand(p.demand, |p.demand|)
    ensures 0 <= Cost(p, b) <= most * total
  {
    PlanCostBounds(p, b, most, |b|);
    CoveredBounds(p, b, |b|);
    TimesMonotone(most, Covered(b, |b|), total);
  }

  /** One penalty is more than any fitting plan costs. */
  lemma PenaltyExceedsAnyCost(p: Problem, b: Plan, most: nat, total: nat)
    requires IsProblem(p) && CostsAtMost(p, most) && Fits(p, b) && total == TotalDemand(p.demand, |p.demand|)
    ensures 0 <= Cost(p, b) < Penalty(most, total)
  {
    PlanCostAtMost(p, b, most, total);
    PenaltyExceedsProduct(most, total);
  }
}

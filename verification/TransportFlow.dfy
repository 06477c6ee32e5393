/**
 Flows on the allocation network, lane by lane: what each node's balance and the flow
 cost come to, that every plan is a flow and every flow a plan, and that one penalty
 weight turns the cheapest flow into a lexicographically optimal plan.
 */
module TransportFlow {
  import opened FlowNetwork
  import opened Transport

  // ----- Sums over lanes ------------------------------------------------------

  ghost function LaneSum(lanes: seq<Lane>, f: Lane -> int): int {
    if lanes == [] then 0 else LaneSum(lanes[..|lanes| - 1], f) + f(lanes[|lanes| - 1])
  }

  lemma {:induction false} LaneSumConcat(a: seq<Lane>, b: seq<Lane>, f: Lane -> int)
    ensures LaneSum(a + b, f) == LaneSum(a, f) + LaneSum(b, f)
  {
    if b == [] {
      assert a + b == a;
    } else {
      assert (a + b)[..|a + b| - 1] == a + b[..|b| - 1];
      LaneSumConcat(a, b[..|b| - 1], f);
    }
  }

  ghost function ShipTotal(p: Problem, f: Lane -> int, i: nat, j: nat): int
    requires IsProblem(p) && i < |p.demand| && j <= |p.capacity|
  {
    if j == 0 then 0 else ShipTotal(p, f, i, j - 1) + (if Eligible(p, i, j - 1) then f(Ship(i, j - 1)) else 0)
  }

  ghost function RowTotal(p: Problem, f: Lane -> int, i: nat): int
    requires IsProblem(p) && i <= |p.demand|
  {
    if i == 0 then 0
    else RowTotal(p, f, i - 1) + f(Supply(i - 1)) + ShipTotal(p, f, i - 1, |p.capacity|) + f(Unmet(i - 1))
  }

  ghost function SiteTotal(f: Lane -> int, j: nat): int {
    if j == 0 then 0 else SiteTotal(f, j - 1) + f(Site(j - 1))
  }

  ghost function GrandTotal(p: Problem, f: Lane -> int): int
    requires IsProblem(p)
  {
    RowTotal(p, f, |p.demand|) + SiteTotal(f, |p.capacity|) + f(Spill)
  }

  lemma {:induction false} ShipLanesSum(p: Problem, f: Lane -> int, i: nat, j: nat)
    requires IsProblem(p) && i < |p.demand| && j <= |p.capacity|
    ensures LaneSum(ShipLanes(p, i, j), f) == ShipTotal(p, f, i, j)
  {
    if j == 0 {
    } else {
      ShipLanesSum(p, f, i, j - 1);
      if Eligible(p, i, j - 1) {
        LaneSumConcat(ShipLanes(p, i, j - 1), [Ship(i, j - 1)], f);
      } else {
        assert ShipLanes(p, i, j) == ShipLanes(p, i, j - 1);
      }
    }
  }

  lemma {:induction false} RowLanesSum(p: Problem, f: Lane -> int, i: nat)
    requires IsProblem(p) && i <= |p.demand|
    ensures LaneSum(RowLanes(p, i), f) == RowTotal(p, f, i)
  {
    if i == 0 {
    } else {
      RowLanesSum(p, f, i - 1);
      ShipLanesSum(p, f, i - 1, |p.capacity|);
      var a := RowLanes(p, i - 1);
      var ships := ShipLanes(p, i - 1, |p.capacity|);
      LaneSumConcat(a, [Supply(i - 1)], f);
      LaneSumConcat(a + [Supply(i - 1)], ships, f);
      LaneSumConcat(a + [Supply(i - 1)] + ships, [Unmet(i - 1)], f);
    }
  }

  lemma {:induction false} SiteLanesSum(f: Lane -> int, j: nat)
    ensures LaneSum(SiteLanes(j), f) == SiteTotal(f, j)
  {
    if j == 0 {
    } else {
      SiteLanesSum(f, j - 1);
      LaneSumConcat(SiteLanes(j - 1), [Site(j - 1)], f);
    }
  }

  lemma LanesSum(p: Problem, f: Lane -> int)
    requires IsProblem(p)
    ensures LaneSum(Lanes(p), f) == GrandTotal(p, f)
  {
    RowLanesSum(p, f, |p.demand|);
    SiteLanesSum(f, |p.capacity|);
    LaneSumConcat(RowLanes(p, |p.demand|), SiteLanes(|p.capacity|), f);
    LaneSumConcat(RowLanes(p, |p.demand|) + SiteLanes(|p.capacity|), [Spill], f);
  }

  lemma {:induction false} DotIsLaneSum(lanes: seq<Lane>, x: seq<int>, w: seq<int>, f: Lane -> int, k: nat)
    requires |x| == |w| == |lanes| && k <= |lanes|
    requires forall e :: 0 <= e < |lanes| ==> x[e] * w[e] == f(lanes[e])
    ensures Dot(x, w, k) == LaneSum(lanes[..k], f)
  {
    if k == 0 {
    } else {
      DotIsLaneSum(lanes, x, w, f, k - 1);
      assert lanes[..k][..k - 1] == lanes[..k - 1];
    }
  }

  // ----- Balances -------------------------------------------------------------

  /** Flow `x` carries `val(lane)` on every lane. */
  ghost predicate Carries(lanes: seq<Lane>, x: seq<int>, val: Lane -> int) {
    |x| == |lanes| && forall e :: 0 <= e < |lanes| ==> x[e] == val(lanes[e])
  }

  ghost function LaneSrc(p: Problem, lane: Lane): nat {
    match lane
    case Supply(i) => 0
    case Ship(i, j) => DemandNode(i)
    case Unmet(i) => DemandNode(i)
    case Site(j) => SiteNode(p, j)
    case Spill => Hub(p)
  }

  ghost function LaneDst(p: Problem, lane: Lane): nat {
    match lane
    case Supply(i) => DemandNode(i)
    case Ship(i, j) => SiteNode(p, j)
    case Unmet(i) => Hub(p)
    case Site(j) => SinkNode(p)
    case Spill => SinkNode(p)
  }

  /** What each lane contributes to the balance of node `v`. */
  ghost function At(p: Problem, val: Lane -> int, v: nat): (f: Lane -> int)
    ensures forall lane :: f(lane) ==
              (if LaneSrc(p, lane) == v then val(lane) else 0) - (if LaneDst(p, lane) == v then val(lane) else 0)
  {
    lane => (if LaneSrc(p, lane) == v then val(lane) else 0) - (if LaneDst(p, lane) == v then val(lane) else 0)
  }

  lemma BalanceByLane(p: Problem, penalty: int, x: seq<int>, val: Lane -> int, v: nat)
    requires IsProblem(p) && AllLanes(p, Lanes(p)) && Carries(Lanes(p), x, val) && v < NodeCount(p)
    requires IsNetwork(Network(p, penalty, Lanes(p)), NodeCount(p))
    ensures Balance(Network(p, penalty, Lanes(p)), NodeCount(p), x, v) == GrandTotal(p, At(p, val, v))
  {
    var lanes := Lanes(p);
    var net, f := Network(p, penalty, lanes), At(p, val, v);
    var w := Drops(net, NodeCount(p), Indicator(NodeCount(p), v));
    forall e | 0 <= e < |lanes|
      ensures x[e] * w[e] == f(lanes[e])
    {
      var a := net[e];
      assert a == ArcOf(p, penalty, lanes[e]);
      assert w[e] == (if a.src == v then 1 else 0) - (if a.dst == v then 1 else 0);
    }
    DotIsLaneSum(lanes, x, w, f, |lanes|);
    assert lanes[..|lanes|] == lanes;
    LanesSum(p, f);
  }

  lemma {:induction false} ShipZero(p: Problem, f: Lane -> int, i: nat, j: nat)
    requires IsProblem(p) && i < |p.demand| && j <= |p.capacity|
    requires forall k :: 0 <= k < j ==> f(Ship(i, k)) == 0
    ensures ShipTotal(p, f, i, j) == 0
  {
    if j == 0 {
    } else {
      ShipZero(p, f, i, j - 1);
    }
  }

  lemma {:induction false} ShipSame(p: Problem, f: Lane -> int, g: Lane -> int, i: nat, j: nat)
    requires IsProblem(p) && i < |p.demand| && j <= |p.capacity|
    requires forall k :: 0 <= k < j ==> f(Ship(i, k)) == g(Ship(i, k))
    ensures ShipTotal(p, f, i, j) == ShipTotal(p, g, i, j)
  {
    if j == 0 {
    } else {
      ShipSame(p, f, g, i, j - 1);
    }
  }

  lemma {:induction false} ShipSingle(p: Problem, f: Lane -> int, i: nat, j: nat, k: nat)
    requires IsProblem(p) && i < |p.demand| && j <= |p.capacity| && k < |p.capacity|
    requires forall k' :: 0 <= k' < j && k' != k ==> f(Ship(i, k')) == 0
    ensures ShipTotal(p, f, i, j) == if k < j && Eligible(p, i, k) then f(Ship(i, k)) else 0
  {
    if j == 0 {
    } else {
      ShipSingle(p, f, i, j - 1, k);
    }
  }

  lemma {:induction false} SiteSingle(f: Lane -> int, j: nat, k: nat)
    requires forall k' :: 0 <= k' < j && k' != k ==> f(Site(k')) == 0
    ensures SiteTotal(f, j) == if k < j then f(Site(k)) else 0
  {
    if j == 0 {
    } else {
      SiteSingle(f, j - 1, k);
    }
  }

  ghost function SupplyTotal(val: Lane -> int, i: nat): int {
    if i == 0 then 0 else SupplyTotal(val, i - 1) + val(Supply(i - 1))
  }

  ghost function UnmetTotal(val: Lane -> int, i: nat): int {
    if i == 0 then 0 else UnmetTotal(val, i - 1) + val(Unmet(i - 1))
  }

  ghost function InTotal(p: Problem, val: Lane -> int, j: nat, i: nat): int
    requires IsProblem(p) && i <= |p.demand| && j < |p.capacity|
  {
    if i == 0 then 0 else InTotal(p, val, j, i - 1) + (if Eligible(p, i - 1, j) then val(Ship(i - 1, j)) else 0)
  }

  lemma {:induction false} SourceRows(p: Problem, val: Lane -> int, i: nat)
    requires IsProblem(p) && i <= |p.demand|
    ensures RowTotal(p, At(p, val, 0), i) == SupplyTotal(val, i)
  {
    if i == 0 {
    } else {
      SourceRows(p, val, i - 1);
      ShipZero(p, At(p, val, 0), i - 1, |p.capacity|);
    }
  }

  lemma SourceTotal(p: Problem, val: Lane -> int)
    requires IsProblem(p)
    ensures GrandTotal(p, At(p, val, 0)) == SupplyTotal(val, |p.demand|)
  {
    SourceRows(p, val, |p.demand|);
    SiteSingle(At(p, val, 0), |p.capacity|, |p.capacity|);
  }

  lemma {:induction false} DemandRows(p: Problem, val: Lane -> int, r: nat, i: nat)
    requires IsProblem(p) && i <= |p.demand| && r < |p.demand|
    ensures RowTotal(p, At(p, val, DemandNode(r)), i)
         == if r < i then ShipTotal(p, val, r, |p.capacity|) + val(Unmet(r)) - val(Supply(r)) else 0
  {
    if i == 0 {
    } else {
      DemandRows(p, val, r, i - 1);
      if i - 1 == r {
        ShipSame(p, At(p, val, DemandNode(r)), val, r, |p.capacity|);
      } else {
        ShipZero(p, At(p, val, DemandNode(r)), i - 1, |p.capacity|);
      }
    }
  }

  lemma DemandTotal(p: Problem, val: Lane -> int, r: nat)
    requires IsProblem(p) && r < |p.demand|
    ensures GrandTotal(p, At(p, val, DemandNode(r))) == ShipTotal(p, val, r,
                                                                  |p.capacity|) + val(Unmet(r)) - val(Supply(r))
  {
    DemandRows(p, val, r, |p.demand|);
    SiteSingle(At(p, val, DemandNode(r)), |p.capacity|, |p.capacity|);
  }

  lemma {:induction false} SiteRows(p: Problem, val: Lane -> int, k: nat, i: nat)
    requires IsProblem(p) && i <= |p.demand| && k < |p.capacity|
    ensures RowTotal(p, At(p, val, SiteNode(p, k)), i) == -InTotal(p, val, k, i)
  {
    if i == 0 {
    } else {
      SiteRows(p, val, k, i - 1);
      ShipSingle(p, At(p, val, SiteNode(p, k)), i - 1, |p.capacity|, k);
    }
  }

  lemma SiteNodeTotal(p: Problem, val: Lane -> int, k: nat)
    requires IsProblem(p) && k < |p.capacity|
    ensures GrandTotal(p, At(p, val, SiteNode(p, k))) == val(Site(k)) - InTotal(p, val, k, |p.demand|)
  {
    SiteRows(p, val, k, |p.demand|);
    SiteSingle(At(p, val, SiteNode(p, k)), |p.capacity|, k);
  }

  lemma {:induction false} HubRows(p: Problem, val: Lane -> int, i: nat)
    requires IsProblem(p) && i <= |p.demand|
    ensures RowTotal(p, At(p, val, Hub(p)), i) == -UnmetTotal(val, i)
  {
    if i == 0 {
    } else {
      HubRows(p, val, i - 1);
      ShipZero(p, At(p, val, Hub(p)), i - 1, |p.capacity|);
    }
  }

  lemma HubTotal(p: Problem, val: Lane -> int)
    requires IsProblem(p)
    ensures GrandTotal(p, At(p, val, Hub(p))) == val(Spill) - UnmetTotal(val, |p.demand|)
  {
    HubRows(p, val, |p.demand|);
    SiteSingle(At(p, val, Hub(p)), |p.capacity|, |p.capacity|);
  }

  // ----- Cost -----------------------------------------------------------------

  ghost function Charge(p: Problem, penalty: int, val: Lane -> int): Lane -> int
    requires IsProblem(p)
  {
    (lane: Lane) => match lane
      case Ship(i, j) => if i < |p.demand| && j < |p.capacity| then val(lane) * UnitCost(p, i, j) else 0
      case Unmet(_) => val(lane) * penalty
      case _ => 0
  }

  lemma CostByLane(p: Problem, penalty: int, x: seq<int>, val: Lane -> int)
    requires IsProblem(p) && AllLanes(p, Lanes(p)) && Carries(Lanes(p), x, val)
    ensures FlowCost(Network(p, penalty, Lanes(p)), x) == GrandTotal(p, Charge(p, penalty, val))
  {
    var lanes := Lanes(p);
    var net, f := Network(p, penalty, lanes), Charge(p, penalty, val);
    forall e | 0 <= e < |lanes|
      ensures x[e] * Costs(net)[e] == f(lanes[e])
    {
      assert net[e] == ArcOf(p, penalty, lanes[e]);
      assert IsLane(p, lanes[e]);
    }
    DotIsLaneSum(lanes, x, Costs(net), f, |lanes|);
    assert lanes[..|lanes|] == lanes;
    LanesSum(p, f);
  }

  // ----- Plans and lane values ------------------------------------------------

  /** The lane values on row `i` and below are those of plan `a`. */
  ghost predicate Agrees(p: Problem, a: Plan, val: Lane -> int)
    requires IsProblem(p)
  {
    && HasShape(p, a)
    && forall i, j :: 0 <= i < |a| && 0 <= j < |p.capacity| ==>
         a[i][j] == if Eligible(p, i, j) then val(Ship(i, j)) else 0
  }

  lemma {:induction false} AgreeShips(p: Problem, a: Plan, val: Lane -> int, penalty: int, i: nat, j: nat)
    requires IsProblem(p) && Agrees(p, a, val) && i < |a| && j <= |p.capacity|
    ensures ShipTotal(p, val, i, j) == Served(a, i, j)
    ensures ShipTotal(p, Charge(p, penalty, val), i, j) == RowCost(p, a, i, j)
  {
    if j == 0 {
    } else {
      AgreeShips(p, a, val, penalty, i, j - 1);
    }
  }

  lemma {:induction false} AgreeLoads(p: Problem, a: Plan, val: Lane -> int, j: nat, i: nat)
    requires IsProblem(p) && Agrees(p, a, val) && i <= |a| && j < |p.capacity|
    ensures InTotal(p, val, j, i) == Load(a, j, i)
  {
    if i == 0 {
    } else {
      AgreeLoads(p, a, val, j, i - 1);
    }
  }

  lemma {:induction false} AgreeCosts(p: Problem, a: Plan, val: Lane -> int, penalty: int, i: nat)
    requires IsProblem(p) && Agrees(p, a, val) && i <= |a|
    ensures RowTotal(p, Charge(p, penalty, val), i) == PlanCost(p, a, i) + penalty * UnmetTotal(val, i)
  {
    if i == 0 {
    } else {
      AgreeCosts(p, a, val, penalty, i - 1);
      AgreeShips(p, a, val, penalty, i - 1, |p.capacity|);
      assert penalty * (UnmetTotal(val, i - 1) + val(Unmet(i - 1)))
          == penalty * UnmetTotal(val, i - 1) + val(Unmet(i - 1)) * penalty;
    }
  }

  lemma {:induction false} AgreeCoverage(p: Problem, a: Plan, val: Lane -> int, i: nat)
    requires IsProblem(p) && Agrees(p, a, val) && i <= |a|
    requires forall r :: 0 <= r < i ==> val(Unmet(r)) == p.demand[r] - Served(a, r, |p.capacity|)
    ensures UnmetTotal(val, i) == TotalDemand(p.demand, i) - Covered(a, i)
  {
    if i == 0 {
    } else {
      AgreeCoverage(p, a, val, i - 1);
    }
  }

  /** The cost of a flow is that of its plan plus the penalty for what it leaves unmet. */
  lemma PlanFlowCost(p: Problem, penalty: int, x: seq<int>, val: Lane -> int, a: Plan)
    requires IsProblem(p) && AllLanes(p, Lanes(p)) && Carries(Lanes(p), x, val) && Agrees(p, a, val)
    ensures FlowCost(Network(p, penalty, Lanes(p)), x) == Cost(p, a) + penalty * UnmetTotal(val, |p.demand|)
  {
    CostByLane(p, penalty, x, val);
    AgreeCosts(p, a, val, penalty, |a|);
    var f := Charge(p, penalty, val);
    assert forall j :: 0 <= j < |p.capacity| ==> f(Site(j)) == 0;
    SiteSingle(f, |p.capacity|, |p.capacity|);
  }
}

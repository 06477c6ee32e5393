/**
 The allocation problem behind an optimised scenario: integer demand is shipped from
 facilities with limited capacity over eligible pairs only, covering as many units as
 possible and, among such allocations, as cheaply as possible.  The planner solves it
 as one minimum-cost flow in which an uncovered unit costs more than anything else.
 */
module Transport {
  import opened Basics
  import opened FlowNetwork

  /** `cost[i][j]` is the unit cost of serving demand `i` from facility `j`, if eligible. */
  datatype Problem = Problem(demand: seq<nat>, capacity: seq<nat>, cost: seq<seq<Option<nat>>>)

  predicate IsProblem(p: Problem) {
    |p.cost| == |p.demand| && forall i :: 0 <= i < |p.cost| ==> |p.cost[i]| == |p.capacity|
  }

  predicate Eligible(p: Problem, i: nat, j: nat)
    requires IsProblem(p) && i < |p.demand| && j < |p.capacity|
  {
    p.cost[i][j].Some?
  }

  // ----- Allocations ----------------------------------------------------------

  /** Units of demand `i` served by facility `j`. */
  type Plan = seq<seq<int>>

  ghost predicate HasShape(p: Problem, a: Plan) {
    |a| == |p.demand| && forall i :: 0 <= i < |a| ==> |a[i]| == |p.capacity|
  }

  function Served(a: Plan, i: nat, j: nat): int
    requires i < |a| && j <= |a[i]|
  {
    if j == 0 then 0 else Served(a, i, j - 1) + a[i][j - 1]
  }

  function Load(a: Plan, j: nat, i: nat): int
    requires i <= |a| && forall r :: 0 <= r < i ==> j < |a[r]|
  {
    if i == 0 then 0 else Load(a, j, i - 1) + a[i - 1][j]
  }

  function Covered(a: Plan, i: nat): int
    requires i <= |a|
  {
    if i == 0 then 0 else Covered(a, i - 1) + Served(a, i - 1, |a[i - 1]|)
  }

  function UnitCost(p: Problem, i: nat, j: nat): nat
    requires IsProblem(p) && i < |p.demand| && j < |p.capacity|
  {
    if p.cost[i][j].Some? then p.cost[i][j].value else 0
  }

  function RowCost(p: Problem, a: Plan, i: nat, j: nat): int
    requires IsProblem(p) && i < |p.demand| && i < |a| && j <= |p.capacity| && j <= |a[i]|
  {
    if j == 0 then 0 else RowCost(p, a, i, j - 1) + a[i][j - 1] * UnitCost(p, i, j - 1)
  }

  function PlanCost(p: Problem, a: Plan, i: nat): int
    requires IsProblem(p) && i <= |p.demand| && i <= |a| && forall r :: 0 <= r < i ==> |a[r]| == |p.capacity|
  {
    if i == 0 then 0 else PlanCost(p, a, i - 1) + RowCost(p, a, i - 1, |p.capacity|)
  }

  function TotalDemand(d: seq<nat>, i: nat): nat
    requires i <= |d|
  {
    if i == 0 then 0 else TotalDemand(d, i - 1) + d[i - 1]
  }

  /** `a` ships non-negative amounts over eligible pairs within demand and capacity. */
  ghost predicate Fits(p: Problem, a: Plan)
    requires IsProblem(p)
  {
    && HasShape(p, a)
    && (forall i, j :: 0 <= i < |a| && 0 <= j < |a[i]| ==>
          a[i][j] >= 0 && (a[i][j] > 0 ==> Eligible(p, i, j)))
    && (forall i :: 0 <= i < |a| ==> Served(a, i, |p.capacity|) <= p.demand[i])
    && (forall j :: 0 <= j < |p.capacity| ==> Load(a, j, |a|) <= p.capacity[j])
  }

  ghost function Coverage(a: Plan): int { Covered(a, |a|) }

  ghost function Cost(p: Problem, a: Plan): int
    requires IsProblem(p) && HasShape(p, a)
  {
    PlanCost(p, a, |a|)
  }

  /** `a` covers as much as any plan that fits, and costs no more than any that covers as much. */
  ghost predicate Optimal(p: Problem, a: Plan)
    requires IsProblem(p)
  {
    && Fits(p, a)
    && forall b :: Fits(p, b) ==>
         Coverage(b) < Coverage(a) || (Coverage(b) == Coverage(a) && Cost(p, a) <= Cost(p, b))
  }

  // ----- The network ----------------------------------------------------------

  /** The edges of the flow network, by what they stand for. */
  datatype Lane = Supply(i: nat) | Ship(i: nat, j: nat) | Unmet(i: nat) | Site(j: nat) | Spill

  function ShipLanes(p: Problem, i: nat, j: nat): seq<Lane>
    requires IsProblem(p) && i < |p.demand| && j <= |p.capacity|
  {
    if j == 0 then []
    else ShipLanes(p, i, j - 1) + (if Eligible(p, i, j - 1) then [Ship(i, j - 1)] else [])
  }

  function RowLanes(p: Problem, i: nat): seq<Lane>
    requires IsProblem(p) && i <= |p.demand|
  {
    if i == 0 then []
    else RowLanes(p, i - 1) + [Supply(i - 1)] + ShipLanes(p, i - 1, |p.capacity|) + [Unmet(i - 1)]
  }

  function SiteLanes(j: nat): seq<Lane> {
    if j == 0 then [] else SiteLanes(j - 1) + [Site(j - 1)]
  }

  function Lanes(p: Problem): seq<Lane>
    requires IsProblem(p)
  {
    RowLanes(p, |p.demand|) + SiteLanes(|p.capacity|) + [Spill]
  }

  function NodeCount(p: Problem): nat { |p.demand| + |p.capacity| + 3 }
  function DemandNode(i: nat): nat { 1 + i }
  function SiteNode(p: Problem, j: nat): nat { 1 + |p.demand| + j }
  function Hub(p: Problem): nat { 1 + |p.demand| + |p.capacity| }
  function SinkNode(p: Problem): nat { Hub(p) + 1 }

  predicate IsLane(p: Problem, lane: Lane)
    requires IsProblem(p)
  {
    match lane
    case Supply(i) => i < |p.demand|
    case Ship(i, j) => i < |p.demand| && j < |p.capacity| && Eligible(p, i, j)
    case Unmet(i) => i < |p.demand|
    case Site(j) => j < |p.capacity|
    case Spill => true
  }

  function ArcOf(p: Problem, penalty: int, lane: Lane): Arc
    requires IsProblem(p) && IsLane(p, lane)
  {
    match lane
    case Supply(i) => Arc(0, DemandNode(i), p.demand[i], 0)
    case Ship(i, j) => Arc(DemandNode(i), SiteNode(p, j), p.demand[i], UnitCost(p, i, j))
    case Unmet(i) => Arc(DemandNode(i), Hub(p), p.demand[i], penalty)
    case Site(j) => Arc(SiteNode(p, j), SinkNode(p), p.capacity[j], 0)
    case Spill => Arc(Hub(p), SinkNode(p), TotalDemand(p.demand, |p.demand|), 0)
  }

  ghost predicate AllLanes(p: Problem, lanes: seq<Lane>)
    requires IsProblem(p)
  {
    forall e :: 0 <= e < |lanes| ==> IsLane(p, lanes[e])
  }

  ghost function Network(p: Problem, penalty: int, lanes: seq<Lane>): (net: seq<Arc>)
    requires IsProblem(p) && AllLanes(p, lanes)
    ensures |net| == |lanes|
  {
    seq(|lanes|, e requires 0 <= e < |lanes| => ArcOf(p, penalty, lanes[e]))
  }

  lemma {:induction false} ShipLanesShape(p: Problem, i: nat, j: nat)
    requires IsProblem(p) && i < |p.demand| && j <= |p.capacity|
    ensures forall e :: 0 <= e < |ShipLanes(p, i, j)| ==>
              var s := ShipLanes(p, i, j)[e];
              s.Ship? && s.i == i && s.j < j && IsLane(p, s)
    ensures Distinct(ShipLanes(p, i, j))
  {
    if j == 0 {
    } else {
      ShipLanesShape(p, i, j - 1);
    }
  }

  ghost predicate InRowsBelow(lane: Lane, i: nat) {
    match lane
    case Supply(r) => r < i
    case Ship(r, _) => r < i
    case Unmet(r) => r < i
    case _ => false
  }

  lemma {:induction false} RowLanesShape(p: Problem, i: nat)
    requires IsProblem(p) && i <= |p.demand|
    ensures AllLanes(p, RowLanes(p, i)) && Distinct(RowLanes(p, i))
    ensures forall e :: 0 <= e < |RowLanes(p, i)| ==> InRowsBelow(RowLanes(p, i)[e], i)
  {
    if i == 0 {
    } else {
      RowLanesShape(p, i - 1);
      ShipLanesShape(p, i - 1, |p.capacity|);
      var before, ships := RowLanes(p, i - 1), ShipLanes(p, i - 1, |p.capacity|);
      assert Distinct([Supply(i - 1)] + ships + [Unmet(i - 1)]);
      var row := [Supply(i - 1)] + ships + [Unmet(i - 1)];
      assert RowLanes(p, i) == before + row;
      assert forall e :: 0 <= e < |row| ==> !InRowsBelow(row[e], i - 1) && InRowsBelow(row[e], i) && IsLane(p, row[e]);
    }
  }

  lemma {:induction false} SiteLanesShape(p: Problem, j: nat)
    requires IsProblem(p) && j <= |p.capacity|
    ensures AllLanes(p, SiteLanes(j)) && |SiteLanes(j)| == j
    ensures forall e :: 0 <= e < j ==> SiteLanes(j)[e] == Site(e)
  {
    if j == 0 {
    } else {
      SiteLanesShape(p, j - 1);
    }
  }

  lemma LanesShape(p: Problem)
    requires IsProblem(p)
    ensures AllLanes(p, Lanes(p)) && Distinct(Lanes(p))
  {
    RowLanesShape(p, |p.demand|);
    SiteLanesShape(p, |p.capacity|);
  }
}

/**
 Solving an allocation problem with the planner's flow solver: building the network
 edge by edge, sending all of the demand, and reading the shipped units back off the
 edges.
 */
module Allocator {
  import opened Basics
  import opened FlowNetwork
  import opened ResidualGraph
  import opened MinCostFlow
  import opened Transport
  import opened TransportFlow
  import opened PlanOptimality

  // ----- Path costs stay below the sentinel -----------------------------------

  ghost predicate IsDemandNode(p: Problem, v: nat) { 1 <= v <= |p.demand| }

  ghost function DemandTails(p: Problem, net: seq<Arc>, path: seq<Step>): set<nat>
    requires IsStepSeq(net, path)
  {
    if path == [] then {}
    else
      var u := Tail(net, path[|path| - 1]);
      DemandTails(p, net, path[..|path| - 1]) + (if IsDemandNode(p, u) then {u} else {})
  }

  ghost predicate PassesHub(p: Problem, net: seq<Arc>, path: seq<Step>, v: nat)
    requires IsStepSeq(net, path)
  {
    v == Hub(p) || exists k :: 0 <= k < |path| && Tail(net, path[k]) == Hub(p)
  }

  lemma {:induction false} DemandTailsAreTails(p: Problem, net: seq<Arc>, path: seq<Step>)
    requires IsStepSeq(net, path)
    ensures forall u :: u in DemandTails(p, net, path) ==>
              IsDemandNode(p, u) && exists k :: 0 <= k < |path| && Tail(net, path[k]) == u
  {
    if path == [] {
    } else {
      var q := path[..|path| - 1];
      DemandTailsAreTails(p, net, q);
      forall u | u in DemandTails(p, net, path)
        ensures exists k :: 0 <= k < |path| && Tail(net, path[k]) == u
      {
        if u in DemandTails(p, net, q) {
          var k :| 0 <= k < |q| && Tail(net, q[k]) == u;
          assert path[k] == q[k];
        } else {
          assert Tail(net, path[|path| - 1]) == u;
        }
      }
    }
  }

  lemma StepCostInNetwork(p: Problem, penalty: nat, most: nat, lanes: seq<Lane>, h: Step)
    requires IsProblem(p) && CostsAtMost(p, most) && AllLanes(p, lanes) && h.e < |lanes|
    ensures var net := Network(p, penalty, lanes);
            && (StepCost(net, h) <= 0
                || (IsDemandNode(p, Tail(net, h)) && StepCost(net, h) <= most)
                || (Head(net, h) == Hub(p) && Tail(net, h) != Hub(p) && StepCost(net, h) <= penalty))
  {
    assert Network(p, penalty, lanes)[h.e] == ArcOf(p, penalty, lanes[h.e]);
    assert IsLane(p, lanes[h.e]);
  }

  lemma TailIsFresh(p: Problem, net: seq<Arc>, path: seq<Step>, v: nat)
    requires IsSimplePath(net, 0, path, v) && path != []
    ensures var q, u := path[..|path| - 1], Tail(net, path[|path| - 1]);
            |DemandTails(p, net, path)| == |DemandTails(p, net, q)| + (if IsDemandNode(p, u) then 1 else 0)
  {
    var q, u := path[..|path| - 1], Tail(net, path[|path| - 1]);
    DemandTailsAreTails(p, net, q);
    assert q == [] || Avoids(net, q, u);
  }

  /** A simple path pays for each demand node it leaves at most once, and for the hub
      at most once. */
  lemma {:induction false} SimplePathCost(p: Problem, penalty: nat, most: nat, lanes: seq<Lane>, path: seq<Step>,
                                          v: nat)
    requires IsProblem(p) && CostsAtMost(p, most) && AllLanes(p, lanes)
    requires IsSimplePath(Network(p, penalty, lanes), 0, path, v)
    ensures var net := Network(p, penalty, lanes);
            PathCost(net, path) <=
              most * |DemandTails(p, net, path)| + (if PassesHub(p, net, path, v) then penalty else 0)
    decreases |path|
  {
    if path == [] {
    } else {
      var net := Network(p, penalty, lanes);
      var h, q := path[|path| - 1], path[..|path| - 1];
      SimplePathCost(p, penalty, most, lanes, q, Tail(net, h));
      StepCostInNetwork(p, penalty, most, lanes, h);
      TailIsFresh(p, net, path, v);
      HubOnce(p, net, path, v);
      PathPays(most, penalty, PathCost(net, q), StepCost(net, h), |DemandTails(p, net, q)|, |DemandTails(p, net, path)|,
               PassesHub(p, net, q, Tail(net, h)), PassesHub(p, net, path, v), v == Hub(p));
    }
  }

  lemma PathPays(most: nat, penalty: nat, cost: int, step: int, count: nat, count': nat, hub: bool, hub': bool,
                 entersHub: bool)
    requires cost <= most * count + (if hub then penalty else 0)
    requires (hub ==> hub' && !entersHub) && (entersHub ==> hub')
    requires count' == count || count' == count + 1
    requires step <= 0 || (count' == count + 1 && step <= most) || (entersHub && step <= penalty)
    ensures cost + step <= most * count' + (if hub' then penalty else 0)
  {
    Distributes(most, count, 1);
  }

  lemma HubOnce(p: Problem, net: seq<Arc>, path: seq<Step>, v: nat)
    requires IsSimplePath(net, 0, path, v) && path != []
    ensures var q, u := path[..|path| - 1], Tail(net, path[|path| - 1]);
            && (PassesHub(p, net, q, u) ==> PassesHub(p, net, path, v) && v != Hub(p))
  {
    var q, u := path[..|path| - 1], Tail(net, path[|path| - 1]);
    if PassesHub(p, net, q, u) {
      var k :| 0 <= k < |path| && Tail(net, path[k]) == Hub(p) by {
        if u == Hub(p) {
          assert Tail(net, path[|path| - 1]) == Hub(p);
        } else {
          var k :| 0 <= k < |q| && Tail(net, q[k]) == Hub(p);
          assert path[k] == q[k];
        }
      }
      assert Avoids(net, path, v);
    }
  }

  lemma {:induction false} DemandNodesCount(p: Problem, m: nat, nodes: set<nat>)
    requires forall u :: u in nodes ==> 1 <= u <= m
    ensures |nodes| <= m
  {
    if m == 0 {
      assert nodes == {};
    } else {
      DemandNodesCount(p, m - 1, nodes - {m});
    }
  }

  /** The planner's costs are small enough for the solver's sentinel. */
  predicate SentinelSafe(p: Problem, most: nat) {
    |p.demand| * most + Penalty(most, TotalDemand(p.demand, |p.demand|)) < INFINITE
  }

  lemma SimplePathsStayBelow(p: Problem, most: nat, lanes: seq<Lane>)
    requires IsProblem(p) && CostsAtMost(p, most) && AllLanes(p, lanes) && SentinelSafe(p, most)
    ensures SimplePathsBelow(Network(p, Penalty(most, TotalDemand(p.demand, |p.demand|)), lanes), 0, INFINITE)
  {
    var penalty := Penalty(most, TotalDemand(p.demand, |p.demand|));
    var net := Network(p, penalty, lanes);
    forall path, v | IsSimplePath(net, 0, path, v)
      ensures PathCost(net, path) < INFINITE
    {
      SimplePathCost(p, penalty, most, lanes, path, v);
      DemandTailsAreTails(p, net, path);
      DemandNodesCount(p, |p.demand|, DemandTails(p, net, path));
      TimesMonotone(most, |DemandTails(p, net, path)|, |p.demand|);
    }
  }

  // ----- Building the network -------------------------------------------------

  ghost predicate AllZero(x: seq<int>) { forall e :: 0 <= e < |x| ==> x[e] == 0 }

  /** `flow` holds the empty flow on exactly these lanes. */
  ghost predicate Builds(flow: MinCostFlow, p: Problem, penalty: int, lanes: seq<Lane>)
    requires IsProblem(p)
    reads flow
  {
    && flow.Valid() && |flow.graph| == NodeCount(p) && AllLanes(p, lanes)
    && flow.layout.net == Network(p, penalty, lanes) && AllZero(flow.shipped)
  }

  /** The forward edge of `lane` sits at `at`. */
  ghost predicate Holds(l: Layout, lanes: seq<Lane>, lane: Lane, at: (nat, nat)) {
    && at.0 < |l.owner| && at.1 < |l.owner[at.0]|
    && l.owner[at.0][at.1] < |l.net| == |lanes|
    && l.net[l.owner[at.0][at.1]].src == at.0
    && lanes[l.owner[at.0][at.1]] == lane
  }

  /** Every position known before is still right. */
  ghost predicate Keeps(l: Layout, lanes: seq<Lane>, l': Layout, lanes': seq<Lane>) {
    forall k, a :: Holds(l, lanes, k, a) ==> Holds(l', lanes', k, a)
  }

  method AddLane(flow: MinCostFlow, p: Problem, penalty: int, ghost lanes: seq<Lane>, lane: Lane)
    returns (at: (nat, nat))
    requires IsProblem(p) && IsLane(p, lane) && Builds(flow, p, penalty, lanes)
    modifies flow
    ensures Builds(flow, p, penalty, lanes + [lane]) && Holds(flow.layout, lanes + [lane], lane, at)
    ensures Keeps(old(flow.layout), lanes, flow.layout, lanes + [lane])
  {
    var arc := ArcOf(p, penalty, lane);
    at := flow.AddEdge(arc.src, arc.dst, arc.cap, arc.cost);
    assert flow.layout.net == Network(p, penalty, lanes + [lane]);
  }

  ghost predicate ShipsHeld(l: Layout, p: Problem, lanes: seq<Lane>, i: nat, j: nat, ships: map<nat, (nat, nat)>)
    requires IsProblem(p) && i < |p.demand| && j <= |p.capacity|
  {
    && (forall k :: 0 <= k < j && Eligible(p, i, k) ==> k in ships)
    && (forall k :: k in ships ==> k < j && Eligible(p, i, k) && Holds(l, lanes, Ship(i, k), ships[k]))
  }

  ghost predicate RowHeld(l: Layout, p: Problem, lanes: seq<Lane>, i: nat, ships: map<nat, (nat, nat)>,
                          unmet: (nat, nat))
    requires IsProblem(p) && i < |p.demand|
  {
    ShipsHeld(l, p, lanes, i, |p.capacity|, ships) && Holds(l, lanes, Unmet(i), unmet)
  }

  ghost predicate RowsHeld(l: Layout, p: Problem, lanes: seq<Lane>, ships: seq<map<nat, (nat, nat)>>,
                           unmet: seq<(nat, nat)>)
    requires IsProblem(p)
  {
    && |ships| == |unmet| <= |p.demand|
    && forall i :: 0 <= i < |ships| ==> RowHeld(l, p, lanes, i, ships[i], unmet[i])
  }

  lemma RowsStayHeld(l: Layout, l': Layout, p: Problem, lanes: seq<Lane>, lanes': seq<Lane>,
                     ships: seq<map<nat, (nat, nat)>>, unmet: seq<(nat, nat)>)
    requires IsProblem(p) && RowsHeld(l, p, lanes, ships, unmet) && Keeps(l, lanes, l', lanes')
    ensures RowsHeld(l', p, lanes', ships, unmet)
  {
    forall i | 0 <= i < |ships|
      ensures RowHeld(l', p, lanes', i, ships[i], unmet[i])
    {
      assert RowHeld(l, p, lanes, i, ships[i], unmet[i]);
    }
  }

  lemma ShipsExtend(l0: Layout, before: seq<Lane>, l: Layout, lanes: seq<Lane>, l': Layout, lanes': seq<Lane>,
                    p: Problem, i: nat, j: nat, ships: map<nat, (nat, nat)>, at: (nat, nat))
    requires IsProblem(p) && i < |p.demand| && j < |p.capacity| && Eligible(p, i, j)
    requires ShipsHeld(l, p, lanes, i, j, ships) && Holds(l', lanes', Ship(i, j), at)
    requires Keeps(l0, before, l, lanes) && Keeps(l, lanes, l', lanes')
    ensures ShipsHeld(l', p, lanes', i, j + 1, ships[j := at]) && Keeps(l0, before, l', lanes')
  {
  }

  method AddShips(flow: MinCostFlow, p: Problem, penalty: int, i: nat, ghost before: seq<Lane>)
    returns (ships: map<nat, (nat, nat)>)
    requires IsProblem(p) && i < |p.demand| && Builds(flow, p, penalty, before)
    modifies flow
    ensures Builds(flow, p, penalty, before + ShipLanes(p, i, |p.capacity|))
    ensures ShipsHeld(flow.layout, p, before + ShipLanes(p, i, |p.capacity|), i, |p.capacity|, ships)
    ensures Keeps(old(flow.layout), before, flow.layout, before + ShipLanes(p, i, |p.capacity|))
  {
    ships := map[];
    ghost var lanes := before;
    for j := 0 to |p.capacity|
      invariant lanes == before + ShipLanes(p, i, j)
      invariant Builds(flow, p, penalty, lanes) && ShipsHeld(flow.layout, p, lanes, i, j, ships)
      invariant Keeps(old(flow.layout), before, flow.layout, lanes)
    {
      if p.cost[i][j].Some? {
        ghost var l := flow.layout;
        var at := AddLane(flow, p, penalty, lanes, Ship(i, j));
        ShipsExtend(old(flow.layout), before, l, lanes, flow.layout, lanes + [Ship(i, j)], p, i, j, ships, at);
        assert lanes + [Ship(i, j)] == before + ShipLanes(p, i, j + 1);
        ships := ships[j := at];
        lanes := lanes + [Ship(i, j)];
      }
    }
  }

  /** The edges of demand row `i`, with the positions the planner keeps for later. */
  method AddRow(flow: MinCostFlow, p: Problem, penalty: int, i: nat)
    returns (ships: map<nat, (nat, nat)>, unmet: (nat, nat))
    requires IsProblem(p) && i < |p.demand| && Builds(flow, p, penalty, RowLanes(p, i))
    modifies flow
    ensures Builds(flow, p, penalty, RowLanes(p, i + 1))
    ensures RowHeld(flow.layout, p, RowLanes(p, i + 1), i, ships, unmet)
    ensures Keeps(old(flow.layout), RowLanes(p, i), flow.layout, RowLanes(p, i + 1))
  {
    ghost var lanes := RowLanes(p, i) + [Supply(i)];
    var _ := AddLane(flow, p, penalty, RowLanes(p, i), Supply(i));
    ships := AddShips(flow, p, penalty, i, lanes);
    unmet := AddLane(flow, p, penalty, lanes + ShipLanes(p, i, |p.capacity|), Unmet(i));
  }

  method BuildNetwork(p: Problem, penalty: int)
    returns (flow: MinCostFlow, ships: seq<map<nat, (nat, nat)>>, unmet: seq<(nat, nat)>)
    requires IsProblem(p)
    ensures fresh(flow) && Builds(flow, p, penalty, Lanes(p))
    ensures |ships| == |p.demand| && RowsHeld(flow.layout, p, Lanes(p), ships, unmet)
  {
    flow := new MinCostFlow(NodeCount(p));
    ships, unmet := [], [];
    for i := 0 to |p.demand|
      invariant fresh(flow) && Builds(flow, p, penalty, RowLanes(p, i)) && |ships| == i
      invariant RowsHeld(flow.layout, p, RowLanes(p, i), ships, unmet)
    {
      ghost var l := flow.layout;
      var s, u := AddRow(flow, p, penalty, i);
      RowsStayHeld(l, flow.layout, p, RowLanes(p, i), RowLanes(p, i + 1), ships, unmet);
      ships, unmet := ships + [s], unmet + [u];
    }
    AddSites(flow, p, penalty, ships, unmet);
  }

  method AddSites(flow: MinCostFlow, p: Problem, penalty: int, ghost ships: seq<map<nat, (nat, nat)>>,
                  ghost unmet: seq<(nat, nat)>)
    requires IsProblem(p) && Builds(flow, p, penalty, RowLanes(p, |p.demand|))
    requires RowsHeld(flow.layout, p, RowLanes(p, |p.demand|), ships, unmet)
    modifies flow
    ensures Builds(flow, p, penalty, Lanes(p)) && RowsHeld(flow.layout, p, Lanes(p), ships, unmet)
  {
    ghost var lanes := RowLanes(p, |p.demand|);
    for j := 0 to |p.capacity|
      invariant lanes == RowLanes(p, |p.demand|) + SiteLanes(j)
      invariant Builds(flow, p, penalty, lanes) && RowsHeld(flow.layout, p, lanes, ships, unmet)
    {
      ghost var l := flow.layout;
      var _ := AddLane(flow, p, penalty, lanes, Site(j));
      RowsStayHeld(l, flow.layout, p, lanes, lanes + [Site(j)], ships, unmet);
      lanes := lanes + [Site(j)];
    }
    ghost var l := flow.layout;
    var _ := AddLane(flow, p, penalty, lanes, Spill);
    RowsStayHeld(l, flow.layout, p, lanes, Lanes(p), ships, unmet);
  }

  // ----- Sending and reading back ---------------------------------------------

  lemma EmptyFlowCostsOpen(g: Graph, l: Layout, p: Problem, penalty: nat, lanes: seq<Lane>, x: seq<int>)
    requires Represents(g, l, x) && IsProblem(p) && AllLanes(p, lanes) && l.net == Network(p, penalty, lanes)
    requires AllZero(x)
    ensures NonNegativeOpenCosts(g)
  {
    forall u, i | 0 <= u < |g| && 0 <= i < |g[u]| && g[u][i].capacity > 0
      ensures g[u][i].cost >= 0
    {
      EdgeIsStep(g, l, x, u, i);
      var e := l.owner[u][i];
      assert l.net[e] == ArcOf(p, penalty, lanes[e]) && x[e] == 0 && IsLane(p, lanes[e]);
    }
  }

  lemma EmptyFlowBalances(net: seq<Arc>, n: nat, x: seq<int>, v: nat)
    requires IsNetwork(net, n) && |x| == |net| && AllZero(x)
    ensures Balance(net, n, x, v) == 0
  {
    var w := Drops(net, n, Indicator(n, v));
    DotNonNegative(x, w, |net|);
    DotNonPositive(x, w, |net|);
  }

  ghost function NoPlan(p: Problem): Plan {
    seq(|p.demand|, _ => seq(|p.capacity|, _ => 0))
  }

  lemma {:induction false} NoPlanServes(p: Problem, i: nat, j: nat)
    requires i < |p.demand| && j <= |p.capacity|
    ensures Served(NoPlan(p), i, j) == 0
  {
    if j == 0 {
    } else {
      NoPlanServes(p, i, j - 1);
    }
  }

  lemma {:induction false} NoPlanLoads(p: Problem, j: nat, i: nat)
    requires i <= |p.demand| && j < |p.capacity|
    ensures Load(NoPlan(p), j, i) == 0
  {
    if i == 0 {
    } else {
      NoPlanLoads(p, j, i - 1);
    }
  }

  lemma NoPlanFits(p: Problem)
    requires IsProblem(p)
    ensures Fits(p, NoPlan(p))
  {
    forall i | 0 <= i < |p.demand| ensures Served(NoPlan(p), i, |p.capacity|) == 0 { NoPlanServes(p, i, |p.capacity|); }
    forall j | 0 <= j < |p.capacity| ensures Load(NoPlan(p), j, |p.demand|) == 0 { NoPlanLoads(p, j, |p.demand|); }
  }

  lemma FullFlowBoundsSent(p: Problem, penalty: int, x0: seq<int>, sent: int, y: seq<int>)
    requires IsProblem(p) && AllLanes(p, Lanes(p)) && |x0| == |Lanes(p)| && AllZero(x0)
    requires IsNetwork(Network(p, penalty, Lanes(p)), NodeCount(p))
    requires AtMost(Network(p, penalty, Lanes(p)), NodeCount(p), x0, 0, SinkNode(p), sent)
    requires Feasible(Network(p, penalty, Lanes(p)), y) && ShipsAll(p, Network(p, penalty, Lanes(p)), y)
    ensures TotalDemand(p.demand, |p.demand|) <= sent
  {
    var net := Network(p, penalty, Lanes(p));
    forall v | 0 <= v < NodeCount(p) && v != SinkNode(p)
      ensures Balance(net, NodeCount(p), x0, v) == 0
    {
      EmptyFlowBalances(net, NodeCount(p), x0, v);
    }
    assert Reroutes(net, NodeCount(p), x0, 0, SinkNode(p), y);
  }

  /** All demand can always be sent, if need be through the hub. */
  lemma EverythingCanBeSent(p: Problem, penalty: int, x0: seq<int>, sent: int)
    requires IsProblem(p) && AllLanes(p, Lanes(p)) && |x0| == |Lanes(p)| && AllZero(x0)
    requires IsNetwork(Network(p, penalty, Lanes(p)), NodeCount(p))
    requires AtMost(Network(p, penalty, Lanes(p)), NodeCount(p), x0, 0, SinkNode(p), sent)
    ensures TotalDemand(p.demand, |p.demand|) <= sent
  {
    NoPlanFits(p);
    PlanIsFeasible(p, penalty, NoPlan(p));
    PlanShipsAll(p, penalty, NoPlan(p));
    FullFlowBoundsSent(p, penalty, x0, sent, FlowOf(Lanes(p), ValuesOf(p, NoPlan(p))));
  }

  lemma SentIsShippedAll(p: Problem, penalty: int, x0: seq<int>, x: seq<int>)
    requires IsProblem(p) && AllLanes(p, Lanes(p)) && |x0| == |Lanes(p)| && AllZero(x0)
    requires IsNetwork(Network(p, penalty, Lanes(p)), NodeCount(p))
    requires Moved(Network(p, penalty, Lanes(p)), NodeCount(p), x0, 0, SinkNode(p),
                   TotalDemand(p.demand, |p.demand|), x)
    ensures ShipsAll(p, Network(p, penalty, Lanes(p)), x)
  {
    var net := Network(p, penalty, Lanes(p));
    forall v | 0 <= v < NodeCount(p) - 1
      ensures Balance(net, NodeCount(p), x, v) == if v == 0 then TotalDemand(p.demand, |p.demand|) else 0
    {
      EmptyFlowBalances(net, NodeCount(p), x0, v);
    }
  }

  /** The used part of an edge is the flow on its lane. */
  lemma HeldUnits(g: Graph, l: Layout, x: seq<int>, lanes: seq<Lane>, lane: Lane, at: (nat, nat))
    requires Represents(g, l, x) && Holds(l, lanes, lane, at) && Distinct(lanes) && |x| == |lanes|
    ensures at.0 < |g| && at.1 < |g[at.0]|
    ensures g[at.0][at.1].originalCapacity - g[at.0][at.1].capacity == Values(lanes, x)(lane)
  {
    assert Pictured(g, l, x, at.0, at.1);
    LookupFinds(lanes, x, l.owner[at.0][at.1]);
  }

  ghost predicate RowRead(p: Problem, val: Lane -> int, i: nat, row: seq<int>, uncovered: int)
    requires IsProblem(p) && i < |p.demand|
  {
    && |row| == |p.capacity| && uncovered == val(Unmet(i))
    && forall j :: 0 <= j < |row| ==> row[j] == if Eligible(p, i, j) then val(Ship(i, j)) else 0
  }

  method ReadRow(g: Graph, ghost l: Layout, ghost x: seq<int>, p: Problem, i: nat, ships: map<nat, (nat, nat)>,
                 unmet: (nat, nat))
    returns (row: seq<int>, uncovered: int)
    requires IsProblem(p) && i < |p.demand| && Represents(g, l, x) && Distinct(Lanes(p)) && |x| == |Lanes(p)|
    requires RowHeld(l, p, Lanes(p), i, ships, unmet)
    ensures RowRead(p, Values(Lanes(p), x), i, row, uncovered)
  {
    row := [];
    ghost var val := Values(Lanes(p), x);
    for j := 0 to |p.capacity|
      invariant |row| == j
      invariant forall k :: 0 <= k < j ==> row[k] == if Eligible(p, i, k) then val(Ship(i, k)) else 0
    {
      if j in ships {
        HeldUnits(g, l, x, Lanes(p), Ship(i, j), ships[j]);
        var edge := g[ships[j].0][ships[j].1];
        row := row + [edge.originalCapacity - edge.capacity];
      } else {
        row := row + [0];
      }
    }
    HeldUnits(g, l, x, Lanes(p), Unmet(i), unmet);
    uncovered := g[unmet.0][unmet.1].originalCapacity - g[unmet.0][unmet.1].capacity;
  }

  /** Sends the demand; all of it always arrives, and the flow is a cheapest one. */
  method SendDemand(flow: MinCostFlow, p: Problem, maxUnitCost: nat, penalty: nat)
    requires IsProblem(p) && CostsAtMost(p, maxUnitCost) && SentinelSafe(p, maxUnitCost)
    requires penalty == Penalty(maxUnitCost, TotalDemand(p.demand, |p.demand|))
    requires Builds(flow, p, penalty, Lanes(p)) && Distinct(Lanes(p))
    modifies flow
    ensures flow.Valid() && flow.layout == old(flow.layout)
    ensures |flow.shipped| == |Lanes(p)|
    ensures FullFlow(p, penalty, flow.shipped, Values(Lanes(p), flow.shipped))
    ensures CheapestFlow(p, penalty, flow.shipped)
  {
    SimplePathsStayBelow(p, maxUnitCost, Lanes(p));
    EmptyFlowCostsOpen(flow.graph, flow.layout, p, penalty, Lanes(p), flow.shipped);
    ghost var x0 := flow.shipped;
    var totalDemand := TotalDemand(p.demand, |p.demand|);
    var sent, _ := flow.Send(0, SinkNode(p), totalDemand);
    if sent < totalDemand {
      EverythingCanBeSent(p, penalty, x0, sent);
    }
    assert sent == totalDemand;
    SentIsShippedAll(p, penalty, x0, flow.shipped);
    FlowIsFull(p, penalty, flow.shipped);
  }

  method ReadPlan(g: Graph, ghost l: Layout, ghost x: seq<int>, p: Problem, ships: seq<map<nat, (nat, nat)>>,
                  unmet: seq<(nat, nat)>)
    returns (plan: Plan, uncovered: seq<int>)
    requires IsProblem(p) && Represents(g, l, x) && Distinct(Lanes(p)) && |x| == |Lanes(p)|
    requires |ships| == |p.demand| && RowsHeld(l, p, Lanes(p), ships, unmet)
    ensures Agrees(p, plan, Values(Lanes(p), x))
    ensures |uncovered| == |p.demand| && forall i :: 0 <= i < |p.demand| ==>
              uncovered[i] == Values(Lanes(p), x)(Unmet(i))
  {
    plan, uncovered := [], [];
    ghost var val := Values(Lanes(p), x);
    for i := 0 to |p.demand|
      invariant |plan| == |uncovered| == i
      invariant forall r :: 0 <= r < i ==> RowRead(p, val, r, plan[r], uncovered[r])
    {
      assert RowHeld(l, p, Lanes(p), i, ships[i], unmet[i]);
      var row, rest := ReadRow(g, l, x, p, i, ships[i], unmet[i]);
      plan, uncovered := plan + [row], uncovered + [rest];
    }
  }

  /** The whole optimisation step of an evaluation. */
  method Allocate(p: Problem, maxUnitCost: nat) returns (plan: Plan, uncovered: seq<int>)
    requires IsProblem(p) && CostsAtMost(p, maxUnitCost) && SentinelSafe(p, maxUnitCost)
    ensures Optimal(p, plan)
    ensures |uncovered| == |p.demand|
    ensures forall i :: 0 <= i < |uncovered| ==> uncovered[i] == p.demand[i] - Served(plan, i, |p.capacity|)
  {
    var penalty := Penalty(maxUnitCost, TotalDemand(p.demand, |p.demand|));
    LanesShape(p);
    var flow, ships, unmet := BuildNetwork(p, penalty);
    SendDemand(flow, p, maxUnitCost, penalty);
    plan, uncovered := ReadPlan(flow.graph, flow.layout, flow.shipped, p, ships, unmet);
    ghost var val := Values(Lanes(p), flow.shipped);
    CheapestFlowIsOptimalPlan(p, maxUnitCost, flow.shipped, val, plan);
    forall i | 0 <= i < |p.demand| ensures uncovered[i] == p.demand[i] - Served(plan, i, |p.capacity|) {
      FullRow(p, penalty, flow.shipped, val, plan, i);
    }
  }
}

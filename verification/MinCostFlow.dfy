/**
 The planner's minimum-cost flow: shortest augmenting paths under potentials that are
 raised only for the nodes the last search reached.
 */
module MinCostFlow {
  import opened FlowNetwork
  import opened ResidualGraph
  import opened ShortestPaths

  // ----- From the residual graph to the search --------------------------------

  ghost function Hops(l: Layout): (hop: seq<seq<Step>>)
    requires Indexed(l)
    ensures |hop| == |l.owner|
  {
    seq(|l.owner|, u requires 0 <= u < |l.owner| => HopsOf(l, u))
  }

  ghost function HopsOf(l: Layout, u: nat): (hop: seq<Step>)
    requires Indexed(l) && u < |l.owner|
    ensures |hop| == |l.owner[u]|
  {
    seq(|l.owner[u]|, i requires 0 <= i < |l.owner[u]| => assert SlotSeated(l, u, i); StepAt(l, u, i))
  }

  lemma HopsMirror(g: Graph, l: Layout, x: seq<int>)
    requires Represents(g, l, x)
    ensures Mirrors(g, l.net, Hops(l))
  {
    var hop := Hops(l);
    forall u | 0 <= u < |g|
      ensures |g[u]| == |hop[u]|
    {
      assert hop[u] == HopsOf(l, u);
    }
    forall u, i | 0 <= u < |g| && 0 <= i < |g[u]|
      ensures HopAt(g, l.net, hop, u, i)
    {
      assert hop[u] == HopsOf(l, u);
      EdgeIsStep(g, l, x, u, i);
    }
  }

  ghost function Top(lev: seq<int>, s: nat): set<nat>
    requires s < |lev|
  {
    set v: nat | v < |lev| && lev[v] == lev[s]
  }

  /** No node is above `s`. */
  ghost predicate Tops(lev: seq<int>, s: nat)
    requires s < |lev|
  {
    forall v :: 0 <= v < |lev| ==> lev[v] <= lev[s]
  }

  lemma GuardedIsCalm(g: Graph, pot: seq<int>, lev: seq<int>, s: nat)
    requires Guarded(g, pot, lev) && s < |g| && Tops(lev, s)
    ensures Calm(g, pot, Top(lev, s))
  {
    var top := Top(lev, s);
    forall u, i | u in top && 0 <= i < |g[u]|
      ensures CalmAt(g, pot, top, u, i)
    {
      assert GuardedAt(g, pot, lev, u, i);
    }
  }

  // ----- After a search -------------------------------------------------------

  /** The outcome of a completed search. */
  ghost predicate Searched(g: Graph, net: seq<Arc>, hop: seq<seq<Step>>, s: nat, pot: seq<int>, dist: seq<int>,
                           prevNode: seq<int>, prevEdge: seq<int>, trail: seq<seq<Step>>)
  {
    && Labels(g, net, hop, s, pot, dist, prevNode, prevEdge, trail, Reached(dist))
    && Finished(g, pot, dist, Reached(dist))
  }

  /** An open network step is an open edge of the graph. */
  lemma StepIsEdge(g: Graph, l: Layout, x: seq<int>, h: Step) returns (u: nat, i: nat)
    requires Represents(g, l, x) && h.e < |l.net|
    ensures u < |g| && i < |g[u]| && u == Tail(l.net, h)
    ensures g[u][i].to == Head(l.net, h) && g[u][i].cost == StepCost(l.net, h)
    ensures g[u][i].capacity > 0 <==> Open(l.net, x, h)
  {
    assert ArcSeated(l, h.e);
    u := Tail(l.net, h);
    i := if h.along then l.forward[h.e] else l.backward[h.e];
    assert Pictured(g, l, x, u, i);
  }

  /** No residual path is cheaper than the label it leads to, except that a label
      never exceeds the sentinel. */
  lemma {:induction false} NoCheaperPath(g: Graph, l: Layout, x: seq<int>, s: nat, pot: seq<int>, top: set<nat>,
                                         dist: seq<int>,
                      prevNode: seq<int>, prevEdge: seq<int>, trail: seq<seq<Step>>, p: seq<Step>, v: nat)
    requires Represents(g, l, x) && s < |g| && |pot| == |g| && pot[s] == 0 && Calm(g, pot, top) && s in top
    requires Searched(g, l.net, Hops(l), s, pot, dist, prevNode, prevEdge, trail)
    requires IsPath(l.net, s, p, v) && AllOpen(l.net, x, p)
    ensures v in top && v < |g| && (PathCost(l.net, p) - pot[v] < INFINITE ==> dist[v] + pot[v] <= PathCost(l.net, p))
    decreases |p|
  {
    if p == [] {
      assert Labelled(g, l.net, Hops(l), s, pot, dist, prevNode, prevEdge, trail, Reached(dist), s);
    } else {
      var h, q := p[|p| - 1], p[..|p| - 1];
      NoCheaperPath(g, l, x, s, pot, top, dist, prevNode, prevEdge, trail, q, Tail(l.net, h));
      assert Open(l.net, x, h);
      var u, i := StepIsEdge(g, l, x, h);
      assert CalmAt(g, pot, top, u, i);
      if PathCost(l.net, p) - pot[v] < INFINITE {
        assert u in Reached(dist);
        assert RelaxedAt(g, pot, dist, u, i);
      }
    }
  }

  /** Every finite label is the cost of some residual path. */
  lemma {:induction false} TrailIsOpen(g: Graph, l: Layout, x: seq<int>, s: nat, pot: seq<int>, dist: seq<int>,
                    prevNode: seq<int>, prevEdge: seq<int>, trail: seq<seq<Step>>, v: nat)
    requires Represents(g, l, x) && s < |g| && v < |g|
    requires Searched(g, l.net, Hops(l), s, pot, dist, prevNode, prevEdge, trail) && dist[v] < INFINITE
    ensures IsPath(l.net, s, trail[v], v) && AllOpen(l.net, x, trail[v])
    ensures PathCost(l.net, trail[v]) == dist[v] + pot[v]
    decreases |trail[v]|
  {
    assert Labelled(g, l.net, Hops(l), s, pot, dist, prevNode, prevEdge, trail, Reached(dist), v);
    if v != s {
      var p, i := prevNode[v], prevEdge[v];
      TrailIsOpen(g, l, x, s, pot, dist, prevNode, prevEdge, trail, p);
      EdgeIsStep(g, l, x, p, i);
      assert Hops(l)[p] == HopsOf(l, p);
      ExtendPath(l.net, s, trail[p], p, Hops(l)[p][i]);
    }
  }

  /** A residual path to `v` whose reduced length is below the sentinel. */
  ghost predicate ReachableBelowSentinel(net: seq<Arc>, x: seq<int>, s: nat, pot: seq<int>, v: nat)
    requires |x| == |net| && v < |pot|
  {
    exists p :: IsPath(net, s, p, v) && AllOpen(net, x, p) && PathCost(net, p) - pot[v] < INFINITE
  }

  /** The search finds exactly the nodes with such a path ... */
  lemma ReachedIffBelowSentinel(g: Graph, l: Layout, x: seq<int>, s: nat, pot: seq<int>, top: set<nat>, dist: seq<int>,
                                prevNode: seq<int>, prevEdge: seq<int>, trail: seq<seq<Step>>, v: nat)
    requires Represents(g, l, x) && s < |g| && |pot| == |g| && pot[s] == 0 && Calm(g, pot, top) && s in top && v < |g|
    requires Searched(g, l.net, Hops(l), s, pot, dist, prevNode, prevEdge, trail)
    ensures dist[v] < INFINITE <==> ReachableBelowSentinel(l.net, x, s, pot, v)
  {
    if dist[v] < INFINITE {
      TrailIsOpen(g, l, x, s, pot, dist, prevNode, prevEdge, trail, v);
    }
    if ReachableBelowSentinel(l.net, x, s, pot, v) {
      var p :| IsPath(l.net, s, p, v) && AllOpen(l.net, x, p) && PathCost(l.net, p) - pot[v] < INFINITE;
      NoCheaperPath(g, l, x, s, pot, top, dist, prevNode, prevEdge, trail, p, v);
    }
  }

  /** Open edges of reached nodes lead to reached nodes. */
  ghost predicate Closed(g: Graph, dist: seq<int>) {
    && |dist| == |g|
    && forall u, i :: u in Reached(dist) && 0 <= i < |g[u]| && g[u][i].capacity > 0 ==> g[u][i].to in Reached(dist)
  }

  /** ... and when no simple path is as expensive as the sentinel, it misses nothing. */
  lemma BelowSentinelCloses(g: Graph, net: seq<Arc>, hop: seq<seq<Step>>, s: nat, pot: seq<int>, dist: seq<int>,
                            prevNode: seq<int>, prevEdge: seq<int>, trail: seq<seq<Step>>)
    requires Mirrors(g, net, hop) && SimplePathsBelow(net, s, INFINITE)
    requires Searched(g, net, hop, s, pot, dist, prevNode, prevEdge, trail)
    requires forall v :: 0 <= v < |pot| ==> pot[v] >= 0
    ensures Closed(g, dist)
  {
    forall u, i | u in Reached(dist) && 0 <= i < |g[u]| && g[u][i].capacity > 0
      ensures g[u][i].to in Reached(dist)
    {
      assert HopAt(g, net, hop, u, i) && RelaxedAt(g, pot, dist, u, i);
      assert Labelled(g, net, hop, s, pot, dist, prevNode, prevEdge, trail, Reached(dist), u);
      if g[u][i].to !in Reached(dist) {
        ExtendTrail(net, s, trail[u], u, hop[u][i], Reached(dist));
      }
    }
  }

  lemma {:induction false} ClosedReachesAll(g: Graph, l: Layout, x: seq<int>, s: nat, dist: seq<int>, p: seq<Step>,
                                            v: nat)
    requires Represents(g, l, x) && Closed(g, dist) && s in Reached(dist)
    requires IsPath(l.net, s, p, v) && AllOpen(l.net, x, p)
    ensures v in Reached(dist)
    decreases |p|
  {
    if p == [] {
    } else {
      var h := p[|p| - 1];
      ClosedReachesAll(g, l, x, s, dist, p[..|p| - 1], Tail(l.net, h));
      assert Open(l.net, x, h);
      var u, i := StepIsEdge(g, l, x, h);
    }
  }

  lemma ReachedIffReachable(g: Graph, l: Layout, x: seq<int>, s: nat, pot: seq<int>, dist: seq<int>,
                            prevNode: seq<int>, prevEdge: seq<int>, trail: seq<seq<Step>>, v: nat)
    requires Represents(g, l, x) && s < |g| && v < |g| && SimplePathsBelow(l.net, s, INFINITE)
    requires Searched(g, l.net, Hops(l), s, pot, dist, prevNode, prevEdge, trail)
    requires forall u :: 0 <= u < |pot| ==> pot[u] >= 0
    ensures dist[v] < INFINITE <==> Reachable(l.net, x, s, v)
  {
    HopsMirror(g, l, x);
    BelowSentinelCloses(g, l.net, Hops(l), s, pot, dist, prevNode, prevEdge, trail);
    assert Labelled(g, l.net, Hops(l), s, pot, dist, prevNode, prevEdge, trail, Reached(dist), s);
    if dist[v] < INFINITE {
      TrailIsOpen(g, l, x, s, pot, dist, prevNode, prevEdge, trail, v);
    }
    if Reachable(l.net, x, s, v) {
      var p :| IsPath(l.net, s, p, v) && AllOpen(l.net, x, p);
      ClosedReachesAll(g, l, x, s, dist, p, v);
    }
  }

  /** One arc as expensive as the sentinel hides a sink that has a residual path: the
      search reports it unreached, so the solver would ship nothing. */
  lemma SentinelHidesSink(g: Graph, l: Layout, pot: seq<int>, top: set<nat>, dist: seq<int>,
                          prevNode: seq<int>, prevEdge: seq<int>, trail: seq<seq<Step>>)
    requires l.net == [Arc(0, 1, 1, INFINITE)] && |g| == 2 && Represents(g, l, [0])
    requires pot == [0, 0] && Calm(g, pot, top) && 0 in top
    requires Searched(g, l.net, Hops(l), 0, pot, dist, prevNode, prevEdge, trail)
    ensures Reachable(l.net, [0], 0, 1) && dist[1] == INFINITE && prevNode[1] == -1
    ensures Feasible(l.net, [1]) && IsNetwork(l.net, 2) && Gain(l.net, 2, [0], 0, [1]) == 1
  {
    var h := Step(0, true);
    ExtendPath(l.net, 0, [], 0, h);
    assert [] + [h] == [h];
    assert IsPath(l.net, 0, [h], 1) && AllOpen(l.net, [0], [h]);
    ShiftBalance(l.net, 2, [0], h, 1, 0);
    assert Shift(l.net, [0], h, 1) == [1];
    ReachedIffBelowSentinel(g, l, [0], 0, pot, top, dist, prevNode, prevEdge, trail, 1);
    if ReachableBelowSentinel(l.net, [0], 0, pot, 1) {
      var p :| IsPath(l.net, 0, p, 1) && AllOpen(l.net, [0], p) && PathCost(l.net, p) - pot[1] < INFINITE;
      OnlyForward(l.net, p, 1);
    }
    assert Labelled(g, l.net, Hops(l), 0, pot, dist, prevNode, prevEdge, trail, Reached(dist), 1);
  }

  /** On the single arc, residual paths to its head cost at least the arc. */
  lemma {:induction false} OnlyForward(net: seq<Arc>, p: seq<Step>, v: nat)
    requires net == [Arc(0, 1, 1, INFINITE)] && IsPath(net, 0, p, v) && AllOpen(net, [0], p)
    ensures v <= 1 && PathCost(net, p) == v * INFINITE
  {
    if p == [] {
    } else {
      assert Open(net, [0], p[|p| - 1]);
      OnlyForward(net, p[..|p| - 1], Tail(net, p[|p| - 1]));
    }
  }

  // ----- Raising potentials ---------------------------------------------------

  ghost function Repriced(pot: seq<int>, dist: seq<int>): (r: seq<int>)
    requires |pot| == |dist|
    ensures |r| == |pot|
  {
    seq(|pot|, v requires 0 <= v < |pot| => if dist[v] < INFINITE then pot[v] + dist[v] else pot[v])
  }

  /** Reached nodes move to a new top level; the others keep theirs. */
  ghost function Raised(lev: seq<int>, dist: seq<int>, s: nat): (r: seq<int>)
    requires |lev| == |dist| && s < |lev|
    ensures |r| == |lev|
  {
    seq(|lev|, v requires 0 <= v < |lev| => if dist[v] < INFINITE then lev[s] + 1 else lev[v])
  }

  method Reprice(potential0: seq<int>, distance: seq<int>) returns (potential: seq<int>)
    requires |potential0| == |distance|
    ensures potential == Repriced(potential0, distance)
  {
    potential := potential0;
    for node := 0 to |distance|
      invariant |potential| == |potential0|
      invariant forall v :: 0 <= v < node ==> potential[v] == Repriced(potential0, distance)[v]
      invariant forall v :: node <= v < |potential| ==> potential[v] == potential0[v]
    {
      if distance[node] < INFINITE {
        potential := potential[node := potential[node] + distance[node]];
      }
    }
  }

  lemma RepricingKeepsGuard(g: Graph, pot: seq<int>, lev: seq<int>, s: nat, dist: seq<int>)
    requires Guarded(g, pot, lev) && |dist| == |g| && s < |g| && Tops(lev, s) && dist[s] == 0
    requires Finished(g, pot, dist, Reached(dist)) && Closed(g, dist)
    ensures Guarded(g, Repriced(pot, dist), Raised(lev, dist, s))
    ensures Tops(Raised(lev, dist, s), s)
  {
    forall u, i | 0 <= u < |g| && 0 <= i < |g[u]|
      ensures GuardedAt(g, Repriced(pot, dist), Raised(lev, dist, s), u, i)
    {
      assert GuardedAt(g, pot, lev, u, i);
      if dist[u] < INFINITE {
        assert u in Reached(dist);
        assert RelaxedAt(g, pot, dist, u, i);
      }
    }
  }

  /** Nodes that a residual path can reach stay on the top level, so the reachable set
      never grows from one round to the next. */
  lemma {:induction false} OpenPathsStayOnTop(g: Graph, l: Layout, x: seq<int>, pot: seq<int>, lev: seq<int>, s: nat,
                                              p: seq<Step>, v: nat)
    requires Represents(g, l, x) && Guarded(g, pot, lev) && s < |g| && Tops(lev, s)
    requires IsPath(l.net, s, p, v) && AllOpen(l.net, x, p)
    ensures v < |g| && lev[v] == lev[s]
    decreases |p|
  {
    if p == [] {
    } else {
      var h := p[|p| - 1];
      OpenPathsStayOnTop(g, l, x, pot, lev, s, p[..|p| - 1], Tail(l.net, h));
      assert Open(l.net, x, h);
      var u, i := StepIsEdge(g, l, x, h);
      assert GuardedAt(g, pot, lev, u, i);
    }
  }

  // ----- Walking the predecessor links ----------------------------------------

  /** The facts about predecessor links that the two walks use. */
  ghost predicate LinkAt(g: Graph, s: nat, dist: seq<int>, prevNode: seq<int>, prevEdge: seq<int>,
                         trail: seq<seq<Step>>, v: nat)
    requires |dist| == |prevNode| == |prevEdge| == |trail| == |g| && v < |g|
  {
    v != s && dist[v] < INFINITE ==>
      var p, i := prevNode[v], prevEdge[v];
      && 0 <= p < |g| && 0 <= i < |g[p]| && dist[p] < INFINITE
      && g[p][i].to == v && g[p][i].capacity > 0
      && |trail[v]| > 0 && trail[p] == trail[v][..|trail[v]| - 1]
  }

  ghost predicate Links(g: Graph, s: nat, dist: seq<int>, prevNode: seq<int>, prevEdge: seq<int>,
                        trail: seq<seq<Step>>) {
    && |dist| == |prevNode| == |prevEdge| == |trail| == |g|
    && s < |g| && dist[s] == 0 && trail[s] == []
    && (forall v :: 0 <= v < |g| ==> LinkAt(g, s, dist, prevNode, prevEdge, trail, v))
    && (forall v, w :: 0 <= v < |g| && 0 <= w < |g| && dist[v] < INFINITE && dist[w] < INFINITE ==>
          trail[v] == trail[w] ==> v == w)
  }

  lemma SearchedLinks(g: Graph, net: seq<Arc>, hop: seq<seq<Step>>, s: nat, pot: seq<int>, dist: seq<int>,
                      prevNode: seq<int>, prevEdge: seq<int>, trail: seq<seq<Step>>)
    requires s < |g| && Searched(g, net, hop, s, pot, dist, prevNode, prevEdge, trail)
    ensures Links(g, s, dist, prevNode, prevEdge, trail)
  {
    assert Labelled(g, net, hop, s, pot, dist, prevNode, prevEdge, trail, Reached(dist), s);
    forall v | 0 <= v < |g|
      ensures LinkAt(g, s, dist, prevNode, prevEdge, trail, v)
    {
      assert Labelled(g, net, hop, s, pot, dist, prevNode, prevEdge, trail, Reached(dist), v);
    }
    forall v, w | 0 <= v < |g| && 0 <= w < |g| && dist[v] < INFINITE && dist[w] < INFINITE && trail[v] == trail[w]
      ensures v == w
    {
      assert Labelled(g, net, hop, s, pot, dist, prevNode, prevEdge, trail, Reached(dist), v);
      assert Labelled(g, net, hop, s, pot, dist, prevNode, prevEdge, trail, Reached(dist), w);
    }
  }

  /** `w` lies on the predecessor walk from `v` back to `s`, `s` excluded. */
  ghost predicate OnRoute(s: nat, dist: seq<int>, trail: seq<seq<Step>>, v: nat, w: nat)
    requires |dist| == |trail| && v < |trail| && w < |trail|
  {
    w != s && dist[w] < INFINITE && trail[w] <= trail[v]
  }

  ghost predicate RouteCarries(g: Graph, s: nat, dist: seq<int>, prevNode: seq<int>, prevEdge: seq<int>,
                               trail: seq<seq<Step>>, v: nat, amount: int)
    requires |dist| == |prevNode| == |prevEdge| == |trail| == |g| && v < |g|
  {
    forall w :: 0 <= w < |g| && OnRoute(s, dist, trail, v, w) ==>
      && 0 <= prevNode[w] < |g| && 0 <= prevEdge[w] < |g[prevNode[w]]|
      && g[prevNode[w]][prevEdge[w]].capacity >= amount
  }

  /** The most that `limit` and every edge of the walk allow; the walk ends at `source`. */
  method Bottleneck(g: Graph, source: nat, ghost distance: seq<int>, previousNode: seq<int>, previousEdge: seq<int>,
                    ghost trail: seq<seq<Step>>, sink: nat, limit: int)
    returns (increment: int)
    requires Links(g, source, distance, previousNode, previousEdge, trail)
    requires sink < |g| && distance[sink] < INFINITE && limit > 0
    ensures 0 < increment <= limit
    ensures RouteCarries(g, source, distance, previousNode, previousEdge, trail, sink, increment)
    ensures || increment == limit
            || !RouteCarries(g, source, distance, previousNode, previousEdge, trail, sink, increment + 1)
  {
    increment := limit;
    var node := sink;
    ghost var tight: nat := source;
    while node != source
      invariant 0 <= node < |g| && distance[node] < INFINITE && trail[node] <= trail[sink]
      invariant 0 < increment <= limit
      invariant forall w | 0 <= w < |g| && OnRoute(source, distance, trail, sink, w) ::
                  !OnRoute(source, distance, trail, node, w) ==>
                  && 0 <= previousNode[w] < |g| && 0 <= previousEdge[w] < |g[previousNode[w]]|
                  && g[previousNode[w]][previousEdge[w]].capacity >= increment
      invariant increment == limit ||
                (tight < |g| && OnRoute(source, distance, trail, sink, tight)
                 && 0 <= previousNode[tight] < |g| && 0 <= previousEdge[tight] < |g[previousNode[tight]]|
                 && g[previousNode[tight]][previousEdge[tight]].capacity == increment)
      decreases |trail[node]|
    {
      assert LinkAt(g, source, distance, previousNode, previousEdge, trail, node);
      var previous := previousNode[node];
      var edge := g[previous][previousEdge[node]];
      if edge.capacity < increment {
        increment := edge.capacity;
        tight := node;
      }
      forall w | 0 <= w < |g| && OnRoute(source, distance, trail, node, w)
          && !OnRoute(source, distance, trail, previous, w)
        ensures w == node
      {
        assert trail[w] == trail[node];
      }
      node := previous;
    }
    forall w | 0 <= w < |g|
      ensures !OnRoute(source, distance, trail, source, w)
    {
      assert LinkAt(g, source, distance, previousNode, previousEdge, trail, w);
    }
  }

  // ----- Augmenting -----------------------------------------------------------

  /** `y` is `x` with `amount` more sent from `s` to `t`. */
  ghost predicate Moved(net: seq<Arc>, n: nat, x: seq<int>, s: nat, t: nat, amount: int, y: seq<int>)
    requires IsNetwork(net, n) && |x| == |net|
  {
    && |y| == |net|
    && forall v :: 0 <= v < n ==>
         Balance(net, n, y, v) ==
           Balance(net, n, x, v) + (if v == s then amount else 0) - (if v == t then amount else 0)
  }

  /** Extending a shipment that starts at the step's head backwards over the step. */
  lemma ShiftExtendsMove(net: seq<Arc>, n: nat, x: seq<int>, h: Step, t: nat, amount: int, y: seq<int>)
    requires IsNetwork(net, n) && |x| == |net| && h.e < |net|
    requires Moved(net, n, x, Head(net, h), t, amount, y)
    ensures Moved(net, n, x, Tail(net, h), t, amount, Shift(net, y, h, amount))
  {
    forall v | 0 <= v < n
      ensures Balance(net, n, Shift(net, y, h, amount), v) == Balance(net, n, x, v)
                + (if v == Tail(net, h) then amount else 0) - (if v == t then amount else 0)
    {
      ShiftBalance(net, n, y, h, amount, v);
    }
  }

  /** Capacities change; ends and costs do not. */
  lemma SameShape(g: Graph, h: Graph, l: Layout, x: seq<int>, y: seq<int>, u: nat, i: nat)
    requires Represents(g, l, x) && Represents(h, l, y) && u < |g| && i < |g[u]|
    ensures |h| == |g| && |h[u]| == |g[u]|
    ensures h[u][i].to == g[u][i].to && h[u][i].cost == g[u][i].cost && h[u][i].reverse == g[u][i].reverse
  {
    assert Pictured(g, l, x, u, i) && Pictured(h, l, y, u, i);
  }

  /** The links' edges are tight and inside one level under the raised potentials. */
  ghost predicate TightAt(g: Graph, s: nat, dist: seq<int>, prevNode: seq<int>, prevEdge: seq<int>, pot: seq<int>,
                          lev: seq<int>, v: nat)
    requires |dist| == |prevNode| == |prevEdge| == |pot| == |lev| == |g| && v < |g|
  {
    v != s && dist[v] < INFINITE ==>
      var p, i := prevNode[v], prevEdge[v];
      0 <= p < |g| && 0 <= i < |g[p]| && lev[p] == lev[v] && g[p][i].cost + pot[p] - pot[v] == 0
  }

  ghost predicate Tight(g: Graph, s: nat, dist: seq<int>, prevNode: seq<int>, prevEdge: seq<int>, pot: seq<int>,
                        lev: seq<int>) {
    && |dist| == |prevNode| == |prevEdge| == |pot| == |lev| == |g|
    && forall v :: 0 <= v < |g| ==> TightAt(g, s, dist, prevNode, prevEdge, pot, lev, v)
  }

  lemma SearchedTight(g: Graph, net: seq<Arc>, hop: seq<seq<Step>>, s: nat, pot: seq<int>, lev: seq<int>,
                      dist: seq<int>,
                      prevNode: seq<int>, prevEdge: seq<int>, trail: seq<seq<Step>>)
    requires s < |g| == |lev| && Searched(g, net, hop, s, pot, dist, prevNode, prevEdge, trail)
    ensures Tight(g, s, dist, prevNode, prevEdge, Repriced(pot, dist), Raised(lev, dist, s))
  {
    forall v | 0 <= v < |g|
      ensures TightAt(g, s, dist, prevNode, prevEdge, Repriced(pot, dist), Raised(lev, dist, s), v)
    {
      assert Labelled(g, net, hop, s, pot, dist, prevNode, prevEdge, trail, Reached(dist), v);
    }
  }

  /** Pushing over the link into `v` leaves the rest of the walk as it was. */
  lemma PushKeepsRoute(g0: Graph, g: Graph, s: nat, dist: seq<int>, prevNode: seq<int>, prevEdge: seq<int>,
                       trail: seq<seq<Step>>, v: nat, amount: int)
    requires Links(g0, s, dist, prevNode, prevEdge, trail)
    requires v < |g0| == |g| && v != s && dist[v] < INFINITE
    requires RouteCarries(g, s, dist, prevNode, prevEdge, trail, v, amount)
    requires OnRoute(s, dist, trail, v, v)
    requires var p, i := prevNode[v], prevEdge[v];
             0 <= p < |g| && 0 <= i < |g[p]| && g[p][i].to == v && p != v && g[p][i].reverse < |g[v]|
    ensures RouteCarries(Pushed(g, prevNode[v], prevEdge[v], amount), s, dist, prevNode, prevEdge, trail, prevNode[v],
                         amount)
  {
    var p, i := prevNode[v], prevEdge[v];
    assert LinkAt(g0, s, dist, prevNode, prevEdge, trail, v);
    forall w | 0 <= w < |g| && OnRoute(s, dist, trail, p, w)
      ensures OnRoute(s, dist, trail, v, w) && prevNode[w] != p && prevNode[w] != v
    {
      assert LinkAt(g0, s, dist, prevNode, prevEdge, trail, w);
    }
    forall w | 0 <= w < |g| && OnRoute(s, dist, trail, p, w)
      ensures 0 <= prevNode[w] < |g| && 0 <= prevEdge[w] < |g[prevNode[w]]|
      ensures Pushed(g, p, i, amount)[prevNode[w]] == g[prevNode[w]]
    {
      assert OnRoute(s, dist, trail, v, w);
    }
  }

  /** Walks from `sink` to `source`, pushing `increment` over every link. */
  method Augment(g0: Graph, ghost l: Layout, ghost x0: seq<int>, source: nat, ghost pot: seq<int>, ghost lev: seq<int>,
                 ghost distance: seq<int>, previousNode: seq<int>, previousEdge: seq<int>, ghost trail: seq<seq<Step>>,
                 sink: nat, increment: int)
    returns (g: Graph, ghost x: seq<int>, cost: int)
    requires Represents(g0, l, x0) && IsNetwork(l.net, |g0|) && Feasible(l.net, x0) && Guarded(g0, pot, lev)
    requires Links(g0, source, distance, previousNode, previousEdge, trail)
    requires Tight(g0, source, distance, previousNode, previousEdge, pot, lev)
    requires sink < |g0| && distance[sink] < INFINITE && increment >= 0
    requires RouteCarries(g0, source, distance, previousNode, previousEdge, trail, sink, increment)
    ensures Represents(g, l, x) && Feasible(l.net, x) && Guarded(g, pot, lev)
    ensures Moved(l.net, |g0|, x0, source, sink, increment, x)
    ensures FlowCost(l.net, x) == FlowCost(l.net, x0) + cost
  {
    g, x, cost := g0, x0, 0;
    var node := sink;
    while node != source
      invariant 0 <= node < |g0| && distance[node] < INFINITE
      invariant Represents(g, l, x) && Feasible(l.net, x) && Guarded(g, pot, lev)
      invariant RouteCarries(g, source, distance, previousNode, previousEdge, trail, node, increment)
      invariant Moved(l.net, |g0|, x0, node, sink, increment, x)
      invariant FlowCost(l.net, x) == FlowCost(l.net, x0) + cost
      decreases |trail[node]|
    {
      assert LinkAt(g0, source, distance, previousNode, previousEdge, trail, node);
      assert TightAt(g0, source, distance, previousNode, previousEdge, pot, lev, node);
      assert OnRoute(source, distance, trail, node, node);
      var previous, index := previousNode[node], previousEdge[node];
      SameShape(g0, g, l, x0, x, previous, index);
      EdgeIsStep(g, l, x, previous, index);
      var edge := g[previous][index];
      assert PairedAt(g, previous, index);
      ghost var h := StepAt(l, previous, index);
      PushRepresents(g, l, x, previous, index, increment);
      PushGuarded(g, previous, index, increment, pot, lev);
      PushKeepsRoute(g0, g, source, distance, previousNode, previousEdge, trail, node, increment);
      ShiftExtendsMove(l.net, |g0|, x0, h, sink, increment, x);
      ShiftCost(l.net, x, h, increment);
      ShiftFeasible(g, l, x, previous, index, increment);
      g := Pushed(g, previous, index, increment);
      x := Shift(l.net, x, h, increment);
      cost := cost + increment * edge.cost;
      node := previous;
    }
  }

  lemma ShiftFeasible(g: Graph, l: Layout, x: seq<int>, u: nat, i: nat, amount: int)
    requires Represents(g, l, x) && Feasible(l.net, x) && u < |g| && i < |g[u]| && SlotSeated(l, u, i)
    requires 0 <= amount <= g[u][i].capacity
    ensures Feasible(l.net, Shift(l.net, x, StepAt(l, u, i), amount))
  {
    assert Pictured(g, l, x, u, i);
  }

  // ----- The solver -----------------------------------------------------------

  /** When the search misses `t`, the reached nodes form a saturated cut. */
  lemma MissedSinkIsCut(g: Graph, l: Layout, x: seq<int>, dist: seq<int>)
    requires Represents(g, l, x) && IsNetwork(l.net, |g|) && Feasible(l.net, x) && Closed(g, dist)
    ensures SaturatedCut(l.net, |g|, x, seq(|g|, v requires 0 <= v < |g| => dist[v] < INFINITE))
  {
    forall e | 0 <= e < |l.net|
      ensures dist[l.net[e].src] < INFINITE && dist[l.net[e].dst] >= INFINITE ==> x[e] == l.net[e].cap
      ensures dist[l.net[e].src] >= INFINITE && dist[l.net[e].dst] < INFINITE ==> x[e] == 0
    {
      var u, i := StepIsEdge(g, l, x, Step(e, true));
      assert dist[u] < INFINITE ==> u in Reached(dist);
      var w, j := StepIsEdge(g, l, x, Step(e, false));
      assert dist[w] < INFINITE ==> w in Reached(dist);
    }
  }

  /** No feasible rerouting of `x` gains more than `gain` at `s`. */
  ghost predicate AtMost(net: seq<Arc>, n: nat, x: seq<int>, s: nat, t: nat, gain: int)
    requires IsNetwork(net, n) && |x| == |net|
  {
    forall y :: Reroutes(net, n, x, s, t, y) ==> Gain(net, n, x, s, y) <= gain
  }

  lemma CutBoundsGain(net: seq<Arc>, n: nat, x: seq<int>, inside: seq<bool>, s: nat, t: nat)
    requires IsNetwork(net, n) && Feasible(net, x) && SaturatedCut(net, n, x, inside)
    requires s < n && t < n && inside[s] && (s == t || !inside[t])
    ensures AtMost(net, n, x, s, t, 0)
  {
    forall y | Reroutes(net, n, x, s, t, y)
      ensures Gain(net, n, x, s, y) <= 0
    {
      SaturatedCutIsMaximal(net, n, x, inside, s, t, y);
    }
  }

  lemma GainAfterMove(net: seq<Arc>, n: nat, x0: seq<int>, x: seq<int>, s: nat, t: nat, flow: int)
    requires IsNetwork(net, n) && |x0| == |net| && s < n && t < n
    requires Moved(net, n, x0, s, t, flow, x) && (s == t ==> flow == 0)
    requires AtMost(net, n, x, s, t, 0)
    ensures AtMost(net, n, x0, s, t, flow)
  {
    forall y | Reroutes(net, n, x0, s, t, y)
      ensures Gain(net, n, x0, s, y) <= flow
    {
      assert Reroutes(net, n, x, s, t, y);
    }
  }

  /** No feasible flow with the same balances is cheaper. */
  ghost predicate Cheapest(net: seq<Arc>, n: nat, x: seq<int>)
    requires IsNetwork(net, n) && |x| == |net|
  {
    forall y :: Feasible(net, y) && SameBalances(net, n, x, y) ==> FlowCost(net, x) <= FlowCost(net, y)
  }

  lemma GuardedIsCheapest(g: Graph, l: Layout, x: seq<int>, pot: seq<int>, lev: seq<int>)
    requires Represents(g, l, x) && Feasible(l.net, x) && Guarded(g, pot, lev)
    ensures IsNetwork(l.net, |g|) && Cheapest(l.net, |g|, x)
  {
    GuardedIsCertified(g, l, x, pot, lev);
    forall y | Feasible(l.net, y) && SameBalances(l.net, |g|, x, y)
      ensures FlowCost(l.net, x) <= FlowCost(l.net, y)
    {
      CertifiedIsCheapest(l.net, |g|, x, pot, lev, y);
    }
  }

  ghost predicate NonNegativeOpenCosts(g: Graph) {
    forall u, i :: 0 <= u < |g| && 0 <= i < |g[u]| && g[u][i].capacity > 0 ==> g[u][i].cost >= 0
  }

  lemma ZeroPotentialsGuard(g: Graph, l: Layout, x: seq<int>, zero: seq<int>)
    requires Represents(g, l, x) && NonNegativeOpenCosts(g)
    requires |zero| == |g| && forall v :: 0 <= v < |g| ==> zero[v] == 0
    ensures Guarded(g, zero, zero)
  {
    forall u, i | 0 <= u < |g| && 0 <= i < |g[u]|
      ensures GuardedAt(g, zero, zero, u, i)
    {
      EdgeIsStep(g, l, x, u, i);
    }
  }

  /** Residual steps out of reachable nodes have non-negative reduced cost. */
  ghost predicate PricedWhereReachable(net: seq<Arc>, n: nat, x: seq<int>, s: nat, pot: seq<int>)
    requires IsNetwork(net, n) && |x| == |net| && |pot| == n
  {
    forall h: Step :: h.e < |net| && Open(net, x, h) && Reachable(net, x, s, Tail(net, h)) ==>
      StepCost(net, h) + pot[Tail(net, h)] - pot[Head(net, h)] >= 0
  }

  lemma GuardedIsPriced(g: Graph, l: Layout, x: seq<int>, pot: seq<int>, lev: seq<int>, s: nat)
    requires Represents(g, l, x) && IsNetwork(l.net, |g|) && Guarded(g, pot, lev) && s < |g| && Tops(lev, s)
    ensures PricedWhereReachable(l.net, |g|, x, s, pot)
  {
    forall h: Step | h.e < |l.net| && Open(l.net, x, h) && Reachable(l.net, x, s, Tail(l.net, h))
      ensures StepCost(l.net, h) + pot[Tail(l.net, h)] - pot[Head(l.net, h)] >= 0
    {
      var p :| IsPath(l.net, s, p, Tail(l.net, h)) && AllOpen(l.net, x, p);
      OpenPathsStayOnTop(g, l, x, pot, lev, s, p, Tail(l.net, h));
      var u, i := StepIsEdge(g, l, x, h);
      assert GuardedAt(g, pot, lev, u, i);
    }
  }

  /** After a search of `g0`, no flow whose residual graph is guarded at the raised levels
      reaches a node that was out of reach. */
  lemma ReachableShrinks(g0: Graph, l: Layout, x: seq<int>, s: nat, pot0: seq<int>, lev0: seq<int>, dist: seq<int>,
                         prevNode: seq<int>, prevEdge: seq<int>, trail: seq<seq<Step>>,
                         g: Graph, y: seq<int>, pot: seq<int>, v: nat)
    requires Represents(g0, l, x) && s < |g0| == |lev0| && v < |g0| && SimplePathsBelow(l.net, s, INFINITE)
    requires Searched(g0, l.net, Hops(l), s, pot0, dist, prevNode, prevEdge, trail) && Tops(lev0, s)
    requires forall u :: 0 <= u < |pot0| ==> pot0[u] >= 0
    requires Represents(g, l, y) && |g| == |g0| && Guarded(g, pot, Raised(lev0, dist, s))
    ensures Reachable(l.net, y, s, v) ==> Reachable(l.net, x, s, v)
  {
    var lev := Raised(lev0, dist, s);
    assert Labelled(g0, l.net, Hops(l), s, pot0, dist, prevNode, prevEdge, trail, Reached(dist), s);
    ReachedIffReachable(g0, l, x, s, pot0, dist, prevNode, prevEdge, trail, v);
    if Reachable(l.net, y, s, v) {
      var p :| IsPath(l.net, s, p, v) && AllOpen(l.net, y, p);
      OpenPathsStayOnTop(g, l, y, pot, lev, s, p, v);
    }
  }

  /** What holds before and after every round of `Send`. */
  ghost predicate Poised(g: Graph, l: Layout, x: seq<int>, s: nat, pot: seq<int>, lev: seq<int>) {
    && Represents(g, l, x) && Feasible(l.net, x) && IsNetwork(l.net, |g|) && s < |g|
    && Guarded(g, pot, lev) && Tops(lev, s)
    && pot[s] == 0 && forall v :: 0 <= v < |pot| ==> pot[v] >= 0
  }

  /** One round: search, raise the potentials of what was reached, augment. */
  method Round(g0: Graph, ghost l: Layout, ghost x0: seq<int>, source: nat, sink: nat,
               potential0: seq<int>, ghost lev0: seq<int>, limit: int)
    returns (found: bool, g: Graph, ghost x: seq<int>, potential: seq<int>, ghost lev: seq<int>, increment: int,
             cost: int)
    requires Poised(g0, l, x0, source, potential0, lev0) && sink < |g0| && limit > 0
    requires SimplePathsBelow(l.net, source, INFINITE)
    ensures Poised(g, l, x, source, potential, lev) && |g| == |g0|
    ensures found <==> source != sink && Reachable(l.net, x0, source, sink)
    ensures found ==> 0 < increment <= limit
    ensures found ==> Moved(l.net, |g|, x0, source, sink, increment, x)
    ensures found ==> FlowCost(l.net, x) == FlowCost(l.net, x0) + cost
    ensures found ==> forall v :: 0 <= v < |g| && Reachable(l.net, x, source, v) ==> Reachable(l.net, x0, source, v)
    ensures found ==> PricedWhereReachable(l.net, |g|, x, source, potential)
    ensures !found ==> x == x0 && AtMost(l.net, |g|, x0, source, sink, 0)
  {
    HopsMirror(g0, l, x0);
    GuardedIsCalm(g0, potential0, lev0, source);
    var distance, previousNode, previousEdge;
    ghost var trail;
    distance, previousNode, previousEdge, trail := Search(g0, l.net, Hops(l), source, potential0, Top(lev0, source));
    BelowSentinelCloses(g0, l.net, Hops(l), source, potential0, distance, previousNode, previousEdge, trail);
    SearchedLinks(g0, l.net, Hops(l), source, potential0, distance, previousNode, previousEdge, trail);
    assert Labelled(g0, l.net, Hops(l), source, potential0, distance, previousNode, previousEdge, trail,
                    Reached(distance), sink);
    ReachedIffReachable(g0, l, x0, source, potential0, distance, previousNode, previousEdge, trail, sink);
    found, g, x, potential, lev, increment, cost := previousNode[sink] != -1, g0, x0, potential0, lev0, 0, 0;
    if !found {
      MissedSinkIsCut(g0, l, x0, distance);
      CutBoundsGain(l.net, |g0|, x0, seq(|g0|, v requires 0 <= v < |g0| => distance[v] < INFINITE), source, sink);
      return;
    }
    SearchedTight(g0, l.net, Hops(l), source, potential0, lev0, distance, previousNode, previousEdge, trail);
    RepricingKeepsGuard(g0, potential0, lev0, source, distance);
    potential := Reprice(potential0, distance);
    lev := Raised(lev0, distance, source);
    increment := Bottleneck(g0, source, distance, previousNode, previousEdge, trail, sink, limit);
    g, x, cost := Augment(g0, l, x0, source, potential, lev, distance, previousNode, previousEdge, trail, sink,
                          increment);
    RaisedPotentialsStay(g0, l.net, Hops(l), source, potential0, distance, previousNode, previousEdge, trail);
    GuardedIsPriced(g, l, x, potential, lev, source);
    forall v | 0 <= v < |g|
      ensures Reachable(l.net, x, source, v) ==> Reachable(l.net, x0, source, v)
    {
      ReachableShrinks(g0, l, x0, source, potential0, lev0, distance, previousNode, previousEdge, trail,
                       g, x, potential, v);
    }
  }

  lemma RaisedPotentialsStay(g: Graph, net: seq<Arc>, hop: seq<seq<Step>>, s: nat, pot: seq<int>, dist: seq<int>,
                             prevNode: seq<int>, prevEdge: seq<int>, trail: seq<seq<Step>>)
    requires s < |g| && Labels(g, net, hop, s, pot, dist, prevNode, prevEdge, trail, Reached(dist))
    requires pot[s] == 0 && forall v :: 0 <= v < |pot| ==> pot[v] >= 0
    ensures Repriced(pot, dist)[s] == 0 && forall v :: 0 <= v < |pot| ==> Repriced(pot, dist)[v] >= 0
  {
    forall v | 0 <= v < |pot|
      ensures Repriced(pot, dist)[v] >= 0 && dist[s] == 0
    {
      assert Labelled(g, net, hop, s, pot, dist, prevNode, prevEdge, trail, Reached(dist), v);
      assert Labelled(g, net, hop, s, pot, dist, prevNode, prevEdge, trail, Reached(dist), s);
    }
  }

  class MinCostFlow {
    var graph: Graph
    /** The network and the flow that `graph` is the residual graph of. */
    ghost var layout: Layout
    ghost var shipped: seq<int>

    ghost predicate Valid()
      reads this
    {
      Represents(graph, layout, shipped) && Feasible(layout.net, shipped) && IsNetwork(layout.net, |graph|)
    }

    constructor (nodeCount: nat)
      ensures Valid() && |graph| == nodeCount && layout.net == [] && shipped == []
      ensures forall u :: 0 <= u < |graph| ==> graph[u] == []
    {
      graph := seq(nodeCount, _ => []);
      layout := Layout([], [], [], seq(nodeCount, _ => []));
      shipped := [];
    }

    /** Adds an arc that carries no flow; `at` is where its forward edge sits. */
    method AddEdge(source: nat, target: nat, capacity: int, cost: int) returns (at: (nat, nat))
      requires Valid() && source < |graph| && target < |graph|
      modifies this
      ensures graph == WithEdge(old(graph), source, target, capacity, cost)
      ensures at == (source, |old(graph)[source]|)
      ensures source != target && capacity >= 0 ==>
                && Valid() && shipped == old(shipped) + [0]
                && layout == WithArc(old(layout), source, target, capacity, cost)
    {
      at := (source, |graph[source]|);
      if source != target {
        WithEdgeRepresents(graph, layout, shipped, source, target, capacity, cost);
        layout := WithArc(layout, source, target, capacity, cost);
        shipped := shipped + [0];
        IndexedIsNetwork(layout);
      }
      graph := WithEdge(graph, source, target, capacity, cost);
    }

    method Send(source: nat, sink: nat, amount: int) returns (flow: int, totalCost: int)
      requires Valid() && source < |graph| && sink < |graph|
      requires NonNegativeOpenCosts(graph) && SimplePathsBelow(layout.net, source, INFINITE)
      modifies this
      ensures Valid() && layout == old(layout) && |graph| == |old(graph)|
      ensures 0 <= flow && (flow <= amount || flow == 0)
      ensures Moved(layout.net, |graph|, old(shipped), source, sink, flow, shipped)
      ensures totalCost == FlowCost(layout.net, shipped) - FlowCost(layout.net, old(shipped))
      ensures Cheapest(layout.net, |graph|, shipped)
      ensures flow < amount ==> AtMost(layout.net, |graph|, old(shipped), source, sink, flow)
    {
      var potential: seq<int> := seq(|graph|, _ => 0);
      ghost var lev := potential;
      ZeroPotentialsGuard(graph, layout, shipped, potential);
      flow, totalCost := 0, 0;
      while flow < amount
        invariant layout == old(layout) && |graph| == |old(graph)|
        invariant Poised(graph, layout, shipped, source, potential, lev)
        invariant 0 <= flow && (flow <= amount || flow == 0) && (source == sink ==> flow == 0)
        invariant Moved(layout.net, |graph|, old(shipped), source, sink, flow, shipped)
        invariant totalCost == FlowCost(layout.net, shipped) - FlowCost(layout.net, old(shipped))
        decreases amount - flow
      {
        var found, increment, cost;
        found, graph, shipped, potential, lev, increment, cost :=
          Round(graph, layout, shipped, source, sink, potential, lev, amount - flow);
        if !found {
          GainAfterMove(layout.net, |graph|, old(shipped), shipped, source, sink, flow);
          break;
        }
        totalCost := totalCost + cost;
        flow := flow + increment;
      }
      GuardedIsCheapest(graph, layout, shipped, potential, lev);
    }
  }
}

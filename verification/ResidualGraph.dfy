/**
 The residual graph the planner's flow solver works on: adjacency lists of paired
 edges, and what adding an edge or pushing flow over one does to the network and
 the flow that the lists stand for.
 */
module ResidualGraph {
  import opened FlowNetwork

  /** The number the solver uses for "not reached", 10**30. */
  const INFINITE: int := 1_000_000_000_000_000_000_000_000_000_000

  datatype Edge = Edge(to: nat, reverse: nat, capacity: int, cost: int, originalCapacity: int)

  type Graph = seq<seq<Edge>>

  // ----- Graphs as pictures of a network and a flow ---------------------------

  /** Where each arc of the network sits in the adjacency lists, and back. */
  datatype Layout = Layout(net: seq<Arc>, forward: seq<nat>, backward: seq<nat>, owner: seq<seq<nat>>)

  ghost predicate Seated(l: Layout, e: nat, u: nat, i: nat)
    requires e < |l.net| == |l.forward| == |l.backward|
  {
    (l.net[e].src == u && l.forward[e] == i) || (l.net[e].dst == u && l.backward[e] == i)
  }

  ghost predicate ArcSeated(l: Layout, e: nat)
    requires e < |l.net| == |l.forward| == |l.backward|
  {
    var a := l.net[e];
    && a.src < |l.owner| && a.dst < |l.owner| && a.src != a.dst
    && l.forward[e] < |l.owner[a.src]| && l.owner[a.src][l.forward[e]] == e
    && l.backward[e] < |l.owner[a.dst]| && l.owner[a.dst][l.backward[e]] == e
  }

  ghost predicate SlotSeated(l: Layout, u: nat, i: nat)
    requires |l.net| == |l.forward| == |l.backward| && u < |l.owner| && i < |l.owner[u]|
  {
    l.owner[u][i] < |l.net| && Seated(l, l.owner[u][i], u, i)
  }

  ghost predicate Indexed(l: Layout) {
    && |l.net| == |l.forward| == |l.backward|
    && (forall e :: 0 <= e < |l.net| ==> ArcSeated(l, e))
    && (forall u, i :: 0 <= u < |l.owner| && 0 <= i < |l.owner[u]| ==> SlotSeated(l, u, i))
  }

  ghost function EdgeAt(l: Layout, x: seq<int>, u: nat, i: nat): Edge
    requires |x| == |l.net| == |l.forward| == |l.backward| && u < |l.owner| && i < |l.owner[u]|
    requires SlotSeated(l, u, i)
  {
    var e := l.owner[u][i];
    var a := l.net[e];
    if a.src == u then Edge(a.dst, l.backward[e], a.cap - x[e], a.cost, a.cap)
    else Edge(a.src, l.forward[e], x[e], -a.cost, 0)
  }

  ghost predicate Pictured(g: Graph, l: Layout, x: seq<int>, u: nat, i: nat)
    requires |x| == |l.net| == |l.forward| == |l.backward|
    requires u < |l.owner| == |g| && i < |l.owner[u]| == |g[u]|
  {
    SlotSeated(l, u, i) && g[u][i] == EdgeAt(l, x, u, i)
  }

  ghost predicate SameRows(g: Graph, l: Layout) {
    |g| == |l.owner| && forall u :: 0 <= u < |g| ==> |g[u]| == |l.owner[u]|
  }

  /** `g` is the residual graph of flow `x` on network `l.net`. */
  ghost predicate Represents(g: Graph, l: Layout, x: seq<int>) {
    && Indexed(l) && |x| == |l.net| && SameRows(g, l)
    && (forall u, i :: 0 <= u < |g| && 0 <= i < |g[u]| ==> Pictured(g, l, x, u, i))
  }

  lemma IndexedIsNetwork(l: Layout)
    requires Indexed(l)
    ensures IsNetwork(l.net, |l.owner|)
  {
    forall e | 0 <= e < |l.net|
      ensures l.net[e].src < |l.owner| && l.net[e].dst < |l.owner|
    {
      assert ArcSeated(l, e);
    }
  }

  ghost function StepAt(l: Layout, u: nat, i: nat): (h: Step)
    requires |l.net| == |l.forward| == |l.backward| && u < |l.owner| && i < |l.owner[u]|
    requires SlotSeated(l, u, i)
    ensures h.e < |l.net| && Tail(l.net, h) == u
  {
    var e := l.owner[u][i];
    Step(e, l.net[e].src == u)
  }

  /** What edge `i` of `u` is, in terms of the network. */
  lemma EdgeIsStep(g: Graph, l: Layout, x: seq<int>, u: nat, i: nat)
    requires Represents(g, l, x) && u < |g| && i < |g[u]|
    ensures Pictured(g, l, x, u, i)
    ensures var h := StepAt(l, u, i);
            && Head(l.net, h) == g[u][i].to && StepCost(l.net, h) == g[u][i].cost
            && (g[u][i].capacity > 0 <==> Open(l.net, x, h))
    ensures g[u][i].to < |g| && g[u][i].to != u && PairedAt(g, u, i)
  {
    assert Pictured(g, l, x, u, i);
    var e := l.owner[u][i];
    assert ArcSeated(l, e);
    assert Pictured(g, l, x, l.net[e].src, l.forward[e]);
    assert Pictured(g, l, x, l.net[e].dst, l.backward[e]);
  }

  // ----- Building the graph ---------------------------------------------------

  function WithEdge(g: Graph, source: nat, target: nat, capacity: int, cost: int): (r: Graph)
    requires source < |g| && target < |g|
  {
    var forward := Edge(target, |g[target]|, capacity, cost, capacity);
    var reverse := Edge(source, |g[source]|, 0, -cost, 0);
    var g1 := g[source := g[source] + [forward]];
    g1[target := g1[target] + [reverse]]
  }

  /** Every edge finds its partner through `reverse`, and the partner finds it. */
  ghost predicate WellPaired(g: Graph) {
    forall u, i :: 0 <= u < |g| && 0 <= i < |g[u]| ==> PairedAt(g, u, i)
  }

  ghost predicate PairedAt(g: Graph, u: nat, i: nat)
    requires u < |g| && i < |g[u]|
  {
    var e := g[u][i];
    && e.to < |g| && e.reverse < |g[e.to]|
    && g[e.to][e.reverse].to == u && g[e.to][e.reverse].reverse == i
    && g[e.to][e.reverse].cost == -e.cost
  }

  /** Adding an edge keeps the pairing exactly when the edge is not a self-loop. */
  lemma PairingNeedsDistinctEnds(g: Graph, source: nat, target: nat, capacity: int, cost: int)
    requires source < |g| && target < |g| && WellPaired(g)
    ensures WellPaired(WithEdge(g, source, target, capacity, cost)) <==> source != target
  {
    var h: Graph := WithEdge(g, source, target, capacity, cost);
    if source == target {
      var i := |g[source]| + 1;
      assert h[source][i].reverse == i - 1 && h[source][i - 1].reverse != i;
      assert !PairedAt(h, source, i);
    } else {
      forall u, i | 0 <= u < |h| && 0 <= i < |h[u]|
        ensures PairedAt(h, u, i)
      {
        if i < |g[u]| {
          assert PairedAt(g, u, i);
          var e := g[u][i];
          assert h[u][i] == e && h[e.to][e.reverse] == g[e.to][e.reverse];
        }
      }
    }
  }

  ghost function WithArc(l: Layout, source: nat, target: nat, capacity: int, cost: int): Layout
    requires source < |l.owner| && target < |l.owner|
  {
    var e := |l.net|;
    var o1 := l.owner[source := l.owner[source] + [e]];
    Layout(l.net + [Arc(source, target, capacity, cost)],
           l.forward + [|l.owner[source]|],
           l.backward + [|l.owner[target]|],
           o1[target := o1[target] + [e]])
  }

  lemma WithArcIndexed(l: Layout, source: nat, target: nat, capacity: int, cost: int)
    requires Indexed(l) && source < |l.owner| && target < |l.owner| && source != target
    ensures Indexed(WithArc(l, source, target, capacity, cost))
  {
    var m := WithArc(l, source, target, capacity, cost);
    forall u, i | 0 <= u < |m.owner| && 0 <= i < |m.owner[u]|
      ensures SlotSeated(m, u, i)
    {
      if i < |l.owner[u]| { assert SlotSeated(l, u, i); }
    }
    forall e | 0 <= e < |m.net|
      ensures ArcSeated(m, e)
    {
      if e < |l.net| { assert ArcSeated(l, e); }
    }
  }

  lemma WithEdgeRepresents(g: Graph, l: Layout, x: seq<int>, source: nat, target: nat, capacity: int, cost: int)
    requires Represents(g, l, x) && source < |g| && target < |g| && source != target
    ensures Represents(WithEdge(g, source, target, capacity, cost),
                       WithArc(l, source, target, capacity, cost), x + [0])
  {
    WithArcIndexed(l, source, target, capacity, cost);
    var h, m := WithEdge(g, source, target, capacity, cost), WithArc(l, source, target, capacity, cost);
    forall u, i | 0 <= u < |h| && 0 <= i < |h[u]|
      ensures Pictured(h, m, x + [0], u, i)
    {
      assert SlotSeated(m, u, i);
      if i < |g[u]| {
        assert Pictured(g, l, x, u, i);
        assert h[u][i] == g[u][i] && m.owner[u][i] == l.owner[u][i];
      }
    }
  }

  // ----- The certificate, read off the graph ----------------------------------

  ghost predicate GuardedAt(g: Graph, pot: seq<int>, lev: seq<int>, u: nat, i: nat)
    requires |pot| == |g| == |lev| && u < |g| && i < |g[u]|
  {
    g[u][i].capacity > 0 ==>
      var v := g[u][i].to;
      v < |g| && lev[u] <= lev[v] && (lev[u] == lev[v] ==> g[u][i].cost + pot[u] - pot[v] >= 0)
  }

  ghost predicate Guarded(g: Graph, pot: seq<int>, lev: seq<int>) {
    && |pot| == |g| == |lev|
    && forall u, i :: 0 <= u < |g| && 0 <= i < |g[u]| ==> GuardedAt(g, pot, lev, u, i)
  }

  lemma GuardedIsCertified(g: Graph, l: Layout, x: seq<int>, pot: seq<int>, lev: seq<int>)
    requires Represents(g, l, x) && Guarded(g, pot, lev)
    ensures IsNetwork(l.net, |g|) && Certified(l.net, |g|, x, pot, lev)
  {
    IndexedIsNetwork(l);
    forall e | 0 <= e < |l.net|
      ensures var a := l.net[e];
              && (x[e] < a.cap ==>
                    lev[a.src] <= lev[a.dst] && (lev[a.src] == lev[a.dst] ==> a.cost + pot[a.src] - pot[a.dst] >= 0))
              && (x[e] > 0 ==>
                    lev[a.dst] <= lev[a.src] && (lev[a.src] == lev[a.dst] ==> a.cost + pot[a.src] - pot[a.dst] <= 0))
    {
      assert ArcSeated(l, e);
      var a := l.net[e];
      assert Pictured(g, l, x, a.src, l.forward[e]) && GuardedAt(g, pot, lev, a.src, l.forward[e]);
      assert Pictured(g, l, x, a.dst, l.backward[e]) && GuardedAt(g, pot, lev, a.dst, l.backward[e]);
    }
  }

  // ----- Pushing flow over one edge -------------------------------------------

  function Pushed(g: Graph, u: nat, i: nat, amount: int): (r: Graph)
    requires u < |g| && i < |g[u]|
    requires g[u][i].to < |g| && g[u][i].to != u && g[u][i].reverse < |g[g[u][i].to]|
  {
    var e := g[u][i];
    var g1 := g[u := g[u][i := e.(capacity := e.capacity - amount)]];
    var r := g1[e.to][e.reverse];
    g1[e.to := g1[e.to][e.reverse := r.(capacity := r.capacity + amount)]]
  }

  /** A push changes only two capacities. */
  lemma PushedAt(g: Graph, u: nat, i: nat, amount: int, a: nat, b: nat)
    requires u < |g| && i < |g[u]|
    requires g[u][i].to < |g| && g[u][i].to != u && g[u][i].reverse < |g[g[u][i].to]|
    requires a < |g| && b < |g[a]|
    ensures var h: Graph := Pushed(g, u, i, amount);
            && |h| == |g| && |h[a]| == |g[a]|
            && h[a][b] == g[a][b].(capacity := g[a][b].capacity
                 - (if a == u && b == i then amount else 0)
                 + (if a == g[u][i].to && b == g[u][i].reverse then amount else 0))
  {
  }

  lemma PushRepresents(g: Graph, l: Layout, x: seq<int>, u: nat, i: nat, amount: int)
    requires Represents(g, l, x) && u < |g| && i < |g[u]|
    requires g[u][i].to < |g| && g[u][i].to != u && g[u][i].reverse < |g[g[u][i].to]|
    requires SlotSeated(l, u, i)
    ensures Represents(Pushed(g, u, i, amount), l, Shift(l.net, x, StepAt(l, u, i), amount))
  {
    var e := l.owner[u][i];
    assert Pictured(g, l, x, u, i) && ArcSeated(l, e);
    var h: Graph, y := Pushed(g, u, i, amount), Shift(l.net, x, StepAt(l, u, i), amount);
    forall a, b | 0 <= a < |h| && 0 <= b < |h[a]|
      ensures Pictured(h, l, y, a, b)
    {
      assert Pictured(g, l, x, a, b);
      PushedAt(g, u, i, amount, a, b);
    }
  }

  /** Pushing over a tight edge inside a level keeps the certificate. */
  lemma PushGuarded(g: Graph, u: nat, i: nat, amount: int, pot: seq<int>, lev: seq<int>)
    requires u < |g| && i < |g[u]| && Guarded(g, pot, lev) && 0 <= amount
    requires PairedAt(g, u, i) && g[u][i].to != u
    requires lev[u] == lev[g[u][i].to] && g[u][i].cost + pot[u] - pot[g[u][i].to] == 0
    ensures Guarded(Pushed(g, u, i, amount), pot, lev)
  {
    var h: Graph := Pushed(g, u, i, amount);
    forall a, b | 0 <= a < |h| && 0 <= b < |h[a]|
      ensures GuardedAt(h, pot, lev, a, b)
    {
      assert GuardedAt(g, pot, lev, a, b);
      PushedAt(g, u, i, amount, a, b);
    }
  }
}

/**
 Dijkstra's search over reduced costs, with a queue that keeps superseded entries
 and skips them when they are popped.
 */
module ShortestPaths {
  import opened FlowNetwork
  import opened ResidualGraph

  /** A queue entry: tentative distance and node, popped in lexicographic order. */
  type Entry = (int, nat)

  predicate Before(a: Entry, b: Entry) {
    a.0 < b.0 || (a.0 == b.0 && a.1 <= b.1)
  }

  /** Removes a least entry, as `heapq.heappop` does. */
  method PopLeast(queue: seq<Entry>) returns (least: Entry, rest: seq<Entry>)
    requires queue != []
    ensures least in queue && forall q :: q in queue ==> least.0 < q.0 || (least.0 == q.0 && least.1 <= q.1)
    ensures multiset(queue) == multiset(rest) + multiset{least}
    ensures forall q :: q in queue <==> q == least || q in rest
    ensures |rest| == |queue| - 1
  {
    var m := 0;
    for k := 1 to |queue|
      invariant 0 <= m < k
      invariant forall j :: 0 <= j < k ==> Before(queue[m], queue[j])
    {
      if !Before(queue[m], queue[k]) { m := k; }
    }
    least, rest := queue[m], queue[..m] + queue[m + 1..];
    assert queue == queue[..m] + [queue[m]] + queue[m + 1..];
    assert forall q :: q in queue[m + 1..] ==> q in queue;
  }

  // ----- The graph the search sees --------------------------------------------

  /** `hop[u][i]` is the network step that edge `i` of node `u` takes. */
  ghost predicate HopAt(g: Graph, net: seq<Arc>, hop: seq<seq<Step>>, u: nat, i: nat)
    requires u < |g| == |hop| && i < |g[u]| == |hop[u]|
  {
    && hop[u][i].e < |net|
    && Tail(net, hop[u][i]) == u && Head(net, hop[u][i]) == g[u][i].to && StepCost(net, hop[u][i]) == g[u][i].cost
    && g[u][i].to < |g| && g[u][i].to != u
  }

  ghost predicate Mirrors(g: Graph, net: seq<Arc>, hop: seq<seq<Step>>) {
    && |g| == |hop| && (forall u :: 0 <= u < |g| ==> |g[u]| == |hop[u]|)
    && (forall u, i :: 0 <= u < |g| && 0 <= i < |g[u]| ==> HopAt(g, net, hop, u, i))
  }

  ghost predicate CalmAt(g: Graph, pot: seq<int>, top: set<nat>, u: nat, i: nat)
    requires |pot| == |g| && u < |g| && i < |g[u]|
  {
    g[u][i].capacity > 0 ==>
      var v := g[u][i].to;
      v < |g| && v in top && g[u][i].cost + pot[u] - pot[v] >= 0
  }

  /** Open edges do not leave `top`, and inside it they have non-negative reduced cost. */
  ghost predicate Calm(g: Graph, pot: seq<int>, top: set<nat>)
    requires |pot| == |g|
  {
    && (forall u :: u in top ==> u < |g|)
    && forall u, i :: u in top && 0 <= i < |g[u]| ==> CalmAt(g, pot, top, u, i)
  }

  /** What the search needs: potentials that certify the part it may visit. */
  ghost predicate Searchable(g: Graph, net: seq<Arc>, hop: seq<seq<Step>>, s: nat, pot: seq<int>, top: set<nat>) {
    && Mirrors(g, net, hop) && |pot| == |g| && Calm(g, pot, top) && s in top
    && pot[s] == 0
  }

  // ----- What the labels mean -------------------------------------------------

  /** The predecessor link of `v` is an open edge, and the label is tight over it. */
  ghost predicate Linked(g: Graph, hop: seq<seq<Step>>, pot: seq<int>, dist: seq<int>, prevNode: seq<int>,
                         prevEdge: seq<int>,
                         trail: seq<seq<Step>>, v: nat)
    requires |hop| == |g| && |pot| == |dist| == |prevNode| == |prevEdge| == |trail| == |g| && v < |g|
  {
    var p, i := prevNode[v], prevEdge[v];
    && 0 <= p < |g| && 0 <= i < |g[p]| == |hop[p]|
    && g[p][i].to == v && g[p][i].capacity > 0
    && dist[p] < INFINITE
    && dist[v] == dist[p] + g[p][i].cost + pot[p] - pot[v]
    && trail[v] == trail[p] + [hop[p][i]]
  }

  ghost predicate LeavesOnly(net: seq<Arc>, p: seq<Step>, done: set<nat>) {
    forall k :: 0 <= k < |p| ==> p[k].e < |net| && Tail(net, p[k]) in done
  }

  /** The label of `v` is the cost of a simple path through finished nodes. */
  ghost predicate Labelled(g: Graph, net: seq<Arc>, hop: seq<seq<Step>>, s: nat, pot: seq<int>, dist: seq<int>,
                           prevNode: seq<int>, prevEdge: seq<int>, trail: seq<seq<Step>>, done: set<nat>, v: nat)
    requires |hop| == |g| && |pot| == |dist| == |prevNode| == |prevEdge| == |trail| == |g| && v < |g|
  {
    && 0 <= dist[v] <= INFINITE
    && (v == s ==> dist[v] == 0 && trail[v] == [])
    && (prevNode[v] == -1 <==> v == s || dist[v] == INFINITE)
    && (dist[v] < INFINITE ==>
          && IsSimplePath(net, s, trail[v], v)
          && PathCost(net, trail[v]) == dist[v] + pot[v]
          && LeavesOnly(net, trail[v], done))
    && (v != s && dist[v] < INFINITE ==>
          Linked(g, hop, pot, dist, prevNode, prevEdge, trail, v) && prevNode[v] in done)
  }

  ghost predicate Labels(g: Graph, net: seq<Arc>, hop: seq<seq<Step>>, s: nat, pot: seq<int>, dist: seq<int>,
                         prevNode: seq<int>, prevEdge: seq<int>, trail: seq<seq<Step>>, done: set<nat>)
  {
    && |hop| == |g| && |pot| == |dist| == |prevNode| == |prevEdge| == |trail| == |g|
    && forall v :: 0 <= v < |g| ==> Labelled(g, net, hop, s, pot, dist, prevNode, prevEdge, trail, done, v)
  }

  ghost predicate RelaxedAt(g: Graph, pot: seq<int>, dist: seq<int>, u: nat, i: nat)
    requires |pot| == |dist| == |g| && u < |g| && i < |g[u]|
  {
    g[u][i].capacity > 0 ==>
      var v := g[u][i].to;
      v < |g| && dist[v] <= dist[u] + g[u][i].cost + pot[u] - pot[v]
  }

  /** The first `k` edges of `u` cannot improve any label. */
  ghost predicate Relaxed(g: Graph, pot: seq<int>, dist: seq<int>, u: nat, k: nat)
    requires |pot| == |dist| == |g| && u < |g| && k <= |g[u]|
  {
    forall i :: 0 <= i < k ==> RelaxedAt(g, pot, dist, u, i)
  }

  ghost predicate Finished(g: Graph, pot: seq<int>, dist: seq<int>, done: set<nat>)
    requires |pot| == |dist| == |g|
  {
    forall u :: u in done ==> u < |g| && dist[u] < INFINITE && Relaxed(g, pot, dist, u, |g[u]|)
  }

  /** Every entry is at or above its node's label and above all finished labels, and
      every unfinished label has an entry. */
  ghost predicate Queued(queue: seq<Entry>, dist: seq<int>, done: set<nat>) {
    && (forall u :: u in done ==> u < |dist|)
    && (forall q :: q in queue ==>
          q.1 < |dist| && dist[q.1] <= q.0 < INFINITE && forall u :: u in done ==> dist[u] <= q.0)
    && (forall v :: 0 <= v < |dist| && v !in done && dist[v] < INFINITE ==> (dist[v], v) in queue)
  }

  ghost function Reached(dist: seq<int>): set<nat> {
    set v: nat | v < |dist| && dist[v] < INFINITE
  }

  ghost function Unfinished(n: nat, done: set<nat>): set<nat> {
    set v: nat | v < n && v !in done
  }

  // ----- One improvement ------------------------------------------------------

  /** A simple path through finished nodes, extended to an unfinished one. */
  lemma ExtendTrail(net: seq<Arc>, s: nat, p: seq<Step>, u: nat, h: Step, done: set<nat>)
    requires IsSimplePath(net, s, p, u) && LeavesOnly(net, p, done) && u in done
    requires h.e < |net| && Tail(net, h) == u && Head(net, h) !in done
    ensures IsSimplePath(net, s, p + [h], Head(net, h)) && LeavesOnly(net, p + [h], done)
    ensures PathCost(net, p + [h]) == PathCost(net, p) + StepCost(net, h)
  {
    ExtendSimplePath(net, s, p, u, h);
  }

  /** Improving the label of an unfinished node over an open edge keeps all labels right. */
  lemma ImproveKeepsLabels(g: Graph, net: seq<Arc>, hop: seq<seq<Step>>, s: nat, pot: seq<int>, dist: seq<int>,
                           prevNode: seq<int>, prevEdge: seq<int>, trail: seq<seq<Step>>, done: set<nat>,
                           u: nat, i: nat, candidate: int)
    requires Labels(g, net, hop, s, pot, dist, prevNode, prevEdge, trail, done) && s in done
    requires u in done && u < |g| && dist[u] < INFINITE && i < |g[u]| == |hop[u]| && g[u][i].capacity > 0
    requires g[u][i].to < |g| && g[u][i].to !in done
    requires candidate == dist[u] + g[u][i].cost + pot[u] - pot[g[u][i].to]
    requires 0 <= candidate < dist[g[u][i].to]
    requires var p := trail[u] + [hop[u][i]];
             && IsSimplePath(net, s, p, g[u][i].to) && LeavesOnly(net, p, done)
             && PathCost(net, p) == candidate + pot[g[u][i].to]
    ensures var v := g[u][i].to;
            Labels(g, net, hop, s, pot, dist[v := candidate], prevNode[v := u], prevEdge[v := i],
                   trail[v := trail[u] + [hop[u][i]]], done)
  {
    var v := g[u][i].to;
    var dist', prevNode', prevEdge', trail' :=
      dist[v := candidate], prevNode[v := u], prevEdge[v := i], trail[v := trail[u] + [hop[u][i]]];
    forall w | 0 <= w < |g|
      ensures Labelled(g, net, hop, s, pot, dist', prevNode', prevEdge', trail', done, w)
    {
      assert Labelled(g, net, hop, s, pot, dist, prevNode, prevEdge, trail, done, w);
    }
  }

  /** The same improvement keeps finished nodes relaxed and the queue complete. */
  lemma ImproveKeepsQueue(g: Graph, pot: seq<int>, dist: seq<int>, done: set<nat>, u: nat, i: nat, queue: seq<Entry>,
                          candidate: int)
    requires |pot| == |dist| == |g| && u < |g| && i < |g[u]|
    requires Finished(g, pot, dist, done) && Relaxed(g, pot, dist, u, i) && Queued(queue, dist, done + {u})
    requires g[u][i].to < |g| && g[u][i].to !in done + {u}
    requires candidate == dist[u] + g[u][i].cost + pot[u] - pot[g[u][i].to]
    requires candidate < dist[g[u][i].to] && candidate < INFINITE
    requires forall w :: w in done + {u} ==> dist[w] <= candidate
    ensures var v := g[u][i].to;
            && Finished(g, pot, dist[v := candidate], done)
            && Relaxed(g, pot, dist[v := candidate], u, i + 1)
            && Queued(queue + [(candidate, v)], dist[v := candidate], done + {u})
  {
    var v := g[u][i].to;
    var dist' := dist[v := candidate];
    forall w | w in done
      ensures Relaxed(g, pot, dist', w, |g[w]|)
    {
      assert Relaxed(g, pot, dist, w, |g[w]|);
      forall j | 0 <= j < |g[w]| ensures RelaxedAt(g, pot, dist', w, j) { assert RelaxedAt(g, pot, dist, w, j); }
    }
    forall j | 0 <= j <= i ensures RelaxedAt(g, pot, dist', u, j) {
      if j < i { assert RelaxedAt(g, pot, dist, u, j); }
    }
  }

  /** Both together: one successful comparison while the edges of `u` are scanned. */
  lemma Improve(g: Graph, net: seq<Arc>, hop: seq<seq<Step>>, s: nat, pot: seq<int>, top: set<nat>, dist: seq<int>,
                prevNode: seq<int>, prevEdge: seq<int>, trail: seq<seq<Step>>, done: set<nat>,
                 u: nat, i: nat, queue: seq<Entry>)
    requires Labels(g, net, hop, s, pot, dist, prevNode, prevEdge, trail, done + {u}) && s in done + {u}
    requires u < |g| && i < |g[u]| == |hop[u]| && g[u][i].capacity > 0 && dist[u] < INFINITE
    requires HopAt(g, net, hop, u, i) && CalmAt(g, pot, top, u, i)
    requires Finished(g, pot, dist, done) && Relaxed(g, pot, dist, u, i) && Queued(queue, dist, done + {u})
    requires forall w :: w in done ==> dist[w] <= dist[u]
    requires dist[u] + g[u][i].cost + pot[u] - pot[g[u][i].to] < dist[g[u][i].to]
    ensures var v := g[u][i].to;
            var candidate := dist[u] + g[u][i].cost + pot[u] - pot[v];
            && v !in done + {u} && candidate < INFINITE
            && Labels(g, net, hop, s, pot, dist[v := candidate], prevNode[v := u], prevEdge[v := i],
                      trail[v := trail[u] + [hop[u][i]]], done + {u})
            && Finished(g, pot, dist[v := candidate], done)
            && Relaxed(g, pot, dist[v := candidate], u, i + 1)
            && Queued(queue + [(candidate, v)], dist[v := candidate], done + {u})
  {
    var v := g[u][i].to;
    var candidate := dist[u] + g[u][i].cost + pot[u] - pot[v];
    assert v !in done + {u};
    assert Labelled(g, net, hop, s, pot, dist, prevNode, prevEdge, trail, done + {u}, v);
    assert Labelled(g, net, hop, s, pot, dist, prevNode, prevEdge, trail, done + {u}, u);
    ExtendTrail(net, s, trail[u], u, hop[u][i], done + {u});
    ImproveKeepsLabels(g, net, hop, s, pot, dist, prevNode, prevEdge, trail, done + {u}, u, i, candidate);
    ImproveKeepsQueue(g, pot, dist, done, u, i, queue, candidate);
  }

  lemma WidenLabels(g: Graph, net: seq<Arc>, hop: seq<seq<Step>>, s: nat, pot: seq<int>, dist: seq<int>,
                    prevNode: seq<int>, prevEdge: seq<int>, trail: seq<seq<Step>>, done: set<nat>, u: nat)
    requires Labels(g, net, hop, s, pot, dist, prevNode, prevEdge, trail, done)
    ensures Labels(g, net, hop, s, pot, dist, prevNode, prevEdge, trail, done + {u})
  {
    forall v | 0 <= v < |g|
      ensures Labelled(g, net, hop, s, pot, dist, prevNode, prevEdge, trail, done + {u}, v)
    {
      assert Labelled(g, net, hop, s, pot, dist, prevNode, prevEdge, trail, done, v);
    }
  }

  /** A popped entry is either superseded or names a node that can be finished. */
  lemma PopKeepsQueued(queue: seq<Entry>, least: Entry, rest: seq<Entry>, dist: seq<int>, done: set<nat>)
    requires Queued(queue, dist, done)
    requires least in queue && forall q :: q in queue ==> Before(least, q)
    requires forall q :: q in queue <==> q == least || q in rest
    ensures least.1 < |dist| && dist[least.1] <= least.0 < INFINITE
    ensures least.0 == dist[least.1] ==> Queued(rest, dist, done + {least.1})
    ensures least.0 != dist[least.1] ==> Queued(rest, dist, done)
    ensures forall u :: u in done ==> u < |dist| && dist[u] <= least.0
  {
    forall q | q in rest ensures q in queue && Before(least, q) {}
  }

  // ----- The search -----------------------------------------------------------

  method RelaxEdges(g: Graph, ghost net: seq<Arc>, ghost hop: seq<seq<Step>>, ghost s: nat, potential: seq<int>,
                    ghost top: set<nat>,
                    node: nat, distance0: seq<int>, previousNode0: seq<int>, previousEdge0: seq<int>,
                    ghost trail0: seq<seq<Step>>, queue0: seq<Entry>, ghost done: set<nat>)
    returns (distance: seq<int>, previousNode: seq<int>, previousEdge: seq<int>, ghost trail: seq<seq<Step>>,
             queue: seq<Entry>)
    requires Searchable(g, net, hop, s, potential, top)
    requires Labels(g, net, hop, s, potential, distance0, previousNode0, previousEdge0, trail0, done)
    requires node in top && distance0[node] < INFINITE && s in done + {node}
    requires Finished(g, potential, distance0, done) && Queued(queue0, distance0, done + {node})
    requires forall u :: u in done ==> distance0[u] <= distance0[node]
    requires Reached(distance0) <= top
    ensures Labels(g, net, hop, s, potential, distance, previousNode, previousEdge, trail, done + {node})
    ensures Finished(g, potential, distance, done + {node}) && Queued(queue, distance, done + {node})
    ensures Reached(distance) <= top
    ensures node in done ==> queue == queue0
  {
    distance, previousNode, previousEdge, queue := distance0, previousNode0, previousEdge0, queue0;
    trail := trail0;
    ghost var done' := done + {node};
    WidenLabels(g, net, hop, s, potential, distance, previousNode, previousEdge, trail, done, node);
    for i := 0 to |g[node]|
      invariant Labels(g, net, hop, s, potential, distance, previousNode, previousEdge, trail, done')
      invariant forall u :: u in done' ==> u < |g| && distance[u] == distance0[u]
      invariant Finished(g, potential, distance, done) && Relaxed(g, potential, distance, node, i)
      invariant Queued(queue, distance, done')
      invariant Reached(distance) <= top
      invariant node in done ==> queue == queue0
    {
      var edge := g[node][i];
      assert HopAt(g, net, hop, node, i) && CalmAt(g, potential, top, node, i);
      if edge.capacity > 0 {
        var candidate := distance[node] + edge.cost + potential[node] - potential[edge.to];
        assert node in done ==> RelaxedAt(g, potential, distance, node, i);
        if candidate < distance[edge.to] {
          Improve(g, net, hop, s, potential, top, distance, previousNode, previousEdge, trail, done, node, i, queue);
          trail := trail[edge.to := trail[node] + [hop[node][i]]];
          distance := distance[edge.to := candidate];
          previousNode := previousNode[edge.to := node];
          previousEdge := previousEdge[edge.to := i];
          queue := queue + [(candidate, edge.to)];
        }
      }
      assert RelaxedAt(g, potential, distance, node, i);
    }
  }

  method Search(g: Graph, ghost net: seq<Arc>, ghost hop: seq<seq<Step>>, source: nat, potential: seq<int>,
                ghost top: set<nat>)
    returns (distance: seq<int>, previousNode: seq<int>, previousEdge: seq<int>, ghost trail: seq<seq<Step>>)
    requires Searchable(g, net, hop, source, potential, top)
    ensures Labels(g, net, hop, source, potential, distance, previousNode, previousEdge, trail, Reached(distance))
    ensures Finished(g, potential, distance, Reached(distance))
    ensures Reached(distance) <= top
  {
    distance := seq(|g|, _ => INFINITE)[source := 0];
    previousNode := seq(|g|, _ => -1);
    previousEdge := seq(|g|, _ => -1);
    trail := seq(|g|, _ => []);
    var queue: seq<Entry> := [(0, source)];
    ghost var done: set<nat> := {};
    while queue != []
      invariant Labels(g, net, hop, source, potential, distance, previousNode, previousEdge, trail, done)
      invariant Finished(g, potential, distance, done) && Queued(queue, distance, done)
      invariant Reached(distance) <= top
      invariant source in done || (done == {} && queue == [(0, source)])
      decreases Unfinished(|g|, done), |queue|
    {
      var least, rest := PopLeast(queue);
      PopKeepsQueued(queue, least, rest, distance, done);
      var currentDistance, node := least.0, least.1;
      queue := rest;
      assert if node in done then done + {node} == done else node in Unfinished(|g|, done);
      if currentDistance == distance[node] {
        assert node in Reached(distance);
        distance, previousNode, previousEdge, trail, queue :=
          RelaxEdges(g, net, hop, source, potential, top, node, distance, previousNode, previousEdge, trail, queue,
                     done);
        done := done + {node};
      }
    }
    assert done == Reached(distance);
  }
}

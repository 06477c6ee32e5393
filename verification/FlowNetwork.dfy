/**
 A directed network given as a flat list of arcs, and the linear algebra of its
 flows: node balances, cost, paths in the residual network, and the two classical
 certificates (a saturated cut bounds every flow value; levels and potentials
 bound every flow cost).  Nothing here mentions the adjacency lists of the
 planner's code, so it serves as the reference the code is measured against.
 */
module FlowNetwork {

  datatype Arc = Arc(src: nat, dst: nat, cap: int, cost: int)

  /** Sum of the first `k` products `x[i] * w[i]`. */
  ghost function Dot(x: seq<int>, w: seq<int>, k: nat): int
    requires k <= |x| && k <= |w|
  {
    if k == 0 then 0 else Dot(x, w, k - 1) + x[k - 1] * w[k - 1]
  }

  lemma {:induction false} DotUpdate(x: seq<int>, w: seq<int>, k: nat, e: nat, delta: int)
    requires k <= |x| && k <= |w| && e < |x|
    ensures Dot(x[e := x[e] + delta], w, k) == Dot(x, w, k) + (if e < k then delta * w[e] else 0)
  {
    if k == 0 {
    } else {
      DotUpdate(x, w, k - 1, e, delta);
      if e == k - 1 {
        assert (x[e] + delta) * w[e] == x[e] * w[e] + delta * w[e];
      }
    }
  }

  /** `Dot` is linear in its second argument ... */
  lemma {:induction false} DotLinear(x: seq<int>, w: seq<int>, u: seq<int>, c: int, v: seq<int>, k: nat)
    requires k <= |x| && k <= |w| && k <= |u| && k <= |v|
    requires forall i :: 0 <= i < k ==> w[i] == u[i] + c * v[i]
    ensures Dot(x, w, k) == Dot(x, u, k) + c * Dot(x, v, k)
  {
    if k == 0 {
    } else {
      DotLinear(x, w, u, c, v, k - 1);
      var a, b, d := x[k - 1], u[k - 1], v[k - 1];
      assert a * (b + c * d) == a * b + c * (a * d);
      assert c * (Dot(x, v, k - 1) + a * d) == c * Dot(x, v, k - 1) + c * (a * d);
    }
  }

  /** ... and in its first. */
  lemma {:induction false} DotMinus(y: seq<int>, x: seq<int>, d: seq<int>, w: seq<int>, k: nat)
    requires k <= |y| && k <= |x| && k <= |d| && k <= |w|
    requires forall i :: 0 <= i < k ==> d[i] == y[i] - x[i]
    ensures Dot(d, w, k) == Dot(y, w, k) - Dot(x, w, k)
  {
    if k == 0 {
    } else {
      DotMinus(y, x, d, w, k - 1);
      assert (y[k - 1] - x[k - 1]) * w[k - 1] == y[k - 1] * w[k - 1] - x[k - 1] * w[k - 1];
    }
  }

  lemma {:induction false} DotNonNegative(x: seq<int>, w: seq<int>, k: nat)
    requires k <= |x| && k <= |w|
    requires forall i :: 0 <= i < k ==> x[i] * w[i] >= 0
    ensures Dot(x, w, k) >= 0
  {
    if k == 0 {
    } else {
      DotNonNegative(x, w, k - 1);
    }
  }

  /** A sum of non-positive terms that is not negative has only zero terms. */
  lemma {:induction false} DotAllZero(x: seq<int>, w: seq<int>, k: nat, e: nat)
    requires e < k <= |x| && k <= |w|
    requires forall i :: 0 <= i < k ==> x[i] * w[i] <= 0
    requires Dot(x, w, k) >= 0
    ensures x[e] * w[e] == 0
  {
    DotNonPositive(x, w, k - 1);
    if e < k - 1 { DotAllZero(x, w, k - 1, e); }
  }

  lemma {:induction false} DotNonPositive(x: seq<int>, w: seq<int>, k: nat)
    requires k <= |x| && k <= |w|
    requires forall i :: 0 <= i < k ==> x[i] * w[i] <= 0
    ensures Dot(x, w, k) <= 0
  {
    if k == 0 {
    } else {
      DotNonPositive(x, w, k - 1);
    }
  }

  // ----- Networks and flows ---------------------------------------------------

  ghost predicate IsNetwork(net: seq<Arc>, n: nat) {
    forall e :: 0 <= e < |net| ==> net[e].src < n && net[e].dst < n
  }

  ghost predicate Feasible(net: seq<Arc>, x: seq<int>) {
    |x| == |net| && forall e :: 0 <= e < |net| ==> 0 <= x[e] <= net[e].cap
  }

  /** The potential drop along every arc. */
  ghost function Drops(net: seq<Arc>, n: nat, pot: seq<int>): (w: seq<int>)
    requires IsNetwork(net, n) && |pot| == n
    ensures |w| == |net|
  {
    seq(|net|, e requires 0 <= e < |net| => pot[net[e].src] - pot[net[e].dst])
  }

  ghost function Indicator(n: nat, v: nat): (pot: seq<int>)
    ensures |pot| == n
  {
    seq(n, i => if i == v then 1 else 0)
  }

  /** Outflow minus inflow at node `v`. */
  ghost function Balance(net: seq<Arc>, n: nat, x: seq<int>, v: nat): int
    requires IsNetwork(net, n) && |x| == |net|
  {
    Dot(x, Drops(net, n, Indicator(n, v)), |net|)
  }

  ghost function Balances(net: seq<Arc>, n: nat, x: seq<int>): (b: seq<int>)
    requires IsNetwork(net, n) && |x| == |net|
    ensures |b| == n
  {
    seq(n, v requires 0 <= v < n => Balance(net, n, x, v))
  }

  ghost function Costs(net: seq<Arc>): (w: seq<int>)
    ensures |w| == |net|
  {
    seq(|net|, e requires 0 <= e < |net| => net[e].cost)
  }

  ghost function FlowCost(net: seq<Arc>, x: seq<int>): int
    requires |x| == |net|
  {
    Dot(x, Costs(net), |net|)
  }

  /** `y` is feasible and differs from `x` in net outflow only at `s` and `t`. */
  ghost predicate Reroutes(net: seq<Arc>, n: nat, x: seq<int>, s: nat, t: nat, y: seq<int>)
    requires IsNetwork(net, n) && |x| == |net|
  {
    && Feasible(net, y)
    && forall v :: 0 <= v < n && v != s && v != t ==> Balance(net, n, y, v) == Balance(net, n, x, v)
  }

  /** What `y` sends out of `s` beyond what `x` does. */
  ghost function Gain(net: seq<Arc>, n: nat, x: seq<int>, s: nat, y: seq<int>): int
    requires IsNetwork(net, n) && |x| == |net| == |y|
  {
    Balance(net, n, y, s) - Balance(net, n, x, s)
  }

  ghost predicate SameBalances(net: seq<Arc>, n: nat, x: seq<int>, y: seq<int>)
    requires IsNetwork(net, n) && |x| == |net|
  {
    |y| == |net| && forall v :: 0 <= v < n ==> Balance(net, n, x, v) == Balance(net, n, y, v)
  }

  // ----- Summation by parts ---------------------------------------------------

  ghost function Truncated(pot: seq<int>, k: nat): (r: seq<int>)
    ensures |r| == |pot|
  {
    seq(|pot|, i requires 0 <= i < |pot| => if i < k then pot[i] else 0)
  }

  lemma DropsOfTruncated(net: seq<Arc>, n: nat, pot: seq<int>, k: nat, e: nat)
    requires IsNetwork(net, n) && |pot| == n && k < n && e < |net|
    ensures Drops(net, n, Truncated(pot, k + 1))[e]
         == Drops(net, n, Truncated(pot, k))[e] + pot[k] * Drops(net, n, Indicator(n, k))[e]
  {
    var a := net[e];
    var p, q, r := Truncated(pot, k + 1), Truncated(pot, k), Indicator(n, k);
    assert p[a.src] == q[a.src] + pot[k] * r[a.src];
    assert p[a.dst] == q[a.dst] + pot[k] * r[a.dst];
  }

  lemma {:induction false} SummationByPartsUpTo(net: seq<Arc>, n: nat, x: seq<int>, pot: seq<int>, k: nat)
    requires IsNetwork(net, n) && |x| == |net| && |pot| == n && k <= n
    ensures Dot(x, Drops(net, n, Truncated(pot, k)), |net|) == Dot(pot, Balances(net, n, x), k)
  {
    if k == 0 {
      var w := Drops(net, n, Truncated(pot, 0));
      assert forall e :: 0 <= e < |net| ==> w[e] == 0;
      DotNonNegative(x, w, |net|);
      DotNonPositive(x, w, |net|);
    } else {
      SummationByPartsUpTo(net, n, x, pot, k - 1);
      forall e | 0 <= e < |net|
        ensures Drops(net, n, Truncated(pot, k))[e]
             == Drops(net, n, Truncated(pot, k - 1))[e] + pot[k - 1] * Drops(net, n, Indicator(n, k - 1))[e]
      {
        DropsOfTruncated(net, n, pot, k - 1, e);
      }
      DotLinear(x, Drops(net, n, Truncated(pot, k)), Drops(net, n, Truncated(pot, k - 1)),
                pot[k - 1], Drops(net, n, Indicator(n, k - 1)), |net|);
    }
  }

  lemma SummationByParts(net: seq<Arc>, n: nat, x: seq<int>, pot: seq<int>)
    requires IsNetwork(net, n) && |x| == |net| && |pot| == n
    ensures Dot(x, Drops(net, n, pot), |net|) == Dot(pot, Balances(net, n, x), n)
  {
    SummationByPartsUpTo(net, n, x, pot, n);
    assert Truncated(pot, n) == pot;
  }

  /** With equal balances, a potential cannot tell two flows apart. */
  lemma PotentialBlind(net: seq<Arc>, n: nat, x: seq<int>, y: seq<int>, d: seq<int>, pot: seq<int>)
    requires IsNetwork(net, n) && |x| == |net| && |pot| == n
    requires SameBalances(net, n, x, y)
    requires |d| == |net| && forall e :: 0 <= e < |net| ==> d[e] == y[e] - x[e]
    ensures Dot(d, Drops(net, n, pot), |net|) == 0
  {
    SummationByParts(net, n, x, pot);
    SummationByParts(net, n, y, pot);
    assert Balances(net, n, x) == Balances(net, n, y);
    DotMinus(y, x, d, Drops(net, n, pot), |net|);
  }

  // ----- Cost optimality ------------------------------------------------------

  /** Levels never fall along a residual arc, and within a level every residual arc
      has a non-negative reduced cost. */
  ghost predicate Certified(net: seq<Arc>, n: nat, x: seq<int>, pot: seq<int>, lev: seq<int>)
    requires IsNetwork(net, n) && |x| == |net|
  {
    && |pot| == n && |lev| == n
    && (forall e :: 0 <= e < |net| && x[e] < net[e].cap ==>
          var a := net[e];
          lev[a.src] <= lev[a.dst] && (lev[a.src] == lev[a.dst] ==> a.cost + pot[a.src] - pot[a.dst] >= 0))
    && (forall e :: 0 <= e < |net| && x[e] > 0 ==>
          var a := net[e];
          lev[a.dst] <= lev[a.src] && (lev[a.src] == lev[a.dst] ==> a.cost + pot[a.src] - pot[a.dst] <= 0))
  }

  /** Two flows with the same balances agree on every arc between two levels. */
  lemma LevelsAgree(net: seq<Arc>, n: nat, x: seq<int>, pot: seq<int>, lev: seq<int>, y: seq<int>, d: seq<int>, e: nat)
    requires IsNetwork(net, n) && Feasible(net, x) && Feasible(net, y)
    requires Certified(net, n, x, pot, lev) && SameBalances(net, n, x, y)
    requires |d| == |net| && forall i :: 0 <= i < |net| ==> d[i] == y[i] - x[i]
    requires e < |net| && lev[net[e].src] != lev[net[e].dst]
    ensures d[e] == 0
  {
    var k := if lev[net[e].src] > lev[net[e].dst] then lev[net[e].src] else lev[net[e].dst];
    var above := seq(n, v requires 0 <= v < n => if lev[v] >= k then 1 else 0);
    var w := Drops(net, n, above);
    PotentialBlind(net, n, x, y, d, above);
    forall i | 0 <= i < |net|
      ensures d[i] * w[i] <= 0
    {
      var a := net[i];
      if w[i] > 0 {
        assert x[i] == a.cap;
      } else if w[i] < 0 {
        assert x[i] == 0;
      }
    }
    DotAllZero(d, w, |net|, e);
  }

  lemma CertifiedIsCheapest(net: seq<Arc>, n: nat, x: seq<int>, pot: seq<int>, lev: seq<int>, y: seq<int>)
    requires IsNetwork(net, n) && Feasible(net, x) && Feasible(net, y)
    requires Certified(net, n, x, pot, lev) && SameBalances(net, n, x, y)
    ensures FlowCost(net, x) <= FlowCost(net, y)
  {
    var d := seq(|net|, e requires 0 <= e < |net| => y[e] - x[e]);
    var drops := Drops(net, n, pot);
    var reduced := seq(|net|, e requires 0 <= e < |net| => net[e].cost + 1 * drops[e]);
    forall e | 0 <= e < |net|
      ensures d[e] * reduced[e] >= 0
    {
      if lev[net[e].src] != lev[net[e].dst] {
        LevelsAgree(net, n, x, pot, lev, y, d, e);
      }
    }
    DotNonNegative(d, reduced, |net|);
    DotLinear(d, reduced, Costs(net), 1, drops, |net|);
    PotentialBlind(net, n, x, y, d, pot);
    DotMinus(y, x, d, Costs(net), |net|);
  }

  // ----- Value optimality -----------------------------------------------------

  /** `inside` is a cut that `x` saturates outwards and leaves empty inwards. */
  ghost predicate SaturatedCut(net: seq<Arc>, n: nat, x: seq<int>, inside: seq<bool>)
    requires IsNetwork(net, n) && |x| == |net|
  {
    && |inside| == n
    && forall e :: 0 <= e < |net| ==>
         && (inside[net[e].src] && !inside[net[e].dst] ==> x[e] == net[e].cap)
         && (!inside[net[e].src] && inside[net[e].dst] ==> x[e] == 0)
  }

  /** The balances of any flow, weighted by a potential. */
  lemma {:induction false} WeightedBalances(net: seq<Arc>, n: nat, x: seq<int>, y: seq<int>, s: nat, t: nat,
                                            pot: seq<int>, k: nat)
    requires IsNetwork(net, n) && |x| == |net| == |y| && |pot| == n && k <= n
    requires s < n && t < n && s != t && pot[s] == 1 && pot[t] == 0
    requires forall v :: 0 <= v < n && v != s && v != t ==> Balance(net, n, y, v) == Balance(net, n, x, v)
    ensures Dot(pot, Balances(net, n, y), k) - Dot(pot, Balances(net, n, x), k)
         == if s < k then Gain(net, n, x, s, y) else 0
  {
    if k == 0 {
    } else {
      WeightedBalances(net, n, x, y, s, t, pot, k - 1);
    }
  }

  lemma {:induction false} TotalBalance(net: seq<Arc>, n: nat, x: seq<int>, y: seq<int>, s: nat, k: nat)
    requires IsNetwork(net, n) && |x| == |net| == |y| && k <= n && s < n
    requires forall v :: 0 <= v < n && v != s ==> Balance(net, n, y, v) == Balance(net, n, x, v)
    ensures var one := seq(n, _ => 1);
            Dot(one, Balances(net, n, y), k) - Dot(one, Balances(net, n, x), k)
            == if s < k then Gain(net, n, x, s, y) else 0
  {
    if k == 0 {
    } else {
      TotalBalance(net, n, x, y, s, k - 1);
    }
  }

  /** Balances that agree everywhere but at one node agree there too. */
  lemma LastBalance(net: seq<Arc>, n: nat, x: seq<int>, y: seq<int>, s: nat)
    requires IsNetwork(net, n) && |x| == |net| == |y| && s < n
    requires forall v :: 0 <= v < n && v != s ==> Balance(net, n, y, v) == Balance(net, n, x, v)
    ensures SameBalances(net, n, x, y)
  {
    var one: seq<int> := seq(n, _ => 1);
    var drops := Drops(net, n, one);
    SummationByParts(net, n, x, one);
    SummationByParts(net, n, y, one);
    TotalBalance(net, n, x, y, s, n);
    DotNonNegative(x, drops, |net|);
    DotNonPositive(x, drops, |net|);
    DotNonNegative(y, drops, |net|);
    DotNonPositive(y, drops, |net|);
  }

  lemma SaturatedCutIsMaximal(net: seq<Arc>, n: nat, x: seq<int>, inside: seq<bool>, s: nat, t: nat, y: seq<int>)
    requires IsNetwork(net, n) && Feasible(net, x) && SaturatedCut(net, n, x, inside)
    requires s < n && t < n && inside[s] && (s == t || !inside[t])
    requires Reroutes(net, n, x, s, t, y)
    ensures Gain(net, n, x, s, y) <= 0
  {
    var d := seq(|net|, e requires 0 <= e < |net| => y[e] - x[e]);
    if s == t {
      LastBalance(net, n, x, y, s);
    } else {
      var pot: seq<int> := seq(n, v requires 0 <= v < n => if inside[v] then 1 else 0);
      SummationByParts(net, n, x, pot);
      SummationByParts(net, n, y, pot);
      WeightedBalances(net, n, x, y, s, t, pot, n);
      DotMinus(y, x, d, Drops(net, n, pot), |net|);
      DotNonPositive(d, Drops(net, n, pot), |net|);
    }
  }

  // ----- Residual paths -------------------------------------------------------

  /** One traversal of arc `e`, along it or against it. */
  datatype Step = Step(e: nat, along: bool)

  ghost function Tail(net: seq<Arc>, h: Step): nat
    requires h.e < |net|
  {
    if h.along then net[h.e].src else net[h.e].dst
  }

  ghost function Head(net: seq<Arc>, h: Step): nat
    requires h.e < |net|
  {
    if h.along then net[h.e].dst else net[h.e].src
  }

  ghost function StepCost(net: seq<Arc>, h: Step): int
    requires h.e < |net|
  {
    if h.along then net[h.e].cost else -net[h.e].cost
  }

  /** The step has residual capacity under flow `x`. */
  ghost predicate Open(net: seq<Arc>, x: seq<int>, h: Step)
    requires h.e < |net| && |x| == |net|
  {
    if h.along then x[h.e] < net[h.e].cap else x[h.e] > 0
  }

  ghost predicate IsStepSeq(net: seq<Arc>, p: seq<Step>) {
    forall k :: 0 <= k < |p| ==> p[k].e < |net|
  }

  ghost predicate IsPath(net: seq<Arc>, s: nat, p: seq<Step>, v: nat) {
    && IsStepSeq(net, p)
    && if p == [] then v == s
       else Head(net, p[|p| - 1]) == v && IsPath(net, s, p[..|p| - 1], Tail(net, p[|p| - 1]))
  }

  ghost predicate Avoids(net: seq<Arc>, p: seq<Step>, v: nat)
    requires IsStepSeq(net, p)
  {
    forall k :: 0 <= k < |p| ==> Tail(net, p[k]) != v
  }

  /** A path that never comes back to a node. */
  ghost predicate IsSimplePath(net: seq<Arc>, s: nat, p: seq<Step>, v: nat) {
    && IsStepSeq(net, p)
    && if p == [] then v == s
       else
         && Head(net, p[|p| - 1]) == v && Avoids(net, p, v)
         && IsSimplePath(net, s, p[..|p| - 1], Tail(net, p[|p| - 1]))
  }

  ghost predicate AllOpen(net: seq<Arc>, x: seq<int>, p: seq<Step>)
    requires |x| == |net| && IsStepSeq(net, p)
  {
    forall k :: 0 <= k < |p| ==> Open(net, x, p[k])
  }

  ghost function PathCost(net: seq<Arc>, p: seq<Step>): int
    requires IsStepSeq(net, p)
  {
    if p == [] then 0 else PathCost(net, p[..|p| - 1]) + StepCost(net, p[|p| - 1])
  }

  /** Every simple path out of `s`, arcs taken either way, costs less than `bound`. */
  ghost predicate SimplePathsBelow(net: seq<Arc>, s: nat, bound: int) {
    forall p, v :: IsSimplePath(net, s, p, v) ==> PathCost(net, p) < bound
  }

  ghost predicate Reachable(net: seq<Arc>, x: seq<int>, s: nat, v: nat)
    requires |x| == |net|
  {
    exists p :: IsPath(net, s, p, v) && AllOpen(net, x, p)
  }

  /** Extending a simple path by a step to a node it has not left. */
  lemma ExtendSimplePath(net: seq<Arc>, s: nat, p: seq<Step>, u: nat, h: Step)
    requires IsSimplePath(net, s, p, u) && h.e < |net| && Tail(net, h) == u && Head(net, h) != u
    requires Avoids(net, p, Head(net, h))
    ensures IsSimplePath(net, s, p + [h], Head(net, h))
    ensures PathCost(net, p + [h]) == PathCost(net, p) + StepCost(net, h)
  {
    var q := p + [h];
    assert q[..|q| - 1] == p;
  }

  lemma ExtendPath(net: seq<Arc>, s: nat, p: seq<Step>, u: nat, h: Step)
    requires IsPath(net, s, p, u) && h.e < |net| && Tail(net, h) == u
    ensures IsPath(net, s, p + [h], Head(net, h))
    ensures PathCost(net, p + [h]) == PathCost(net, p) + StepCost(net, h)
  {
    var q := p + [h];
    assert q[..|q| - 1] == p;
  }

  // ----- Moving flow over one step --------------------------------------------

  ghost function Shift(net: seq<Arc>, x: seq<int>, h: Step, amount: int): (y: seq<int>)
    requires |x| == |net| && h.e < |net|
    ensures |y| == |x|
  {
    x[h.e := x[h.e] + (if h.along then amount else -amount)]
  }

  /** A shift moves `amount` from the step's tail to its head ... */
  lemma ShiftBalance(net: seq<Arc>, n: nat, x: seq<int>, h: Step, amount: int, v: nat)
    requires IsNetwork(net, n) && |x| == |net| && h.e < |net| && v < n
    ensures Balance(net, n, Shift(net, x, h, amount), v) == Balance(net, n, x, v)
              + (if v == Tail(net, h) then amount else 0) - (if v == Head(net, h) then amount else 0)
  {
    var w := Drops(net, n, Indicator(n, v));
    DotUpdate(x, w, |net|, h.e, if h.along then amount else -amount);
    var a := net[h.e];
    assert w[h.e] == (if a.src == v then 1 else 0) - (if a.dst == v then 1 else 0);
  }

  /** ... and is charged the step's cost. */
  lemma ShiftCost(net: seq<Arc>, x: seq<int>, h: Step, amount: int)
    requires |x| == |net| && h.e < |net|
    ensures FlowCost(net, Shift(net, x, h, amount)) == FlowCost(net, x) + amount * StepCost(net, h)
  {
    DotUpdate(x, Costs(net), |net|, h.e, if h.along then amount else -amount);
    if !h.along {
      assert (-amount) * net[h.e].cost == amount * (-net[h.e].cost);
    }
  }
}

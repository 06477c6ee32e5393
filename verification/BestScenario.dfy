/**
 The best coverage and cost of a set of active facilities as functions of the set, and
 that opening more facilities never covers less.
 */
module BestScenario {
  import opened Basics
  import opened Rates
  import opened Scenarios
  import opened Transport
  import opened PlanOptimality
  import opened Allocator
  import opened OptimizedScenario
  import opened OptimizedEvaluation

  // ----- Optimal plans exist and agree ----------------------------------------

  ghost predicate NoBetter(p: Problem, a: Plan, b: Plan)
    requires IsProblem(p) && HasShape(p, a) && HasShape(p, b)
  {
    Coverage(b) < Coverage(a) || (Coverage(b) == Coverage(a) && Cost(p, a) <= Cost(p, b))
  }

  lemma CostIsNonNegative(p: Problem, b: Plan)
    requires IsProblem(p) && Fits(p, b)
    ensures 0 <= Coverage(b) <= TotalDemand(p.demand, |b|) && 0 <= Cost(p, b)
  {
    CoveredBounds(p, b, |b|);
    CostsNonNegative(p, b, |b|);
  }

  lemma {:induction false} RowCostsNonNegative(p: Problem, b: Plan, i: nat, j: nat)
    requires IsProblem(p) && Fits(p, b) && i < |b| && j <= |p.capacity|
    ensures 0 <= RowCost(p, b, i, j)
  {
    if j == 0 {
    } else {
      RowCostsNonNegative(p, b, i, j - 1);
      TimesMonotone(b[i][j - 1], 0, UnitCost(p, i, j - 1));
    }
  }

  lemma {:induction false} CostsNonNegative(p: Problem, b: Plan, i: nat)
    requires IsProblem(p) && Fits(p, b) && i <= |b|
    ensures 0 <= PlanCost(p, b, i)
  {
    if i == 0 {
    } else {
      CostsNonNegative(p, b, i - 1);
      RowCostsNonNegative(p, b, i - 1, |p.capacity|);
    }
  }

  /** Improving a plan cannot go on for ever. */
  lemma OptimalExists(p: Problem, b: Plan) returns (a: Plan)
    requires IsProblem(p) && Fits(p, b)
    ensures Optimal(p, a)
    decreases TotalDemand(p.demand, |b|) - Coverage(b), Cost(p, b)
  {
    if forall c :: Fits(p, c) ==> NoBetter(p, b, c) {
      a := b;
    } else {
      var c :| Fits(p, c) && !NoBetter(p, b, c);
      CostIsNonNegative(p, b);
      CostIsNonNegative(p, c);
      a := OptimalExists(p, c);
    }
  }

  ghost function BestPlan(p: Problem): (a: Plan)
    requires IsProblem(p)
    ensures Optimal(p, a)
  {
    assert exists a :: Optimal(p, a) by {
      NoPlanFits(p);
      var a := OptimalExists(p, NoPlan(p));
    }
    var a :| Optimal(p, a);
    a
  }

  /** Coverage and cost do not depend on which optimal plan was found. */
  lemma OptimaAgree(p: Problem, a: Plan, b: Plan)
    requires IsProblem(p) && Optimal(p, a) && Optimal(p, b)
    ensures Coverage(a) == Coverage(b) && Cost(p, a) == Cost(p, b)
  {
    assert Fits(p, a) && Fits(p, b);
  }

  ghost function BestCoverage(snapshot: Snapshot, matrix: RouteMatrix, active: seq<int>): int
    requires AllKnown(snapshot, active)
  {
    Coverage(BestPlan(ScenarioProblem(snapshot, matrix, active)))
  }

  ghost function BestCost(snapshot: Snapshot, matrix: RouteMatrix, active: seq<int>): int
    requires AllKnown(snapshot, active)
  {
    var p := ScenarioProblem(snapshot, matrix, active);
    FixedCosts(ScenarioFacilities(snapshot, active)) + Cost(p, BestPlan(p))
  }

  ghost function BestRatio(snapshot: Snapshot, matrix: RouteMatrix, active: seq<int>): real
    requires AllKnown(snapshot, active)
  {
    Ratio(BestCoverage(snapshot, matrix, active), DemandUnits(snapshot.input.demands))
  }

  /** Every optimised result of these facilities has the same headline numbers. */
  lemma ResultsAgree(snapshot: Snapshot, matrix: RouteMatrix, active: seq<int>, value: ScenarioResult, plan: Plan)
    requires Distinct(DemandIds(snapshot.input.demands))
    requires AllKnown(snapshot, active) && IsOptimized(snapshot, matrix, active, value, plan)
    ensures value.metrics.coveredUnits == BestCoverage(snapshot, matrix, active)
    ensures value.metrics.coverageRatio == BestRatio(snapshot, matrix, active)
    ensures value.metrics.totalCost == BestCost(snapshot, matrix, active)
  {
    OptimizedIsConsistent(snapshot, matrix, active, value, plan);
    OptimaAgree(ScenarioProblem(snapshot, matrix, active), plan, BestPlan(ScenarioProblem(snapshot, matrix, active)));
  }

  // ----- More facilities, no less coverage ------------------------------------

  ghost predicate StrictlyIncreasing(ids: seq<int>) {
    forall i, j :: 0 <= i < j < |ids| ==> ids[i] < ids[j]
  }

  ghost function IndexOf(ids: seq<int>, id: int): (k: nat)
    requires id in ids
    ensures k < |ids| && ids[k] == id
  {
    var k :| 0 <= k < |ids| && ids[k] == id;
    k
  }

  /** The row of a plan for `few`, spread over `many`. */
  ghost function SpreadRow(few: seq<int>, many: seq<int>, row: seq<int>): (r: seq<int>)
    requires |row| == |few|
    ensures |r| == |many|
    ensures forall j :: 0 <= j < |many| ==> r[j] == if many[j] in few then row[IndexOf(few, many[j])] else 0
  {
    seq(|many|, j requires 0 <= j < |many| => if many[j] in few then row[IndexOf(few, many[j])] else 0)
  }

  ghost function Spread(few: seq<int>, many: seq<int>, a: Plan): (b: Plan)
    requires forall i :: 0 <= i < |a| ==> |a[i]| == |few|
    ensures |b| == |a| && forall i :: 0 <= i < |b| ==> b[i] == SpreadRow(few, many, a[i])
  {
    seq(|a|, i requires 0 <= i < |a| => SpreadRow(few, many, a[i]))
  }

  /** The first `m` of `few` are among the first `n` of `many`, the others among the rest. */
  ghost predicate Splits(few: seq<int>, many: seq<int>, m: nat, n: nat) {
    && m <= |few| && n <= |many|
    && (forall k :: 0 <= k < m ==> few[k] in many[..n])
    && (forall k :: m <= k < |few| ==> few[k] in many[n..])
  }

  lemma SpreadAt(few: seq<int>, many: seq<int>, a: Plan, i: nat, j: nat)
    requires (forall r :: 0 <= r < |a| ==> |a[r]| == |few|) && i < |a| && j < |many|
    ensures Spread(few, many, a)[i][j] == if many[j] in few then a[i][IndexOf(few, many[j])] else 0
  {
    assert Spread(few, many, a)[i] == SpreadRow(few, many, a[i]);
  }

  /** Facilities that `few` lacks contribute nothing. */
  lemma {:induction false} SpreadServes(few: seq<int>, many: seq<int>, a: Plan, i: nat, m: nat, n: nat)
    requires StrictlyIncreasing(few) && StrictlyIncreasing(many)
    requires (forall r :: 0 <= r < |a| ==> |a[r]| == |few|) && i < |a| && Splits(few, many, m, n)
    ensures Served(Spread(few, many, a), i, n) == Served(a, i, m)
  {
    assert m > 0 ==> few[0] in many[..n];
    if n == 0 {
    } else {
      var x := many[n - 1];
      SpreadAt(few, many, a, i, n - 1);
      if x in few {
        var q := IndexOf(few, x);
        LastOfFew(few, many, m, n, q);
        SpreadServes(few, many, a, i, m - 1, n - 1);
      } else {
        SkipsMany(few, many, m, n);
        SpreadServes(few, many, a, i, m, n - 1);
      }
    }
  }

  lemma LastOfFew(few: seq<int>, many: seq<int>, m: nat, n: nat, q: nat)
    requires StrictlyIncreasing(few) && StrictlyIncreasing(many) && n > 0 && Splits(few, many, m, n)
    requires q < |few| && few[q] == many[n - 1]
    ensures m > 0 && q == m - 1 && Splits(few, many, m - 1, n - 1)
  {
    assert few[q] !in many[n..];
    var t :| 0 <= t < n && many[t] == few[m - 1];
    assert few[m - 1] <= few[q];
    forall k | 0 <= k < m - 1
      ensures few[k] in many[..n - 1]
    {
      var u :| 0 <= u < n && many[u] == few[k];
      assert u != n - 1;
      assert many[..n - 1][u] == few[k];
    }
    forall k | m - 1 <= k < |few|
      ensures few[k] in many[n - 1..]
    {
      if k >= m {
        var u :| 0 <= u < |many[n..]| && many[n..][u] == few[k];
        assert many[n - 1..][u + 1] == few[k];
      } else {
        assert many[n - 1..][0] == few[k];
      }
    }
  }

  lemma SkipsMany(few: seq<int>, many: seq<int>, m: nat, n: nat)
    requires n > 0 && Splits(few, many, m, n) && many[n - 1] !in few
    ensures Splits(few, many, m, n - 1)
  {
    forall k | 0 <= k < m
      ensures few[k] in many[..n - 1]
    {
      var u :| 0 <= u < n && many[u] == few[k];
      assert u != n - 1;
      assert many[..n - 1][u] == few[k];
    }
    forall k | m <= k < |few|
      ensures few[k] in many[n - 1..]
    {
      var u :| 0 <= u < |many[n..]| && many[n..][u] == few[k];
      assert many[n - 1..][u + 1] == few[k];
    }
  }

  lemma {:induction false} SpreadLoads(few: seq<int>, many: seq<int>, a: Plan, j: nat, i: nat)
    requires (forall r :: 0 <= r < |a| ==> |a[r]| == |few|) && i <= |a| && j < |many|
    ensures Load(Spread(few, many, a), j, i) == if many[j] in few then Load(a, IndexOf(few, many[j]), i) else 0
  {
    if i == 0 {
    } else {
      SpreadLoads(few, many, a, j, i - 1);
    }
  }

  lemma {:induction false} SpreadCovers(few: seq<int>, many: seq<int>, a: Plan, i: nat)
    requires StrictlyIncreasing(few) && StrictlyIncreasing(many) && forall k :: 0 <= k < |few| ==> few[k] in many
    requires (forall r :: 0 <= r < |a| ==> |a[r]| == |few|) && i <= |a|
    ensures Covered(Spread(few, many, a), i) == Covered(a, i)
  {
    if i == 0 {
    } else {
      SpreadCovers(few, many, a, i - 1);
      assert many[..|many|] == many;
      SpreadServes(few, many, a, i - 1, |few|, |many|);
    }
  }

  lemma SpreadFits(snapshot: Snapshot, matrix: RouteMatrix, demands: seq<DemandPoint>, few: seq<int>, many: seq<int>,
                   a: Plan)
    requires AllKnown(snapshot, few) && AllKnown(snapshot, many)
    requires StrictlyIncreasing(few) && StrictlyIncreasing(many) && forall k :: 0 <= k < |few| ==> few[k] in many
    requires Fits(ProblemFor(snapshot, matrix, demands, ActiveFacilities(snapshot, few)), a)
    ensures Fits(ProblemFor(snapshot, matrix, demands, ActiveFacilities(snapshot, many)), Spread(few, many, a))
  {
    var p := ProblemFor(snapshot, matrix, demands, ActiveFacilities(snapshot, few));
    var q := ProblemFor(snapshot, matrix, demands, ActiveFacilities(snapshot, many));
    var b := Spread(few, many, a);
    assert |q.capacity| == |many| && |p.capacity| == |few|;
    forall i, j | 0 <= i < |b| && 0 <= j < |b[i]|
      ensures b[i][j] >= 0 && (b[i][j] > 0 ==> Eligible(q, i, j))
    {
      if many[j] in few { assert a[i][IndexOf(few, many[j])] == b[i][j]; }
    }
    forall i | 0 <= i < |b|
      ensures Served(b, i, |q.capacity|) <= q.demand[i]
    {
      assert many[..|many|] == many;
      SpreadServes(few, many, a, i, |few|, |many|);
    }
    forall j | 0 <= j < |q.capacity|
      ensures Load(b, j, |b|) <= q.capacity[j]
    {
      SpreadLoads(few, many, a, j, |b|);
      if many[j] in few { assert Load(a, IndexOf(few, many[j]), |a|) <= p.capacity[IndexOf(few, many[j])]; }
    }
  }

  lemma SortedIdsIncrease(active: seq<int>)
    requires Distinct(active)
    ensures StrictlyIncreasing(SortedIds(active))
    ensures forall id :: id in SortedIds(active) <==> id in active
  {
    SortedIdsStrict(active);
    SortByMembers(active, IdKey);
    var r := SortedIds(active);
    forall i, j | 0 <= i < j < |r| ensures r[i] < r[j] { assert IdKey(r[i]) < IdKey(r[j]); }
  }

  /** Coverage never falls when facilities are added. */
  lemma CoverageIsMonotone(snapshot: Snapshot, matrix: RouteMatrix, few: seq<int>, many: seq<int>)
    requires AllKnown(snapshot, few) && AllKnown(snapshot, many) && Distinct(few) && Distinct(many)
    requires forall id :: id in few ==> id in many
    ensures BestCoverage(snapshot, matrix, few) <= BestCoverage(snapshot, matrix, many)
  {
    SortedIdsIncrease(few);
    SortedIdsIncrease(many);
    SortedIdsKnown(snapshot, few);
    SortedIdsKnown(snapshot, many);
    var sf, sm := SortedIds(few), SortedIds(many);
    forall k | 0 <= k < |sf| ensures sf[k] in sm { assert sf[k] in sf; }
    var a := BestPlan(ScenarioProblem(snapshot, matrix, few));
    SpreadFits(snapshot, matrix, SortedDemands(snapshot), sf, sm, a);
    SpreadCovers(sf, sm, a, |a|);
  }
}

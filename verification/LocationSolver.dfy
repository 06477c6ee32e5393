/**
 The answer of the facility-location solver, stated over every selection of candidates
 instead of over the sets the search happened to list.
 */
module LocationSolver {
  import opened Basics
  import opened Rates
  import opened Scenarios
  import opened OptimizedEvaluation
  import opened CurrentEvaluation
  import opened BestScenario
  import opened FacilityLocation
  import opened Transport

  datatype LocationError = TargetOutOfRange | TooManyCandidates | WrongSnapshot

  /** Less total cost than this selection, or the same and more coverage, or both the same and
      listed before it. */
  ghost predicate IsCheaper(snapshot: Snapshot, matrix: RouteMatrix, best: Judged, s: seq<int>)
    requires Legal(snapshot, s)
  {
    Cheaper(best.result.metrics.totalCost, best.result.metrics.coverageRatio, best.subset,
            CostAt(snapshot, matrix, s), RatioAt(snapshot, matrix, s), s)
  }

  /** More coverage than this selection, or the same and fewer candidates, or the same and less
      total cost, or all the same and listed before it. */
  ghost predicate IsBetterMiss(snapshot: Snapshot, matrix: RouteMatrix, best: Judged, s: seq<int>)
    requires Legal(snapshot, s)
  {
    CoversBetter(best.result.metrics.totalCost, best.result.metrics.coverageRatio, best.subset,
                 CostAt(snapshot, matrix, s), RatioAt(snapshot, matrix, s), s)
  }

  /** The selected set is a smallest one that meets the target. Every other one of its size that
      does costs more, or the same and covers less, or the same and is listed after it. */
  ghost predicate SmallestAndBest(snapshot: Snapshot, matrix: RouteMatrix, target: real, best: Judged) {
    && Solved(snapshot, matrix, best) && Meets(snapshot, matrix, target, best.subset)
    && (forall s :: Legal(snapshot, s) && |s| < |best.subset| ==> !Meets(snapshot, matrix, target, s))
    && (forall s :: && Legal(snapshot, s) && |s| == |best.subset| && Meets(snapshot, matrix, target, s)
                    && s != best.subset ==>
          IsCheaper(snapshot, matrix, best, s))
  }

  /** Nothing meets the target. Every other selection covers less, or the same with more
      candidates, or the same at a higher cost, or the same and is listed after this one. */
  ghost predicate BestMiss(snapshot: Snapshot, matrix: RouteMatrix, target: real, best: Judged) {
    && Solved(snapshot, matrix, best)
    && (forall s :: Legal(snapshot, s) ==> !Meets(snapshot, matrix, target, s))
    && (forall s :: Legal(snapshot, s) && s != best.subset ==>
          IsBetterMiss(snapshot, matrix, best, s))
  }

  ghost function RatioView(snapshot: Snapshot, matrix: RouteMatrix): (ratio: seq<int> -> real)
    ensures forall s {:trigger RatioAt(snapshot, matrix, s)} :: Legal(snapshot, s) ==>
              ratio(s) == RatioAt(snapshot, matrix, s)
  {
    s => if Legal(snapshot, s) then RatioAt(snapshot, matrix, s) else 0.0
  }

  ghost function CostView(snapshot: Snapshot, matrix: RouteMatrix): (cost: seq<int> -> int)
    ensures forall s {:trigger CostAt(snapshot, matrix, s)} :: Legal(snapshot, s) ==>
              cost(s) == CostAt(snapshot, matrix, s)
  {
    s => if Legal(snapshot, s) then CostAt(snapshot, matrix, s) else 0
  }

  /** The judgements of every selection, packed for the search. */
  ghost function ViewOf(snapshot: Snapshot, matrix: RouteMatrix): (v: View)
    ensures Sees(snapshot, matrix, v)
  {
    View((iset j | Solved(snapshot, matrix, j)), RatioView(snapshot, matrix), CostView(snapshot, matrix))
  }

  lemma SetsBelowMiss(snapshot: Snapshot, matrix: RouteMatrix, v: View, target: real, n: nat, s: seq<int>)
    requires Legal(snapshot, s) && Sees(snapshot, matrix, v) && |s| < n
    requires NoneMeets(v, target, SetsBelow(CandidateIds(snapshot), n))
    ensures !Meets(snapshot, matrix, target, s)
  {
    ActiveIsLegal(snapshot, s);
    SetsBelowComplete(CandidateIds(snapshot), n, s);
    assert !MeetsIn(v, target, s);
  }

  lemma SolvedByView(snapshot: Snapshot, matrix: RouteMatrix, v: View, j: Judged)
    requires Sees(snapshot, matrix, v) && Fair(v, j)
    ensures Solved(snapshot, matrix, j)
    ensures KeyOfFeasible(j) == FeasibleKeyAt(snapshot, matrix, j.subset)
    ensures KeyOfFallback(j) == FallbackKeyAt(snapshot, matrix, j.subset)
  {
    assert Solved(snapshot, matrix, j);
  }

  lemma BestOfSizeIsBest(snapshot: Snapshot, matrix: RouteMatrix, v: View, target: real, size: nat, best: Judged)
    requires Distinct(FacilityIds(snapshot.input.facilities)) && Sees(snapshot, matrix, v)
    requires NoneMeets(v, target, SetsBelow(CandidateIds(snapshot), size))
    requires BestOf(v, target, Combinations(CandidateIds(snapshot), size), best)
    ensures SmallestAndBest(snapshot, matrix, target, best) && |best.subset| == size
  {
    var candidates := CandidateIds(snapshot);
    SolvedByView(snapshot, matrix, v, best);
    ActiveIsLegal(snapshot, best.subset);
    var i :| 0 <= i < |Combinations(candidates, size)| && Combinations(candidates, size)[i] == best.subset;
    CombinationsAreSelections(candidates, size, i);
    forall s | Legal(snapshot, s) && |s| < size
      ensures !Meets(snapshot, matrix, target, s)
    {
      SetsBelowMiss(snapshot, matrix, v, target, size, s);
    }
    forall s | Legal(snapshot, s) && |s| == size && Meets(snapshot, matrix, target, s) && s != best.subset
      ensures IsCheaper(snapshot, matrix, best, s)
    {
      SelectionsAreCombinations(candidates, s);
      assert MeetsIn(v, target, s);
      FeasibleKeysDiffer(snapshot, matrix, best.subset, s);
      FeasibleKeyIsCheaper(best.result.metrics.totalCost, best.result.metrics.coverageRatio, best.subset,
                           CostAt(snapshot, matrix, s), RatioAt(snapshot, matrix, s), s);
    }
  }

  lemma MissedIsBestMiss(snapshot: Snapshot, matrix: RouteMatrix, v: View, target: real, best: Judged)
    requires Distinct(FacilityIds(snapshot.input.facilities)) && Sees(snapshot, matrix, v)
    requires NoneMeets(v, target, SetsBelow(CandidateIds(snapshot), |CandidateIds(snapshot)| + 1))
    requires BestFallback(v, best, SetsBelow(CandidateIds(snapshot), |CandidateIds(snapshot)| + 1))
    ensures BestMiss(snapshot, matrix, target, best)
  {
    var candidates := CandidateIds(snapshot);
    SolvedByView(snapshot, matrix, v, best);
    ActiveIsLegal(snapshot, best.subset);
    forall s | Legal(snapshot, s)
      ensures !Meets(snapshot, matrix, target, s)
      ensures s != best.subset ==> IsBetterMiss(snapshot, matrix, best, s)
    {
      SelectionIsShort(candidates, s);
      SetsBelowMiss(snapshot, matrix, v, target, |candidates| + 1, s);
      ListedIsNotAhead(snapshot, matrix, v, |candidates| + 1, best, s);
      if s != best.subset { NotAheadIsBetterMiss(snapshot, matrix, best, s); }
    }
  }

  lemma NotAheadIsBetterMiss(snapshot: Snapshot, matrix: RouteMatrix, best: Judged, s: seq<int>)
    requires Legal(snapshot, best.subset) && Legal(snapshot, s) && s != best.subset
    requires KeyOfFallback(best) == FallbackKeyAt(snapshot, matrix, best.subset)
    requires !LexLess(FallbackKeyAt(snapshot, matrix, s), KeyOfFallback(best))
    ensures IsBetterMiss(snapshot, matrix, best, s)
  {
    FallbackKeysDiffer(snapshot, matrix, best.subset, s);
    FallbackKeyCoversBetter(best.result.metrics.totalCost, best.result.metrics.coverageRatio, best.subset,
                            CostAt(snapshot, matrix, s), RatioAt(snapshot, matrix, s), s);
  }

  lemma ListedIsNotAhead(snapshot: Snapshot, matrix: RouteMatrix, v: View, n: nat, best: Judged, s: seq<int>)
    requires Legal(snapshot, s) && |s| < n && Sees(snapshot, matrix, v)
    requires BestFallback(v, best, SetsBelow(CandidateIds(snapshot), n))
    ensures !LexLess(FallbackKeyAt(snapshot, matrix, s), KeyOfFallback(best))
  {
    ActiveIsLegal(snapshot, s);
    SetsBelowComplete(CandidateIds(snapshot), n, s);
    var all := SetsBelow(CandidateIds(snapshot), n);
    var k :| 0 <= k < |all| && all[k] == s;
    assert NotAhead(v, all[k], best);
  }

  lemma FeasibleKeysDiffer(snapshot: Snapshot, matrix: RouteMatrix, s: seq<int>, t: seq<int>)
    requires Legal(snapshot, s) && Legal(snapshot, t) && s != t
    ensures var a, b := FeasibleKeyAt(snapshot, matrix, s), FeasibleKeyAt(snapshot, matrix, t);
            LexLess(a, b) || LexLess(b, a)
  {
    LexTotal(FeasibleKeyAt(snapshot, matrix, s), FeasibleKeyAt(snapshot, matrix, t));
    KeysTellApart(CostAt(snapshot, matrix, s), RatioAt(snapshot, matrix, s), s,
                  CostAt(snapshot, matrix, t), RatioAt(snapshot, matrix, t), t);
  }

  lemma FallbackKeysDiffer(snapshot: Snapshot, matrix: RouteMatrix, s: seq<int>, t: seq<int>)
    requires Legal(snapshot, s) && Legal(snapshot, t) && s != t
    ensures var a, b := FallbackKeyAt(snapshot, matrix, s), FallbackKeyAt(snapshot, matrix, t);
            LexLess(a, b) || LexLess(b, a)
  {
    LexTotal(FallbackKeyAt(snapshot, matrix, s), FallbackKeyAt(snapshot, matrix, t));
    KeysTellApart(CostAt(snapshot, matrix, s), RatioAt(snapshot, matrix, s), s,
                  CostAt(snapshot, matrix, t), RatioAt(snapshot, matrix, t), t);
  }

  // ----- Feasibility is decided by opening everything -------------------------

  lemma RatioMonotone(a: int, b: int, total: nat)
    requires a <= b
    ensures Ratio(a, total) <= Ratio(b, total)
  {
  }

  lemma MoreCandidatesCoverMore(snapshot: Snapshot, matrix: RouteMatrix, s: seq<int>, t: seq<int>)
    requires Legal(snapshot, s) && Legal(snapshot, t) && forall x :: x in s ==> x in t
    ensures RatioAt(snapshot, matrix, s) <= RatioAt(snapshot, matrix, t)
  {
    ActiveIsLegal(snapshot, s);
    ActiveIsLegal(snapshot, t);
    var few, many := ActiveWith(snapshot, s), ActiveWith(snapshot, t);
    forall id | id in few ensures id in many {
      assert id in SortedIds(ExistingIds(snapshot)) || id in s;
    }
    CoverageIsMonotone(snapshot, matrix, few, many);
    RatioMonotone(BestCoverage(snapshot, matrix, few), BestCoverage(snapshot, matrix, many),
                  DemandUnits(snapshot.input.demands));
  }

  /** Opening every candidate meets the target. */
  ghost predicate AllMeet(snapshot: Snapshot, matrix: RouteMatrix, target: real) {
    Legal(snapshot, CandidateIds(snapshot)) && Meets(snapshot, matrix, target, CandidateIds(snapshot))
  }

  /** Some selection of candidates meets the target if and only if opening all of them does. */
  lemma OpeningAllDecides(snapshot: Snapshot, matrix: RouteMatrix, target: real)
    requires Distinct(FacilityIds(snapshot.input.facilities))
    ensures (exists s :: Legal(snapshot, s) && Meets(snapshot, matrix, target, s)) <==>
              AllMeet(snapshot, matrix, target)
  {
    var all := CandidateIds(snapshot);
    ActiveIsLegal(snapshot, []);
    assert Legal(snapshot, all);
    forall s | Legal(snapshot, s) && Meets(snapshot, matrix, target, s)
      ensures Meets(snapshot, matrix, target, all)
    {
      MoreCandidatesCoverMore(snapshot, matrix, s, all);
    }
  }

  // ----- The solver -----------------------------------------------------------

  /** The number of all selections up to the last size tried. */
  function Evaluations(snapshot: Snapshot, found: Location): nat {
    |SetsBelow(CandidateIds(snapshot), LargestTried(CandidateIds(snapshot), found) + 1)|
  }

  method SolveLocation(snapshot: Snapshot, matrix: RouteMatrix, target: real, ghost most: nat)
    returns (r: Result<Location, LocationError>)
    requires Evaluable(snapshot, matrix) && CostsSafe(snapshot, matrix, most)
    ensures r == Err(TargetOutOfRange) <==> !(0.0 < target <= 1.0)
    ensures r == Err(TooManyCandidates) <==> 0.0 < target <= 1.0 && |CandidateIds(snapshot)| > 14
    ensures r == Err(WrongSnapshot) <==>
              && 0.0 < target <= 1.0 && |CandidateIds(snapshot)| <= 14
              && matrix.snapshotId != snapshot.snapshotId
    ensures r.Ok? && r.value.feasible ==> SmallestAndBest(snapshot, matrix, target, r.value.best)
    ensures r.Ok? && !r.value.feasible ==> BestMiss(snapshot, matrix, target, r.value.best)
    ensures r.Ok? ==> r.value.evaluated == Evaluations(snapshot, r.value)
    ensures r.Ok? ==> (r.value.feasible <==> AllMeet(snapshot, matrix, target))
  {
    if !(0.0 < target <= 1.0) { return Err(TargetOutOfRange); }
    var candidates := CandidateIds(snapshot);
    if |candidates| > MAX_EXACT_CANDIDATES { return Err(TooManyCandidates); }
    if matrix.snapshotId != snapshot.snapshotId { return Err(WrongSnapshot); }
    ghost var v := ViewOf(snapshot, matrix);
    var found := SearchSizes(snapshot, matrix, target, candidates, most, v);
    if found.feasible {
      BestOfSizeIsBest(snapshot, matrix, v, target, |found.best.subset|, found.best);
    } else {
      MissedIsBestMiss(snapshot, matrix, v, target, found.best);
    }
    OpeningAllDecides(snapshot, matrix, target);
    r := Ok(found);
  }

  /** A plan returned as a miss has the greatest coverage of all selections. */
  lemma MissCoversMost(snapshot: Snapshot, matrix: RouteMatrix, target: real, best: Judged, s: seq<int>)
    requires BestMiss(snapshot, matrix, target, best) && Legal(snapshot, s)
    ensures RatioAt(snapshot, matrix, s) <= best.result.metrics.coverageRatio
  {
    assert s != best.subset ==> IsBetterMiss(snapshot, matrix, best, s);
  }

  lemma ListedBeforeOneWay(s: seq<int>, t: seq<int>)
    requires ListedBefore(s, t)
    ensures !ListedBefore(t, s)
  {
    var k: nat :| DiffersAt(s, t, k);
    forall m: nat ensures !DiffersAt(t, s, m) {
      assert k < |s| ==> t[k] != s[k];
    }
  }

  /** Neither order ranks two selections before each other. */
  lemma RanksOneWay(cost: int, ratio: real, s: seq<int>, cost': int, ratio': real, t: seq<int>)
    ensures Cheaper(cost, ratio, s, cost', ratio', t) ==> !Cheaper(cost', ratio', t, cost, ratio, s)
    ensures CoversBetter(cost, ratio, s, cost', ratio', t) ==> !CoversBetter(cost', ratio', t, cost, ratio, s)
  {
    if ListedBefore(s, t) { ListedBeforeOneWay(s, t); }
  }

  lemma SameSelection(snapshot: Snapshot, matrix: RouteMatrix, a: Judged, b: Judged)
    requires Solved(snapshot, matrix, a) && Solved(snapshot, matrix, b)
    requires a.subset != b.subset ==>
               || (IsCheaper(snapshot, matrix, a, b.subset) && IsCheaper(snapshot, matrix, b, a.subset))
               || (IsBetterMiss(snapshot, matrix, a, b.subset) && IsBetterMiss(snapshot, matrix, b, a.subset))
    ensures a.subset == b.subset
  {
    RanksOneWay(CostAt(snapshot, matrix, a.subset), RatioAt(snapshot, matrix, a.subset), a.subset,
                CostAt(snapshot, matrix, b.subset), RatioAt(snapshot, matrix, b.subset), b.subset);
  }

  /** The answer is settled by the input: two answers open the same candidates at the same
      coverage and cost. */
  lemma AnswerIsUnique(snapshot: Snapshot, matrix: RouteMatrix, target: real, a: Judged, b: Judged)
    requires || (SmallestAndBest(snapshot, matrix, target, a) && SmallestAndBest(snapshot, matrix, target, b))
             || (BestMiss(snapshot, matrix, target, a) && BestMiss(snapshot, matrix, target, b))
    ensures a.subset == b.subset
    ensures a.result.metrics.coverageRatio == b.result.metrics.coverageRatio
    ensures a.result.metrics.totalCost == b.result.metrics.totalCost
  {
    SameSelection(snapshot, matrix, a, b);
  }

  // ----- What a selection opens and costs -------------------------------------

  ghost predicate IsCandidate(snapshot: Snapshot, id: int) {
    exists f :: f in snapshot.input.facilities && !f.isExisting && f.facilityId == id
  }

  ghost predicate IsExisting(snapshot: Snapshot, id: int) {
    exists f :: f in snapshot.input.facilities && f.isExisting && f.facilityId == id
  }

  lemma CandidateIffListed(snapshot: Snapshot, id: int)
    requires Distinct(FacilityIds(snapshot.input.facilities))
    ensures id in CandidateIds(snapshot) <==> IsCandidate(snapshot, id)
  {
    var facilities := snapshot.input.facilities;
    CandidatesListed(facilities, |facilities|);
    SortByMembers(CandidatesUpTo(facilities, |facilities|), IdKey);
    if f :| f in facilities && !f.isExisting && f.facilityId == id {
      var k :| 0 <= k < |facilities| && facilities[k] == f;
    }
  }

  /** The selections are exactly the increasing lists of facilities that do not exist yet. */
  lemma LegalIffCandidates(snapshot: Snapshot, s: seq<int>)
    requires Distinct(FacilityIds(snapshot.input.facilities))
    ensures Legal(snapshot, s) <==> StrictlyIncreasing(s) && forall id :: id in s ==> IsCandidate(snapshot, id)
  {
    forall id | id in s ensures id in CandidateIds(snapshot) <==> IsCandidate(snapshot, id) {
      CandidateIffListed(snapshot, id);
    }
  }

  /** A selection opens exactly the existing facilities and the selected ones. */
  lemma OpensExistingAndSelected(snapshot: Snapshot, s: seq<int>, id: int)
    requires Legal(snapshot, s)
    ensures id in ActiveWith(snapshot, s) <==> IsExisting(snapshot, id) || id in s
  {
    ExistingMembers(snapshot.input.facilities);
    SortByMembers(ExistingIds(snapshot), IdKey);
    IdsOfFacilities(Existing(snapshot.input.facilities), id);
  }

  /** The cost of a selection is the fixed cost of what it opens plus the variable cost of an
      optimal plan, and its ratio is that plan's coverage over all demand. */
  lemma SelectionCosts(snapshot: Snapshot, matrix: RouteMatrix, s: seq<int>, plan: Plan)
    requires Legal(snapshot, s) && AllKnown(snapshot, ActiveWith(snapshot, s))
    requires Optimal(ScenarioProblem(snapshot, matrix, ActiveWith(snapshot, s)), plan)
    ensures var p, all := ScenarioProblem(snapshot, matrix, ActiveWith(snapshot, s)), snapshot.input.facilities;
            && CostAt(snapshot, matrix, s) == OpenCosts(all, ActiveWith(snapshot, s), |all|) + Cost(p, plan)
            && RatioAt(snapshot, matrix, s) == Ratio(Coverage(plan), DemandUnits(snapshot.input.demands))
  {
    var active := ActiveWith(snapshot, s);
    var p := ScenarioProblem(snapshot, matrix, active);
    ActiveIsLegal(snapshot, s);
    ActiveFixedCosts(snapshot, active);
    OptimaAgree(p, plan, BestPlan(p));
  }
}

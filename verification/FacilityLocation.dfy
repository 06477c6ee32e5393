/**
 The exact facility-location solver: every set of candidates, smallest sets first, each
 judged by its own optimal allocation.
 */
module FacilityLocation {
  import opened Basics
  import opened Rates
  import opened Scenarios
  import opened OptimizedEvaluation
  import opened CurrentEvaluation
  import opened BestScenario

  const MAX_EXACT_CANDIDATES: nat := 14

  // ----- Combinations ---------------------------------------------------------

  function Prefixed(x: int, sets: seq<seq<int>>): (r: seq<seq<int>>)
    ensures |r| == |sets| && forall k :: 0 <= k < |r| ==> r[k] == [x] + sets[k]
  {
    seq(|sets|, k requires 0 <= k < |sets| => [x] + sets[k])
  }

  /** The `k`-element sublists in lexicographic order, as `itertools.combinations` lists them. */
  function Combinations(c: seq<int>, k: nat): seq<seq<int>> {
    if k == 0 then [[]]
    else if c == [] then []
    else Prefixed(c[0], Combinations(c[1..], k - 1)) + Combinations(c[1..], k)
  }

  /** A sorted selection from the candidates. */
  ghost predicate Selects(c: seq<int>, s: seq<int>) {
    StrictlyIncreasing(s) && forall x :: x in s ==> x in c
  }

  lemma SelectsFromRest(c: seq<int>, t: seq<int>)
    requires StrictlyIncreasing(c) && c != [] && Selects(c[1..], t)
    ensures Selects(c, t) && Selects(c, [c[0]] + t)
  {
    var rest := c[1..];
    forall x | x in t ensures x in c && c[0] < x {
      assert x in rest;
      var j :| 0 <= j < |rest| && rest[j] == x;
      assert c[j + 1] == x;
    }
    forall j | 0 <= j < |t| ensures c[0] < t[j] { assert t[j] in t; }
  }

  lemma {:induction false} CombinationsAreSelections(c: seq<int>, k: nat, i: nat)
    requires StrictlyIncreasing(c) && i < |Combinations(c, k)|
    ensures Selects(c, Combinations(c, k)[i]) && |Combinations(c, k)[i]| == k
  {
    if k == 0 {
    } else {
      var rest := c[1..];
      var first := Combinations(rest, k - 1);
      if i < |first| {
        CombinationsAreSelections(rest, k - 1, i);
        SelectsFromRest(c, first[i]);
        assert Combinations(c, k)[i] == Prefixed(c[0], first)[i];
      } else {
        CombinationsAreSelections(rest, k, i - |first|);
        SelectsFromRest(c, Combinations(rest, k)[i - |first|]);
      }
    }
  }

  lemma WithoutFirst(c: seq<int>, s: seq<int>)
    requires StrictlyIncreasing(c) && Selects(c, s) && s != [] && c != []
    ensures s[0] == c[0] ==> Selects(c[1..], s[1..])
    ensures s[0] != c[0] ==> Selects(c[1..], s)
  {
    assert s[0] in s;
    forall j | 0 <= j < |s| && s[j] != c[0] ensures s[j] in c[1..] {
      assert s[j] in s;
      var k :| 0 <= k < |c| && c[k] == s[j];
      assert c[1..][k - 1] == s[j];
    }
    assert forall j :: 0 < j < |s| ==> s[0] < s[j];
  }

  lemma InPrefixed(x: int, sets: seq<seq<int>>, t: seq<int>)
    requires t in sets
    ensures [x] + t in Prefixed(x, sets)
  {
    var i :| 0 <= i < |sets| && sets[i] == t;
    assert Prefixed(x, sets)[i] == [x] + t;
  }

  lemma {:induction false} SelectionsAreCombinations(c: seq<int>, s: seq<int>)
    requires StrictlyIncreasing(c) && Selects(c, s)
    ensures s in Combinations(c, |s|)
  {
    if s == [] {
    } else {
      assert s[0] in s && s[0] in c;
      WithoutFirst(c, s);
      if s[0] == c[0] {
        SelectionsAreCombinations(c[1..], s[1..]);
        InPrefixed(c[0], Combinations(c[1..], |s| - 1), s[1..]);
        assert s == [c[0]] + s[1..];
      } else {
        SelectionsAreCombinations(c[1..], s);
      }
    }
  }

  /** The number of ways to choose `k` of `n`. */
  ghost function Choose(n: nat, k: nat): nat {
    if k == 0 then 1 else if n == 0 then 0 else Choose(n - 1, k - 1) + Choose(n - 1, k)
  }

  /** No combination is listed twice: there are exactly as many as there are choices. */
  lemma {:induction false} CombinationsCount(c: seq<int>, k: nat)
    ensures |Combinations(c, k)| == Choose(|c|, k)
  {
    if k > 0 && c != [] {
      CombinationsCount(c[1..], k - 1);
      CombinationsCount(c[1..], k);
    }
  }

  // ----- Orders ---------------------------------------------------------------

  predicate LexLess(a: seq<real>, b: seq<real>) {
    if b == [] then false
    else if a == [] then true
    else a[0] < b[0] || (a[0] == b[0] && LexLess(a[1..], b[1..]))
  }

  lemma {:induction false} LexTotal(a: seq<real>, b: seq<real>)
    ensures LexLess(a, b) || LexLess(b, a) || a == b
  {
    if a != [] && b != [] && a[0] == b[0] {
      LexTotal(a[1..], b[1..]);
      assert a == [a[0]] + a[1..] && b == [b[0]] + b[1..];
    }
  }

  lemma {:induction false} LexTransitive(a: seq<real>, b: seq<real>, c: seq<real>)
    requires LexLess(a, b) && !LexLess(c, b)
    ensures LexLess(a, c) && !LexLess(c, a)
  {
    if a != [] && c != [] && a[0] == b[0] == c[0] {
      LexTransitive(a[1..], b[1..], c[1..]);
    }
  }

  function Reals(ids: seq<int>): (r: seq<real>)
    ensures |r| == |ids| && forall k :: 0 <= k < |r| ==> r[k] == ids[k] as real
  {
    seq(|ids|, k requires 0 <= k < |ids| => ids[k] as real)
  }

  /** Cheapest first, then most coverage, then the smaller list of identifiers. */
  function FeasibleKey(cost: int, ratio: real, subset: seq<int>): seq<real> {
    [cost as real, -ratio] + Reals(subset)
  }

  /** Most coverage first, then fewest facilities, then cheapest, then the smaller list. */
  function FallbackKey(cost: int, ratio: real, subset: seq<int>): seq<real> {
    [-ratio, |subset| as real, cost as real] + Reals(subset)
  }

  /** Keys end in the identifiers, so no two selections share one. */
  lemma KeysTellApart(cost: int, ratio: real, s: seq<int>, cost': int, ratio': real, t: seq<int>)
    requires s != t
    ensures FeasibleKey(cost, ratio, s) != FeasibleKey(cost', ratio', t)
    ensures FallbackKey(cost, ratio, s) != FallbackKey(cost', ratio', t)
  {
    if |s| == |t| {
      var k :| 0 <= k < |s| && s[k] != t[k];
      assert FeasibleKey(cost, ratio, s)[k + 2] != FeasibleKey(cost', ratio', t)[k + 2];
      assert FallbackKey(cost, ratio, s)[k + 3] != FallbackKey(cost', ratio', t)[k + 3];
    } else {
      assert |FeasibleKey(cost, ratio, s)| != |FeasibleKey(cost', ratio', t)|;
      assert |FallbackKey(cost, ratio, s)| != |FallbackKey(cost', ratio', t)|;
    }
  }

  /** At the first place where the lists differ, `s` ends or has the smaller identifier. */
  ghost predicate ListedBefore(s: seq<int>, t: seq<int>) {
    exists k :: DiffersAt(s, t, k)
  }

  ghost predicate DiffersAt(s: seq<int>, t: seq<int>, k: nat) {
    k <= |s| && k < |t| && (k < |s| ==> s[k] < t[k]) && forall i :: 0 <= i < k ==> s[i] == t[i]
  }

  lemma ListedBeforeStep(s: seq<int>, t: seq<int>)
    requires s != [] && t != []
    ensures ListedBefore(s, t) <==> s[0] < t[0] || (s[0] == t[0] && ListedBefore(s[1..], t[1..]))
  {
    if s[0] < t[0] { assert DiffersAt(s, t, 0); }
    if k: nat :| DiffersAt(s, t, k) && k > 0 { assert DiffersAt(s[1..], t[1..], k - 1); }
    if k: nat :| DiffersAt(s[1..], t[1..], k) && s[0] == t[0] {
      assert forall i :: 0 < i < k + 1 ==> s[i] == s[1..][i - 1] && t[i] == t[1..][i - 1];
      assert DiffersAt(s, t, k + 1);
    }
  }

  lemma {:induction false} LexOfReals(s: seq<int>, t: seq<int>)
    ensures LexLess(Reals(s), Reals(t)) <==> ListedBefore(s, t)
  {
    if t == [] {
    } else if s == [] {
      assert DiffersAt(s, t, 0);
    } else {
      ListedBeforeStep(s, t);
      LexOfReals(s[1..], t[1..]);
      assert Reals(s)[1..] == Reals(s[1..]) && Reals(t)[1..] == Reals(t[1..]);
    }
  }

  /** Less cost, or the same cost and more coverage, or both the same and listed before. */
  ghost predicate Cheaper(cost: int, ratio: real, s: seq<int>, cost': int, ratio': real, t: seq<int>) {
    cost < cost' || (cost == cost' && (ratio > ratio' || (ratio == ratio' && ListedBefore(s, t))))
  }

  /** More coverage, then fewer candidates, then less cost, then listed before. */
  ghost predicate CoversBetter(cost: int, ratio: real, s: seq<int>, cost': int, ratio': real, t: seq<int>) {
    || ratio > ratio'
    || (ratio == ratio'
        && (|| |s| < |t|
            || (|s| == |t| && (cost < cost' || (cost == cost' && ListedBefore(s, t))))))
  }

  lemma FeasibleKeyIsCheaper(cost: int, ratio: real, s: seq<int>, cost': int, ratio': real, t: seq<int>)
    ensures LexLess(FeasibleKey(cost, ratio, s), FeasibleKey(cost', ratio', t)) <==>
              Cheaper(cost, ratio, s, cost', ratio', t)
  {
    var a, b := [-ratio] + Reals(s), [-ratio'] + Reals(t);
    LexOfReals(s, t);
    LexHead(-ratio, Reals(s), -ratio', Reals(t));
    LexHead(cost as real, a, cost' as real, b);
    assert FeasibleKey(cost, ratio, s) == [cost as real] + a && FeasibleKey(cost', ratio', t) == [cost' as real] + b;
  }

  lemma FallbackKeyCoversBetter(cost: int, ratio: real, s: seq<int>, cost': int, ratio': real, t: seq<int>)
    ensures LexLess(FallbackKey(cost, ratio, s), FallbackKey(cost', ratio', t)) <==>
              CoversBetter(cost, ratio, s, cost', ratio', t)
  {
    var a2, b2 := [cost as real] + Reals(s), [cost' as real] + Reals(t);
    var a1, b1 := [|s| as real] + a2, [|t| as real] + b2;
    LexOfReals(s, t);
    LexHead(cost as real, Reals(s), cost' as real, Reals(t));
    LexHead(|s| as real, a2, |t| as real, b2);
    LexHead(-ratio, a1, -ratio', b1);
    assert FallbackKey(cost, ratio, s) == [-ratio] + a1 && FallbackKey(cost', ratio', t) == [-ratio'] + b1;
  }

  // ----- The candidates -------------------------------------------------------

  function CandidatesUpTo(facilities: seq<Facility>, n: nat): seq<int>
    requires n <= |facilities|
  {
    if n == 0 then []
    else if facilities[n - 1].isExisting then CandidatesUpTo(facilities, n - 1)
    else CandidatesUpTo(facilities, n - 1) + [facilities[n - 1].facilityId]
  }

  function CandidateIds(snapshot: Snapshot): seq<int> {
    SortedIds(CandidatesUpTo(snapshot.input.facilities, |snapshot.input.facilities|))
  }

  function ActiveWith(snapshot: Snapshot, subset: seq<int>): seq<int> {
    SortedIds(ExistingIds(snapshot)) + subset
  }

  lemma {:induction false} CandidatesListed(facilities: seq<Facility>, n: nat)
    requires n <= |facilities| && Distinct(FacilityIds(facilities))
    ensures Distinct(CandidatesUpTo(facilities, n))
    ensures forall id :: id in CandidatesUpTo(facilities, n) <==>
              exists k :: 0 <= k < n && facilities[k].facilityId == id && !facilities[k].isExisting
  {
    if n == 0 {
    } else {
      CandidatesListed(facilities, n - 1);
      var ids := FacilityIds(facilities);
      forall k | 0 <= k < n - 1 ensures facilities[k].facilityId != facilities[n - 1].facilityId {
        assert ids[k] != ids[n - 1];
      }
      var before := CandidatesUpTo(facilities, n - 1);
      forall i | 0 <= i < |before| ensures before[i] != facilities[n - 1].facilityId { assert before[i] in before; }
    }
  }

  /** Existing facilities plus any selection of candidates is a legal active set. */
  lemma ActiveIsLegal(snapshot: Snapshot, subset: seq<int>)
    requires Distinct(FacilityIds(snapshot.input.facilities)) && Selects(CandidateIds(snapshot), subset)
    ensures AllKnown(snapshot, ActiveWith(snapshot, subset)) && Distinct(ActiveWith(snapshot, subset))
    ensures StrictlyIncreasing(CandidateIds(snapshot))
  {
    var facilities := snapshot.input.facilities;
    var existing, candidates := ExistingIds(snapshot), CandidatesUpTo(facilities, |facilities|);
    ExistingIdsKnown(snapshot);
    ExistingIdsDistinctUpTo(facilities, |facilities|);
    CandidatesListed(facilities, |facilities|);
    SortedIdsIncrease(existing);
    SortedIdsIncrease(candidates);
    forall x | x in subset
      ensures x in FacilityIds(facilities) && x !in existing
    {
      CandidateIsKnown(snapshot, x);
    }
    forall j | 0 <= j < |ActiveWith(snapshot, subset)|
      ensures ActiveWith(snapshot, subset)[j] in FacilityIds(facilities)
    {
      if j < |existing| {
        SortByMembers(existing, IdKey);
        assert SortedIds(existing)[j] in existing;
      } else {
        SortByMembers(existing, IdKey);
        assert subset[j - |existing|] in subset;
      }
    }
    SortByMembers(existing, IdKey);
    var sorted := SortedIds(existing);
    forall i, j | 0 <= i < j < |sorted + subset|
      ensures (sorted + subset)[i] != (sorted + subset)[j]
    {
      if i < |sorted| <= j {
        assert sorted[i] in sorted && subset[j - |sorted|] in subset;
      }
    }
  }

  lemma CandidateIsKnown(snapshot: Snapshot, x: int)
    requires Distinct(FacilityIds(snapshot.input.facilities)) && x in CandidateIds(snapshot)
    ensures x in FacilityIds(snapshot.input.facilities) && x !in ExistingIds(snapshot)
  {
    var facilities := snapshot.input.facilities;
    var candidates := CandidatesUpTo(facilities, |facilities|);
    SortByMembers(candidates, IdKey);
    CandidatesListed(facilities, |facilities|);
    var k :| 0 <= k < |facilities| && facilities[k].facilityId == x && !facilities[k].isExisting;
    assert FacilityIds(facilities)[k] == x;
    var existing := Existing(facilities);
    ExistingMembers(facilities);
    if x in ExistingIds(snapshot) {
      var j :| 0 <= j < |existing| && FacilityIds(existing)[j] == x;
      assert existing[j] in existing;
      OneFacilityPerId(facilities, facilities[k], existing[j]);
    }
  }

  // ----- Judging a selection --------------------------------------------------

  ghost predicate Legal(snapshot: Snapshot, subset: seq<int>) {
    Distinct(FacilityIds(snapshot.input.facilities)) && Selects(CandidateIds(snapshot), subset)
  }

  ghost predicate AllLegal(snapshot: Snapshot, sets: seq<seq<int>>) {
    forall i {:trigger Legal(snapshot, sets[i])} :: 0 <= i < |sets| ==> Legal(snapshot, sets[i])
  }

  ghost function RatioAt(snapshot: Snapshot, matrix: RouteMatrix, subset: seq<int>): real
    requires Legal(snapshot, subset)
  {
    ActiveIsLegal(snapshot, subset);
    BestRatio(snapshot, matrix, ActiveWith(snapshot, subset))
  }

  ghost function CostAt(snapshot: Snapshot, matrix: RouteMatrix, subset: seq<int>): int
    requires Legal(snapshot, subset)
  {
    ActiveIsLegal(snapshot, subset);
    BestCost(snapshot, matrix, ActiveWith(snapshot, subset))
  }

  /** The target is met up to the solver's tolerance. */
  ghost predicate Meets(snapshot: Snapshot, matrix: RouteMatrix, target: real, subset: seq<int>)
    requires Legal(snapshot, subset)
  {
    RatioAt(snapshot, matrix, subset) + 0.000000000001 >= target
  }

  ghost function FeasibleKeyAt(snapshot: Snapshot, matrix: RouteMatrix, subset: seq<int>): seq<real>
    requires Legal(snapshot, subset)
  {
    FeasibleKey(CostAt(snapshot, matrix, subset), RatioAt(snapshot, matrix, subset), subset)
  }

  ghost function FallbackKeyAt(snapshot: Snapshot, matrix: RouteMatrix, subset: seq<int>): seq<real>
    requires Legal(snapshot, subset)
  {
    FallbackKey(CostAt(snapshot, matrix, subset), RatioAt(snapshot, matrix, subset), subset)
  }

  datatype Judged = Judged(result: ScenarioResult, subset: seq<int>)

  /** The result is an optimal evaluation of the existing facilities plus the subset. */
  ghost predicate Solved(snapshot: Snapshot, matrix: RouteMatrix, j: Judged) {
    && Legal(snapshot, j.subset)
    && AllKnown(snapshot, ActiveWith(snapshot, j.subset))
    && (exists plan :: IsOptimized(snapshot, matrix, ActiveWith(snapshot, j.subset), j.result, plan))
    && j.result.metrics.coverageRatio == RatioAt(snapshot, matrix, j.subset)
    && j.result.metrics.totalCost == CostAt(snapshot, matrix, j.subset)
  }

  /** What the solver is given: a consistent network whose costs suit the flow solver. */
  ghost predicate Solvable(snapshot: Snapshot, matrix: RouteMatrix, most: nat) {
    Evaluable(snapshot, matrix) && CostsSafe(snapshot, matrix, most) && matrix.snapshotId == snapshot.snapshotId
  }

  method Judge(snapshot: Snapshot, matrix: RouteMatrix, subset: seq<int>, ghost most: nat) returns (j: Judged)
    requires Solvable(snapshot, matrix, most) && Legal(snapshot, subset)
    ensures j.subset == subset && Solved(snapshot, matrix, j)
  {
    ActiveIsLegal(snapshot, subset);
    var r;
    ghost var plan;
    r, plan := EvaluateOptimized(snapshot, matrix, ActiveWith(snapshot, subset), most);
    ResultsAgree(snapshot, matrix, ActiveWith(snapshot, subset), r.value, plan);
    j := Judged(r.value, subset);
  }

  // ----- Ranking --------------------------------------------------------------

  /** The judgements of all selections, as plain functions: the search only compares them. */
  datatype View = View(solved: iset<Judged>, ratio: seq<int> -> real, cost: seq<int> -> int)

  ghost predicate Sees(snapshot: Snapshot, matrix: RouteMatrix, v: View) {
    && (forall j {:trigger Solved(snapshot, matrix, j)} :: Solved(snapshot, matrix, j) <==> j in v.solved)
    && (forall s {:trigger RatioAt(snapshot, matrix, s)} :: Legal(snapshot, s) ==>
          v.ratio(s) == RatioAt(snapshot, matrix, s))
    && (forall s {:trigger CostAt(snapshot, matrix, s)} :: Legal(snapshot, s) ==>
          v.cost(s) == CostAt(snapshot, matrix, s))
  }

  ghost predicate Fair(v: View, j: Judged) {
    && j in v.solved && j.result.metrics.coverageRatio == v.ratio(j.subset)
    && j.result.metrics.totalCost == v.cost(j.subset)
  }

  function KeyOfFeasible(j: Judged): seq<real> {
    FeasibleKey(j.result.metrics.totalCost, j.result.metrics.coverageRatio, j.subset)
  }

  function KeyOfFallback(j: Judged): seq<real> {
    FallbackKey(j.result.metrics.totalCost, j.result.metrics.coverageRatio, j.subset)
  }

  /** `best` is the best fallback among `seen`. */
  ghost predicate BestFallback(v: View, best: Judged, seen: seq<seq<int>>) {
    && Fair(v, best) && best.subset in seen
    && forall k {:trigger NotAhead(v, seen[k], best)} :: 0 <= k < |seen| ==> NotAhead(v, seen[k], best)
  }

  /** The selection does not rank before `best` as a fallback. */
  ghost predicate NotAhead(v: View, s: seq<int>, best: Judged) {
    !LexLess(FallbackKey(v.cost(s), v.ratio(s), s), KeyOfFallback(best))
  }

  ghost predicate MeetsIn(v: View, target: real, s: seq<int>) {
    v.ratio(s) + 0.000000000001 >= target
  }

  /** `feasible` holds exactly the selections in `sets` that meet the target. */
  ghost predicate FeasibleListed(v: View, target: real, sets: seq<seq<int>>, feasible: seq<Judged>) {
    && (forall k {:trigger FeasibleIn(v, target, sets, feasible[k])} :: 0 <= k < |feasible| ==>
          FeasibleIn(v, target, sets, feasible[k]))
    && (forall i {:trigger MeetsIn(v, target, sets[i])} :: 0 <= i < |sets| && MeetsIn(v, target, sets[i]) ==>
          exists k :: 0 <= k < |feasible| && feasible[k].subset == sets[i])
  }

  ghost predicate FeasibleIn(v: View, target: real, sets: seq<seq<int>>, j: Judged) {
    Fair(v, j) && j.subset in sets && MeetsIn(v, target, j.subset)
  }

  /** The source's comparison of a new result with the best so far. */
  predicate Improves(next: Judged, best: Judged) {
    var a, b := next.result.metrics, best.result.metrics;
    || a.coverageRatio > b.coverageRatio
    || (a.coverageRatio == b.coverageRatio
        && (|| |next.subset| < |best.subset|
            || (|next.subset| == |best.subset|
                && (|| a.totalCost < b.totalCost
                    || (a.totalCost == b.totalCost && LexLess(Reals(next.subset), Reals(best.subset)))))))
  }

  lemma LexHead(x: real, a: seq<real>, y: real, b: seq<real>)
    ensures LexLess([x] + a, [y] + b) <==> x < y || (x == y && LexLess(a, b))
  {
    assert ([x] + a)[1..] == a && ([y] + b)[1..] == b;
  }

  lemma ImprovesIsLess(next: Judged, best: Judged)
    ensures Improves(next, best) <==> LexLess(KeyOfFallback(next), KeyOfFallback(best))
  {
    var m, n, r, s := next.result.metrics, best.result.metrics, Reals(next.subset), Reals(best.subset);
    var a2, b2 := [m.totalCost as real] + r, [n.totalCost as real] + s;
    var a1, b1 := [|next.subset| as real] + a2, [|best.subset| as real] + b2;
    LexHead(m.totalCost as real, r, n.totalCost as real, s);
    LexHead(|next.subset| as real, a2, |best.subset| as real, b2);
    LexHead(-m.coverageRatio, a1, -n.coverageRatio, b1);
    assert KeyOfFallback(next) == [-m.coverageRatio] + a1 && KeyOfFallback(best) == [-n.coverageRatio] + b1;
  }

  lemma {:induction false} LexIrreflexive(a: seq<real>)
    ensures !LexLess(a, a)
  {
    if a == [] {
    } else {
      LexIrreflexive(a[1..]);
    }
  }

  lemma KeepBetter(v: View, best: Judged, seen: seq<seq<int>>, next: Judged)
    requires BestFallback(v, best, seen) && Fair(v, next)
    ensures BestFallback(v, if Improves(next, best) then next else best, seen + [next.subset])
  {
    ImprovesIsLess(next, best);
    var seen' := seen + [next.subset];
    forall k | 0 <= k < |seen'|
      ensures NotAhead(v, seen'[k], if Improves(next, best) then next else best)
    {
      if k < |seen| {
        assert NotAhead(v, seen[k], best);
        if Improves(next, best) {
          LexTransitive(KeyOfFallback(next), KeyOfFallback(best),
                        FallbackKey(v.cost(seen[k]), v.ratio(seen[k]), seen[k]));
        }
      } else {
        LexIrreflexive(KeyOfFallback(next));
      }
    }
  }

  /** Less total cost, or the same and more coverage, or both the same and listed before. */
  ghost predicate CheaperThan(a: Judged, b: Judged) {
    Cheaper(a.result.metrics.totalCost, a.result.metrics.coverageRatio, a.subset,
            b.result.metrics.totalCost, b.result.metrics.coverageRatio, b.subset)
  }

  lemma KeyOrderIsCheaper(a: Judged, b: Judged)
    ensures LexLess(KeyOfFeasible(a), KeyOfFeasible(b)) <==> CheaperThan(a, b)
  {
    FeasibleKeyIsCheaper(a.result.metrics.totalCost, a.result.metrics.coverageRatio, a.subset,
                         b.result.metrics.totalCost, b.result.metrics.coverageRatio, b.subset);
  }

  /** The first of the feasible selections with the least key. */
  method CheapestFeasible(feasible: seq<Judged>) returns (best: Judged)
    requires feasible != []
    ensures best in feasible
    ensures forall k :: 0 <= k < |feasible| ==> !CheaperThan(feasible[k], best)
  {
    best := feasible[0];
    LexIrreflexive(KeyOfFeasible(best));
    for i := 1 to |feasible|
      invariant best in feasible
      invariant forall k :: 0 <= k < i ==> !LexLess(KeyOfFeasible(feasible[k]), KeyOfFeasible(best))
    {
      if LexLess(KeyOfFeasible(feasible[i]), KeyOfFeasible(best)) {
        forall k | 0 <= k < i
          ensures !LexLess(KeyOfFeasible(feasible[k]), KeyOfFeasible(feasible[i]))
        {
          LexTransitive(KeyOfFeasible(feasible[i]), KeyOfFeasible(best), KeyOfFeasible(feasible[k]));
        }
        best := feasible[i];
        LexIrreflexive(KeyOfFeasible(best));
      }
    }
    forall k | 0 <= k < |feasible| ensures !CheaperThan(feasible[k], best) { KeyOrderIsCheaper(feasible[k], best); }
  }

  method JudgeFairly(snapshot: Snapshot, matrix: RouteMatrix, subset: seq<int>, ghost most: nat, ghost v: View)
    returns (j: Judged)
    requires Solvable(snapshot, matrix, most) && Legal(snapshot, subset) && Sees(snapshot, matrix, v)
    ensures j.subset == subset && Fair(v, j)
  {
    j := Judge(snapshot, matrix, subset, most);
  }

  /** `best` ranks first among `seen`, if anything was seen. */
  ghost predicate Ranked(v: View, seen: seq<seq<int>>, best: Option<Judged>) {
    if best.Some? then BestFallback(v, best.value, seen) else seen == []
  }

  method AddIfFeasible(ghost v: View, target: real, ghost done: seq<seq<int>>, feasible0: seq<Judged>, next: Judged)
    returns (feasible: seq<Judged>)
    requires Fair(v, next) && FeasibleListed(v, target, done, feasible0)
    ensures FeasibleListed(v, target, done + [next.subset], feasible)
  {
    feasible := feasible0;
    if next.result.metrics.coverageRatio + 0.000000000001 >= target {
      feasible := feasible + [next];
      assert feasible[|feasible0|].subset == next.subset;
      forall k | 0 <= k < |feasible0| ensures FeasibleIn(v, target, done + [next.subset], feasible[k]) {
        assert FeasibleIn(v, target, done, feasible0[k]);
      }
      forall r | 0 <= r < |done| && MeetsIn(v, target, done[r])
        ensures exists k :: 0 <= k < |feasible| && feasible[k].subset == done[r]
      {
        var k :| 0 <= k < |feasible0| && feasible0[k].subset == done[r];
        assert feasible[k].subset == done[r];
      }
    } else {
      forall k | 0 <= k < |feasible| ensures FeasibleIn(v, target, done + [next.subset], feasible[k]) {
        assert FeasibleIn(v, target, done, feasible0[k]);
      }
      forall r | 0 <= r < |done| && MeetsIn(v, target, done[r])
        ensures exists k :: 0 <= k < |feasible| && feasible[k].subset == done[r]
      {
      }
    }
  }

  method KeepBest(ghost v: View, ghost seen: seq<seq<int>>, best0: Option<Judged>, next: Judged)
    returns (best: Option<Judged>)
    requires Fair(v, next) && Ranked(v, seen, best0)
    ensures Ranked(v, seen + [next.subset], best)
  {
    best := best0;
    if best.None? {
      LexIrreflexive(KeyOfFallback(next));
      best := Some(next);
    } else {
      KeepBetter(v, best.value, seen, next);
      if Improves(next, best.value) { best := Some(next); }
    }
  }

  /** One selection. */
  method TryOne(snapshot: Snapshot, matrix: RouteMatrix, target: real, subset: seq<int>, feasible0: seq<Judged>,
                best0: Option<Judged>, ghost done: seq<seq<int>>, ghost seen: seq<seq<int>>, ghost most: nat,
                ghost v: View)
    returns (feasible: seq<Judged>, best: Option<Judged>)
    requires Solvable(snapshot, matrix, most) && Sees(snapshot, matrix, v) && Legal(snapshot, subset)
    requires FeasibleListed(v, target, done, feasible0) && Ranked(v, seen, best0)
    ensures FeasibleListed(v, target, done + [subset], feasible) && Ranked(v, seen + [subset], best)
  {
    var next := JudgeFairly(snapshot, matrix, subset, most, v);
    best := KeepBest(v, seen, best0, next);
    feasible := AddIfFeasible(v, target, done, feasible0, next);
  }

  /** All selections of one size. */
  method TrySize(snapshot: Snapshot, matrix: RouteMatrix, target: real, sets: seq<seq<int>>, best0: Option<Judged>,
                 ghost seen: seq<seq<int>>, ghost most: nat, ghost v: View)
    returns (feasible: seq<Judged>, best: Option<Judged>)
    requires Solvable(snapshot, matrix, most) && Sees(snapshot, matrix, v)
    requires AllLegal(snapshot, sets) && Ranked(v, seen, best0)
    ensures FeasibleListed(v, target, sets, feasible) && Ranked(v, seen + sets, best)
  {
    feasible, best := [], best0;
    ghost var done: seq<seq<int>>, all := [], seen;
    for i := 0 to |sets|
      invariant done == sets[..i] && all == seen + done
      invariant FeasibleListed(v, target, done, feasible) && Ranked(v, all, best)
    {
      feasible, best := TryOne(snapshot, matrix, target, sets[i], feasible, best, done, all, most, v);
      done, all := done + [sets[i]], all + [sets[i]];
    }
    assert done == sets;
  }

  // ----- The solver -----------------------------------------------------------

  /** All selections of the sizes below `n`, in the order they are tried. */
  function SetsBelow(c: seq<int>, n: nat): seq<seq<int>> {
    if n == 0 then [] else SetsBelow(c, n - 1) + Combinations(c, n - 1)
  }

  lemma CombinationsAreAll(c: seq<int>, k: nat, s: seq<int>)
    requires StrictlyIncreasing(c)
    ensures s in Combinations(c, k) <==> Selects(c, s) && |s| == k
  {
    var sets := Combinations(c, k);
    if s in sets {
      var i :| 0 <= i < |sets| && sets[i] == s;
      CombinationsAreSelections(c, k, i);
    }
    if Selects(c, s) && |s| == k { SelectionsAreCombinations(c, s); }
  }

  /** The first `n` parts, joined. */
  ghost function JoinedParts<T>(part: nat -> seq<T>, n: nat): seq<T> {
    if n == 0 then [] else JoinedParts(part, n - 1) + part(n - 1)
  }

  lemma {:induction false} InJoinedParts<T>(part: nat -> seq<T>, n: nat, x: T)
    ensures x in JoinedParts(part, n) <==> exists k: nat :: k < n && x in part(k)
  {
    if n == 0 {
    } else {
      InJoinedParts(part, n - 1, x);
    }
  }

  ghost function BySize(c: seq<int>): (part: nat -> seq<seq<int>>)
    ensures forall k: nat :: part(k) == Combinations(c, k)
  {
    (k: nat) => Combinations(c, k)
  }

  lemma {:induction false} SetsBelowBySize(c: seq<int>, n: nat)
    ensures SetsBelow(c, n) == JoinedParts(BySize(c), n)
  {
    if n == 0 {
    } else {
      SetsBelowBySize(c, n - 1);
    }
  }

  lemma SetsBelowComplete(c: seq<int>, n: nat, s: seq<int>)
    requires StrictlyIncreasing(c)
    ensures s in SetsBelow(c, n) <==> Selects(c, s) && |s| < n
  {
    var part := BySize(c);
    SetsBelowBySize(c, n);
    InJoinedParts(part, n, s);
    forall k: nat ensures s in part(k) <==> Selects(c, s) && |s| == k { CombinationsAreAll(c, k, s); }
  }

  /** A selection is no longer than the candidate list. */
  lemma {:induction false} SelectionIsShort(c: seq<int>, s: seq<int>)
    requires StrictlyIncreasing(c) && Selects(c, s)
    ensures |s| <= |c|
  {
    if s == [] {
    } else {
      SelectionsAreCombinations(c, s);
      CombinationsAreShort(c, |s|);
    }
  }

  lemma {:induction false} CombinationsAreShort(c: seq<int>, k: nat)
    ensures k > |c| ==> Combinations(c, k) == []
  {
    if k > 0 && c != [] {
      CombinationsAreShort(c[1..], k - 1);
      CombinationsAreShort(c[1..], k);
    }
  }

  datatype Location = Location(best: Judged, evaluated: nat, feasible: bool)

  ghost predicate NoneMeets(v: View, target: real, sets: seq<seq<int>>) {
    forall i :: 0 <= i < |sets| ==> !MeetsIn(v, target, sets[i])
  }

  /** `best` meets the target and none of these sets that does has a smaller key. */
  ghost predicate BestOf(v: View, target: real, sets: seq<seq<int>>, best: Judged) {
    && Fair(v, best) && best.subset in sets && MeetsIn(v, target, best.subset)
    && forall i :: 0 <= i < |sets| && MeetsIn(v, target, sets[i]) ==>
         !LexLess(FeasibleKey(v.cost(sets[i]), v.ratio(sets[i]), sets[i]), KeyOfFeasible(best))
  }

  lemma ChosenIsBest(v: View, target: real, sets: seq<seq<int>>, feasible: seq<Judged>, chosen: Judged)
    requires FeasibleListed(v, target, sets, feasible) && chosen in feasible
    requires forall k :: 0 <= k < |feasible| ==> !CheaperThan(feasible[k], chosen)
    ensures BestOf(v, target, sets, chosen)
  {
    var c :| 0 <= c < |feasible| && feasible[c] == chosen;
    assert FeasibleIn(v, target, sets, feasible[c]);
    forall i | 0 <= i < |sets| && MeetsIn(v, target, sets[i])
      ensures !LexLess(FeasibleKey(v.cost(sets[i]), v.ratio(sets[i]), sets[i]), KeyOfFeasible(chosen))
    {
      var k :| 0 <= k < |feasible| && feasible[k].subset == sets[i];
      assert FeasibleIn(v, target, sets, feasible[k]);
      KeyOrderIsCheaper(feasible[k], chosen);
    }
  }

  lemma SizeIsLegal(snapshot: Snapshot, count: nat)
    requires Distinct(FacilityIds(snapshot.input.facilities))
    ensures AllLegal(snapshot, Combinations(CandidateIds(snapshot), count))
  {
    ActiveIsLegal(snapshot, []);
    forall i | 0 <= i < |Combinations(CandidateIds(snapshot), count)|
      ensures Legal(snapshot, Combinations(CandidateIds(snapshot), count)[i])
    {
      CombinationsAreSelections(CandidateIds(snapshot), count, i);
    }
  }

  lemma MissesAdd(v: View, target: real, below: seq<seq<int>>, sets: seq<seq<int>>, feasible: seq<Judged>)
    requires NoneMeets(v, target, below) && FeasibleListed(v, target, sets, feasible) && feasible == []
    ensures NoneMeets(v, target, below + sets)
  {
  }

  /** What the search has established after trying the sets in `below`. */
  ghost predicate Missed(v: View, target: real, below: seq<seq<int>>, best: Option<Judged>, evaluated: nat) {
    && NoneMeets(v, target, below) && evaluated == |below|
    && Ranked(v, below, best)
  }

  /** Some sets of the search: a choice if one of them meets the target. */
  method TrySets(snapshot: Snapshot, matrix: RouteMatrix, target: real, sets: seq<seq<int>>, best0: Option<Judged>,
                 evaluated0: nat, ghost below: seq<seq<int>>, ghost most: nat, ghost v: View)
    returns (chosen: Option<Judged>, best: Option<Judged>, evaluated: nat)
    requires Solvable(snapshot, matrix, most) && Sees(snapshot, matrix, v)
    requires AllLegal(snapshot, sets)
    requires Missed(v, target, below, best0, evaluated0)
    ensures evaluated == |below + sets|
    ensures chosen.Some? ==> BestOf(v, target, sets, chosen.value)
    ensures chosen.None? ==> Missed(v, target, below + sets, best, evaluated)
  {
    var feasible;
    feasible, best := TrySize(snapshot, matrix, target, sets, best0, below, most, v);
    evaluated, chosen := evaluated0 + |sets|, None;
    if feasible != [] {
      var cheapest := CheapestFeasible(feasible);
      ChosenIsBest(v, target, sets, feasible, cheapest);
      chosen := Some(cheapest);
    } else {
      MissesAdd(v, target, below, sets, feasible);
    }
  }

  /** The size of the largest selections the search looked at. */
  function LargestTried(candidates: seq<int>, found: Location): nat {
    if found.feasible then |found.best.subset| else |candidates|
  }

  /** The best selection of this size, where no smaller one meets the target. */
  ghost predicate FoundAt(v: View, target: real, candidates: seq<int>, size: nat, best: Judged) {
    NoneMeets(v, target, SetsBelow(candidates, size)) && BestOf(v, target, Combinations(candidates, size), best)
  }

  lemma BestHasSize(snapshot: Snapshot, v: View, target: real, size: nat, best: Judged)
    requires Distinct(FacilityIds(snapshot.input.facilities))
    requires BestOf(v, target, Combinations(CandidateIds(snapshot), size), best)
    ensures |best.subset| == size
  {
    ActiveIsLegal(snapshot, []);
    var sets := Combinations(CandidateIds(snapshot), size);
    var i :| 0 <= i < |sets| && sets[i] == best.subset;
    CombinationsAreSelections(CandidateIds(snapshot), size, i);
  }

  /** One size of the search. */
  method SearchSize(snapshot: Snapshot, matrix: RouteMatrix, target: real, candidates: seq<int>, count: nat,
                    best0: Option<Judged>, evaluated0: nat, ghost most: nat, ghost v: View)
    returns (chosen: Option<Judged>, best: Option<Judged>, evaluated: nat)
    requires Solvable(snapshot, matrix, most) && Sees(snapshot, matrix, v) && candidates == CandidateIds(snapshot)
    requires Missed(v, target, SetsBelow(candidates, count), best0, evaluated0)
    ensures evaluated == |SetsBelow(candidates, count + 1)|
    ensures chosen.Some? ==> FoundAt(v, target, candidates, count, chosen.value) && |chosen.value.subset| == count
    ensures chosen.None? ==> Missed(v, target, SetsBelow(candidates, count + 1), best, evaluated)
  {
    var sets := SetsOfSize(snapshot, candidates, count);
    chosen, best, evaluated := TrySets(snapshot, matrix, target, sets, best0, evaluated0, SetsBelow(candidates, count),
                                       most, v);
    if chosen.Some? { BestHasSize(snapshot, v, target, count, chosen.value); }
  }

  /** The search itself, over the judgements alone: sizes upwards, stopping at the first
      size that has a feasible selection. */
  method SearchSizes(snapshot: Snapshot, matrix: RouteMatrix, target: real, candidates: seq<int>, ghost most: nat,
                     ghost v: View)
    returns (found: Location)
    requires Solvable(snapshot, matrix, most) && Sees(snapshot, matrix, v) && candidates == CandidateIds(snapshot)
    ensures found.evaluated == |SetsBelow(candidates, LargestTried(candidates, found) + 1)|
    ensures found.feasible ==> FoundAt(v, target, candidates, |found.best.subset|, found.best)
    ensures !found.feasible ==>
              Missed(v, target, SetsBelow(candidates, |candidates| + 1), Some(found.best), found.evaluated)
  {
    var best: Option<Judged> := None;
    var evaluated := 0;
    NothingTried(v, target, candidates);
    for count := 0 to |candidates| + 1
      invariant Missed(v, target, SetsBelow(candidates, count), best, evaluated)
    {
      var chosen;
      chosen, best, evaluated := SearchSize(snapshot, matrix, target, candidates, count, best, evaluated, most, v);
      if chosen.Some? {
        return Location(chosen.value, evaluated, true);
      }
    }
    SomethingTried(v, target, candidates, best, evaluated);
    return Location(best.value, evaluated, false);
  }

  lemma NothingTried(v: View, target: real, candidates: seq<int>)
    ensures Missed(v, target, SetsBelow(candidates, 0), None, 0)
  {
  }

  lemma SomethingTried(v: View, target: real, candidates: seq<int>, best: Option<Judged>, evaluated: nat)
    requires Missed(v, target, SetsBelow(candidates, |candidates| + 1), best, evaluated)
    ensures best.Some?
  {
    TriedSome(candidates, |candidates|);
  }

  /** The empty selection is always tried. */
  lemma {:induction false} TriedSome(candidates: seq<int>, n: nat)
    ensures SetsBelow(candidates, n + 1) != []
  {
    if n == 0 {
    } else {
      TriedSome(candidates, n - 1);
    }
  }

  method SetsOfSize(snapshot: Snapshot, candidates: seq<int>, count: nat) returns (sets: seq<seq<int>>)
    requires Distinct(FacilityIds(snapshot.input.facilities)) && candidates == CandidateIds(snapshot)
    ensures sets == Combinations(candidates, count) && AllLegal(snapshot, sets)
    ensures SetsBelow(candidates, count + 1) == SetsBelow(candidates, count) + sets
  {
    SizeIsLegal(snapshot, count);
    sets := Combinations(candidates, count);
  }
}

# Verified models of the planner, the event projection and their neighbours

This project models the parts of the repository where correctness rests on more than one
function, and proves what they are for.

**Supply-chain planner.** `FlowNetwork` is the theory: feasible flows, balances, cost, and
the certificate by which a flow is cheapest. `ResidualGraph`, `ShortestPaths` and
`MinCostFlow` are the planner's successive-shortest-path solver as it is written: lists of
edges that are updated in place, a queue with stale entries, potentials that are raised
only for the nodes the last search reached, and 10**30 as infinity. Because stale
potentials break the usual invariant of non-negative reduced costs, the certificate gives
every node a level. Open arcs never lead down a level, and reduced costs count only inside
a level. `Transport`, `TransportFlow`, `PlanOptimality` and `Allocator` turn a cheapest flow of the
planner's network into an allocation that covers the most units and then costs least.
`Rates`, `Scenarios`, `OptimizedScenario`, `OptimizedEvaluation` and `CurrentEvaluation`
are validation, rate resolution and the two evaluations. `BestScenario`,
`FacilityLocation` and `LocationSolver` are the exact choice of facilities. Money is counted
in units of 10**-6, ratios are reals, and identifiers are integers, of which only equality
and order matter.

**Event projection.** `Text`, `Sanitizer`, `MapCard` and `Directives` are the JSON
sanitiser, the card projection and the scan for embedded artifacts; `Redaction`, `CardRules`,
`CardContent` and `DirectiveRules` say what they do without following their steps. `Lifecycle` and
`Artifacts` are the steps on the run, task and artifact tables; their theorems, and those of
`ArtifactHistory`, are about every history of events. `EventProjection` is the persisting
object with its tables as fields and its savepoint, and `StoreHistory` is about its whole life.
`Registration` and `MessageContent` say of the fields what is registered and what a message shows.
Each committed transaction is one step.

**Smaller pieces.** `Polyline` decodes Google's Encoded Polyline Algorithm Format and is
proved against an encoder. `DistanceMatrix` fetches matrices in chunks. `ReleaseVersion` normalises and
prints versions in the sense of PEP 440, "Public version identifiers", and `ReleaseSpelling` lists
what normalises. `EventHub` shares one registration among listeners while promises settle in any order.

Some promises do not hold of the code as it stands. In each case the project gives an input that
shows it and the exact condition under which the promise holds:

- The search finds every reachable node: fails for `SentinelHidesSink`; `ReachedIffBelowSentinel` has the condition.
- Added edges are paired with their reverse edges: `PairingNeedsDistinctEnds` shows that this needs two different ends.
- A text that ends in an alpha suffix normalises to an alpha or not at all: fails for `AlphaReadAsBeta`; `NormalizeIff` lists all spellings.
- A hub with a subscriber is registered or about to be: fails for `RejectionDeafens`; `DeafIffGaveUp` has the condition.

## Model

| member | source | states |
|---|---|---|
| `FlowNetwork.SummationByParts` | tools/supply-chain-network-planner/supply_chain_planner/core.py:344-346 | The potential drops of a flow summed over the arcs are the potentials weighted by the node balances, so a change of flow that keeps all balances has the same cost and reduced cost |
| `FlowNetwork.CertifiedIsCheapest` | tools/supply-chain-network-planner/supply_chain_planner/core.py:317-363 | A flow is cheapest among all feasible flows with the same balances if no residual arc leads down a level and those inside a level have non-negative reduced cost; arcs up to a higher level, which leave nodes with stale potentials, may have any reduced cost |
| `FlowNetwork.SaturatedCutIsMaximal` | tools/supply-chain-network-planner/supply_chain_planner/core.py:342-343 | If every arc out of a node set is full and every arc into it is empty, no feasible flow sends more across |
| `ResidualGraph.PairingNeedsDistinctEnds` | tools/supply-chain-network-planner/supply_chain_planner/core.py:310-315 | Adding an edge keeps every edge paired with its own reverse edge if and only if its two ends differ |
| `ResidualGraph.WithEdgeRepresents` | tools/supply-chain-network-planner/supply_chain_planner/core.py:310-315 | The list of lists after adding an edge is again the residual graph of the network with that arc and no flow on it: forward and reverse capacities sum to the arc's capacity |
| `ResidualGraph.PushRepresents` | tools/supply-chain-network-planner/supply_chain_planner/core.py:357-360 | Moving units from an edge to its paired reverse edge is exactly a change of flow on one arc, with every other pair untouched |
| `ResidualGraph.GuardedIsCertified` | tools/supply-chain-network-planner/supply_chain_planner/core.py:322-346 | The invariant the potentials keep on the residual graph is the certificate of cheapness of the flow it represents |
| `ShortestPaths.PopLeast` | tools/supply-chain-network-planner/supply_chain_planner/core.py:330-331 | The popped entry is a least one by distance, then node, and the rest is the queue without it |
| `ShortestPaths.Search` | tools/supply-chain-network-planner/supply_chain_planner/core.py:323-341 | With a lazily cleaned queue the search ends with labels no open edge improves on, each reached node labelled with the length of an open simple path along the predecessors, and nothing outside the nodes still reachable is ever labelled |
| `MinCostFlow.NoCheaperPath` | tools/supply-chain-network-planner/supply_chain_planner/core.py:323-341 | No open path from the source costs less than the label of its end, provided the path's reduced cost is below the sentinel |
| `MinCostFlow.TrailIsOpen` | tools/supply-chain-network-planner/supply_chain_planner/core.py:323-341 | Every labelled node has an open path whose true cost is its label plus its potential |
| `MinCostFlow.ReachedIffBelowSentinel` | tools/supply-chain-network-planner/supply_chain_planner/core.py:323-346 | A node is labelled if and only if some open path to it has reduced cost below 10**30 |
| `MinCostFlow.SentinelHidesSink` | tools/supply-chain-network-planner/supply_chain_planner/core.py:323-343 | On a single arc of cost 10**30 the search misses a sink that is reachable, although one unit could be sent |
| `MinCostFlow.ReachedIffReachable` | tools/supply-chain-network-planner/supply_chain_planner/core.py:323-346 | When simple paths cost less than 10**30 and potentials are not negative, the labelled nodes are exactly the reachable ones |
| `MinCostFlow.SearchedLinks` | tools/supply-chain-network-planner/supply_chain_planner/core.py:347-353 | Following predecessors from any labelled node strictly shortens its path, so the walk reaches the source, also over arcs of cost zero |
| `MinCostFlow.RepricingKeepsGuard` | tools/supply-chain-network-planner/supply_chain_planner/core.py:344-346 | Adding distances to the potentials of reached nodes only, and leaving the others stale, keeps the certificate |
| `MinCostFlow.GuardedIsPriced` | tools/supply-chain-network-planner/supply_chain_planner/core.py:344-346 | Reduced costs are non-negative on all open arcs that leave a node reachable from the source |
| `MinCostFlow.ReachableShrinks` | tools/supply-chain-network-planner/supply_chain_planner/core.py:344-363 | After a search, no flow whose residual graph keeps the certificate at the raised levels reaches a node the search could not |
| `MinCostFlow.Bottleneck` | tools/supply-chain-network-planner/supply_chain_planner/core.py:347-353 | The increment is the largest amount within the limit that every edge on the walk can carry, and it is positive |
| `MinCostFlow.Augment` | tools/supply-chain-network-planner/supply_chain_planner/core.py:354-361 | The second walk ships exactly the increment from source to sink, conserves flow elsewhere, keeps all capacities non-negative and charges the true cost difference |
| `MinCostFlow.MissedSinkIsCut` | tools/supply-chain-network-planner/supply_chain_planner/core.py:342-343 | When the search misses the sink, the labelled nodes form a saturated cut |
| `MinCostFlow.Round` | tools/supply-chain-network-planner/supply_chain_planner/core.py:321-362 | One round succeeds if and only if the sink is reachable; it keeps the certificate, never grows the reachable set, and moves between one unit and the limit |
| `MinCostFlow.MinCostFlow.AddEdge` | tools/supply-chain-network-planner/supply_chain_planner/core.py:310-315 | The object keeps representing a feasible flow when the ends differ and the capacity is not negative |
| `MinCostFlow.MinCostFlow.Send` | tools/supply-chain-network-planner/supply_chain_planner/core.py:317-363 | Terminates; the flow it leaves is cheapest of all with its balances, it sends what it reports from source to sink, and if it falls short of the amount then no flow sends more; the reported cost is the change in the cost of all edge flows |
| `PlanOptimality.PlanIsFeasible` | tools/supply-chain-network-planner/supply_chain_planner/core.py:415-459 | Every allocation within demand, capacity and eligibility is a feasible flow of the network the planner builds |
| `PlanOptimality.PlanShipsAll` | tools/supply-chain-network-planner/supply_chain_planner/core.py:415-459 | That flow ships the whole demand, the unserved part through the unmet node, and conserves flow at every inner node |
| `PlanOptimality.FlowIsPlan` | tools/supply-chain-network-planner/supply_chain_planner/core.py:464-498 | Conversely, the shipping lanes of any flow that ships the whole demand form an allocation within demand, capacity and eligibility |
| `PlanOptimality.PlanCostAsFlow` | tools/supply-chain-network-planner/supply_chain_planner/core.py:415-459 | The cost of the flow is the variable cost of the allocation plus the penalty for each unserved unit |
| `PlanOptimality.PenaltyExceedsAnyCost` | tools/supply-chain-network-planner/supply_chain_planner/core.py:427 | One penalty is more than any fitting allocation costs |
| `PlanOptimality.WeightDominates` | tools/supply-chain-network-planner/supply_chain_planner/core.py:427 | With such a weight, comparing weighted sums is comparing unserved units first and cost second |
| `PlanOptimality.CheapestFlowIsOptimalPlan` | tools/supply-chain-network-planner/supply_chain_planner/core.py:387-498 | The allocation read from a cheapest flow covers the most units any fitting allocation can, and costs least among those that cover as many |
| `Allocator.SimplePathsStayBelow` | tools/supply-chain-network-planner/supply_chain_planner/core.py:415-459 | In the planner's network a simple path pays at most one penalty and one unit cost per demand point, which keeps it below the sentinel |
| `Allocator.BuildNetwork` | tools/supply-chain-network-planner/supply_chain_planner/core.py:415-459 | The built network has exactly the supply, shipping, unmet and capacity lanes, and each remembered edge sits where its lane is |
| `Allocator.EverythingCanBeSent` | tools/supply-chain-network-planner/supply_chain_planner/core.py:460-462 | All demand can be sent, so the error branch after sending is never taken |
| `Allocator.SendDemand` | tools/supply-chain-network-planner/supply_chain_planner/core.py:460-462 | After sending, the network carries a cheapest flow that ships the whole demand |
| `Allocator.ReadPlan` | tools/supply-chain-network-planner/supply_chain_planner/core.py:464-498 | The units read back from the remembered edges are the flow on their lanes |
| `Allocator.Allocate` | tools/supply-chain-network-planner/supply_chain_planner/core.py:415-498 | Build, send and read return an optimal allocation and, for each demand point, exactly its unserved units |
| `Rates.ValidateReferences` | tools/supply-chain-network-planner/supply_chain_planner/models.py:99-179 | Accepts if and only if identifiers are unique, current facilities exist, rates refer to known records, no two rates share facility and selector, and every facility has a rate for every demand point; each error is reported for a fault of its own kind, in the order of the checks |
| `Rates.ResolutionIsUnique` | tools/supply-chain-network-planner/supply_chain_planner/core.py:100-132 | For every accepted network a rate is resolved for each facility and demand point, and it is the facility's rate for the demand point if there is one, else its rate for the demand point's region, else its default rate |
| `Rates.ResolutionIgnoresOrder` | tools/supply-chain-network-planner/supply_chain_planner/core.py:100-132 | Reordering the rates of an accepted network changes no resolution |
| `Scenarios.RouteIsLast` | tools/supply-chain-network-planner/supply_chain_planner/core.py:93-97 | The route of a facility and a demand point is the last matrix entry with exactly this origin and destination, and there is none if and only if no entry has them |
| `Scenarios.TimedMeans` | tools/supply-chain-network-planner/supply_chain_planner/core.py:135-166 | A service comes from a ready route of the pair; its seconds are cutoff wait, handling, travel and buffer, its metres are the entry's, and its unit cost is that of the chosen rate |
| `Scenarios.ReadyIsTimed` | tools/supply-chain-network-planner/supply_chain_planner/core.py:135-166 | Conversely every ready route of a facility and a demand point gives such a service |
| `Scenarios.InTimeIffRoute` | tools/supply-chain-network-planner/supply_chain_planner/core.py:393-403 | A pair is in time if and only if the matrix has a ready route for it whose four times sum to at most the promised seconds |
| `Scenarios.FixedCostsAreOpen` | tools/supply-chain-network-planner/supply_chain_planner/core.py:177-188 | Adding up fixed costs counts every listed facility once and no other, in whatever order they are listed |
| `Scenarios.RatioTimesWhole` | tools/supply-chain-network-planner/supply_chain_planner/core.py:182 | The coverage ratio times the demand is the covered units, and of no demand it is zero |
| `Scenarios.ValidatedIsEvaluable` | tools/supply-chain-network-planner/supply_chain_planner/core.py:135-166 | For every accepted network and every matrix of valid route entries, pricing any facility and demand point raises no error |
| `Scenarios.UnitCostIsNearest` | tools/supply-chain-network-planner/supply_chain_planner/core.py:135-150 | The unit cost is the one whole number of millionths nearest to the exact cost, with ties rounded up |
| `Scenarios.ValidateScenario` | tools/supply-chain-network-planner/supply_chain_planner/server.py:442-463 | Each error is reported if and only if the corresponding sum of the allocations disagrees with the metrics |
| `OptimizedScenario.PlanAllocationsAddUp` | tools/supply-chain-network-planner/supply_chain_planner/core.py:464-498 | The listed allocations' covered units, all units and charges are the coverage, the whole demand and the cost of the plan |
| `OptimizedScenario.PlanServesDemand` | tools/supply-chain-network-planner/supply_chain_planner/core.py:464-498 | The allocations of each demand point add up to its units |
| `OptimizedScenario.PlanRespectsCapacity` | tools/supply-chain-network-planner/supply_chain_planner/core.py:464-498 | The allocations charged to a facility stay within its capacity |
| `OptimizedEvaluation.CollectEligible` | tools/supply-chain-network-planner/supply_chain_planner/core.py:387-413 | The costs collected are those of the pairs that can be served in time, the greatest of them is attained, and exactly the pairs without a route are reported |
| `OptimizedEvaluation.OrdinarySizesAreSafe` | tools/supply-chain-network-planner/supply_chain_planner/core.py:427 | Up to 10**12 demand points, units and millionths per unit, no path comes near the sentinel |
| `OptimizedEvaluation.EvaluateOptimized` | tools/supply-chain-network-planner/supply_chain_planner/core.py:366-520 | Each error arises exactly under its condition; otherwise the result is the report of an optimal allocation over the active facilities |
| `OptimizedEvaluation.OptimizedIsConsistent` | tools/supply-chain-network-planner/supply_chain_planner/core.py:169-188 | Every demand point's allocations sum to its demand, the metrics are the unclipped sums, and the total cost is fixed cost plus the charges of the allocations |
| `OptimizedEvaluation.CoveredIsInTime` | tools/supply-chain-network-planner/supply_chain_planner/core.py:464-498 | Whatever is reported as covered is shipped by an active facility over a ready matrix entry of exactly that pair whose four times sum to at most the promise; its seconds are that sum, its metres the entry's, its rate the chosen one and its cost units times the nearest unit cost |
| `OptimizedEvaluation.EligibleIffInTime` | tools/supply-chain-network-planner/supply_chain_planner/core.py:387-413 | The allocation problem may use a pair if and only if the matrix has a ready entry of that pair that keeps the promise, and it has the units and capacities of the records |
| `OptimizedEvaluation.UncoveredIsUnserved` | tools/supply-chain-network-planner/supply_chain_planner/core.py:487-498 | Whatever is reported as uncovered has no facility, no leg and no cost |
| `OptimizedEvaluation.OptimizedIsOrdered` | tools/supply-chain-network-planner/supply_chain_planner/core.py:464-516 | The report lists every pair at most once, by demand point and then facility, and the active facilities increasingly |
| `OptimizedEvaluation.OptimizedChargesFixed` | tools/supply-chain-network-planner/supply_chain_planner/core.py:169-188 | The fixed cost is the sum over exactly the active facilities, each once, and their number is reported |
| `OptimizedEvaluation.OptimizedRespectsCapacity` | tools/supply-chain-network-planner/supply_chain_planner/core.py:464-498 | No facility of an optimised result serves more than its capacity |
| `CurrentEvaluation.EvaluateCurrent` | tools/supply-chain-network-planner/supply_chain_planner/core.py:191-294 | Judges each demand point by its own current facility alone; the issues are those of the demand points in order, then those of the overloaded facilities in order, and nothing else |
| `CurrentEvaluation.CurrentIsConsistent` | tools/supply-chain-network-planner/supply_chain_planner/core.py:206-266 | Every demand point's allocations sum to its demand, the metrics are the unclipped sums, and the total cost is fixed cost plus the charges of the allocations |
| `CurrentEvaluation.RoutedIsCharged` | tools/supply-chain-network-planner/supply_chain_planner/core.py:243-266 | A demand point with a ready route from its existing facility is charged every unit at that route's unit cost, in time or late, and is covered if and only if the route keeps the promise |
| `CurrentEvaluation.UnroutedIsUnserved` | tools/supply-chain-network-planner/supply_chain_planner/core.py:206-242 | Otherwise nothing is covered or charged, and the first of no assignment, no such existing facility and no ready route is reported |
| `CurrentEvaluation.CurrentIsOrdered` | tools/supply-chain-network-planner/supply_chain_planner/core.py:206-266 | There is exactly one allocation per demand point, by identifier |
| `CurrentEvaluation.CurrentChargesFixed` | tools/supply-chain-network-planner/supply_chain_planner/core.py:275-294 | The fixed cost is the sum over exactly the existing facilities, which are listed increasingly |
| `CurrentEvaluation.ExceededIffOverloaded` | tools/supply-chain-network-planner/supply_chain_planner/core.py:267-273 | A capacity issue is reported if and only if some existing facility is assigned more than its capacity, with those numbers |
| `CurrentEvaluation.ChecksAcceptOptimized` | tools/supply-chain-network-planner/supply_chain_planner/server.py:442-463 | The scenario checks find no error in any result of the optimised evaluation |
| `CurrentEvaluation.ChecksAcceptCurrent` | tools/supply-chain-network-planner/supply_chain_planner/server.py:442-463 | The scenario checks find no error in any result of the current evaluation |
| `CurrentEvaluation.OptimizedCoversCurrent` | tools/supply-chain-network-planner/supply_chain_planner/server.py:253-264 | If the current evaluation reports no exceeded capacity, the optimised evaluation of the existing facilities covers at least as many units |
| `BestScenario.OptimalExists` | tools/supply-chain-network-planner/supply_chain_planner/core.py:366-520 | Every allocation problem has an optimal allocation |
| `BestScenario.ResultsAgree` | tools/supply-chain-network-planner/supply_chain_planner/core.py:366-520 | Coverage, ratio and cost of an optimised result depend only on the active facilities, not on which optimal allocation was found |
| `BestScenario.CoverageIsMonotone` | tools/supply-chain-network-planner/supply_chain_planner/core.py:568-632 | Opening more facilities never lowers the best coverage |
| `FacilityLocation.CombinationsAreSelections` | tools/supply-chain-network-planner/supply_chain_planner/core.py:585-586 | Each listed combination is a sorted selection of the requested size |
| `FacilityLocation.SelectionsAreCombinations` | tools/supply-chain-network-planner/supply_chain_planner/core.py:585-586 | Each sorted selection of candidates is listed |
| `FacilityLocation.CombinationsCount` | tools/supply-chain-network-planner/supply_chain_planner/core.py:585-586 | There are as many combinations as there are ways to choose, so none is listed twice |
| `FacilityLocation.ActiveIsLegal` | tools/supply-chain-network-planner/supply_chain_planner/core.py:551-565 | The existing facilities and any selection of candidates are known and distinct, so evaluating them cannot fail |
| `FacilityLocation.ImprovesIsLess` | tools/supply-chain-network-planner/supply_chain_planner/core.py:594-614 | The nested comparison with the best so far is the lexicographic order of the fallback keys |
| `FacilityLocation.FallbackKeyCoversBetter` | tools/supply-chain-network-planner/supply_chain_planner/core.py:594-614 | One fallback key is smaller than another if and only if its selection covers more, or as much with fewer candidates, or so at less cost, or so with the smaller identifier where the lists first differ |
| `FacilityLocation.FeasibleKeyIsCheaper` | tools/supply-chain-network-planner/supply_chain_planner/core.py:617-625 | One feasible key is smaller than another if and only if its selection costs less, or as much and covers more, or so with the smaller identifier where the lists first differ |
| `FacilityLocation.CheapestFeasible` | tools/supply-chain-network-planner/supply_chain_planner/core.py:617-625 | No feasible selection costs less than the chosen one, or as much and covers more, or so and is listed before it |
| `FacilityLocation.SearchSizes` | tools/supply-chain-network-planner/supply_chain_planner/core.py:583-626 | Sizes are tried upwards; at the first size with a feasible selection the best one is chosen, and every smaller selection was tried and missed |
| `LocationSolver.SolveLocation` | tools/supply-chain-network-planner/supply_chain_planner/core.py:568-632 | Each error arises exactly under its condition. A feasible answer is a smallest selection that meets the target, and every other one of its size that does costs more, or as much and covers less, or so with the larger identifier where the lists first differ. An infeasible answer covers most of all selections, then with fewest candidates, then at least cost, then by identifiers. All selections up to the last size tried are evaluated, and the answer is feasible if and only if opening every candidate meets the target |
| `LocationSolver.OpeningAllDecides` | tools/supply-chain-network-planner/supply_chain_planner/core.py:568-632 | Some selection meets the target if and only if opening every candidate does |
| `LocationSolver.AnswerIsUnique` | tools/supply-chain-network-planner/supply_chain_planner/core.py:568-632 | Any two answers to the same input open the same candidates at the same coverage and cost |
| `LocationSolver.MissCoversMost` | tools/supply-chain-network-planner/supply_chain_planner/core.py:628-632 | The plan returned when the target is missed has the greatest coverage of all selections |
| `LocationSolver.LegalIffCandidates` | tools/supply-chain-network-planner/supply_chain_planner/core.py:551-565 | The selections are exactly the increasing lists of identifiers of facilities that do not exist yet |
| `LocationSolver.OpensExistingAndSelected` | tools/supply-chain-network-planner/supply_chain_planner/core.py:585-592 | A selection opens exactly the existing facilities and the selected ones |
| `LocationSolver.SelectionCosts` | tools/supply-chain-network-planner/supply_chain_planner/core.py:587-592 | The cost compared is the fixed cost of what is opened plus the variable cost of an optimal allocation, and the ratio is its coverage over the demand |
| `Lifecycle.LatestRun` | apps/web/server/src/event_projection.rs:51-62 | Picks a latest created run of the thread, or none if and only if the thread has none |
| `Lifecycle.RunsStayOk` | apps/web/server/src/event_projection.rs:128-224 | After every history an active turn implies a running run, and completed or failed runs hold no lease |
| `Lifecycle.SettledRunIsFrozen` | apps/web/server/src/event_projection.rs:193-224 | Once completed or failed, a run's row never changes again |
| `Lifecycle.RunningUntilEnded` | apps/web/server/src/event_projection.rs:193-224 | A run is running if and only if it started so and no terminal event came for it |
| `Lifecycle.FirstEndDecides` | apps/web/server/src/event_projection.rs:193-224 | The first terminal event of a running run decides its status for good |
| `Lifecycle.ActiveIsOpen` | apps/web/server/src/event_projection.rs:129-150 | While a run is running, a turn is its active one if and only if it was the last one started and was not completed since |
| `Lifecycle.DoneUntilArchived` | apps/web/server/src/event_projection.rs:151-224 | A completed or cancelled task keeps its status until a thread of one of its runs is archived |
| `Lifecycle.ArchivedUntilUnarchived` | apps/web/server/src/event_projection.rs:151-170 | A task is archived if and only if an archive event came for one of its runs, or it was archived at the start, and no unarchive event came since |
| `Lifecycle.UnarchivedIsPending` | apps/web/server/src/event_projection.rs:161-170 | Unarchiving an archived task leaves it pending |
| `Lifecycle.ReadyOnceFinished` | apps/web/server/src/event_projection.rs:203-224 | A workspace is made ready by the end of one of its running runs, and by nothing else |
| `Lifecycle.TaskFollows` | apps/web/server/src/event_projection.rs:199-224 | When a running run ends, its task becomes completed or pending, unless it was completed, cancelled or archived |
| `Lifecycle.CompletedHasACause` | apps/web/server/src/event_projection.rs:193-224 | A task is completed only if it was at the start or one of its running runs completed |
| `Lifecycle.TitlesStayGood` | apps/web/server/src/event_projection.rs:171-190 | A task's title is the one it started with or one that is trimmed, not empty and at most 200 bytes |
| `Lifecycle.TitleIsLastName` | apps/web/server/src/event_projection.rs:171-190 | A task's title is the trimmed name of the last name event of its runs whose name is not blank and at most 200 bytes, or its first title if there was none |
| `Lifecycle.LastNamedIsUnique` | apps/web/server/src/event_projection.rs:171-190 | Only one title is the last one given, so the events settle it |
| `Text.Utf8Bytes` | apps/web/server/src/event_projection.rs:177 | The length a title is held against counts one byte per character and one more from each of U+0080, U+0800 and U+10000 on |
| `Text.TrimIff` | apps/web/server/src/event_projection.rs:176 | Trimming drops the white space around a text, all of it and nothing else |
| `Text.SpacesAre` | apps/web/server/src/event_projection.rs:176 | White space is exactly the 25 characters Unicode calls so |
| `Sanitizer.SafePathIsRelative` | apps/web/server/src/event_projection.rs:1618-1629 | A sanitised path is never absolute, and of an absolute path only one component without separators is left |
| `Sanitizer.SanitizeIsClean` | apps/web/server/src/event_projection.rs:1559-1582 | The output has nothing left under a sensitive key, no absolute path under a path key and no embedded data |
| `Sanitizer.CleanIffUnchanged` | apps/web/server/src/event_projection.rs:1559-1582 | The values the sanitiser leaves alone are exactly the clean ones |
| `Sanitizer.SanitizeTwice` | apps/web/server/src/event_projection.rs:1559-1582 | Sanitising is idempotent |
| `Sanitizer.SecretsDoNotShow` | apps/web/server/src/event_projection.rs:1559-1612 | Values that differ only below sensitive keys have the same output |
| `Redaction.EquallySensitive` | apps/web/server/src/event_projection.rs:1584-1612 | Keys that differ only in ASCII case, dashes and underscores are equally sensitive |
| `Redaction.SensitiveIff` | apps/web/server/src/event_projection.rs:1584-1612 | A key is sensitive if and only if its form without case, dashes and underscores holds a secret word and is not one of the counters |
| `Redaction.LastNameFound` | apps/web/server/src/event_projection.rs:1624-1628 | Of a path the last component is kept, or the word path if it has none |
| `Redaction.MasksInPlace` | apps/web/server/src/event_projection.rs:1559-1582 | Wherever no sensitive key is on the way, the output has the same value at the same place, except that absolute paths, embedded data and the values of sensitive keys are masked |
| `MapCard.ProjectTwice` | apps/web/server/src/event_projection.rs:725-979 | Projecting an accepted card's projection returns it unchanged |
| `MapCard.AcceptedIsLinked` | apps/web/server/src/event_projection.rs:762-826 | An accepted card has unique layer ids, only layers whose source exists, and only hover targets that draw from a source |
| `MapCard.AcceptedIsInBounds` | apps/web/server/src/event_projection.rs:743-825 | An accepted card has trimmed texts that are not blank, optional ones included, a known status, a complete view or none, and numbers within their ranges |
| `MapCard.SourcesTwice` | apps/web/server/src/event_projection.rs:829-900 | Projected sources are accepted again and unchanged |
| `CardRules.AcceptedIff` | apps/web/server/src/event_projection.rs:725-1025 | A card is accepted if and only if its fields meet the stated conditions: known fields, texts that are not blank, sources and data that are clean and well named, layers with different identifiers and known sources, numbers in range, and hover and legend entries that name what exists |
| `CardContent.AcceptedKeepsContent` | apps/web/server/src/event_projection.rs:725-901 | An accepted card keeps its content field by field: texts trimmed and absent exactly when absent or null, numbers equal, layers and extensions unchanged, and each source unchanged up to its data |
| `Directives.InlineArtifactRefs` | apps/web/server/src/event_projection.rs:1439-1480 | The loop returns the first occurrences of the directives that stand outside every fence |
| `Directives.MarkerIffFenceLine` | apps/web/server/src/event_projection.rs:1444-1464 | The lines that open or close fences are exactly those with at most three spaces and then three or more of one fence character |
| `DirectiveRules.DirectiveIffEmbedLine` | apps/web/server/src/event_projection.rs:1460-1477 | The directives are exactly the embed codes of valid references on a line of their own that is not indented as code |
| `DirectiveRules.OutsideIffBalanced` | apps/web/server/src/event_projection.rs:1444-1466 | No fence is open if and only if the lines so far are closed fenced blocks and lines that are no markers |
| `DirectiveRules.RefsIff` | apps/web/server/src/event_projection.rs:1439-1480 | A message refers to a reference if and only if some line embeds it and the lines before it are closed blocks and lines that are no markers |
| `DirectiveRules.DedupeIsDistinct` | apps/web/server/src/event_projection.rs:1475-1477 | No reference is listed twice |
| `DirectiveRules.DedupeKeepsOrder` | apps/web/server/src/event_projection.rs:1475-1477 | The references found so far stay at the front, so they are in the order of first occurrence |
| `Directives.RefsJoin` | apps/web/server/src/event_projection.rs:1439-1480 | After text that ends its line and leaves no fence open, the references of the whole are the deduplicated references of the parts |
| `Directives.BlockIsInvisible` | apps/web/server/src/event_projection.rs:1451-1466 | Inserting a closed fenced block there changes no reference |
| `Directives.EmbedIsExtracted` | apps/web/server/src/event_projection.rs:1468-1477 | An embed code on a line of its own there adds exactly its reference |
| `Artifacts.AcceptedCodeExtracts` | apps/web/server/src/event_projection.rs:623-681 | The embed code of any accepted artifact extracts exactly that artifact's reference |
| `Artifacts.AcceptedIsProjected` | apps/web/server/src/event_projection.rs:623-681 | The payload of every accepted artifact is a projected card |
| `Registration.DeclaredIff` | apps/web/server/src/event_projection.rs:623-724 | A structured result yields a candidate under a reference if and only if its fields declare one: envelope, warnings, reference, map renderer with an acceptable card, and exactly the code that embeds the reference |
| `Registration.CandidateIsDeclared` | apps/web/server/src/event_projection.rs:623-681 | The candidate is the declared reference with the projection of the declared card |
| `Registration.RegistersIff` | apps/web/server/src/event_projection.rs:1142-1196 | An event registers exactly the addresses its own tool call links to, under its own run, thread and server |
| `Artifacts.RowRegistered` | apps/web/server/src/event_projection.rs:1142-1196 | Registering leaves other keys alone, creates a pending row for a new key, keeps the row for the same producer and fails it for another |
| `Artifacts.FirstCandidateWins` | apps/web/server/src/event_projection.rs:1168-1194 | A new row is pending and has the identifier, type and size of the first candidate with its key and the event's turn and item, and repetitions change nothing |
| `Artifacts.HistoryKeeps` | apps/web/server/src/event_projection.rs:1142-1276 | Through every history inline artifacts keep their first content, and reply artifacts keep identity, first producer and failure |
| `ArtifactHistory.FailedIffConflict` | apps/web/server/src/event_projection.rs:1169-1180 | A reply artifact has failed if and only if it had at the start or some frame that went through registered it for another producer |
| `ArtifactHistory.CardGetsResolved` | apps/web/server/src/event_projection.rs:1302-1342 | Resolving an accepted card leaves no unresolved resource, and each link names and addresses a reply artifact of the same run and thread made by a different item |
| `Registration.PayloadResolvesIff` | apps/web/server/src/event_projection.rs:1302-1342 | A payload is resolved if and only if every resource among its sources was registered under that server and address in the same run and thread by another item and has not failed; each becomes a link to exactly that row and nothing else changes |
| `Registration.CandidateIff` | apps/web/server/src/event_projection.rs:1198-1276 | A candidate is refused if and only if its kind is unknown, a resource is unavailable, or its reference has other content; otherwise it is in the table, ready, with the event's thread, turn and item |
| `ArtifactHistory.HistoryStaysResolved` | apps/web/server/src/event_projection.rs:1198-1342 | That holds of every stored payload after every history of frames and content fetches |
| `EventProjection.ShowsItsOwn` | apps/web/server/src/event_projection.rs:1344-1396 | The artifacts collected for a message are exactly those of its references that pass the lookup |
| `MessageContent.LoggedShowsExactly` | apps/web/server/src/event_projection.rs:66-108 | A logged payload shows an artifact if and only if registering succeeded, the payload is an agent message, and some reference in its text has, in its run, a ready row of its own thread with this kind and payload; nothing else of the payload is changed |
| `MessageContent.CandidateIsStored` | apps/web/server/src/event_projection.rs:1198-1276 | A map candidate under a free reference with all resources available is in the table after the frame, ready and with the event's thread |
| `EventProjection.EventStore.AddReplies` | apps/web/server/src/event_projection.rs:1142-1196 | The loop over the candidates has the effect of registering each in turn, and none unless the event is a complete tool result |
| `EventProjection.EventStore.LookUp` | apps/web/server/src/event_projection.rs:1309-1339 | Fails only if some resource is unavailable; otherwise holds the row of every resource |
| `EventProjection.EventStore.Link` | apps/web/server/src/event_projection.rs:1501-1537 | Editing the sources one by one replaces every resource by a link to its row and changes no other source |
| `EventProjection.EventStore.AddInline` | apps/web/server/src/event_projection.rs:1198-1276 | Inserts once, accepts an identical registration, and refuses a different one or an unresolvable payload without a change |
| `EventProjection.EventStore.Embed` | apps/web/server/src/event_projection.rs:1344-1396 | The message is stored with the artifacts it shows, or unchanged if it shows none |
| `EventProjection.EventStore.ProjectArtifacts` | apps/web/server/src/event_projection.rs:66-108 | If any part fails, both tables are as before and the payload loses its artifacts |
| `EventProjection.EventStore.Finish` | apps/web/server/src/event_projection.rs:193-224 | Ends a running run together with its lease, workspace and task, and leaves any other run alone |
| `EventProjection.EventStore.Advance` | apps/web/server/src/event_projection.rs:128-224 | The updates, in their order, have the effect of one lifecycle step |
| `EventProjection.EventStore.PersistFrame` | apps/web/server/src/event_projection.rs:39-229 | One event appends one log entry for the latest run of its thread whether or not its artifacts were accepted, and moves artifacts and lifecycle by exactly one step; without a run nothing changes |
| `EventProjection.EventStore.StoreContent` | apps/web/server/src/routes/artifacts.rs:89-100 | Fetched content makes a pending reply artifact ready and changes nothing else |
| `StoreHistory.LogKeepsEvents` | apps/web/server/src/event_projection.rs:39-229 | After every history the log has grown by exactly one entry, in order, for each event whose thread has a run |
| `StoreHistory.RowsAreReplayed` | apps/web/server/src/event_projection.rs:128-224 | The run, task and workspace rows of the store are those of the lifecycle history of its events, so all laws of such histories hold of it |
| `StoreHistory.HoldingsAreReplayed` | apps/web/server/src/event_projection.rs:66-108 | The artifact tables of the store are those of the artifact history of its events and fetches |
| `StoreHistory.LogStaysTrue` | apps/web/server/src/event_projection.rs:1344-1396 | In every state of every history, whatever a logged message shows is still the row its reference has in its run, and every row is resolved |
| `Polyline.OrOfDisjoint` | tools/maps-mcp/maps_mcp/server.py:226-234 | Or-ing a shifted chunk onto the bits below it adds it |
| `Polyline.DecodeNumber` | tools/maps-mcp/maps_mcp/server.py:225-234 | The shifting loop reads the base-32 number at its position, or reports that the text ends inside it |
| `Polyline.Decode` | tools/maps-mcp/maps_mcp/server.py:218-239 | The nested loops return the running sums of the deltas as (longitude, latitude), and fail if and only if the text breaks off inside a point |
| `Polyline.PointsReadBack` | tools/maps-mcp/maps_mcp/server.py:218-239 | Reading the encoding of any integer points consumes the whole text and returns those points |
| `Polyline.RoundTrip` | tools/maps-mcp/maps_mcp/server.py:218-239 | Decoding the encoding of any points, of any size, gives them back scaled and swapped |
| `DistanceMatrix.ChunkExactly` | tools/maps-mcp/maps_mcp/clients.py:134-168 | The cells of a chunk, moved to where the chunk starts, are those cells of the whole matrix |
| `DistanceMatrix.SortExactly` | tools/maps-mcp/maps_mcp/clients.py:169 | Sorting keeps every pair once with its value and puts them in row-major order |
| `DistanceMatrix.MatrixIsUnique` | tools/maps-mcp/maps_mcp/clients.py:126-176 | There is only one row-major listing, so the chunked matrix equals the matrix asked for in one piece |
| `DistanceMatrix.GoogleMatrix` | tools/maps-mcp/maps_mcp/clients.py:126-176 | Accepts if and only if there are between one and 2500 points on the globe on each side and at most 2500 pairs, and reports the first fault; then, if each answer to at most 25 by 25 points lists its own cells once in any order, every pair appears exactly once with its own value, in row-major order |
| `DistanceMatrix.ListAnswer` | tools/maps-mcp/maps_mcp/clients.py:323-338 | The two inner loops list every cell of one answer once |
| `DistanceMatrix.MapboxMatrix` | tools/maps-mcp/maps_mcp/clients.py:286-345 | The same checks; every request has at most 25 coordinates, or 10 with traffic, and if each answer is right every pair appears exactly once with its own values |
| `ReleaseVersion.ParsePrints` | codex/sdk/python/release_version.py:10-12 | Every text the version pattern accepts is the print of a valid version |
| `ReleaseVersion.PrintParses` | codex/sdk/python/release_version.py:10-12 | Every valid version is accepted with exactly its parts |
| `ReleaseVersion.NormalizeTwice` | codex/sdk/python/release_version.py:68-82 | Normalising is idempotent |
| `ReleaseVersion.ReleaseRoundTrip` | codex/sdk/python/release_version.py:45-82 | Normalising the release text or the tag of any version returns its normalised form |
| `ReleaseVersion.TagsAreDistinct` | codex/sdk/python/release_version.py:45-82 | Two versions have the same tag if and only if they normalise to the same version |
| `ReleaseSpelling.NormalizeIff` | codex/sdk/python/release_version.py:68-82 | A text normalises to a version if and only if, without outer white space and tag prefix, it is the version itself, its base with -alpha, -beta or -rc and a number, an alpha with a second number for a post release, or the base with -bet-alpha and a number for a beta |
| `ReleaseSpelling.NormalizedIsVersion` | codex/sdk/python/release_version.py:80-82 | Whatever is accepted is the print of a valid version |
| `ReleaseSpelling.AlphaReadAsBeta` | codex/sdk/python/release_version.py:75-78 | 1-bet-alpha.2 normalises to 1b2 |
| `ReleaseSpelling.ReleaseIs` | codex/sdk/python/release_version.py:45-65 | The release of a version is its base with -alpha., -beta. or -rc. and its numbers, and any other version is released as it is |
| `EventHub.EveryInterleavingIsSafe` | apps/web/src/services/events.ts:28-87 | In every interleaving at most one registration is live or pending, a held unlisten has a subscriber, and once all left and all promises were called back nothing is registered |
| `EventHub.RejectionDeafens` | apps/web/src/services/events.ts:55-58 | A rejected registration leaves a subscriber with nothing registered or pending |
| `EventHub.DeafIffGaveUp` | apps/web/src/services/events.ts:28-87 | That state holds if and only if there are subscribers, the last registration was rejected and nobody subscribed since |
| `EventHub.Hub.StartListening` | apps/web/src/services/events.ts:33-59 | Asks for a registration only if none is held or pending |
| `EventHub.Hub.StopListening` | apps/web/src/services/events.ts:61-70 | Gives up the held registration, if any |
| `EventHub.Hub.Add` | apps/web/src/services/events.ts:72-77 | Has exactly the effect of a subscription step of the interleavings above |
| `EventHub.Hub.Remove` | apps/web/src/services/events.ts:78-83 | Has exactly the effect of a removal step, also for a listener that already left |
| `EventHub.Hub.OnFulfilled` | apps/web/src/services/events.ts:47-54 | A registration that arrives after everyone left is given up at once, otherwise it is held |
| `EventHub.Hub.OnRejected` | apps/web/src/services/events.ts:55-58 | A rejection only clears the pending promise |

## Left out

- MinCostFlow.MinCostFlow.AddEdge: returns the position of the forward edge instead of a shared edge object, so aliasing of edge handles is not modelled; the planner only reads a handle's capacities.
- MinCostFlow.MinCostFlow.Send: assumes non-negative costs on open edges and simple paths below the sentinel, as the source needs them; what the search does beyond the sentinel is stated by `ReachedIffBelowSentinel` alone.
- Allocator.Allocate: assumes a bound on demand points, unit costs and penalty that keeps paths below the sentinel; the bound is sufficient, not necessary.
- OptimizedEvaluation.EvaluateOptimized: scenario, policy and result identifiers and timestamps are not modelled.
- LocationSolver.SolveLocation: compares selections by the numbers of their own optimal results, as the source does; rounding of ratios to floating point is not modelled, the tolerance of 1e-12 is kept as a real number.
- EventProjection.EventStore.PersistFrame: takes the projected event as given; decoding frames, method classification, item projection, terminal frames and the encoding of the live message are not modelled.
- Lifecycle.LatestRun: breaks ties of creation time by the first row, where the database may return any.
- MapCard.ProjectTwice: numbers are exact, so the loss of precision of large integers turned into floating point is not modelled; it cannot occur within the bounds the card allows.
- Polyline.Decode: divides exactly instead of in floating point.
- DistanceMatrix.GoogleMatrix: a provider's answer is a parameter; transport errors, answers that are not lists and travel mode names are not modelled.
- DistanceMatrix.MapboxMatrix: as above, with the profile given directly.
- EventHub.EveryInterleavingIsSafe: assumes that giving up a registration does not throw inside the callback that receives it.
- Scenarios.UnitCostIsNearest: takes handling, base and per-kilometre costs in whole millionths; input prices with more decimals are not modelled.
- Decimal context precision, time zones, hashing, SQL isolation and retries.
- Comparing scenarios, planning datasets, resource storage, geocoding, routing and the browser code: they would only add easy members.

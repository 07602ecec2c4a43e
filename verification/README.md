# untangle: the matching engine, its accounting consequences and its control plane

untangle attributes bank credits to payment rails, reconciles the Razorpay ones against the settlement
report, and derives vouchers, fee-GST, root causes and a recovery plan from the result. Its rule is never
to guess: a verdict is given only where its bounded searches find no other. This project models that logic in
Dafny, proves what the rule promises, and says exactly where the bounds leave something unseen.

`dafny verify dfyconfig.toml` checks every file.

## What is modelled, and how

Modules follow the program's own files.

| area | modules |
|---|---|
| global assignment solver | `Assignments`, `BranchAndBound`, `Components`, `GlobalSolver` |
| subset search and its indexed form | `SubsetSearch`, `LegacySubsets`, `LegacyProperties`, `KeySets` |
| split payouts | `SplitLegs` |
| row identity | `CoveredRows` |
| reconciliation | `SettlementGroups`, `Reconcile`, `ReconcileRun`, `TwoPass`, `Reconciliation`, `SecondPassOrder`, `ResultEvidence`, and the example reports `PlainReports`, `RepeatedSettlement`, `UnsearchedSums` |
| scoring, challenger, attribution, rules | `EvidenceScoring`, `Challenger`, `SumEvidence`, `Attribution`, `AttributionRun` |
| accounting artifacts | `Journal`, `JournalBook`, `Investigate`, `Recovery`, `ProofCsv`, `AuditLog` |
| organisations and sessions | `AuthStore`, `AuthRuns`, `AuthService` |

Conventions:

- Money is integer paise, dates are integer days and times integer seconds. Cost parts that the solver
  rounds to four decimals are integers in ten-thousandths. Evidence weights are reals.
- Settlement ids and line keys are integers: any totally ordered type would do. Assignment targets are a
  datatype, so a settlement id can never be mistaken for the abstain or rail sinks.
- Signals found in text, pattern matches of approved rules and words in a row's description are given as
  data. The standard fee of a gross amount and the hash functions are given functions; the hashes are
  assumed free of collisions where a statement says so.
- Line keys are distinct, as the bank adapters make them (`engine/bank_adapters.py:272-296`). Where a weaker
  condition suffices (equal keys mean one line), the weaker one is required.
- Exceptions are values: `Rejected`, `Refused`, `Raised`, `Failed`.
- A stable sort by cost reproduces the solver's sort key, because the candidate list is already in the order
  of the remaining parts of the key.
- An invitation's public id and its token each name it uniquely, so the store keys it by one value. Session
  rows are keyed by token hash, which is a unique column.

## Properties that do not hold, and when they do

- The indexed matcher can return one settlement twice (`LegacyRepeatsASettlement`). Before its result limit it
  does so exactly when the pool holds an inverted pair (`RepeatsExactlyWhenInverted`); under the limit of two
  that reconciliation uses, a chosen list repeats exactly when the pool is also larger than sixteen
  (`ChosenRepeatsExactlyWhenInverted`). `RepeatedSettlement` shows it on a report of seventeen settlements: the
  credit is matched to settlements 2, 1 and 2 (`ChosenRepeats`), net is overstated (`ReportDoubles`,
  `NetIsOverstated`), the row ids are refused (`RowIdsAreRefused`), and the set-sum signal is not a genuine sum
  (`FoundSumIsNotGenuine`). The exact conditions: conservation fails exactly when some credit, at its turn, is
  chosen from more than sixteen terms with an inverted pair (`ReconcileCredits`); row ids are refused, and the
  journal is not built, exactly for results that repeat a settlement (`ResultResolvesExactlyWhen`,
  `JournalIsBuiltExactlyWhen`); a found sum is genuine exactly otherwise (`FoundSumIsGenuineExactlyWhen`).
- Reconciliation can choose settlements although others make the amount too, because sums are searched up to
  five terms of at most sixteen candidates, up to three of at most two hundred, and not at all beyond. With 201
  candidates a single settlement is chosen beside a pair (`PairIsNotSearched`), with seventeen beside a sum of
  four (`FourTermsAreNotSearched`), and nothing is recorded. A choice is the only one exactly when no sum has
  more terms than the search covers (`ChosenIsTheOnlySumExactlyWhen`), and so is the set-sum signal
  (`FoundSumIsTheOnlyOneExactlyWhen`).
- The second pass depends on the order of the attributions: of two credits that one settlement makes, the
  first is resolved (`FirstComeFirstServed`). The results are the same in every order when no settlement that
  serves one credit after the first pass is wanted by another (`RunIsOrderFree`); the first pass never depends
  on it (`FirstPassIsOrderFree`).
- Split reconstruction sees only legs below the settlement's net, so a credit can be lifted although a pair
  with one leg at or above another net also matches (`LiftedDespiteWideRival`). A lifted group is the only
  in-window group of its legs exactly when no such pair takes one of them (`LiftedIsUniqueExactlyWhen`), and the
  search overlooks no group of a settlement exactly when it has no such pair (`SeesEveryGroupExactlyWhen`).
- Removing evidence can raise a score when a signal above 0.98 shares its channel; scoring is monotone over
  a pool exactly when it holds no such clash (`MonotoneExactlyWhenNoClash`). The weights the engine ships are
  all below that.
- The fallbacks for records without row ids can make the journal and the fee-GST total differ; over any list
  of such records they agree for every tax the report could carry exactly when each record covers each key
  once and names at most one row with it (`JournalAgreesWithoutRowIdsExactlyWhen`).
- A named root cause can explain zero paise (`FeeSlabExplainsNothing`), exactly when the fee slab matches to
  the paise (`ExplainsNothingExactlyWhen`).
- Capture amounts are not part of a row's identity. For arbitrary covered rows they survive every reordering
  exactly when rows with equal signatures have equal capture amounts (`CaptureSurvivesExactlyWhen`). The rows
  a reconciliation result covers are whole settlements, so for them they always survive
  (`ResultRowsSurvive`), and no diagnosis changes (`ResultCauseSurvives`).
- Ledger verification accepts truncated logs (`PrefixIsAccepted`) and every numbering
  (`AnyNumberingIsAccepted`); only the root tells them apart (`SameRootSameLog`).
- The documentation of split reconstruction counts a settlement reference as a strong signal; the code does
  not, and the model follows the code (`engine/attribute.py:357`, `engine/attribute.py:399-401`).

## Model

| member | source | states |
|---|---|---|
| Assignments.AssignmentHasCanonicalForm | engine/solver.py:477-525 | every valid assignment, in any order, is reached by the search's least-open-credit order at the same cost |
| Assignments.CanonicalIsAssignment | engine/solver.py:495-525 | whatever the search order builds covers each credit once and no settlement twice |
| BranchAndBound.PrunedBranchBeaten | engine/solver.py:515-516 | pruning on the first two cost parts loses no assignment cheaper on all five |
| BranchAndBound.DefaultIsComplete | engine/solver.py:465-475 | with nothing excluded the all-abstain baseline has one edge per credit |
| BranchAndBound.DefaultIsCanonical | engine/solver.py:465-475 | a baseline with one edge per credit is a valid assignment |
| BranchAndBound.Search.constructor | engine/solver.py:459-475 | the incumbent starts as the baseline when complete, else as nothing |
| BranchAndBound.Search.Explore | engine/solver.py:477-525 | the incumbent stays valid and only improves, no more calls are made than the unpruned tree has nodes nor more than maxSteps + 1, and unless the budget is hit every completion of the node costs at least the incumbent |
| BranchAndBound.Search.TryEdge | engine/solver.py:513-525 | an edge is pruned or searched and the chosen list restored; unless the budget is hit every completion through it costs at least the incumbent, within the nodes below it |
| BranchAndBound.NodesFewer | engine/solver.py:597-604 | excluding edges or blocking settlements never gives the search more nodes |
| BranchAndBound.NodesAtMost | engine/solver.py:477-525 | the tree over n credits with at most d edges each has at most (d + 1)^n nodes |
| BranchAndBound.RootBeaten | engine/solver.py:527 | at the root, beating every completion is beating every valid assignment |
| BranchAndBound.SolveComponent | engine/solver.py:446-532 | no timeout: an optimum over all valid assignments, or the no-assignment cost when there is none; a timeout, possible only when the tree has more than maxSteps nodes: the baseline |
| Components.Enqueue | engine/solver.py:413-416 | queues exactly the unseen neighbours and marks them seen |
| Components.Sweep | engine/solver.py:405-418 | the component found is exactly the credits connected to its root |
| Components.FindComponents | engine/solver.py:389-420 | components partition the credits, are connected, and no link leaves one |
| GlobalSolver.CostSplits | engine/solver.py:575-646 | the cost of an assignment is the sum of its parts inside and outside a component |
| GlobalSolver.AssignmentSplits | engine/solver.py:575-646 | an assignment of several components restricts to a valid one of each |
| GlobalSolver.AssignmentJoins | engine/solver.py:575-646 | valid assignments of a component and of the rest join to a valid one |
| GlobalSolver.ComponentsCompose | engine/solver.py:633-638 | valid component assignments together are a valid assignment of all credits |
| GlobalSolver.ComponentsOptimal | engine/solver.py:575-646 | component optima together cost no more than any whole-period assignment |
| GlobalSolver.BlockedIsIrrelevant | engine/solver.py:502-505 | settlements consumed by earlier components never change what a later one may choose |
| GlobalSolver.FindRival | engine/solver.py:593-608 | a result is a valid alternative without the edge that does not trail clearly; none after a completed search means none exists; the search is cut short only when its tree exceeds maxSteps |
| GlobalSolver.ContestEdges | engine/solver.py:587-631 | edges are contested whole, only with a rival, and with no rival left over except for edges whose excluding search exceeds maxSteps; a contest records the competing edge and the evidence gap of such a rival |
| GlobalSolver.RunComponent | engine/solver.py:575-638 | one component's assignment and contests, with the timeout flag and the unproved edges only where a tree exceeds maxSteps |
| GlobalSolver.RunStep | engine/solver.py:575-638 | adding a component keeps validity, optimality, consumed settlements and contests |
| GlobalSolver.ConsumedIsAccepted | engine/solver.py:633-638 | the consumed settlements are exactly the targets of accepted Razorpay verdicts |
| GlobalSolver.SolveAssignment | engine/solver.py:535-760 | every credit has one verdict, abstained exactly when it is contested or its edge abstains and otherwise of the rail, target, residual and split keys of its edge; the choice is a valid whole-period assignment, of least total cost without a timeout, every chosen edge passed the margin test, and a timeout or an unproved edge means a tree of more than maxSteps nodes |
| GlobalSolver.VerdictsSay | engine/solver.py:684-750 | each credit has a chosen edge, and its verdict says what that edge and the contests say |
| GlobalSolver.NoSettlementServesTwo | engine/solver.py:691-749 | two credits accepted for one settlement are legs of one edge |
| GlobalSolver.ContestedGroupsAbstainWhole | engine/solver.py:610-612 | if one leg of a group is contested, every leg abstains |
| GlobalSolver.AcceptedVerdictIsRobust | engine/solver.py:587-631 | with a positive margin, an accepted edge whose excluding search fits the budget has no close rival: every assignment of the component without it is worse on the first three parts or trails by more than the margin |
| GlobalSolver.WithinBudgetIsProved | engine/solver.py:593-608 | an edge is unproved only when the search that excludes it has more than maxSteps nodes |
| GlobalSolver.SmallComponentsAreSolved | engine/solver.py:575-584 | components whose trees fit the budget never time out and leave no edge unproved |
| GlobalSolver.BuildGraph | engine/solver.py:366-420 | exactly the split edges of un-enumerable credits are dropped, the rest is in the order of the sort key and the same whatever order the edges were generated in, and the components partition the credits |
| GlobalSolver.GraphIgnoresOrder | engine/solver.py:377-378 | since the edge id breaks every tie, reordering the generated edges gives the same graph |
| GlobalSolver.UnEnumerableNeverSplit | engine/solver.py:366-375 | an un-enumerable credit is never settled by a split |
| SubsetSearch.CombinationsSound | engine/bounded_subsets.py:127 | combinations draw distinct members from the pool |
| SubsetSearch.CombinationsComplete | engine/bounded_subsets.py:127 | every selection without repetition is the members of some combination |
| SubsetSearch.CombinationsNeverRepeat | engine/bounded_subsets.py:127 | no selection appears twice |
| SubsetSearch.Enumerate | engine/bounded_subsets.py:124-137 | the first hits up to the limit, unless the budget ends before they are found |
| SubsetSearch.FindBoundedSubsets | engine/bounded_subsets.py:81-137 | bad calls are rejected in the code's order, oversized pools are exhausted, otherwise the bounded enumeration |
| SubsetSearch.CompletedSearchIsExact | engine/bounded_subsets.py:95-98 | a completed search below its limit returns every matching selection and nothing else |
| SubsetSearch.NeverExhaustsAtEngineSizes | engine/bounded_subsets.py:103-105 | sixteen items and a budget of 100000 never exhaust |
| LegacySubsets.BuildIndex | engine/bounded_subsets.py:43-45 | the value index lists exactly the items of each net, in pool order |
| LegacySubsets.MatchIndexed | engine/bounded_subsets.py:47-78 | the indexed search keeps the first tuple of every id set it visits, up to the limit |
| LegacySubsets.FindLegacySubsets | engine/bounded_subsets.py:24-78 | bad calls are rejected, otherwise the indexed search |
| LegacyProperties.LegacyMissesNothing | engine/bounded_subsets.py:50-78 | no two- or three-term match is missed, whatever the pool order |
| LegacyProperties.RepeatsExactlyWhenInverted | engine/bounded_subsets.py:64-77 | among the tuples kept before the result limit, one repeats a settlement if and only if the pool holds an inverted pair |
| LegacyProperties.LegacyIsSound | engine/bounded_subsets.py:64-77 | without an inverted pair every kept tuple is a genuine selection |
| LegacyProperties.LegacyRepeatsASettlement | engine/bounded_subsets.py:69-75 | pool b=5, a=10 and target 20 returns (b, a, b) |
| LegacyProperties.LegacyAgreesWhenAscending | engine/bounded_subsets.py:24-78 | on an ascending pool the indexed matcher equals plain enumeration of two and three terms, in order and under the same limit |
| SplitLegs.AllSumSubsets | engine/attribute.py:360-377 | every combination of two to three credits that sums within the tolerance, each once |
| SplitLegs.CollectMatches | engine/attribute.py:423-444 | all matches of enumerable pools, and the keys of pools too large to enumerate |
| SplitLegs.AssignGroups | engine/attribute.py:446-463 | exactly the legs of assignable matches are assigned, with settlement, size and residual |
| SplitLegs.ReconstructGroups | engine/attribute.py:423-463 | a credit is lifted if and only if it is a leg of a group nothing rivals, including groups of settlements too large to enumerate |
| SplitLegs.LiftedGroupsAreDisjoint | engine/attribute.py:402-405 | lifted groups share no credit, and a settlement has at most one |
| SplitLegs.LiftedIsUniqueExactlyWhen | engine/attribute.py:434-437 | a lifted group is the only in-window group, of any settlement, that uses one of its legs if and only if no pair with a leg at or above a net takes one of them |
| SplitLegs.SeesEveryGroupExactlyWhen | engine/attribute.py:434-437 | for one settlement, the search sees every in-window group if and only if no pair has a leg at or above its net |
| SplitLegs.LiftedDespiteWideRival | engine/attribute.py:434-437 | a concrete lifted credit that also makes another settlement with a leg at that net |
| CoveredRows.CanonicalRowIds | engine/covered.py:45-63 | each row's id is its digest and its occurrence among equal rows before it |
| CoveredRows.CanonicalIdsAreDistinct | engine/covered.py:66-73 | ids are distinct, even for rows equal in every field |
| CoveredRows.RowsById | engine/covered.py:66-73 | the map holds exactly the ids of the report, each to its row |
| CoveredRows.ResolveCovered | engine/covered.py:76-111 | the checks fire in order: count, duplicates, existence, identity |
| CoveredRows.ResolvesExactlyWhen | engine/covered.py:76-111 | a list resolves if and only if it has as many ids as entities, none twice, and at each place a known row of the entity named there; otherwise the first failing check is named |
| CoveredRows.IdentitySurvivesReordering | engine/covered.py:48-53 | in any reordered or enlarged report a covered list resolves to rows with the same fields in the same places |
| CoveredRows.MoneySurvivesReordering | engine/covered.py:29-34 | so net, fee and tax are unchanged |
| CoveredRows.RepeatedRowIsRefused | engine/covered.py:97-98 | covering a row twice is always refused |
| CoveredRows.CaptureSurvivesExactlyWhen | engine/covered.py:29-42 | authorized and captured amounts survive every reordering for every list of covered rows if and only if rows with equal signatures have equal ones |
| CoveredRows.WholeGroupSurvives | engine/covered.py:48-53 | positions that cover every row with a signed property resolve, in any reordering, to the very same rows |
| SettlementGroups.BuildIndex | engine/reconcile.py:37-58 | settlements in report order; rows, net, date and reference of each are those of its rows, first reference and last date winning |
| SettlementGroups.GroupByNet | engine/reconcile.py:56-58 | the net index lists exactly the settlements of each net |
| SettlementGroups.FirstReferenceWins | engine/reconcile.py:52-53 | a reference points at the settlement of the first row that ties it to one |
| SettlementGroups.LastDateWins | engine/reconcile.py:54-55 | a settlement's date is the day of its last dated row |
| SettlementGroups.NetIsCreditsLessDebits | engine/reconcile.py:51 | a settlement's net is the credits less the debits of its rows |
| Reconcile.FirstKnownReference | engine/reconcile.py:69-75 | a credit points at the settlement of the first of its references that the report knows |
| Reconcile.SelectExactlyWhen | engine/reconcile.py:77-135 | settlements are chosen if and only if one set explains the credit and no other does; it is ambiguous if and only if two sets do; nothing is chosen if and only if none does |
| Reconcile.ChosenSumsExactly | engine/reconcile.py:77-135 | a chosen list names unused settlements near the credit whose nets sum to the amount |
| Reconcile.ChosenIsTheOnlySumExactlyWhen | engine/reconcile.py:82-118 | every sum of any number of terms uses the chosen settlements if and only if none has more terms than the search covers; within its term range, if and only if there are at most 200 candidates or no such sum |
| Reconcile.ChosenIsTheOnlySingle | engine/reconcile.py:92-99 | and no other single settlement has that net |
| Reconcile.ChosenRepeatsExactlyWhenInverted | engine/reconcile.py:102-118 | a chosen list repeats a settlement exactly when the pool is larger than sixteen and has an inverted pair |
| ReconcileRun.MadeIsWellMade | engine/reconcile.py:138-155 | a result covers the rows of its settlements at their net, residual within 100 paise |
| ReconcileRun.MadeExactlyWhen | engine/reconcile.py:138-155 | a result is made if and only if the credit is within 100 paise of the settlements' net |
| ReconcileRun.LedgerAdd | engine/reconcile.py:196-215 | adding an unused result keeps every settlement and every credit in at most one result |
| ReconcileRun.NetIsConserved | engine/reconcile.py:230-231 | report net is at most covered plus uncredited net, and equal if and only if no result repeats a settlement |
| TwoPass.ClaimFacts | engine/reconcile.py:195-201 | a first-pass result is one credit, alone in claiming one settlement, within the drift |
| TwoPass.FirstPassLedger | engine/reconcile.py:180-201 | the first pass never uses a settlement or resolves a credit twice, and holds exactly the results of the sole claims |
| TwoPass.SoleClaimMadeExactlyWhen | engine/reconcile.py:195-201 | a credit that alone points at a settlement makes a result for it if and only if it is within 100 paise of its net |
| TwoPass.HeldExactly | engine/reconcile.py:189-194 | exactly the credits that point where another one does are held |
| TwoPass.FirstPassIsOrderFree | engine/reconcile.py:180-201 | first-pass results and held duplicates do not depend on attribution order |
| SecondPassOrder.FirstComeFirstServed | engine/reconcile.py:203-215 | of two credits that one settlement makes, the second pass resolves whichever comes first |
| SecondPassOrder.SelectSame | engine/reconcile.py:92-106 | a choice depends only on which of the settlements the credit could use are already used |
| SecondPassOrder.SecondPassIsOrderFree | engine/reconcile.py:203-215 | when no settlement that serves one credit is wanted by another, any order uses the same settlements, resolves the same credits and makes the same results |
| SecondPassOrder.RunIsOrderFree | engine/reconcile.py:158-237 | so then two whole runs over the same credits in different orders reach the same results |
| TwoPass.ChosenBalances | engine/reconcile.py:208-215 | a chosen list always makes a result, with residual exactly 0 |
| TwoPass.NeverUnenumerable | engine/reconcile.py:119-121 | the un-enumerable path is never taken |
| TwoPass.SecondPassLedger | engine/reconcile.py:203-215 | the second pass keeps the ledger, adds only exact results, and leaves a credit only if held or without a single choice at its turn |
| TwoPass.SecondPassRepeats | engine/reconcile.py:203-215 | the second pass repeats a settlement if and only if some credit, at its turn, is chosen from more than sixteen terms with an inverted pair |
| Reconciliation.SettlementIndex.constructor | engine/reconcile.py:37-63 | a valid index with nothing recorded |
| Reconciliation.SettlementIndex.AmountOrSetsumSids | engine/reconcile.py:77-135 | the only list that explains the credit, or none with the reason recorded |
| Reconciliation.GroupClaims | engine/reconcile.py:182-187 | claims are grouped by settlement in first-claim order |
| Reconciliation.ResolveClaims | engine/reconcile.py:189-201 | the first pass, with every credit of a multiply claimed settlement recorded |
| Reconciliation.ResolveAmounts | engine/reconcile.py:203-215 | the second pass over the remaining credits and settlements |
| Reconciliation.Classify | engine/reconcile.py:217-228 | an unresolved credit with a reference is split when short of the net, else unbalanced by exactly the excess |
| Reconciliation.PlaceIsLast | engine/reconcile.py:234-236 | results are placed by the last place their credit has among the attributions |
| Reconciliation.AscendingNeverRepeats | engine/reconcile.py:102-118 | a report in ascending settlement order never yields a repeated settlement |
| Reconciliation.ReconcileCredits | engine/reconcile.py:158-237 | the whole run: the results of the two passes; a credit that alone points at a settlement is reconciled to it if and only if it is within 100 paise, and credits that collide on one are not; the ledger, explained leftovers, short and over amounts, output order and uncredited settlements; covered plus uncredited net is never below the report net, and equals it if and only if no credit is, at its turn, chosen from more than sixteen terms with an inverted pair |
| ResultEvidence.RowsOnceExactlyWhenSettlementsOnce | engine/reconcile.py:142-154 | a result's rows are listed once exactly when its settlements are |
| ResultEvidence.ResultResolvesExactlyWhen | engine/covered.py:76-111 | a result's row ids resolve in any reordering, to the same net, if and only if it repeats no settlement; otherwise refused |
| ResultEvidence.ResultRowsSurvive | engine/reconcile.py:142-154 | a result without repeats covers whole settlements, so in any reordering its row ids resolve to the very rows it covers, capture amounts included |
| ResultEvidence.ResultCauseSurvives | engine/investigate.py:216-223 | whichever way the report is ordered, the same root causes close the variance and, late refunds apart, explain the same amount |
| ResultEvidence.JournalIsBuiltExactlyWhen | engine/journal.py:135-150 | over the results of a run and any reordering of the report, the journal is built if and only if no result repeats a settlement; then bank debits are the credits reconciled and input GST is the fee-GST total |
| RepeatedSettlement.OnlyOffered | engine/bounded_subsets.py:64-77 | over more than sixteen items where only an inverted pair combines, the search offers that pair with its first item twice |
| RepeatedSettlement.ChosenRepeats | engine/reconcile.py:102-118 | a report of seventeen settlements on which a credit of 20000 is matched to settlements 2, 1 and 2 |
| RepeatedSettlement.ReportDoubles | engine/reconcile.py:203-231 | on that report the run meets the condition under which covered net is overstated |
| RepeatedSettlement.NetIsOverstated | engine/reconcile.py:138-155 | its result balances to the paise, and covered plus uncredited net exceeds the net of the report |
| RepeatedSettlement.RowIdsAreRefused | engine/covered.py:97-98 | and the result's row ids are refused in every order of the report |
| RepeatedSettlement.FoundSumIsNotGenuine | engine/attribute.py:116-126 | over the same settlements a set-sum is found although no distinct settlements make it |
| UnsearchedSums.PairIsNotSearched | engine/reconcile.py:107 | 202 settlements on which a single one is chosen although a pair makes the amount |
| UnsearchedSums.FourTermsAreNotSearched | engine/reconcile.py:108-118 | 18 settlements on which a single one is chosen although a sum of four makes the amount |
| EvidenceScoring.StrengthOf | engine/attribute.py:74-81 | strongest weight plus a tenth of the weaker ones, capped at 0.98; a lone weight as it is |
| EvidenceScoring.Combine | engine/attribute.py:57-86 | one minus the product of the channels' doubts, capped at 0.99 |
| EvidenceScoring.ScoreOfOne | engine/attribute.py:57-86 | one signal scores its weight, up to 0.99 |
| EvidenceScoring.ScoreOnOneChannel | engine/attribute.py:74-81 | of two signals on a channel the weaker adds a tenth, up to 0.98; equal ones add nothing |
| EvidenceScoring.ScoreOnTwoChannels | engine/attribute.py:83-86 | the doubts of two channels multiply, up to a score of 0.99 |
| EvidenceScoring.FewerScoresLess | engine/attribute.py:57-86 | removing evidence never raises the score while no signal above 0.98 shares its channel |
| EvidenceScoring.MonotoneExactlyWhenNoClash | engine/attribute.py:57-86 | and that condition is exact, over all sub-collections of a pool |
| EvidenceScoring.CompanyLowersScore | engine/attribute.py:76-81 | a signal above 0.98 scores higher alone than with company |
| Challenger.ChallengeRazorpay | engine/challenger.py:98-178 | all observed rails and effective ablations, ranked, with the strongest and the margin |
| Challenger.StrongestIsStrongest | engine/challenger.py:163-167 | the strongest challenge outranks every other by score, then name |
| Challenger.AblationNeverBeatsVerdict | engine/challenger.py:73-95 | no ablation scores above the verdict it ablates |
| Challenger.PlanRemovesExactly | engine/challenger.py:133-150 | each ablation keeps exactly the evidence its operator does not remove |
| Challenger.NeverTruncated | engine/challenger.py:157-161 | there are at most eleven challenges, so none is ever dropped |
| Challenger.ChallengedIsVerdict | engine/challenger.py:98-178 | over a dictionary of rails every counterfactual is weighed |
| Challenger.WeighsExactly | engine/challenger.py:112-155 | the challenges are exactly the observed rails and the ablations that remove something |
| Challenger.MarginIsAgainstTheBest | engine/challenger.py:163-168 | the margin is the score less the best counterfactual score, or the whole score when there is none |
| Challenger.NegativeMarginExactlyWhenRailBeats | engine/challenger.py:116-131 | the margin is negative if and only if an observed rail outscores the verdict, and the strongest challenge then names one |
| SumEvidence.FindSum | engine/attribute.py:89-164 | the set-sum signal, its ambiguity and its absence |
| SumEvidence.FindingExactlyWhen | engine/attribute.py:89-164 | a sum is found if and only if no single settlement makes the credit and one set of settlements does; it is ambiguous if and only if there are two explanations of any kind |
| SumEvidence.NeverUnenumerable | engine/attribute.py:127-134 | the budget is never exceeded at these sizes |
| SumEvidence.FoundSumIsTheOnlyOne | engine/attribute.py:140-162 | all genuine sums in the searched term range use the same settlements and no single settlement has the amount |
| SumEvidence.FoundSumIsTheOnlyOneExactlyWhen | engine/attribute.py:116-162 | every sum of any number of terms uses the settlements found if and only if none has more terms than the search covers |
| SumEvidence.FoundSumIsGenuineExactlyWhen | engine/attribute.py:116-126 | a found sum is genuine if and only if the pool is small or has no inverted pair |
| Attribution.Finalize | engine/attribute.py:167-220 | Razorpay on the evidence given, or an abstention; abstains exactly when a positive margin threshold is not met, and always when another rail outscores the evidence |
| Attribution.BeatenIsDemoted | engine/attribute.py:192-220 | at any positive threshold a rail that outscores the evidence demotes the verdict |
| Attribution.BestIsBest | engine/attribute.py:326-328 | the chosen entry is one of the entries and none is above it by score, then by name |
| Attribution.WeighRails | engine/attribute.py:291-339 | rails are weighed with Razorpay scored zero without a tie, or against a keyword without a hard tie |
| Attribution.AttributeLine | engine/attribute.py:223-339 | the verdict of one line in every branch, with who is accepted: a debit for the rail its narration says most at the threshold; a credit without an exact reference, challenger off, for the rail that takes part, reaches the threshold and is above every other |
| Attribution.DebitAcceptedExactlyWhen | engine/attribute.py:239-246 | a debit is accepted for a rail if and only if its narration reaches the threshold and is above every other by score, then name |
| Attribution.CreditAcceptedExactlyWhen | engine/attribute.py:248-339 | a credit without an exact reference is accepted for a rail if and only if no undecided sum forbids it and the rail takes part, reaches the threshold and is above every other; Razorpay takes part exactly with a tie, a positive score and no keyword of another rail or a hard tie |
| Attribution.RazorpayRestsOn | engine/attribute.py:285-321 | a Razorpay verdict rests on that evidence, and a found sum makes it Tier C |
| Attribution.EachTieSuffices | engine/attribute.py:293-321 | a reference suffix, a set-sum or an amount tie alone on a credit, at the threshold, decides for Razorpay |
| Attribution.GateHolds | engine/attribute.py:301-310 | a Razorpay verdict is on a credit and carries a genuine tie; Tier A carries an exact reference |
| Attribution.AmountAloneNeverBeatsKeyword | engine/attribute.py:297-300 | without a hard tie Razorpay never wins against another rail's keyword |
| Attribution.ResemblanceNeverDecides | engine/attribute.py:303-308 | brand words, the IFSC, unlisted references, weak suffixes, shared amounts and near dates never decide Razorpay, however many |
| Attribution.FiledAsRazorpayBreaksGate | engine/attribute.py:239-246 | a pack filing narration under Razorpay would let a debit through, so none may |
| Attribution.MarginOnlyDemotes | engine/attribute.py:178-188 | turning the challenger on changes a verdict only by abstaining from Razorpay |
| Attribution.DemotedExactlyWhen | engine/attribute.py:192-220 | an accepted Razorpay verdict is kept if and only if a positive margin threshold is met |
| Attribution.TierAAcceptedExactlyWhen | engine/attribute.py:251-256 | a reference-tied credit is accepted exactly when its margin reaches the threshold |
| AttributionRun.ReconstructSplits | engine/attribute.py:383-485 | exactly the credits of unrivalled groups are lifted and every other verdict is unchanged |
| AttributionRun.LiftedIsRazorpay | engine/attribute.py:466-485 | a lifted credit is Razorpay at Tier C unless a positive margin threshold is not met |
| AttributionRun.LegsAreValid | engine/attribute.py:412-419 | the pool is exactly the abstained, leaning credits without a competing keyword |
| AttributionRun.LegsAreDated | engine/attribute.py:407-421 | each leg has the date of its line and is strong exactly when its line carries an origin signal |
| AttributionRun.UnrivalledIsLeg | engine/attribute.py:398-401 | a lifted credit was such a leg |
| AttributionRun.ApplyRules | engine/rules.py:126-192 | each credit gets its rules' common rail, a conflict, or nothing; debits nothing |
| AttributionRun.RuleOrderIsFree | engine/rules.py:145-148 | reordering the rules changes no verdict |
| AttributionRun.RuleDecidesExactlyWhen | engine/rules.py:139-192 | rules say nothing of a line none matches, abstain if and only if two matching ones name different rails, and otherwise give the rail they name |
| AttributionRun.MergedIsGated | engine/attribute.py:522-538 | merging rules keeps the gate and never changes an accepted Tier A verdict |
| AttributionRun.MergedIsRuledOver | engine/attribute.py:517-538 | a contradiction overrides all but Tier A, agreeing rules resolve exactly the abstentions, and any other verdict stays |
| AttributionRun.AttributeAll | engine/attribute.py:488-539 | every non-abstained Razorpay verdict of the run is on a credit and is tied, reconstructed or rule-derived; lifted and ruled verdicts are exactly those the groups and the rules give |
| Journal.SignedSum | engine/journal.py:267-271 | Tally's signed amounts sum to credits less debits |
| Journal.VoucherIsBalanced | engine/journal.py:153-206 | any fees, tax, convention and drift: the voucher balances, Tally amounts sum to zero, and each account moves by its exact amount |
| Journal.ClearingIsGross | engine/journal.py:100-114 | whichever fee convention the payments follow, the voucher relieves the clearing account by exactly their gross |
| JournalBook.BuildJournal | engine/journal.py:117-208 | one voucher per record with covered rows, in key order, stopping at a record that does not resolve |
| JournalBook.EntriesFollowRecords | engine/journal.py:135-208 | there is one voucher for each record that covers rows, in their order, with its key, credit and input tax |
| JournalBook.FeeGst | engine/feegst.py:16-35 | the total tax of covered rows, equal to its itemisation |
| JournalBook.EntriesMovements | engine/journal.py:135-208 | over all records, bank debits and input-GST debits are those of the covered rows |
| JournalBook.JournalAgreesWithFeeGst | engine/feegst.py:20-35 | over records with row ids the journal and the fee-GST total succeed together, exactly when every record resolves; then bank debits equal the credit amounts and input-GST debits the fee-GST total |
| JournalBook.FallbacksAgreeExactlyWhen | engine/journal.py:141-150 | over any records without row ids the taxes the two fallbacks read agree for all taxes if and only if each record covers each key once and names at most one row with it |
| JournalBook.JournalAgreesWithoutRowIdsExactlyWhen | engine/feegst.py:30-34 | over any such records both are built, and the input GST of the journal equals the fee-GST total for all taxes on the report if and only if that condition holds |
| Investigate.MakeCorrectiveEntry | engine/investigate.py:98-181 | the voucher balances and moves the clearing account by exactly the signed amount and the class's own account by its negative |
| Investigate.FindLateRefund | engine/investigate.py:382-402 | the first cross-cycle refund of the credit's own settlement that closes the variance |
| Investigate.InvestigateCase | engine/investigate.py:278-666 | the first class in order whose rows close the variance is named, with the amount and direction they give, and none is named exactly when no rows close it; every class tried is recorded |
| Investigate.ClosesExactlyWhen | engine/investigate.py:318-600 | each of the seven classes closes if and only if its own rows do: withheld or released amounts by size in either direction, deductions only a shortfall, each to 100 paise |
| Investigate.DeltaCloses | engine/investigate.py:331-619 | every class leaves at most 100 paise, and refunds, disputes and captures only deduct |
| Investigate.CauseHasEvidence | engine/investigate.py:331-619 | a class is named only when the report holds rows of its own kind |
| Investigate.UnexplainedExceedsTolerance | engine/investigate.py:558-580 | unexplained means a variance above 100 paise |
| Investigate.ExplainsNothingExactlyWhen | engine/investigate.py:337-349 | a class that closes a variance explains zero exactly when it is fee drift on a slab that matches to the paise |
| Investigate.FeeSlabExplainsNothing | engine/investigate.py:337-349 | a fee of 236 on a gross of 10000, the standard fee, is named first for a variance of 50 and explains 0 |
| Investigate.CauseSurvivesReordering | engine/investigate.py:331-619 | reordering the rows and the report changes neither which classes close the variance nor, late refunds apart, the amount each explains |
| Recovery.MergeWindows | engine/recovery.py:468-483 | merged windows are spaced, gapless and keep every item |
| Recovery.WindowsCoverExactly | engine/recovery.py:468-483 | they are disjoint and cover exactly the union of the items' windows |
| Recovery.GroupAsks | engine/recovery.py:454-466 | lines asking for the same thing form one group |
| Recovery.BuildPlan | engine/recovery.py:381-552 | actions partition the unresolved lines, sums are conserved, each action is worth its recoverable amount per cost, the most worth come first, the plan is capped, and the actioned total counts each kept line once |
| Recovery.PricedIsWorth | engine/recovery.py:485-503 | an action recovers the positive amounts of its lines and gains them divided by its cost |
| Recovery.PlanCoversExportWindows | engine/recovery.py:468-503 | the plan's export windows are exactly the days its export lines need |
| Recovery.DroppedNeverOutranks | engine/recovery.py:523-530 | no dropped action outranks a kept one |
| ProofCsv.PacketsToCsv | engine/proof.py:237-253 | the header and one record per packet, each ended by a line feed |
| ProofCsv.FieldRoundTrip | engine/proof.py:226-234 | a written field reads back as its guarded content |
| ProofCsv.CsvRoundTrip | engine/proof.py:237-253 | for all contents a reader following section 2 of RFC 4180 recovers every record and field, up to the guard |
| ProofCsv.ShippedCsvRoundTrip | engine/proof.py:219-253 | with the shipped header |
| ProofCsv.GuardNeutralises | engine/proof.py:228-231 | no guarded field starts a formula |
| ProofCsv.GuardCollidesExactlyWhen | engine/proof.py:230-231 | two contents read back alike exactly when one is the other with the guard already on |
| AuditLog.AuditLedger.constructor | engine/audit.py:28-30 | an empty ledger is intact |
| AuditLog.AuditLedger.GetRoot | engine/audit.py:32-34 | the root is the last entry's hash |
| AuditLog.AuditLedger.Append | engine/audit.py:36-43 | appends a chained, numbered entry and keeps the chain intact |
| AuditLog.Verify | engine/audit.py:52-67 | accepts a log exactly when every link is intact |
| AuditLog.SameRootSameLog | engine/audit.py:22-24 | two accepted logs with one root are identical entry by entry |
| AuditLog.PrefixIsAccepted | engine/audit.py:52-67 | truncations of an accepted log are accepted |
| AuditLog.TruncationChangesRoot | engine/audit.py:32-34 | but have another root |
| AuditLog.AnyNumberingIsAccepted | engine/audit.py:60-66 | for any numbers, events and payloads exactly one log with them is accepted: numbers are hashed but not checked |
| AuthRuns.NewOrgKeeps | auth/service.py:147-201 | creating an organisation keeps the invariant and gives it an owner |
| AuthRuns.MutateKeepsOwners | auth/service.py:403-451 | after any membership change every organisation still has an active owner |
| AuthRuns.MutateKeeps | auth/service.py:387-484 | and every unrevoked session still matches its membership |
| AuthRuns.LastOwnerNeverRaised | auth/service.py:431-447 | the last-owner refusal can never fire |
| AuthRuns.AcceptKeeps | auth/service.py:702-770 | accepting an invitation keeps the invariant |
| AuthRuns.OpenKeeps | auth/sessions.py:114-142 | a new session names an active membership at its version |
| AuthRuns.SwitchKeeps | auth/sessions.py:466-501 | switching keeps the session's promises in the new organisation |
| AuthRuns.StepKeepsInv | auth/service.py:110-851 | every call keeps the invariant |
| AuthRuns.RunKeepsInv | auth/sessions.py:66-504 | in every reachable state each organisation has an active owner, each unrevoked session names an active membership at its version, and last activity, idle and absolute expiry are ordered |
| AuthRuns.ReachableStatesAreSafe | auth/service.py:403-464 | from the empty store, in every reachable state each organisation is owned, sessions match memberships, and the last-owner refusal cannot be met |
| AuthRuns.DeadStaysDead | auth/sessions.py:289-308 | a rotated, revoked or expired token never resolves as live again, over any run with a clock that does not run back |
| AuthRuns.RotatedOrRevokedIsDead | auth/sessions.py:339-405 | rotation and revocation kill the token, and revoking all kills every token of the principal |
| AuthRuns.RunFollows | auth/sessions.py:289-501 | over any run absolute expiry never moves, revoked rows never change, memberships change only with a higher version, closed invitations stay closed |
| AuthRuns.ResolvesAsLiveExactlyWhen | auth/sessions.py:204-258 | a known token resolves as live if and only if its session is usable and its principal active, and names a role only for an active, current membership of an active organisation |
| AuthRuns.StaleExactlyWhenOrgInactive | auth/sessions.py:204-258 | a live session is stale exactly when its organisation is inactive |
| AuthRuns.TouchRefusedExactlyWhen | auth/sessions.py:289-308 | a touch is refused exactly when due with a negative idle window |
| AuthRuns.BecomesOwner | auth/service.py:110-851 | a membership becomes Owner only by founding the organisation, by an active owner's assignment or by accepting an owner invitation |
| AuthRuns.BecomesOwnerInvitation | auth/service.py:534-603 | an owner invitation is created only by an active owner's call |
| AuthRuns.OwnersComeFromOwners | auth/service.py:110-851 | over any run from the empty store, each owner and each owner invitation has such a call behind it |
| AuthService.Tables.CreateOrganisation | auth/service.py:147-201 | succeeds exactly for a live session of an active principal, who is then the only active owner of the new organisation; keeps the invariant and every earlier row it may not change |
| AuthService.Tables.MutateMembership | auth/service.py:387-484 | succeeds if and only if the caller acts as an active owner or administrator, the target is another existing member, and whenever ownership is given or taken the caller is an owner; then the member is one version on with every session in the organisation dead and nobody else touched; never the last-owner refusal; keeps the invariant and every earlier row it may not change |
| AuthService.Tables.CreateInvitation | auth/service.py:534-603 | succeeds if and only if the caller may give the role and the person is not active; until it expires exactly an active principal with that email who is no member can accept, and gets the invited role; keeps the invariant and every earlier row it may not change |
| AuthService.Tables.AcceptInvitation | auth/service.py:702-770 | succeeds if and only if the caller is the invited person, no member, and the invitation is open; the caller is then a member in the invited role and nobody can accept the invitation again; keeps the invariant and every earlier row it may not change |
| AuthService.Tables.RevokeInvitation | auth/service.py:800-851 | succeeds if and only if the caller manages the organisation; an invitation of that organisation can no longer be accepted, and the flag is true exactly when the table changed; keeps the invariant and every earlier row it may not change |
| AuthService.Tables.CreateSession | auth/sessions.py:114-142 | succeeds if and only if the token is new, the principal known and an active member; the new token is live exactly for the idle timeout, resolves at once to the role in its organisation, stale exactly when that is inactive, and touches no other token; keeps the invariant and every earlier row it may not change |
| AuthService.Tables.TouchSession | auth/sessions.py:289-308 | updates exactly when due and the window is not negative; the token is then live exactly until the window ends or its absolute expiry, and no other token is touched; keeps the invariant and every earlier row it may not change |
| AuthService.Tables.RevokeSession | auth/sessions.py:339-350 | the token is dead at every time, no other token is touched, and the flag is true exactly when the table changed; keeps the invariant and every earlier row it may not change |
| AuthService.Tables.RevokeAllSessions | auth/sessions.py:385-405 | every token of the principal is dead, no other is touched, and the open sessions are counted; keeps the invariant and every earlier row it may not change |
| AuthService.Tables.SwitchOrganisation | auth/sessions.py:466-501 | succeeds if and only if the token is live, the new one new, the organisation active and the principal an active member; the old token is then dead, the new one resolves in the organisation until the idle timeout or the unmoved absolute expiry, and no other token is touched; keeps the invariant and every earlier row it may not change |

## Left out

- Generation of the solver's candidate edges (`engine/solver.py:162-364`): evidence and cost formulas; the
  guarantees the search needs of the edges are the condition `WellFormed`.
- The solver's list of rejected matches and its notes, and the merge of its verdicts back into attributions
  (`engine/solver.py:648-682`, `engine/solver.py:763`): presentation and a plain copy.
- Reason strings, narration texts, rounding for display, confidence values of root causes, voucher
  references and dates: no property beyond the text.
- Narration normalisation, keyword packs and reference extraction: their signals are given data.
- Floating-point rounding: weights and scores are reals, and the standard fee's rounding is inside a given
  function.
- Investigate.InvestigateCase: starts from the credit's rows and expected net; recovering a candidate
  settlement from words of the narration is not modelled.
- Derivation of a line's blocking reason (`engine/recovery.py:184-229`): which action a line asks for is given.
- The comparison of two runs (`engine/recovery.py:555`) and the hypotheses list: easy members only.
- PostgreSQL functions, audit-event rows, hashing of tokens and addresses: the SQLite path's state only.
- Sign-up and the (de)activation of principals and organisations are steps of the model's environment, not
  modelled operations.
- Digest width: row ids keep sixteen hexadecimal digits of SHA-256; the model assumes them free of collisions.
- File reading and writing, ingest, the command line, the web layer, the generator and the evaluation.

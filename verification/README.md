# Workflow execution in Dafny

A model of the REX workflow platform's execution core with proofs about it: how a graph of nodes is validated,
scheduled in waves and executed with conditional edges, retries and control limits; how retrieval plans share a
budget, one after the other or all at once; and the smaller algorithms around them (chunking, configuration merge,
CSV lines, JSON flattening, graph autofix, the stop protocol).

The code that changes things step by step is modelled by methods with loops and by classes with the source's fields.
Each of them is tied by its postcondition to a specification function or predicate, and the results are lemmas about
that specification.

| file | contents |
|---|---|
| `Graph.dfy`, `DagValidator.dfy`, `Waves.dfy` | graphs and orders, Kahn's algorithm, longest-path levels and waves |
| `Branching.dfy`, `Conditions.dfy`, `ExecutionState.dfy`, `Engine.dfy`, `Executor.dfy` | conditional edges and what they ask of an output, the shared context, one run as a specification, the wave executor that refines it |
| `StepAccounting.dfy`, `StepContents.dfy`, `RetryBudget.dfy`, `Retries.dfy`, `Reachability.dfy`, `Confluence.dfy` | what holds of every run |
| `Matches.dfy`, `Ranking.dfy`, `Retrieval.dfy`, `RetrievalResults.dfy`, `RetrievalBudget.dfy`, `Orchestration.dfy`, `Selections.dfy`, `Speculation.dfy`, `RetrieverKeys.dfy` | merging and ranking, retriever plans under a budget, what they hand over, when the budget holds, strategies, what a node hands over, plans at once against plans in turn, retriever keys |
| `Chunking.dfy`, `Pages.dfy`, `DomainConfig.dfy`, `Csv.dfy`, `JsonFlattening.dfy`, `Autofix.dfy`, `StopProtocol.dfy` | the smaller algorithms |
| `Values.dfy`, `Text.dfy`, `Sequences.dfy` | dynamic values, string operations, sequences |

## How the outside world enters

* Nodes, hooks and retrieval injection are oracles in `Engine.World`. Calls are numbered through the whole run, so an
  answer may depend on everything that happened before; a theorem about all worlds covers every node and every hook.
* The knowledge service is an oracle per plan, query and attempt. Concurrent plans are a state machine whose steps are
  the stretches between two requests, in any order. A node's own `retrieveKnowledge` call checks and records the
  budget like a plan with one attempt, so it is one more participant of that machine.
* The execution row of the stop protocol is one shared status; every read and every write is one step, and the worker's
  accesses may fail. The queue delivers a job up to three times (apps/backend/src/queue/client.ts:24).
* Iteration over object entries is modelled in an arbitrary order.

## What turned out not to hold

* A cancel is not always the last word. It is, in every interleaving, exactly while the worker waits for the job, is
  about to write canceled itself, or has left (`StopProtocol.CancelLasts`). One that lands while the engine runs is
  replaced by the outcome of the run (`StopProtocol.CancelIsOverwritten`), unless another stop request that read the
  row earlier writes after it (`StopProtocol.LateStopWins`).
* Nodes can start after a cancel: when it falls between the worker's read and its write of `running`, and when the run
  then fails to be prepared, which writes `failed` over the cancel and has the job delivered again.
  `StopProtocol.NoStartAfterCancel` and `StopProtocol.NoStartAfterCancelUnreliably` say exactly when they cannot.
* The documentation says that retrieval budgets are enforced (docs/engine.md:76). Concurrent plans overrun the request
  limit by up to one less than their number, and such a run exists for every number of plans
  (`Retrieval.OverrunIsBounded`, `Retrieval.OverrunIsReached`). The limit is kept in all runs exactly if at most one plan
  runs (`RetrievalBudget.LimitKeptAlways`); for given counters, exactly under the condition of
  `RetrievalBudget.LimitKeptFrom`.
* A report hook that throws can leave two steps for a skipped node (`StepAccounting.ThrowingSkipReportDoublesStep`).
  The steps are one per node exactly under the condition of `StepAccounting.StepsNeedQuietReports`.
* Merging configurations is associative exactly under the condition `DomainConfig.Associates`, not always.
* The worker's second merge of the stored rows can change the queued configuration although no row has changed, because
  the worker reads the rows of every domain and the backend those of the default domain
  (`DomainConfig.ForeignRowExample`). It changes nothing exactly under the condition of
  `DomainConfig.SecondMergeChangesNothing`.
* The order in which the database returns rows of one scope, as rows of different domains may be, can matter for the
  configuration. It does not exactly if at every path the most specific rows that decide there agree
  (`DomainConfig.ResolveIgnoresRowOrder`).
* Numbered retriever keys can collide with keys given by hand: `a, a, a_2` becomes `a, a_2, a_2`
  (`RetrieverKeys.ThreeKeysCollide`). They are distinct exactly under the condition of `RetrieverKeys.NamesDistinct`, and
  exactly then adaptive ordering keeps all plans (`RetrieverKeys.OrderingKeepsAllPlans`).
* The chunker's loop ends exactly for texts that fit into one chunk and for overlaps below the chunk size
  (`Chunking.Halts`).
* Flattening loses a leaf exactly if two leaves with different values have paths that render alike, or if a path
  renders to `__proto__`, where a write goes to the prototype of the record, unless nulls are written there twice
  (`JsonFlattening.LosslessWithoutClash`). Keys with dots do the first (`JsonFlattening.DottedKeysLoseLeaf`), the key
  `__proto__` does the second (`JsonFlattening.ProtoKeyLosesLeaf`).
* The two mergers of retrieval matches agree exactly under the conditions of `Matches.MergersAgree`.
* When no plan is satisfied, speculative and sequential retrieval can hand over different results
  (`Speculation.UnsatisfiedFormsDiffer`). They agree exactly under the condition of `Speculation.UnsatisfiedFormsAgree`.

## Model

| member | source | states |
|---|---|---|
| Graph.ExecutionOrderUnique | packages/engine/src/dag-validator.ts:54-76 | The validator's order is fully determined: parents first, nodes in the order in which they became ready, ties by edge order and declaration order. No second order has these properties. |
| Graph.TopologicalIsAcyclic | packages/engine/src/dag-validator.ts:78-85 | A graph with an order that respects its edges has no cycle. |
| Graph.PredecessorsMakeCycle | packages/engine/src/dag-validator.ts:78-83 | Nodes that all wait for each other contain an actual cycle. |
| DagValidator.ValidateDag | packages/engine/src/dag-validator.ts:15-86 | Sound and complete: valid exactly if every edge joins known, different nodes and no cycle exists; the order then is the execution order, otherwise empty; the errors are the first fault of every faulty edge, or the cycle. |
| DagValidator.CheckEdges | packages/engine/src/dag-validator.ts:26-48 | Reports all faulty edges in order; without faults the adjacency lists and in-degrees count multi-edges as often as they occur. |
| DagValidator.ErrorsNameFaults | packages/engine/src/dag-validator.ts:26-48 | Every reported error names a fault that an edge has, and every edge's first fault is reported. |
| DagValidator.Kahn | packages/engine/src/dag-validator.ts:54-78 | The queue empties with all nodes exactly if there is no cycle, and then in first-ready-first order. |
| DagValidator.Release | packages/engine/src/dag-validator.ts:68-75 | Releasing the children of a finished node keeps the in-degree count and the queue's order. |
| DagValidator.StuckMeansCycle | packages/engine/src/dag-validator.ts:78-83 | An order that is too short means a cycle. |
| Waves.BuildExecutionWaves | packages/engine/src/execution-engine.ts:758-796 | For any order and edges the waves are the non-empty levels, lowest first, each in the order's sequence. |
| Waves.ExecutionOrderIsSorted | packages/engine/src/dag-validator.ts:64-76 | First come, first served is breadth first: the validator's order never goes down a longest-path level. |
| Waves.WavesAreExecutionOrder | packages/engine/src/execution-engine.ts:758-796 | Concatenating the waves gives back the execution order; wave l holds exactly the nodes whose longest incoming path has l edges. |
| Waves.LevelIsLongestPath | packages/engine/src/execution-engine.ts:774-783 | The computed level is the length of the longest path that ends in the node. |
| Waves.EdgesLeadToLaterWaves | packages/engine/src/execution-engine.ts:774-795 | Every edge leads to a strictly later wave. |
| Waves.WavesAreMinimal | packages/engine/src/execution-engine.ts:785-795 | No assignment of layers that respects the edges uses fewer layers than there are waves. |
| Branching.ResolveParentOutputs | packages/engine/src/execution-engine.ts:798-828 | Merges the outputs that matching edges carry, in edge order; skips a node with parents when nothing is carried. |
| Branching.ResolutionDependsOnParents | packages/engine/src/execution-engine.ts:803-813 | The merged input depends on the parents' outputs alone, not on when they were produced. |
| Branching.DecisionTakesOneBranch | packages/engine/src/execution-engine.ts:798-896 | Of two nodes behind the true and the false edges of a node, exactly the decided one runs; both are skipped when nothing was decided. |
| Branching.BranchesExcludeNodes | packages/engine/src/execution-engine.ts:798-874 | Nodes behind edges of one node with different textual conditions of one family never run together. |
| Conditions.ConditionMeans | packages/engine/src/execution-engine.ts:830-874 | Every kind of condition, said of the output's own fields: nothing asked, a boolean or true/false against `_condition.result`, `_evaluation.passed` and `result`, pass/fail, and routes against `_route`, `_branch.route` and `route`, each in this order. |
| Conditions.NodeInputMeans | packages/engine/src/execution-engine.ts:798-828 | A node with parents is skipped exactly if no edge's condition is met by its source's output; its input holds the keys of those outputs, each with the value of the last edge that gives it. |
| Conditions.PlainEdgeRuns | packages/engine/src/execution-engine.ts:835-851 | A node behind an edge that asks nothing, from a source with an output, runs and receives all keys of it. |
| ExecutionState.ExecutionContext.RegisterNodeRetry | packages/engine/src/execution-engine.ts:1148-1160 | Counts one retry, and one loop on request, and reports a broken limit. |
| ExecutionState.ExecutionContext.RecordRetrievalAttempt | packages/engine/src/execution-engine.ts:2177-2197 | Counts a request under one outcome and adds its non-negative duration. |
| RetryBudget.RepeatedOnlyIfConfigured | packages/engine/src/execution-engine.ts:1087-1117 | Whatever a node does, it is called again only if its configuration enables retries, in `retryPolicy` or else in the flat fields, and more than three times only if that also gives a larger number of attempts. |
| Executor.WorkflowRun.RunAttempts | packages/engine/src/execution-engine.ts:460-585 | The retry loop with directives, errors, exhaustion and limits broken inside its own try block ends like the specification of all attempts. |
| Executor.WorkflowRun.CatchAttempt | packages/engine/src/execution-engine.ts:539-578 | The catch block of an attempt: record it, register a retry where the policy allows one, go on while limits hold. |
| Executor.WorkflowRun.CatchNode | packages/engine/src/execution-engine.ts:598-653 | The catch block of a node: terminate, count a retry, record the failed step, end the run. |
| Executor.WorkflowRun.SkipStep | packages/engine/src/execution-engine.ts:230-263 | A skipped node is recorded and reported inside the try block of the node. |
| Executor.WorkflowRun.ExecuteStep | packages/engine/src/execution-engine.ts:587-706 | A completed node stores its output before control limits and termination are looked at. |
| Executor.WorkflowRun.Turn | packages/engine/src/execution-engine.ts:198-297 | One turn of the node loop: start hook, configuration, parents, retrieval, execution. |
| Executor.WorkflowRun.AppendSkippedSteps | packages/engine/src/execution-engine.ts:137-165 | Skips what stands behind a node in the execution order, although nodes run in wave order. |
| Executor.WorkflowRun.RunWaves | packages/engine/src/execution-engine.ts:186-714 | The wave loop with its early exits does what the specification does along the execution order. |
| Executor.ExecuteWorkflow | packages/engine/src/execution-engine.ts:122-750 | The whole run: steps, outputs, control record and status are those of the specification; an invalid graph runs nothing and fails. |
| StepAccounting.OneStepPerNode | packages/engine/src/execution-engine.ts:186-714 | With hooks that do not throw, every run records one step per node in execution order, at most one failed step, only skips after the step that ended the run, and fails exactly if a step failed or a limit was broken. |
| StepAccounting.StepsBeforeRefusal | packages/engine/src/execution-engine.ts:215-723 | When a start hook throws, the steps are those of the nodes before it and the run fails. |
| StepAccounting.ThrowingSkipReportDoublesStep | packages/engine/src/execution-engine.ts:248-249 | A run of two nodes whose second report throws records three steps, two of them for the skipped node. |
| StepAccounting.StepsNeedQuietReports | packages/engine/src/execution-engine.ts:186-714 | With start hooks that do not throw, the steps are one per node in order exactly if no report before the last one throws, and the last one does so only for a node that is not skipped in its own turn. |
| StepContents.StepsAreBacked | packages/engine/src/execution-engine.ts:264-706 | In every run a completed step holds the output that a call of the node returned for the recorded input, and that output is the one its successors see; the input is the trigger's fields below those the edges give, with what retrieval injected; failed and skipped nodes have no output. |
| Engine.LastNodeWins | packages/engine/src/execution-engine.ts:132 | Of several nodes with one id the last one is run. |
| RetryBudget.CallsOfOneNode | packages/engine/src/execution-engine.ts:460-579 | A node is called at least once, at most maxAttempts and ten times, and its repetitions fit into the shared allowance. |
| RetryBudget.CallsOfWholeRun | packages/engine/src/execution-engine.ts:460-676 | Over a run, calls are at most the number of nodes plus the retries left at the start, for any order of the nodes and even when hooks throw; with counters within limits no limit is broken when a node completes, so only a failure ends the run early. |
| Retries.PolicyMeans | packages/engine/src/execution-engine.ts:1087-1117 | Every part of the retry policy, said of the configuration: `retryPolicy` before the flat fields, three attempts with retries and one without unless a number is named, which is kept within one and ten. |
| Retries.AttemptsMean | packages/engine/src/execution-engine.ts:460-585 | Whatever a node replies: all replies but the last are of a kind that is repeated, each with its record; the node produces the data of the last one, or gives up because the attempts are used up, the last reply is not repeated or a limit broke. |
| Retries.RepetitionsHappen | packages/engine/src/execution-engine.ts:478-579 | After any number of repeated replies within the limits, a reply that asks for nothing more is the node's output after exactly one call more; patches and counted retries add up in the control record. |
| Retries.RetriesLeadToOutput | packages/engine/src/execution-engine.ts:478-579 | With errors or directives repeated j times, attempts left and room in the counters, a node produces its output after j + 1 calls, with j records before the completion, j retries and as many loops as were asked for. |
| Reachability.CompletedMeansReached | packages/engine/src/execution-engine.ts:230-263 | In a run without failure and termination a node completes exactly if data reaches it from a parentless node along matching edges; all others are skipped. |
| Confluence.SameOutputsInAnyOrder | packages/engine/src/execution-engine.ts:798-828 | For nodes that are functions of their merged input, any two orders that respect the edges give the same output map. |
| Confluence.WavesMayRunInAnyOrder | packages/engine/src/execution-engine.ts:185-198 | Members of a wave may run in any order without changing an output. |
| Confluence.EngineIsConfluent | packages/engine/src/execution-engine.ts:185-268 | The engine's outputs are those of every order that respects the edges. |
| Matches.MergeRetrieverMatches | packages/engine/src/execution-engine.ts:2087-2103 | The nested loops over results and matches compute the ranked, merged and limited list. |
| Matches.MergeMeetsSpecification | packages/engine/src/execution-engine.ts:2087-2103 | Distinct chunks, each with its best match over all retrievers, descending scores, as many as there are chunks or the limit between 1 and 50 allows, and nothing dropped beats what was kept. |
| Matches.ScoresIgnoreRetrieverOrder | packages/engine/src/execution-engine.ts:2092-2102 | For the same results in any order of the retrievers, the score at every rank is the same. |
| Matches.MergeMatches | packages/engine/src/nodes/knowledge-retrieve.ts:294-303 | The node's own merger computes the same ranked list. |
| Matches.MergersAgree | packages/engine/src/nodes/knowledge-retrieve.ts:253-265 | Cutting at the first branch's topK agrees with the engine's clamped limit for 1 to 50, and outside that range exactly under the stated conditions on the number of chunks. |
| Ranking.RankingIsDetermined | packages/engine/src/execution-engine.ts:2087-2103 | The ranking down to its ties: of every chunk the first of its best matches, better scores first, and of equal scores the chunk that was seen first. |
| Retrieval.RunRetrieverPlan | packages/engine/src/execution-engine.ts:1885-2085 | The nested attempt loops end with the outcome and the counters of the plan's state machine. |
| Retrieval.RequestsOfOnePlan | packages/engine/src/execution-engine.ts:1902-2014 | A plan makes at most two requests more than its retries, counts each under one outcome, keeps the request limit when it runs alone, and never throws when it may fail softly. |
| Retrieval.AloneIsUnlimited | packages/engine/src/execution-engine.ts:1912-1947 | A plan that no budget check stops answers what it answers without a budget. |
| RetrievalResults.FreePlanTells | packages/engine/src/execution-engine.ts:1902-2085 | What a plan hands over without a budget: its first sufficient answer to either query, with exactly the matches that score enough, in their order; otherwise the last answer and how few matches it has, or the last error. |
| RetrievalResults.PlanTells | packages/engine/src/execution-engine.ts:1911-2085 | A plan that runs alone hands over the same unless a check stopped it; then its record is empty. |
| RetrievalResults.PlanCounts | packages/engine/src/execution-engine.ts:1911-2014 | It makes its requests in order, each while all three budgets leave room, stops at the first sufficient answer, and counts each under what was answered and how long it took; a check stops it exactly if some budget leaves no room first. |
| RetrievalResults.AnswersAreCounted | packages/engine/src/execution-engine.ts:2177-2197 | Of plans that run at once, an answer counts one request with its non-negative duration under what was answered, and nothing else counts. |
| Retrieval.OverrunIsBounded | packages/engine/src/execution-engine.ts:1620-1629 | Over all interleavings of k plans the requests never exceed the limit by more than k - 1, and they are successes, empties and failures at every step. |
| Retrieval.OverrunIsReached | packages/engine/src/execution-engine.ts:1911-1976 | The bound is tight for every number of plans. |
| RetrievalBudget.LimitKeptAlways | packages/engine/src/execution-engine.ts:1620-1629 | The request limit is kept from all counters in all interleavings exactly if at most one plan runs. |
| RetrievalBudget.LimitKeptFrom | packages/engine/src/execution-engine.ts:1911-1976 | From given counters, when no other budget binds, all interleavings keep it exactly if at most one plan runs, nothing may be asked any more, or all that the plans ask fits. |
| RetrievalBudget.AmpleBudgetStopsNobody | packages/engine/src/execution-engine.ts:2162-2175 | When two requests more than its retries for every plan fit into all three budgets, no interleaving has a check stop a plan, and no limit is exceeded. |
| Orchestration.AdaptiveOrderingIsPermutation | packages/engine/src/execution-engine.ts:1843-1869 | Reordering loses no plan exactly if no two plans share the preferred key. |
| RetrieverKeys.Deduplicate | packages/engine/src/execution-engine.ts:1374-1387 | The pass over the enabled retrievers with its map of seen keys gives the n-th one of a key its number. |
| RetrieverKeys.NamesDistinct | packages/engine/src/execution-engine.ts:1374-1387 | The numbered keys are distinct exactly if no given key is the name that a repetition of another key gets. |
| RetrieverKeys.ThreeKeysCollide | packages/engine/src/execution-engine.ts:1374-1387 | The keys a, a, a_2 become a, a_2, a_2. |
| RetrieverKeys.OrderingKeepsAllPlans | packages/engine/src/execution-engine.ts:1843-1869 | With a plan for every retriever, reordering keeps all plans for every preferred key exactly if there is no such collision. |
| Orchestration.SelectBestScoreResult | packages/engine/src/execution-engine.ts:2105-2130 | Finds the first run that no other beats by top score, then by number of matches; none if all are empty. |
| Orchestration.CollectInTurn | packages/engine/src/execution-engine.ts:1620-1629 | Sequential collection runs all plans in order on the shared counters. |
| Orchestration.CollectAtOnce | packages/engine/src/execution-engine.ts:1620-1629 | Speculative collection ends, under any schedule, with the records and counters of an interleaving in which every plan is through. |
| Orchestration.RunUntilSatisfied | packages/engine/src/execution-engine.ts:1747-1778 | The sequential loop stops at the first satisfied plan, leaves the budget of the later ones alone and otherwise hands over the last result or error. |
| Orchestration.RunNodeRetrieval | packages/engine/src/execution-engine.ts:1570-1779 | Retrieval per strategy, in turn or at once: a single plan, merged, best score, first satisfied. |
| Selections.NodeRetrievalTells | packages/engine/src/execution-engine.ts:1570-1779 | For every strategy, what is handed over and when an error is raised, said of the runs: merge keeps the best match of every chunk of all runs in descending order up to the limit, best-score the run that no other beats, first-non-empty and adaptive the first satisfied one, a single plan its own. |
| Selections.GatheredTell | packages/engine/src/execution-engine.ts:1605-1629 | Behind it, every run of a plan in turn or at once is what the service's answers make of it, or was stopped by a budget check. |
| Selections.AdaptiveOrderingMeans | packages/engine/src/execution-engine.ts:1843-1869 | The first plan with the preferred key goes first, the plans with other keys follow in their order; without such a plan nothing moves. |
| Orchestration.SoftPlansRun | packages/engine/src/execution-engine.ts:1605-1618 | Plans of the multi-plan strategies never throw. |
| Orchestration.RetrievalKeepsBudget | packages/engine/src/execution-engine.ts:1620-1764 | From any counters, sequential retrieval does not go beyond the request limit and speculative retrieval by at most one less than the number of plans, whatever the strategy; counters beyond that stay where they are. |
| Orchestration.RunKeepsBudget | packages/engine/src/execution-engine.ts:1911-1947 | Over all nodes of a run with at most k plans each, requests exceed the limit by at most k - 1; overruns do not add up. |
| Orchestration.RunInTurnIsDetermined | packages/engine/src/execution-engine.ts:1570-1779 | A run whose nodes retrieve in turn leaves the same counters behind every node each time: selection and counters follow from configuration, plans, service and the counters before, for best-score because at most one run is the best. |
| Speculation.SpeculationRefinesSequence | packages/engine/src/execution-engine.ts:1720-1764 | First-non-empty and adaptive, in every interleaving: with f the first retriever satisfied without a budget, either form selects f exactly if no check stopped f in it, whatever became of the others, and then both hand over the same result; without such a retriever neither selects one. |
| Speculation.AmpleBudgetRefines | packages/engine/src/execution-engine.ts:1620-1764 | With a budget that the most requests of all plans fit into, every interleaving gathers the very runs of the sequential form, so every strategy selects the same when some plan is satisfied, and merge and best-score always. |
| Speculation.UnsatisfiedFormsAgree | packages/engine/src/execution-engine.ts:1734-1778 | Without a satisfied and without a stopped plan the two forms agree exactly if the first and last results are equal or, where errors are insisted on, if the first plan that insists has the error of the last plan. |
| Speculation.UnsatisfiedFormsDiffer | packages/engine/src/execution-engine.ts:1734-1778 | Two plans without a match, run both ways, for which the results differ. |
| Chunking.NormalizeIsSparse | packages/utils/src/knowledge.ts:26-28 | A normalised text has no adjacent spaces and no trailing one. |
| Chunking.NormalizeJoinsWords | packages/utils/src/knowledge.ts:26-28 | Normalising joins the words of a text by single spaces and leaves nothing else. |
| Chunking.EveryTextHasLayout | packages/utils/src/knowledge.ts:26-28 | Every text is laid out from words with white space around and between them. |
| Chunking.ChunkText | packages/utils/src/knowledge.ts:20-51 | Wherever the window loop ends, it yields one chunk per window that is not blank. |
| Chunking.ChunksCoverText | packages/utils/src/knowledge.ts:30-50 | With overlap below size and size at least 2: exactly 1 + ceil(max(0, n - size) / (size - overlap)) chunks, chunk k at k steps, every position covered, and the text reassembled from the slices. |
| Chunking.Halts | packages/utils/src/knowledge.ts:34-48 | The loop ends exactly if the text fits into one chunk or the overlap is below the size. |
| Pages.ChunkDocumentByPage | apps/worker/src/handler.ts:1540-1571 | The page loop moves every page's chunks to the page's base with running indices. |
| Pages.PageStandsAtBase | apps/worker/src/handler.ts:1541-1567 | The cumulative offset of a page is its place in the document. |
| Pages.PagesAreSeparated | apps/worker/src/handler.ts:1540-1545 | No page holds a form feed, and one stands before every page but the first. |
| Pages.DocumentChunksWellPlaced | apps/worker/src/handler.ts:1540-1571 | Indices are contiguous, starts strictly increase across pages, and every chunk stays inside the page it names. |
| Pages.ChunksShowTheirPage | apps/worker/src/handler.ts:1545-1567 | Every chunk shows the part of its page's normalised text that its offsets name, seen from the page's base. |
| Pages.ChunksCoverEveryPage | apps/worker/src/handler.ts:1545-1567 | No position of any page's normalised text is left out. |
| DomainConfig.DeepMerge | apps/worker/src/handler.ts:838-862 | The loop over the overlay's entries, in any order, computes the recursive merge. |
| DomainConfig.MergedLeaves | apps/backend/src/services/execution.service.ts:554-578 | At every path the leaves of a merge are those of the overlay and those of the base that the overlay neither replaces nor blocks, and no others. |
| DomainConfig.AbsorbedMeansUnchanged | apps/backend/src/services/domain-config.service.ts:203-227 | A merge changes nothing exactly if the overlay already contains the base's keys at every level. |
| DomainConfig.MergeAbsorbs | apps/backend/src/services/domain-config.service.ts:203-227 | a + (a + b) = a + b for all records. |
| DomainConfig.MergeAssociative | apps/backend/src/services/domain-config.service.ts:160-163 | Merging is associative exactly under the structural condition Associates. |
| DomainConfig.AgreementAssociates | apps/backend/src/services/domain-config.service.ts:160-163 | It is associative for records that agree on which keys hold records. |
| DomainConfig.MergeIsNotAssociative | apps/backend/src/services/domain-config.service.ts:203-227 | A concrete triple for which the order of merging matters. |
| DomainConfig.SecondMergeChangesNothing | apps/worker/src/handler.ts:743-784 | The worker's merge leaves the queued configuration as it is exactly if that already holds, at every level, the keys of all rows of every domain that the worker reads. |
| DomainConfig.DefaultRowsChangeNothing | apps/backend/src/services/execution.service.ts:185-195 | So it does when the rows are unchanged and all of the default domain, if the database returns them in the same order or that order does not matter. |
| DomainConfig.ForeignRowChangesConfig | apps/worker/src/handler.ts:751-765 | A key that only a row of another domain holds gets into the worker's configuration although it was not queued. |
| DomainConfig.ForeignRowExample | apps/worker/src/handler.ts:751-784 | Two unchanged rows of one user for which the second merge changes the configuration. |
| DomainConfig.ResolveIgnoresRowOrder | apps/backend/src/services/domain-config.service.ts:154-164 | For any number of rows, the resolved configuration is the same in every order of the rows exactly if at every path the most specific rows that decide there agree; one row per scope is enough for that. |
| DomainConfig.MostSpecificWins | apps/backend/src/services/domain-config.service.ts:154-164 | At every path the row that outranks all others that decide there has its way: rows of a workflow before others, among equals those of a user. |
| DomainConfig.NoRowNoValue | apps/backend/src/services/domain-config.service.ts:154-164 | Where no row decides nothing stands. |
| DomainConfig.ConfigPrecedence | apps/backend/src/services/execution.service.ts:185-195 | The profile of a run wins over the stored rows of the default domain, and the queued configuration over what the worker reads. |
| Csv.ParseCsvLine | packages/engine/src/nodes/file-upload.ts:145-168 | The character loop with its look-ahead computes the scanner's fields. |
| Csv.LineRoundTrip | packages/engine/src/nodes/file-upload.ts:145-168 | A line written by items 5 to 7 of section 2 of RFC 4180 parses to its fields, for all fields, any delimiter but the quote and any choice of optional quotes. |
| Csv.PiecesParse | packages/engine/src/nodes/file-upload.ts:145-168 | Beyond those rules, quotes may open and close anywhere in a field: the parts are put together. |
| JsonFlattening.Flattener.Walk | packages/utils/src/security.ts:82-111 | The walk writes every kept leaf once under its rendered path, a write to `__proto__` going to the prototype. |
| JsonFlattening.FlattenJson | packages/utils/src/security.ts:71-118 | The walk from the root, with a container without entries returned as it is. |
| JsonFlattening.RenderInjective | packages/utils/src/security.ts:97-109 | Clean paths have distinct renderings. |
| JsonFlattening.FlatteningIsLossless | packages/utils/src/security.ts:71-118 | For clean keys every kept leaf but one at the root's key `__proto__` is found under its rendered path, nothing is lost exactly if there is no such leaf, every entry is a kept leaf and no two leaves share one. |
| JsonFlattening.KeptLeavesFitDepth | packages/utils/src/security.ts:82-83 | The kept leaves are exactly those whose path is no longer than the depth limit. |
| JsonFlattening.LosslessWithoutClash | packages/utils/src/security.ts:71-118 | For every value: all kept leaves are found under their rendered paths exactly if no two with different values have paths that render alike and none is lost at `__proto__`; every entry is a kept leaf. |
| JsonFlattening.DottedKeysLoseLeaf | packages/utils/src/security.ts:107-109 | A value with a dotted key of which a leaf is lost. |
| JsonFlattening.ProtoKeyLosesLeaf | packages/utils/src/security.ts:84-91 | A value with the key `__proto__` of which that leaf is lost. |
| Autofix.WorkflowGraph.ApplyRexFixes | apps/backend/src/services/rex-autofix.service.ts:131-184 | Edits nodes and edges in place, action by action; an unknown target changes nothing. |
| Autofix.RecognisedIsNamed | apps/backend/src/services/rex-autofix.service.ts:141-147 | An action is applied exactly if the list names it; duplicates are applied once. |
| Autofix.FixesKeepValidity | apps/backend/src/services/rex-autofix.service.ts:149-177 | With new helper ids the validator accepts the edited graph exactly if it accepted the original. |
| Autofix.FixesAddOnly | apps/backend/src/services/rex-autofix.service.ts:149-177 | Old nodes and edges keep their place, only the target's configuration grows, and every action shows its effect. |
| Autofix.NamedActionsShow | apps/backend/src/services/rex-autofix.service.ts:65-74 | Every action that the list names shows: the right kind of helper, marked, on the right side of the target, or the flag. |
| Autofix.OneHelperForEachName | apps/backend/src/services/rex-autofix.service.ts:141-147 | As many helpers are added as inserting actions are named, however often. |
| Autofix.AppliedInOrder | apps/backend/src/services/rex-autofix.service.ts:141-149 | The actions are applied in the order in which they are first named. |
| StopProtocol.NoStartAfterCancel | apps/worker/src/handler.ts:198-201 | Once canceled is in the row, no node passes its start check and at most one still runs, in every interleaving, exactly unless the worker is between its read and its write of running, or is preparing or failing with a delivery left. |
| StopProtocol.NoStartAfterCancelUnreliably | apps/worker/src/handler.ts:252-294 | When accesses to the row may fail, exactly if the worker waits, is about to write canceled or has left, or no delivery is left and running is already written. |
| StopProtocol.LostCancelIsReachable | apps/worker/src/handler.ts:81-97 | A complete stop request falls between the worker's read and its write of running, and a node starts. |
| StopProtocol.RepeatedCancelIsReachable | apps/worker/src/handler.ts:281-294 | A preparation that fails after a complete stop request writes failed over it, the job is delivered again and a node starts. |
| StopProtocol.CancelLasts | apps/worker/src/handler.ts:81-97 | Canceled stays in the row, in every interleaving, exactly if the worker waits for the job, is about to write canceled itself or has left. |
| StopProtocol.CancelIsOverwritten | apps/worker/src/handler.ts:234-242 | A cancel that lands while the engine runs, with no other stop request under way, stands in the row exactly until the worker writes its outcome. |
| StopProtocol.CancelUnderwayIsReachable | apps/backend/src/services/execution.service.ts:256-271 | A complete stop request lands there. |
| StopProtocol.LateStopWins | apps/backend/src/services/execution.service.ts:256-271 | After the worker has left, the row can still become canceled exactly if it is, is not final, or a stop request that read it earlier has not written yet. |
| StopProtocol.RefusedStartEndsFailed | packages/engine/src/execution-engine.ts:715-723 | After a refused start check, with no other stop request under way, every continuation leaves canceled in the row until the worker has left and failed from then on. |
| StopProtocol.NodesRunOneAtATime | apps/worker/src/handler.ts:87-97 | In every reachable state, over all deliveries of the job, at most one node runs, none has started before the row says running, and completed is written last. |
| StopProtocol.ThreeDeliveries | apps/backend/src/queue/client.ts:24 | A job that keeps failing is delivered three times and not a fourth time. |
| StopProtocol.StartedOnce | apps/worker/src/handler.ts:266-294 | While accesses to the row succeed, a job whose nodes have started is never delivered again. |

## Left out

- Persistence, queues, HTTP routes, logging, timestamps, sleeps and context-update events: effects outside the algorithms.
- Retrieval injection inside a run: the executor takes its effect on the input as an oracle; the orchestration is modelled on its own.
- Memory and knowledge of the execution context: only the control and the retrieval counters are kept, and retry outcomes written to memory are not part of this model.
- Values of a control patch that are not numbers or booleans, and numbers that are not finite: the model's fields are typed.
- Parsing of retrieval configurations and query templates: plans are taken as parsed records, and retriever keys as trimmed strings.
- Text.ToLower: folds ASCII letters only, because Unicode case folding is not part of this model.
- Retrieval errors: a budget error does not tell which of the three limits was reached.
- Chunking.ChunkText: takes sizes that are not negative, and only inputs for which the loop ends.
- Pages.ChunkDocumentByPage: offsets inside a page count the normalised text, as in the source, and section paths are not part of this model.
- Whole CSV files: lines and fields are trimmed there, so only the line scanner has a round trip.
- Loading of stored graphs before an autofix (apps/backend/src/services/rex-autofix.service.ts:95-106), which keeps sources and targets of edges and drops their ids and conditions.
- Workers that die without an exception and jobs the queue then takes for stalled, writes that take effect although they report an error, deletion of an execution, and corpus status under concurrent ingestion.
- DomainConfig.DeepMerge: an own key `__proto__` is an ordinary key here; in the source its assignment reaches the prototype.
- Branching.ResolveParentOutputs: the same holds for `Object.assign` and an output's own key `__proto__`.
- JsonFlattening.FlattenJson: the prototype that a write to `__proto__` gives the record is not part of the result, only its entries are.
- UTF-16: texts are sequences of Unicode scalar values, so offsets and chunk sizes agree with the source's for texts without surrogate pairs.
- Scores as floating-point numbers, embeddings, detectors, encryption, access control and scheduling.

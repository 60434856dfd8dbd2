# Control logic of the agent platform, modelled and proved in Dafny

The platform runs language-model agents: a scheduler starts worker processes, a workflow engine
drives each request through a graph of nodes with refinement loops, an orchestrator splits an issue
into children and collects their results, and pools and stores serve all of them. This project models
that control logic and proves what it promises over whole runs. Everything that comes from outside
(critic scores, cache answers, failing calls, exit codes, memory readings, clocks, what workers do) is
an arbitrary input. `dafny verify dfyconfig.toml` checks all of it.

## What is modelled

- **Scheduler** (`Entries`, `Heap`, `PriorityQueues`, `SchedulerHistory`, `Schedulers`). Python's
  `heapq` is written out on lists of entry tuples. The heap with its set of queued roles is proved to
  be a role-keyed set served by class, age and name. The scheduler keeps a ghost history of events; its tables
  are proved equal to folds over the history, and the history to keep laws from which follow the slot
  limit, the account of every process, and the backoff between a role's failures and its next start.
- **Workflow** (`WorkflowEngine`, `Decisions`, `AgentGraph`, `StepBudget`, `WorstCase`,
  `SubTaskRuns`). Nodes are arbitrary functions of the shared state that write only the fields their
  source writes (`MayTurn`). A budget for each place in the graph falls with every step, which bounds
  every run; a concrete set of nodes uses the bound up, so it is exact.
- **Sub-tasks, twice** (`SubTaskOutcome`, `SequentialSubtasks`, `ParallelSubtasks`, `SubTaskAgreement`,
  `Router`). Both the sequential loop of the graph and the thread pool are proved against one function
  of the critic scores, for every order in which workers finish, and to agree under exact conditions.
- **Orchestrator** (`RetryMarker`, `IssueTracker`, `Orchestrator`, `Rebalancing`). The tracker is an
  object whose every call may raise, with or without having been applied. Ghost counters record resets
  and lost markers, which stay in balance over any run of heartbeats. Liveness is a statement about
  sequences of heartbeats. A rebalancing is a replay of its attempts, so loads are those on the tracker.
- **Backend pool** (`CircuitBreaker`, `BackendPools`), **cache** (`ArtifactStores`), **messages**
  (`MessageThreads`, `MessageStores`, `ReadMarks`), **score fusion** (`ScoreFusion`), **chat
  splitter** (`ChatChunks`). `Eviction` orders rows by age and chooses the oldest for both stores,
  `Distinctness` is about permutations of duplicate-free lists, `Numbers` and `Options` hold the usual
  helpers.

## Where the code differs from its own description

The code is followed in each case; the members named state the difference.

- Parallel workers get the plain quality threshold only: triage's effective threshold is dropped, so
  they agree with the sequential loop exactly when the two are equal
  (`SubTaskAgreement.NodesAgreeIff`).
- A half-open circuit is described as letting one probe through; it lets all requests through until one
  ends (`CircuitBreaker.HalfOpenAdmitsAll`, `CircuitBreaker.AllProbesAdmitted`). A limit below one opens the
  circuit at the first failure but not before (`CircuitBreaker.ClosedIffBelowLimit`).
- The last decomposition rule is meant to catch all types and does not (`Router.NoRuleApplies`).
- A poll aggregates partial results as soon as one child is given up, even while others are in progress
  (`Orchestrator.ParentSettledEarlyIff`, `Orchestrator.ParentFinishesBeforeChildren`).
- The unread search takes an underscore in an agent name for any character, and can match across two
  names (`ReadMarks.SearchIsMembershipIff`, `ReadMarks.UnderscoresMatchBetweenNames`).
- `send` accepts a reply as parent, after which a thread depends on the member asked
  (`MessageThreads.InsertKeepsPartitionIff`).
- An agent counts as idle for rebalancing, described as having all its tasks done, when one of them is
  done and none is todo, and this is read from the list fetched before the poll, in which a child just
  retried is still blocked. So a poll can raise the maximum load (`Orchestrator.StaleListRaisesMaximum`),
  and keeps it exactly when no such agent holds it or nobody is backlogged
  (`Orchestrator.PollKeepsMaximumIff`, `Rebalancing.MaximumKeptIff`).
- A move whose comment raises is not counted, so failed calls can let more than the two tasks of the limit
  move (`Rebalancing.ThreeTasksMove`). The limit holds whatever fails exactly when nobody is backlogged or
  at most two agents are idle (`Rebalancing.MoveLimitIff`).
- A child is described as failed only when its retries are definitely used up. It also counts as failed when
  resetting it raised, although it may by then be todo, and the parent is settled
  (`Orchestrator.EvaluateChildren`, `Orchestrator.FailedThoughNotExhausted`, `Orchestrator.PollChildren`).
- A single line of exactly the maximum length makes a chunk one character too long, its newline
  (`ChatChunks.LineOfTheLimitIsTooLong`); shorter lines never do
  (`ChatChunks.ChunksFitIffLinesAreShorter`).

## Model

| member | source | states |
|---|---|---|
| `Entries.BeforeIsTotal` | agents/scheduler.py:63-80 | entry tuples (priority, created_at, role, agent_id) are totally ordered, so the queue has one next entry |
| `Entries.BeforeIsTransitive` | agents/scheduler.py:63-80 | the tuple order is transitive |
| `Entries.StringLessMeaning` | agents/scheduler.py:79 | roles compare as Python compares strings: the first difference decides, and a proper prefix is smaller |
| `Entries.PriorityMeaning` | agents/scheduler.py:38-57 | class 0 is the cto alone, class 1 the four senior engineers, class 2 everybody else |
| `Entries.BeforeIsOrderOfService` | agents/scheduler.py:38-88 | in the tuple order the cto comes before the senior engineers and these before all others, and within a class the older request, ties by role |
| `Heap.RootIsLeast` | agents/scheduler.py:82-98 | the root of a binary heap comes after no other entry |
| `Heap.SiftDown` | agents/scheduler.py:74-80 | moving a new entry towards the root restores the heap and keeps the multiset of entries |
| `Heap.SiftUp` | agents/scheduler.py:82-98 | refilling the root restores the heap and keeps the multiset of entries |
| `Heap.HeapPush` | agents/scheduler.py:74-80 | `heappush` keeps a heap and adds exactly the entry |
| `Heap.HeapPop` | agents/scheduler.py:82-98 | `heappop` keeps a heap and takes out exactly one entry, one no other comes before |
| `PriorityQueues.PriorityQueue.Push` | agents/scheduler.py:74-80 | on the role-keyed set the queue stands for: adds the role unless it is queued, the first enqueue wins; the heap holds exactly one entry per queued role |
| `PriorityQueues.PriorityQueue.Pop` | agents/scheduler.py:82-98 | takes out an entry such that every one left has a larger priority number, or the same and a later request, or the same time and no smaller role; or reports an empty queue |
| `PriorityQueues.PushKeepsOnePerRole` | agents/scheduler.py:74-80 | pushing a role that is not queued keeps one entry per role |
| `PriorityQueues.PopKeepsOnePerRole` | agents/scheduler.py:82-98 | the popped entry is gone for good and no other entry shares its role |
| `SchedulerHistory.PrefixIsLawful` | agents/scheduler.py:468-479 | every event of a lawful run was allowed by the tables at its moment |
| `SchedulerHistory.SlotsNeverExceeded` | agents/scheduler.py:414-427 | at every moment of every run at most `max_slots` processes are active |
| `SchedulerHistory.EveryProcessAccountedFor` | agents/scheduler.py:189-264 | every spawned process is either active or ended exactly once; no table entry overwrites a live process |
| `SchedulerHistory.TablesCountFailures` | agents/scheduler.py:112-130 | the health table holds the failed or timed-out processes of a role since its last success |
| `SchedulerHistory.LastFailureInTables` | agents/scheduler.py:117-126 | the recorded time is that of the last failure since the last success |
| `SchedulerHistory.NoFailuresSinceSuccess` | agents/scheduler.py:117-130 | the count is 0 exactly when every failure was followed by a success |
| `SchedulerHistory.BackoffIsServed` | agents/scheduler.py:135-157 | a role with k >= threshold failures in a row starts again no earlier than min(base * 3^(k - threshold), max) minutes after the last of them |
| `SchedulerHistory.ReadyIffServed` | agents/scheduler.py:135-157 | a role that failed since its last success is ready exactly when it has fewer failures than the threshold, or base * 3^(k - threshold) minutes or the maximum have passed since the last failure |
| `SchedulerHistory.BackoffAtDefaults` | agents/scheduler.py:135-148 | at 3 failures, 5 and 60 minutes: no pause below the third failure in a row, then 5, 15, 45 and always 60 minutes |
| `SchedulerHistory.LatchMeaning` | agents/scheduler.py:449-464 | spawning is paused exactly when some reading reached the threshold and none since fell below the resume level |
| `Schedulers.AgentHealth.RecordSuccess` | agents/scheduler.py:117-120 | forgets the failures of the role |
| `Schedulers.AgentHealth.RecordFailure` | agents/scheduler.py:122-125 | counts one more failure of the role, at the current time |
| `Schedulers.AgentHealth.IsReady` | agents/scheduler.py:150-157 | true exactly when the role has fewer failures than the threshold, no recorded time, or min(base * 3^(k - threshold), max) minutes behind it |
| `Schedulers.SubprocessPool.Spawn` | agents/scheduler.py:189-225 | registers a new process for the role, or nothing when starting it raises |
| `Schedulers.SubprocessPool.Reap` | agents/scheduler.py:227-241 | removes exactly the processes with an exit code, each reported once with that code |
| `Schedulers.SubprocessPool.KillTimedOut` | agents/scheduler.py:243-264 | removes exactly the processes older than the timeout, each reported once |
| `Schedulers.Scheduler.ActiveProcessesFitTheSlots` | agents/scheduler.py:331-479 | what the invariant gives in every state: active processes fit the slots, queued and running roles are disjoint, the failure count is that of the history |
| `Schedulers.Scheduler.HandleFinished` | agents/scheduler.py:431-439 | every process with an exit code is booked once, as success for code 0 and failure otherwise, and leaves the table; nothing else is booked or leaves |
| `Schedulers.Scheduler.HandleTimeouts` | agents/scheduler.py:441-445 | every process overdue at the time of the check is booked once as timed out and leaves the table; nothing else is booked or leaves |
| `Schedulers.Scheduler.CheckMemoryPressure` | agents/scheduler.py:449-464 | the latch equals the fold over all readings |
| `Schedulers.Scheduler.EnqueuePending` | agents/scheduler.py:394-412 | queues every pending role that by the tables of the history is neither running nor in backoff, and nothing but pending roles that were not queued, each with its poll time |
| `Schedulers.Scheduler.SpawnFromQueue` | agents/scheduler.py:414-427 | ends with an empty queue or full slots; what is taken is served in order, cto, senior engineers, others, older requests first, and before everything left; the table grows by exactly the processes started |
| `Schedulers.Scheduler.Tick` | agents/scheduler.py:468-479 | over the processes active before: each with an exit code ends once as its code says, each other overdue one once as timed out, no other ends and those stay in the table; in an unpaused cycle every role with work that is neither running nor in backoff waits, what is spawned is served before what is left, and the queue ends empty or the slots full; a paused cycle queues and spawns nothing |
| `Schedulers.Scheduler.Run` | agents/scheduler.py:483-502 | every cycle of the run does with its input what `Tick` promises, one after the other; the shutdown then ends each process still active, once |
| `Schedulers.Scheduler.Stop` | agents/scheduler.py:498-502 | shutdown ends every active process once, does nothing else, and empties the table |
| `WorkflowEngine.CompiledWorkflow.Invoke` | agents/graph_engine.py:222-250 | runs as the step relation says, to the end, to an error or to the step limit |
| `WorkflowEngine.CompiledWorkflow.Stream` | agents/graph_engine.py:252-285 | runs like `invoke` and hands out each node with the state it left |
| `WorkflowEngine.RunIsAfter` | agents/graph_engine.py:222-250 | a limited run is the unlimited one unless that is still under way at the limit, and then the recursion error |
| `WorkflowEngine.WhereNodesLead` | agents/graph_engine.py:222-250 | a conditional edge is followed even where there is a linear one, an answer without a route is an error, and a node without edges ends the run |
| `WorkflowEngine.YieldsAreSteps` | agents/graph_engine.py:252-285 | the k-th output of a stream is the k-th node of the run and the state it left |
| `WorkflowEngine.Workflow.Compile` | agents/graph_engine.py:71-98 | fails exactly when the entry point is missing or unknown |
| `Decisions.ShouldApproveOutput` | agents/decision_functions.py:48-99 | approved exactly when the score reaches the effective threshold, or the plain one; to be refined exactly when not, with a score of 60 or more and an attempt left; failed otherwise; the attempt is counted and the gate value says which case it was |
| `Decisions.ShouldApproveSubOutput` | agents/decision_functions.py:155-211 | the same for the current sub-task, which is then completed, failed, or left to refine with one more iteration; nothing happens behind the last sub-task |
| `Decisions.HasMoreSubtasks` | agents/decision_functions.py:236-269 | moves past a current sub-task that is completed or failed, counts a completed one, and answers whether any is left |
| `Decisions.ShouldUseLlmCritic` | agents/decision_functions.py:214-233 | approves with the heuristic score exactly when the heuristic critic passed, and changes nothing otherwise |
| `Decisions.SubOutputAndMoreCheck` | agents/graph.py:96-126 | answers refine exactly for a refinable current sub-task, next when another one follows, aggregate otherwise |
| `Decisions.SubLoopGateWithTask` | agents/graph.py:96-126 | the combined gate judges the current sub-task and moves on exactly when it is not to be refined |
| `Decisions.SubLoopGateKeepsInvariant` | agents/decision_functions.py:155-269 | the index splits settled from open sub-tasks and the counter counts the completed ones, or the loop ends with all settled and counted |
| `Decisions.SubLoopGateSpendsAnAttempt` | agents/graph.py:96-126 | every pass that stays in the loop uses up one of the attempts left |
| `Decisions.CompletedAreCounted` | agents/parallel_subtasks.py:250-252 | the count of completed sub-tasks is the number of positions with that status |
| `AgentGraph.CreateAgentGraph` | agents/graph.py:206-447 | adding the nodes and edges call by call yields a graph with every node and exactly the listed edges, the entry `router` and the default step limit, and fails exactly when a wrapper is missing |
| `AgentGraph.TablesAgreeWithSuccessor` | agents/graph.py:298-447 | the edge tables route every decision of every gate, as listed node by node |
| `AgentGraph.ChoicesLead` | agents/graph.py:298-447 | where each conditional edge leads, from the fields of the state: scores, thresholds, attempts, flags |
| `AgentGraph.OnlyApprovedOutputIsFormatted` | agents/graph.py:298-447 | over every run the formatter is entered only from the cache with a hit, from a heuristic critic that passed, or from a quality gate with a score that reaches the threshold |
| `StepBudget.FreshAttempts` | agents/router.py:446-477 | fresh sub-tasks have (number of tasks) x (iterations) attempts |
| `StepBudget.WorkKeepsAttempts` | agents/specialist_nodes.py:500-512 | working on the current sub-task leaves the attempts left as they were |
| `StepBudget.EveryStepIsCheaper` | agents/graph.py:298-447 | whatever a node and the gate after it do, the budget of the place reached is smaller |
| `StepBudget.FinishesWithinBudget` | agents/graph_engine.py:222-250 | from every place every run finishes without error within its budget, whatever critics, cache and clarifications say |
| `StepBudget.RouterRunsFitTheEngine` | agents/graph_engine.py:127 | with at most 5 sub-tasks and 3 iterations every limit of at least 41 nodes is enough, and the engine's is 50 |
| `WorstCase.SlowStepCostsOne` | agents/graph.py:298-447 | the slowest well-behaved nodes lower the budget by exactly one per step |
| `WorstCase.SlowestNodesAreWellBehaved` | agents/graph.py:298-447 | the slowest nodes keep to the contract all nodes are held to |
| `WorstCase.LimitIsEnoughIffAtLeastTheBudget` | agents/graph_engine.py:127 | a step limit is never hit exactly when it is at least max(9 + 5M, 11 + 2NM), for every N and M, each product counted as at least one attempt |
| `SubTaskRuns.EveryPlaceKeepsLoopInvariant` | agents/decision_functions.py:155-269 | over every run: in the loop the index is the length of the settled prefix, the rest is open, the counter is right, each settled sub-task was settled by its last score; at the aggregator all are settled |
| `SubTaskRuns.RecountAgrees` | agents/aggregator.py:62-91 | the aggregator's recount never changes the loop's counter |
| `SubTaskOutcome.SettledByFirstFinalAttempt` | agents/decision_functions.py:155-211 | a sub-task is settled by its first attempt that is good, too low or the last one |
| `SubTaskOutcome.SettledIgnoresText` | agents/decision_functions.py:155-211 | only id, iteration count and limit of a sub-task matter for its fate |
| `SequentialSubtasks.LoopSettles` | agents/graph.py:396-421 | entered with the clarification flag clear and specialists that do not raise it, the sequential loop reaches the aggregator with every sub-task settled as its scores say |
| `ParallelSubtasks.RunSingleSubtask` | agents/parallel_subtasks.py:67-133 | returns what attempts up to the limit make of the private state |
| `ParallelSubtasks.CollectResults` | agents/parallel_subtasks.py:195-252 | in every order of completion each index gets the result of its own worker, or a failed copy when that raised or was not done before the wait ended |
| `ParallelSubtasks.ExecuteParallelSubtasks` | agents/parallel_subtasks.py:136-279 | every sub-task becomes its worker's result or a failed copy, the index is the length, the counter counts completed ones, and the questions of all waiting sub-tasks are passed on, in order |
| `ParallelSubtasks.WorkerSettles` | agents/parallel_subtasks.py:104-133 | a worker whose specialist does not raise the clarification flag settles its sub-task as the scores say against the plain threshold |
| `ParallelSubtasks.NoIterationsNoWork` | agents/parallel_subtasks.py:104 | a sub-task without iterations is handed back untouched |
| `ParallelSubtasks.ClarificationEndsWorker` | agents/parallel_subtasks.py:104-133 | a worker whose specialist asks for clarification hands back the sub-task as the specialist left it |
| `ParallelSubtasks.QuestionsMeaning` | agents/parallel_subtasks.py:254-270 | the questions are exactly those parsed from sub-tasks that wait for clarification |
| `ParallelSubtasks.RanAloneIsFate` | agents/parallel_subtasks.py:67-133 | texts aside, what a worker hands back is the sub-task settled against the plain threshold, or the sub-task itself when it is allowed no iteration |
| `SubTaskAgreement.ParallelAgreesWithSequential` | agents/parallel_subtasks.py:195-279 | for the same scores and threshold the sequential loop arrives at the aggregator with the sub-tasks (texts aside), index and counter of the parallel node, for any list of sub-tasks |
| `SubTaskAgreement.AgreementIffSameThreshold` | agents/parallel_subtasks.py:41-63 | the two fates of one open sub-task agree for all scores exactly when an iteration is allowed and the effective threshold is the plain one, which is all the workers are given |
| `SubTaskAgreement.ArrivesOnce` | agents/graph.py:396-454 | a run of the loop is at the aggregator at one moment only |
| `SubTaskAgreement.NodesAgreeIff` | agents/parallel_subtasks.py:41-63 | the parallel node and the sequential loop leave the same for all nodes and critics exactly when every sub-task is allowed an iteration and, unless there is none, the effective threshold is the plain one |
| `Router.OrderIsPermutation` | agents/router.py:104-163 | the order of a rule that applies is a permutation of the detected types |
| `Router.OrderIsLed` | agents/router.py:104-163 | the order of a rule puts its leading types first, in their order, and keeps the order the others were detected in |
| `Router.EarlierSiblings` | agents/router.py:534-543 | leaving out the i-th type makes the first i siblings the types that run before it |
| `Router.DecomposeIntoSubtasks` | agents/router.py:361-497 | which rule is taken, from the types alone; the first five types in its order, each fresh with three iterations, siblings and predecessors as announced; parallel exactly for the analysis rule or none |
| `Router.FirstMatch` | agents/router.py:424-429 | finds the applicable rule of highest priority |
| `Router.NoRuleApplies` | agents/router.py:152-163 | exactly which types no rule catches, although the last one is meant as catch-all |
| `RetryMarker.SearchFindsPrinted` | agents/orchestrator.py:669-673 | printing `<!-- retry:n -->` and searching for it gives back n, whatever text follows |
| `RetryMarker.SearchMeaning` | agents/orchestrator.py:682-689 | searching any text finds the number of the first marker in it, an opening, at least one digit and a closing, and nothing only if there is none |
| `RetryMarker.ParseDecimal` | agents/orchestrator.py:688 | reading back a printed number gives the number |
| `RetryMarker.RebalanceIsNoRetry` | agents/orchestrator_helpers.py:170-174 | the comment of a move is not taken for a retry, for agent ids without `<` |
| `RetryMarker.CountRetries` | agents/orchestrator.py:682-689 | computes the highest retry number among the comments |
| `RetryMarker.HighestRetryIsMaximum` | agents/orchestrator.py:682-689 | that number bounds every marker and is one of them unless it is 0 |
| `RetryMarker.RetryRaisesCount` | agents/orchestrator.py:664-673 | the marker of the next retry raises the count by one |
| `RetryMarker.CommentsKeepCount` | agents/orchestrator.py:682-689 | further comments never lower the count and keep it when they hold no marker |
| `IssueTracker.Tracker.WorkersAct` | agents/orchestrator.py:564-571 | whatever workers do between rounds, the retry accounts stay bounded, and exact if they post no markers |
| `Orchestrator.DetectPhase` | agents/orchestrator.py:124-139 | aggregate exactly when there are children and all are done, decompose exactly when there are none |
| `Orchestrator.MaybeRetryChild` | agents/orchestrator.py:634-679 | touches one child at most and keeps resets = highest marker + lost markers, and resets <= limit + lost markers, whatever fails; false exactly when the retries are known to be used up or the reset raised |
| `Orchestrator.FailedThoughNotExhausted` | agents/orchestrator.py:651-664 | every blocked child with retries left can end up reset to todo and still count as failed |
| `Orchestrator.EvaluateChildren` | agents/orchestrator.py:442-456 | whatever fails: only blocked children are touched, the accounts are kept, and a child counts as failed exactly when it is found exhausted or its reset raised; without failures exactly when it is exhausted |
| `Orchestrator.MaybeRebalance` | agents/orchestrator.py:458-466 | changes todo tasks only and keeps the accounts; without failures, if there are agents, the tasks of the queue have gone to the idle agents in some order of these, with no alternative |
| `Orchestrator.PollRound` | agents/orchestrator.py:438-466 | with any failures every child has the fate it was counted by; without failures, if there are agents and somebody is backlogged, exactly min(2, idle) tasks have changed hands, and none otherwise |
| `Orchestrator.PollMovesTasks` | agents/orchestrator.py:458-466 | so does every board a poll without failures can leave |
| `Orchestrator.CollectOutputs` | agents/orchestrator.py:716-731 | counts outputs of done children only, and without failures all of them |
| `Orchestrator.AggregateAndPresent` | agents/orchestrator.py:695-803 | a parent already done stays so and gets no second result; otherwise it is done, with a result, only if some done child has an output, and blocked, with a notice, otherwise |
| `Orchestrator.AggregatePartial` | agents/orchestrator.py:806-910 | without failures the parent is done, with a result, exactly if some done child has an output, and blocked, with a notice, otherwise |
| `Orchestrator.PollChildren` | agents/orchestrator.py:430-519 | keeps both retry accounts, and the plain ids the exact one needs, under any failures; acts on the parent exactly when a child is found exhausted or its reset raised, or a wake-up decides; without failures the tasks moved, the wake-ups waited for, the report and the comment are determined |
| `Orchestrator.WsWaitForChildren` | agents/orchestrator.py:522-631 | keeps both retry accounts and plain ids over any number of wake-ups with workers acting in between; without failures it is a sequence of aggregating or evaluating steps that ends with the first to decide |
| `Orchestrator.DecomposeAndDelegate` | agents/orchestrator.py:145-301 | creates children for some of the planned sub-tasks, in order, each as planned and without comments, and none when the agents cannot be listed; without failures all of them, a plan comment, and the parent in progress; delegates only if a child was created; keeps the retry accounts |
| `Orchestrator.RunHeartbeat` | agents/orchestrator.py:73-121 | in every phase keeps both retry accounts and plain ids whatever fails, so that the next heartbeat finds them; the parent is marked done only if some done child has an output; without failures children, parent, report and comment are those of the phase, wake-ups included |
| `Orchestrator.RunHeartbeats` | agents/orchestrator.py:73-121 | over any run of heartbeats with workers acting before each, whatever fails: both retry accounts are kept, every heartbeat without a failed call does what its phase asks for, and the parent becomes done only when some done child has an output |
| `Orchestrator.RunFromStart` | agents/orchestrator.py:634-679 | after any such run from the start each child was reset at most `max_retries` times plus once per lost marker, and exactly as often as its highest marker says plus the lost ones if nobody else posts markers |
| `Orchestrator.UnresolvedBeatsRaiseCounts` | agents/orchestrator.py:430-519 | until the parent is resolved every heartbeat raises the count of every child that is not done |
| `Orchestrator.ParentIsResolvedInTime` | agents/orchestrator.py:430-631 | if calls succeed, workers undo nothing and children settle between heartbeats, the parent is done or blocked within `max_retries` + 1 heartbeats, with any number of wake-ups over a web socket during each |
| `Orchestrator.ResolvedInTimeIff` | agents/orchestrator.py:430-519 | no smaller number of heartbeats is always enough |
| `Orchestrator.ParentSettledEarlyIff` | agents/orchestrator.py:468-478 | a poll without failures marks the parent done while some child is neither done nor given up exactly when there is such a child, another one is given up and a done one has an output; blocked exactly when instead none has |
| `Orchestrator.ParentFinishesBeforeChildren` | agents/orchestrator.py:468-478 | for every `max_retries` there is such a board: a result, a child with its retries used up, and one in progress |
| `Orchestrator.PollKeepsMaximumIff` | agents/orchestrator.py:442-466 | every board a poll without failures can leave keeps the maximum todo load its retries lead to, exactly when nobody is backlogged or no agent counted as idle holds that maximum |
| `Orchestrator.StaleListRaisesMaximum` | agents/orchestrator.py:442-466 | a board that such a poll can leave with a higher maximum: three retried tasks make an agent as loaded as the backlogged one, and it still is given a fourth |
| `Rebalancing.LoadAfterMove` | agents/orchestrator_helpers.py:166-176 | a move takes one todo task from its owner and gives it to the target, and changes no other load |
| `Rebalancing.BackloggedMeaning` | agents/orchestrator_helpers.py:145-147 | an agent is backlogged when it has a name and at least three todo tasks |
| `Rebalancing.IdleMeaning` | agents/orchestrator_helpers.py:149-151 | an agent counts as idle when it has a name, something done and nothing todo |
| `Rebalancing.QueueOrder` | agents/orchestrator_helpers.py:156-158 | tasks are tried agent by agent in the order in which their owners are met, and each owner's in the order of the list |
| `Rebalancing.GroupPending` | agents/orchestrator_helpers.py:133-144 | lists the owners of todo tasks in the order of their first one, each with exactly its todo tasks in order |
| `Rebalancing.MoveTask` | agents/orchestrator_helpers.py:166-174 | the task ends refused, moved without a comment, or moved with one, as the calls went; true exactly when both went through |
| `Rebalancing.RebalanceChildren` | agents/orchestrator_helpers.py:120-187 | the tracker afterwards is a replay of attempts, the k-th task of the backlogged agents to the k-th idle agent, made until two were counted or one side ran out; the result counts those without a failed call; it is at most the number of tasks moved, which is at most it plus the failed calls, so without failures they are equal |
| `Rebalancing.MovedTasksCount` | agents/orchestrator_helpers.py:156-183 | as many children changed their assignee as attempts took effect |
| `Rebalancing.ReplayLoads` | agents/orchestrator_helpers.py:156-183 | on the tracker the k-th idle agent gains one todo task exactly when the k-th attempt took effect, nobody else gains, and each of the others loses at most as many as were moved |
| `Rebalancing.QuietOutcome` | agents/orchestrator_helpers.py:156-187 | without failures the order of the idle agents determines the outcome, and min(2, idle) tasks move if anybody is backlogged, none otherwise |
| `Rebalancing.SourcesKeepATask` | agents/orchestrator_helpers.py:145-183 | without failures every backlogged agent keeps a todo task |
| `Rebalancing.MaximumKept` | agents/orchestrator_helpers.py:145-183 | whatever fails, the maximum todo load on the tracker is not raised when no agent counted as idle holds it |
| `Rebalancing.MaximumKeptIff` | agents/orchestrator_helpers.py:145-183 | without failures it is kept in every order of the idle agents exactly when nobody is backlogged or no agent counted as idle holds it |
| `Rebalancing.FreshListKeepsMaximum` | agents/orchestrator_helpers.py:145-183 | it is always kept when the list is what is on the tracker |
| `Rebalancing.UncountedMoves` | agents/orchestrator_helpers.py:166-183 | when every comment raises, as many tasks move as there are idle agents and tasks for them, and none is counted |
| `Rebalancing.MoveLimitIff` | agents/orchestrator_helpers.py:156-183 | whatever calls fail, at most two tasks move, exactly when nobody is backlogged or at most two agents are idle |
| `Rebalancing.ThreeTasksMove` | agents/orchestrator_helpers.py:156-183 | a board with three idle agents on which three tasks move in one cycle |
| `CircuitBreaker.BackendEntry.IsAvailable` | agents/backend_pool.py:48-65 | the state is that of the history; available exactly when not open or the recovery timeout has passed |
| `CircuitBreaker.BackendEntry.RecordSuccess` | agents/backend_pool.py:67-74 | the state is that of the history with the success |
| `CircuitBreaker.BackendEntry.RecordFailure` | agents/backend_pool.py:76-93 | the state is that of the history with the failure |
| `CircuitBreaker.RecoveryNoticedMeaning` | agents/backend_pool.py:54-63 | a circuit is half-open rather than open exactly when some check since the last failure came late enough |
| `CircuitBreaker.ClosedIffBelowLimit` | agents/backend_pool.py:67-93 | closed exactly while the failures since the last success are below the limit, for all histories, if and only if the limit is positive |
| `CircuitBreaker.HalfOpenAfterTimeout` | agents/backend_pool.py:54-63 | an open circuit is half-open after a check exactly when that comes the recovery timeout or more after the last failure |
| `CircuitBreaker.HalfOpenAdmitsAll` | agents/backend_pool.py:64-65 | a half-open circuit admits every request until one ends, not one probe |
| `CircuitBreaker.AllProbesAdmitted` | agents/backend_pool.py:54-65 | at the defaults three failures and a check 60 seconds later lead there, and any number of further checks is admitted |
| `BackendPools.Rotation` | agents/backend_pool.py:160-165 | round robin lists the available entries cyclically from the counter |
| `BackendPools.TimesFirstFormula` | agents/backend_pool.py:160-165 | each position comes first every n-th call, beginning with its distance from the counter |
| `BackendPools.FirstCountFollowsTheCounter` | agents/backend_pool.py:160-165 | how many of the orders of consecutive calls begin with an entry is how often the counter points at it |
| `BackendPools.RoundRobinIsFair` | agents/backend_pool.py:160-165 | of the orders of consecutive calls over the same available entries, any two of these begin equally many, give or take one |
| `BackendPools.SortByLoadSorts` | agents/backend_pool.py:167-168 | least loaded first, ties in pool order |
| `BackendPools.SortIsPermutation` | agents/backend_pool.py:167-168 | the sort loses no entry |
| `BackendPools.BackendPool.SelectOrder` | agents/backend_pool.py:154-171 | checks every entry once and lists exactly the available ones: for failover in the order of the pool, for least_loaded by the requests in flight with ties in that order, for round robin cyclically from the counter; all in order when none is |
| `BackendPools.BackendPool.Generate` | agents/backend_pool.py:177-227 | returns the first text an entry gives, in the order of the strategy; the entries before it were tried in vain or unavailable at their turn, the others untouched; every attempt was allowed by the circuit; requests in flight are counted off |
| `BackendPools.BackendPool.Ask` | agents/backend_pool.py:193-221 | an entry is asked exactly when its circuit allows, and the outcome is recorded |
| `BackendPools.BackendPool.GenerateAll` | agents/backend_pool.py:154-227 | request after request each gets the order its strategy chooses at its turn; with round robin and the same entries available throughout, any two of them are tried first equally often, give or take one |
| `ArtifactStores.RowHoldsFirstBest` | agents/artifact_store.py:351-441 | a key holds the first best-scoring acceptable artifact offered since it was last removed, and nothing if there was none |
| `ArtifactStores.ArtifactStore.Lookup` | agents/artifact_store.py:245-309 | hits exactly live rows, counts the access, removes an expired row |
| `ArtifactStores.ArtifactStore.Store` | agents/artifact_store.py:315-441 | stores exactly a non-blank output whose final score, or the critic's without one, reaches the minimum and exceeds that of the row held; afterwards at most `max_entries` rows are left and no row left was accessed before an evicted one; the history grows by the offer and the eviction, if any |
| `Eviction.FindOldest` | agents/artifact_store.py:463-472 | chooses as many rows as asked, none of them younger than a row that stays; ties go either way |
| `ArtifactStores.ArtifactStore.EvictIfNeeded` | agents/artifact_store.py:447-474 | deletes exactly the excess, least recently accessed first, and records it |
| `ArtifactStores.ArtifactStore.Invalidate` | agents/artifact_store.py:532-558 | removes the key and nothing else, and records it |
| `ArtifactStores.ArtifactStore.InvalidateByTaskType` | agents/artifact_store.py:560-585 | removes exactly the rows of the task type, and records it |
| `MessageThreads.RootedPartitions` | agents/message_store.py:725-747 | when every parent is an existing root, each message is in its thread and every member names the same thread |
| `MessageThreads.ThreadsAreDisjoint` | agents/message_store.py:725-747 | different threads share no message |
| `MessageThreads.DeleteKeepsRooted` | agents/message_store.py:91 | deleting any rows, which nulls references to them, leaves every parent an existing root |
| `MessageThreads.DeletedThreads` | agents/message_store.py:91 | survivors keep their thread, less the deleted, unless its root went, and then each is a thread of its own |
| `MessageThreads.InsertKeepsPartitionIff` | agents/message_store.py:307-376 | a new message keeps the threads a partition exactly when its parent, if any, is a root |
| `MessageThreads.RootsCountThreads` | agents/message_store.py:989-995 | the thread count of the statistics is the number of threads |
| `MessageStores.MessageStore.Send` | agents/message_store.py:307-376 | inserts and evicts, or refuses a missing parent; keeps parents roots when the parent is one |
| `MessageStores.MessageStore.Reply` | agents/message_store.py:378-408 | fails exactly for a missing message, otherwise joins its thread and keeps parents roots |
| `MessageStores.MessageStore.MarkRead` | agents/message_store.py:410-427 | adds the reader once, leaves the threads, and takes exactly this message out of the agent's unread set |
| `MessageStores.MessageStore.CleanupExpired` | agents/message_store.py:447-485 | deletes exactly the expired messages and keeps parents roots |
| `MessageStores.MessageStore.EvictIfNeeded` | agents/message_store.py:487-504 | deletes exactly the excess, oldest first, and keeps parents roots |
| `MessageStores.MessageStore.GetThread` | agents/message_store.py:725-747 | returns the thread, oldest message first, the same thread for each of its members |
| `MessageStores.MessageStore.GetUnread` | agents/message_store.py:701-723 | returns the newest `limit` of the unread messages, oldest first; for plain names these and the older ones left out are exactly the addressed, unexpired messages the agent has not marked |
| `MessageStores.UnreadIsUnmarked` | agents/message_store.py:711-721 | for plain names the rows the query selects, before its limit, are exactly the addressed, unexpired messages the agent has not marked |
| `ReadMarks.LikeFindsFit` | agents/message_store.py:717-721 | `LIKE %p%` holds exactly when p fits somewhere in the text |
| `ReadMarks.SearchIsMembership` | agents/message_store.py:701-723 | for names of lower-case letters, digits and hyphens the text search is list membership |
| `ReadMarks.SearchIsMembershipIff` | agents/message_store.py:717-721 | the search agrees with membership for all lists exactly when the name has no underscore |
| `ReadMarks.UnderscoresMatchBetweenNames` | agents/message_store.py:717-721 | the name `__` is found among the readers a and b, between the two |
| `ScoreFusion.HybridSearch` | agents/message_store.py:888-925 | rewriting scores in place yields the best ids by the plain weighted sum over the union of both lists, each once, descending, none left out that scores above a returned one |
| `ScoreFusion.HybridRecall` | agents/memory_store.py:1242-1303 | the same for the two-source recall, with the quality of the entry added that carries the result, which is the semantic one if there is one; that entry is the one returned |
| `ScoreFusion.TakeBest` | agents/message_store.py:924-925 | sorting and cutting off returns the best n |
| `ScoreFusion.Normalise` | agents/message_store.py:903-908 | divides by the highest score if it is positive |
| `ChatChunks.FormatResponseForChat` | agents/daemon.py:320-335 | a short reply goes out whole; otherwise the chunks are its lines grouped greedily, concatenate to the text and one newline, and all keep to the limit exactly when every line is shorter than it |
| `ChatChunks.ChunksAreLossless` | agents/daemon.py:320-335 | nothing is lost, no chunk is empty, and a chunk over the limit is a single line that reaches it alone |
| `ChatChunks.ChunksFitIffLinesAreShorter` | agents/daemon.py:320-335 | of any greedy grouping all chunks keep to the limit exactly when every line is shorter than it |
| `ChatChunks.LineOfTheLimitIsTooLong` | agents/daemon.py:320-335 | a reply that is one line of exactly the maximum length and its newline always makes a chunk of one character more |
| `ChatChunks.LinesRenderText` | agents/daemon.py:327 | the lines of a text with their newlines are the text and one newline |

## Left out

- I/O clients, processes, signals, model calls, prompts, embeddings, full-text search, hashing: inputs
  that succeed, fail or return a value.
- Node and workflow timeouts, cancellation, checkpointing of the engine: they only end a run early.
- Thread interleavings inside one operation: each operation under a lock, each poll round and each
  generate call is atomic; workers act between rounds, and parallel results arrive in any order.
- Wall-clock formats: times are numbers; ties in eviction go either way.
- Floating point in scores and clocks: `real` and `int`; scores of critics are integers.
- WorkflowEngine.CompiledWorkflow.Stream: hands out the state before the gate that follows the node; the original hands out one shared dictionary, which that gate then writes to.
- StepBudget.FinishesWithinBudget: node bodies are held to the fields their source writes; that each body does so is read off the source, not proved.
- SubTaskAgreement.ParallelAgreesWithSequential: the texts specialists write are not compared, since sequential specialists see their predecessors' outputs; a specialist that asks for clarification ends the sequential run at once but only its own worker in parallel, and is left out of the comparison.
- ParallelSubtasks.CollectResults: the list of errors kept for diagnosis is left out.
- Router.DecomposeIntoSubtasks: the detection of task types by patterns or by a model and the wording of the seed texts are inputs or absent; rules added at run time are not modelled.
- RetryMarker.SearchFindsPrinted: decimal digits are ASCII; the pattern's `\d` also takes other digits.
- IssueTracker.Tracker.WorkersAct: nobody deletes comments, and only the decomposition adds children.
- Orchestrator.DecomposeAndDelegate: which sub-tasks are planned, and for whom, is an input; titles, descriptions and the filter for duplicates are left out. A plan without sub-tasks hands over to a direct run of the workflow, which is not part of this contract.
- Orchestrator.RunHeartbeat: cost reports and the texts of result comments are left out; extracting a result from comments is a function given by the configuration.
- BackendPools.BackendPool.Generate: retries within one backend call are part of the backend's answer; concurrent requests of other threads are not interleaved.
- MessageStores.UnreadIsUnmarked: covers names of lower-case letters, digits and hyphens; names with other characters would bring in JSON escapes and the case-insensitive comparison.
- ArtifactStores.ArtifactStore.Store: the specification text and other columns that are only carried along are dropped. The periodic clean-up, which compares times in whole seconds, is left out.
- ScoreFusion.HybridSearch: the order of equal scores is left open.
- ScoreFusion.HybridRecall: covers the branch with results on both sides; with semantic results missing, the keyword-only branch recomputes its maximum while it overwrites scores.
- ChatChunks.FormatResponseForChat: the continuation notes added around chunks are left out.
- The message de-duplication table of the daemon, memory storage and eviction, agent matching, budgets, metrics and status reports: true but easy.

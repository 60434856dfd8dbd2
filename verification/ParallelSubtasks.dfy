/** The parallel sub-task node of agents/parallel_subtasks.py. */
module ParallelSubtasks {
  import opened Numbers
  import opened Options
  import opened Decisions
  import AgentGraph
  import opened StepBudget
  import opened SubTaskOutcome
  import opened SequentialSubtasks

  type Nodes<!W> = AgentGraph.Nodes<W>

  /** One worker's private state: a single sub-task and the plain threshold; the effective one is not passed on. */
  function BuildLocalState<W>(task: SubTask, shared: AgentState<W>, answers: W): (local: AgentState<W>)
    ensures Threshold(local) == shared.qualityThreshold && !local.clarificationNeeded
    ensures local.subTasks == [task] && local.currentSubTaskIndex == 0 && local.world == answers
    ensures local.completedSubTasks == local.specialistIterationCount == local.outputCriticScore == 0
    ensures local.specialistMaxIterations == shared.specialistMaxIterations && local.parallelExecution
    ensures !local.cacheHit && !local.requiresDecomposition && !local.heuristicCriticPassed
  {
    AgentState([task], 0, 0, 0, shared.specialistMaxIterations, 0, GatePass, false, 0, None,
               shared.qualityThreshold, false, false, true, false, answers)
  }

  /** At most `attempts` rounds of specialist, critic and gate; a request for clarification ends them. */
  ghost function AfterAttempts<W(!new)>(nodes: Nodes<W>, local: AgentState<W>, attempts: nat): AgentState<W>
    requires AgentGraph.SubSpecialist in nodes && AgentGraph.SubCritic in nodes
    decreases attempts
  {
    if attempts == 0 then local
    else
      var worked := nodes[AgentGraph.SubSpecialist](local);
      if worked.clarificationNeeded then worked
      else
        var (judged, decision) := SubOutputGate(nodes[AgentGraph.SubCritic](worked));
        if decision == Approved || decision == Fail then judged else AfterAttempts(nodes, judged, attempts - 1)
  }

  /** What one worker hands back for its sub-task. */
  ghost function RanAlone<W(!new)>(nodes: Nodes<W>, n: nat, m: int, shared: AgentState<W>, task: SubTask,
      answers: W): SubTask
    requires WellBehaved(nodes, n, m)
  {
    var end := AfterAttempts(nodes, BuildLocalState(task, shared, answers), AtLeastZero(task.maxIterations));
    AttemptsKeepOneTask(nodes, n, m, BuildLocalState(task, shared, answers), AtLeastZero(task.maxIterations));
    end.subTasks[0]
  }

  /** A worker's state holds its one sub-task throughout. */
  lemma {:induction false} AttemptsKeepOneTask<W(!new)>(nodes: Nodes<W>, n: nat, m: int, local: AgentState<W>,
      attempts: nat)
    requires WellBehaved(nodes, n, m) && |local.subTasks| == 1 && local.currentSubTaskIndex == 0
    ensures |AfterAttempts(nodes, local, attempts).subTasks| == 1
    decreases attempts
  {
    if attempts > 0 {
      hide OnlyCurrentTaskWorkedOn, MayTurn, Judged;
      OneAttemptKeepsOneTask(nodes, n, m, local);
      var worked := nodes[AgentGraph.SubSpecialist](local);
      var (judged, decision) := SubOutputGate(nodes[AgentGraph.SubCritic](worked));
      hide SubOutputGate, WellBehaved;
      if !worked.clarificationNeeded && decision != Approved && decision != Fail {
        AttemptsKeepOneTask(nodes, n, m, judged, attempts - 1);
      }
    }
  }

  lemma OneAttemptKeepsOneTask<W(!new)>(nodes: Nodes<W>, n: nat, m: int, local: AgentState<W>)
    requires WellBehaved(nodes, n, m) && |local.subTasks| == 1 && local.currentSubTaskIndex == 0
    ensures var worked := nodes[AgentGraph.SubSpecialist](local);
      var judged := nodes[AgentGraph.SubCritic](worked);
      && |worked.subTasks| == 1 && worked.currentSubTaskIndex == 0
      && |judged.subTasks| == 1 && judged.currentSubTaskIndex == 0
  {
    SpecialistWorks(nodes, n, m, local);
    CriticWorks(nodes, n, m, nodes[AgentGraph.SubSpecialist](local));
  }

  /** Works on one sub-task in a private state until it is settled, needs clarification or runs out of attempts. */
  method RunSingleSubtask<W(!new)>(nodes: Nodes<W>, ghost n: nat, ghost m: int, shared: AgentState<W>, task: SubTask,
      answers: W)
    returns (result: SubTask)
    requires WellBehaved(nodes, n, m)
    ensures result == RanAlone(nodes, n, m, shared, task, answers)
  {
    hide MayTurn, SubOutputGate, OnlyCurrentTaskWorkedOn;
    var local := new StateDict(BuildLocalState(task, shared, answers));
    ghost var start := local.v;
    ghost var limit := AtLeastZero(task.maxIterations);
    AttemptsKeepOneTask(nodes, n, m, start, limit);
    var attempt := 0;
    while attempt < task.maxIterations
      invariant attempt <= limit
      invariant AfterAttempts(nodes, start, limit) == AfterAttempts(nodes, local.v, limit - attempt)
    {
      local.v := nodes[AgentGraph.SubSpecialist](local.v);
      if local.v.clarificationNeeded {
        break;
      }
      local.v := nodes[AgentGraph.SubCritic](local.v);
      var decision := ShouldApproveSubOutput(local);
      if decision == Approved || decision == Fail {
        break;
      }
      attempt := attempt + 1;
    }
    assert local.v == AfterAttempts(nodes, start, limit);
    result := local.v.subTasks[0];
  }

  /** How the workers fare: what their nodes will answer, which raise, and which end before the wait does. */
  datatype Fortune<W> = Fortune(answers: nat -> W, raises: nat -> bool, inTime: nat -> bool)

  /** What worker `i` hands back, or the failed copy made for it when it raised or was not done in time. */
  ghost function Outcome<W(!new)>(nodes: Nodes<W>, n: nat, m: int, s: AgentState<W>, i: nat, f: Fortune<W>): SubTask
    requires WellBehaved(nodes, n, m) && i < |s.subTasks|
  {
    if f.raises(i) || !f.inTime(i) then s.subTasks[i].(status := Failed)
    else RanAlone(nodes, n, m, s, s.subTasks[i], f.answers(i))
  }

  function Below(k: nat): (indices: set<nat>)
    ensures forall i: nat :: i in indices <==> i < k
  {
    if k == 0 then {} else Below(k - 1) + {k - 1}
  }

  /**
   * Waits for the workers in whatever order they finish; those that do not before the wait ends count
   * as failed.
   */
  method CollectResults<W(!new)>(shared: AgentState<W>, nodes: Nodes<W>, ghost n: nat, ghost m: int, f: Fortune<W>)
    returns (results: map<nat, SubTask>)
    requires WellBehaved(nodes, n, m)
    ensures forall i :: i in results <==> 0 <= i < |shared.subTasks|
    ensures forall i | i in results :: results[i] == Outcome(nodes, n, m, shared, i, f)
  {
    hide WellBehaved, RanAlone, Below;
    var tasks := shared.subTasks;
    results := map[];
    var pending := set i | i in Below(|tasks|) && f.inTime(i);
    while pending != {}
      invariant forall i: nat :: i < |tasks| && f.inTime(i) <==> i in pending || i in results
      invariant pending !! results.Keys
      invariant forall i | i in results :: results[i] == Outcome(nodes, n, m, shared, i, f)
      decreases |pending|
    {
      var i :| i in pending;
      pending := pending - {i};
      if f.raises(i) {
        results := results[i := tasks[i].(status := Failed)];
      } else {
        var result := RunSingleSubtask(nodes, n, m, shared, tasks[i], f.answers(i));
        results := results[i := result];
      }
    }
    hide Outcome;
    for i := 0 to |tasks|
      invariant forall j: nat :: j in results <==> j < |tasks| && (j < i || f.inTime(j))
      invariant forall j | j in results :: results[j] == Outcome(nodes, n, m, shared, j, f)
    {
      if i !in results {
        LateFails(nodes, n, m, shared, i, f);
        results := results[i := tasks[i].(status := Failed)];
      }
    }
  }

  lemma LateFails<W(!new)>(nodes: Nodes<W>, n: nat, m: int, s: AgentState<W>, i: nat, f: Fortune<W>)
    requires WellBehaved(nodes, n, m) && i < |s.subTasks| && !f.inTime(i)
    ensures Outcome(nodes, n, m, s, i, f) == s.subTasks[i].(status := Failed)
  {
    hide WellBehaved;
  }

  /** All questions of the tasks that wait for clarification, in order. */
  function QuestionsOf(tasks: seq<SubTask>, parse: string -> seq<string>): seq<string> {
    if tasks == [] then []
    else
      var last := tasks[|tasks| - 1];
      QuestionsOf(tasks[..|tasks| - 1], parse) + if last.status == ClarificationNeeded then parse(last.output) else []
  }

  /** There are questions exactly when some task waits for clarification and has one. */
  lemma {:induction false} QuestionsMeaning(tasks: seq<SubTask>, parse: string -> seq<string>)
    ensures QuestionsOf(tasks, parse) == [] <==>
      forall i :: 0 <= i < |tasks| && tasks[i].status == ClarificationNeeded ==> parse(tasks[i].output) == []
    ensures forall q :: q in QuestionsOf(tasks, parse) <==>
      exists i :: 0 <= i < |tasks| && tasks[i].status == ClarificationNeeded && q in parse(tasks[i].output)
  {
    if tasks != [] {
      var last := |tasks| - 1;
      QuestionsMeaning(tasks[..last], parse);
      forall q | q in QuestionsOf(tasks[..last], parse)
        ensures exists i :: 0 <= i < |tasks| && tasks[i].status == ClarificationNeeded && q in parse(tasks[i].output)
      {
        var i :| 0 <= i < last && tasks[..last][i].status == ClarificationNeeded && q in parse(tasks[..last][i].output);
        assert tasks[i] == tasks[..last][i];
      }
      forall q, i | 0 <= i < last && tasks[i].status == ClarificationNeeded && q in parse(tasks[i].output)
        ensures q in QuestionsOf(tasks[..last], parse)
      {
        assert tasks[i] == tasks[..last][i];
      }
      assert forall i :: 0 <= i < last ==> tasks[i] == tasks[..last][i];
    }
  }

  /**
   * Runs every sub-task on its own and merges the results by index, in whatever order the workers
   * finish. Workers may raise or be late; both leave failed copies.
   */
  method ExecuteParallelSubtasks<W(!new)>(state: StateDict<W>, nodes: Nodes<W>, ghost n: nat, ghost m: int,
      f: Fortune<W>, parse: string -> seq<string>)
    returns (questions: seq<string>)
    requires WellBehaved(nodes, n, m)
    modifies state
    ensures old(state.v.subTasks) == [] ==> state.v == old(state.v)
    ensures |state.v.subTasks| == |old(state.v.subTasks)|
    ensures forall i :: 0 <= i < |state.v.subTasks| ==>
      state.v.subTasks[i] == Outcome(nodes, n, m, old(state.v), i, f)
    ensures old(state.v.subTasks) != [] ==>
      state.v == old(state.v).(subTasks := state.v.subTasks, currentSubTaskIndex := |state.v.subTasks|,
        completedSubTasks := CountCompleted(state.v.subTasks),
        clarificationNeeded := old(state.v.clarificationNeeded) || questions != [])
    ensures questions == QuestionsOf(state.v.subTasks, parse)
  {
    questions := [];
    if state.v.subTasks == [] {
      return;
    }
    hide WellBehaved, Outcome, CountCompleted, QuestionsOf;
    var results := CollectResults(state.v, nodes, n, m, f);
    var tasks := MergeResults(state.v.subTasks, results);
    var completed := CountStatus(tasks);
    questions := CollectQuestions(tasks, parse);
    if questions != [] {
      state.v := state.v.(clarificationNeeded := true);
    }
    state.v := state.v.(subTasks := tasks, completedSubTasks := completed, currentSubTaskIndex := |tasks|);
  }

  method MergeResults(original: seq<SubTask>, results: map<nat, SubTask>) returns (tasks: seq<SubTask>)
    ensures |tasks| == |original|
    ensures forall i :: 0 <= i < |tasks| ==> tasks[i] == if i in results then results[i] else original[i]
  {
    tasks := original;
    for i := 0 to |tasks|
      invariant |tasks| == |original|
      invariant forall j :: 0 <= j < |tasks| ==> tasks[j] == if j < i && j in results then results[j] else original[j]
    {
      if i in results {
        tasks := tasks[i := results[i]];
      }
    }
  }

  method CollectQuestions(tasks: seq<SubTask>, parse: string -> seq<string>) returns (questions: seq<string>)
    ensures questions == QuestionsOf(tasks, parse)
  {
    questions := [];
    for i := 0 to |tasks|
      invariant questions == QuestionsOf(tasks[..i], parse)
    {
      assert tasks[..i + 1][..i] == tasks[..i];
      if tasks[i].status == ClarificationNeeded {
        questions := questions + parse(tasks[i].output);
      }
    }
    assert tasks[..|tasks|] == tasks;
  }

  /** The sum over the merged tasks. */
  method CountStatus(tasks: seq<SubTask>) returns (completed: nat)
    ensures completed == CountCompleted(tasks)
  {
    completed := 0;
    for i := 0 to |tasks|
      invariant completed == CountCompleted(tasks[..i])
    {
      assert tasks[..i + 1][..i] == tasks[..i];
      if tasks[i].status == Completed {
        completed := completed + 1;
      }
    }
    assert tasks[..|tasks|] == tasks;
  }

  /** A worker with at least one attempt settles its sub-task as the scores say, against the plain threshold. */
  lemma {:induction false} WorkerSettles<W(!new)>(nodes: Nodes<W>, n: nat, m: int, score: Scores, local: AgentState<W>,
      attempts: nat)
    requires WellBehaved(nodes, n, m) && ScoresBy(nodes, score) && NeverAsks(nodes)
    requires |local.subTasks| == 1 && local.currentSubTaskIndex == 0 && !local.clarificationNeeded
    requires attempts >= AttemptsLeft(local.subTasks[0])
    ensures var end := AfterAttempts(nodes, local, attempts);
      |end.subTasks| == 1 && Core(end.subTasks[0]) == Core(Settled(local.subTasks[0], Threshold(local), score))
    decreases attempts
  {
    hide SubOutputGate, Settled, Threshold, WellBehaved, ScoresBy, NeverAsks, AfterAttempts, Attempted;
    NodesRegistered(nodes, n, m);
    AttemptSettlesOrLeaves(nodes, n, m, score, local);
    FirstAttempt(nodes, local, attempts);
    var (judged, decision) := SubOutputGate(Attempted(nodes, local));
    if decision == RefineSubOutput {
      WorkerSettles(nodes, n, m, score, judged, attempts - 1);
    }
  }

  lemma NodesRegistered<W(!new)>(nodes: Nodes<W>, n: nat, m: int)
    requires WellBehaved(nodes, n, m)
    ensures AgentGraph.SubSpecialist in nodes && AgentGraph.SubCritic in nodes
  {
  }

  lemma FirstAttempt<W(!new)>(nodes: Nodes<W>, local: AgentState<W>, attempts: nat)
    requires AgentGraph.SubSpecialist in nodes && AgentGraph.SubCritic in nodes && NeverAsks(nodes)
    requires attempts >= 1 && !local.clarificationNeeded
    ensures var (judged, decision) := SubOutputGate(Attempted(nodes, local));
      AfterAttempts(nodes, local, attempts) ==
        if decision == Approved || decision == Fail then judged else AfterAttempts(nodes, judged, attempts - 1)
  {
    hide SubOutputGate;
  }

  /** One attempt of a worker, then the gate: settled, or one attempt fewer and the same fate. */
  lemma AttemptSettlesOrLeaves<W(!new)>(nodes: Nodes<W>, n: nat, m: int, score: Scores, local: AgentState<W>)
    requires WellBehaved(nodes, n, m) && ScoresBy(nodes, score) && NeverAsks(nodes)
    requires |local.subTasks| == 1 && local.currentSubTaskIndex == 0 && !local.clarificationNeeded
    ensures var (judged, decision) := SubOutputGate(Attempted(nodes, local));
      && |judged.subTasks| == 1 && judged.currentSubTaskIndex == 0 && Threshold(judged) == Threshold(local)
      && !judged.clarificationNeeded
      && decision in {Approved, Fail, RefineSubOutput}
      && Core(Settled(local.subTasks[0], Threshold(local), score)) ==
        (if decision == RefineSubOutput then Core(Settled(judged.subTasks[0], Threshold(local), score))
          else Core(judged.subTasks[0]))
      && (decision == RefineSubOutput ==> AttemptsLeft(judged.subTasks[0]) == AttemptsLeft(local.subTasks[0]) - 1)
  {
    AttemptedTask(nodes, n, m, score, local);
    var t := Attempted(nodes, local);
    hide WellBehaved, ScoresBy, NeverAsks, Settled, Attempted;
    AttemptStep(local.subTasks[0], t.subTasks[0], Threshold(local), score);
  }

  /** A worker whose specialist asks for clarification hands its sub-task back as the specialist left it. */
  lemma ClarificationEndsWorker<W(!new)>(nodes: Nodes<W>, n: nat, m: int, shared: AgentState<W>, task: SubTask,
      answers: W)
    requires WellBehaved(nodes, n, m) && task.maxIterations >= 1
    requires nodes[AgentGraph.SubSpecialist](BuildLocalState(task, shared, answers)).clarificationNeeded
    ensures var worked := nodes[AgentGraph.SubSpecialist](BuildLocalState(task, shared, answers));
      |worked.subTasks| == 1 && RanAlone(nodes, n, m, shared, task, answers) == worked.subTasks[0]
  {
    OneAttemptKeepsOneTask(nodes, n, m, BuildLocalState(task, shared, answers));
    hide WellBehaved;
  }

  /** A worker whose sub-task allows no iteration does not touch it. */
  lemma NoIterationsNoWork<W(!new)>(nodes: Nodes<W>, n: nat, m: int, shared: AgentState<W>, task: SubTask, answers: W)
    requires WellBehaved(nodes, n, m) && task.maxIterations <= 0
    ensures RanAlone(nodes, n, m, shared, task, answers) == task
  {
  }

  /** What a worker makes of its sub-task under the plain threshold: settled, or left alone without iterations. */
  function ParallelFate(task: SubTask, plain: int, score: Scores): SubTask {
    if task.maxIterations <= 0 then task else Settled(task, plain, score)
  }

  /** A worker's result is that fate, texts aside. */
  lemma RanAloneIsFate<W(!new)>(nodes: Nodes<W>, n: nat, m: int, score: Scores, shared: AgentState<W>, task: SubTask,
      answers: W)
    requires WellBehaved(nodes, n, m) && ScoresBy(nodes, score) && NeverAsks(nodes)
    ensures Core(RanAlone(nodes, n, m, shared, task, answers)) ==
      Core(ParallelFate(task, shared.qualityThreshold, score))
  {
    hide WellBehaved, ScoresBy, NeverAsks, Settled, AfterAttempts;
    if task.maxIterations <= 0 {
      NoIterationsNoWork(nodes, n, m, shared, task, answers);
    } else {
      WorkerSettles(nodes, n, m, score, BuildLocalState(task, shared, answers), AtLeastZero(task.maxIterations));
    }
  }
}

/**
 * The shared workflow state and the gates of agents/decision_functions.py, which move the loop
 * counters, with `sub_output_and_more_check` and the pure route functions of agents/graph.py.
 */
module Decisions {
  import opened Numbers
  import opened Options

  datatype Status = Pending | Executed | Evaluated | Completed | Failed | ClarificationNeeded

  datatype SubTask = SubTask(
    id: nat,
    status: Status,
    iterationCount: nat,
    maxIterations: int,
    outputScore: int,
    output: string)
  {
    predicate IsTerminal() {
      status == Completed || status == Failed
    }
  }

  datatype QualityGate = GatePass | GateRefine | GateFail | GateMaxIterations

  /** The fields the engine's nodes and gates share; `world` is everything else, including what LLMs will answer. */
  datatype AgentState<W> = AgentState(
    subTasks: seq<SubTask>,
    currentSubTaskIndex: nat,
    completedSubTasks: int,
    specialistIterationCount: int,
    specialistMaxIterations: int,
    outputCriticScore: int,
    qualityGate: QualityGate,
    heuristicCriticPassed: bool,
    heuristicCriticScore: int,
    effectiveThreshold: Option<int>,
    qualityThreshold: int,
    cacheHit: bool,
    requiresDecomposition: bool,
    parallelExecution: bool,
    clarificationNeeded: bool,
    world: W)

  /** The effective threshold where it is set, the plain one otherwise. */
  function Threshold<W>(s: AgentState<W>): int {
    if s.effectiveThreshold.Some? then s.effectiveThreshold.value else s.qualityThreshold
  }

  /** The answers of the decision functions. */
  datatype Decision =
    | Approved | RefineOutput | Fail | RefineSubOutput
    | Approve | CriticOutput
    | More | Done
    | NextSubTask | Aggregate
    | CacheHit | Single | Decompose | ParallelDecompose
    | Clarification | Continue

  datatype Verdict = Good | Exhausted | TooLow | Refinable

  /** The ladder all quality gates share; `iteration` already counts the attempt being judged. */
  function Judge(score: int, threshold: int, iteration: int, maxIterations: int): Verdict {
    if score >= threshold then Good
    else if iteration >= maxIterations then Exhausted
    else if score < 60 then TooLow
    else Refinable
  }

  /** Effect and answer of `should_approve_output`. */
  function OutputGate<W>(s: AgentState<W>): (AgentState<W>, Decision) {
    var t := s.(specialistIterationCount := s.specialistIterationCount + 1);
    match Judge(s.outputCriticScore, Threshold(s), t.specialistIterationCount, s.specialistMaxIterations)
    case Good => (t.(qualityGate := GatePass), Approved)
    case Exhausted => (t.(qualityGate := GateMaxIterations), Fail)
    case TooLow => (t.(qualityGate := GateFail), Fail)
    case Refinable => (t.(qualityGate := GateRefine), RefineOutput)
  }

  /** What one judged attempt makes of a sub-task. */
  function Judged(task: SubTask, threshold: int): SubTask {
    var t := task.(iterationCount := task.iterationCount + 1);
    match Judge(task.outputScore, threshold, t.iterationCount, task.maxIterations)
    case Good => t.(status := Completed)
    case Refinable => t
    case _ => t.(status := Failed)
  }

  function VerdictOf(task: SubTask, threshold: int): Verdict {
    Judge(task.outputScore, threshold, task.iterationCount + 1, task.maxIterations)
  }

  /** Not good enough, not hopeless, and with an iteration left. */
  predicate RefinableAt(task: SubTask, threshold: int) {
    60 <= task.outputScore < threshold && task.iterationCount + 1 < task.maxIterations
  }

  /** Effect and answer of `should_approve_sub_output`. */
  function SubOutputGate<W>(s: AgentState<W>): (AgentState<W>, Decision) {
    var i := s.currentSubTaskIndex;
    if i >= |s.subTasks| then (s, Fail)
    else
      (s.(subTasks := s.subTasks[i := Judged(s.subTasks[i], Threshold(s))]),
       match VerdictOf(s.subTasks[i], Threshold(s))
       case Good => Approved
       case Refinable => RefineSubOutput
       case _ => Fail)
  }

  /** Effect and answer of `has_more_subtasks`. */
  function MoreGate<W>(s: AgentState<W>): (AgentState<W>, Decision) {
    if s.subTasks == [] then (s, Done)
    else
      var i := s.currentSubTaskIndex;
      var t :=
        if i < |s.subTasks| && s.subTasks[i].IsTerminal() then
          s.(currentSubTaskIndex := i + 1,
             completedSubTasks := s.completedSubTasks + if s.subTasks[i].status == Completed then 1 else 0)
        else s;
      (t, if t.currentSubTaskIndex >= |s.subTasks| then Done else More)
  }

  /** Effect and answer of `sub_output_and_more_check`. */
  function SubLoopGate<W>(s: AgentState<W>): (AgentState<W>, Decision) {
    var (t, result) := SubOutputGate(s);
    if result == RefineSubOutput then (t, RefineSubOutput)
    else
      var (u, more) := MoreGate(t);
      (u, if more == More then NextSubTask else Aggregate)
  }

  /** Effect and answer of `should_use_llm_critic`. */
  function HeuristicGate<W>(s: AgentState<W>): (AgentState<W>, Decision) {
    if s.heuristicCriticPassed then
      (s.(outputCriticScore := s.heuristicCriticScore, qualityGate := GatePass), Approve)
    else (s, CriticOutput)
  }

  function CacheHitOrMiss<W>(s: AgentState<W>): (AgentState<W>, Decision) {
    (s,
     if s.cacheHit then CacheHit
     else if s.requiresDecomposition then if s.parallelExecution then ParallelDecompose else Decompose
     else Single)
  }

  /** `specialist_next`, `sub_specialist_next` and `parallel_next` are this one test. */
  function ClarificationOrContinue<W>(s: AgentState<W>): (AgentState<W>, Decision) {
    (s, if s.clarificationNeeded then Clarification else Continue)
  }

  /** The state dictionary the gates write to in place. */
  class StateDict<W> {
    var v: AgentState<W>

    constructor (v: AgentState<W>)
      ensures this.v == v
    {
      this.v := v;
    }
  }

  method ShouldApproveOutput<W>(state: StateDict<W>) returns (decision: Decision)
    modifies state
    ensures (state.v, decision) == OutputGate(old(state.v))
    ensures var s := old(state.v);
      var threshold := if s.effectiveThreshold.Some? then s.effectiveThreshold.value else s.qualityThreshold;
      && (decision == Approved <==> s.outputCriticScore >= threshold)
      && (decision == RefineOutput <==>
          60 <= s.outputCriticScore < threshold && s.specialistIterationCount + 1 < s.specialistMaxIterations)
      && (decision in {Approved, RefineOutput, Fail})
      && state.v == s.(specialistIterationCount := s.specialistIterationCount + 1, qualityGate :=
           if decision == Approved then GatePass
           else if decision == RefineOutput then GateRefine
           else if s.specialistIterationCount + 1 >= s.specialistMaxIterations then GateMaxIterations
           else GateFail)
  {
    var outputScore := state.v.outputCriticScore;
    var threshold := Threshold(state.v);
    state.v := state.v.(specialistIterationCount := state.v.specialistIterationCount + 1);
    if outputScore >= threshold {
      state.v := state.v.(qualityGate := GatePass);
      return Approved;
    }
    if state.v.specialistIterationCount >= state.v.specialistMaxIterations {
      state.v := state.v.(qualityGate := GateMaxIterations);
      return Fail;
    }
    if outputScore < 60 {
      state.v := state.v.(qualityGate := GateFail);
      return Fail;
    }
    state.v := state.v.(qualityGate := GateRefine);
    return RefineOutput;
  }

  method ShouldApproveSubOutput<W>(state: StateDict<W>) returns (decision: Decision)
    modifies state
    ensures (state.v, decision) == SubOutputGate(old(state.v))
    ensures old(state.v.currentSubTaskIndex) >= |old(state.v.subTasks)| ==> state.v == old(state.v) && decision == Fail
    ensures old(state.v.currentSubTaskIndex) < |old(state.v.subTasks)| ==>
      var s, i := old(state.v), old(state.v.currentSubTaskIndex);
      var threshold := if s.effectiveThreshold.Some? then s.effectiveThreshold.value else s.qualityThreshold;
      var task := s.subTasks[i];
      && (decision == Approved <==> task.outputScore >= threshold)
      && (decision == RefineSubOutput <==>
          60 <= task.outputScore < threshold && task.iterationCount + 1 < task.maxIterations)
      && (decision in {Approved, RefineSubOutput, Fail})
      && state.v == s.(subTasks := s.subTasks[i := task.(iterationCount := task.iterationCount + 1, status :=
           if decision == Approved then Completed else if decision == Fail then Failed else task.status)])
  {
    var i := state.v.currentSubTaskIndex;
    if i >= |state.v.subTasks| {
      return Fail;
    }
    var threshold := Threshold(state.v);
    var current := state.v.subTasks[i];
    current := current.(iterationCount := current.iterationCount + 1);
    state.v := state.v.(subTasks := state.v.subTasks[i := current]);
    if current.outputScore >= threshold {
      assert state.v.subTasks[i := current.(status := Completed)] ==
        old(state.v.subTasks)[i := current.(status := Completed)];
      state.v := state.v.(subTasks := state.v.subTasks[i := current.(status := Completed)]);
      return Approved;
    }
    if current.iterationCount >= current.maxIterations || current.outputScore < 60 {
      assert state.v.subTasks[i := current.(status := Failed)] ==
        old(state.v.subTasks)[i := current.(status := Failed)];
      state.v := state.v.(subTasks := state.v.subTasks[i := current.(status := Failed)]);
      return Fail;
    }
    return RefineSubOutput;
  }

  method HasMoreSubtasks<W>(state: StateDict<W>) returns (decision: Decision)
    modifies state
    ensures (state.v, decision) == MoreGate(old(state.v))
    ensures var s, i := old(state.v), old(state.v.currentSubTaskIndex);
      var settled := i < |s.subTasks| && s.subTasks[i].status in {Completed, Failed};
      && state.v == s.(currentSubTaskIndex := if settled then i + 1 else i,
                       completedSubTasks := s.completedSubTasks +
                         if settled && s.subTasks[i].status == Completed then 1 else 0)
      && decision == if s.subTasks != [] && state.v.currentSubTaskIndex < |s.subTasks| then More else Done
  {
    if state.v.subTasks == [] {
      return Done;
    }
    var i := state.v.currentSubTaskIndex;
    if i < |state.v.subTasks| {
      var current := state.v.subTasks[i];
      if current.status == Completed || current.status == Failed {
        state.v := state.v.(currentSubTaskIndex := i + 1);
        if current.status == Completed {
          state.v := state.v.(completedSubTasks := state.v.completedSubTasks + 1);
        }
      }
    }
    return if state.v.currentSubTaskIndex >= |state.v.subTasks| then Done else More;
  }

  method SubOutputAndMoreCheck<W>(state: StateDict<W>) returns (decision: Decision)
    modifies state
    ensures (state.v, decision) == SubLoopGate(old(state.v))
    ensures var s, i := old(state.v), old(state.v.currentSubTaskIndex);
      decision == if i >= |s.subTasks| then Aggregate
                  else if RefinableAt(s.subTasks[i], Threshold(s)) then RefineSubOutput
                  else if i + 1 < |s.subTasks| then NextSubTask else Aggregate
  {
    var result := ShouldApproveSubOutput(state);
    if result == RefineSubOutput {
      return RefineSubOutput;
    }
    var more := HasMoreSubtasks(state);
    return if more == More then NextSubTask else Aggregate;
  }

  method ShouldUseLlmCritic<W>(state: StateDict<W>) returns (decision: Decision)
    modifies state
    ensures (state.v, decision) == HeuristicGate(old(state.v))
    ensures decision == if old(state.v.heuristicCriticPassed) then Approve else CriticOutput
    ensures decision == Approve ==>
      state.v == old(state.v).(outputCriticScore := old(state.v.heuristicCriticScore), qualityGate := GatePass)
    ensures decision == CriticOutput ==> state.v == old(state.v)
  {
    if state.v.heuristicCriticPassed {
      state.v := state.v.(outputCriticScore := state.v.heuristicCriticScore);
      state.v := state.v.(qualityGate := GatePass);
      return Approve;
    }
    return CriticOutput;
  }

  /** Attempts a sub-task can still get: at least one, whatever its limit. */
  function AttemptsLeft(task: SubTask): nat {
    AtLeastOne(task.maxIterations - task.iterationCount)
  }

  function TotalAttemptsLeft(tasks: seq<SubTask>): nat {
    if tasks == [] then 0 else AttemptsLeft(tasks[0]) + TotalAttemptsLeft(tasks[1..])
  }

  /** Attempts left from the current sub-task on. */
  function LoopAttempts<W>(s: AgentState<W>): nat {
    if s.currentSubTaskIndex <= |s.subTasks| then TotalAttemptsLeft(s.subTasks[s.currentSubTaskIndex..]) else 0
  }

  function CountCompleted(tasks: seq<SubTask>): nat {
    if tasks == [] then 0
    else CountCompleted(tasks[..|tasks| - 1]) + if tasks[|tasks| - 1].status == Completed then 1 else 0
  }

  lemma {:induction false} CompletedAreCounted(tasks: seq<SubTask>)
    ensures CountCompleted(tasks) == |set i: nat | i < |tasks| && tasks[i].status == Completed|
  {
    var completed := set i: nat | i < |tasks| && tasks[i].status == Completed;
    if tasks == [] {
      assert completed == {};
    } else {
      var last := |tasks| - 1;
      var init := tasks[..last];
      CompletedAreCounted(init);
      var earlier := set i: nat | i < |init| && init[i].status == Completed;
      if tasks[last].status == Completed {
        assert completed == earlier + {last};
      } else {
        assert completed == earlier;
      }
    }
  }

  /**
   * Tasks before the index are terminal, the others are not, the counter counts the completed ones,
   * and unless there are no tasks at all one is current.
   */
  ghost predicate LoopAt(tasks: seq<SubTask>, index: nat, completed: int) {
    && index <= |tasks| && (tasks != [] ==> index < |tasks|)
    && (forall i :: 0 <= i < |tasks| ==> (tasks[i].IsTerminal() <==> i < index))
    && completed == CountCompleted(tasks[..index])
  }

  /** All tasks are terminal, the index is past the last and the counter counts the completed ones. */
  ghost predicate FinishedAt(tasks: seq<SubTask>, index: nat, completed: int) {
    && index == |tasks|
    && (forall i :: 0 <= i < |tasks| ==> tasks[i].IsTerminal())
    && completed == CountCompleted(tasks)
  }

  ghost predicate InSubTaskLoop<W>(s: AgentState<W>) {
    LoopAt(s.subTasks, s.currentSubTaskIndex, s.completedSubTasks)
  }

  ghost predicate SubTasksFinished<W>(s: AgentState<W>) {
    FinishedAt(s.subTasks, s.currentSubTaskIndex, s.completedSubTasks)
  }

  /** The combined gate, with a current sub-task: it judges it and moves on unless it is to be refined. */
  lemma SubLoopGateWithTask<W>(s: AgentState<W>)
    requires s.currentSubTaskIndex < |s.subTasks|
    ensures var i := s.currentSubTaskIndex;
      var task := Judged(s.subTasks[i], Threshold(s));
      var judged := s.(subTasks := s.subTasks[i := task]);
      SubLoopGate(s) ==
        if VerdictOf(s.subTasks[i], Threshold(s)) == Refinable then (judged, RefineSubOutput)
        else
          (judged.(currentSubTaskIndex := i + 1,
                   completedSubTasks := s.completedSubTasks + if task.status == Completed then 1 else 0),
           if i + 1 >= |s.subTasks| then Aggregate else NextSubTask)
  {
  }

  /** The combined gate keeps the loop invariant, or leaves the loop with every task settled. */
  lemma SubLoopGateKeepsInvariant<W>(s: AgentState<W>)
    requires InSubTaskLoop(s)
    ensures |SubLoopGate(s).0.subTasks| == |s.subTasks|
    ensures var (t, decision) := SubLoopGate(s);
      if decision == Aggregate then SubTasksFinished(t)
      else (decision == RefineSubOutput || decision == NextSubTask) && InSubTaskLoop(t)
  {
    if s.subTasks == [] {
      assert s.subTasks[..0] == s.subTasks;
    } else {
      hide SubLoopGate, Judged, VerdictOf, Threshold, FinishedAt;
      var i := s.currentSubTaskIndex;
      var task := Judged(s.subTasks[i], Threshold(s));
      SubLoopGateWithTask(s);
      JudgedUnlessRefinable(s.subTasks[i], Threshold(s));
      JudgingMovesOn(s.subTasks, i, s.completedSubTasks, task);
    }
  }

  /** Judging settles an open task unless it is to be refined. */
  lemma JudgedUnlessRefinable(task: SubTask, threshold: int)
    requires !task.IsTerminal()
    ensures Judged(task, threshold).IsTerminal() <==> VerdictOf(task, threshold) != Refinable
  {
  }

  /** With the current task judged, the loop stays where it is, moves on by one, or is finished. */
  lemma JudgingMovesOn(tasks: seq<SubTask>, i: nat, completed: int, task: SubTask)
    requires LoopAt(tasks, i, completed) && i < |tasks|
    ensures var now, count := tasks[i := task], completed + if task.status == Completed then 1 else 0;
      if !task.IsTerminal() then LoopAt(now, i, completed)
      else if i + 1 < |tasks| then LoopAt(now, i + 1, count)
      else FinishedAt(now, i + 1, count)
  {
    var now := tasks[i := task];
    assert now[..i] == tasks[..i];
    assert now[..i + 1][..i] == now[..i] && now[..i + 1][i] == task;
    assert i + 1 == |tasks| ==> now[..i + 1] == now;
  }

  lemma {:induction false} TotalAttemptsSplit(tasks: seq<SubTask>, i: nat)
    requires i < |tasks|
    ensures TotalAttemptsLeft(tasks[i..]) == AttemptsLeft(tasks[i]) + TotalAttemptsLeft(tasks[i + 1..])
  {
    assert tasks[i..][1..] == tasks[i + 1..];
  }

  lemma JudgingSpendsAnAttempt(task: SubTask, threshold: int)
    ensures VerdictOf(task, threshold) == Refinable ==> AttemptsLeft(Judged(task, threshold)) < AttemptsLeft(task)
    ensures AttemptsLeft(task) >= 1
  {
  }

  /** The measure of the sub-task loop: each pass through the combined gate that stays in the loop costs an attempt. */
  lemma SubLoopGateSpendsAnAttempt<W>(s: AgentState<W>)
    requires s.currentSubTaskIndex < |s.subTasks|
    ensures LoopAttempts(s) >= 1
    ensures var (t, decision) := SubLoopGate(s);
      decision != Aggregate ==> t.currentSubTaskIndex < |t.subTasks| && LoopAttempts(t) < LoopAttempts(s)
  {
    var i := s.currentSubTaskIndex;
    var task := Judged(s.subTasks[i], Threshold(s));
    hide SubLoopGate, TotalAttemptsLeft, Threshold, Judged, VerdictOf;
    SubLoopGateWithTask(s);
    JudgingSpendsAnAttempt(s.subTasks[i], Threshold(s));
    TotalAttemptsSplit(s.subTasks, i);
    TotalAttemptsSplit(s.subTasks[i := task], i);
    assert s.subTasks[i := task][i + 1..] == s.subTasks[i + 1..];
  }
}

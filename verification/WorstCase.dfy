/** The step budget is exact: some well-behaved nodes use every node of it. */
module WorstCase {
  import opened Numbers
  import opened Options
  import opened WorkflowEngine
  import opened Decisions
  import opened AgentGraph
  import opened StepBudget

  type State = AgentState<()>

  function FreshTask(id: nat, m: int): SubTask {
    SubTask(id, Pending, 0, m, 0, "")
  }

  /** Leaves the current sub-task evaluated with a score that asks for another attempt. */
  function ScoreSixty(s: State): State {
    var i := s.currentSubTaskIndex;
    if i < |s.subTasks| then
      s.(subTasks := s.subTasks[i := s.subTasks[i].(outputScore := 60, status := Evaluated)])
    else s
  }

  /** The slowest node of each name: it prefers the longer path and has everything refined to the last attempt. */
  function Slowest(node: NodeName, n: nat, m: int): State -> State {
    match node
    case Router => (s: State) =>
      if 11 + 2 * AtLeastOne(n * AtLeastOne(m)) > 9 + 5 * AtLeastOne(m) then
        s.(requiresDecomposition := true, parallelExecution := false, currentSubTaskIndex := 0, completedSubTasks := 0,
           subTasks := seq(n, i requires 0 <= i => FreshTask(i, m)))
      else s.(requiresDecomposition := false, specialistIterationCount := 0, specialistMaxIterations := m)
    case CacheLookup => (s: State) => s.(cacheHit := false)
    case Specialist => (s: State) => s.(clarificationNeeded := false)
    case HeuristicCritic => (s: State) => s.(heuristicCriticPassed := false)
    case LlmCritic => (s: State) => s.(outputCriticScore := if SpecialistAttempts(s) > 1 then 60 else Threshold(s))
    case FinalCritic => (s: State) => s.(outputCriticScore := Threshold(s))
    case SubSpecialist => (s: State) => ScoreSixty(s).(clarificationNeeded := false)
    case SubCritic => (s: State) => ScoreSixty(s)
    case Aggregator => (s: State) =>
      s.(completedSubTasks := if CountCompleted(s.subTasks) > 0 then CountCompleted(s.subTasks)
        else s.completedSubTasks)
    case _ => (s: State) => s
  }

  function SlowestNodes(n: nat, m: int): Nodes<()> {
    map node: NodeName | true :: Slowest(node, n, m)
  }

  lemma ScoreSixtyWorksOnTheCurrentTask(s: State, t: State)
    requires t.subTasks == ScoreSixty(s).subTasks
    ensures OnlyCurrentTaskWorkedOn(s, t)
  {
  }

  lemma SlowRouterMayTurn(n: nat, m: int, s: State)
    ensures MayTurn(Router, n, m, s, Slowest(Router, n, m)(s))
  {
    hide AtLeastOne;
  }

  lemma SlowestMayTurn(node: NodeName, n: nat, m: int, s: State)
    ensures MayTurn(node, n, m, s, Slowest(node, n, m)(s))
  {
    if node == Router {
      hide *;
      SlowRouterMayTurn(n, m, s);
    } else if node in {SubSpecialist, SubCritic} {
      SlowSubTaskNodeMayTurn(node, n, m, s);
    } else {
      hide FreshSubTasks, CountCompleted, SpecialistAttempts, AtLeastOne, Threshold, ScoreSixty;
    }
  }

  lemma SlowSubTaskNodeMayTurn(node: NodeName, n: nat, m: int, s: State)
    requires node in {SubSpecialist, SubCritic}
    ensures MayTurn(node, n, m, s, Slowest(node, n, m)(s))
  {
    hide ScoreSixty, OnlyCurrentTaskWorkedOn;
    ScoreSixtyWritesSubTasks(s);
    ScoreSixtyWorksOnTheCurrentTask(s, Slowest(node, n, m)(s));
  }

  lemma ScoreSixtyWritesSubTasks(s: State)
    ensures ScoreSixty(s) == s.(subTasks := ScoreSixty(s).subTasks)
  {
  }

  lemma SlowestNodesAreWellBehaved(n: nat, m: int)
    ensures WellBehaved(SlowestNodes(n, m), n, m)
  {
    hide MayTurn, Slowest;
    forall node: NodeName, s: State
      ensures MayTurn(node, n, m, s, Slowest(node, n, m)(s))
    {
      SlowestMayTurn(node, n, m, s);
    }
  }

  /** What the slowest nodes keep true of the state in which `node` is about to run. */
  ghost predicate OnTheSlowPath(node: NodeName, s: State) {
    && Threshold(s) > 60
    && (node in {SubSpecialist, SubCritic} ==>
         s.currentSubTaskIndex <= |s.subTasks| && (s.subTasks != [] ==> s.currentSubTaskIndex < |s.subTasks|))
    && (node in {SkillGenerator, SkillLoader, InjectMemory, CacheLookup} && s.requiresDecomposition ==>
         s.currentSubTaskIndex == 0 && !s.parallelExecution)
    && (node in {MemoryNote, RecordLessonUses} ==>
         s.outputCriticScore == if SpecialistAttempts(s) > 1 then 60 else Threshold(s))
    && node != ParallelSubtasks
  }

  /** Where the slowest run goes from here, with one node less to spend. */
  ghost predicate CostsOne(next: Place<()>, n: nat, m: int, budget: nat) {
    if next.At? then Budget(next.node, n, m, next.state) == budget - 1 && OnTheSlowPath(next.node, next.state)
    else budget == 1
  }

  lemma SlowRouterCostsOne(n: nat, m: int, s: State)
    requires OnTheSlowPath(Router, s)
    ensures CostsOne(Successor(Router, Slowest(Router, n, m)(s)), n, m, Budget(Router, n, m, s))
  {
    var t := Slowest(Router, n, m)(s);
    if t.requiresDecomposition {
      SlowRouterMayTurn(n, m, s);
      FreshAttempts(t.subTasks, 0, n, m);
      assert t.subTasks[0..] == t.subTasks;
      hide FreshSubTasks, TotalAttemptsLeft;
    }
  }

  lemma SlowSinglePathCostsOne(node: NodeName, n: nat, m: int, s: State)
    requires node in {CacheLookup, Specialist, HeuristicCritic, LlmCritic, MemoryNote, RecordLessonUses}
    requires OnTheSlowPath(node, s)
    ensures CostsOne(Successor(node, Slowest(node, n, m)(s)), n, m, Budget(node, n, m, s))
  {
    hide SubLoopGate, TotalAttemptsLeft, RunBudget, CountCompleted, ScoreSixty, OutputGate;
    if node == RecordLessonUses {
      SlowGateAsksAgain(s);
    } else if node != CacheLookup {
      hide LoopAttempts, PathBudget;
    }
  }

  /** On the single path the slow critic has everything refined until one attempt is left. */
  lemma SlowGateAsksAgain(s: State)
    requires OnTheSlowPath(RecordLessonUses, s)
    ensures var (u, decision) := OutputGate(s);
      && decision == (if SpecialistAttempts(s) > 1 then RefineOutput else Approved)
      && (SpecialistAttempts(s) > 1 ==> SpecialistAttempts(u) == SpecialistAttempts(s) - 1)
      && Threshold(u) == Threshold(s)
  {
  }

  lemma SlowStraightStepCostsOne(node: NodeName, n: nat, m: int, s: State)
    requires node in {SkillGenerator, SkillLoader, InjectMemory, ParallelSubtasks, Aggregator, FinalCritic,
                      Format, Post, SkillCleanup, PersistMemory}
    requires OnTheSlowPath(node, s)
    ensures CostsOne(Successor(node, Slowest(node, n, m)(s)), n, m, Budget(node, n, m, s))
  {
    hide SubLoopGate, RunBudget, CountCompleted, PathBudget, AtLeastOne;
    if node == FinalCritic {
      SlowFinalCriticCostsOne(n, m, s);
    } else {
      hide OutputGate;
    }
  }

  lemma SlowFinalCriticCostsOne(n: nat, m: int, s: State)
    requires OnTheSlowPath(FinalCritic, s)
    ensures CostsOne(Successor(FinalCritic, Slowest(FinalCritic, n, m)(s)), n, m, Budget(FinalCritic, n, m, s))
  {
  }

  lemma ScoreSixtyKeepsAttempts(s: State, t: State)
    requires t == ScoreSixty(s).(clarificationNeeded := false)
    ensures t == s.(subTasks := t.subTasks, clarificationNeeded := false)
    ensures |t.subTasks| == |s.subTasks| && LoopAttempts(t) == LoopAttempts(s)
  {
    ScoreSixtyWorksOnTheCurrentTask(s, t);
    WorkKeepsAttempts(s, t);
  }

  lemma SlowSubSpecialistCostsOne(n: nat, m: int, s: State)
    requires OnTheSlowPath(SubSpecialist, s)
    ensures CostsOne(Successor(SubSpecialist, Slowest(SubSpecialist, n, m)(s)), n, m, Budget(SubSpecialist, n, m, s))
  {
    hide Slowest, Successor, ScoreSixty, LoopAttempts, AtLeastOne, OnTheSlowPath;
    SlowSubSpecialistLeadsToCritic(n, m, s);
    ScoreSixtyKeepsAttempts(s, ScoreSixty(s).(clarificationNeeded := false));
  }

  lemma SlowSubSpecialistLeadsToCritic(n: nat, m: int, s: State)
    requires OnTheSlowPath(SubSpecialist, s)
    ensures var t := ScoreSixty(s).(clarificationNeeded := false);
      Successor(SubSpecialist, Slowest(SubSpecialist, n, m)(s)) == At(SubCritic, t) && OnTheSlowPath(SubCritic, t)
  {
    hide *;
    var t := ScoreSixty(s).(clarificationNeeded := false);
    ScoreSixtyKeepsAttempts(s, t);
    StaysOnTheSlowPath(s, t);
    SlowSubSpecialistSuccessor(n, m, s);
  }

  lemma SlowSubSpecialistSuccessor(n: nat, m: int, s: State)
    ensures Successor(SubSpecialist, Slowest(SubSpecialist, n, m)(s)) ==
      At(SubCritic, ScoreSixty(s).(clarificationNeeded := false))
  {
    hide ScoreSixty;
  }

  lemma StaysOnTheSlowPath(s: State, t: State)
    requires OnTheSlowPath(SubSpecialist, s) && |t.subTasks| == |s.subTasks|
    requires t == s.(subTasks := t.subTasks, clarificationNeeded := false)
    ensures OnTheSlowPath(SubCritic, t)
  {
  }

  lemma SlowGateSpendsOneAttempt(s: State)
    requires OnTheSlowPath(SubCritic, s)
    ensures var (u, decision) := SubLoopGate(ScoreSixty(s));
      && Threshold(u) == Threshold(s)
      && if decision == Aggregate then LoopAttempts(s) <= 1
         else u.currentSubTaskIndex < |u.subTasks| && LoopAttempts(u) == LoopAttempts(s) - 1 >= 1
  {
    var t := ScoreSixty(s);
    ScoreSixtyWorksOnTheCurrentTask(s, t);
    WorkKeepsAttempts(s, t);
    if t.currentSubTaskIndex < |t.subTasks| {
      hide SubLoopGate, LoopAttempts;
      SixtySpendsOneAttempt(t);
    }
  }

  lemma SlowSubCriticCostsOne(n: nat, m: int, s: State)
    requires OnTheSlowPath(SubCritic, s)
    ensures CostsOne(Successor(SubCritic, Slowest(SubCritic, n, m)(s)), n, m, Budget(SubCritic, n, m, s))
  {
    hide ScoreSixty, SubLoopGate, LoopAttempts;
    SlowGateSpendsOneAttempt(s);
  }

  /** Scored 60 below the threshold, a sub-task has all its attempts used: exactly one goes per pass. */
  lemma SixtySpendsOneAttempt(t: State)
    requires t.currentSubTaskIndex < |t.subTasks|
    requires t.subTasks[t.currentSubTaskIndex].outputScore == 60 < Threshold(t)
    ensures LoopAttempts(t) >= 1
    ensures var (u, decision) := SubLoopGate(t);
      && Threshold(u) == Threshold(t)
      && if decision == Aggregate then LoopAttempts(t) == 1
         else u.currentSubTaskIndex < |u.subTasks| && LoopAttempts(u) == LoopAttempts(t) - 1 >= 1
  {
    var i := t.currentSubTaskIndex;
    var task := Judged(t.subTasks[i], Threshold(t));
    SubLoopGateWithTask(t);
    hide SubLoopGate, TotalAttemptsLeft;
    TotalAttemptsSplit(t.subTasks, i);
    TotalAttemptsSplit(t.subTasks[i := task], i);
    assert t.subTasks[i := task][i + 1..] == t.subTasks[i + 1..];
    if i + 1 < |t.subTasks| {
      TotalAttemptsSplit(t.subTasks, i + 1);
    } else {
      NothingLeft(t.subTasks[i + 1..]);
    }
  }

  lemma NothingLeft(tasks: seq<SubTask>)
    requires tasks == []
    ensures TotalAttemptsLeft(tasks) == 0
  {
  }

  /** On the slow path every step costs one node of the budget, no more. */
  lemma SlowStepCostsOne(node: NodeName, n: nat, m: int, s: State)
    requires OnTheSlowPath(node, s)
    ensures CostsOne(Successor(node, Slowest(node, n, m)(s)), n, m, Budget(node, n, m, s))
  {
    hide *;
    if node == Router {
      SlowRouterCostsOne(n, m, s);
    } else if node == SubCritic {
      SlowSubCriticCostsOne(n, m, s);
    } else if node == SubSpecialist {
      SlowSubSpecialistCostsOne(n, m, s);
    } else if node in {CacheLookup, Specialist, HeuristicCritic, LlmCritic, MemoryNote, RecordLessonUses} {
      SlowSinglePathCostsOne(node, n, m, s);
    } else {
      SlowStraightStepCostsOne(node, n, m, s);
    }
  }

  lemma {:induction false} SlowRunUsesTheBudget(n: nat, m: int, node: NodeName, s: State, limit: nat)
    requires OnTheSlowPath(node, s) && limit < Budget(node, n, m, s)
    ensures RunWithin(Wired(SlowestNodes(n, m)), At(node, s), limit).StepLimit?
    decreases limit
  {
    hide OnTheSlowPath, Budget, Slowest, Successor, ResolveNext;
    if limit > 0 {
      var t := Slowest(node, n, m)(s);
      SlowStepCostsOne(node, n, m, s);
      TablesAgreeWithSuccessor(SlowestNodes(n, m), node, t);
      var next := Successor(node, t);
      SlowRunUsesTheBudget(n, m, next.node, next.state, limit - 1);
    }
  }

  /**
   * A step limit is never hit, whatever the nodes and the critics do, exactly when it is at least
   * `RunBudget`: the larger of 9 + 5 iterations and 11 + 2 iterations per sub-task.
   */
  lemma LimitIsEnoughIffAtLeastTheBudget(n: nat, m: int, limit: nat)
    ensures limit >= RunBudget(n, m) <==>
      forall nodes: Nodes<()>, s: State | WellBehaved(nodes, n, m) ::
        RunWithin(Wired(nodes), At(Router, s), limit).Finished?
  {
    if limit >= RunBudget(n, m) {
      forall nodes: Nodes<()>, s: State | WellBehaved(nodes, n, m)
        ensures RunWithin(Wired(nodes), At(Router, s), limit).Finished?
      {
        FinishesWithinBudget(nodes, n, m, Router, s, limit);
      }
    } else {
      var s: State := AgentState([], 0, 0, 0, 3, 0, GatePass, false, 0, None, 85, false, false, false, false, ());
      SlowestNodesAreWellBehaved(n, m);
      SlowRunUsesTheBudget(n, m, Router, s, limit);
    }
  }
}

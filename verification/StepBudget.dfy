/** Every run of the agent graph ends, and within how many nodes. */
module StepBudget {
  import opened Numbers
  import opened WorkflowEngine
  import opened Decisions
  import opened AgentGraph

  /** The sub-tasks the router writes: at most `n`, none begun, each with `m` iterations. */
  ghost predicate FreshSubTasks(tasks: seq<SubTask>, n: nat, m: int) {
    && |tasks| <= n
    && forall i :: 0 <= i < |tasks| ==>
      tasks[i].id == i && tasks[i].status == Pending && tasks[i].iterationCount == 0 && tasks[i].maxIterations == m
  }

  /** The current sub-task of `t` differs from that of `s` in output, score and status only. */
  ghost predicate OnlyCurrentTaskWorkedOn<W>(s: AgentState<W>, t: AgentState<W>) {
    && |t.subTasks| == |s.subTasks|
    && (forall i :: 0 <= i < |s.subTasks| && i != s.currentSubTaskIndex ==> t.subTasks[i] == s.subTasks[i])
    && (s.currentSubTaskIndex < |s.subTasks| ==>
         var a, b := s.subTasks[s.currentSubTaskIndex], t.subTasks[s.currentSubTaskIndex];
         b == a.(output := b.output, outputScore := b.outputScore, status := b.status) && !b.IsTerminal())
  }

  /**
   * What the body of `node` may turn state `s` into. Gates aside, only the router and the parallel
   * node write loop counters, and only they and the gates settle a sub-task.
   */
  ghost predicate MayTurn<W>(node: NodeName, n: nat, m: int, s: AgentState<W>, t: AgentState<W>) {
    match node
    case Router =>
      && t == s.(world := t.world, subTasks := t.subTasks, currentSubTaskIndex := t.currentSubTaskIndex,
                 completedSubTasks := t.completedSubTasks, specialistIterationCount := t.specialistIterationCount,
                 specialistMaxIterations := t.specialistMaxIterations,
                 requiresDecomposition := t.requiresDecomposition, parallelExecution := t.parallelExecution)
      && (if t.requiresDecomposition then
            FreshSubTasks(t.subTasks, n, m) && t.currentSubTaskIndex == 0 && t.completedSubTasks == 0
          else t.specialistIterationCount == 0 && t.specialistMaxIterations == m)
    case CacheLookup => t == s.(world := t.world, cacheHit := t.cacheHit, outputCriticScore := t.outputCriticScore)
    case Specialist => t == s.(world := t.world, clarificationNeeded := t.clarificationNeeded)
    case HeuristicCritic =>
      t == s.(world := t.world, heuristicCriticPassed := t.heuristicCriticPassed,
        heuristicCriticScore := t.heuristicCriticScore)
    case LlmCritic => t == s.(world := t.world, outputCriticScore := t.outputCriticScore)
    case FinalCritic => t == s.(world := t.world, outputCriticScore := t.outputCriticScore)
    case SubSpecialist =>
      && t == s.(world := t.world, clarificationNeeded := t.clarificationNeeded, subTasks := t.subTasks)
      && OnlyCurrentTaskWorkedOn(s, t)
    case SubCritic => t == s.(world := t.world, subTasks := t.subTasks) && OnlyCurrentTaskWorkedOn(s, t)
    case ParallelSubtasks =>
      t == s.(world := t.world, subTasks := t.subTasks, currentSubTaskIndex := t.currentSubTaskIndex,
              completedSubTasks := t.completedSubTasks, clarificationNeeded := t.clarificationNeeded)
    case Aggregator =>
      t == s.(world := t.world, completedSubTasks :=
                if CountCompleted(s.subTasks) > 0 then CountCompleted(s.subTasks) else s.completedSubTasks)
    case _ => t == s.(world := t.world)
  }

  /** All nodes are registered and keep to `MayTurn` in every state. */
  ghost predicate WellBehaved<W(!new)>(nodes: Nodes<W>, n: nat, m: int) {
    && (forall node: NodeName :: node in nodes)
    && forall node: NodeName, s: AgentState<W> {:trigger MayTurn(node, n, m, s, nodes[node](s))} ::
      MayTurn(node, n, m, s, nodes[node](s))
  }

  /** Specialist attempts left on the single path. */
  function SpecialistAttempts<W>(s: AgentState<W>): nat {
    AtLeastOne(s.specialistMaxIterations - s.specialistIterationCount)
  }

  /** Nodes still to run after the cache missed. */
  function PathBudget<W>(s: AgentState<W>): nat {
    if s.requiresDecomposition then 2 * AtLeastOne(LoopAttempts(s)) + 6 else 5 * SpecialistAttempts(s) + 4
  }

  /** The bound for a whole run: 5 nodes to the cache, then the single path or the sub-task loop. */
  function RunBudget(n: nat, m: int): nat {
    var single, loop := 9 + 5 * AtLeastOne(m), 11 + 2 * AtLeastOne(n * AtLeastOne(m));
    if single > loop then single else loop
  }

  /** The most nodes a run can execute from `node` in state `s`, `node` included. */
  function Budget<W>(node: NodeName, n: nat, m: int, s: AgentState<W>): nat {
    match node
    case Router => RunBudget(n, m)
    case SkillGenerator => PathBudget(s) + 4
    case SkillLoader => PathBudget(s) + 3
    case InjectMemory => PathBudget(s) + 2
    case CacheLookup => PathBudget(s) + 1
    case Specialist => 5 * SpecialistAttempts(s) + 4
    case HeuristicCritic => 5 * SpecialistAttempts(s) + 3
    case LlmCritic => 5 * SpecialistAttempts(s) + 2
    case MemoryNote => 5 * SpecialistAttempts(s) + 1
    case RecordLessonUses => 5 * SpecialistAttempts(s)
    case SubSpecialist => 2 * AtLeastOne(LoopAttempts(s)) + 6
    case SubCritic => 2 * AtLeastOne(LoopAttempts(s)) + 5
    case ParallelSubtasks => 7
    case Aggregator => 6
    case FinalCritic => 5
    case Format => 4
    case Post => 3
    case SkillCleanup => 2
    case PersistMemory => 1
  }

  lemma {:induction false} FreshAttempts(tasks: seq<SubTask>, i: nat, n: nat, m: int)
    requires FreshSubTasks(tasks, n, m) && i <= |tasks|
    ensures TotalAttemptsLeft(tasks[i..]) == (|tasks| - i) * AtLeastOne(m)
    decreases |tasks| - i
  {
    if i < |tasks| {
      FreshAttempts(tasks, i + 1, n, m);
      TotalAttemptsSplit(tasks, i);
      assert (|tasks| - i) * AtLeastOne(m) == (|tasks| - (i + 1)) * AtLeastOne(m) + AtLeastOne(m);
    }
  }

  /** Working on the current sub-task does not change how many attempts are left. */
  lemma WorkKeepsAttempts<W>(s: AgentState<W>, t: AgentState<W>)
    requires OnlyCurrentTaskWorkedOn(s, t) && t.currentSubTaskIndex == s.currentSubTaskIndex
    ensures LoopAttempts(t) == LoopAttempts(s)
  {
    var i := s.currentSubTaskIndex;
    if i < |s.subTasks| {
      TotalAttemptsSplit(s.subTasks, i);
      TotalAttemptsSplit(t.subTasks, i);
      assert t.subTasks[i + 1..] == s.subTasks[i + 1..];
    } else if i == |s.subTasks| {
      assert s.subTasks[i..] == [] && t.subTasks[i..] == [];
    }
  }

  ghost predicate Cheaper<W>(c: Place<W>, n: nat, m: int, budget: nat) {
    if c.At? then Budget(c.node, n, m, c.state) < budget else c.Finished? && budget == 1
  }

  lemma TimesIsMonotone(a: nat, b: nat, k: nat)
    requires a <= b
    ensures a * k <= b * k
  {
  }

  lemma RouterIsCheaper<W>(n: nat, m: int, s: AgentState<W>, t: AgentState<W>)
    requires MayTurn(Router, n, m, s, t)
    ensures PathBudget(t) + 5 <= RunBudget(n, m)
  {
    if t.requiresDecomposition {
      FreshAttempts(t.subTasks, 0, n, m);
      assert t.subTasks[0..] == t.subTasks;
      TimesIsMonotone(|t.subTasks|, n, AtLeastOne(m));
    }
  }

  lemma SubCriticIsCheaper<W>(n: nat, m: int, s: AgentState<W>, t: AgentState<W>)
    requires MayTurn(SubCritic, n, m, s, t)
    ensures Cheaper(Successor(SubCritic, t), n, m, Budget(SubCritic, n, m, s))
  {
    hide SubLoopGate, LoopAttempts, OnlyCurrentTaskWorkedOn;
    WorkKeepsAttempts(s, t);
    if t.currentSubTaskIndex < |t.subTasks| {
      SubLoopGateSpendsAnAttempt(t);
      var (u, decision) := SubLoopGate(t);
      if decision != Aggregate {
        SubLoopGateSpendsAnAttempt(u);
      }
    } else {
      GateWithoutTaskAggregates(t);
    }
  }

  lemma GateWithoutTaskAggregates<W>(t: AgentState<W>)
    requires t.currentSubTaskIndex >= |t.subTasks|
    ensures SubLoopGate(t).1 == Aggregate
  {
  }

  /** Refinement on the single path costs an attempt. */
  lemma OutputGateSpendsAnAttempt<W>(t: AgentState<W>)
    ensures var (u, decision) := OutputGate(t);
      && u.specialistMaxIterations == t.specialistMaxIterations
      && decision in {Approved, RefineOutput, Fail}
      && (decision == RefineOutput ==> SpecialistAttempts(u) == SpecialistAttempts(t) - 1)
    ensures SpecialistAttempts(t) >= 1
  {
  }

  /** The single path: only its own gate touches the attempts left. */
  lemma SinglePathIsCheaper<W>(node: NodeName, n: nat, m: int, s: AgentState<W>, t: AgentState<W>)
    requires node in {CacheLookup, Specialist, HeuristicCritic, LlmCritic, MemoryNote, RecordLessonUses}
    requires MayTurn(node, n, m, s, t)
    ensures Cheaper(Successor(node, t), n, m, Budget(node, n, m, s))
  {
    hide SubLoopGate, FreshSubTasks, OnlyCurrentTaskWorkedOn, TotalAttemptsLeft, RunBudget, CountCompleted, OutputGate;
    OutputGateSpendsAnAttempt(t);
  }

  /** Everything outside the two loops: a fixed number of nodes ahead, or one fewer before the cache. */
  lemma StraightStepIsCheaper<W>(node: NodeName, n: nat, m: int, s: AgentState<W>, t: AgentState<W>)
    requires node in {SkillGenerator, SkillLoader, InjectMemory, ParallelSubtasks, Aggregator, FinalCritic,
                      Format, Post, SkillCleanup, PersistMemory}
    requires MayTurn(node, n, m, s, t)
    ensures Cheaper(Successor(node, t), n, m, Budget(node, n, m, s))
  {
    hide SubLoopGate, FreshSubTasks, OnlyCurrentTaskWorkedOn, TotalAttemptsLeft, RunBudget, CountCompleted;
  }

  /** Whatever a well-behaved node does, the budget of the place it leads to is smaller. */
  lemma EveryStepIsCheaper<W>(node: NodeName, n: nat, m: int, s: AgentState<W>, t: AgentState<W>)
    requires MayTurn(node, n, m, s, t)
    ensures Cheaper(Successor(node, t), n, m, Budget(node, n, m, s))
  {
    if node == Router {
      RouterIsCheaper(n, m, s, t);
    } else if node == SubCritic {
      SubCriticIsCheaper(n, m, s, t);
    } else if node == SubSpecialist {
      WorkKeepsAttempts(s, t);
    } else {
      hide *;
      if node in {CacheLookup, Specialist, HeuristicCritic, LlmCritic, MemoryNote, RecordLessonUses} {
        SinglePathIsCheaper(node, n, m, s, t);
      } else {
        StraightStepIsCheaper(node, n, m, s, t);
      }
    }
  }

  /** From every place a run finishes, without an error, within the budget of the place. */
  lemma {:induction false} FinishesWithinBudget<W(!new)>(nodes: Nodes<W>, n: nat, m: int, node: NodeName,
      s: AgentState<W>, limit: nat)
    requires WellBehaved(nodes, n, m) && Budget(node, n, m, s) <= limit
    ensures RunWithin(Wired(nodes), At(node, s), limit).Finished?
    decreases limit
  {
    hide MayTurn, Budget, Successor, ResolveNext;
    var t := nodes[node](s);
    var next := Successor(node, t);
    EveryStepIsCheaper(node, n, m, s, t);
    TablesAgreeWithSuccessor(nodes, node, t);
    if next.At? {
      FinishesWithinBudget(nodes, n, m, next.node, next.state, limit - 1);
    }
  }

  /**
   * The router makes at most 5 sub-tasks and allows 3 iterations: every limit of at least 41 nodes is
   * enough, and the engine's is 50.
   */
  lemma RouterRunsFitTheEngine<W(!new)>(nodes: Nodes<W>, s: AgentState<W>, limit: nat)
    requires WellBehaved(nodes, 5, 3) && limit >= 41
    ensures RunWithin(Wired(nodes), At(Router, s), limit).Finished?
    ensures RunBudget(5, 3) == 41 && DEFAULT_MAX_STEPS == 50
  {
    FinishesWithinBudget(nodes, 5, 3, Router, s, limit);
  }
}

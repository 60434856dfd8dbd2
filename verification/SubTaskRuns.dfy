/** What the sequential sub-task loop keeps true over every run of the agent graph. */
module SubTaskRuns {
  import opened Numbers
  import opened WorkflowEngine
  import opened Decisions
  import opened AgentGraph
  import opened StepBudget
  import opened SequentialSubtasks

  /** A settled sub-task was settled by its last score: completed if and only if it reached the threshold. */
  ghost predicate SettledByScore(task: SubTask, threshold: int) {
    && 1 <= task.iterationCount <= AtLeastOne(task.maxIterations)
    && (task.status == Completed <==> task.outputScore >= threshold)
    && (task.status == Failed ==> task.outputScore < 60 || task.iterationCount >= task.maxIterations)
  }

  /** Settled tasks were judged, the current one has an attempt left, the later ones are untouched. */
  ghost predicate Scored<W>(s: AgentState<W>) {
    forall i :: 0 <= i < |s.subTasks| ==>
      var task := s.subTasks[i];
      if i < s.currentSubTaskIndex then SettledByScore(task, Threshold(s))
      else if i == s.currentSubTaskIndex then task.iterationCount < AtLeastOne(task.maxIterations)
      else task.iterationCount == 0
  }

  /** The invariant, place by place; the parallel node does not go through the loop. */
  ghost predicate LoopInvariant<W>(c: Place<W>) {
    c.At? ==>
      match c.node
      case SkillGenerator | SkillLoader | InjectMemory | CacheLookup =>
        c.state.requiresDecomposition ==> InSubTaskLoop(c.state) && Scored(c.state)
      case SubSpecialist | SubCritic => InSubTaskLoop(c.state) && Scored(c.state)
      case ParallelSubtasks => c.state.parallelExecution
      case Aggregator | FinalCritic => c.state.parallelExecution || (SubTasksFinished(c.state) && Scored(c.state))
      case _ => true
  }

  lemma FreshTasksEnterTheLoop<W>(n: nat, m: int, s: AgentState<W>)
    requires FreshSubTasks(s.subTasks, n, m) && s.currentSubTaskIndex == 0 && s.completedSubTasks == 0
    ensures InSubTaskLoop(s) && Scored(s)
  {
    assert s.subTasks[..0] == [];
  }

  lemma WorkKeepsLoopInvariant<W>(s: AgentState<W>, t: AgentState<W>)
    requires InSubTaskLoop(s) && Scored(s) && OnlyCurrentTaskWorkedOn(s, t)
    requires t.currentSubTaskIndex == s.currentSubTaskIndex && t.completedSubTasks == s.completedSubTasks
    requires Threshold(t) == Threshold(s)
    ensures InSubTaskLoop(t) && Scored(t)
  {
    WorkKeepsLoop(s, t);
  }

  lemma GateKeepsScored<W>(s: AgentState<W>)
    requires InSubTaskLoop(s) && Scored(s)
    ensures Scored(SubLoopGate(s).0)
  {
    hide SubTasksFinished, CountCompleted;
    if s.subTasks != [] {
      hide SubLoopGate, Judged, VerdictOf, Threshold, SettledByScore;
      var i := s.currentSubTaskIndex;
      SubLoopGateWithTask(s);
      JudgingScores(s.subTasks[i], Threshold(s));
      SameThreshold(s);
    }
  }

  /** One judged attempt settles the sub-task by its score or leaves it an attempt. */
  lemma JudgingScores(task: SubTask, threshold: int)
    requires !task.IsTerminal() && task.iterationCount < AtLeastOne(task.maxIterations)
    ensures if VerdictOf(task, threshold) == Refinable then
        Judged(task, threshold).iterationCount < AtLeastOne(task.maxIterations) ==
          AtLeastOne(Judged(task, threshold).maxIterations)
      else SettledByScore(Judged(task, threshold), threshold)
  {
  }

  lemma SameThreshold<W>(s: AgentState<W>)
    ensures Threshold(SubLoopGate(s).0) == Threshold(s)
  {
    hide Judged, VerdictOf;
  }

  /** The gate at the critic: the loop goes on with its invariant, or ends with everything settled. */
  lemma CriticKeepsLoopInvariant<W>(n: nat, m: int, s: AgentState<W>, t: AgentState<W>)
    requires MayTurn(SubCritic, n, m, s, t) && LoopInvariant(At(SubCritic, s))
    ensures LoopInvariant(Successor(SubCritic, t))
  {
    assert InSubTaskLoop(t) && Scored(t) by {
      WorkKeepsLoopInvariant(s, t);
    }
    hide InSubTaskLoop, SubTasksFinished, Scored, SubLoopGate, MayTurn;
    SubLoopGateKeepsInvariant(t);
    GateKeepsScored(t);
  }

  lemma StepKeepsLoopInvariant<W>(node: NodeName, n: nat, m: int, s: AgentState<W>, t: AgentState<W>)
    requires MayTurn(node, n, m, s, t) && LoopInvariant(At(node, s))
    ensures LoopInvariant(Successor(node, t))
  {
    hide *;
    if node == SubCritic {
      CriticKeepsLoopInvariant(n, m, s, t);
    } else if node in {Router, SkillGenerator, SkillLoader, InjectMemory, CacheLookup} {
      StepBeforeTheLoop(node, n, m, s, t);
    } else if node in {SubSpecialist, ParallelSubtasks, Aggregator} {
      StepBesideTheCritic(node, n, m, s, t);
    } else {
      StepOutsideTheLoop(node, t);
    }
  }

  lemma StepBeforeTheLoop<W>(node: NodeName, n: nat, m: int, s: AgentState<W>, t: AgentState<W>)
    requires node in {Router, SkillGenerator, SkillLoader, InjectMemory, CacheLookup}
    requires MayTurn(node, n, m, s, t) && LoopInvariant(At(node, s))
    ensures LoopInvariant(Successor(node, t))
  {
    hide FreshSubTasks, LoopAt, FinishedAt, SettledByScore;
    if node == Router && t.requiresDecomposition {
      FreshTasksEnterTheLoop(n, m, t);
    }
  }

  lemma StepBesideTheCritic<W>(node: NodeName, n: nat, m: int, s: AgentState<W>, t: AgentState<W>)
    requires node in {SubSpecialist, ParallelSubtasks, Aggregator}
    requires MayTurn(node, n, m, s, t) && LoopInvariant(At(node, s))
    ensures LoopInvariant(Successor(node, t))
  {
    hide OnlyCurrentTaskWorkedOn, LoopAt, FinishedAt, SettledByScore;
    if node == SubSpecialist {
      WorkKeepsLoopInvariant(s, t);
    } else if node == Aggregator {
      RecountKeepsFinished(n, m, s, t);
    }
  }

  /** Here the invariant asks for nothing at the next node. */
  lemma StepOutsideTheLoop<W>(node: NodeName, t: AgentState<W>)
    requires node in {Specialist, HeuristicCritic, LlmCritic, MemoryNote, RecordLessonUses, FinalCritic, Format, Post,
                      SkillCleanup, PersistMemory}
    ensures LoopInvariant(Successor(node, t))
  {
    hide OutputGate, HeuristicGate, SubLoopGate;
  }

  /** The aggregator's recount of finished sub-tasks comes to what was counted. */
  lemma RecountKeepsFinished<W>(n: nat, m: int, s: AgentState<W>, t: AgentState<W>)
    requires MayTurn(Aggregator, n, m, s, t)
    ensures SubTasksFinished(s) ==> t == s.(world := t.world)
  {
  }

  lemma NodeMayTurn<W(!new)>(nodes: Nodes<W>, n: nat, m: int, node: NodeName, s: AgentState<W>)
    requires WellBehaved(nodes, n, m)
    ensures node in nodes && MayTurn(node, n, m, s, nodes[node](s))
  {
    hide MayTurn;
  }

  lemma StoppedKeepsLoopInvariant<W>(c: Place<W>)
    requires !c.At?
    ensures LoopInvariant(c)
  {
  }

  /** Over every run: in the loop the index splits settled from open sub-tasks, after it all are settled and counted. */
  lemma {:induction false} EveryPlaceKeepsLoopInvariant<W(!new)>(nodes: Nodes<W>, n: nat, m: int, s: AgentState<W>,
      k: nat)
    requires WellBehaved(nodes, n, m)
    ensures LoopInvariant(After(Wired(nodes), At(Router, s), k))
  {
    if k == 0 {
      assert After(Wired(nodes), At(Router, s), k) == At(Router, s);
    } else {
      hide MayTurn, Successor, ResolveNext, LoopInvariant;
      EveryPlaceKeepsLoopInvariant(nodes, n, m, s, k - 1);
      var c := After(Wired(nodes), At(Router, s), k - 1);
      if c.At? {
        var t := nodes[c.node](c.state);
        NodeMayTurn(nodes, n, m, c.node, c.state);
        hide WellBehaved;
        StepKeepsLoopInvariant(c.node, n, m, c.state, t);
        TablesAgreeWithSuccessor(nodes, c.node, t);
      } else {
        StoppedKeepsLoopInvariant(c);
      }
    }
  }

  /** The aggregator's recount never changes the counter the loop kept. */
  lemma RecountAgrees<W(!new)>(nodes: Nodes<W>, n: nat, m: int, s: AgentState<W>, k: nat)
    requires WellBehaved(nodes, n, m)
    ensures var c := After(Wired(nodes), At(Router, s), k);
      c.At? && c.node == Aggregator && !c.state.parallelExecution ==>
        nodes[Aggregator](c.state).completedSubTasks == c.state.completedSubTasks == CountCompleted(c.state.subTasks)
  {
    EveryPlaceKeepsLoopInvariant(nodes, n, m, s, k);
    var c := After(Wired(nodes), At(Router, s), k);
    if c.At? && c.node == Aggregator {
      assert MayTurn(Aggregator, n, m, c.state, nodes[Aggregator](c.state));
    }
  }
}

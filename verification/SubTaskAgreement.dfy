/** When the parallel sub-task node and the sequential loop leave the same sub-tasks. */
module SubTaskAgreement {
  import opened WorkflowEngine
  import opened Decisions
  import opened AgentGraph
  import opened StepBudget
  import opened SubTaskOutcome
  import opened SequentialSubtasks
  import Workers = ParallelSubtasks

  lemma {:induction false} CountByStatus(a: seq<SubTask>, b: seq<SubTask>)
    requires |a| == |b| && forall i :: 0 <= i < |a| ==> a[i].status == b[i].status
    ensures CountCompleted(a) == CountCompleted(b)
  {
    if a != [] {
      CountByStatus(a[..|a| - 1], b[..|b| - 1]);
    }
  }

  /** `t` is what the parallel node leaves of `s` when no worker raises and the wait does not end early. */
  ghost predicate LeftInParallel<W(!new)>(nodes: Nodes<W>, n: nat, m: int, s: AgentState<W>, t: AgentState<W>,
      answers: nat -> W)
    requires WellBehaved(nodes, n, m)
  {
    && |t.subTasks| == |s.subTasks|
    && (forall i: nat :: i < |s.subTasks| ==>
      t.subTasks[i] == Workers.RanAlone(nodes, n, m, s, s.subTasks[i], answers(i)))
    && t.currentSubTaskIndex == |s.subTasks|
    && t.completedSubTasks == CountCompleted(t.subTasks)
  }

  /** The same sub-tasks, texts aside, and the same counters. */
  ghost predicate SameSubTasks<W>(t: AgentState<W>, u: AgentState<W>) {
    && |t.subTasks| == |u.subTasks|
    && (forall i :: 0 <= i < |t.subTasks| ==> Core(t.subTasks[i]) == Core(u.subTasks[i]))
    && t.currentSubTaskIndex == u.currentSubTaskIndex
    && t.completedSubTasks == u.completedSubTasks
  }

  /** The node that runs after `k` nodes of the loop entered in `s`, if it is the aggregator. */
  ghost predicate Arrives<W>(nodes: Nodes<W>, s: AgentState<W>, k: nat, t: AgentState<W>) {
    After(Wired(nodes), At(SubSpecialist, s), k) == At(Aggregator, t)
  }

  /** The loop entered in `s` arrives at the aggregator with the sub-tasks of `parallel`. */
  ghost predicate LoopArrivesWith<W(!new)>(nodes: Nodes<W>, s: AgentState<W>, parallel: AgentState<W>) {
    exists k: nat, t: AgentState<W> :: Arrives(nodes, s, k, t) && SameSubTasks(t, parallel)
  }

  /**
   * For the same critic scores the parallel node and the sequential loop leave the same sub-tasks,
   * texts aside, and the same counters: with the effective threshold equal to the plain one and an
   * iteration allowed for every sub-task.
   */
  lemma ParallelAgreesWithSequential<W(!new)>(nodes: Nodes<W>, n: nat, m: int, score: Scores, s: AgentState<W>,
      parallel: AgentState<W>, answers: nat -> W)
    requires WellBehaved(nodes, n, m) && ScoresBy(nodes, score) && NeverAsks(nodes)
    requires InSubTaskLoop(s) && s.currentSubTaskIndex == 0 && !s.clarificationNeeded
    requires SameRules(s)
    requires LeftInParallel(nodes, n, m, s, parallel, answers)
    ensures LoopArrivesWith(nodes, s, parallel)
  {
    hide WellBehaved, ScoresBy, NeverAsks, CountCompleted, Settled, InSubTaskLoop, After, Workers.RanAlone;
    var k, t := LoopSettles(nodes, n, m, score, s);
    forall i: nat | i < |s.subTasks|
      ensures Core(t.subTasks[i]) == Core(parallel.subTasks[i])
    {
      Workers.RanAloneIsFate(nodes, n, m, score, s, s.subTasks[i], answers(i));
    }
    forall i | 0 <= i < |s.subTasks|
      ensures t.subTasks[i].status == parallel.subTasks[i].status
    {
      assert Core(t.subTasks[i]).status == Core(parallel.subTasks[i]).status;
    }
    CountByStatus(t.subTasks, parallel.subTasks);
    assert Arrives(nodes, s, k, t);
  }

  /** Every sub-task is allowed an iteration, and unless there is none the triage left the threshold alone. */
  predicate SameRules<W>(s: AgentState<W>) {
    && (forall i :: 0 <= i < |s.subTasks| ==> s.subTasks[i].maxIterations >= 1)
    && (s.subTasks != [] ==> Threshold(s) == s.qualityThreshold)
  }

  /**
   * The two agree on an open sub-task for all scores exactly when it is allowed an iteration and the
   * triage left the threshold alone: the workers never see the effective threshold.
   */
  lemma AgreementIffSameThreshold(task: SubTask, plain: int, effective: int)
    requires !task.IsTerminal()
    ensures (forall score: Scores ::
      Core(Workers.ParallelFate(task, plain, score)) == Core(Settled(task, effective, score)))
      <==> task.maxIterations >= 1 && plain == effective
  {
    var low := if plain < effective then plain else effective;
    var score: Scores := (id: nat, attempt: nat) => low;
    SettledByFirstFinalAttempt(task, effective, score);
    SettledByFirstFinalAttempt(task, plain, score);
    if task.maxIterations < 1 || plain != effective {
      assert Core(Workers.ParallelFate(task, plain, score)).status != Core(Settled(task, effective, score)).status;
    }
  }

  /** Once past the aggregator a run never comes back to it. */
  lemma {:induction false} NeverBackAtAggregator<W(!new)>(nodes: Nodes<W>, n: nat, m: int, t: AgentState<W>, k: nat)
    requires WellBehaved(nodes, n, m) && k > 0
    ensures var c := After(Wired(nodes), At(Aggregator, t), k);
      c.Finished? || (c.At? && c.node in {FinalCritic, Format, Post, SkillCleanup, PersistMemory})
  {
    hide MayTurn, ResolveNext, OutputGate, SubLoopGate, HeuristicGate;
    var c := After(Wired(nodes), At(Aggregator, t), k - 1);
    if k > 1 {
      NeverBackAtAggregator(nodes, n, m, t, k - 1);
    } else {
      assert c == At(Aggregator, t);
    }
    if c.At? {
      TablesAgreeWithSuccessor(nodes, c.node, nodes[c.node](c.state));
    }
  }

  /** So a run arrives there once. */
  lemma ArrivesOnce<W(!new)>(nodes: Nodes<W>, n: nat, m: int, s: AgentState<W>, j: nat, t: AgentState<W>, k: nat,
      u: AgentState<W>)
    requires WellBehaved(nodes, n, m) && j <= k && Arrives(nodes, s, j, t) && Arrives(nodes, s, k, u)
    ensures t == u
  {
    hide WellBehaved, After;
    if j < k {
      AfterAfter(Wired(nodes), At(SubSpecialist, s), j, k - j);
      NeverBackAtAggregator(nodes, n, m, t, k - j);
    }
  }

  /** The current sub-task evaluated with the score it is due. */
  function ScoreCurrent<W>(s: AgentState<W>, score: Scores): AgentState<W> {
    var i := s.currentSubTaskIndex;
    if i < |s.subTasks| then
      s.(subTasks := s.subTasks[i := ScoredTask(s.subTasks[i], score).(status := Evaluated)])
    else s
  }

  function Scoring<W>(node: NodeName, m: int, score: Scores): AgentState<W> -> AgentState<W> {
    match node
    case Router => (s: AgentState<W>) =>
      s.(requiresDecomposition := false, specialistIterationCount := 0, specialistMaxIterations := m)
    case SubSpecialist => (s: AgentState<W>) => ScoreCurrent(s, score)
    case SubCritic => (s: AgentState<W>) => ScoreCurrent(s, score)
    case Aggregator => (s: AgentState<W>) =>
      s.(completedSubTasks := if CountCompleted(s.subTasks) > 0 then CountCompleted(s.subTasks)
        else s.completedSubTasks)
    case _ => (s: AgentState<W>) => s
  }

  /** Nodes whose critic gives the scores of `score`. */
  function ScoringNodes<W>(m: int, score: Scores): Nodes<W> {
    map node: NodeName | true :: Scoring(node, m, score)
  }

  lemma ScoreCurrentWorksOnTheCurrentTask<W>(s: AgentState<W>, score: Scores)
    ensures OnlyCurrentTaskWorkedOn(s, ScoreCurrent(s, score))
    ensures ScoreCurrent(s, score) == s.(subTasks := ScoreCurrent(s, score).subTasks)
  {
  }

  lemma ScoringMayTurn<W>(node: NodeName, n: nat, m: int, score: Scores, s: AgentState<W>)
    ensures MayTurn(node, n, m, s, Scoring(node, m, score)(s))
  {
    hide OnlyCurrentTaskWorkedOn, FreshSubTasks, CountCompleted, ScoreCurrent;
    ScoreCurrentWorksOnTheCurrentTask(s, score);
  }

  lemma ScoringNodesScore<W(!new)>(n: nat, m: int, score: Scores)
    ensures WellBehaved(ScoringNodes<W>(m, score), n, m)
    ensures ScoresBy(ScoringNodes<W>(m, score), score) && NeverAsks(ScoringNodes<W>(m, score))
  {
    hide MayTurn;
    forall node: NodeName, s: AgentState<W>
      ensures MayTurn(node, n, m, s, ScoringNodes(m, score)[node](s))
    {
      ScoringMayTurn(node, n, m, score, s);
    }
  }

  /** One sub-task with two fates keeps the loop from arriving with what the node left. */
  lemma TwoFatesDisagree<W(!new)>(nodes: Nodes<W>, n: nat, m: int, score: Scores, s: AgentState<W>,
      parallel: AgentState<W>, answers: nat -> W, i: nat)
    requires WellBehaved(nodes, n, m) && ScoresBy(nodes, score) && NeverAsks(nodes)
    requires InSubTaskLoop(s) && s.currentSubTaskIndex == 0 && !s.clarificationNeeded && i < |s.subTasks|
    requires LeftInParallel(nodes, n, m, s, parallel, answers)
    requires Core(Workers.ParallelFate(s.subTasks[i], s.qualityThreshold, score))
      != Core(Settled(s.subTasks[i], Threshold(s), score))
    ensures !LoopArrivesWith(nodes, s, parallel)
  {
    hide WellBehaved, ScoresBy, NeverAsks, CountCompleted, Settled, InSubTaskLoop, Workers.RanAlone, After, Threshold,
      Core, Workers.ParallelFate, SubTasksFinished;
    Workers.RanAloneIsFate(nodes, n, m, score, s, s.subTasks[i], answers(i));
    var k, t := LoopSettles(nodes, n, m, score, s);
    assert Arrives(nodes, s, k, t);
    assert Core(t.subTasks[i]) != Core(parallel.subTasks[i]);
    hide Arrives, SettledFrom, LeftInParallel;
    forall j: nat, u | Arrives(nodes, s, j, u)
      ensures !SameSubTasks(u, parallel)
    {
      if j <= k {
        ArrivesOnce(nodes, n, m, s, j, u, k, t);
      } else {
        ArrivesOnce(nodes, n, m, s, k, t, j, u);
      }
    }
  }

  lemma SomethingIsLeftInParallel<W(!new)>(nodes: Nodes<W>, n: nat, m: int, s: AgentState<W>, answers: nat -> W)
    returns (parallel: AgentState<W>)
    requires WellBehaved(nodes, n, m)
    ensures LeftInParallel(nodes, n, m, s, parallel, answers)
  {
    hide WellBehaved, Workers.RanAlone, CountCompleted;
    var tasks := seq(|s.subTasks|, j requires 0 <= j < |s.subTasks| =>
      Workers.RanAlone(nodes, n, m, s, s.subTasks[j], answers(j)));
    parallel := s.(subTasks := tasks, currentSubTaskIndex := |tasks|, completedSubTasks := CountCompleted(tasks));
  }

  /** Under different rules some critic makes the node and the loop disagree. */
  lemma SomeScoresDisagree<W(!new)>(n: nat, m: int, s: AgentState<W>, answers: nat -> W)
    returns (nodes: Nodes<W>, score: Scores, parallel: AgentState<W>)
    requires InSubTaskLoop(s) && s.currentSubTaskIndex == 0 && !s.clarificationNeeded && !SameRules(s)
    ensures WellBehaved(nodes, n, m) && ScoresBy(nodes, score) && NeverAsks(nodes)
    ensures LeftInParallel(nodes, n, m, s, parallel, answers) && !LoopArrivesWith(nodes, s, parallel)
  {
    hide WellBehaved, ScoresBy, NeverAsks, CountCompleted, Settled, Threshold, LeftInParallel, LoopArrivesWith, Core,
      Workers.ParallelFate, ScoringNodes;
    var i := if Threshold(s) != s.qualityThreshold then 0 else
      var i :| 0 <= i < |s.subTasks| && s.subTasks[i].maxIterations < 1; i;
    AgreementIffSameThreshold(s.subTasks[i], s.qualityThreshold, Threshold(s));
    hide InSubTaskLoop, SameRules;
    score :| Core(Workers.ParallelFate(s.subTasks[i], s.qualityThreshold, score))
      != Core(Settled(s.subTasks[i], Threshold(s), score));
    nodes := ScoringNodes(m, score);
    ScoringNodesScore<W>(n, m, score);
    parallel := SomethingIsLeftInParallel(nodes, n, m, s, answers);
    TwoFatesDisagree(nodes, n, m, score, s, parallel, answers, i);
  }

  /**
   * The node and the loop agree for all critics exactly when every sub-task is allowed an iteration
   * and, unless there are no sub-tasks, the effective threshold is the plain one.
   */
  lemma NodesAgreeIff<W(!new)>(n: nat, m: int, s: AgentState<W>, answers: nat -> W)
    requires InSubTaskLoop(s) && s.currentSubTaskIndex == 0 && !s.clarificationNeeded
    ensures SameRules(s) <==>
      forall nodes: Nodes<W>, score: Scores, parallel: AgentState<W> |
        WellBehaved(nodes, n, m) && ScoresBy(nodes, score) && NeverAsks(nodes) &&
        LeftInParallel(nodes, n, m, s, parallel, answers) ::
        LoopArrivesWith(nodes, s, parallel)
  {
    hide *;
    if SameRules(s) {
      forall nodes: Nodes<W>, score: Scores, parallel: AgentState<W> |
        WellBehaved(nodes, n, m) && ScoresBy(nodes, score) && NeverAsks(nodes) &&
        LeftInParallel(nodes, n, m, s, parallel, answers)
        ensures LoopArrivesWith(nodes, s, parallel)
      {
        ParallelAgreesWithSequential(nodes, n, m, score, s, parallel, answers);
      }
    } else {
      var nodes, score, parallel := SomeScoresDisagree(n, m, s, answers);
    }
  }
}

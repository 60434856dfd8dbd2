/** The sequential sub-task loop of the wired graph computes `Settled` for every sub-task. */
module SequentialSubtasks {
  import opened WorkflowEngine
  import opened Decisions
  import opened AgentGraph
  import opened StepBudget
  import opened SubTaskOutcome

  /** The critic node gives attempt after attempt the scores of `score`. */
  ghost predicate ScoresBy<W(!new)>(nodes: Nodes<W>, score: Scores) {
    SubCritic in nodes &&
    forall s: AgentState<W> {:trigger nodes[SubCritic](s)} :: s.currentSubTaskIndex < |s.subTasks| ==>
      var i := s.currentSubTaskIndex;
      var t := nodes[SubCritic](s);
      i < |t.subTasks| && t.subTasks[i].outputScore == score(s.subTasks[i].id, s.subTasks[i].iterationCount)
  }

  /** The specialist, which only ever raises the flag, raises it in no state. */
  ghost predicate NeverAsks<W(!new)>(nodes: Nodes<W>) {
    SubSpecialist in nodes &&
    forall s: AgentState<W> {:trigger nodes[SubSpecialist](s)} ::
      !s.clarificationNeeded ==> !nodes[SubSpecialist](s).clarificationNeeded
  }

  /** The state after one attempt at the current sub-task: the specialist, then the critic, before the gate. */
  ghost function Attempted<W(!new)>(nodes: Nodes<W>, s: AgentState<W>): AgentState<W>
    requires SubSpecialist in nodes && SubCritic in nodes
  {
    nodes[SubCritic](nodes[SubSpecialist](s))
  }

  /** Working on the current sub-task is an update in place of its text, score and status. */
  lemma WorkIsAnUpdate<W>(s: AgentState<W>, t: AgentState<W>)
    requires OnlyCurrentTaskWorkedOn(s, t) && s.currentSubTaskIndex < |s.subTasks|
    ensures |t.subTasks| == |s.subTasks|
    ensures var i := s.currentSubTaskIndex;
      && t.subTasks == s.subTasks[i := t.subTasks[i]]
      && t.subTasks[i] == s.subTasks[i].(output := t.subTasks[i].output, status := t.subTasks[i].status,
                                         outputScore := t.subTasks[i].outputScore)
  {
  }

  lemma SpecialistWorks<W(!new)>(nodes: Nodes<W>, n: nat, m: int, s: AgentState<W>)
    requires WellBehaved(nodes, n, m)
    ensures var a := nodes[SubSpecialist](s);
      a == s.(world := a.world, clarificationNeeded := a.clarificationNeeded, subTasks := a.subTasks)
        && OnlyCurrentTaskWorkedOn(s, a)
  {
    assert MayTurn(SubSpecialist, n, m, s, nodes[SubSpecialist](s));
  }

  lemma CriticWorks<W(!new)>(nodes: Nodes<W>, n: nat, m: int, s: AgentState<W>)
    requires WellBehaved(nodes, n, m)
    ensures var t := nodes[SubCritic](s);
      t == s.(world := t.world, subTasks := t.subTasks) && OnlyCurrentTaskWorkedOn(s, t)
  {
    assert MayTurn(SubCritic, n, m, s, nodes[SubCritic](s));
  }

  /** An attempt changes the current sub-task's text, status and score, and nothing else the loop uses. */
  lemma AttemptedTask<W(!new)>(nodes: Nodes<W>, n: nat, m: int, score: Scores, s: AgentState<W>)
    requires WellBehaved(nodes, n, m) && ScoresBy(nodes, score) && NeverAsks(nodes)
    requires s.currentSubTaskIndex < |s.subTasks| && !s.clarificationNeeded
    ensures var t, i := Attempted(nodes, s), s.currentSubTaskIndex;
      && t == s.(world := t.world, subTasks := t.subTasks)
      && |t.subTasks| == |s.subTasks|
      && t.subTasks == s.subTasks[i := t.subTasks[i]]
      && t.subTasks[i] == s.subTasks[i].(output := t.subTasks[i].output, status := t.subTasks[i].status,
                                         outputScore := score(s.subTasks[i].id, s.subTasks[i].iterationCount))
  {
    hide OnlyCurrentTaskWorkedOn, MayTurn, WellBehaved;
    var a := nodes[SubSpecialist](s);
    SpecialistWorks(nodes, n, m, s);
    WorkIsAnUpdate(s, a);
    CriticWorks(nodes, n, m, a);
    WorkIsAnUpdate(a, nodes[SubCritic](a));
  }

  /** Two nodes of the graph make one attempt and pass the combined gate. */
  lemma TwoNodesMakeAnAttempt<W(!new)>(nodes: Nodes<W>, n: nat, m: int, s: AgentState<W>)
    requires WellBehaved(nodes, n, m) && NeverAsks(nodes) && !s.clarificationNeeded
    ensures var (u, decision) := SubLoopGate(Attempted(nodes, s));
      After(Wired(nodes), At(SubSpecialist, s), 2) == At(if decision == Aggregate then Aggregator else SubSpecialist, u)
  {
    hide SubLoopGate, MayTurn, ResolveNext;
    var a := nodes[SubSpecialist](s);
    TablesAgreeWithSuccessor(nodes, SubSpecialist, a);
    TablesAgreeWithSuccessor(nodes, SubCritic, nodes[SubCritic](a));
    var c := At(SubSpecialist, s);
    assert After(Wired(nodes), c, 0) == c;
    assert After(Wired(nodes), c, 1) == At(SubCritic, a);
  }

  /** The gate after an attempt settles the current sub-task as `Settled` says, or leaves the rest of it to do. */
  lemma GateAfterAttempt<W>(s: AgentState<W>, t: AgentState<W>, score: Scores)
    requires s.currentSubTaskIndex < |s.subTasks| == |t.subTasks| && t.currentSubTaskIndex == s.currentSubTaskIndex
    requires Threshold(t) == Threshold(s)
    requires var i := s.currentSubTaskIndex;
      && t.subTasks == s.subTasks[i := t.subTasks[i]]
      && t.subTasks[i] == s.subTasks[i].(output := t.subTasks[i].output, status := t.subTasks[i].status,
                                         outputScore := score(s.subTasks[i].id, s.subTasks[i].iterationCount))
    ensures var (u, decision) := SubLoopGate(t);
      var i := s.currentSubTaskIndex;
      && |u.subTasks| == |s.subTasks| && Threshold(u) == Threshold(s)
      && u.clarificationNeeded == t.clarificationNeeded
      && u.subTasks == s.subTasks[i := u.subTasks[i]]
      && (if decision == RefineSubOutput then
            u.currentSubTaskIndex == i
            && Core(Settled(u.subTasks[i], Threshold(s), score)) == Core(Settled(s.subTasks[i], Threshold(s), score))
          else
            u.currentSubTaskIndex == i + 1
            && Core(u.subTasks[i]) == Core(Settled(s.subTasks[i], Threshold(s), score)))
      && (decision == NextSubTask ==> i + 1 < |s.subTasks|)
      && (decision == Aggregate ==> i + 1 == |s.subTasks|)
      && decision in {RefineSubOutput, NextSubTask, Aggregate}
  {
    var i := s.currentSubTaskIndex;
    SubLoopGateWithTask(t);
    hide SubLoopGate;
    AttemptStep(s.subTasks[i], t.subTasks[i], Threshold(s), score);
  }

  /** `t` holds the sub-tasks of `s`, from its current one on settled by `score`. */
  ghost predicate SettledFrom<W>(s: AgentState<W>, t: AgentState<W>, score: Scores) {
    && |t.subTasks| == |s.subTasks|
    && (forall i :: 0 <= i < s.currentSubTaskIndex && i < |s.subTasks| ==> t.subTasks[i] == s.subTasks[i])
    && (forall i :: s.currentSubTaskIndex <= i < |s.subTasks| ==>
      Core(t.subTasks[i]) == Core(Settled(s.subTasks[i], Threshold(s), score)))
  }

  /** The loop reaches the aggregator with every sub-task from there on settled. */
  lemma {:induction false} LoopSettles<W(!new)>(nodes: Nodes<W>, n: nat, m: int, score: Scores, s: AgentState<W>)
    returns (k: nat, t: AgentState<W>)
    requires WellBehaved(nodes, n, m) && ScoresBy(nodes, score) && NeverAsks(nodes)
    requires InSubTaskLoop(s) && !s.clarificationNeeded
    ensures After(Wired(nodes), At(SubSpecialist, s), k) == At(Aggregator, t)
    ensures SettledFrom(s, t, score) && SubTasksFinished(t)
    decreases LoopAttempts(s)
  {
    hide MayTurn, After, InSubTaskLoop, SubTasksFinished;
    TwoNodesMakeAnAttempt(nodes, n, m, s);
    if s.subTasks == [] {
      LoopWithoutSubTasks(nodes, n, m, s);
      return 2, SubLoopGate(Attempted(nodes, s)).0;
    }
    InLoopHasCurrent(s);
    var b := Attempted(nodes, s);
    AttemptedTask(nodes, n, m, score, s);
    GateAfterAttempt(s, b, score);
    AttemptKeepsLoop(nodes, n, m, s);
    hide SubLoopGate, Attempted, LoopAttempts, WellBehaved, ScoresBy, NeverAsks, Settled, Threshold, Core;
    var (u, decision) := SubLoopGate(b);
    if decision == Aggregate {
      k, t := 2, u;
    } else {
      var rest;
      rest, t := LoopSettles(nodes, n, m, score, u);
      k := 2 + rest;
      AfterAfter(Wired(nodes), At(SubSpecialist, s), 2, rest);
      StillSettledFrom(s, u, t, score);
    }
  }

  /** What one attempt leaves, settled, is what it began with, settled. */
  lemma StillSettledFrom<W>(s: AgentState<W>, u: AgentState<W>, t: AgentState<W>, score: Scores)
    requires s.currentSubTaskIndex < |s.subTasks| == |u.subTasks| && Threshold(u) == Threshold(s)
    requires SettledFrom(u, t, score)
    requires var i := s.currentSubTaskIndex;
      && u.subTasks == s.subTasks[i := u.subTasks[i]]
      && ((u.currentSubTaskIndex == i
           && Core(Settled(u.subTasks[i], Threshold(s), score)) == Core(Settled(s.subTasks[i], Threshold(s), score)))
          || (u.currentSubTaskIndex == i + 1
              && Core(u.subTasks[i]) == Core(Settled(s.subTasks[i], Threshold(s), score))))
    ensures SettledFrom(s, t, score)
  {
    hide Settled, Threshold, Core;
    var i := s.currentSubTaskIndex;
    if u.currentSubTaskIndex == i + 1 {
      assert t.subTasks[i] == u.subTasks[i];
    }
  }

  /** With nothing to do, one pass through the two nodes leads to the aggregator. */
  lemma LoopWithoutSubTasks<W(!new)>(nodes: Nodes<W>, n: nat, m: int, s: AgentState<W>)
    requires WellBehaved(nodes, n, m) && InSubTaskLoop(s) && s.subTasks == []
    ensures SubSpecialist in nodes && SubCritic in nodes
    ensures var (u, decision) := SubLoopGate(Attempted(nodes, s));
      u.subTasks == [] && decision == Aggregate && SubTasksFinished(u)
  {
    hide MayTurn, WellBehaved;
    NodesPresent(nodes, n, m);
    SpecialistWorks(nodes, n, m, s);
    CriticWorks(nodes, n, m, nodes[SubSpecialist](s));
  }

  lemma InLoopHasCurrent<W>(s: AgentState<W>)
    requires InSubTaskLoop(s) && s.subTasks != []
    ensures s.currentSubTaskIndex < |s.subTasks|
  {
  }

  /** One attempt keeps the loop invariant, or finishes the loop, and uses up an attempt. */
  lemma AttemptKeepsLoop<W(!new)>(nodes: Nodes<W>, n: nat, m: int, s: AgentState<W>)
    requires WellBehaved(nodes, n, m) && NeverAsks(nodes)
    requires InSubTaskLoop(s) && s.subTasks != []
    ensures var (u, decision) := SubLoopGate(Attempted(nodes, s));
      if decision == Aggregate then SubTasksFinished(u)
      else InSubTaskLoop(u) && u.subTasks != [] && LoopAttempts(u) < LoopAttempts(s)
  {
    hide WellBehaved, NeverAsks, InSubTaskLoop, SubTasksFinished, SubLoopGate, OnlyCurrentTaskWorkedOn, LoopAttempts;
    NodesPresent(nodes, n, m);
    var a := nodes[SubSpecialist](s);
    var t := nodes[SubCritic](a);
    SpecialistWorks(nodes, n, m, s);
    CriticWorks(nodes, n, m, a);
    WorkKeepsAttempts(s, a);
    WorkKeepsAttempts(a, t);
    InLoopHasCurrent(s);
    WorkKeepsLoop(s, a);
    WorkKeepsLoop(a, t);
    InLoopHasCurrent(t);
    SubLoopGateKeepsInvariant(t);
    SubLoopGateSpendsAnAttempt(t);
  }

  lemma NodesPresent<W(!new)>(nodes: Nodes<W>, n: nat, m: int)
    requires WellBehaved(nodes, n, m)
    ensures SubSpecialist in nodes && SubCritic in nodes
  {
  }

  lemma WorkKeepsLoop<W>(s: AgentState<W>, t: AgentState<W>)
    requires InSubTaskLoop(s) && OnlyCurrentTaskWorkedOn(s, t)
    requires t.currentSubTaskIndex == s.currentSubTaskIndex && t.completedSubTasks == s.completedSubTasks
    ensures InSubTaskLoop(t) && |t.subTasks| == |s.subTasks|
  {
    assert t.subTasks[..t.currentSubTaskIndex] == s.subTasks[..s.currentSubTaskIndex];
  }
}

/** What becomes of one sub-task, as a function of its critic scores alone. */
module SubTaskOutcome {
  import opened Decisions

  /** The critic's score for attempt `attempt` (counted from 0) at the sub-task with id `id`. */
  type Scores = (nat, nat) -> int

  /** A sub-task without the text the specialist wrote. */
  function Core(task: SubTask): SubTask {
    task.(output := "")
  }

  function ScoredTask(task: SubTask, score: Scores): SubTask {
    task.(outputScore := score(task.id, task.iterationCount))
  }

  /** The sub-task once its attempts are over. */
  function Settled(task: SubTask, threshold: int, score: Scores): SubTask
    decreases task.maxIterations - task.iterationCount
  {
    var scored := ScoredTask(task, score);
    if VerdictOf(scored, threshold) == Refinable then Settled(Judged(scored, threshold), threshold, score)
    else Judged(scored, threshold)
  }

  /**
   * The first attempt that is not refinable settles it: all earlier ones score between 60 and the
   * threshold, the last one decides, and no attempt is made beyond the limit except the first.
   */
  lemma {:induction false} SettledByFirstFinalAttempt(task: SubTask, threshold: int, score: Scores)
    ensures var end := Settled(task, threshold, score);
      && end == task.(iterationCount := end.iterationCount, outputScore := end.outputScore, status := end.status)
      && task.iterationCount < end.iterationCount
      && (end.iterationCount == task.iterationCount + 1 || end.iterationCount <= task.maxIterations)
      && (forall a :: task.iterationCount <= a < end.iterationCount - 1 ==> 60 <= score(task.id, a) < threshold)
      && end.outputScore == score(task.id, end.iterationCount - 1)
      && (if end.outputScore >= threshold then end.status == Completed
          else end.status == Failed && (end.outputScore < 60 || end.iterationCount >= task.maxIterations))
    decreases task.maxIterations - task.iterationCount
  {
    var scored := ScoredTask(task, score);
    if VerdictOf(scored, threshold) == Refinable {
      SettledByFirstFinalAttempt(Judged(scored, threshold), threshold, score);
    }
  }

  /** Neither the text, nor an earlier score, nor the status a sub-task had matters for what becomes of it. */
  lemma {:induction false} SettledIgnoresText(a: SubTask, b: SubTask, threshold: int, score: Scores)
    requires b == a.(output := b.output, outputScore := b.outputScore, status := b.status)
    ensures Core(Settled(a, threshold, score)) == Core(Settled(b, threshold, score))
    decreases a.maxIterations - a.iterationCount
  {
    var sa, sb := ScoredTask(a, score), ScoredTask(b, score);
    if VerdictOf(sa, threshold) == Refinable {
      SettledIgnoresText(Judged(sa, threshold), Judged(sb, threshold), threshold, score);
    }
  }

  /** One attempt, whatever the specialist wrote: either it settles the sub-task or the rest of the attempts does. */
  lemma AttemptStep(task: SubTask, worked: SubTask, threshold: int, score: Scores)
    requires worked ==
      task.(output := worked.output, status := worked.status, outputScore := score(task.id, task.iterationCount))
    ensures var judged := Judged(worked, threshold);
      Core(Settled(task, threshold, score)) ==
        if VerdictOf(worked, threshold) == Refinable then Core(Settled(judged, threshold, score)) else Core(judged)
  {
    var scored := ScoredTask(task, score);
    if VerdictOf(worked, threshold) == Refinable {
      SettledIgnoresText(Judged(scored, threshold), Judged(worked, threshold), threshold, score);
    }
  }
}

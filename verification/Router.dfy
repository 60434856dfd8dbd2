/** Decomposition in agents/router.py: which rule applies, in what order the sub-tasks run, and their first state. */
module Router {
  import opened Options
  import opened Decisions
  import opened StepBudget
  import opened Distinctness

  /** The types the rules name, and all the others. */
  datatype TaskType =
    | CodeGeneration | Refactoring | Debugging | ApiDevelopment | TestGeneration
    | Documentation | SecurityAudit | DatabaseOperations | Other(name: string)

  /** The decomposition rules, highest priority first. */
  datatype Rule = CodeWithAnalysis | DebuggingWorkflow | ApiFullStack | DatabaseWorkflow | ParallelAnalysis
  {
    predicate Applies(types: seq<TaskType>) {
      match this
      case CodeWithAnalysis => CodeGeneration in types && |types| >= 2
      case DebuggingWorkflow => Debugging in types
      case ApiFullStack => ApiDevelopment in types && (TestGeneration in types || Documentation in types)
      case DatabaseWorkflow => DatabaseOperations in types
      case ParallelAnalysis =>
        && |types| >= 2 && CodeGeneration !in types && Debugging !in types
        && ApiDevelopment !in types && DatabaseOperations !in types
    }

    /** The `order` function of the rule. */
    function Order(types: seq<TaskType>): seq<TaskType> {
      match this
      case CodeWithAnalysis =>
        [CodeGeneration] + (if Refactoring in types then [Refactoring] else [])
        + Without(types, [CodeGeneration, Refactoring])
      case DebuggingWorkflow => [Debugging] + Without(types, [Debugging])
      case ApiFullStack =>
        Present(API_TYPES, types) + Without(types, API_TYPES)
      case DatabaseWorkflow => [DatabaseOperations] + Without(types, [DatabaseOperations])
      case ParallelAnalysis => types
    }
  }

  const RULES: seq<Rule> := [CodeWithAnalysis, DebuggingWorkflow, ApiFullStack, DatabaseWorkflow, ParallelAnalysis]

  const API_TYPES: seq<TaskType> := [ApiDevelopment, TestGeneration, Documentation, SecurityAudit]

  /** The types that are none of `names`, in order. */
  function Without(types: seq<TaskType>, names: seq<TaskType>): seq<TaskType> {
    if types == [] then []
    else (if types[0] in names then [] else [types[0]]) + Without(types[1..], names)
  }

  /** The names that are among `types`, in order. */
  function Present(names: seq<TaskType>, types: seq<TaskType>): seq<TaskType> {
    if names == [] then []
    else (if names[0] in types then [names[0]] else []) + Present(names[1..], types)
  }

  lemma {:induction false} WithoutCounts(types: seq<TaskType>, names: seq<TaskType>, x: TaskType)
    ensures multiset(Without(types, names))[x] == if x in names then 0 else multiset(types)[x]
  {
    if types != [] {
      WithoutCounts(types[1..], names, x);
      assert types == [types[0]] + types[1..];
    }
  }

  /** Moving the named types that are present to the front, each once, permutes distinct types. */
  lemma FrontedIsPermutation(front: seq<TaskType>, names: seq<TaskType>, types: seq<TaskType>)
    requires NoDuplicates(front) && NoDuplicates(types)
    requires forall x :: x in front <==> x in names && x in types
    ensures multiset(front + Without(types, names)) == multiset(types)
  {
    forall x: TaskType
      ensures multiset(front + Without(types, names))[x] == multiset(types)[x]
    {
      DistinctCounts(types, x);
      DistinctCounts(front, x);
      WithoutCounts(types, names, x);
    }
  }

  lemma {:induction false} PresentIsDistinct(names: seq<TaskType>, types: seq<TaskType>)
    requires NoDuplicates(names)
    ensures NoDuplicates(Present(names, types))
    ensures forall x :: x in Present(names, types) <==> x in names && x in types
  {
    if names != [] {
      PresentIsDistinct(names[1..], types);
      assert names == [names[0]] + names[1..];
    }
  }

  /** `order` puts `lead` first, in its order, and keeps the order the others have in `types`. */
  ghost predicate LedBy(order: seq<TaskType>, lead: seq<TaskType>, types: seq<TaskType>) {
    forall i, j :: 0 <= i < j < |order| ==>
      if order[j] in lead then ComesBefore(order[i], order[j], lead)
      else order[i] in lead || ComesBefore(order[i], order[j], types)
  }

  ghost predicate ComesBefore(a: TaskType, b: TaskType, list: seq<TaskType>) {
    exists p, q :: 0 <= p < q < |list| && list[p] == a && list[q] == b
  }

  /** Which types each rule is to run first. */
  function LeadOf(rule: Rule): seq<TaskType> {
    match rule
    case CodeWithAnalysis => [CodeGeneration, Refactoring]
    case DebuggingWorkflow => [Debugging]
    case ApiFullStack => [ApiDevelopment, TestGeneration, Documentation, SecurityAudit]
    case DatabaseWorkflow => [DatabaseOperations]
    case ParallelAnalysis => []
  }

  /** Where the types that are left come from. */
  lemma {:induction false} WithoutAt(types: seq<TaskType>, names: seq<TaskType>) returns (at: seq<nat>)
    ensures |at| == |Without(types, names)|
    ensures forall k :: 0 <= k < |at| ==> at[k] < |types| && Without(types, names)[k] == types[at[k]]
    ensures forall k :: 0 <= k < |at| ==> Without(types, names)[k] !in names
    ensures forall k, l :: 0 <= k < l < |at| ==> at[k] < at[l]
  {
    hide Without;
    at := [];
    WithoutStep(types, names);
    if types != [] {
      var rest := WithoutAt(types[1..], names);
      var left := Without(types[1..], names);
      assert forall k :: 0 <= k < |rest| ==> left[k] == types[1..][rest[k]] == types[rest[k] + 1];
      at := ShiftedAt(types, rest, left);
      if types[0] !in names {
        at := [0] + at;
      }
    }
  }

  lemma WithoutStep(types: seq<TaskType>, names: seq<TaskType>)
    ensures Without(types, names) ==
      if types == [] then []
      else if types[0] in names then Without(types[1..], names)
      else [types[0]] + Without(types[1..], names)
  {
  }

  lemma ShiftedAt(types: seq<TaskType>, rest: seq<nat>, left: seq<TaskType>) returns (at: seq<nat>)
    requires |rest| == |left|
    requires forall k :: 0 <= k < |rest| ==> rest[k] + 1 < |types| && left[k] == types[rest[k] + 1]
    requires forall k, l :: 0 <= k < l < |rest| ==> rest[k] < rest[l]
    ensures |at| == |left| && forall k :: 0 <= k < |at| ==> 0 < at[k] < |types| && left[k] == types[at[k]]
    ensures forall k, l :: 0 <= k < l < |at| ==> at[k] < at[l]
  {
    at := seq(|rest|, k requires 0 <= k < |rest| => rest[k] + 1);
  }

  lemma {:induction false} PresentAt(names: seq<TaskType>, types: seq<TaskType>) returns (at: seq<nat>)
    ensures |at| == |Present(names, types)|
    ensures forall k :: 0 <= k < |at| ==> at[k] < |names| && Present(names, types)[k] == names[at[k]]
    ensures forall k, l :: 0 <= k < l < |at| ==> at[k] < at[l]
  {
    at := [];
    if names != [] {
      var rest := PresentAt(names[1..], types);
      at := (if names[0] in types then [0] else []) + seq(|rest|, k requires 0 <= k < |rest| => rest[k] + 1);
    }
  }

  /** Leading types in their order, then the others in theirs. */
  lemma FrontedIsLed(front: seq<TaskType>, lead: seq<TaskType>, types: seq<TaskType>)
    requires forall x :: x in front ==> x in lead
    requires forall i, j :: 0 <= i < j < |front| ==> ComesBefore(front[i], front[j], lead)
    ensures LedBy(front + Without(types, lead), lead, types)
  {
    var rest := Without(types, lead);
    var at := WithoutAt(types, lead);
    hide Without;
    forall i, j | 0 <= i < j < |rest|
      ensures ComesBefore(rest[i], rest[j], types) && rest[j] !in lead
    {
      assert types[at[i]] == rest[i] && types[at[j]] == rest[j];
    }
    assert forall k :: 0 <= k < |rest| ==> rest[k] !in lead;
  }

  /** A rule that applies runs its leading types first. */
  lemma OrderIsLed(rule: Rule, types: seq<TaskType>)
    ensures LedBy(rule.Order(types), LeadOf(rule), types)
  {
    hide LedBy, Without, Present;
    match rule {
      case CodeWithAnalysis =>
        var lead := [CodeGeneration, Refactoring];
        assert lead[0] == CodeGeneration && lead[1] == Refactoring;
        FrontedIsLed([CodeGeneration] + if Refactoring in types then [Refactoring] else [], lead, types);
      case DebuggingWorkflow => FrontedIsLed([Debugging], [Debugging], types);
      case ApiFullStack =>
        var at := PresentAt(API_TYPES, types);
        FrontedIsLed(Present(API_TYPES, types), API_TYPES, types);
      case DatabaseWorkflow => FrontedIsLed([DatabaseOperations], [DatabaseOperations], types);
      case ParallelAnalysis => KeptIsLed(types);
    }
  }

  lemma KeptIsLed(types: seq<TaskType>)
    ensures LedBy(types, [], types)
  {
  }

  /** A rule that applies runs every detected type exactly once: its order is a permutation. */
  lemma OrderIsPermutation(rule: Rule, types: seq<TaskType>)
    requires NoDuplicates(types) && rule.Applies(types)
    ensures multiset(rule.Order(types)) == multiset(types)
  {
    hide Without, Present;
    match rule {
      case CodeWithAnalysis =>
        FrontedIsPermutation([CodeGeneration] + if Refactoring in types then [Refactoring] else [],
                             [CodeGeneration, Refactoring], types);
      case DebuggingWorkflow => FrontedIsPermutation([Debugging], [Debugging], types);
      case ApiFullStack =>
        PresentIsDistinct(API_TYPES, types);
        FrontedIsPermutation(Present(API_TYPES, types), API_TYPES, types);
      case DatabaseWorkflow => FrontedIsPermutation([DatabaseOperations], [DatabaseOperations], types);
      case ParallelAnalysis =>
    }
  }

  /** What is left out of distinct types when one of them is: the types before it are the first ones left. */
  lemma {:induction false} EarlierSiblings(types: seq<TaskType>, i: nat)
    requires NoDuplicates(types) && i < |types|
    ensures Without(types, [types[i]]) == types[..i] + types[i + 1..]
  {
    if i == 0 {
      NothingLeftOut(types[1..], [types[0]]);
    } else {
      EarlierSiblings(types[1..], i - 1);
    }
  }

  lemma {:induction false} NothingLeftOut(types: seq<TaskType>, names: seq<TaskType>)
    requires forall t :: t in names ==> t !in types
    ensures Without(types, names) == types
  {
    if types != [] {
      NothingLeftOut(types[1..], names);
    }
  }

  datatype Planned = Planned(task: SubTask, taskType: TaskType, siblings: seq<TaskType>, runsAfter: seq<TaskType>)

  /** The first rule that applies, if one does. */
  ghost predicate IsFirstMatch(rule: Option<Rule>, types: seq<TaskType>) {
    if rule.None? then forall r: Rule :: !r.Applies(types)
    else
      exists k :: (
        && 0 <= k < |RULES| && rule.value == RULES[k] && RULES[k].Applies(types)
        && forall j :: 0 <= j < k ==> !RULES[j].Applies(types))
  }

  method FirstMatch(types: seq<TaskType>) returns (rule: Option<Rule>)
    ensures IsFirstMatch(rule, types)
  {
    for k := 0 to |RULES|
      invariant forall j :: 0 <= j < k ==> !RULES[j].Applies(types)
    {
      if RULES[k].Applies(types) {
        return Some(RULES[k]);
      }
    }
    forall r: Rule
      ensures !r.Applies(types)
    {
      var k := match r
        case CodeWithAnalysis => 0 case DebuggingWorkflow => 1 case ApiFullStack => 2
        case DatabaseWorkflow => 3 case ParallelAnalysis => 4;
      assert RULES[k] == r;
    }
    rule := None;
  }

  /** What the plan says about the sub-task at position `i` of `chosen`. */
  ghost predicate PlannedAt(p: Planned, chosen: seq<TaskType>, i: nat, parallel: bool)
    requires i < |chosen|
  {
    && p.task == SubTask(i, Pending, 0, 3, 0, "")
    && p.taskType == chosen[i]
    && p.siblings == chosen[..i] + chosen[i + 1..]
    && p.runsAfter == if parallel then [] else chosen[..i]
  }

  method PlanEach(chosen: seq<TaskType>, parallel: bool) returns (plan: seq<Planned>)
    requires NoDuplicates(chosen)
    ensures |plan| == |chosen| && forall i :: 0 <= i < |plan| ==> PlannedAt(plan[i], chosen, i, parallel)
  {
    plan := [];
    for i := 0 to |chosen|
      invariant |plan| == i && forall j :: 0 <= j < i ==> PlannedAt(plan[j], chosen, j, parallel)
    {
      var siblings := Without(chosen, [chosen[i]]);
      EarlierSiblings(chosen, i);
      var runsAfter := if !parallel && i > 0 then siblings[..i] else [];
      plan := plan + [Planned(SubTask(i, Pending, 0, 3, 0, ""), chosen[i], siblings, runsAfter)];
    }
  }

  /**
   * Plans the sub-tasks for the detected types, which are keys of a dictionary and so distinct:
   * the first five in the order of the first matching rule, each fresh with three iterations.
   */
  method DecomposeIntoSubtasks(types: seq<TaskType>)
    returns (plan: seq<Planned>, rule: Option<Rule>, parallel: bool, ghost order: seq<TaskType>)
    requires NoDuplicates(types)
    ensures IsFirstMatch(rule, types)
    ensures rule ==
      if CodeGeneration in types && |types| >= 2 then Some(CodeWithAnalysis)
      else if Debugging in types then Some(DebuggingWorkflow)
      else if ApiDevelopment in types && (TestGeneration in types || Documentation in types) then Some(ApiFullStack)
      else if DatabaseOperations in types then Some(DatabaseWorkflow)
      else if |types| >= 2 && CodeGeneration !in types && ApiDevelopment !in types then Some(ParallelAnalysis)
      else None
    ensures parallel <==> rule.None? || rule.value == ParallelAnalysis
    ensures rule.None? ==> order == types
    ensures rule.Some? ==> LedBy(order, LeadOf(rule.value), types)
    ensures && multiset(order) == multiset(types)
      && |plan| == (if |types| < 5 then |types| else 5) <= |order|
      && (forall i :: 0 <= i < |plan| ==> PlannedAt(plan[i], order[..|plan|], i, parallel))
    ensures FreshSubTasks(TasksOf(plan), 5, 3)
  {
    hide Rule.Applies, Rule.Order, LedBy, IsFirstMatch;
    rule := FirstMatch(types);
    FirstMatchIsLadder(rule, types);
    var ordered := types;
    parallel := true;
    if rule.Some? {
      parallel := rule.value == ParallelAnalysis;
      OrderIsPermutation(rule.value, types);
      OrderIsLed(rule.value, types);
      ordered := rule.value.Order(types);
    }
    order := ordered;
    PermutationKeepsDistinct(order, types);
    var chosen := if |ordered| > 5 then ordered[..5] else ordered;
    assert chosen == order[..|chosen|];
    plan := PlanEach(chosen, parallel);
  }

  lemma FirstMatchIsLadder(rule: Option<Rule>, types: seq<TaskType>)
    requires IsFirstMatch(rule, types)
    ensures rule.Some? ==> rule.value.Applies(types)
    ensures rule ==
      if CodeGeneration in types && |types| >= 2 then Some(CodeWithAnalysis)
      else if Debugging in types then Some(DebuggingWorkflow)
      else if ApiDevelopment in types && (TestGeneration in types || Documentation in types) then Some(ApiFullStack)
      else if DatabaseOperations in types then Some(DatabaseWorkflow)
      else if |types| >= 2 && CodeGeneration !in types && ApiDevelopment !in types then Some(ParallelAnalysis)
      else None
  {
    assert RULES[0] == CodeWithAnalysis && RULES[1] == DebuggingWorkflow && RULES[2] == ApiFullStack;
    assert RULES[3] == DatabaseWorkflow && RULES[4] == ParallelAnalysis && |RULES| == 5;
    if rule.None? {
      NoRuleIsNone(types);
    } else {
      var k :| 0 <= k < |RULES| && rule.value == RULES[k] && RULES[k].Applies(types)
        && forall j :: 0 <= j < k ==> !RULES[j].Applies(types);
      assert k > 0 ==> !RULES[0].Applies(types);
      assert k > 1 ==> !RULES[1].Applies(types);
      assert k > 2 ==> !RULES[2].Applies(types);
      assert k > 3 ==> !RULES[3].Applies(types);
    }
  }

  lemma NoRuleIsNone(types: seq<TaskType>)
    requires forall r: Rule :: !r.Applies(types)
    ensures !CodeWithAnalysis.Applies(types) && !DebuggingWorkflow.Applies(types) && !ApiFullStack.Applies(types)
      && !DatabaseWorkflow.Applies(types) && !ParallelAnalysis.Applies(types)
  {
    hide Rule.Applies;
  }

  function TasksOf(plan: seq<Planned>): (tasks: seq<SubTask>)
    ensures |tasks| == |plan| && forall i :: 0 <= i < |plan| ==> tasks[i] == plan[i].task
  {
    seq(|plan|, i requires 0 <= i < |plan| => plan[i].task)
  }

  /**
   * The rules do not catch everything, although the last one is meant to: none applies to a lone type
   * outside debugging and databases, nor to API work without tests or documentation.
   */
  lemma NoRuleApplies(types: seq<TaskType>)
    requires NoDuplicates(types)
    ensures (forall r: Rule :: !r.Applies(types)) <==>
      && Debugging !in types && DatabaseOperations !in types
      && (|types| <= 1
          || (ApiDevelopment in types && TestGeneration !in types && Documentation !in types
            && CodeGeneration !in types))
  {
    assert (forall r: Rule :: !r.Applies(types)) <==>
      (!CodeWithAnalysis.Applies(types) && !DebuggingWorkflow.Applies(types) && !ApiFullStack.Applies(types)
       && !DatabaseWorkflow.Applies(types) && !ParallelAnalysis.Applies(types));
  }
}

/**
 * The graph wired by `create_agent_graph` in agents/graph.py. Node bodies are arbitrary, except
 * that each writes no more of the shared state than its source does. However they behave, a run
 * ends within a bound that depends only on the number of sub-tasks and of iterations.
 */
module AgentGraph {
  import opened WorkflowEngine
  import opened Decisions

  datatype NodeName =
    | Router | SkillGenerator | SkillLoader | InjectMemory | CacheLookup
    | Specialist | HeuristicCritic | LlmCritic | MemoryNote | RecordLessonUses
    | SubSpecialist | SubCritic | ParallelSubtasks | Aggregator | FinalCritic
    | Format | Post | SkillCleanup | PersistMemory

  type Nodes<!W> = map<NodeName, AgentState<W> -> AgentState<W>>
  type WiredGraph<!W> = Graph<NodeName, AgentState<W>, Decision>
  type Place<W> = Config<NodeName, AgentState<W>>

  function LinearEdges(): map<NodeName, Target<NodeName>> {
    map[Router := Goto(SkillGenerator), SkillGenerator := Goto(SkillLoader), SkillLoader := Goto(InjectMemory),
        InjectMemory := Goto(CacheLookup), LlmCritic := Goto(MemoryNote), MemoryNote := Goto(RecordLessonUses),
        Aggregator := Goto(FinalCritic), Format := Goto(Post), Post := Goto(SkillCleanup),
        SkillCleanup := Goto(PersistMemory), PersistMemory := End]
  }

  function ConditionalEdges<W>(): map<NodeName, Branch<NodeName, AgentState<W>, Decision>> {
    map[
      CacheLookup := Branch(CacheHitOrMiss<W>,
        map[CacheHit := Goto(Format), Single := Goto(Specialist), Decompose := Goto(SubSpecialist),
            ParallelDecompose := Goto(ParallelSubtasks)]),
      ParallelSubtasks := Branch(ClarificationOrContinue<W>,
        map[Clarification := Goto(SkillCleanup), Continue := Goto(Aggregator)]),
      Specialist := Branch(ClarificationOrContinue<W>,
        map[Clarification := Goto(SkillCleanup), Continue := Goto(HeuristicCritic)]),
      HeuristicCritic := Branch(HeuristicGate<W>,
        map[Approve := Goto(Format), CriticOutput := Goto(LlmCritic)]),
      RecordLessonUses := Branch(OutputGate<W>,
        map[Approved := Goto(Format), RefineOutput := Goto(Specialist), Fail := Goto(SkillCleanup)]),
      SubSpecialist := Branch(ClarificationOrContinue<W>,
        map[Clarification := Goto(SkillCleanup), Continue := Goto(SubCritic)]),
      SubCritic := Branch(SubLoopGate<W>,
        map[RefineSubOutput := Goto(SubSpecialist), NextSubTask := Goto(SubSpecialist), Aggregate := Goto(Aggregator)]),
      FinalCritic := Branch(OutputGate<W>,
        map[Approved := Goto(Format), RefineOutput := Goto(SkillCleanup), Fail := Goto(SkillCleanup)])]
  }

  ghost function Wired<W>(nodes: Nodes<W>): WiredGraph<W> {
    Graph(nodes, LinearEdges(), ConditionalEdges())
  }

  /** Builds the graph, call by call, and compiles it with `Router` as entry point; a missing wrapper raises. */
  method CreateAgentGraph<W>(wrappers: Nodes<W>) returns (app: CompiledWorkflow?<NodeName, AgentState<W>, Decision>)
    ensures app == null <==> exists node: NodeName :: node !in wrappers
    ensures app != null ==>
      app.graph == Wired(wrappers) && app.entryPoint == Router && app.maxSteps == DEFAULT_MAX_STEPS
  {
    hide LinearEdges, ConditionalEdges, Registered;
    if exists node: NodeName :: node !in wrappers {
      return null;
    }
    var workflow := new Workflow<NodeName, AgentState<W>, Decision>();
    AddNodes(workflow, wrappers);
    workflow.SetEntryPoint(Router);
    AddEdges(workflow);
    EveryNodeIsRegistered(wrappers);
    app := workflow.Compile();
  }

  method AddNodes<W>(workflow: Workflow<NodeName, AgentState<W>, Decision>, wrappers: Nodes<W>)
    requires workflow.nodes == map[] && forall node: NodeName :: node in wrappers
    modifies workflow`nodes
    ensures workflow.nodes == Registered(wrappers)
  {
    workflow.AddNode(HeuristicCritic, wrappers[HeuristicCritic]);
    workflow.AddNode(Router, wrappers[Router]);
    workflow.AddNode(SkillGenerator, wrappers[SkillGenerator]);
    workflow.AddNode(SkillLoader, wrappers[SkillLoader]);
    workflow.AddNode(InjectMemory, wrappers[InjectMemory]);
    workflow.AddNode(CacheLookup, wrappers[CacheLookup]);
    workflow.AddNode(Specialist, wrappers[Specialist]);
    workflow.AddNode(LlmCritic, wrappers[LlmCritic]);
    workflow.AddNode(SubSpecialist, wrappers[SubSpecialist]);
    workflow.AddNode(SubCritic, wrappers[SubCritic]);
    workflow.AddNode(ParallelSubtasks, wrappers[ParallelSubtasks]);
    workflow.AddNode(Aggregator, wrappers[Aggregator]);
    workflow.AddNode(FinalCritic, wrappers[FinalCritic]);
    workflow.AddNode(SkillCleanup, wrappers[SkillCleanup]);
    workflow.AddNode(PersistMemory, wrappers[PersistMemory]);
    workflow.AddNode(MemoryNote, wrappers[MemoryNote]);
    workflow.AddNode(RecordLessonUses, wrappers[RecordLessonUses]);
    workflow.AddNode(Format, wrappers[Format]);
    workflow.AddNode(Post, wrappers[Post]);
  }

  method AddEdges<W>(workflow: Workflow<NodeName, AgentState<W>, Decision>)
    requires workflow.edges == map[] && workflow.branches == map[]
    modifies workflow`edges, workflow`branches
    ensures workflow.edges == LinearEdges() && workflow.branches == ConditionalEdges()
  {
    // From the router to the cache, which chooses the path; the parallel path.
    workflow.AddEdge(Router, Goto(SkillGenerator));
    workflow.AddEdge(SkillGenerator, Goto(SkillLoader));
    workflow.AddEdge(SkillLoader, Goto(InjectMemory));
    workflow.AddEdge(InjectMemory, Goto(CacheLookup));
    workflow.AddConditionalEdges(CacheLookup, CacheHitOrMiss<W>,
      map[CacheHit := Goto(Format), Single := Goto(Specialist), Decompose := Goto(SubSpecialist),
          ParallelDecompose := Goto(ParallelSubtasks)]);
    workflow.AddConditionalEdges(ParallelSubtasks, ClarificationOrContinue<W>,
      map[Clarification := Goto(SkillCleanup), Continue := Goto(Aggregator)]);

    // The single specialist.
    workflow.AddConditionalEdges(Specialist, ClarificationOrContinue<W>,
      map[Clarification := Goto(SkillCleanup), Continue := Goto(HeuristicCritic)]);
    workflow.AddConditionalEdges(HeuristicCritic, HeuristicGate<W>,
      map[Approve := Goto(Format), CriticOutput := Goto(LlmCritic)]);
    workflow.AddEdge(LlmCritic, Goto(MemoryNote));
    workflow.AddEdge(MemoryNote, Goto(RecordLessonUses));
    workflow.AddConditionalEdges(RecordLessonUses, OutputGate<W>,
      map[Approved := Goto(Format), RefineOutput := Goto(Specialist), Fail := Goto(SkillCleanup)]);

    // The sub-task loop.
    workflow.AddConditionalEdges(SubSpecialist, ClarificationOrContinue<W>,
      map[Clarification := Goto(SkillCleanup), Continue := Goto(SubCritic)]);
    workflow.AddConditionalEdges(SubCritic, SubLoopGate<W>,
      map[RefineSubOutput := Goto(SubSpecialist), NextSubTask := Goto(SubSpecialist), Aggregate := Goto(Aggregator)]);
    workflow.AddEdge(Aggregator, Goto(FinalCritic));
    workflow.AddConditionalEdges(FinalCritic, OutputGate<W>,
      map[Approved := Goto(Format), RefineOutput := Goto(SkillCleanup), Fail := Goto(SkillCleanup)]);

    // The way out.
    workflow.AddEdge(Format, Goto(Post));
    workflow.AddEdge(Post, Goto(SkillCleanup));
    workflow.AddEdge(SkillCleanup, Goto(PersistMemory));
    workflow.AddEdge(PersistMemory, End);
  }

  /** The nodes as they are registered, one after the other. */
  function Registered<F>(wrappers: map<NodeName, F>): map<NodeName, F>
    requires forall node: NodeName :: node in wrappers
  {
    map[HeuristicCritic := wrappers[HeuristicCritic], Router := wrappers[Router], SkillGenerator :=
        wrappers[SkillGenerator], SkillLoader := wrappers[SkillLoader], InjectMemory := wrappers[InjectMemory],
        CacheLookup := wrappers[CacheLookup], Specialist := wrappers[Specialist], LlmCritic :=
        wrappers[LlmCritic], SubSpecialist := wrappers[SubSpecialist], SubCritic := wrappers[SubCritic],
        ParallelSubtasks := wrappers[ParallelSubtasks], Aggregator := wrappers[Aggregator], FinalCritic :=
        wrappers[FinalCritic], SkillCleanup := wrappers[SkillCleanup], PersistMemory := wrappers[PersistMemory],
        MemoryNote := wrappers[MemoryNote], RecordLessonUses := wrappers[RecordLessonUses], Format :=
        wrappers[Format], Post := wrappers[Post]]
  }

  lemma EveryNodeIsRegistered<F>(wrappers: map<NodeName, F>)
    requires forall node: NodeName :: node in wrappers
    ensures Registered(wrappers) == wrappers
  {
    forall node: NodeName
      ensures node in Registered(wrappers) && Registered(wrappers)[node] == wrappers[node]
    {
      match node {
        case HeuristicCritic =>
        case Router =>
        case SkillGenerator =>
        case SkillLoader =>
        case InjectMemory =>
        case CacheLookup =>
        case Specialist =>
        case LlmCritic =>
        case SubSpecialist =>
        case SubCritic =>
        case ParallelSubtasks =>
        case Aggregator =>
        case FinalCritic =>
        case SkillCleanup =>
        case PersistMemory =>
        case MemoryNote =>
        case RecordLessonUses =>
        case Format =>
        case Post =>
      }
    }
  }

  /** Where the graph goes from `node` once it has left state `t`, and the state after the gate. */
  function Successor<W>(node: NodeName, t: AgentState<W>): Place<W> {
    match node
    case Router => At(SkillGenerator, t)
    case SkillGenerator => At(SkillLoader, t)
    case SkillLoader => At(InjectMemory, t)
    case InjectMemory => At(CacheLookup, t)
    case CacheLookup =>
      At(if t.cacheHit then Format
         else if !t.requiresDecomposition then Specialist
         else if t.parallelExecution then ParallelSubtasks
         else SubSpecialist, t)
    case Specialist => At(if t.clarificationNeeded then SkillCleanup else HeuristicCritic, t)
    case HeuristicCritic => At(if t.heuristicCriticPassed then Format else LlmCritic, HeuristicGate(t).0)
    case LlmCritic => At(MemoryNote, t)
    case MemoryNote => At(RecordLessonUses, t)
    case RecordLessonUses =>
      var (u, d) := OutputGate(t);
      At(if d == Approved then Format else if d == RefineOutput then Specialist else SkillCleanup, u)
    case SubSpecialist => At(if t.clarificationNeeded then SkillCleanup else SubCritic, t)
    case SubCritic => At(if SubLoopGate(t).1 == Aggregate then Aggregator else SubSpecialist, SubLoopGate(t).0)
    case ParallelSubtasks => At(if t.clarificationNeeded then SkillCleanup else Aggregator, t)
    case Aggregator => At(FinalCritic, t)
    case FinalCritic => At(if OutputGate(t).1 == Approved then Format else SkillCleanup, OutputGate(t).0)
    case Format => At(Post, t)
    case Post => At(SkillCleanup, t)
    case SkillCleanup => At(PersistMemory, t)
    case PersistMemory => Finished(t)
  }

  /** Where each choice leads, from the fields of the state a node leaves. */
  lemma ChoicesLead<W>(node: NodeName, t: AgentState<W>)
    ensures Successor(node, t).At? <==> node != PersistMemory
    ensures var threshold := if t.effectiveThreshold.Some? then t.effectiveThreshold.value else t.qualityThreshold;
      var next := Successor(node, t);
      match node
      case CacheLookup => next.node ==
        if t.cacheHit then Format
        else if t.requiresDecomposition then if t.parallelExecution then ParallelSubtasks else SubSpecialist
        else Specialist
      case Specialist => next.node == if t.clarificationNeeded then SkillCleanup else HeuristicCritic
      case SubSpecialist => next.node == if t.clarificationNeeded then SkillCleanup else SubCritic
      case ParallelSubtasks => next.node == if t.clarificationNeeded then SkillCleanup else Aggregator
      case HeuristicCritic => next.node == if t.heuristicCriticPassed then Format else LlmCritic
      case RecordLessonUses => next.node ==
        if t.outputCriticScore >= threshold then Format
        else if t.outputCriticScore >= 60 && t.specialistIterationCount + 1 < t.specialistMaxIterations then Specialist
        else SkillCleanup
      case FinalCritic => next.node == if t.outputCriticScore >= threshold then Format else SkillCleanup
      case SubCritic => next.node ==
        if t.currentSubTaskIndex < |t.subTasks| && (t.currentSubTaskIndex + 1 < |t.subTasks| ||
            RefinableAt(t.subTasks[t.currentSubTaskIndex], threshold)) then SubSpecialist
        else Aggregator
      case _ => true
  {
    hide HeuristicGate, CacheHitOrMiss, ClarificationOrContinue;
    if node == SubCritic && t.currentSubTaskIndex < |t.subTasks| {
      SubLoopGateWithTask(t);
      hide SubLoopGate;
    }
  }

  /**
   * Over every run: the formatter is entered only from the cache with a hit, from a heuristic critic that
   * passed, or from a quality gate with a score that reaches the threshold.
   */
  lemma OnlyApprovedOutputIsFormatted<W>(nodes: Nodes<W>, start: Place<W>, k: nat)
    requires forall node: NodeName :: node in nodes
    ensures var at, next := After(Wired(nodes), start, k), After(Wired(nodes), start, k + 1);
      at.At? && next.At? && next.node == Format ==>
        var t := nodes[at.node](at.state);
        || (at.node == CacheLookup && t.cacheHit)
        || (at.node == HeuristicCritic && t.heuristicCriticPassed)
        || (at.node in {RecordLessonUses, FinalCritic} && t.outputCriticScore >=
            if t.effectiveThreshold.Some? then t.effectiveThreshold.value else t.qualityThreshold)
  {
    var at := After(Wired(nodes), start, k);
    if at.At? {
      var t := nodes[at.node](at.state);
      TablesAgreeWithSuccessor(nodes, at.node, t);
      ChoicesLead(at.node, t);
      if at.node !in {CacheLookup, Specialist, HeuristicCritic, RecordLessonUses, SubSpecialist, SubCritic,
                      ParallelSubtasks, FinalCritic} {
        OthersDoNotLeadToFormat(at.node, t);
      }
      hide Successor, ResolveNext;
    }
  }

  lemma OthersDoNotLeadToFormat<W>(node: NodeName, t: AgentState<W>)
    requires node !in {CacheLookup, Specialist, HeuristicCritic, RecordLessonUses, SubSpecialist, SubCritic,
                       ParallelSubtasks, FinalCritic}
    ensures !(Successor(node, t).At? && Successor(node, t).node == Format)
  {
  }

  /** The edge tables say the same as `Successor`; in particular every decision has a route. */
  lemma TablesAgreeWithSuccessor<W>(nodes: Nodes<W>, node: NodeName, t: AgentState<W>)
    ensures ResolveNext(Wired(nodes), node, t) == Successor(node, t)
  {
    hide *;
    if node in {CacheLookup, Specialist, HeuristicCritic, SubSpecialist, ParallelSubtasks} {
      ChoicesAreRouted(nodes, node, t);
    } else if node in {RecordLessonUses, SubCritic, FinalCritic} {
      QualityGatesAreRouted(nodes, node, t);
    } else {
      OtherNodesAreLinear(node);
      LinearNodesAreRouted(nodes, node, t);
    }
  }

  lemma ChoicesAreRouted<W>(nodes: Nodes<W>, node: NodeName, t: AgentState<W>)
    requires node in {CacheLookup, Specialist, HeuristicCritic, SubSpecialist, ParallelSubtasks}
    ensures ResolveNext(Wired(nodes), node, t) == Successor(node, t)
  {
    hide Judge, Judged, VerdictOf, Threshold, LinearEdges, OutputGate, SubLoopGate;
  }

  lemma LinearNodesAreRouted<W>(nodes: Nodes<W>, node: NodeName, t: AgentState<W>)
    requires node in LinearEdges()
    ensures ResolveNext(Wired(nodes), node, t) == Successor(node, t)
  {
    LinearNodesHaveNoBranch<W>(node);
    hide ConditionalEdges, OutputGate, SubLoopGate, HeuristicGate, CacheHitOrMiss, ClarificationOrContinue;
  }

  lemma QualityGatesAreRouted<W>(nodes: Nodes<W>, node: NodeName, t: AgentState<W>)
    requires node in {RecordLessonUses, SubCritic, FinalCritic}
    ensures ResolveNext(Wired(nodes), node, t) == Successor(node, t)
  {
    hide Judge, Judged, VerdictOf, Threshold, LinearEdges;
  }

  lemma OtherNodesAreLinear(node: NodeName)
    requires node !in {CacheLookup, Specialist, HeuristicCritic, SubSpecialist, ParallelSubtasks}
    requires node !in {RecordLessonUses, SubCritic, FinalCritic}
    ensures node in LinearEdges()
  {
    match node {
      case Router =>
      case _ =>
    }
  }

  lemma LinearNodesHaveNoBranch<W>(node: NodeName)
    requires node in LinearEdges()
    ensures node !in ConditionalEdges<W>()
  {
    hide LinearEdges, ConditionalEdges;
    LinearKeys();
    BranchKeys<W>();
  }

  lemma LinearKeys()
    ensures LinearEdges().Keys == {Router, SkillGenerator, SkillLoader, InjectMemory, LlmCritic, MemoryNote, Aggregator,
                                   Format, Post, SkillCleanup, PersistMemory}
  {
  }

  lemma BranchKeys<W>()
    ensures ConditionalEdges<W>().Keys ==
      {CacheLookup, ParallelSubtasks, Specialist, HeuristicCritic, RecordLessonUses, SubSpecialist, SubCritic,
       FinalCritic}
  {
  }
}

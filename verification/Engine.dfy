/** The workflow engine of agents/graph_engine.py: nodes, linear and conditional edges, a step limit. */
module WorkflowEngine {
  import opened Options

  datatype Target<+N> = Goto(node: N) | End

  /** A decision function, which may also write to the state, and the targets of its answers. */
  datatype Branch<N(==), !S, D(==)> = Branch(decide: S -> (S, D), routes: map<D, Target<N>>)

  datatype Graph<!N(==), !S, !D(==)> = Graph(
    nodes: map<N, S -> S>,
    edges: map<N, Target<N>>,
    branches: map<N, Branch<N, S, D>>)

  /** Where a run is: about to execute a node, finished, or stopped by one of the engine's errors. */
  datatype Config<N, S> =
    | At(node: N, state: S)
    | Finished(state: S)
    | NoNode(name: N)       // no node registered
    | NoRoute(name: N)      // the decision is not in the route map
    | StepLimit(name: N)    // WorkflowRecursionError

  function Arrive<N, S>(target: Target<N>, state: S): Config<N, S> {
    if target.End? then Finished(state) else At(target.node, state)
  }

  /** The successor of `current`: a conditional edge first, then a linear edge, then the end. */
  function ResolveNext<N, S, D>(g: Graph<N, S, D>, current: N, state: S): Config<N, S> {
    if current in g.branches then
      var (after, result) := g.branches[current].decide(state);
      if result in g.branches[current].routes then Arrive(g.branches[current].routes[result], after)
        else NoRoute(current)
    else if current in g.edges then Arrive(g.edges[current], state)
    else Finished(state)
  }

  /** Executes one node and moves to its successor. */
  function StepOnce<N, S, D>(g: Graph<N, S, D>, c: Config<N, S>): Config<N, S> {
    if !c.At? then c
    else if c.node !in g.nodes then NoNode(c.node)
    else ResolveNext(g, c.node, g.nodes[c.node](c.state))
  }

  /** The configuration after `k` nodes. */
  function After<N, S, D>(g: Graph<N, S, D>, c: Config<N, S>, k: nat): Config<N, S> {
    if k == 0 then c else StepOnce(g, After(g, c, k - 1))
  }

  /** A run that may execute at most `limit` nodes. */
  function RunWithin<N, S, D>(g: Graph<N, S, D>, c: Config<N, S>, limit: nat): Config<N, S>
    decreases limit
  {
    if !c.At? then c
    else if limit == 0 then StepLimit(c.node)
    else RunWithin(g, StepOnce(g, c), limit - 1)
  }

  /** The states in which the nodes of a run leave off, in order. */
  function Yields<N, S, D>(g: Graph<N, S, D>, c: Config<N, S>, limit: nat): seq<(N, S)>
    decreases limit
  {
    if !c.At? || limit == 0 || c.node !in g.nodes then []
    else [(c.node, g.nodes[c.node](c.state))] + Yields(g, StepOnce(g, c), limit - 1)
  }

  /** A conditional edge is followed even where there is a linear one; without either the run ends. */
  lemma WhereNodesLead<N, S, D>(g: Graph<N, S, D>, c: Config<N, S>)
    requires c.At? && c.node in g.nodes
    ensures var t, next := g.nodes[c.node](c.state), StepOnce(g, c);
      if c.node in g.branches then
        var (u, d) := g.branches[c.node].decide(t);
        next == if d !in g.branches[c.node].routes then NoRoute(c.node)
                else if g.branches[c.node].routes[d] == End then Finished(u)
                else At(g.branches[c.node].routes[d].node, u)
      else if c.node in g.edges then
        next == if g.edges[c.node] == End then Finished(t) else At(g.edges[c.node].node, t)
      else next == Finished(t)
  {
  }

  /** The `k`-th output is the `k`-th node of the run and the state it left. */
  lemma {:induction false} YieldsAreSteps<N, S, D>(g: Graph<N, S, D>, c: Config<N, S>, limit: nat, k: nat)
    ensures k < |Yields(g, c, limit)| <==>
      k < limit && After(g, c, k).At? && After(g, c, k).node in g.nodes
    ensures k < |Yields(g, c, limit)| ==>
      var at := After(g, c, k); Yields(g, c, limit)[k] == (at.node, g.nodes[at.node](at.state))
    decreases limit
  {
    hide After, Yields, StepOnce;
    YieldsStep(g, c, limit);
    assert After(g, c, 0) == c by {
      NoStepsYet(g, c);
    }
    if !c.At? || limit == 0 || c.node !in g.nodes {
      MissingNodeStops(g, c, k);
    } else if k > 0 {
      AfterShift(g, c, k - 1);
      YieldsAreSteps(g, StepOnce(g, c), limit - 1, k - 1);
    }
  }

  lemma NoStepsYet<N, S, D>(g: Graph<N, S, D>, c: Config<N, S>)
    ensures After(g, c, 0) == c
  {
  }

  lemma YieldsStep<N, S, D>(g: Graph<N, S, D>, c: Config<N, S>, limit: nat)
    ensures Yields(g, c, limit) ==
      if !c.At? || limit == 0 || c.node !in g.nodes then []
      else [(c.node, g.nodes[c.node](c.state))] + Yields(g, StepOnce(g, c), limit - 1)
  {
  }

  lemma {:induction false} MissingNodeStops<N, S, D>(g: Graph<N, S, D>, c: Config<N, S>, k: nat)
    ensures !c.At? ==> After(g, c, k) == c
    ensures c.At? && c.node !in g.nodes && k > 0 ==> After(g, c, k) == NoNode(c.node)
    decreases k
  {
    if k > 0 {
      MissingNodeStops(g, c, k - 1);
    }
  }

  /** A bounded run is the unbounded one as long as the limit is not hit. */
  lemma {:induction false} RunIsAfter<N, S, D>(g: Graph<N, S, D>, c: Config<N, S>, limit: nat)
    ensures RunWithin(g, c, limit) ==
      if After(g, c, limit).At? then StepLimit(After(g, c, limit).node) else After(g, c, limit)
    decreases limit
  {
    if c.At? && limit > 0 {
      RunIsAfter(g, StepOnce(g, c), limit - 1);
      AfterShift(g, c, limit - 1);
    } else if !c.At? {
      StoppedStays(g, c, limit);
    }
  }

  lemma {:induction false} AfterShift<N, S, D>(g: Graph<N, S, D>, c: Config<N, S>, k: nat)
    ensures After(g, StepOnce(g, c), k) == After(g, c, k + 1)
    decreases k
  {
    if k > 0 {
      AfterShift(g, c, k - 1);
    }
  }

  lemma {:induction false} StoppedStays<N, S, D>(g: Graph<N, S, D>, c: Config<N, S>, k: nat)
    requires !c.At?
    ensures After(g, c, k) == c
    decreases k
  {
    if k > 0 {
      StoppedStays(g, c, k - 1);
    }
  }

  lemma {:induction false} AfterAfter<N, S, D>(g: Graph<N, S, D>, c: Config<N, S>, j: nat, k: nat)
    ensures After(g, After(g, c, j), k) == After(g, c, j + k)
    decreases k
  {
    if k > 0 {
      AfterAfter(g, c, j, k - 1);
    }
  }

  class CompiledWorkflow<N(==), !S, D(==)> {
    const graph: Graph<N, S, D>
    const entryPoint: N
    const maxSteps: nat

    constructor (graph: Graph<N, S, D>, entryPoint: N, maxSteps: nat)
      ensures this.graph == graph && this.entryPoint == entryPoint && this.maxSteps == maxSteps
    {
      this.graph, this.entryPoint, this.maxSteps := graph, entryPoint, maxSteps;
    }

    /** Runs to completion or to an error. */
    method Invoke(initial: S) returns (result: Config<N, S>)
      ensures result == RunWithin(graph, At(entryPoint, initial), maxSteps)
    {
      var current: Target<N> := Goto(entryPoint);
      var state := initial;
      var steps := 0;
      while current.Goto?
        invariant steps <= maxSteps
        invariant RunWithin(graph, At(entryPoint, initial), maxSteps) ==
          RunWithin(graph, Arrive(current, state), maxSteps - steps)
        decreases maxSteps - steps, current.Goto?
      {
        if steps >= maxSteps {
          return StepLimit(current.node);
        }
        if current.node !in graph.nodes {
          return NoNode(current.node);
        }
        state := graph.nodes[current.node](state);
        steps := steps + 1;
        var next := ResolveNext(graph, current.node, state);
        match next {
          case At(node, after) => current, state := Goto(node), after;
          case Finished(after) => current, state := End, after;
          case _ => return next;
        }
      }
      result := Finished(state);
    }

    /** Runs like `Invoke`, handing out every node with the state it left. */
    method Stream(initial: S) returns (outputs: seq<(N, S)>, result: Config<N, S>)
      ensures result == RunWithin(graph, At(entryPoint, initial), maxSteps)
      ensures outputs == Yields(graph, At(entryPoint, initial), maxSteps)
    {
      var current: Target<N> := Goto(entryPoint);
      var state := initial;
      var steps := 0;
      outputs := [];
      while current.Goto?
        invariant steps <= maxSteps
        invariant RunWithin(graph, At(entryPoint, initial), maxSteps) ==
          RunWithin(graph, Arrive(current, state), maxSteps - steps)
        invariant Yields(graph, At(entryPoint, initial), maxSteps) ==
          outputs + Yields(graph, Arrive(current, state), maxSteps - steps)
        decreases maxSteps - steps, current.Goto?
      {
        if steps >= maxSteps {
          return outputs, StepLimit(current.node);
        }
        if current.node !in graph.nodes {
          return outputs, NoNode(current.node);
        }
        state := graph.nodes[current.node](state);
        steps := steps + 1;
        outputs := outputs + [(current.node, state)];
        var next := ResolveNext(graph, current.node, state);
        match next {
          case At(node, after) => current, state := Goto(node), after;
          case Finished(after) => current, state := End, after;
          case _ => return outputs, next;
        }
      }
      result := Finished(state);
    }
  }

  const DEFAULT_MAX_STEPS: nat := 50

  /** The builder: edges are added one by one, then compiled. */
  class Workflow<N(==), !S, D(==)> {
    var nodes: map<N, S -> S>
    var edges: map<N, Target<N>>
    var branches: map<N, Branch<N, S, D>>
    var entryPoint: Option<N>

    constructor ()
      ensures nodes == map[] && edges == map[] && branches == map[] && entryPoint == None
    {
      nodes, edges, branches, entryPoint := map[], map[], map[], None;
    }

    method AddNode(name: N, fn: S -> S)
      modifies this`nodes
      ensures nodes == old(nodes)[name := fn]
    {
      nodes := nodes[name := fn];
    }

    method AddEdge(source: N, target: Target<N>)
      modifies this`edges
      ensures edges == old(edges)[source := target]
    {
      edges := edges[source := target];
    }

    method AddConditionalEdges(source: N, decide: S -> (S, D), routes: map<D, Target<N>>)
      modifies this`branches
      ensures branches == old(branches)[source := Branch(decide, routes)]
    {
      branches := branches[source := Branch(decide, routes)];
    }

    method SetEntryPoint(name: N)
      modifies this`entryPoint
      ensures entryPoint == Some(name)
    {
      entryPoint := Some(name);
    }

    /** Fails when no entry point is set or the entry point is not a registered node. */
    method Compile() returns (app: CompiledWorkflow?<N, S, D>)
      ensures app == null <==> entryPoint.None? || entryPoint.value !in nodes
      ensures app != null ==>
        && app.graph == Graph(nodes, edges, branches)
        && app.entryPoint == entryPoint.value && app.maxSteps == DEFAULT_MAX_STEPS
    {
      if entryPoint.None? || entryPoint.value !in nodes {
        return null;
      }
      app := new CompiledWorkflow(Graph(nodes, edges, branches), entryPoint.value, DEFAULT_MAX_STEPS);
    }
  }
}

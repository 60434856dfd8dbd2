/** Moving todo tasks from backlogged to idle agents: `_rebalance_children` of agents/orchestrator_helpers.py. */
module Rebalancing {
  import opened Distinctness
  import opened IssueTracker
  import opened RetryMarker

  const MAX_REBALANCE_PER_CYCLE := 2
  const BACKLOG_THRESHOLD := 3

  /** How many todo tasks an agent has. */
  function Load(children: seq<Child>, agent: string): nat {
    if children == [] then 0
    else
      var c := children[|children| - 1];
      Load(children[..|children| - 1], agent) + if c.status == Todo && c.assignee == agent then 1 else 0
  }

  /** Agents that have finished something and have nothing left to do. */
  function IdleAgents(children: seq<Child>): set<string> {
    set c | c in children && c.status == Done && c.assignee != "" && Load(children, c.assignee) == 0 :: c.assignee
  }

  ghost predicate Backlogged(children: seq<Child>, agent: string) {
    agent != "" && Load(children, agent) >= BACKLOG_THRESHOLD
  }

  ghost predicate LoadsWithin(children: seq<Child>, most: nat) {
    forall a :: Load(children, a) <= most
  }

  lemma {:induction false} LoadAfterMove(children: seq<Child>, i: nat, target: string, agent: string)
    requires i < |children| && children[i].status == Todo
    ensures Load(children[i := children[i].(assignee := target)], agent) ==
      Load(children, agent) - (if agent == children[i].assignee then 1 else 0) + (if agent == target then 1 else 0)
  {
    var moved := children[i := children[i].(assignee := target)];
    var last := |children| - 1;
    if i == last {
      assert moved[..last] == children[..last];
    } else {
      LoadAfterMove(children[..last], i, target, agent);
      assert moved[..last] == children[..last][i := children[i].(assignee := target)];
    }
  }

  /** The positions of an agent's todo tasks, in order. */
  function TodoOf(children: seq<Child>, agent: string): (tasks: seq<nat>)
    ensures InRange(tasks, |children|)
  {
    if children == [] then []
    else
      var last := |children| - 1;
      TodoOf(children[..last], agent) +
      if children[last].status == Todo && children[last].assignee == agent then [last] else []
  }

  /** Agents with todo tasks, in order of appearance. */
  function Owners(children: seq<Child>): seq<string> {
    if children == [] then []
    else
      var before, c := Owners(children[..|children| - 1]), children[|children| - 1];
      before + if c.status == Todo && c.assignee != "" && c.assignee !in before then [c.assignee] else []
  }

  /** Those of the agents that have enough todo tasks to give some away. */
  function Busy(children: seq<Child>, agents: seq<string>): seq<string> {
    if agents == [] then []
    else
      var a := agents[|agents| - 1];
      Busy(children, agents[..|agents| - 1]) + if |TodoOf(children, a)| >= BACKLOG_THRESHOLD then [a] else []
  }

  /** The todo tasks of the agents, agent by agent. */
  function TasksOf(children: seq<Child>, agents: seq<string>): (tasks: seq<nat>)
    ensures InRange(tasks, |children|)
  {
    if agents == [] then []
    else TasksOf(children, agents[..|agents| - 1]) + TodoOf(children, agents[|agents| - 1])
  }

  /** The tasks that may be moved, in the order in which moving them is tried. */
  function Queue(children: seq<Child>): (tasks: seq<nat>)
    ensures InRange(tasks, |children|)
  {
    TasksOf(children, Busy(children, Owners(children)))
  }

  /** How trying to move a task ends: not moved, moved without the comment, moved with it, or moved without an error. */
  datatype Attempt = Refused | Unmarked | Uncounted | Counted

  /** The task after the attempt to give it to `target`. */
  function MovedTo(c: Child, target: string, attempt: Attempt): Child {
    match attempt
    case Refused => c
    case Unmarked => c.(assignee := target)
    case _ => c.(assignee := target, comments := c.comments + [RebalanceComment(c.assignee)])
  }

  /** Attempt `k` tries to give task `queue[k]` to agent `idle[k]`. */
  function Replay(now: seq<Child>, queue: seq<nat>, idle: seq<string>, attempts: seq<Attempt>): (after: seq<Child>)
    requires |attempts| <= |queue| && |attempts| <= |idle| && InRange(queue, |now|)
    ensures |after| == |now|
  {
    if attempts == [] then now
    else
      var k := |attempts| - 1;
      var before := Replay(now, queue, idle, attempts[..k]);
      before[queue[k] := MovedTo(before[queue[k]], idle[k], attempts[k])]
  }

  function CountedIn(attempts: seq<Attempt>): nat {
    if attempts == [] then 0
    else CountedIn(attempts[..|attempts| - 1]) + if attempts[|attempts| - 1] == Counted then 1 else 0
  }

  /** The attempts go on until two were counted or the tasks or the agents run out, and no longer. */
  ghost predicate Complete(attempts: seq<Attempt>, queue: seq<nat>, idle: seq<string>) {
    && |attempts| <= |queue| && |attempts| <= |idle|
    && (forall k :: 0 <= k < |attempts| ==> CountedIn(attempts[..k]) < MAX_REBALANCE_PER_CYCLE)
    && (CountedIn(attempts) >= MAX_REBALANCE_PER_CYCLE || |attempts| == |queue| || |attempts| == |idle|)
  }

  /** The agents in some order, each once. */
  ghost predicate IsOrderOf(list: seq<string>, agents: set<string>) {
    NoDuplicates(list) && forall a :: a in list <==> a in agents
  }

  /** The list the orchestrator read: its todo tasks are on the tracker as they were. */
  ghost predicate StillTodo(snapshot: seq<Child>, now: seq<Child>) {
    |now| == |snapshot| && forall i :: 0 <= i < |snapshot| && snapshot[i].status == Todo ==> now[i] == snapshot[i]
  }

  /** The tasks that changed hands. */
  ghost function MovedTasks(before: seq<Child>, after: seq<Child>): set<int>
    requires |after| == |before|
  {
    set i | 0 <= i < |before| && after[i].assignee != before[i].assignee
  }

  // ---- The todo lists ----

  lemma {:induction false} TodoOfMeaning(children: seq<Child>, agent: string)
    ensures |TodoOf(children, agent)| == Load(children, agent)
    ensures forall t :: t in TodoOf(children, agent) ==>
      t < |children| && children[t].status == Todo && children[t].assignee == agent
    ensures NoDuplicates(TodoOf(children, agent))
  {
    if children != [] {
      var last := |children| - 1;
      TodoOfMeaning(children[..last], agent);
    }
  }

  lemma {:induction false} OwnersMeaning(children: seq<Child>)
    ensures NoDuplicates(Owners(children))
    ensures forall a :: a in Owners(children) <==> a != "" && Load(children, a) > 0
  {
    if children != [] {
      OwnersMeaning(children[..|children| - 1]);
    }
  }

  lemma {:induction false} BusyMeaning(children: seq<Child>, agents: seq<string>)
    requires NoDuplicates(agents)
    ensures NoDuplicates(Busy(children, agents))
    ensures forall a :: a in Busy(children, agents) <==> a in agents && Load(children, a) >= BACKLOG_THRESHOLD
  {
    if agents != [] {
      var a := agents[|agents| - 1];
      BusyMeaning(children, agents[..|agents| - 1]);
      TodoOfMeaning(children, a);
      assert agents == agents[..|agents| - 1] + [a];
    }
  }

  lemma {:induction false} TasksOfMeaning(children: seq<Child>, agents: seq<string>)
    requires NoDuplicates(agents)
    ensures NoDuplicates(TasksOf(children, agents))
    ensures forall t :: t in TasksOf(children, agents) ==>
      t < |children| && children[t].status == Todo && children[t].assignee in agents
    ensures forall a :: a in agents ==> |TasksOf(children, agents)| >= Load(children, a)
  {
    if agents != [] {
      var init, a := agents[..|agents| - 1], agents[|agents| - 1];
      TasksOfMeaning(children, init);
      TodoOfMeaning(children, a);
      assert a !in init;
      assert agents == init + [a];
      JoinDistinct(TasksOf(children, init), TodoOf(children, a));
    }
  }

  /** The queue holds todo tasks of backlogged agents, each once; it is empty exactly when nobody is backlogged. */
  lemma QueueMeaning(children: seq<Child>)
    ensures NoDuplicates(Queue(children))
    ensures forall t :: t in Queue(children) ==>
      t < |children| && children[t].status == Todo && Backlogged(children, children[t].assignee)
    ensures if exists a :: Backlogged(children, a) then |Queue(children)| >= BACKLOG_THRESHOLD
      else Queue(children) == []
  {
    var owners := Owners(children);
    OwnersMeaning(children);
    BusyMeaning(children, owners);
    var busy := Busy(children, owners);
    TasksOfMeaning(children, busy);
    if a :| Backlogged(children, a) {
      assert a in busy;
    } else {
      assert busy != [] ==> busy[0] in busy && Backlogged(children, busy[0]);
    }
  }

  /** Child `i` is a todo task of the agent. */
  predicate TodoFor(children: seq<Child>, i: nat, agent: string) {
    i < |children| && children[i].status == Todo && children[i].assignee == agent
  }

  lemma {:induction false} LoadCounts(children: seq<Child>, agent: string)
    ensures Load(children, agent) == |set i: nat | i < |children| && TodoFor(children, i, agent)|
  {
    var tasks := set i: nat | i < |children| && TodoFor(children, i, agent);
    if children != [] {
      var last := |children| - 1;
      var init := children[..last];
      LoadCounts(init, agent);
      var earlier := set i: nat | i < |init| && TodoFor(init, i, agent);
      assert forall i: nat :: i < last ==> (TodoFor(children, i, agent) <==> TodoFor(init, i, agent));
      forall i: nat
        ensures i in tasks <==> i in earlier || (i == last && TodoFor(children, last, agent))
      {
      }
      if TodoFor(children, last, agent) {
        assert tasks == earlier + {last};
      } else {
        assert tasks == earlier;
      }
    } else {
      assert tasks == {};
    }
  }

  /** An agent is backlogged with three todo tasks or more. */
  lemma BackloggedMeaning(children: seq<Child>, agent: string)
    ensures Backlogged(children, agent) <==>
      agent != "" && |set i: nat | i < |children| && TodoFor(children, i, agent)| >= 3
  {
    LoadCounts(children, agent);
  }

  /** An agent is idle with something done and nothing todo. */
  lemma IdleMeaning(children: seq<Child>, agent: string)
    ensures agent in IdleAgents(children) <==>
      && agent != "" && (forall i: nat :: !TodoFor(children, i, agent))
      && exists i :: 0 <= i < |children| && children[i].status == Done && children[i].assignee == agent
  {
    LoadCounts(children, agent);
    var tasks := set i: nat | i < |children| && TodoFor(children, i, agent);
    if |tasks| == 0 {
      forall i: nat
        ensures !TodoFor(children, i, agent)
      {
        assert i !in tasks;
      }
    } else {
      var i :| i in tasks;
      assert TodoFor(children, i, agent);
    }
    if agent in IdleAgents(children) {
      var c :| c in children && c.status == Done && c.assignee == agent;
      var i :| 0 <= i < |children| && children[i] == c;
    }
    if i :| 0 <= i < |children| && children[i].status == Done && children[i].assignee == agent {
      assert children[i] in children;
    }
  }

  /** The first todo task of `a` comes before every one of `b`. */
  ghost predicate FirstEarlier(children: seq<Child>, a: string, b: string) {
    exists f: nat :: TodoFor(children, f, a) && forall t: nat :: TodoFor(children, t, b) ==> f < t
  }

  lemma {:induction false} OwnersOrder(children: seq<Child>, i: nat, j: nat)
    requires i < j < |Owners(children)|
    ensures FirstEarlier(children, Owners(children)[i], Owners(children)[j])
  {
    var last := |children| - 1;
    var init := children[..last];
    var before := Owners(init);
    var a, b := Owners(children)[i], Owners(children)[j];
    assert forall t: nat, x :: t < last ==> (TodoFor(children, t, x) <==> TodoFor(init, t, x));
    OwnersMeaning(init);
    if j < |before| {
      OwnersOrder(init, i, j);
      var f: nat :| TodoFor(init, f, a) && forall t: nat :: TodoFor(init, t, b) ==> f < t;
      assert TodoFor(children, f, a);
    } else {
      assert a in before;
      var f := FirstTask(init, a);
      assert TodoFor(children, f, a);
      forall t: nat | TodoFor(children, t, b)
        ensures f < t
      {
        if t < last {
          NoneWithoutLoad(init, t, b);
        }
      }
    }
  }

  lemma {:induction false} FirstTask(children: seq<Child>, agent: string) returns (i: nat)
    requires Load(children, agent) > 0
    ensures TodoFor(children, i, agent)
  {
    var last := |children| - 1;
    if TodoFor(children, last, agent) {
      i := last;
    } else {
      i := FirstTask(children[..last], agent);
    }
  }

  lemma NoneWithoutLoad(children: seq<Child>, i: nat, agent: string)
    requires TodoFor(children, i, agent)
    ensures Load(children, agent) > 0
  {
    LoadCounts(children, agent);
    assert i in set j: nat | j < |children| && TodoFor(children, j, agent);
  }

  lemma BusyStep(children: seq<Child>, agents: seq<string>)
    ensures Busy(children, agents) ==
      if agents == [] then []
      else
        var init, a := agents[..|agents| - 1], agents[|agents| - 1];
        if |TodoOf(children, a)| >= BACKLOG_THRESHOLD then Busy(children, init) + [a] else Busy(children, init)
  {
  }

  lemma {:induction false} BusyOrder(children: seq<Child>, agents: seq<string>)
    requires forall i, j :: 0 <= i < j < |agents| ==> FirstEarlier(children, agents[i], agents[j])
    ensures forall x :: x in Busy(children, agents) ==> x in agents
    ensures forall i, j :: 0 <= i < j < |Busy(children, agents)| ==>
      FirstEarlier(children, Busy(children, agents)[i], Busy(children, agents)[j])
  {
    hide FirstEarlier, Busy;
    BusyStep(children, agents);
    if agents != [] {
      var init, a := agents[..|agents| - 1], agents[|agents| - 1];
      BusyOrder(children, init);
      forall x | x in init
        ensures FirstEarlier(children, x, a)
      {
        var i :| 0 <= i < |init| && init[i] == x;
        assert agents[i] == x;
      }
      var busy := Busy(children, init);
      assert forall i :: 0 <= i < |busy| ==> busy[i] in init;
    }
  }

  /** `s` is a todo task tried before `t`: of the same agent an earlier one, else of an agent met earlier. */
  ghost predicate TriedBefore(children: seq<Child>, s: nat, t: nat)
    requires s < |children| && t < |children|
  {
    if children[s].assignee == children[t].assignee then s < t
    else FirstEarlier(children, children[s].assignee, children[t].assignee)
  }

  lemma {:induction false} TodoOfOrder(children: seq<Child>, agent: string)
    ensures forall k, l :: 0 <= k < l < |TodoOf(children, agent)| ==>
      TodoOf(children, agent)[k] < TodoOf(children, agent)[l]
  {
    if children != [] {
      TodoOfOrder(children[..|children| - 1], agent);
    }
  }

  lemma {:induction false} TasksOfOrder(children: seq<Child>, agents: seq<string>)
    requires NoDuplicates(agents)
    requires forall i, j :: 0 <= i < j < |agents| ==> FirstEarlier(children, agents[i], agents[j])
    ensures forall k, l :: 0 <= k < l < |TasksOf(children, agents)| ==>
      TriedBefore(children, TasksOf(children, agents)[k], TasksOf(children, agents)[l])
  {
    if agents != [] {
      hide FirstEarlier;
      var init, a := agents[..|agents| - 1], agents[|agents| - 1];
      TasksOfOrder(children, init);
      TasksOfMeaning(children, init);
      TodoOfMeaning(children, a);
      TodoOfOrder(children, a);
      var earlier, own := TasksOf(children, init), TodoOf(children, a);
      forall k, l | 0 <= k < l < |earlier + own|
        ensures TriedBefore(children, (earlier + own)[k], (earlier + own)[l])
      {
        if l < |earlier| {
          assert TriedBefore(children, earlier[k], earlier[l]);
        } else if k < |earlier| {
          assert earlier[k] in earlier && own[l - |earlier|] in own;
          var i :| 0 <= i < |init| && init[i] == children[earlier[k]].assignee;
          assert agents[i] == init[i] != a;
        } else {
          assert own[k - |earlier|] in own && own[l - |earlier|] in own;
        }
      }
    }
  }

  /** Backlogged agents give tasks away in the order in which they are met in the list, each its earliest first. */
  lemma QueueOrder(children: seq<Child>)
    ensures forall k, l :: 0 <= k < l < |Queue(children)| ==>
      TriedBefore(children, Queue(children)[k], Queue(children)[l])
  {
    hide FirstEarlier, TriedBefore, Owners, Busy, TasksOf;
    var owners := Owners(children);
    OwnersMeaning(children);
    BusyMeaning(children, owners);
    forall i, j | 0 <= i < j < |owners|
      ensures FirstEarlier(children, owners[i], owners[j])
    {
      OwnersOrder(children, i, j);
    }
    BusyOrder(children, owners);
    TasksOfOrder(children, Busy(children, owners));
  }

  // ---- What a series of attempts does ----

  /** Attempts touch the first tasks of the queue only, each once. */
  lemma {:induction false} ReplayAt(now: seq<Child>, queue: seq<nat>, idle: seq<string>, attempts: seq<Attempt>)
    requires |attempts| <= |queue| && |attempts| <= |idle| && InRange(queue, |now|) && NoDuplicates(queue)
    ensures var after := Replay(now, queue, idle, attempts);
      && (forall k :: 0 <= k < |attempts| ==> after[queue[k]] == MovedTo(now[queue[k]], idle[k], attempts[k]))
      && (forall i: nat :: i < |now| && i !in queue[..|attempts|] ==> after[i] == now[i])
  {
    if attempts != [] {
      var k := |attempts| - 1;
      ReplayAt(now, queue, idle, attempts[..k]);
      assert queue[..|attempts|] == queue[..k] + [queue[k]];
      assert queue[k] !in queue[..k];
    }
  }

  /** One child's share in a rebalancing: moved off a backlogged agent to an idle one, or left alone. */
  ghost predicate MovedOrKept(snapshot: seq<Child>, i: nat, before: Child, after: Child)
    requires i < |snapshot|
  {
    || after == before
    || (&& before == snapshot[i] && snapshot[i].status == Todo
        && Backlogged(snapshot, before.assignee) && after.assignee in IdleAgents(snapshot)
        && after == before.(assignee := after.assignee, comments := after.comments)
        && after.comments in {before.comments, before.comments + [RebalanceComment(before.assignee)]})
  }

  lemma EachMovedOrKept(snapshot: seq<Child>, now: seq<Child>, idle: seq<string>, attempts: seq<Attempt>)
    requires StillTodo(snapshot, now) && IsOrderOf(idle, IdleAgents(snapshot))
    requires |attempts| <= |Queue(snapshot)| && |attempts| <= |idle|
    ensures var after := Replay(now, Queue(snapshot), idle, attempts);
      forall i :: 0 <= i < |now| ==> MovedOrKept(snapshot, i, now[i], after[i])
  {
    hide Queue, IdleAgents, Backlogged, Replay;
    var queue := Queue(snapshot);
    QueueMeaning(snapshot);
    ReplayAt(now, queue, idle, attempts);
    var after := Replay(now, queue, idle, attempts);
    forall i: nat | i < |now|
      ensures MovedOrKept(snapshot, i, now[i], after[i])
    {
      if i in queue[..|attempts|] {
        var k :| 0 <= k < |attempts| && queue[k] == i;
        assert queue[k] in queue && idle[k] in idle;
      }
    }
  }

  /** The number of attempts that moved their task. */
  function MovesIn(attempts: seq<Attempt>): nat {
    if attempts == [] then 0
    else MovesIn(attempts[..|attempts| - 1]) + if attempts[|attempts| - 1] == Refused then 0 else 1
  }

  lemma {:induction false} CountedMovesAttempts(attempts: seq<Attempt>)
    ensures CountedIn(attempts) <= MovesIn(attempts) <= |attempts|
    ensures CountedIn(attempts) == |attempts| <==> forall k :: 0 <= k < |attempts| ==> attempts[k] == Counted
  {
    if attempts != [] {
      CountedMovesAttempts(attempts[..|attempts| - 1]);
      if CountedIn(attempts) == |attempts| {
        assert forall k :: 0 <= k < |attempts| - 1 ==> attempts[k] == attempts[..|attempts| - 1][k];
      }
    }
  }

  /** No task of the queue belongs to an agent of the list. */
  ghost predicate Apart(now: seq<Child>, queue: seq<nat>, idle: seq<string>)
    requires InRange(queue, |now|)
  {
    forall k :: 0 <= k < |queue| ==> now[queue[k]].assignee !in idle
  }

  /** The last attempt finds its task untouched. */
  lemma LastAttempt(now: seq<Child>, queue: seq<nat>, idle: seq<string>, attempts: seq<Attempt>)
    requires 0 < |attempts| <= |queue| && |attempts| <= |idle| && InRange(queue, |now|) && NoDuplicates(queue)
    ensures var k := |attempts| - 1;
      var before := Replay(now, queue, idle, attempts[..k]);
      && before[queue[k]] == now[queue[k]]
      && Replay(now, queue, idle, attempts) == before[queue[k] := MovedTo(now[queue[k]], idle[k], attempts[k])]
  {
    hide MovedTo, NoDuplicates;
    var k := |attempts| - 1;
    ReplayAt(now, queue, idle, attempts[..k]);
    NotAmongEarlier(queue, k);
  }

  lemma NotAmongEarlier(queue: seq<nat>, k: nat)
    requires k < |queue| && NoDuplicates(queue)
    ensures queue[k] !in queue[..k]
  {
  }

  lemma MovedTasksGrow(now: seq<Child>, before: seq<Child>, i: nat, target: string, attempt: Attempt)
    requires |before| == |now| && i < |now| && before[i] == now[i] && now[i].assignee != target
    ensures MovedTasks(now, before[i := MovedTo(now[i], target, attempt)]) ==
      MovedTasks(now, before) + if attempt == Refused then {} else {i as int}
    ensures i as int !in MovedTasks(now, before)
  {
  }

  /** As many tasks changed hands as attempts moved one. */
  lemma {:induction false} MovedTasksCount(now: seq<Child>, queue: seq<nat>, idle: seq<string>, attempts: seq<Attempt>)
    requires |attempts| <= |queue| && |attempts| <= |idle| && InRange(queue, |now|) && NoDuplicates(queue)
    requires Apart(now, queue, idle)
    ensures |MovedTasks(now, Replay(now, queue, idle, attempts))| == MovesIn(attempts)
  {
    if attempts == [] {
      assert MovedTasks(now, now) == {};
    } else {
      hide MovedTasks, MovedTo, Replay, NoDuplicates;
      var k := |attempts| - 1;
      MovedTasksCount(now, queue, idle, attempts[..k]);
      LastAttempt(now, queue, idle, attempts);
      assert idle[k] in idle;
      MovedTasksGrow(now, Replay(now, queue, idle, attempts[..k]), queue[k], idle[k], attempts[k]);
    }
  }

  lemma MovesInStep(attempts: seq<Attempt>)
    ensures MovesIn(attempts) ==
      if attempts == [] then 0
      else MovesIn(attempts[..|attempts| - 1]) + if attempts[|attempts| - 1] == Refused then 0 else 1
  {
  }

  lemma NothingReplayed(now: seq<Child>, queue: seq<nat>, idle: seq<string>)
    requires InRange(queue, |now|)
    ensures Replay(now, queue, idle, []) == now
  {
  }

  /**
   * An idle agent gains a task exactly when its attempt moved one; nobody else gains, and losses are
   * at most the moves.
   */
  lemma {:induction false} ReplayLoads(now: seq<Child>, queue: seq<nat>, idle: seq<string>, attempts: seq<Attempt>)
    requires |attempts| <= |queue| && |attempts| <= |idle| && InRange(queue, |now|) && NoDuplicates(queue)
    requires Apart(now, queue, idle) && NoDuplicates(idle)
    requires forall k :: 0 <= k < |queue| ==> now[queue[k]].status == Todo
    ensures var after := Replay(now, queue, idle, attempts);
      && (forall k :: 0 <= k < |idle| ==>
        Load(after, idle[k]) == Load(now, idle[k]) + if k < |attempts| && attempts[k] != Refused then 1 else 0)
      && (forall a :: a !in idle ==> Load(now, a) - MovesIn(attempts) <= Load(after, a) <= Load(now, a))
  {
    hide Load, MovedTo, Replay, MovesIn;
    MovesInStep(attempts);
    if attempts == [] {
      NothingReplayed(now, queue, idle);
    } else {
      var k := |attempts| - 1;
      ReplayLoads(now, queue, idle, attempts[..k]);
      LastAttempt(now, queue, idle, attempts);
      assert idle[k] in idle;
      LoadAfterAttempt(Replay(now, queue, idle, attempts[..k]), queue[k], idle[k], attempts[k]);
    }
  }

  /** One attempt changes the loads of the owner and of the target, if it moves the task, and no others. */
  lemma LoadAfterAttempt(before: seq<Child>, i: nat, target: string, attempt: Attempt)
    requires i < |before| && before[i].status == Todo && before[i].assignee != target
    ensures var after := before[i := MovedTo(before[i], target, attempt)];
      forall a :: Load(after, a) == Load(before, a) +
        (if attempt == Refused then 0 else if a == target then 1 else if a == before[i].assignee then -1 else 0)
  {
    var after := before[i := MovedTo(before[i], target, attempt)];
    if attempt == Refused {
      assert after == before;
    } else {
      forall a: string
        ensures Load(after, a) == Load(before[i := before[i].(assignee := target)], a)
      {
        LoadIgnoresComments(before[i := before[i].(assignee := target)], i, after[i].comments, a);
        assert after == before[i := before[i].(assignee := target)]
                              [i := before[i].(assignee := target, comments := after[i].comments)];
        LoadAfterMove(before, i, target, a);
      }
      forall a: string {
        LoadAfterMove(before, i, target, a);
      }
    }
  }

  lemma {:induction false} LoadIgnoresComments(children: seq<Child>, i: nat, comments: seq<string>, agent: string)
    requires i < |children|
    ensures Load(children[i := children[i].(comments := comments)], agent) == Load(children, agent)
  {
    var last := |children| - 1;
    var other := children[i := children[i].(comments := comments)];
    if i == last {
      assert other[..last] == children[..last];
    } else {
      LoadIgnoresComments(children[..last], i, comments, agent);
      assert other[..last] == children[..last][i := children[i].(comments := comments)];
    }
  }

  /** Idle agents have no todo tasks in the list, so they own none of the queue. */
  lemma QueueApartFromIdle(snapshot: seq<Child>, now: seq<Child>, idle: seq<string>)
    requires StillTodo(snapshot, now) && IsOrderOf(idle, IdleAgents(snapshot))
    ensures Apart(now, Queue(snapshot), idle) && NoDuplicates(Queue(snapshot))
    ensures forall k :: 0 <= k < |Queue(snapshot)| ==> now[Queue(snapshot)[k]].status == Todo
  {
    hide Queue;
    QueueMeaning(snapshot);
    var queue := Queue(snapshot);
    forall k | 0 <= k < |queue|
      ensures now[queue[k]].assignee !in idle && now[queue[k]].status == Todo
    {
      assert queue[k] in queue;
    }
  }

  // ---- The operation ----

  /** The todo tasks of the first `i` children, agent by agent, agents in order of appearance. */
  ghost predicate Grouped(children: seq<Child>, i: nat, order: seq<string>, pending: map<string, seq<nat>>)
    requires i <= |children|
  {
    && order == Owners(children[..i]) && "" !in order
    && (forall a :: a in pending <==> a in order)
    && (forall a | a in pending :: pending[a] == TodoOf(children[..i], a))
  }

  method GroupPending(children: seq<Child>) returns (order: seq<string>, pending: map<string, seq<nat>>)
    ensures Grouped(children, |children|, order, pending)
  {
    order, pending := [], map[];
    assert Grouped(children, 0, order, pending);
    hide Owners, TodoOf;
    for i := 0 to |children|
      invariant Grouped(children, i, order, pending)
    {
      var c := children[i];
      OneMoreChild(children, i);
      if c.assignee != "" && c.status == Todo {
        order, pending := AddPending(children, i, order, pending);
      }
    }
  }

  /** `setdefault` and `append` for the todo task `i`. */
  method AddPending(children: seq<Child>, i: nat, order: seq<string>, pending: map<string, seq<nat>>)
    returns (order': seq<string>, pending': map<string, seq<nat>>)
    requires i < |children| && children[i].assignee != "" && children[i].status == Todo
    requires Grouped(children, i, order, pending)
    ensures Grouped(children, i + 1, order', pending')
  {
    hide Owners, TodoOf;
    OneMoreChild(children, i);
    var owner := children[i].assignee;
    order' := order;
    var tasks := [];
    if owner in pending {
      tasks := pending[owner];
    } else {
      order' := order + [owner];
      NoTodoUnlessOwner(children[..i], owner);
    }
    pending' := pending[owner := tasks + [i]];
  }

  lemma OneMoreChild(children: seq<Child>, i: nat)
    requires i < |children|
    ensures var c, owners := children[i], Owners(children[..i]);
      && Owners(children[..i + 1]) ==
        owners + (if c.status == Todo && c.assignee != "" && c.assignee !in owners then [c.assignee] else [])
      && forall a :: (
        TodoOf(children[..i + 1], a) ==
          TodoOf(children[..i], a) + if c.status == Todo && c.assignee == a then [i] else [])
  {
    assert children[..i + 1][..i] == children[..i];
  }

  lemma NoTodoUnlessOwner(children: seq<Child>, agent: string)
    requires agent !in Owners(children) && agent != ""
    ensures TodoOf(children, agent) == []
  {
    OwnersMeaning(children);
    TodoOfMeaning(children, agent);
  }

  /** The members of a set in some order. */
  method InSomeOrder(agents: set<string>) returns (list: seq<string>)
    ensures IsOrderOf(list, agents) && |list| == |agents|
  {
    list := [];
    var left := agents;
    while left != {}
      invariant left <= agents && |list| + |left| == |agents|
      invariant IsOrderOf(list, agents - left)
    {
      var a :| a in left;
      left := left - {a};
      list := list + [a];
    }
  }

  /** Reassigns one task and says so in a comment; true when both calls went through. */
  method MoveTask(client: Tracker, i: nat, target: string) returns (ok: bool, ghost attempt: Attempt)
    requires i < |client.children|
    modifies client`children, client`failures
    ensures client.failures == old(client.failures) + if ok then 0 else 1
    ensures client.children == old(client.children)[i := MovedTo(old(client.children)[i], target, attempt)]
    ensures ok <==> attempt == Counted
    ensures var before := old(client.children)[i];
      client.children == old(client.children)[i := match attempt
        case Refused => before
        case Unmarked => before.(assignee := target)
        case _ => before.(assignee := target, comments := before.comments + [RebalanceComment(before.assignee)])]
  {
    var owner := client.children[i].assignee;
    ghost var written, posted;
    ok, written := client.SetAssignee(i, target);
    attempt := if written then Unmarked else Refused;
    if !ok {
      return;
    }
    ok, posted := client.AddComment(i, RebalanceComment(owner));
    attempt := if ok then Counted else if posted then Uncounted else Unmarked;
  }

  lemma NobodyBusy(children: seq<Child>)
    ensures Busy(children, []) == []
  {
  }

  lemma OneMoreOwner(children: seq<Child>, agents: seq<string>, k: nat)
    requires k < |agents|
    ensures Busy(children, agents[..k + 1]) ==
      Busy(children, agents[..k]) + if |TodoOf(children, agents[k])| >= BACKLOG_THRESHOLD then [agents[k]] else []
  {
    hide TodoOf;
    assert agents[..k + 1][..k] == agents[..k];
  }

  /** The agents with enough todo tasks to give some away. */
  method FindBacklogged(children: seq<Child>, order: seq<string>, pending: map<string, seq<nat>>)
    returns (backlogged: seq<string>)
    requires Grouped(children, |children|, order, pending)
    ensures backlogged == Busy(children, Owners(children))
    ensures forall a :: a in backlogged ==> a in pending && pending[a] == TodoOf(children, a)
  {
    assert children[..|children|] == children;
    hide Owners, TodoOf, Busy;
    backlogged := [];
    NobodyBusy(children);
    for k := 0 to |order|
      invariant backlogged == Busy(children, order[..k])
      invariant forall a :: a in backlogged ==> a in pending
    {
      OneMoreOwner(children, order, k);
      if |pending[order[k]]| >= BACKLOG_THRESHOLD {
        backlogged := backlogged + [order[k]];
      }
    }
    assert order[..|order|] == order;
  }

  /**
   * Tries to give todo tasks of backlogged agents to idle ones, one task to each idle agent, until two
   * moves were counted. A move whose comment raised is not counted. `snapshot` is the list of children
   * read before; its todo tasks are untouched since.
   */
  method RebalanceChildren(client: Tracker, snapshot: seq<Child>)
    returns (reassigned: nat, ghost idle: seq<string>, ghost attempts: seq<Attempt>)
    requires StillTodo(snapshot, client.children)
    modifies client`children, client`failures
    ensures IsOrderOf(idle, IdleAgents(snapshot)) && Complete(attempts, Queue(snapshot), idle)
    ensures client.children == Replay(old(client.children), Queue(snapshot), idle, attempts)
    ensures reassigned == CountedIn(attempts)
    ensures client.failures == old(client.failures) + |attempts| - reassigned
    ensures reassigned <= |MovedTasks(old(client.children), client.children)| <=
      reassigned + client.failures - old(client.failures)
    ensures reassigned <= MAX_REBALANCE_PER_CYCLE
  {
    hide Queue, IdleAgents, Replay, CountedIn, Complete, MovedTasks;
    ghost var before := client.children;
    var order, pending := GroupPending(snapshot);
    var backlogged := FindBacklogged(snapshot, order, pending);
    var targets := InSomeOrder(IdleAgents(snapshot));
    idle := targets;
    reassigned, attempts := ReassignAll(client, snapshot, backlogged, pending, targets);
    QueueApartFromIdle(snapshot, before, idle);
    CompleteMeaning(attempts, Queue(snapshot), idle);
    MovedTasksCount(before, Queue(snapshot), idle, attempts);
    CountedMovesAttempts(attempts);
  }

  lemma CompleteMeaning(attempts: seq<Attempt>, queue: seq<nat>, idle: seq<string>)
    requires Complete(attempts, queue, idle)
    ensures |attempts| <= |queue| && |attempts| <= |idle| && CountedIn(attempts) <= MAX_REBALANCE_PER_CYCLE
  {
    if attempts != [] {
      assert CountedIn(attempts[..|attempts| - 1]) < MAX_REBALANCE_PER_CYCLE;
    }
  }

  /** What both loops keep: the attempts made so far explain the tracker, and none was made after two were counted. */
  ghost predicate Underway(attempts: seq<Attempt>, queue: seq<nat>, idle: seq<string>, before: seq<Child>,
      now: seq<Child>)
    requires InRange(queue, |before|)
  {
    && |attempts| <= |queue| && |attempts| <= |idle|
    && (forall k :: 0 <= k < |attempts| ==> CountedIn(attempts[..k]) < MAX_REBALANCE_PER_CYCLE)
    && now == Replay(before, queue, idle, attempts)
  }

  lemma AttemptOnce(attempts: seq<Attempt>, queue: seq<nat>, idle: seq<string>, before: seq<Child>, now: seq<Child>,
      attempt: Attempt)
    requires InRange(queue, |before|) && Underway(attempts, queue, idle, before, now)
    requires |attempts| < |queue| && |attempts| < |idle| && CountedIn(attempts) < MAX_REBALANCE_PER_CYCLE
    ensures |now| == |before|
    ensures var k := |attempts|;
      Underway(attempts + [attempt], queue, idle, before, now[queue[k] := MovedTo(now[queue[k]], idle[k], attempt)])
    ensures CountedIn(attempts + [attempt]) == CountedIn(attempts) + if attempt == Counted then 1 else 0
  {
    hide MovedTo, Replay, CountedIn;
    ReplayMore(before, queue, idle, attempts, attempt);
    OneMoreCounted(attempts, attempt);
  }

  lemma OneMoreCounted(attempts: seq<Attempt>, attempt: Attempt)
    ensures CountedIn(attempts + [attempt]) == CountedIn(attempts) + if attempt == Counted then 1 else 0
    ensures forall k :: 0 <= k <= |attempts| ==> (attempts + [attempt])[..k] == attempts[..k]
    ensures attempts[..|attempts|] == attempts
  {
    assert (attempts + [attempt])[..|attempts|] == attempts;
  }

  lemma ReplayMore(now: seq<Child>, queue: seq<nat>, idle: seq<string>, attempts: seq<Attempt>, attempt: Attempt)
    requires InRange(queue, |now|) && |attempts| < |queue| && |attempts| < |idle|
    ensures var before, k := Replay(now, queue, idle, attempts), |attempts|;
      Replay(now, queue, idle, attempts + [attempt]) == before[queue[k] := MovedTo(before[queue[k]], idle[k], attempt)]
  {
    hide MovedTo;
    assert (attempts + [attempt])[..|attempts|] == attempts;
  }

  /** The loops have nothing left to try. */
  predicate Exhausted(reassigned: nat, used: nat, idle: seq<string>) {
    reassigned >= MAX_REBALANCE_PER_CYCLE || used >= |idle|
  }

  /** The inner loop: tries the tasks of one backlogged agent, which start at `used` in the queue unless all is over. */
  method MoveFrom(client: Tracker, tasks: seq<nat>, idle: seq<string>, reassigned: nat, used: nat,
      ghost queue: seq<nat>, ghost before: seq<Child>, ghost attempts: seq<Attempt>)
    returns (reassigned': nat, used': nat, ghost attempts': seq<Attempt>)
    requires InRange(queue, |before|) && Underway(attempts, queue, idle, before, client.children)
    requires used == |attempts| && reassigned == CountedIn(attempts)
    requires !Exhausted(reassigned, used, idle) ==> used + |tasks| <= |queue| && tasks == queue[used..used + |tasks|]
    modifies client`children, client`failures
    ensures Underway(attempts', queue, idle, before, client.children)
    ensures used' == |attempts'| && reassigned' == CountedIn(attempts')
    ensures client.failures == old(client.failures) + (used' - used) - (reassigned' - reassigned)
    ensures reassigned' >= reassigned && used' >= used
    ensures Exhausted(reassigned', used', idle) || used' == used + |tasks|
  {
    hide Underway, CountedIn, MovedTo;
    reassigned', used', attempts' := reassigned, used, attempts;
    for t := 0 to |tasks|
      invariant Underway(attempts', queue, idle, before, client.children)
      invariant used' == |attempts'| == used + t && reassigned <= reassigned' == CountedIn(attempts')
      invariant if t == 0 then reassigned' == reassigned else !Exhausted(reassigned, used, idle)
      invariant client.failures == old(client.failures) + (used' - used) - (reassigned' - reassigned)
    {
      if reassigned' >= MAX_REBALANCE_PER_CYCLE || used' >= |idle| {
        break;
      }
      assert !Exhausted(reassigned, used, idle);
      assert tasks[t] == queue[used'];
      AttemptOnce(attempts', queue, idle, before, client.children, Refused);
      ghost var now := client.children;
      ghost var attempt;
      var ok;
      ok, attempt := MoveTask(client, tasks[t], idle[used']);
      AttemptOnce(attempts', queue, idle, before, now, attempt);
      if ok {
        reassigned' := reassigned' + 1;
      }
      attempts' := attempts' + [attempt];
      used' := used' + 1;
    }
  }

  /** The outer loop, over the backlogged agents. */
  method ReassignAll(client: Tracker, ghost snapshot: seq<Child>, backlogged: seq<string>,
      pending: map<string, seq<nat>>,
      idle: seq<string>)
    returns (reassigned: nat, ghost attempts: seq<Attempt>)
    requires |snapshot| == |client.children| && backlogged == Busy(snapshot, Owners(snapshot))
    requires forall a :: a in backlogged ==> a in pending && pending[a] == TodoOf(snapshot, a)
    modifies client`children, client`failures
    ensures Complete(attempts, Queue(snapshot), idle) && reassigned == CountedIn(attempts)
    ensures client.children == Replay(old(client.children), Queue(snapshot), idle, attempts)
    ensures client.failures == old(client.failures) + |attempts| - reassigned
  {
    hide Underway, Busy, Owners, TodoOf, Replay, CountedIn, Complete;
    ghost var queue, before := Queue(snapshot), client.children;
    reassigned, attempts := 0, [];
    var used := 0;
    NothingTried(queue, idle, before);
    NoTasks(snapshot);
    assert backlogged[..0] == [];
    for k := 0 to |backlogged|
      invariant Underway(attempts, queue, idle, before, client.children)
      invariant used == |attempts| && reassigned == CountedIn(attempts)
      invariant client.failures == old(client.failures) + used - reassigned
      invariant Exhausted(reassigned, used, idle) || used == |TasksOf(snapshot, backlogged[..k])|
    {
      var owner := backlogged[k];
      TasksOfSplit(snapshot, backlogged, k);
      reassigned, used, attempts := MoveFrom(client, pending[owner], idle, reassigned, used, queue, before, attempts);
    }
    assert backlogged[..|backlogged|] == backlogged;
    assert Complete(attempts, queue, idle) && client.children == Replay(before, queue, idle, attempts) by {
      UnderwayEnds(attempts, queue, idle, before, client.children);
    }
  }

  lemma NothingTried(queue: seq<nat>, idle: seq<string>, before: seq<Child>)
    requires InRange(queue, |before|)
    ensures Underway([], queue, idle, before, before) && CountedIn([]) == 0
  {
  }

  lemma NoTasks(children: seq<Child>)
    ensures TasksOf(children, []) == []
  {
  }

  lemma UnderwayEnds(attempts: seq<Attempt>, queue: seq<nat>, idle: seq<string>, before: seq<Child>, now: seq<Child>)
    requires InRange(queue, |before|) && Underway(attempts, queue, idle, before, now)
    requires Exhausted(CountedIn(attempts), |attempts|, idle) || |attempts| == |queue|
    ensures Complete(attempts, queue, idle) && now == Replay(before, queue, idle, attempts)
  {
  }

  /** The tasks of the `k`-th agent stand in the queue right after those of the agents before it. */
  lemma {:induction false} TasksOfSplit(children: seq<Child>, agents: seq<string>, k: nat)
    requires k < |agents|
    ensures var start, tasks := |TasksOf(children, agents[..k])|, TodoOf(children, agents[k]);
      && |TasksOf(children, agents[..k + 1])| == start + |tasks| <= |TasksOf(children, agents)|
      && tasks == TasksOf(children, agents)[start..start + |tasks|]
  {
    hide TodoOf;
    var last := |agents| - 1;
    assert agents[..k + 1][..k] == agents[..k];
    if k == last {
      assert agents[..k + 1] == agents;
    } else {
      TasksOfSplit(children, agents[..last], k);
      assert agents[..last][..k] == agents[..k] && agents[..last][..k + 1] == agents[..k + 1];
    }
  }

  // ---- Loads on the tracker ----

  /** `most` is the load of the most loaded agent. */
  ghost predicate IsMaximumLoad(children: seq<Child>, most: nat) {
    LoadsWithin(children, most) && exists a :: Load(children, a) == most
  }

  function Least(a: nat, b: nat): nat {
    if a < b then a else b
  }

  /** The tracker after a rebalancing in which no call failed: the first two tasks go to the first two idle agents. */
  function AfterQuiet(snapshot: seq<Child>, now: seq<Child>, idle: seq<string>): seq<Child>
    requires |now| == |snapshot|
  {
    Replay(now, Queue(snapshot), idle, Quiet(Share(Queue(snapshot), idle)))
  }

  function Quiet(n: nat): (attempts: seq<Attempt>)
    ensures |attempts| == n && forall k :: 0 <= k < n ==> attempts[k] == Counted
  {
    seq(n, _ => Counted)
  }

  function Share(queue: seq<nat>, idle: seq<string>): nat {
    Least(MAX_REBALANCE_PER_CYCLE, Least(|queue|, |idle|))
  }

  /**
   * Without failures the outcome is determined by the order of the idle agents: two moves, or one for
   * a lone idle agent.
   */
  lemma QuietOutcome(snapshot: seq<Child>, now: seq<Child>, idle: seq<string>, attempts: seq<Attempt>)
    requires |now| == |snapshot| && Complete(attempts, Queue(snapshot), idle) && CountedIn(attempts) == |attempts|
    ensures Replay(now, Queue(snapshot), idle, attempts) == AfterQuiet(snapshot, now, idle)
    ensures CountedIn(attempts) ==
      if exists a :: Backlogged(snapshot, a) then Least(MAX_REBALANCE_PER_CYCLE, |idle|) else 0
  {
    hide Queue, Replay;
    CompleteMeaning(attempts, Queue(snapshot), idle);
    QueueMeaning(snapshot);
    CountedMovesAttempts(attempts);
    assert attempts == Quiet(Share(Queue(snapshot), idle));
  }

  lemma QuietIsComplete(snapshot: seq<Child>, idle: seq<string>)
    ensures var queue := Queue(snapshot);
      && Complete(Quiet(Share(queue, idle)), queue, idle)
      && CountedIn(Quiet(Share(queue, idle))) == Share(queue, idle)
  {
    hide Queue;
    var attempts := Quiet(Share(Queue(snapshot), idle));
    forall k | 0 <= k <= |attempts|
      ensures CountedIn(attempts[..k]) == k
    {
      CountedMovesAttempts(attempts[..k]);
    }
    assert attempts[..|attempts|] == attempts;
  }

  /** What any rebalancing does to the loads on the tracker, whatever fails. */
  lemma LoadsAfter(snapshot: seq<Child>, now: seq<Child>, idle: seq<string>, attempts: seq<Attempt>)
    requires StillTodo(snapshot, now) && IsOrderOf(idle, IdleAgents(snapshot))
      && Complete(attempts, Queue(snapshot), idle)
    ensures var after := Replay(now, Queue(snapshot), idle, attempts);
      && (forall k :: 0 <= k < |idle| ==>
        Load(after, idle[k]) == Load(now, idle[k]) + if k < |attempts| && attempts[k] != Refused then 1 else 0)
      && (forall a :: a !in idle ==> Load(now, a) - MovesIn(attempts) <= Load(after, a) <= Load(now, a))
  {
    hide Queue, Load, Replay, IdleAgents, CountedIn, MovesIn;
    QueueApartFromIdle(snapshot, now, idle);
    ReplayLoads(now, Queue(snapshot), idle, attempts);
  }

  /** A backlogged agent has at least three todo tasks on the tracker too. */
  lemma BackloggedOnTracker(snapshot: seq<Child>, now: seq<Child>, agent: string)
    requires StillTodo(snapshot, now)
    ensures Load(now, agent) >= Load(snapshot, agent)
    ensures Backlogged(snapshot, agent) ==> Load(now, agent) >= BACKLOG_THRESHOLD && agent !in IdleAgents(snapshot)
  {
    LoadsGrow(snapshot, now, agent);
  }

  lemma {:induction false} LoadsGrow(snapshot: seq<Child>, now: seq<Child>, agent: string)
    requires StillTodo(snapshot, now)
    ensures Load(now, agent) >= Load(snapshot, agent)
  {
    if snapshot != [] {
      LoadsGrow(snapshot[..|snapshot| - 1], now[..|now| - 1], agent);
    }
  }

  /** Without failures no backlogged agent is left without a task. */
  lemma SourcesKeepATask(snapshot: seq<Child>, now: seq<Child>, idle: seq<string>, agent: string)
    requires StillTodo(snapshot, now) && IsOrderOf(idle, IdleAgents(snapshot)) && Backlogged(snapshot, agent)
    ensures Load(AfterQuiet(snapshot, now, idle), agent) >= Load(now, agent) - MAX_REBALANCE_PER_CYCLE >= 1
  {
    hide Queue, Load, Replay, IdleAgents, CountedIn, MovesIn, Complete, Backlogged;
    QuietIsComplete(snapshot, idle);
    CountedMovesAttempts(Quiet(Share(Queue(snapshot), idle)));
    LoadsAfter(snapshot, now, idle, Quiet(Share(Queue(snapshot), idle)));
    BackloggedOnTracker(snapshot, now, agent);
  }

  /** When no idle agent holds the maximum on the tracker, no rebalancing raises it, whatever fails. */
  lemma MaximumKept(snapshot: seq<Child>, now: seq<Child>, most: nat, idle: seq<string>, attempts: seq<Attempt>)
    requires StillTodo(snapshot, now) && LoadsWithin(now, most)
    requires IsOrderOf(idle, IdleAgents(snapshot)) && Complete(attempts, Queue(snapshot), idle)
    requires (forall a :: !Backlogged(snapshot, a)) || forall a :: a in IdleAgents(snapshot) ==> Load(now, a) < most
    ensures LoadsWithin(Replay(now, Queue(snapshot), idle, attempts), most)
  {
    hide Queue, Load, Replay, IdleAgents, CountedIn, MovesIn, Backlogged;
    QueueMeaning(snapshot);
    LoadsAfter(snapshot, now, idle, attempts);
    var after := Replay(now, Queue(snapshot), idle, attempts);
    forall a
      ensures Load(after, a) <= most
    {
      if a in idle {
        var k :| 0 <= k < |idle| && idle[k] == a;
        assert Load(after, idle[k]) <= Load(now, idle[k]) + 1;
      }
    }
  }

  lemma {:induction false} OrderExists(agents: set<string>) returns (list: seq<string>)
    ensures IsOrderOf(list, agents)
  {
    if agents == {} {
      list := [];
    } else {
      var a :| a in agents;
      var rest := OrderExists(agents - {a});
      list := [a] + rest;
    }
  }

  /**
   * The maximum load on the tracker survives a rebalancing without failures, in every order of the idle
   * agents, exactly when nobody is backlogged or no agent taken for idle holds that maximum. An agent
   * can be taken for idle and hold it: its blocked tasks became todo after the list was read.
   */
  lemma MaximumKeptIff(snapshot: seq<Child>, now: seq<Child>, most: nat)
    requires StillTodo(snapshot, now) && IsMaximumLoad(now, most)
    ensures (forall idle | IsOrderOf(idle, IdleAgents(snapshot)) ::
      LoadsWithin(AfterQuiet(snapshot, now, idle), most)) <==>
      ((forall a :: !Backlogged(snapshot, a)) || forall a :: a in IdleAgents(snapshot) ==> Load(now, a) < most)
  {
    hide Queue, Load, Replay, IdleAgents, CountedIn, MovesIn, Complete, Backlogged, IsOrderOf;
    if (forall a :: !Backlogged(snapshot, a)) || forall a :: a in IdleAgents(snapshot) ==> Load(now, a) < most {
      forall idle | IsOrderOf(idle, IdleAgents(snapshot))
        ensures LoadsWithin(AfterQuiet(snapshot, now, idle), most)
      {
        QuietIsComplete(snapshot, idle);
        MaximumKept(snapshot, now, most, idle, Quiet(Share(Queue(snapshot), idle)));
      }
    } else {
      var a :| a in IdleAgents(snapshot) && Load(now, a) >= most;
      var idle := FirstInOrder(a, IdleAgents(snapshot));
      QuietIsComplete(snapshot, idle);
      QueueMeaning(snapshot);
      LoadsAfter(snapshot, now, idle, Quiet(Share(Queue(snapshot), idle)));
      assert Load(AfterQuiet(snapshot, now, idle), idle[0]) == Load(now, a) + 1;
    }
  }

  lemma FirstInOrder(a: string, agents: set<string>) returns (list: seq<string>)
    requires a in agents
    ensures IsOrderOf(list, agents) && list != [] && list[0] == a
  {
    var rest := OrderExists(agents - {a});
    list := [a] + rest;
  }

  /** When the list is what is on the tracker, the maximum is always kept. */
  lemma FreshListKeepsMaximum(snapshot: seq<Child>, most: nat, idle: seq<string>, attempts: seq<Attempt>)
    requires LoadsWithin(snapshot, most)
    requires IsOrderOf(idle, IdleAgents(snapshot)) && Complete(attempts, Queue(snapshot), idle)
    ensures LoadsWithin(Replay(snapshot, Queue(snapshot), idle, attempts), most)
  {
    hide Queue, Replay, Complete, IsOrderOf;
    if a :| Backlogged(snapshot, a) {
      assert Load(snapshot, a) <= most;
    }
    MaximumKept(snapshot, snapshot, most, idle, attempts);
  }

  /** If every comment fails, each idle agent is given a task while tasks last, and none is counted. */
  lemma UncountedMoves(snapshot: seq<Child>, now: seq<Child>, idle: seq<string>) returns (attempts: seq<Attempt>)
    requires StillTodo(snapshot, now) && IsOrderOf(idle, IdleAgents(snapshot))
    ensures Complete(attempts, Queue(snapshot), idle) && CountedIn(attempts) == 0
    ensures |MovedTasks(now, Replay(now, Queue(snapshot), idle, attempts))| == Least(|Queue(snapshot)|, |idle|)
  {
    hide Queue, Replay, MovedTasks, IdleAgents;
    attempts := seq(Least(|Queue(snapshot)|, |idle|), _ => Unmarked);
    forall k | 0 <= k <= |attempts|
      ensures CountedIn(attempts[..k]) == 0 && MovesIn(attempts[..k]) == k
    {
      AllUnmarked(attempts[..k]);
    }
    assert attempts[..|attempts|] == attempts;
    QueueApartFromIdle(snapshot, now, idle);
    MovedTasksCount(now, Queue(snapshot), idle, attempts);
  }

  lemma {:induction false} OrderCounts(list: seq<string>, agents: set<string>)
    requires IsOrderOf(list, agents)
    ensures |list| == |agents|
  {
    if list == [] {
      assert agents == {};
    } else {
      var last := |list| - 1;
      OrderCounts(list[..last], agents - {list[last]});
    }
  }

  /** Tasks are queued exactly when somebody is backlogged, and then at least as many as make a backlog. */
  lemma QueueOfBacklogged(snapshot: seq<Child>)
    ensures if exists a :: Backlogged(snapshot, a) then |Queue(snapshot)| >= BACKLOG_THRESHOLD
      else Queue(snapshot) == []
  {
    hide Queue;
    QueueMeaning(snapshot);
  }

  /**
   * Whatever calls fail, no more tasks move than the limit of a cycle allows exactly when nobody is
   * backlogged or no more agents than that are idle.
   */
  lemma MoveLimitIff(snapshot: seq<Child>, now: seq<Child>)
    requires StillTodo(snapshot, now)
    ensures (forall idle: seq<string>, attempts: seq<Attempt> |
      IsOrderOf(idle, IdleAgents(snapshot)) && Complete(attempts, Queue(snapshot), idle) ::
      |MovedTasks(now, Replay(now, Queue(snapshot), idle, attempts))| <= MAX_REBALANCE_PER_CYCLE) <==>
      ((forall a :: !Backlogged(snapshot, a)) || |IdleAgents(snapshot)| <= MAX_REBALANCE_PER_CYCLE)
  {
    hide Queue, Replay, MovedTasks, IdleAgents, IsOrderOf, Backlogged, CountedIn;
    QueueOfBacklogged(snapshot);
    if (forall a :: !Backlogged(snapshot, a)) || |IdleAgents(snapshot)| <= MAX_REBALANCE_PER_CYCLE {
      forall idle: seq<string>, attempts: seq<Attempt> |
        IsOrderOf(idle, IdleAgents(snapshot)) && Complete(attempts, Queue(snapshot), idle)
        ensures |MovedTasks(now, Replay(now, Queue(snapshot), idle, attempts))| <= MAX_REBALANCE_PER_CYCLE
      {
        OrderCounts(idle, IdleAgents(snapshot));
        MovesAtMostAttempts(snapshot, now, idle, attempts);
      }
    } else {
      var idle := OrderExists(IdleAgents(snapshot));
      OrderCounts(idle, IdleAgents(snapshot));
      var attempts := UncountedMoves(snapshot, now, idle);
    }
  }

  /** Without failures two tasks move, or one for a lone idle agent, if anybody is backlogged. */
  lemma QuietMoves(snapshot: seq<Child>, now: seq<Child>, idle: seq<string>)
    requires StillTodo(snapshot, now) && IsOrderOf(idle, IdleAgents(snapshot))
    ensures |MovedTasks(now, AfterQuiet(snapshot, now, idle))| ==
      if exists a :: Backlogged(snapshot, a) then Least(2, |IdleAgents(snapshot)|) else 0
    ensures |AfterQuiet(snapshot, now, idle)| == |now|
    ensures Share(Queue(snapshot), idle) == 0 ==> AfterQuiet(snapshot, now, idle) == now
  {
    hide Queue, MovedTasks, IdleAgents, MovesIn, CountedIn, Backlogged, IsOrderOf;
    var attempts := Quiet(Share(Queue(snapshot), idle));
    OrderCounts(idle, IdleAgents(snapshot));
    QueueOfBacklogged(snapshot);
    QueueApartFromIdle(snapshot, now, idle);
    QuietIsComplete(snapshot, idle);
    MovedTasksCount(now, Queue(snapshot), idle, attempts);
    CountedMovesAttempts(attempts);
  }

  lemma MovesAtMostAttempts(snapshot: seq<Child>, now: seq<Child>, idle: seq<string>, attempts: seq<Attempt>)
    requires StillTodo(snapshot, now) && IsOrderOf(idle, IdleAgents(snapshot))
    requires Complete(attempts, Queue(snapshot), idle)
    ensures |MovedTasks(now, Replay(now, Queue(snapshot), idle, attempts))| <= Least(|Queue(snapshot)|, |idle|)
  {
    hide Queue, Replay, MovedTasks, IdleAgents, MovesIn, CountedIn;
    QueueApartFromIdle(snapshot, now, idle);
    CompleteMeaning(attempts, Queue(snapshot), idle);
    MovedTasksCount(now, Queue(snapshot), idle, attempts);
    CountedMovesAttempts(attempts);
  }

  /** One agent with three tasks left and three with none: when every comment raises, all three tasks move. */
  lemma ThreeTasksMove(snapshot: seq<Child>, idle: seq<string>) returns (attempts: seq<Attempt>)
    requires snapshot == [Child(Todo, "a", []), Child(Todo, "a", []), Child(Todo, "a", []),
                          Child(Done, "x", []), Child(Done, "y", []), Child(Done, "z", [])]
    requires IsOrderOf(idle, IdleAgents(snapshot))
    ensures IdleAgents(snapshot) == {"x", "y", "z"} && Backlogged(snapshot, "a")
    ensures Complete(attempts, Queue(snapshot), idle) && CountedIn(attempts) == 0
    ensures |MovedTasks(snapshot, Replay(snapshot, Queue(snapshot), idle, attempts))| == 3
  {
    ThreeIdle(snapshot);
    hide Queue, Replay, MovedTasks, IdleAgents, Load;
    QueueOfBacklogged(snapshot);
    OrderCounts(idle, IdleAgents(snapshot));
    attempts := UncountedMoves(snapshot, snapshot, idle);
  }

  lemma ThreeIdle(snapshot: seq<Child>)
    requires snapshot == [Child(Todo, "a", []), Child(Todo, "a", []), Child(Todo, "a", []),
                          Child(Done, "x", []), Child(Done, "y", []), Child(Done, "z", [])]
    ensures IdleAgents(snapshot) == {"x", "y", "z"} && |IdleAgents(snapshot)| == 3 && Load(snapshot, "a") == 3
  {
    var a, x, y, z := Child(Todo, "a", []), Child(Done, "x", []), Child(Done, "y", []), Child(Done, "z", []);
    hide Load;
    assert "a"[0] != "x"[0] && "a"[0] != "y"[0] && "a"[0] != "z"[0];
    assert "x"[0] != "y"[0] && "y"[0] != "z"[0] && "x"[0] != "z"[0];
    forall agent: string
      ensures Load(snapshot, agent) == if agent == "a" then 3 else 0
    {
      NoChildrenNoLoad(agent);
      LoadOfThreeMore([], a, agent);
      LoadOfOneMore([] + [a, a, a], x, agent);
      LoadOfOneMore([] + [a, a, a] + [x], y, agent);
      LoadOfOneMore([] + [a, a, a] + [x] + [y], z, agent);
      assert snapshot == [] + [a, a, a] + [x] + [y] + [z];
    }
    assert snapshot[3] == x && snapshot[4] == y && snapshot[5] == z;
    assert forall c :: c in snapshot <==> c in {a, x, y, z};
    assert IdleAgents(snapshot) == {"x", "y", "z"};
  }

  lemma NoChildrenNoLoad(agent: string)
    ensures Load([], agent) == 0
  {
  }

  lemma LoadOfOneMore(children: seq<Child>, c: Child, agent: string)
    ensures Load(children + [c], agent) ==
      Load(children, agent) + if c.status == Todo && c.assignee == agent then 1 else 0
  {
    assert (children + [c])[..|children|] == children;
  }

  lemma LoadOfThreeMore(children: seq<Child>, c: Child, agent: string)
    ensures Load(children + [c, c, c], agent) ==
      Load(children, agent) + if c.status == Todo && c.assignee == agent then 3 else 0
  {
    hide Load;
    LoadOfOneMore(children, c, agent);
    LoadOfOneMore(children + [c], c, agent);
    LoadOfOneMore(children + [c] + [c], c, agent);
    assert children + [c] + [c] + [c] == children + [c, c, c];
  }

  lemma {:induction false} AllUnmarked(attempts: seq<Attempt>)
    requires forall k :: 0 <= k < |attempts| ==> attempts[k] == Unmarked
    ensures CountedIn(attempts) == 0 && MovesIn(attempts) == |attempts|
  {
    if attempts != [] {
      AllUnmarked(attempts[..|attempts| - 1]);
    }
  }
}

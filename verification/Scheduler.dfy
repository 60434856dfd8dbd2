/**
 * The scheduler of agents/scheduler.py: health table, process table and tick loop. Whatever comes
 * from outside (exit codes, pending tasks, failed spawns, memory readings, the clock) is arbitrary.
 */
module Schedulers {
  import opened Options
  import opened Entries
  import opened SchedulerHistory
  import opened PriorityQueues

  /** `time.monotonic()`: every reading may be later than the one before, never earlier. */
  class Clock {
    var now: real

    constructor () {
    }

    method Monotonic() returns (t: real)
      modifies this
      ensures t == now >= old(now)
    {
      var elapsed: real :| elapsed >= 0.0;
      now := now + elapsed;
      t := now;
    }
  }

  class AgentHealth {
    const config: SchedulerConfig
    const clock: Clock
    var consecutiveFailures: map<string, nat>
    var lastFailureTime: map<string, real>

    constructor (config: SchedulerConfig, clock: Clock)
      ensures this.config == config && this.clock == clock
      ensures consecutiveFailures == map[] && lastFailureTime == map[]
    {
      this.config, this.clock := config, clock;
      consecutiveFailures, lastFailureTime := map[], map[];
    }

    method RecordSuccess(role: string)
      modifies this
      ensures consecutiveFailures == old(consecutiveFailures) - {role}
      ensures lastFailureTime == old(lastFailureTime) - {role}
    {
      consecutiveFailures := consecutiveFailures - {role};
      lastFailureTime := lastFailureTime - {role};
    }

    method RecordFailure(role: string)
      modifies this, clock
      ensures old(clock.now) <= clock.now
      ensures consecutiveFailures == old(consecutiveFailures)[role := Count(old(consecutiveFailures), role) + 1]
      ensures lastFailureTime == old(lastFailureTime)[role := clock.now]
    {
      consecutiveFailures := consecutiveFailures[role := Count(consecutiveFailures, role) + 1];
      var t := clock.Monotonic();
      lastFailureTime := lastFailureTime[role := t];
    }

    predicate IsHealthy(role: string)
      reads this
    {
      Count(consecutiveFailures, role) < config.crashThreshold
    }

    method IsReady(role: string) returns (ready: bool)
      modifies clock
      ensures old(clock.now) <= clock.now
      ensures ready == Ready(config, consecutiveFailures, lastFailureTime, role, clock.now)
      ensures ready <==>
        || Count(consecutiveFailures, role) < config.crashThreshold
        || role !in lastFailureTime
        || clock.now - lastFailureTime[role] >= (config.backoffBaseMinutes *
             Pow3(Count(consecutiveFailures, role) - config.crashThreshold)) as real * 60.0
        || clock.now - lastFailureTime[role] >= config.backoffMaxMinutes as real * 60.0
    {
      if IsHealthy(role) {
        return true;
      }
      if role !in lastFailureTime {
        return true;
      }
      var t := clock.Monotonic();
      ready := t - lastFailureTime[role] >= BackoffSeconds(config, Count(consecutiveFailures, role));
    }
  }

  class SubprocessPool {
    const clock: Clock
    var active: map<string, ActiveProcess>
    var spawned: nat  // numbers the operating-system processes in the order they were started

    constructor (clock: Clock)
      ensures this.clock == clock && active == map[] && spawned == 0
    {
      this.clock := clock;
      active, spawned := map[], 0;
    }

    /** Starts and registers a process, unless starting it raises an error. */
    method Spawn(role: string, agentId: string, fails: bool) returns (process: Option<ActiveProcess>)
      modifies this, clock
      ensures old(clock.now) <= clock.now
      ensures fails ==> process.None? && active == old(active) && spawned == old(spawned)
      ensures !fails ==>
        && process == Some(ActiveProcess(role, agentId, old(spawned), clock.now))
        && active == old(active)[role := process.value]
        && spawned == old(spawned) + 1
    {
      if fails {
        return None;
      }
      var pid := spawned;
      spawned := spawned + 1;
      var t := clock.Monotonic();
      var ap := ActiveProcess(role, agentId, pid, t);
      active := active[role := ap];
      process := Some(ap);
    }

    /** Removes the processes that have an exit code in `exits`; lists each removed role with its code. */
    method Reap(exits: map<nat, int>) returns (finished: seq<(string, int)>)
      modifies this
      ensures spawned == old(spawned)
      ensures Distinct(finished, (f: (string, int)) => f.0)
      ensures forall r :: r in Firsts(finished) <==> r in old(active) && old(active)[r].pid in exits
      ensures forall i :: 0 <= i < |finished| ==>
        finished[i].0 in old(active) && finished[i] == (finished[i].0, exits[old(active)[finished[i].0].pid])
      ensures active == old(active) - Firsts(finished)
    {
      finished := [];
      var left := active.Keys;
      while left != {}
        invariant spawned == old(spawned)
        invariant left <= old(active).Keys && Firsts(finished) !! left
        invariant Distinct(finished, (f: (string, int)) => f.0)
        invariant forall r :: r in Firsts(finished) <==> r in old(active) && r !in left && old(active)[r].pid in exits
        invariant forall i :: 0 <= i < |finished| ==>
          finished[i].0 in old(active) && finished[i] == (finished[i].0, exits[old(active)[finished[i].0].pid])
        invariant active == old(active) - Firsts(finished)
        decreases left
      {
        var role :| role in left;
        left := left - {role};
        assert role in active && active[role] == old(active)[role];
        var pid := active[role].pid;
        if pid in exits {
          assert Firsts(finished + [(role, exits[pid])]) == Firsts(finished) + {role};
          finished := finished + [(role, exits[pid])];
          active := active - {role};
        }
      }
    }

    /** Kills and removes the processes older than `timeout` seconds; lists their roles. */
    method KillTimedOut(timeout: int) returns (killed: seq<string>)
      modifies this, clock
      ensures old(clock.now) <= clock.now
      ensures spawned == old(spawned)
      ensures Distinct(killed, (r: string) => r)
      ensures forall r :: r in killed <==> r in old(active) && clock.now - old(active)[r].startedAt > timeout as real
      ensures active == old(active) - SetOf(killed)
    {
      var t := clock.Monotonic();
      killed := [];
      var left := active.Keys;
      while left != {}
        invariant spawned == old(spawned)
        invariant left <= old(active).Keys && clock.now == t
        invariant Distinct(killed, (r: string) => r)
        invariant forall r :: r in killed <==>
          r in old(active) && r !in left && t - old(active)[r].startedAt > timeout as real
        invariant active == old(active) - SetOf(killed)
        decreases left
      {
        var role :| role in left;
        left := left - {role};
        assert role in active && active[role] == old(active)[role];
        if t - active[role].startedAt > timeout as real {
          killed := killed + [role];
          active := active - {role};
        }
      }
    }

    /** Shutdown: every process is stopped. */
    method TerminateAll()
      modifies this`active
      ensures active == map[]
    {
      active := map[];
    }
  }

  class Scheduler {
    const config: SchedulerConfig
    const agentMap: map<string, string>
    const maxSlots: int
    const clock: Clock
    const queue: PriorityQueue
    const health: AgentHealth
    const pool: SubprocessPool
    var memoryPaused: bool
    ghost var history: seq<Event>
    ghost var readings: seq<int>

    ghost predicate Valid()
      reads this, queue, health, pool, clock
    {
      queue.Valid() && queue.NoStaleEntries() && Consistent()
    }

    /**
     * The tables are those of the history, the history is lawful, no role is both queued and
     * running, and every queued role has served its backoff.
     */
    ghost predicate Consistent()
      reads this, queue, health, pool, clock
    {
      && HealthAgrees(pool.active) && pool.clock == clock
      && WaitingRolesAreFit()
      && queue.queuedRoles !! pool.active.Keys
      && memoryPaused == Latched(config, readings)
    }

    /** What a cycle starts from and leaves. */
    ghost function Now(): Moment
      reads this, queue, pool, clock
    {
      Moment(pool.active, queue.Contents(), history, readings, clock.now)
    }

    /** The tables of the history are the health table, the number of spawns and the processes `running`. */
    ghost predicate HealthAgrees(running: map<string, ActiveProcess>)
      reads this`history, health, pool
    {
      && health.config == config && health.clock == clock
      && Lawful(config, maxSlots, history)
      && TablesAfter(history) == Tables(running, health.consecutiveFailures, health.lastFailureTime, pool.spawned)
    }

    /** Every queued role has served its backoff. */
    ghost predicate WaitingRolesAreFit()
      reads queue, health, clock
    {
      forall r :: r in queue.queuedRoles ==>
        Ready(health.config, health.consecutiveFailures, health.lastFailureTime, r, clock.now)
    }

    /** What the invariant promises of the tables themselves. */
    lemma ActiveProcessesFitTheSlots(r: string)
      requires Valid()
      ensures |pool.active| <= if maxSlots < 0 then 0 else maxSlots
      ensures !(r in queue.queuedRoles && r in pool.active)
      ensures Count(health.consecutiveFailures, r) == Failures(history, r)
    {
      SlotsNeverExceeded(config, maxSlots, history, |history|);
      assert history[..|history|] == history;
      TablesCountFailures(history, r);
    }

    constructor (config: SchedulerConfig, agentMap: map<string, string>, maxSlots: int)
      ensures Valid() && history == [] && readings == []
      ensures this.config == config && this.agentMap == agentMap && this.maxSlots == maxSlots
      ensures fresh(clock) && fresh(queue) && fresh(health) && fresh(pool)
    {
      this.config, this.agentMap, this.maxSlots := config, agentMap, maxSlots;
      var c := new Clock();
      var q := new PriorityQueue();
      var h := new AgentHealth(config, c);
      var p := new SubprocessPool(c);
      clock, queue, health, pool := c, q, h, p;
      memoryPaused, history, readings := false, [], [];
    }

    /** Books the success of a process the pool has let go. */
    method BookSuccess(role: string, ghost running: map<string, ActiveProcess>)
      requires HealthAgrees(running) && WaitingRolesAreFit() && role in running && role !in queue.queuedRoles
      modifies this`history, health
      ensures HealthAgrees(running - {role}) && WaitingRolesAreFit()
      ensures history == old(history) + [Succeeded(role, running[role].pid)]
    {
      hide TablesAfter, Lawful;
      health.RecordSuccess(role);
      Append(config, maxSlots, history, Succeeded(role, running[role].pid));
      history := history + [Succeeded(role, running[role].pid)];
    }

    /** Books the failure, or the killing, of a process the pool has let go. */
    method BookFailure(role: string, ghost running: map<string, ActiveProcess>, ghost killed: bool)
      requires HealthAgrees(running) && WaitingRolesAreFit() && role in running && role !in queue.queuedRoles
      modifies this`history, health, clock
      ensures HealthAgrees(running - {role}) && WaitingRolesAreFit() && old(clock.now) <= clock.now
      ensures history == old(history) +
        [if killed then TimedOut(role, running[role].pid, clock.now) else Failed(role, running[role].pid, clock.now)]
    {
      hide TablesAfter, Lawful;
      health.RecordFailure(role);
      ghost var pid := running[role].pid;
      ghost var e := if killed then TimedOut(role, pid, clock.now) else Failed(role, pid, clock.now);
      Append(config, maxSlots, history, e);
      history := history + [e];
    }

    /** Reaps the processes with an exit code and books each as a success or a failure of its role. */
    method HandleFinished(exits: map<nat, int>) returns (ghost events: seq<Event>)
      requires Valid()
      modifies this`history, health, pool, clock
      ensures Valid() && old(clock.now) <= clock.now
      ensures history == old(history) + events && ExitsBooked(events, old(pool.active), exits)
      ensures pool.active == old(pool.active) - RolesOf(events) && NotedBetween(events, old(clock.now), clock.now)
      ensures queue.Contents() == old(queue.Contents())
    {
      hide TablesAfter, Lawful, ExitsBooked, RolesOf, NotedBetween;
      var finished := pool.Reap(exits);
      ghost var was := old(pool.active);
      assert was - Firsts(finished[..0]) == was;
      events := [];
      NothingBooked(was, exits, config.agentTimeout, clock.now, clock.now);
      for i := 0 to |finished|
        invariant pool.active == was - Firsts(finished) && pool.clock == clock
        invariant HealthAgrees(was - Firsts(finished[..i])) && WaitingRolesAreFit()
        invariant old(clock.now) <= clock.now
        invariant history == old(history) + events && RolesOf(events) == Firsts(finished[..i])
        invariant SomeExitsBooked(events, was, exits) && NotedBetween(events, old(clock.now), clock.now)
      {
        var (role, exitCode) := finished[i];
        ghost var earlier := clock.now;
        ghost var running := was - Firsts(finished[..i]);
        FirstsGrow(finished, i);
        assert running - {role} == was - Firsts(finished[..i + 1]);
        if exitCode == 0 {
          BookSuccess(role, running);
        } else {
          BookFailure(role, running, false);
        }
        OneMoreExit(events, was, exits, history[|history| - 1], old(clock.now), earlier, clock.now);
        events := events + [history[|history| - 1]];
      }
      assert finished[..|finished|] == finished;
      AllExitsBooked(events, was, exits);
    }

    /** Kills the processes that ran longer than the timeout and books each as a failure of its role. */
    method HandleTimeouts() returns (ghost events: seq<Event>, ghost at: real)
      requires Valid()
      modifies this`history, health, pool, clock
      ensures Valid() && old(clock.now) <= clock.now
      ensures history == old(history) + events && old(clock.now) <= at <= clock.now
      ensures KillsBooked(events, old(pool.active), config.agentTimeout, at)
      ensures pool.active == old(pool.active) - RolesOf(events) && NotedBetween(events, at, clock.now)
      ensures queue.Contents() == old(queue.Contents())
    {
      hide TablesAfter, Lawful, KillsBooked, RolesOf, NotedBetween;
      var killed := pool.KillTimedOut(config.agentTimeout);
      ghost var was := old(pool.active);
      assert was - SetOf(killed[..0]) == was;
      events, at := [], clock.now;
      NothingBooked(was, map[], config.agentTimeout, at, clock.now);
      for i := 0 to |killed|
        invariant pool.active == was - SetOf(killed) && pool.clock == clock
        invariant HealthAgrees(was - SetOf(killed[..i])) && WaitingRolesAreFit()
        invariant old(clock.now) <= clock.now
        invariant at <= clock.now && RolesOf(events) == SetOf(killed[..i])
        invariant history == old(history) + events
        invariant SomeKillsBooked(events, was, config.agentTimeout, at) && NotedBetween(events, at, clock.now)
      {
        var role := killed[i];
        ghost var earlier := clock.now;
        ghost var running := was - SetOf(killed[..i]);
        assert killed[..i + 1] == killed[..i] + [role];
        assert running - {role} == was - SetOf(killed[..i + 1]);
        BookFailure(role, running, true);
        assert role !in SetOf(killed[..i]);
        OneMoreKill(events, was, config.agentTimeout, at, history[|history| - 1], earlier, clock.now);
        events := events + [history[|history| - 1]];
      }
      assert killed[..|killed|] == killed;
      AllKillsBooked(events, was, config.agentTimeout, at);
    }

    /** The hysteresis latch that pauses spawning. */
    method CheckMemoryPressure(pct: int) returns (paused: bool)
      requires Valid()
      modifies this`memoryPaused, this`readings
      ensures Valid() && paused == memoryPaused && readings == old(readings) + [pct]
    {
      hide HealthAgrees, WaitingRolesAreFit, PriorityQueue.Valid, PriorityQueue.NoStaleEntries;
      if pct >= config.memoryThreshold {
        memoryPaused := true;
      } else if memoryPaused && pct < config.memoryResume {
        memoryPaused := false;
      }
      readings := readings + [pct];
      assert readings[..|readings| - 1] == old(readings);
      paused := memoryPaused;
    }

    /** Roles with work; `todo` holds the roles whose poll succeeded and found some, with the time of the poll. */
    method PollPendingTasks(todo: map<string, real>) returns (pending: map<string, real>)
      ensures pending == map r | r in todo && r in agentMap :: todo[r]
    {
      pending := map[];
      var left := agentMap.Keys;
      while left != {}
        invariant left <= agentMap.Keys
        invariant pending == map r | r in todo && r in agentMap && r !in left :: todo[r]
        decreases left
      {
        var role :| role in left;
        left := left - {role};
        if role in todo {
          pending := pending[role := todo[role]];
        }
      }
    }

    /** Queues one pending role unless it is running, queued already or in backoff. */
    method Enqueue(role: string, createdAt: real)
      requires Valid()
      modifies queue, clock
      ensures Valid() && old(clock.now) <= clock.now
      ensures queue.Contents() == old(queue.Contents()) || (role in agentMap && !HasRole(old(queue.Contents()), role) &&
        queue.Contents() == old(queue.Contents()) + {Entry(PriorityForRole(role), createdAt, role, agentMap[role])})
      ensures role in agentMap && Fit(config, TablesAfter(history), role, old(clock.now)) ==>
        HasRole(queue.Contents(), role)
    {
      hide TablesAfter, Lawful;
      if role !in agentMap || role in pool.active || role in queue.queuedRoles {
        return;
      }
      var ready := health.IsReady(role);
      if ready {
        queue.Push(role, agentMap[role], createdAt);
        assert Entry(PriorityForRole(role), createdAt, role, agentMap[role]) in queue.Contents();
      }
    }

    /** Queues the pending roles that are not running, not queued and not in backoff. */
    method EnqueuePending(pending: map<string, real>)
      requires Valid()
      modifies queue, clock
      ensures Valid() && old(clock.now) <= clock.now
      ensures QueuedFrom(queue.Contents(), old(queue.Contents()), pending, agentMap)
      ensures FitRolesWait(config, TablesAfter(history), old(clock.now), pending.Keys, agentMap, queue.Contents())
    {
      hide Fit, TablesAfter, Valid, QueuedFrom, HasRole, FitRolesWait;
      var left := pending.Keys;
      NothingQueued(queue.Contents(), pending, agentMap, config, TablesAfter(history), clock.now);
      while left != {}
        invariant left <= pending.Keys && Valid() && old(clock.now) <= clock.now
        invariant QueuedFrom(queue.Contents(), old(queue.Contents()), pending, agentMap)
        invariant FitRolesWait(config, TablesAfter(history), old(clock.now), pending.Keys - left, agentMap,
          queue.Contents())
        decreases left
      {
        var role :| role in left;
        ghost var before, called, seen := queue.Contents(), clock.now, pending.Keys - left;
        left := left - {role};
        Enqueue(role, pending[role]);
        OneMoreQueued(queue.Contents(), before, old(queue.Contents()), pending, agentMap, role);
        OneMoreFitRole(config, TablesAfter(history), old(clock.now), called, seen, agentMap, before, queue.Contents(),
          role);
        assert pending.Keys - left == seen + {role};
      }
      assert pending.Keys - left == pending.Keys;
    }

    /** Starts a process for an entry just popped, unless starting it raises an error. */
    method SpawnPopped(entry: Entry, fails: bool) returns (spawned: bool, ghost e: Event)
      requires Consistent() && entry.role !in queue.queuedRoles && entry.role !in pool.active
      requires |pool.active| < maxSlots
        && Ready(health.config, health.consecutiveFailures, health.lastFailureTime, entry.role, clock.now)
      modifies this`history, pool, clock
      ensures Consistent() && old(clock.now) <= clock.now
      ensures history == old(history) + [e] && IsSpawn(e) && e.entry == entry && (e.SpawnFailed? <==> fails)
      ensures spawned == !fails && |pool.active| == old(|pool.active|) + if spawned then 1 else 0
      ensures e.Spawned? ==> old(clock.now) <= e.at <= clock.now
      ensures pool.active == if e.Spawned? then old(pool.active)[entry.role := Process(e)] else old(pool.active)
    {
      hide TablesAfter, Lawful;
      var process := pool.Spawn(entry.role, entry.agentId, fails);
      spawned := process.Some?;
      e := if process.None? then SpawnFailed(entry) else Spawned(entry, process.value.pid, clock.now);
      Append(config, maxSlots, history, e);
      history := history + [e];
    }

    /** Pops and spawns, best entry first, until the slots are full or the queue is empty. */
    method SpawnFromQueue(spawnErrors: set<string>) returns (ghost events: seq<Event>)
      requires Valid()
      modifies this`history, queue, pool, clock
      ensures Valid() && old(clock.now) <= clock.now
      ensures queue.Contents() == {} || |pool.active| >= maxSlots
      ensures history == old(history) + events
      ensures Drained(old(queue.Contents()), events, queue.Contents(), spawnErrors)
      ensures StartedFrom(events, old(pool.active), pool.active, old(clock.now), clock.now)
    {
      hide StartedFrom, ServedBefore, Older, PriorityQueue.Valid, PriorityQueue.NoStaleEntries, HealthAgrees, IsSpawn,
        Before, Ready, Latched, Drained;
      var available := maxSlots - |pool.active|;
      events := [];
      NothingQueuedOrDrained(queue.Contents(), map[], agentMap, spawnErrors);
      NothingStarted(pool.active, clock.now, clock.now);
      while available > 0 && |queue.queuedRoles| > 0
        invariant Valid() && old(clock.now) <= clock.now && available == maxSlots - |pool.active|
        invariant history == old(history) + events
        invariant Drained(old(queue.Contents()), events, queue.Contents(), spawnErrors)
        invariant StartedFrom(events, old(pool.active), pool.active, old(clock.now), clock.now)
        decreases |queue.queuedRoles|
      {
        ghost var waiting := queue.Contents();
        var result := queue.Pop();
        if result.None? {
          break;
        }
        var entry := result.value;
        ghost var running, earlier := pool.active, clock.now;
        var spawned, e := SpawnPopped(entry, entry.role in spawnErrors);
        if spawned {
          available := available - 1;
        }
        DrainOne(old(queue.Contents()), events, waiting, spawnErrors, e);
        OneMoreStarted(events, old(pool.active), running, pool.active, old(clock.now), earlier, clock.now, e);
        assert old(history) + events + [e] == old(history) + (events + [e]);
        events := events + [e];
      }
    }

    /** One scheduler cycle, from whatever the world answers; `CycleDid` says what it does with the answers. */
    method Tick(input: TickInput) returns (ghost c: Cycle)
      requires Valid()
      modifies this`history, this`memoryPaused, this`readings, queue, health, pool, clock
      ensures Valid() && CycleDid(config, agentMap, maxSlots, input, old(Now()), Now(), c)
    {
      hide Valid, PriorityQueue.Contents, CycleDid, ExitsBooked, KillsBooked, EndsBooked, RolesOf, NotedBetween,
        StartedFrom,
        QueuedFrom, Drained, FitRolesWait, TablesAfter, Latched;
      ghost var before := Now();
      ghost var exited := HandleFinished(input.exits);
      ghost var reaped := clock.now;
      ghost var killed, killedAt := HandleTimeouts();
      ghost var running, start := pool.active, clock.now;
      EndsTogether(exited, killed, before.running, input.exits, config.agentTimeout, killedAt, before.now, reaped,
        start);
      c := Cycle(exited + killed, killedAt, queue.Contents(), start, []);
      var paused := CheckMemoryPressure(input.memoryPct);
      LatchIsPaused();
      NothingQueuedOrDrained(queue.Contents(), input.todo, agentMap, input.spawnErrors);
      NothingStarted(running, start, start);
      assert history == before.history + c.ends;
      if paused {
        CycleHeld(config, agentMap, maxSlots, input, before, Now(), c);
        return;
      }
      var pending := PollPendingTasks(input.todo);
      EnqueuePending(pending);
      c := c.(waiting := queue.Contents());
      PendingIsTodo(c.waiting, before.queued, pending, input.todo, agentMap);
      TodoIsPending(config, TablesAfter(history), start, pending.Keys, input.todo.Keys, agentMap, c.waiting);
      ghost var spawnsAt := clock.now;
      ghost var spawns := SpawnFromQueue(input.spawnErrors);
      c := c.(spawns := spawns);
      CycleRan(config, agentMap, maxSlots, input, before, Now(), c, spawnsAt);
    }

    lemma LatchIsPaused()
      requires Valid()
      ensures memoryPaused == Latched(config, readings)
    {
    }

    /** The scheduler loop, one cycle for each input, then the shutdown. */
    method Run(inputs: seq<TickInput>) returns (ghost moments: seq<Moment>, ghost cycles: seq<Cycle>)
      requires Valid()
      modifies this`history, this`memoryPaused, this`readings, queue, health, pool, clock
      ensures Valid() && pool.active == map[]
      ensures |moments| == |inputs| + 1 && |cycles| == |inputs| && moments[0] == old(Now())
      ensures forall i :: 0 <= i < |inputs| ==>
        CycleDid(config, agentMap, maxSlots, inputs[i], moments[i], moments[i + 1], cycles[i])
      ensures var last := moments[|inputs|];
        && last.history <= history && AllTerminated(history[|last.history|..], last.running)
        && queue.Contents() == last.queued && readings == last.readings
    {
      hide Valid, PriorityQueue.Contents, CycleDid, AllTerminated;
      moments, cycles := [Now()], [];
      for i := 0 to |inputs|
        invariant Valid() && |moments| == i + 1 && |cycles| == i
        invariant moments[0] == old(Now()) && moments[i] == Now()
        invariant forall j :: 0 <= j < i ==>
          CycleDid(config, agentMap, maxSlots, inputs[j], moments[j], moments[j + 1], cycles[j])
      {
        ghost var c := Tick(inputs[i]);
        moments, cycles := moments + [Now()], cycles + [c];
      }
      Stop();
    }

    /** Shutdown ends every active process; health and queue keep what they know. */
    method Stop()
      requires Valid()
      modifies this`history, pool`active
      ensures Valid() && pool.active == map[] && old(history) <= history
      ensures AllTerminated(history[|old(history)|..], old(pool.active))
    {
      hide TablesAfter, Lawful, TerminatedUpTo, WaitingRolesAreFit, Latched, PriorityQueue.Valid,
        PriorityQueue.NoStaleEntries;
      ghost var left := pool.active;
      pool.TerminateAll();
      NothingTerminated(left);
      assert history[|history|..] == [];
      while left != map[]
        invariant HealthAgrees(left) && old(history) <= history && pool.active == map[]
        invariant TerminatedUpTo(history[|old(history)|..], old(pool.active), left)
        decreases |left|
      {
        ghost var role :| role in left;
        ghost var before := history;
        Append(config, maxSlots, history, Terminated(role, left[role].pid));
        history := history + [Terminated(role, left[role].pid)];
        assert history[|old(history)|..] == before[|old(history)|..] + [Terminated(role, left[role].pid)];
        OneMoreTerminated(before[|old(history)|..], old(pool.active), left, role);
        left := left - {role};
      }
    }
  }

  /** What the world answers during one cycle. */
  datatype TickInput = TickInput(
    exits: map<nat, int>,       // exit codes of the processes that have exited
    memoryPct: int,             // memory in use
    todo: map<string, real>,    // roles found to have tasks, with the time of the poll
    spawnErrors: set<string>)   // roles whose process cannot be started

  /** The scheduler at the beginning or the end of a cycle. */
  datatype Moment = Moment(
    running: map<string, ActiveProcess>,
    queued: set<Entry>,
    history: seq<Event>,
    readings: seq<int>,
    now: real)

  /**
   * What a cycle did: the processes it saw end, and when it looked for overdue ones; the entries
   * waiting when it began to spawn, and when it had begun to queue; the spawns, failed ones included.
   */
  datatype Cycle = Cycle(ends: seq<Event>, killedAt: real, waiting: set<Entry>, start: real, spawns: seq<Event>)

  /**
   * Every process that exited or is overdue leaves the table and is booked once, as its exit code says;
   * the others stay. Unless spawning is paused, every role with work that is neither running nor in
   * backoff waits; what is spawned is served before what is left; and the queue ends empty or the
   * slots full. A paused cycle queues and spawns nothing.
   */
  ghost predicate CycleDid(config: SchedulerConfig, agentMap: map<string, string>, maxSlots: int, input: TickInput,
      before: Moment, after: Moment, c: Cycle)
  {
    && before.now <= c.killedAt <= c.start <= after.now
    && after.readings == before.readings + [input.memoryPct]
    && after.history == before.history + c.ends + c.spawns
    && EndsBooked(c.ends, before.running, input.exits, config.agentTimeout, c.killedAt)
    && NotedBetween(c.ends, before.now, c.start)
    && StartedFrom(c.spawns, before.running - RolesOf(c.ends), after.running, c.start, after.now)
    && QueuedFrom(c.waiting, before.queued, input.todo, agentMap)
    && Drained(c.waiting, c.spawns, after.queued, input.spawnErrors)
    && if Latched(config, after.readings) then
         c.waiting == before.queued == after.queued && c.spawns == []
       else
         && FitRolesWait(config, TablesAfter(before.history + c.ends), c.start, input.todo.Keys, agentMap, c.waiting)
         && (after.queued == {} || |after.running| >= maxSlots)
  }

  lemma CycleHeld(config: SchedulerConfig, agentMap: map<string, string>, maxSlots: int, input: TickInput,
      before: Moment, after: Moment, c: Cycle)
    requires before.now <= c.killedAt <= c.start <= after.now
    requires after.readings == before.readings + [input.memoryPct] && Latched(config, after.readings)
    requires after.history == before.history + c.ends && c.spawns == []
    requires EndsBooked(c.ends, before.running, input.exits, config.agentTimeout, c.killedAt)
    requires NotedBetween(c.ends, before.now, c.start)
    requires StartedFrom([], before.running - RolesOf(c.ends), after.running, c.start, c.start)
    requires c.waiting == before.queued == after.queued
    ensures CycleDid(config, agentMap, maxSlots, input, before, after, c)
  {
    hide EndsBooked, NotedBetween, FitRolesWait, Latched;
    NothingQueuedOrDrained(c.waiting, input.todo, agentMap, input.spawnErrors);
    assert after.history == before.history + c.ends + [];
  }

  lemma CycleRan(config: SchedulerConfig, agentMap: map<string, string>, maxSlots: int, input: TickInput,
      before: Moment, after: Moment, c: Cycle, spawnsAt: real)
    requires before.now <= c.killedAt <= c.start <= after.now
    requires after.readings == before.readings + [input.memoryPct] && !Latched(config, after.readings)
    requires after.history == before.history + c.ends + c.spawns
    requires EndsBooked(c.ends, before.running, input.exits, config.agentTimeout, c.killedAt)
    requires NotedBetween(c.ends, before.now, c.start)
    requires c.start <= spawnsAt
    requires StartedFrom(c.spawns, before.running - RolesOf(c.ends), after.running, spawnsAt, after.now)
    requires QueuedFrom(c.waiting, before.queued, input.todo, agentMap)
    requires Drained(c.waiting, c.spawns, after.queued, input.spawnErrors)
    requires FitRolesWait(config, TablesAfter(before.history + c.ends), c.start, input.todo.Keys, agentMap, c.waiting)
    requires after.queued == {} || |after.running| >= maxSlots
    ensures CycleDid(config, agentMap, maxSlots, input, before, after, c)
  {
    hide EndsBooked, NotedBetween, FitRolesWait, Latched, QueuedFrom, Drained;
  }

  /** The roles whose processes ended. */
  function RolesOf(ends: seq<Event>): set<string> {
    set e | e in ends && e.IsEnd() :: e.role
  }

  /** No role ends twice. */
  ghost predicate OncePerRole(ends: seq<Event>) {
    forall i, j :: 0 <= i < j < |ends| ==> ends[i].IsEnd() && ends[j].IsEnd() && ends[i].role != ends[j].role
  }

  /** The process of the event is one of `was`. */
  ghost predicate EndOf(e: Event, was: map<string, ActiveProcess>) {
    e.IsEnd() && e.role in was && e.pid == was[e.role].pid
  }

  /** The process exited, with code 0 if it succeeded and another one if it failed. */
  ghost predicate IsExit(e: Event, was: map<string, ActiveProcess>, exits: map<nat, int>) {
    EndOf(e, was) && e.pid in exits && if exits[e.pid] == 0 then e.Succeeded? else e.Failed?
  }

  /** At time `at` the process had run longer than the timeout. */
  ghost predicate IsKill(e: Event, was: map<string, ActiveProcess>, timeout: int, at: real) {
    EndOf(e, was) && e.TimedOut? && at - was[e.role].startedAt > timeout as real
  }

  ghost predicate SomeExitsBooked(ends: seq<Event>, was: map<string, ActiveProcess>, exits: map<nat, int>) {
    OncePerRole(ends) && forall e :: e in ends ==> IsExit(e, was, exits)
  }

  ghost predicate ExitsBooked(ends: seq<Event>, was: map<string, ActiveProcess>, exits: map<nat, int>) {
    && SomeExitsBooked(ends, was, exits)
    && forall r :: r in was && was[r].pid in exits ==> r in RolesOf(ends)
  }

  ghost predicate SomeKillsBooked(ends: seq<Event>, was: map<string, ActiveProcess>, timeout: int, at: real) {
    OncePerRole(ends) && forall e :: e in ends ==> IsKill(e, was, timeout, at)
  }

  ghost predicate KillsBooked(ends: seq<Event>, was: map<string, ActiveProcess>, timeout: int, at: real) {
    && SomeKillsBooked(ends, was, timeout, at)
    && forall r :: r in was && at - was[r].startedAt > timeout as real ==> r in RolesOf(ends)
  }

  /** Each process that exited, and each other one overdue, ended once and as it should, and no other ended. */
  ghost predicate EndsBooked(ends: seq<Event>, was: map<string, ActiveProcess>, exits: map<nat, int>, timeout: int,
      at: real)
  {
    && OncePerRole(ends)
    && (forall e :: e in ends ==> IsExit(e, was, exits) || (IsKill(e, was, timeout, at) && e.pid !in exits))
    && forall r :: r in was ==>
      (r in RolesOf(ends) <==> was[r].pid in exits || at - was[r].startedAt > timeout as real)
  }

  ghost predicate NotedBetween(ends: seq<Event>, from: real, to: real) {
    forall e :: e in ends && (e.Failed? || e.TimedOut?) ==> from <= e.at <= to
  }

  lemma NothingBooked(was: map<string, ActiveProcess>, exits: map<nat, int>, timeout: int, at: real, to: real)
    ensures SomeExitsBooked([], was, exits) && SomeKillsBooked([], was, timeout, at)
    ensures RolesOf([]) == {} && NotedBetween([], at, to)
  {
  }

  lemma OneMoreRole(ends: seq<Event>, e: Event)
    requires OncePerRole(ends) && e.IsEnd() && e.role !in RolesOf(ends) && forall x :: x in ends ==> x.IsEnd()
    ensures OncePerRole(ends + [e]) && RolesOf(ends + [e]) == RolesOf(ends) + {e.role}
  {
    assert forall i :: 0 <= i < |ends| ==> ends[i] in ends && ends[i].role in RolesOf(ends);
    assert forall x :: x in ends + [e] <==> x in ends || x == e;
  }

  lemma OneMoreExit(ends: seq<Event>, was: map<string, ActiveProcess>, exits: map<nat, int>, e: Event,
      from: real, earlier: real, to: real)
    requires SomeExitsBooked(ends, was, exits) && IsExit(e, was, exits) && e.role !in RolesOf(ends)
    requires NotedBetween(ends, from, earlier) && from <= earlier <= to && (e.Failed? ==> earlier <= e.at <= to)
    ensures SomeExitsBooked(ends + [e], was, exits) && RolesOf(ends + [e]) == RolesOf(ends) + {e.role}
    ensures NotedBetween(ends + [e], from, to)
  {
    OneMoreRole(ends, e);
  }

  lemma OneMoreKill(ends: seq<Event>, was: map<string, ActiveProcess>, timeout: int, at: real, e: Event,
      earlier: real, to: real)
    requires SomeKillsBooked(ends, was, timeout, at) && IsKill(e, was, timeout, at) && e.role !in RolesOf(ends)
    requires NotedBetween(ends, at, earlier) && at <= earlier <= to && earlier <= e.at <= to
    ensures SomeKillsBooked(ends + [e], was, timeout, at) && RolesOf(ends + [e]) == RolesOf(ends) + {e.role}
    ensures NotedBetween(ends + [e], at, to)
  {
    OneMoreRole(ends, e);
  }

  lemma AllExitsBooked(ends: seq<Event>, was: map<string, ActiveProcess>, exits: map<nat, int>)
    requires SomeExitsBooked(ends, was, exits) && forall r :: r in was && was[r].pid in exits ==> r in RolesOf(ends)
    ensures ExitsBooked(ends, was, exits)
  {
  }

  lemma AllKillsBooked(ends: seq<Event>, was: map<string, ActiveProcess>, timeout: int, at: real)
    requires SomeKillsBooked(ends, was, timeout, at)
    requires forall r :: r in was && at - was[r].startedAt > timeout as real ==> r in RolesOf(ends)
    ensures KillsBooked(ends, was, timeout, at)
  {
  }

  /** First the exits, then the kills among those that are left. */
  lemma EndsTogether(exited: seq<Event>, killed: seq<Event>, was: map<string, ActiveProcess>, exits: map<nat, int>,
      timeout: int, at: real, from: real, reaped: real, to: real)
    requires ExitsBooked(exited, was, exits) && KillsBooked(killed, was - RolesOf(exited), timeout, at)
    requires NotedBetween(exited, from, reaped) && NotedBetween(killed, at, to) && from <= reaped <= at <= to
    ensures EndsBooked(exited + killed, was, exits, timeout, at)
    ensures was - RolesOf(exited) - RolesOf(killed) == was - RolesOf(exited + killed)
    ensures NotedBetween(exited + killed, from, to)
  {
    var left, ends := was - RolesOf(exited), exited + killed;
    assert forall e :: e in ends <==> e in exited || e in killed;
    assert RolesOf(ends) == RolesOf(exited) + RolesOf(killed);
    forall e | e in killed
      ensures e.role !in RolesOf(exited) && e.pid !in exits && IsKill(e, was, timeout, at)
    {
      assert e.role in left;
    }
    forall i, j | 0 <= i < j < |ends|
      ensures ends[i].IsEnd() && ends[j].IsEnd() && ends[i].role != ends[j].role
    {
      assert i < |exited| ==> exited[i] in exited && exited[i].role in RolesOf(exited);
      assert j >= |exited| ==> killed[j - |exited|] in killed;
    }
  }

  /** The table entry of a process just started. */
  function Process(e: Event): ActiveProcess
    requires e.Spawned?
  {
    ActiveProcess(e.entry.role, e.entry.agentId, e.pid, e.at)
  }

  /** `after` is `before` with the processes started, none of a role that was running. */
  ghost predicate StartedFrom(spawns: seq<Event>, before: map<string, ActiveProcess>, after: map<string, ActiveProcess>,
      from: real, to: real)
  {
    && (forall r :: r in before ==> r in after && after[r] == before[r])
    && (forall e :: e in spawns && e.Spawned? ==>
      e.entry.role !in before && e.entry.role in after && after[e.entry.role] == Process(e) && from <= e.at <= to)
    && forall r :: r in after ==> r in before || exists e :: e in spawns && e.Spawned? && e.entry.role == r
  }

  lemma NothingStarted(running: map<string, ActiveProcess>, from: real, to: real)
    ensures StartedFrom([], running, running, from, to)
  {
  }

  lemma OneMoreStarted(spawns: seq<Event>, before: map<string, ActiveProcess>, between: map<string, ActiveProcess>,
      after: map<string, ActiveProcess>, from: real, earlier: real, to: real, e: Event)
    requires StartedFrom(spawns, before, between, from, earlier) && from <= earlier <= to && IsSpawn(e)
    requires e.entry.role !in between && (e.Spawned? ==> earlier <= e.at <= to)
    requires after == if e.Spawned? then between[e.entry.role := Process(e)] else between
    ensures StartedFrom(spawns + [e], before, after, from, to)
  {
    forall r | r in after && r !in before
      ensures exists x :: x in spawns + [e] && x.Spawned? && x.entry.role == r
    {
      if r in between {
        var x :| x in spawns && x.Spawned? && x.entry.role == r;
        assert x in spawns + [e];
      } else {
        assert e in spawns + [e];
      }
    }
  }

  /** Every process still in the table is stopped, once, and nothing else happens. */
  ghost predicate AllTerminated(stops: seq<Event>, was: map<string, ActiveProcess>) {
    TerminatedUpTo(stops, was, map[])
  }

  ghost predicate TerminatedUpTo(stops: seq<Event>, was: map<string, ActiveProcess>, left: map<string, ActiveProcess>) {
    && OncePerRole(stops) && (forall e :: e in stops ==> EndOf(e, was) && e.Terminated?)
    && (forall r :: r in was <==> r in left || r in RolesOf(stops))
    && (forall r :: r in left ==> left[r] == was[r] && r !in RolesOf(stops))
  }

  lemma NothingTerminated(was: map<string, ActiveProcess>)
    ensures TerminatedUpTo([], was, was)
  {
  }

  lemma OneMoreTerminated(stops: seq<Event>, was: map<string, ActiveProcess>, left: map<string, ActiveProcess>,
      role: string)
    requires TerminatedUpTo(stops, was, left) && role in left
    ensures TerminatedUpTo(stops + [Terminated(role, left[role].pid)], was, left - {role})
  {
    OneMoreRole(stops, Terminated(role, left[role].pid));
  }

  predicate IsSpawn(e: Event) {
    e.Spawned? || e.SpawnFailed?
  }

  /** `events` took the entries `waiting - left` out of the queue in order, all before every entry left. */
  ghost predicate Drained(waiting: set<Entry>, events: seq<Event>, left: set<Entry>, spawnErrors: set<string>) {
    && left <= waiting
    && (forall e :: e in events ==> IsSpawn(e) && (e.SpawnFailed? <==> e.entry.role in spawnErrors))
    && (forall e :: e in events ==> e.entry in waiting && e.entry !in left)
    && (forall e, x :: e in events && x in left ==> ServedBefore(e.entry, x))
    && (forall i, j :: 0 <= i < j < |events| ==> ServedBefore(events[i].entry, events[j].entry))
    && forall x :: x in waiting && x !in left ==> exists e :: e in events && e.entry == x
  }

  lemma DrainOne(waiting: set<Entry>, events: seq<Event>, left: set<Entry>, spawnErrors: set<string>, e: Event)
    requires Drained(waiting, events, left, spawnErrors)
    requires IsSpawn(e) && (e.SpawnFailed? <==> e.entry.role in spawnErrors) && e.entry in left
    requires forall x :: x in left && x != e.entry ==> ServedBefore(e.entry, x)
    ensures Drained(waiting, events + [e], left - {e.entry}, spawnErrors)
  {
    assert e in events + [e];
    forall x | x in waiting && x !in left ensures exists f :: f in events + [e] && f.entry == x {
      var f :| f in events && f.entry == x;
      assert f in events + [e];
    }
  }

  /** The entries queued since `before` are for pending roles that were not queued, with their poll time. */
  ghost predicate QueuedFrom(now: set<Entry>, before: set<Entry>, pending: map<string, real>,
      agentMap: map<string, string>)
  {
    && before <= now
    && forall e :: e in now && e !in before ==>
      && e.role in pending && e.role in agentMap && (forall x :: x in before ==> x.role != e.role)
      && e == Entry(PriorityForRole(e.role), pending[e.role], e.role, agentMap[e.role])
  }

  function SetOf(s: seq<string>): set<string> {
    set r | r in s
  }

  ghost predicate HasRole(entries: set<Entry>, role: string) {
    exists e :: e in entries && e.role == role
  }

  /** By the tables `role` is neither running nor in backoff. */
  predicate Fit(config: SchedulerConfig, t: Tables, role: string, now: real) {
    role !in t.running && Ready(config, t.failures, t.lastFailure, role, now)
  }

  /** All known roles among `roles` that are fit have an entry. */
  ghost predicate FitRolesWait(config: SchedulerConfig, t: Tables, now: real, roles: set<string>,
      agentMap: map<string, string>, entries: set<Entry>)
  {
    forall r :: r in roles && r in agentMap && Fit(config, t, r, now) ==> HasRole(entries, r)
  }

  lemma NothingQueued(entries: set<Entry>, pending: map<string, real>, agentMap: map<string, string>,
      config: SchedulerConfig, t: Tables, now: real)
    ensures QueuedFrom(entries, entries, pending, agentMap)
    ensures FitRolesWait(config, t, now, pending.Keys - pending.Keys, agentMap, entries)
  {
  }

  lemma OneMoreQueued(now: set<Entry>, between: set<Entry>, before: set<Entry>, pending: map<string, real>,
      agentMap: map<string, string>, role: string)
    requires QueuedFrom(between, before, pending, agentMap) && role in pending
    requires now == between || (role in agentMap && !HasRole(between, role) &&
      now == between + {Entry(PriorityForRole(role), pending[role], role, agentMap[role])})
    ensures QueuedFrom(now, before, pending, agentMap)
  {
  }

  /** Who is fit stays fit as the clock advances. */
  lemma OneMoreFitRole(config: SchedulerConfig, t: Tables, now: real, later: real, roles: set<string>,
      agentMap: map<string, string>, before: set<Entry>, entries: set<Entry>, role: string)
    requires FitRolesWait(config, t, now, roles, agentMap, before) && before <= entries && now <= later
    requires role in agentMap && Fit(config, t, role, later) ==> HasRole(entries, role)
    ensures FitRolesWait(config, t, now, roles + {role}, agentMap, entries)
  {
    forall r | r in roles && HasRole(before, r)
      ensures HasRole(entries, r)
    {
      var e :| e in before && e.role == r;
      assert e in entries;
    }
  }

  lemma NothingQueuedOrDrained(waiting: set<Entry>, pending: map<string, real>, agentMap: map<string, string>,
      spawnErrors: set<string>)
    ensures QueuedFrom(waiting, waiting, pending, agentMap) && Drained(waiting, [], waiting, spawnErrors)
  {
  }

  lemma PendingIsTodo(now: set<Entry>, before: set<Entry>, pending: map<string, real>, todo: map<string, real>,
      agentMap: map<string, string>)
    requires QueuedFrom(now, before, pending, agentMap)
    requires forall r :: r in pending ==> r in todo && pending[r] == todo[r]
    ensures QueuedFrom(now, before, todo, agentMap)
  {
  }

  lemma TodoIsPending(config: SchedulerConfig, t: Tables, now: real, pending: set<string>, todo: set<string>,
      agentMap: map<string, string>, entries: set<Entry>)
    requires FitRolesWait(config, t, now, pending, agentMap, entries)
    requires forall r :: r in todo && r in agentMap ==> r in pending
    ensures FitRolesWait(config, t, now, todo, agentMap, entries)
  {
  }

  lemma FirstsGrow(s: seq<(string, int)>, i: nat)
    requires i < |s| && Distinct(s, (f: (string, int)) => f.0)
    ensures Firsts(s[..i + 1]) == Firsts(s[..i]) + {s[i].0}
    ensures s[i].0 in Firsts(s) && s[i].0 !in Firsts(s[..i])
  {
    assert s[..i + 1] == s[..i] + [s[i]];
  }

  predicate Distinct<T>(s: seq<T>, key: T -> string) {
    forall i, j :: 0 <= i < j < |s| ==> key(s[i]) != key(s[j])
  }

  function Firsts(s: seq<(string, int)>): set<string> {
    set f | f in s :: f.0
  }
}

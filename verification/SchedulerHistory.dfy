/**
 * What a run of the scheduler of agents/scheduler.py did, as a sequence of events, and the laws
 * every run must keep. The scheduler's own tables are proved equal to folds over this history.
 */
module SchedulerHistory {
  import opened Entries

  datatype SchedulerConfig = SchedulerConfig(
    crashThreshold: int,
    backoffBaseMinutes: int,
    backoffMaxMinutes: int,
    agentTimeout: int,
    memoryThreshold: int,
    memoryResume: int)

  datatype ActiveProcess = ActiveProcess(role: string, agentId: string, pid: nat, startedAt: real)

  datatype Event =
    | Spawned(entry: Entry, pid: nat, at: real)
    | SpawnFailed(entry: Entry)
    | Succeeded(role: string, pid: nat)
    | Failed(role: string, pid: nat, at: real)    // non-zero exit code, noted at time `at`
    | TimedOut(role: string, pid: nat, at: real)  // killed, noted at time `at`
    | Terminated(role: string, pid: nat)          // shutdown
  {
    predicate IsFailureOf(r: string) {
      (Failed? || TimedOut?) && role == r
    }

    predicate IsSuccessOf(r: string) {
      Succeeded? && role == r
    }

    predicate IsEnd() {
      Succeeded? || Failed? || TimedOut? || Terminated?
    }
  }

  /** The scheduler's tables: processes by role, failures in a row, time of the last one, processes started. */
  datatype Tables = Tables(
    running: map<string, ActiveProcess>,
    failures: map<string, nat>,
    lastFailure: map<string, real>,
    spawned: nat)

  function TablesAfter(h: seq<Event>): Tables {
    if h == [] then Tables(map[], map[], map[], 0) else Step(TablesAfter(h[..|h| - 1]), h[|h| - 1])
  }

  function Step(t: Tables, e: Event): Tables {
    match e
    case Spawned(entry, pid, at) =>
      t.(running := t.running[entry.role := ActiveProcess(entry.role, entry.agentId, pid, at)],
         spawned := t.spawned + 1)
    case SpawnFailed(_) => t
    case Succeeded(role, _) => Ended(t, role).(failures := t.failures - {role}, lastFailure := t.lastFailure - {role})
    case Failed(role, _, at) => Missed(Ended(t, role), role, at)
    case TimedOut(role, _, at) => Missed(Ended(t, role), role, at)
    case Terminated(role, _) => Ended(t, role)
  }

  function Ended(t: Tables, role: string): Tables {
    t.(running := t.running - {role})
  }

  function Missed(t: Tables, role: string, at: real): Tables {
    t.(failures := t.failures[role := Count(t.failures, role) + 1], lastFailure := t.lastFailure[role := at])
  }

  function Count(failures: map<string, nat>, role: string): nat {
    if role in failures then failures[role] else 0
  }

  /** Failed or timed-out processes of `r` since its last success. */
  function Failures(h: seq<Event>, r: string): nat {
    if h == [] then 0
    else if h[|h| - 1].IsSuccessOf(r) then 0
    else Failures(h[..|h| - 1], r) + if h[|h| - 1].IsFailureOf(r) then 1 else 0
  }

  function Pow3(n: nat): nat {
    if n == 0 then 1 else 3 * Pow3(n - 1)
  }

  /** Pause after `failures` consecutive failures, in seconds. */
  function BackoffSeconds(config: SchedulerConfig, failures: nat): real {
    if failures < config.crashThreshold then 0.0
    else
      var wanted := config.backoffBaseMinutes * Pow3(failures - config.crashThreshold);
      var minutes := if wanted <= config.backoffMaxMinutes then wanted else config.backoffMaxMinutes;
      minutes as real * 60.0
  }

  /** Whether a process of `r` may start at time `now`, as far as its failures are concerned. */
  predicate Ready(config: SchedulerConfig, failures: map<string, nat>, lastFailure: map<string, real>, r: string,
      now: real)
  {
    || Count(failures, r) < config.crashThreshold
    || r !in lastFailure
    || now - lastFailure[r] >= BackoffSeconds(config, Count(failures, r))
  }

  /** The law an event must keep, given the tables before it. */
  predicate Allowed(config: SchedulerConfig, slots: int, t: Tables, e: Event) {
    match e
    case Spawned(entry, pid, at) =>
      entry.role !in t.running && |t.running| < slots && pid == t.spawned
        && Ready(config, t.failures, t.lastFailure, entry.role, at)
    case SpawnFailed(entry) => entry.role !in t.running
    case Succeeded(role, pid) => role in t.running && t.running[role].pid == pid
    case Failed(role, pid, _) => role in t.running && t.running[role].pid == pid
    case TimedOut(role, pid, _) => role in t.running && t.running[role].pid == pid
    case Terminated(role, pid) => role in t.running && t.running[role].pid == pid
  }

  predicate Lawful(config: SchedulerConfig, slots: int, h: seq<Event>) {
    h == [] ||
    (Lawful(config, slots, h[..|h| - 1]) && Allowed(config, slots, TablesAfter(h[..|h| - 1]), h[|h| - 1]))
  }

  lemma Append(config: SchedulerConfig, slots: int, h: seq<Event>, e: Event)
    ensures TablesAfter(h + [e]) == Step(TablesAfter(h), e)
    ensures Lawful(config, slots, h + [e]) == (Lawful(config, slots, h) && Allowed(config, slots, TablesAfter(h), e))
  {
    assert (h + [e])[..|h|] == h;
  }

  lemma {:induction false} PrefixIsLawful(config: SchedulerConfig, slots: int, h: seq<Event>, i: nat)
    requires Lawful(config, slots, h) && i <= |h|
    ensures Lawful(config, slots, h[..i])
    ensures i < |h| ==> Allowed(config, slots, TablesAfter(h[..i]), h[i])
  {
    if i < |h| {
      var before := h[..|h| - 1];
      if i < |before| {
        PrefixIsLawful(config, slots, before, i);
      }
      assert before[..i] == h[..i];
    } else {
      assert h[..i] == h;
    }
  }

  lemma NextTables(h: seq<Event>, i: nat)
    requires 0 < i <= |h|
    ensures TablesAfter(h[..i]) == Step(TablesAfter(h[..i - 1]), h[i - 1])
  {
    assert h[..i][..i - 1] == h[..i - 1];
  }

  lemma FewerEntries<K, V>(m: map<K, V>, keys: set<K>)
    ensures |m - keys| <= |m|
  {
    assert |(m - keys).Keys| + |m.Keys * keys| == |m.Keys| by {
      assert (m - keys).Keys == m.Keys - keys;
    }
  }

  lemma StepKeepsSlots(config: SchedulerConfig, slots: int, t: Tables, e: Event)
    requires Allowed(config, slots, t, e)
    ensures |Step(t, e).running| <= |t.running| || |Step(t, e).running| <= slots
  {
    hide Ready;
    var after := Step(t, e).running;
    if e.Spawned? {
      assert after.Keys == t.running.Keys + {e.entry.role};
      assert |after| == |after.Keys|;
    } else if e.IsEnd() {
      assert after == t.running - {e.role};
      FewerEntries(t.running, {e.role});
    }
  }

  /** At every moment of a lawful run at most `slots` processes are active. */
  lemma {:induction false} SlotsNeverExceeded(config: SchedulerConfig, slots: int, h: seq<Event>, i: nat)
    requires Lawful(config, slots, h) && i <= |h|
    ensures |TablesAfter(h[..i]).running| <= if slots < 0 then 0 else slots
    decreases i
  {
    if i > 0 {
      hide Allowed, Step, Lawful, TablesAfter;
      SlotsNeverExceeded(config, slots, h, i - 1);
      PrefixIsLawful(config, slots, h, i - 1);
      NextTables(h, i);
      StepKeepsSlots(config, slots, TablesAfter(h[..i - 1]), h[i - 1]);
    }
  }

  /** Number of end events of process `pid`. */
  function Ends(h: seq<Event>, pid: nat): nat {
    if h == [] then 0
    else Ends(h[..|h| - 1], pid) + if h[|h| - 1].IsEnd() && h[|h| - 1].pid == pid then 1 else 0
  }

  ghost predicate IsRunning(t: Tables, pid: nat) {
    exists r :: r in t.running && t.running[r].pid == pid
  }

  /**
   * No process is lost, overwritten in the table or ended twice: every spawned process is either
   * still active or ended exactly once, and nothing that was never spawned is active or ended.
   */
  lemma {:induction false} EveryProcessAccountedFor(config: SchedulerConfig, slots: int, h: seq<Event>, pid: nat)
    requires Lawful(config, slots, h)
    ensures pid < TablesAfter(h).spawned ==> Ends(h, pid) + (if IsRunning(TablesAfter(h), pid) then 1 else 0) == 1
    ensures pid >= TablesAfter(h).spawned ==> Ends(h, pid) == 0 && !IsRunning(TablesAfter(h), pid)
    ensures forall r, s :: r in TablesAfter(h).running && s in TablesAfter(h).running ==>
      TablesAfter(h).running[r].pid == TablesAfter(h).running[s].pid ==> r == s
  {
    if h != [] {
      var before, e := TablesAfter(h[..|h| - 1]), h[|h| - 1];
      var now := TablesAfter(h);
      EveryProcessAccountedFor(config, slots, h[..|h| - 1], pid);
      if e.Spawned? {
        EveryProcessAccountedFor(config, slots, h[..|h| - 1], e.pid);
        assert now.running[e.entry.role].pid == e.pid;
        if IsRunning(before, pid) {
          var r :| r in before.running && before.running[r].pid == pid;
          assert r in now.running && now.running[r].pid == pid;
        }
      } else if e.IsEnd() {
        assert now.running == before.running - {e.role};
        if pid == e.pid {
          assert IsRunning(before, pid);
        } else if IsRunning(before, pid) {
          var r :| r in before.running && before.running[r].pid == pid;
          assert r in now.running;
        }
      }
    }
  }

  /** The tables hold, for every role, the failures since its last success, and a time only if there are any. */
  lemma {:induction false} TablesCountFailures(h: seq<Event>, r: string)
    ensures Count(TablesAfter(h).failures, r) == Failures(h, r)
    ensures r in TablesAfter(h).lastFailure <==> Failures(h, r) > 0
  {
    if h != [] {
      TablesCountFailures(h[..|h| - 1], r);
    }
  }

  /** Event `i` is a failure of `r`, and neither a failure nor a success of `r` came after it. */
  ghost predicate IsLastFailure(h: seq<Event>, r: string, i: int) {
    0 <= i < |h| && h[i].IsFailureOf(r) && NothingAbout(h[i + 1..], r)
  }

  ghost predicate NothingAbout(h: seq<Event>, r: string) {
    forall j :: 0 <= j < |h| ==> !h[j].IsFailureOf(r) && !h[j].IsSuccessOf(r)
  }

  /** The time in the tables is that of the last failure, and before it there was one failure less. */
  lemma {:induction false} LastFailureInTables(h: seq<Event>, r: string) returns (i: int)
    requires Failures(h, r) > 0
    ensures IsLastFailure(h, r, i)
    ensures r in TablesAfter(h).lastFailure && TablesAfter(h).lastFailure[r] == h[i].at
    ensures Failures(h[..i], r) == Failures(h, r) - 1
  {
    var before, e := h[..|h| - 1], h[|h| - 1];
    if e.IsFailureOf(r) {
      i := |h| - 1;
    } else {
      i := LastFailureInTables(before, r);
      assert h[..i] == before[..i] && h[i + 1..] == before[i + 1..] + [e];
    }
  }

  /** There are no failures to count exactly when every failure was followed by a success. */
  lemma {:induction false} NoFailuresSinceSuccess(h: seq<Event>, r: string)
    ensures Failures(h, r) == 0 <==> (forall i :: 0 <= i < |h| && h[i].IsFailureOf(r) ==> SuccessAfter(h, r, i))
  {
    if h != [] {
      var before, e := h[..|h| - 1], h[|h| - 1];
      NoFailuresSinceSuccess(before, r);
      if e.IsFailureOf(r) {
        assert !SuccessAfter(h, r, |h| - 1);
      } else {
        forall i | 0 <= i < |before|
          ensures before[i].IsFailureOf(r) == h[i].IsFailureOf(r)
          ensures SuccessAfter(h, r, i) == (SuccessAfter(before, r, i) || e.IsSuccessOf(r))
        {
          if SuccessAfter(before, r, i) {
            var j :| i < j < |before| && before[j].IsSuccessOf(r);
            assert h[j].IsSuccessOf(r);
          }
          if SuccessAfter(h, r, i) && !e.IsSuccessOf(r) {
            var j :| i < j < |h| && h[j].IsSuccessOf(r);
            assert before[j].IsSuccessOf(r);
          }
        }
      }
    }
  }

  ghost predicate SuccessAfter(h: seq<Event>, r: string, i: int)
    requires 0 <= i < |h|
  {
    exists j :: i < j < |h| && h[j].IsSuccessOf(r)
  }

  /**
   * A role with k >= `crashThreshold` failures in a row is only started again once
   * min(base * 3^(k - threshold), max) minutes have passed since the last of them.
   */
  lemma BackoffIsServed(config: SchedulerConfig, slots: int, h: seq<Event>, i: nat) returns (last: int)
    requires Lawful(config, slots, h) && i < |h| && h[i].Spawned?
    requires Failures(h[..i], h[i].entry.role) > 0
    requires Failures(h[..i], h[i].entry.role) >= config.crashThreshold
    ensures IsLastFailure(h[..i], h[i].entry.role, last)
    ensures var wanted := config.backoffBaseMinutes * Pow3(Failures(h[..i], h[i].entry.role) - config.crashThreshold);
            h[i].at >= h[last].at +
              (if wanted <= config.backoffMaxMinutes then wanted else config.backoffMaxMinutes) as real * 60.0
  {
    hide TablesAfter, Lawful, Failures;
    PrefixIsLawful(config, slots, h, i);
    TablesCountFailures(h[..i], h[i].entry.role);
    last := LastFailureInTables(h[..i], h[i].entry.role);
  }

  /**
   * By the tables a role that has failed since its last success may start exactly when it has fewer
   * than `crashThreshold` failures or base * 3^(k - threshold) minutes, or the maximum, have passed.
   */
  lemma ReadyIffServed(config: SchedulerConfig, h: seq<Event>, r: string, now: real) returns (last: int)
    requires Failures(h, r) > 0
    ensures IsLastFailure(h, r, last)
    ensures Ready(config, TablesAfter(h).failures, TablesAfter(h).lastFailure, r, now) <==>
      || Failures(h, r) < config.crashThreshold
      || now >= h[last].at + (config.backoffBaseMinutes * Pow3(Failures(h, r) - config.crashThreshold)) as real * 60.0
      || now >= h[last].at + config.backoffMaxMinutes as real * 60.0
  {
    hide TablesAfter, Failures, Pow3, IsLastFailure;
    TablesCountFailures(h, r);
    last := LastFailureInTables(h, r);
  }

  /** At the defaults: 5 minutes after the third failure in a row, then 15, 45 and never more than 60. */
  lemma BackoffAtDefaults(config: SchedulerConfig, failures: nat)
    requires config.crashThreshold == 3 && config.backoffBaseMinutes == 5 && config.backoffMaxMinutes == 60
    ensures BackoffSeconds(config, failures) ==
      if failures < 3 then 0.0 else if failures == 3 then 300.0 else if failures == 4 then 900.0
      else if failures == 5 then 2700.0 else 3600.0
  {
    assert Pow3(1) == 3 && Pow3(2) == 9 && Pow3(3) == 27;
    if failures >= 6 {
      Pow3Grows(3, failures - 3);
    }
  }

  lemma {:induction false} Pow3Grows(m: nat, n: nat)
    requires m <= n
    ensures Pow3(m) <= Pow3(n)
    decreases n
  {
    if m < n {
      Pow3Grows(m, n - 1);
    }
  }

  /** The memory latch after a series of readings, each a percentage. */
  function Latched(config: SchedulerConfig, readings: seq<int>): bool {
    if readings == [] then false
    else LatchStep(config, Latched(config, readings[..|readings| - 1]), readings[|readings| - 1])
  }

  function LatchStep(config: SchedulerConfig, paused: bool, pct: int): bool {
    if pct >= config.memoryThreshold then true
    else if pct < config.memoryResume then false
    else paused
  }

  /** Reading `i` reached the threshold and no later one released the latch. */
  ghost predicate LatchedSince(config: SchedulerConfig, readings: seq<int>, i: int) {
    && 0 <= i < |readings|
    && readings[i] >= config.memoryThreshold
    && forall j :: i < j < |readings| ==> readings[j] >= config.memoryThreshold || readings[j] >= config.memoryResume
  }

  /** Spawning is paused exactly when some reading reached the threshold and none released it since. */
  lemma {:induction false} LatchMeaning(config: SchedulerConfig, readings: seq<int>)
    ensures Latched(config, readings) <==> exists i :: LatchedSince(config, readings, i)
  {
    if readings != [] {
      var before, pct := readings[..|readings| - 1], readings[|readings| - 1];
      LatchMeaning(config, before);
      forall i | 0 <= i < |before|
        ensures LatchedSince(config, readings, i) == (LatchedSince(config, before, i) && LatchStep(config, true, pct))
      {
        assert forall j :: 0 <= j < |before| ==> readings[j] == before[j];
      }
      assert LatchedSince(config, readings, |before|) == (pct >= config.memoryThreshold);
    }
  }
}

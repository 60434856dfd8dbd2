/** The circuit breaker of one backend: `BackendEntry` of agents/backend_pool.py, against its event history. */
module CircuitBreaker {
  import opened Numbers

  datatype CircuitState = Closed | Open | HalfOpen

  datatype Event = Checked(at: int) | Succeeded | Failed(at: int)

  datatype Settings = Settings(maxConsecutiveFailures: int, recoveryTimeout: int)

  /** Failures since the last success. */
  function FailuresSince(h: seq<Event>): nat {
    if h == [] || h[|h| - 1].Succeeded? then 0
    else FailuresSince(h[..|h| - 1]) + if h[|h| - 1].Failed? then 1 else 0
  }

  /** When the backend last failed, 0 if it never did. */
  function LastFailure(h: seq<Event>): int {
    if h == [] then 0
    else if h[|h| - 1].Failed? then h[|h| - 1].at
    else LastFailure(h[..|h| - 1])
  }

  /** Whether a check since the last success or failure came late enough after the last failure. */
  function RecoveryNoticed(h: seq<Event>, timeout: int): bool {
    if h == [] || !h[|h| - 1].Checked? then false
    else RecoveryNoticed(h[..|h| - 1], timeout) || h[|h| - 1].at - LastFailure(h) >= timeout
  }

  /** The circuit, from the history alone. */
  function StateAfter(h: seq<Event>, s: Settings): CircuitState {
    if FailuresSince(h) < AtLeastOne(s.maxConsecutiveFailures) then Closed
    else if RecoveryNoticed(h, s.recoveryTimeout) then HalfOpen
    else Open
  }

  /** Whether a backend with this history may be tried at time `now`. */
  predicate AvailableAt(h: seq<Event>, s: Settings, now: int) {
    StateAfter(h, s) != Open || now - LastFailure(h) >= s.recoveryTimeout
  }

  /** What each event does to the failures, the last failure and the recovery. */
  lemma OneMoreEvent(h: seq<Event>, e: Event, s: Settings)
    ensures FailuresSince(h + [e]) ==
      if e.Succeeded? then 0 else FailuresSince(h) + if e.Failed? then 1 else 0
    ensures LastFailure(h + [e]) == if e.Failed? then e.at else LastFailure(h)
    ensures RecoveryNoticed(h + [e], s.recoveryTimeout) ==
      (e.Checked? && (RecoveryNoticed(h, s.recoveryTimeout) || e.at - LastFailure(h) >= s.recoveryTimeout))
  {
    assert (h + [e])[..|h|] == h;
  }

  class BackendEntry {
    const settings: Settings
    var circuitState: CircuitState
    var consecutiveFailures: nat
    var lastFailureTime: int
    var totalInflight: int
    ghost var history: seq<Event>

    ghost predicate Valid()
      reads this`circuitState, this`consecutiveFailures, this`lastFailureTime, this`history
    {
      && circuitState == StateAfter(history, settings)
      && consecutiveFailures == FailuresSince(history)
      && lastFailureTime == LastFailure(history)
    }

    constructor (settings: Settings)
      ensures Valid() && this.settings == settings && history == [] && totalInflight == 0
    {
      this.settings := settings;
      circuitState, consecutiveFailures, lastFailureTime, totalInflight, history := Closed, 0, 0, 0, [];
    }

    /** The check itself moves an open circuit whose timeout has passed to half-open. */
    method IsAvailable(now: int) returns (available: bool)
      requires Valid()
      modifies this`circuitState, this`history
      ensures Valid() && history == old(history) + [Checked(now)]
      ensures available <==> AvailableAt(old(history), settings, now)
      ensures available <==> circuitState != Open
    {
      hide FailuresSince, LastFailure, RecoveryNoticed;
      history := history + [Checked(now)];
      OneMoreEvent(old(history), Checked(now), settings);
      if circuitState == Closed {
        return true;
      }
      if circuitState == Open {
        if now - lastFailureTime >= settings.recoveryTimeout {
          circuitState := HalfOpen;
          return true;
        }
        return false;
      }
      return true;
    }

    method RecordSuccess()
      requires Valid()
      modifies this`circuitState, this`consecutiveFailures, this`history
      ensures Valid() && history == old(history) + [Succeeded]
    {
      hide FailuresSince, LastFailure, RecoveryNoticed;
      history := history + [Succeeded];
      circuitState := Closed;
      consecutiveFailures := 0;
      OneMoreEvent(old(history), Succeeded, settings);
    }

    method RecordFailure(now: int)
      requires Valid()
      modifies this`circuitState, this`consecutiveFailures, this`lastFailureTime, this`history
      ensures Valid() && history == old(history) + [Failed(now)]
    {
      hide FailuresSince, LastFailure, RecoveryNoticed;
      history := history + [Failed(now)];
      OneMoreEvent(old(history), Failed(now), settings);
      consecutiveFailures := consecutiveFailures + 1;
      lastFailureTime := now;
      if circuitState == HalfOpen {
        circuitState := Open;
      } else if consecutiveFailures >= settings.maxConsecutiveFailures {
        if circuitState != Open {
          circuitState := Open;
        }
      }
    }
  }

  /** Position `f` is the last failure of `h`, and only checks follow it. */
  ghost predicate LastFailureAt(h: seq<Event>, f: nat) {
    f < |h| && h[f].Failed? && forall k :: f < k < |h| ==> h[k].Checked?
  }

  /** With failures since the last success, the last one is followed by checks, failures aside. */
  lemma {:induction false} LastFailureExists(h: seq<Event>) returns (f: nat)
    requires FailuresSince(h) > 0
    ensures LastFailureAt(h, f)
  {
    var last := |h| - 1;
    if h[last].Failed? {
      f := last;
    } else {
      f := LastFailureExists(h[..last]);
    }
  }

  /** An open circuit has seen no check late enough after its last failure; a half-open one has. */
  lemma {:induction false} RecoveryNoticedMeaning(h: seq<Event>, f: nat, timeout: int)
    requires LastFailureAt(h, f)
    ensures LastFailure(h) == h[f].at
    ensures RecoveryNoticed(h, timeout) <==> exists k :: f < k < |h| && h[k].at - h[f].at >= timeout
  {
    var last := |h| - 1;
    if f < last {
      RecoveryNoticedMeaning(h[..last], f, timeout);
    }
  }

  /**
   * A circuit is closed exactly while failures stay below the limit, for every history, if and only if
   * the limit is positive.
   */
  lemma ClosedIffBelowLimit(s: Settings)
    ensures (forall h :: StateAfter(h, s) == Closed <==> FailuresSince(h) < s.maxConsecutiveFailures) <==>
      s.maxConsecutiveFailures >= 1
  {
    assert FailuresSince([]) == 0;
    if s.maxConsecutiveFailures < 1 {
      assert StateAfter([], s) == Closed;
    }
  }

  /** A circuit that is open becomes half-open exactly by a check late enough after its last failure. */
  lemma HalfOpenAfterTimeout(h: seq<Event>, s: Settings, at: int)
    requires StateAfter(h, s) == Open
    ensures StateAfter(h + [Checked(at)], s) == if at - LastFailure(h) >= s.recoveryTimeout then HalfOpen else Open
  {
    assert (h + [Checked(at)])[..|h|] == h;
  }

  /**
   * At the defaults, three failures in a row and then any number of checks from 60 seconds after them
   * on: all are admitted.
   */
  lemma AllProbesAdmitted(a: int, b: int, c: int, first: int, more: seq<Event>, now: int)
    requires first >= c + 60 && forall e :: e in more ==> e.Checked?
    ensures var s, h := Settings(3, 60), [Failed(a), Failed(b), Failed(c), Checked(first)];
      && StateAfter(h, s) == HalfOpen
      && AvailableAt(h + more, s, now) && StateAfter(h + more, s) == HalfOpen
  {
    var s := Settings(3, 60);
    var open := [Failed(a), Failed(b), Failed(c)];
    assert open[..2] == [Failed(a), Failed(b)] && open[..2][..1] == [Failed(a)] && [Failed(a)][..0] == [];
    assert FailuresSince([Failed(a)]) == 1;
    assert FailuresSince([Failed(a), Failed(b)]) == 2;
    assert FailuresSince(open) == 3;
    assert open + [Checked(first)] == [Failed(a), Failed(b), Failed(c), Checked(first)];
    HalfOpenAfterTimeout(open, s, first);
    HalfOpenAdmitsAll(open + [Checked(first)], s, more, now);
  }

  /** Once half-open, a circuit lets every further request through until one of them ends: not just one probe. */
  lemma {:induction false} HalfOpenAdmitsAll(h: seq<Event>, s: Settings, checks: seq<Event>, now: int)
    requires StateAfter(h, s) == HalfOpen && forall c :: c in checks ==> c.Checked?
    ensures StateAfter(h + checks, s) == HalfOpen && AvailableAt(h + checks, s, now)
  {
    if checks == [] {
      assert h + checks == h;
    } else {
      var last := |checks| - 1;
      HalfOpenAdmitsAll(h, s, checks[..last], now);
      assert (h + checks)[..|h + checks| - 1] == h + checks[..last];
      assert checks[last] in checks;
    }
  }
}

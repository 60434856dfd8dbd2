/** Selection and failover over several backends: `BackendPool` of agents/backend_pool.py. */
module BackendPools {
  import opened Options
  import opened CircuitBreaker
  import opened Distinctness

  datatype Strategy = Failover | RoundRobin | LeastLoaded

  /** `list` starting at position `index`, wrapping around. */
  function Rotation<T>(list: seq<T>, index: nat): (r: seq<T>)
    requires list != []
    ensures |r| == |list|
    ensures forall k :: 0 <= k < |list| ==> r[k] == list[(index + k) % |list|]
  {
    var i := index % |list|;
    RotationIndex(list, index);
    list[i..] + list[..i]
  }

  lemma RotationIndex<T>(list: seq<T>, index: nat)
    requires list != []
    ensures var i := index % |list|;
      forall k :: 0 <= k < |list| ==> (list[i..] + list[..i])[k] == list[(index + k) % |list|]
  {
    var n := |list|;
    var i := index % n;
    forall k | 0 <= k < n
      ensures (list[i..] + list[..i])[k] == list[(index + k) % n]
    {
      if i + k < n {
        DivModUnique(index + k, n, index / n, i + k);
      } else {
        DivModUnique(index + k, n, index / n + 1, i + k - n);
      }
    }
  }

  lemma DivModUnique(x: int, n: int, q: int, r: int)
    requires n > 0 && 0 <= r < n && x == q * n + r
    ensures x / n == q && x % n == r
  {
    assert x == n * (x / n) + x % n;
    assert (x / n - q) * n == r - x % n;
    MultipleIsFar(x / n - q, n);
  }

  lemma MultipleIsFar(d: int, n: int)
    requires n > 0
    ensures d == 0 || d * n >= n || d * n <= -n
  {
    if d > 0 {
      MultipleAtLeast(d, n);
    } else if d < 0 {
      MultipleAtLeast(-d, n);
      assert d * n == -((-d) * n);
    }
  }

  lemma {:induction false} MultipleAtLeast(d: int, n: int)
    requires d >= 1 && n > 0
    ensures d * n >= n
    decreases d
  {
    if d > 1 {
      MultipleAtLeast(d - 1, n);
      assert d * n == (d - 1) * n + n;
    }
  }

  /**
   * How often position `p` of `n` comes first in the `calls` calls of round robin that start with the
   * counter at `start`.
   */
  function TimesFirst(start: nat, calls: nat, n: nat, p: nat): nat
    requires n > 0
  {
    if calls == 0 then 0
    else TimesFirst(start, calls - 1, n, p) + if (start + calls - 1) % n == p then 1 else 0
  }

  /** Position `p` comes first every `n`-th call, first at the call numbered `(p - start) % n`. */
  lemma {:induction false} TimesFirstFormula(start: nat, calls: nat, n: nat, p: nat)
    requires n > 0 && p < n
    ensures TimesFirst(start, calls, n, p) == calls / n + if calls % n > (p - start) % n then 1 else 0
  {
    if calls > 0 {
      TimesFirstFormula(start, calls - 1, n, p);
      FirstExactlyWhen(start, calls - 1, n, p);
      RoundsStep(calls - 1, n, (p - start) % n);
    } else {
      DivModUnique(0, n, 0, 0);
    }
  }

  /** Of the numbers below `k + 1`, those that are `d` modulo `n` are the ones below `k`, and `k` itself if it is. */
  lemma RoundsStep(k: nat, n: nat, d: nat)
    requires n > 0 && d < n
    ensures (k + 1) / n + (if (k + 1) % n > d then 1 else 0) ==
      k / n + (if k % n > d then 1 else 0) + if k % n == d then 1 else 0
  {
    if k % n == n - 1 {
      DivModUnique(k + 1, n, k / n + 1, 0);
    } else {
      DivModUnique(k + 1, n, k / n, k % n + 1);
    }
  }

  lemma FirstExactlyWhen(start: nat, k: nat, n: nat, p: nat)
    requires n > 0 && p < n
    ensures (start + k) % n == p <==> k % n == (p - start) % n
  {
    var d := (p - start) % n;
    var q := (p - start) / n;
    assert p - start == n * q + d;
    assert k == n * (k / n) + k % n;
    if k % n == d {
      assert start + k == (k / n - q) * n + p;
      DivModUnique(start + k, n, k / n - q, p);
    }
    if (start + k) % n == p {
      assert start + k == n * ((start + k) / n) + p;
      assert k == ((start + k) / n + q) * n + d;
      DivModUnique(k, n, (start + k) / n + q, d);
    }
  }

  /** How many of the orders begin with `e`. */
  function FirstCount<T(==)>(orders: seq<seq<T>>, e: T): nat {
    if orders == [] then 0
    else
      var last := orders[|orders| - 1];
      FirstCount(orders[..|orders| - 1], e) + if last != [] && last[0] == e then 1 else 0
  }

  /** Call after call lists `available` from the next position on, the first from `start`. */
  ghost predicate Rotating<T>(orders: seq<seq<T>>, available: seq<T>, start: nat) {
    available != [] && forall i: nat :: i < |orders| ==> orders[i] == Rotation(available, start + i)
  }

  lemma {:induction false} FirstCountFollowsTheCounter<T>(orders: seq<seq<T>>, available: seq<T>, start: nat, p: nat)
    requires Rotating(orders, available, start) && NoDuplicates(available) && p < |available|
    ensures FirstCount(orders, available[p]) == TimesFirst(start, |orders|, |available|, p)
  {
    if orders != [] {
      var last := |orders| - 1;
      FirstCountFollowsTheCounter(orders[..last], available, start, p);
      assert orders[last][0] == available[(start + last) % |available|];
    }
  }

  /** Of the orders of consecutive calls, any two available entries come first equally often, give or take one. */
  lemma RoundRobinIsFair<T>(orders: seq<seq<T>>, available: seq<T>, start: nat, a: T, b: T)
    requires Rotating(orders, available, start) && NoDuplicates(available) && a in available && b in available
    ensures -1 <= FirstCount(orders, a) - FirstCount(orders, b) <= 1
  {
    var p: nat :| p < |available| && available[p] == a;
    var q: nat :| q < |available| && available[q] == b;
    FirstCountFollowsTheCounter(orders, available, start, p);
    FirstCountFollowsTheCounter(orders, available, start, q);
    TimesFirstFormula(start, |orders|, |available|, p);
    TimesFirstFormula(start, |orders|, |available|, q);
  }

  /** Inserts `e` behind everything that is no more loaded. */
  function InsertByLoad(sorted: seq<nat>, e: nat, load: seq<int>): (r: seq<nat>)
    requires e < |load| && InRange(sorted, |load|)
    ensures InRange(r, |load|)
  {
    if sorted == [] || load[sorted[|sorted| - 1]] <= load[e] then sorted + [e]
    else InsertByLoad(sorted[..|sorted| - 1], e, load) + [sorted[|sorted| - 1]]
  }

  /** A stable sort by load, as `sorted` does it. */
  function SortByLoad(list: seq<nat>, load: seq<int>): (r: seq<nat>)
    requires InRange(list, |load|)
    ensures InRange(r, |load|)
  {
    if list == [] then [] else InsertByLoad(SortByLoad(list[..|list| - 1], load), list[|list| - 1], load)
  }

  lemma {:induction false} InsertAdds(sorted: seq<nat>, e: nat, load: seq<int>)
    requires e < |load| && InRange(sorted, |load|)
    ensures multiset(InsertByLoad(sorted, e, load)) == multiset(sorted) + multiset{e}
  {
    if sorted != [] && load[sorted[|sorted| - 1]] > load[e] {
      InsertAdds(sorted[..|sorted| - 1], e, load);
      assert sorted == sorted[..|sorted| - 1] + [sorted[|sorted| - 1]];
    }
  }

  lemma {:induction false} SortIsPermutation(list: seq<nat>, load: seq<int>)
    requires InRange(list, |load|)
    ensures multiset(SortByLoad(list, load)) == multiset(list)
  {
    if list != [] {
      var last := |list| - 1;
      SortIsPermutation(list[..last], load);
      InsertAdds(SortByLoad(list[..last], load), list[last], load);
      assert list == list[..last] + [list[last]];
    }
  }

  /** By load, and by position among equally loaded. */
  ghost predicate SortedByLoad(s: seq<nat>, load: seq<int>)
    requires InRange(s, |load|)
  {
    forall i, j :: 0 <= i < j < |s| ==> load[s[i]] < load[s[j]] || (load[s[i]] == load[s[j]] && s[i] < s[j])
  }

  lemma {:induction false} InsertKeepsSorted(sorted: seq<nat>, e: nat, load: seq<int>)
    requires e < |load| && InRange(sorted, |load|) && InRange(sorted, e)
    requires SortedByLoad(sorted, load)
    ensures SortedByLoad(InsertByLoad(sorted, e, load), load)
    ensures forall x :: x in InsertByLoad(sorted, e, load) ==> x == e || x in sorted
  {
    var last := |sorted| - 1;
    var r := InsertByLoad(sorted, e, load);
    if sorted == [] || load[sorted[last]] <= load[e] {
      assert r == sorted + [e];
      forall i | 0 <= i < |sorted|
        ensures load[sorted[i]] <= load[e] && sorted[i] < e
      {
        assert i < last ==> load[sorted[i]] <= load[sorted[last]];
      }
    } else {
      var init := InsertByLoad(sorted[..last], e, load);
      InsertKeepsSorted(sorted[..last], e, load);
      assert r == init + [sorted[last]];
      forall i | 0 <= i < |init|
        ensures load[init[i]] < load[sorted[last]] || (load[init[i]] == load[sorted[last]] && init[i] < sorted[last])
      {
        assert init[i] in init;
        if init[i] != e {
          assert init[i] in sorted[..last];
          var j :| 0 <= j < last && init[i] == sorted[j];
        }
      }
    }
  }

  /** Backends listed in their own order come out least loaded first, ties in that order. */
  lemma {:induction false} SortByLoadSorts(list: seq<nat>, load: seq<int>, bound: nat)
    requires InRange(list, |load|) && InRange(list, bound)
    requires forall i, j :: 0 <= i < j < |list| ==> list[i] < list[j]
    ensures SortedByLoad(SortByLoad(list, load), load) && InRange(SortByLoad(list, load), bound)
  {
    if list != [] {
      var last := |list| - 1;
      SortByLoadSorts(list[..last], load, list[last]);
      InsertKeepsSorted(SortByLoad(list[..last], load), list[last], load);
      var r := SortByLoad(list, load);
      forall k | 0 <= k < |r|
        ensures r[k] < bound
      {
        assert r[k] in r;
      }
    }
  }

  lemma RotationIsPermutation<T>(list: seq<T>, index: nat)
    requires list != []
    ensures multiset(Rotation(list, index)) == multiset(list)
  {
    var i := index % |list|;
    RotationIndex(list, index);
    assert Rotation(list, index) == list[i..] + list[..i];
    assert list == list[..i] + list[i..];
  }

  /** The order in which `_select_order` lists the available backends. */
  function OrderFor(strategy: Strategy, available: seq<nat>, rrIndex: nat, load: seq<int>): (order: seq<nat>)
    requires available != [] && InRange(available, |load|)
    ensures multiset(order) == multiset(available)
  {
    match strategy
    case RoundRobin => RotationIsPermutation(available, rrIndex); Rotation(available, rrIndex)
    case LeastLoaded => SortIsPermutation(available, load); SortByLoad(available, load)
    case Failover => available
  }

  /** An entry that was checked once more. */
  ghost predicate CheckedOnce(before: seq<Event>, after: seq<Event>) {
    |after| == |before| + 1 && after[..|before|] == before && after[|before|].Checked?
  }

  /** Checked when its turn came, found unavailable, and passed over. */
  ghost predicate Skipped(before: seq<Event>, after: seq<Event>, s: Settings) {
    CheckedOnce(before, after) && !AvailableAt(before, s, after[|before|].at)
  }

  /**
   * What a backend does when asked: a reply, an exception, or a reply without text, which fails after
   * it was counted a success.
   */
  datatype Answer = Text(text: string) | Raised | NoText

  ghost predicate RecordedAs(events: seq<Event>, answer: Answer) {
    match answer
    case Text(_) => |events| == 1 && events[0].Succeeded?
    case Raised => |events| == 1 && events[0].Failed?
    case NoText => |events| == 2 && events[0].Succeeded? && events[1].Failed?
  }

  /** Checked when its turn came, found available, and tried: the outcome is recorded. */
  ghost predicate Attempted(before: seq<Event>, after: seq<Event>, s: Settings, answer: Answer) {
    && |after| > |before| && CheckedOnce(before, after[..|before| + 1])
    && AvailableAt(before, s, after[|before|].at)
    && RecordedAs(after[|before| + 1..], answer)
  }

  /** Unavailable at its turn, or tried in vain. */
  ghost predicate PassedOver(before: seq<Event>, after: seq<Event>, s: Settings, answer: Answer) {
    Skipped(before, after, s) || (Attempted(before, after, s, answer) && !answer.Text?)
  }

  /** The positions of the entries that `flags` marks, in order. */
  function Marked(flags: seq<bool>): (r: seq<nat>)
    ensures InRange(r, |flags|)
    ensures forall i: nat :: i in r <==> i < |flags| && flags[i]
    ensures forall i, j :: 0 <= i < j < |r| ==> r[i] < r[j]
  {
    if flags == [] then []
    else
      var last := |flags| - 1;
      Marked(flags[..last]) + if flags[last] then [last] else []
  }

  /** In the order of the pool. */
  ghost predicate Increasing(s: seq<nat>) {
    forall i, j :: 0 <= i < j < |s| ==> s[i] < s[j]
  }

  /**
   * The order lists exactly the available entries: for failover as in the pool, for least_loaded by the
   * requests in flight, for round robin cyclically from the counter. When none is available it lists all.
   */
  ghost predicate Chosen(strategy: Strategy, flags: seq<bool>, rrIndex: nat, load: seq<int>, order: seq<nat>)
    requires |load| == |flags|
  {
    && NoDuplicates(order) && InRange(order, |flags|)
    && if forall i :: 0 <= i < |flags| ==> !flags[i] then
         Increasing(order) && forall i: nat :: i < |flags| ==> i in order
       else
         && (forall i: nat :: i in order <==> i < |flags| && flags[i])
         && match strategy
            case Failover => Increasing(order)
            case LeastLoaded => SortedByLoad(order, load)
            case RoundRobin =>
              |order| == |Marked(flags)| &&
              forall k :: 0 <= k < |order| ==> order[k] == Marked(flags)[(rrIndex + k) % |order|]
  }

  lemma AllWhenNoneIsAvailable(strategy: Strategy, flags: seq<bool>, rrIndex: nat, load: seq<int>)
    requires |load| == |flags| && Marked(flags) == []
    ensures Chosen(strategy, flags, rrIndex, load, Marked(seq(|flags|, _ => true)))
  {
    hide Marked, NoDuplicates;
    MarkedIsDistinct(seq(|flags|, _ => true));
    forall i: nat | i < |flags|
      ensures !flags[i]
    {
      assert i !in Marked(flags);
    }
  }

  lemma AsTheStrategyHasIt(strategy: Strategy, flags: seq<bool>, rrIndex: nat, load: seq<int>)
    requires |load| == |flags| && Marked(flags) != []
    ensures var order := OrderFor(strategy, Marked(flags), rrIndex, load);
      Chosen(strategy, flags, rrIndex, load, order) && NoDuplicates(order) && InRange(order, |flags|)
  {
    hide Marked, NoDuplicates, Rotation, SortByLoad;
    var available := Marked(flags);
    var order := OrderFor(strategy, available, rrIndex, load);
    MarkedIsDistinct(flags);
    PermutationKeepsDistinct(order, available);
    PermutationInRange(order, available, |flags|);
    assert available[0] in available && flags[available[0]];
    if strategy == LeastLoaded {
      SortByLoadSorts(available, load, |flags|);
    }
  }

  /** How many calls moved the round-robin counter: those that found an entry available. */
  ghost function Turns(flags: seq<seq<bool>>): nat {
    if flags == [] then 0
    else Turns(flags[..|flags| - 1]) + if Marked(flags[|flags| - 1]) != [] then 1 else 0
  }

  lemma {:induction false} EveryCallTakesATurn(flags: seq<seq<bool>>)
    requires forall i :: 0 <= i < |flags| ==> Marked(flags[i]) != []
    ensures Turns(flags) == |flags|
  {
    if flags != [] {
      EveryCallTakesATurn(flags[..|flags| - 1]);
    }
  }

  /** The order of every call is the one the strategy chooses, with the counter the calls before it left. */
  ghost predicate ChosenInTurn(strategy: Strategy, flags: seq<seq<bool>>, start: nat, load: seq<int>,
      orders: seq<seq<nat>>)
  {
    && |orders| == |flags|
    && forall i :: 0 <= i < |flags| ==>
      && |flags[i]| == |load|
      && Chosen(strategy, flags[i], start + if strategy == RoundRobin then Turns(flags[..i]) else 0, load, orders[i])
  }

  lemma NothingChosen(strategy: Strategy, start: nat, load: seq<int>)
    ensures ChosenInTurn(strategy, [], start, load, []) && Turns([]) == 0
  {
  }

  lemma OneMoreTurn(flags: seq<seq<bool>>, flag: seq<bool>)
    ensures Turns(flags + [flag]) == Turns(flags) + if Marked(flag) != [] then 1 else 0
  {
    hide Marked;
    assert (flags + [flag])[..|flags|] == flags;
  }

  lemma OneMoreChosen(strategy: Strategy, flags: seq<seq<bool>>, start: nat, load: seq<int>, orders: seq<seq<nat>>,
      flag: seq<bool>, order: seq<nat>)
    requires ChosenInTurn(strategy, flags, start, load, orders)
    requires |flag| == |load|
    requires Chosen(strategy, flag, start + if strategy == RoundRobin then Turns(flags) else 0, load, order)
    ensures ChosenInTurn(strategy, flags + [flag], start, load, orders + [order])
    ensures Turns(flags + [flag]) == Turns(flags) + if Marked(flag) != [] then 1 else 0
  {
    hide Chosen, Marked, Turns;
    OneMoreTurn(flags, flag);
    var longer := flags + [flag];
    forall i | 0 <= i < |longer|
      ensures longer[..i] == flags[..i]
    {
    }
    assert longer[..|flags|] == flags;
  }

  /** A call that finds just `available` lists it from the position the counter names. */
  lemma ChosenInRoundRobin(flag: seq<bool>, index: nat, load: seq<int>, order: seq<nat>)
    requires |flag| == |load| && Chosen(RoundRobin, flag, index, load, order) && Marked(flag) != []
    ensures order == Rotation(Marked(flag), index)
  {
    hide Rotation, Marked, NoDuplicates;
    assert Marked(flag)[0] in Marked(flag);
  }

  /** Round robin is fair to the entries that are available throughout, when they are always the same. */
  lemma ConsecutiveCallsAreFair(flags: seq<seq<bool>>, start: nat, load: seq<int>, orders: seq<seq<nat>>,
      available: seq<nat>, a: nat, b: nat)
    requires ChosenInTurn(RoundRobin, flags, start, load, orders)
    requires forall i :: 0 <= i < |flags| ==> Marked(flags[i]) == available
    requires a in available && b in available
    ensures -1 <= FirstCount(orders, a) - FirstCount(orders, b) <= 1
  {
    hide Chosen, Marked, FirstCount, NoDuplicates, Turns, Rotation;
    if flags == [] {
      NoCallsNoTurns(orders, a);
      NoCallsNoTurns(orders, b);
    } else {
      MarkedIsDistinct(flags[0]);
      forall i: nat | i < |orders|
        ensures orders[i] == Rotation(available, start + i)
      {
        EveryCallTakesATurn(flags[..i]);
        ChosenInRoundRobin(flags[i], start + i, load, orders[i]);
      }
      RoundRobinIsFair(orders, available, start, a, b);
    }
  }

  class BackendPool {
    const entries: seq<BackendEntry>
    const strategy: Strategy
    var rrIndex: nat

    ghost predicate Valid()
      reads entries
    {
      && entries != [] && NoSharing()
      && forall i :: 0 <= i < |entries| ==> entries[i].Valid()
    }

    ghost predicate NoSharing() {
      forall i, j :: 0 <= i < j < |entries| ==> entries[i] != entries[j]
    }

    lemma EntriesAreDistinct()
      requires Valid()
      ensures forall i, j :: 0 <= i < j < |entries| ==> entries[i] != entries[j]
    {
    }

    /** What each entry has seen so far. */
    ghost function Histories(): (h: seq<seq<Event>>)
      reads entries
      ensures |h| == |entries|
      ensures forall i :: 0 <= i < |h| ==> h[i] == entries[i].history
    {
      seq(|entries|, i requires 0 <= i < |entries| reads entries => entries[i].history)
    }

    function Loads(): (load: seq<int>)
      reads entries
      ensures |load| == |entries|
      ensures forall i :: 0 <= i < |load| ==> load[i] == entries[i].totalInflight
    {
      seq(|entries|, i requires 0 <= i < |entries| reads entries => entries[i].totalInflight)
    }

    constructor (settings: Settings, backends: nat, strategy: Strategy)
      requires backends > 0
      ensures Valid() && fresh(entries) && |entries| == backends && this.strategy == strategy && rrIndex == 0
      ensures forall i :: 0 <= i < backends ==>
        entries[i].history == [] && entries[i].settings == settings && entries[i].totalInflight == 0
    {
      var list: seq<BackendEntry> := [];
      for i := 0 to backends
        invariant |list| == i && fresh(list)
        invariant forall j, k :: 0 <= j < k < i ==> list[j] != list[k]
        invariant forall j :: 0 <= j < i ==>
          list[j].Valid() && list[j].history == [] && list[j].settings == settings && list[j].totalInflight == 0
      {
        var entry := new BackendEntry(settings);
        list := list + [entry];
      }
      entries, this.strategy, rrIndex := list, strategy, 0;
    }

    /** Checks every entry once, at whatever the clock reads then. */
    method CheckAll() returns (flags: seq<bool>)
      requires Valid()
      modifies entries
      ensures Valid() && |flags| == |entries|
      ensures forall i :: 0 <= i < |entries| ==> entries[i].totalInflight == old(entries[i].totalInflight)
      ensures forall i :: 0 <= i < |entries| ==>
        && CheckedOnce(old(entries[i].history), entries[i].history)
        && flags[i] ==
          AvailableAt(old(entries[i].history), entries[i].settings, entries[i].history[|old(entries[i].history)|].at)
    {
      ghost var before := Histories();
      flags := [];
      for i := 0 to |entries|
        invariant Valid() && |flags| == i
        invariant forall j :: 0 <= j < |entries| ==> entries[j].totalInflight == old(entries[j].totalInflight)
        invariant forall j :: i <= j < |entries| ==> entries[j].history == before[j]
        invariant forall j :: 0 <= j < i ==>
          && CheckedOnce(before[j], entries[j].history)
          && flags[j] == AvailableAt(before[j], entries[j].settings, entries[j].history[|before[j]|].at)
      {
        var now: int := *;
        var available := entries[i].IsAvailable(now);
        flags := flags + [available];
      }
    }

    /** The entries to try, in order: the available ones as the strategy has it, or all when none is. */
    method SelectOrder() returns (order: seq<nat>, ghost flags: seq<bool>)
      requires Valid()
      modifies this`rrIndex, entries
      ensures Valid() && |flags| == |entries|
      ensures forall i :: 0 <= i < |entries| ==> entries[i].totalInflight == old(entries[i].totalInflight)
      ensures forall i :: 0 <= i < |entries| ==>
        && CheckedOnce(old(entries[i].history), entries[i].history)
        && flags[i] ==
          AvailableAt(old(entries[i].history), entries[i].settings, entries[i].history[|old(entries[i].history)|].at)
      ensures Chosen(strategy, flags, old(rrIndex), Loads(), order)
      ensures rrIndex == old(rrIndex) + if strategy == RoundRobin && Marked(flags) != [] then 1 else 0
      ensures NoDuplicates(order) && InRange(order, |entries|)
    {
      hide Valid, CheckedOnce, AvailableAt, Marked, Chosen, OrderFor, NoDuplicates;
      var answers := CheckAll();
      flags := answers;
      var available := Marked(answers);
      MarkedIsDistinct(answers);
      if available == [] {
        order := Marked(seq(|entries|, _ => true));
        MarkedIsDistinct(seq(|entries|, _ => true));
        AllWhenNoneIsAvailable(strategy, answers, rrIndex, Loads());
        return;
      }
      order := OrderFor(strategy, available, rrIndex, Loads());
      AsTheStrategyHasIt(strategy, answers, rrIndex, Loads());
      if strategy == RoundRobin {
        rrIndex := rrIndex + 1;
      }
    }

    /** Asks one entry, keeping count of the request while it is in flight. */
    method Ask(i: nat, answer: Answer) returns (result: Option<string>, ghost asked: bool)
      requires Valid() && i < |entries|
      modifies entries[i]
      ensures Valid() && entries[i].totalInflight == old(entries[i].totalInflight)
      ensures if asked then Attempted(old(entries[i].history), entries[i].history, entries[i].settings, answer)
              else Skipped(old(entries[i].history), entries[i].history, entries[i].settings)
      ensures result == if asked && answer.Text? then Some(answer.text) else None
    {
      hide AvailableAt, Attempted, Skipped, CheckedOnce, BackendEntry.Valid;
      var entry := entries[i];
      ghost var before, told := entry.history, [];
      var now: int := *;
      ghost var at := now;
      var available := entry.IsAvailable(now);
      asked := available;
      result := None;
      if available {
        entry.totalInflight := entry.totalInflight + 1;
        if answer != Raised {
          entry.RecordSuccess();
          told := told + [Succeeded];
        }
        if answer.Text? {
          result := Some(answer.text);
        } else {
          now := *;
          entry.RecordFailure(now);
          told := told + [Failed(now)];
        }
        entry.totalInflight := entry.totalInflight - 1;
      }
      assert entry.history == before + [Checked(at)] + told;
      TurnIsRecorded(before, at, told, entry.settings, answer);
    }

    /**
     * Tries the entries in order until one answers with text. `checked` is what the entries had seen
     * after the selection; the first `reached` entries of `order` had their turn.
     */
    method Generate(answers: seq<Answer>)
      returns (result: Option<string>, ghost checked: seq<seq<Event>>, ghost flags: seq<bool>, ghost order: seq<nat>,
        ghost reached: nat)
      requires Valid() && |answers| == |entries|
      modifies this`rrIndex, entries
      ensures Valid() && |checked| == |flags| == |entries|
      ensures forall i :: 0 <= i < |entries| ==> entries[i].totalInflight == old(entries[i].totalInflight)
      ensures forall i :: 0 <= i < |entries| ==>
        && CheckedOnce(old(entries[i].history), checked[i])
        && flags[i] ==
          AvailableAt(old(entries[i].history), entries[i].settings, checked[i][|old(entries[i].history)|].at)
      ensures Chosen(strategy, flags, old(rrIndex), old(Loads()), order)
      ensures rrIndex == old(rrIndex) + if strategy == RoundRobin && Marked(flags) != [] then 1 else 0
      ensures InRange(order, |entries|) && reached <= |order|
      ensures forall i: nat :: i < |entries| && i !in order[..reached] ==> entries[i].history == checked[i]
      ensures forall k :: 0 <= k < (if result.Some? then reached - 1 else |order|) ==>
        PassedOver(checked[order[k]], entries[order[k]].history, entries[order[k]].settings, answers[order[k]])
      ensures if result.None? then reached == |order| else
        && reached > 0 && answers[order[reached - 1]] == Text(result.value)
        && var i := order[reached - 1]; Attempted(checked[i], entries[i].history, entries[i].settings, answers[i])
    {
      hide OrderFor, Marked, CheckedOnce;
      var list;
      list, flags := SelectOrder();
      order := list;
      checked := Histories();
      assert Loads() == old(Loads());
      hide *;
      result, reached := TryInOrder(list, answers, checked);
    }

    /** Request after request, each with the answers its backends would give. */
    method GenerateAll(requests: seq<seq<Answer>>)
      returns (results: seq<Option<string>>, ghost flags: seq<seq<bool>>, ghost orders: seq<seq<nat>>)
      requires Valid() && forall i :: 0 <= i < |requests| ==> |requests[i]| == |entries|
      modifies this`rrIndex, entries
      ensures Valid() && |results| == |flags| == |requests|
      ensures ChosenInTurn(strategy, flags, old(rrIndex), old(Loads()), orders)
      ensures strategy == RoundRobin ==>
        forall available: seq<nat>, a, b |
          (forall i :: 0 <= i < |flags| ==> Marked(flags[i]) == available) && a in available && b in available ::
          -1 <= FirstCount(orders, a) - FirstCount(orders, b) <= 1
    {
      hide *;
      NothingChosen(strategy, rrIndex, Loads());
      results, flags, orders := [], [], [];
      ghost var load := Loads();
      for i := 0 to |requests|
        invariant Valid() && |results| == |flags| == i && Loads() == load
        invariant rrIndex == old(rrIndex) + if strategy == RoundRobin then Turns(flags) else 0
        invariant ChosenInTurn(strategy, flags, old(rrIndex), load, orders)
      {
        var result, _, flag, order, _ := Generate(requests[i]);
        OneMoreChosen(strategy, flags, old(rrIndex), load, orders, flag, order);
        results, flags, orders := results + [result], flags + [flag], orders + [order];
        assert Loads() == load;
      }
      hide ChosenInTurn, Turns;
      if strategy == RoundRobin {
        forall available: seq<nat>, a, b |
          (forall i :: 0 <= i < |flags| ==> Marked(flags[i]) == available) && a in available && b in available
          ensures -1 <= FirstCount(orders, a) - FirstCount(orders, b) <= 1
        {
          ConsecutiveCallsAreFair(flags, old(rrIndex), load, orders, available, a, b);
        }
      }
    }

    /** The failover loop over the entries named by `order`. */
    method TryInOrder(order: seq<nat>, answers: seq<Answer>, ghost checked: seq<seq<Event>>)
      returns (result: Option<string>, ghost reached: nat)
      requires Valid() && |answers| == |entries| && checked == Histories()
      requires NoDuplicates(order) && InRange(order, |entries|)
      modifies entries
      ensures Valid() && |checked| == |entries|
      ensures forall i :: 0 <= i < |entries| ==> entries[i].totalInflight == old(entries[i].totalInflight)
      ensures InRange(order, |entries|) && reached <= |order|
      ensures forall i: nat :: i < |entries| && i !in order[..reached] ==> entries[i].history == checked[i]
      ensures forall k :: 0 <= k < (if result.Some? then reached - 1 else |order|) ==>
        PassedOver(checked[order[k]], entries[order[k]].history, entries[order[k]].settings, answers[order[k]])
      ensures if result.None? then reached == |order| else
        && reached > 0 && answers[order[reached - 1]] == Text(result.value)
        && var i := order[reached - 1]; Attempted(checked[i], entries[i].history, entries[i].settings, answers[i])
    {
      hide Attempted, Skipped, PassedOver, CheckedOnce, AvailableAt, RecordedAs, NoDuplicates, Valid, NoSharing,
        BackendEntry.Valid;
      EntriesAreDistinct();
      result, reached := None, 0;
      for k := 0 to |order|
        invariant Valid() && reached == k && result.None?
        invariant forall i :: 0 <= i < |entries| ==> entries[i].totalInflight == old(entries[i].totalInflight)
        invariant forall i: nat :: i < |entries| && i !in order[..k] ==> entries[i].history == checked[i]
        invariant forall j :: 0 <= j < k ==>
          PassedOver(checked[order[j]], entries[order[j]].history, entries[order[j]].settings, answers[order[j]])
      {
        var i := order[k];
        assert order[..k + 1] == order[..k] + [i];
        NotYetReached(order, k);
        ghost var asked;
        result, asked := Ask(i, answers[i]);
        reached := k + 1;
        if result.None? {
          AskedInVain(checked[i], entries[i].history, entries[i].settings, answers[i], asked);
        }
        if result.Some? {
          return;
        }
      }
    }
  }

  /** A check, and what a try records behind it. */
  lemma TurnIsRecorded(before: seq<Event>, at: int, told: seq<Event>, s: Settings, answer: Answer)
    ensures var after := before + [Checked(at)] + told;
      && (!AvailableAt(before, s, at) && told == [] ==> Skipped(before, after, s))
      && (AvailableAt(before, s, at) && RecordedAs(told, answer) ==> Attempted(before, after, s, answer))
  {
    hide AvailableAt, RecordedAs;
    var after := before + [Checked(at)] + told;
    assert after[..|before|] == before && after[|before| + 1..] == told;
    assert after[..|before| + 1][..|before|] == before;
  }

  lemma AskedInVain(before: seq<Event>, after: seq<Event>, s: Settings, answer: Answer, asked: bool)
    requires if asked then Attempted(before, after, s, answer) else Skipped(before, after, s)
    requires !asked || !answer.Text?
    ensures PassedOver(before, after, s, answer)
  {
  }

  lemma NotYetReached(order: seq<nat>, k: nat)
    requires NoDuplicates(order) && k < |order|
    ensures order[k] !in order[..k] && forall j :: 0 <= j < k ==> order[j] != order[k]
  {
  }

  lemma IncreasingIsDistinct(s: seq<nat>)
    requires forall i, j :: 0 <= i < j < |s| ==> s[i] < s[j]
    ensures NoDuplicates(s)
  {
  }

  lemma MarkedIsDistinct(flags: seq<bool>)
    ensures NoDuplicates(Marked(flags))
  {
    IncreasingIsDistinct(Marked(flags));
  }

  lemma NoCallsNoTurns(orders: seq<seq<nat>>, e: nat)
    requires orders == []
    ensures FirstCount(orders, e) == 0
  {
  }

  lemma PermutationInRange(a: seq<nat>, b: seq<nat>, n: nat)
    requires InRange(b, n) && forall x :: x in a <==> x in b
    ensures InRange(a, n)
  {
    forall k | 0 <= k < |a|
      ensures a[k] < n
    {
      assert a[k] in b;
    }
  }
}

/** The fan-out/fan-in protocol of agents/orchestrator.py: polling, retries, aggregation. */
module Orchestrator {
  import opened Numbers
  import opened RetryMarker
  import opened IssueTracker
  import opened Rebalancing

  datatype Config = Config(maxRetries: int, retryFailed: bool, extract: seq<string> -> string)
  {
    /** A done child whose comments hold a result. */
    predicate HasOutput(c: Child) {
      c.status == Done && extract(c.comments) != ""
    }

    /** A blocked child that gets no further retry. */
    predicate Exhausted(c: Child) {
      c.status == Blocked && !(retryFailed && HighestRetry(c.comments) < maxRetries)
    }
  }

  datatype Phase = Decompose | Poll | Aggregate

  /** What a heartbeat reports. */
  datatype Outcome = RunDirectly | Delegated | Waiting | Success | BlockedOut | Failure

  /** `_detect_phase`: everything follows from the children's statuses. */
  function DetectPhase(children: seq<Child>): (phase: Phase)
    ensures phase == Decompose <==> children == []
    ensures phase == Aggregate <==> children != [] && forall i :: 0 <= i < |children| ==> children[i].status == Done
  {
    if children == [] then Decompose
    else if forall c :: c in children ==> c.status == Done then Aggregate
    else Poll
  }

  /** `later` differs from `earlier` in child `i` at most. */
  ghost predicate OnlyChild(i: nat, earlier: seq<Child>, later: seq<Child>) {
    && |later| == |earlier|
    && forall j :: 0 <= j < |earlier| && j != i ==> later[j] == earlier[j]
  }

  /** How a poll finds a child: the last four are blocked ones, by what became of the retry. */
  datatype Fate = Finished | Open | Unknown | GivenUp | ResetRaised | Reset

  /**
   * A child and the status it is left in have the fate; of a child with `Unknown` fate the comments
   * could not be read.
   */
  ghost predicate HasFate(config: Config, before: Child, after: Status, fate: Fate) {
    match fate
    case Finished => before.status == after == Done
    case Open => before.status == after && after !in {Done, Blocked}
    case Unknown => before.status == after == Blocked && config.retryFailed
    case GivenUp => config.Exhausted(before) && after == Blocked
    case ResetRaised => before.status == Blocked && !config.Exhausted(before) && after in {Blocked, Todo}
    case Reset => before.status == Blocked && !config.Exhausted(before) && after == Todo
  }

  /** Such a child counts as failed for good. */
  predicate CountsAsFailed(fate: Fate) {
    fate == GivenUp || fate == ResetRaised
  }

  /**
   * Resets a blocked child to todo and records it in a comment, unless its retries are used up.
   * False exactly when they are known to be, or when the reset raised.
   */
  method MaybeRetryChild(client: Tracker, i: nat, maxRetries: int) returns (retried: bool, ghost fate: Fate)
    requires client.Valid() && i < |client.children|
    modifies client`children, client`failures, client`resets, client`lost
    ensures client.Valid() && OnlyChild(i, old(client.children), client.children)
    ensures client.failures >= old(client.failures)
    ensures old(client.Exact()) ==> client.Exact()
    ensures old(client.Bounded(maxRetries)) ==> client.Bounded(maxRetries)
    ensures client.children[i] in {old(client.children[i]), old(client.children[i]).(status := Todo),
      Retried(old(client.children[i]))}
    ensures HighestRetry(old(client.children[i].comments)) >= maxRetries ==>
      client.children == old(client.children) && (retried ==> client.failures > old(client.failures))
    ensures client.failures == old(client.failures) && HighestRetry(old(client.children[i].comments)) < maxRetries ==>
      retried && client.children[i] == Retried(old(client.children[i]))
    ensures fate in {Unknown, GivenUp, ResetRaised, Reset} && (retried <==> !CountsAsFailed(fate))
    ensures fate == GivenUp ==> HighestRetry(old(client.children[i].comments)) >= maxRetries
    ensures fate in {ResetRaised, Reset} ==> HighestRetry(old(client.children[i].comments)) < maxRetries
    ensures fate in {Unknown, GivenUp} ==> client.children == old(client.children)
    ensures fate in {Unknown, ResetRaised} ==> client.failures > old(client.failures)
    ensures fate == Reset ==> client.children[i].status == Todo
  {
    hide HighestRetry, RetryComment;
    var ok, comments := client.GetComments(i);
    if !ok {
      return true, Unknown;
    }
    var count := CountRetries(comments);
    if count >= maxRetries {
      return false, GivenUp;
    }
    ghost var reset, marked;
    ok, reset := client.SetStatus(i, Todo);
    if reset {
      client.resets := client.resets[i := client.resets[i] + 1];
    }
    if !ok {
      if reset {
        client.lost := client.lost[i := client.lost[i] + 1];
      }
      return false, ResetRaised;
    }
    ok, marked := client.AddComment(i, RetryComment(count + 1));
    RetryRaisesCount(comments);
    if !marked {
      client.lost := client.lost[i := client.lost[i] + 1];
    }
    return true, Reset;
  }

  /** A raising reset makes a child count as failed though its retries are not used up, and may yet have reset it. */
  lemma FailedThoughNotExhausted(config: Config, c: Child)
    requires c.status == Blocked && !config.Exhausted(c)
    ensures HasFate(config, c, Todo, ResetRaised) && CountsAsFailed(ResetRaised)
  {
  }

  /** A child after a retry that the tracker recorded. */
  function Retried(c: Child): Child {
    c.(status := Todo, comments := c.comments + [RetryComment(HighestRetry(c.comments) + 1)])
  }

  /** `_extract_child_result`: empty when the comments cannot be fetched. */
  method ExtractChildResult(config: Config, client: Tracker, i: nat) returns (output: string)
    requires i < |client.children|
    modifies client`failures
    ensures client.failures >= old(client.failures)
    ensures output == config.extract(client.children[i].comments)
      || (output == "" && client.failures > old(client.failures))
  {
    var ok, comments := client.GetComments(i);
    output := if ok then config.extract(comments) else "";
  }

  /** How many of the done children yield an output. */
  method CollectOutputs(config: Config, client: Tracker) returns (sections: nat)
    modifies client`failures
    ensures client.failures >= old(client.failures)
    ensures sections > 0 ==> exists i :: 0 <= i < |client.children| && config.HasOutput(client.children[i])
    ensures sections <= |WithOutput(config, client.children)|
    ensures client.failures == old(client.failures) ==>
      && sections == |WithOutput(config, client.children)|
      && (sections > 0 <==> exists i :: 0 <= i < |client.children| && config.HasOutput(client.children[i]))
    ensures forall i :: 0 <= i < |client.children| ==> (config.HasOutput(client.children[i]) <==>
      client.children[i].status == Done && config.extract(client.children[i].comments) != "")
  {
    sections := 0;
    ghost var found: set<int> := {};
    for i := 0 to |client.children|
      invariant sections == |found| && forall j :: j in found ==> 0 <= j < i && config.HasOutput(client.children[j])
      invariant client.failures == old(client.failures) ==>
        forall j :: 0 <= j < i && config.HasOutput(client.children[j]) ==> j in found
      invariant client.failures >= old(client.failures)
      invariant sections > 0 ==> exists j :: 0 <= j < i && config.HasOutput(client.children[j])
      invariant client.failures == old(client.failures) && sections == 0 ==> forall j :: 0 <= j < i ==>
        !config.HasOutput(client.children[j])
    {
      if client.children[i].status == Done {
        var output := ExtractChildResult(config, client, i);
        if output != "" {
          sections := sections + 1;
          found := found + {i};
        }
      }
    }
    FewerOrAll(found, WithOutput(config, client.children));
  }

  /** The children that yield an output. */
  ghost function WithOutput(config: Config, children: seq<Child>): set<int> {
    set i | 0 <= i < |children| && config.HasOutput(children[i])
  }

  lemma FewerOrAll(found: set<int>, all: set<int>)
    requires found <= all
    ensures |found| <= |all|
    ensures all <= found ==> |found| == |all|
  {
    assert all == found + (all - found);
    if all <= found {
      assert found == all;
    }
  }

  /** What collecting the done children's outputs, without failures, makes of the parent. */
  ghost function Collected(config: Config, children: seq<Child>): Status {
    if exists i :: 0 <= i < |children| && config.HasOutput(children[i]) then Done else Blocked
  }

  /** What is reported once the parent is decided. */
  function Verdict(parent: Status): Outcome {
    if parent == Done then Success else BlockedOut
  }

  /** At most one comment more, about a result or about trouble. */
  ghost predicate MoreNotes(before: seq<Note>, after: seq<Note>) {
    after in {before, before + [ResultNote], before + [TroubleNote]}
  }

  lemma NothingNoted(notes: seq<Note>)
    ensures MoreNotes(notes, notes)
  {
  }

  lemma NotedAtMostOnce(before: seq<Note>, after: seq<Note>)
    requires MoreNotes(before, after)
    ensures after == before || exists note :: after == before + [note]
  {
  }

  /** The comment that goes with the decision. */
  function NoteFor(parent: Status): Note {
    if parent == Done then ResultNote else TroubleNote
  }

  /** `_aggregate_and_present`, on a parent that is already done a no-op. */
  method AggregateAndPresent(config: Config, client: Tracker) returns (outcome: Outcome)
    modifies client`parent, client`notes, client`failures
    ensures client.failures >= old(client.failures)
    ensures old(client.parent) == Done ==> client.parent == Done
    ensures client.parent in {old(client.parent), Done, Blocked}
    ensures client.parent == Done ==> old(client.parent) == Done || Collected(config, client.children) == Done
    ensures client.failures == old(client.failures) ==>
      && client.parent == (if old(client.parent) == Done then Done else Collected(config, client.children))
      && outcome == Verdict(client.parent)
      && client.notes == old(client.notes) + (if old(client.parent) == Done then [] else [NoteFor(client.parent)])
    ensures old(client.parent) == Done ==> client.notes == old(client.notes)
    ensures MoreNotes(old(client.notes), client.notes)
    ensures outcome == Success ==> client.parent == Done
    ensures outcome in {Success, BlockedOut, Failure}
  {
    if client.parent == Done {
      return Success;
    }
    outcome := AggregatePartial(config, client);
  }

  /** `_aggregate_with_partial_failures`; the full aggregation ends the same way. */
  method AggregatePartial(config: Config, client: Tracker) returns (outcome: Outcome)
    modifies client`parent, client`notes, client`failures
    ensures client.failures >= old(client.failures)
    ensures client.parent in {old(client.parent), Done, Blocked}
    ensures client.parent == Done ==> old(client.parent) == Done || Collected(config, client.children) == Done
    ensures client.failures == old(client.failures) ==>
      && client.parent == Collected(config, client.children) && outcome == Verdict(client.parent)
      && client.notes == old(client.notes) + [NoteFor(client.parent)]
    ensures MoreNotes(old(client.notes), client.notes)
    ensures outcome == Success ==> client.parent == Done
    ensures outcome in {Success, BlockedOut, Failure}
  {
    var sections := CollectOutputs(config, client);
    if sections == 0 {
      var _ := client.SetParent(Blocked, [TroubleNote]);
      return BlockedOut;
    }
    var ok := client.SetParent(Done, [ResultNote]);
    return if ok then Success else Failure;
  }

  /** A child the poll looked at: as it was, reset without a marker, or retried; only blocked children are touched. */
  ghost predicate Evaluated(before: Child, after: Child) {
    after == before || (before.status == Blocked && after in {before.(status := Todo), Retried(before)})
  }

  /** A child after a poll in which no call failed. */
  ghost function AfterPoll(config: Config, c: Child): Child {
    if c.status == Blocked && !config.Exhausted(c) then Retried(c) else c
  }

  /** Counts the children by fate, retrying the blocked ones. */
  method EvaluateChildren(config: Config, client: Tracker)
    returns (done: nat, pending: nat, failed: nat, ghost fates: seq<Fate>)
    requires client.Valid()
    modifies client`children, client`failures, client`resets, client`lost
    ensures client.Valid() && |client.children| == |old(client.children)|
    ensures client.failures >= old(client.failures)
    ensures old(client.Exact()) ==> client.Exact()
    ensures old(client.Bounded(config.maxRetries)) ==> client.Bounded(config.maxRetries)
    ensures forall i :: 0 <= i < |client.children| ==> Evaluated(old(client.children)[i], client.children[i])
    ensures done > 0 <==> exists i :: 0 <= i < |client.children| && old(client.children)[i].status == Done
    ensures done == |client.children| <==> pending + failed == 0
    ensures client.failures == old(client.failures) ==>
      && (forall i :: 0 <= i < |client.children| ==> client.children[i] == AfterPoll(config, old(client.children)[i]))
      && (failed > 0 <==> SomeExhausted(config, old(client.children)))
    ensures HaveFates(config, old(client.children), client.children, fates)
    ensures failed == multiset(fates)[GivenUp] + multiset(fates)[ResetRaised] && done == multiset(fates)[Finished]
    ensures client.failures == old(client.failures) ==> (pending > 0 <==> SomeOpen(config, old(client.children)))
  {
    hide *;
    done, pending, failed, fates := 0, 0, 0, [];
    ghost var before := client.children;
    NothingJudged(config, before);
    for i := 0 to |client.children|
      invariant client.Valid() && |client.children| == |before|
      invariant client.failures >= old(client.failures)
      invariant old(client.Exact()) ==> client.Exact()
      invariant old(client.Bounded(config.maxRetries)) ==> client.Bounded(config.maxRetries)
      invariant |fates| == i
        && JudgedUpTo(config, before, client.children, fates, client.failures == old(client.failures))
      invariant Tallied(fates, done, pending, failed)
    {
      ghost var fate, between, clean := Open, client.children, client.failures == old(client.failures);
      NotYetJudged(config, before, between, fates, clean, i);
      var status := client.children[i].status;
      if status == Done {
        done, fate := done + 1, Finished;
      } else if status == Blocked {
        var retried := false;
        fate := GivenUp;
        if config.retryFailed {
          retried, fate := MaybeRetryChild(client, i, config.maxRetries);
        }
        WhatCountsAsFailed(fate);
        if retried {
          pending := pending + 1;
        } else {
          failed := failed + 1;
        }
      } else {
        pending := pending + 1;
      }
      NothingElseTouched(i, between, client.children);
      JudgedChild(config, before[i], client.children[i], fate);
      OneMoreJudged(config, before, between, client.children, fates, clean,
                    client.failures == old(client.failures), fate);
      OneMoreTallied(fates, fate);
      fates := fates + [fate];
    }
    AllJudged(config, before, client.children, fates, client.failures == old(client.failures));
    FatesMeaning(config, before, client.children, fates);
    TallyMeaning(fates, done, pending, failed);
  }

  /** The children looked at so far have their fates, the others are as they were. */
  ghost predicate JudgedUpTo(config: Config, before: seq<Child>, after: seq<Child>, fates: seq<Fate>, clean: bool) {
    && |fates| <= |before| == |after|
    && (forall j :: 0 <= j < |fates| ==>
      HasFate(config, before[j], after[j].status, fates[j]) && Evaluated(before[j], after[j]))
    && (clean ==> forall j :: 0 <= j < |fates| ==>
      after[j] == AfterPoll(config, before[j]) && fates[j] !in {Unknown, ResetRaised})
    && forall j :: |fates| <= j < |before| ==> after[j] == before[j]
  }

  ghost predicate Tallied(fates: seq<Fate>, done: int, pending: int, failed: int) {
    var m := multiset(fates);
    && done == m[Finished] && failed == m[GivenUp] + m[ResetRaised] && pending == m[Open] + m[Unknown] + m[Reset]
    && done + pending + failed == |fates|
  }

  lemma NothingJudged(config: Config, before: seq<Child>)
    ensures JudgedUpTo(config, before, before, [], true) && Tallied([], 0, 0, 0)
  {
  }

  lemma NotYetJudged(config: Config, before: seq<Child>, after: seq<Child>, fates: seq<Fate>, clean: bool, i: nat)
    requires JudgedUpTo(config, before, after, fates, clean) && |fates| == i < |before|
    ensures after[i] == before[i]
  {
  }

  lemma WhatCountsAsFailed(fate: Fate)
    ensures CountsAsFailed(fate) <==> fate == GivenUp || fate == ResetRaised
  {
  }

  lemma NothingElseTouched(i: nat, between: seq<Child>, after: seq<Child>)
    requires after == between || OnlyChild(i, between, after)
    ensures |after| == |between| && forall j :: 0 <= j < |between| && j != i ==> after[j] == between[j]
  {
  }

  lemma OneMoreJudged(config: Config, before: seq<Child>, between: seq<Child>, after: seq<Child>, fates: seq<Fate>,
      wasClean: bool, clean: bool, fate: Fate)
    requires JudgedUpTo(config, before, between, fates, wasClean) && |fates| < |before|
    requires |after| == |between| && forall j :: 0 <= j < |between| && j != |fates| ==> after[j] == between[j]
    requires var i := |fates|; HasFate(config, before[i], after[i].status, fate) && Evaluated(before[i], after[i])
    requires clean ==>
      wasClean && fate !in {Unknown, ResetRaised} && after[|fates|] == AfterPoll(config, before[|fates|])
    ensures JudgedUpTo(config, before, after, fates + [fate], clean)
  {
    hide HasFate, Evaluated, AfterPoll;
  }

  lemma OneMoreTallied(fates: seq<Fate>, fate: Fate)
    ensures forall f :: multiset(fates + [fate])[f] == multiset(fates)[f] + if f == fate then 1 else 0
    ensures forall done, pending, failed :: Tallied(fates, done, pending, failed) ==>
      match fate
      case Finished => Tallied(fates + [fate], done + 1, pending, failed)
      case GivenUp => Tallied(fates + [fate], done, pending, failed + 1)
      case ResetRaised => Tallied(fates + [fate], done, pending, failed + 1)
      case _ => Tallied(fates + [fate], done, pending + 1, failed)
  {
  }

  lemma AllJudged(config: Config, before: seq<Child>, after: seq<Child>, fates: seq<Fate>, clean: bool)
    requires JudgedUpTo(config, before, after, fates, clean) && |fates| == |before|
    ensures HaveFates(config, before, after, fates)
    ensures forall i :: 0 <= i < |after| ==> Evaluated(before[i], after[i])
    ensures clean ==> forall i :: 0 <= i < |after| ==>
      after[i] == AfterPoll(config, before[i]) && fates[i] !in {Unknown, ResetRaised}
  {
    hide HasFate, Evaluated, AfterPoll;
  }

  lemma TallyMeaning(fates: seq<Fate>, done: int, pending: int, failed: int)
    requires Tallied(fates, done, pending, failed)
    ensures done == multiset(fates)[Finished] && failed == multiset(fates)[GivenUp] + multiset(fates)[ResetRaised]
    ensures done + pending + failed == |fates|
    ensures done > 0 <==> Finished in fates
    ensures failed > 0 <==> GivenUp in fates || ResetRaised in fates
    ensures pending > 0 <==> Open in fates || Unknown in fates || Reset in fates
  {
    var m := multiset(fates);
    assert forall f :: f in fates <==> f in m;
  }

  /** What the loop over the children knows of each. */
  lemma JudgedChild(config: Config, before: Child, after: Child, fate: Fate)
    requires fate in {Finished, Open, Unknown, GivenUp} ==> after == before
    requires fate in {ResetRaised, Reset} ==> after in {before, before.(status := Todo), Retried(before)}
    requires match before.status
      case Done => fate == Finished
      case Blocked =>
        if config.retryFailed then
          && fate in {Unknown, GivenUp, ResetRaised, Reset}
          && (fate == GivenUp ==> HighestRetry(before.comments) >= config.maxRetries)
          && (fate in {ResetRaised, Reset} ==> HighestRetry(before.comments) < config.maxRetries)
          && (fate == Reset ==> after.status == Todo)
        else fate == GivenUp
      case _ => fate == Open
    ensures HasFate(config, before, after.status, fate) && Evaluated(before, after)
    ensures fate !in {Unknown, ResetRaised} && (fate == Reset ==> after == Retried(before)) ==>
      after == AfterPoll(config, before)
  {
    hide HighestRetry, RetryComment;
  }

  lemma FatesMeaning(config: Config, before: seq<Child>, after: seq<Child>, fates: seq<Fate>)
    requires HaveFates(config, before, after, fates)
    ensures Finished in fates <==> exists i :: 0 <= i < |before| && before[i].status == Done
    ensures (forall i :: 0 <= i < |fates| ==> fates[i] !in {Unknown, ResetRaised}) ==>
      && (GivenUp in fates <==> SomeExhausted(config, before)) && ResetRaised !in fates
      && (Open in fates || Reset in fates <==> SomeOpen(config, before)) && Unknown !in fates
  {
    hide HighestRetry;
    if i :| 0 <= i < |before| && before[i].status == Done {
      assert fates[i] == Finished;
    }
    if i :| 0 <= i < |before| && config.Exhausted(before[i]) {
      assert fates[i] in {Unknown, GivenUp};
    }
    if i :| 0 <= i < |before| && before[i].status != Done && !config.Exhausted(before[i]) {
      assert fates[i] in {Open, Unknown, ResetRaised, Reset};
    }
  }

  ghost predicate HaveFates(config: Config, before: seq<Child>, after: seq<Child>, fates: seq<Fate>) {
    && |before| == |after| == |fates|
    && forall i :: 0 <= i < |before| ==> HasFate(config, before[i], after[i].status, fates[i])
  }

  ghost predicate SomeExhausted(config: Config, children: seq<Child>) {
    exists i :: 0 <= i < |children| && config.Exhausted(children[i])
  }

  ghost predicate SomeDone(children: seq<Child>) {
    exists i :: 0 <= i < |children| && children[i].status == Done
  }

  /** Some child is neither done nor given up. */
  ghost predicate SomeOpen(config: Config, children: seq<Child>) {
    exists i :: 0 <= i < |children| && children[i].status != Done && !config.Exhausted(children[i])
  }

  /** What rebalancing may do to a child: only a todo task changes, and its retry count does not drop. */
  ghost predicate Rebalanced(before: Child, after: Child) {
    || after == before
    || (&& before.status == after.status == Todo
        && HighestRetry(before.comments) <= HighestRetry(after.comments)
        && ('<' !in before.assignee ==> HighestRetry(after.comments) == HighestRetry(before.comments)))
  }

  lemma MovedIsRebalanced(snapshot: seq<Child>, i: nat, before: Child, after: Child)
    requires i < |snapshot| && MovedOrKept(snapshot, i, before, after)
    ensures Rebalanced(before, after)
  {
    hide Backlogged, IdleAgents, HighestRetry, RebalanceComment, Search;
    if after.comments == before.comments + [RebalanceComment(before.assignee)] {
      CommentsKeepCount(before.comments, [RebalanceComment(before.assignee)]);
      if '<' !in before.assignee {
        RebalanceIsNoRetry(before.assignee);
      }
    }
  }

  /** A round of evaluation and rebalancing leaves the done children alone and finishes none. */
  ghost predicate SameDone(before: seq<Child>, after: seq<Child>) {
    && |after| == |before|
    && forall i :: 0 <= i < |before| ==> after[i] == before[i] || (before[i].status != Done && after[i].status != Done)
  }

  lemma EvaluatedSameDone(before: seq<Child>, after: seq<Child>)
    requires |after| == |before| && forall i :: 0 <= i < |before| ==> Evaluated(before[i], after[i])
    ensures SameDone(before, after)
    ensures PlainIds(before) ==> PlainIds(after)
  {
  }

  lemma RebalancedSameDone(before: seq<Child>, after: seq<Child>)
    requires |after| == |before| && forall i :: 0 <= i < |before| ==> Rebalanced(before[i], after[i])
    ensures SameDone(before, after)
  {
  }

  lemma SameDoneCollectsSame(config: Config, before: seq<Child>, middle: seq<Child>, after: seq<Child>)
    requires SameDone(before, middle) && SameDone(middle, after)
    ensures Collected(config, after) == Collected(config, before)
    ensures (exists i :: 0 <= i < |after| && after[i].status == Done) <==>
      exists i :: 0 <= i < |before| && before[i].status == Done
  {
    if i :| 0 <= i < |before| && before[i].status == Done {
      assert after[i].status == Done;
    }
    if i :| 0 <= i < |before| && config.HasOutput(before[i]) {
      assert config.HasOutput(after[i]);
    }
  }

  /** Rebalancing keeps the retry accounts. */
  lemma RebalancedKeepsAccounts(before: seq<Child>, after: seq<Child>, resets: seq<nat>, lost: seq<nat>)
    requires |before| == |after| == |resets| == |lost| && forall i :: 0 <= i < |before| ==>
      Rebalanced(before[i], after[i])
    ensures forall i :: 0 <= i < |before| ==> HighestRetry(before[i].comments) <= HighestRetry(after[i].comments)
    ensures PlainIds(before) ==> forall i :: 0 <= i < |before| ==>
      HighestRetry(before[i].comments) == HighestRetry(after[i].comments)
  {
    hide HighestRetry;
  }

  /** Rebalances when somebody is done and somebody is not, if the agents can be listed. */
  method MaybeRebalance(client: Tracker, snapshot: seq<Child>, agents: bool) returns (ghost listed: bool)
    requires client.Valid() && |snapshot| == |client.children|
    requires forall i :: 0 <= i < |snapshot| ==> Evaluated(snapshot[i], client.children[i])
    modifies client`children, client`failures
    ensures client.Valid() && |client.children| == |snapshot|
    ensures client.failures >= old(client.failures)
    ensures forall i :: 0 <= i < |snapshot| ==> Rebalanced(old(client.children)[i], client.children[i])
    ensures old(client.Exact() && PlainIds(client.children)) ==> client.Exact() && PlainIds(client.children)
    ensures forall maxRetries :: old(client.Bounded(maxRetries)) ==> client.Bounded(maxRetries)
    ensures client.failures == old(client.failures) ==>
      if agents then QuietlyRebalanced(snapshot, old(client.children), client.children)
      else client.children == old(client.children)
    ensures !listed ==> client.children == old(client.children)
  {
    hide HighestRetry, Replay, Queue, IsOrderOf, Complete, Rebalanced, PlainIds, MovedTasks, CountedIn, AfterQuiet;
    AllRebalancedTrivially(client.children);
    var ok, anyAgents := client.ListAgents(agents);
    listed := ok;
    if ok && anyAgents {
      ghost var before := client.children;
      EvaluatedStillTodo(snapshot, before);
      var _, idle, attempts := RebalanceChildren(client, snapshot);
      ReplayRebalances(snapshot, before, idle, attempts);
      RebalancedKeepsAccounts(before, client.children, client.resets, client.lost);
      if client.failures == old(client.failures) {
        QuietOutcome(snapshot, before, idle, attempts);
      }
    }
  }

  /** Without failing calls: tasks were given to the idle agents, in some order of these. */
  ghost predicate QuietlyRebalanced(snapshot: seq<Child>, before: seq<Child>, after: seq<Child>)
    requires |before| == |snapshot|
  {
    exists idle :: IsOrderOf(idle, IdleAgents(snapshot)) && after == AfterQuiet(snapshot, before, idle)
  }

  lemma AllRebalancedTrivially(children: seq<Child>)
    ensures forall i :: 0 <= i < |children| ==> Rebalanced(children[i], children[i])
  {
  }

  lemma EvaluatedStillTodo(snapshot: seq<Child>, now: seq<Child>)
    requires |now| == |snapshot| && forall i :: 0 <= i < |snapshot| ==> Evaluated(snapshot[i], now[i])
    ensures StillTodo(snapshot, now) && SameAssignees(snapshot, now)
  {
  }

  ghost predicate SameAssignees(snapshot: seq<Child>, now: seq<Child>) {
    |now| == |snapshot| && forall i :: 0 <= i < |snapshot| ==> now[i].assignee == snapshot[i].assignee
  }

  /** Whatever fails, moves touch todo tasks only, and hand them to agents of the list. */
  lemma ReplayRebalances(snapshot: seq<Child>, now: seq<Child>, idle: seq<string>, attempts: seq<Attempt>)
    requires StillTodo(snapshot, now) && SameAssignees(snapshot, now) && IsOrderOf(idle, IdleAgents(snapshot))
    requires Complete(attempts, Queue(snapshot), idle)
    ensures var after := Replay(now, Queue(snapshot), idle, attempts);
      && (forall i :: 0 <= i < |now| ==> Rebalanced(now[i], after[i]))
      && (PlainIds(now) ==> PlainIds(after))
  {
    hide MovedOrKept, HighestRetry, Replay, Queue, IsOrderOf, Rebalanced;
    EachMovedOrKept(snapshot, now, idle, attempts);
    var after := Replay(now, Queue(snapshot), idle, attempts);
    forall i: nat | i < |now|
      ensures Rebalanced(now[i], after[i])
      ensures PlainIds(now) ==> '<' !in after[i].assignee
    {
      MovedIsRebalanced(snapshot, i, now[i], after[i]);
      if PlainIds(now) {
        MovedIsPlain(snapshot, now, i, after[i]);
      }
    }
  }

  lemma MovedIsPlain(snapshot: seq<Child>, now: seq<Child>, i: nat, after: Child)
    requires i < |snapshot| && SameAssignees(snapshot, now) && PlainIds(now)
    requires MovedOrKept(snapshot, i, now[i], after)
    ensures '<' !in after.assignee
  {
    hide Backlogged, Load;
    if after != now[i] {
      var c :| c in snapshot && c.assignee == after.assignee;
      var j :| 0 <= j < |snapshot| && snapshot[j] == c;
      assert '<' !in now[j].assignee;
    }
  }

  /** The decision both polling loops end in once a child has failed for good. */
  method ResolveFailed(config: Config, client: Tracker, done: nat) returns (outcome: Outcome)
    requires done > 0 <==> exists i :: 0 <= i < |client.children| && client.children[i].status == Done
    modifies client`parent, client`notes, client`failures
    ensures client.failures >= old(client.failures)
    ensures client.parent in {old(client.parent), Done, Blocked}
    ensures client.parent == Done ==> old(client.parent) == Done || Collected(config, client.children) == Done
    ensures client.failures == old(client.failures) ==>
      && client.parent == Collected(config, client.children) && outcome == Verdict(client.parent)
      && client.notes == old(client.notes) + [NoteFor(client.parent)]
    ensures MoreNotes(old(client.notes), client.notes)
    ensures outcome == Success ==> client.parent == Done
    ensures outcome in {Success, BlockedOut, Failure}
  {
    if done > 0 {
      outcome := AggregatePartial(config, client);
    } else {
      var _ := client.SetParent(Blocked, [TroubleNote]);
      outcome := BlockedOut;
    }
  }

  /** Evaluation without failures and rebalancing together are a poll. */
  lemma PolledAll(config: Config, before: seq<Child>, evaluated: seq<Child>, after: seq<Child>)
    requires |before| == |evaluated| == |after|
    requires forall i :: 0 <= i < |before| ==>
      evaluated[i] == AfterPoll(config, before[i]) && Rebalanced(evaluated[i], after[i])
    ensures forall i :: 0 <= i < |before| ==> PolledTo(config, before[i], after[i])
  {
    hide AfterPoll, HighestRetry;
  }

  /** The children after an evaluation in which no call failed. */
  ghost function AllAfterPoll(config: Config, children: seq<Child>): (after: seq<Child>)
    ensures |after| == |children| && forall i :: 0 <= i < |after| ==> after[i] == AfterPoll(config, children[i])
  {
    seq(|children|, i requires 0 <= i < |children| => AfterPoll(config, children[i]))
  }

  /**
   * The boards a round of polling can leave when no call fails: rebalanced when there are agents, some
   * child is done and some other one is left.
   */
  ghost predicate PollLeaves(config: Config, agents: bool, before: seq<Child>, after: seq<Child>) {
    if agents && SomeDone(before) && SomeOpen(config, before) then
      QuietlyRebalanced(before, AllAfterPoll(config, before), after)
    else after == AllAfterPoll(config, before)
  }

  /** Then two tasks change hands, or one for a lone idle agent, if anybody is backlogged, and none otherwise. */
  lemma PollMovesTasks(config: Config, agents: bool, before: seq<Child>, after: seq<Child>)
    requires PollLeaves(config, agents, before, after)
    ensures |after| == |before|
    ensures |MovedTasks(AllAfterPoll(config, before), after)| ==
      if agents && exists a :: Backlogged(before, a) then Least(2, |IdleAgents(before)|) else 0
  {
    hide AfterPoll, MovedTasks, AfterQuiet, IdleAgents, Load, IsOrderOf;
    var now := AllAfterPoll(config, before);
    NothingMoved(now);
    PolledStillTodo(config, before);
    if agents && SomeDone(before) && SomeOpen(config, before) {
      var idle :| IsOrderOf(idle, IdleAgents(before)) && after == AfterQuiet(before, now, idle);
      QuietMoves(before, now, idle);
    } else {
      IdleHaveDone(before);
      BackloggedIsOpen(config, before);
      assert MovedTasks(now, after) == {};
    }
  }

  lemma NothingMoved(children: seq<Child>)
    ensures MovedTasks(children, children) == {}
  {
  }

  lemma PolledStillTodo(config: Config, before: seq<Child>)
    ensures StillTodo(before, AllAfterPoll(config, before))
  {
    hide HighestRetry, RetryComment;
  }

  lemma IdleHaveDone(children: seq<Child>)
    ensures IdleAgents(children) != {} ==> SomeDone(children)
    ensures !SomeDone(children) ==> |IdleAgents(children)| == 0
  {
    if a :| a in IdleAgents(children) {
      var c :| c in children && c.status == Done;
      var i :| 0 <= i < |children| && children[i] == c;
    }
  }

  lemma BackloggedIsOpen(config: Config, children: seq<Child>)
    ensures (exists a :: Backlogged(children, a)) ==> SomeOpen(config, children)
  {
    hide HighestRetry;
    if a :| Backlogged(children, a) {
      var i := SomeTask(children, a);
      assert children[i].status != Done && !config.Exhausted(children[i]);
    }
  }

  lemma {:induction false} SomeTask(children: seq<Child>, agent: string) returns (i: nat)
    requires Load(children, agent) > 0
    ensures i < |children| && children[i].status == Todo && children[i].assignee == agent
  {
    var last := |children| - 1;
    if children[last].status == Todo && children[last].assignee == agent {
      i := last;
    } else {
      i := SomeTask(children[..last], agent);
    }
  }

  /** Evaluates the children and rebalances among those that are left. */
  method PollRound(config: Config, client: Tracker, agents: bool)
    returns (done: nat, pending: nat, failed: nat, ghost fates: seq<Fate>)
    requires client.Valid()
    modifies client`children, client`failures, client`resets, client`lost
    ensures client.Valid() && client.failures >= old(client.failures)
    ensures old(client.Exact() && PlainIds(client.children)) ==> client.Exact() && PlainIds(client.children)
    ensures old(client.Bounded(config.maxRetries)) ==> client.Bounded(config.maxRetries)
    ensures |client.children| == |old(client.children)| && SameDone(old(client.children), client.children)
    ensures done > 0 <==> exists i :: 0 <= i < |client.children| && client.children[i].status == Done
    ensures Collected(config, client.children) == Collected(config, old(client.children))
    ensures HaveFates(config, old(client.children), client.children, fates)
    ensures failed > 0 <==> exists fate :: fate in fates && CountsAsFailed(fate)
    ensures client.failures == old(client.failures) ==>
      && PollLeaves(config, agents, old(client.children), client.children)
      && |MovedTasks(AllAfterPoll(config, old(client.children)), client.children)| ==
         (if agents && exists a :: Backlogged(old(client.children), a)
          then Least(2, |IdleAgents(old(client.children))|) else 0)
      && (forall i :: 0 <= i < |client.children| ==> PolledTo(config, old(client.children)[i], client.children[i]))
      && (failed > 0 <==> SomeExhausted(config, old(client.children)))
      && (pending > 0 <==> SomeOpen(config, old(client.children)))
  {
    hide Tracker.Exact, Tracker.Bounded, AfterPoll, Rebalanced, Collected, SameDone, PlainIds, Evaluated, PolledTo,
      QuietlyRebalanced, HaveFates, SomeExhausted, SomeOpen, SomeDone, CountsAsFailed, PollLeaves, MovedTasks,
      IdleAgents, Backlogged;
    var snapshot := client.children;
    done, pending, failed, fates := EvaluateChildren(config, client);
    FailedMeaning(fates, failed);
    ghost var evaluated := client.children;
    EvaluatedSameDone(snapshot, evaluated);
    AllRebalancedTrivially(evaluated);
    if pending > 0 && done > 0 {
      var _ := MaybeRebalance(client, snapshot, agents);
    }
    RebalancedSameDone(evaluated, client.children);
    SameDoneTwice(snapshot, evaluated, client.children);
    SameDoneCollectsSame(config, snapshot, evaluated, client.children);
    RebalancedKeepsFates(config, snapshot, evaluated, client.children, fates);
    if client.failures == old(client.failures) {
      PolledAll(config, snapshot, evaluated, client.children);
      assert evaluated == AllAfterPoll(config, snapshot);
      PollEnds(config, agents, snapshot, client.children, done > 0, pending > 0);
      PollMovesTasks(config, agents, snapshot, client.children);
    }
  }

  lemma PollEnds(config: Config, agents: bool, before: seq<Child>, after: seq<Child>, done: bool, pending: bool)
    requires done <==> exists i :: 0 <= i < |before| && before[i].status == Done
    requires pending <==> SomeOpen(config, before)
    requires if agents && pending && done then QuietlyRebalanced(before, AllAfterPoll(config, before), after)
      else after == AllAfterPoll(config, before)
    ensures PollLeaves(config, agents, before, after)
  {
    hide QuietlyRebalanced, SomeOpen;
  }

  lemma FailedMeaning(fates: seq<Fate>, failed: nat)
    requires failed == multiset(fates)[GivenUp] + multiset(fates)[ResetRaised]
    ensures failed > 0 <==> exists fate :: fate in fates && CountsAsFailed(fate)
  {
    assert CountsAsFailed(GivenUp) && CountsAsFailed(ResetRaised);
    assert GivenUp in multiset(fates) <==> GivenUp in fates;
    assert ResetRaised in multiset(fates) <==> ResetRaised in fates;
  }

  lemma SameDoneTwice(before: seq<Child>, middle: seq<Child>, after: seq<Child>)
    requires SameDone(before, middle) && SameDone(middle, after)
    ensures SameDone(before, after)
  {
  }

  /** Rebalancing changes no status. */
  lemma RebalancedKeepsFates(config: Config, before: seq<Child>, middle: seq<Child>, after: seq<Child>,
      fates: seq<Fate>)
    requires HaveFates(config, before, middle, fates) && |after| == |middle|
    requires forall i :: 0 <= i < |middle| ==> Rebalanced(middle[i], after[i])
    ensures HaveFates(config, before, after, fates)
  {
    hide HighestRetry;
  }

  /**
   * `_poll_children_once`; at most `rounds` wake-ups over the web socket before its deadline, 0 without a
   * socket. `polled` is the tracker when these begin, `wakes` it before and after each of them.
   */
  method PollChildren(config: Config, client: Tracker, agents: bool, rounds: nat, markers: bool)
    returns (outcome: Outcome, ghost fates: seq<Fate>, ghost polled: Board, ghost wakes: seq<(Board, Board)>)
    requires client.Valid() && DetectPhase(client.children) == Poll
    modifies client
    ensures client.Valid() && client.failures >= old(client.failures)
    ensures !markers && old(client.Exact() && PlainIds(client.children)) ==>
      client.Exact() && PlainIds(client.children)
    ensures old(client.Bounded(config.maxRetries)) ==> client.Bounded(config.maxRetries)
    ensures client.parent in {old(client.parent), Done, Blocked}
    ensures client.parent == Done ==> old(client.parent) == Done || Collected(config, client.children) == Done
    ensures outcome == Success ==> client.parent == Done
    ensures |wakes| <= rounds && HaveFates(config, old(client.children), polled.children, fates)
    ensures if exists fate :: fate in fates && CountsAsFailed(fate) then
        outcome != Waiting && wakes == [] && polled == Board(client.children, client.parent)
      else
        polled.parent == old(client.parent)
        && (rounds == 0 ==> outcome == Waiting && polled == Board(client.children, client.parent))
    ensures client.failures == old(client.failures) ==>
      var h := Heartbeat(Board(old(client.children), old(client.parent)), polled, wakes);
      && HeartbeatRun(config, h) && h.After() == Board(client.children, client.parent)
      && PollLeaves(config, agents, old(client.children), polled.children)
      && |MovedTasks(AllAfterPoll(config, old(client.children)), polled.children)| ==
         (if agents && exists a :: Backlogged(old(client.children), a)
          then Least(2, |IdleAgents(old(client.children))|) else 0)
      && outcome == ReportOf(config, h) && WaitsThrough(config, h, rounds)
      && (old(client.parent) != Done ==>
        client.notes == old(client.notes) + if outcome == Waiting then [] else [NoteFor(client.parent)])
    ensures MoreNotes(old(client.notes), client.notes) && (outcome == Waiting ==> client.notes == old(client.notes))
    ensures outcome in {Waiting, Success, BlockedOut, Failure}
  {
    hide *;
    NothingNoted(client.notes);
    ghost var before := Board(client.children, client.parent);
    wakes := [];
    var done, pending, failed;
    done, pending, failed, fates := PollRound(config, client, agents);
    if failed > 0 {
      outcome := ResolveFailed(config, client, done);
      polled := Board(client.children, client.parent);
      if client.failures == old(client.failures) {
        PollWithoutWakes(config, before, polled);
        PollReports(config, before, polled, wakes);
        WaitedThrough(config, Heartbeat(before, polled, wakes), rounds);
      }
      return;
    }
    polled := Board(client.children, client.parent);
    if client.failures == old(client.failures) {
      PollWithoutWakes(config, before, polled);
      PollReports(config, before, polled, wakes);
    }
    outcome := Waiting;
    if rounds > 0 && pending > 0 {
      var resolved;
      resolved, outcome, wakes := WsWaitForChildren(config, client, rounds, markers);
      if !resolved {
        outcome := Waiting;
      }
      if client.failures == old(client.failures) {
        PollWithWakes(config, before, polled, wakes);
        PollReports(config, before, polled, wakes);
      }
    }
    if client.failures == old(client.failures) {
      OpenMeansPending(config, before);
      WaitedThrough(config, Heartbeat(before, polled, wakes), rounds);
    }
  }

  /** A round of polling and the decision it leads to are a heartbeat, which more wake-ups may follow. */
  lemma PollWithoutWakes(config: Config, before: Board, polled: Board)
    requires DetectPhase(before.children) == Poll && |polled.children| == |before.children|
    requires forall i :: 0 <= i < |before.children| ==> PolledTo(config, before.children[i], polled.children[i])
    requires polled.parent ==
      if SomeExhausted(config, before.children) then Collected(config, before.children) else before.parent
    ensures HeartbeatStep(config, before, polled)
    ensures HeartbeatRun(config, Heartbeat(before, polled, [])) && Heartbeat(before, polled, []).After() == polled
    ensures !SomeExhausted(config, before.children) <==> GoesOn(config, before)
  {
    hide PolledTo, SomeExhausted, Collected;
  }

  /** While children are left to do and none is given up, no wake-up is left out. */
  ghost predicate WaitsThrough(config: Config, h: Heartbeat, rounds: nat) {
    GoesOn(config, h.before) && StillAwake(config, h.wakes) ==> |h.wakes| == rounds
  }

  lemma OpenMeansPending(config: Config, board: Board)
    ensures GoesOn(config, board) ==> SomeOpen(config, board.children)
  {
    hide HighestRetry;
    if GoesOn(config, board) {
      var i :| 0 <= i < |board.children| && board.children[i].status != Done;
      assert !config.Exhausted(board.children[i]);
    }
  }

  lemma WaitedThrough(config: Config, h: Heartbeat, rounds: nat)
    requires GoesOn(config, h.before) ==> |h.wakes| == rounds || !StillAwake(config, h.wakes)
    ensures WaitsThrough(config, h, rounds)
  {
  }

  /** What a poll reports: it waits as long as children are left to do and none is given up. */
  ghost function ReportOf(config: Config, h: Heartbeat): Outcome {
    if GoesOn(config, h.before) && StillAwake(config, h.wakes) then Waiting else Verdict(h.After().parent)
  }

  lemma PollReports(config: Config, before: Board, polled: Board, wakes: seq<(Board, Board)>)
    requires DetectPhase(before.children) == Poll && (wakes != [] ==> !SomeExhausted(config, before.children))
    ensures var report := ReportOf(config, Heartbeat(before, polled, wakes));
      && (SomeExhausted(config, before.children) ==> report == Verdict(Last(polled, wakes).parent))
      && (!SomeExhausted(config, before.children) && StillAwake(config, wakes) ==> report == Waiting)
      && (!StillAwake(config, wakes) ==> report == Verdict(Last(polled, wakes).parent))
    ensures StillAwake(config, []) && Last(polled, []) == polled
  {
    hide SomeExhausted;
  }

  lemma PollWithWakes(config: Config, before: Board, polled: Board, wakes: seq<(Board, Board)>)
    requires HeartbeatStep(config, before, polled) && GoesOn(config, before) && Woken(config, polled, wakes)
    ensures HeartbeatRun(config, Heartbeat(before, polled, wakes))
    ensures Heartbeat(before, polled, wakes).After() == Last(polled, wakes)
  {
    hide Woken, HeartbeatStep, GoesOn;
  }

  /** `_ws_wait_for_children`: workers act, then the children are read and evaluated again. */
  method WsWaitForChildren(config: Config, client: Tracker, rounds: nat, markers: bool)
    returns (resolved: bool, outcome: Outcome, ghost wakes: seq<(Board, Board)>)
    requires client.Valid()
    modifies client
    ensures client.Valid() && client.failures >= old(client.failures)
    ensures !markers && old(client.Exact() && PlainIds(client.children)) ==>
      client.Exact() && PlainIds(client.children)
    ensures old(client.Bounded(config.maxRetries)) ==> client.Bounded(config.maxRetries)
    ensures client.parent in {old(client.parent), Done, Blocked}
    ensures client.parent == Done ==> old(client.parent) == Done || Collected(config, client.children) == Done
    ensures outcome == Success ==> client.parent == Done
    ensures !resolved ==> client.parent == old(client.parent)
    ensures |wakes| <= rounds
    ensures client.failures == old(client.failures) ==>
      && Woken(config, Board(old(client.children), old(client.parent)), wakes)
      && Last(Board(old(client.children), old(client.parent)), wakes) == Board(client.children, client.parent)
      && (if resolved then !StillAwake(config, wakes) && outcome == Verdict(client.parent)
          else |wakes| == rounds && StillAwake(config, wakes))
    ensures MoreNotes(old(client.notes), client.notes) && (!resolved ==> client.notes == old(client.notes))
    ensures resolved && client.failures == old(client.failures) && old(client.parent) != Done ==>
      client.notes == old(client.notes) + [NoteFor(client.parent)]
    ensures resolved ==> outcome in {Success, BlockedOut, Failure}
  {
    hide *;
    resolved, outcome, wakes := false, Waiting, [];
    NothingNoted(client.notes);
    ghost var start := Board(client.children, client.parent);
    NothingWoken(config, start);
    for round := 0 to rounds
      invariant client.Valid() && client.failures >= old(client.failures)
      invariant !markers && old(client.Exact() && PlainIds(client.children)) ==>
        client.Exact() && PlainIds(client.children)
      invariant old(client.Bounded(config.maxRetries)) ==> client.Bounded(config.maxRetries)
      invariant client.parent == old(client.parent) && |wakes| <= round && !resolved && outcome == Waiting
      invariant client.notes == old(client.notes)
      invariant client.failures == old(client.failures) ==>
        && |wakes| == round && Woken(config, start, wakes) && StillAwake(config, wakes)
        && Last(start, wakes) == Board(client.children, client.parent)
    {
      client.WorkersAct(markers);
      ghost var before := Board(client.children, client.parent);
      var ok, children := client.GetChildren();
      if !ok {
        continue;
      }
      resolved, outcome := EvaluateWake(config, client, children);
      if client.failures == old(client.failures) {
        OneMoreWake(config, start, wakes, before, Board(client.children, client.parent));
      }
      wakes := wakes + [(before, Board(client.children, client.parent))];
      if resolved {
        return;
      }
    }
  }

  /** The children just read: aggregated when all are done, evaluated otherwise. */
  method EvaluateWake(config: Config, client: Tracker, children: seq<Child>) returns (resolved: bool, outcome: Outcome)
    requires client.Valid() && children == client.children
    modifies client
    ensures client.Valid() && client.failures >= old(client.failures) && |client.children| == |old(client.children)|
    ensures old(client.Exact() && PlainIds(client.children)) ==> client.Exact() && PlainIds(client.children)
    ensures old(client.Bounded(config.maxRetries)) ==> client.Bounded(config.maxRetries)
    ensures client.parent in {old(client.parent), Done, Blocked}
    ensures client.parent == Done ==> old(client.parent) == Done || Collected(config, client.children) == Done
    ensures outcome == Success ==> client.parent == Done
    ensures !resolved ==> client.parent == old(client.parent) && outcome == Waiting
    ensures client.failures == old(client.failures) ==>
      var before := Board(old(client.children), old(client.parent));
      && WakeStep(config, before, Board(client.children, client.parent)) && (!resolved <==> GoesOn(config, before))
      && (resolved ==> outcome == Verdict(client.parent))
      && client.notes == old(client.notes) +
         (if !resolved || (old(client.parent) == Done && DetectPhase(children) != Poll) then []
          else [NoteFor(client.parent)])
    ensures MoreNotes(old(client.notes), client.notes) && (!resolved ==> client.notes == old(client.notes))
    ensures resolved ==> outcome in {Success, BlockedOut, Failure}
  {
    hide *;
    NothingNoted(client.notes);
    ghost var before := Board(client.children, client.parent);
    WhenToPoll(children);
    resolved, outcome := true, Waiting;
    if DetectPhase(children) == Aggregate {
      outcome := AggregateAndPresent(config, client);
    } else {
      var done, pending, failed, _ := EvaluateChildren(config, client);
      EvaluatedSameDone(children, client.children);
      SameDoneCollectsSame(config, children, client.children, client.children);
      if failed > 0 {
        outcome := ResolveFailed(config, client, done);
      } else if forall c :: c in children ==> c.status == Done {
        outcome := AggregateAndPresent(config, client);
      } else {
        resolved := false;
      }
    }
    if client.failures == old(client.failures) {
      if DetectPhase(children) == Poll {
        EvaluatedWake(config, before, Board(client.children, client.parent));
      } else {
        AggregatedWake(config, before, Board(client.children, client.parent));
      }
    }
  }

  /** One wake-up in which no call failed: without children left to do they are aggregated, otherwise evaluated. */
  ghost predicate WakeStep(config: Config, before: Board, after: Board) {
    if DetectPhase(before.children) == Poll then
      && after.children == AllAfterPoll(config, before.children)
      && after.parent == if SomeExhausted(config, before.children) then Collected(config, before.children)
        else before.parent
    else after == before.(parent := if before.parent == Done then Done else Collected(config, before.children))
  }

  /** Children are left to do and none is given up, so that the waiting goes on. */
  ghost predicate GoesOn(config: Config, board: Board) {
    DetectPhase(board.children) == Poll && !SomeExhausted(config, board.children)
  }

  function Last(start: Board, wakes: seq<(Board, Board)>): Board {
    if wakes == [] then start else wakes[|wakes| - 1].1
  }

  ghost predicate StillAwake(config: Config, wakes: seq<(Board, Board)>) {
    forall k :: 0 <= k < |wakes| ==> GoesOn(config, wakes[k].0)
  }

  /** Wake-ups in which no call failed, with workers acting before each, until one ends the waiting. */
  ghost predicate Woken(config: Config, start: Board, wakes: seq<(Board, Board)>) {
    wakes == [] ||
    (var last := |wakes| - 1;
     && Woken(config, start, wakes[..last]) && StillAwake(config, wakes[..last])
     && wakes[last].0.parent == Last(start, wakes[..last]).parent
     && |wakes[last].0.children| == |Last(start, wakes[..last]).children|
     && WakeStep(config, wakes[last].0, wakes[last].1))
  }

  lemma WhenToPoll(children: seq<Child>)
    ensures DetectPhase(children) == Poll <==> !forall c :: c in children ==> c.status == Done
    ensures DetectPhase(children) == Decompose <==> children == []
  {
  }

  lemma EvaluatedWake(config: Config, before: Board, after: Board)
    requires DetectPhase(before.children) == Poll && |after.children| == |before.children|
    requires forall i :: 0 <= i < |before.children| ==> after.children[i] == AfterPoll(config, before.children[i])
    requires after.parent ==
      if SomeExhausted(config, before.children) then Collected(config, before.children) else before.parent
    ensures WakeStep(config, before, after)
    ensures !SomeExhausted(config, before.children) <==> GoesOn(config, before)
  {
    hide AfterPoll, SomeExhausted, Collected;
    assert after.children == AllAfterPoll(config, before.children);
  }

  lemma AggregatedWake(config: Config, before: Board, after: Board)
    requires DetectPhase(before.children) != Poll
    requires after == before.(parent := if before.parent == Done then Done else Collected(config, before.children))
    ensures WakeStep(config, before, after) && !GoesOn(config, before)
  {
  }

  lemma NothingWoken(config: Config, start: Board)
    ensures Woken(config, start, []) && StillAwake(config, []) && Last(start, []) == start
  {
  }

  lemma OneMoreWake(config: Config, start: Board, wakes: seq<(Board, Board)>, before: Board, after: Board)
    requires Woken(config, start, wakes) && StillAwake(config, wakes) && WakeStep(config, before, after)
    requires before.parent == Last(start, wakes).parent && |before.children| == |Last(start, wakes).children|
    ensures Woken(config, start, wakes + [(before, after)]) && Last(start, wakes + [(before, after)]) == after
    ensures GoesOn(config, before) <==> StillAwake(config, wakes + [(before, after)])
  {
    hide GoesOn, WakeStep;
    assert (wakes + [(before, after)])[..|wakes|] == wakes;
  }

  /** A heartbeat: the board it finds, the board after its phase was handled, and the wake-ups that followed a poll. */
  datatype Heartbeat = Heartbeat(before: Board, polled: Board, wakes: seq<(Board, Board)>)
  {
    function After(): Board {
      Last(polled, wakes)
    }
  }

  /** A heartbeat in which no call failed. */
  ghost predicate HeartbeatRun(config: Config, h: Heartbeat) {
    && HeartbeatStep(config, h.before, h.polled)
    && (h.wakes != [] ==> GoesOn(config, h.before))
    && Woken(config, h.polled, h.wakes)
  }

  /** The tracker's state between calls. */
  datatype Board = Board(children: seq<Child>, parent: Status)

  /** One heartbeat in which no call failed, up to the wake-ups over a socket. */
  ghost predicate HeartbeatStep(config: Config, before: Board, after: Board) {
    match DetectPhase(before.children)
    case Decompose => true
    case Aggregate =>
      after == before.(parent := if before.parent == Done then Done else Collected(config, before.children))
    case Poll =>
      && |after.children| == |before.children|
      && (forall i :: 0 <= i < |before.children| ==> PolledTo(config, before.children[i], after.children[i]))
      && after.parent == if SomeExhausted(config, before.children) then Collected(config, before.children)
        else before.parent
  }

  /** A child after a poll without failures, up to rebalancing. */
  ghost predicate PolledTo(config: Config, before: Child, after: Child) {
    && after.status == AfterPoll(config, before).status
    && HighestRetry(after.comments) >= HighestRetry(AfterPoll(config, before).comments)
  }

  /** A child to be created: the agent matched to its task type, if any, and the status the tracker starts it in. */
  datatype Planned = Planned(assignee: string, status: Status)

  ghost predicate PlainPlan(plan: seq<Planned>) {
    forall i :: 0 <= i < |plan| ==> '<' !in plan[i].assignee
  }

  /** The children created for a plan: for some positions in order, as planned and without comments. */
  ghost predicate CreatedFrom(plan: seq<Planned>, children: seq<Child>) {
    if children == [] then true
    else
      var last := children[|children| - 1];
      exists k :: (
        && 0 <= k < |plan| && last == Child(plan[k].status, plan[k].assignee, [])
        && CreatedFrom(plan[..k], children[..|children| - 1]))
  }

  lemma {:induction false} CreatedFromMore(plan: seq<Planned>, k: nat, children: seq<Child>)
    requires k <= |plan| && CreatedFrom(plan[..k], children)
    ensures CreatedFrom(plan, children)
  {
    if children != [] {
      var last := children[|children| - 1];
      var j :| 0 <= j < k && last == Child(plan[..k][j].status, plan[..k][j].assignee, [])
        && CreatedFrom(plan[..k][..j], children[..|children| - 1]);
      assert plan[..k][..j] == plan[..j];
    }
  }

  lemma CreatedNext(plan: seq<Planned>, k: nat, children: seq<Child>)
    requires k < |plan| && CreatedFrom(plan[..k], children)
    ensures CreatedFrom(plan[..k + 1], children)
    ensures CreatedFrom(plan[..k + 1], children + [Child(plan[k].status, plan[k].assignee, [])])
  {
    assert plan[..k + 1][..k] == plan[..k];
    CreatedFromMore(plan[..k + 1], k, children);
    var more := children + [Child(plan[k].status, plan[k].assignee, [])];
    assert more[..|more| - 1] == children;
    assert plan[..k + 1][k] == plan[k];
  }

  /**
   * `_decompose_and_delegate` for the sub-tasks the router planned; without any the request is run
   * directly, which is not modelled. Delegation succeeds exactly when some child is known to be created.
   */
  method DecomposeAndDelegate(client: Tracker, plan: seq<Planned>, agents: bool)
    returns (outcome: Outcome, ghost listed: bool)
    requires client.Valid() && client.children == []
    modifies client
    ensures client.Valid() && client.failures >= old(client.failures)
    ensures old(client.Exact()) ==> client.Exact()
    ensures forall maxRetries :: old(client.Bounded(maxRetries)) ==> client.Bounded(maxRetries)
    ensures PlainPlan(plan) ==> PlainIds(client.children)
    ensures CreatedFrom(plan, client.children) && |client.children| <= |plan|
    ensures outcome == RunDirectly <==> plan == []
    ensures outcome == Delegated ==> client.children != []
    ensures outcome in {RunDirectly, Delegated, Failure} && client.parent in {old(client.parent), InProgress}
    ensures client.failures == old(client.failures) ==>
      if plan == [] then client.children == [] && client.parent == old(client.parent)
        && client.notes == old(client.notes)
      else
        && outcome == Delegated && client.children == AllCreated(plan) && client.parent == InProgress
        && client.notes == old(client.notes) + [PlanNote]
    ensures client.notes in {old(client.notes), old(client.notes) + [PlanNote]}
    ensures plan != [] && !listed ==> outcome == Failure && client.children == [] && client.notes == old(client.notes)
  {
    hide Tracker.Exact, Tracker.Bounded, CreatedFrom;
    assert CreatedFrom(plan[..0], client.children) by {
      NothingCreated(plan[..0]);
    }
    CreatedFromMore(plan, 0, client.children);
    listed := false;
    if plan == [] {
      return RunDirectly, listed;
    }
    var _, _ := client.GetChildren();
    var ok, _ := client.ListAgents(agents);
    listed := ok;
    if !ok {
      return Failure, listed;
    }
    var created := 0;
    for k := 0 to |plan|
      invariant client.Valid() && client.failures >= old(client.failures) && client.parent == old(client.parent)
      invariant old(client.Exact()) ==> client.Exact()
      invariant forall maxRetries :: old(client.Bounded(maxRetries)) ==> client.Bounded(maxRetries)
      invariant PlainPlan(plan) ==> PlainIds(client.children)
      invariant CreatedFrom(plan[..k], client.children) && created <= |client.children| <= k
      invariant client.notes == old(client.notes)
      invariant client.failures == old(client.failures) ==> created == k && client.children == AllCreated(plan[..k])
    {
      CreatedNext(plan, k, client.children);
      ghost var before := client.children;
      var known, _ := client.CreateChild(plan[k].status, plan[k].assignee);
      assert client.children == before || client.children == before + [Child(plan[k].status, plan[k].assignee, [])];
      if known {
        created := created + 1;
      }
    }
    assert plan[..|plan|] == plan;
    if created == 0 {
      return Failure, listed;
    }
    var _ := client.CommentOnParent(PlanNote);
    var _ := client.SetParent(InProgress, []);
    return Delegated, listed;
  }

  /** The children of a plan, all of them. */
  function AllCreated(plan: seq<Planned>): seq<Child> {
    seq(|plan|, k requires 0 <= k < |plan| => Child(plan[k].status, plan[k].assignee, []))
  }

  lemma NothingCreated(plan: seq<Planned>)
    ensures CreatedFrom(plan, [])
  {
  }

  /** One heartbeat: reads the children and handles the phase they are in. */
  method RunHeartbeat(config: Config, client: Tracker, beat: Beat, markers: bool)
    returns (outcome: Outcome, ghost h: Heartbeat, ghost fetched: bool)
    requires client.Valid()
    modifies client
    ensures client.Valid() && client.failures >= old(client.failures)
    ensures PlainPlan(beat.plan) && !markers && old(client.Exact() && PlainIds(client.children)) ==>
      client.Exact() && PlainIds(client.children)
    ensures old(client.Bounded(config.maxRetries)) ==> client.Bounded(config.maxRetries)
    ensures client.parent in {old(client.parent), Done, Blocked}
      || (old(client.children) == [] && client.parent == InProgress)
    ensures client.parent == Done ==> old(client.parent) == Done || Collected(config, client.children) == Done
    ensures outcome == Success ==> client.parent == Done
    ensures client.failures == old(client.failures) ==>
      && h.before == Board(old(client.children), old(client.parent))
      && h.After() == Board(client.children, client.parent)
      && HeartbeatDid(config, beat, h) && outcome == HeartbeatReports(config, beat, h)
      && (old(client.parent) != Done ==>
        client.notes == old(client.notes) + NotesOf(outcome, client.parent))
    ensures client.notes == old(client.notes) || exists note :: client.notes == old(client.notes) + [note]
    ensures !fetched ==>
      && outcome == Failure && client.children == old(client.children)
      && client.parent == old(client.parent) && client.notes == old(client.notes)
  {
    hide Tracker.Exact, Tracker.Bounded, PolledTo, Collected, PlainIds, PlainPlan, CreatedFrom, PollLeaves, HaveFates,
      WakeStep, SomeExhausted, Backlogged, MovedTasks, IdleAgents, WaitsThrough, ReportOf, AllAfterPoll;
    ghost var before := Board(client.children, client.parent);
    h := Heartbeat(before, before, []);
    var ok, children := client.GetChildren();
    fetched := ok;
    if !ok {
      return Failure, h, fetched;
    }
    match DetectPhase(children) {
      case Decompose =>
        ghost var listed;
        outcome, listed := DecomposeAndDelegate(client, beat.plan, beat.agents);
        h := h.(polled := Board(client.children, client.parent));
      case Aggregate =>
        outcome := AggregateAndPresent(config, client);
        h := h.(polled := Board(client.children, client.parent));
      case Poll =>
        ghost var fates, polled, wakes;
        ghost var notes := client.notes;
        outcome, fates, polled, wakes := PollChildren(config, client, beat.agents, beat.rounds, markers);
        NotedAtMostOnce(notes, client.notes);
        h := Heartbeat(before, polled, wakes);
    }
  }

  /** The comment on the parent that goes with a report. */
  function NotesOf(outcome: Outcome, parent: Status): seq<Note> {
    match outcome
    case Delegated => [PlanNote]
    case RunDirectly => []
    case Waiting => []
    case _ => [NoteFor(parent)]
  }

  /**
   * What one heartbeat of a run meets: the router's plan, whether there are agents, and how many wake-ups
   * over the web socket.
   */
  datatype Beat = Beat(plan: seq<Planned>, agents: bool, rounds: nat)

  /** A heartbeat in which no call failed, and what it does in the phase it finds. */
  ghost predicate HeartbeatDid(config: Config, beat: Beat, h: Heartbeat) {
    && HeartbeatRun(config, h) && |h.wakes| <= beat.rounds
    && match DetectPhase(h.before.children)
       case Decompose =>
         if beat.plan == [] then h.polled == h.before
         else h.polled == Board(AllCreated(beat.plan), InProgress)
       case Aggregate => true
       case Poll =>
         && WaitsThrough(config, h, beat.rounds)
         && PollLeaves(config, beat.agents, h.before.children, h.polled.children)
         && |MovedTasks(AllAfterPoll(config, h.before.children), h.polled.children)| ==
            (if beat.agents && exists a :: Backlogged(h.before.children, a)
             then Least(2, |IdleAgents(h.before.children)|) else 0)
  }

  /** What a heartbeat without failing calls reports. */
  ghost function HeartbeatReports(config: Config, beat: Beat, h: Heartbeat): Outcome {
    match DetectPhase(h.before.children)
    case Decompose => if beat.plan == [] then RunDirectly else Delegated
    case Aggregate => Verdict(h.After().parent)
    case Poll => ReportOf(config, h)
  }

  ghost predicate PlainBeats(beats: seq<Beat>) {
    forall k :: 0 <= k < |beats| ==> PlainPlan(beats[k].plan)
  }

  /** A heartbeat as it happened: the board before and after, and, if no call failed, its course. */
  datatype Beaten = Beaten(before: Board, after: Board, clean: bool, course: Heartbeat)

  /** Between heartbeats the parent and the set of children stay, and comments only accumulate. */
  ghost predicate WorkersActed(before: Board, after: Board) {
    && after.parent == before.parent && |after.children| == |before.children|
    && forall i :: 0 <= i < |before.children| ==>
      HighestRetry(after.children[i].comments) >= HighestRetry(before.children[i].comments)
  }

  /**
   * A run from `start` to `end`: workers act, then a heartbeat is handled. It marks the parent done only
   * if some done child has an output, and if no call fails it does what its phase asks for.
   */
  ghost predicate RunOf(config: Config, beats: seq<Beat>, start: Board, run: seq<Beaten>, end: Board) {
    && |run| == |beats|
    && if run == [] then end == start
       else
         var k := |run| - 1;
         && RunOf(config, beats[..k], start, run[..k], if k == 0 then start else run[k - 1].after)
         && WorkersActed(if k == 0 then start else run[k - 1].after, run[k].before)
         && (run[k].after.parent == Done ==>
           run[k].before.parent == Done || Collected(config, run[k].after.children) == Done)
         && (run[k].clean ==>
           && run[k].course.before == run[k].before && run[k].course.After() == run[k].after
           && HeartbeatDid(config, beats[k], run[k].course))
         && end == run[k].after
  }

  /** No call failed. */
  ghost predicate AllClean(run: seq<Beaten>) {
    forall k :: 0 <= k < |run| ==> run[k].clean
  }

  lemma NothingBeaten(config: Config, start: Board)
    ensures RunOf(config, [], start, [], start) && AllClean([])
  {
  }

  lemma OneMoreBeat(config: Config, beats: seq<Beat>, start: Board, run: seq<Beaten>, end: Board, beat: Beat, b: Beaten)
    requires RunOf(config, beats, start, run, end) && WorkersActed(end, b.before)
    requires b.after.parent == Done ==> b.before.parent == Done || Collected(config, b.after.children) == Done
    requires b.clean ==>
      b.course.before == b.before && b.course.After() == b.after && HeartbeatDid(config, beat, b.course)
    ensures RunOf(config, beats + [beat], start, run + [b], b.after)
    ensures AllClean(run + [b]) <==> AllClean(run) && b.clean
  {
    hide WorkersActed, Collected, HeartbeatDid, Heartbeat.After, AllClean;
    OneMoreClean(run, b);
    assert (beats + [beat])[..|beats|] == beats && (run + [b])[..|run|] == run;
  }

  lemma OneMoreClean(run: seq<Beaten>, b: Beaten)
    ensures AllClean(run + [b]) <==> AllClean(run) && b.clean
  {
    if AllClean(run + [b]) {
      assert forall k :: 0 <= k < |run| ==> run[k] == (run + [b])[k];
      assert (run + [b])[|run|].clean;
    }
  }

  /** Any run of heartbeats, with workers acting before each; it keeps both retry accounts. */
  method RunHeartbeats(config: Config, client: Tracker, beats: seq<Beat>, markers: bool)
    returns (ghost run: seq<Beaten>)
    requires client.Valid()
    modifies client
    ensures client.Valid()
    ensures !markers && PlainBeats(beats) && old(client.Exact() && PlainIds(client.children)) ==>
      client.Exact() && PlainIds(client.children)
    ensures old(client.Bounded(config.maxRetries)) ==> client.Bounded(config.maxRetries)
    ensures RunOf(config, beats, Board(old(client.children), old(client.parent)), run,
                  Board(client.children, client.parent))
    ensures client.failures == old(client.failures) <==> AllClean(run)
  {
    hide *;
    ghost var start := Board(client.children, client.parent);
    run := [];
    NothingBeaten(config, start);
    for k := 0 to |beats|
      invariant client.Valid() && |run| == k && client.failures >= old(client.failures)
      invariant !markers && PlainBeats(beats) && old(client.Exact() && PlainIds(client.children)) ==>
        client.Exact() && PlainIds(client.children)
      invariant old(client.Bounded(config.maxRetries)) ==> client.Bounded(config.maxRetries)
      invariant RunOf(config, beats[..k], start, run, Board(client.children, client.parent))
      invariant client.failures == old(client.failures) <==> AllClean(run)
    {
      ghost var end := Board(client.children, client.parent);
      client.WorkersAct(markers);
      ghost var before, failures := Board(client.children, client.parent), client.failures;
      WorkersOnly(end, before);
      PlainBeat(beats, k);
      var _, h, _ := RunHeartbeat(config, client, beats[k], markers);
      ghost var b := Beaten(before, Board(client.children, client.parent), client.failures == failures, h);
      OneMoreBeat(config, beats[..k], start, run, end, beats[k], b);
      assert beats[..k + 1] == beats[..k] + [beats[k]];
      run := run + [b];
    }
    assert beats[..|beats|] == beats;
  }

  lemma PlainBeat(beats: seq<Beat>, k: nat)
    requires k < |beats|
    ensures PlainBeats(beats) ==> PlainPlan(beats[k].plan)
  {
  }

  lemma WorkersOnly(before: Board, after: Board)
    requires after.parent == before.parent && |after.children| == |before.children|
    requires forall i :: 0 <= i < |before.children| ==>
      HighestRetry(before.children[i].comments) <= HighestRetry(after.children[i].comments)
    ensures WorkersActed(before, after)
  {
  }

  /**
   * From the first heartbeat on: after any run, with any failures, each child was reset at most
   * `maxRetries` times plus once for every lost marker, and as often as its highest marker says plus the
   * lost ones if nobody else posts markers.
   */
  method RunFromStart(config: Config, beats: seq<Beat>, markers: bool) returns (client: Tracker, ghost run: seq<Beaten>)
    ensures fresh(client) && client.Valid()
    ensures forall i :: 0 <= i < |client.children| ==>
      client.resets[i] <= AtLeastZero(config.maxRetries) + client.lost[i]
    ensures !markers && PlainBeats(beats) ==>
      forall i :: 0 <= i < |client.children| ==>
        client.resets[i] == HighestRetry(client.children[i].comments) + client.lost[i]
    ensures RunOf(config, beats, Board([], Todo), run, Board(client.children, client.parent))
    ensures client.failures == 0 <==> AllClean(run)
  {
    client := new Tracker([], Todo);
    run := RunHeartbeats(config, client, beats, markers);
  }

  /** Workers undo nothing: done children stay done, and comments only accumulate. */
  ghost predicate KeepsWork(before: seq<Child>, after: seq<Child>) {
    && |after| == |before|
    && forall i :: 0 <= i < |before| ==>
      && (before[i].status == Done ==> after[i].status == Done)
      && HighestRetry(after[i].comments) >= HighestRetry(before[i].comments)
  }

  ghost predicate Settled(children: seq<Child>) {
    forall i :: 0 <= i < |children| ==> children[i].status in {Done, Blocked}
  }

  /** During the heartbeat workers undo nothing, whatever else they do before a wake-up. */
  ghost predicate KeepsWorkThroughout(start: Board, wakes: seq<(Board, Board)>) {
    wakes == [] ||
    (var last := |wakes| - 1;
     KeepsWorkThroughout(start, wakes[..last])
       && KeepsWork(Last(start, wakes[..last]).children, wakes[last].0.children))
  }

  /** Heartbeats without failures; workers undo nothing, and between two heartbeats all children settle. */
  ghost predicate SettlingRun(config: Config, beats: seq<Heartbeat>) {
    && (forall k :: 0 <= k < |beats| ==>
         && beats[k].before.children != [] && Settled(beats[k].before.children)
         && HeartbeatRun(config, beats[k]) && KeepsWorkThroughout(beats[k].polled, beats[k].wakes))
    && (forall k :: 0 < k < |beats| ==> KeepsWork(beats[k - 1].After().children, beats[k].before.children))
  }

  ghost predicate Resolved(status: Status) {
    status == Done || status == Blocked
  }

  /** The heartbeats it takes to resolve the parent, however often the children fail. */
  function HeartbeatsNeeded(config: Config): nat {
    1 + if config.retryFailed then AtLeastZero(config.maxRetries) else 0
  }

  /** Every child is done or was retried at least `k` times. */
  ghost predicate RetriedAtLeast(children: seq<Child>, k: nat) {
    forall i :: 0 <= i < |children| ==> children[i].status == Done || HighestRetry(children[i].comments) >= k
  }

  /** Until a heartbeat resolves the parent, each raises the count of every child that is not done. */
  lemma {:induction false} UnresolvedBeatsRaiseCounts(config: Config, beats: seq<Heartbeat>, k: nat)
    requires SettlingRun(config, beats) && k < |beats|
    requires forall j :: 0 <= j < k ==> !Resolved(beats[j].After().parent)
    ensures RetriedAtLeast(beats[k].before.children, k)
  {
    hide SettlingRun, HeartbeatRun, KeepsWork, KeepsWorkThroughout, RetriedAtLeast, Resolved, Settled;
    if k == 0 {
      NoRetriesYet(beats[0].before.children);
    } else {
      UnresolvedBeatsRaiseCounts(config, beats, k - 1);
      BeatOfRun(config, beats, k - 1);
      OneMoreRetry(config, beats[k - 1], k - 1);
      KeptWorkKeepsRetries(beats[k - 1].After().children, beats[k].before.children, k);
    }
  }

  lemma NoRetriesYet(children: seq<Child>)
    ensures RetriedAtLeast(children, 0)
  {
  }

  lemma BeatOfRun(config: Config, beats: seq<Heartbeat>, k: nat)
    requires SettlingRun(config, beats) && k < |beats|
    ensures beats[k].before.children != [] && Settled(beats[k].before.children) && HeartbeatRun(config, beats[k])
    ensures KeepsWorkThroughout(beats[k].polled, beats[k].wakes)
    ensures k + 1 < |beats| ==> KeepsWork(beats[k].After().children, beats[k + 1].before.children)
  {
  }

  lemma KeptWorkKeepsRetries(before: seq<Child>, after: seq<Child>, k: nat)
    requires KeepsWork(before, after) && RetriedAtLeast(before, k)
    ensures RetriedAtLeast(after, k)
  {
    hide HighestRetry;
  }

  /** A heartbeat that leaves the parent unresolved has raised every count, and its wake-ups lower none. */
  lemma OneMoreRetry(config: Config, h: Heartbeat, k: nat)
    requires HeartbeatRun(config, h) && KeepsWorkThroughout(h.polled, h.wakes)
    requires h.before.children != [] && Settled(h.before.children) && !Resolved(h.After().parent)
    requires RetriedAtLeast(h.before.children, k)
    ensures RetriedAtLeast(h.After().children, k + 1)
  {
    UnresolvedGoesOn(config, h);
    hide HeartbeatRun, KeepsWorkThroughout, RetriedAtLeast, Settled, GoesOn, Woken, HeartbeatStep, Resolved;
    PollRetriesAll(config, h.before, h.polled, k);
    WakesKeepRetries(config, h.polled, h.wakes, k + 1);
  }

  lemma UnresolvedGoesOn(config: Config, h: Heartbeat)
    requires HeartbeatRun(config, h) && h.before.children != [] && !Resolved(h.After().parent)
    ensures GoesOn(config, h.before) && HeartbeatStep(config, h.before, h.polled) && Woken(config, h.polled, h.wakes)
  {
    hide Woken, PolledTo, SomeExhausted;
  }

  lemma PollRetriesAll(config: Config, before: Board, after: Board, k: nat)
    requires HeartbeatStep(config, before, after) && GoesOn(config, before) && Settled(before.children)
    requires RetriedAtLeast(before.children, k)
    ensures RetriedAtLeast(after.children, k + 1)
  {
    hide HighestRetry, RetryComment, PolledTo, Collected, Config.Exhausted;
    forall i | 0 <= i < |after.children|
      ensures after.children[i].status == Done || HighestRetry(after.children[i].comments) >= k + 1
    {
      assert PolledTo(config, before.children[i], after.children[i]) && !config.Exhausted(before.children[i]);
      PolledIsRetried(config, before.children[i], after.children[i]);
    }
  }

  lemma PolledIsRetried(config: Config, before: Child, after: Child)
    requires PolledTo(config, before, after) && !config.Exhausted(before)
    ensures before.status == Done ==> after.status == Done
    ensures before.status == Blocked ==> HighestRetry(after.comments) >= HighestRetry(before.comments) + 1
  {
    hide HighestRetry, RetryComment;
    RetryRaisesCount(before.comments);
  }

  lemma {:induction false} WakesKeepRetries(config: Config, start: Board, wakes: seq<(Board, Board)>, k: nat)
    requires Woken(config, start, wakes) && KeepsWorkThroughout(start, wakes) && RetriedAtLeast(start.children, k)
    ensures RetriedAtLeast(Last(start, wakes).children, k)
  {
    hide RetriedAtLeast, KeepsWork, WakeStep, StillAwake;
    if wakes != [] {
      var last := |wakes| - 1;
      WakesKeepRetries(config, start, wakes[..last], k);
      KeptWorkKeepsRetries(Last(start, wakes[..last]).children, wakes[last].0.children, k);
      WakeKeepsRetries(config, wakes[last].0, wakes[last].1, k);
    }
  }

  lemma WakeKeepsRetries(config: Config, before: Board, after: Board, k: nat)
    requires WakeStep(config, before, after) && RetriedAtLeast(before.children, k)
    ensures RetriedAtLeast(after.children, k)
  {
    hide HighestRetry, RetryComment, Config.Exhausted, Collected, AfterPoll;
    if DetectPhase(before.children) == Poll {
      forall i | 0 <= i < |after.children|
        ensures after.children[i].status == Done || HighestRetry(after.children[i].comments) >= k
      {
        EvaluationKeepsCount(config, before.children[i]);
      }
    }
  }

  lemma EvaluationKeepsCount(config: Config, c: Child)
    ensures HighestRetry(AfterPoll(config, c).comments) >= HighestRetry(c.comments)
    ensures c.status == Done ==> AfterPoll(config, c) == c
  {
    hide HighestRetry, RetryComment;
    RetryRaisesCount(c.comments);
  }

  /** The parent is resolved within one heartbeat more than there are retries, with or without a web socket. */
  lemma ParentIsResolvedInTime(config: Config, beats: seq<Heartbeat>)
    requires SettlingRun(config, beats) && |beats| >= HeartbeatsNeeded(config)
    ensures exists k :: 0 <= k < HeartbeatsNeeded(config) && Resolved(beats[k].After().parent)
  {
    hide SettlingRun, HeartbeatRun, KeepsWork, KeepsWorkThroughout, RetriedAtLeast, Resolved, Settled;
    var last := HeartbeatsNeeded(config) - 1;
    if forall j :: 0 <= j < last ==> !Resolved(beats[j].After().parent) {
      UnresolvedBeatsRaiseCounts(config, beats, last);
      BeatOfRun(config, beats, last);
      NoRetriesLeft(config, beats[last]);
      assert Resolved(beats[last].After().parent);
    }
  }

  lemma NoRetriesLeft(config: Config, h: Heartbeat)
    requires HeartbeatRun(config, h) && h.before.children != [] && Settled(h.before.children)
    requires RetriedAtLeast(h.before.children, HeartbeatsNeeded(config) - 1)
    ensures Resolved(h.After().parent)
  {
    hide HighestRetry, PolledTo, Woken;
    if i :| 0 <= i < |h.before.children| && h.before.children[i].status == Blocked {
      assert config.Exhausted(h.before.children[i]);
    }
  }

  ghost predicate SomeOutput(config: Config, children: seq<Child>) {
    exists i :: 0 <= i < |children| && config.HasOutput(children[i])
  }

  /**
   * The parent does not wait for everybody. A poll settles it while some child is neither done nor given
   * up exactly when there is such a child and another one is given up: as done if some done child has an
   * output, as blocked otherwise.
   */
  lemma ParentSettledEarlyIff(config: Config, before: Board, after: Board)
    requires HeartbeatStep(config, before, after) && DetectPhase(before.children) == Poll && !Resolved(before.parent)
    ensures after.parent == Done && SomeOpen(config, before.children) <==>
      SomeExhausted(config, before.children) && SomeOutput(config, before.children) && SomeOpen(config, before.children)
    ensures after.parent == Blocked && SomeOpen(config, before.children) <==>
      SomeExhausted(config, before.children) && !SomeOutput(config, before.children)
        && SomeOpen(config, before.children)
    ensures SomeOpen(config, before.children) ==>
      exists i :: 0 <= i < |after.children| && after.children[i].status != Done
  {
    hide HighestRetry;
    if i :| 0 <= i < |before.children| && before.children[i].status != Done && !config.Exhausted(before.children[i]) {
      assert PolledTo(config, before.children[i], after.children[i]);
    }
  }

  /** For every number of retries: a result, a child whose retries are used up and one still in progress. */
  lemma ParentFinishesBeforeChildren(config: Config, result: seq<string>, board: Board)
    requires config.extract(result) != ""
    requires board == Board([Child(Done, "", result), Child(Blocked, "", RetryComments(AtLeastZero(config.maxRetries))),
                             Child(InProgress, "", [])], InProgress)
    ensures HeartbeatStep(config, board, board.(parent := Done))
    ensures SomeOpen(config, board.children) && board.children[2].status == InProgress
  {
    RetryCommentsCount(AtLeastZero(config.maxRetries));
    hide HighestRetry, RetryComments;
    assert board.children[1] in board.children;
    assert config.Exhausted(board.children[1]) && config.HasOutput(board.children[0]);
    assert board.children[2].status != Done && !config.Exhausted(board.children[2]);
  }

  /**
   * The rebalancer is handed the list read before the poll, while the poll makes blocked children todo.
   * So a poll without failures keeps the maximum load its retries lead to, whatever it leaves, exactly when
   * nobody is backlogged or no agent with nothing to do in the list holds that maximum.
   */
  lemma PollKeepsMaximumIff(config: Config, children: seq<Child>, most: nat)
    requires IsMaximumLoad(AllAfterPoll(config, children), most)
    ensures var now := AllAfterPoll(config, children);
      (forall after, agents | PollLeaves(config, agents, children, after) :: LoadsWithin(after, most)) <==>
      ((forall a :: !Backlogged(children, a)) || forall a :: a in IdleAgents(children) ==> Load(now, a) < most)
  {
    hide AfterQuiet, IdleAgents, Backlogged, Load, IsOrderOf, AllAfterPoll, PollLeaves;
    var now := AllAfterPoll(config, children);
    MaximumKeptIff(children, now, most);
    forall after, agents | PollLeaves(config, agents, children, after)
      ensures || after == now
        || exists idle :: IsOrderOf(idle, IdleAgents(children)) && after == AfterQuiet(children, now, idle)
    {
      EveryPollIsQuiet(config, agents, children, after);
    }
    forall idle | IsOrderOf(idle, IdleAgents(children))
      ensures PollLeaves(config, true, children, AfterQuiet(children, now, idle))
    {
      EveryOrderIsAPoll(config, children, idle);
    }
  }

  lemma EveryPollIsQuiet(config: Config, agents: bool, before: seq<Child>, after: seq<Child>)
    requires PollLeaves(config, agents, before, after)
    ensures var now := AllAfterPoll(config, before);
      after == now || exists idle :: IsOrderOf(idle, IdleAgents(before)) && after == AfterQuiet(before, now, idle)
  {
    hide AfterQuiet, IdleAgents, IsOrderOf, AllAfterPoll, SomeDone, SomeOpen;
  }

  lemma EveryOrderIsAPoll(config: Config, children: seq<Child>, idle: seq<string>)
    requires IsOrderOf(idle, IdleAgents(children))
    ensures PollLeaves(config, true, children, AfterQuiet(children, AllAfterPoll(config, children), idle))
  {
    hide AfterQuiet, IdleAgents, IsOrderOf, AllAfterPoll, SomeDone, SomeOpen, Backlogged, Queue;
    PolledStillTodo(config, children);
    QuietMoves(children, AllAfterPoll(config, children), idle);
    OrderCounts(idle, IdleAgents(children));
    QueueOfBacklogged(children);
    IdleHaveDone(children);
    BackloggedIsOpen(config, children);
  }

  function OneAndThrees(a: Child, b: Child, c: Child): seq<Child> {
    [a] + [b, b, b] + [c, c, c]
  }

  lemma LoadOfOneAndThrees(a: Child, b: Child, c: Child, agent: string)
    ensures Load(OneAndThrees(a, b, c), agent) ==
      (if a.status == Todo && a.assignee == agent then 1 else 0) +
      (if b.status == Todo && b.assignee == agent then 3 else 0) +
      (if c.status == Todo && c.assignee == agent then 3 else 0)
  {
    LoadOfOneMore([], a, agent);
    assert Load([], agent) == 0 && [] + [a] == [a];
    hide Load;
    LoadOfThreeMore([a], b, agent);
    LoadOfThreeMore([a] + [b, b, b], c, agent);
  }

  /**
   * An agent with one done and three blocked tasks counts as idle; retrying makes it as loaded as the
   * backlogged one, and then it is given a fourth task.
   */
  lemma StaleListRaisesMaximum(config: Config, children: seq<Child>) returns (after: seq<Child>)
    requires config.retryFailed && config.maxRetries >= 1
    requires children == OneAndThrees(Child(Done, "x", []), Child(Blocked, "x", []), Child(Todo, "y", []))
    ensures IsMaximumLoad(AllAfterPoll(config, children), 3)
    ensures IdleAgents(children) == {"x"} && Backlogged(children, "y")
    ensures PollLeaves(config, true, children, after) && Load(after, "x") == 4
  {
    hide Load, Queue, Replay, Retried, OneAndThrees;
    var now := AllAfterPoll(config, children);
    StaleLoads(config, children);
    assert IsOrderOf(["x"], IdleAgents(children)) && Backlogged(children, "y");
    QueueMeaning(children);
    QuietIsComplete(children, ["x"]);
    LoadsAfter(children, now, ["x"], Quiet(Share(Queue(children), ["x"])));
    assert ["x"][0] == "x";
    after := AfterQuiet(children, now, ["x"]);
    EveryOrderIsAPoll(config, children, ["x"]);
  }

  lemma StaleLoads(config: Config, children: seq<Child>)
    requires config.retryFailed && config.maxRetries >= 1
    requires children == OneAndThrees(Child(Done, "x", []), Child(Blocked, "x", []), Child(Todo, "y", []))
    ensures IsMaximumLoad(AllAfterPoll(config, children), 3) && Load(AllAfterPoll(config, children), "x") == 3
    ensures IdleAgents(children) == {"x"} && Load(children, "y") == 3
    ensures StillTodo(children, AllAfterPoll(config, children))
  {
    var done, blocked, todo := Child(Done, "x", []), Child(Blocked, "x", []), Child(Todo, "y", []);
    hide Load, Retried, RetryComment, AfterPoll, AllAfterPoll;
    var now := AllAfterPoll(config, children);
    StaleBoardAfterPoll(config, done, blocked, todo);
    assert "x" != "y" by {
      assert "x"[0] != "y"[0];
    }
    forall a: string
      ensures Load(children, a) == if a == "y" then 3 else 0
      ensures Load(now, a) == if a == "x" || a == "y" then 3 else 0
    {
      LoadOfOneAndThrees(done, blocked, todo, a);
      LoadOfOneAndThrees(done, Retried(blocked), todo, a);
    }
    assert IdleAgents(children) == {"x"} by {
      assert children[0] == done && done in children;
      assert forall c :: c in children ==> c in {done, blocked, todo};
    }
  }

  lemma StaleBoardAfterPoll(config: Config, done: Child, blocked: Child, todo: Child)
    requires config.retryFailed && config.maxRetries >= 1
    requires done.status == Done && blocked.status == Blocked && blocked.comments == [] && todo.status == Todo
    ensures Retried(blocked) == blocked.(status := Todo, comments := Retried(blocked).comments)
    ensures AllAfterPoll(config, OneAndThrees(done, blocked, todo)) == OneAndThrees(done, Retried(blocked), todo)
  {
    hide RetryComment;
    assert AfterPoll(config, blocked) == Retried(blocked) && AfterPoll(config, done) == done
      && AfterPoll(config, todo) == todo;
    hide AfterPoll, Retried;
  }

  /** The comments of a child retried `k` times. */
  function RetryComments(k: nat): seq<string> {
    if k == 0 then [] else RetryComments(k - 1) + [RetryComment(k)]
  }

  lemma {:induction false} RetryCommentsCount(k: nat)
    ensures HighestRetry(RetryComments(k)) == k
  {
    if k > 0 {
      RetryCommentsCount(k - 1);
      RetryRaisesCount(RetryComments(k - 1));
    }
  }

  /** The unluckiest run: one child that blocks after every retry. */
  function UnluckyBeat(k: nat): Heartbeat {
    Heartbeat(Board([Child(Blocked, "", RetryComments(k))], InProgress),
              Board([Child(Todo, "", RetryComments(k + 1))], InProgress), [])
  }

  lemma UnluckyBeatIsHeartbeat(config: Config, k: nat)
    requires config.retryFailed && k < config.maxRetries
    ensures HeartbeatRun(config, UnluckyBeat(k))
  {
    hide HighestRetry, RetryComments, RetryComment, AfterPoll, Config.Exhausted;
    RetryCommentsCount(k);
    UnluckyChild(config, k);
    var c := Child(Blocked, "", RetryComments(k));
    assert c in UnluckyBeat(k).before.children;
  }

  lemma UnluckyChild(config: Config, k: nat)
    requires config.retryFailed && k < config.maxRetries
    ensures var c := Child(Blocked, "", RetryComments(k));
      !config.Exhausted(c) && AfterPoll(config, c) == Child(Todo, "", RetryComments(k + 1))
  {
    RetryCommentsCount(k);
    hide HighestRetry, RetryComment;
  }

  lemma UnluckyBeatsFollow(k: nat)
    ensures KeepsWork(UnluckyBeat(k).After().children, UnluckyBeat(k + 1).before.children)
    ensures UnluckyBeat(k).before.children != [] && !Resolved(UnluckyBeat(k).After().parent)
    ensures Settled(UnluckyBeat(k).before.children)
    ensures KeepsWorkThroughout(UnluckyBeat(k).polled, UnluckyBeat(k).wakes)
  {
    hide HighestRetry, RetryComments;
  }

  lemma UnluckyRun(config: Config, length: nat) returns (beats: seq<Heartbeat>)
    requires length < HeartbeatsNeeded(config)
    ensures |beats| == length && SettlingRun(config, beats)
    ensures forall k :: 0 <= k < length ==> !Resolved(beats[k].After().parent)
  {
    beats := seq(length, k requires 0 <= k < length => UnluckyBeat(k));
    hide HighestRetry, HeartbeatRun, KeepsWork, UnluckyBeat, Resolved, Settled, KeepsWorkThroughout, Heartbeat.After;
    forall k | 0 <= k < length
      ensures beats[k].before.children != [] && Settled(beats[k].before.children) && HeartbeatRun(config, beats[k])
      ensures KeepsWorkThroughout(beats[k].polled, beats[k].wakes) && !Resolved(beats[k].After().parent)
      ensures k + 1 < length ==> KeepsWork(beats[k].After().children, beats[k + 1].before.children)
    {
      UnluckyBeatIsHeartbeat(config, k);
      UnluckyBeatsFollow(k);
    }
  }

  /** A number of heartbeats always resolves the parent exactly when it exceeds the retries allowed. */
  lemma ResolvedInTimeIff(config: Config, length: nat)
    ensures length >= HeartbeatsNeeded(config) <==>
      forall beats: seq<Heartbeat> | SettlingRun(config, beats) && |beats| == length ::
        exists k :: 0 <= k < length && Resolved(beats[k].After().parent)
  {
    hide SettlingRun;
    if length >= HeartbeatsNeeded(config) {
      forall beats: seq<Heartbeat> | SettlingRun(config, beats) && |beats| == length
        ensures exists k :: 0 <= k < length && Resolved(beats[k].After().parent)
      {
        ParentIsResolvedInTime(config, beats);
      }
    } else {
      var beats := UnluckyRun(config, length);
    }
  }
}

/**
 * The issue tracker the orchestrator talks to: one parent issue and its children. Every call may
 * fail; a failed update may or may not have been applied. Workers act between the orchestrator's rounds.
 */
module IssueTracker {
  import opened Numbers
  import opened RetryMarker

  datatype Status = Backlog | Todo | InProgress | InReview | Blocked | Done | Cancelled

  /** A child issue; an empty assignee means nobody. */
  datatype Child = Child(status: Status, assignee: string, comments: seq<string>)

  /** What the orchestrator comments on the parent issue. */
  datatype Note = PlanNote | ResultNote | TroubleNote

  class Tracker {
    var children: seq<Child>
    var parent: Status
    var notes: seq<Note>
    /** Calls that raised, so far. */
    ghost var failures: nat
    /** For each child: status resets by the orchestrator, and those whose marker never arrived. */
    ghost var resets: seq<nat>
    ghost var lost: seq<nat>

    ghost predicate Valid()
      reads this`children, this`resets, this`lost
    {
      |resets| == |lost| == |children|
    }

    /** Retry numbers account for every reset, but for the lost ones; nobody else posts markers. */
    ghost predicate Exact()
      reads this`children, this`resets, this`lost
      requires Valid()
    {
      forall i :: 0 <= i < |children| ==> resets[i] == HighestRetry(children[i].comments) + lost[i]
    }

    /** Resets stay within the limit, but for the lost ones. */
    ghost predicate Bounded(maxRetries: int)
      reads this`children, this`resets, this`lost
      requires Valid()
    {
      forall i :: 0 <= i < |children| ==>
        && resets[i] <= HighestRetry(children[i].comments) + lost[i]
        && resets[i] <= AtLeastZero(maxRetries) + lost[i]
    }

    /** A tracker on which the orchestrator has reset nothing yet. */
    constructor (children: seq<Child>, parent: Status)
      ensures Valid() && this.children == children && this.parent == parent && failures == 0 && notes == []
      ensures forall maxRetries :: Bounded(maxRetries)
      ensures (forall i :: 0 <= i < |children| ==> NoMarkers(children[i].comments)) ==> Exact()
    {
      this.children, this.parent, notes, failures := children, parent, [], 0;
      resets := seq(|children|, _ => 0);
      lost := seq(|children|, _ => 0);
      new;
      forall i | 0 <= i < |children| && NoMarkers(children[i].comments)
        ensures HighestRetry(children[i].comments) == 0
      {
        assert [] + children[i].comments == children[i].comments;
        CommentsKeepCount([], children[i].comments);
      }
    }

    method GetChildren() returns (ok: bool, snapshot: seq<Child>)
      modifies this`failures
      ensures failures == old(failures) + if ok then 0 else 1
      ensures ok ==> snapshot == children
    {
      ok, snapshot := *, children;
      failures := failures + if ok then 0 else 1;
    }

    method GetComments(i: nat) returns (ok: bool, comments: seq<string>)
      requires i < |children|
      modifies this`failures
      ensures failures == old(failures) + if ok then 0 else 1
      ensures ok ==> comments == children[i].comments
    {
      ok, comments := *, children[i].comments;
      failures := failures + if ok then 0 else 1;
    }

    /** `agents` is whether the company has any agents. */
    method ListAgents(agents: bool) returns (ok: bool, anyAgents: bool)
      modifies this`failures
      ensures failures == old(failures) + if ok then 0 else 1
      ensures ok ==> anyAgents == agents
    {
      ok, anyAgents := *, agents;
      failures := failures + if ok then 0 else 1;
    }

    /** Writes one child; raising leaves it open whether the write took place. */
    method WriteChild(i: nat, child: Child) returns (ok: bool, ghost applied: bool)
      requires i < |children|
      modifies this`children, this`failures
      ensures failures == old(failures) + if ok then 0 else 1
      ensures ok ==> applied
      ensures children == if applied then old(children)[i := child] else old(children)
    {
      var written: bool := *;
      ok := *;
      if ok || written {
        children := children[i := child];
      }
      applied := ok || written;
      failures := failures + if ok then 0 else 1;
    }

    method SetStatus(i: nat, status: Status) returns (ok: bool, ghost applied: bool)
      requires i < |children|
      modifies this`children, this`failures
      ensures failures == old(failures) + if ok then 0 else 1
      ensures ok ==> applied
      ensures children == if applied then old(children)[i := old(children)[i].(status := status)] else old(children)
    {
      ok, applied := WriteChild(i, children[i].(status := status));
    }

    method SetAssignee(i: nat, assignee: string) returns (ok: bool, ghost applied: bool)
      requires i < |children|
      modifies this`children, this`failures
      ensures failures == old(failures) + if ok then 0 else 1
      ensures ok ==> applied
      ensures children == if applied then old(children)[i := old(children)[i].(assignee := assignee)] else old(children)
    {
      ok, applied := WriteChild(i, children[i].(assignee := assignee));
    }

    method AddComment(i: nat, text: string) returns (ok: bool, ghost applied: bool)
      requires i < |children|
      modifies this`children, this`failures
      ensures failures == old(failures) + if ok then 0 else 1
      ensures ok ==> applied
      ensures children ==
        if applied then old(children)[i := old(children)[i].(comments := old(children)[i].comments + [text])]
          else old(children)
    {
      ok, applied := WriteChild(i, children[i].(comments := children[i].comments + [text]));
    }

    /** Adds a child without comments; raising leaves it open whether it was created. */
    method CreateChild(status: Status, assignee: string) returns (ok: bool, ghost created: bool)
      requires Valid()
      modifies this`children, this`failures, this`resets, this`lost
      ensures Valid() && failures == old(failures) + if ok then 0 else 1
      ensures ok ==> created
      ensures children == old(children) + if created then [Child(status, assignee, [])] else []
      ensures old(Exact()) ==> Exact()
      ensures forall maxRetries :: old(Bounded(maxRetries)) ==> Bounded(maxRetries)
    {
      var written: bool := *;
      ok := *;
      created := ok || written;
      if ok || written {
        children := children + [Child(status, assignee, [])];
        resets, lost := resets + [0], lost + [0];
      }
      failures := failures + if ok then 0 else 1;
    }

    /** Changes the parent's status, with a comment or without. */
    method SetParent(status: Status, comment: seq<Note>) returns (ok: bool)
      requires |comment| <= 1
      modifies this`parent, this`notes, this`failures
      ensures failures == old(failures) + if ok then 0 else 1
      ensures (parent == old(parent) && notes == old(notes)) || (parent == status && notes == old(notes) + comment)
      ensures ok ==> parent == status && notes == old(notes) + comment
      ensures comment == [] ==> notes == old(notes)
    {
      var written: bool := *;
      ok := *;
      if ok || written {
        parent, notes := status, notes + comment;
      }
      failures := failures + if ok then 0 else 1;
    }

    /** Comments on the parent without changing its status. */
    method CommentOnParent(note: Note) returns (ok: bool)
      modifies this`notes, this`failures
      ensures failures == old(failures) + if ok then 0 else 1
      ensures notes == old(notes) || notes == old(notes) + [note]
      ensures ok ==> notes == old(notes) + [note]
    {
      var written: bool := *;
      ok := *;
      if ok || written {
        notes := notes + [note];
      }
      failures := failures + if ok then 0 else 1;
    }

    /**
     * Workers and humans: any statuses, any assignees with plain ids, any further comments, with retry
     * markers only if `markers`.
     */
    method WorkersAct(markers: bool)
      requires Valid()
      modifies this`children
      ensures Valid() && |children| == |old(children)|
      ensures forall i :: 0 <= i < |children| ==>
        HighestRetry(old(children)[i].comments) <= HighestRetry(children[i].comments)
      ensures !markers && old(Exact()) ==> Exact()
      ensures PlainIds(old(children)) ==> PlainIds(children)
      ensures forall maxRetries :: old(Bounded(maxRetries)) ==> Bounded(maxRetries)
    {
      var now: seq<Child> := *;
      var posted: seq<seq<string>> := *;
      if |now| == |children| == |posted|
        && (forall i :: 0 <= i < |children| ==> now[i].comments == children[i].comments + posted[i])
        && (forall i :: 0 <= i < |children| ==> '<' !in now[i].assignee || now[i].assignee == children[i].assignee)
        && (markers || forall i :: 0 <= i < |posted| ==> NoMarkers(posted[i]))
      {
        hide HighestRetry;
        forall i | 0 <= i < |children|
          ensures HighestRetry(children[i].comments) <= HighestRetry(now[i].comments)
          ensures !markers ==> HighestRetry(children[i].comments) == HighestRetry(now[i].comments)
        {
          CommentsKeepCount(children[i].comments, posted[i]);
        }
        children := now;
      }
    }
  }

  /** Agent ids as the tracker hands them out: they cannot open a comment marker. */
  ghost predicate PlainIds(children: seq<Child>) {
    forall i :: 0 <= i < |children| ==> '<' !in children[i].assignee
  }

  predicate NoMarkers(texts: seq<string>) {
    forall k :: 0 <= k < |texts| ==> Search(texts[k]).None?
  }
}

/** The scheduler's queue: a heap of entries plus the set of queued roles. */
module PriorityQueues {
  import opened Options
  import opened Entries
  import Heap

  class PriorityQueue {
    var heap: seq<Entry>
    var queuedRoles: set<string>

    /** The heap holds exactly one entry for each queued role. */
    ghost predicate Valid()
      reads this
    {
      && Heap.IsHeap(heap)
      && OnePerRole(multiset(heap))
      && (forall e :: e in heap ==> e.priority == PriorityForRole(e.role))
      && forall r :: r in queuedRoles ==> exists e :: e in heap && e.role == r
    }

    /** The heap holds no entry whose role is not queued. */
    ghost predicate NoStaleEntries()
      reads this
    {
      forall e :: e in heap ==> e.role in queuedRoles
    }

    /** The role-keyed set this queue stands for. */
    ghost function Contents(): set<Entry>
      reads this
    {
      set e | e in heap && e.role in queuedRoles
    }

    constructor ()
      ensures Valid() && NoStaleEntries() && Contents() == {} && queuedRoles == {}
    {
      heap, queuedRoles := [], {};
    }

    /** Adds the role unless it is queued already: the first enqueue wins. */
    method Push(role: string, agentId: string, createdAt: real)
      requires Valid() && NoStaleEntries()
      modifies this
      ensures Valid() && NoStaleEntries()
      ensures Contents() == old(Contents()) +
        if role in old(queuedRoles) then {} else {Entry(PriorityForRole(role), createdAt, role, agentId)}
      ensures queuedRoles == old(queuedRoles) + {role}
    {
      if role in queuedRoles {
        return;
      }
      var entry := Entry(PriorityForRole(role), createdAt, role, agentId);
      assert entry !in heap;
      heap := Heap.HeapPush(heap, entry);
      PushKeepsOnePerRole(old(heap), heap, entry);
      queuedRoles := queuedRoles + {role};
    }

    /** Takes out the entry that comes before all others, or nothing from an empty queue; skips stale entries. */
    method Pop() returns (result: Option<Entry>)
      requires Valid()
      modifies this
      ensures Valid()
      ensures old(NoStaleEntries()) ==> NoStaleEntries()
      ensures result.None? <==> old(Contents()) == {}
      ensures result.None? ==> Contents() == {} && queuedRoles == old(queuedRoles)
      ensures result.Some? ==>
        && result.value in old(Contents())
        && Contents() == old(Contents()) - {result.value}
        && queuedRoles == old(queuedRoles) - {result.value.role}
        && forall x :: x in Contents() ==>
          && Before(result.value, x) && ServedBefore(result.value, x)
          && (result.value.priority < x.priority
              || (result.value.priority == x.priority && Older(result.value, x)))
    {
      hide Heap.IsHeap, OnePerRole, Before, ServedBefore, Older, PriorityForRole;
      while heap != []
        invariant Valid() && Contents() == old(Contents()) && queuedRoles == old(queuedRoles)
        invariant forall e :: e in heap ==> e in old(heap)
        decreases |heap|
      {
        ghost var was := heap;
        var entry, rest := Heap.HeapPop(heap);
        PopKeepsOnePerRole(was, rest, entry);
        heap := rest;
        if entry.role in queuedRoles {
          queuedRoles := queuedRoles - {entry.role};
          assert entry in old(Contents());
          forall x | x in Contents()
            ensures ServedBefore(entry, x)
            ensures entry.priority < x.priority || (entry.priority == x.priority && Older(entry, x))
          {
            BeforeIsOrderOfService(entry, x);
            BeforeIsByPriority(entry, x);
          }
          return Some(entry);
        }
      }
      return None;
    }
  }

  /** No entry occurs twice and no two entries share a role. */
  ghost predicate OnePerRole(entries: multiset<Entry>) {
    && (forall e :: e in entries ==> entries[e] == 1)
    && forall e, f :: e in entries && f in entries && e.role == f.role ==> e == f
  }

  lemma BeforeIsByPriority(a: Entry, b: Entry)
    requires Before(a, b)
    ensures a.priority < b.priority || (a.priority == b.priority && Older(a, b))
  {
    StringLessTrichotomy(a.role, b.role);
  }

  lemma SameElements(h: seq<Entry>, entries: multiset<Entry>)
    requires multiset(h) == entries
    ensures forall e :: e in h <==> e in entries
  {
    assert forall e :: e in h <==> e in multiset(h);
  }

  lemma PushKeepsOnePerRole(was: seq<Entry>, now: seq<Entry>, entry: Entry)
    requires multiset(now) == multiset(was) + multiset{entry} && OnePerRole(multiset(was))
    requires forall x :: x in was ==> x.role != entry.role
    ensures OnePerRole(multiset(now))
    ensures forall x :: x in now <==> x in was || x == entry
  {
    SameElements(was, multiset(was));
    SameElements(now, multiset(now));
  }

  lemma PopKeepsOnePerRole(was: seq<Entry>, now: seq<Entry>, entry: Entry)
    requires multiset(was) == multiset(now) + multiset{entry} && OnePerRole(multiset(was))
    requires forall x :: x in was ==> NotAfter(entry, x)
    ensures OnePerRole(multiset(now)) && entry !in now && entry in was
    ensures forall x :: x in now <==> x in was && x != entry
    ensures forall x :: x in now ==> Before(entry, x) && x.role != entry.role
  {
    SameElements(was, multiset(was));
    SameElements(now, multiset(now));
    forall x ensures multiset(was)[x] == multiset(now)[x] + if x == entry then 1 else 0 {
    }
    assert multiset(was)[entry] == 1;
    forall x | x in now ensures Before(entry, x) {
      BeforeIsTotal(entry, x);
    }
  }
}

/** Queue entries of agents/scheduler.py and the order in which Python compares them. */
module Entries {
  /** `(priority, created_at, role, agent_id)`, the tuple pushed on the scheduler's heap. */
  datatype Entry = Entry(priority: int, createdAt: real, role: string, agentId: string)

  /** Static priority of a role; a smaller number is served first, unknown roles get 2. */
  function PriorityForRole(role: string): int {
    if role == "cto" then 0
    else if role in {"backend-engineer", "frontend-engineer", "devops-engineer", "qa-engineer"} then 1
    else 2
  }

  /** Python's `<` on strings: first difference decides, a proper prefix is smaller. */
  predicate StringLess(a: string, b: string) {
    b != [] && (a == [] || a[0] < b[0] || (a[0] == b[0] && StringLess(a[1..], b[1..])))
  }

  /** Python's `<` on the entry tuples. */
  predicate Before(a: Entry, b: Entry) {
    || a.priority < b.priority
    || (a.priority == b.priority &&
        (|| a.createdAt < b.createdAt
         || (a.createdAt == b.createdAt &&
             (|| StringLess(a.role, b.role)
              || (a.role == b.role && StringLess(a.agentId, b.agentId))))))
  }

  /** The first difference decides: `a` ends there, or has the smaller character. */
  lemma {:induction false} StringLessMeaning(a: string, b: string)
    ensures StringLess(a, b) <==> exists k :: 0 <= k <= |a| && k < |b| && a[..k] == b[..k] && (k == |a| || a[k] < b[k])
  {
    if a != [] && b != [] && a[0] == b[0] {
      StringLessMeaning(a[1..], b[1..]);
      var u, v := a[1..], b[1..];
      if k :| 0 <= k <= |u| && k < |v| && u[..k] == v[..k] && (k == |u| || u[k] < v[k]) {
        assert a[..k + 1] == [a[0]] + a[1..][..k] && b[..k + 1] == [b[0]] + b[1..][..k];
        assert k + 1 == |a| || a[k + 1] < b[k + 1];
      }
      if k :| 0 <= k <= |a| && k < |b| && a[..k] == b[..k] && (k == |a| || a[k] < b[k]) {
        assert k > 0;
        assert a[1..][..k - 1] == a[..k][1..] && b[1..][..k - 1] == b[..k][1..];
        assert k - 1 == |a[1..]| || a[1..][k - 1] < b[1..][k - 1];
      }
    } else if b != [] {
      assert a[..0] == b[..0];
      if a != [] {
        assert forall k :: 0 < k <= |a| && k < |b| ==> a[..k][0] == a[0] && b[..k][0] == b[0];
      }
    }
  }

  const SENIOR_ENGINEERS := {"backend-engineer", "frontend-engineer", "devops-engineer", "qa-engineer"}

  /**
   * The executive before the senior engineers before everybody else; within a class the older request,
   * then by role.
   */
  predicate ServedBefore(a: Entry, b: Entry) {
    if a.role == "cto" || b.role == "cto" then a.role == "cto"
    else if a.role in SENIOR_ENGINEERS || b.role in SENIOR_ENGINEERS
      then a.role in SENIOR_ENGINEERS && (b.role in SENIOR_ENGINEERS ==> Older(a, b))
    else Older(a, b)
  }

  /** Asked for earlier, or at the same time under a role that is not greater. */
  predicate Older(a: Entry, b: Entry) {
    a.createdAt < b.createdAt || (a.createdAt == b.createdAt && !StringLess(b.role, a.role))
  }

  lemma PriorityMeaning(role: string)
    ensures PriorityForRole(role) == 0 <==> role == "cto"
    ensures PriorityForRole(role) == 1 <==> role in SENIOR_ENGINEERS
    ensures role in SENIOR_ENGINEERS ==> role != "cto"
    ensures 0 <= PriorityForRole(role) <= 2
  {
    assert "cto" !in SENIOR_ENGINEERS by {
      assert forall r :: r in SENIOR_ENGINEERS ==> |r| > 3;
    }
  }

  /** For entries with the priorities of their roles the tuple order is the order of service. */
  lemma BeforeIsOrderOfService(a: Entry, b: Entry)
    requires a.priority == PriorityForRole(a.role) && b.priority == PriorityForRole(b.role) && Before(a, b)
    ensures ServedBefore(a, b)
  {
    hide PriorityForRole, StringLess;
    StringLessTrichotomy(a.role, b.role);
    PriorityMeaning(a.role);
    PriorityMeaning(b.role);
  }

  predicate NotAfter(a: Entry, b: Entry) {
    !Before(b, a)
  }

  lemma {:induction false} StringLessTrichotomy(a: string, b: string)
    ensures StringLess(a, b) || a == b || StringLess(b, a)
    ensures !(StringLess(a, b) && StringLess(b, a))
    ensures !StringLess(a, a)
  {
    if a != [] && b != [] && a[0] == b[0] {
      StringLessTrichotomy(a[1..], b[1..]);
      assert a == [a[0]] + a[1..] && b == [b[0]] + b[1..];
    }
    if a != [] {
      StringLessTrichotomy(a[1..], a[1..]);
    }
  }

  lemma {:induction false} StringLessTransitive(a: string, b: string, c: string)
    requires StringLess(a, b) && StringLess(b, c)
    ensures StringLess(a, c)
  {
    if a != [] && a[0] == b[0] == c[0] {
      StringLessTransitive(a[1..], b[1..], c[1..]);
    }
  }

  /** `Before` is a strict total order, so the heap has exactly one minimum. */
  lemma BeforeIsTotal(a: Entry, b: Entry)
    ensures Before(a, b) || a == b || Before(b, a)
    ensures !(Before(a, b) && Before(b, a))
    ensures !Before(a, a)
  {
    StringLessTrichotomy(a.role, b.role);
    StringLessTrichotomy(a.agentId, b.agentId);
    StringLessTrichotomy(a.role, a.role);
    StringLessTrichotomy(a.agentId, a.agentId);
  }

  lemma BeforeIsTransitive(a: Entry, b: Entry, c: Entry)
    requires Before(a, b) && Before(b, c)
    ensures Before(a, c)
  {
    if StringLess(a.role, b.role) && StringLess(b.role, c.role) {
      StringLessTransitive(a.role, b.role, c.role);
    }
    if StringLess(a.agentId, b.agentId) && StringLess(b.agentId, c.agentId) {
      StringLessTransitive(a.agentId, b.agentId, c.agentId);
    }
  }

  lemma NotAfterIsTransitive(a: Entry, b: Entry, c: Entry)
    requires NotAfter(a, b) && NotAfter(b, c)
    ensures NotAfter(a, c)
  {
    if Before(c, a) {
      BeforeIsTotal(b, c);
      BeforeIsTotal(a, b);
      if b != c {
        BeforeIsTransitive(b, c, a);
      }
    }
  }
}

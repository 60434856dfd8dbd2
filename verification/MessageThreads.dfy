/** Threads of messages as a table with a self-reference: what keeps them a partition. */
module MessageThreads {
  import opened Options

  type Id = string

  datatype Message = Message(
    sender: string, recipient: string, parent: Option<Id>, topic: string, content: string,
    createdAt: int, ttl: int, readBy: seq<string>)
  {
    /** A message without a positive time to live never expires. */
    predicate Expired(now: int) {
      ttl > 0 && createdAt + ttl < now
    }
  }

  type Table = map<Id, Message>

  /** `COALESCE(parent_id, id)`. */
  function Root(rows: Table, id: Id): Id
    requires id in rows
  {
    if rows[id].parent.Some? then rows[id].parent.value else id
  }

  /** The rows `get_thread` selects. */
  function Thread(rows: Table, id: Id): set<Id> {
    if id !in rows then {}
    else set k | k in rows && (k == Root(rows, id) || rows[k].parent == Some(Root(rows, id)))
  }

  /** Every parent is an existing message that has no parent itself. */
  ghost predicate Rooted(rows: Table) {
    forall k | k in rows && rows[k].parent.Some? :: IsRoot(rows, rows[k].parent.value)
  }

  /** The table's own guarantee: references exist. */
  ghost predicate ParentsExist(rows: Table) {
    forall k | k in rows && rows[k].parent.Some? :: rows[k].parent.value in rows
  }

  predicate IsRoot(rows: Table, id: Id) {
    id in rows && rows[id].parent.None?
  }

  /** Threads are the blocks of a partition: each message is in its own, and any member names the same one. */
  ghost predicate ThreadsPartition(rows: Table) {
    && (forall a | a in rows :: a in Thread(rows, a))
    && (forall a, b | a in rows && b in Thread(rows, a) :: Thread(rows, b) == Thread(rows, a))
  }

  /** Deleting rows nulls the references to them. */
  function Delete(rows: Table, victims: set<Id>): (after: Table)
    ensures after.Keys == rows.Keys - victims
    ensures forall k | k in after :: after[k] == rows[k].(parent := after[k].parent)
  {
    map k | k in rows && k !in victims ::
      if rows[k].parent.Some? && rows[k].parent.value in victims then rows[k].(parent := None) else rows[k]
  }

  /** Threads depend on the parents alone. */
  lemma SameParentsSameThreads(rows: Table, after: Table)
    requires after.Keys == rows.Keys && forall k | k in rows :: after[k].parent == rows[k].parent
    ensures forall k :: Thread(after, k) == Thread(rows, k)
    ensures Rooted(rows) <==> Rooted(after)
  {
    if Rooted(rows) {
      forall k | k in after && after[k].parent.Some?
        ensures IsRoot(after, after[k].parent.value)
      {
        assert IsRoot(rows, rows[k].parent.value);
      }
    }
    if Rooted(after) {
      forall k | k in rows && rows[k].parent.Some?
        ensures IsRoot(rows, rows[k].parent.value)
      {
        assert IsRoot(after, after[k].parent.value);
      }
    }
  }

  lemma RootedPartitions(rows: Table)
    requires Rooted(rows)
    ensures ThreadsPartition(rows)
  {
    forall a, b | a in rows && b in Thread(rows, a)
      ensures Thread(rows, b) == Thread(rows, a)
    {
      assert Root(rows, b) == Root(rows, a);
    }
  }

  /** Different threads share no message. */
  lemma ThreadsAreDisjoint(rows: Table, a: Id, b: Id)
    requires ThreadsPartition(rows) && a in rows && b in rows
    ensures Thread(rows, a) == Thread(rows, b) || Thread(rows, a) !! Thread(rows, b)
  {
    if c :| c in Thread(rows, a) && c in Thread(rows, b) {
      assert Thread(rows, c) == Thread(rows, a) && Thread(rows, c) == Thread(rows, b);
    }
  }

  lemma DeleteKeepsParents(rows: Table, victims: set<Id>)
    requires ParentsExist(rows)
    ensures ParentsExist(Delete(rows, victims))
  {
  }

  lemma InsertKeepsParents(rows: Table, id: Id, message: Message)
    requires ParentsExist(rows) && (message.parent.Some? ==> message.parent.value in rows)
    ensures ParentsExist(rows[id := message])
  {
  }

  /** Deletions split or shrink threads but leave every parent a root. */
  lemma DeleteKeepsRooted(rows: Table, victims: set<Id>)
    requires Rooted(rows)
    ensures Rooted(Delete(rows, victims))
  {
    var after := Delete(rows, victims);
    forall k | k in after && after[k].parent.Some?
      ensures IsRoot(after, after[k].parent.value)
    {
      assert IsRoot(rows, rows[k].parent.value);
    }
  }

  /** After a deletion, survivors whose root survives still share its thread; the others are roots of their own. */
  lemma DeletedThreads(rows: Table, victims: set<Id>, id: Id)
    requires Rooted(rows) && id in rows && id !in victims
    ensures Thread(Delete(rows, victims), id) ==
      if Root(rows, id) in victims then {id} else Thread(rows, id) - victims
  {
    var after := Delete(rows, victims);
    if Root(rows, id) in victims {
      assert Root(after, id) == id;
      forall k | k in rows && rows[k].parent.Some?
        ensures rows[k].parent.value != id
      {
        assert IsRoot(rows, rows[k].parent.value);
      }
    } else {
      assert Root(after, id) == Root(rows, id);
      assert Thread(after, id) == Thread(rows, id) - victims;
    }
  }

  /** A new message keeps the threads a partition exactly when its parent, if any, is a root. */
  lemma InsertKeepsPartitionIff(rows: Table, id: Id, message: Message)
    requires Rooted(rows) && id !in rows
    requires message.parent.Some? ==> message.parent.value in rows
    ensures ThreadsPartition(rows[id := message]) <==> message.parent.None? || IsRoot(rows, message.parent.value)
    ensures ThreadsPartition(rows[id := message]) ==> Rooted(rows[id := message])
  {
    var after := rows[id := message];
    if message.parent.None? || IsRoot(rows, message.parent.value) {
      assert Rooted(after) by {
        forall k | k in after && after[k].parent.Some?
          ensures IsRoot(after, after[k].parent.value)
        {
          assert k != id ==> IsRoot(rows, rows[k].parent.value);
        }
      }
      RootedPartitions(after);
    } else {
      var p := message.parent.value;
      var q := rows[p].parent.value;
      assert IsRoot(rows, q);
      assert p in Thread(after, id) && id !in Thread(after, p) && id in Thread(after, id);
    }
  }

  /** The set of roots that `COUNT(DISTINCT COALESCE(parent_id, id))` counts. */
  function Roots(rows: Table): set<Id> {
    set k | k in rows :: Root(rows, k)
  }

  ghost function Threads(rows: Table): set<set<Id>> {
    set k | k in rows :: Thread(rows, k)
  }

  /** The statistics count every thread once. */
  lemma RootsCountThreads(rows: Table)
    requires Rooted(rows)
    ensures |Roots(rows)| == |Threads(rows)|
  {
    forall r | r in Roots(rows)
      ensures IsRoot(rows, r)
    {
      var k :| k in rows && Root(rows, k) == r;
    }
    assert Threads(rows) == set r | r in Roots(rows) :: Thread(rows, r) by {
      forall k | k in rows
        ensures Thread(rows, k) == Thread(rows, Root(rows, k)) && Root(rows, k) in Roots(rows)
      {
      }
    }
    forall r, s | r in Roots(rows) && s in Roots(rows) && r != s
      ensures Thread(rows, r) != Thread(rows, s)
    {
      assert r in Thread(rows, r) && r !in Thread(rows, s);
    }
    ImagesCount(rows, Roots(rows));
  }

  /** Distinct threads of distinct roots are as many as the roots. */
  lemma {:induction false} ImagesCount(rows: Table, roots: set<Id>)
    requires forall r, s :: r in roots && s in roots && r != s ==> Thread(rows, r) != Thread(rows, s)
    ensures |set r | r in roots :: Thread(rows, r)| == |roots|
  {
    if roots != {} {
      var r :| r in roots;
      var rest := roots - {r};
      ImagesCount(rows, rest);
      assert (set s | s in roots :: Thread(rows, s)) == (set s | s in rest :: Thread(rows, s)) + {Thread(rows, r)};
    } else {
      assert (set r | r in roots :: Thread(rows, r)) == {};
    }
  }
}

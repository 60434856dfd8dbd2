/** The message store of agents/message_store.py: sending, replying, read marks, expiry and eviction. */
module MessageStores {
  import opened Options
  import opened Eviction
  import opened MessageThreads
  import opened ReadMarks

  datatype SendResult = Sent | NoSuchParent

  function CreationTimes(rows: Table): (times: map<Id, int>)
    ensures times.Keys == rows.Keys
  {
    map k | k in rows :: rows[k].createdAt
  }

  /** The message is meant for the agent and has not expired. */
  predicate Addressed(m: Message, agent: string, now: int) {
    (m.recipient == agent || m.recipient == "*") && !m.Expired(now)
  }

  /** The rows `get_unread` selects, before it takes the newest of them. */
  function Unread(rows: Table, agent: string, now: int): set<Id> {
    set k | k in rows && Addressed(rows[k], agent, now) && !Like(ReaderPattern(agent), Print(rows[k].readBy))
  }

  ghost predicate PlainReaders(rows: Table) {
    forall k | k in rows :: AllNames(rows[k].readBy)
  }

  /** For plain agent names the text search selects exactly the addressed messages the agent has not marked. */
  lemma UnreadIsUnmarked(rows: Table, agent: string, now: int)
    requires PlainReaders(rows) && IsName(agent) && '_' !in agent
    ensures Unread(rows, agent, now) ==
      set k | k in rows && (rows[k].recipient == agent || rows[k].recipient == "*")
        && (rows[k].ttl <= 0 || rows[k].createdAt + rows[k].ttl >= now) && agent !in rows[k].readBy
  {
    forall k | k in rows
      ensures Like(ReaderPattern(agent), Print(rows[k].readBy)) <==> agent in rows[k].readBy
    {
      SearchIsMembership(agent, rows[k].readBy);
    }
  }

  lemma UnreadAreRows(rows: Table, agent: string, now: int)
    ensures Unread(rows, agent, now) <= rows.Keys
  {
  }

  lemma NewestStay(rows: Table, keys: set<Id>, times: map<Id, int>, dropped: set<Id>, n: nat)
    requires keys <= rows.Keys && times.Keys == keys && forall k :: k in keys ==> times[k] == rows[k].createdAt
    requires Oldest(times, dropped, n)
    ensures dropped <= keys && |keys - dropped| == |keys| - n
    ensures forall v, k :: v in dropped && k in keys - dropped ==> rows[v].createdAt <= rows[k].createdAt
  {
    assert keys == dropped + (keys - dropped);
  }

  lemma NoneIsOldest(times: map<Id, int>)
    ensures Oldest(times, {}, 0)
  {
  }

  lemma SameKeys(rows: Table, keys: set<Id>, order: seq<Id>)
    requires OldestFirst(CreationTimes(rows), keys, order)
    ensures forall k :: k in order <==> k in keys
    ensures forall k :: k in order ==> k in rows
    ensures forall i, j :: 0 <= i < j < |order| ==> rows[order[i]].createdAt <= rows[order[j]].createdAt
  {
  }

  /** A message leaves an agent's unread set exactly when it is marked, and no other message does. */
  lemma MarkLeavesUnread(rows: Table, id: Id, agent: string, readBy: seq<string>, now: int)
    requires PlainReaders(rows) && IsName(agent) && '_' !in agent && id in rows
    requires readBy == rows[id].readBy + if agent in rows[id].readBy then [] else [agent]
    ensures PlainReaders(rows[id := rows[id].(readBy := readBy)])
    ensures Unread(rows[id := rows[id].(readBy := readBy)], agent, now) == Unread(rows, agent, now) - {id}
  {
    var after := rows[id := rows[id].(readBy := readBy)];
    assert PlainReaders(after);
    UnreadIsUnmarked(rows, agent, now);
    UnreadIsUnmarked(after, agent, now);
    hide Unread, Like;
    assert agent in readBy;
  }

  class MessageStore {
    const maxMessages: nat
    var rows: Table

    constructor (maxMessages: nat)
      ensures rows == map[] && this.maxMessages == maxMessages
    {
      this.maxMessages, rows := maxMessages, map[];
    }

    ghost predicate Valid()
      reads this`rows
    {
      ParentsExist(rows)
    }

    /** Inserts a message under a fresh id and evicts; a reference to a missing message is refused. */
    method Send(id: Id, message: Message) returns (result: SendResult, ghost evicted: set<Id>)
      requires Valid() && id !in rows
      modifies this`rows
      ensures Valid()
      ensures result == NoSuchParent <==> message.parent.Some? && message.parent.value !in old(rows)
      ensures result == NoSuchParent ==> rows == old(rows)
      ensures result == Sent ==>
        var written := old(rows)[id := message];
        && Oldest(CreationTimes(written), evicted, Excess(|written|, maxMessages))
        && rows == Delete(written, evicted)
      ensures Rooted(old(rows)) && (message.parent.None? || IsRoot(old(rows), message.parent.value)) ==> Rooted(rows)
    {
      hide Oldest, Rooted, IsRoot, ThreadsPartition, Delete, ParentsExist;
      evicted := {};
      if message.parent.Some? && message.parent.value !in rows {
        return NoSuchParent, evicted;
      }
      if Rooted(rows) {
        InsertKeepsPartitionIff(rows, id, message);
      }
      InsertKeepsParents(rows, id, message);
      rows := rows[id := message];
      evicted := EvictIfNeeded();
      return Sent, evicted;
    }

    /** Deletes the oldest messages beyond the limit; ties go either way. */
    method EvictIfNeeded() returns (ghost evicted: set<Id>)
      requires Valid()
      modifies this`rows
      ensures Valid()
      ensures Oldest(CreationTimes(old(rows)), evicted, Excess(|old(rows)|, maxMessages))
      ensures rows == Delete(old(rows), evicted)
      ensures |rows| <= maxMessages
      ensures forall v, k :: v in evicted && k in rows ==> old(rows)[v].createdAt <= old(rows)[k].createdAt
      ensures Rooted(old(rows)) ==> Rooted(rows)
    {
      assert |CreationTimes(rows).Keys| == |rows.Keys|;
      if |rows| <= maxMessages {
        evicted := {};
        assert Delete(rows, {}) == rows;
        return;
      }
      hide Oldest, Rooted, ParentsExist;
      var victims := FindOldest(CreationTimes(rows), |rows| - maxMessages);
      if Rooted(rows) {
        DeleteKeepsRooted(rows, victims);
      }
      DeleteKeepsParents(rows, victims);
      assert |rows.Keys - victims| == |rows.Keys| - |victims|;
      rows := Delete(rows, victims);
      evicted := victims;
    }

    /** Answers a message in its thread: the parent of a reply is the root of the thread. */
    method Reply(parentId: Id, id: Id, content: string, sender: string, now: int)
      returns (found: bool, ghost evicted: set<Id>)
      requires Valid() && id !in rows
      modifies this`rows
      ensures Valid() && (Rooted(old(rows)) ==> Rooted(rows))
      ensures found <==> parentId in old(rows)
      ensures !found ==> rows == old(rows)
      ensures found ==>
        var reply := Message(sender, old(rows)[parentId].sender, Some(Root(old(rows), parentId)),
          old(rows)[parentId].topic,
                             content, now, old(rows)[parentId].ttl, []);
        var written := old(rows)[id := reply];
        && Oldest(CreationTimes(written), evicted, Excess(|written|, maxMessages))
        && rows == Delete(written, evicted)
        && (Rooted(old(rows)) ==> Thread(written, id) == Thread(old(rows), parentId) + {id})
    {
      evicted := {};
      if parentId !in rows {
        return false, evicted;
      }
      hide Oldest;
      var parent := rows[parentId];
      var root := if parent.parent.Some? then parent.parent.value else parentId;
      assert Rooted(rows) ==> IsRoot(rows, root);
      var result;
      result, evicted := Send(id,
        Message(sender, parent.sender, Some(root), parent.topic, content, now, parent.ttl, []));
      return true, evicted;
    }

    /** Adds the agent to the readers once. */
    method MarkRead(id: Id, agent: string)
      requires Valid()
      modifies this`rows
      ensures Valid()
      ensures id !in old(rows) ==> rows == old(rows)
      ensures id in old(rows) ==>
        rows == old(rows)[id := old(rows)[id].(readBy :=
          if agent in old(rows)[id].readBy then old(rows)[id].readBy else old(rows)[id].readBy + [agent])]
      ensures Rooted(old(rows)) ==> Rooted(rows)
      ensures forall k :: Thread(rows, k) == Thread(old(rows), k)
      ensures PlainReaders(old(rows)) && IsName(agent) ==> PlainReaders(rows)
      ensures PlainReaders(old(rows)) && IsName(agent) && '_' !in agent ==>
        forall now :: Unread(rows, agent, now) == Unread(old(rows), agent, now) - {id}
    {
      if id !in rows {
        return;
      }
      var readBy := rows[id].readBy;
      if agent !in readBy {
        readBy := readBy + [agent];
      }
      SameParentsSameThreads(rows, rows[id := rows[id].(readBy := readBy)]);
      if PlainReaders(rows) && IsName(agent) && '_' !in agent {
        forall now: int
          ensures Unread(rows[id := rows[id].(readBy := readBy)], agent, now) == Unread(rows, agent, now) - {id}
        {
          MarkLeavesUnread(rows, id, agent, readBy, now);
        }
      }
      hide Unread, Thread, Rooted;
      rows := rows[id := rows[id].(readBy := readBy)];
    }

    /** Deletes the messages past their expiry. */
    method CleanupExpired(now: int) returns (count: nat)
      requires Valid()
      modifies this`rows
      ensures Valid() && count == |old(rows)| - |rows|
      ensures rows == Delete(old(rows),
        set k | k in old(rows) && old(rows)[k].ttl > 0 && old(rows)[k].createdAt + old(rows)[k].ttl < now)
      ensures Rooted(old(rows)) ==> Rooted(rows)
    {
      hide Delete, Rooted, ParentsExist;
      var victims := set k | k in rows && rows[k].Expired(now);
      assert victims == set k | k in rows && rows[k].ttl > 0 && rows[k].createdAt + rows[k].ttl < now;
      if Rooted(rows) {
        DeleteKeepsRooted(rows, victims);
      }
      DeleteKeepsParents(rows, victims);
      assert |rows.Keys - victims| == |rows.Keys| - |victims|;
      count := |victims|;
      rows := Delete(rows, victims);
    }

    /** The thread of a message, oldest message first. */
    method GetThread(id: Id) returns (messages: seq<Id>)
      ensures OldestFirst(CreationTimes(rows), Thread(rows, id), messages)
      ensures forall i, j :: 0 <= i < j < |messages| ==> rows[messages[i]].createdAt <= rows[messages[j]].createdAt
      ensures Rooted(rows) && id in rows ==> id in messages && forall k :: k in messages ==>
        Thread(rows, k) == Thread(rows, id)
    {
      if id !in rows {
        return [];
      }
      var root := if rows[id].parent.Some? then rows[id].parent.value else id;
      var members := set k | k in rows && (k == root || rows[k].parent == Some(root));
      assert members == Thread(rows, id);
      messages := InOrder(CreationTimes(rows), members);
      SameKeys(rows, members, messages);
      if Rooted(rows) {
        RootedPartitions(rows);
      }
    }

    /** The newest `limit` of the agent's unread messages, oldest first; a negative limit is none. */
    method GetUnread(agent: string, now: int, limit: int) returns (messages: seq<Id>, ghost older: set<Id>)
      ensures older <= Unread(rows, agent, now)
      ensures OldestFirst(CreationTimes(rows), Unread(rows, agent, now) - older, messages)
      ensures |messages| == if 0 <= limit < |Unread(rows, agent, now)| then limit else |Unread(rows, agent, now)|
      ensures forall v, k :: v in older && k in messages ==> rows[v].createdAt <= rows[k].createdAt
      ensures forall i, j :: 0 <= i < j < |messages| ==> rows[messages[i]].createdAt <= rows[messages[j]].createdAt
      ensures PlainReaders(rows) && IsName(agent) && '_' !in agent ==>
        forall k :: k in older || k in messages <==>
          && k in rows && (rows[k].recipient == agent || rows[k].recipient == "*")
          && (rows[k].ttl <= 0 || rows[k].createdAt + rows[k].ttl >= now) && agent !in rows[k].readBy
    {
      hide Unread, Addressed, PlainReaders, IsName, Oldest, OldestFirst;
      var unread := Unread(rows, agent, now);
      UnreadAreRows(rows, agent, now);
      var times := map k | k in unread :: rows[k].createdAt;
      assert times.Keys == unread && |times| == |times.Keys|;
      var dropped, excess := {}, 0;
      NoneIsOldest(times);
      if 0 <= limit < |unread| {
        excess := |unread| - limit;
        dropped := FindOldest(times, excess);
      }
      older := dropped;
      NewestStay(rows, unread, times, dropped, excess);
      messages := InOrder(CreationTimes(rows), unread - dropped);
      SameKeys(rows, unread - dropped, messages);
      if PlainReaders(rows) && IsName(agent) && '_' !in agent {
        UnreadIsUnmarked(rows, agent, now);
      }
    }
  }
}

/** The result cache of agents/artifact_store.py, against a fold over everything that happened to it. */
module ArtifactStores {
  import opened Eviction
  import opened Numbers
  import opened Options

  type Key = string

  datatype Artifact = Artifact(output: string, criticScore: int, finalScore: int, taskType: string, ttl: int)
  {
    /** The final score if there is one, the critic's otherwise. */
    function Score(): int {
      if finalScore > 0 then finalScore else criticScore
    }
  }

  datatype Row = Row(artifact: Artifact, createdAt: int, lastAccessed: int, accessCount: nat)

  datatype Event =
    | Offered(key: Key, artifact: Artifact, at: int)
    | Hit(key: Key, at: int)
    | Removed(keys: set<Key>)

  /** White space as `str.strip` has it. */
  predicate IsSpace(c: char) {
    var n := c as int;
    || 9 <= n <= 13 || 28 <= n <= 32 || n == 0x85 || n == 0xA0 || n == 0x1680
    || 0x2000 <= n <= 0x200A || n == 0x2028 || n == 0x2029 || n == 0x202F || n == 0x205F || n == 0x3000
  }

  /** No printable ASCII character is white space; blanks, tabs and line ends are. */
  lemma PrintableIsNoSpace(c: char)
    ensures '!' <= c <= '~' ==> !IsSpace(c)
    ensures c == ' ' || c == '\t' || c == '\n' || c == '\r' ==> IsSpace(c)
  {
  }

  predicate Blank(text: string) {
    forall c :: c in text ==> IsSpace(c)
  }

  predicate Acceptable(a: Artifact, minScore: int) {
    a.Score() >= minScore && !Blank(a.output)
  }

  /** The row of `key` after the history `h`: what `Step` makes of it, event by event. */
  function RowAfter(h: seq<Event>, key: Key, minScore: int): Option<Row> {
    if h == [] then None else Step(RowAfter(h[..|h| - 1], key, minScore), h[|h| - 1], key, minScore)
  }

  function Step(row: Option<Row>, e: Event, key: Key, minScore: int): Option<Row> {
    match e
    case Offered(k, a, at) =>
      if k == key && Acceptable(a, minScore)
        && (row.None? || row.value.artifact.Score() < a.Score()) then Some(Row(a, at, at, 0))
      else row
    case Hit(k, at) =>
      if k == key && row.Some? then Some(row.value.(lastAccessed := at, accessCount := row.value.accessCount + 1))
        else row
    case Removed(keys) => if key in keys then None else row
  }

  /** Event `i` offers an acceptable artifact for `key`. */
  ghost predicate AcceptableOffer(h: seq<Event>, i: nat, key: Key, minScore: int) {
    i < |h| && h[i].Offered? && h[i].key == key && Acceptable(h[i].artifact, minScore)
  }

  /** No event from `i` on removes `key`. */
  ghost predicate KeptFrom(h: seq<Event>, i: nat, key: Key) {
    forall j :: i <= j < |h| && h[j].Removed? ==> key !in h[j].keys
  }

  /** Offer `i` is the first of the best ones since the key was last removed. */
  ghost predicate FirstBest(h: seq<Event>, i: nat, key: Key, minScore: int) {
    && AcceptableOffer(h, i, key, minScore) && KeptFrom(h, i, key)
    && (forall j :: i < j < |h| && AcceptableOffer(h, j, key, minScore) ==>
      h[j].artifact.Score() <= h[i].artifact.Score())
    && (forall j :: 0 <= j < i && AcceptableOffer(h, j, key, minScore) && KeptFrom(h, j, key) ==>
      h[j].artifact.Score() < h[i].artifact.Score())
  }

  /**
   * A key holds an artifact exactly when one was acceptably offered since its last removal, and then
   * the first best one.
   */
  lemma {:induction false} RowHoldsFirstBest(h: seq<Event>, key: Key, minScore: int) returns (i: nat)
    ensures var row := RowAfter(h, key, minScore);
      if row.Some? then FirstBest(h, i, key, minScore) && row.value.artifact == h[i].artifact
        && row.value.createdAt == h[i].at
      else forall j :: AcceptableOffer(h, j, key, minScore) ==> !KeptFrom(h, j, key)
  {
    hide Acceptable, Artifact.Score;
    i := 0;
    if h != [] {
      var last := |h| - 1;
      var init := h[..last];
      i := RowHoldsFirstBest(init, key, minScore);
      var before, row := RowAfter(init, key, minScore), RowAfter(h, key, minScore);
      forall j: nat | j < last
        ensures AcceptableOffer(h, j, key, minScore) <==> AcceptableOffer(init, j, key, minScore)
        ensures KeptFrom(h, j, key) <==> KeptFrom(init, j, key) && !(h[last].Removed? && key in h[last].keys)
      {
        assert forall k :: j <= k < last ==> h[k] == init[k];
      }
      if row.Some? && (before.None? || row.value.artifact != before.value.artifact) {
        i := last;
      }
    }
  }

  function AccessTimes(rows: map<Key, Row>): (times: map<Key, int>)
    ensures times.Keys == rows.Keys
  {
    map k | k in rows :: rows[k].lastAccessed
  }

  class ArtifactStore {
    const minScoreToCache: int
    const maxEntries: int
    var rows: map<Key, Row>
    ghost var history: seq<Event>

    /** The table is the fold of the history, key by key. */
    ghost predicate Valid()
      reads this
    {
      forall key :: RowAfter(history, key, minScoreToCache) == if key in rows then Some(rows[key]) else None
    }

    constructor (minScoreToCache: int, maxEntries: int)
      ensures Valid() && rows == map[] && history == []
      ensures this.minScoreToCache == minScoreToCache && this.maxEntries == maxEntries
    {
      this.minScoreToCache, this.maxEntries := minScoreToCache, maxEntries;
      rows, history := map[], [];
    }

    /** A hit counts as an access; an expired row is removed and misses. */
    method Lookup(key: Key, now: int) returns (entry: Option<Row>)
      requires Valid()
      modifies this
      ensures Valid()
      ensures var live := key in old(rows)
        && (old(rows[key]).artifact.ttl <= 0 || now - old(rows[key]).createdAt <= old(rows[key]).artifact.ttl);
        && (entry.Some? <==> live)
        && (live ==> entry.value == old(rows[key]).(lastAccessed := now, accessCount := old(rows[key]).accessCount + 1))
        && rows == (if live then old(rows)[key := entry.value] else old(rows) - {key})
      ensures history == old(history) +
        (if entry.Some? then [Hit(key, now)] else if key in old(rows) then [Removed({key})] else [])
    {
      if key !in rows {
        return None;
      }
      var row := rows[key];
      if row.artifact.ttl > 0 && now - row.createdAt > row.artifact.ttl {
        rows := rows - {key};
        history := history + [Removed({key})];
        assert history[..|history| - 1] == old(history);
        return None;
      }
      row := row.(lastAccessed := now, accessCount := row.accessCount + 1);
      rows := rows[key := row];
      history := history + [Hit(key, now)];
      assert history[..|history| - 1] == old(history);
      return Some(row);
    }

    /** Stores an acceptable artifact that beats the one held, then evicts down to the limit. */
    method Store(key: Key, artifact: Artifact, now: int) returns (stored: bool, ghost evicted: set<Key>)
      requires Valid()
      modifies this
      ensures Valid()
      ensures var offered := if artifact.finalScore > 0 then artifact.finalScore else artifact.criticScore;
        stored <==>
          && offered >= minScoreToCache && (exists c :: c in artifact.output && !IsSpace(c))
          && (key in old(rows) ==>
                var held := old(rows[key]).artifact;
                offered > if held.finalScore > 0 then held.finalScore else held.criticScore)
      ensures !stored ==> rows == old(rows) && history == old(history) + [Offered(key, artifact, now)]
      ensures stored ==>
        var written := old(rows)[key := Row(artifact, now, now, 0)];
        && Oldest(AccessTimes(written), evicted, Excess(|written|, maxEntries)) && rows == written - evicted
        && |rows| <= AtLeastZero(maxEntries)
        && (forall v, k :: v in evicted && k in rows ==> written[v].lastAccessed <= written[k].lastAccessed)
        && history == old(history) + [Offered(key, artifact, now)] + if evicted == {} then [] else [Removed(evicted)]
    {
      hide Oldest;
      evicted := {};
      history := history + [Offered(key, artifact, now)];
      assert history[..|history| - 1] == old(history);
      if artifact.Score() < minScoreToCache {
        return false, evicted;
      }
      if Blank(artifact.output) {
        return false, evicted;
      }
      if key in rows {
        if rows[key].artifact.Score() >= artifact.Score() {
          return false, evicted;
        }
      }
      rows := rows[key := Row(artifact, now, now, 0)];
      assert Valid();
      hide Valid, RowAfter;
      ghost var victims := EvictIfNeeded();
      return true, victims;
    }

    /** Deletes the least recently accessed rows beyond the limit; ties go either way. */
    method EvictIfNeeded() returns (ghost victims: set<Key>)
      requires Valid()
      modifies this
      ensures Valid()
      ensures Oldest(AccessTimes(old(rows)), victims, Excess(|old(rows)|, maxEntries)) && rows == old(rows) - victims
      ensures |rows| <= AtLeastZero(maxEntries)
      ensures forall v, k :: v in victims && k in rows ==> old(rows)[v].lastAccessed <= old(rows)[k].lastAccessed
      ensures history == old(history) + if victims == {} then [] else [Removed(victims)]
    {
      var count := |rows|;
      assert |AccessTimes(rows).Keys| == |rows.Keys|;
      if count <= maxEntries {
        victims := {};
        assert rows - {} == rows;
        return;
      }
      var doomed := FindOldest(AccessTimes(rows), Excess(count, maxEntries));
      victims := doomed;
      hide Oldest;
      RemovalLeaves(rows, doomed);
      rows := rows - doomed;
      if doomed != {} {
        history := history + [Removed(doomed)];
        assert history[..|history| - 1] == old(history);
      }
    }

    method Invalidate(key: Key) returns (removed: bool)
      requires Valid()
      modifies this
      ensures Valid() && rows == old(rows) - {key} && (removed <==> key in old(rows))
      ensures history == old(history) + [Removed({key})]
    {
      removed := key in rows;
      rows := rows - {key};
      history := history + [Removed({key})];
      assert history[..|history| - 1] == old(history);
    }

    /** Every row of the task type, and no other. */
    method InvalidateByTaskType(taskType: string) returns (count: nat)
      requires Valid()
      modifies this
      ensures Valid() && count == |old(rows)| - |rows|
      ensures forall k :: k in rows <==> k in old(rows) && old(rows)[k].artifact.taskType != taskType
      ensures forall k :: k in rows ==> rows[k] == old(rows)[k]
      ensures history ==
        old(history) + [Removed(set k | k in old(rows) && old(rows)[k].artifact.taskType == taskType)]
    {
      var doomed := set k | k in rows && rows[k].artifact.taskType == taskType;
      RemovalLeaves(rows, doomed);
      count := |doomed|;
      rows := rows - doomed;
      history := history + [Removed(doomed)];
      assert history[..|history| - 1] == old(history);
    }
  }

  lemma RemovalLeaves(rows: map<Key, Row>, victims: set<Key>)
    requires victims <= rows.Keys
    ensures |rows - victims| == |rows| - |victims|
  {
    assert (rows - victims).Keys == rows.Keys - victims;
  }
}

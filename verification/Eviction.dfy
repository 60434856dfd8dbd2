/** Choosing rows of a table by age: `ORDER BY ... LIMIT n`, with ties going either way. */
module Eviction {
  /** `victims` are `n` keys none of which is younger than a key that stays. */
  predicate Oldest(times: map<string, int>, victims: set<string>, n: nat) {
    && victims <= times.Keys && |victims| == n
    && forall v, k :: v in victims && k in times.Keys - victims ==> times[v] <= times[k]
  }

  lemma {:induction false} OldestKey(times: map<string, int>, keys: set<string>) returns (k: string)
    requires keys <= times.Keys && keys != {}
    ensures k in keys && forall j :: j in keys ==> times[k] <= times[j]
  {
    k :| k in keys;
    if keys - {k} != {} {
      var other := OldestKey(times, keys - {k});
      if times[other] < times[k] {
        k := other;
      }
    }
  }

  lemma {:induction false} OldestExist(times: map<string, int>, n: nat) returns (victims: set<string>)
    requires n <= |times|
    ensures Oldest(times, victims, n)
  {
    if n == 0 {
      victims := {};
    } else {
      var fewer := OldestExist(times, n - 1);
      assert |times.Keys - fewer| == |times.Keys| - |fewer|;
      var next := OldestKey(times, times.Keys - fewer);
      victims := fewer + {next};
    }
  }

  method FindOldest(times: map<string, int>, n: nat) returns (victims: set<string>)
    requires n <= |times|
    ensures Oldest(times, victims, n)
  {
    ghost var some := OldestExist(times, n);
    assert some <= times.Keys && |some| == n;
    hide Oldest;
    victims :| victims <= times.Keys && |victims| == n && Oldest(times, victims, n);
  }

  /** The keys, each once, oldest first. */
  ghost predicate OldestFirst(times: map<string, int>, keys: set<string>, order: seq<string>) {
    && (forall k :: k in order <==> k in keys)
    && (forall k :: k in keys ==> k in times)
    && (forall i, j :: 0 <= i < j < |order| ==> order[i] != order[j] && times[order[i]] <= times[order[j]])
  }

  lemma OneMoreInOrder(times: map<string, int>, keys: set<string>, order: seq<string>, k: string)
    requires OldestFirst(times, keys, order) && k in times && k !in keys
    requires forall j :: j in keys ==> times[j] <= times[k]
    ensures OldestFirst(times, keys + {k}, order + [k])
  {
  }

  method InOrder(times: map<string, int>, keys: set<string>) returns (order: seq<string>)
    requires keys <= times.Keys
    ensures OldestFirst(times, keys, order) && |order| == |keys|
  {
    order := [];
    var left := keys;
    while left != {}
      invariant left <= keys && |order| == |keys| - |left| && OldestFirst(times, keys - left, order)
      invariant forall k, j :: k in keys - left && j in left ==> times[k] <= times[j]
    {
      hide OldestFirst;
      ghost var oldest := OldestKey(times, left);
      var k :| k in left && forall j :: j in left ==> times[k] <= times[j];
      OneMoreInOrder(times, keys - left, order, k);
      assert keys - (left - {k}) == keys - left + {k};
      order := order + [k];
      left := left - {k};
    }
    assert keys - left == keys;
  }

  /** How many rows have to go; a negative limit empties the table. */
  function Excess(count: nat, limit: int): (n: nat)
    ensures n <= count && count - n <= (if limit < 0 then 0 else limit)
    ensures n > 0 ==> count - n == if limit < 0 then 0 else limit
  {
    if count <= limit then 0 else if limit < 0 then count else count - limit
  }
}

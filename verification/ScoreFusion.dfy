/**
 * Score fusion: `hybrid_search` of agents/message_store.py, which rewrites the scores of the result
 * objects in place, and the two-source branch of `hybrid_recall` of agents/memory_store.py.
 */
module ScoreFusion {
  import opened Distinctness
  import opened Options

  /** A search result; its score is rewritten during fusion. */
  class Entry {
    const id: string
    var score: real

    constructor (id: string, score: real)
      ensures this.id == id && this.score == score
    {
      this.id, this.score := id, score;
    }
  }

  datatype Scored = Scored(id: string, score: real)

  ghost function Snapshot(list: seq<Entry>): (s: seq<Scored>)
    reads list
    ensures |s| == |list| && forall i :: 0 <= i < |s| ==> s[i] == Scored(list[i].id, list[i].score)
  {
    seq(|list|, i requires 0 <= i < |list| reads list => Scored(list[i].id, list[i].score))
  }

  ghost predicate DistinctIds(list: seq<Entry>) {
    forall i, j :: 0 <= i < j < |list| ==> list[i].id != list[j].id
  }

  /** The score a list gives to an id. */
  ghost function Lookup(list: seq<Scored>, id: string): Option<real> {
    if list == [] then None
    else if list[|list| - 1].id == id then Some(list[|list| - 1].score)
    else Lookup(list[..|list| - 1], id)
  }

  /** A side that does not know the id counts as zero. */
  ghost function ScoreIn(list: seq<Scored>, id: string): real {
    if Lookup(list, id).Some? then Lookup(list, id).value else 0.0
  }

  ghost function Ids(list: seq<Scored>): set<string> {
    set s | s in list :: s.id
  }

  lemma {:induction false} LookupMember(list: seq<Scored>, k: nat)
    requires k < |list| && forall i, j :: 0 <= i < j < |list| ==> list[i].id != list[j].id
    ensures Lookup(list, list[k].id) == Some(list[k].score)
  {
    if k < |list| - 1 {
      LookupMember(list[..|list| - 1], k);
    }
  }

  /** The highest score of a non-empty list. */
  ghost predicate IsMaximum(max: real, list: seq<Scored>) {
    && (forall i :: 0 <= i < |list| ==> list[i].score <= max)
    && (list != [] ==> exists i :: 0 <= i < |list| && list[i].score == max)
  }

  method MaxScore(list: seq<Entry>) returns (max: real)
    requires list != []
    ensures IsMaximum(max, Snapshot(list))
  {
    max := list[0].score;
    ghost var at := 0;
    for i := 1 to |list|
      invariant 0 <= at < i && list[at].score == max
      invariant forall j :: 0 <= j < i ==> list[j].score <= max
    {
      if list[i].score > max {
        max := list[i].score;
        at := i;
      }
    }
    assert Snapshot(list)[at].score == max;
  }

  ghost predicate Descending(list: seq<Entry>)
    reads list
  {
    forall i, j :: 0 <= i < j < |list| ==> list[i].score >= list[j].score
  }

  /** Inserts an entry behind all that score no less. */
  method InsertByScore(list: seq<Entry>, e: Entry) returns (sorted: seq<Entry>)
    requires Descending(list)
    ensures Descending(sorted) && multiset(sorted) == multiset(list) + multiset{e}
  {
    var at := |list|;
    while at > 0 && list[at - 1].score < e.score
      invariant 0 <= at <= |list|
      invariant at < |list| ==> list[at].score < e.score
    {
      at := at - 1;
    }
    InsertionIsDescending(list, at, e);
    assert list == list[..at] + list[at..];
    hide Descending;
    sorted := list[..at] + [e] + list[at..];
  }

  lemma InsertionIsDescending(list: seq<Entry>, at: nat, e: Entry)
    requires at <= |list| && Descending(list)
    requires at > 0 ==> list[at - 1].score >= e.score
    requires at < |list| ==> list[at].score < e.score
    ensures Descending(list[..at] + [e] + list[at..])
  {
    var s := list[..at] + [e] + list[at..];
    forall i, j | 0 <= i < j < |s|
      ensures s[i].score >= s[j].score
    {
      assert forall k :: 0 <= k < at ==> s[k] == list[k] && list[k].score >= list[at - 1].score;
      assert forall k :: at < k < |s| ==> s[k] == list[k - 1] && list[at].score >= list[k - 1].score;
    }
  }

  /** The results in descending order of score. */
  method SortByScore(list: seq<Entry>) returns (sorted: seq<Entry>)
    ensures multiset(sorted) == multiset(list) && Descending(sorted)
  {
    hide Descending;
    sorted := [];
    assert Descending([]) by {
      NothingIsDescending();
    }
    for i := 0 to |list|
      invariant multiset(sorted) == multiset(list[..i]) && Descending(sorted)
    {
      assert list[..i + 1] == list[..i] + [list[i]];
      sorted := InsertByScore(sorted, list[i]);
    }
    assert list[..|list|] == list;
  }

  lemma NothingIsDescending()
    ensures Descending([])
  {
  }

  /** The results are the `n` best of the candidates by `value`, best first, each id once and scored by `value`. */
  ghost predicate IsTop(results: seq<Entry>, candidates: set<string>, value: string -> real, n: nat)
    reads results
  {
    && |results| == (if n < |candidates| then n else |candidates|)
    && DistinctIds(results)
    && (forall i :: 0 <= i < |results| ==> results[i].id in candidates && results[i].score == value(results[i].id))
    && Descending(results)
    && (forall id, i ::
      (id in candidates && 0 <= i < |results| && forall j :: 0 <= j < |results| ==> results[j].id != id) ==>
      value(id) <= results[i].score)
  }

  /** The entries hold each candidate once, scored by `value`. */
  ghost predicate Fused(merged: seq<Entry>, candidates: set<string>, value: string -> real)
    reads merged
  {
    && DistinctIds(merged)
    && (forall i :: 0 <= i < |merged| ==> merged[i].score == value(merged[i].id))
    && (forall id :: id in candidates <==> exists i :: 0 <= i < |merged| && merged[i].id == id)
  }

  lemma {:induction false} DistinctIdsCount(list: seq<Entry>, ids: set<string>)
    requires DistinctIds(list) && forall id :: id in ids <==> exists i :: 0 <= i < |list| && list[i].id == id
    ensures |ids| == |list|
  {
    if list != [] {
      var last := |list| - 1;
      var rest := ids - {list[last].id};
      forall id
        ensures id in rest <==> exists i :: 0 <= i < last && list[..last][i].id == id
      {
        if i :| 0 <= i < last && list[..last][i].id == id {
          assert list[i].id == id;
        }
        if id in rest {
          var i :| 0 <= i < |list| && list[i].id == id;
          assert list[..last][i].id == id;
        }
      }
      DistinctIdsCount(list[..last], rest);
      assert ids == rest + {list[last].id};
    } else {
      assert ids == {};
    }
  }

  lemma PermutedFused(merged: seq<Entry>, sorted: seq<Entry>, candidates: set<string>, value: string -> real)
    requires Fused(merged, candidates, value) && multiset(sorted) == multiset(merged)
    ensures Fused(sorted, candidates, value)
  {
    assert |multiset(sorted)| == |sorted| && |multiset(merged)| == |merged|;
    forall i | 0 <= i < |sorted|
      ensures sorted[i] in merged
    {
      assert sorted[i] in multiset(merged);
    }
    forall i | 0 <= i < |merged|
      ensures merged[i] in sorted
    {
      assert merged[i] in multiset(sorted);
    }
    PermutationKeepsDistinctIds(merged, sorted);
  }

  lemma PermutationKeepsDistinctIds(a: seq<Entry>, b: seq<Entry>)
    requires DistinctIds(a) && multiset(b) == multiset(a)
    ensures DistinctIds(b)
  {
    assert NoDuplicates(a);
    PermutationKeepsDistinct(b, a);
    forall i, j | 0 <= i < j < |b|
      ensures b[i].id != b[j].id
    {
      assert b[i] in a && b[j] in a && b[i] != b[j];
    }
  }

  /** Sorting and cutting off yields the best `n`. */
  method TakeBest(merged: seq<Entry>, n: nat, ghost candidates: set<string>, ghost value: string -> real)
    returns (results: seq<Entry>)
    requires Fused(merged, candidates, value)
    ensures IsTop(results, candidates, value, n)
    ensures forall r :: r in results ==> r in merged
  {
    hide *;
    var sorted := SortByScore(merged);
    PermutedFused(merged, sorted, candidates, value);
    results := if n < |sorted| then sorted[..n] else sorted;
    CutIsTop(sorted, n, candidates, value);
    forall r | r in results
      ensures r in merged
    {
      assert r in multiset(sorted);
    }
  }

  lemma CutIsTop(sorted: seq<Entry>, n: nat, candidates: set<string>, value: string -> real)
    requires Fused(sorted, candidates, value) && Descending(sorted)
    ensures IsTop(if n < |sorted| then sorted[..n] else sorted, candidates, value, n)
  {
    DistinctIdsCount(sorted, candidates);
    hide NoDuplicates;
    var results := if n < |sorted| then sorted[..n] else sorted;
    forall id, i | id in candidates && 0 <= i < |results| && (forall j :: 0 <= j < |results| ==> results[j].id != id)
      ensures value(id) <= results[i].score
    {
      var k :| 0 <= k < |sorted| && sorted[k].id == id;
      assert k >= |results|;
    }
  }

  /** The weighted sum of the two sides, for every id. */
  ghost function WeightedSum(keyword: seq<Scored>, semantic: seq<Scored>, keywordWeight: real,
      semanticWeight: real): string -> real
  {
    (id: string) => ScoreIn(keyword, id) * keywordWeight + ScoreIn(semantic, id) * semanticWeight
  }

  /** The dictionary of merged results, and its values in order of insertion. */
  ghost predicate Indexed(merged: map<string, Entry>, order: seq<Entry>) {
    && (forall i :: 0 <= i < |order| ==> order[i].id in merged && merged[order[i].id] == order[i])
    && (forall id :: id in merged ==> merged[id] in order && merged[id].id == id)
  }

  lemma LookupAppend(list: seq<Scored>, s: Scored)
    ensures forall id :: ScoreIn(list + [s], id) == if id == s.id then s.score else ScoreIn(list, id)
    ensures Ids(list + [s]) == Ids(list) + {s.id}
  {
    assert (list + [s])[..|list|] == list;
    assert s in list + [s];
    assert forall x :: x in list + [s] <==> x in list || x == s;
  }

  lemma {:induction false} UnknownScoresZero(list: seq<Scored>, id: string)
    requires id !in Ids(list)
    ensures ScoreIn(list, id) == 0.0
  {
    if list != [] {
      var last := |list| - 1;
      assert list[last] in list;
      forall x | x in list[..last]
        ensures x in list
      {
      }
      UnknownScoresZero(list[..last], id);
    }
  }

  /** Takes over a keyword result, weighted. */
  method AddKeyword(merged: map<string, Entry>, order: seq<Entry>, e: Entry, keywordWeight: real,
      ghost keyword: seq<Scored>, ghost semanticWeight: real)
    returns (merged': map<string, Entry>, order': seq<Entry>)
    requires Indexed(merged, order)
      && Fused(order, Ids(keyword), WeightedSum(keyword, [], keywordWeight, semanticWeight))
    requires e !in order && e.id !in Ids(keyword)
    modifies e
    ensures order' == order + [e] && Indexed(merged', order')
    ensures Fused(order', Ids(keyword + [Scored(e.id, old(e.score))]),
                  WeightedSum(keyword + [Scored(e.id, old(e.score))], [], keywordWeight, semanticWeight))
  {
    ghost var now := keyword + [Scored(e.id, e.score)];
    LookupAppend(keyword, Scored(e.id, e.score));
    assert forall i :: 0 <= i < |order| ==> order[i].id != e.id;
    merged' := merged[e.id := e];
    order' := order + [e];
    e.score := e.score * keywordWeight;
    hide ScoreIn, Ids;
    assert Fused(order', Ids(now), WeightedSum(now, [], keywordWeight, semanticWeight)) by {
      FusedAppend(order, e, Ids(keyword), Ids(now), WeightedSum(now, [], keywordWeight, semanticWeight));
    }
  }

  lemma FusedAppend(order: seq<Entry>, e: Entry, before: set<string>, after: set<string>, value: string -> real)
    requires Fused(order, before, value) && e.id !in before && after == before + {e.id} && e.score == value(e.id)
    ensures Fused(order + [e], after, value)
  {
    var all := order + [e];
    assert all[|order|] == e;
    forall id
      ensures id in after <==> exists i :: 0 <= i < |all| && all[i].id == id
    {
      if i :| 0 <= i < |order| && order[i].id == id {
        assert all[i].id == id;
      }
    }
  }

  /** Takes over a semantic result: added to the entry of the same id, or on its own. */
  method AddSemantic(merged: map<string, Entry>, order: seq<Entry>, e: Entry, semanticWeight: real,
      ghost keyword: seq<Scored>, ghost semantic: seq<Scored>, ghost keywordWeight: real, ghost footprint: set<Entry>)
    returns (merged': map<string, Entry>, order': seq<Entry>)
    requires Indexed(merged, order)
    requires Fused(order, Ids(keyword) + Ids(semantic), WeightedSum(keyword, semantic, keywordWeight, semanticWeight))
    requires e !in order && e.id !in Ids(semantic)
    requires e in footprint && forall x :: x in order ==> x in footprint
    modifies footprint
    ensures forall x :: x in footprint && x !in order && x != e ==> x.score == old(x.score)
    ensures order' == order || order' == order + [e]
    ensures Indexed(merged', order')
    ensures var now := semantic + [Scored(e.id, old(e.score))];
      Fused(order', Ids(keyword) + Ids(now), WeightedSum(keyword, now, keywordWeight, semanticWeight))
  {
    hide WeightedSum, Ids, DistinctIds, Fused, ScoreIn, Indexed;
    ghost var now := semantic + [Scored(e.id, e.score)];
    ghost var before := WeightedSum(keyword, semantic, keywordWeight, semanticWeight);
    ghost var value := WeightedSum(keyword, now, keywordWeight, semanticWeight);
    ghost var known := Ids(keyword) + Ids(semantic);
    OneMoreSemantic(keyword, semantic, Scored(e.id, e.score), keywordWeight, semanticWeight);
    KeysAreKnown(merged, order, known, before);
    merged', order' := merged, order;
    if e.id in merged {
      IndexedFinds(merged, order, e.id);
      RaiseScore(order, merged[e.id], e.score * semanticWeight, known, before, value);
      assert Ids(keyword) + Ids(now) == known;
    } else {
      merged', order' := merged[e.id := e], order + [e];
      IndexedAppend(merged, order, e);
      AddWeighted(order, e, semanticWeight, known, before, value);
      assert Ids(keyword) + Ids(now) == known + {e.id};
    }
  }

  lemma IndexedFinds(merged: map<string, Entry>, order: seq<Entry>, id: string)
    requires Indexed(merged, order) && id in merged
    ensures merged[id] in order && merged[id].id == id
  {
  }

  lemma IndexedAppend(merged: map<string, Entry>, order: seq<Entry>, e: Entry)
    requires Indexed(merged, order) && e.id !in merged
    ensures Indexed(merged[e.id := e], order + [e])
  {
  }

  lemma KeysAreKnown(merged: map<string, Entry>, order: seq<Entry>, ids: set<string>, value: string -> real)
    requires Indexed(merged, order) && Fused(order, ids, value)
    ensures merged.Keys == ids
  {
  }

  /** Adds to the score of a result already merged. */
  method RaiseScore(order: seq<Entry>, m: Entry, amount: real, ghost ids: set<string>, ghost before: string -> real,
      ghost value: string -> real)
    requires Fused(order, ids, before) && m in order
    requires (forall id :: id != m.id ==> value(id) == before(id)) && value(m.id) == before(m.id) + amount
    modifies m
    ensures Fused(order, ids, value) && m.id in ids
  {
    ghost var at :| 0 <= at < |order| && order[at] == m;
    assert forall i :: 0 <= i < |order| && i != at ==> order[i] != m;
    m.score := m.score + amount;
  }

  /** Weights a result of its own. */
  method AddWeighted(order: seq<Entry>, e: Entry, weight: real, ghost ids: set<string>, ghost before: string -> real,
      ghost value: string -> real)
    requires Fused(order, ids, before) && e !in order && e.id !in ids
    requires (forall id :: id != e.id ==> value(id) == before(id)) && value(e.id) == e.score * weight
    modifies e
    ensures Fused(order + [e], ids + {e.id}, value)
  {
    e.score := e.score * weight;
    assert forall i :: 0 <= i < |order| ==> order[i].id in ids;
    FusedAppend(order, e, ids, ids + {e.id}, value);
  }

  /** A semantic result for a new id changes the weighted sum at that id only. */
  lemma OneMoreSemantic(keyword: seq<Scored>, semantic: seq<Scored>, s: Scored, keywordWeight: real,
      semanticWeight: real)
    requires s.id !in Ids(semantic)
    ensures var before := WeightedSum(keyword, semantic, keywordWeight, semanticWeight);
      var after := WeightedSum(keyword, semantic + [s], keywordWeight, semanticWeight);
      && (forall id :: id != s.id ==> after(id) == before(id))
      && after(s.id) == before(s.id) + s.score * semanticWeight
      && (s.id !in Ids(keyword) ==> after(s.id) == s.score * semanticWeight)
    ensures Ids(semantic + [s]) == Ids(semantic) + {s.id}
  {
    LookupAppend(semantic, s);
    UnknownScoresZero(semantic, s.id);
    if s.id !in Ids(keyword) {
      UnknownScoresZero(keyword, s.id);
    }
    hide ScoreIn;
  }

  /** What keyword scores are divided by: their maximum, unless there is none above zero. */
  ghost predicate IsScale(scale: real, keyword: seq<Scored>) {
    if exists i :: 0 <= i < |keyword| && keyword[i].score > 0.0 then IsMaximum(scale, keyword) else scale == 1.0
  }

  function Scaled(list: seq<Scored>, scale: real): (s: seq<Scored>)
    requires scale != 0.0
    ensures |s| == |list| && forall i :: 0 <= i < |s| ==> s[i] == Scored(list[i].id, list[i].score / scale)
  {
    seq(|list|, i requires 0 <= i < |list| => Scored(list[i].id, list[i].score / scale))
  }

  lemma ScaledIds(list: seq<Scored>, scale: real)
    requires scale != 0.0
    ensures Ids(Scaled(list, scale)) == Ids(list)
  {
    var scaled := Scaled(list, scale);
    forall id
      ensures id in Ids(scaled) <==> id in Ids(list)
    {
      if id in Ids(scaled) {
        var i :| 0 <= i < |scaled| && scaled[i].id == id;
        assert list[i] in list;
      }
      if id in Ids(list) {
        var i :| 0 <= i < |list| && list[i].id == id;
        assert scaled[i] in scaled;
      }
    }
  }

  /** Divides all scores by the highest, if that is above zero. */
  method Normalise(list: seq<Entry>) returns (ghost scale: real)
    requires DistinctIds(list)
    modifies list
    ensures IsScale(scale, old(Snapshot(list))) && scale > 0.0
    ensures Snapshot(list) == Scaled(old(Snapshot(list)), scale)
  {
    scale := 1.0;
    if list != [] {
      var max := MaxScore(list);
      ghost var before := Snapshot(list);
      if max > 0.0 {
        scale := max;
        for i := 0 to |list|
          invariant forall j :: 0 <= j < i ==> list[j].score == before[j].score / max
          invariant forall j :: i <= j < |list| ==> list[j].score == before[j].score
        {
          list[i].score := list[i].score / max;
        }
      }
    }
  }

  /**
   * Merges keyword and semantic results. The scores are rewritten in place, yet what is returned are
   * the best ids by the plain weighted sum of the normalised keyword score and the semantic score.
   */
  method HybridSearch(keyword: seq<Entry>, semantic: seq<Entry>, maxResults: nat, keywordWeight: real,
      semanticWeight: real)
    returns (results: seq<Entry>, ghost scale: real)
    requires DistinctIds(keyword) && DistinctIds(semantic)
    requires forall i :: 0 <= i < |semantic| ==> semantic[i] !in keyword
    modifies keyword, semantic
    ensures IsScale(scale, old(Snapshot(keyword))) && scale > 0.0
    ensures IsTop(results, Ids(old(Snapshot(keyword))) + Ids(old(Snapshot(semantic))),
                  WeightedSum(Scaled(old(Snapshot(keyword)), scale), old(Snapshot(semantic)), keywordWeight,
                    semanticWeight),
                  maxResults)
  {
    hide Fused, Indexed, IsTop, WeightedSum, Ids, IsScale, DistinctIds;
    ghost var original, semanticBefore := Snapshot(keyword), Snapshot(semantic);
    scale := Normalise(keyword);
    ghost var scaled := Scaled(original, scale);
    ScaledIds(original, scale);
    assert Snapshot(semantic) == semanticBefore;
    var merged, order := MergeKeyword(keyword, keywordWeight, scaled, semanticWeight);
    assert Snapshot(semantic) == semanticBefore;
    order := MergeSemantic(merged, order, semantic, semanticWeight, scaled, keywordWeight);
    results := TakeBest(order, maxResults, Ids(original) + Ids(semanticBefore),
                        WeightedSum(scaled, semanticBefore, keywordWeight, semanticWeight));
  }

  method MergeKeyword(keyword: seq<Entry>, keywordWeight: real, ghost scores: seq<Scored>, ghost semanticWeight: real)
    returns (merged: map<string, Entry>, order: seq<Entry>)
    requires DistinctIds(keyword) && scores == Snapshot(keyword)
    modifies keyword
    ensures order == keyword && Indexed(merged, order)
    ensures Fused(order, Ids(scores), WeightedSum(scores, [], keywordWeight, semanticWeight))
  {
    hide *;
    EntriesAreDistinct(keyword);
    merged, order := map[], [];
    NothingFused(WeightedSum(scores[..0], [], keywordWeight, semanticWeight));
    assert scores[..0] == [] && Ids([]) == {} by {
      NoIds();
    }
    for i := 0 to |keyword|
      invariant order == keyword[..i] && Indexed(merged, order)
      invariant Fused(order, Ids(scores[..i]), WeightedSum(scores[..i], [], keywordWeight, semanticWeight))
      invariant forall j :: i <= j < |keyword| ==> keyword[j].score == scores[j].score
    {
      assert scores[i] == Scored(keyword[i].id, keyword[i].score);
      assert scores[..i + 1] == scores[..i] + [scores[i]] && keyword[..i + 1] == keyword[..i] + [keyword[i]];
      NotSeenBefore(keyword, scores, i);
      merged, order := AddKeyword(merged, order, keyword[i], keywordWeight, scores[..i], semanticWeight);
    }
    assert scores[..|keyword|] == scores;
  }

  lemma EntriesAreDistinct(list: seq<Entry>)
    requires DistinctIds(list)
    ensures forall i, j :: 0 <= i < j < |list| ==> list[i] != list[j]
  {
  }

  lemma NoIds()
    ensures Ids([]) == {}
  {
  }

  lemma NothingFused(value: string -> real)
    ensures Indexed(map[], []) && Fused([], {}, value)
  {
  }

  /** With distinct ids, neither the entry nor its id occurs earlier in the list. */
  lemma NotSeenBefore(list: seq<Entry>, scores: seq<Scored>, i: nat)
    requires DistinctIds(list) && i < |list| == |scores| && forall j :: 0 <= j < |list| ==> scores[j].id == list[j].id
    ensures list[i].id !in Ids(scores[..i]) && list[i] !in list[..i]
  {
  }

  method MergeSemantic(merged: map<string, Entry>, order: seq<Entry>, semantic: seq<Entry>, semanticWeight: real,
      ghost keyword: seq<Scored>, ghost keywordWeight: real)
    returns (fused: seq<Entry>)
    requires DistinctIds(semantic) && Indexed(merged, order) && forall i :: 0 <= i < |semantic| ==>
      semantic[i] !in order
    requires Fused(order, Ids(keyword), WeightedSum(keyword, [], keywordWeight, semanticWeight))
    modifies order, semantic
    ensures Fused(fused, Ids(keyword) + Ids(old(Snapshot(semantic))),
                  WeightedSum(keyword, old(Snapshot(semantic)), keywordWeight, semanticWeight))
  {
    hide *;
    EntriesAreDistinct(semantic);
    ghost var scores := Snapshot(semantic);
    ghost var footprint := (set e | e in order) + set e | e in semantic;
    var index := merged;
    fused := order;
    assert scores[..0] == [];
    assert Ids(keyword) + Ids([]) == Ids(keyword) by {
      NoIds();
    }
    for i := 0 to |semantic|
      invariant Indexed(index, fused)
      invariant forall e :: e in fused ==> e in footprint
      invariant forall j :: i <= j < |semantic| ==> semantic[j] !in fused
      invariant Fused(fused, Ids(keyword) + Ids(scores[..i]),
                      WeightedSum(keyword, scores[..i], keywordWeight, semanticWeight))
      invariant forall j :: i <= j < |semantic| ==> semantic[j].score == scores[j].score
    {
      assert scores[..i + 1] == scores[..i] + [Scored(semantic[i].id, semantic[i].score)];
      NotSeenBefore(semantic, scores, i);
      assert semantic[i] in semantic;
      index, fused := AddSemantic(index, fused, semantic[i], semanticWeight, keyword, scores[..i], keywordWeight,
        footprint);
    }
    assert scores[..|semantic|] == scores;
  }

  /** Both scores of an id and the entry that will carry the result. */
  datatype Pair = Pair(keyword: real, semantic: real, entry: Entry)

  /** The table holds, for exactly the ids of the two lists, their scores there and an entry of that id. */
  ghost predicate Tabled(table: map<string, Pair>, order: seq<string>, keyword: seq<Scored>, semantic: seq<Scored>,
      pool: set<Entry>)
  {
    && table.Keys == Ids(keyword) + Ids(semantic)
    && NoDuplicates(order) && (forall id :: id in order <==> id in table)
    && forall id :: id in table ==>
      && table[id].keyword == ScoreIn(keyword, id) && table[id].semantic == ScoreIn(semantic, id)
      && table[id].entry in pool && table[id].entry.id == id
  }

  lemma TabledKeyword(table: map<string, Pair>, order: seq<string>, keyword: seq<Scored>, s: Scored, e: Entry,
      pool: set<Entry>)
    requires Tabled(table, order, keyword, [], pool) && s.id !in Ids(keyword) && e in pool && e.id == s.id
    ensures Tabled(table[s.id := Pair(s.score, 0.0, e)], order + [s.id], keyword + [s], [], pool)
  {
    LookupAppend(keyword, s);
    hide ScoreIn;
    UnknownScoresZero([], s.id);
  }

  lemma TabledSemantic(table: map<string, Pair>, order: seq<string>, keyword: seq<Scored>, semantic: seq<Scored>,
      s: Scored,
      e: Entry, pool: set<Entry>)
    requires Tabled(table, order, keyword, semantic, pool) && s.id !in Ids(semantic) && e in pool && e.id == s.id
    ensures s.id in table ==>
      Tabled(table[s.id := Pair(table[s.id].keyword, s.score, e)], order, keyword, semantic + [s], pool)
    ensures s.id !in table ==>
      Tabled(table[s.id := Pair(0.0, s.score, e)], order + [s.id], keyword, semantic + [s], pool)
  {
    LookupAppend(semantic, s);
    if s.id !in table {
      UnknownScoresZero(keyword, s.id);
    }
    hide ScoreIn, Ids;
  }

  /** The entry a list has for an id. */
  ghost function Find(list: seq<Entry>, id: string): Option<Entry> {
    if list == [] then None
    else if list[|list| - 1].id == id then Some(list[|list| - 1])
    else Find(list[..|list| - 1], id)
  }

  /** The entry that carries the result for an id: the semantic one if there is one. */
  ghost function Carrier(keyword: seq<Entry>, semantic: seq<Entry>, id: string): Option<Entry> {
    if Find(semantic, id).Some? then Find(semantic, id) else Find(keyword, id)
  }

  ghost predicate Carrying(table: map<string, Pair>, keyword: seq<Entry>, semantic: seq<Entry>) {
    forall id :: id in table ==> Carrier(keyword, semantic, id) == Some(table[id].entry)
  }

  lemma CarryingKeyword(table: map<string, Pair>, keyword: seq<Entry>, e: Entry, pair: Pair)
    requires Carrying(table, keyword, []) && pair.entry == e
    ensures Carrying(table[e.id := pair], keyword + [e], [])
  {
    assert (keyword + [e])[..|keyword|] == keyword;
  }

  lemma CarryingSemantic(table: map<string, Pair>, keyword: seq<Entry>, semantic: seq<Entry>, e: Entry, pair: Pair)
    requires Carrying(table, keyword, semantic) && pair.entry == e
    ensures Carrying(table[e.id := pair], keyword, semantic + [e])
  {
    assert (semantic + [e])[..|semantic|] == semantic;
  }

  lemma NothingTabled(pool: set<Entry>)
    ensures Tabled(map[], [], [], [], pool) && Carrying(map[], [], [])
  {
  }

  /** The dictionary of scores that the two lists fill, before any score is rewritten. */
  method TableScores(keyword: seq<Entry>, semantic: seq<Entry>, scale: real, ghost pool: set<Entry>)
    returns (table: map<string, Pair>, order: seq<string>)
    requires DistinctIds(keyword) && DistinctIds(semantic) && scale != 0.0
    requires forall i :: 0 <= i < |keyword| ==> keyword[i] in pool
    requires forall i :: 0 <= i < |semantic| ==> semantic[i] in pool
    ensures Tabled(table, order, Scaled(Snapshot(keyword), scale), Snapshot(semantic), pool)
    ensures Carrying(table, keyword, semantic)
  {
    hide *;
    table, order := TableKeyword(keyword, scale, pool);
    table, order := TableSemantic(table, order, semantic, keyword, Scaled(Snapshot(keyword), scale), pool);
  }

  method TableKeyword(keyword: seq<Entry>, scale: real, ghost pool: set<Entry>)
    returns (table: map<string, Pair>, order: seq<string>)
    requires DistinctIds(keyword) && scale != 0.0 && forall i :: 0 <= i < |keyword| ==> keyword[i] in pool
    ensures Tabled(table, order, Scaled(Snapshot(keyword), scale), [], pool) && Carrying(table, keyword, [])
  {
    hide *;
    ghost var scaled := Scaled(Snapshot(keyword), scale);
    table, order := map[], [];
    NothingTabled(pool);
    assert scaled[..0] == [];
    for i := 0 to |keyword|
      invariant Tabled(table, order, scaled[..i], [], pool) && Carrying(table, keyword[..i], [])
    {
      var e := keyword[i];
      assert keyword[..i + 1] == keyword[..i] + [e];
      CarryingKeyword(table, keyword[..i], e, Pair(e.score / scale, 0.0, e));
      assert scaled[..i + 1] == scaled[..i] + [Scored(e.id, e.score / scale)];
      NotSeenBefore(keyword, scaled, i);
      TabledKeyword(table, order, scaled[..i], Scored(e.id, e.score / scale), e, pool);
      table, order := table[e.id := Pair(e.score / scale, 0.0, e)], order + [e.id];
    }
    assert scaled[..|keyword|] == scaled && keyword[..|keyword|] == keyword;
  }

  method TableSemantic(known: map<string, Pair>, first: seq<string>, semantic: seq<Entry>,
      ghost keyword: seq<Entry>, ghost scaled: seq<Scored>, ghost pool: set<Entry>)
    returns (table: map<string, Pair>, order: seq<string>)
    requires Tabled(known, first, scaled, [], pool) && Carrying(known, keyword, [])
    requires DistinctIds(semantic) && forall i :: 0 <= i < |semantic| ==> semantic[i] in pool
    ensures Tabled(table, order, scaled, Snapshot(semantic), pool) && Carrying(table, keyword, semantic)
  {
    hide *;
    ghost var scores := Snapshot(semantic);
    table, order := known, first;
    assert scores[..0] == [];
    for i := 0 to |semantic|
      invariant Tabled(table, order, scaled, scores[..i], pool) && Carrying(table, keyword, semantic[..i])
    {
      var e := semantic[i];
      assert semantic[..i + 1] == semantic[..i] + [e];
      assert scores[..i + 1] == scores[..i] + [Scored(e.id, e.score)];
      NotSeenBefore(semantic, scores, i);
      TabledSemantic(table, order, scaled, scores[..i], Scored(e.id, e.score), e, pool);
      if e.id in table {
        CarryingSemantic(table, keyword, semantic[..i], e, Pair(table[e.id].keyword, e.score, e));
        table := table[e.id := Pair(table[e.id].keyword, e.score, e)];
      } else {
        CarryingSemantic(table, keyword, semantic[..i], e, Pair(0.0, e.score, e));
        table, order := table[e.id := Pair(0.0, e.score, e)], order + [e.id];
      }
    }
    assert scores[..|semantic|] == scores && semantic[..|semantic|] == semantic;
  }

  /** What an entry adds to its result; a memory the first search touched is newer in the second. */
  type Quality = Entry -> real

  /** The weighted sum of the two sides and the quality of the entry that carries the result. */
  ghost function RecallValue(keyword: seq<Scored>, semantic: seq<Scored>, keywordWeight: real, semanticWeight: real,
      quality: Quality, carrier: string -> Option<Entry>): string -> real
  {
    (id: string) => ScoreIn(keyword, id) * keywordWeight + ScoreIn(semantic, id) * semanticWeight
      + if carrier(id).Some? then quality(carrier(id).value) else 0.0
  }

  ghost function CarrierIn(keyword: seq<Entry>, semantic: seq<Entry>): string -> Option<Entry> {
    (id: string) => Carrier(keyword, semantic, id)
  }

  /**
   * `hybrid_recall` when both searches found something: the best ids by weighted sum plus quality,
   * keyword scores divided by their maximum or 0.001, whichever is larger. An id found by both is
   * returned as, and valued by, its semantic entry.
   */
  method HybridRecall(keyword: seq<Entry>, semantic: seq<Entry>, maxResults: nat, keywordWeight: real,
      semanticWeight: real, quality: Quality)
    returns (results: seq<Entry>, ghost scale: real)
    requires keyword != [] && semantic != [] && DistinctIds(keyword) && DistinctIds(semantic)
    modifies keyword, semantic
    ensures scale >= 0.001 && (IsMaximum(scale, old(Snapshot(keyword))) ||
      (scale == 0.001 && forall i :: 0 <= i < |keyword| ==> old(keyword[i].score) <= 0.001))
    ensures IsTop(results, Ids(old(Snapshot(keyword))) + Ids(old(Snapshot(semantic))),
                  RecallValue(Scaled(old(Snapshot(keyword)), scale), old(Snapshot(semantic)), keywordWeight,
                              semanticWeight, quality, CarrierIn(keyword, semantic)),
                  maxResults)
    ensures forall i :: 0 <= i < |results| ==> Carrier(keyword, semantic, results[i].id) == Some(results[i])
  {
    hide *;
    var max := MaxScore(keyword);
    max := if max > 0.001 then max else 0.001;
    scale := max;
    ghost var pool := (set e | e in keyword) + set e | e in semantic;
    ghost var scaled, scores := Scaled(Snapshot(keyword), max), Snapshot(semantic);
    var table, order := TableScores(keyword, semantic, max, pool);
    ScaledIds(old(Snapshot(keyword)), scale);
    var ranked := RankAll(table, order, keywordWeight, semanticWeight, quality, scaled, scores, keyword, semantic,
      pool);
    results := TakeBest(ranked, maxResults, Ids(scaled) + Ids(scores),
                        RecallValue(scaled, scores, keywordWeight, semanticWeight, quality,
                                    CarrierIn(keyword, semantic)));
    forall i | 0 <= i < |results|
      ensures Carrier(keyword, semantic, results[i].id) == Some(results[i])
    {
      assert results[i] in ranked;
    }
  }

  /** Writes the combined scores into the entries of the table. */
  method RankAll(table: map<string, Pair>, order: seq<string>, keywordWeight: real, semanticWeight: real,
      quality: Quality, ghost scaled: seq<Scored>, ghost scores: seq<Scored>,
      ghost keyword: seq<Entry>, ghost semantic: seq<Entry>, ghost pool: set<Entry>)
    returns (ranked: seq<Entry>)
    requires Tabled(table, order, scaled, scores, pool) && Carrying(table, keyword, semantic)
    modifies pool
    ensures Fused(ranked, Ids(scaled) + Ids(scores),
                  RecallValue(scaled, scores, keywordWeight, semanticWeight, quality, CarrierIn(keyword, semantic)))
    ensures forall i :: 0 <= i < |ranked| ==> Carrier(keyword, semantic, ranked[i].id) == Some(ranked[i])
  {
    hide *;
    ghost var value := RecallValue(scaled, scores, keywordWeight, semanticWeight, quality,
                                   CarrierIn(keyword, semantic));
    OrderNamesTheTable(table, order, scaled, scores, pool);
    ranked := [];
    for i := 0 to |order|
      invariant |ranked| == i
      invariant forall j :: 0 <= j < i ==> ranked[j].id == order[j] && ranked[j].score == value(order[j])
      invariant forall j :: 0 <= j < i ==> Carrier(keyword, semantic, order[j]) == Some(ranked[j])
    {
      var id := order[i];
      var pair := table[id];
      PricedInTable(table, order, id, keywordWeight, semanticWeight, quality, scaled, scores, keyword, semantic, pool);
      forall j | 0 <= j < i
        ensures ranked[j] != pair.entry
      {
        assert order[j] != order[i];
      }
      pair.entry.score := pair.keyword * keywordWeight + pair.semantic * semanticWeight + quality(pair.entry);
      ranked := ranked + [pair.entry];
    }
    RankedIsFused(table, order, value, scaled, scores, pool, ranked);
  }

  lemma OrderNamesTheTable(table: map<string, Pair>, order: seq<string>, scaled: seq<Scored>, scores: seq<Scored>,
      pool: set<Entry>)
    requires Tabled(table, order, scaled, scores, pool)
    ensures forall i :: 0 <= i < |order| ==> order[i] in table
    ensures forall i, j :: 0 <= i < j < |order| ==> order[i] != order[j]
  {
    hide ScoreIn, Ids;
  }

  /** What the table says of an id is what it is worth. */
  lemma PricedInTable(table: map<string, Pair>, order: seq<string>, id: string, keywordWeight: real,
      semanticWeight: real, quality: Quality, scaled: seq<Scored>, scores: seq<Scored>, keyword: seq<Entry>,
      semantic: seq<Entry>, pool: set<Entry>)
    requires Tabled(table, order, scaled, scores, pool) && Carrying(table, keyword, semantic) && id in table
    ensures table[id].entry in pool && table[id].entry.id == id
    ensures Carrier(keyword, semantic, id) == Some(table[id].entry)
    ensures table[id].keyword * keywordWeight + table[id].semantic * semanticWeight + quality(table[id].entry) ==
      RecallValue(scaled, scores, keywordWeight, semanticWeight, quality, CarrierIn(keyword, semantic))(id)
  {
    hide ScoreIn, Ids, Carrier;
  }

  lemma RankedIsFused(table: map<string, Pair>, order: seq<string>, value: string -> real,
      keyword: seq<Scored>, semantic: seq<Scored>, pool: set<Entry>, ranked: seq<Entry>)
    requires Tabled(table, order, keyword, semantic, pool) && |ranked| == |order|
    requires forall j :: 0 <= j < |order| ==> ranked[j].id == order[j] && ranked[j].score == value(order[j])
    ensures Fused(ranked, Ids(keyword) + Ids(semantic), value)
  {
    hide ScoreIn, Ids;
    forall id
      ensures id in table.Keys <==> exists i :: 0 <= i < |ranked| && ranked[i].id == id
    {
      if id in table {
        assert id in order;
        var i :| 0 <= i < |order| && order[i] == id;
        assert ranked[i].id == id;
      }
    }
  }
}

/**
 * The binary heap behind agents/scheduler.py: `heapq.heappush` and `heapq.heappop` as the
 * Python standard library defines them, on a list of queue entries.
 */
module Heap {
  import opened Entries

  function Parent(i: int): int
    requires i >= 1
  {
    (i - 1) / 2
  }

  predicate Ordered(h: seq<Entry>, i: int)
    requires 1 <= i < |h|
  {
    NotAfter(h[Parent(i)], h[i])
  }

  ghost predicate IsHeap(h: seq<Entry>) {
    forall i :: 1 <= i < |h| ==> Ordered(h, i)
  }

  /** Every place is in order except possibly `pos`, whose children are in order with its parent. */
  ghost predicate HeapExceptAt(h: seq<Entry>, pos: int)
    requires 0 <= pos < |h|
  {
    && (forall i :: 1 <= i < |h| && i != pos ==> Ordered(h, i))
    && (pos > 0 ==> forall i :: 1 <= i < |h| && Parent(i) == pos ==> NotAfter(h[Parent(pos)], h[i]))
  }

  /** The entry at the root of a heap is not after any other entry. */
  lemma {:induction false} RootIsLeast(h: seq<Entry>, i: int)
    requires IsHeap(h) && 0 <= i < |h|
    ensures NotAfter(h[0], h[i])
  {
    if i == 0 {
      BeforeIsTotal(h[0], h[0]);
    } else {
      RootIsLeast(h, Parent(i));
      assert Ordered(h, i);
      NotAfterIsTransitive(h[0], h[Parent(i)], h[i]);
    }
  }

  lemma SwapKeepsMultiset(h: seq<Entry>, i: int, j: int)
    requires 0 <= i < |h| && 0 <= j < |h|
    ensures multiset(h[i := h[j]][j := h[i]]) == multiset(h)
  {
    var g := h[i := h[j]];
    assert g[j] == h[j];
  }

  /** `heapq._siftdown(heap, 0, pos)`: moves the entry at `pos` up until its parent is not after it. */
  method SiftDown(heap: seq<Entry>, pos: nat) returns (h: seq<Entry>)
    requires pos < |heap| && HeapExceptAt(heap, pos)
    ensures IsHeap(h) && multiset(h) == multiset(heap)
  {
    h := heap;
    var p := pos;
    var newItem := h[p];
    ghost var g := h;  // the list with newItem written at p
    while p > 0
      invariant p < |heap| == |h| && g == h[p := newItem]
      invariant multiset(g) == multiset(heap)
      invariant HeapExceptAt(g, p)
    {
      var parentPos := (p - 1) / 2;
      var parent := h[parentPos];
      if !Before(newItem, parent) {
        break;
      }
      ghost var g0 := g;
      h := h[p := parent];
      g := h[parentPos := newItem];
      SwapKeepsMultiset(g0, p, parentPos);
      assert g == g0[p := g0[parentPos]][parentPos := g0[p]];
      SiftDownStep(g0, g, p);
      p := parentPos;
    }
    h := h[p := newItem];
    assert p > 0 ==> Ordered(h, p);
  }

  /** One exchange of `_siftdown` moves the only possible disorder from `p` to its parent. */
  lemma SiftDownStep(g0: seq<Entry>, g: seq<Entry>, p: int)
    requires 1 <= p < |g0| && HeapExceptAt(g0, p)
    requires g == g0[p := g0[Parent(p)]][Parent(p) := g0[p]]
    requires Before(g0[p], g0[Parent(p)])
    ensures HeapExceptAt(g, Parent(p))
  {
    var q := Parent(p);
    BeforeIsTotal(g0[p], g0[q]);
    forall i | 1 <= i < |g| && i != q
      ensures Ordered(g, i)
    {
      if i == p {
      } else if Parent(i) == p {
        assert NotAfter(g0[q], g0[i]);
      } else {
        assert Ordered(g0, i);
        if Parent(i) == q {
          NotAfterIsTransitive(g0[p], g0[q], g0[i]);
        }
      }
    }
    if q > 0 {
      assert Ordered(g0, q);
      forall i | 1 <= i < |g| && Parent(i) == q
        ensures NotAfter(g[Parent(q)], g[i])
      {
        if i != p {
          assert Ordered(g0, i);
          NotAfterIsTransitive(g0[Parent(q)], g0[q], g0[i]);
        }
      }
    }
  }

  /** `heapq.heappush` */
  method HeapPush(heap: seq<Entry>, item: Entry) returns (h: seq<Entry>)
    requires IsHeap(heap)
    ensures IsHeap(h) && multiset(h) == multiset(heap) + multiset{item}
  {
    h := heap + [item];
    assert forall i :: 1 <= i < |heap| ==> Ordered(heap, i) == Ordered(h, i);
    h := SiftDown(h, |h| - 1);
  }

  /** All places are in order except those next to the hole `pos`, around which order also holds. */
  ghost predicate HeapWithHole(h: seq<Entry>, pos: int)
    requires 0 <= pos < |h|
  {
    && (forall i :: 1 <= i < |h| && i != pos && Parent(i) != pos ==> Ordered(h, i))
    && (pos > 0 ==> forall i :: 1 <= i < |h| && Parent(i) == pos ==> NotAfter(h[Parent(pos)], h[i]))
  }

  /** `heapq._siftup(heap, 0)`: moves the smaller child up down to a leaf, then sifts the item back. */
  method SiftUp(heap: seq<Entry>) returns (h: seq<Entry>)
    requires |heap| > 0 && HeapWithHole(heap, 0)
    ensures IsHeap(h) && multiset(h) == multiset(heap)
  {
    hide IsHeap, HeapWithHole;
    h := heap;
    var pos := 0;
    var newItem := h[0];
    var childPos := 1;
    while childPos < |h|
      invariant 0 <= pos < |h| == |heap| && childPos == 2 * pos + 1
      invariant multiset(h[pos := newItem]) == multiset(heap)
      invariant HeapWithHole(h, pos)
    {
      var rightPos := childPos + 1;
      if rightPos < |h| && !Before(h[childPos], h[rightPos]) {
        childPos := rightPos;
      }
      SmallerChildIsLeast(h, pos, childPos);
      SiftUpStep(h, pos, childPos);
      HoleKeepsMultiset(h, pos, childPos, newItem);
      h := h[pos := h[childPos]];
      pos := childPos;
      childPos := 2 * pos + 1;
    }
    LeafHole(h, pos, newItem);
    h := SiftDown(h[pos := newItem], pos);
  }

  /** The child `_siftup` picks is not after any child of `pos`. */
  lemma SmallerChildIsLeast(h: seq<Entry>, pos: int, child: int)
    requires 0 <= pos && (child == 2 * pos + 1 || child == 2 * pos + 2) && child < |h|
    requires child == 2 * pos + 1 && child + 1 < |h| ==> Before(h[child], h[child + 1])
    requires child == 2 * pos + 2 ==> !Before(h[child - 1], h[child])
    ensures forall i :: 1 <= i < |h| && Parent(i) == pos ==> NotAfter(h[child], h[i])
  {
    BeforeIsTotal(h[child], h[child]);
    if child == 2 * pos + 1 && child + 1 < |h| {
      BeforeIsTotal(h[child], h[child + 1]);
    }
    forall i | 1 <= i < |h| && Parent(i) == pos ensures NotAfter(h[child], h[i]) {
      assert i == 2 * pos + 1 || i == 2 * pos + 2;
    }
  }

  lemma HoleKeepsMultiset(h: seq<Entry>, pos: int, child: int, item: Entry)
    requires 0 <= pos < child < |h|
    ensures multiset(h[pos := h[child]][child := item]) == multiset(h[pos := item])
  {
    SwapKeepsMultiset(h[pos := item], pos, child);
    assert h[pos := item][pos := h[child]][child := item] == h[pos := h[child]][child := item];
  }

  /** A hole without children is the only place that can be out of order. */
  lemma LeafHole(h: seq<Entry>, pos: int, item: Entry)
    requires 0 <= pos < |h| <= 2 * pos + 1 && HeapWithHole(h, pos)
    ensures HeapExceptAt(h[pos := item], pos)
  {
    forall i | 1 <= i < |h| && i != pos ensures Ordered(h[pos := item], i) && Parent(i) != pos {
      assert Ordered(h, i);
    }
  }

  /** Moving the smaller child into the hole moves the hole to that child. */
  lemma SiftUpStep(h0: seq<Entry>, pos: int, child: int)
    requires 0 <= pos < child < |h0| && Parent(child) == pos && HeapWithHole(h0, pos)
    requires forall i :: 1 <= i < |h0| && Parent(i) == pos ==> NotAfter(h0[child], h0[i])
    ensures HeapWithHole(h0[pos := h0[child]], child)
  {
    var h := h0[pos := h0[child]];
    forall i | 1 <= i < |h| && i != child && Parent(i) != child
      ensures Ordered(h, i)
    {
      if i != pos && Parent(i) != pos {
        assert Ordered(h0, i);
      }
    }
    forall i | 1 <= i < |h| && Parent(i) == child
      ensures NotAfter(h[Parent(child)], h[i])
    {
      assert Ordered(h0, i);
    }
  }

  /** `heapq.heappop` on a non-empty heap: takes out the least entry. */
  method HeapPop(heap: seq<Entry>) returns (item: Entry, h: seq<Entry>)
    requires IsHeap(heap) && heap != []
    ensures IsHeap(h) && multiset(heap) == multiset(h) + multiset{item}
    ensures forall x :: x in heap ==> NotAfter(item, x)
  {
    forall x | x in heap ensures NotAfter(heap[0], x) {
      var i :| 0 <= i < |heap| && heap[i] == x;
      RootIsLeast(heap, i);
    }
    var last := heap[|heap| - 1];
    h := heap[..|heap| - 1];
    assert heap == h + [last];
    if h == [] {
      return last, h;
    }
    item := h[0];
    ghost var rest := h;
    h := h[0 := last];
    assert multiset(h) + multiset{item} == multiset(rest) + multiset{last};
    assert forall i :: 1 <= i < |h| && Parent(i) != 0 ==> Ordered(heap, i) == Ordered(h, i);
    h := SiftUp(h);
  }
}

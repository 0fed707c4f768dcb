/** The binary min-heap priority queue. Entries are (item, priority) pairs
    kept in a growable array `heap`; the comparator is fixed to the one every
    caller passes, `(a, b) => a - b`, so "more urgent" is integer `<`. */
module Queue {
  import opened Records

  datatype Entry<T> = Entry(item: T, priority: int)

  /** The parent slot, `(i - 1) / 2` rounded down; Euclidean division rounds down here. */
  function Parent(i: int): int {
    (i - 1) / 2
  }

  /** `i` is a child of `k`: `2k + 1` or `2k + 2`. */
  predicate IsChild(k: int, i: int) {
    i == 2 * k + 1 || i == 2 * k + 2
  }

  /** Every entry but the root is the child of its `Parent`, and of nothing
      else. */
  lemma ParentOf(i: int)
    requires 0 < i
    ensures 0 <= Parent(i) < i && IsChild(Parent(i), i)
    ensures forall k :: IsChild(k, i) ==> k == Parent(i)
  {
  }

  /** Every entry's priority is at most its children's. */
  ghost predicate IsHeap<T>(h: seq<Entry<T>>) {
    forall k, i :: 0 <= k < i < |h| && IsChild(k, i) ==> h[k].priority <= h[i].priority
  }

  /** The parent of `x` is no worse than `x`'s children. */
  ghost predicate Bridged<T>(h: seq<Entry<T>>, x: int) {
    forall p, i :: 0 <= p < x < i < |h| && IsChild(p, x) && IsChild(x, i) ==> h[p].priority <= h[i].priority
  }

  /** A heap except for the edge between `x` and its parent. This is what
      `siftUp(x)` repairs. */
  ghost predicate HeapExceptUp<T>(h: seq<Entry<T>>, x: int) {
    && (forall k, i :: 0 <= k < i < |h| && IsChild(k, i) && i != x ==> h[k].priority <= h[i].priority)
    && Bridged(h, x)
  }

  /** A heap except for the edges between `x` and its children. This is what
      `siftDown(x)` repairs. */
  ghost predicate HeapExceptDown<T>(h: seq<Entry<T>>, x: int) {
    && (forall k, i :: 0 <= k < i < |h| && IsChild(k, i) && k != x ==> h[k].priority <= h[i].priority)
    && Bridged(h, x)
  }

  /** The root of a heap is no worse than any entry below it. */
  lemma {:induction false} RootIsMin<T>(h: seq<Entry<T>>, i: int)
    requires IsHeap(h)
    requires 0 <= i < |h|
    ensures h[0].priority <= h[i].priority
    decreases i
  {
    if i > 0 {
      ParentOf(i);
      RootIsMin(h, Parent(i));
    }
  }

  lemma RootIsMinimum<T>(h: seq<Entry<T>>)
    requires IsHeap(h)
    ensures forall i :: 0 <= i < |h| ==> h[0].priority <= h[i].priority
  {
    forall i | 0 <= i < |h| ensures h[0].priority <= h[i].priority {
      RootIsMin(h, i);
    }
  }

  /** The first index whose item satisfies `p`. */
  ghost predicate FirstMatch<T>(h: seq<Entry<T>>, p: T -> bool, i: int) {
    0 <= i < |h| && p(h[i].item) && forall j :: 0 <= j < i ==> !p(h[j].item)
  }

  /** Swapping two entries keeps the multiset of entries. */
  lemma SwapKeepsEntries<T>(h: seq<Entry<T>>, i: int, j: int)
    requires 0 <= i < |h| && 0 <= j < |h|
    ensures multiset(h[i := h[j]][j := h[i]]) == multiset(h)
  {
  }

  /** An entry appended to a heap is its only fault. */
  lemma AppendExceptUp<T>(h: seq<Entry<T>>, e: Entry<T>)
    requires IsHeap(h)
    ensures HeapExceptUp(h + [e], |h|)
  {
    var g := h + [e];
    forall k, i | 0 <= k < i < |g| && IsChild(k, i) && i != |h| ensures g[k].priority <= g[i].priority {
      assert g[k] == h[k] && g[i] == h[i];
    }
  }

  /** One step of `siftUp`: swapping `x` with its parent, when `x` is
      strictly more urgent, moves the fault up to the parent. */
  lemma SwapUp<T>(h: seq<Entry<T>>, x: int)
    requires 0 < x < |h|
    requires HeapExceptUp(h, x)
    requires h[x].priority < h[Parent(x)].priority
    ensures HeapExceptUp(h[x := h[Parent(x)]][Parent(x) := h[x]], Parent(x))
  {
    var p := Parent(x);
    ParentOf(x);
    var g := h[x := h[p]][p := h[x]];
    forall k, i | 0 <= k < i < |g| && IsChild(k, i) && i != p ensures g[k].priority <= g[i].priority {
      if i == x {
        assert k == p;
      } else if k == x {
        assert h[p].priority <= h[i].priority;
      } else if k == p {
        assert h[p].priority <= h[i].priority;
      } else {
        assert g[k] == h[k] && g[i] == h[i];
      }
    }
    forall q, i | 0 <= q < p < i < |g| && IsChild(q, p) && IsChild(p, i) ensures g[q].priority <= g[i].priority {
      assert h[q].priority <= h[p].priority;
      if i != x {
        assert h[p].priority <= h[i].priority;
      }
    }
  }

  /** `siftUp` stops at the root or below a parent that is no worse: the
      fault is gone. */
  lemma SettledUp<T>(h: seq<Entry<T>>, x: int)
    requires 0 <= x < |h|
    requires HeapExceptUp(h, x)
    requires x == 0 || h[Parent(x)].priority <= h[x].priority
    ensures IsHeap(h)
  {
    if x > 0 {
      ParentOf(x);
    }
  }

  /** One step of `siftDown`: swapping `x` with its most urgent child `c`,
      when `c` is strictly more urgent, moves the fault down to `c`. */
  lemma SwapDown<T>(h: seq<Entry<T>>, x: int, c: int)
    requires 0 <= x < c < |h| && IsChild(x, c)
    requires HeapExceptDown(h, x)
    requires h[c].priority < h[x].priority
    requires forall i :: x < i < |h| && IsChild(x, i) ==> h[c].priority <= h[i].priority
    ensures HeapExceptDown(h[x := h[c]][c := h[x]], c)
  {
    var g := h[x := h[c]][c := h[x]];
    forall k, i | 0 <= k < i < |g| && IsChild(k, i) && k != c ensures g[k].priority <= g[i].priority {
      if k == x {
      } else if i == x {
        assert h[k].priority <= h[c].priority;
      } else if i == c {
        assert false;
      } else {
        assert g[k] == h[k] && g[i] == h[i];
      }
    }
    forall q, i | 0 <= q < c < i < |g| && IsChild(q, c) && IsChild(c, i) ensures g[q].priority <= g[i].priority {
      assert q == x;
      assert h[c].priority <= h[i].priority;
    }
  }

  /** `siftDown` stops when no child is strictly more urgent: the fault is
      gone. */
  lemma SettledDown<T>(h: seq<Entry<T>>, x: int)
    requires 0 <= x < |h|
    requires HeapExceptDown(h, x)
    requires forall i :: x < i < |h| && IsChild(x, i) ==> h[x].priority <= h[i].priority
    ensures IsHeap(h)
  {
  }

  /** Moving the last entry to the root drops exactly the old root. */
  lemma LastToRootEntries<T>(h: seq<Entry<T>>)
    requires |h| > 1
    ensures multiset([h[|h| - 1]] + h[1..|h| - 1]) == multiset(h) - multiset{h[0]}
  {
    var last, middle := h[|h| - 1], h[1..|h| - 1];
    assert h == [h[0]] + middle + [last];
    assert multiset(h) == multiset{h[0]} + multiset(middle) + multiset{last};
  }

  /** Moving the last entry of a heap to the root leaves a heap except
      below the root, holding every entry but the old root. */
  lemma LastToRoot<T>(h: seq<Entry<T>>)
    requires IsHeap(h) && |h| > 1
    ensures var g := [h[|h| - 1]] + h[1..|h| - 1];
            && HeapExceptDown(g, 0)
            && |g| == |h| - 1
            && multiset(g) == multiset(h) - multiset{h[0]}
  {
    var g := [h[|h| - 1]] + h[1..|h| - 1];
    LastToRootEntries(h);
    forall k, i | 0 <= k < i < |g| && IsChild(k, i) && k != 0 ensures g[k].priority <= g[i].priority {
      assert g[k] == h[k] && g[i] == h[i];
    }
  }

  /** Making an entry more urgent leaves a fault only above it. */
  lemma LowerExceptUp<T>(h: seq<Entry<T>>, x: int, priority: int)
    requires IsHeap(h) && 0 <= x < |h| && priority < h[x].priority
    ensures HeapExceptUp(h[x := Entry(h[x].item, priority)], x)
  {
    var g := h[x := Entry(h[x].item, priority)];
    forall k, i | 0 <= k < i < |g| && IsChild(k, i) && i != x ensures g[k].priority <= g[i].priority {
      assert h[k].priority <= h[i].priority;
    }
    forall p, i | 0 <= p < x < i < |g| && IsChild(p, x) && IsChild(x, i) ensures g[p].priority <= g[i].priority {
      assert h[p].priority <= h[x].priority <= h[i].priority;
    }
  }

  /** Making an entry no more urgent leaves a fault only below it. */
  lemma RaiseExceptDown<T>(h: seq<Entry<T>>, x: int, priority: int)
    requires IsHeap(h) && 0 <= x < |h| && h[x].priority <= priority
    ensures HeapExceptDown(h[x := Entry(h[x].item, priority)], x)
  {
    var g := h[x := Entry(h[x].item, priority)];
    forall k, i | 0 <= k < i < |g| && IsChild(k, i) && k != x ensures g[k].priority <= g[i].priority {
      assert h[k].priority <= h[i].priority;
    }
    forall p, i | 0 <= p < x < i < |g| && IsChild(p, x) && IsChild(x, i) ensures g[p].priority <= g[i].priority {
      assert h[p].priority <= h[x].priority <= h[i].priority;
    }
  }

  /* ------------------------------------------------ the states the methods leave */

  /** `y` is `x` itself or one of its ancestors. */
  predicate Above(y: int, x: int)
    decreases x
  {
    y == x || (0 < x && y < x && Above(y, Parent(x)))
  }

  /** The array `siftUp(x)` leaves: the entry at `x` trades places with its
      parent for as long as it is strictly more urgent. */
  function SiftedUp<T>(h: seq<Entry<T>>, x: int): (r: seq<Entry<T>>)
    requires 0 <= x < |h|
    ensures |r| == |h|
    decreases x
  {
    if x > 0 && h[x].priority < h[Parent(x)].priority
    then SiftedUp(h[x := h[Parent(x)]][Parent(x) := h[x]], Parent(x))
    else h
  }

  /** The slot where `siftUp(x)` leaves the entry that started at `x`. */
  function Climb<T>(h: seq<Entry<T>>, x: int): nat
    requires 0 <= x < |h|
    decreases x
  {
    if x > 0 && h[x].priority < h[Parent(x)].priority
    then Climb(h[x := h[Parent(x)]][Parent(x) := h[x]], Parent(x))
    else x
  }

  /** `x` when no child of `x` is strictly more urgent, otherwise its more
      urgent child (the left one on a tie): the slot `siftDown(x)` picks. */
  function Smallest<T>(h: seq<Entry<T>>, x: int): (s: int)
    requires 0 <= x < |h|
    ensures s == x || (x < s < |h| && IsChild(x, s) && h[s].priority < h[x].priority)
    ensures forall i :: x < i < |h| && IsChild(x, i) ==> h[s].priority <= h[i].priority
  {
    var left, right := 2 * x + 1, 2 * x + 2;
    var s := if left < |h| && h[left].priority < h[x].priority then left else x;
    if right < |h| && h[right].priority < h[s].priority then right else s
  }

  /** The array `siftDown(x)` leaves: the entry at `x` trades places with
      its chosen child for as long as that child is strictly more urgent. */
  function SiftedDown<T>(h: seq<Entry<T>>, x: int): (r: seq<Entry<T>>)
    requires 0 <= x < |h|
    ensures |r| == |h|
    decreases |h| - x
  {
    var s := Smallest(h, x);
    if s == x then h else SiftedDown(h[x := h[s]][s := h[x]], s)
  }

  /** The array `enqueue` leaves: the entry pushed, then sifted up. */
  function Enqueued<T>(h: seq<Entry<T>>, e: Entry<T>): seq<Entry<T>> {
    SiftedUp(h + [e], |h|)
  }

  /** The array `dequeue` leaves behind a non-empty queue: the last entry
      popped and, unless that emptied the array, written over the root and
      sifted down. */
  function Dequeued<T>(h: seq<Entry<T>>): seq<Entry<T>>
    requires h != []
  {
    if |h| == 1 then [] else SiftedDown([h[|h| - 1]] + h[1..|h| - 1], 0)
  }

  /** The array `changePriority` leaves after giving slot `i` a new
      priority: sifted up when it became strictly more urgent, down
      otherwise. */
  function Reprioritised<T>(h: seq<Entry<T>>, i: int, priority: int): seq<Entry<T>>
    requires 0 <= i < |h|
  {
    var g := h[i := Entry(h[i].item, priority)];
    if priority < h[i].priority then SiftedUp(g, i) else SiftedDown(g, i)
  }

  /* ------------------------------------------------- what those states promise */

  /** Sifting up only rearranges entries. */
  lemma {:induction false} SiftedUpKeepsEntries<T>(h: seq<Entry<T>>, x: int)
    requires 0 <= x < |h|
    ensures multiset(SiftedUp(h, x)) == multiset(h)
    decreases x
  {
    if x > 0 && h[x].priority < h[Parent(x)].priority {
      ParentOf(x);
      SwapKeepsEntries(h, x, Parent(x));
      SiftedUpKeepsEntries(h[x := h[Parent(x)]][Parent(x) := h[x]], Parent(x));
    }
  }

  /** Sifting up repairs a heap whose only fault is above `x`. */
  lemma {:induction false} SiftedUpRepairs<T>(h: seq<Entry<T>>, x: int)
    requires 0 <= x < |h| && HeapExceptUp(h, x)
    ensures IsHeap(SiftedUp(h, x))
    decreases x
  {
    if x > 0 && h[x].priority < h[Parent(x)].priority {
      ParentOf(x);
      SwapUp(h, x);
      SiftedUpRepairs(h[x := h[Parent(x)]][Parent(x) := h[x]], Parent(x));
    } else {
      SettledUp(h, x);
    }
  }

  /** Where sifting up stops. The entry from `x` climbs past exactly the
      ancestors that are strictly less urgent, and comes to rest at the
      root or below the first ancestor that is no less urgent. So it never
      passes an equal priority. The entries it passed each move down one
      level, and no entry off that path moves. */
  lemma {:induction false} SiftUpStops<T>(h: seq<Entry<T>>, x: int)
    requires 0 <= x < |h|
    ensures var pos := Climb(h, x);
            && pos <= x && Above(pos, x)
            && SiftedUp(h, x)[pos] == h[x]
            && (pos == 0 || h[Parent(pos)].priority <= h[x].priority)
            && (forall y :: pos <= y < x && Above(y, x) ==> h[x].priority < h[y].priority)
            && (forall i :: 0 <= i < |h| && !(pos <= i <= x && Above(i, x)) ==> SiftedUp(h, x)[i] == h[i])
    decreases x
  {
    if x > 0 && h[x].priority < h[Parent(x)].priority {
      var p := Parent(x);
      ParentOf(x);
      var g := h[x := h[p]][p := h[x]];
      SiftUpStops(g, p);
      var pos := Climb(g, p);
      assert Climb(h, x) == pos && SiftedUp(h, x) == SiftedUp(g, p);
      if pos > 0 {
        ParentOf(pos);
        assert g[Parent(pos)] == h[Parent(pos)];
      }
      forall y | pos <= y < x && Above(y, x) ensures h[x].priority < h[y].priority {
        if y != p {
          assert Above(y, p);
          assert g[y] == h[y];
        }
      }
      forall i | 0 <= i < |h| && !(pos <= i <= x && Above(i, x)) ensures SiftedUp(h, x)[i] == h[i] {
        assert Above(p, x);
        assert !(pos <= i <= p && Above(i, p));
      }
    }
  }

  /** Sifting down only rearranges entries. */
  lemma {:induction false} SiftedDownKeepsEntries<T>(h: seq<Entry<T>>, x: int)
    requires 0 <= x < |h|
    ensures multiset(SiftedDown(h, x)) == multiset(h)
    decreases |h| - x
  {
    var s := Smallest(h, x);
    if s != x {
      SwapKeepsEntries(h, x, s);
      SiftedDownKeepsEntries(h[x := h[s]][s := h[x]], s);
    }
  }

  /** Sifting down repairs a heap whose only fault is below `x`. */
  lemma {:induction false} SiftedDownRepairs<T>(h: seq<Entry<T>>, x: int)
    requires 0 <= x < |h| && HeapExceptDown(h, x)
    ensures IsHeap(SiftedDown(h, x))
    decreases |h| - x
  {
    var s := Smallest(h, x);
    if s == x {
      SettledDown(h, x);
    } else {
      SwapDown(h, x, s);
      SiftedDownRepairs(h[x := h[s]][s := h[x]], s);
    }
  }

  /** `enqueue` keeps a heap and adds exactly the new entry. */
  lemma EnqueuedSpec<T>(h: seq<Entry<T>>, e: Entry<T>)
    requires IsHeap(h)
    ensures IsHeap(Enqueued(h, e))
    ensures |Enqueued(h, e)| == |h| + 1
    ensures multiset(Enqueued(h, e)) == multiset(h) + multiset{e}
  {
    AppendExceptUp(h, e);
    SiftedUpRepairs(h + [e], |h|);
    SiftedUpKeepsEntries(h + [e], |h|);
  }

  /** `dequeue` keeps a heap and removes exactly the root entry. */
  lemma DequeuedSpec<T>(h: seq<Entry<T>>)
    requires IsHeap(h) && h != []
    ensures IsHeap(Dequeued(h))
    ensures |Dequeued(h)| == |h| - 1
    ensures multiset(Dequeued(h)) == multiset(h) - multiset{h[0]}
  {
    if |h| > 1 {
      LastToRoot(h);
      var g := [h[|h| - 1]] + h[1..|h| - 1];
      SiftedDownRepairs(g, 0);
      SiftedDownKeepsEntries(g, 0);
    }
  }

  /** `changePriority` keeps a heap and replaces exactly the entry at `i` by
      the same item with the new priority. */
  lemma ReprioritisedSpec<T>(h: seq<Entry<T>>, i: int, priority: int)
    requires IsHeap(h) && 0 <= i < |h|
    ensures IsHeap(Reprioritised(h, i, priority))
    ensures |Reprioritised(h, i, priority)| == |h|
    ensures multiset(Reprioritised(h, i, priority))
            == multiset(h) - multiset{h[i]} + multiset{Entry(h[i].item, priority)}
  {
    var g := h[i := Entry(h[i].item, priority)];
    assert multiset(g) == multiset(h) - multiset{h[i]} + multiset{g[i]};
    if priority < h[i].priority {
      LowerExceptUp(h, i, priority);
      SiftedUpRepairs(g, i);
      SiftedUpKeepsEntries(g, i);
    } else {
      RaiseExceptDown(h, i, priority);
      SiftedDownRepairs(g, i);
      SiftedDownKeepsEntries(g, i);
    }
  }

  class PriorityQueue<T> {
    var heap: seq<Entry<T>>

    ghost predicate Valid()
      reads this
    {
      IsHeap(heap)
    }

    constructor ()
      ensures Valid() && heap == []
    {
      heap := [];
    }

    /** Append the entry, then sift it up. */
    method Enqueue(item: T, priority: int)
      requires Valid()
      modifies this
      ensures heap == Enqueued(old(heap), Entry(item, priority))
      ensures Valid()
      ensures |heap| == |old(heap)| + 1
      ensures multiset(heap) == multiset(old(heap)) + multiset{Entry(item, priority)}
    {
      EnqueuedSpec(heap, Entry(item, priority));
      heap := heap + [Entry(item, priority)];
      SiftUp(|heap| - 1);
    }

    /** Remove and return the item at the root: none on an empty queue;
        otherwise an item of least priority, whose entry leaves the heap. */
    method Dequeue() returns (top: Option<T>)
      requires Valid()
      modifies this
      ensures Valid()
      ensures old(heap) == [] ==> top == None && heap == []
      ensures old(heap) != [] ==>
                && top == Some(old(heap)[0].item)
                && heap == Dequeued(old(heap))
                && (forall e :: e in old(heap) ==> old(heap)[0].priority <= e.priority)
                && |heap| == |old(heap)| - 1
                && multiset(heap) == multiset(old(heap)) - multiset{old(heap)[0]}
      ensures |old(heap)| == 1 ==> heap == []
    {
      if IsEmpty() {
        return None;
      }
      RootIsMinimum(heap);
      DequeuedSpec(heap);
      ghost var before := heap;
      var first := heap[0].item;
      var last := heap[|heap| - 1];
      heap := heap[..|heap| - 1];
      if |heap| > 0 {
        heap := heap[0 := last];
        assert heap == [last] + before[1..|before| - 1];
        SiftDown(0);
      }
      return Some(first);
    }

    /** The root item without removing it: an item of least priority, or
        none when the queue is empty. */
    function Peek(): (top: Option<T>)
      requires Valid()
      reads this
      ensures top.None? <==> heap == []
      ensures top.Some? ==> exists i :: 0 <= i < |heap| && heap[i].item == top.value
                                     && forall j :: 0 <= j < |heap| ==> heap[i].priority <= heap[j].priority
    {
      if IsEmpty() then None
      else
        RootIsMinimum(heap);
        Some(heap[0].item)
    }

    /** Give the first entry whose item satisfies `matches` the priority
        `newPriority`, then sift it up when it became more urgent and down
        otherwise; false, with nothing changed, when no item matches. */
    method ChangePriority(matches: T -> bool, newPriority: int) returns (found: bool)
      requires Valid()
      modifies this
      ensures Valid()
      ensures found <==> exists i :: 0 <= i < |old(heap)| && matches(old(heap)[i].item)
      ensures !found ==> heap == old(heap)
      ensures found ==> |heap| == |old(heap)|
      ensures found ==> exists i :: && FirstMatch(old(heap), matches, i)
                                    && heap == Reprioritised(old(heap), i, newPriority)
                                    && multiset(heap) == multiset(old(heap)) - multiset{old(heap)[i]}
                                                         + multiset{Entry(old(heap)[i].item, newPriority)}
    {
      for i := 0 to |heap|
        invariant heap == old(heap)
        invariant forall j :: 0 <= j < i ==> !matches(heap[j].item)
      {
        if matches(heap[i].item) {
          var oldPriority := heap[i].priority;
          ReprioritisedSpec(heap, i, newPriority);
          ghost var before := heap;
          heap := heap[i := Entry(heap[i].item, newPriority)];
          if newPriority < oldPriority {
            SiftUp(i);
          } else {
            SiftDown(i);
          }
          assert FirstMatch(before, matches, i);
          return true;
        }
      }
      return false;
    }

    function IsEmpty(): (empty: bool)
      reads this
      ensures empty <==> Size() == 0
    {
      |heap| == 0
    }

    function Size(): (n: nat)
      reads this
      ensures n == |heap|
    {
      |heap|
    }

    /** The items in internal array order (a heap order, not sorted). */
    function GetAll(): (items: seq<T>)
      reads this
      ensures |items| == Size()
      ensures forall i :: 0 <= i < |heap| ==> items[i] == heap[i].item
    {
      seq(|heap|, i requires 0 <= i < |heap| reads this => heap[i].item)
    }

    /** Move the entry at `index` up while it is strictly more urgent than
        its parent. */
    method SiftUp(index: nat)
      requires index < |heap|
      modifies this
      ensures heap == SiftedUp(old(heap), index)
    {
      var current := index;
      var parent := Parent(current);
      while current > 0 && heap[current].priority < heap[parent].priority
        invariant 0 <= current < |heap|
        invariant parent == Parent(current)
        invariant SiftedUp(heap, current) == SiftedUp(old(heap), index)
        decreases current
      {
        ParentOf(current);
        heap := heap[current := heap[parent]][parent := heap[current]];
        current := parent;
        parent := Parent(current);
      }
    }

    /** Swap the entry at `index` with its more urgent child while that child
        is strictly more urgent, recursively. */
    method SiftDown(index: nat)
      requires index < |heap|
      modifies this
      ensures heap == SiftedDown(old(heap), index)
      decreases |heap| - index
    {
      var current := index;
      var leftChild := 2 * current + 1;
      var rightChild := 2 * current + 2;
      var smallest := current;
      var length := |heap|;
      if leftChild < length && heap[leftChild].priority < heap[smallest].priority {
        smallest := leftChild;
      }
      if rightChild < length && heap[rightChild].priority < heap[smallest].priority {
        smallest := rightChild;
      }
      assert smallest == Smallest(heap, current);
      if smallest != current {
        heap := heap[current := heap[smallest]][smallest := heap[current]];
        SiftDown(smallest);
      }
    }
  }
}

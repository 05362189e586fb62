/**
  Binary max-heaps laid out in part of a sequence, and the two steps by which an element sinks
  (BAN/include/BAN/Heap.h).
 */
module HeapOrder {
  import opened Ordering
  import opened Sequences

  /** Index i of the heap at low stands below its parent in the order. */
  predicate Below<T>(less: (T, T) -> bool, s: seq<T>, low: nat, i: nat)
    requires 0 < i && low + i < |s|
  {
    Le(less, s[low + i], s[low + (i - 1) / 2])
  }

  /** The heap order holds below every parent from index `from` on. */
  ghost predicate HeapFrom<T>(less: (T, T) -> bool, s: seq<T>, low: nat, len: nat, from: nat) {
    low + len <= |s| && forall i :: 0 < i < len && from <= (i - 1) / 2 ==> Below(less, s, low, i)
  }

  lemma LeavesAreHeap<T>(less: (T, T) -> bool, s: seq<T>, low: nat, len: nat)
    requires low + len <= |s|
    ensures HeapFrom(less, s, low, len, if len <= 1 then 0 else (len - 2) / 2 + 1)
  {
  }

  /** As above but for the children of the hole, which still stand below the hole's parent. */
  ghost predicate Sinking<T>(less: (T, T) -> bool, s: seq<T>, low: nat, len: nat, from: nat, hole: nat) {
    && low + len <= |s|
    && (forall i :: 0 < i < len && from <= (i - 1) / 2 && (i - 1) / 2 != hole ==> Below(less, s, low, i))
    && (0 < hole && from <= (hole - 1) / 2 && 2 * hole + 1 < len ==> Le(less, s[low + 2 * hole + 1], s[low + (hole - 1) / 2]))
    && (0 < hole && from <= (hole - 1) / 2 && 2 * hole + 2 < len ==> Le(less, s[low + 2 * hole + 2], s[low + (hole - 1) / 2]))
  }

  lemma SinkStarts<T>(less: (T, T) -> bool, s: seq<T>, low: nat, len: nat, from: nat)
    requires HeapFrom(less, s, low, len, from + 1)
    ensures Sinking(less, s, low, len, from, from)
  {
    assert forall i :: 0 < i < len && from <= (i - 1) / 2 && (i - 1) / 2 != from ==> Below(less, s, low, i);
  }

  /** Both children stand below the element. */
  ghost predicate InPlace<T>(less: (T, T) -> bool, s: seq<T>, low: nat, len: nat, hole: nat) {
    && low + len <= |s|
    && (2 * hole + 1 < len ==> Le(less, s[low + 2 * hole + 1], s[low + hole]))
    && (2 * hole + 2 < len ==> Le(less, s[low + 2 * hole + 2], s[low + hole]))
  }

  /** The child is one that neither the element nor the other child exceeds. */
  ghost predicate Largest<T>(less: (T, T) -> bool, s: seq<T>, low: nat, len: nat, hole: nat, child: nat) {
    && low + len <= |s| && child < len && (child == 2 * hole + 1 || child == 2 * hole + 2)
    && Le(less, s[low + hole], s[low + child])
    && Le(less, s[low + 2 * hole + 1], s[low + child])
    && (2 * hole + 2 < len ==> Le(less, s[low + 2 * hole + 2], s[low + child]))
  }

  lemma LargestIndex<T>(less: (T, T) -> bool, s: seq<T>, low: nat, len: nat, hole: nat, child: nat)
    requires Largest(less, s, low, len, hole, child)
    ensures hole < child < len
  {
  }

  lemma NoChildren<T>(less: (T, T) -> bool, s: seq<T>, low: nat, len: nat, hole: nat)
    requires low + len <= |s|
    ensures len <= hole ==> InPlace(less, s, low, len, hole)
  {
  }

  lemma SinkEnds<T>(less: (T, T) -> bool, s: seq<T>, low: nat, len: nat, from: nat, hole: nat)
    requires Sinking(less, s, low, len, from, hole) && InPlace(less, s, low, len, hole)
    ensures HeapFrom(less, s, low, len, from)
  {
  }

  /** One step down, to the child that no other child and not the element itself exceeds. */
  lemma SinkStep<T(!new)>(less: (T, T) -> bool, s: seq<T>, low: nat, len: nat, from: nat, hole: nat, child: nat)
    requires StrictWeakOrder(less) && Sinking(less, s, low, len, from, hole) && from <= hole
    requires Largest(less, s, low, len, hole, child)
    ensures Sinking(less, Swapped(s, low + hole, low + child), low, len, from, child)
  {
    hide StrictWeakOrder;
    var s' := Swapped(s, low + hole, low + child);
    forall i | 0 < i < len && from <= (i - 1) / 2 && (i - 1) / 2 != child ensures Below(less, s', low, i) {
      SinkKeeps(less, s, low, len, from, hole, child, i);
    }
    SinkGrandchildren(less, s, low, len, from, hole, child);
  }

  lemma SinkGrandchildren<T>(less: (T, T) -> bool, s: seq<T>, low: nat, len: nat, from: nat, hole: nat, child: nat)
    requires Sinking(less, s, low, len, from, hole) && from <= hole && Largest(less, s, low, len, hole, child)
    ensures (child - 1) / 2 == hole
    ensures var s' := Swapped(s, low + hole, low + child);
            && (2 * child + 1 < len ==> Le(less, s'[low + 2 * child + 1], s'[low + hole]))
            && (2 * child + 2 < len ==> Le(less, s'[low + 2 * child + 2], s'[low + hole]))
  {
    hide Le;
    assert 2 * child + 1 < len ==> Below(less, s, low, 2 * child + 1);
    assert 2 * child + 2 < len ==> Below(less, s, low, 2 * child + 2);
  }

  lemma SinkKeeps<T(!new)>(less: (T, T) -> bool, s: seq<T>, low: nat, len: nat, from: nat, hole: nat, child: nat, i: nat)
    requires StrictWeakOrder(less) && Sinking(less, s, low, len, from, hole) && from <= hole
    requires Largest(less, s, low, len, hole, child)
    requires 0 < i < len && from <= (i - 1) / 2 && (i - 1) / 2 != child
    ensures Below(less, Swapped(s, low + hole, low + child), low, i)
  {
    var p := (i - 1) / 2;
    if p == hole {
      assert i == 2 * hole + 1 || i == 2 * hole + 2;
    } else if i == hole {
      assert (child - 1) / 2 == hole;
    } else {
      assert Below(less, s, low, i);
      assert i != child;
    }
  }

  /** The root of a heap is a maximum. */
  lemma {:induction false} RootIsMaximum<T(!new)>(less: (T, T) -> bool, s: seq<T>, low: nat, len: nat, i: nat)
    requires StrictWeakOrder(less) && HeapFrom(less, s, low, len, 0) && i < len
    ensures Le(less, s[low + i], s[low])
    decreases i
  {
    if i > 0 {
      assert Below(less, s, low, i);
      RootIsMaximum(less, s, low, len, (i - 1) / 2);
      LeTransitive(less, s[low + i], s[low + (i - 1) / 2], s[low]);
    }
  }

  /** How the comparisons of one step relate an element and its two children. */
  lemma Choice<T(!new)>(less: (T, T) -> bool, x: T, l: T, r: T)
    requires StrictWeakOrder(less)
    ensures less(l, x) ==> Le(less, l, x)
    ensures less(r, x) ==> Le(less, r, x)
    ensures less(r, l) ==> Le(less, r, l)
    ensures Le(less, l, l) && Le(less, r, r)
    ensures Le(less, x, l) && Le(less, l, r) ==> Le(less, x, r)
    ensures Le(less, l, x) && Le(less, x, r) ==> Le(less, l, r)
  {
    if Le(less, x, l) && Le(less, l, r) {
      LeTransitive(less, x, l, r);
    }
    if Le(less, l, x) && Le(less, x, r) {
      LeTransitive(less, l, x, r);
    }
  }

  /** Moving the maximum of a heap behind it extends the sorted part. */
  lemma MaximumSettles<T(!new)>(less: (T, T) -> bool, s: seq<T>, low: nat, high: nat, len: nat)
    requires StrictWeakOrder(less) && 0 < len && HeapFrom(less, s, low, len, 0) && SortedAround(less, s, low, high, low, low + len)
    ensures SortedAround(less, Swapped(s, low, low + len - 1), low, high, low, low + len - 1)
  {
    hide StrictWeakOrder;
    hide HeapFrom;
    hide Rearranged;
    var s', last := Swapped(s, low, low + len - 1), low + len - 1;
    SwappedIsRearranged(s, low, last, low, low + len);
    AroundKept(less, s, s', low, high, low, low + len);
    forall i, j | low <= i < j < high && !(low <= i && j < last) ensures InOrder(less, s', i, j) {
      if j == last {
        RootIsMaximum(less, s, low, len, if i == low then len - 1 else i - low);
      }
    }
  }

  /** Without its root and last element, a heap is one below the root. */
  lemma RootReplaced<T>(less: (T, T) -> bool, s: seq<T>, low: nat, len: nat)
    requires 0 < len && HeapFrom(less, s, low, len, 0)
    ensures HeapFrom(less, Swapped(s, low, low + len - 1), low, len - 1, 1)
  {
    var s' := Swapped(s, low, low + len - 1);
    forall i | 0 < i < len - 1 && 1 <= (i - 1) / 2 ensures Below(less, s', low, i) {
      assert Below(less, s, low, i);
    }
  }
}

/**
  Introsort on an array: three-way partition with a tracked pivot, insertion sort for short
  ranges and heap sort when the depth is used up (BAN/include/BAN/Sort.h, BAN/include/BAN/Heap.h).
  Iterators are indices; a range goes from begin to end - 1.
 */
module IntroSort {
  import opened Ordering
  import opened Sequences
  import opened HeapOrder

  method Swap<T>(a: array<T>, i: nat, j: nat)
    requires i < a.Length && j < a.Length
    modifies a
    ensures a[..] == Swapped(old(a[..]), i, j)
  {
    a[i], a[j] := a[j], a[i];
  }

  // ---------------------------------------------------------------- heaps

  /** The child that an element sinks to, or 0 when it is in place. */
  method SinkTo<T(!new)>(a: array<T>, begin: nat, index: nat, len: nat, less: (T, T) -> bool) returns (child: nat)
    requires StrictWeakOrder(less) && index < len && begin + len <= a.Length
    ensures child == 0 ==> InPlace(less, a[..], begin, len, index)
    ensures child != 0 ==> Largest(less, a[..], begin, len, index, child)
  {
    hide StrictWeakOrder;
    var l, r := 2 * index + 1, 2 * index + 2;
    ghost var x := a[begin + index];
    Choice(less, x, if l < len then a[begin + l] else x, if r < len then a[begin + r] else x);
    if l < len && !less(a[begin + l], a[begin + index]) {
      if r < len && !less(a[begin + r], a[begin + l]) {
        child := r;
      } else {
        child := l;
      }
    } else if r < len && !less(a[begin + r], a[begin + index]) {
      child := r;
    } else {
      child := 0;
    }
  }

  method HeapifyDown<T(!new)>(a: array<T>, begin: nat, index: nat, len: nat, less: (T, T) -> bool)
    requires StrictWeakOrder(less) && begin + len <= a.Length && HeapFrom(less, a[..], begin, len, index + 1)
    modifies a
    ensures HeapFrom(less, a[..], begin, len, index)
    ensures Rearranged(old(a[..]), a[..], begin, begin + len)
  {
    hide Sinking;
    hide HeapFrom;
    hide StrictWeakOrder;
    hide Rearranged;
    hide InPlace;
    hide Largest;
    hide Swapped;
    ghost var s := a[..];
    SinkStarts(less, s, begin, len, index);
    RearrangedSelf(s, begin, begin + len);
    var hole := index;
    while hole < len
      invariant index <= hole
      invariant Sinking(less, a[..], begin, len, index, hole)
      invariant Rearranged(s, a[..], begin, begin + len)
    {
      var child := SinkTo(a, begin, hole, len, less);
      if child == 0 {
        break;
      }
      ghost var before := a[..];
      LargestIndex(less, before, begin, len, hole, child);
      SinkStep(less, before, begin, len, index, hole, child);
      SwappedIsRearranged(before, begin + hole, begin + child, begin, begin + len);
      Swap(a, begin + hole, begin + child);
      RearrangedTransitive(s, before, a[..], begin, begin + len);
      hole := child;
    }
    NoChildren(less, a[..], begin, len, hole);
    SinkEnds(less, a[..], begin, len, index, hole);
  }

  method MakeHeap<T(!new)>(a: array<T>, begin: nat, end: nat, less: (T, T) -> bool)
    requires StrictWeakOrder(less) && begin <= end <= a.Length
    modifies a
    ensures HeapFrom(less, a[..], begin, end - begin, 0)
    ensures Rearranged(old(a[..]), a[..], begin, end)
  {
    hide HeapFrom;
    hide StrictWeakOrder;
    hide Rearranged;
    ghost var s := a[..];
    RearrangedSelf(s, begin, end);
    var len := end - begin;
    LeavesAreHeap(less, a[..], begin, len);
    if len <= 1 {
      return;
    }
    var index := (len - 2) / 2;
    while 0 <= index
      invariant -1 <= index < len
      invariant HeapFrom(less, a[..], begin, len, index + 1)
      invariant Rearranged(s, a[..], begin, end)
    {
      ghost var before := a[..];
      HeapifyDown(a, begin, index, len, less);
      RearrangedTransitive(s, before, a[..], begin, end);
      index := index - 1;
    }
  }

  method PopHeap<T(!new)>(a: array<T>, begin: nat, end: nat, less: (T, T) -> bool, ghost high: nat)
    requires StrictWeakOrder(less) && begin < end <= a.Length && HeapFrom(less, a[..], begin, end - begin, 0)
    requires SortedAround(less, a[..], begin, high, begin, end)
    modifies a
    ensures HeapFrom(less, a[..], begin, end - 1 - begin, 0)
    ensures SortedAround(less, a[..], begin, high, begin, end - 1)
    ensures Rearranged(old(a[..]), a[..], begin, end)
  {
    hide HeapFrom;
    hide StrictWeakOrder;
    hide Rearranged;
    hide SortedAround;
    ghost var s := a[..];
    var len := end - begin;
    SwappedIsRearranged(s, begin, begin + len - 1, begin, end);
    MaximumSettles(less, s, begin, high, len);
    RootReplaced(less, s, begin, len);
    Swap(a, begin, begin + len - 1);
    ghost var t := a[..];
    HeapifyDown(a, begin, 0, len - 1, less);
    AroundKept(less, t, a[..], begin, high, begin, end - 1);
    RearrangedWider(t, a[..], begin, end - 1, begin, end);
    RearrangedTransitive(s, t, a[..], begin, end);
  }

  method SortHeap<T(!new)>(a: array<T>, begin: nat, end: nat, less: (T, T) -> bool)
    requires StrictWeakOrder(less) && begin <= end <= a.Length && HeapFrom(less, a[..], begin, end - begin, 0)
    modifies a
    ensures SortedPart(less, a[..], begin, end)
    ensures Rearranged(old(a[..]), a[..], begin, end)
  {
    hide HeapFrom;
    hide StrictWeakOrder;
    hide Rearranged;
    hide SortedAround;
    hide SortedPart;
    ghost var s := a[..];
    RearrangedSelf(s, begin, end);
    AroundAll(less, s, begin, end);
    var last := end;
    while begin != last
      invariant begin <= last <= end
      invariant HeapFrom(less, a[..], begin, last - begin, 0)
      invariant SortedAround(less, a[..], begin, end, begin, last)
      invariant Rearranged(s, a[..], begin, end)
      decreases last
    {
      ghost var before := a[..];
      PopHeap(a, begin, last, less, end);
      RearrangedWider(before, a[..], begin, last, begin, end);
      RearrangedTransitive(s, before, a[..], begin, end);
      last := last - 1;
    }
    SortedEmpty(less, a[..], begin);
    AroundThenInside(less, a[..], begin, end, begin, begin);
  }

  method HeapSort<T(!new)>(a: array<T>, begin: nat, end: nat, less: (T, T) -> bool)
    requires StrictWeakOrder(less) && begin <= end <= a.Length
    modifies a
    ensures SortedPart(less, a[..], begin, end)
    ensures Rearranged(old(a[..]), a[..], begin, end)
  {
    hide HeapFrom;
    hide StrictWeakOrder;
    hide Rearranged;
    hide SortedPart;
    ghost var s := a[..];
    MakeHeap(a, begin, end, less);
    ghost var t := a[..];
    SortHeap(a, begin, end, less);
    RearrangedTransitive(s, t, a[..], begin, end);
  }

  // ---------------------------------------------------------------- partition

  /** Three-way partition around the middle element, which the swaps move about. */
  method Partition<T(!new)>(a: array<T>, begin: nat, end: nat, less: (T, T) -> bool)
    returns (lt: nat, gt: nat, ghost p: T)
    requires StrictWeakOrder(less) && begin < end <= a.Length
    modifies a
    ensures begin <= lt < gt <= end
    ensures Parted(less, a[..], p, begin, lt, gt, gt, end)
    ensures Rearranged(old(a[..]), a[..], begin, end)
  {
    hide StrictWeakOrder;
    hide Rearranged;
    hide Swapped;
    hide Parted;
    var pivot := begin + (end - begin) / 2;
    ghost var s := a[..];
    p := a[pivot];
    RearrangedSelf(s, begin, end);
    PartedNothing(less, s, p, begin, end);
    NotLess(less, p);
    lt, gt := begin, end;
    var eq := begin;
    while eq != gt
      invariant begin <= lt <= eq <= gt <= end && lt <= pivot < gt && a[pivot] == p
      invariant Parted(less, a[..], p, begin, lt, eq, gt, end)
      invariant Rearranged(s, a[..], begin, end)
      decreases gt - eq
    {
      ghost var before := a[..];
      if less(a[eq], a[pivot]) {
        PartedLess(less, before, p, begin, lt, eq, gt, end);
        SwappedIsRearranged(before, eq, lt, begin, end);
        Swap(a, eq, lt);
        SwappedAt(before, eq, lt, pivot);
        RearrangedTransitive(s, before, a[..], begin, end);
        if pivot == lt {
          pivot := eq;
        }
        lt, eq := lt + 1, eq + 1;
      } else if less(a[pivot], a[eq]) {
        PartedGreater(less, before, p, begin, lt, eq, gt, end);
        gt := gt - 1;
        SwappedIsRearranged(before, eq, gt, begin, end);
        Swap(a, eq, gt);
        SwappedAt(before, eq, gt, pivot);
        RearrangedTransitive(s, before, a[..], begin, end);
        if pivot == gt {
          pivot := eq;
        }
      } else {
        PartedEqual(less, before, p, begin, lt, eq, gt, end);
        eq := eq + 1;
      }
    }
  }

  // ---------------------------------------------------------------- insertion sort

  method Assign<T>(a: array<T>, i: nat, x: T)
    requires i < a.Length
    modifies a
    ensures a[..] == old(a[..])[i := x]
  {
    a[i] := x;
  }

  /** Moves the element at an index down to its place in the sorted part before it. */
  method Insert<T(!new)>(a: array<T>, begin: nat, at: nat, less: (T, T) -> bool)
    requires StrictWeakOrder(less) && begin <= at < a.Length && SortedPart(less, a[..], begin, at)
    modifies a
    ensures SortedPart(less, a[..], begin, at + 1)
    ensures Rearranged(old(a[..]), a[..], begin, at + 1)
  {
    hide StrictWeakOrder;
    hide Rearranged;
    hide SortedPart;
    hide SortedBut;
    hide Swapped;
    hide Filled;
    var x := a[at];
    ghost var s := a[..];
    RearrangedSelf(s, begin, at + 1);
    SortedButLast(less, s, begin, at);
    FilledSelf(s, at);
    var hole := at;
    while hole != begin && less(x, a[hole - 1])
      invariant begin <= hole <= at
      invariant SortedBut(less, Filled(a[..], hole, x), begin, at + 1, hole)
      invariant Rearranged(s, Filled(a[..], hole, x), begin, at + 1)
    {
      ghost var before := a[..];
      ghost var filled := Filled(before, hole, x);
      FilledStep(before, hole, x);
      SortedButStep(less, filled, begin, at + 1, hole);
      SwappedIsRearranged(filled, hole - 1, hole, begin, at + 1);
      RearrangedTransitive(s, filled, Swapped(filled, hole - 1, hole), begin, at + 1);
      Assign(a, hole, a[hole - 1]);
      hole := hole - 1;
    }
    FilledAt(a[..], hole, x);
    SortedButDone(less, Filled(a[..], hole, x), begin, at + 1, hole);
    Assign(a, hole, x);
  }

  method InsertionSort<T(!new)>(a: array<T>, begin: nat, end: nat, less: (T, T) -> bool)
    requires StrictWeakOrder(less) && begin <= end <= a.Length
    modifies a
    ensures SortedPart(less, a[..], begin, end)
    ensures Rearranged(old(a[..]), a[..], begin, end)
  {
    hide StrictWeakOrder;
    hide Rearranged;
    hide SortedPart;
    ghost var s := a[..];
    RearrangedSelf(s, begin, end);
    SortedShort(less, s, begin);
    if end - begin <= 1 {
      return;
    }
    for at := begin + 1 to end
      invariant SortedPart(less, a[..], begin, at)
      invariant Rearranged(s, a[..], begin, end)
    {
      ghost var before := a[..];
      Insert(a, begin, at, less);
      RearrangedWider(before, a[..], begin, at + 1, begin, end);
      RearrangedTransitive(s, before, a[..], begin, end);
    }
  }

  // ---------------------------------------------------------------- introsort

  /** Partitions a range, sorts the shorter side and returns the other, which is all that is left to sort. */
  method SortShorterSide<T(!new)>(a: array<T>, low: nat, high: nat, begin: nat, end: nat, depth: nat, less: (T, T) -> bool)
    returns (begin': nat, end': nat)
    requires StrictWeakOrder(less) && begin < end && high <= a.Length && SortedAround(less, a[..], low, high, begin, end)
    modifies a
    ensures begin <= begin' <= end' <= end && SortedAround(less, a[..], low, high, begin', end')
    ensures Rearranged(old(a[..]), a[..], begin, end)
    decreases depth, 1
  {
    hide StrictWeakOrder;
    hide Rearranged;
    hide SortedPart;
    hide Parted;
    ghost var s := a[..];
    var lt, gt, p := Partition(a, begin, end, less);
    ghost var t := a[..];
    AroundKept(less, s, t, low, high, begin, end);
    if lt - begin < end - gt {
      IntroSortImpl(a, begin, lt, depth, less);
      LargerLeft(less, t, a[..], p, low, high, begin, lt, gt, end);
      RearrangedWider(t, a[..], begin, lt, begin, end);
      begin', end' := gt, end;
    } else {
      IntroSortImpl(a, gt, end, depth, less);
      SmallerLeft(less, t, a[..], p, low, high, begin, lt, gt, end);
      RearrangedWider(t, a[..], gt, end, begin, end);
      begin', end' := begin, lt;
    }
    RearrangedTransitive(s, t, a[..], begin, end);
  }

  /** Sorts a range for every depth limit: heap sort takes over where the limit is reached. */
  method IntroSortImpl<T(!new)>(a: array<T>, begin: nat, end: nat, maxDepth: nat, less: (T, T) -> bool)
    requires StrictWeakOrder(less) && begin <= end <= a.Length
    modifies a
    ensures SortedPart(less, a[..], begin, end)
    ensures Rearranged(old(a[..]), a[..], begin, end)
    decreases maxDepth, 0
  {
    hide StrictWeakOrder;
    hide Rearranged;
    hide SortedPart;
    hide SortedAround;
    ghost var s := a[..];
    RearrangedSelf(s, begin, end);
    AroundAll(less, s, begin, end);
    var b, e := begin, end;
    for i := 0 to maxDepth
      invariant begin <= b <= e <= end
      invariant SortedAround(less, a[..], begin, end, b, e)
      invariant Rearranged(s, a[..], begin, end)
    {
      ghost var t := a[..];
      if e - b <= 16 {
        if e - b <= 1 {
          SortedShort(less, t, b);
          AroundThenInside(less, t, begin, end, b, e);
          return;
        }
        InsertionSort(a, b, e, less);
        FinishRange(less, s, t, a[..], begin, end, b, e);
        return;
      }
      ghost var b0, e0 := b, e;
      b, e := SortShorterSide(a, begin, end, b, e, maxDepth - 1, less);
      RearrangedWider(t, a[..], b0, e0, begin, end);
      RearrangedTransitive(s, t, a[..], begin, end);
    }
    ghost var t := a[..];
    HeapSort(a, b, e, less);
    FinishRange(less, s, t, a[..], begin, end, b, e);
  }

  /** The number of binary digits after the first. */
  function ILog2(n: nat): nat {
    if n <= 1 then 0 else 1 + ILog2(n / 2)
  }

  /** intro_sort: a sorted permutation of the range, for every strict weak order. */
  method Sort<T(!new)>(a: array<T>, begin: nat, end: nat, less: (T, T) -> bool)
    requires StrictWeakOrder(less) && begin <= end <= a.Length
    modifies a
    ensures forall i, j :: begin <= i < j < end ==> !less(a[j], a[i])
    ensures multiset(a[begin..end]) == multiset(old(a[begin..end]))
    ensures a[..begin] == old(a[..begin]) && a[end..] == old(a[end..])
  {
    hide StrictWeakOrder;
    var len := end - begin;
    if len <= 1 {
      return;
    }
    IntroSortImpl(a, begin, end, 2 * ILog2(len), less);
    RearrangedPart(old(a[..]), a[..], begin, end);
    forall i, j | begin <= i < j < end ensures !less(a[j], a[i]) {
      assert InOrder(less, a[..], i, j);
    }
    assert a[..][begin..end] == a[begin..end] && old(a[..])[begin..end] == old(a[begin..end]);
    assert a[..][..begin] == a[..begin] && a[..][end..] == a[end..];
    assert old(a[..])[..begin] == old(a[..begin]) && old(a[..])[end..] == old(a[end..]);
  }
}

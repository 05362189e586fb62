/**
  Strict weak orders, sorted sequences and rearrangements of a part of a sequence: what the
  sorting algorithms are specified with.
 */
module Ordering {
  import opened Sequences

  ghost predicate StrictWeakOrder<T(!new)>(less: (T, T) -> bool) {
    && (forall x :: !less(x, x))
    && (forall x, y, z :: less(x, y) && less(y, z) ==> less(x, z))
    && (forall x, y, z :: Equivalent(less, x, y) && Equivalent(less, y, z) ==> Equivalent(less, x, z))
  }

  predicate Equivalent<T>(less: (T, T) -> bool, x: T, y: T) {
    !less(x, y) && !less(y, x)
  }

  /** x may stand before y. */
  predicate Le<T>(less: (T, T) -> bool, x: T, y: T) {
    !less(y, x)
  }

  lemma LeTransitive<T(!new)>(less: (T, T) -> bool, x: T, y: T, z: T)
    requires StrictWeakOrder(less) && Le(less, x, y) && Le(less, y, z)
    ensures Le(less, x, z)
  {
    assert Equivalent(less, x, y) && Equivalent(less, y, z) ==> Equivalent(less, x, z);
    assert less(z, x) && less(x, y) ==> less(z, y);
    assert less(y, z) && less(z, x) ==> less(y, x);
  }

  lemma LeTotal<T(!new)>(less: (T, T) -> bool, x: T, y: T)
    requires StrictWeakOrder(less)
    ensures Le(less, x, y) || Le(less, y, x)
    ensures less(x, y) ==> Le(less, x, y)
  {
  }

  // ---------------------------------------------------------------- rearranging part of a sequence

  /** Same elements, and nothing moved outside the indices from low to high - 1. */
  ghost predicate Rearranged<T>(s: seq<T>, s': seq<T>, low: nat, high: nat) {
    && low <= high <= |s| == |s'|
    && multiset(s) == multiset(s')
    && s[..low] == s'[..low]
    && s[high..] == s'[high..]
  }

  lemma RearrangedSelf<T>(s: seq<T>, low: nat, high: nat)
    requires low <= high <= |s|
    ensures Rearranged(s, s, low, high)
  {
  }

  lemma RearrangedTransitive<T>(a: seq<T>, b: seq<T>, c: seq<T>, low: nat, high: nat)
    requires Rearranged(a, b, low, high) && Rearranged(b, c, low, high)
    ensures Rearranged(a, c, low, high)
  {
  }

  lemma RearrangedWider<T>(a: seq<T>, b: seq<T>, low: nat, high: nat, low': nat, high': nat)
    requires Rearranged(a, b, low, high) && low' <= low && high <= high' <= |a|
    ensures Rearranged(a, b, low', high')
  {
    assert a[..low'] == a[..low][..low'] == b[..low][..low'] == b[..low'];
    assert a[high'..] == a[high..][high' - high..] == b[high..][high' - high..] == b[high'..];
  }

  /** The part that was rearranged is a permutation of itself. */
  lemma RearrangedPart<T>(a: seq<T>, b: seq<T>, low: nat, high: nat)
    requires Rearranged(a, b, low, high)
    ensures multiset(a[low..high]) == multiset(b[low..high])
  {
    assert a == a[..low] + a[low..high] + a[high..];
    assert b == b[..low] + b[low..high] + b[high..];
    assert multiset(a) == multiset(a[..low]) + multiset(a[low..high]) + multiset(a[high..]);
    assert multiset(b) == multiset(b[..low]) + multiset(b[low..high]) + multiset(b[high..]);
    assert multiset(a[low..high]) == multiset(a) - multiset(a[..low]) - multiset(a[high..]);
    assert multiset(b[low..high]) == multiset(b) - multiset(b[..low]) - multiset(b[high..]);
  }

  /** Every element of the rearranged part was there before. */
  lemma RearrangedFrom<T>(a: seq<T>, b: seq<T>, low: nat, high: nat, j: nat) returns (k: nat)
    requires Rearranged(a, b, low, high) && low <= j < high
    ensures low <= k < high && a[k] == b[j]
  {
    RearrangedPart(a, b, low, high);
    assert b[low..high][j - low] == b[j];
    assert b[j] in multiset(b[low..high]);
    assert b[j] in a[low..high];
    var i :| 0 <= i < |a[low..high]| && a[low..high][i] == b[j];
    k := low + i;
  }

  lemma SwappedIsRearranged<T>(s: seq<T>, i: nat, j: nat, low: nat, high: nat)
    requires low <= i < high <= |s| && low <= j < high
    ensures Rearranged(s, Swapped(s, i, j), low, high)
  {
    if i <= j {
      SwappedMultiset(s, i, j);
    } else {
      SwappedMultiset(s, j, i);
      assert Swapped(s, i, j) == Swapped(s, j, i);
    }
  }

  lemma SwappedMultiset<T>(s: seq<T>, i: nat, j: nat)
    requires i <= j < |s|
    ensures multiset(Swapped(s, i, j)) == multiset(s)
  {
    if i < j {
      var x, m, z := s[..i], s[i + 1..j], s[j + 1..];
      assert s == x + [s[i]] + m + [s[j]] + z;
      assert Swapped(s, i, j) == x + [s[j]] + m + [s[i]] + z;
    } else {
      assert Swapped(s, i, j) == s;
    }
  }

  // ---------------------------------------------------------------- sorted

  /** Indices i < j of the range are in order. */
  predicate InOrder<T>(less: (T, T) -> bool, s: seq<T>, i: nat, j: nat)
    requires i < |s| && j < |s|
  {
    Le(less, s[i], s[j])
  }

  ghost predicate SortedPart<T>(less: (T, T) -> bool, s: seq<T>, low: nat, high: nat) {
    low <= high <= |s| && forall i, j :: low <= i < j < high ==> InOrder(less, s, i, j)
  }

  /** All pairs of the range low to high - 1 are in order but those inside begin to end - 1. */
  ghost predicate SortedAround<T>(less: (T, T) -> bool, s: seq<T>, low: nat, high: nat, begin: nat, end: nat) {
    && low <= begin <= end <= high <= |s|
    && forall i, j :: low <= i < j < high && !(begin <= i && j < end) ==> InOrder(less, s, i, j)
  }

  lemma AroundKept<T>(less: (T, T) -> bool, s: seq<T>, s': seq<T>, low: nat, high: nat, begin: nat, end: nat)
    requires SortedAround(less, s, low, high, begin, end) && Rearranged(s, s', begin, end)
    ensures SortedAround(less, s', low, high, begin, end)
  {
    forall i, j | low <= i < j < high && !(begin <= i && j < end) ensures InOrder(less, s', i, j) {
      var i', j' := i, j;
      if begin <= i < end {
        i' := RearrangedFrom(s, s', begin, end, i);
      } else {
        Unmoved(s, s', begin, end, i);
      }
      if begin <= j < end {
        j' := RearrangedFrom(s, s', begin, end, j);
      } else {
        Unmoved(s, s', begin, end, j);
      }
      assert InOrder(less, s, i', j');
    }
  }

  lemma Unmoved<T>(s: seq<T>, s': seq<T>, low: nat, high: nat, i: nat)
    requires Rearranged(s, s', low, high) && i < |s| && !(low <= i < high)
    ensures s'[i] == s[i]
  {
    if i < low {
      assert s[..low][i] == s'[..low][i];
    } else {
      assert s[high..][i - high] == s'[high..][i - high];
    }
  }

  lemma SortedEmpty<T>(less: (T, T) -> bool, s: seq<T>, at: nat)
    requires at <= |s|
    ensures SortedPart(less, s, at, at)
  {
  }

  lemma AroundAll<T>(less: (T, T) -> bool, s: seq<T>, low: nat, high: nat)
    requires low <= high <= |s|
    ensures SortedAround(less, s, low, high, low, high)
  {
  }

  lemma AroundThenInside<T>(less: (T, T) -> bool, s: seq<T>, low: nat, high: nat, begin: nat, end: nat)
    requires SortedAround(less, s, low, high, begin, end) && SortedPart(less, s, begin, end)
    ensures SortedPart(less, s, low, high)
  {
  }

  lemma SortedShort<T>(less: (T, T) -> bool, s: seq<T>, at: nat)
    requires at <= |s|
    ensures SortedPart(less, s, at, at) && (at < |s| ==> SortedPart(less, s, at, at + 1))
  {
  }

  lemma SwappedAt<T>(s: seq<T>, i: nat, j: nat, k: nat)
    requires i < |s| && j < |s| && k < |s|
    ensures Swapped(s, i, j)[if k == j then i else if k == i then j else k] == s[k]
  {
  }

  lemma NotLess<T(!new)>(less: (T, T) -> bool, x: T)
    requires StrictWeakOrder(less)
    ensures !less(x, x)
  {
  }

  // ---------------------------------------------------------------- partitioned

  /** Smaller elements up to lt, then equivalent ones up to eq, larger ones from gt on. */
  ghost predicate Parted<T>(less: (T, T) -> bool, s: seq<T>, p: T, low: nat, lt: nat, eq: nat, gt: nat, high: nat) {
    && low <= lt <= eq <= gt <= high <= |s|
    && (forall i :: low <= i < lt ==> less(s[i], p))
    && (forall i :: lt <= i < eq ==> Equivalent(less, s[i], p))
    && (forall i :: gt <= i < high ==> less(p, s[i]))
  }

  lemma PartedNothing<T>(less: (T, T) -> bool, s: seq<T>, p: T, low: nat, high: nat)
    requires low <= high <= |s|
    ensures Parted(less, s, p, low, low, low, high, high)
  {
  }

  lemma PartedLess<T>(less: (T, T) -> bool, s: seq<T>, p: T, low: nat, lt: nat, eq: nat, gt: nat, high: nat)
    requires Parted(less, s, p, low, lt, eq, gt, high) && eq < gt && less(s[eq], p)
    ensures Parted(less, Swapped(s, eq, lt), p, low, lt + 1, eq + 1, gt, high)
  {
  }

  lemma PartedGreater<T>(less: (T, T) -> bool, s: seq<T>, p: T, low: nat, lt: nat, eq: nat, gt: nat, high: nat)
    requires Parted(less, s, p, low, lt, eq, gt, high) && eq < gt && less(p, s[eq])
    ensures Parted(less, Swapped(s, eq, gt - 1), p, low, lt, eq, gt - 1, high)
  {
  }

  lemma PartedEqual<T>(less: (T, T) -> bool, s: seq<T>, p: T, low: nat, lt: nat, eq: nat, gt: nat, high: nat)
    requires Parted(less, s, p, low, lt, eq, gt, high) && eq < gt && Equivalent(less, s[eq], p)
    ensures Parted(less, s, p, low, lt, eq + 1, gt, high)
  {
  }

  // ---------------------------------------------------------------- sorted but for one element

  /** All pairs are in order but those that end at the hole. */
  ghost predicate SortedBut<T>(less: (T, T) -> bool, s: seq<T>, low: nat, high: nat, hole: nat) {
    && low <= hole < high <= |s|
    && forall i, j :: low <= i < j < high && j != hole ==> InOrder(less, s, i, j)
  }

  lemma SortedButLast<T>(less: (T, T) -> bool, s: seq<T>, low: nat, last: nat)
    requires SortedPart(less, s, low, last) && last < |s|
    ensures SortedBut(less, s, low, last + 1, last)
  {
  }

  lemma SortedButStep<T(!new)>(less: (T, T) -> bool, s: seq<T>, low: nat, high: nat, hole: nat)
    requires StrictWeakOrder(less) && SortedBut(less, s, low, high, hole) && low < hole && less(s[hole], s[hole - 1])
    ensures SortedBut(less, Swapped(s, hole - 1, hole), low, high, hole - 1)
  {
    hide StrictWeakOrder;
    var s' := Swapped(s, hole - 1, hole);
    LeTotal(less, s[hole], s[hole - 1]);
    forall i, j | low <= i < j < high && j != hole - 1 ensures InOrder(less, s', i, j) {
      if i == hole - 1 && j != hole {
        assert InOrder(less, s, hole, j);
      } else if i == hole {
        assert InOrder(less, s, hole - 1, j);
      } else if j == hole && i != hole - 1 {
        assert InOrder(less, s, i, hole - 1);
      } else if i != hole - 1 {
        assert InOrder(less, s, i, j);
      }
    }
  }

  lemma SortedButDone<T(!new)>(less: (T, T) -> bool, s: seq<T>, low: nat, high: nat, hole: nat)
    requires StrictWeakOrder(less) && SortedBut(less, s, low, high, hole) && (hole == low || !less(s[hole], s[hole - 1]))
    ensures SortedPart(less, s, low, high)
  {
    hide StrictWeakOrder;
    forall i, j | low <= i < j < high ensures InOrder(less, s, i, j) {
      if j == hole && i < hole - 1 {
        assert InOrder(less, s, i, hole - 1);
        LeTransitive(less, s[i], s[hole - 1], s[hole]);
      }
    }
  }

  /** A sequence with an element put into its hole. */
  function Filled<T>(s: seq<T>, hole: nat, x: T): (r: seq<T>)
    requires hole < |s|
    ensures |r| == |s|
  {
    s[hole := x]
  }

  lemma FilledSelf<T>(s: seq<T>, hole: nat)
    requires hole < |s|
    ensures Filled(s, hole, s[hole]) == s
  {
  }

  lemma FilledAt<T>(s: seq<T>, hole: nat, x: T)
    requires hole < |s|
    ensures Filled(s, hole, x)[hole] == x && (0 < hole ==> Filled(s, hole, x)[hole - 1] == s[hole - 1])
    ensures Filled(s, hole, x) == s[hole := x]
  {
  }

  lemma FilledStep<T>(s: seq<T>, hole: nat, x: T)
    requires 0 < hole < |s|
    ensures Filled(s[hole := s[hole - 1]], hole - 1, x) == Swapped(Filled(s, hole, x), hole - 1, hole)
    ensures Filled(s, hole, x)[hole] == x && Filled(s, hole, x)[hole - 1] == s[hole - 1]
  {
  }

  // ---------------------------------------------------------------- one round of introsort

  /** A partition leaves only the smaller and the larger elements to be sorted. */
  lemma PartedInOrder<T(!new)>(less: (T, T) -> bool, s: seq<T>, p: T, low: nat, lt: nat, gt: nat, high: nat, i: nat, j: nat)
    requires StrictWeakOrder(less) && Parted(less, s, p, low, lt, gt, gt, high)
    requires low <= i < j < high && !(i < j < lt) && !(gt <= i)
    ensures InOrder(less, s, i, j)
  {
    hide StrictWeakOrder;
    LeTotal(less, s[i], p);
    LeTotal(less, p, s[j]);
    LeTransitive(less, s[i], p, s[j]);
  }

  /** After a partition, with the smaller part sorted, only the larger part is left. */
  lemma LargerLeft<T(!new)>(less: (T, T) -> bool, s: seq<T>, t: seq<T>, p: T, low: nat, high: nat, begin: nat, lt: nat, gt: nat, end: nat)
    requires StrictWeakOrder(less) && SortedAround(less, s, low, high, begin, end) && Parted(less, s, p, begin, lt, gt, gt, end)
    requires Rearranged(s, t, begin, lt) && SortedPart(less, t, begin, lt)
    ensures SortedAround(less, t, low, high, gt, end)
  {
    hide StrictWeakOrder;
    RearrangedWider(s, t, begin, lt, begin, end);
    AroundKept(less, s, t, low, high, begin, end);
    PartedKept(less, s, t, p, begin, lt, gt, end, begin, lt);
    hide Rearranged;
    hide Parted;
    forall i, j | low <= i < j < high && !(gt <= i && j < end) ensures InOrder(less, t, i, j) {
      if begin <= i && j < end && lt <= j {
        PartedInOrder(less, t, p, begin, lt, gt, end, i, j);
      }
    }
  }

  /** After a partition, with the larger part sorted, only the smaller part is left. */
  lemma SmallerLeft<T(!new)>(less: (T, T) -> bool, s: seq<T>, t: seq<T>, p: T, low: nat, high: nat, begin: nat, lt: nat, gt: nat, end: nat)
    requires StrictWeakOrder(less) && SortedAround(less, s, low, high, begin, end) && Parted(less, s, p, begin, lt, gt, gt, end)
    requires Rearranged(s, t, gt, end) && SortedPart(less, t, gt, end)
    ensures SortedAround(less, t, low, high, begin, lt)
  {
    hide StrictWeakOrder;
    RearrangedWider(s, t, gt, end, begin, end);
    AroundKept(less, s, t, low, high, begin, end);
    PartedKept(less, s, t, p, begin, lt, gt, end, gt, end);
    hide Rearranged;
    hide Parted;
    forall i, j | low <= i < j < high && !(begin <= i && j < lt) ensures InOrder(less, t, i, j) {
      if begin <= i && j < end && i < gt {
        PartedInOrder(less, t, p, begin, lt, gt, end, i, j);
      }
    }
  }

  /** Rearranging the smaller or the larger part keeps a partition. */
  lemma PartedKept<T>(less: (T, T) -> bool, s: seq<T>, t: seq<T>, p: T, low: nat, lt: nat, gt: nat, high: nat, from: nat, to: nat)
    requires Parted(less, s, p, low, lt, gt, gt, high) && Rearranged(s, t, from, to)
    requires (from == low && to == lt) || (from == gt && to == high)
    ensures Parted(less, t, p, low, lt, gt, gt, high)
  {
    forall i | low <= i < high
      ensures i < lt ==> less(t[i], p)
      ensures lt <= i < gt ==> Equivalent(less, t[i], p)
      ensures gt <= i ==> less(p, t[i])
    {
      if from <= i < to {
        var k := RearrangedFrom(s, t, from, to, i);
      } else {
        Unmoved(s, t, from, to, i);
      }
    }
  }

  /** Sorting the rest of a range finishes it. */
  lemma FinishRange<T>(less: (T, T) -> bool, s: seq<T>, t: seq<T>, u: seq<T>, low: nat, high: nat, begin: nat, end: nat)
    requires SortedAround(less, t, low, high, begin, end) && SortedPart(less, u, begin, end)
    requires Rearranged(s, t, low, high) && Rearranged(t, u, begin, end)
    ensures SortedPart(less, u, low, high) && Rearranged(s, u, low, high)
  {
    AroundKept(less, t, u, low, high, begin, end);
    AroundThenInside(less, u, low, high, begin, end);
    RearrangedWider(t, u, begin, end, low, high);
    RearrangedTransitive(s, t, u, low, high);
  }
}

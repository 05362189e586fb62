/**
  LSD radix sort of unsigned integers in an array, with an auxiliary array (BAN/include/BAN/Sort.h).
  Iterators are indices; a range goes from begin to end - 1.
 */
module RadixSort {
  import opened PowersOfTwo
  import opened RadixOrder

  /** counts[d] is the number of elements with digit d. */
  method CountDigits(a: array<nat>, begin: nat, end: nat, b: nat, r: nat) returns (counts: array<nat>)
    requires begin <= end <= a.Length && 0 < b && 0 < r
    ensures fresh(counts) && counts.Length == r
    ensures forall d :: 0 <= d < r ==> counts[d] == |Bucket(a[begin..end], b, r, d)|
  {
    counts := new nat[r](_ => 0);
    for i := begin to end
      invariant forall d :: 0 <= d < r ==> counts[d] == |Bucket(a[begin..i], b, r, d)|
    {
      var d := Digit(a[i], b, r);
      assert a[begin..i + 1] == a[begin..i] + [a[i]];
      forall e | 0 <= e < r ensures |Bucket(a[begin..i + 1], b, r, e)| == |Bucket(a[begin..i], b, r, e)| + if e == d then 1 else 0 {
        BucketSnoc(a[begin..i], a[i], b, r, e);
      }
      counts[d] := counts[d] + 1;
    }
  }

  /** counts[d] becomes the number of elements with a digit up to d. */
  method SumCounts(counts: array<nat>, ghost s: seq<nat>, b: nat, r: nat)
    requires counts.Length == r && 0 < b && 0 < r
    requires forall d :: 0 <= d < r ==> counts[d] == |Bucket(s, b, r, d)|
    modifies counts
    ensures forall d :: 0 <= d < r ==> counts[d] == |Buckets(s, b, r, d + 1)|
  {
    hide Bucket;
    hide Digit;
    assert |Buckets(s, b, r, 1)| == |Bucket(s, b, r, 0)|;
    for i := 0 to r - 1
      invariant forall d :: 0 <= d <= i ==> counts[d] == |Buckets(s, b, r, d + 1)|
      invariant forall d :: i < d < r ==> counts[d] == |Bucket(s, b, r, d)|
    {
      counts[i + 1] := counts[i + 1] + counts[i];
    }
  }

  /** Position p of the distributed sequence belongs to an element from index k on. */
  ghost predicate Filled(s: seq<nat>, b: nat, r: nat, k: nat, p: nat)
    requires 0 < b && 0 < r && k <= |s| && p < |Buckets(s, b, r, r)|
  {
    var d := Digit(Buckets(s, b, r, r)[p], b, r);
    |Buckets(s, b, r, d)| + |Bucket(s[..k], b, r, d)| <= p
  }

  /** One digit more: the positions filled from k on are those from k + 1 on and the place of element k. */
  lemma FilledNext(s: seq<nat>, b: nat, r: nat, k: nat, p: nat)
    requires 0 < b && 0 < r && k < |s| && p < |Buckets(s, b, r, r)| && Filled(s, b, r, k, p)
    ensures var d := Digit(s[k], b, r);
            Filled(s, b, r, k + 1, p) || p == |Buckets(s, b, r, d)| + |Bucket(s[..k], b, r, d)|
  {
    hide Digit;
    var e := Digit(Buckets(s, b, r, r)[p], b, r);
    assert s[..k + 1] == s[..k] + [s[k]];
    BucketSnoc(s[..k], s[k], b, r, e);
  }

  lemma NothingFilled(s: seq<nat>, b: nat, r: nat, p: nat)
    requires 0 < b && 0 < r && p < |Buckets(s, b, r, r)|
    ensures !Filled(s, b, r, |s|, p)
  {
    hide Digit;
    assert s[..|s|] == s;
    BucketsDigit(s, b, r, r, p);
  }

  lemma AllFilled(s: seq<nat>, b: nat, r: nat, p: nat)
    requires 0 < b && 0 < r && p < |Buckets(s, b, r, r)|
    ensures Filled(s, b, r, 0, p)
  {
    hide Digit;
    BucketsDigit(s, b, r, r, p);
  }

  /** Copies the elements from the last to the first to their places in the auxiliary array. */
  method Distribute(a: array<nat>, begin: nat, end: nat, storage: array<nat>, counts: array<nat>, b: nat, r: nat)
    requires begin <= end <= a.Length && end - begin <= storage.Length && 0 < b && 0 < r
    requires a != storage && counts != a && counts != storage && counts.Length == r
    requires forall d :: 0 <= d < r ==> counts[d] == |Buckets(a[begin..end], b, r, d + 1)|
    modifies storage, counts
    ensures storage[..end - begin] == Buckets(a[begin..end], b, r, r)
    ensures storage[end - begin..] == old(storage[end - begin..])
  {
    hide Filled;
    hide Bucket;
    hide Buckets;
    hide Digit;
    ghost var s, t := a[begin..end], Buckets(a[begin..end], b, r, r);
    var len := end - begin;
    BucketsPermute(s, b, r);
    CountsReady(s, b, r);
    forall p | 0 <= p < len ensures !Filled(s, b, r, len, p) && Filled(s, b, r, 0, p) {
      NothingFilled(s, b, r, p);
      AllFilled(s, b, r, p);
    }
    var k := len;
    while k != 0
      invariant 0 <= k <= len
      invariant forall d :: 0 <= d < r ==> counts[d] == |Buckets(s, b, r, d)| + |Bucket(s[..k], b, r, d)|
      invariant forall p :: 0 <= p < len && Filled(s, b, r, k, p) ==> storage[p] == t[p]
      invariant storage[len..] == old(storage[len..])
    {
      k := k - 1;
      var d := Digit(a[begin + k], b, r);
      assert s[k] == a[begin + k];
      DigitBound(s[k], b, r);
      Place(s, b, r, k);
      CountsNext(s, b, r, k);
      forall p | 0 <= p < len && Filled(s, b, r, k, p)
        ensures Filled(s, b, r, k + 1, p) || p == |Buckets(s, b, r, d)| + |Bucket(s[..k], b, r, d)|
      {
        FilledNext(s, b, r, k, p);
      }
      counts[d] := counts[d] - 1;
      storage[counts[d]] := a[begin + k];
    }
  }

  lemma CountsReady(s: seq<nat>, b: nat, r: nat)
    requires 0 < b && 0 < r
    ensures forall d :: 0 <= d < r ==> |Buckets(s, b, r, d + 1)| == |Buckets(s, b, r, d)| + |Bucket(s[..|s|], b, r, d)|
  {
    assert s[..|s|] == s;
  }

  lemma CountsNext(s: seq<nat>, b: nat, r: nat, k: nat)
    requires 0 < b && 0 < r && k < |s|
    ensures forall d :: 0 <= d < r ==>
      |Bucket(s[..k + 1], b, r, d)| == |Bucket(s[..k], b, r, d)| + if Digit(s[k], b, r) == d then 1 else 0
  {
    assert s[..k + 1] == s[..k] + [s[k]];
    forall d | 0 <= d < r
      ensures |Bucket(s[..k + 1], b, r, d)| == |Bucket(s[..k], b, r, d)| + if Digit(s[k], b, r) == d then 1 else 0
    {
      BucketSnoc(s[..k], s[k], b, r, d);
    }
  }

  lemma SliceOfSlice(s: seq<nat>, i: nat, j: nat, k: nat)
    requires i <= j <= k <= |s|
    ensures s[i..k][..j - i] == s[i..j] && s[i..k][j - i..] == s[j..k]
  {
  }

  /** One counting pass: the range becomes its stable distribution by a digit. */
  method SortByDigit(a: array<nat>, begin: nat, end: nat, storage: array<nat>, b: nat, r: nat)
    requires begin <= end && end - begin <= storage.Length && begin + storage.Length <= a.Length && a != storage
    requires 0 < b && 0 < r
    modifies a, storage
    ensures a[begin..end] == Buckets(old(a[begin..end]), b, r, r)
    ensures a[..begin] == old(a[..begin]) && a[begin + storage.Length..] == old(a[begin + storage.Length..])
    ensures a[end..begin + storage.Length] == storage[end - begin..] == old(storage[end - begin..])
  {
    hide Buckets;
    hide Bucket;
    hide Digit;
    var counts := CountDigits(a, begin, end, b, r);
    SumCounts(counts, a[begin..end], b, r);
    Distribute(a, begin, end, storage, counts, b, r);
    ghost var placed := storage[..];
    CopyBack(a, begin, storage);
    SliceOfSlice(a[..], begin, end, begin + storage.Length);
    assert a[..][begin..begin + storage.Length] == a[begin..begin + storage.Length] == placed;
    assert a[..][begin..end] == a[begin..end] && a[..][end..begin + storage.Length] == a[end..begin + storage.Length];
  }

  /** Copies the whole auxiliary array back, also what lies behind the sorted elements. */
  method CopyBack(a: array<nat>, begin: nat, storage: array<nat>)
    requires begin + storage.Length <= a.Length && a != storage
    modifies a
    ensures a[begin..begin + storage.Length] == storage[..]
    ensures a[..begin] == old(a[..begin]) && a[begin + storage.Length..] == old(a[begin + storage.Length..])
  {
    for j := 0 to storage.Length
      invariant a[begin..begin + j] == storage[..j]
      invariant a[..begin] == old(a[..begin]) && a[begin + storage.Length..] == old(a[begin + storage.Length..])
    {
      a[begin + j] := storage[j];
      assert a[begin..begin + j + 1] == a[begin..begin + j] + [a[begin + j]];
    }
  }

  // ---------------------------------------------------------------- all passes

  /** A sequence ordered by all digits of its elements is sorted. */
  lemma AllDigits(s: seq<nat>, width: nat, n: nat)
    requires width <= n && SortedMod(s, Pow2(n)) && forall x :: x in s ==> x < Pow2(width)
    ensures forall i, j :: 0 <= i < j < |s| ==> s[i] <= s[j]
  {
    hide Pow2;
    hide LowLe;
    Pow2Monotone(width, n);
    forall i, j | 0 <= i < j < |s| ensures s[i] <= s[j] {
      assert s[i] in s && s[j] in s;
      AllOfIt(s[i], s[j], Pow2(n));
    }
  }

  lemma AllOfIt(x: nat, y: nat, m: nat)
    requires x < m && y < m && LowLe(x, y, m)
    ensures x <= y
  {
  }

  /**
    Radix sort with a caller's auxiliary array, for values of width bits and radix 2^shift.  The range is sorted
    for every auxiliary array that is long enough; what follows the range is overwritten by the array's tail.
   */
  method SortWith(a: array<nat>, begin: nat, end: nat, storage: array<nat>, width: nat, shift: nat)
    requires begin <= end && end - begin <= storage.Length && begin + storage.Length <= a.Length && a != storage
    requires 0 < width && 0 < shift && forall i :: begin <= i < end ==> a[i] < Pow2(width)
    modifies a, storage
    ensures forall i, j :: begin <= i < j < end ==> a[i] <= a[j]
    ensures multiset(a[begin..end]) == multiset(old(a[begin..end]))
    ensures a[..begin] == old(a[..begin]) && a[begin + storage.Length..] == old(a[begin + storage.Length..])
    ensures 1 < end - begin ==> a[end..begin + storage.Length] == old(storage[end - begin..])
    ensures end - begin <= 1 ==> a[..] == old(a[..])
  {
    hide Buckets;
    hide Pow2;
    hide SortedMod;
    if end - begin <= 1 {
      return;
    }
    ghost var s := a[begin..end];
    assert forall x :: x in s ==> x < Pow2(width);
    SortedByNothing(s);
    var n := 0;
    ghost var tail := storage[end - begin..];
    while n < width
      invariant SortedMod(a[begin..end], Pow2(n)) && multiset(a[begin..end]) == multiset(s)
      invariant a[..begin] == old(a[..begin]) && a[begin + storage.Length..] == old(a[begin + storage.Length..])
      invariant storage[end - begin..] == tail && (0 < n ==> a[end..begin + storage.Length] == tail)
      decreases width - n
    {
      BucketsSorted(a[begin..end], Pow2(n), Pow2(shift), Pow2(shift));
      BucketsPermute(a[begin..end], Pow2(n), Pow2(shift));
      Pow2Sum(n, shift);
      SortByDigit(a, begin, end, storage, Pow2(n), Pow2(shift));
      n := n + shift;
    }
    SameBound(s, a[begin..end], Pow2(width));
    AllDigits(a[begin..end], width, n);
    forall i, j | begin <= i < j < end ensures a[i] <= a[j] {
      assert a[begin..end][i - begin] <= a[begin..end][j - begin];
    }
  }

  lemma SortedByNothing(s: seq<nat>)
    ensures SortedMod(s, Pow2(0))
  {
  }

  lemma SameBound(s: seq<nat>, t: seq<nat>, bound: nat)
    requires multiset(s) == multiset(t) && forall x :: x in s ==> x < bound
    ensures forall x :: x in t ==> x < bound
  {
    forall x | x in t ensures x < bound {
      assert x in multiset(t);
      assert x in multiset(s);
      assert x in s;
    }
  }

  /** Radix sort with an auxiliary array of its own: a sorted permutation, and nothing else changes. */
  method Sort(a: array<nat>, begin: nat, end: nat, width: nat, shift: nat)
    requires begin <= end <= a.Length && 0 < width && 0 < shift && forall i :: begin <= i < end ==> a[i] < Pow2(width)
    modifies a
    ensures forall i, j :: begin <= i < j < end ==> a[i] <= a[j]
    ensures multiset(a[begin..end]) == multiset(old(a[begin..end]))
    ensures a[..begin] == old(a[..begin]) && a[end..] == old(a[end..])
  {
    hide Pow2;
    if end - begin <= 1 {
      return;
    }
    var storage := new nat[end - begin];
    SortWith(a, begin, end, storage, width, shift);
  }

  /** With an auxiliary array longer than the range, exactly the range changes if and only if the tails agree. */
  method SortWithTail(a: array<nat>, begin: nat, end: nat, storage: array<nat>, width: nat, shift: nat) returns (intact: bool)
    requires begin <= end && end - begin <= storage.Length && begin + storage.Length <= a.Length && a != storage
    requires 1 < end - begin && 0 < width && 0 < shift && forall i :: begin <= i < end ==> a[i] < Pow2(width)
    modifies a, storage
    ensures intact <==> a[end..] == old(a[end..])
    ensures intact <==> old(a[end..begin + storage.Length]) == old(storage[end - begin..])
  {
    hide Pow2;
    intact := a[end..begin + storage.Length] == storage[end - begin..];
    SortWith(a, begin, end, storage, width, shift);
    ghost var m := begin + storage.Length;
    assert a[end..] == a[end..m] + a[m..] && old(a[end..]) == old(a[end..m]) + old(a[m..]);
  }
}

/**
  Stable distribution of a sequence by one digit, the specification of a counting pass of radix
  sort (BAN/include/BAN/Sort.h).
 */
module RadixOrder {

  /** The digit of x in radix r at the place of weight b. */
  function Digit(x: nat, b: nat, r: nat): nat
    requires 0 < b && 0 < r
  {
    x / b % r
  }

  /** The elements with a given digit, in their order. */
  function Bucket(s: seq<nat>, b: nat, r: nat, d: nat): seq<nat>
    requires 0 < b && 0 < r
  {
    if s == [] then []
    else Bucket(s[..|s| - 1], b, r, d) + if Digit(s[|s| - 1], b, r) == d then [s[|s| - 1]] else []
  }

  /** The buckets of the first n digits, one after another. */
  function Buckets(s: seq<nat>, b: nat, r: nat, n: nat): seq<nat>
    requires 0 < b && 0 < r
  {
    if n == 0 then [] else Buckets(s, b, r, n - 1) + Bucket(s, b, r, n - 1)
  }

  // ---------------------------------------------------------------- the same elements

  lemma BucketSnoc(s: seq<nat>, x: nat, b: nat, r: nat, d: nat)
    requires 0 < b && 0 < r
    ensures Bucket(s + [x], b, r, d) == Bucket(s, b, r, d) + if Digit(x, b, r) == d then [x] else []
  {
    assert (s + [x])[..|s|] == s;
  }

  lemma {:induction false} BucketsSnoc(s: seq<nat>, x: nat, b: nat, r: nat, n: nat)
    requires 0 < b && 0 < r
    ensures multiset(Buckets(s + [x], b, r, n))
         == multiset(Buckets(s, b, r, n)) + if Digit(x, b, r) < n then multiset{x} else multiset{}
  {
    hide Bucket;
    hide Digit;
    if n > 0 {
      BucketsSnoc(s, x, b, r, n - 1);
      BucketSnoc(s, x, b, r, n - 1);
      if Digit(x, b, r) == n - 1 {
        assert multiset(Bucket(s, b, r, n - 1) + [x]) == multiset(Bucket(s, b, r, n - 1)) + multiset{x};
      }
    }
  }

  lemma {:induction false} BucketsEmpty(b: nat, r: nat, n: nat)
    requires 0 < b && 0 < r
    ensures Buckets([], b, r, n) == []
  {
    if n > 0 {
      BucketsEmpty(b, r, n - 1);
    }
  }

  /** Distributing loses and duplicates nothing. */
  lemma {:induction false} BucketsPermute(s: seq<nat>, b: nat, r: nat)
    requires 0 < b && 0 < r
    ensures multiset(Buckets(s, b, r, r)) == multiset(s) && |Buckets(s, b, r, r)| == |s|
  {
    if s == [] {
      BucketsEmpty(b, r, r);
    } else {
      var n := |s| - 1;
      assert s == s[..n] + [s[n]];
      BucketsPermute(s[..n], b, r);
      BucketsSnoc(s[..n], s[n], b, r, r);
      assert multiset(s) == multiset(s[..n]) + multiset{s[n]};
    }
    assert |multiset(Buckets(s, b, r, r))| == |multiset(s)|;
  }

  // ---------------------------------------------------------------- where an element goes

  lemma {:induction false} BucketDigit(s: seq<nat>, b: nat, r: nat, d: nat, i: nat)
    requires 0 < b && 0 < r && i < |Bucket(s, b, r, d)|
    ensures Digit(Bucket(s, b, r, d)[i], b, r) == d && Bucket(s, b, r, d)[i] in s
  {
    if i < |Bucket(s[..|s| - 1], b, r, d)| {
      BucketDigit(s[..|s| - 1], b, r, d, i);
    }
  }

  /** The buckets of the first m digits come first. */
  lemma {:induction false} BucketsPrefix(s: seq<nat>, b: nat, r: nat, m: nat, n: nat)
    requires 0 < b && 0 < r && m <= n
    ensures Buckets(s, b, r, m) <= Buckets(s, b, r, n)
  {
    if m < n {
      BucketsPrefix(s, b, r, m, n - 1);
    }
  }

  /** A position lies in the bucket of its digit. */
  lemma {:induction false} BucketsDigit(s: seq<nat>, b: nat, r: nat, n: nat, p: nat)
    requires 0 < b && 0 < r && p < |Buckets(s, b, r, n)|
    ensures var d := Digit(Buckets(s, b, r, n)[p], b, r);
            d < n && |Buckets(s, b, r, d)| <= p < |Buckets(s, b, r, d + 1)| && Buckets(s, b, r, n)[p] in s
  {
    var front := |Buckets(s, b, r, n - 1)|;
    if p < front {
      BucketsDigit(s, b, r, n - 1, p);
    } else {
      BucketDigit(s, b, r, n - 1, p - front);
    }
  }

  /** What the bucket of a digit holds so far, and the element that comes next. */
  lemma {:induction false} BucketPrefix(s: seq<nat>, b: nat, r: nat, d: nat, k: nat)
    requires 0 < b && 0 < r && k <= |s|
    ensures Bucket(s[..k], b, r, d) <= Bucket(s, b, r, d)
    ensures k < |s| && Digit(s[k], b, r) == d ==>
      |Bucket(s[..k], b, r, d)| < |Bucket(s, b, r, d)| && Bucket(s, b, r, d)[|Bucket(s[..k], b, r, d)|] == s[k]
    decreases |s| - k
  {
    if k == |s| {
      assert s[..k] == s;
    } else {
      assert s[..k + 1][..k] == s[..k];
      BucketPrefix(s, b, r, d, k + 1);
    }
  }

  /** The place in the distributed sequence of the next element of a bucket. */
  lemma Place(s: seq<nat>, b: nat, r: nat, k: nat)
    requires 0 < b && 0 < r && k < |s|
    ensures var d := Digit(s[k], b, r);
            var q := |Buckets(s, b, r, d)| + |Bucket(s[..k], b, r, d)|;
            q < |s| == |Buckets(s, b, r, r)| && Buckets(s, b, r, r)[q] == s[k]
  {
    hide Digit;
    hide Bucket;
    hide Buckets;
    DigitBound(s[k], b, r);
    var d := Digit(s[k], b, r);
    BucketPrefix(s, b, r, d, k);
    BucketsPermute(s, b, r);
    BucketsPrefix(s, b, r, d + 1, r);
    BucketsNext(s, b, r, d);
    PrefixAt(Buckets(s, b, r, d), Bucket(s, b, r, d), Buckets(s, b, r, r), |Bucket(s[..k], b, r, d)|);
  }

  lemma BucketsNext(s: seq<nat>, b: nat, r: nat, d: nat)
    requires 0 < b && 0 < r
    ensures Buckets(s, b, r, d + 1) == Buckets(s, b, r, d) + Bucket(s, b, r, d)
  {
  }

  lemma PrefixAt(x: seq<nat>, y: seq<nat>, z: seq<nat>, i: nat)
    requires x + y <= z && i < |y|
    ensures |x| + i < |z| && z[|x| + i] == y[i]
  {
    assert (x + y)[|x| + i] == y[i];
  }

  lemma DigitBound(x: nat, b: nat, r: nat)
    requires 0 < b && 0 < r
    ensures Digit(x, b, r) < r
  {
  }

  // ---------------------------------------------------------------- ordered by the digits so far

  /** Ordered by the value of the digits below weight b. */
  ghost predicate SortedMod(s: seq<nat>, b: nat)
    requires 0 < b
  {
    forall i, j :: 0 <= i < j < |s| ==> LowLe(s[i], s[j], b)
  }

  predicate LowLe(x: nat, y: nat, b: nat)
    requires 0 < b
  {
    x % b <= y % b
  }

  /** x % (b * r) is the next digit followed by x % b. */
  lemma NextDigit(x: nat, b: nat, r: nat)
    requires 0 < b && 0 < r
    ensures 0 < b * r && x % (b * r) == Digit(x, b, r) * b + x % b
  {
    var q, d := x / b / r, Digit(x, b, r);
    Shuffle(q, d, b, r, x % b, x);
    Fits(d, b, r, x % b);
    ModIs(x, b * r, q, d * b + x % b);
  }

  lemma Shuffle(q: nat, d: nat, b: nat, r: nat, low: nat, x: nat)
    requires 0 < b && 0 < r && q == x / b / r && d == x / b % r && low == x % b
    ensures x == q * (b * r) + (d * b + low)
  {
    var y := x / b;
    assert y == q * r + d;
    assert x == y * b + low;
    assert (q * r + d) * b == q * (b * r) + d * b;
  }

  lemma Fits(d: nat, b: nat, r: nat, low: nat)
    requires d < r && low < b
    ensures d * b + low < b * r
  {
    assert (d + 1) * b <= r * b;
  }

  lemma ModIs(x: nat, m: nat, q: nat, rest: nat)
    requires x == q * m + rest && rest < m
    ensures x % m == rest
  {
    var k := x / m;
    assert x == k * m + x % m;
    Distribute(q, k, m);
    if q != k {
      Multiple(if q < k then k - q else q - k, m);
    }
  }

  lemma Distribute(q: int, k: int, m: int)
    ensures q * m - k * m == (q - k) * m && k * m - q * m == (k - q) * m
  {
  }

  lemma Multiple(a: int, m: int)
    requires 1 <= a && 0 <= m
    ensures m <= a * m
  {
  }

  /** The order by one more digit is the order by that digit, and then by the lower ones. */
  lemma LowLeNext(x: nat, y: nat, b: nat, r: nat)
    requires 0 < b && 0 < r
    requires Digit(x, b, r) < Digit(y, b, r) || (Digit(x, b, r) == Digit(y, b, r) && LowLe(x, y, b))
    ensures 0 < b * r && LowLe(x, y, b * r)
  {
    hide Digit;
    NextDigit(x, b, r);
    NextDigit(y, b, r);
    Lexicographic(Digit(x, b, r), Digit(y, b, r), b, x % b, y % b);
  }

  lemma Lexicographic(d: nat, e: nat, b: nat, low: nat, low': nat)
    requires low < b && (d < e || (d == e && low <= low'))
    ensures d * b + low <= e * b + low'
  {
    if d < e {
      assert (d + 1) * b <= e * b;
    }
  }

  lemma {:induction false} BucketSorted(s: seq<nat>, b: nat, r: nat, d: nat)
    requires 0 < b && 0 < r && SortedMod(s, b)
    ensures SortedMod(Bucket(s, b, r, d), b)
  {
    if s != [] {
      var n := |s| - 1;
      BucketSorted(s[..n], b, r, d);
      var t := Bucket(s[..n], b, r, d);
      forall i | 0 <= i < |t| ensures LowLe(t[i], s[n], b) {
        BucketDigit(s[..n], b, r, d, i);
      }
    }
  }

  /** A stable pass over the next digit of a sequence ordered by the lower digits. */
  lemma {:induction false} BucketsSorted(s: seq<nat>, b: nat, r: nat, n: nat)
    requires 0 < b && 0 < r && SortedMod(s, b)
    ensures 0 < b * r && SortedMod(Buckets(s, b, r, n), b * r)
  {
    hide Digit;
    hide Bucket;
    hide SortedMod;
    assert 0 < b * r;
    if n == 0 {
      NothingToSort(b * r);
    } else {
      BucketsSorted(s, b, r, n - 1);
      BucketSorted(s, b, r, n - 1);
      var front, back := Buckets(s, b, r, n - 1), Bucket(s, b, r, n - 1);
      forall i | 0 <= i < |back| ensures Digit(back[i], b, r) == n - 1 {
        BucketDigit(s, b, r, n - 1, i);
      }
      forall i | 0 <= i < |front| ensures Digit(front[i], b, r) < n - 1 {
        BucketsDigit(s, b, r, n - 1, i);
      }
      JoinSorted(front, back, b, r, n - 1, b * r);
    }
  }

  lemma NothingToSort(m: nat)
    requires 0 < m
    ensures SortedMod([], m)
  {
  }

  lemma JoinSorted(front: seq<nat>, back: seq<nat>, b: nat, r: nat, d: nat, m: nat)
    requires 0 < b && 0 < r && m == b * r && 0 < m && SortedMod(front, m) && SortedMod(back, b)
    requires forall i :: 0 <= i < |back| ==> Digit(back[i], b, r) == d
    requires forall i :: 0 <= i < |front| ==> Digit(front[i], b, r) < d
    ensures SortedMod(front + back, m)
  {
    hide Digit;
    hide LowLe;
    var t := front + back;
    forall i, j | 0 <= i < j < |t| ensures LowLe(t[i], t[j], m) {
      if |front| <= j {
        assert t[j] == back[j - |front|];
        if |front| <= i {
          assert t[i] == back[i - |front|];
        }
        LowLeNext(t[i], t[j], b, r);
      }
    }
  }
}

/**
  The probe sequence of BAN::HashSet: h -> h * 1103515245 + (orig | 1) on 32-bit hashes, masked
  to a power-of-two capacity. It visits every bucket exactly once per cycle (the theorem of
  Hull and Dobell, for a modulus that is a power of two).
 */
module HashProbe {
  import Pigeonhole
  import opened PowersOfTwo

  const MULTIPLIER := 1103515245
  const HASH_LIMIT := 0x1_0000_0000

  // ---------------------------------------------------------------- the source

  /** orig_hash | 1 */
  function Increment(h: nat): nat {
    if h % 2 == 0 then h + 1 else h
  }

  /** get_next_hash_in_chain, in 32-bit arithmetic. */
  function NextHash(prev: nat, orig: nat): nat {
    (prev * MULTIPLIER + Increment(orig)) % HASH_LIMIT
  }

  /** The hash after i steps of the probe. */
  function ChainHash(orig: nat, i: nat): nat {
    if i == 0 then orig else NextHash(ChainHash(orig, i - 1), orig)
  }

  /** The bucket looked at in step i: hash & (capacity - 1). */
  function Bucket(orig: nat, i: nat, capacity: nat): nat
    requires capacity > 0
  {
    ChainHash(orig, i) % capacity
  }

  lemma ChainStep(orig: nat, i: nat)
    ensures ChainHash(orig, 0) == orig
    ensures ChainHash(orig, i + 1) == NextHash(ChainHash(orig, i), orig)
  {
  }

  // ---------------------------------------------------------------- iterates of x -> a * x + c

  function Iterate(a: int, c: int, x: int, n: nat): int {
    if n == 0 then x else a * Iterate(a, c, x, n - 1) + c
  }

  /** 1 + a + ... + a^(n-1) */
  function Sum(a: int, n: nat): int {
    if n == 0 then 0 else a * Sum(a, n - 1) + 1
  }

  function Power(a: int, n: nat): int {
    if n == 0 then 1 else a * Power(a, n - 1)
  }

  lemma {:induction false} IterateIsSum(a: int, c: int, x: int, n: nat)
    ensures Iterate(a, c, x, n) - x == Sum(a, n) * ((a - 1) * x + c)
  {
    if n > 0 {
      IterateIsSum(a, c, x, n - 1);
      IterateAlgebra(a, c, x, Sum(a, n - 1), Iterate(a, c, x, n - 1));
    }
  }

  lemma IterateAlgebra(a: int, c: int, x: int, s: int, y: int)
    requires y - x == s * ((a - 1) * x + c)
    ensures a * y + c - x == (a * s + 1) * ((a - 1) * x + c)
  {
    var d := (a - 1) * x + c;
    assert (a * s + 1) * d == a * (s * d) + d by {
      Associate(a, s, d);
    }
    assert a * (s * d) == a * (y - x);
    assert a * (y - x) == a * y - a * x;
    assert (a - 1) * x == a * x - x;
  }

  lemma Associate(a: int, b: int, c: int)
    ensures (a * b) * c == a * (b * c)
  {
  }

  lemma {:induction false} SumSplits(a: int, m: nat, n: nat)
    ensures Sum(a, m + n) == Sum(a, m) * Power(a, n) + Sum(a, n)
  {
    if n > 0 {
      SumSplits(a, m, n - 1);
      assert m + n - 1 == m + (n - 1);
      SplitAlgebra(a, Sum(a, m), Power(a, n - 1), Sum(a, n - 1));
    }
  }

  lemma SplitAlgebra(a: int, s: int, p: int, t: int)
    ensures a * (s * p + t) + 1 == s * (a * p) + (a * t + 1)
  {
    Associate(a, s, p);
    Associate(s, a, p);
    assert a * s == s * a;
  }

  lemma {:induction false} PowerMod4(a: int, n: nat)
    requires a % 4 == 1
    ensures Power(a, n) % 4 == 1
  {
    if n > 0 {
      PowerMod4(a, n - 1);
      ProductMod4(a, Power(a, n - 1));
    }
  }

  lemma ProductMod4(a: int, b: int)
    requires a % 4 == 1 && b % 4 == 1
    ensures (a * b) % 4 == 1
  {
    var q := a / 4;
    assert a * b == (4 * q + 1) * b == 4 * (q * b) + b;
  }

  lemma {:induction false} SumParity(a: int, n: nat)
    requires a % 2 == 1
    ensures Sum(a, n) % 2 == n % 2
  {
    hide Sum;
    SumNext(a, n);
    if n > 0 {
      SumParity(a, n - 1);
      OddTimes(a, Sum(a, n - 1));
      NextParity(a * Sum(a, n - 1), Sum(a, n - 1), n - 1);
    }
  }

  lemma SumNext(a: int, n: nat)
    ensures Sum(a, n) == if n == 0 then 0 else a * Sum(a, n - 1) + 1
  {
  }

  lemma NextParity(x: int, y: int, n: nat)
    requires x % 2 == y % 2 == n % 2
    ensures (x + 1) % 2 == (n + 1) % 2
  {
  }

  lemma OddTimes(a: int, x: int)
    requires a % 2 == 1
    ensures (a * x) % 2 == x % 2
  {
    var q := a / 2;
    assert a * x == (2 * q + 1) * x == 2 * (q * x) + x;
  }

  // ---------------------------------------------------------------- divisibility by powers of two

  /** 2^k divides x. */
  predicate Divides(k: nat, x: int) {
    k == 0 || (x % 2 == 0 && Divides(k - 1, x / 2))
  }

  lemma {:induction false} OddCancels(k: nat, u: int, odd: int)
    requires odd % 2 == 1 && Divides(k, u * odd)
    ensures Divides(k, u)
  {
    if k > 0 {
      OddTimes(odd, u);
      assert u * odd == odd * u;
      HalfProduct(u, odd);
      OddCancels(k - 1, u / 2, odd);
    }
  }

  lemma HalfProduct(u: int, v: int)
    requires u % 2 == 0
    ensures (u * v) / 2 == (u / 2) * v
  {
    assert u * v == (2 * (u / 2)) * v == 2 * ((u / 2) * v);
  }

  /** The sum has no more factors of two than its length. */
  lemma {:induction false} SumDivides(a: int, k: nat, n: nat)
    requires a % 4 == 1 && Divides(k, Sum(a, n))
    ensures Divides(k, n)
  {
    if k > 0 {
      SumParity(a, n);
      var m := n / 2;
      SumDoubles(a, m);
      var odd := (Power(a, m) + 1) / 2;
      OddCancels(k - 1, Sum(a, m), odd);
      SumDivides(a, k - 1, m);
    }
  }

  lemma SumDoubles(a: int, m: nat)
    requires a % 4 == 1
    ensures (Power(a, m) + 1) / 2 % 2 == 1
    ensures Sum(a, 2 * m) / 2 == Sum(a, m) * ((Power(a, m) + 1) / 2)
  {
    hide Sum;
    hide Power;
    SumSplits(a, m, m);
    PowerMod4(a, m);
    assert 2 * m == m + m;
    DoubleAlgebra(Sum(a, m), Power(a, m), (Power(a, m) + 1) / 2, Sum(a, m + m));
  }

  lemma DoubleAlgebra(s: int, p: int, odd: int, t: int)
    requires p == 2 * odd - 1 && t == s * p + s
    ensures t / 2 == s * odd
  {
    assert s * (2 * odd - 1) == 2 * (s * odd) - s;
  }

  /** n steps lead back to the start modulo 2^k only if 2^k divides n. */
  lemma FullPeriod(a: int, c: int, x: int, k: nat, n: nat)
    requires a % 4 == 1 && c % 2 == 1
    requires Divides(k, Iterate(a, c, x, n) - x)
    ensures Divides(k, n)
  {
    IterateIsSum(a, c, x, n);
    OddFactor(a, c, x);
    OddCancels(k, Sum(a, n), (a - 1) * x + c);
    SumDivides(a, k, n);
  }

  lemma OddFactor(a: int, c: int, x: int)
    requires a % 4 == 1 && c % 2 == 1
    ensures ((a - 1) * x + c) % 2 == 1
  {
    var q := a / 4;
    assert (a - 1) * x == (4 * q) * x == 4 * (q * x);
  }

  lemma {:induction false} DividesBound(k: nat, n: nat)
    requires Divides(k, n) && n > 0
    ensures n >= Pow2(k)
  {
    if k > 0 {
      DividesBound(k - 1, n / 2);
    }
  }

  // ---------------------------------------------------------------- from 32-bit hashes to buckets

  /** Equal remainders modulo 2^k differ by a multiple of 2^k. */
  lemma {:induction false} SameRemainder(k: nat, x: int, y: int)
    requires x % Pow2(k) == y % Pow2(k)
    ensures Divides(k, x - y)
  {
    if k > 0 {
      DoubleModulus(x, Pow2(k - 1));
      DoubleModulus(y, Pow2(k - 1));
      SameRemainder(k - 1, x / 2, y / 2);
      assert (x - y) / 2 == x / 2 - y / 2;
    }
  }

  lemma DoubleModulus(x: int, p: int)
    requires p > 0
    ensures x % (2 * p) == 2 * (x / 2 % p) + x % 2
  {
    var h := x / 2;
    var q, r := h / p, h % p;
    assert h == p * q + r;
    assert x == (2 * p) * q + (2 * r + x % 2) by {
      Associate(2, p, q);
    }
    RemainderUnique(x, 2 * p, q, 2 * r + x % 2);
  }

  lemma RemainderUnique(x: int, m: int, q: int, r: int)
    requires m > 0 && 0 <= r < m && x == m * q + r
    ensures x % m == r
  {
    var q', r' := x / m, x % m;
    assert x == m * q' + r';
    assert m * (q - q') == r' - r by {
      assert m * (q - q') == m * q - m * q';
    }
    if q - q' >= 1 {
      MulAtLeast(m, q - q');
    } else if q' - q >= 1 {
      assert m * (q' - q) == -(m * (q - q'));
      MulAtLeast(m, q' - q);
    }
  }

  lemma MulAtLeast(m: int, n: int)
    requires m > 0 && n >= 1
    ensures m * n >= m
  {
  }

  lemma {:induction false} DividesSum(k: nat, x: int, y: int)
    requires Divides(k, x) && Divides(k, y)
    ensures Divides(k, x + y)
  {
    if k > 0 {
      DividesSum(k - 1, x / 2, y / 2);
      assert (x + y) / 2 == x / 2 + y / 2;
    }
  }

  lemma {:induction false} DividesProduct(k: nat, a: int, x: int)
    requires Divides(k, x)
    ensures Divides(k, x * a)
  {
    if k > 0 {
      HalfProduct(x, a);
      assert (x * a) % 2 == 0 by {
        assert x * a == (2 * (x / 2)) * a == 2 * ((x / 2) * a);
      }
      DividesProduct(k - 1, a, x / 2);
    }
  }

  lemma {:induction false} DividesFewer(k: nat, k': nat, x: int)
    requires Divides(k, x) && k' <= k
    ensures Divides(k', x)
    decreases k
  {
    if k' > 0 {
      DividesFewer(k - 1, k' - 1, x / 2);
    }
  }

  /** Truncation to k bits changes a number by a multiple of 2^k. */
  lemma Truncation(k: nat, x: int)
    ensures Divides(k, x % Pow2(k) - x)
  {
    var p := Pow2(k);
    RemainderUnique(x % p, p, 0, x % p);
    SameRemainder(k, x % p, x);
  }

  lemma Pow2Of32()
    ensures Pow2(32) == HASH_LIMIT
  {
    assert Pow2(8) == 256;
    assert Pow2(16) == 65536;
    assert Pow2(24) == 16777216;
  }

  /** The 32-bit hash chain follows the unbounded iteration modulo 2^32. */
  lemma {:induction false} ChainIsIterate(orig: nat, i: nat)
    ensures Divides(32, ChainHash(orig, i) - Iterate(MULTIPLIER, Increment(orig), orig, i))
  {
    Pow2Of32();
    if i > 0 {
      ChainIsIterate(orig, i - 1);
      var prev, it := ChainHash(orig, i - 1), Iterate(MULTIPLIER, Increment(orig), orig, i - 1);
      Truncation(32, prev * MULTIPLIER + Increment(orig));
      DividesProduct(32, MULTIPLIER, prev - it);
      DividesSum(32, NextHash(prev, orig) - (prev * MULTIPLIER + Increment(orig)), (prev - it) * MULTIPLIER);
    } else {
      ZeroDivides(32);
    }
  }

  lemma {:induction false} ZeroDivides(k: nat)
    ensures Divides(k, 0)
  {
    if k > 0 {
      ZeroDivides(k - 1);
    }
  }

  lemma {:induction false} IterateAdds(a: int, c: int, x: int, i: nat, n: nat)
    ensures Iterate(a, c, x, i + n) == Iterate(a, c, Iterate(a, c, x, i), n)
  {
    if n > 0 {
      IterateAdds(a, c, x, i, n - 1);
      assert i + n - 1 == i + (n - 1);
    }
  }

  /** Within one cycle of 2^k steps no bucket is visited twice. */
  lemma ProbeInjective(orig: nat, k: nat, i: nat, j: nat)
    requires k <= 32 && i < j < i + Pow2(k)
    ensures Bucket(orig, i, Pow2(k)) != Bucket(orig, j, Pow2(k))
  {
    hide Divides;
    hide Iterate;
    hide ChainHash;
    hide Pow2;
    if Bucket(orig, i, Pow2(k)) == Bucket(orig, j, Pow2(k)) {
      var a, c := MULTIPLIER, Increment(orig);
      var x, y := Iterate(a, c, orig, i), Iterate(a, c, orig, j);
      var hi, hj := ChainHash(orig, i), ChainHash(orig, j);
      SameRemainder(k, hj, hi);
      ChainIsIterate(orig, i);
      ChainIsIterate(orig, j);
      DividesFewer(32, k, hi - x);
      DividesFewer(32, k, hj - y);
      Difference(k, hi, hj, x, y);
      IterateAdds(a, c, orig, i, j - i);
      FullPeriod(a, c, x, k, j - i);
      DividesBound(k, j - i);
    }
  }

  lemma Difference(k: nat, hi: int, hj: int, x: int, y: int)
    requires Divides(k, hj - hi) && Divides(k, hi - x) && Divides(k, hj - y)
    ensures Divides(k, y - x)
  {
    DividesNegated(k, hj - y);
    DividesSum(k, hj - hi, hi - x);
    DividesSum(k, hj - x, -(hj - y));
    assert (hj - hi) + (hi - x) == hj - x && (hj - x) + -(hj - y) == y - x;
  }

  lemma {:induction false} DividesNegated(k: nat, x: int)
    requires Divides(k, x)
    ensures Divides(k, -x)
  {
    if k > 0 {
      DividesNegated(k - 1, x / 2);
      assert (-x) / 2 == -(x / 2);
    }
  }

  /** Every bucket is visited in the first 2^k steps. */
  lemma ProbeCovers(orig: nat, k: nat, b: nat) returns (i: nat)
    requires k <= 32 && b < Pow2(k)
    ensures i < Pow2(k) && Bucket(orig, i, Pow2(k)) == b
  {
    var n := Pow2(k);
    var l := seq(n, (i: nat) => Bucket(orig, i, n));
    forall i, j | 0 <= i < j < |l| ensures l[i] != l[j] {
      ProbeInjective(orig, k, i, j);
    }
    Pigeonhole.DistinctCovers(l, n, b);
    i :| 0 <= i < |l| && l[i] == b;
  }

  ghost predicate Visits(orig: nat, capacity: nat, b: int)
    requires capacity > 0
  {
    exists i: nat :: Bucket(orig, i, capacity) == b
  }

  /** The probe reaches every bucket exactly when the capacity fits the 32-bit hash. */
  lemma ProbeReachesAllIff(orig: nat, k: nat)
    requires orig < HASH_LIMIT
    ensures k <= 32 <==> forall b :: 0 <= b < Pow2(k) ==> Visits(orig, Pow2(k), b)
  {
    if k <= 32 {
      forall b | 0 <= b < Pow2(k) ensures Visits(orig, Pow2(k), b) {
        var i := ProbeCovers(orig, k, b);
      }
    } else {
      Pow2Of32();
      Pow2Monotone(32, k - 1);
      assert HASH_LIMIT < Pow2(k) == 2 * Pow2(k - 1);
      assert !Visits(orig, Pow2(k), HASH_LIMIT) by {
        forall i: nat ensures Bucket(orig, i, Pow2(k)) != HASH_LIMIT {
          ChainBound(orig, i);
          RemainderUnique(ChainHash(orig, i), Pow2(k), 0, ChainHash(orig, i));
        }
      }
    }
  }

  lemma ChainBound(orig: nat, i: nat)
    requires orig < HASH_LIMIT
    ensures ChainHash(orig, i) < HASH_LIMIT
  {
  }
}

/**
  BAN::HashSet (BAN/include/BAN/HashSet.h): open addressing with tombstones. An element is a key
  with a payload; hashing and comparison look at the key, as they do when HashMap stores its
  entries in a HashSet, and a plain set has an empty payload.
 */
module HashSet {
  import opened HashTable
  import opened Options
  import opened PowersOfTwo
  import opened WordBits
  import opened WordPowers
  import opened Words
  import HashProbe

  /** The smallest power of two that is at least n. */
  predicate Rounded(n: nat, k: nat) {
    Pow2(k) >= n && (k == 0 || Pow2(k - 1) < n)
  }

  /** round_up_to_power_of_two, as the exponent of the result. */
  function RoundUp(n: nat, from: nat := 0): (k: nat)
    requires from == 0 || Pow2(from - 1) < n
    ensures Rounded(n, k)
    decreases n - Pow2(from)
  {
    if Pow2(from) >= n then from else RoundUp(n, from + 1)
  }

  function Max(a: nat, b: nat): nat {
    if a > b then a else b
  }

  // ---------------------------------------------------------------- 64-bit sizes

  /** The largest power of two among words; rounding up anything above it gives 0. */
  const TOP_POWER := 0x8000_0000_0000_0000

  function RoundedWord(n: Word): nat {
    if n <= TOP_POWER then Pow2(RoundUp(n)) else 0
  }

  /** The bit trick computes it. */
  lemma RoundedWordInBits(x: bv64)
    requires x != 0
    ensures Value(x) < WORD && Value(RoundUpToPowerOfTwo(x)) == RoundedWord(Value(x))
  {
    hide Value;
    hide RoundUpToPowerOfTwo;
    ValueFits(x);
    NoBits();
    if HasPowerAbove(x) {
      var k := RoundedValue(x);
      RoundsTo(Value(x), k);
    } else {
      Positive(x);
      RoundUpIsLeast(x, 1);
    }
  }

  lemma RoundsTo(n: nat, k: nat)
    requires Rounded(n, k)
    ensures RoundUp(n) == k
  {
    var j := RoundUp(n);
    if j < k {
      Pow2Monotone(j, k - 1);
    } else if k < j {
      Pow2Monotone(k, j - 1);
    }
  }

  /** The capacity that rehash computes. */
  function NewCapacity(requested: Word, size: nat): nat
    requires size < HashProbe.HASH_LIMIT
  {
    RoundedWord(Max(16, Max(requested, size + 1)))
  }

  /** How many elements the assertion of insert_impl admits. */
  function Room(capacity: nat): nat {
    if capacity < 16 then 0 else capacity / 4 * 3
  }

  /** AssertionFails is the one of insert_impl; BlockTooSmall is an allocation whose size in bytes wrapped around. */
  datatype Outcome = Done | OutOfMemory | BlockTooSmall | AssertionFails

  /** The bytes that a table of that capacity takes, with its end marker. */
  function Bytes(capacity: nat, bucketSize: nat): nat {
    (capacity + 1) * bucketSize
  }

  /** The block is asked for in full, and the heap can provide it. */
  predicate Granted(capacity: nat, bucketSize: nat, heapBytes: nat) {
    Bytes(capacity, bucketSize) < WORD && Bytes(capacity, bucketSize) <= heapBytes
  }

  /** What becomes of a rehash to that capacity, when the heap can provide so many bytes. */
  function RehashOutcome(capacity: nat, size: nat, bucketSize: nat, heapBytes: nat): Outcome {
    if Wrap(Bytes(capacity, bucketSize)) > heapBytes then OutOfMemory
    else if Bytes(capacity, bucketSize) >= WORD then BlockTooSmall
    else if size > Room(capacity) then AssertionFails
    else Done
  }

  lemma NewCapacityFits(requested: Word, size: nat)
    requires size < HashProbe.HASH_LIMIT
    ensures var n := NewCapacity(requested, size);
            if requested > TOP_POWER then n == 0
            else
              && n >= 16 && n >= requested && n > size && n % 4 == 0 && Room(n) == n / 4 * 3
              && (n == 16 || n / 2 < requested || n / 2 < size + 1)
              && (n <= HashProbe.HASH_LIMIT ==> Capacity(n))
  {
    if requested <= TOP_POWER {
      var k := RoundUp(Max(16, Max(requested, size + 1)));
      assert Pow2(3) == 8;
      if k <= 3 {
        Pow2Monotone(k, 3);
      }
      assert Pow2(k) == 2 * Pow2(k - 1) == 4 * Pow2(k - 2);
      if k == 4 {
        assert Pow2(k) == 16;
      } else {
        Pow2Monotone(4, k - 1);
      }
      if Pow2(k) <= HashProbe.HASH_LIMIT && k > 32 {
        HashProbe.Pow2Of32();
        Pow2Monotone(32, k - 1);
      }
    }
  }

  /** A block that the heap can provide holds no more buckets than hashes can tell apart. */
  lemma FittingCapacity(capacity: nat, bucketSize: nat, heapBytes: nat)
    requires 0 < bucketSize && heapBytes <= (HashProbe.HASH_LIMIT + 1) * bucketSize && Bytes(capacity, bucketSize) <= heapBytes
    ensures capacity <= HashProbe.HASH_LIMIT
  {
    if capacity > HashProbe.HASH_LIMIT {
      Scaled(HashProbe.HASH_LIMIT + 2, capacity + 1, bucketSize);
    }
  }

  lemma Scaled(a: nat, b: nat, c: nat)
    requires a <= b
    ensures a * c <= b * c
  {
  }

  /** insert asks for enough: the elements and one more fit, and the block does not wrap. */
  lemma DoublingLeavesRoom(size: nat, bucketSize: nat)
    requires size < HashProbe.HASH_LIMIT && bucketSize <= 0x4000_0000
    ensures var capacity := NewCapacity(size * 2, size);
            size + 1 <= Room(capacity) && Bytes(capacity, bucketSize) < WORD
  {
    hide NewCapacity;
    NewCapacityFits(size * 2, size);
    var capacity := NewCapacity(size * 2, size);
    Scaled(capacity + 1, 4 * HashProbe.HASH_LIMIT + 1, bucketSize);
    Scaled(bucketSize, 0x4000_0000, 4 * HashProbe.HASH_LIMIT + 1);
  }

  /** The power of two that just holds the elements, and the request that reserve makes. */
  function Tight(size: nat): nat
    requires size < HashProbe.HASH_LIMIT
  {
    NewCapacity(0, size)
  }

  function Doubled(n: Word): Word {
    Wrap(n * 2)
  }

  /**
    When the capacity that reserve asks for does not hold the elements.  The doubled request has to wrap or to be
    beyond the largest power of two; below 2^62 it does neither.
   */
  lemma ReserveTripsIff(n: Word, size: nat)
    requires size < n && size < HashProbe.HASH_LIMIT
    ensures Room(NewCapacity(Doubled(n), size)) < size
       <==> AsksTooLittle(n, size)
    ensures n <= TOP_POWER / 2 ==> size <= Room(NewCapacity(Doubled(n), size))
  {
    var q := Doubled(n);
    NewCapacityFits(q, size);
    NewCapacityFits(0, size);
    if q <= TOP_POWER {
      if q <= Tight(size) {
        SameRounding(q, size);
      } else {
        LargerRounding(q, size);
      }
    }
  }

  /** The request of reserve is too small for the elements: it wrapped, or it was beyond the largest power of two. */
  predicate AsksTooLittle(n: Word, size: nat)
    requires size < HashProbe.HASH_LIMIT
  {
    0 < size && (TOP_POWER < Doubled(n) || (Doubled(n) <= Tight(size) && Room(Tight(size)) < size))
  }

  /** A request up to the tight capacity changes nothing. */
  lemma SameRounding(q: Word, size: nat)
    requires size < HashProbe.HASH_LIMIT && q <= TOP_POWER && q <= Tight(size)
    ensures NewCapacity(q, size) == Tight(size)
  {
    var x, y := Max(16, Max(0, size + 1)), Max(16, Max(q, size + 1));
    var j, k := RoundUp(x), RoundUp(y);
    if j < k {
      Pow2Monotone(j, k - 1);
    } else if k < j {
      Pow2Monotone(k, j - 1);
    }
  }

  lemma LargerRounding(q: Word, size: nat)
    requires size < HashProbe.HASH_LIMIT && Tight(size) < q <= TOP_POWER
    ensures NewCapacity(q, size) >= 2 * Tight(size)
  {
    var j, k := RoundUp(Max(16, Max(0, size + 1))), RoundUp(Max(16, Max(q, size + 1)));
    if k <= j {
      Pow2Monotone(k, j);
    } else {
      Pow2Monotone(j, k - 1);
    }
  }

  /** The entries of the first i old buckets have been inserted into c. */
  ghost predicate Copied<K(!new), V>(bs: seq<Bucket<K, V>>, hash: K -> nat, m: map<K, V>, d: map<K, nat>, c: map<K, V>, i: int) {
    && (if bs == [] then m == map[] else Represents(bs, hash, m, d))
    && (forall k :: k in c ==> k in m && c[k] == m[k] && bs != [] && k in d && HashProbe.Bucket(hash(k), d[k], |bs|) < i)
    && (forall b :: 0 <= b < i && b < |bs| && bs[b].slot.Used? ==> bs[b].slot.key in c)
  }

  lemma CopyOne<K(!new), V>(bs: seq<Bucket<K, V>>, hash: K -> nat, m: map<K, V>, d: map<K, nat>, c: map<K, V>, i: nat)
    requires Copied(bs, hash, m, d, c, i) && i < |bs| && bs[i].slot.Used?
    ensures var x := bs[i].slot;
            && x.hash == hash(x.key) && x.key !in c && |c| < |m|
            && Copied(bs, hash, m, d, c[x.key := x.value], i + 1)
  {
    var x := bs[i].slot;
    FoundKey(bs, hash, m, d, i);
    assert Placed(x.key, i, |bs|, hash, d);
    KeysAndMore(c, m, x.key);
  }

  lemma KeysAndMore<K, V>(c: map<K, V>, m: map<K, V>, x: K)
    requires x in m && x !in c && forall k :: k in c ==> k in m
    ensures |c| < |m|
  {
    SubsetSize(c.Keys, m.Keys - {x});
    assert |m.Keys - {x}| == |m.Keys| - 1;
  }

  lemma SubsetSize<T>(a: set<T>, b: set<T>)
    requires a <= b
    ensures |a| <= |b|
  {
    if x :| x in a {
      SubsetSize(a - {x}, b - {x});
    }
  }

  lemma CopiedNone<K(!new), V>(bs: seq<Bucket<K, V>>, hash: K -> nat, m: map<K, V>, d: map<K, nat>)
    requires if bs == [] then m == map[] else Represents(bs, hash, m, d)
    ensures Copied(bs, hash, m, d, map[], 0)
  {
  }

  lemma CopyNone<K(!new), V>(bs: seq<Bucket<K, V>>, hash: K -> nat, m: map<K, V>, d: map<K, nat>, c: map<K, V>, i: nat)
    requires Copied(bs, hash, m, d, c, i) && i < |bs| && !bs[i].slot.Used?
    ensures Copied(bs, hash, m, d, c, i + 1)
  {
  }

  lemma CopiedAll<K(!new), V>(bs: seq<Bucket<K, V>>, hash: K -> nat, m: map<K, V>, d: map<K, nat>, c: map<K, V>)
    requires Copied(bs, hash, m, d, c, |bs|)
    ensures c == m
  {
    forall k | k in m ensures k in c {
      KeyStored(bs, hash, m, d, k);
      assert Probed(bs, hash(k), d[k]) == bs[HashProbe.Bucket(hash(k), d[k], |bs|)];
    }
  }

  lemma EmptyTable<K(!new), V>(bs: seq<Bucket<K, V>>, hash: K -> nat)
    requires |bs| > 0 && forall b :: 0 <= b < |bs| ==> bs[b].slot.Unused?
    ensures Represents(bs, hash, map[], map[])
    ensures Count(bs, IsUsed) == 0 && Count(bs, IsRemoved) == 0
  {
    EmptyRepresents(bs, hash);
    CountEmpty(bs, IsUsed);
    CountEmpty(bs, IsRemoved);
  }

  lemma RemovedSize<K, V>(m: map<K, V>, k: K)
    requires k in m
    ensures |m - {k}| == |m| - 1
  {
    assert (m - {k}).Keys == m.Keys - {k};
  }

  class HashSet<K(==, !new), V> {
    const hash: K -> nat
    const bucketSize: nat           // in bytes
    const heapBytes: nat            // the largest block the allocator can provide

    var buckets: array<Bucket<K, V>>
    var size: nat
    var removed: nat

    ghost var contents: map<K, V>
    ghost var depth: map<K, nat>    // probe depth of every key

    constructor (hash: K -> nat, bucketSize: nat, heapBytes: nat)
      requires 1 <= bucketSize <= 0x4000_0000 && heapBytes <= (HashProbe.HASH_LIMIT + 1) * bucketSize
      ensures Valid() && contents == map[] && buckets.Length == 0 && size == 0 && removed == 0 && fresh(buckets)
      ensures this.hash == hash && this.bucketSize == bucketSize && this.heapBytes == heapBytes
    {
      this.hash, this.bucketSize, this.heapBytes := hash, bucketSize, heapBytes;
      buckets := new Bucket<K, V>[0];
      size, removed, contents, depth := 0, 0, map[], map[];
    }

    /** Whether so many elements are too many, tombstones included; the sum is a 64-bit one. */
    predicate ShouldRehashWithSize(n: Word)
      reads this
    {
      buckets.Length < 16 || Wrap(n + removed) > buckets.Length / 4 * 3
    }

    ghost predicate Counted()
      reads this, buckets
    {
      && size == Count(buckets[..], IsUsed) && removed == Count(buckets[..], IsRemoved)
      && |contents| == size
    }

    ghost predicate Sized()
      reads this
    {
      && 16 <= buckets.Length <= HashProbe.HASH_LIMIT && Capacity(buckets.Length)
      && size + removed <= buckets.Length / 4 * 3
    }

    ghost predicate Heap() {
      1 <= bucketSize <= 0x4000_0000 && heapBytes <= (HashProbe.HASH_LIMIT + 1) * bucketSize
    }

    /** The table is a map: m_size and m_removed are the exact bucket counts. */
    ghost predicate Valid()
      reads this, buckets
    {
      && Heap()
      && if buckets.Length == 0 then size == removed == 0 && contents == map[]
         else Sized() && Counted() && Represents(buckets[..], hash, contents, depth)
    }

    /** The load rule leaves an unused bucket ahead of every probe. */
    lemma UnusedAhead(h: nat) returns (stop: nat)
      requires Sized() && Counted()
      ensures stop < buckets.Length && Probed(buckets[..], h, stop).slot.Unused?
    {
      ProbeMeetsUnused(buckets[..], h);
      stop :| stop < |buckets[..]| && Probed(buckets[..], h, stop).slot.Unused?;
    }

    /** The bucket of the key, if it is stored. */
    method FindImpl(key: K) returns (found: Option<nat>)
      requires Valid()
      ensures found.Some? <==> key in contents
      ensures found.Some? ==> found.value < buckets.Length && buckets[found.value].slot == Used(hash(key), key, contents[key])
    {
      hide Represents;
      hide Counted;
      hide Sized;
      hide HashProbe.ChainHash;
      hide HashProbe.NextHash;
      if buckets.Length == 0 {
        return None;
      }
      ghost var bs := buckets[..];
      ghost var stop := UnusedAhead(hash(key));
      var first, orig := true, hash(key);
      var h := orig;
      ghost var i: nat := 0;
      HashProbe.ChainStep(orig, 0);
      while true
        invariant i <= stop && h == HashProbe.ChainHash(orig, i) && first == (i == 0)
        invariant forall e :: 0 <= e < i ==> Misses(bs, orig, key, e)
        decreases stop - i
      {
        var b := h % buckets.Length;
        var bucket := buckets[b];
        assert bucket == Probed(bs, orig, i);
        if bucket.slot.Used? {
          FoundKey(bs, hash, contents, depth, b);
        }
        if bucket.slot.Used? && bucket.slot.hash == orig && bucket.slot.key == key {
          return Some(b);
        }
        assert Misses(bs, orig, key, i);
        if bucket.slot.Unused? || (!first && bucket.chainStart) {
          StoppedProbe(bs, hash, contents, depth, key, i);
          return None;
        }
        HashProbe.ChainStep(orig, i);
        h := HashProbe.NextHash(h, orig);
        first := false;
        i := i + 1;
      }
    }

    /** A probe that passes through a bucket ends the chain that starts there. */
    method EndChainAt(b: nat, first: bool, ghost orig: nat, ghost i: nat)
      requires buckets.Length > 0 && b == HashProbe.Bucket(orig, i, buckets.Length) && first == (i == 0)
      modifies buckets
      ensures Cleared(old(buckets[..]), buckets[..])
      ensures i > 0 ==> !Probed(buckets[..], orig, i).chainStart
    {
      if !first {
        buckets[b] := buckets[b].(chainStart := false);
      }
    }

    /** Finds where the element goes, ending the chains the probe passes through. */
    method ProbeForInsert(key: K, orig: nat) returns (target: nat, first: bool, ghost j: nat)
      requires Valid() && buckets.Length > 0 && orig == hash(key)
      modifies buckets
      ensures Cleared(old(buckets[..]), buckets[..])
      ensures target == HashProbe.Bucket(orig, j, buckets.Length) < buckets.Length && Path(buckets[..], orig, j)
      ensures buckets[target].slot.Used? ==> buckets[target].slot.key == key
      ensures !buckets[target].slot.Used? ==> key !in contents
      ensures first ==> j == 0
    {
      hide Represents;
      hide Counted;
      hide Sized;
      hide Cleared;
      hide Path;
      hide HashProbe.ChainHash;
      hide HashProbe.NextHash;
      ghost var bs := buckets[..];
      ghost var stop := UnusedAhead(orig);
      ghost var i: nat := 0;
      var unused: Option<nat> := None;
      var h := orig;
      first := true;
      target, j := 0, 0;
      ClearedReflexive(bs);
      HashProbe.ChainStep(orig, 0);
      while true
        invariant i <= stop && h == HashProbe.ChainHash(orig, i) && first == (i == 0)
        invariant Cleared(bs, buckets[..]) && Passed(bs, buckets[..], orig, key, i)
        invariant unused.Some? ==> j < i && unused.value == HashProbe.Bucket(orig, j, |bs|) && !bs[unused.value].slot.Used?
        decreases stop - i
      {
        var b := h % buckets.Length;
        ghost var before := buckets[..];
        EndChainAt(b, first, orig, i);
        ghost var cur := buckets[..];
        ClearedTransitive(bs, before, cur);
        PassedCleared(bs, before, cur, orig, key, i);
        var bucket := buckets[b];
        assert bucket.slot == bs[b].slot == Probed(bs, orig, i).slot;
        if bucket.slot.Used? {
          FoundKey(bs, hash, contents, depth, b);
          if bucket.slot.hash == orig && bucket.slot.key == key {
            target, j := b, i;
            PassedPath(bs, cur, orig, key, i, i);
            break;
          }
        } else {
          if unused.None? {
            unused := Some(b);
            j := i;
          }
          if bucket.slot.Unused? {
            target := unused.value;
            StoppedProbe(bs, hash, contents, depth, key, i);
            PassedPath(bs, cur, orig, key, i, j);
            break;
          }
        }
        PassedOne(bs, cur, orig, key, i);
        HashProbe.ChainStep(orig, i);
        h := HashProbe.NextHash(h, orig);
        first := false;
        i := i + 1;
      }
    }

    /** Stores the element, in place of one with the same key; the precondition is the assertion at its head. */
    method InsertImpl(key: K, value: V, orig: nat)
      requires Valid() && !ShouldRehashWithSize(size + 1) && orig == hash(key)
      modifies this`size, this`removed, this`contents, this`depth, buckets
      ensures Valid() && contents == old(contents)[key := value]
      ensures size == old(size) + (if key in old(contents) then 0 else 1)
      ensures removed <= old(removed)
    {
      hide Represents;
      hide Cleared;
      hide Path;
      hide Count;
      ghost var bs := buckets[..];
      var target, first;
      ghost var j;
      target, first, j := ProbeForInsert(key, orig);
      ghost var cur := buckets[..];
      ClearedFacts(bs, cur, hash, contents, depth);
      var slot := buckets[target].slot;
      ghost var x := Bucket(Used(orig, key, value), first && slot.Unused?);
      CountWritten(cur, IsUsed, target, x);
      CountWritten(cur, IsRemoved, target, x);
      if slot.Used? {
        FoundKey(cur, hash, contents, depth, target);
        ReplacedRepresents(cur, hash, contents, depth, value, target);
      } else {
        InsertedRepresents(cur, hash, contents, depth, key, value, j, first && slot.Unused?);
        depth := depth[key := j];
        if slot.Removed? {
          removed := removed - 1;
        }
        size := size + 1;
      }
      contents := contents[key := value];
      Store(target, Bucket(Used(orig, key, value), first && slot.Unused?));
    }

    method Store(b: nat, x: Bucket<K, V>)
      requires b < buckets.Length
      modifies buckets
      ensures buckets[..] == old(buckets[..])[b := x]
    {
      buckets[b] := x;
    }

    /** Forgets the key, leaving a tombstone behind. */
    method Remove(key: K)
      requires Valid()
      modifies this`size, this`removed, this`contents, this`depth, buckets
      ensures Valid() && contents == old(contents) - {key}
    {
      hide Represents;
      hide Count;
      var found := FindImpl(key);
      if found.Some? {
        var t := found.value;
        ghost var bs, x := buckets[..], buckets[t].(slot := Removed);
        RemovedRepresents(bs, hash, contents, depth, t);
        CountWritten(bs, IsUsed, t, x);
        CountWritten(bs, IsRemoved, t, x);
        RemovedSize(contents, key);
        Store(t, buckets[t].(slot := Removed));
        size := size - 1;
        removed := removed + 1;
        contents, depth := contents - {key}, depth - {key};
      }
    }

    lemma InHeap(capacity: nat)
      requires Heap() && Bytes(capacity, bucketSize) < WORD && Wrap(Bytes(capacity, bucketSize)) <= heapBytes
      ensures capacity <= HashProbe.HASH_LIMIT
    {
      FittingCapacity(capacity, bucketSize, heapBytes);
    }

    /** Moves everything into a new table, with the outcome that the sizes decide. */
    method Rehash(requested: Word) returns (outcome: Outcome)
      requires Valid() && size < HashProbe.HASH_LIMIT
      modifies this
      ensures outcome == RehashOutcome(NewCapacity(requested, old(size)), old(size), bucketSize, heapBytes)
      ensures outcome == Done || outcome == OutOfMemory ==> Valid() && contents == old(contents) && size == old(size)
      ensures outcome == Done ==> fresh(buckets) && removed == 0 && buckets.Length == NewCapacity(requested, size)
      ensures outcome == OutOfMemory ==> buckets == old(buckets) && removed == old(removed)
    {
      hide Represents;
      hide Copied;
      hide Count;
      hide NewCapacity;
      hide Bytes;
      hide Heap;
      var capacity := NewCapacity(requested, size);
      NewCapacityFits(requested, size);
      if Wrap(Bytes(capacity, bucketSize)) > heapBytes {
        return OutOfMemory;
      }
      if Bytes(capacity, bucketSize) >= WORD {
        return BlockTooSmall;
      }
      InHeap(capacity);
      var oldBuckets := buckets;
      ghost var bs, m, d := buckets[..], contents, depth;
      CopiedNone(bs, hash, m, d);
      buckets := new Bucket<K, V>[capacity](_ => Bucket(Unused, false));
      size, removed, contents, depth := 0, 0, map[], map[];
      if capacity > 0 {
        EmptyTable(buckets[..], hash);
      }
      var ok := CopyFrom(oldBuckets, bs, m, d);
      outcome := if ok then Done else AssertionFails;
    }

    /** Inserts the elements of another table, unless they are too many. */
    method CopyFrom(oldBuckets: array<Bucket<K, V>>, ghost bs: seq<Bucket<K, V>>, ghost m: map<K, V>, ghost d: map<K, nat>)
      returns (ok: bool)
      requires Valid() && contents == map[] && removed == 0 && oldBuckets != buckets && oldBuckets[..] == bs
      requires Copied(bs, hash, m, d, map[], 0)
      modifies this`size, this`removed, this`contents, this`depth, buckets
      ensures ok <==> |m| <= Room(buckets.Length)
      ensures ok ==> Valid() && contents == m && removed == 0
    {
      hide Represents;
      hide Copied;
      hide Count;
      for i := 0 to oldBuckets.Length
        invariant oldBuckets[..] == bs && Valid() && removed == 0
        invariant Copied(bs, hash, m, d, contents, i)
      {
        if oldBuckets[i].slot.Used? {
          var slot := oldBuckets[i].slot;
          CopyOne(bs, hash, m, d, contents, i);
          if ShouldRehashWithSize(size + 1) {
            return false;
          }
          InsertImpl(slot.key, slot.value, slot.hash);
        } else {
          CopyNone(bs, hash, m, d, contents, i);
        }
      }
      CopiedAll(bs, hash, m, d, contents);
      ok := true;
    }

    /** Stores the element, in a larger table if need be; only a lack of memory stops it, and changes nothing. */
    method Insert(key: K, value: V) returns (outcome: Outcome)
      requires Valid()
      modifies this, buckets
      ensures Valid() && (buckets == old(buckets) || fresh(buckets))
      ensures outcome == OutOfMemory
         <==> old(ShouldRehashWithSize(size + 1)) && Bytes(NewCapacity(old(size) * 2, old(size)), bucketSize) > heapBytes
      ensures outcome == Done || outcome == OutOfMemory
      ensures outcome == Done ==> contents == old(contents)[key := value]
      ensures outcome == Done ==> size == old(size) + (if key in old(contents) then 0 else 1) && removed <= old(removed)
      ensures outcome == Done ==>
        buckets.Length == if old(ShouldRehashWithSize(size + 1)) then NewCapacity(old(size) * 2, old(size)) else old(buckets.Length)
      ensures outcome == OutOfMemory ==> contents == old(contents)
    {
      hide NewCapacity;
      hide Represents;
      hide Bytes;
      if ShouldRehashWithSize(size + 1) {
        DoublingLeavesRoom(size, bucketSize);
        outcome := Rehash(size * 2);
        if outcome == OutOfMemory {
          return;
        }
      }
      InsertImpl(key, value, hash(key));
      outcome := Done;
    }

    lemma ExceedsSize(n: Word)
      requires Valid() && ShouldRehashWithSize(n)
      ensures size < n || size == 0
    {
    }

    /**
      Makes room for so many elements.  The doubled request is a 64-bit one, so that any of the four outcomes is
      possible; after success there is room for n elements if and only if n is at most 2^62.
     */
    method Reserve(n: Word) returns (outcome: Outcome)
      requires Valid()
      modifies this
      ensures outcome == if old(ShouldRehashWithSize(n))
                         then RehashOutcome(NewCapacity(Doubled(n), old(size)), old(size), bucketSize, heapBytes) else Done
      ensures outcome == AssertionFails
         <==> old(ShouldRehashWithSize(n)) && Granted(NewCapacity(Doubled(n), old(size)), bucketSize, heapBytes)
              && AsksTooLittle(n, old(size))
      ensures outcome == AssertionFails ==> TOP_POWER / 2 < n
      ensures outcome == Done || outcome == OutOfMemory ==> Valid() && contents == old(contents)
      ensures outcome == Done ==> (n <= Room(buckets.Length) <==> n <= TOP_POWER / 2)
    {
      hide NewCapacity;
      hide Represents;
      hide Bytes;
      outcome := Done;
      if ShouldRehashWithSize(n) {
        NewCapacityFits(Doubled(n), size);
        ExceedsSize(n);
        if size < n {
          ReserveTripsIff(n, size);
        }
        outcome := Rehash(Doubled(n));
      }
    }

    /** Whether the key is stored. */
    method Contains(key: K) returns (b: bool)
      requires Valid()
      ensures b <==> key in contents
    {
      var found := FindImpl(key);
      b := found.Some?;
    }
  }

  lemma SmallCapacities()
    ensures NewCapacity(0, 0) == 16 && NewCapacity(24, 12) == 32 && NewCapacity(0, 13) == 16
  {
    assert Pow2(3) == 8 && Pow2(4) == 16 && Pow2(5) == 32;
    RoundsTo(16, 4);
    RoundsTo(24, 5);
  }

  /** The next one of thirteen insertions into an empty set. */
  method InsertNext(table: HashSet<nat, nat>, i: nat)
    requires table.Valid() && i < 13 && table.bucketSize == 16 && table.heapBytes == 1024
    requires table.size == i && table.removed == 0 && forall k :: k in table.contents ==> k < i
    requires table.buckets.Length == if i == 0 then 0 else 16
    modifies table, table.buckets
    ensures table.Valid() && (table.buckets == old(table.buckets) || fresh(table.buckets))
    ensures table.size == i + 1 && table.removed == 0 && forall k :: k in table.contents ==> k < i + 1
    ensures table.buckets.Length == if i < 12 then 16 else 32
  {
    hide HashSet.Valid;
    hide NewCapacity;
    SmallCapacities();
    var outcome := table.Insert(i, i);
  }

  /** Thirteen elements in a table of 32, and a request for 2^63: doubled it is 0, and 16 buckets are too few. */
  method ReserveTrips() returns (table: HashSet<nat, nat>, outcome: Outcome)
    ensures outcome == AssertionFails
  {
    hide HashSet.Valid;
    hide NewCapacity;
    table := new HashSet((k: nat) => k, 16, 1024);
    for i := 0 to 13
      invariant table.Valid() && table.bucketSize == 16 && table.heapBytes == 1024 && fresh(table) && fresh(table.buckets)
      invariant table.size == i && table.removed == 0 && forall k :: k in table.contents ==> k < i
      invariant table.buckets.Length == if i == 0 then 0 else if i < 13 then 16 else 32
    {
      InsertNext(table, i);
    }
    SmallCapacities();
    outcome := table.Reserve(TOP_POWER);
  }
}

/** Bucket arrays of BAN::HashSet as values: what it means for one to represent a map. */
module HashTable {
  import HashProbe
  import PowersOfTwo

  datatype Slot<K, V> = Unused | Removed | Used(hash: nat, key: K, value: V)

  datatype Bucket<K, V> = Bucket(slot: Slot<K, V>, chainStart: bool)

  /** The bucket that step i of the probe for hash h looks at. */
  function Probed<K, V>(bs: seq<Bucket<K, V>>, h: nat, i: nat): Bucket<K, V>
    requires |bs| > 0
  {
    bs[HashProbe.Bucket(h, i, |bs|)]
  }

  ghost predicate Capacity(n: nat) {
    exists k: nat :: k <= 32 && n == PowersOfTwo.Pow2(k)
  }

  /** The probe for h reaches step j: no unused bucket and no chain start stops it before. */
  ghost predicate Path<K, V>(bs: seq<Bucket<K, V>>, h: nat, j: nat)
    requires |bs| > 0
  {
    && (forall i :: 0 <= i < j ==> !Probed(bs, h, i).slot.Unused?)
    && (forall i :: 1 <= i <= j ==> !Probed(bs, h, i).chainStart)
  }

  /** Key k is stored at step j of its probe sequence. */
  ghost predicate StoredAt<K, V>(bs: seq<Bucket<K, V>>, h: nat, k: K, v: V, j: nat)
    requires |bs| > 0
  {
    Probed(bs, h, j).slot == Used(h, k, v) && Path(bs, h, j)
  }

  /**
    The buckets represent the map m: every entry of m is stored where find looks for it, `depth`
    steps into its probe sequence, and every used bucket holds an entry of m, each only once.
   */
  ghost predicate Represents<K(!new), V>(bs: seq<Bucket<K, V>>, hash: K -> nat, m: map<K, V>, depth: map<K, nat>)
    requires |bs| > 0
  {
    && depth.Keys == m.Keys
    && (forall k :: k in m ==> StoredAt(bs, hash(k), k, m[k], depth[k]))
    && (forall b :: 0 <= b < |bs| && bs[b].slot.Used? ==> Placed(bs[b].slot.key, b, |bs|, hash, depth))
  }

  ghost predicate Placed<K>(k: K, b: int, n: nat, hash: K -> nat, depth: map<K, nat>)
    requires n > 0
  {
    k in depth && HashProbe.Bucket(hash(k), depth[k], n) == b
  }

  // ---------------------------------------------------------------- find

  /** Step i of the probe for h does not meet the key. */
  ghost predicate Misses<K, V>(bs: seq<Bucket<K, V>>, h: nat, key: K, i: nat)
    requires |bs| > 0
  {
    !(Probed(bs, h, i).slot.Used? && Probed(bs, h, i).slot.key == key)
  }

  /** A probe that stops at step e without having met the key proves that the key is absent. */
  lemma StoppedProbe<K(!new), V>(bs: seq<Bucket<K, V>>, hash: K -> nat, m: map<K, V>, depth: map<K, nat>, key: K, e: nat)
    requires |bs| > 0 && Represents(bs, hash, m, depth)
    requires forall i :: 0 <= i <= e ==> Misses(bs, hash(key), key, i)
    requires Probed(bs, hash(key), e).slot.Unused? || (e > 0 && Probed(bs, hash(key), e).chainStart)
    ensures key !in m
  {
    hide Represents;
    hide Path;
    if key in m {
      KeyStored(bs, hash, m, depth, key);
      StoredIsMet(bs, hash(key), key, m[key], depth[key], e);
    }
  }

  lemma KeyStored<K(!new), V>(bs: seq<Bucket<K, V>>, hash: K -> nat, m: map<K, V>, depth: map<K, nat>, key: K)
    requires |bs| > 0 && Represents(bs, hash, m, depth) && key in m
    ensures key in depth && StoredAt(bs, hash(key), key, m[key], depth[key])
  {
  }

  /** A stored key is met no later than the first step that could stop its probe. */
  lemma StoredIsMet<K, V>(bs: seq<Bucket<K, V>>, h: nat, key: K, v: V, j: nat, e: nat)
    requires |bs| > 0 && StoredAt(bs, h, key, v, j)
    requires Probed(bs, h, e).slot.Unused? || (e > 0 && Probed(bs, h, e).chainStart)
    ensures j <= e && !Misses(bs, h, key, j)
  {
  }

  lemma FoundKey<K(!new), V>(bs: seq<Bucket<K, V>>, hash: K -> nat, m: map<K, V>, depth: map<K, nat>, b: nat)
    requires |bs| > 0 && Represents(bs, hash, m, depth) && b < |bs| && bs[b].slot.Used?
    ensures bs[b].slot.key in m && bs[b].slot == Used(hash(bs[b].slot.key), bs[b].slot.key, m[bs[b].slot.key])
  {
    var k := bs[b].slot.key;
    assert Placed(k, b, |bs|, hash, depth);
    assert StoredAt(bs, hash(k), k, m[k], depth[k]);
  }

  // ---------------------------------------------------------------- insert and remove

  /** bs' is bs with some chain starts cleared. */
  ghost predicate Cleared<K, V>(bs: seq<Bucket<K, V>>, bs': seq<Bucket<K, V>>) {
    && |bs'| == |bs|
    && forall b :: 0 <= b < |bs| ==> bs'[b].slot == bs[b].slot && (bs'[b].chainStart ==> bs[b].chainStart)
  }

  lemma ClearedReflexive<K, V>(bs: seq<Bucket<K, V>>)
    ensures Cleared(bs, bs)
  {
  }

  lemma ClearedTransitive<K, V>(bs: seq<Bucket<K, V>>, bs': seq<Bucket<K, V>>, bs'': seq<Bucket<K, V>>)
    requires Cleared(bs, bs') && Cleared(bs', bs'')
    ensures Cleared(bs, bs'')
    ensures forall b :: 0 <= b < |bs| ==> bs''[b].slot == bs[b].slot
  {
  }

  /** An insertion's probe has gone through the first i steps without meeting the key. */
  ghost predicate Passed<K, V>(bs: seq<Bucket<K, V>>, bs': seq<Bucket<K, V>>, h: nat, key: K, i: nat)
    requires |bs| == |bs'| > 0
  {
    && (forall e :: 0 <= e < i ==> !Probed(bs, h, e).slot.Unused? && Misses(bs, h, key, e))
    && (forall e :: 1 <= e < i ==> !Probed(bs', h, e).chainStart)
  }

  lemma PassedCleared<K, V>(bs: seq<Bucket<K, V>>, bs': seq<Bucket<K, V>>, bs'': seq<Bucket<K, V>>, h: nat, key: K, i: nat)
    requires |bs| == |bs'| > 0 && Passed(bs, bs', h, key, i) && Cleared(bs', bs'')
    ensures Passed(bs, bs'', h, key, i)
  {
    forall e | 1 <= e < i ensures !Probed(bs'', h, e).chainStart {
      ProbedCleared(bs', bs'', h, e);
    }
  }

  lemma PassedOne<K, V>(bs: seq<Bucket<K, V>>, bs': seq<Bucket<K, V>>, h: nat, key: K, i: nat)
    requires |bs| == |bs'| > 0 && Passed(bs, bs', h, key, i)
    requires !Probed(bs, h, i).slot.Unused? && Misses(bs, h, key, i) && (i > 0 ==> !Probed(bs', h, i).chainStart)
    ensures Passed(bs, bs', h, key, i + 1)
  {
  }

  lemma PassedPath<K, V>(bs: seq<Bucket<K, V>>, bs': seq<Bucket<K, V>>, h: nat, key: K, i: nat, j: nat)
    requires |bs| > 0 && Cleared(bs, bs') && Passed(bs, bs', h, key, i) && j <= i
    requires i > 0 ==> !Probed(bs', h, i).chainStart
    ensures Path(bs', h, j)
  {
    forall e | 0 <= e < j ensures !Probed(bs', h, e).slot.Unused? {
      ProbedCleared(bs, bs', h, e);
    }
  }

  lemma ProbedCleared<K, V>(bs: seq<Bucket<K, V>>, bs': seq<Bucket<K, V>>, h: nat, i: nat)
    requires |bs| > 0 && Cleared(bs, bs')
    ensures Probed(bs', h, i).slot == Probed(bs, h, i).slot
    ensures Probed(bs', h, i).chainStart ==> Probed(bs, h, i).chainStart
  {
  }

  lemma ClearedRepresents<K(!new), V>(bs: seq<Bucket<K, V>>, bs': seq<Bucket<K, V>>, hash: K -> nat, m: map<K, V>, depth: map<K, nat>)
    requires |bs| > 0 && Represents(bs, hash, m, depth) && Cleared(bs, bs')
    ensures Represents(bs', hash, m, depth)
  {
    forall k | k in m ensures StoredAt(bs', hash(k), k, m[k], depth[k]) {
      assert StoredAt(bs, hash(k), k, m[k], depth[k]);
      PathCleared(bs, bs', hash(k), depth[k]);
      ProbedCleared(bs, bs', hash(k), depth[k]);
    }
  }

  lemma PathCleared<K, V>(bs: seq<Bucket<K, V>>, bs': seq<Bucket<K, V>>, h: nat, j: nat)
    requires |bs| > 0 && Path(bs, h, j) && Cleared(bs, bs')
    ensures Path(bs', h, j)
  {
    forall i | 0 <= i <= j
      ensures i < j ==> !Probed(bs', h, i).slot.Unused?
      ensures 1 <= i ==> !Probed(bs', h, i).chainStart
    {
      ProbedCleared(bs, bs', h, i);
    }
  }

  /** Writing a bucket that no path has to go through, or that stays passable, keeps all paths. */
  lemma PathWritten<K, V>(bs: seq<Bucket<K, V>>, t: nat, x: Bucket<K, V>, h: nat, j: nat)
    requires t < |bs| && Path(bs, h, j) && !x.slot.Unused?
    requires x.chainStart ==> bs[t].chainStart || bs[t].slot.Unused?
    requires HashProbe.Bucket(h, j, |bs|) != t || !x.chainStart
    ensures Path(bs[t := x], h, j)
  {
    var bs' := bs[t := x];
    forall i | 0 <= i <= j
      ensures i < j ==> !Probed(bs', h, i).slot.Unused?
      ensures 1 <= i ==> !Probed(bs', h, i).chainStart
    {
      if HashProbe.Bucket(h, i, |bs|) == t {
        assert Probed(bs, h, i) == bs[t];
      } else {
        assert Probed(bs', h, i) == Probed(bs, h, i);
      }
    }
  }

  /** Storing an absent key at step j of its probe, on a bucket that is not in use. */
  lemma InsertedRepresents<K(!new), V>(bs: seq<Bucket<K, V>>, hash: K -> nat, m: map<K, V>, depth: map<K, nat>,
                                       key: K, value: V, j: nat, start: bool)
    requires |bs| > 0 && Represents(bs, hash, m, depth) && key !in m && Path(bs, hash(key), j)
    requires !Probed(bs, hash(key), j).slot.Used?
    requires start ==> j == 0 && Probed(bs, hash(key), j).slot.Unused?
    ensures var t := HashProbe.Bucket(hash(key), j, |bs|);
            Represents(bs[t := Bucket(Used(hash(key), key, value), start)], hash, m[key := value], depth[key := j])
  {
    var h, t := hash(key), HashProbe.Bucket(hash(key), j, |bs|);
    var x := Bucket(Used(h, key, value), start);
    var bs', m', d' := bs[t := x], m[key := value], depth[key := j];
    assert Probed(bs, h, j) == bs[t];
    forall k | k in m' ensures StoredAt(bs', hash(k), k, m'[k], d'[k]) {
      if k == key {
        PathOfNew(bs, t, x, h, j);
      } else {
        assert StoredAt(bs, hash(k), k, m[k], depth[k]);
        assert Probed(bs, hash(k), depth[k]) == bs[HashProbe.Bucket(hash(k), depth[k], |bs|)];
        PathWritten(bs, t, x, hash(k), depth[k]);
      }
    }
    forall b | 0 <= b < |bs'| && bs'[b].slot.Used? ensures Placed(bs'[b].slot.key, b, |bs'|, hash, d') {
      if b != t {
        assert Placed(bs[b].slot.key, b, |bs|, hash, depth);
      }
    }
  }

  lemma PathOfNew<K, V>(bs: seq<Bucket<K, V>>, t: nat, x: Bucket<K, V>, h: nat, j: nat)
    requires |bs| > 0 && Path(bs, h, j) && !x.slot.Unused? && t == HashProbe.Bucket(h, j, |bs|)
    requires x.chainStart ==> j == 0
    ensures Path(bs[t := x], h, j)
  {
    var bs' := bs[t := x];
    forall i | 0 <= i <= j
      ensures i < j ==> !Probed(bs', h, i).slot.Unused?
      ensures 1 <= i ==> !Probed(bs', h, i).chainStart
    {
      if HashProbe.Bucket(h, i, |bs|) != t {
        assert Probed(bs', h, i) == Probed(bs, h, i);
      }
    }
  }

  /** Overwriting the entry of a present key. */
  lemma ReplacedRepresents<K(!new), V>(bs: seq<Bucket<K, V>>, hash: K -> nat, m: map<K, V>, depth: map<K, nat>, value: V, t: nat)
    requires |bs| > 0 && Represents(bs, hash, m, depth) && t < |bs| && bs[t].slot.Used?
    ensures var key := bs[t].slot.key;
            Represents(bs[t := Bucket(Used(hash(key), key, value), false)], hash, m[key := value], depth)
  {
    FoundKey(bs, hash, m, depth, t);
    var key := bs[t].slot.key;
    var x := Bucket(Used(hash(key), key, value), false);
    var bs', m' := bs[t := x], m[key := value];
    assert Placed(key, t, |bs|, hash, depth);
    forall k | k in m' ensures StoredAt(bs', hash(k), k, m'[k], depth[k]) {
      assert StoredAt(bs, hash(k), k, m[k], depth[k]);
      PathWritten(bs, t, x, hash(k), depth[k]);
    }
    forall b | 0 <= b < |bs'| && bs'[b].slot.Used? ensures Placed(bs'[b].slot.key, b, |bs'|, hash, depth) {
      assert Placed(bs[b].slot.key, b, |bs|, hash, depth);
    }
  }

  /** Leaving a tombstone. */
  lemma RemovedRepresents<K(!new), V>(bs: seq<Bucket<K, V>>, hash: K -> nat, m: map<K, V>, depth: map<K, nat>, t: nat)
    requires |bs| > 0 && Represents(bs, hash, m, depth) && t < |bs| && bs[t].slot.Used?
    ensures var key := bs[t].slot.key;
            Represents(bs[t := bs[t].(slot := Removed)], hash, m - {key}, depth - {key})
  {
    FoundKey(bs, hash, m, depth, t);
    var key, x := bs[t].slot.key, bs[t].(slot := Removed);
    var bs', m', d' := bs[t := x], m - {key}, depth - {key};
    assert Placed(key, t, |bs|, hash, depth);
    forall k | k in m' ensures StoredAt(bs', hash(k), k, m'[k], d'[k]) {
      assert StoredAt(bs, hash(k), k, m[k], depth[k]);
      assert Probed(bs, hash(k), depth[k]) == bs[HashProbe.Bucket(hash(k), depth[k], |bs|)];
      PathWritten(bs, t, x, hash(k), depth[k]);
    }
    forall b | 0 <= b < |bs'| && bs'[b].slot.Used? ensures Placed(bs'[b].slot.key, b, |bs'|, hash, d') {
      assert Placed(bs[b].slot.key, b, |bs|, hash, depth);
      assert bs[b].slot.key == key ==> b == t;
    }
  }

  lemma EmptyRepresents<K(!new), V>(bs: seq<Bucket<K, V>>, hash: K -> nat)
    requires |bs| > 0 && forall b :: 0 <= b < |bs| ==> bs[b].slot.Unused?
    ensures Represents(bs, hash, map[], map[])
  {
  }

  // ---------------------------------------------------------------- counting

  function Count<K, V>(bs: seq<Bucket<K, V>>, p: Slot<K, V> -> bool): nat {
    if bs == [] then 0 else Count(bs[..|bs| - 1], p) + if p(bs[|bs| - 1].slot) then 1 else 0
  }

  function IsUsed<K, V>(x: Slot<K, V>): bool { x.Used? }
  function IsRemoved<K, V>(x: Slot<K, V>): bool { x.Removed? }

  lemma {:induction false} CountWritten<K, V>(bs: seq<Bucket<K, V>>, p: Slot<K, V> -> bool, t: nat, x: Bucket<K, V>)
    requires t < |bs|
    ensures Count(bs[t := x], p) == Count(bs, p) - (if p(bs[t].slot) then 1 else 0) + (if p(x.slot) then 1 else 0)
  {
    var n := |bs| - 1;
    if t == n {
      assert bs[t := x][..n] == bs[..n];
    } else {
      CountWritten(bs[..n], p, t, x);
      assert bs[t := x][..n] == bs[..n][t := x];
    }
  }

  lemma {:induction false} CountCleared<K, V>(bs: seq<Bucket<K, V>>, bs': seq<Bucket<K, V>>, p: Slot<K, V> -> bool)
    requires Cleared(bs, bs')
    ensures Count(bs', p) == Count(bs, p)
  {
    if bs != [] {
      CountCleared(bs[..|bs| - 1], bs'[..|bs| - 1], p);
    }
  }

  lemma {:induction false} CountEmpty<K, V>(bs: seq<Bucket<K, V>>, p: Slot<K, V> -> bool)
    requires forall b :: 0 <= b < |bs| ==> bs[b].slot.Unused?
    requires !p(Unused)
    ensures Count(bs, p) == 0
  {
    if bs != [] {
      CountEmpty(bs[..|bs| - 1], p);
    }
  }

  lemma ClearedFacts<K(!new), V>(bs: seq<Bucket<K, V>>, bs': seq<Bucket<K, V>>, hash: K -> nat, m: map<K, V>, depth: map<K, nat>)
    requires |bs| > 0 && Represents(bs, hash, m, depth) && Cleared(bs, bs')
    ensures |bs'| == |bs| && Represents(bs', hash, m, depth)
    ensures Count(bs', IsUsed) == Count(bs, IsUsed) && Count(bs', IsRemoved) == Count(bs, IsRemoved)
  {
    ClearedRepresents(bs, bs', hash, m, depth);
    CountCleared(bs, bs', IsUsed);
    CountCleared(bs, bs', IsRemoved);
  }

  /** Without an unused bucket every bucket is counted. */
  lemma {:induction false} AllCounted<K, V>(bs: seq<Bucket<K, V>>)
    requires forall b :: 0 <= b < |bs| ==> !bs[b].slot.Unused?
    ensures Count(bs, IsUsed) + Count(bs, IsRemoved) == |bs|
  {
    if bs != [] {
      AllCounted(bs[..|bs| - 1]);
    }
  }

  /** The load rule leaves an unused bucket, and every probe meets one within a cycle. */
  lemma ProbeMeetsUnused<K, V>(bs: seq<Bucket<K, V>>, h: nat)
    requires Capacity(|bs|) && Count(bs, IsUsed) + Count(bs, IsRemoved) < |bs|
    ensures |bs| > 0 && exists i: nat :: i < |bs| && Probed(bs, h, i).slot.Unused?
  {
    var k: nat :| k <= 32 && |bs| == PowersOfTwo.Pow2(k);
    if forall b :: 0 <= b < |bs| ==> !bs[b].slot.Unused? {
      AllCounted(bs);
    }
    var b :| 0 <= b < |bs| && bs[b].slot.Unused?;
    var i := HashProbe.ProbeCovers(h, k, b);
    assert Probed(bs, h, i) == bs[b];
  }
}

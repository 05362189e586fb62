/**
  The scheduler's intrusive block list (kernel/kernel/SchedulerThreadNode.cpp): a complete
  binary min-heap of linked nodes with neither an array nor a size counter.
 */
module ThreadNode {

  /**
    A scheduler node. The source keeps the queue links and the heap links in one union:
    `queue.next` and `heap.parent` are the same word, `queue.prev` and `heap.lchild` are
    the next one, and `heap.rchild` has a word of its own. Each word is one field here.
   */
  class Node {
    var parent: Node?    // also queue.next
    var lchild: Node?    // also queue.prev
    var rchild: Node?
    var wakeTime: nat
    var blocked: bool
    var blocker: object?     // the ThreadBlocker the thread waits for
    var chainPrev: Node?     // among the threads that wait for it
    var chainNext: Node?
    const tid: nat           // of the node's thread

    constructor (tid: nat, wakeTime: nat)
      ensures Unlinked() && this.tid == tid && this.wakeTime == wakeTime && !blocked
      ensures blocker == null && chainPrev == null && chainNext == null
    {
      parent, lchild, rchild := null, null, null;
      blocker, chainPrev, chainNext := null, null, null;
      this.tid, this.wakeTime, blocked := tid, wakeTime, false;
    }

    /** What the assertions at the head of both push operations ask for (and a null rchild). */
    predicate Unlinked()
      reads this
    {
      parent == null && lchild == null && rchild == null
    }
  }

  /** One link field of every node of a set. */
  type Field = map<Node, Node?>

  ghost function Ups(m: set<Node>): Field reads m { map x | x in m :: x.parent }
  ghost function Lefts(m: set<Node>): Field reads m { map x | x in m :: x.lchild }
  ghost function Rights(m: set<Node>): Field reads m { map x | x in m :: x.rchild }
}

/** Level orders of complete trees, as values: what relinking does to positions. */
module LevelOrder {
  import opened ThreadNode
  import opened Sequences

  /** The node at level-order index i, or null past the end. */
  ghost function At(s: seq<Node>, i: int): Node? {
    if 0 <= i < |s| then s[i] else null
  }

  /** The three link fields of a set of nodes. */
  datatype Shape = Shape(up: Field, left: Field, right: Field)

  ghost predicate Over(f: Shape, m: set<Node>) {
    f.up.Keys == m && f.left.Keys == m && f.right.Keys == m
  }

  /** The links that level order s gives to the node at index i. */
  ghost predicate Linked(s: seq<Node>, f: Shape, i: int)
    requires 0 <= i < |s| && Over(f, f.up.Keys) && s[i] in f.up
  {
    && f.up[s[i]] == (if i == 0 then null else At(s, (i - 1) / 2))
    && f.left[s[i]] == At(s, 2 * i + 1)
    && f.right[s[i]] == At(s, 2 * i + 2)
  }

  /** `s` lists the keys of `pos`, each once and at its position. */
  ghost predicate Lists(s: seq<Node>, pos: map<Node, nat>) {
    && (forall i :: 0 <= i < |s| ==> s[i] in pos && pos[s[i]] == i)
    && (forall x :: x in pos ==> pos[x] < |s| && s[pos[x]] == x)
  }

  /** `s` lists a complete tree in level order: every link of every member agrees with it. */
  ghost predicate Tree(s: seq<Node>, pos: map<Node, nat>, f: Shape) {
    Lists(s, pos) && Over(f, pos.Keys) && forall i :: 0 <= i < |s| ==> Linked(s, f, i)
  }

  /** A position of x in s. */
  ghost function Index(s: seq<Node>, x: Node): (i: nat)
    requires x in s
    ensures i < |s| && s[i] == x
  {
    var i :| 0 <= i < |s| && s[i] == x;
    i
  }

  ghost function Pos(s: seq<Node>): map<Node, nat> {
    map x | x in s :: Index(s, x)
  }

  lemma PosIsUnique(s: seq<Node>, pos: map<Node, nat>)
    requires Lists(s, pos)
    ensures pos == Pos(s)
  {
  }

  // ---------------------------------------------------------------- trading places

  /** What a link reads after nodes a and b have traded places. */
  ghost function Traded(x: Node?, a: Node, b: Node): Node? {
    if x == a then b else if x == b then a else x
  }

  /** The field after a and b have traded places: each takes over the other's link. */
  ghost function TradedField(f: Field, a: Node, b: Node): Field
    requires a in f && b in f
  {
    map x | x in f :: Traded(if x == a then f[b] else if x == b then f[a] else f[x], a, b)
  }

  ghost function TradedShape(f: Shape, a: Node, b: Node): Shape
    requires Over(f, f.up.Keys) && a in f.up && b in f.up
  {
    Shape(TradedField(f.up, a, b), TradedField(f.left, a, b), TradedField(f.right, a, b))
  }

  lemma TradeIsSymmetric(f: Shape, a: Node, b: Node)
    requires Over(f, f.up.Keys) && a in f.up && b in f.up
    ensures TradedShape(f, a, b) == TradedShape(f, b, a)
  {
    FieldTradeIsSymmetric(f.up, a, b);
    FieldTradeIsSymmetric(f.left, a, b);
    FieldTradeIsSymmetric(f.right, a, b);
  }

  lemma FieldTradeIsSymmetric(f: Field, a: Node, b: Node)
    requires a in f && b in f
    ensures TradedField(f, a, b) == TradedField(f, b, a)
  {
  }

  lemma TradedAt(s: seq<Node>, pos: map<Node, nat>, i: nat, j: nat, k: int)
    requires Lists(s, pos) && i < |s| && j < |s|
    ensures Traded(At(s, k), s[i], s[j]) == At(Swapped(s, i, j), k)
  {
  }

  /** Trading the links of two members is exactly a transposition of the level order. */
  lemma TradeTransposes(s: seq<Node>, pos: map<Node, nat>, f: Shape, i: nat, j: nat)
    requires Tree(s, pos, f) && i < |s| && j < |s|
    ensures Tree(Swapped(s, i, j), pos[s[i] := j][s[j] := i], TradedShape(f, s[i], s[j]))
  {
    var t, g := Swapped(s, i, j), TradedShape(f, s[i], s[j]);
    forall k | 0 <= k < |t| ensures Linked(t, g, k) {
      TradedLinks(s, pos, f, i, j, k);
    }
  }

  lemma TradedLinks(s: seq<Node>, pos: map<Node, nat>, f: Shape, i: nat, j: nat, k: nat)
    requires Tree(s, pos, f) && i < |s| && j < |s| && k < |s|
    requires var g := TradedShape(f, s[i], s[j]); Over(g, g.up.Keys) && Swapped(s, i, j)[k] in g.up
    ensures Linked(Swapped(s, i, j), TradedShape(f, s[i], s[j]), k)
  {
    hide At;
    assert Linked(s, f, k);
    TradedAt(s, pos, i, j, (k - 1) / 2);
    TradedAt(s, pos, i, j, 2 * k + 1);
    TradedAt(s, pos, i, j, 2 * k + 2);
  }

  /** The links to and from `a` point back at each other: what the relinking relies on. */
  ghost predicate Around(f: Shape, a: Node) {
    && Over(f, f.up.Keys) && a in f.up
    && (f.up[a] != null ==> f.up[a] in f.up && f.left[f.up[a]] != f.right[f.up[a]])
    && (f.left[a] != null ==> f.left[a] in f.up && f.left[a] != f.right[a])
    && (f.right[a] != null ==> f.right[a] in f.up)
    && (forall x :: x in f.up ==> (f.up[x] == a <==> x == f.left[a] || x == f.right[a]))
    && (forall x :: x in f.up ==> (f.left[x] == a || f.right[x] == a <==> x == f.up[a]))
    && f.up[a] != a
  }

  lemma TreeIsMutual(s: seq<Node>, pos: map<Node, nat>, f: Shape, i: nat)
    requires Tree(s, pos, f) && i < |s|
    ensures Around(f, s[i])
  {
    var a := s[i];
    assert Linked(s, f, i);
    forall x | x in f.up
      ensures f.up[x] == a <==> x == f.left[a] || x == f.right[a]
      ensures f.left[x] == a || f.right[x] == a <==> x == f.up[a]
    {
      assert Linked(s, f, pos[x]);
    }
    if i > 0 {
      assert Linked(s, f, (i - 1) / 2);
    }
  }

  // ---------------------------------------------------------------- the assignments of swap_nodes

  ghost function Reparented(up: Field, l: Node?, r: Node?, p: Node): Field {
    map x | x in up :: if x == l || x == r then p else up[x]
  }

  ghost function Put(f: Field, x: Node?, c: bool, y: Node?): Field {
    if c && x != null then f[x := y] else f
  }

  lemma UnrelatedUps(f: Shape, a: Node, b: Node)
    requires Around(f, a) && Around(f, b) && a != b && f.up[a] != b && f.up[b] != a
    ensures TradedField(f.up, a, b) ==
            Reparented(Reparented(f.up[a := f.up[b]][b := f.up[a]], f.left[a], f.right[a], b), f.left[b], f.right[b], a)
  {
  }

  lemma UnrelatedLefts(f: Shape, a: Node, b: Node)
    requires Around(f, a) && Around(f, b) && a != b && f.up[a] != b && f.up[b] != a && f.up[a] != f.up[b]
    ensures var p, q := f.up[a], f.up[b];
            TradedField(f.left, a, b) ==
            Put(Put(f.left[a := f.left[b]][b := f.left[a]], p, p != null && f.left[p] == a, b), q, q != null && f.left[q] == b, a)
  {
  }

  lemma UnrelatedRights(f: Shape, a: Node, b: Node)
    requires Around(f, a) && Around(f, b) && a != b && f.up[a] != b && f.up[b] != a && f.up[a] != f.up[b]
    ensures var p, q := f.up[a], f.up[b];
            TradedField(f.right, a, b) ==
            Put(Put(f.right[a := f.right[b]][b := f.right[a]], p, p != null && f.left[p] != a, b), q, q != null && f.left[q] != b, a)
  {
  }

  lemma SiblingLefts(f: Shape, a: Node, b: Node)
    requires Around(f, a) && Around(f, b) && a != b && f.up[a] != b && f.up[b] != a && f.up[a] == f.up[b]
    ensures var p := f.up[a];
            TradedField(f.left, a, b) == Put(f.left[a := f.left[b]][b := f.left[a]], p, true, if p == null then null else f.right[p])
  {
  }

  lemma SiblingRights(f: Shape, a: Node, b: Node)
    requires Around(f, a) && Around(f, b) && a != b && f.up[a] != b && f.up[b] != a && f.up[a] == f.up[b]
    ensures var p := f.up[a];
            TradedField(f.right, a, b) == Put(f.right[a := f.right[b]][b := f.right[a]], p, true, if p == null then null else f.left[p])
  {
  }

  /** Both cases of relinking the parents of two unrelated nodes. */
  ghost function Relinked(f: Field, p: Node?, q: Node?, other: Node?, c: bool, a: Node, d: bool, b: Node): Field {
    if p == q then Put(f, p, true, other) else Put(Put(f, p, c, b), q, d, a)
  }

  lemma UnrelatedShape(f: Shape, a: Node, b: Node)
    requires Around(f, a) && Around(f, b) && a != b && f.up[a] != b && f.up[b] != a
    ensures var p, q := f.up[a], f.up[b];
            TradedShape(f, a, b) == Shape(
              Reparented(Reparented(f.up[a := q][b := p], f.left[a], f.right[a], b), f.left[b], f.right[b], a),
              Relinked(f.left[a := f.left[b]][b := f.left[a]], p, q, if p == null then null else f.right[p],
                       p != null && f.left[p] == a, a, q != null && f.left[q] == b, b),
              Relinked(f.right[a := f.right[b]][b := f.right[a]], p, q, if p == null then null else f.left[p],
                       p != null && f.left[p] != a, a, q != null && f.left[q] != b, b))
  {
    UnrelatedUps(f, a, b);
    if f.up[a] == f.up[b] {
      SiblingLefts(f, a, b);
      SiblingRights(f, a, b);
    } else {
      UnrelatedLefts(f, a, b);
      UnrelatedRights(f, a, b);
    }
  }

  lemma ChildUps(f: Shape, a: Node, b: Node)
    requires Around(f, a) && Around(f, b) && f.up[b] == a && f.up[a] != b
    ensures TradedField(f.up, a, b) ==
            Reparented(Reparented(f.up[a := b][b := f.up[a]], if f.left[a] == b then f.right[a] else f.left[a], null, b),
                       f.left[b], f.right[b], a)
  {
  }

  lemma ChildSides(f: Shape, a: Node, b: Node)
    requires Around(f, a) && Around(f, b) && f.up[b] == a && f.up[a] != b
    ensures var p := f.up[a];
            && TradedField(f.left, a, b) ==
               Put(f.left[a := f.left[b]][b := if f.left[a] == b then a else f.left[a]], p, p != null && f.left[p] == a, b)
            && TradedField(f.right, a, b) ==
               Put(f.right[a := f.right[b]][b := if f.left[a] == b then f.right[a] else a], p, p != null && f.left[p] != a, b)
  {
  }

  // ---------------------------------------------------------------- adding and dropping the last node

  lemma AtAppended(s: seq<Node>, node: Node, i: int)
    ensures At(s + [node], i) == if i == |s| then node else At(s, i)
  {
  }

  ghost function AppendedShape(f: Shape, p: Node, node: Node): Shape
    requires Over(f, f.up.Keys) && p in f.up
  {
    Shape(f.up[node := p],
          Put(f.left, p, f.left[p] == null, node)[node := null],
          Put(f.right, p, f.left[p] != null, node)[node := null])
  }

  lemma AppendedTree(s: seq<Node>, pos: map<Node, nat>, f: Shape, node: Node)
    requires Tree(s, pos, f) && s != [] && node !in pos
    ensures Tree(s + [node], pos[node := |s|], AppendedShape(f, s[(|s| - 1) / 2], node))
  {
    var t, g := s + [node], AppendedShape(f, s[(|s| - 1) / 2], node);
    forall k | 0 <= k < |t| ensures Linked(t, g, k) {
      AppendedLinked(s, pos, f, node, k);
    }
  }

  lemma AppendedLinked(s: seq<Node>, pos: map<Node, nat>, f: Shape, node: Node, k: nat)
    requires Tree(s, pos, f) && s != [] && node !in pos && k <= |s|
    ensures Linked(s + [node], AppendedShape(f, s[(|s| - 1) / 2], node), k)
  {
    var h := (|s| - 1) / 2;
    assert Linked(s, f, h);
    AtAppended(s, node, (k - 1) / 2);
    AtAppended(s, node, 2 * k + 1);
    AtAppended(s, node, 2 * k + 2);
    if k < |s| {
      assert Linked(s, f, k);
      assert s[k] != node && (s[k] == s[h] ==> k == h);
    }
  }

  lemma AtDropped(s: seq<Node>, i: int)
    requires s != []
    ensures At(s[..|s| - 1], i) == if i == |s| - 1 then null else At(s, i)
  {
  }

  ghost function DroppedShape(f: Shape, p: Node, node: Node): Shape
    requires Over(f, f.up.Keys) && p in f.up
  {
    Shape(f.up - {node},
          Put(f.left - {node}, p, f.right[p] != node, null),
          Put(f.right - {node}, p, f.right[p] == node, null))
  }

  lemma DroppedTree(s: seq<Node>, pos: map<Node, nat>, f: Shape)
    requires Tree(s, pos, f) && |s| > 1
    ensures Tree(s[..|s| - 1], pos - {s[|s| - 1]}, DroppedShape(f, s[(|s| - 2) / 2], s[|s| - 1]))
  {
    var t, node, g := s[..|s| - 1], s[|s| - 1], DroppedShape(f, s[(|s| - 2) / 2], s[|s| - 1]);
    assert Over(g, pos.Keys - {node});
    forall k | 0 <= k < |t| ensures Linked(t, g, k) {
      DroppedLinked(s, pos, f, k);
    }
  }

  lemma DroppedLinked(s: seq<Node>, pos: map<Node, nat>, f: Shape, k: nat)
    requires Tree(s, pos, f) && k < |s| - 1
    requires var g := DroppedShape(f, s[(|s| - 2) / 2], s[|s| - 1]); Over(g, g.up.Keys) && s[k] in g.up
    ensures Linked(s[..|s| - 1], DroppedShape(f, s[(|s| - 2) / 2], s[|s| - 1]), k)
  {
    hide DroppedShape;
    hide At;
    assert Linked(s, f, k);
    DroppedFields(s, pos, f, k);
    AtDropped(s, (k - 1) / 2);
    AtDropped(s, 2 * k + 1);
    AtDropped(s, 2 * k + 2);
  }

  lemma DroppedFields(s: seq<Node>, pos: map<Node, nat>, f: Shape, k: nat)
    requires Tree(s, pos, f) && k < |s| - 1
    requires var g := DroppedShape(f, s[(|s| - 2) / 2], s[|s| - 1]); Over(g, g.up.Keys) && s[k] in g.up
    ensures var g, h := DroppedShape(f, s[(|s| - 2) / 2], s[|s| - 1]), (|s| - 2) / 2;
            && s[k] in f.up && Over(f, f.up.Keys) && g.up[s[k]] == f.up[s[k]]
            && g.left[s[k]] == (if k == h && |s| - 1 == 2 * h + 1 then null else f.left[s[k]])
            && g.right[s[k]] == (if k == h && |s| - 1 == 2 * h + 2 then null else f.right[s[k]])
  {
    var h := (|s| - 2) / 2;
    assert Linked(s, f, h);
    assert f.right[s[h]] == s[|s| - 1] <==> |s| - 1 == 2 * h + 2;
    assert k != h ==> s[k] != s[h];
  }
}

/** Heap order on sequences of wake times, and the walks along the spines of the tree. */
module WakeOrder {
  import opened LevelOrder
  import opened Sequences

  /** Index i wakes no earlier than its parent. */
  predicate Follows(ks: seq<nat>, i: int)
    requires 0 < i < |ks|
  {
    ks[(i - 1) / 2] <= ks[i]
  }

  /** Every parent wakes no later than its children. */
  ghost predicate MinHeap(ks: seq<nat>) {
    forall i :: 0 < i < |ks| ==> Follows(ks, i)
  }

  /** The children of k wake no earlier than the parent of k. */
  ghost predicate Bridged(ks: seq<nat>, k: nat)
    requires k < |ks|
  {
    0 < k ==> forall c :: 2 * k + 1 <= c <= 2 * k + 2 && c < |ks| ==> ks[(k - 1) / 2] <= ks[c]
  }

  /** Heap order, except that k may be smaller than its parent. */
  ghost predicate HeapButUp(ks: seq<nat>, k: nat)
    requires k < |ks|
  {
    Bridged(ks, k) && forall i :: 0 < i < |ks| && i != k ==> Follows(ks, i)
  }

  /** Heap order, except that k may be larger than its children. */
  ghost predicate HeapButDown(ks: seq<nat>, k: nat)
    requires k < |ks|
  {
    Bridged(ks, k) && forall i :: 0 < i < |ks| && (i - 1) / 2 != k ==> Follows(ks, i)
  }

  lemma SiftUpStep(ks: seq<nat>, k: nat)
    requires 0 < k < |ks| && HeapButUp(ks, k) && ks[k] < ks[(k - 1) / 2]
    ensures HeapButUp(Swapped(ks, k, (k - 1) / 2), (k - 1) / 2)
  {
    var p := (k - 1) / 2;
    var t := Swapped(ks, k, p);
    forall i | 0 < i < |t| && i != p ensures Follows(t, i) {
      assert i != k ==> Follows(ks, i);
    }
    if p > 0 {
      assert Follows(ks, p);
      forall c | 2 * p + 1 <= c <= 2 * p + 2 && c < |t| ensures t[(p - 1) / 2] <= t[c] {
        assert c != k ==> Follows(ks, c);
      }
    }
  }

  lemma SiftDownStep(ks: seq<nat>, k: nat, c: nat)
    requires k < c < |ks| && HeapButDown(ks, k) && (c == 2 * k + 1 || c == 2 * k + 2)
    requires ks[c] < ks[k]
    requires forall d :: 2 * k + 1 <= d <= 2 * k + 2 && d < |ks| ==> ks[c] <= ks[d]
    ensures HeapButDown(Swapped(ks, k, c), c)
  {
    var t := Swapped(ks, k, c);
    forall i | 0 < i < |t| && (i - 1) / 2 != c ensures Follows(t, i) {
      assert (i - 1) / 2 != k ==> Follows(ks, i);
    }
    forall d | 2 * c + 1 <= d <= 2 * c + 2 && d < |t| ensures t[(c - 1) / 2] <= t[d] {
      assert Follows(ks, d);
    }
  }

  lemma AppendedOrder(ks: seq<nat>, key: nat)
    requires MinHeap(ks)
    ensures HeapButUp(ks + [key], |ks|)
  {
    var t := ks + [key];
    forall i | 0 < i < |t| && i != |ks| ensures Follows(t, i) {
      assert Follows(ks, i);
    }
  }

  /** What removing index k and moving the last key into its place does to the order. */
  lemma RemovedOrder(ks: seq<nat>, k: nat)
    requires MinHeap(ks) && k < |ks|
    ensures var n := |ks|;
            var t := Swapped(ks, k, n - 1)[..n - 1];
            && (ks[n - 1] == ks[k] ==> MinHeap(t))
            && (ks[n - 1] < ks[k] ==> k < |t| && HeapButUp(t, k))
            && (ks[n - 1] > ks[k] ==> k < |t| && HeapButDown(t, k))
  {
    var n := |ks|;
    var t := Swapped(ks, k, n - 1)[..n - 1];
    forall i | 0 < i < |t|
      ensures ks[n - 1] == ks[k] ==> Follows(t, i)
      ensures ks[n - 1] < ks[k] && i != k ==> Follows(t, i)
      ensures ks[n - 1] > ks[k] && (i - 1) / 2 != k ==> Follows(t, i)
    {
      assert Follows(ks, i);
    }
    if 0 < k < n - 1 {
      assert Follows(ks, k);
      forall c | 2 * k + 1 <= c <= 2 * k + 2 && c < |t| ensures t[(k - 1) / 2] <= t[c] {
        assert Follows(ks, c);
      }
    }
  }

  /** A key no larger than its children closes the gap of a sift down. */
  lemma SettledBelow(ks: seq<nat>, k: nat)
    requires k < |ks| && HeapButDown(ks, k)
    requires forall c :: 2 * k + 1 <= c <= 2 * k + 2 && c < |ks| ==> ks[k] <= ks[c]
    ensures MinHeap(ks)
  {
    forall i | 0 < i < |ks| ensures Follows(ks, i) {
      if (i - 1) / 2 == k {
        assert ks[k] <= ks[i];
      }
    }
  }

  lemma RootIsMinimum(ks: seq<nat>, i: nat)
    requires MinHeap(ks) && i < |ks|
    ensures ks[0] <= ks[i]
  {
    if i > 0 {
      assert Follows(ks, i);
      RootIsMinimum(ks, (i - 1) / 2);
    }
  }

  /** m lies on the chain of right children that starts at p. */
  ghost predicate RightSpine(p: nat, m: nat)
    decreases m - p
  {
    p == m || (2 * p + 2 <= m && RightSpine(2 * p + 2, m))
  }

  /** m lies on the chain of left children that starts at p. */
  ghost predicate LeftSpine(p: nat, m: nat)
    decreases m - p
  {
    p == m || (2 * p + 1 <= m && LeftSpine(2 * p + 1, m))
  }

  /** The slot after a right spine's end is reached by the left spine of the next node. */
  lemma {:induction false} NextSlot(p: nat, m: nat)
    requires RightSpine(p, m)
    ensures LeftSpine(p + 1, m + 1)
    decreases m - p
  {
    if p != m {
      NextSlot(2 * p + 2, m);
    }
  }

  lemma {:induction false} PreviousSlot(p: nat, m: nat)
    requires 0 < p && LeftSpine(p, m)
    ensures RightSpine(p - 1, m - 1)
    decreases m - p
  {
    if p != m {
      PreviousSlot(2 * p + 1, m);
    }
  }
}

/** The heap itself: methods that relink nodes in place. */
module SchedulerHeap {
  import opened ThreadNode
  import opened LevelOrder
  import opened WakeOrder
  import opened Sequences

  ghost function View(m: set<Node>): Shape
    reads m
  {
    Shape(Ups(m), Lefts(m), Rights(m))
  }

  // ---------------------------------------------------------------- swap_nodes, link by link

  method SetLinks(n: Node, p: Node?, l: Node?, r: Node?, ghost m: set<Node>)
    requires n in m
    modifies n`parent, n`lchild, n`rchild
    ensures Ups(m) == old(Ups(m))[n := p]
    ensures Lefts(m) == old(Lefts(m))[n := l]
    ensures Rights(m) == old(Rights(m))[n := r]
  {
    n.parent := p;
    n.lchild := l;
    n.rchild := r;
  }

  /** Children that are there get a new parent. */
  method Reparent(l: Node?, r: Node?, p: Node, ghost m: set<Node>)
    requires (l != null ==> l in m) && (r != null ==> r in m)
    modifies m`parent
    ensures Ups(m) == Reparented(old(Ups(m)), l, r, p)
    ensures Lefts(m) == old(Lefts(m)) && Rights(m) == old(Rights(m))
  {
    if l != null { l.parent := p; }
    if r != null { r.parent := p; }
  }

  /** The parent's link to a becomes a link to b. */
  method ReplaceChild(p: Node?, a: Node, b: Node, ghost m: set<Node>)
    requires p != null ==> p in m
    modifies m`lchild, m`rchild
    ensures Ups(m) == old(Ups(m))
    ensures Lefts(m) == Put(old(Lefts(m)), p, p != null && old(p.lchild) == a, b)
    ensures Rights(m) == Put(old(Rights(m)), p, p != null && old(p.lchild) != a, b)
  {
    if p != null {
      if p.lchild == a { p.lchild := b; } else { p.rchild := b; }
    }
  }

  /** The parent's children change sides. */
  method SwapChildren(p: Node, ghost m: set<Node>)
    requires p in m
    modifies p`lchild, p`rchild
    ensures Ups(m) == old(Ups(m))
    ensures Lefts(m) == old(Lefts(m))[p := old(p.rchild)]
    ensures Rights(m) == old(Rights(m))[p := old(p.lchild)]
  {
    p.lchild, p.rchild := p.rchild, p.lchild;
  }

  /** The branch of the swap in which node1 is the parent of node2. */
  method SwapWithChild(node1: Node, node2: Node, ghost m: set<Node>)
    requires node1 in m && node2 in m && Around(View(m), node1) && Around(View(m), node2)
    requires node2.parent == node1 && node1.parent != node2
    modifies m`parent, m`lchild, m`rchild
    ensures View(m) == TradedShape(old(View(m)), node1, node2)
  {
    hide TradedField;
    ChildUps(View(m), node1, node2);
    ChildSides(View(m), node1, node2);
    var p1, l1, r1 := node1.parent, node1.lchild, node1.rchild;
    var l2, r2 := node2.lchild, node2.rchild;

    SetLinks(node1, node2, l2, r2, m);
    if l1 == node2 {
      SetLinks(node2, p1, node1, r1, m);
      Reparent(r1, null, node2, m);
    } else {
      SetLinks(node2, p1, l1, node1, m);
      Reparent(l1, null, node2, m);
    }
    ReplaceChild(p1, node1, node2, m);
    Reparent(l2, r2, node1, m);
  }

  /** The branch in which neither node is the parent of the other. */
  method SwapUnrelated(node1: Node, node2: Node, ghost m: set<Node>)
    requires node1 in m && node2 in m && Around(View(m), node1) && Around(View(m), node2)
    requires node1 != node2 && node2.parent != node1 && node1.parent != node2
    modifies m`parent, m`lchild, m`rchild
    ensures View(m) == TradedShape(old(View(m)), node1, node2)
  {
    var p1, l1, r1 := node1.parent, node1.lchild, node1.rchild;
    var p2, l2, r2 := node2.parent, node2.lchild, node2.rchild;
    UnrelatedShape(View(m), node1, node2);

    SetLinks(node1, p2, l2, r2, m);
    SetLinks(node2, p1, l1, r1, m);
    Reparent(l1, r1, node2, m);
    Reparent(l2, r2, node1, m);
    RelinkParents(p1, p2, node1, node2, m);
  }

  /** The two parents' links follow the exchange, also when the nodes are siblings. */
  method RelinkParents(p1: Node?, p2: Node?, node1: Node, node2: Node, ghost m: set<Node>)
    requires (p1 != null ==> p1 in m) && (p2 != null ==> p2 in m)
    modifies m`lchild, m`rchild
    ensures Ups(m) == old(Ups(m))
    ensures Lefts(m) == Relinked(old(Lefts(m)), p1, p2, if p1 == null then null else old(p1.rchild),
                                 p1 != null && old(p1.lchild) == node1, node1, p2 != null && old(p2.lchild) == node2, node2)
    ensures Rights(m) == Relinked(old(Rights(m)), p1, p2, if p1 == null then null else old(p1.lchild),
                                  p1 != null && old(p1.lchild) != node1, node1, p2 != null && old(p2.lchild) != node2, node2)
  {
    if p1 != null || p2 != null {
      if p1 == p2 {
        SwapChildren(p1, m);
      } else {
        ReplaceChild(p1, node1, node2, m);
        assert p2 != null ==> p2.lchild == Lefts(m)[p2] == old(Lefts(m))[p2];
        ReplaceChild(p2, node2, node1, m);
      }
    }
  }

  /** The members of m are linked as a complete tree whose level order is s. */
  ghost predicate TreeOf(s: seq<Node>, m: set<Node>)
    reads m
  {
    Pos(s).Keys == m && Tree(s, Pos(s), View(m))
  }

  lemma TreeIsOf(s: seq<Node>, pos: map<Node, nat>, m: set<Node>)
    requires pos.Keys == m && Tree(s, pos, View(m))
    ensures TreeOf(s, m)
  {
    PosIsUnique(s, pos);
  }

  lemma Links(s: seq<Node>, m: set<Node>, i: int)
    requires TreeOf(s, m) && 0 <= i < |s|
    ensures s[i] in m
    ensures s[i].parent == (if i == 0 then null else s[(i - 1) / 2])
    ensures s[i].lchild == At(s, 2 * i + 1)
    ensures s[i].rchild == At(s, 2 * i + 2)
  {
    var pos := Pos(s);
    assert Linked(s, View(m), i);
  }

  lemma Positions(s: seq<Node>, m: set<Node>, i: int, j: int)
    requires TreeOf(s, m) && 0 <= i < |s| && 0 <= j < |s| && s[i] == s[j]
    ensures i == j
  {
    var pos := Pos(s);
    assert pos[s[i]] == pos[s[j]];
  }

  lemma Position(s: seq<Node>, m: set<Node>, x: Node) returns (i: nat)
    requires TreeOf(s, m) && x in m
    ensures i < |s| && s[i] == x
  {
    var pos := Pos(s);
    i := pos[x];
  }

  /** The relinking transposes two positions of the level order. */
  method SwapLinks(n1: Node, n2: Node, ghost s: seq<Node>, ghost m: set<Node>, ghost i: nat, ghost j: nat)
    requires TreeOf(s, m) && i < |s| && j < |s| && s[i] == n1 && s[j] == n2 && i != j
    modifies m`parent, m`lchild, m`rchild
    ensures TreeOf(Swapped(s, i, j), m)
  {
    ghost var pos := Pos(s);
    ghost var pos': map<Node, nat> := pos[n1 := j][n2 := i];
    TreeIsMutual(s, pos, View(m), i);
    TreeIsMutual(s, pos, View(m), j);
    TradeTransposes(s, pos, View(m), i, j);
    TradeIsSymmetric(View(m), n1, n2);
    assert Linked(s, View(m), i) && Linked(s, View(m), j);

    var node1, node2 := n1, n2;
    if node2 == node1.parent {
      node1, node2 := node2, node1;
    }
    if node1 == node2.parent {
      SwapWithChild(node1, node2, m);
    } else {
      SwapUnrelated(node1, node2, m);
    }
    TreeIsOf(Swapped(s, i, j), pos', m);
  }

  // ---------------------------------------------------------------- the heap object

  /** The wake times in level order. */
  ghost function Keys(s: seq<Node>): (ks: seq<nat>)
    reads s
    ensures |ks| == |s| && forall i :: 0 <= i < |s| ==> ks[i] == s[i].wakeTime
  {
    seq(|s|, i requires 0 <= i < |s| reads s => s[i].wakeTime)
  }

  lemma SwappedKeys(s: seq<Node>, i: nat, j: nat)
    requires i < |s| && j < |s|
    ensures Keys(Swapped(s, i, j)) == Swapped(Keys(s), i, j)
  {
  }

  twostate lemma KeysFrame(s: seq<Node>)
    requires forall x :: x in s ==> x.wakeTime == old(x.wakeTime)
    ensures Keys(s) == old(Keys(s))
  {
  }

  class Heap {
    var root: Node?
    var last: Node?
    ghost var members: set<Node>
    ghost var nodes: seq<Node>       // the members in level order

    constructor ()
      ensures Valid() && members == {}
    {
      root, last, members, nodes := null, null, {}, [];
    }

    ghost predicate Complete()
      reads this, members
    {
      TreeOf(nodes, members) && root == At(nodes, 0) && last == At(nodes, |nodes| - 1)
    }

    ghost predicate Valid()
      reads this, members
    {
      Complete() && MinHeap(Keys(nodes))
    }

    /** An exact transposition of two tree positions. */
    method SwapNodes(node1: Node, node2: Node, ghost i: nat, ghost j: nat)
      requires Complete() && i < |nodes| && j < |nodes| && nodes[i] == node1 && nodes[j] == node2
      modifies this`root, this`last, this`nodes, members`parent, members`lchild, members`rchild
      ensures Complete()
      ensures nodes == Swapped(old(nodes), i, j)
      ensures Keys(nodes) == Swapped(old(Keys(nodes)), i, j)
    {
      hide TreeOf;
      SwappedKeys(nodes, i, j);
      if node1 == node2 {
        Positions(nodes, members, i, j);
        assert Swapped(nodes, i, j) == nodes;
      } else {
        EndsAfterSwap(nodes, members, i, j);
        SwapLinks(node1, node2, nodes, members, i, j);
        SwapEnds(node1, node2);
        nodes := Swapped(nodes, i, j);
        KeysFrame(nodes);
      }
    }

    /** Root and last follow the exchange of two nodes. */
    method SwapEnds(node1: Node, node2: Node)
      requires root != last && node1 != node2
      modifies this`root, this`last
      ensures root == Traded(old(root), node1, node2)
      ensures last == Traded(old(last), node1, node2)
    {
      var oldRoot, oldLast := root, last;
      if node1 == oldRoot { root := node2; } else if node1 == oldLast { last := node2; }
      if node2 == oldRoot { root := node1; } else if node2 == oldLast { last := node1; }
    }

    // ---------------------------------------------------------------- push

    /** The walk from the last node to the parent of the next free slot. */
    method FindSlot() returns (parent: Node)
      requires Complete() && |nodes| > 0
      ensures parent == nodes[(|nodes| - 1) / 2]
    {
      hide TreeOf;
      ghost var n := |nodes|;
      ghost var p := n - 1;
      parent := last;
      var temp := parent.parent;
      while temp != null && parent == temp.rchild
        invariant 0 <= p < n && parent == nodes[p] && temp == parent.parent
        invariant RightSpine(p, n - 1)
        decreases p
      {
        Links(nodes, members, p);
        Links(nodes, members, (p - 1) / 2);
        SamePosition(nodes, members, p, 2 * ((p - 1) / 2) + 2);
        p := (p - 1) / 2;
        parent := temp;
        temp := parent.parent;
      }
      NextSlot(p, n - 1);
      Links(nodes, members, p);
      if temp != null {
        Links(nodes, members, (p - 1) / 2);
      }
      if temp != null && temp.rchild == null {
        parent := temp;
      } else {
        if temp != null {
          parent := temp.rchild;
          p := p + 1;
        }
        parent := Leftmost(parent, p);
      }
    }

    /** Down the left spine to its end. */
    method Leftmost(start: Node, ghost from: nat) returns (parent: Node)
      requires Complete() && from < |nodes| && start == nodes[from] && LeftSpine(from, |nodes|)
      ensures parent == nodes[(|nodes| - 1) / 2]
    {
      hide TreeOf;
      ghost var q := from;
      parent := start;
      var temp := parent.lchild;
      while temp != null
        invariant 0 <= q < |nodes| && parent == nodes[q] && temp == parent.lchild
        invariant LeftSpine(q, |nodes|)
        decreases |nodes| - q
      {
        Links(nodes, members, q);
        q := 2 * q + 1;
        parent := temp;
        temp := parent.lchild;
      }
      Links(nodes, members, q);
    }

    /** The node becomes the last one. */
    method Append(parent: Node, node: Node)
      requires Complete() && |nodes| > 0 && parent == nodes[(|nodes| - 1) / 2] && node !in members
      modifies this`last, this`nodes, this`members, members`lchild, members`rchild, node`parent, node`lchild, node`rchild
      ensures Complete()
      ensures nodes == old(nodes) + [node] && members == old(members) + {node}
      ensures Keys(nodes) == old(Keys(nodes)) + [node.wakeTime]
    {
      hide TreeOf;
      AppendLinks(parent, node, nodes, members);
      last := node;
      nodes, members := nodes + [node], members + {node};
      KeysFrame(old(nodes));
      assert Keys(nodes) == Keys(old(nodes)) + [node.wakeTime];
    }

    /** Only the node at index i may be out of order, and only with respect to its parent. */
    ghost predicate Rising(node: Node, i: int)
      reads this, members
    {
      Complete() && 0 <= i < |nodes| && nodes[i] == node && HeapButUp(Keys(nodes), i)
    }

    /** Restores the order above the node at index k. */
    method SiftUp(node: Node, ghost k: nat)
      requires Rising(node, k)
      modifies this`root, this`last, this`nodes, members`parent, members`lchild, members`rchild
      ensures Valid()
    {
      hide TreeOf;
      ghost var i := k;
      Links(nodes, members, i);
      var parent := node.parent;
      while parent != null && node.wakeTime < parent.wakeTime
        invariant Rising(node, i)
        invariant parent == node.parent == if i == 0 then null else nodes[(i - 1) / 2]
        decreases i
      {
        SiftUpStep(Keys(nodes), i);
        SwapNodes(node, parent, i, (i - 1) / 2);
        i := (i - 1) / 2;
        Links(nodes, members, i);
        parent := node.parent;
      }
    }

    /** The node becomes a member, and the heap is in order again. */
    method Push(node: Node)
      requires Valid() && node.Unlinked() && node !in members
      modifies this, members`parent, members`lchild, members`rchild, node`parent, node`lchild, node`rchild
      ensures Valid() && members == old(members) + {node}
    {
      hide TreeOf;
      if root == null {
        node.parent, node.lchild, node.rchild := null, null, null;
        root := node;
        last := node;
        SingleTree(node);
        NoMembers(nodes, members);
        nodes, members := [node], {node};
      } else {
        var parent := FindSlot();
        AppendedOrder(Keys(nodes), node.wakeTime);
        Append(parent, node);
        SiftUp(node, |nodes| - 1);
      }
    }

    // ---------------------------------------------------------------- pop

    /** The walk from the last node to the one before it. */
    method PreviousOfLast() returns (prev: Node)
      requires Complete() && |nodes| > 1
      ensures prev == nodes[|nodes| - 2]
    {
      hide TreeOf;
      ghost var n := |nodes|;
      ghost var p := n - 1;
      prev := last;
      var temp := prev.parent;
      while temp != null && prev == temp.lchild
        invariant 0 <= p < n && prev == nodes[p] && temp == prev.parent
        invariant LeftSpine(p, n - 1)
        decreases p
      {
        Links(nodes, members, p);
        Links(nodes, members, (p - 1) / 2);
        SamePosition(nodes, members, p, 2 * ((p - 1) / 2) + 1);
        p := (p - 1) / 2;
        prev := temp;
        temp := prev.parent;
      }
      Links(nodes, members, p);
      if p > 0 {
        PreviousSlot(p, n - 1);
        Links(nodes, members, (p - 1) / 2);
        p := p - 1;
      } else {
        PreviousSlot(1, n - 1);
      }
      if temp != null {
        prev := temp.lchild;
      }
      prev := Rightmost(prev, p);
    }

    /** Down the right spine to its end. */
    method Rightmost(start: Node, ghost from: nat) returns (prev: Node)
      requires Complete() && |nodes| > 1 && from < |nodes| && start == nodes[from] && RightSpine(from, |nodes| - 2)
      ensures prev == nodes[|nodes| - 2]
    {
      hide TreeOf;
      ghost var q := from;
      prev := start;
      var temp := prev.rchild;
      while temp != null
        invariant 0 <= q < |nodes| && prev == nodes[q] && temp == prev.rchild
        invariant RightSpine(q, |nodes| - 2)
        decreases |nodes| - q
      {
        Links(nodes, members, q);
        q := 2 * q + 2;
        prev := temp;
        temp := prev.rchild;
      }
      Links(nodes, members, q);
    }

    /** The last node is forgotten. */
    method DropLast(node: Node)
      requires Complete() && |nodes| > 1 && node == last
      modifies this`last, this`nodes, this`members, members`parent, members`lchild, members`rchild
      ensures Complete() && node.Unlinked()
      ensures nodes == old(nodes)[..|old(nodes)| - 1] && members == old(members) - {node}
      ensures Keys(nodes) == old(Keys(nodes))[..|old(nodes)| - 1]
    {
      hide TreeOf;
      last := PreviousOfLast();
      DropLinks(node, nodes, members);
      nodes, members := nodes[..|nodes| - 1], members - {node};
      KeysFrame(old(nodes));
      assert Keys(nodes) == Keys(old(nodes))[..|old(nodes)| - 1];
    }

    /** Only the node at index i may be out of order, and only with respect to its children. */
    ghost predicate Sinking(node: Node, i: int)
      reads this, members
    {
      Complete() && 0 <= i < |nodes| && nodes[i] == node && HeapButDown(Keys(nodes), i)
    }

    /** Restores the order below the node at index k. */
    method SiftDown(node: Node, ghost k: nat)
      requires Sinking(node, k)
      modifies this`root, this`last, this`nodes, members`parent, members`lchild, members`rchild
      ensures Valid()
    {
      hide TreeOf;
      ghost var i := k;
      while true
        invariant Sinking(node, i)
        decreases |nodes| - i
      {
        Links(nodes, members, i);
        var lOk := node.lchild == null || node.wakeTime <= node.lchild.wakeTime;
        var rOk := node.rchild == null || node.wakeTime <= node.rchild.wakeTime;
        if lOk && rOk {
          SettledBelow(Keys(nodes), i);
          break;
        }
        var child :=
          if !lOk && !rOk then (if node.lchild.wakeTime < node.rchild.wakeTime then node.lchild else node.rchild)
          else if rOk then node.lchild else node.rchild;
        ghost var c := if child == node.lchild then 2 * i + 1 else 2 * i + 2;
        SiftDownStep(Keys(nodes), i, c);
        SwapNodes(node, child, i, c);
        i := c;
      }
    }

    /** Any member leaves, unlinked, and the heap of the others is in order. */
    method Pop(oldNode: Node)
      requires Valid() && oldNode in members
      modifies this, members`parent, members`lchild, members`rchild
      ensures Valid() && members == old(members) - {oldNode}
      ensures oldNode.Unlinked()
    {
      hide TreeOf;
      ghost var k := Position(nodes, members, oldNode);
      if root == last {
        SoleNode(nodes, members, oldNode);
        oldNode.parent, oldNode.lchild, oldNode.rchild := null, null, null;
        root := null;
        last := null;
        EmptyTree();
        nodes, members := [], {};
      } else {
        var fixNode := last;
        RemovedOrder(Keys(nodes), k);
        ghost var n := |nodes|;
        SwapNodes(oldNode, last, k, n - 1);
        DropLast(oldNode);
        if fixNode.wakeTime == oldNode.wakeTime {
        } else if fixNode.wakeTime < oldNode.wakeTime {
          SiftUp(fixNode, k);
        } else {
          SiftDown(fixNode, k);
        }
      }
    }

    method Front() returns (node: Node?)
      requires Valid()
      ensures node == null <==> members == {}
      ensures node != null ==> node in members && forall x :: x in members ==> node.wakeTime <= x.wakeTime
    {
      hide TreeOf;
      node := root;
      NoMembers(nodes, members);
      if root != null {
        Links(nodes, members, 0);
        forall x | x in members ensures root.wakeTime <= x.wakeTime {
          var i := Position(nodes, members, x);
          RootIsMinimum(Keys(nodes), i);
        }
      }
    }

    /** Removes a node that wakes first. */
    method PopFront() returns (node: Node?)
      requires Valid()
      modifies this, members`parent, members`lchild, members`rchild
      ensures Valid()
      ensures node == null <==> old(members) == {}
      ensures node == null ==> members == old(members)
      ensures node != null ==>
                && node in old(members) && members == old(members) - {node} && node.Unlinked()
                && forall x :: x in old(members) ==> node.wakeTime <= x.wakeTime
    {
      hide TreeOf;
      node := Front();
      if node != null {
        Pop(node);
      }
    }
  }

  lemma SoleNode(s: seq<Node>, m: set<Node>, x: Node)
    requires TreeOf(s, m) && x in m && s[0] == s[|s| - 1]
    ensures s == [x] && m == {x}
  {
    Positions(s, m, 0, |s| - 1);
    var i := Position(s, m, x);
    forall y | y in m ensures y == x {
      var j := Position(s, m, y);
    }
  }

  lemma EmptyTree()
    ensures TreeOf([], {})
  {
  }

  method DropLinks(node: Node, ghost s: seq<Node>, ghost m: set<Node>)
    requires TreeOf(s, m) && |s| > 1 && node == s[|s| - 1]
    modifies m`parent, m`lchild, m`rchild
    ensures TreeOf(s[..|s| - 1], m - {node}) && node.Unlinked()
  {
    hide TreeOf;
    hide Tree;
    hide Put;
    hide Ups;
    hide Lefts;
    hide Rights;
    ghost var m' := m - {node};
    DroppedView(s, m);
    Links(s, m, |s| - 1);
    Links(s, m, (|s| - 2) / 2);
    DetachChild(node.parent, node, m');
    ClearLinks(node, m');
    TreeIsOf(s[..|s| - 1], Pos(s) - {node}, m');
  }

  lemma DroppedView(s: seq<Node>, m: set<Node>)
    requires TreeOf(s, m) && |s| > 1
    ensures var node, p := s[|s| - 1], s[(|s| - 2) / 2];
            var m' := m - {node};
            && (Pos(s) - {node}).Keys == m' && p in m'
            && Tree(s[..|s| - 1], Pos(s) - {node},
                    Shape(Ups(m'), Put(Lefts(m'), p, p.rchild != node, null), Put(Rights(m'), p, p.rchild == node, null)))
  {
    var node, p := s[|s| - 1], s[(|s| - 2) / 2];
    Links(s, m, |s| - 1);
    Links(s, m, (|s| - 2) / 2);
    SamePosition(s, m, |s| - 1, (|s| - 2) / 2);
    DroppedTree(s, Pos(s), View(m));
    FieldsOfFewer(m, node);
  }

  lemma FieldsOfFewer(m: set<Node>, x: Node)
    ensures Ups(m - {x}) == Ups(m) - {x}
    ensures Lefts(m - {x}) == Lefts(m) - {x}
    ensures Rights(m - {x}) == Rights(m) - {x}
  {
  }

  /** A parent forgets the child. */
  method DetachChild(parent: Node?, node: Node, ghost m: set<Node>)
    requires parent != null ==> parent in m
    modifies m`lchild, m`rchild
    ensures Ups(m) == old(Ups(m))
    ensures Lefts(m) == Put(old(Lefts(m)), parent, parent != null && old(parent.rchild) != node, null)
    ensures Rights(m) == Put(old(Rights(m)), parent, parent != null && old(parent.rchild) == node, null)
  {
    if parent != null {
      if node == parent.rchild {
        parent.rchild := null;
      } else {
        parent.lchild := null;
      }
    }
  }

  method ClearLinks(node: Node, ghost others: set<Node>)
    requires node !in others
    modifies node`parent, node`lchild, node`rchild
    ensures node.Unlinked()
    ensures Ups(others) == old(Ups(others)) && Lefts(others) == old(Lefts(others)) && Rights(others) == old(Rights(others))
  {
    node.parent := null;
    node.lchild := null;
    node.rchild := null;
  }

  lemma SamePosition(s: seq<Node>, m: set<Node>, i: int, j: int)
    requires TreeOf(s, m) && 0 <= i < |s|
    ensures At(s, j) == s[i] <==> i == j
  {
    if 0 <= j < |s| && s[i] == s[j] {
      Positions(s, m, i, j);
    }
  }

  lemma SingleTree(node: Node)
    requires node.Unlinked()
    ensures TreeOf([node], {node})
  {
    assert [node][0] == node;
    var pos: map<Node, nat> := map[node := 0];
    assert Linked([node], View({node}), 0);
    TreeIsOf([node], pos, {node});
  }

  lemma NoMembers(s: seq<Node>, m: set<Node>)
    requires TreeOf(s, m)
    ensures s == [] <==> m == {}
  {
    if s != [] {
      Links(s, m, 0);
    }
    if x :| x in m {
      var i := Position(s, m, x);
    }
  }

  method AppendLinks(parent: Node, node: Node, ghost s: seq<Node>, ghost m: set<Node>)
    requires TreeOf(s, m) && |s| > 0 && parent == s[(|s| - 1) / 2] && node !in m
    modifies m`lchild, m`rchild, node`parent, node`lchild, node`rchild
    ensures TreeOf(s + [node], m + {node})
  {
    hide TreeOf;
    hide Tree;
    hide Put;
    hide Ups;
    hide Lefts;
    hide Rights;
    ghost var m' := m + {node};
    AppendedView(s, m, node);
    Links(s, m, (|s| - 1) / 2);
    AttachChild(parent, node, m');
    SetLinks(node, parent, null, null, m');
    TreeIsOf(s + [node], Pos(s)[node := |s|], m');
  }

  lemma AppendedView(s: seq<Node>, m: set<Node>, node: Node)
    requires TreeOf(s, m) && |s| > 0 && node !in m
    ensures var p, m' := s[(|s| - 1) / 2], m + {node};
            && Pos(s)[node := |s|].Keys == m'
            && Tree(s + [node], Pos(s)[node := |s|],
                    Shape(Ups(m')[node := p],
                          Put(Lefts(m'), p, p.lchild == null, node)[node := null],
                          Put(Rights(m'), p, p.lchild != null, node)[node := null]))
  {
    var p := s[(|s| - 1) / 2];
    Links(s, m, (|s| - 1) / 2);
    AppendedTree(s, Pos(s), View(m), node);
    FieldsOfMore(m, node, p, p.lchild == null);
  }

  /** The parent gets the node as its left child, or as its right one if it has a left one. */
  method AttachChild(parent: Node, node: Node, ghost m: set<Node>)
    requires parent in m
    modifies parent`lchild, parent`rchild
    ensures Ups(m) == old(Ups(m))
    ensures Lefts(m) == Put(old(Lefts(m)), parent, old(parent.lchild) == null, node)
    ensures Rights(m) == Put(old(Rights(m)), parent, old(parent.lchild) != null, node)
  {
    if parent.lchild != null {
      parent.rchild := node;
    } else {
      parent.lchild := node;
    }
  }

  lemma FieldsOfMore(m: set<Node>, x: Node, p: Node, c: bool)
    requires x !in m && p in m
    ensures Ups(m + {x})[x := p] == Ups(m)[x := p]
    ensures Put(Lefts(m + {x}), p, c, x)[x := null] == Put(Lefts(m), p, c, x)[x := null]
    ensures Put(Rights(m + {x}), p, !c, x)[x := null] == Put(Rights(m), p, !c, x)[x := null]
  {
  }

  lemma EndsAfterSwap(s: seq<Node>, m: set<Node>, i: nat, j: nat)
    requires TreeOf(s, m) && i < |s| && j < |s| && s[i] != s[j]
    ensures s[0] != s[|s| - 1]
    ensures Traded(s[0], s[i], s[j]) == Swapped(s, i, j)[0]
    ensures Traded(s[|s| - 1], s[i], s[j]) == Swapped(s, i, j)[|s| - 1]
  {
    var pos := Pos(s);
    TradedAt(s, pos, i, j, 0);
    TradedAt(s, pos, i, j, |s| - 1);
  }
}

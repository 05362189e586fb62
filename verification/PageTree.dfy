/**
  Four-level x86_64 page tables as values (Intel SDM volume 3A, section 4.5): physical frames
  that hold tables, the place of every table in the radix tree, and the flat map from page
  numbers to entries that the tree stands for.
 */
module PageTree {

  import opened PageEntry

  type Memory = map<Frame, seq<Entry>>

  // ---------------------------------------------------------------- places in the tree

  /** The table of the given level (1 is a page table, 4 the PML4) that serves pages prefix * 512^level onwards. */
  datatype NodeId = Node(level: nat, prefix: nat)

  const ROOT := Node(4, 0)

  function Up(n: NodeId): NodeId {
    Node(n.level + 1, n.prefix / 512)
  }

  /** PML4 slots that belong to a table: the lower half for a process, the last one for the kernel. */
  predicate OwnSlot(kernel: bool, slot: nat) {
    if kernel then slot == 511 else slot < 256
  }

  /** The page lies in the part of the address space that the table owns. */
  predicate OwnPage(kernel: bool, page: nat) {
    OwnSlot(kernel, page / 512 / 512 / 512)
  }

  predicate OwnNode(kernel: bool, n: NodeId) {
    match n.level
    case 1 => OwnSlot(kernel, n.prefix / 512 / 512)
    case 2 => OwnSlot(kernel, n.prefix / 512)
    case 3 => OwnSlot(kernel, n.prefix)
    case _ => false
  }

  /** The tables of one page table, and where each of them is. */
  datatype Tree = Tree(mem: Memory, at: map<NodeId, Frame>, id: map<Frame, NodeId>)

  ghost predicate Mutual(at: map<NodeId, Frame>, id: map<Frame, NodeId>) {
    && (forall n :: n in at ==> at[n] in id && id[at[n]] == n)
    && (forall f :: f in id ==> id[f] in at && at[id[f]] == f)
  }

  ghost predicate Placed(t: Tree) {
    && ROOT in t.at
    && Mutual(t.at, t.id)
    && t.mem.Keys == t.id.Keys
    && (forall f :: f in t.mem ==> Aligned(f) && |t.mem[f]| == 512)
  }

  /** Entry i of a table. */
  ghost function EntryOf(t: Tree, n: NodeId, i: nat): Entry
    requires Placed(t) && n in t.at && i < 512
  {
    t.mem[t.at[n]][i]
  }

  /** The entry of a node's parent that stands for the node. */
  ghost function Slot(t: Tree, n: NodeId): Entry
    requires Placed(t) && Up(n) in t.at
  {
    EntryOf(t, Up(n), n.prefix % 512)
  }

  /** A node is in the tree exactly when its parent is and has a present entry, which points to it. */
  ghost predicate Linked(t: Tree, n: NodeId)
    requires Placed(t)
  {
    && (n in t.at <==> Up(n) in t.at && Has(Slot(t, n), PRESENT))
    && (n in t.at ==> Target(Slot(t, n)) == t.at[n])
  }

  ghost predicate Valid(t: Tree, kernel: bool) {
    && Placed(t)
    && (forall n :: OwnNode(kernel, n) ==> Linked(t, n))
    && (forall n :: n in t.at ==> n == ROOT || OwnNode(kernel, n))
  }

  // ---------------------------------------------------------------- the flat map

  /** The entry that get_page_data finds for a page, or 0. */
  ghost function Flat(t: Tree, page: nat): Entry
    requires Placed(t)
  {
    var n := Node(1, page / 512);
    if n in t.at && Has(EntryOf(t, n, page % 512), USED) then EntryOf(t, n, page % 512) else 0
  }

  /** Nothing changes for any page but one. */
  ghost predicate SameBut(t: Tree, t': Tree, page: int)
    requires Placed(t) && Placed(t')
  {
    forall p: nat :: p != page ==> Flat(t', p) == Flat(t, p)
  }

  // ---------------------------------------------------------------- changing one table

  /** The tree after a write to entry i of the table at n. */
  ghost function Write(t: Tree, n: NodeId, i: nat, e: Entry): (r: Tree)
    requires Placed(t) && n in t.at && i < 512
    ensures Placed(r) && r.at == t.at && r.id == t.id && r.mem.Keys == t.mem.Keys
  {
    hide Aligned;
    var f := t.at[n];
    Tree(t.mem[f := t.mem[f][i := e]], t.at, t.id)
  }

  lemma WriteEntry(t: Tree, n: NodeId, i: nat, e: Entry, m: NodeId, j: nat)
    requires Placed(t) && n in t.at && i < 512 && m in t.at && j < 512
    ensures EntryOf(Write(t, n, i, e), m, j) == if m == n && j == i then e else EntryOf(t, m, j)
  {
    hide Aligned;
    assert t.id[t.at[n]] == n && t.id[t.at[m]] == m;
  }

  lemma MutualGrows(at: map<NodeId, Frame>, id: map<Frame, NodeId>, n: NodeId, f: Frame)
    requires Mutual(at, id) && n !in at && f !in id
    ensures Mutual(at[n := f], id[f := n])
  {
  }

  /** The tree after a zeroed frame has become the table at n, not linked yet. */
  ghost function Zeroed(t: Tree, n: NodeId, f: Frame): (r: Tree)
    requires Placed(t) && n !in t.at && f !in t.mem && Aligned(f)
    ensures Placed(r) && r.at == t.at[n := f] && r.mem.Keys == t.mem.Keys + {f}
  {
    hide Aligned;
    hide Mutual;
    MutualGrows(t.at, t.id, n, f);
    Tree(t.mem[f := seq(512, _ => 0)], t.at[n := f], t.id[f := n])
  }

  lemma ZeroedEntry(t: Tree, n: NodeId, f: Frame, m: NodeId, j: nat)
    requires Placed(t) && n !in t.at && f !in t.mem && Aligned(f) && (m in t.at || m == n) && j < 512
    ensures EntryOf(Zeroed(t, n, f), m, j) == if m == n then 0 else EntryOf(t, m, j)
  {
    hide Aligned;
    if m != n {
      assert t.at[m] in t.mem && t.at[m] != f;
    }
  }

  lemma SameDigits(a: nat, b: nat)
    requires a / 512 == b / 512 && a % 512 == b % 512
    ensures a == b
  {
  }

  /** The entries of all nodes after the entry of n has changed. */
  lemma SlotAfter(t: Tree, n: NodeId, k: NodeId, e: Entry)
    requires Placed(t) && Up(n) in t.at && Up(k) in t.at
    ensures Slot(Write(t, Up(n), n.prefix % 512, e), k) == if k == n then e else Slot(t, k)
  {
    hide Placed;
    hide EntryOf;
    hide Write;
    WriteEntry(t, Up(n), n.prefix % 512, e, Up(k), k.prefix % 512);
    if Up(k) == Up(n) && k.prefix % 512 == n.prefix % 512 {
      SameDigits(k.prefix, n.prefix);
    }
  }

  /** Changing an inner table leaves the flat map alone. */
  lemma InnerWrite(t: Tree, n: NodeId, i: nat, e: Entry)
    requires Placed(t) && n in t.at && n.level > 1 && i < 512
    ensures SameBut(t, Write(t, n, i, e), -1)
  {
    hide Placed;
    hide EntryOf;
    hide Write;
    hide Has;
    forall p: nat ensures Flat(Write(t, n, i, e), p) == Flat(t, p) {
      if Node(1, p / 512) in t.at {
        WriteEntry(t, n, i, e, Node(1, p / 512), p % 512);
      }
    }
  }

  /** An unlinked zeroed table leaves the flat map alone. */
  lemma ZeroedFlat(t: Tree, n: NodeId, f: Frame)
    requires Placed(t) && n !in t.at && f !in t.mem && Aligned(f)
    ensures SameBut(t, Zeroed(t, n, f), -1)
  {
    hide Placed;
    hide EntryOf;
    hide Zeroed;
    hide Aligned;
    forall p: nat ensures Flat(Zeroed(t, n, f), p) == Flat(t, p) {
      if Node(1, p / 512) in t.at || Node(1, p / 512) == n {
        ZeroedEntry(t, n, f, Node(1, p / 512), p % 512);
      }
    }
  }

  lemma OwnLevel(kernel: bool, n: NodeId)
    requires OwnNode(kernel, n)
    ensures 1 <= n.level <= 3
  {
  }

  // ---------------------------------------------------------------- steps of the tree

  /** Adding flag bits to a present entry of an inner table changes nothing. */
  lemma FlagsAdded(t: Tree, kernel: bool, n: NodeId, flags: bv64)
    requires Valid(t, kernel) && OwnNode(kernel, n) && n in t.at && FlagsOnly(flags)
    ensures Up(n) in t.at
    ensures var t' := Write(t, Up(n), n.prefix % 512, WithFlags(Slot(t, n), flags));
            Valid(t', kernel) && SameBut(t, t', -1)
  {
    hide Target;
    hide FlagsOnly;
    hide WithFlags;
    hide Placed;
    hide OwnNode;
    hide Has;
    hide Write;
    hide Slot;
    assert Linked(t, n);
    OwnLevel(kernel, n);
    var e := WithFlags(Slot(t, n), flags);
    InnerWrite(t, Up(n), n.prefix % 512, e);
    MoreBits(Slot(t, n), flags);
    forall k | OwnNode(kernel, k) ensures Linked(Write(t, Up(n), n.prefix % 512, e), k) {
      assert Linked(t, k);
      if Up(k) in t.at {
        SlotAfter(t, n, k, e);
      }
    }
  }

  /** The tree after the allocation of a table below a parent that had no present entry for it. */
  ghost function WithChild(t: Tree, n: NodeId, f: Frame, flags: bv64): (r: Tree)
    requires Placed(t) && Up(n) in t.at && n !in t.at && f !in t.mem && Aligned(f)
    ensures Placed(r) && r.at == t.at[n := f] && r.mem.Keys == t.mem.Keys + {f}
  {
    Write(Zeroed(t, n, f), Up(n), n.prefix % 512, WithFlags(f.addr, flags))
  }

  lemma ChildSlot(t: Tree, n: NodeId, f: Frame, flags: bv64, k: NodeId)
    requires Placed(t) && Up(n) in t.at && n !in t.at && f !in t.mem && Aligned(f)
    requires Up(k) in t.at || Up(k) == n
    ensures Slot(WithChild(t, n, f, flags), k)
         == if k == n then WithFlags(f.addr, flags) else if Up(k) == n then 0 else Slot(t, k)
  {
    hide Target;
    hide FlagsOnly;
    hide WithFlags;
    hide Placed;
    hide EntryOf;
    hide Write;
    hide Zeroed;
    hide Aligned;
    SlotAfter(Zeroed(t, n, f), n, k, WithFlags(f.addr, flags));
    ZeroedEntry(t, n, f, Up(k), k.prefix % 512);
  }

  /** Allocating a table changes no page's entry, and keeps the tree well formed. */
  lemma ChildAdded(t: Tree, kernel: bool, n: NodeId, f: Frame, flags: bv64)
    requires Valid(t, kernel) && OwnNode(kernel, n) && Up(n) in t.at && n !in t.at && f !in t.mem && Aligned(f)
    requires FlagsOnly(flags) && Has(flags, PRESENT)
    ensures Valid(WithChild(t, n, f, flags), kernel)
  {
    hide Has;
    hide Target;
    hide FlagsOnly;
    hide WithFlags;
    hide Placed;
    hide OwnNode;
    hide Slot;
    hide WithChild;
    hide Aligned;
    var t' := WithChild(t, n, f, flags);
    EntryBits(f, flags);
    ZeroBits();
    forall k | OwnNode(kernel, k) ensures Linked(t', k) {
      assert Linked(t, k);
      if Up(k) in t.at || Up(k) == n {
        ChildSlot(t, n, f, flags, k);
      }
    }
  }

  lemma ChildFlat(t: Tree, n: NodeId, f: Frame, flags: bv64)
    requires Placed(t) && Up(n) in t.at && n !in t.at && f !in t.mem && Aligned(f) && n.level >= 1
    ensures SameBut(t, WithChild(t, n, f, flags), -1)
  {
    hide Target;
    hide FlagsOnly;
    hide WithFlags;
    hide Placed;
    hide EntryOf;
    hide Write;
    hide Zeroed;
    hide Aligned;
    hide Flat;
    ZeroedFlat(t, n, f);
    InnerWrite(Zeroed(t, n, f), Up(n), n.prefix % 512, WithFlags(f.addr, flags));
  }

  /** Writing an entry of a page table changes that page and no other. */
  lemma LeafWritten(t: Tree, kernel: bool, page: nat, e: Entry)
    requires Valid(t, kernel) && Node(1, page / 512) in t.at
    ensures var t' := Write(t, Node(1, page / 512), page % 512, e);
            Valid(t', kernel) && SameBut(t, t', page) && Flat(t', page) == if Has(e, USED) then e else 0
  {
    hide Target;
    hide FlagsOnly;
    hide WithFlags;
    hide Placed;
    hide OwnNode;
    hide EntryOf;
    hide Write;
    hide Has;
    var leaf := Node(1, page / 512);
    var t' := Write(t, leaf, page % 512, e);
    forall k | OwnNode(kernel, k) ensures Linked(t', k) {
      assert Linked(t, k);
      OwnLevel(kernel, k);
      if Up(k) in t.at {
        WriteEntry(t, leaf, page % 512, e, Up(k), k.prefix % 512);
      }
    }
    WriteEntry(t, leaf, page % 512, e, leaf, page % 512);
    LeafFlat(t, page, e);
  }

  lemma LeafFlat(t: Tree, page: nat, e: Entry)
    requires Placed(t) && Node(1, page / 512) in t.at
    ensures SameBut(t, Write(t, Node(1, page / 512), page % 512, e), page)
  {
    hide Placed;
    hide EntryOf;
    hide Write;
    hide Has;
    var t' := Write(t, Node(1, page / 512), page % 512, e);
    forall p: nat | p != page ensures Flat(t', p) == Flat(t, p) {
      var k := Node(1, p / 512);
      if k in t.at {
        WriteEntry(t, Node(1, page / 512), page % 512, e, k, p % 512);
        if p / 512 == page / 512 && p % 512 == page % 512 {
          SameDigits(p, page);
        }
      }
    }
  }

  // ---------------------------------------------------------------- what an operation may change

  /** Tables stay where they are. */
  ghost predicate Grown(t: Tree, t': Tree) {
    forall n :: n in t.at ==> n in t'.at && t'.at[n] == t.at[n]
  }

  /** Going through an existing or a new table: only the set of tables may change. */
  ghost predicate Opened(t: Tree, t': Tree, kernel: bool) {
    Valid(t, kernel) && Valid(t', kernel) && SameBut(t, t', -1) && Grown(t, t')
  }

  lemma OpenedSelf(t: Tree, kernel: bool)
    requires Valid(t, kernel)
    ensures Opened(t, t, kernel)
  {
  }

  lemma OpenedKeeps(t: Tree, t': Tree, kernel: bool)
    requires Opened(t, t', kernel)
    ensures Valid(t, kernel) && Valid(t', kernel) && ROOT in t.at && ROOT in t'.at && t'.at[ROOT] == t.at[ROOT]
  {
    hide OwnNode;
  }

  lemma OpenedFlat(t: Tree, t': Tree, kernel: bool, page: nat)
    requires Opened(t, t', kernel)
    ensures Placed(t) && Placed(t') && SameBut(t, t', page) && Flat(t', page) == Flat(t, page)
  {
    hide OwnNode;
    hide Placed;
    hide Flat;
  }

  lemma OpenedTransitive(a: Tree, b: Tree, c: Tree, kernel: bool)
    requires Opened(a, b, kernel) && Opened(b, c, kernel)
    ensures Opened(a, c, kernel)
  {
    hide Placed;
    hide Flat;
    hide OwnNode;
    hide Linked;
  }

  lemma FlagsOpen(t: Tree, kernel: bool, n: NodeId, flags: bv64)
    requires Valid(t, kernel) && OwnNode(kernel, n) && n in t.at && FlagsOnly(flags)
    ensures Up(n) in t.at
    ensures Opened(t, Write(t, Up(n), n.prefix % 512, WithFlags(Slot(t, n), flags)), kernel)
  {
    hide OwnNode;
    hide Linked;
    hide Flat;
    hide Placed;
    hide Write;
    hide FlagsOnly;
    FlagsAdded(t, kernel, n, flags);
  }

  lemma ChildOpen(t: Tree, kernel: bool, n: NodeId, f: Frame, flags: bv64)
    requires Valid(t, kernel) && OwnNode(kernel, n) && Up(n) in t.at && n !in t.at && f !in t.mem && Aligned(f)
    requires FlagsOnly(flags) && Has(flags, PRESENT)
    ensures Opened(t, WithChild(t, n, f, flags), kernel)
  {
    hide OwnNode;
    hide Linked;
    hide Flat;
    hide Placed;
    hide WithChild;
    hide FlagsOnly;
    hide Aligned;
    OwnLevel(kernel, n);
    ChildAdded(t, kernel, n, f, flags);
    ChildFlat(t, n, f, flags);
  }

  /** What a walk reads about a node, given the frame of its parent. */
  lemma WalkStep(t: Tree, kernel: bool, n: NodeId)
    requires Valid(t, kernel) && OwnNode(kernel, n) && Up(n) in t.at
    ensures Placed(t) && t.at[Up(n)] in t.mem && |t.mem[t.at[Up(n)]]| == 512
    ensures t.mem[t.at[Up(n)]][n.prefix % 512] == Slot(t, n)
    ensures n in t.at <==> Has(Slot(t, n), PRESENT)
    ensures n in t.at ==> Target(Slot(t, n)) == t.at[n]
  {
    hide OwnNode;
    hide Aligned;
    assert Linked(t, n);
  }

  /** The table of some level on the way to a page. */
  function Table(level: nat, page: nat): NodeId {
    match level
    case 1 => Node(1, page / 512)
    case 2 => Node(2, page / 512 / 512)
    case 3 => Node(3, page / 512 / 512 / 512)
    case _ => ROOT
  }

  lemma Rooted(t: Tree, kernel: bool)
    requires Valid(t, kernel)
    ensures Placed(t) && ROOT in t.at
  {
  }

  lemma Digits(page: nat)
    ensures Table(1, page).prefix % 512 == page / 512 % 512
    ensures Table(2, page).prefix % 512 == page / 512 / 512 % 512
    ensures Table(3, page).prefix % 512 == page / 512 / 512 / 512 % 512
  {
  }

  lemma Path(kernel: bool, page: nat)
    requires OwnPage(kernel, page)
    ensures Up(Table(1, page)) == Table(2, page) && Up(Table(2, page)) == Table(3, page) && Up(Table(3, page)) == ROOT
    ensures OwnNode(kernel, Table(1, page)) && OwnNode(kernel, Table(2, page)) && OwnNode(kernel, Table(3, page))
  {
  }

  /** Opening tables and then writing a leaf entry changes one page. */
  lemma LeafAfterOpen(t: Tree, t1: Tree, kernel: bool, page: nat, e: Entry)
    requires Opened(t, t1, kernel) && Table(1, page) in t1.at
    ensures Placed(t) && Placed(t1)
    ensures var t' := Write(t1, Table(1, page), page % 512, e);
            && Valid(t', kernel)
            && SameBut(t, t', page)
            && Flat(t', page) == (if Has(e, USED) then e else 0)
            && Grown(t, t')
  {
    hide Placed;
    hide Flat;
    hide OwnNode;
    hide Linked;
    hide Has;
    hide Write;
    LeafWritten(t1, kernel, page, e);
  }

  /** What the last step of a walk reads. */
  lemma WalkEnd(t: Tree, kernel: bool, page: nat)
    requires Valid(t, kernel) && Table(1, page) in t.at
    ensures Placed(t) && t.at[Table(1, page)] in t.mem && |t.mem[t.at[Table(1, page)]]| == 512
    ensures var e := t.mem[t.at[Table(1, page)]][page % 512]; Flat(t, page) == if Has(e, USED) then e else 0
  {
    hide OwnNode;
    hide Aligned;
    hide Has;
  }

  /** A missing table on the way means an unused page. */
  lemma WalkStops(t: Tree, kernel: bool, page: nat, level: nat)
    requires Valid(t, kernel) && OwnPage(kernel, page) && 1 <= level <= 3 && Table(level, page) !in t.at
    ensures Placed(t) && Flat(t, page) == 0
  {
    hide Aligned;
    hide Has;
    hide Slot;
    Path(kernel, page);
    hide OwnNode;
    assert Linked(t, Table(1, page)) && Linked(t, Table(2, page));
  }

  /** A used page has all its tables. */
  lemma UsedPath(t: Tree, kernel: bool, page: nat)
    requires Valid(t, kernel) && OwnPage(kernel, page) && Flat(t, page) != 0
    ensures Table(3, page) in t.at && Table(2, page) in t.at && Table(1, page) in t.at
  {
    hide Valid;
    hide Flat;
    hide Table;
    hide OwnPage;
    forall level: nat | 1 <= level <= 3 ensures Table(level, page) in t.at {
      if Table(level, page) !in t.at {
        WalkStops(t, kernel, page, level);
      }
    }
  }

  // ---------------------------------------------------------------- reserving a run of pages

  /** Pages first to next - 1 become reserved, and nothing else changes. */
  ghost predicate Reserves(t: Tree, t': Tree, kernel: bool, first: nat, next: nat) {
    && Valid(t, kernel)
    && Valid(t', kernel)
    && Grown(t, t')
    && forall p: nat :: Flat(t', p) == if first <= p < next then RESERVED else Flat(t, p)
  }

  lemma ReservesNothing(t: Tree, t': Tree, kernel: bool, first: nat)
    requires Opened(t, t', kernel)
    ensures Reserves(t, t', kernel, first, first)
  {
    hide Placed;
    hide Flat;
    hide OwnNode;
    hide Linked;
  }

  lemma ReservesMore(a: Tree, b: Tree, c: Tree, kernel: bool, first: nat, middle: nat, next: nat)
    requires first <= middle <= next && Reserves(a, b, kernel, first, middle) && Reserves(b, c, kernel, middle, next)
    ensures Reserves(a, c, kernel, first, next)
  {
    hide Placed;
    hide Flat;
    hide OwnNode;
    hide Linked;
  }

  lemma ReservesOne(t: Tree, kernel: bool, page: nat)
    requires Valid(t, kernel) && Table(1, page) in t.at
    ensures Reserves(t, Write(t, Table(1, page), page % 512, RESERVED), kernel, page, page + 1)
  {
    hide Placed;
    hide Flat;
    hide OwnNode;
    hide Linked;
    hide Write;
    hide Table;
    assert Has(RESERVED, USED);
    OpenedSelf(t, kernel);
    LeafAfterOpen(t, t, kernel, page, RESERVED);
  }

  /** No page from first to last - 1 is used. */
  ghost predicate Unused(t: Tree, first: nat, last: nat) {
    Placed(t) && forall p: nat :: first <= p < last ==> Flat(t, p) == 0
  }

  lemma UnusedPart(t: Tree, first: nat, last: nat, end: nat)
    requires Unused(t, first, end) && last <= end
    ensures Unused(t, first, last)
  {
  }

  lemma EntryPlace(prefix: nat, pte: nat)
    requires pte < 512
    ensures Table(1, prefix * 512 + pte) == Node(1, prefix) && (prefix * 512 + pte) % 512 == pte
  {
  }

  lemma ReservesKeeps(t: Tree, t': Tree, kernel: bool, first: nat, next: nat)
    requires Reserves(t, t', kernel, first, next)
    ensures Valid(t, kernel) && Valid(t', kernel) && Grown(t, t') && Placed(t) && Placed(t')
    ensures ROOT in t.at && ROOT in t'.at && t'.at[ROOT] == t.at[ROOT]
  {
    hide Flat;
    hide OwnNode;
    hide Linked;
  }

  lemma ReservesRest(t: Tree, t': Tree, kernel: bool, first: nat, next: nat, last: nat)
    requires Reserves(t, t', kernel, first, next) && Unused(t, first, last) && first <= next
    ensures Unused(t', next, last)
  {
    hide Flat;
    hide OwnNode;
    hide Linked;
  }

  lemma OpenedUnused(t: Tree, t': Tree, kernel: bool, first: nat, last: nat)
    requires Opened(t, t', kernel) && Unused(t, first, last)
    ensures Unused(t', first, last)
  {
    hide Flat;
    hide OwnNode;
    hide Linked;
  }

  /** One round of a reserving loop: open the next table, then reserve inside it. */
  lemma ReserveRound(a: Tree, b: Tree, c: Tree, d: Tree, kernel: bool, first: nat, cursor: nat, next: nat, last: nat)
    requires first <= cursor <= next <= last
    requires Reserves(a, b, kernel, first, cursor) && Opened(b, c, kernel) && Reserves(c, d, kernel, cursor, next)
    requires Unused(c, cursor, last)
    ensures Reserves(a, d, kernel, first, next) && Unused(d, next, last)
  {
    hide Reserves;
    hide Opened;
    hide Unused;
    ReservesNothing(b, c, kernel, cursor);
    ReservesMore(a, b, c, kernel, first, cursor, cursor);
    ReservesMore(a, c, d, kernel, first, cursor, next);
    ReservesRest(c, d, kernel, cursor, next, last);
  }

  lemma Stays(t: Tree, t': Tree, kernel: bool, n: NodeId)
    requires Opened(t, t', kernel) && n in t.at
    ensures n in t'.at && t'.at[n] == t.at[n]
  {
    hide Valid;
    hide SameBut;
  }

  lemma StaysReserved(t: Tree, t': Tree, kernel: bool, first: nat, next: nat, n: NodeId)
    requires Reserves(t, t', kernel, first, next) && n in t.at
    ensures n in t'.at && t'.at[n] == t.at[n]
  {
    hide Valid;
    hide Flat;
  }

  // ---------------------------------------------------------------- children by index

  lemma ChildNode(kernel: bool, n: NodeId, i: nat)
    requires (OwnNode(kernel, n) && n.level >= 2) || (n == ROOT && OwnSlot(kernel, i))
    requires i < 512
    ensures var c := Node(n.level - 1, n.prefix * 512 + i);
            OwnNode(kernel, c) && Up(c) == n && c.prefix % 512 == i
  {
    assert (n.prefix * 512 + i) / 512 == n.prefix;
  }

  lemma Split(page: nat)
    ensures page == page / 512 / 512 / 512 * 0x8000000 + page / 512 / 512 % 512 * 0x40000 + page / 512 % 512 * 512 + page % 512
  {
  }

  /** The slots between two owned pages are owned. */
  lemma SlotBetween(kernel: bool, first: nat, last: nat, slot: nat, rest: nat)
    requires OwnPage(kernel, first) && OwnPage(kernel, last) && first <= slot * 0x8000000 + rest <= last && rest < 0x8000000
    ensures OwnSlot(kernel, slot) && slot < 512
  {
    assert first / 512 / 512 / 512 == first / 0x8000000 && last / 512 / 512 / 512 == last / 0x8000000;
  }

  lemma SmallSlot(kernel: bool, page: nat)
    requires OwnPage(kernel, page)
    ensures page / 512 / 512 / 512 % 512 == page / 512 / 512 / 512
  {
  }

  /** A page that is present or reserved. */
  ghost predicate IsUsed(t: Tree, page: nat)
    requires Placed(t)
  {
    Has(Flat(t, page), USED)
  }

  lemma UsedIsNonZero(t: Tree, page: nat)
    requires Placed(t)
    ensures IsUsed(t, page) <==> Flat(t, page) != 0
  {
    hide EntryOf;
    hide Placed;
    ZeroBits();
  }

  // ---------------------------------------------------------------- tearing down

  /** The prefix of the node of a higher level above a node. */
  ghost function Above(n: NodeId, level: nat): nat
    requires n.level <= level
    decreases level - n.level
  {
    if n.level == level then n.prefix else Above(Up(n), level)
  }

  lemma {:induction false} AboveNext(n: NodeId, level: nat)
    requires n.level <= level
    ensures Above(n, level + 1) == Above(n, level) / 512
    decreases level - n.level
  {
    if n.level < level {
      AboveNext(Up(n), level);
    } else {
      assert Above(n, level + 1) == Above(Up(n), level + 1);
    }
  }

  lemma {:induction false} AboveIsThere(t: Tree, kernel: bool, n: NodeId, level: nat)
    requires Valid(t, kernel) && n in t.at && n.level <= level <= 3
    ensures Node(level, Above(n, level)) in t.at
    decreases level - n.level
  {
    hide Aligned;
    hide Slot;
    hide Has;
    hide OwnNode;
    if n.level < level {
      assert Linked(t, n);
      AboveIsThere(t, kernel, Up(n), level);
    }
  }

  /** The frames of the tables at or below the nodes of a level with a prefix from low to high - 1. */
  ghost function Under(t: Tree, level: nat, low: nat, high: nat): set<Frame> {
    set f | f in t.id && t.id[f].level <= level && low <= Above(t.id[f], level) < high
  }

  lemma UnderAppend(t: Tree, level: nat, low: nat, middle: nat, high: nat)
    requires low <= middle <= high
    ensures Under(t, level, low, high) == Under(t, level, low, middle) + Under(t, level, middle, high)
    ensures Under(t, level, low, middle) !! Under(t, level, middle, high)
  {
  }

  lemma UnderNone(t: Tree, level: nat, low: nat)
    ensures Under(t, level, low, low) == {}
  {
  }

  lemma UnderNoLevel(t: Tree, kernel: bool, low: nat, high: nat)
    requires Valid(t, kernel)
    ensures Under(t, 0, low, high) == {}
  {
    hide Linked;
    hide Aligned;
  }

  /** A missing node has nothing below it. */
  lemma UnderMissing(t: Tree, kernel: bool, level: nat, x: nat)
    requires Valid(t, kernel) && level <= 3 && Node(level, x) !in t.at
    ensures Under(t, level, x, x + 1) == {}
  {
    hide Aligned;
    hide OwnNode;
    hide Linked;
    forall f | f in t.id ensures f !in Under(t, level, x, x + 1) {
      if t.id[f].level <= level {
        AboveIsThere(t, kernel, t.id[f], level);
      }
    }
  }

  /** What lies at or below a node is what lies below it, and the node itself. */
  lemma UnderPresent(t: Tree, kernel: bool, level: nat, x: nat)
    requires Valid(t, kernel) && Node(level + 1, x) in t.at
    ensures Under(t, level + 1, x, x + 1) == Under(t, level, x * 512, x * 512 + 512) + {t.at[Node(level + 1, x)]}
    ensures t.at[Node(level + 1, x)] !in Under(t, level, x * 512, x * 512 + 512)
  {
    hide Aligned;
    hide OwnNode;
    hide Linked;
    hide Above;
    var n := Node(level + 1, x);
    assert t.id[t.at[n]] == n;
    AboveSelf(n);
    forall f | f in t.id
      ensures f in Under(t, level + 1, x, x + 1) <==> f in Under(t, level, x * 512, x * 512 + 512) || f == t.at[n]
    {
      UnderMember(t, level, x, f);
    }
  }

  lemma AboveSelf(n: NodeId)
    ensures Above(n, n.level) == n.prefix
  {
  }

  lemma UnderMember(t: Tree, level: nat, x: nat, f: Frame)
    requires Placed(t) && f in t.id && Node(level + 1, x) in t.at
    ensures f in Under(t, level + 1, x, x + 1)
       <==> f in Under(t, level, x * 512, x * 512 + 512) || f == t.at[Node(level + 1, x)]
  {
    hide Aligned;
    hide Above;
    var k := t.id[f];
    if k.level <= level {
      AboveNext(k, level);
    } else if k.level == level + 1 {
      AboveSelf(k);
    }
  }

  /** Every table of a process but its PML4 lies under the lower half of the PML4. */
  lemma UnderAll(t: Tree)
    requires Valid(t, false)
    ensures Under(t, 3, 0, 256) + {t.at[ROOT]} == t.mem.Keys && t.at[ROOT] !in Under(t, 3, 0, 256)
  {
    hide Aligned;
    hide Linked;
    forall f | f in t.id ensures f in Under(t, 3, 0, 256) || f == t.at[ROOT] {
      LowSlot(t.id[f]);
    }
  }

  lemma LowSlot(n: NodeId)
    requires OwnNode(false, n) || n == ROOT
    ensures n == ROOT || (n.level <= 3 && Above(n, 3) < 256)
  {
    if n.level == 1 {
      assert Above(n, 3) == Above(Up(n), 3) == Above(Up(Up(n)), 3);
    } else if n.level == 2 {
      assert Above(n, 3) == Above(Up(n), 3);
    }
  }

  // ---------------------------------------------------------------- a new table

  /** A PML4 with no present entry in the lower half is a well-formed empty tree. */
  lemma EmptyTree(f: Frame, pml4: seq<Entry>)
    requires Aligned(f) && |pml4| == 512
    requires forall i :: 0 <= i < 256 ==> !Has(pml4[i], PRESENT)
    ensures var t := Tree(map[f := pml4], map[ROOT := f], map[f := ROOT]);
            Valid(t, false) && forall p: nat :: Flat(t, p) == 0
  {
    hide Aligned;
    hide Has;
    var t := Tree(map[f := pml4], map[ROOT := f], map[f := ROOT]);
    forall n | OwnNode(false, n) ensures Linked(t, n) {
      if Up(n) == ROOT {
        assert n.prefix < 256 && n.prefix % 512 == n.prefix;
      }
    }
  }

  // ---------------------------------------------------------------- rights

  /** No entry of a table grants more than the entry that leads to the table. */
  ghost predicate Guards(t: Tree, n: NodeId)
    requires Placed(t) && n in t.at
  {
    Up(n) in t.at && forall j: nat :: j < 512 ==> RightsWithin(EntryOf(t, n, j), Slot(t, n))
  }

  ghost predicate Guarded(t: Tree)
    requires Placed(t)
  {
    forall n :: n in t.at && n != ROOT ==> Guards(t, n)
  }

  /** What the processor grants: a right that the entries of all four levels grant. */
  ghost predicate Grants(t: Tree, page: nat, right: bv64)
    requires Placed(t) && Table(1, page) in t.at && Up(Table(1, page)) in t.at
    requires Up(Table(2, page)) in t.at && Up(Table(3, page)) in t.at
  {
    && Has(EntryOf(t, Table(1, page), page % 512), right)
    && Has(Slot(t, Table(1, page)), right)
    && Has(Slot(t, Table(2, page)), right)
    && Has(Slot(t, Table(3, page)), right)
  }

  /** No entry that leads to a table forbids execution. */
  ghost predicate Passable(t: Tree)
    requires Placed(t)
  {
    forall n :: n in t.at && n != ROOT ==> Up(n) in t.at && !Has(Slot(t, n), NO_EXECUTE)
  }

  /** What the processor executes: a page that the entry of no level forbids to execute. */
  ghost predicate Executes(t: Tree, page: nat)
    requires Placed(t) && Table(1, page) in t.at && Up(Table(1, page)) in t.at
    requires Up(Table(2, page)) in t.at && Up(Table(3, page)) in t.at
  {
    && !Has(EntryOf(t, Table(1, page), page % 512), NO_EXECUTE)
    && !Has(Slot(t, Table(1, page)), NO_EXECUTE)
    && !Has(Slot(t, Table(2, page)), NO_EXECUTE)
    && !Has(Slot(t, Table(3, page)), NO_EXECUTE)
  }

  /** The rights of a used page are exactly those of its entry: no table on the way takes any back. */
  lemma RightsAreTheEntrys(t: Tree, kernel: bool, page: nat)
    requires Valid(t, kernel) && Guarded(t) && Passable(t) && OwnPage(kernel, page) && Flat(t, page) != 0
    ensures Table(1, page) in t.at && Up(Table(1, page)) in t.at && Up(Table(2, page)) in t.at && Up(Table(3, page)) in t.at
    ensures Grants(t, page, USER) <==> Has(Flat(t, page), USER)
    ensures Grants(t, page, READ_WRITE) <==> Has(Flat(t, page), READ_WRITE)
    ensures Executes(t, page) <==> !Has(Flat(t, page), NO_EXECUTE)
  {
    hide OwnNode;
    hide Has;
    hide Linked;
    hide Placed;
    hide EntryOf;
    UsedPath(t, kernel, page);
    Path(kernel, page);
    assert Guards(t, Table(1, page)) && Guards(t, Table(2, page)) && Guards(t, Table(3, page));
    assert Slot(t, Table(1, page)) == EntryOf(t, Table(2, page), Table(1, page).prefix % 512);
    assert Slot(t, Table(2, page)) == EntryOf(t, Table(3, page), Table(2, page).prefix % 512);
  }

  /** A write keeps the rights guarded when the entry above grants them and the table below needs no more. */
  lemma GuardedWrite(t: Tree, n: NodeId, i: nat, e: Entry)
    requires Placed(t) && Guarded(t) && n in t.at && i < 512 && (n != ROOT ==> Up(n) in t.at && RightsWithin(e, Slot(t, n)))
    requires forall c, j: nat :: c in t.at && Up(c) == n && c.prefix % 512 == i && j < 512 ==> RightsWithin(EntryOf(t, c, j), e)
    ensures Guarded(Write(t, n, i, e))
  {
    hide Placed;
    hide EntryOf;
    hide Write;
    hide RightsWithin;
    var t' := Write(t, n, i, e);
    forall m | m in t'.at && m != ROOT ensures Guards(t', m) {
      assert Guards(t, m);
      WriteEntry(t, n, i, e, Up(m), m.prefix % 512);
      forall j: nat | j < 512 ensures RightsWithin(EntryOf(t', m, j), Slot(t', m)) {
        WriteEntry(t, n, i, e, m, j);
        assert RightsWithin(EntryOf(t, m, j), Slot(t, m));
      }
    }
  }

  lemma GuardedZeroed(t: Tree, n: NodeId, f: Frame)
    requires Placed(t) && Guarded(t) && n !in t.at && f !in t.mem && Aligned(f) && Up(n) in t.at
    ensures Guarded(Zeroed(t, n, f))
  {
    hide Placed;
    hide EntryOf;
    hide Zeroed;
    hide RightsWithin;
    hide Aligned;
    var t' := Zeroed(t, n, f);
    forall m | m in t'.at && m != ROOT ensures Guards(t', m) {
      if m != n {
        assert Guards(t, m);
      }
      ZeroedEntry(t, n, f, Up(m), m.prefix % 512);
      NoRights(Slot(t', m));
      forall j: nat | j < 512 ensures RightsWithin(EntryOf(t', m, j), Slot(t', m)) {
        ZeroedEntry(t, n, f, m, j);
      }
    }
  }

  /** The entries that lead to a table may get flags that the entry above it has. */
  ghost predicate MayGrant(t: Tree, n: NodeId, flags: bv64)
    requires Placed(t)
  {
    n == ROOT || (Up(n) in t.at && RightsWithin(flags, Slot(t, n)))
  }

  lemma GuardedFlags(t: Tree, n: NodeId, flags: bv64)
    requires Placed(t) && Guarded(t) && n in t.at && n != ROOT && Up(n) in t.at && MayGrant(t, Up(n), flags)
    ensures Guarded(Write(t, Up(n), n.prefix % 512, WithFlags(Slot(t, n), flags)))
  {
    hide Placed;
    hide EntryOf;
    hide Write;
    hide RightsWithin;
    hide WithFlags;
    var e := WithFlags(Slot(t, n), flags);
    MoreRights(Slot(t, n), flags);
    if Up(n) != ROOT {
      assert Guards(t, Up(n));
      assert RightsWithin(EntryOf(t, Up(n), n.prefix % 512), Slot(t, Up(n)));
    }
    forall c, j: nat | c in t.at && Up(c) == Up(n) && c.prefix % 512 == n.prefix % 512 && j < 512
      ensures RightsWithin(EntryOf(t, c, j), e)
    {
      SameDigits(c.prefix, n.prefix);
      assert Guards(t, n);
      assert RightsWithin(EntryOf(t, n, j), Slot(t, n));
      RightsTransitive(EntryOf(t, n, j), Slot(t, n), e);
    }
    GuardedWrite(t, Up(n), n.prefix % 512, e);
  }

  lemma GuardedChild(t: Tree, n: NodeId, f: Frame, flags: bv64)
    requires Placed(t) && Guarded(t) && Up(n) in t.at && n !in t.at && f !in t.mem && Aligned(f) && MayGrant(t, Up(n), flags)
    requires n != Up(n) && (Up(n) != ROOT ==> n != Up(Up(n)))
    ensures Guarded(WithChild(t, n, f, flags))
  {
    hide Placed;
    hide EntryOf;
    hide Write;
    hide Zeroed;
    hide RightsWithin;
    hide WithFlags;
    hide Aligned;
    var t1, e := Zeroed(t, n, f), WithFlags(f.addr, flags);
    GuardedZeroed(t, n, f);
    MoreRights(f.addr, flags);
    if Up(n) != ROOT {
      ZeroedEntry(t, n, f, Up(Up(n)), Up(n).prefix % 512);
      FrameHasNoRights(f, Slot(t, Up(n)));
    }
    forall c, j: nat | c in t1.at && Up(c) == Up(n) && c.prefix % 512 == n.prefix % 512 && j < 512
      ensures RightsWithin(EntryOf(t1, c, j), e)
    {
      SameDigits(c.prefix, n.prefix);
      ZeroedEntry(t, n, f, n, j);
      NoRights(e);
    }
    GuardedWrite(t1, Up(n), n.prefix % 512, e);
  }

  lemma GuardedLeaf(t: Tree, kernel: bool, page: nat, e: Entry)
    requires Valid(t, kernel) && Guarded(t) && Table(1, page) in t.at && Up(Table(1, page)) in t.at
    requires RightsWithin(e, Slot(t, Table(1, page)))
    ensures Guarded(Write(t, Table(1, page), page % 512, e))
  {
    hide Placed;
    hide Linked;
    hide OwnNode;
    hide RightsWithin;
    forall c | c in t.at ensures Up(c) != Table(1, page) {
      if c != ROOT {
        OwnLevel(kernel, c);
      }
    }
    GuardedWrite(t, Table(1, page), page % 512, e);
  }

  lemma PassableFlags(t: Tree, n: NodeId, flags: bv64)
    requires Placed(t) && Passable(t) && n in t.at && n != ROOT && Up(n) in t.at && !Has(flags, NO_EXECUTE)
    ensures Passable(Write(t, Up(n), n.prefix % 512, WithFlags(Slot(t, n), flags)))
  {
    hide Placed;
    hide Write;
    hide WithFlags;
    hide Has;
    var e := WithFlags(Slot(t, n), flags);
    Join(Slot(t, n), flags);
    forall m | m in t.at && m != ROOT
      ensures Slot(Write(t, Up(n), n.prefix % 512, e), m) == Slot(t, m) || Slot(Write(t, Up(n), n.prefix % 512, e), m) == e
    {
      SlotAfter(t, n, m, e);
    }
  }

  lemma PassableChild(t: Tree, n: NodeId, f: Frame, flags: bv64)
    requires Placed(t) && Passable(t) && Up(n) in t.at && n !in t.at && f !in t.mem && Aligned(f) && !Has(flags, NO_EXECUTE)
    requires n != Up(n)
    ensures Passable(WithChild(t, n, f, flags))
  {
    hide Placed;
    hide WithChild;
    hide WithFlags;
    hide Has;
    hide Aligned;
    Join(f.addr, flags);
    FrameExecutes(f);
    forall m | m in WithChild(t, n, f, flags).at && m != ROOT
      ensures Up(m) in WithChild(t, n, f, flags).at && !Has(Slot(WithChild(t, n, f, flags), m), NO_EXECUTE)
    {
      ChildSlot(t, n, f, flags, m);
    }
  }

  lemma PassableLeaf(t: Tree, kernel: bool, page: nat, e: Entry)
    requires Valid(t, kernel) && Passable(t) && Table(1, page) in t.at
    ensures Passable(Write(t, Table(1, page), page % 512, e))
  {
    hide Placed;
    hide Linked;
    hide OwnNode;
    hide Has;
    hide EntryOf;
    hide Write;
    forall m | m in t.at && m != ROOT
      ensures Up(m) in t.at && Slot(Write(t, Table(1, page), page % 512, e), m) == Slot(t, m)
    {
      OwnLevel(kernel, m);
      WriteEntry(t, Table(1, page), page % 512, e, Up(m), m.prefix % 512);
    }
  }

  lemma LeafHasParent(t: Tree, kernel: bool, page: nat)
    requires Valid(t, kernel) && Table(1, page) in t.at
    ensures Placed(t) && Up(Table(1, page)) in t.at
  {
    assert Linked(t, Table(1, page));
  }

  lemma GrantsAtRoot(t: Tree, flags: bv64)
    requires Placed(t)
    ensures MayGrant(t, ROOT, flags)
  {
  }

  lemma GrantsLess(t: Tree, n: NodeId, flags: bv64, e: Entry)
    requires Placed(t) && MayGrant(t, n, flags) && RightsWithin(e, flags)
    ensures MayGrant(t, n, e)
  {
    hide Placed;
  }

  lemma PresentGranted(t: Tree, kernel: bool, n: NodeId)
    requires Valid(t, kernel) && n in t.at
    ensures Placed(t) && MayGrant(t, n, PRESENT)
  {
    hide RightsWithin;
    hide Aligned;
    if n != ROOT {
      assert Linked(t, n);
      NoRights(Slot(t, n));
    }
  }

  lemma NotRoot(kernel: bool, n: NodeId)
    requires OwnNode(kernel, n)
    ensures n != ROOT && n != Up(n) && n != Up(Up(n))
  {
  }

  lemma FlagsGranted(t: Tree, n: NodeId, flags: bv64)
    requires Placed(t) && Up(n) in t.at
    ensures MayGrant(Write(t, Up(n), n.prefix % 512, WithFlags(Slot(t, n), flags)), n, flags)
  {
    hide Placed;
    hide Write;
    hide WithFlags;
    SlotAfter(t, n, n, WithFlags(Slot(t, n), flags));
    MoreRights(Slot(t, n), flags);
  }

  lemma ChildGranted(t: Tree, n: NodeId, f: Frame, flags: bv64)
    requires Placed(t) && Up(n) in t.at && n !in t.at && f !in t.mem && Aligned(f)
    ensures MayGrant(WithChild(t, n, f, flags), n, flags)
  {
    hide Placed;
    hide WithChild;
    hide WithFlags;
    hide Aligned;
    ChildSlot(t, n, f, flags, n);
    MoreRights(f.addr, flags);
  }

  /** A tree without tables below its root has nothing to guard. */
  lemma EmptyGuarded(f: Frame, pml4: seq<Entry>)
    requires Aligned(f) && |pml4| == 512
    ensures var t := Tree(map[f := pml4], map[ROOT := f], map[f := ROOT]); Placed(t) && Guarded(t) && Passable(t)
  {
    hide Aligned;
  }
}

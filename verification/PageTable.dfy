/**
  The x86_64 page table of one address space: map, unmap, reserve, look up and tear down
  (kernel/arch/x86_64/PageTable.cpp).  Every operation is specified on the flat map from page
  numbers to entries; a page number is the uncanonicalised address divided by the page size, and
  PageEntry.IndicesAreDigits says that the shift-and-mask indices of the source are its base-512 digits.
 */
module PageTable {
  import opened PageEntry
  import opened PageLeaf
  import opened PageTree
  import WordBits

  /** What reserve_page writes for a page. */
  function ReservedLeaf(nxe: bool, pge: bool, page: nat): Entry {
    LeafEntry(nxe, pge && page / 512 / 512 / 512 % 512 == 511, 0, RESERVED, Normal)
  }

  /** Pages first to next - 1 hold what reserve_page writes, and nothing else changes. */
  ghost predicate ReservesEach(t: Tree, t': Tree, nxe: bool, pge: bool, first: nat, next: nat) {
    && Placed(t)
    && Placed(t')
    && forall p: nat :: Flat(t', p) == if first <= p < next then ReservedLeaf(nxe, pge, p) else Flat(t, p)
  }

  lemma ReservedLeafBits(nxe: bool, pge: bool, page: nat)
    ensures Has(ReservedLeaf(nxe, pge, page), USED) && !Has(ReservedLeaf(nxe, pge, page), PRESENT)
  {
    hide LeafEntry;
    assert Has(RESERVED, USED) && !Has(RESERVED, PRESENT);
    LeafUsed(nxe, pge && page / 512 / 512 / 512 % 512 == 511, 0, RESERVED, Normal);
    LeafBits(nxe, pge && page / 512 / 512 / 512 % 512 == 511, 0, RESERVED, Normal);
  }

  /** The two ways to reserve write the same entry only where no-execute and global bits play no part. */
  lemma ReservedLeafIsBare(nxe: bool, pge: bool, page: nat)
    ensures ReservedLeaf(nxe, pge, page) == RESERVED <==> !nxe && !(pge && page / 512 / 512 / 512 % 512 == 511)
  {
    assert !Has(RESERVED, EXECUTE) && !Has(RESERVED, PRESENT) && Has(RESERVED, RESERVED);
  }

  /** One walk over a range reserves exactly the pages that page by page reservation does; neither makes a page present. */
  lemma RangeReservesLikeEach(t: Tree, range: Tree, each: Tree, kernel: bool, nxe: bool, pge: bool, first: nat, next: nat)
    requires Reserves(t, range, kernel, first, next) && ReservesEach(t, each, nxe, pge, first, next)
    ensures Placed(t) && Placed(range)
    ensures forall p: nat :: IsUsed(range, p) <==> IsUsed(each, p)
    ensures forall p: nat :: Has(Flat(range, p), PRESENT) <==> Has(Flat(each, p), PRESENT)
    ensures forall p: nat :: IsUsed(range, p) <==> IsUsed(t, p) || first <= p < next
  {
    hide Placed;
    hide OwnNode;
    hide Linked;
    hide Flat;
    hide ReservedLeaf;
    assert Has(RESERVED, USED) && !Has(RESERVED, PRESENT);
    forall p: nat
      ensures Has(ReservedLeaf(nxe, pge, p), USED) && !Has(ReservedLeaf(nxe, pge, p), PRESENT)
    {
      ReservedLeafBits(nxe, pge, p);
    }
  }

  /** Pages first to next - 1 lead to consecutive physical pages from paddr on, and nothing else changes. */
  ghost predicate Maps(t: Tree, t': Tree, nxe: bool, global: bool, first: nat, next: nat, paddr: bv64, flags: bv64,
                       memoryType: MemoryType)
  {
    && Placed(t)
    && Placed(t')
    && (forall p: nat :: first <= p < next ==>
          LeadsTo(Flat(t', p), nxe, global, WordBits.Value(paddr) + 4096 * (p - first), flags, memoryType))
    && (forall p: nat :: !(first <= p < next) ==> Flat(t', p) == Flat(t, p))
  }

  lemma MapsNone(t: Tree, nxe: bool, global: bool, first: nat, paddr: bv64, flags: bv64, memoryType: MemoryType)
    requires Placed(t)
    ensures Maps(t, t, nxe, global, first, first, paddr, flags, memoryType)
  {
  }

  lemma MapsOne(t: Tree, t1: Tree, t2: Tree, nxe: bool, global: bool, first: nat, next: nat, paddr: bv64, target: bv64,
                flags: bv64, memoryType: MemoryType)
    requires Maps(t, t1, nxe, global, first, next, paddr, flags, memoryType) && first <= next
    requires Placed(t1) && Placed(t2) && SameBut(t1, t2, next) && IsPage(target, paddr, next - first)
    requires IsLeaf(Flat(t2, next), nxe, global, target, flags, memoryType)
    ensures Maps(t, t2, nxe, global, first, next + 1, paddr, flags, memoryType)
  {
    hide IsLeaf;
    hide LeadsTo;
    hide IsPage;
    hide WordBits.Value;
    hide Flat;
    hide Placed;
    LeafLeadsTo(Flat(t2, next), nxe, global, target, paddr, next - first, flags, memoryType);
  }

  class PageTable {
    /** Whether this is the kernel's table; the CPU's no-execute and global-page features. */
    const kernel: bool
    const nxe: bool
    const pge: bool
    /** The PML4. */
    const root: Frame
    /** The frames that hold this table's structures, and the frames the physical heap has to give. */
    var mem: Memory
    var free: set<Frame>
    /** Where every frame sits in the tree. */
    ghost var at: map<NodeId, Frame>
    ghost var id: map<Frame, NodeId>

    ghost function Contents(): Tree
      reads this
    {
      Tree(mem, at, id)
    }

    /** Every frame this table holds or could still take. */
    ghost function Frames(): set<Frame>
      reads this
    {
      free + mem.Keys
    }

    ghost predicate Standing()
      reads this
    {
      PageTree.Valid(Contents(), kernel) && Guarded(Contents()) && Passable(Contents()) && at[ROOT] == root
    }

    ghost predicate Valid()
      reads this
    {
      && Standing()
      && free !! mem.Keys
      && forall f :: f in free ==> Aligned(f)
    }

    /**
      Finds the table below an entry, and allocates a zeroed one when the entry is not present.
      ok is false when the heap has no page left, where the source stops the kernel.
     */
    method EnsureTable(table: Frame, index: nat, flags: bv64, ghost n: NodeId) returns (ok: bool, child: Frame)
      requires Valid() && OwnNode(kernel, n) && Up(n) in at && at[Up(n)] == table && index == n.prefix % 512
      requires FlagsOnly(flags) && Has(flags, PRESENT) && !Has(flags, NO_EXECUTE) && MayGrant(Contents(), Up(n), flags)
      modifies this
      ensures Valid() && Opened(old(Contents()), Contents(), kernel)
      ensures Frames() == old(Frames())
      ensures ok ==> n in at && at[n] == child && MayGrant(Contents(), n, flags)
      ensures !ok ==> free == {}
    {
      hide PageTree.Valid;
      hide OwnNode;
      hide Opened;
      hide FlagsOnly;
      hide Aligned;
      hide Has;
      hide Target;
      hide WithFlags;
      hide Slot;
      hide Placed;
      hide Guarded;
      hide Passable;
      hide RightsWithin;
      ghost var t := Contents();
      WalkStep(t, kernel, n);
      OpenedSelf(t, kernel);
      NotRoot(kernel, n);
      var entry := mem[table][index];
      if entry & flags == flags {
        AllFlags(entry, flags);
        AllRights(entry, flags);
        return true, Target(entry);
      }
      if Has(entry, PRESENT) {
        FlagsOpen(t, kernel, n, flags);
        mem := mem[table := mem[table][index := WithFlags(entry, flags)]];
        assert Contents() == Write(t, Up(n), index, WithFlags(entry, flags));
        OpenedKeeps(t, Contents(), kernel);
        GuardedFlags(t, n, flags);
        PassableFlags(t, n, flags);
        FlagsGranted(t, n, flags);
        return true, Target(entry);
      }
      if free == {} {
        return false, table;
      }
      child :| child in free;
      ChildOpen(t, kernel, n, child, flags);
      free := free - {child};
      mem := mem[child := seq(512, _ => 0)];
      mem := mem[table := mem[table][index := WithFlags(child.addr, flags)]];
      at := at[n := child];
      id := id[child := n];
      assert Contents() == WithChild(t, n, child, flags);
      OpenedKeeps(t, Contents(), kernel);
      GuardedChild(t, n, child, flags);
      PassableChild(t, n, child, flags);
      ChildGranted(t, n, child, flags);
      ok := true;
    }

    /** Writes an entry of a page table that grants no more than the tables above it. */
    method WriteLeaf(pt: Frame, pte: nat, entry: Entry, ghost page: nat)
      requires Valid() && Table(1, page) in at && at[Table(1, page)] == pt && pte == page % 512
      requires MayGrant(Contents(), Table(1, page), entry)
      modifies this`mem
      ensures Valid() && mem.Keys == old(mem.Keys)
      ensures Contents() == Write(old(Contents()), Table(1, page), pte, entry)
    {
      hide PageTree.Valid;
      hide Guarded;
      hide Passable;
      hide RightsWithin;
      hide Slot;
      hide Aligned;
      hide Placed;
      ghost var t := Contents();
      WalkEnd(t, kernel, page);
      LeafWritten(t, kernel, page, entry);
      GuardedLeaf(t, kernel, page, entry);
      PassableLeaf(t, kernel, page, entry);
      mem := mem[pt := mem[pt][pte := entry]];
      assert Contents() == Write(t, Table(1, page), pte, entry);
    }

    /** Maps a page: its entry becomes the new one, and no other page changes whatever tables were allocated. */
    method MapPageAt(paddr: bv64, page: nat, flags: bv64, memoryType: MemoryType) returns (ok: bool)
      requires Valid() && OwnPage(kernel, page) && PageAligned(paddr) && Has(flags, USED)
      modifies this
      ensures Valid() && Frames() == old(Frames())
      ensures SameBut(old(Contents()), Contents(), page)
      ensures ok ==> Flat(Contents(), page) == LeafOf(paddr, page, flags, memoryType)
      ensures ok ==> IsLeaf(Flat(Contents(), page), nxe, pge && kernel, paddr, flags, memoryType)
      ensures !ok ==> free == {} && Flat(Contents(), page) == old(Flat(Contents(), page))
    {
      hide IsLeaf;
      hide Guarded;
      hide Passable;
      hide RightsWithin;
      hide MayGrant;
      hide Slot;
      hide PageTree.Valid;
      hide Opened;
      hide Flat;
      hide OwnNode;
      hide OwnPage;
      hide Table;
      hide Aligned;
      hide Has;
      hide Target;
      hide LeafEntry;
      hide TableFlags;
      hide FlagsOnly;
      hide Grown;
      hide Placed;
      ghost var t := Contents();
      Path(kernel, page);
      Digits(page);
      Rooted(t, kernel);
      TableFlagBits(flags);
      GrantsAtRoot(t, TableFlags(flags));
      var frame;
      ok, frame := EnsureTable(root, page / 512 / 512 / 512 % 512, TableFlags(flags), Table(3, page));
      if ok {
        ghost var t1 := Contents();
        ok, frame := EnsureTable(frame, page / 512 / 512 % 512, TableFlags(flags), Table(2, page));
        OpenedTransitive(t, t1, Contents(), kernel);
      }
      if ok {
        ghost var t2 := Contents();
        ok, frame := EnsureTable(frame, page / 512 % 512, TableFlags(flags), Table(1, page));
        OpenedTransitive(t, t2, Contents(), kernel);
      }
      ghost var t3 := Contents();
      OpenedFlat(t, t3, kernel, page);
      if ok {
        var entry := LeafOf(paddr, page, flags, memoryType);
        LeafUsed(nxe, pge && page / 512 / 512 / 512 % 512 == 511, paddr, flags, memoryType);
        LeafAfterOpen(t, t3, kernel, page, entry);
        LeafRights(nxe, pge && page / 512 / 512 / 512 % 512 == 511, paddr, flags, memoryType);
        GrantsLess(t3, Table(1, page), TableFlags(flags), entry);
        WriteLeaf(frame, page % 512, entry, page);
        LeafMeans(paddr, page, flags, memoryType);
      }
    }

    /** The kernel's pages, and no others, are global where the processor has global pages. */
    lemma LeafMeans(paddr: bv64, page: nat, flags: bv64, memoryType: MemoryType)
      requires OwnPage(kernel, page) && PageAligned(paddr)
      ensures IsLeaf(LeafOf(paddr, page, flags, memoryType), nxe, pge && kernel, paddr, flags, memoryType)
    {
      hide IsLeaf;
      hide LeafEntry;
      LeafIs(nxe, pge && kernel, paddr, flags, memoryType);
    }

    function LeafOf(paddr: bv64, page: nat, flags: bv64, memoryType: MemoryType): Entry {
      LeafEntry(nxe, pge && page / 512 / 512 / 512 % 512 == 511, paddr, flags, memoryType)
    }

    /** Unmaps a used page: exactly that page becomes unused. */
    method UnmapPage(page: nat)
      requires Valid() && OwnPage(kernel, page) && Flat(Contents(), page) != 0
      modifies this
      ensures Valid() && free == old(free) && mem.Keys == old(mem.Keys) && Frames() == old(Frames())
      ensures SameBut(old(Contents()), Contents(), page) && Flat(Contents(), page) == 0
    {
      hide Guarded;
      hide Passable;
      hide RightsWithin;
      hide PageTree.Valid;
      hide Slot;
      hide Flat;
      hide OwnNode;
      hide OwnPage;
      hide Table;
      hide Aligned;
      hide Has;
      hide Target;
      hide Placed;
      ghost var t := Contents();
      Path(kernel, page);
      Digits(page);
      Rooted(t, kernel);
      UsedPath(t, kernel, page);
      WalkStep(t, kernel, Table(3, page));
      WalkStep(t, kernel, Table(2, page));
      WalkStep(t, kernel, Table(1, page));
      WalkEnd(t, kernel, page);
      var pdpt := Target(mem[root][page / 512 / 512 / 512 % 512]);
      var pd := Target(mem[pdpt][page / 512 / 512 % 512]);
      var pt := Target(mem[pd][page / 512 % 512]);
      OpenedSelf(t, kernel);
      LeafAfterOpen(t, t, kernel, page, 0);
      ZeroBits();
      NoRights(Slot(t, Table(1, page)));
      WriteLeaf(pt, page % 512, 0, page);
    }

    /** The last PML4 slot leads where the kernel's does. */
    ghost predicate Shares(kernelTable: PageTable)
      reads this, kernelTable
    {
      && root in mem && |mem[root]| == 512
      && (Has(mem[root][511], PRESENT) <==> Node(3, 511) in kernelTable.at)
      && (Node(3, 511) in kernelTable.at ==> Target(mem[root][511]) == kernelTable.at[Node(3, 511)])
    }

    /** The page is this table's own, or one of the kernel's pages, which a process's table shares. */
    ghost predicate Sees(kernelTable: PageTable, page: nat)
      reads this, kernelTable
    {
      OwnPage(kernel, page) || (OwnPage(true, page) && kernelTable.Valid() && kernelTable.kernel && Shares(kernelTable))
    }

    /** What a page is mapped to in this address space. */
    ghost function Seen(kernelTable: PageTable, page: nat): Entry
      requires Valid() && Sees(kernelTable, page)
      reads this, kernelTable
    {
      if OwnPage(kernel, page) then Flat(Contents(), page) else Flat(kernelTable.Contents(), page)
    }

    /** The entry of a page, or 0 when the page is neither present nor reserved. */
    method GetPageData(kernelTable: PageTable, page: nat) returns (entry: Entry)
      requires Valid() && Sees(kernelTable, page)
      ensures entry == Seen(kernelTable, page)
    {
      hide Guarded;
      hide Passable;
      hide RightsWithin;
      hide PageTree.Valid;
      hide Slot;
      hide Flat;
      hide OwnNode;
      hide Table;
      hide Aligned;
      hide Has;
      hide Target;
      Rooted(Contents(), kernel);
      RootIsTable(Contents(), kernel);
      var pml4 := mem[root];
      if OwnPage(kernel, page) {
        Path(kernel, page);
        Digits(page);
        WalkStep(Contents(), kernel, Table(3, page));
        if !Has(pml4[page / 512 / 512 / 512 % 512], PRESENT) {
          WalkStops(Contents(), kernel, page, 3);
          return 0;
        }
        entry := Descend(Target(pml4[page / 512 / 512 / 512 % 512]), page);
      } else {
        KernelSlot(page);
        if !Has(pml4[page / 512 / 512 / 512 % 512], PRESENT) {
          WalkStops(kernelTable.Contents(), true, page, 3);
          return 0;
        }
        entry := kernelTable.Descend(Target(pml4[page / 512 / 512 / 512 % 512]), page);
      }
    }

    /** The walk below the PML4, in the tables of the address space that they belong to. */
    method Descend(pdptFrame: Frame, page: nat) returns (entry: Entry)
      requires Valid() && OwnPage(kernel, page) && Table(3, page) in at && at[Table(3, page)] == pdptFrame
      ensures entry == Flat(Contents(), page)
    {
      hide Guarded;
      hide Passable;
      hide RightsWithin;
      hide PageTree.Valid;
      hide Slot;
      hide Flat;
      hide OwnNode;
      hide Table;
      hide Aligned;
      hide Has;
      hide Target;
      ghost var t := Contents();
      Path(kernel, page);
      Digits(page);
      Rooted(t, kernel);
      forall level: nat | 1 <= level <= 3 && Table(level, page) !in at ensures Flat(t, page) == 0 {
        WalkStops(t, kernel, page, level);
      }
      WalkStep(t, kernel, Table(2, page));
      var pdpt := mem[pdptFrame];
      if !Has(pdpt[page / 512 / 512 % 512], PRESENT) {
        return 0;
      }
      WalkStep(t, kernel, Table(1, page));
      var pd := mem[Target(pdpt[page / 512 / 512 % 512])];
      if !Has(pd[page / 512 % 512], PRESENT) {
        return 0;
      }
      WalkEnd(t, kernel, page);
      var pt := mem[Target(pd[page / 512 % 512])];
      if !Has(pt[page % 512], USED) {
        return 0;
      }
      return pt[page % 512];
    }

    /** Marks one unused entry of a page table reserved. */
    method ReserveEntry(pt: Frame, pte: nat, ghost page: nat)
      requires Valid() && Table(1, page) in at && at[Table(1, page)] == pt && pte == page % 512
      requires Unused(Contents(), page, page + 1)
      modifies this`mem
      ensures Valid() && mem.Keys == old(mem.Keys) && Frames() == old(Frames())
      ensures Reserves(old(Contents()), Contents(), kernel, page, page + 1)
    {
      hide Guarded;
      hide Passable;
      hide RightsWithin;
      hide PageTree.Valid;
      hide Reserves;
      hide Aligned;
      hide Flat;
      hide Has;
      hide Placed;
      hide Table;
      ghost var t := Contents();
      ReservesOne(t, kernel, page);
      LeafHasParent(t, kernel, page);
      NoRights(Slot(t, Table(1, page)));
      WriteLeaf(pt, pte, RESERVED, page);
      ReservesKeeps(t, Contents(), kernel, page, page + 1);
    }

    /** The innermost loop of reserve_range: the entries of one page table. */
    method ReserveEntries(pt: Frame, start: nat, count: nat, ghost prefix: nat) returns (left: nat)
      requires Valid() && Node(1, prefix) in at && at[Node(1, prefix)] == pt && start < 512 && 0 < count
      requires Unused(Contents(), prefix * 512 + start, prefix * 512 + start + count)
      modifies this`mem
      ensures left == if count <= 512 - start then 0 else count - (512 - start)
      ensures Valid() && mem.Keys == old(mem.Keys) && Frames() == old(Frames())
      ensures Reserves(old(Contents()), Contents(), kernel, prefix * 512 + start, prefix * 512 + start + count - left)
    {
      hide PageTree.Valid;
      hide Reserves;
      hide Aligned;
      hide Placed;
      hide Grown;
      hide Unused;
      hide Valid;
      ghost var t, page := Contents(), prefix * 512 + start;
      Fresh(page);
      var pte := start;
      left := count;
      while pte < 512
        invariant start <= pte <= 512 && left == count - (pte - start) && 0 < left
        invariant Valid() && mem.Keys == old(mem.Keys)
        invariant Reserves(t, Contents(), kernel, page, prefix * 512 + pte)
        invariant Unused(Contents(), prefix * 512 + pte, page + count)
      {
        ghost var t1, cursor := Contents(), prefix * 512 + pte;
        EntryPlace(prefix, pte);
        UnusedPart(t1, cursor, cursor + 1, page + count);
        ReserveEntry(pt, pte, cursor);
        ReservesRest(t1, Contents(), kernel, cursor, cursor + 1, page + count);
        ReservesMore(t, t1, Contents(), kernel, page, cursor, cursor + 1);
        left := left - 1;
        if left == 0 {
          return;
        }
        pte := pte + 1;
      }
    }

    /** One entry of a page directory: allocate its page table when it has none, then reserve in it. */
    method ReserveThroughDirectoryEntry(pd: Frame, pde: nat, pte: nat, count: nat, ghost prefix: nat)
      returns (ok: bool, left: nat)
      requires Valid() && OwnNode(kernel, Node(2, prefix)) && Node(2, prefix) in at && at[Node(2, prefix)] == pd
      requires pde < 512 && pte < 512 && 0 < count
      requires var page := prefix * 0x40000 + pde * 512 + pte; Unused(Contents(), page, page + count)
      modifies this
      ensures Valid() && Frames() == old(Frames())
      ensures !ok ==> free == {}
      ensures var page, room := prefix * 0x40000 + pde * 512 + pte, 512 - pte;
              ok ==>
                && left == (if count <= room then 0 else count - room)
                && Reserves(old(Contents()), Contents(), kernel, page, page + count - left)
                && Unused(Contents(), page + count - left, page + count)
      ensures ok ==> Node(2, prefix) in at && at[Node(2, prefix)] == old(at[Node(2, prefix)])
    {
      hide Guarded;
      hide Passable;
      hide RightsWithin;
      hide PageTree.Valid;
      hide Reserves;
      hide Opened;
      hide Unused;
      hide Valid;
      hide OwnNode;
      hide FlagsOnly;
      hide Has;
      hide Frames;
      hide Up;
      ghost var t, page := Contents(), prefix * 0x40000 + pde * 512 + pte;
      left := count;
      MayLink(Node(2, prefix));
      PresentFlag();
      ChildNode(kernel, Node(2, prefix), pde);
      Fresh(page);
      var pt;
      ok, pt := EnsureTable(pd, pde, PRESENT, Node(1, prefix * 512 + pde));
      ghost var t1 := Contents();
      if ok {
        OpenedUnused(t, t1, kernel, page, page + count);
        Stays(t, t1, kernel, Node(2, prefix));
        left := ReserveEntries(pt, pte, count, prefix * 512 + pde);
        ReserveRound(t, t, t1, Contents(), kernel, page, page, page + count - left, page + count);
      }
    }

    /** The loop of reserve_range over the entries of one page directory. */
    method ReserveInDirectory(pd: Frame, firstPde: nat, firstPte: nat, count: nat, ghost prefix: nat)
      returns (ok: bool, left: nat)
      requires Valid() && OwnNode(kernel, Node(2, prefix)) && Node(2, prefix) in at && at[Node(2, prefix)] == pd
      requires firstPde < 512 && firstPte < 512 && 0 < count
      requires var page := prefix * 0x40000 + firstPde * 512 + firstPte; Unused(Contents(), page, page + count)
      modifies this
      ensures Valid() && Frames() == old(Frames())
      ensures !ok ==> free == {}
      ensures var page, room := prefix * 0x40000 + firstPde * 512 + firstPte, 0x40000 - firstPde * 512 - firstPte;
              ok ==>
                && left == (if count <= room then 0 else count - room)
                && Reserves(old(Contents()), Contents(), kernel, page, page + count - left)
    {
      hide PageTree.Valid;
      hide Reserves;
      hide Opened;
      hide Unused;
      hide Valid;
      hide OwnNode;
      hide FlagsOnly;
      hide Has;
      hide Frames;
      hide Up;
      ghost var t, page := Contents(), prefix * 0x40000 + firstPde * 512 + firstPte;
      Fresh(page);
      var pde, pte := firstPde, firstPte;
      left := count;
      while pde < 512
        invariant firstPde <= pde <= 512 && pte < 512 && 0 < left
        invariant pde > firstPde ==> pte == 0
        invariant page <= prefix * 0x40000 + pde * 512 + pte
        invariant left == page + count - (prefix * 0x40000 + pde * 512 + pte)
        invariant Valid() && Frames() == old(Frames())
        invariant Node(2, prefix) in at && at[Node(2, prefix)] == pd
        invariant Reserves(t, Contents(), kernel, page, prefix * 0x40000 + pde * 512 + pte)
        invariant Unused(Contents(), prefix * 0x40000 + pde * 512 + pte, page + count)
      {
        ghost var t1, cursor, before := Contents(), prefix * 0x40000 + pde * 512 + pte, left;
        ok, left := ReserveThroughDirectoryEntry(pd, pde, pte, left, prefix);
        if !ok {
          return;
        }
        ReservesMore(t, t1, Contents(), kernel, page, cursor, cursor + before - left);
        if left == 0 {
          return;
        }
        pde, pte := pde + 1, 0;
      }
      ok := true;
    }

    /** One entry of a page-directory-pointer table: allocate its directory when it has none, then reserve in it. */
    method ReserveThroughPointerEntry(pdpt: Frame, pdpte: nat, pde: nat, pte: nat, count: nat, ghost prefix: nat)
      returns (ok: bool, left: nat)
      requires Valid() && OwnNode(kernel, Node(3, prefix)) && Node(3, prefix) in at && at[Node(3, prefix)] == pdpt
      requires pdpte < 512 && pde < 512 && pte < 512 && 0 < count
      requires var page := prefix * 0x8000000 + pdpte * 0x40000 + pde * 512 + pte; Unused(Contents(), page, page + count)
      modifies this
      ensures Valid() && Frames() == old(Frames())
      ensures !ok ==> free == {}
      ensures var page, room := prefix * 0x8000000 + pdpte * 0x40000 + pde * 512 + pte, 0x40000 - pde * 512 - pte;
              ok ==>
                && left == (if count <= room then 0 else count - room)
                && Reserves(old(Contents()), Contents(), kernel, page, page + count - left)
                && Unused(Contents(), page + count - left, page + count)
      ensures ok ==> Node(3, prefix) in at && at[Node(3, prefix)] == old(at[Node(3, prefix)])
    {
      hide Guarded;
      hide Passable;
      hide RightsWithin;
      hide PageTree.Valid;
      hide Reserves;
      hide Opened;
      hide Unused;
      hide Valid;
      hide OwnNode;
      hide FlagsOnly;
      hide Has;
      hide Frames;
      hide Up;
      ghost var t, page := Contents(), prefix * 0x8000000 + pdpte * 0x40000 + pde * 512 + pte;
      left := count;
      MayLink(Node(3, prefix));
      PresentFlag();
      ChildNode(kernel, Node(3, prefix), pdpte);
      Fresh(page);
      var pd;
      ok, pd := EnsureTable(pdpt, pdpte, PRESENT, Node(2, prefix * 512 + pdpte));
      ghost var t1 := Contents();
      if ok {
        OpenedUnused(t, t1, kernel, page, page + count);
        Stays(t, t1, kernel, Node(3, prefix));
        ok, left := ReserveInDirectory(pd, pde, pte, count, prefix * 512 + pdpte);
        if ok {
          StaysReserved(t1, Contents(), kernel, page, page + count - left, Node(3, prefix));
          ReserveRound(t, t, t1, Contents(), kernel, page, page, page + count - left, page + count);
        }
      }
    }

    /** The loop of reserve_range over the entries of one page-directory-pointer table. */
    method ReserveInPointerTable(pdpt: Frame, firstPdpte: nat, firstPde: nat, firstPte: nat, count: nat, ghost prefix: nat)
      returns (ok: bool, left: nat)
      requires Valid() && OwnNode(kernel, Node(3, prefix)) && Node(3, prefix) in at && at[Node(3, prefix)] == pdpt
      requires firstPdpte < 512 && firstPde < 512 && firstPte < 512 && 0 < count
      requires var page := prefix * 0x8000000 + firstPdpte * 0x40000 + firstPde * 512 + firstPte; Unused(Contents(), page, page + count)
      modifies this
      ensures Valid() && Frames() == old(Frames())
      ensures !ok ==> free == {}
      ensures var page := prefix * 0x8000000 + firstPdpte * 0x40000 + firstPde * 512 + firstPte;
              var room := 0x8000000 - firstPdpte * 0x40000 - firstPde * 512 - firstPte;
              ok ==>
                && left == (if count <= room then 0 else count - room)
                && Reserves(old(Contents()), Contents(), kernel, page, page + count - left)
    {
      hide PageTree.Valid;
      hide Reserves;
      hide Opened;
      hide Unused;
      hide Valid;
      hide OwnNode;
      hide FlagsOnly;
      hide Has;
      hide Frames;
      hide Up;
      ghost var t, page := Contents(), prefix * 0x8000000 + firstPdpte * 0x40000 + firstPde * 512 + firstPte;
      Fresh(page);
      var pdpte, pde, pte := firstPdpte, firstPde, firstPte;
      left := count;
      while pdpte < 512
        invariant firstPdpte <= pdpte <= 512 && pde < 512 && pte < 512 && 0 < left
        invariant pdpte > firstPdpte ==> pde == 0 && pte == 0
        invariant page <= prefix * 0x8000000 + pdpte * 0x40000 + pde * 512 + pte
        invariant left == page + count - (prefix * 0x8000000 + pdpte * 0x40000 + pde * 512 + pte)
        invariant Valid() && Frames() == old(Frames())
        invariant Node(3, prefix) in at && at[Node(3, prefix)] == pdpt
        invariant Reserves(t, Contents(), kernel, page, prefix * 0x8000000 + pdpte * 0x40000 + pde * 512 + pte)
        invariant Unused(Contents(), prefix * 0x8000000 + pdpte * 0x40000 + pde * 512 + pte, page + count)
      {
        ghost var t1, cursor, before := Contents(), prefix * 0x8000000 + pdpte * 0x40000 + pde * 512 + pte, left;
        ok, left := ReserveThroughPointerEntry(pdpt, pdpte, pde, pte, left, prefix);
        if !ok {
          return;
        }
        ReservesMore(t, t1, Contents(), kernel, page, cursor, cursor + before - left);
        if left == 0 {
          return;
        }
        pdpte, pde, pte := pdpte + 1, 0, 0;
      }
      ok := true;
    }

    /** One entry of the PML4: allocate its table when it has none, then reserve in it. */
    method ReserveThroughRootEntry(pml4: Frame, pml4e: nat, pdpte: nat, pde: nat, pte: nat, count: nat)
      returns (ok: bool, left: nat)
      requires Valid() && OwnSlot(kernel, pml4e) && at[ROOT] == pml4
      requires pml4e < 512 && pdpte < 512 && pde < 512 && pte < 512 && 0 < count
      requires var page := pml4e * 0x8000000 + pdpte * 0x40000 + pde * 512 + pte; Unused(Contents(), page, page + count)
      modifies this
      ensures Valid() && Frames() == old(Frames())
      ensures !ok ==> free == {}
      ensures var page, room := pml4e * 0x8000000 + pdpte * 0x40000 + pde * 512 + pte, 0x8000000 - pdpte * 0x40000 - pde * 512 - pte;
              ok ==>
                && left == (if count <= room then 0 else count - room)
                && Reserves(old(Contents()), Contents(), kernel, page, page + count - left)
                && Unused(Contents(), page + count - left, page + count)
    {
      hide Guarded;
      hide Passable;
      hide RightsWithin;
      hide PageTree.Valid;
      hide Reserves;
      hide Opened;
      hide Unused;
      hide OwnNode;
      hide FlagsOnly;
      hide Has;
      hide Frames;
      hide Up;
      ghost var t, page := Contents(), pml4e * 0x8000000 + pdpte * 0x40000 + pde * 512 + pte;
      left := count;
      MayLink(ROOT);
      PresentFlag();
      ChildNode(kernel, ROOT, pml4e);
      Fresh(page);
      var pdpt;
      ok, pdpt := EnsureTable(pml4, pml4e, PRESENT, Node(3, pml4e));
      ghost var t1 := Contents();
      if ok {
        OpenedUnused(t, t1, kernel, page, page + count);
        ok, left := ReserveInPointerTable(pdpt, pdpte, pde, pte, count, pml4e);
        if ok {
          ReserveRound(t, t, t1, Contents(), kernel, page, page, page + count - left, page + count);
        }
      }
    }

    /** Reserves a run of unused pages with one walk over the tree. */
    method ReserveRange(page: nat, count: nat) returns (ok: bool)
      requires Valid() && 0 < count && OwnPage(kernel, page) && OwnPage(kernel, page + count - 1)
      requires Unused(Contents(), page, page + count)
      modifies this
      ensures Valid() && Frames() == old(Frames())
      ensures ok ==> Reserves(old(Contents()), Contents(), kernel, page, page + count)
      ensures !ok ==> free == {}
    {
      hide PageTree.Valid;
      hide Reserves;
      hide Opened;
      hide Unused;
      hide OwnPage;
      hide OwnSlot;
      hide Frames;
      ghost var t := Contents();
      Fresh(page);
      Split(page);
      SmallSlot(kernel, page);
      var pml4e: nat, pdpte: nat := page / 512 / 512 / 512 % 512, page / 512 / 512 % 512;
      var pde: nat, pte: nat := page / 512 % 512, page % 512;
      var left := count;
      while true
        invariant pdpte < 512 && pde < 512 && pte < 512 && 0 < left
        invariant page <= pml4e * 0x8000000 + pdpte * 0x40000 + pde * 512 + pte
        invariant left == page + count - (pml4e * 0x8000000 + pdpte * 0x40000 + pde * 512 + pte)
        invariant Valid() && Frames() == old(Frames())
        invariant Reserves(t, Contents(), kernel, page, pml4e * 0x8000000 + pdpte * 0x40000 + pde * 512 + pte)
        invariant Unused(Contents(), pml4e * 0x8000000 + pdpte * 0x40000 + pde * 512 + pte, page + count)
        decreases left
      {
        ghost var t1, before := Contents(), left;
        ghost var cursor := pml4e * 0x8000000 + pdpte * 0x40000 + pde * 512 + pte;
        SlotBetween(kernel, page, page + count - 1, pml4e, pdpte * 0x40000 + pde * 512 + pte);
        ok, left := ReserveThroughRootEntry(root, pml4e, pdpte, pde, pte, left);
        if !ok {
          return;
        }
        ReservesMore(t, t1, Contents(), kernel, page, cursor, cursor + before - left);
        if left == 0 {
          return;
        }
        pml4e, pdpte, pde, pte := pml4e + 1, 0, 0, 0;
      }
    }

    method IsPageFree(kernelTable: PageTable, page: nat) returns (unused: bool)
      requires Valid() && Sees(kernelTable, page)
      ensures unused <==> Seen(kernelTable, page) == 0
    {
      hide PageTree.Valid;
      hide Flat;
      hide OwnPage;
      var entry := GetPageData(kernelTable, page);
      if OwnPage(kernel, page) {
        Rooted(Contents(), kernel);
        UsedIsNonZero(Contents(), page);
      } else {
        Rooted(kernelTable.Contents(), true);
        UsedIsNonZero(kernelTable.Contents(), page);
      }
      unused := ParseFlags(nxe, entry) & USED == 0;
    }

    /** Reserves one unused page. */
    method ReservePage(page: nat) returns (ok: bool)
      requires Valid() && OwnPage(kernel, page) && Flat(Contents(), page) == 0
      modifies this
      ensures Valid() && Frames() == old(Frames())
      ensures SameBut(old(Contents()), Contents(), page)
      ensures ok ==> Flat(Contents(), page) == LeafOf(0, page, RESERVED, Normal)
      ensures !ok ==> free == {}
    {
      hide PageTree.Valid;
      hide Flat;
      hide OwnPage;
      hide SameBut;
      assert Has(RESERVED, USED);
      ok := MapPageAt(0, page, RESERVED, Normal);
    }

    /** Reserves a run of unused pages one by one. */
    method ReserveEach(page: nat, count: nat) returns (ok: bool)
      requires Valid() && forall p: nat :: page <= p < page + count ==> OwnPage(kernel, p)
      requires Unused(Contents(), page, page + count)
      modifies this
      ensures Valid() && Frames() == old(Frames())
      ensures ok ==> ReservesEach(old(Contents()), Contents(), nxe, pge, page, page + count)
      ensures !ok ==> free == {}
    {
      hide Guarded;
      hide Passable;
      hide RightsWithin;
      hide PageTree.Valid;
      hide Flat;
      hide OwnPage;
      hide Placed;
      hide LeafEntry;
      hide Frames;
      ghost var t := Contents();
      Fresh(page);
      ok := true;
      for i := 0 to count
        invariant ok && Valid() && Frames() == old(Frames())
        invariant ReservesEach(t, Contents(), nxe, pge, page, page + i)
      {
        Fresh(page);
        ok := ReservePage(page + i);
        if !ok {
          return;
        }
        Rooted(Contents(), kernel);
      }
    }

    /** Returns a frame to the heap; the frame must not be there already. */
    method ReleasePage(frame: Frame)
      requires frame !in free
      modifies this`free
      ensures free == old(free) + {frame}
    {
      free := free + {frame};
    }

    /** The innermost loop of the destructor: the page tables of one directory. */
    method ReleaseTables(pd: Frame, ghost prefix: nat)
      requires Standing() && OwnNode(kernel, Node(2, prefix)) && Node(2, prefix) in at && at[Node(2, prefix)] == pd
      requires free !! Under(Contents(), 1, prefix * 512, prefix * 512 + 512)
      modifies this`free
      ensures free == old(free) + Under(Contents(), 1, prefix * 512, prefix * 512 + 512)
    {
      hide Guarded;
      hide Passable;
      hide RightsWithin;
      hide PageTree.Valid;
      hide OwnNode;
      hide Under;
      hide Has;
      hide Target;
      hide Slot;
      ghost var t, low := Contents(), prefix * 512;
      UnderNone(t, 1, low);
      for pde := 0 to 512
        invariant free == old(free) + Under(t, 1, low, low + pde)
      {
        ghost var n := Node(1, low + pde);
        ChildNode(kernel, Node(2, prefix), pde);
        WalkStep(t, kernel, n);
        UnderAppend(t, 1, low, low + pde, low + pde + 1);
        UnderAppend(t, 1, low, low + pde + 1, low + 512);
        if Has(mem[pd][pde], PRESENT) {
          UnderPresent(t, kernel, 0, low + pde);
          UnderNoLevel(t, kernel, (low + pde) * 512, (low + pde) * 512 + 512);
          ReleasePage(Target(mem[pd][pde]));
        } else {
          UnderMissing(t, kernel, 1, low + pde);
        }
      }
    }

    /** The middle loop of the destructor: the directories of one page-directory-pointer table, each with its tables. */
    method ReleaseDirectories(pdpt: Frame, ghost prefix: nat)
      requires Standing() && OwnNode(kernel, Node(3, prefix)) && Node(3, prefix) in at && at[Node(3, prefix)] == pdpt
      requires free !! Under(Contents(), 2, prefix * 512, prefix * 512 + 512)
      modifies this`free
      ensures free == old(free) + Under(Contents(), 2, prefix * 512, prefix * 512 + 512)
    {
      hide Guarded;
      hide Passable;
      hide RightsWithin;
      hide PageTree.Valid;
      hide OwnNode;
      hide Under;
      hide Has;
      hide Target;
      hide Slot;
      ghost var t, low := Contents(), prefix * 512;
      UnderNone(t, 2, low);
      for pdpte := 0 to 512
        invariant free == old(free) + Under(t, 2, low, low + pdpte)
      {
        ghost var n := Node(2, low + pdpte);
        ChildNode(kernel, Node(3, prefix), pdpte);
        WalkStep(t, kernel, n);
        UnderAppend(t, 2, low, low + pdpte, low + pdpte + 1);
        UnderAppend(t, 2, low, low + pdpte + 1, low + 512);
        if Has(mem[pdpt][pdpte], PRESENT) {
          UnderPresent(t, kernel, 1, low + pdpte);
          var pd := Target(mem[pdpt][pdpte]);
          ReleaseTables(pd, low + pdpte);
          ReleasePage(pd);
        } else {
          UnderMissing(t, kernel, 2, low + pdpte);
        }
      }
    }

    /** The destructor of a process's table: the heap gets back each of its frames once, and no other frame. */
    method Destroy()
      requires Valid() && !kernel
      modifies this`free
      ensures free == old(free) + mem.Keys
    {
      hide Guarded;
      hide Passable;
      hide RightsWithin;
      hide PageTree.Valid;
      hide OwnNode;
      hide Under;
      hide Has;
      hide Target;
      hide Slot;
      hide Aligned;
      ghost var t := Contents();
      Rooted(t, kernel);
      UnderNone(t, 3, 0);
      UnderAll(t);
      for pml4e := 0 to 256
        invariant free == old(free) + Under(t, 3, 0, pml4e)
      {
        ghost var n := Node(3, pml4e);
        ChildNode(kernel, ROOT, pml4e);
        WalkStep(t, kernel, n);
        UnderAppend(t, 3, 0, pml4e, pml4e + 1);
        UnderAppend(t, 3, 0, pml4e + 1, 256);
        if Has(mem[root][pml4e], PRESENT) {
          UnderPresent(t, kernel, 2, pml4e);
          var pdpt := Target(mem[root][pml4e]);
          ReleaseDirectories(pdpt, pml4e);
          ReleasePage(pdpt);
        } else {
          UnderMissing(t, kernel, 3, pml4e);
        }
      }
      ReleasePage(root);
    }

    /** A process's table: an own PML4 whose upper half refers to the shared kernel structures. */
    constructor CreateUserspace(nxe: bool, pge: bool, free: set<Frame>, global: seq<Entry>)
      requires free != {} && forall f :: f in free ==> Aligned(f)
      requires |global| == 512 && forall i :: 0 <= i < 256 ==> !Has(global[i], PRESENT)
      ensures Valid() && !kernel && this.nxe == nxe && this.pge == pge && mem == map[root := global]
      ensures forall p: nat :: Flat(Contents(), p) == 0
      ensures Frames() == free
    {
      hide PageTree.Valid;
      hide Flat;
      hide Aligned;
      hide Has;
      var frame :| frame in free;
      EmptyTree(frame, global);
      EmptyGuarded(frame, global);
      this.kernel, this.nxe, this.pge, this.root := false, nxe, pge, frame;
      this.free := free - {frame};
      this.mem := map[frame := global];
      this.at := map[ROOT := frame];
      this.id := map[frame := ROOT];
    }

    /** Maps count consecutive pages to consecutive physical pages. */
    method MapRangeAt(paddr: bv64, page: nat, count: nat, flags: bv64, memoryType: MemoryType) returns (ok: bool)
      requires Valid() && PageAligned(paddr) && Has(flags, USED)
      requires forall p: nat :: page <= p < page + count ==> OwnPage(kernel, p)
      modifies this
      ensures Valid() && Frames() == old(Frames())
      ensures ok ==> Maps(old(Contents()), Contents(), nxe, pge && kernel, page, page + count, paddr, flags, memoryType)
      ensures !ok ==> free == {}
    {
      hide Guarded;
      hide Passable;
      hide RightsWithin;
      hide PageTree.Valid;
      hide Flat;
      hide OwnPage;
      hide Placed;
      hide LeafOf;
      hide Frames;
      hide Has;
      hide PageAligned;
      hide NextPage;
      hide Maps;
      hide IsLeaf;
      hide WordBits.Value;
      ghost var t := Contents();
      Rooted(t, kernel);
      MapsNone(t, nxe, pge && kernel, page, paddr, flags, memoryType);
      FirstIsPage(paddr);
      var target := paddr;
      ok := true;
      for i := 0 to count
        invariant ok && Valid() && Frames() == old(Frames()) && IsPage(target, paddr, i)
        invariant Maps(t, Contents(), nxe, pge && kernel, page, page + i, paddr, flags, memoryType)
      {
        ghost var t1 := Contents();
        Rooted(t1, kernel);
        ok := MapPageAt(target, page + i, flags, memoryType);
        if !ok {
          return;
        }
        Rooted(Contents(), kernel);
        assert page + i - page == i;
        MapsOne(t, t1, Contents(), nxe, pge && kernel, page, page + i, paddr, target, flags, memoryType);
        NextIsPage(target, paddr, i);
        target := NextPage(target);
      }
    }

    ghost predicate SeesAll(kernelTable: PageTable, first: nat, next: nat)
      reads this, kernelTable
    {
      forall p: nat :: first <= p < next ==> Sees(kernelTable, p)
    }

    ghost predicate AllFree(kernelTable: PageTable, first: nat, next: nat)
      requires Valid() && SeesAll(kernelTable, first, next)
      reads this, kernelTable
    {
      forall p: nat :: first <= p < next ==> Seen(kernelTable, p) == 0
    }

    method IsRangeFree(kernelTable: PageTable, page: nat, count: nat) returns (unused: bool)
      requires Valid() && SeesAll(kernelTable, page, page + count)
      ensures unused <==> AllFree(kernelTable, page, page + count)
    {
      hide Seen;
      hide Sees;
      hide Valid;
      for i := 0 to count
        invariant SeesAll(kernelTable, page, page + i) && AllFree(kernelTable, page, page + i)
      {
        assert Sees(kernelTable, page + i);
        unused := IsPageFree(kernelTable, page + i);
        if !unused {
          return;
        }
      }
      unused := true;
    }

    lemma MayLink(n: NodeId)
      requires Valid() && (n in at || n == ROOT)
      ensures Placed(Contents()) && MayGrant(Contents(), n, PRESENT)
    {
      hide PageTree.Valid;
      Rooted(Contents(), kernel);
      PresentGranted(Contents(), kernel, n);
    }

    lemma Fresh(page: nat)
      requires Valid()
      ensures Placed(Contents()) && Reserves(Contents(), Contents(), kernel, page, page)
    {
      hide PageTree.Valid;
      Rooted(Contents(), kernel);
      OpenedSelf(Contents(), kernel);
      ReservesNothing(Contents(), Contents(), kernel, page);
    }
  }

  // ---------------------------------------------------------------- a whole life

  datatype Operation =
    | Map(paddr: bv64, page: nat, flags: bv64, memoryType: MemoryType)
    | Unmap(page: nat)
    | Reserve(page: nat)
    | ReserveRun(page: nat, count: nat)

  /** Carries out an operation if it meets what the source demands of its caller. */
  method Perform(table: PageTable, op: Operation)
    requires table.Valid() && !table.kernel
    modifies table
    ensures table.Valid() && table.Frames() == old(table.Frames())
  {
    hide PageTree.Valid;
    hide Flat;
    hide Has;
    hide PageAligned;
    var unused, ok;
    match op {
      case Map(paddr, page, flags, memoryType) =>
        if OwnPage(false, page) && PageAligned(paddr) && Has(flags, USED) {
          ok := table.MapPageAt(paddr, page, flags, memoryType);
        }
      case Unmap(page) =>
        if OwnPage(false, page) {
          unused := table.IsPageFree(table, page);
          if !unused {
            table.UnmapPage(page);
          }
        }
      case Reserve(page) =>
        if OwnPage(false, page) {
          unused := table.IsPageFree(table, page);
          if unused {
            ok := table.ReservePage(page);
          }
        }
      case ReserveRun(page, count) =>
        if 0 < count && OwnPage(false, page + count - 1) {
          LowPages(page, count);
          unused := table.IsRangeFree(table, page, count);
          OwnRange(table, page, count);
          if unused {
            ok := table.ReserveRange(page, count);
          }
        }
    }
  }

  lemma OwnRange(table: PageTable, page: nat, count: nat)
    requires table.Valid() && forall p: nat :: page <= p < page + count ==> OwnPage(table.kernel, p)
    ensures Unused(table.Contents(), page, page + count)
       <==> table.AllFree(table, page, page + count)
  {
    hide PageTree.Valid;
    hide Flat;
    hide Placed;
    Rooted(table.Contents(), table.kernel);
    if table.AllFree(table, page, page + count) {
      forall p: nat | page <= p < page + count ensures Flat(table.Contents(), p) == 0 {
        assert table.Seen(table, p) == 0;
      }
    }
  }

  /** The kernel's part of the address space hangs below the last PML4 entry. */
  lemma KernelSlot(page: nat)
    requires OwnPage(true, page)
    ensures Table(3, page) == Node(3, 511) && page / 512 / 512 / 512 % 512 == 511
  {
  }

  lemma RootIsTable(t: Tree, kernel: bool)
    requires PageTree.Valid(t, kernel)
    ensures Placed(t) && t.at[ROOT] in t.mem && |t.mem[t.at[ROOT]]| == 512
  {
    hide OwnNode;
    hide Linked;
    hide Aligned;
  }

  lemma LowPages(page: nat, count: nat)
    requires 0 < count && OwnPage(false, page + count - 1)
    ensures forall p: nat :: page <= p < page + count ==> OwnPage(false, p)
  {
  }

  /**
    The whole life of a process's table, over any operations: the frames it took are distinct and its
    destructor gives exactly those back, so that the heap ends with the frames it started with.
   */
  method Lifetime(nxe: bool, pge: bool, free: set<Frame>, global: seq<Entry>, operations: seq<Operation>)
    returns (after: set<Frame>)
    requires free != {} && forall f :: f in free ==> Aligned(f)
    requires |global| == 512 && forall i :: 0 <= i < 256 ==> !Has(global[i], PRESENT)
    ensures after == free
  {
    hide PageTree.Valid;
    hide Aligned;
    hide Has;
    var table := new PageTable.CreateUserspace(nxe, pge, free, global);
    for i := 0 to |operations|
      invariant fresh(table) && table.Valid() && !table.kernel && table.Frames() == free
    {
      Perform(table, operations[i]);
    }
    table.Destroy();
    after := table.free;
  }
}

/**
  What the entry of a mapped page is, bit by bit, and where consecutive pages lead: the 64-bit arithmetic of
  map_page_at and map_range_at (kernel/arch/x86_64/PageTable.cpp).
 */
module PageLeaf {
  import opened PageEntry
  import opened WordBits
  import opened WordPowers
  import opened Words

  // ---------------------------------------------------------------- the bits of an entry

  /** Every bit of the entry: what it stands for in the processor's format, and what the caller asked for. */
  predicate IsLeaf(e: bv64, nxe: bool, global: bool, paddr: bv64, flags: bv64, memoryType: MemoryType) {
    && (Has(e, 0x1) <==> Has(flags, 0x1))                                             // present
    && (Has(e, 0x2) <==> Has(flags, 0x2))                                             // writable
    && (Has(e, 0x4) <==> Has(flags, 0x4))                                             // user
    && (Has(e, 0x8) <==> memoryType.WriteThrough?)                                    // PWT
    && (Has(e, 0x10) <==> memoryType.Uncached?)                                       // PCD
    && !Has(e, 0x60)                                                                  // accessed, dirty
    && (Has(e, 0x80) <==> memoryType.WriteCombining? || memoryType.WriteThrough?)     // PAT
    && (Has(e, 0x100) <==> global)
    && (Has(e, 0x200) <==> Has(flags, 0x200))                                         // reserved by the kernel
    && !Has(e, 0xC00)
    && SameAddress(e, paddr)
    && (Has(e, 0x8000_0000_0000_0000) <==>                                            // no-execute
          Has(paddr, 0x8000_0000_0000_0000) || (nxe && !Has(flags, 0x8000)))
  }

  /** The bits 12 to 62 are the same. */
  predicate SameAddress(e: bv64, paddr: bv64) {
    e & 0x7FFF_FFFF_FFFF_F000 == paddr & 0x7FFF_FFFF_FFFF_F000
  }

  /** The bits that the protection and the reservation have nothing to do with. */
  datatype Rest = Rest(pwt: bool, pcd: bool, used: bool, pat: bool, global: bool, free: bool)

  function RestOf(e: Entry): Rest {
    Rest(Has(e, 0x8), Has(e, 0x10), Has(e, 0x60), Has(e, 0x80), Has(e, 0x100), Has(e, 0xC00))
  }

  function Any(a: Rest, b: Rest): Rest {
    Rest(a.pwt || b.pwt, a.pcd || b.pcd, a.used || b.used, a.pat || b.pat, a.global || b.global, a.free || b.free)
  }

  const NONE := Rest(false, false, false, false, false, false)

  lemma JoinRest(a: bv64, b: bv64)
    ensures RestOf(WithFlags(a, b)) == Any(RestOf(a), RestOf(b))
  {
    hide RestOf;
    JoinRestBits(a, b);
  }

  lemma JoinRestBits(a: bv64, b: bv64)
    ensures RestOf(a | b) == Any(RestOf(a), RestOf(b))
  {
  }

  lemma RestOfParts(nxe: bool, global: bool, flags: bv64, memoryType: MemoryType)
    ensures RestOf(GlobalFlag(global)) == NONE.(global := global)
    ensures RestOf(ExecuteFlag(nxe, flags)) == RestOf(ReservedFlag(flags)) == RestOf(LeafFlags(flags)) == NONE
    ensures RestOf(CacheFlags(memoryType))
         == NONE.(pwt := memoryType.WriteThrough?, pcd := memoryType.Uncached?,
                  pat := memoryType.WriteCombining? || memoryType.WriteThrough?)
  {
  }

  lemma AddressRest(paddr: bv64)
    requires paddr & 0xFFF == 0
    ensures RestOf(paddr) == NONE
  {
  }

  lemma LeafRest(nxe: bool, global: bool, paddr: bv64, flags: bv64, memoryType: MemoryType)
    requires paddr & 0xFFF == 0
    ensures RestOf(LeafEntry(nxe, global, paddr, flags, memoryType))
         == Rest(memoryType.WriteThrough?, memoryType.Uncached?, false,
                 memoryType.WriteCombining? || memoryType.WriteThrough?, global, false)
  {
    hide RestOf;
    hide WithFlags;
    hide GlobalFlag;
    hide ExecuteFlag;
    hide ReservedFlag;
    hide CacheFlags;
    hide LeafFlags;
    RestOfParts(nxe, global, flags, memoryType);
    AddressRest(paddr);
    JoinRest(paddr, LeafFlags(flags));
    JoinRest(WithFlags(paddr, LeafFlags(flags)), ExtraFlags(nxe, global, flags, memoryType));
    JoinRest(GlobalFlag(global), ExecuteFlag(nxe, flags));
    JoinRest(WithFlags(GlobalFlag(global), ExecuteFlag(nxe, flags)), ReservedFlag(flags));
    JoinRest(WithFlags(WithFlags(GlobalFlag(global), ExecuteFlag(nxe, flags)), ReservedFlag(flags)), CacheFlags(memoryType));
  }

  /** The entry that map_page_at writes has these bits. */
  lemma LeafIs(nxe: bool, global: bool, paddr: bv64, flags: bv64, memoryType: MemoryType)
    requires paddr & 0xFFF == 0
    ensures IsLeaf(LeafEntry(nxe, global, paddr, flags, memoryType), nxe, global, paddr, flags, memoryType)
  {
    hide *;
    LeafRest(nxe, global, paddr, flags, memoryType);
    LeafBits(nxe, global, paddr, flags, memoryType);
    FromParts(LeafEntry(nxe, global, paddr, flags, memoryType), nxe, global, paddr, flags, memoryType);
  }

  lemma SameTarget(e: bv64, paddr: bv64)
    requires Target(e) == Target(paddr)
    ensures SameAddress(e, paddr)
  {
    hide Target;
    TargetIs(e);
    TargetIs(paddr);
  }

  lemma TargetIs(e: bv64)
    ensures Target(e) == Frame(e & 0x7FFF_FFFF_FFFF_F000)
  {
  }

  lemma FromParts(e: bv64, nxe: bool, global: bool, paddr: bv64, flags: bv64, memoryType: MemoryType)
    requires RestOf(e) == Rest(memoryType.WriteThrough?, memoryType.Uncached?, false,
                               memoryType.WriteCombining? || memoryType.WriteThrough?, global, false)
    requires BitsOf(e) == BitsOf(flags).(noExecute := Has(paddr, NO_EXECUTE) || (nxe && !Has(flags, EXECUTE)))
    requires Target(e) == Target(paddr)
    ensures IsLeaf(e, nxe, global, paddr, flags, memoryType)
  {
    hide Has;
    hide Target;
    hide SameAddress;
    SameTarget(e, paddr);
  }

  /** No other word has them. */
  lemma OneLeaf(e: bv64, e': bv64, nxe: bool, global: bool, paddr: bv64, flags: bv64, memoryType: MemoryType)
    requires IsLeaf(e, nxe, global, paddr, flags, memoryType) && IsLeaf(e', nxe, global, paddr, flags, memoryType)
    ensures e == e'
  {
  }

  // ---------------------------------------------------------------- consecutive pages

  function Low12(x: bv64): bv64 {
    x & 0xFFF
  }

  function Inc(x: bv64): bv64 {
    x + 1
  }

  lemma LowTwelve(x: bv64)
    ensures Low9(Low12(x)) == Low9(x) && High9(Low12(x)) == Low3(High9(x))
  {
  }

  lemma TwelveBits(x: bv64)
    ensures Value(x) == 4096 * Value(High12(x)) + Value(Low12(x)) && Value(Low12(x)) < 4096
  {
    hide *;
    NineAndThree(x);
    LowTwelve(x);
    ShiftedBy9(x);
    ShiftedBy9(Low12(x));
    ShiftedBy3(High9(x));
  }

  lemma IncHalves(x: bv64)
    requires x != 0xFFFF_FFFF_FFFF_FFFF
    ensures if Bit(x) == 0 then Half(Inc(x)) == Half(x) && Bit(Inc(x)) == 1
            else Half(Inc(x)) == Inc(Half(x)) && Bit(Inc(x)) == 0 && x != 0 && Half(x) != 0xFFFF_FFFF_FFFF_FFFF
  {
  }

  /** Adding one to a word adds one to its value, unless the word is the last one. */
  lemma {:induction false} Successor(x: bv64)
    requires x != 0xFFFF_FFFF_FFFF_FFFF
    ensures Value(Inc(x)) == Value(x) + 1
    decreases Value(x)
  {
    hide *;
    IncHalves(x);
    Halved(x);
    Halved(Inc(x));
    SmallBits(x, x);
    if Bit(x) != 0 {
      Successor(Half(x));
    }
  }

  lemma LastPageValue()
    ensures Value(0xF_FFFF_FFFF_FFFF) == 0xF_FFFF_FFFF_FFFF
  {
    hide *;
    LastPageNext();
    Successor(0xF_FFFF_FFFF_FFFF);
    PowerOf52();
  }

  lemma LastPageNext()
    ensures Inc(0xF_FFFF_FFFF_FFFF) == 0x10_0000_0000_0000
  {
  }

  lemma PowerOf52()
    ensures Value(0x10_0000_0000_0000) == 0x10_0000_0000_0000
  {
    hide Value;
    TwelveBits(0x10_0000_0000_0000);
    TwelveBits(0x100_0000_0000);
    TwelveBits(0x1000_0000);
    TwelveBits(0x1_0000);
    Halved(16);
    Halved(8);
    Halved(4);
    Halved(2);
    Halved(1);
    NoBits();
  }

  function NextPage(paddr: bv64): bv64 {
    paddr + 0x1000
  }

  lemma NextPageBits(p: bv64)
    ensures Low12(NextPage(p)) == Low12(p)
    ensures High12(NextPage(p)) == if High12(p) == 0xF_FFFF_FFFF_FFFF then 0 else Inc(High12(p))
    ensures High12(p) != 0xFFFF_FFFF_FFFF_FFFF
  {
  }

  lemma NextPageValue(p: bv64)
    ensures Value(NextPage(p)) == (Value(p) + 4096) % WORD
  {
    hide *;
    TwelveBits(p);
    TwelveBits(NextPage(p));
    NextPageBits(p);
    NoBits();
    ValueFits(p);
    ValueFits(NextPage(p));
    if High12(p) == 0xF_FFFF_FFFF_FFFF {
      LastPageValue();
    } else {
      Successor(High12(p));
    }
    Folded(Value(p) + 4096);
  }

  lemma Folded(x: nat)
    requires x < 0x2_0000_0000_0000_0000
    ensures x % WORD == if x < 0x1_0000_0000_0000_0000 then x else x - 0x1_0000_0000_0000_0000
  {
  }

  predicate PageAligned(paddr: bv64) {
    paddr & 0xFFF == 0
  }

  /** target is a page boundary, n pages after paddr modulo the size of the address space. */
  ghost predicate IsPage(target: bv64, paddr: bv64, n: nat) {
    PageAligned(target) && Value(target) == (Value(paddr) + 4096 * n) % WORD
  }

  lemma FirstIsPage(paddr: bv64)
    requires PageAligned(paddr)
    ensures IsPage(paddr, paddr, 0)
  {
    hide Value;
    ValueFits(paddr);
  }

  /** One page size further on lies the next page. */
  lemma NextIsPage(target: bv64, paddr: bv64, n: nat)
    requires IsPage(target, paddr, n)
    ensures IsPage(NextPage(target), paddr, n + 1)
  {
    hide NextPage;
    hide Value;
    StaysAligned(target);
    NextPageValue(target);
    Wraps(Value(paddr) + 4096 * n, 4096);
  }

  lemma StaysAligned(paddr: bv64)
    requires PageAligned(paddr)
    ensures PageAligned(NextPage(paddr))
  {
  }

  lemma Wraps(x: nat, y: nat)
    ensures (x % WORD + y) % WORD == (x + y) % WORD
  {
    var q := x / WORD;
    assert x + y == WORD * q + (x % WORD + y);
    Multiple(q, x % WORD + y);
  }

  lemma {:induction false} Multiple(q: nat, r: nat)
    ensures (WORD * q + r) % WORD == r % WORD
  {
    if q > 0 {
      Multiple(q - 1, r);
      assert WORD * q + r == WORD * (q - 1) + r + WORD;
    }
  }

  // ---------------------------------------------------------------- reading an address back

  function Joined(x: bv64, y: bv64): bv64 {
    x | y
  }

  predicate Apart(x: bv64, y: bv64) {
    x & y == 0
  }

  lemma ApartHalves(x: bv64, y: bv64)
    requires Apart(x, y)
    ensures Apart(Half(x), Half(y)) && Half(Joined(x, y)) == Joined(Half(x), Half(y)) && Bit(Joined(x, y)) == Bit(x) + Bit(y)
  {
  }

  lemma JoinedNone(y: bv64)
    ensures Joined(0, y) == y
  {
  }

  /** Words without a common bit add up. */
  lemma {:induction false} ApartSum(x: bv64, y: bv64)
    requires Apart(x, y)
    ensures Value(Joined(x, y)) == Value(x) + Value(y)
    decreases Value(x)
  {
    hide *;
    NoBits();
    JoinedNone(y);
    if x != 0 {
      ApartHalves(x, y);
      SmallBits(x, y);
      Halved(x);
      Halved(y);
      Halved(Joined(x, y));
      ApartSum(Half(x), Half(y));
    }
  }

  function Field(x: bv64): bv64 {
    x & 0x7FFF_FFFF_FFFF_F000
  }

  lemma FieldBits(x: bv64)
    requires x & 0xFFF == 0
    ensures x == Field(x) || x == Joined(Field(x), 0x8000_0000_0000_0000)
    ensures Apart(Field(x), 0x8000_0000_0000_0000) && AtMost(Field(x), 0x8000_0000_0000_0000) && Field(x) != 0x8000_0000_0000_0000
  {
  }

  lemma FieldValue(x: bv64)
    requires x & 0xFFF == 0
    ensures Value(Field(x)) == Value(x) % 0x8000_0000_0000_0000
  {
    hide *;
    FieldBits(x);
    TopValue();
    ApartSum(Field(x), 0x8000_0000_0000_0000);
    ValueOrders(Field(x), 0x8000_0000_0000_0000);
    Differ(Field(x), 0x8000_0000_0000_0000);
  }

  /** The entry of a page that leads to the physical address base, as far as an entry can hold it. */
  ghost predicate LeadsTo(e: Entry, nxe: bool, global: bool, base: nat, flags: bv64, memoryType: MemoryType) {
    && Value(Target(e).addr) == base % 0x8000_0000_0000_0000
    && exists paddr: bv64 :: Value(paddr) == base % WORD && IsLeaf(e, nxe, global, paddr, flags, memoryType)
  }

  lemma LeafLeadsTo(e: Entry, nxe: bool, global: bool, target: bv64, paddr: bv64, n: nat, flags: bv64,
                    memoryType: MemoryType)
    requires IsPage(target, paddr, n) && IsLeaf(e, nxe, global, target, flags, memoryType)
    ensures LeadsTo(e, nxe, global, Value(paddr) + 4096 * n, flags, memoryType)
  {
    hide Value;
    hide Target;
    hide Has;
    SameField(e, target);
    FieldValue(target);
    HalfWord(Value(paddr) + 4096 * n);
  }

  lemma SameField(e: bv64, target: bv64)
    requires SameAddress(e, target)
    ensures Target(e).addr == Field(target)
  {
    hide Target;
    TargetIs(e);
  }

  lemma HalfWord(x: nat)
    ensures x % WORD % 0x8000_0000_0000_0000 == x % 0x8000_0000_0000_0000
  {
    var q := x / WORD;
    assert x == WORD * q + x % WORD;
    Halfs(2 * q, x % WORD);
  }

  lemma {:induction false} Halfs(q: nat, r: nat)
    ensures (0x8000_0000_0000_0000 * q + r) % 0x8000_0000_0000_0000 == r % 0x8000_0000_0000_0000
  {
    if q > 0 {
      Halfs(q - 1, r);
    }
  }
}

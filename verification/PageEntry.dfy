/**
  The 64-bit entries of x86_64 page tables: flag bits and the address field
  (kernel/arch/x86_64/PageTable.cpp, kernel/include/kernel/Memory/PageTable.h).
 */
module PageEntry {
  import opened WordBits

  /** The frame of physical memory that starts at an address. */
  datatype Frame = Frame(addr: bv64)
  type Entry = bv64

  const PRESENT: bv64 := 0x1
  const READ_WRITE: bv64 := 0x2
  const USER: bv64 := 0x4
  const RESERVED: bv64 := 0x200
  const USED: bv64 := 0x201
  const FLAG_MASK: bv64 := 0x8000_0000_0000_0FFF
  const ADDR_MASK: bv64 := 0x7FFF_FFFF_FFFF_F000

  predicate Has(e: Entry, flag: bv64) {
    e & flag != 0
  }

  /** The table that a present entry points to. */
  function Target(e: Entry): Frame {
    Frame(e & ADDR_MASK)
  }

  /** Bits that do not reach into the address of an entry. */
  predicate FlagsOnly(flags: bv64) {
    flags & ADDR_MASK == 0
  }

  function WithFlags(e: Entry, flags: bv64): Entry {
    e | flags
  }

  /** What take_free_page returns: a page-aligned, non-null physical address. */
  predicate Aligned(f: Frame) {
    f.addr & FLAG_MASK == 0 && f.addr != 0
  }

  datatype MemoryType = Normal | Uncached | WriteCombining | WriteThrough

  const EXECUTE: bv64 := 0x8000
  const NO_EXECUTE: bv64 := 0x8000_0000_0000_0000

  /** The set bits of a flag word that map_page_at adds to a leaf entry beside the protection bits. */
  function ExtraFlags(nxe: bool, global: bool, flags: bv64, memoryType: MemoryType): bv64 {
    WithFlags(WithFlags(WithFlags(GlobalFlag(global), ExecuteFlag(nxe, flags)), ReservedFlag(flags)),
              CacheFlags(memoryType))
  }

  function GlobalFlag(global: bool): bv64 {
    if global then 0x100 else 0
  }

  function ExecuteFlag(nxe: bool, flags: bv64): bv64 {
    if nxe && !Has(flags, EXECUTE) then NO_EXECUTE else 0
  }

  function ReservedFlag(flags: bv64): bv64 {
    if Has(flags, RESERVED) then RESERVED else 0
  }

  function CacheFlags(memoryType: MemoryType): bv64 {
    match memoryType
    case Normal => 0
    case Uncached => 0x10
    case WriteCombining => 0x80
    case WriteThrough => 0x88
  }

  function TableFlags(flags: bv64): bv64 {
    (flags & (USER | READ_WRITE)) | PRESENT
  }

  function LeafFlags(flags: bv64): bv64 {
    if Has(flags, PRESENT) then TableFlags(flags) else TableFlags(flags) & 0xFFFF_FFFF_FFFF_FFFE
  }

  /** The entry that map_page_at writes. */
  function LeafEntry(nxe: bool, global: bool, paddr: bv64, flags: bv64, memoryType: MemoryType): Entry {
    WithFlags(WithFlags(paddr, LeafFlags(flags)), ExtraFlags(nxe, global, flags, memoryType))
  }

  function ParseFlags(nxe: bool, entry: Entry): bv64 {
    (if nxe && !Has(entry, NO_EXECUTE) then EXECUTE else 0)
    | (if Has(entry, RESERVED) then RESERVED else 0)
    | (if Has(entry, USER) then USER else 0)
    | (if Has(entry, READ_WRITE) then READ_WRITE else 0)
    | (if Has(entry, PRESENT) then PRESENT else 0)
  }

  /** The five bits of an entry that parse_flags looks at. */
  datatype Bits = Bits(present: bool, write: bool, user: bool, reserved: bool, noExecute: bool)

  function BitsOf(e: Entry): Bits {
    Bits(Has(e, PRESENT), Has(e, READ_WRITE), Has(e, USER), Has(e, RESERVED), Has(e, NO_EXECUTE))
  }

  function Both(a: Bits, b: Bits): Bits {
    Bits(a.present || b.present, a.write || b.write, a.user || b.user, a.reserved || b.reserved, a.noExecute || b.noExecute)
  }

  const NO_BITS := Bits(false, false, false, false, false)

  lemma Join(a: bv64, b: bv64)
    ensures BitsOf(WithFlags(a, b)) == Both(BitsOf(a), BitsOf(b))
    ensures FlagsOnly(b) ==> Target(WithFlags(a, b)) == Target(a)
    ensures FlagsOnly(a) && FlagsOnly(b) ==> FlagsOnly(WithFlags(a, b))
  {
    hide BitsOf;
    hide FlagsOnly;
    hide Target;
    JoinBits(a, b);
    JoinAddress(a, b);
  }

  lemma JoinBits(a: bv64, b: bv64)
    ensures BitsOf(a | b) == Both(BitsOf(a), BitsOf(b))
  {
  }

  lemma JoinAddress(a: bv64, b: bv64)
    ensures FlagsOnly(b) ==> Target(a | b) == Target(a)
    ensures FlagsOnly(a) && FlagsOnly(b) ==> FlagsOnly(a | b)
  {
  }

  lemma SingleFlags(nxe: bool, global: bool, flags: bv64, memoryType: MemoryType)
    ensures BitsOf(GlobalFlag(global)) == NO_BITS && FlagsOnly(GlobalFlag(global))
    ensures BitsOf(ExecuteFlag(nxe, flags)) == NO_BITS.(noExecute := nxe && !Has(flags, EXECUTE))
    ensures BitsOf(ReservedFlag(flags)) == NO_BITS.(reserved := Has(flags, RESERVED))
    ensures BitsOf(CacheFlags(memoryType)) == NO_BITS && FlagsOnly(CacheFlags(memoryType))
    ensures FlagsOnly(ExecuteFlag(nxe, flags)) && FlagsOnly(ReservedFlag(flags))
  {
  }

  lemma ExtraBits(nxe: bool, global: bool, flags: bv64, memoryType: MemoryType)
    ensures BitsOf(ExtraFlags(nxe, global, flags, memoryType))
         == NO_BITS.(reserved := Has(flags, RESERVED), noExecute := nxe && !Has(flags, EXECUTE))
    ensures FlagsOnly(ExtraFlags(nxe, global, flags, memoryType))
  {
    hide GlobalFlag;
    hide ExecuteFlag;
    hide ReservedFlag;
    hide CacheFlags;
    hide FlagsOnly;
    hide Target;
    hide Has;
    hide WithFlags;
    SingleFlags(nxe, global, flags, memoryType);
    Join(GlobalFlag(global), ExecuteFlag(nxe, flags));
    Join(WithFlags(GlobalFlag(global), ExecuteFlag(nxe, flags)), ReservedFlag(flags));
    Join(WithFlags(WithFlags(GlobalFlag(global), ExecuteFlag(nxe, flags)), ReservedFlag(flags)), CacheFlags(memoryType));
  }

  lemma LeafFlagBits(flags: bv64)
    ensures BitsOf(LeafFlags(flags)) == Bits(Has(flags, PRESENT), Has(flags, READ_WRITE), Has(flags, USER), false, false)
    ensures FlagsOnly(LeafFlags(flags))
  {
  }

  lemma AddressBits(paddr: bv64)
    requires paddr & 0xFFF == 0
    ensures BitsOf(paddr) == NO_BITS.(noExecute := Has(paddr, NO_EXECUTE))
  {
  }

  lemma LeafBits(nxe: bool, global: bool, paddr: bv64, flags: bv64, memoryType: MemoryType)
    requires paddr & 0xFFF == 0
    ensures BitsOf(LeafEntry(nxe, global, paddr, flags, memoryType))
         == BitsOf(flags).(noExecute := Has(paddr, NO_EXECUTE) || (nxe && !Has(flags, EXECUTE)))
    ensures Target(LeafEntry(nxe, global, paddr, flags, memoryType)) == Target(paddr)
  {
    hide ExtraFlags;
    hide LeafFlags;
    hide FlagsOnly;
    hide Target;
    hide Has;
    hide WithFlags;
    AddressBits(paddr);
    ExtraBits(nxe, global, flags, memoryType);
    LeafFlagBits(flags);
    Join(paddr, LeafFlags(flags));
    Join(WithFlags(paddr, LeafFlags(flags)), ExtraFlags(nxe, global, flags, memoryType));
  }

  // ---------------------------------------------------------------- caching

  /** The bits PAT, PCD and PWT of a leaf entry, which select a field of the page attribute table. */
  datatype Caching = Caching(pat: bool, pcd: bool, pwt: bool)

  function CachingOf(e: Entry): Caching {
    Caching(Has(e, 0x80), Has(e, 0x10), Has(e, 0x8))
  }

  function Either(a: Caching, b: Caching): Caching {
    Caching(a.pat || b.pat, a.pcd || b.pcd, a.pwt || b.pwt)
  }

  const NO_CACHING := Caching(false, false, false)

  /**
    The page attribute table (Intel SDM volume 3A) with its reset values, but for
    fields 4 and 5, which enable_cpu_features sets to write-combining and write-through.
   */
  function Attribute(c: Caching): MemoryType {
    if c.pat && !c.pcd then (if c.pwt then WriteThrough else WriteCombining)
    else if c.pcd then Uncached
    else if c.pwt then WriteThrough
    else Normal
  }

  lemma JoinCaching(a: bv64, b: bv64)
    ensures CachingOf(WithFlags(a, b)) == Either(CachingOf(a), CachingOf(b))
  {
    hide CachingOf;
    JoinCachingBits(a, b);
  }

  lemma JoinCachingBits(a: bv64, b: bv64)
    ensures CachingOf(a | b) == Either(CachingOf(a), CachingOf(b))
  {
  }

  lemma CachingOfParts(nxe: bool, global: bool, flags: bv64, memoryType: MemoryType)
    ensures CachingOf(GlobalFlag(global)) == NO_CACHING && CachingOf(ExecuteFlag(nxe, flags)) == NO_CACHING
    ensures CachingOf(ReservedFlag(flags)) == NO_CACHING && CachingOf(LeafFlags(flags)) == NO_CACHING
    ensures Attribute(CachingOf(CacheFlags(memoryType))) == memoryType
  {
  }

  lemma AddressCaching(paddr: bv64)
    requires paddr & 0xFFF == 0
    ensures CachingOf(paddr) == NO_CACHING
  {
  }

  /** The processor caches a mapped page the way the caller asked for. */
  lemma CachingReadsBack(nxe: bool, global: bool, paddr: bv64, flags: bv64, memoryType: MemoryType)
    requires paddr & 0xFFF == 0
    ensures Attribute(CachingOf(LeafEntry(nxe, global, paddr, flags, memoryType))) == memoryType
  {
    hide CachingOf;
    hide WithFlags;
    hide GlobalFlag;
    hide ExecuteFlag;
    hide ReservedFlag;
    hide CacheFlags;
    hide LeafFlags;
    CachingOfParts(nxe, global, flags, memoryType);
    AddressCaching(paddr);
    JoinCaching(paddr, LeafFlags(flags));
    JoinCaching(WithFlags(paddr, LeafFlags(flags)), ExtraFlags(nxe, global, flags, memoryType));
    JoinCaching(GlobalFlag(global), ExecuteFlag(nxe, flags));
    JoinCaching(WithFlags(GlobalFlag(global), ExecuteFlag(nxe, flags)), ReservedFlag(flags));
    JoinCaching(WithFlags(WithFlags(GlobalFlag(global), ExecuteFlag(nxe, flags)), ReservedFlag(flags)), CacheFlags(memoryType));
  }

  // ---------------------------------------------------------------- reading back

  /** What a caller maps is what it reads back: the protection bits, and the physical address. */
  lemma LeafRoundTrip(nxe: bool, global: bool, paddr: bv64, flags: bv64, memoryType: MemoryType)
    requires paddr & FLAG_MASK == 0
    ensures var entry := LeafEntry(nxe, global, paddr, flags, memoryType);
            && ParseFlags(nxe, entry)
               == flags & (PRESENT | READ_WRITE | USER | RESERVED | if nxe then EXECUTE else 0)
            && Target(entry) == Frame(paddr)
  {
    hide LeafEntry;
    Physical(paddr);
    LeafBits(nxe, global, paddr, flags, memoryType);
  }

  lemma Physical(paddr: bv64)
    requires paddr & FLAG_MASK == 0
    ensures paddr & 0xFFF == 0 && !Has(paddr, NO_EXECUTE) && Target(paddr) == Frame(paddr)
  {
  }

  // ---------------------------------------------------------------- bits

  lemma EntryBits(f: Frame, flags: bv64)
    requires Aligned(f) && FlagsOnly(flags) && Has(flags, PRESENT)
    ensures Target(WithFlags(f.addr, flags)) == f
    ensures Has(WithFlags(f.addr, flags), PRESENT)
  {
  }

  lemma ZeroBits()
    ensures !Has(0, PRESENT) && !Has(0, USED)
  {
  }

  lemma MoreBits(e: Entry, flags: bv64)
    requires FlagsOnly(flags)
    ensures Target(WithFlags(e, flags)) == Target(e)
    ensures Has(e, PRESENT) ==> Has(WithFlags(e, flags), PRESENT)
  {
  }

  lemma UsedBits(e: Entry)
    ensures Has(e, USED) <==> Has(e, PRESENT) || Has(e, RESERVED)
  {
  }

  /** The rights that an entry grants are among those of an entry above it. */
  predicate RightsWithin(e: Entry, above: Entry) {
    (Has(e, USER) ==> Has(above, USER)) && (Has(e, READ_WRITE) ==> Has(above, READ_WRITE))
  }

  lemma NoRights(above: Entry)
    ensures RightsWithin(0, above) && RightsWithin(PRESENT, above) && RightsWithin(RESERVED, above)
  {
  }

  /** Adding flags to an entry adds their rights and takes none away. */
  lemma MoreRights(e: Entry, flags: bv64)
    ensures RightsWithin(e, WithFlags(e, flags)) && RightsWithin(flags, WithFlags(e, flags))
    ensures forall above :: RightsWithin(e, above) && RightsWithin(flags, above) ==> RightsWithin(WithFlags(e, flags), above)
  {
    hide Has;
    hide WithFlags;
    Join(e, flags);
  }

  lemma FrameHasNoRights(f: Frame, above: Entry)
    requires Aligned(f)
    ensures RightsWithin(f.addr, above)
  {
  }

  lemma FrameExecutes(f: Frame)
    requires Aligned(f)
    ensures !Has(f.addr, NO_EXECUTE)
  {
  }

  lemma AllRights(e: Entry, flags: bv64)
    requires e & flags == flags
    ensures RightsWithin(flags, e)
  {
  }

  /** A mapped entry grants what its flags ask for, which the tables above it grant. */
  lemma LeafRights(nxe: bool, global: bool, paddr: bv64, flags: bv64, memoryType: MemoryType)
    requires paddr & 0xFFF == 0
    ensures RightsWithin(LeafEntry(nxe, global, paddr, flags, memoryType), TableFlags(flags))
    ensures Has(LeafEntry(nxe, global, paddr, flags, memoryType), USER) <==> Has(flags, USER)
    ensures Has(LeafEntry(nxe, global, paddr, flags, memoryType), READ_WRITE) <==> Has(flags, READ_WRITE)
  {
    hide LeafEntry;
    LeafBits(nxe, global, paddr, flags, memoryType);
    TableRights(flags);
  }

  lemma TableRights(flags: bv64)
    ensures Has(TableFlags(flags), USER) <==> Has(flags, USER)
    ensures Has(TableFlags(flags), READ_WRITE) <==> Has(flags, READ_WRITE)
  {
  }

  lemma RightsTransitive(a: Entry, b: Entry, c: Entry)
    requires RightsWithin(a, b) && RightsWithin(b, c)
    ensures RightsWithin(a, c)
  {
  }

  lemma PresentFlag()
    ensures FlagsOnly(PRESENT) && Has(PRESENT, PRESENT) && !Has(PRESENT, NO_EXECUTE)
  {
  }

  lemma AllFlags(e: Entry, flags: bv64)
    requires e & flags == flags && Has(flags, PRESENT)
    ensures Has(e, PRESENT)
  {
  }

  lemma TableFlagBits(flags: bv64)
    ensures FlagsOnly(TableFlags(flags)) && Has(TableFlags(flags), PRESENT) && !Has(TableFlags(flags), NO_EXECUTE)
  {
  }

  /** A mapped entry counts as used exactly when the flags ask for a present or reserved page. */
  lemma LeafUsed(nxe: bool, global: bool, paddr: bv64, flags: bv64, memoryType: MemoryType)
    requires paddr & 0xFFF == 0
    ensures Has(LeafEntry(nxe, global, paddr, flags, memoryType), USED) <==> Has(flags, USED)
  {
    hide LeafEntry;
    hide Has;
    LeafBits(nxe, global, paddr, flags, memoryType);
    UsedBits(LeafEntry(nxe, global, paddr, flags, memoryType));
    UsedBits(flags);
  }

  // ---------------------------------------------------------------- addresses

  predicate IsCanonical(addr: bv64) {
    var high := addr & 0xFFFF_8000_0000_0000;
    high == 0xFFFF_8000_0000_0000 || high == 0
  }

  function Uncanonicalize(addr: bv64): bv64 {
    addr & 0x0000_FFFF_FFFF_FFFF
  }

  function Canonicalize(addr: bv64): bv64 {
    if addr & 0x0000_8000_0000_0000 != 0 then addr | 0xFFFF_0000_0000_0000 else addr
  }

  /** Dropping and restoring the upper bits gives back exactly the canonical addresses. */
  lemma CanonicalRoundTrip(addr: bv64)
    ensures Canonicalize(Uncanonicalize(addr)) == addr <==> IsCanonical(addr)
    ensures IsCanonical(Canonicalize(Uncanonicalize(addr)))
  {
    if addr & 0x0000_8000_0000_0000 == 0 {
      LowerHalf(addr);
    } else {
      UpperHalf(addr);
    }
  }

  lemma LowerHalf(addr: bv64)
    requires addr & 0x0000_8000_0000_0000 == 0
    ensures Canonicalize(Uncanonicalize(addr)) == addr <==> IsCanonical(addr)
    ensures IsCanonical(Canonicalize(Uncanonicalize(addr)))
  {
    assert Uncanonicalize(addr) & 0x0000_8000_0000_0000 == 0;
    assert Uncanonicalize(addr) == addr <==> addr & 0xFFFF_8000_0000_0000 == 0;
  }

  lemma UpperHalf(addr: bv64)
    requires addr & 0x0000_8000_0000_0000 != 0
    ensures Canonicalize(Uncanonicalize(addr)) == addr <==> IsCanonical(addr)
    ensures IsCanonical(Canonicalize(Uncanonicalize(addr)))
  {
    hide IsCanonical;
    assert Canonicalize(Uncanonicalize(addr)) == (addr & 0x0000_FFFF_FFFF_FFFF) | 0xFFFF_0000_0000_0000;
    RestoredIsCanonical(addr);
    if IsCanonical(addr) {
      UpperRestored(addr);
    }
  }

  lemma RestoredIsCanonical(addr: bv64)
    requires addr & 0x0000_8000_0000_0000 != 0
    ensures IsCanonical((addr & 0x0000_FFFF_FFFF_FFFF) | 0xFFFF_0000_0000_0000)
  {
    assert ((addr & 0x0000_FFFF_FFFF_FFFF) | 0xFFFF_0000_0000_0000) & 0xFFFF_8000_0000_0000
        == (addr & 0x0000_8000_0000_0000) | 0xFFFF_0000_0000_0000;
  }

  lemma UpperRestored(addr: bv64)
    requires addr & 0x0000_8000_0000_0000 != 0 && IsCanonical(addr)
    ensures (addr & 0x0000_FFFF_FFFF_FFFF) | 0xFFFF_0000_0000_0000 == addr
  {
    assert addr & 0xFFFF_8000_0000_0000 == 0xFFFF_8000_0000_0000;
    assert addr & 0xFFFF_0000_0000_0000 == 0xFFFF_0000_0000_0000;
  }

  function Index(uc: bv64, shift: nat): bv64
    requires shift <= 64
  {
    (uc >> shift) & 0x1FF
  }

  /** The four indices determine a page: no two canonical pages share a leaf entry. */
  lemma IndicesDeterminePage(a: bv64, b: bv64)
    requires IsCanonical(a) && IsCanonical(b) && a & 0xFFF == 0 && b & 0xFFF == 0
    requires var u, v := Uncanonicalize(a), Uncanonicalize(b);
             Index(u, 39) == Index(v, 39) && Index(u, 30) == Index(v, 30) && Index(u, 21) == Index(v, 21) && Index(u, 12) == Index(v, 12)
    ensures a == b
  {
  }

  /** The number of the page that an address lies in. */
  ghost function PageNumber(addr: bv64): nat {
    Value(Uncanonicalize(addr)) / 4096
  }

  lemma IndicesOfPage(uc: bv64)
    ensures var p := High12(uc);
            && Index(uc, 12) == Low9(p) && Index(uc, 21) == Low9(High9(p))
            && Index(uc, 30) == Low9(High9(High9(p))) && Index(uc, 39) == Low9(High9(High9(High9(p))))
  {
  }

  /** The four indices are the digits of the page number in base 512. */
  lemma IndicesAreDigits(addr: bv64)
    ensures var uc, page := Uncanonicalize(addr), PageNumber(addr);
            && Value(Index(uc, 12)) == page % 512
            && Value(Index(uc, 21)) == page / 512 % 512
            && Value(Index(uc, 30)) == page / 512 / 512 % 512
            && Value(Index(uc, 39)) == page / 512 / 512 / 512 % 512
  {
    hide Value;
    hide Index;
    hide High12;
    hide High9;
    hide Low9;
    hide Uncanonicalize;
    var uc := Uncanonicalize(addr);
    var p := High12(uc);
    ShiftedBy12(uc);
    IndicesOfPage(uc);
    Digit(p);
    Digit(High9(p));
    Digit(High9(High9(p)));
    Digit(High9(High9(High9(p))));
  }

  /** Different pages have different numbers, so that an entry of the flat map belongs to one page. */
  lemma PageNumbersDiffer(a: bv64, b: bv64)
    requires IsCanonical(a) && IsCanonical(b) && a & 0xFFF == 0 && b & 0xFFF == 0
    ensures PageNumber(a) == PageNumber(b) <==> a == b
  {
    if PageNumber(a) == PageNumber(b) {
      SameDigits(a, b);
      IndicesDeterminePage(a, b);
    }
  }

  lemma SameDigits(a: bv64, b: bv64)
    requires PageNumber(a) == PageNumber(b)
    ensures var u, v := Uncanonicalize(a), Uncanonicalize(b);
            Index(u, 39) == Index(v, 39) && Index(u, 30) == Index(v, 30) && Index(u, 21) == Index(v, 21) && Index(u, 12) == Index(v, 12)
  {
    hide *;
    var u, v := Uncanonicalize(a), Uncanonicalize(b);
    IndicesAreDigits(a);
    IndicesAreDigits(b);
    SameValue(Index(u, 12), Index(v, 12));
    SameValue(Index(u, 21), Index(v, 21));
    SameValue(Index(u, 30), Index(v, 30));
    SameValue(Index(u, 39), Index(v, 39));
  }
}

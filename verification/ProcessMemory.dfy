/**
  The mapped regions of a process: look-up, insertion, munmap and mprotect
  (kernel/kernel/Process.cpp), with the 64-bit arithmetic of the source.
 */
module ProcessMemory {
  import opened Options
  import opened RegionList
  import opened Words
  import PageEntry
  import PageLeaf

  /** EINVAL, EACCES and ENOTSUP; Halt stands for a failed kernel assertion. */
  datatype Outcome = Done | InvalidArgument | AccessDenied | NotSupported | Halt

  /** How a round of mprotect's loop ends: at the next region, behind the range, or with an error. */
  datatype Round = Advance(next: nat) | Finished | Refusal | Failure(outcome: Outcome)

  datatype Division = Parts(parts: seq<Region>) | Error(outcome: Outcome)

  // ---------------------------------------------------------------- arithmetic of the source

  predicate Overlaps(r: Region, address: Word, size: Word) {
    Add(address, size) > r.vaddr && address < End(r)
  }

  predicate IsContainedBy(r: Region, address: Word, size: Word) {
    address <= r.vaddr && End(r) <= Add(address, size)
  }

  function RoundUp(n: nat): nat {
    if n % PAGE_SIZE == 0 then n else n + (PAGE_SIZE - n % PAGE_SIZE)
  }

  /** A non-empty page-aligned range whose end is a machine word. */
  predicate Proper(vaddr: Word, len: Word) {
    vaddr % PAGE_SIZE == 0 && len % PAGE_SIZE == 0 && 0 < len && vaddr + len < WORD
  }

  /** The error of a region class that cannot be split. */
  function SplitError(kind: Kind): Outcome {
    match kind
    case Backed => Done
    case SharedObject => InvalidArgument
    case Framebuffer => NotSupported
  }

  /** Two of the region classes refuse; the others assert that the offset is a page boundary inside the region. */
  method Split(r: Region, offset: nat) returns (result: Division)
    ensures r.kind != Backed ==> result == Error(SplitError(r.kind))
    ensures r.kind == Backed ==> (result.Parts? <==> 0 < offset < r.size && offset % PAGE_SIZE == 0)
    ensures r.kind == Backed && result.Error? ==> result.outcome == Halt
    ensures result.Parts? ==> result.parts == [Left(r, r.vaddr + offset), Right(r, r.vaddr + offset)]
  {
    if r.kind == SharedObject {
      return Error(InvalidArgument);
    }
    if r.kind == Framebuffer {
      return Error(NotSupported);
    }
    if !(0 < offset < r.size && offset % PAGE_SIZE == 0) {
      return Error(Halt);
    }
    var left := r.(size := offset);
    var right := r.(vaddr := r.vaddr + offset, size := r.size - offset, offset := r.offset + offset);
    result := Parts([left, right]);
  }

  /** How splitting a region fails: with its own error, or at the assertion that a range which wraps around or is empty meets. */
  function FailureOf(r: Region, base: Word, length: Word): Outcome {
    if r.kind == Backed && !Proper(base, length) then Halt else SplitError(r.kind)
  }

  /** What splitting a region around a range comes to. */
  predicate Divided(region: Region, base: Word, length: Word, result: Division) {
    if result.Parts? then
      && Proper(base, length) && Touches(region, base, base + length) && !Refuses(region, base, base + length)
      && result.parts == Pieces(region, base, base + length)
    else if region.kind == Backed then !Proper(base, length) && result.outcome == Halt
    else (Proper(base, length) ==> Refuses(region, base, base + length)) && result.outcome == SplitError(region.kind)
  }

  lemma AlignedSum(a: Word, b: Word)
    requires a % PAGE_SIZE == 0 && b % PAGE_SIZE == 0
    ensures Add(a, b) % PAGE_SIZE == 0 && (b <= a ==> (a - b) % PAGE_SIZE == 0)
  {
    var p, q := a / PAGE_SIZE, b / PAGE_SIZE;
    assert a == p * PAGE_SIZE && b == q * PAGE_SIZE;
    Multiple(p + q);
    Multiple(p - q);
    Multiple(p + q - WORD / PAGE_SIZE);
  }

  lemma Multiple(n: int)
    ensures n * PAGE_SIZE % PAGE_SIZE == 0
  {
  }

  /** Splits a region at the start of a range, if the region starts before it. */
  method SplitAtStart(r: Region, base: Word) returns (result: Division)
    requires r.vaddr % PAGE_SIZE == 0 && base % PAGE_SIZE == 0 && base < End(r) < WORD
    ensures base <= r.vaddr ==> result == Parts([r])
    ensures r.vaddr < base ==>
      result == if r.kind == Backed then Parts([Left(r, base), Right(r, base)]) else Error(SplitError(r.kind))
  {
    if r.vaddr < base {
      AlignedSum(base, r.vaddr);
      result := Split(r, base - r.vaddr);
    } else {
      result := Parts([r]);
    }
  }

  /** Splits a region at the end of a range, if the range ends before the region does. */
  method SplitAtEnd(r: Region, end: Word) returns (result: Division)
    requires End(r) < WORD && (end < End(r) ==> end % PAGE_SIZE == 0 && r.vaddr % PAGE_SIZE == 0)
    ensures End(r) <= end ==> result == Parts([r])
    ensures end < End(r) && r.kind != Backed ==> result == Error(SplitError(r.kind))
    ensures end < End(r) && r.kind == Backed ==>
      result == if r.vaddr < end then Parts([Left(r, end), Right(r, end)]) else Error(Halt)
  {
    if end < End(r) {
      AlignedSum(end, r.vaddr);
      result := Split(r, Sub(end, r.vaddr));
    } else {
      result := Parts([r]);
    }
  }

  /** Splits a region that a range touches into its parts. */
  method SplitMemoryRegion(region: Region, base: Word, length: Word) returns (result: Division)
    requires base % PAGE_SIZE == 0 && length % PAGE_SIZE == 0
    requires region.vaddr % PAGE_SIZE == 0 && End(region) < WORD && Overlaps(region, base, length)
    ensures Divided(region, base, length, result)
  {
    var n: Word := length;
    AlignedSum(base, length);
    if Add(base, n) > End(region) {
      n := End(region) - base;
    }
    result := SplitAtStart(region, base);
    if result.Error? {
      return;
    }
    var front, r := result.parts[..|result.parts| - 1], result.parts[|result.parts| - 1];
    result := SplitAtEnd(r, Add(base, n));
    if result.Parts? {
      result := Parts(front + result.parts);
    }
  }

  function Keep(r: Region, vaddr: Word, len: Word): seq<Region> {
    if Overlaps(r, vaddr, len) then [] else [r]
  }

  /** The parts of a split region that munmap puts back. */
  function Outside(pieces: seq<Region>, vaddr: Word, len: Word): seq<Region> {
    if pieces == [] then []
    else Outside(pieces[..|pieces| - 1], vaddr, len) + Keep(pieces[|pieces| - 1], vaddr, len)
  }

  lemma CutNext(rs: seq<Region>, k: nat, v: nat, e: nat)
    requires k < |rs|
    ensures CutAll(rs[..k + 1], v, e) == CutAll(rs[..k], v, e) + Cut(rs[k], v, e)
  {
    assert rs[..k + 1][..k] == rs[..k];
  }

  lemma CutContained(r: Region, vaddr: Word, len: Word)
    requires Overlaps(r, vaddr, len) && IsContainedBy(r, vaddr, len) && 0 < r.size && End(r) < WORD
    ensures vaddr + len < WORD && 0 < len && Cut(r, vaddr, vaddr + len) == []
  {
  }

  lemma PiecesOutside(r: Region, vaddr: Word, len: Word)
    requires Proper(vaddr, len) && Touches(r, vaddr, vaddr + len) && End(r) < WORD
    ensures Outside(Pieces(r, vaddr, vaddr + len), vaddr, len) == Cut(r, vaddr, vaddr + len)
  {
    hide Outside;
    var e := vaddr + len;
    var rest := if r.vaddr < vaddr then Right(r, vaddr) else r;
    if r.vaddr < vaddr {
      if e < End(rest) {
        assert Pieces(r, vaddr, e) == [Left(r, vaddr), Left(rest, e), Right(rest, e)];
        OutsideThree(Left(r, vaddr), Left(rest, e), Right(rest, e), vaddr, len);
      } else {
        assert Pieces(r, vaddr, e) == [Left(r, vaddr), rest];
        OutsideTwo(Left(r, vaddr), rest, vaddr, len);
      }
    } else if e < End(rest) {
      assert Pieces(r, vaddr, e) == [Left(rest, e), Right(rest, e)];
      OutsideTwo(Left(rest, e), Right(rest, e), vaddr, len);
    } else {
      assert Pieces(r, vaddr, e) == [rest];
      OutsideOne(rest, vaddr, len);
    }
  }

  lemma OutsideOne(a: Region, vaddr: Word, len: Word)
    ensures Outside([a], vaddr, len) == Keep(a, vaddr, len)
  {
    assert [a][..0] == [];
  }

  lemma OutsideTwo(a: Region, b: Region, vaddr: Word, len: Word)
    ensures Outside([a, b], vaddr, len) == Keep(a, vaddr, len) + Keep(b, vaddr, len)
  {
    assert [a, b][..1] == [a];
    OutsideOne(a, vaddr, len);
  }

  lemma OutsideThree(a: Region, b: Region, c: Region, vaddr: Word, len: Word)
    ensures Outside([a, b, c], vaddr, len) == Keep(a, vaddr, len) + Keep(b, vaddr, len) + Keep(c, vaddr, len)
  {
    assert [a, b, c][..2] == [a, b];
    OutsideTwo(a, b, vaddr, len);
  }

  /** Cutting the regions up to the first one after the range cuts them all. */
  lemma CutRest(rs: seq<Region>, first: nat, k: nat, vaddr: Word, len: Word)
    requires Ordered(rs, 0) && Divides(rs, first, vaddr) && first <= k <= |rs| && Proper(vaddr, len)
    requires k == |rs| || !Overlaps(rs[k], vaddr, len)
    ensures CutAll(rs[..k], vaddr, vaddr + len) + rs[k..] == CutAll(rs, vaddr, vaddr + len)
  {
    hide CutAll;
    hide Ordered;
    if k < |rs| {
      RestOutside(rs, k, vaddr, vaddr + len);
    }
    CutAllOutside(rs[k..], vaddr, vaddr + len);
    CutAllAppend(rs[..k], rs[k..], vaddr, vaddr + len);
    assert rs[..k] + rs[k..] == rs;
  }

  /** munmap stops at the first region that refuses, which is then gone. */
  ghost predicate StopsAt(rs: seq<Region>, rs': seq<Region>, k: nat, vaddr: Word, len: Word, outcome: Outcome) {
    var e := vaddr + len;
    && k < |rs| && Refuses(rs[k], vaddr, e) && NoneRefuses(rs[..k], vaddr, e) && outcome == SplitError(rs[k].kind)
    && rs' == CutAll(rs[..k], vaddr, e) + rs[k + 1..]
  }

  lemma OneMore(rs: seq<Region>, k: nat, v: nat, e: nat)
    requires k < |rs| && NoneRefuses(rs[..k], v, e) && !Refuses(rs[k], v, e)
    ensures NoneRefuses(rs[..k + 1], v, e)
  {
    assert rs[..k + 1] == rs[..k] + [rs[k]];
  }

  lemma OneRefuses(rs: seq<Region>, k: nat, v: nat, e: nat)
    requires k < |rs| && Refuses(rs[k], v, e)
    ensures !NoneRefuses(rs, v, e)
  {
    assert rs[k] in rs;
  }

  lemma NoneOutsideRefuses(rs: seq<Region>, v: nat, e: nat)
    requires forall r :: r in rs ==> !Touches(r, v, e)
    ensures NoneRefuses(rs, v, e)
  {
  }

  /** Behind the range nothing refuses. */
  lemma NoneLaterRefuses(rs: seq<Region>, k: nat, vaddr: Word, len: Word)
    requires Ordered(rs, 0) && k <= |rs| && Proper(vaddr, len) && NoneRefuses(rs[..k], vaddr, vaddr + len)
    requires k == |rs| || (!Overlaps(rs[k], vaddr, len) && vaddr < End(rs[k]))
    ensures NoneRefuses(rs, vaddr, vaddr + len)
  {
    hide Ordered;
    if k < |rs| {
      RestOutside(rs, k, vaddr, vaddr + len);
    }
    assert rs == rs[..k] + rs[k..];
  }

  /** Region r' starts later than r, or as r does but is shorter. */
  predicate Closer(r: Region, r': Region) {
    r.vaddr < r'.vaddr || (r.vaddr == r'.vaddr && r'.size < r.size)
  }

  /** A well-formed region that does not end before v. */
  predicate InReach(r: Region, v: nat) {
    0 < r.size && r.vaddr % PAGE_SIZE == 0 && v < End(r) < WORD
  }

  lemma InReachHere(r: Region, vaddr: Word, len: Word)
    requires InReach(r, vaddr) && Overlaps(r, vaddr, len) && !IsContainedBy(r, vaddr, len)
    ensures r.vaddr % PAGE_SIZE == 0 && End(r) < WORD
    ensures Proper(vaddr, len) ==>
      && Touches(r, vaddr, vaddr + len) && !Inside(r, vaddr, vaddr + len) && (Refuses(r, vaddr, vaddr + len) <==> r.kind != Backed)
      && (r.kind != Backed ==> SplitError(r.kind) != Done)
  {
  }

  /** The piece to go on with, and the one before it. */
  lemma NextPiece(r: Region, vaddr: Word, len: Word, flags: bv64)
    requires Proper(vaddr, len) && InReach(r, vaddr) && Touches(r, vaddr, vaddr + len) && !Inside(r, vaddr, vaddr + len)
    ensures var ps, m := Pieces(r, vaddr, vaddr + len), if r.vaddr < vaddr then 1 else 0;
            && m < |ps| && Closer(r, ps[m]) && InReach(ps[m], vaddr)
            && (m == 1 ==> Whole(ps[0], vaddr, vaddr + len) && !Inside(ps[0], vaddr, vaddr + len)
                           && Recolour(ps[0], vaddr, vaddr + len, flags) == ps[0])
  {
  }

  // ---------------------------------------------------------------- ranges that callers ask for

  function RangeStart(addr: nat): nat {
    addr - addr % PAGE_SIZE
  }

  /** The end of the page-rounded range, without the wrap-around of machine words. */
  function RangeEnd(addr: nat, length: nat): nat {
    RoundUp(addr + length)
  }

  predicate Fits(addr: nat, length: nat) {
    RangeEnd(addr, length) < WORD
  }

  /** The range that munmap works on, with the wrap-around. */
  function Rounded(addr: Word, length: Word): (Word, Word) {
    var len := Add(length, addr % PAGE_SIZE);
    (addr - addr % PAGE_SIZE, if len % PAGE_SIZE == 0 then len else Add(len, PAGE_SIZE - len % PAGE_SIZE))
  }

  lemma RoundedRange(addr: Word, length: Word)
    requires length != 0
    ensures var r := Rounded(addr, length); r.0 % PAGE_SIZE == 0 && r.1 % PAGE_SIZE == 0
    ensures var r := Rounded(addr, length);
            Fits(addr, length) ==> Proper(r.0, r.1) && r.0 == RangeStart(addr) && r.0 + r.1 == RangeEnd(addr, length)
  {
    hide RoundUp;
    RoundedWord(Add(length, addr % PAGE_SIZE));
    RoundedSum(addr, length);
    if Fits(addr, length) {
      assert addr + length <= RangeEnd(addr, length) by {
        RoundedUp(addr + length);
      }
    }
  }

  lemma RoundedUp(n: nat)
    ensures n <= RoundUp(n) && RoundUp(n) % PAGE_SIZE == 0
  {
  }

  lemma RoundedWord(len: Word)
    ensures var r := if len % PAGE_SIZE == 0 then len else Add(len, PAGE_SIZE - len % PAGE_SIZE);
            r % PAGE_SIZE == 0 && r == if RoundUp(len) < WORD then RoundUp(len) else RoundUp(len) - WORD
  {
  }

  lemma RoundedSum(addr: nat, length: nat)
    ensures RangeStart(addr) % PAGE_SIZE == 0
    ensures RangeStart(addr) + RoundUp(length + addr % PAGE_SIZE) == RangeEnd(addr, length)
    ensures RoundUp(length + addr % PAGE_SIZE) % PAGE_SIZE == 0
  {
    hide RoundUp;
    RoundedUp(length + addr % PAGE_SIZE);
    assert RangeStart(addr) == addr / PAGE_SIZE * PAGE_SIZE;
    RoundUpShift(addr / PAGE_SIZE, length + addr % PAGE_SIZE);
  }

  lemma RoundUpShift(pages: nat, n: nat)
    ensures RoundUp(pages * PAGE_SIZE + n) == pages * PAGE_SIZE + RoundUp(n)
  {
    assert (pages * PAGE_SIZE + n) % PAGE_SIZE == n % PAGE_SIZE;
  }

  datatype Protection = Protection(read: bool, write: bool, execute: bool)

  function PageFlags(prot: Protection): bv64 {
    var read: bv64 := if prot.read then PageEntry.PRESENT else 0;
    var write: bv64 := if prot.write then PageEntry.PRESENT | PageEntry.READ_WRITE else 0;
    var execute: bv64 := if prot.execute then PageEntry.PRESENT | PageEntry.EXECUTE else 0;
    var flags := read | write | execute;
    if flags == 0 then PageEntry.RESERVED else flags | PageEntry.USER
  }

  predicate AllowsSomething(prot: Protection) {
    prot.read || prot.write || prot.execute
  }

  /** The page flags say what the protection says, and nothing else. */
  predicate Stands(flags: bv64, prot: Protection) {
    && (PageEntry.Has(flags, PageEntry.READ_WRITE) <==> prot.write)
    && (PageEntry.Has(flags, PageEntry.EXECUTE) <==> prot.execute)
    && (PageEntry.Has(flags, PageEntry.PRESENT) <==> AllowsSomething(prot))
    && (PageEntry.Has(flags, PageEntry.USER) <==> AllowsSomething(prot))
    && (PageEntry.Has(flags, PageEntry.RESERVED) <==> !AllowsSomething(prot))
    && flags & 0xFFFF_FFFF_FFFF_7DF8 == 0
  }

  lemma PageFlagsStand(prot: Protection)
    ensures Stands(PageFlags(prot), prot)
  {
  }

  /** The entry that such flags become lets a user do what the protection says. */
  lemma EntryStands(flags: bv64, prot: Protection, e: bv64, nxe: bool, global: bool, paddr: bv64,
                    memoryType: PageEntry.MemoryType)
    requires Stands(flags, prot) && PageLeaf.IsLeaf(e, nxe, global, paddr, flags, memoryType) && paddr & PageEntry.FLAG_MASK == 0
    ensures PageEntry.Has(e, PageEntry.PRESENT) <==> AllowsSomething(prot)
    ensures PageEntry.Has(e, PageEntry.USER) <==> AllowsSomething(prot)
    ensures PageEntry.Has(e, PageEntry.READ_WRITE) <==> prot.write
    ensures PageEntry.Has(e, PageEntry.NO_EXECUTE) <==> nxe && !prot.execute
  {
    hide PageEntry.Has;
    PageEntry.Physical(paddr);
  }

  // ---------------------------------------------------------------- what munmap comes to

  /** Exactly the addresses of the range are no longer mapped. */
  ghost predicate RemovedFrom(rs: seq<Region>, rs': seq<Region>, v: nat, e: nat) {
    forall a: nat :: Find(rs', a) == if v <= a < e then None else Find(rs, a)
  }

  /** Which outcome there is, and which addresses are then no longer mapped. */
  ghost predicate UnmapResult(rs: seq<Region>, rs': seq<Region>, v: nat, e: nat, outcome: Outcome) {
    && (outcome == Done <==> NoneRefuses(rs, v, e))
    && (outcome == Done ==> RemovedFrom(rs, rs', v, e))
    && (outcome != Done ==>
          exists r :: FirstToRefuse(rs, r, v, e) && outcome == SplitError(r.kind) && LostIn(rs, rs', r, v))
  }

  lemma Unmaps(rs: seq<Region>, rs': seq<Region>, vaddr: Word, len: Word, outcome: Outcome)
    requires Ordered(rs, 0) && Proper(vaddr, len)
    requires NoneRefuses(rs, vaddr, vaddr + len) ==> outcome == Done && rs' == CutAll(rs, vaddr, vaddr + len)
    requires !NoneRefuses(rs, vaddr, vaddr + len) ==> exists k: nat :: StopsAt(rs, rs', k, vaddr, len, outcome)
    ensures Ordered(rs', 0) && UnmapResult(rs, rs', vaddr, vaddr + len, outcome)
  {
    hide Ordered;
    hide Find;
    hide CutAll;
    hide Refuses;
    hide LostIn;
    hide FirstToRefuse;
    var e := vaddr + len;
    if NoneRefuses(rs, vaddr, e) {
      CutAllOrdered(rs, vaddr, e, 0);
      forall a: nat ensures Find(rs', a) == if vaddr <= a < e then None else Find(rs, a) {
        CutAllFind(rs, vaddr, e, a);
      }
    } else {
      var k: nat :| StopsAt(rs, rs', k, vaddr, len, outcome);
      RefusesIsPartial(rs[k], vaddr, e);
      CutUpTo(rs, k, vaddr, e);
      FirstIs(rs, k, vaddr, e);
    }
  }

  // ---------------------------------------------------------------- ranges that wrap around or are empty

  /** The addresses of r are no longer mapped, and all others are as before. */
  ghost predicate LostAlone(rs: seq<Region>, rs': seq<Region>, r: Region) {
    forall a: nat :: Find(rs', a) == if Contains(r, a) then None else Find(rs, a)
  }

  /**
    What munmap and mprotect come to on such a range: nothing happens if and only if no region overlaps it, an assertion
    fails if and only if one that can be split does, and one that cannot is lost.
   */
  ghost predicate MisfitResult(rs: seq<Region>, rs': seq<Region>, vaddr: Word, len: Word, outcome: Outcome) {
    && (outcome == Done <==> forall r :: r in rs ==> !Overlaps(r, vaddr, len))
    && (outcome == Done ==> rs' == rs)
    && (outcome == Halt <==> exists r :: r in rs && Overlaps(r, vaddr, len) && r.kind == Backed)
    && (outcome != Done && outcome != Halt ==>
          && Ordered(rs', 0)
          && exists r :: r in rs && Overlaps(r, vaddr, len) && outcome == SplitError(r.kind) && LostAlone(rs, rs', r))
  }

  /** Only the region that the range starts in can overlap it. */
  lemma OneOverlaps(rs: seq<Region>, first: nat, vaddr: Word, len: Word)
    requires Ordered(rs, 0) && Divides(rs, first, vaddr) && !Proper(vaddr, len)
    requires vaddr % PAGE_SIZE == 0 && len % PAGE_SIZE == 0
    ensures forall r :: r in rs && Overlaps(r, vaddr, len) ==> first < |rs| && r == rs[first]
  {
    hide Ordered;
    forall r | r in rs && Overlaps(r, vaddr, len) ensures first < |rs| && r == rs[first] {
      var j :| 0 <= j < |rs| && rs[j] == r;
      OrderedMember(rs, 0, j);
      if first < j {
        OrderedPair(rs, 0, first, j);
      }
    }
  }

  lemma MisfitPasses(rs: seq<Region>, first: nat, vaddr: Word, len: Word)
    requires Ordered(rs, 0) && Divides(rs, first, vaddr) && !Proper(vaddr, len)
    requires vaddr % PAGE_SIZE == 0 && len % PAGE_SIZE == 0 && (first < |rs| ==> !Overlaps(rs[first], vaddr, len))
    ensures MisfitResult(rs, rs, vaddr, len, Done)
  {
    OneOverlaps(rs, first, vaddr, len);
  }

  lemma MisfitStops(rs: seq<Region>, first: nat, vaddr: Word, len: Word)
    requires Ordered(rs, 0) && Divides(rs, first, vaddr) && !Proper(vaddr, len)
    requires vaddr % PAGE_SIZE == 0 && len % PAGE_SIZE == 0 && first < |rs| && Overlaps(rs[first], vaddr, len)
    ensures MisfitResult(rs, rs[..first] + rs[first + 1..], vaddr, len, FailureOf(rs[first], vaddr, len))
  {
    hide Ordered;
    hide Find;
    OneOverlaps(rs, first, vaddr, len);
    assert rs[first] in rs;
    Forgotten(rs, first);
  }

  lemma Forgotten(rs: seq<Region>, k: nat)
    requires Ordered(rs, 0) && k < |rs|
    ensures Ordered(rs[..k] + rs[k + 1..], 0) && LostAlone(rs, rs[..k] + rs[k + 1..], rs[k])
  {
    hide Ordered;
    hide Find;
    hide Last;
    var x, r, y := rs[..k], rs[k], rs[k + 1..];
    Around(rs, k);
    OrderedLower(y, End(r), Last(x, 0));
    OrderedAppend(x, y, 0);
    forall a: nat ensures Find(x + y, a) == if Contains(r, a) then None else Find(rs, a) {
      FindAround(rs, k, a);
      FindAppend(x, y, a);
    }
  }

  lemma ProperFailure(r: Region, vaddr: Word, len: Word)
    requires Proper(vaddr, len)
    ensures FailureOf(r, vaddr, len) == SplitError(r.kind)
  {
  }

  // ---------------------------------------------------------------- what mprotect comes to

  /** The range may be protected up to a region that refuses to be split. */
  ghost predicate SplitStops(rs: seq<Region>, r: Region, v: nat, e: nat, wantWrite: bool) {
    FirstToRefuse(rs, r, v, e) && Permitted(rs, v, r.vaddr, wantWrite)
  }

  /** The range may be protected up to this address, which refuses. */
  ghost predicate AccessStops(rs: seq<Region>, c: nat, v: nat, e: nat, wantWrite: bool) {
    && v <= c < e && Refused(rs, c, wantWrite) && Permitted(rs, v, c, wantWrite)
    && forall q :: q in rs && Refuses(q, v, e) ==> c < q.vaddr
  }

  /** Which of the three outcomes there is, and what the addresses then map to. */
  ghost predicate ProtectResult(rs: seq<Region>, rs': seq<Region>, v: nat, e: nat, flags: bv64, wantWrite: bool, outcome: Outcome) {
    && (outcome == Done <==> Permitted(rs, v, e, wantWrite) && NoneRefuses(rs, v, e))
    && (outcome == AccessDenied <==> exists c :: AccessStops(rs, c, v, e, wantWrite))
    && (outcome != Done && outcome != AccessDenied <==> exists r :: SplitStops(rs, r, v, e, wantWrite))
    && (outcome == Done ==> Protected(rs, rs', v, e, flags))
    && (outcome == AccessDenied ==> exists c :: AccessStops(rs, c, v, e, wantWrite) && Protected(rs, rs', v, c, flags))
    && (outcome != Done && outcome != AccessDenied ==>
          exists r :: SplitStops(rs, r, v, e, wantWrite) && outcome == SplitError(r.kind) && LostAfter(rs, rs', r, v, flags))
  }

  /** A region that refuses comes first, or an address does; not both. */
  lemma OneStops(rs: seq<Region>, r: Region, c: nat, v: nat, e: nat, wantWrite: bool)
    ensures !(SplitStops(rs, r, v, e, wantWrite) && AccessStops(rs, c, v, e, wantWrite))
  {
  }

  lemma NothingStops(rs: seq<Region>, v: nat, e: nat, wantWrite: bool)
    requires Permitted(rs, v, e, wantWrite) && NoneRefuses(rs, v, e)
    ensures !(exists c :: AccessStops(rs, c, v, e, wantWrite)) && !(exists r :: SplitStops(rs, r, v, e, wantWrite))
  {
  }

  /** What mprotect comes to, with the page flags that stand for the protection. */
  ghost predicate ProtectsAs(rs: seq<Region>, rs': seq<Region>, v: nat, e: nat, prot: Protection, outcome: Outcome) {
    exists flags :: Stands(flags, prot) && ProtectResult(rs, rs', v, e, flags, prot.write, outcome)
  }

  lemma ProtectsWithFlags(rs: seq<Region>, rs': seq<Region>, v: nat, e: nat, prot: Protection, outcome: Outcome)
    requires ProtectResult(rs, rs', v, e, PageFlags(prot), prot.write, outcome)
    ensures ProtectsAs(rs, rs', v, e, prot, outcome)
    ensures outcome == Done ==> forall a: nat :: v <= a < e && Find(rs, a).Some? ==>
              Find(rs', a).Some? && Stands(Find(rs', a).value.flags, prot)
  {
    hide Stands;
    hide PageFlags;
    PageFlagsStand(prot);
  }

  lemma Ends(rs: seq<Region>, fine: seq<Region>, now: seq<Region>, i: nat, v: nat, e: nat, flags: bv64, wantWrite: bool)
    requires Progress(rs, fine, now, i, v, e, flags, wantWrite) && Ahead(rs, fine, i, v, e)
    requires v < e && (i == |fine| || e <= fine[i].vaddr)
    ensures Ordered(now, 0) && ProtectResult(rs, now, v, e, flags, wantWrite, Done)
  {
    hide Ordered;
    hide Protected;
    hide Permitted;
    ProgressHere(rs, fine, now, i, v, e, flags, wantWrite);
    ProgressEnds(rs, fine, now, i, v, e, flags, wantWrite);
    AheadEnds(rs, fine, i, v, e);
    NothingStops(rs, v, e, wantWrite);
  }

  lemma Stops(rs: seq<Region>, fine: seq<Region>, now: seq<Region>, i: nat, v: nat, e: nat, flags: bv64, wantWrite: bool)
    requires Progress(rs, fine, now, i, v, e, flags, wantWrite) && Ahead(rs, fine, i, v, e)
    requires i < |fine| && Inside(fine[i], v, e) && !Allowed(fine[i].shared, fine[i].writable, wantWrite)
    ensures Ordered(now, 0) && ProtectResult(rs, now, v, e, flags, wantWrite, AccessDenied)
  {
    hide Ordered;
    hide Protected;
    hide Progress;
    hide Ahead;
    hide Permitted;
    hide Refused;
    ProgressHere(rs, fine, now, i, v, e, flags, wantWrite);
    ProgressStops(rs, fine, now, i, v, e, flags, wantWrite);
    ProgressBefore(rs, fine, now, i, v, e, flags, wantWrite);
    AheadIsLater(rs, fine, i, v, e);
    OrderedMember(fine, 0, i);
    assert AccessStops(rs, fine[i].vaddr, v, e, wantWrite);
    forall r ensures !SplitStops(rs, r, v, e, wantWrite) {
      OneStops(rs, r, fine[i].vaddr, v, e, wantWrite);
    }
  }

  lemma Loses(rs: seq<Region>, fine: seq<Region>, now: seq<Region>, i: nat, v: nat, e: nat, flags: bv64, wantWrite: bool)
    requires Progress(rs, fine, now, i, v, e, flags, wantWrite) && Ahead(rs, fine, i, v, e)
    requires i < |fine| && Refuses(fine[i], v, e)
    ensures i < |now| && Ordered(now[..i] + now[i + 1..], 0)
    ensures ProtectResult(rs, now[..i] + now[i + 1..], v, e, flags, wantWrite, SplitError(fine[i].kind))
  {
    hide Ordered;
    hide Progress;
    hide Permitted;
    hide LostAfter;
    var r := fine[i];
    ProgressHere(rs, fine, now, i, v, e, flags, wantWrite);
    ProgressLoses(rs, fine, now, i, v, e, flags, wantWrite);
    ProgressBefore(rs, fine, now, i, v, e, flags, wantWrite);
    AheadIsLater(rs, fine, i, v, e);
    assert r in fine[i..];
    assert FirstToRefuse(rs, r, v, e);
    assert SplitStops(rs, r, v, e, wantWrite);
    forall c ensures !AccessStops(rs, c, v, e, wantWrite) {
      OneStops(rs, r, c, v, e, wantWrite);
    }
  }

  lemma RefusesIsPartial(r: Region, v: nat, e: nat)
    requires Refuses(r, v, e)
    ensures Touches(r, v, e) && r.kind != Backed && SplitError(r.kind) != Done
  {
  }

  lemma FirstIs(rs: seq<Region>, k: nat, v: nat, e: nat)
    requires Ordered(rs, 0) && k < |rs| && Refuses(rs[k], v, e) && NoneRefuses(rs[..k], v, e)
    ensures FirstToRefuse(rs, rs[k], v, e)
  {
    hide Ordered;
    forall j | 0 <= j < k ensures !Refuses(rs[j], v, e) {
      assert rs[..k][j] == rs[j];
    }
    forall q | q in rs && Refuses(q, v, e) ensures rs[k].vaddr <= q.vaddr {
      var j :| 0 <= j < |rs| && rs[j] == q;
      if k < j {
        OrderedPair(rs, 0, k, j);
      }
    }
  }

  class Process {
    var regions: seq<Region>

    /** Sorted by address, pairwise disjoint, page aligned and not empty. */
    ghost predicate Valid()
      reads this
    {
      Ordered(regions, 0)
    }

    constructor (regions: seq<Region>)
      requires Ordered(regions, 0)
      ensures Valid() && this.regions == regions
    {
      this.regions := regions;
    }

    /** Binary search: the region that contains an address, or else where one would be inserted. */
    method FindMappedRegion(address: Word) returns (index: nat)
      requires Valid()
      ensures Divides(regions, index, address)
    {
      var l, r := 0, |regions|;
      while l < r
        invariant 0 <= l <= r <= |regions|
        invariant forall j :: 0 <= j < l ==> End(regions[j]) <= address
        invariant forall j :: r <= j < |regions| ==> address < End(regions[j])
      {
        var mid := (l + r) / 2;
        OrderedMember(regions, 0, mid);
        forall j | 0 <= j < mid ensures End(regions[j]) <= regions[mid].vaddr {
          OrderedPair(regions, 0, j, mid);
        }
        forall j | mid < j < |regions| ensures End(regions[mid]) <= regions[j].vaddr {
          OrderedPair(regions, 0, mid, j);
        }
        forall j | 0 <= j < |regions| ensures 0 < regions[j].size {
          OrderedMember(regions, 0, j);
        }
        if Contains(regions[mid], address) {
          return mid;
        }
        if regions[mid].vaddr < address {
          l := mid + 1;
        } else {
          r := mid;
        }
      }
      index := l;
    }

    /** Inserts the parts of a split region that lie outside a range after index i. */
    method InsertOutside(i: int, pieces: seq<Region>, vaddr: Word, len: Word) returns (last: int)
      requires -1 <= i < |regions|
      modifies this
      ensures last == i + |Outside(pieces, vaddr, len)|
      ensures regions == old(regions)[..i + 1] + Outside(pieces, vaddr, len) + old(regions)[i + 1..]
    {
      last := i;
      ghost var rs := regions;
      for j := 0 to |pieces|
        invariant last == i + |Outside(pieces[..j], vaddr, len)|
        invariant regions == rs[..i + 1] + Outside(pieces[..j], vaddr, len) + rs[i + 1..]
      {
        assert pieces[..j + 1][..j] == pieces[..j];
        if !Overlaps(pieces[j], vaddr, len) {
          last := last + 1;
          regions := regions[..last] + [pieces[j]] + regions[last..];
        }
      }
      assert pieces[..|pieces|] == pieces;
    }

    /** Removes the region at an index, and puts back what lies outside the range; if it refuses to be split, it is gone. */
    method UnmapRegion(i: nat, vaddr: Word, len: Word) returns (outcome: Outcome, next: nat)
      requires i < |regions| && vaddr % PAGE_SIZE == 0 && len % PAGE_SIZE == 0
      requires var r := regions[i]; 0 < r.size && r.vaddr % PAGE_SIZE == 0 && End(r) < WORD && Overlaps(r, vaddr, len)
      modifies this
      ensures outcome == Done <==> Proper(vaddr, len) && !Refuses(old(regions[i]), vaddr, vaddr + len)
      ensures outcome == Done ==> regions == old(regions)[..i] + Cut(old(regions[i]), vaddr, vaddr + len) + old(regions)[i + 1..]
      ensures outcome == Done ==> next == i + |Cut(old(regions[i]), vaddr, vaddr + len)|
      ensures outcome != Done ==> regions == old(regions)[..i] + old(regions)[i + 1..]
      ensures outcome != Done ==> outcome == FailureOf(old(regions[i]), vaddr, len)
    {
      hide Outside;
      hide Cut;
      hide Pieces;
      var temp := regions[i];
      regions := regions[..i] + regions[i + 1..];
      var last := i - 1;
      outcome := Done;
      if IsContainedBy(temp, vaddr, len) {
        CutContained(temp, vaddr, len);
      } else {
        var division := SplitMemoryRegion(temp, vaddr, len);
        if division.Error? {
          return division.outcome, i;
        }
        PiecesOutside(temp, vaddr, len);
        last := InsertOutside(last, division.parts, vaddr, len);
      }
      next := last + 1;
    }

    /** The loop of munmap over the regions that a page-aligned range touches. */
    method UnmapRange(vaddr: Word, len: Word) returns (outcome: Outcome)
      requires Valid() && vaddr % PAGE_SIZE == 0 && len % PAGE_SIZE == 0
      modifies this
      ensures Proper(vaddr, len) && NoneRefuses(old(regions), vaddr, vaddr + len) ==>
        outcome == Done && regions == CutAll(old(regions), vaddr, vaddr + len)
      ensures Proper(vaddr, len) && !NoneRefuses(old(regions), vaddr, vaddr + len) ==>
        exists k: nat :: StopsAt(old(regions), regions, k, vaddr, len, outcome)
      ensures !Proper(vaddr, len) ==> MisfitResult(old(regions), regions, vaddr, len, outcome)
      ensures (forall r :: r in old(regions) ==> !Overlaps(r, vaddr, len)) ==> outcome == Done && regions == old(regions)
    {
      hide MisfitResult;
      hide FailureOf;
      hide Overlaps;
      hide CutAll;
      hide Ordered;
      hide Cut;
      hide Refuses;
      hide NoneRefuses;
      ghost var rs, e := regions, vaddr + len;
      ghost var untouched := forall r :: r in rs ==> !Overlaps(r, vaddr, len);
      var first := FindMappedRegion(vaddr);
      ghost var k := first;
      FrontOutside(rs, first, vaddr, e);
      CutAllOutside(rs[..first], vaddr, e);
      NoneOutsideRefuses(rs[..first], vaddr, e);
      var i := first;
      while i < |regions|
        invariant first <= k <= |rs| && i == |CutAll(rs[..k], vaddr, e)|
        invariant regions == CutAll(rs[..k], vaddr, e) + rs[k..]
        invariant NoneRefuses(rs[..k], vaddr, e)
        invariant !Proper(vaddr, len) || untouched ==> k == first
        decreases |rs| - k
      {
        OrderedMember(rs, 0, k);
        if !Overlaps(regions[i], vaddr, len) {
          break;
        }
        CutNext(rs, k, vaddr, e);
        outcome, i := UnmapRegion(i, vaddr, len);
        if outcome != Done {
          if Proper(vaddr, len) {
            OneRefuses(rs, k, vaddr, e);
            ProperFailure(rs[k], vaddr, len);
            assert StopsAt(rs, regions, k, vaddr, len, outcome);
          } else {
            MisfitStops(rs, first, vaddr, len);
          }
          return;
        }
        OneMore(rs, k, vaddr, e);
        k := k + 1;
      }
      outcome := Done;
      if Proper(vaddr, len) {
        CutRest(rs, first, k, vaddr, len);
        NoneLaterRefuses(rs, k, vaddr, len);
      } else {
        MisfitPasses(rs, first, vaddr, len);
      }
    }

    /** Replaces a region by its parts, and finds the part inside the range; if it refuses to be split, it is gone. */
    method SplitRegion(i: nat, vaddr: Word, len: Word) returns (outcome: Outcome, next: nat)
      requires i < |regions| && vaddr % PAGE_SIZE == 0 && len % PAGE_SIZE == 0
      requires var r := regions[i]; r.vaddr % PAGE_SIZE == 0 && End(r) < WORD && Overlaps(r, vaddr, len)
      modifies this
      ensures outcome == Done <==> Proper(vaddr, len) && !Refuses(old(regions[i]), vaddr, vaddr + len)
      ensures outcome == Done ==> Touches(old(regions[i]), vaddr, vaddr + len)
      ensures outcome == Done ==>
        regions == old(regions)[..i] + Pieces(old(regions[i]), vaddr, vaddr + len) + old(regions)[i + 1..]
      ensures outcome == Done ==> next == if old(regions[i]).vaddr < vaddr then i + 1 else i
      ensures outcome != Done ==> regions == old(regions)[..i] + old(regions)[i + 1..]
      ensures outcome != Done ==> outcome == FailureOf(old(regions[i]), vaddr, len)
    {
      var temp := regions[i];
      regions := regions[..i] + regions[i + 1..];
      next := i;
      var division := SplitMemoryRegion(temp, vaddr, len);
      if division.Error? {
        return division.outcome, i;
      }
      outcome := Done;
      InsertParts(i, division.parts);
      ghost var middle := if temp.vaddr < vaddr then 1 else 0;
      assert regions[i + middle] == division.parts[middle] && Overlaps(division.parts[middle], vaddr, len);
      assert middle == 1 ==> regions[i] == division.parts[0] && !Overlaps(division.parts[0], vaddr, len);
      while next < |regions| && !Overlaps(regions[next], vaddr, len)
        invariant i <= next <= i + middle
      {
        next := next + 1;
      }
    }

    method InsertParts(i: nat, parts: seq<Region>)
      requires i <= |regions|
      modifies this
      ensures regions == old(regions)[..i] + parts + old(regions)[i..]
    {
      ghost var rs := regions;
      for j := 0 to |parts|
        invariant regions == rs[..i] + parts[..j] + rs[i..]
      {
        regions := regions[..i + j] + [parts[j]] + regions[i + j..];
        assert parts[..j + 1] == parts[..j] + [parts[j]];
      }
      assert parts[..|parts|] == parts;
    }

    /** One round of the loop of mprotect, at the first region not dealt with yet. */
    method ProtectRegion(i: nat, vaddr: Word, len: Word, flags: bv64, wantWrite: bool, ghost rs: seq<Region>, ghost fine: seq<Region>)
      returns (round: Round, ghost fine': seq<Region>)
      requires vaddr % PAGE_SIZE == 0 && len % PAGE_SIZE == 0 && i < |regions|
      requires InReach(regions[i], vaddr)
      requires Proper(vaddr, len) ==>
        Progress(rs, fine, regions, i, vaddr, vaddr + len, flags, wantWrite) && Ahead(rs, fine, i, vaddr, vaddr + len)
      modifies this
      ensures !Proper(vaddr, len) ==> if Overlaps(old(regions[i]), vaddr, len) then round.Failure? else round == Finished
      ensures round == Finished ==> regions == old(regions)
      ensures round.Failure? ==>
        round.outcome == FailureOf(old(regions[i]), vaddr, len) && regions == old(regions)[..i] + old(regions)[i + 1..]
      ensures !Overlaps(old(regions[i]), vaddr, len) ==> round == Finished
      ensures round.Failure? ==> round.outcome != Done
      ensures Proper(vaddr, len) && round.Failure? ==>
        && round.outcome == SplitError(old(regions[i]).kind) && Refuses(old(regions[i]), vaddr, vaddr + len)
        && fine' == fine && regions == old(regions)[..i] + old(regions)[i + 1..]
      ensures Proper(vaddr, len) && round == Finished ==>
        regions == old(regions) && fine' == fine && vaddr + len <= regions[i].vaddr
      ensures Proper(vaddr, len) && round == Refusal ==>
        && regions == old(regions) && fine' == fine && Inside(regions[i], vaddr, vaddr + len)
        && !Allowed(regions[i].shared, regions[i].writable, wantWrite)
      ensures Proper(vaddr, len) && round.Advance? ==>
        && Progress(rs, fine', regions, round.next, vaddr, vaddr + len, flags, wantWrite)
        && Ahead(rs, fine', round.next, vaddr, vaddr + len)
        && round.next <= |regions|
        && (round.next < |regions| ==> Closer(old(regions[i]), regions[round.next]) && InReach(regions[round.next], vaddr))
    {
      hide Ordered;
      hide Progress;
      hide Ahead;
      hide Recoloured;
      fine' := fine;
      if !Overlaps(regions[i], vaddr, len) {
        return Finished, fine;
      }
      ghost var e := vaddr + len;
      if Proper(vaddr, len) {
        ProgressHere(rs, fine, regions, i, vaddr, e, flags, wantWrite);
        assert fine[i] == fine[i..][0] == regions[i];
      }
      if !IsContainedBy(regions[i], vaddr, len) {
        round, fine' := SplitAndGoOn(i, vaddr, len, flags, wantWrite, rs, fine);
        return;
      }
      if regions[i].shared && wantWrite && !regions[i].writable {
        return Refusal, fine;
      }
      if Proper(vaddr, len) {
        ProgressNext(rs, fine, regions, i, vaddr, e, flags, wantWrite);
        AheadNext(rs, fine, i, vaddr, e);
      }
      regions := regions[i := regions[i].(flags := flags)];
      round := Advance(i + 1);
      if Proper(vaddr, len) && i + 1 < |fine| {
        assert fine[i + 1] == fine[i..][1] == regions[i + 1];
        OrderedMember(fine, 0, i + 1);
        OrderedPair(fine, 0, i, i + 1);
      }
    }

    /** The round for a region that the range covers only in part. */
    method SplitAndGoOn(i: nat, vaddr: Word, len: Word, flags: bv64, wantWrite: bool, ghost rs: seq<Region>, ghost fine: seq<Region>)
      returns (round: Round, ghost fine': seq<Region>)
      requires vaddr % PAGE_SIZE == 0 && len % PAGE_SIZE == 0 && i < |regions|
      requires InReach(regions[i], vaddr) && Overlaps(regions[i], vaddr, len) && !IsContainedBy(regions[i], vaddr, len)
      requires Proper(vaddr, len) ==>
        && Progress(rs, fine, regions, i, vaddr, vaddr + len, flags, wantWrite) && Ahead(rs, fine, i, vaddr, vaddr + len)
        && |fine| == |regions| && fine[i] == regions[i]
      modifies this
      ensures !Proper(vaddr, len) ==> round.Failure?
      ensures round.Failure? ==>
        round.outcome == FailureOf(old(regions[i]), vaddr, len) && regions == old(regions)[..i] + old(regions)[i + 1..]
      ensures round.Advance? || (round.Failure? && round.outcome != Done)
      ensures Proper(vaddr, len) && round.Failure? ==>
        && round.outcome == SplitError(old(regions[i]).kind) && Refuses(old(regions[i]), vaddr, vaddr + len)
        && fine' == fine && regions == old(regions)[..i] + old(regions)[i + 1..]
      ensures Proper(vaddr, len) && round.Advance? ==>
        && Progress(rs, fine', regions, round.next, vaddr, vaddr + len, flags, wantWrite)
        && Ahead(rs, fine', round.next, vaddr, vaddr + len)
        && round.next < |regions| && Closer(old(regions[i]), regions[round.next]) && InReach(regions[round.next], vaddr)
    {
      hide Ordered;
      hide Progress;
      hide Ahead;
      hide Recoloured;
      hide Recolour;
      hide Pieces;
      hide Refuses;
      hide Closer;
      hide InReach;
      hide Whole;
      ghost var before, e := regions, vaddr + len;
      ghost var r := regions[i];
      InReachHere(r, vaddr, len);
      fine' := fine;
      var outcome, next := SplitRegion(i, vaddr, len);
      if outcome != Done {
        return Failure(outcome), fine;
      }
      NextPiece(r, vaddr, len, flags);
      ProgressSplits(rs, fine, before, i, vaddr, e, flags, wantWrite);
      AheadSplits(rs, fine, i, vaddr, e);
      fine' := fine[..i] + Pieces(fine[i], vaddr, e) + fine[i + 1..];
      if next == i + 1 {
        ProgressNext(rs, fine', regions, i, vaddr, e, flags, wantWrite);
        AheadNext(rs, fine', i, vaddr, e);
        assert fine'[i] == regions[i] && regions[i := Recolour(fine'[i], vaddr, e, flags)] == regions;
      }
      round := Advance(next);
    }

    /** The loop of mprotect over the regions that a page-aligned range touches. */
    method ProtectRange(vaddr: Word, len: Word, flags: bv64, wantWrite: bool) returns (outcome: Outcome)
      requires Valid() && vaddr % PAGE_SIZE == 0 && len % PAGE_SIZE == 0
      modifies this
      ensures Proper(vaddr, len) ==>
        Valid() && ProtectResult(old(regions), regions, vaddr, vaddr + len, flags, wantWrite, outcome)
      ensures !Proper(vaddr, len) ==> MisfitResult(old(regions), regions, vaddr, len, outcome)
    {
      hide MisfitResult;
      hide FailureOf;
      hide Ordered;
      hide Progress;
      hide Ahead;
      hide ProtectResult;
      ghost var rs, fine, e := regions, regions, vaddr + len;
      var i: nat := FindMappedRegion(vaddr);
      ghost var first := i;
      if i < |regions| {
        OrderedMember(regions, 0, i);
      }
      if Proper(vaddr, len) {
        ProgressStarts(rs, i, vaddr, e, flags, wantWrite);
        AheadStarts(rs, i, vaddr, e);
      }
      var round := Advance(i);
      while i < |regions|
        invariant i <= |regions|
        invariant !Proper(vaddr, len) ==> regions == rs && i == first
        invariant Proper(vaddr, len) ==> Progress(rs, fine, regions, i, vaddr, e, flags, wantWrite) && Ahead(rs, fine, i, vaddr, e)
        invariant i < |regions| ==> InReach(regions[i], vaddr)
        decreases if i < |regions| then WORD - regions[i].vaddr else 0, if i < |regions| then regions[i].size else 0
      {
        ghost var now := regions;
        if Proper(vaddr, len) {
          ProgressHere(rs, fine, regions, i, vaddr, e, flags, wantWrite);
          assert fine[i] == fine[i..][0] == regions[i];
        }
        round, fine := ProtectRegion(i, vaddr, len, flags, wantWrite, rs, fine);
        if round.Failure? {
          if Proper(vaddr, len) {
            ProperFailure(now[i], vaddr, len);
            Loses(rs, fine, now, i, vaddr, e, flags, wantWrite);
          } else {
            MisfitStops(rs, first, vaddr, len);
          }
          return round.outcome;
        }
        if round == Refusal {
          Stops(rs, fine, regions, i, vaddr, e, flags, wantWrite);
          return AccessDenied;
        }
        if round == Finished {
          break;
        }
        i := round.next;
      }
      outcome := Done;
      if Proper(vaddr, len) {
        ProgressHere(rs, fine, regions, i, vaddr, e, flags, wantWrite);
        assert i < |fine| ==> fine[i] == fine[i..][0] == regions[i];
        Ends(rs, fine, regions, i, vaddr, e, flags, wantWrite);
      } else {
        MisfitPasses(rs, first, vaddr, len);
      }
    }

    /**
      munmap removes exactly the addresses of a range that fits the address space, if and only if the range covers no
      region in part that cannot be split; otherwise the first such region is lost, and the range behind it stays.
     */
    method SysMunmap(addr: Word, length: Word) returns (outcome: Outcome)
      requires Valid()
      modifies this
      ensures length == 0 ==> outcome == InvalidArgument && regions == old(regions)
      ensures length != 0 && Fits(addr, length) ==>
        Valid() && UnmapResult(old(regions), regions, RangeStart(addr), RangeEnd(addr, length), outcome)
      ensures length != 0 && !Fits(addr, length) ==>
        var (vaddr, len) := Rounded(addr, length);
        if Proper(vaddr, len) then Valid() && UnmapResult(old(regions), regions, vaddr, vaddr + len, outcome)
        else MisfitResult(old(regions), regions, vaddr, len, outcome)
      ensures length != 0 && (forall r :: r in old(regions) ==> !Overlaps(r, Rounded(addr, length).0, Rounded(addr, length).1)) ==>
        outcome == Done && regions == old(regions)
    {
      hide Ordered;
      hide UnmapResult;
      hide MisfitResult;
      hide NoneRefuses;
      hide StopsAt;
      hide CutAll;
      if length == 0 {
        return InvalidArgument;
      }
      var vaddr, len := addr, length;
      if vaddr % PAGE_SIZE != 0 {
        len := Add(len, vaddr % PAGE_SIZE);
        vaddr := vaddr - vaddr % PAGE_SIZE;
      }
      if len % PAGE_SIZE != 0 {
        len := Add(len, PAGE_SIZE - len % PAGE_SIZE);
      }
      RoundedRange(addr, length);
      outcome := UnmapRange(vaddr, len);
      if Proper(vaddr, len) {
        Unmaps(old(regions), regions, vaddr, len, outcome);
      }
    }

    /**
      mprotect gives the new flags to exactly the mapped addresses of the range; the first region that the range covers
      in part and that cannot be split, or the first address that refuses the protection, stops it.
     */
    method SysMprotect(addr: Word, length: Word, prot: Protection) returns (outcome: Outcome)
      requires Valid()
      modifies this
      ensures length == 0 ==> outcome == Done && regions == old(regions)
      ensures length != 0 && addr % PAGE_SIZE != 0 ==> outcome == InvalidArgument && regions == old(regions)
      ensures length != 0 && addr % PAGE_SIZE == 0 && Fits(addr, length) ==>
        Valid() && ProtectsAs(old(regions), regions, addr, RangeEnd(addr, length), prot, outcome)
      ensures length != 0 && addr % PAGE_SIZE == 0 && Fits(addr, length) && outcome == Done ==>
        forall a: nat :: addr <= a < RangeEnd(addr, length) && Find(old(regions), a).Some? ==>
          Find(regions, a).Some? && Stands(Find(regions, a).value.flags, prot)
      ensures length != 0 && addr % PAGE_SIZE == 0 && !Fits(addr, length) ==>
        MisfitResult(old(regions), regions, addr, Rounded(addr, length).1, outcome)
    {
      hide Ordered;
      hide MisfitResult;
      hide ProtectResult;
      hide ProtectsAs;
      hide Stands;
      if length == 0 {
        return Done;
      }
      if addr % PAGE_SIZE != 0 {
        return InvalidArgument;
      }
      var len := length;
      if len % PAGE_SIZE != 0 {
        len := Add(len, PAGE_SIZE - len % PAGE_SIZE);
      }
      RoundedRange(addr, length);
      if !Fits(addr, length) {
        Misfit(addr, length);
      }
      outcome := ProtectRange(addr, len, PageFlags(prot), prot.write);
      if Fits(addr, length) {
        ProtectsWithFlags(old(regions), regions, addr, RangeEnd(addr, length), prot, outcome);
      }
    }

    /** Adds a region that shares no address with the others. */
    method AddMappedRegion(region: Region)
      requires Valid() && Ordered([region], 0)
      requires forall r :: r in regions ==> !Touches(r, region.vaddr, End(region))
      modifies this
      ensures Valid()
      ensures forall a: nat :: Find(regions, a) == if Contains(region, a) then Some(At(region, a)) else Find(old(regions), a)
    {
      hide Ordered;
      hide Find;
      OrderedMember([region], 0, 0);
      var index := FindMappedRegion(region.vaddr);
      InsertOrdered(regions, index, region);
      forall a: nat ensures Find(regions[..index] + [region] + regions[index..], a)
                         == if Contains(region, a) then Some(At(region, a)) else Find(regions, a)
      {
        InsertFind(regions, index, region, a);
      }
      regions := regions[..index] + [region] + regions[index..];
    }
  }

  // ---------------------------------------------------------------- ranges that do not fit

  const SOME_PAGE := Region(0, 1, 0, false, true, Backed, 0, 0)

  /** For every range that does not fit, munmap reports success and leaves an address of the range mapped. */
  method MunmapMisses(addr: Word, length: Word) returns (before: seq<Region>, after: seq<Region>, outcome: Outcome, a: nat)
    requires length != 0 && !Fits(addr, length)
    ensures Ordered(before, 0) && outcome == Done
    ensures RangeStart(addr) <= a < RangeEnd(addr, length) && Find(before, a).Some? && Find(after, a).Some?
  {
    RoundedRange(addr, length);
    Misfit(addr, length);
    var range := Rounded(addr, length);
    a := if Overlaps(SOME_PAGE.(vaddr := range.0), range.0, range.1) then range.0 + PAGE_SIZE else range.0;
    before := [SOME_PAGE.(vaddr := a)];
    var process := new Process(before);
    outcome := process.SysMunmap(addr, length);
    after := process.regions;
  }

  /** For every range that does not fit, mprotect reports success and leaves an address of the range as it was. */
  method MprotectMisses(addr: Word, length: Word, prot: Protection)
    returns (before: seq<Region>, after: seq<Region>, outcome: Outcome)
    requires length != 0 && addr % PAGE_SIZE == 0 && !Fits(addr, length)
    ensures Ordered(before, 0) && outcome == Done
    ensures Find(before, addr).Some? && Find(after, addr).Some? && !Stands(Find(after, addr).value.flags, prot)
  {
    RoundedRange(addr, length);
    Misfit(addr, length);
    before := [SOME_PAGE.(vaddr := addr)];
    var process := new Process(before);
    outcome := process.SysMprotect(addr, length, prot);
    after := process.regions;
  }

  /** A range that covers only a part of a region that cannot be split: munmap fails, and all of the region is lost. */
  method MunmapLosesRegion(r: Region, addr: Word, length: Word) returns (after: seq<Region>, outcome: Outcome)
    requires Ordered([r], 0) && length != 0 && Fits(addr, length) && Refuses(r, RangeStart(addr), RangeEnd(addr, length))
    ensures outcome == SplitError(r.kind) && forall a: nat :: Find(after, a) == None
  {
    hide Ordered;
    var process := new Process([r]);
    outcome := process.SysMunmap(addr, length);
    after := process.regions;
    assert r in [r];
    forall a: nat ensures Find(after, a) == None {
      FindOne(r, a);
    }
  }

  /** The first of two pages of a shared memory object: the second one is lost as well. */
  method HalfOfSharedObject() returns (before: seq<Region>, after: seq<Region>, outcome: Outcome)
    ensures outcome == InvalidArgument && Find(before, 0x2000).Some? && Find(after, 0x2000) == None
  {
    var r := Region(0x1000, 0x2000, 7, true, true, SharedObject, 0, 0);
    before := [r];
    after, outcome := MunmapLosesRegion(r, 0x1000, 0x1000);
  }

  const FIFTEEN_PAGES := Region(0x1000, 0xF000, 7, false, true, Backed, 0, 0)

  /** A length close to 2^64 from the middle of a region: the range ends inside the region, before it starts. */
  method MunmapHalts() returns (outcome: Outcome)
    ensures outcome == Halt
  {
    var process := new Process([FIFTEEN_PAGES]);
    assert FIFTEEN_PAGES in [FIFTEEN_PAGES];
    outcome := process.SysMunmap(0x8000, WORD - 0x4000);
  }

  method MprotectHalts(prot: Protection) returns (outcome: Outcome)
    ensures outcome == Halt
  {
    var process := new Process([FIFTEEN_PAGES]);
    assert FIFTEEN_PAGES in [FIFTEEN_PAGES];
    outcome := process.SysMprotect(0x8000, WORD - 0x4000, prot);
  }

  lemma Misfit(addr: Word, length: Word)
    requires length != 0 && !Fits(addr, length)
    ensures var range := Rounded(addr, length);
            && (Add(range.0, range.1) <= range.0 || range.0 + PAGE_SIZE + 1 < WORD)
            && Add(range.0, range.1) <= range.0 + PAGE_SIZE
            && (addr % PAGE_SIZE == 0 ==> Add(range.0, range.1) <= range.0)
  {
  }
}

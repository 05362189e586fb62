/**
  Memory regions of a process as values: half-open address intervals with attributes, lists of
  them in address order, and the map from addresses to attributes that a list stands for
  (kernel/kernel/Memory/MemoryRegion.cpp, kernel/kernel/Process.cpp).
 */
module RegionList {
  import opened Options
  import opened Words

  const PAGE_SIZE := 4096

  /** The region classes: backed by memory or a file, a shared memory object, a framebuffer. */
  datatype Kind = Backed | SharedObject | Framebuffer

  /** A region maps size bytes from vaddr to the bytes of some backing object from offset on. */
  datatype Region =
    Region(vaddr: nat, size: nat, flags: bv64, shared: bool, writable: bool, kind: Kind, backing: nat, offset: nat)

  /** What an address maps to. */
  datatype Attributes = Attributes(flags: bv64, shared: bool, writable: bool, kind: Kind, backing: nat, offset: nat)

  function End(r: Region): nat {
    r.vaddr + r.size
  }

  predicate Contains(r: Region, a: nat) {
    r.vaddr <= a < End(r)
  }

  function At(r: Region, a: nat): Attributes
    requires Contains(r, a)
  {
    Attributes(r.flags, r.shared, r.writable, r.kind, r.backing, r.offset + (a - r.vaddr))
  }

  /** The region touches the half-open range from v to e. */
  predicate Touches(r: Region, v: nat, e: nat) {
    r.vaddr < e && v < End(r)
  }

  predicate Inside(r: Region, v: nat, e: nat) {
    v <= r.vaddr && End(r) <= e
  }

  /** The range covers only a part of the region, and the region cannot be split. */
  predicate Refuses(r: Region, v: nat, e: nat) {
    Touches(r, v, e) && !Inside(r, v, e) && r.kind != Backed
  }

  /** The first region of a list that refuses. */
  ghost predicate FirstToRefuse(rs: seq<Region>, r: Region, v: nat, e: nat) {
    r in rs && Refuses(r, v, e) && forall q :: q in rs && Refuses(q, v, e) ==> r.vaddr <= q.vaddr
  }

  ghost predicate NoneRefuses(rs: seq<Region>, v: nat, e: nat) {
    forall q :: q in rs ==> !Refuses(q, v, e)
  }

  // ---------------------------------------------------------------- lists

  /** Non-empty page-aligned regions in address order, disjoint, from low on and below the last address. */
  ghost predicate Ordered(rs: seq<Region>, low: nat) {
    rs != [] ==>
      && low <= rs[0].vaddr && 0 < rs[0].size && rs[0].vaddr % PAGE_SIZE == 0 && End(rs[0]) < WORD
      && Ordered(rs[1..], End(rs[0]))
  }

  /** The meaning of a list: what each address maps to. */
  ghost function Find(rs: seq<Region>, a: nat): Option<Attributes> {
    if rs == [] then None
    else if Contains(rs[0], a) then Some(At(rs[0], a))
    else Find(rs[1..], a)
  }

  lemma {:induction false} FindAppend(x: seq<Region>, y: seq<Region>, a: nat)
    ensures Find(x + y, a) == if Find(x, a).Some? then Find(x, a) else Find(y, a)
  {
    if x == [] {
      assert x + y == y;
    } else {
      assert (x + y)[1..] == x[1..] + y;
      FindAppend(x[1..], y, a);
    }
  }

  /** Where a list ends. */
  ghost function Last(rs: seq<Region>, low: nat): nat {
    if rs == [] then low else Last(rs[1..], End(rs[0]))
  }

  lemma {:induction false} OrderedAppend(x: seq<Region>, y: seq<Region>, low: nat)
    ensures Ordered(x + y, low) <==> Ordered(x, low) && Ordered(y, Last(x, low))
  {
    if x == [] {
      assert x + y == y;
    } else {
      assert (x + y)[1..] == x[1..] + y;
      OrderedAppend(x[1..], y, End(x[0]));
    }
  }

  lemma {:induction false} OrderedLower(rs: seq<Region>, low: nat, lower: nat)
    requires Ordered(rs, low) && lower <= low
    ensures Ordered(rs, lower)
  {
  }

  lemma {:induction false} LastIsLater(rs: seq<Region>, low: nat)
    requires Ordered(rs, low)
    ensures low <= Last(rs, low)
  {
    if rs != [] {
      LastIsLater(rs[1..], End(rs[0]));
    }
  }

  lemma {:induction false} OrderedMember(rs: seq<Region>, low: nat, i: nat)
    requires Ordered(rs, low) && i < |rs|
    ensures low <= rs[i].vaddr && 0 < rs[i].size && rs[i].vaddr % PAGE_SIZE == 0 && End(rs[i]) < WORD
  {
    if i > 0 {
      OrderedMember(rs[1..], End(rs[0]), i - 1);
    }
  }

  lemma {:induction false} OrderedPair(rs: seq<Region>, low: nat, i: nat, j: nat)
    requires Ordered(rs, low) && i < j < |rs|
    ensures End(rs[i]) <= rs[j].vaddr
  {
    if i == 0 {
      OrderedMember(rs[1..], End(rs[0]), j - 1);
    } else {
      OrderedPair(rs[1..], End(rs[0]), i - 1, j - 1);
    }
  }

  // ---------------------------------------------------------------- cutting a range out

  function Left(r: Region, v: nat): Region
    requires r.vaddr <= v
  {
    r.(size := v - r.vaddr)
  }

  function Right(r: Region, e: nat): Region
    requires Contains(r, e)
  {
    r.(vaddr := e, size := End(r) - e, offset := r.offset + (e - r.vaddr))
  }

  /** What is left of a region without the addresses from v to e - 1. */
  function Cut(r: Region, v: nat, e: nat): seq<Region> {
    if !Touches(r, v, e) then [r]
    else (if r.vaddr < v then [Left(r, v)] else []) + (if e < End(r) then [Right(r, e)] else [])
  }

  function CutAll(rs: seq<Region>, v: nat, e: nat): seq<Region> {
    if rs == [] then [] else CutAll(rs[..|rs| - 1], v, e) + Cut(rs[|rs| - 1], v, e)
  }

  lemma FindOne(r: Region, a: nat)
    ensures Find([r], a) == if Contains(r, a) then Some(At(r, a)) else None
  {
  }

  lemma CutFind(r: Region, v: nat, e: nat, a: nat)
    requires v < e
    ensures Find(Cut(r, v, e), a) == if v <= a < e then None else Find([r], a)
  {
    FindOne(r, a);
    if Touches(r, v, e) {
      var left := if r.vaddr < v then [Left(r, v)] else [];
      var right := if e < End(r) then [Right(r, e)] else [];
      FindAppend(left, right, a);
      if r.vaddr < v {
        FindOne(Left(r, v), a);
      }
      if e < End(r) {
        FindOne(Right(r, e), a);
      }
    }
  }

  /** Cutting a range out of every region removes exactly that range from the map. */
  lemma {:induction false} CutAllFind(rs: seq<Region>, v: nat, e: nat, a: nat)
    requires v < e
    ensures Find(CutAll(rs, v, e), a) == if v <= a < e then None else Find(rs, a)
  {
    if rs != [] {
      var n := |rs| - 1;
      CutAllFind(rs[..n], v, e, a);
      CutFind(rs[n], v, e, a);
      FindAppend(CutAll(rs[..n], v, e), Cut(rs[n], v, e), a);
      assert rs == rs[..n] + [rs[n]];
      FindAppend(rs[..n], [rs[n]], a);
    }
  }

  lemma CutOrdered(r: Region, v: nat, e: nat, low: nat)
    requires v < e && v % PAGE_SIZE == 0 && e % PAGE_SIZE == 0 && Ordered([r], low)
    ensures Ordered(Cut(r, v, e), low) && Last(Cut(r, v, e), low) <= End(r)
  {
    if Touches(r, v, e) {
      if r.vaddr < v {
        var l := Left(r, v);
        if e < End(r) {
          assert Cut(r, v, e) == [l, Right(r, e)];
          assert [l, Right(r, e)][1..] == [Right(r, e)];
          assert Last([l, Right(r, e)], low) == Last([Right(r, e)], End(l)) == End(r);
        } else {
          assert Cut(r, v, e) == [l];
        }
      } else if e < End(r) {
        assert Cut(r, v, e) == [Right(r, e)];
      }
    }
  }

  /** Cutting keeps the list ordered and disjoint. */
  lemma {:induction false} CutAllOrdered(rs: seq<Region>, v: nat, e: nat, low: nat)
    requires v < e && v % PAGE_SIZE == 0 && e % PAGE_SIZE == 0 && Ordered(rs, low)
    ensures Ordered(CutAll(rs, v, e), low) && Last(CutAll(rs, v, e), low) <= Last(rs, low)
  {
    if rs != [] {
      var n := |rs| - 1;
      var x, y := CutAll(rs[..n], v, e), Cut(rs[n], v, e);
      assert rs == rs[..n] + [rs[n]];
      OrderedAppend(rs[..n], [rs[n]], low);
      CutAllOrdered(rs[..n], v, e, low);
      OrderedLower([rs[n]], Last(rs[..n], low), Last(x, low));
      CutOrdered(rs[n], v, e, Last(x, low));
      OrderedAppend(x, y, low);
      LastAppend(x, y, low);
      LastAppend(rs[..n], [rs[n]], low);
    }
  }

  lemma {:induction false} LastAppend(x: seq<Region>, y: seq<Region>, low: nat)
    ensures Last(x + y, low) == Last(y, Last(x, low))
  {
    if x == [] {
      assert x + y == y;
    } else {
      assert (x + y)[1..] == x[1..] + y;
      LastAppend(x[1..], y, End(x[0]));
    }
  }

  lemma {:induction false} CutAllAppend(x: seq<Region>, y: seq<Region>, v: nat, e: nat)
    ensures CutAll(x + y, v, e) == CutAll(x, v, e) + CutAll(y, v, e)
  {
    hide Cut;
    if y == [] {
      assert x + y == x;
    } else {
      var n := |y| - 1;
      var z := x + y;
      assert z[..|z| - 1] == x + y[..n] && z[|z| - 1] == y[n];
      CutAllAppend(x, y[..n], v, e);
      assert CutAll(z, v, e) == CutAll(x + y[..n], v, e) + Cut(y[n], v, e);
    }
  }

  /** Regions outside the range are left alone. */
  lemma {:induction false} CutAllOutside(rs: seq<Region>, v: nat, e: nat)
    requires forall r :: r in rs ==> !Touches(r, v, e)
    ensures CutAll(rs, v, e) == rs
  {
    if rs != [] {
      CutAllOutside(rs[..|rs| - 1], v, e);
    }
  }

  /** The addresses of r and those of the range before it are no longer mapped, and all others are as before. */
  ghost predicate LostIn(rs: seq<Region>, rs': seq<Region>, r: Region, v: nat) {
    forall a: nat :: Find(rs', a) == if Contains(r, a) || v <= a < r.vaddr then None else Find(rs, a)
  }

  /** Cutting stops at a region and takes it away altogether. */
  lemma CutUpTo(rs: seq<Region>, k: nat, v: nat, e: nat)
    requires Ordered(rs, 0) && k < |rs| && Touches(rs[k], v, e)
    requires v < e && v % PAGE_SIZE == 0 && e % PAGE_SIZE == 0
    ensures Ordered(CutAll(rs[..k], v, e) + rs[k + 1..], 0)
    ensures LostIn(rs, CutAll(rs[..k], v, e) + rs[k + 1..], rs[k], v)
  {
    hide Ordered;
    hide Find;
    hide Last;
    hide CutAll;
    var x, r, y := rs[..k], rs[k], rs[k + 1..];
    var x' := CutAll(x, v, e);
    Around(rs, k);
    CutAllOrdered(x, v, e, 0);
    OrderedLower(y, End(r), Last(x', 0));
    OrderedAppend(x', y, 0);
    forall a: nat ensures Find(x' + y, a) == if Contains(r, a) || v <= a < r.vaddr then None else Find(rs, a) {
      FindAround(rs, k, a);
      FindAppend(x', y, a);
      CutAllFind(x, v, e, a);
    }
  }

  /** What comes before a region of a list ends before it, and what comes after it begins behind it. */
  lemma Around(rs: seq<Region>, k: nat)
    requires Ordered(rs, 0) && k < |rs|
    ensures Ordered(rs[..k], 0) && Last(rs[..k], 0) <= rs[k].vaddr && Ordered(rs[k + 1..], End(rs[k]))
  {
    hide Ordered;
    hide Last;
    var x, y := rs[..k], rs[k..];
    assert rs == x + y && y[1..] == rs[k + 1..];
    StopsApart(x, y);
    OrderedTail(y, y[0].vaddr);
  }

  lemma OrderedTail(rs: seq<Region>, low: nat)
    requires Ordered(rs, low) && rs != []
    ensures Ordered(rs[1..], End(rs[0])) && 0 < rs[0].size
  {
  }

  lemma FindAround(rs: seq<Region>, k: nat, a: nat)
    requires Ordered(rs, 0) && k < |rs|
    ensures var r := rs[k];
            && (a < r.vaddr ==> Find(rs, a) == Find(rs[..k], a))
            && (r.vaddr <= a ==> Find(rs[..k], a) == None)
            && (a < End(r) ==> Find(rs[k + 1..], a) == None)
            && (End(r) <= a ==> Find(rs, a) == Find(rs[k + 1..], a))
            && (Contains(r, a) ==> Find(rs, a) == Some(At(r, a)))
  {
    hide Ordered;
    hide Find;
    hide Last;
    var x, r, y := rs[..k], rs[k], rs[k + 1..];
    Around(rs, k);
    OrderedMember(rs, 0, k);
    assert rs == x + [r] + y;
    FindAppend(x + [r], y, a);
    FindAppend(x, [r], a);
    FindOne(r, a);
    if a < End(r) {
      FindBelow(y, End(r), a);
    }
    if r.vaddr <= a {
      FindBeyond(x, 0, a);
    }
  }

  // ---------------------------------------------------------------- changing flags on a range

  /** The region lies inside the range or outside it. */
  predicate Whole(r: Region, v: nat, e: nat) {
    Inside(r, v, e) || !Touches(r, v, e)
  }

  function Recolour(r: Region, v: nat, e: nat, flags: bv64): Region {
    if Inside(r, v, e) then r.(flags := flags) else r
  }

  function Recoloured(rs: seq<Region>, v: nat, e: nat, flags: bv64): (result: seq<Region>)
    ensures |result| == |rs|
  {
    if rs == [] then [] else [Recolour(rs[0], v, e, flags)] + Recoloured(rs[1..], v, e, flags)
  }

  function WithFlags(found: Option<Attributes>, flags: bv64): Option<Attributes> {
    if found.Some? then Some(found.value.(flags := flags)) else None
  }

  /** Recolouring whole regions changes the flags of exactly the mapped addresses of the range. */
  lemma {:induction false} RecolouredFind(rs: seq<Region>, v: nat, e: nat, flags: bv64, a: nat)
    requires forall r :: r in rs ==> Whole(r, v, e)
    ensures Find(Recoloured(rs, v, e, flags), a) == if v <= a < e then WithFlags(Find(rs, a), flags) else Find(rs, a)
  {
    if rs != [] {
      RecolouredFind(rs[1..], v, e, flags, a);
      assert Recoloured(rs, v, e, flags)[1..] == Recoloured(rs[1..], v, e, flags);
      assert Whole(rs[0], v, e);
    }
  }

  lemma {:induction false} RecolouredOrdered(rs: seq<Region>, v: nat, e: nat, flags: bv64, low: nat)
    requires Ordered(rs, low)
    ensures Ordered(Recoloured(rs, v, e, flags), low) && Last(Recoloured(rs, v, e, flags), low) == Last(rs, low)
  {
    if rs != [] {
      RecolouredOrdered(rs[1..], v, e, flags, End(rs[0]));
      assert Recoloured(rs, v, e, flags)[1..] == Recoloured(rs[1..], v, e, flags);
    }
  }

  lemma {:induction false} RecolouredAppend(x: seq<Region>, y: seq<Region>, v: nat, e: nat, flags: bv64)
    ensures Recoloured(x + y, v, e, flags) == Recoloured(x, v, e, flags) + Recoloured(y, v, e, flags)
  {
    if x == [] {
      assert x + y == y;
    } else {
      assert (x + y)[1..] == x[1..] + y;
      RecolouredAppend(x[1..], y, v, e, flags);
    }
  }

  lemma {:induction false} RecolouredOutside(rs: seq<Region>, v: nat, e: nat, flags: bv64)
    requires v < e && forall r :: r in rs ==> !Touches(r, v, e) && 0 < r.size
    ensures Recoloured(rs, v, e, flags) == rs
  {
    if rs != [] {
      assert !Touches(rs[0], v, e) && 0 < rs[0].size;
      RecolouredOutside(rs[1..], v, e, flags);
    }
  }

  // ---------------------------------------------------------------- splitting

  /** A region as its parts before, inside and after a range that touches it. */
  function Pieces(r: Region, v: nat, e: nat): seq<Region>
    requires Touches(r, v, e) && v < e
  {
    var rest := if r.vaddr < v then Right(r, v) else r;
    (if r.vaddr < v then [Left(r, v)] else [])
    + (if e < End(rest) then [Left(rest, e), Right(rest, e)] else [rest])
  }

  lemma SplitFind(r: Region, c: nat, a: nat)
    requires r.vaddr < c < End(r)
    ensures Find([Left(r, c), Right(r, c)], a) == Find([r], a)
  {
    assert [Left(r, c), Right(r, c)][1..] == [Right(r, c)];
    FindOne(r, a);
    FindOne(Right(r, c), a);
  }

  /** Splitting a region changes no address. */
  lemma PiecesFind(r: Region, v: nat, e: nat, a: nat)
    requires Touches(r, v, e) && v < e
    ensures Find(Pieces(r, v, e), a) == Find([r], a)
  {
    var rest := if r.vaddr < v then Right(r, v) else r;
    var tail := if e < End(rest) then [Left(rest, e), Right(rest, e)] else [rest];
    if e < End(rest) {
      SplitFind(rest, e, a);
    }
    assert Find(tail, a) == Find([rest], a);
    if r.vaddr < v {
      SplitFind(r, v, a);
      FindAppend([Left(r, v)], [rest], a);
      FindAppend([Left(r, v)], tail, a);
      assert [Left(r, v)] + [rest] == [Left(r, v), Right(r, v)];
    } else {
      assert [] + tail == tail;
    }
  }

  // ---------------------------------------------------------------- where a range begins and ends in a list

  /** Index i separates the regions that end at or before v from the others. */
  ghost predicate Divides(rs: seq<Region>, i: nat, v: nat) {
    && i <= |rs|
    && (forall j :: 0 <= j < i ==> End(rs[j]) <= v)
    && (forall j :: i <= j < |rs| ==> v < End(rs[j]))
  }

  /** Once a region starts at or after the end of the range, so do all later ones. */
  lemma RestOutside(rs: seq<Region>, i: nat, v: nat, e: nat)
    requires Ordered(rs, 0) && i < |rs| && e <= rs[i].vaddr
    ensures forall r :: r in rs[i..] ==> !Touches(r, v, e) && 0 < r.size
  {
    forall r | r in rs[i..] ensures !Touches(r, v, e) && 0 < r.size {
      var j :| i <= j < |rs| && rs[j] == r;
      OrderedMember(rs, 0, j);
      OrderedMember(rs, 0, i);
      if i < j {
        OrderedPair(rs, 0, i, j);
      }
    }
  }

  lemma FrontOutside(rs: seq<Region>, i: nat, v: nat, e: nat)
    requires Ordered(rs, 0) && Divides(rs, i, v)
    ensures forall r :: r in rs[..i] ==> !Touches(r, v, e) && 0 < r.size
  {
    forall r | r in rs[..i] ensures !Touches(r, v, e) && 0 < r.size {
      var j :| 0 <= j < i && rs[j] == r;
      OrderedMember(rs, 0, j);
    }
  }

  // ---------------------------------------------------------------- protecting a range step by step

  /** A shared region whose file is not open for writing may not become writable. */
  predicate Allowed(shared: bool, writable: bool, wantWrite: bool) {
    !(shared && wantWrite && !writable)
  }

  /** No mapped address of the range refuses the protection. */
  ghost predicate Permitted(rs: seq<Region>, v: nat, e: nat, wantWrite: bool) {
    forall a: nat :: v <= a < e && Find(rs, a).Some? ==> Allowed(Find(rs, a).value.shared, Find(rs, a).value.writable, wantWrite)
  }

  /** The address is mapped and refuses the protection. */
  ghost predicate Refused(rs: seq<Region>, a: nat, wantWrite: bool) {
    Find(rs, a).Some? && !Allowed(Find(rs, a).value.shared, Find(rs, a).value.writable, wantWrite)
  }

  /** The addresses from v to c - 1 have the new flags, and all others what they had. */
  ghost predicate Protected(rs: seq<Region>, rs': seq<Region>, v: nat, c: nat, flags: bv64) {
    forall a: nat :: Find(rs', a) == if v <= a < c then WithFlags(Find(rs, a), flags) else Find(rs, a)
  }

  /**
    The list during mprotect: a list equivalent to the original, split finely enough before index i,
    with the regions before i recoloured.
   */
  ghost predicate Progress(rs: seq<Region>, fine: seq<Region>, now: seq<Region>, i: nat, v: nat, e: nat, flags: bv64, wantWrite: bool) {
    && i <= |fine|
    && now == Recoloured(fine[..i], v, e, flags) + fine[i..]
    && Ordered(fine, 0)
    && (forall a: nat :: Find(fine, a) == Find(rs, a))
    && (forall r :: r in fine[..i] ==> Whole(r, v, e) && (Inside(r, v, e) ==> Allowed(r.shared, r.writable, wantWrite)))
  }

  lemma ProgressStarts(rs: seq<Region>, i: nat, v: nat, e: nat, flags: bv64, wantWrite: bool)
    requires Ordered(rs, 0) && Divides(rs, i, v) && v < e
    ensures Progress(rs, rs, rs, i, v, e, flags, wantWrite)
  {
    hide Ordered;
    hide Find;
    hide Recoloured;
    FrontOutside(rs, i, v, e);
    RecolouredOutside(rs[..i], v, e, flags);
    assert rs[..i] + rs[i..] == rs;
  }

  lemma ProgressHere(rs: seq<Region>, fine: seq<Region>, now: seq<Region>, i: nat, v: nat, e: nat, flags: bv64, wantWrite: bool)
    requires Progress(rs, fine, now, i, v, e, flags, wantWrite)
    ensures |fine| == |now| && i <= |fine| && fine[i..] == now[i..] && Ordered(fine, 0)
  {
    hide Ordered;
    hide Find;
    hide Recoloured;
  }

  /** One more whole region, with its flags changed when it lies inside the range. */
  lemma ProgressNext(rs: seq<Region>, fine: seq<Region>, now: seq<Region>, i: nat, v: nat, e: nat, flags: bv64, wantWrite: bool)
    requires Progress(rs, fine, now, i, v, e, flags, wantWrite) && i < |fine| && Whole(fine[i], v, e)
    requires Inside(fine[i], v, e) ==> Allowed(fine[i].shared, fine[i].writable, wantWrite)
    ensures now[i] == fine[i]
    ensures Progress(rs, fine, now[i := Recolour(fine[i], v, e, flags)], i + 1, v, e, flags, wantWrite)
  {
    hide Ordered;
    hide Find;
    assert fine[..i + 1] == fine[..i] + [fine[i]];
    RecolouredAppend(fine[..i], [fine[i]], v, e, flags);
    assert Recoloured([fine[i]], v, e, flags) == [Recolour(fine[i], v, e, flags)];
  }

  /** Replacing a region by its pieces. */
  lemma ProgressSplits(rs: seq<Region>, fine: seq<Region>, now: seq<Region>, i: nat, v: nat, e: nat, flags: bv64, wantWrite: bool)
    requires Progress(rs, fine, now, i, v, e, flags, wantWrite) && i < |fine| && Touches(fine[i], v, e) && v < e
    requires v % PAGE_SIZE == 0 && e % PAGE_SIZE == 0
    ensures now[i] == fine[i]
    ensures Progress(rs, fine[..i] + Pieces(fine[i], v, e) + fine[i + 1..], now[..i] + Pieces(fine[i], v, e) + now[i + 1..],
                     i, v, e, flags, wantWrite)
  {
    hide Ordered;
    hide Find;
    hide Pieces;
    hide Recoloured;
    var x, r, y := fine[..i], fine[i], fine[i + 1..];
    var ps := Pieces(r, v, e);
    var fine' := x + ps + y;
    assert fine == x + [r] + y;
    SplicedFind(x, r, ps, y, v, e);
    SplicedOrdered(x, r, y, v, e);
    assert fine'[..i] == x && fine'[i..] == ps + y;
    assert now[..i] == Recoloured(x, v, e, flags) && now[i + 1..] == y;
  }

  lemma SplicedFind(x: seq<Region>, r: Region, ps: seq<Region>, y: seq<Region>, v: nat, e: nat)
    requires Touches(r, v, e) && v < e && ps == Pieces(r, v, e)
    ensures forall a: nat :: Find(x + ps + y, a) == Find(x + [r] + y, a)
  {
    hide Find;
    hide Pieces;
    forall a: nat ensures Find(x + ps + y, a) == Find(x + [r] + y, a) {
      PiecesFind(r, v, e, a);
      FindAppend(x, ps, a);
      FindAppend(x + ps, y, a);
      FindAppend(x, [r], a);
      FindAppend(x + [r], y, a);
    }
  }

  lemma SplicedOrdered(x: seq<Region>, r: Region, y: seq<Region>, v: nat, e: nat)
    requires Touches(r, v, e) && v < e && v % PAGE_SIZE == 0 && e % PAGE_SIZE == 0 && Ordered(x + [r] + y, 0)
    ensures Ordered(x + Pieces(r, v, e) + y, 0)
  {
    hide Ordered;
    hide Last;
    hide Pieces;
    var ps := Pieces(r, v, e);
    OrderedAppend(x + [r], y, 0);
    OrderedAppend(x, [r], 0);
    PiecesOrdered(r, v, e, Last(x, 0));
    OrderedAppend(x, ps, 0);
    OrderedAppend(x + ps, y, 0);
    LastAppend(x, ps, 0);
    LastAppend(x, [r], 0);
  }

  lemma PiecesOrdered(r: Region, v: nat, e: nat, low: nat)
    requires Touches(r, v, e) && v < e && v % PAGE_SIZE == 0 && e % PAGE_SIZE == 0 && Ordered([r], low)
    ensures Ordered(Pieces(r, v, e), low) && Last(Pieces(r, v, e), low) == Last([r], low)
  {
    var rest := if r.vaddr < v then Right(r, v) else r;
    if r.vaddr < v {
      if e < End(rest) {
        var a, b, c := Left(r, v), Left(rest, e), Right(rest, e);
        assert Pieces(r, v, e) == [a, b, c];
        ThreeOrdered(a, b, c, low);
      } else {
        assert Pieces(r, v, e) == [Left(r, v), rest];
        TwoOrdered(Left(r, v), rest, low);
      }
    } else if e < End(rest) {
      assert Pieces(r, v, e) == [Left(rest, e), Right(rest, e)];
      TwoOrdered(Left(rest, e), Right(rest, e), low);
    }
  }

  lemma TwoOrdered(a: Region, b: Region, low: nat)
    requires Ordered([a], low) && Ordered([b], End(a))
    ensures Ordered([a, b], low) && Last([a, b], low) == End(b)
  {
    assert [a, b][1..] == [b];
    assert Last([a, b], low) == Last([b], End(a));
  }

  lemma ThreeOrdered(a: Region, b: Region, c: Region, low: nat)
    requires Ordered([a], low) && Ordered([b], End(a)) && Ordered([c], End(b))
    ensures Ordered([a, b, c], low) && Last([a, b, c], low) == End(c)
  {
    assert [a, b, c][1..] == [b, c];
    TwoOrdered(b, c, End(a));
  }

  lemma {:induction false} FindBelow(rs: seq<Region>, low: nat, a: nat)
    requires Ordered(rs, low) && a < low
    ensures Find(rs, a) == None
  {
    if rs != [] {
      FindBelow(rs[1..], End(rs[0]), a);
    }
  }

  lemma {:induction false} FindBeyond(rs: seq<Region>, low: nat, a: nat)
    requires Ordered(rs, low) && Last(rs, low) <= a
    ensures Find(rs, a) == None
  {
    if rs != [] {
      LastIsLater(rs[1..], End(rs[0]));
      FindBeyond(rs[1..], End(rs[0]), a);
    }
  }

  lemma {:induction false} FindMember(rs: seq<Region>, a: nat)
    requires Find(rs, a).Some?
    ensures exists r :: r in rs && Contains(r, a) && Find(rs, a).value == At(r, a)
  {
    if !Contains(rs[0], a) {
      FindMember(rs[1..], a);
      var r :| r in rs[1..] && Contains(r, a) && Find(rs[1..], a).value == At(r, a);
      assert r in rs;
    } else {
      assert rs[0] in rs;
    }
  }

  /** The end of the range has been reached. */
  lemma ProgressEnds(rs: seq<Region>, fine: seq<Region>, now: seq<Region>, i: nat, v: nat, e: nat, flags: bv64, wantWrite: bool)
    requires Progress(rs, fine, now, i, v, e, flags, wantWrite) && v < e && (i == |fine| || e <= fine[i].vaddr)
    ensures Protected(rs, now, v, e, flags) && Ordered(now, 0) && Permitted(rs, v, e, wantWrite)
  {
    hide Ordered;
    hide Find;
    hide Recoloured;
    if i < |fine| {
      RestOutside(fine, i, v, e);
    }
    RecolouredOutside(fine[i..], v, e, flags);
    RecolouredAppend(fine[..i], fine[i..], v, e, flags);
    assert fine[..i] + fine[i..] == fine;
    RecolouredOrdered(fine, v, e, flags, 0);
    forall r | r in fine ensures Whole(r, v, e) && (Touches(r, v, e) ==> Allowed(r.shared, r.writable, wantWrite)) {
      assert r in fine[..i] || r in fine[i..];
    }
    forall a: nat ensures Find(now, a) == if v <= a < e then WithFlags(Find(rs, a), flags) else Find(rs, a) {
      RecolouredFind(fine, v, e, flags, a);
    }
    forall a: nat | v <= a < e && Find(rs, a).Some?
      ensures Allowed(Find(rs, a).value.shared, Find(rs, a).value.writable, wantWrite)
    {
      FindMember(fine, a);
    }
  }

  /** A region inside the range refuses the protection. */
  lemma ProgressStops(rs: seq<Region>, fine: seq<Region>, now: seq<Region>, i: nat, v: nat, e: nat, flags: bv64, wantWrite: bool)
    requires Progress(rs, fine, now, i, v, e, flags, wantWrite) && i < |fine| && Inside(fine[i], v, e)
    requires !Allowed(fine[i].shared, fine[i].writable, wantWrite)
    ensures v <= fine[i].vaddr < e && Protected(rs, now, v, fine[i].vaddr, flags) && Ordered(now, 0)
    ensures !Permitted(rs, v, e, wantWrite) && Refused(rs, fine[i].vaddr, wantWrite)
  {
    hide Ordered;
    hide Find;
    hide Recoloured;
    hide Last;
    var x, y, c := fine[..i], fine[i..], fine[i].vaddr;
    assert fine == x + y;
    OrderedMember(fine, 0, i);
    StopsApart(x, y);
    RecolouredOrdered(x, v, e, flags, 0);
    OrderedAppend(Recoloured(x, v, e, flags), y, 0);
    forall a: nat ensures Find(now, a) == if v <= a < c then WithFlags(Find(rs, a), flags) else Find(rs, a) {
      FindAppend(x, y, a);
      FindAppend(Recoloured(x, v, e, flags), y, a);
      RecolouredFind(x, v, e, flags, a);
      if a < c {
        FindBelow(y, c, a);
      } else {
        FindBeyond(x, 0, a);
      }
    }
    FindAppend(x, y, c);
    FindBeyond(x, 0, c);
    FindHead(y, c);
  }

  lemma FindHead(rs: seq<Region>, a: nat)
    requires rs != [] && Contains(rs[0], a)
    ensures Find(rs, a) == Some(At(rs[0], a))
  {
  }

  lemma StopsApart(x: seq<Region>, y: seq<Region>)
    requires Ordered(x + y, 0) && y != []
    ensures Ordered(x, 0) && Ordered(y, Last(x, 0)) && Last(x, 0) <= y[0].vaddr && Ordered(y, y[0].vaddr)
  {
    OrderedAppend(x, y, 0);
  }

  /** The regions that refuse are still ahead, as they were. */
  ghost predicate Ahead(rs: seq<Region>, fine: seq<Region>, i: nat, v: nat, e: nat) {
    && i <= |fine|
    && (forall q :: q in rs && Refuses(q, v, e) ==> q in fine[i..])
    && (forall q :: q in fine[i..] && Refuses(q, v, e) ==> q in rs)
  }

  lemma AheadStarts(rs: seq<Region>, i: nat, v: nat, e: nat)
    requires Ordered(rs, 0) && Divides(rs, i, v)
    ensures Ahead(rs, rs, i, v, e)
  {
    hide Ordered;
    FrontOutside(rs, i, v, e);
    assert rs == rs[..i] + rs[i..];
  }

  lemma AheadNext(rs: seq<Region>, fine: seq<Region>, i: nat, v: nat, e: nat)
    requires Ahead(rs, fine, i, v, e) && i < |fine| && Whole(fine[i], v, e)
    ensures Ahead(rs, fine, i + 1, v, e)
  {
    assert fine[i..] == [fine[i]] + fine[i + 1..];
  }

  lemma AheadSplits(rs: seq<Region>, fine: seq<Region>, i: nat, v: nat, e: nat)
    requires Ahead(rs, fine, i, v, e) && i < |fine| && Touches(fine[i], v, e) && v < e && fine[i].kind == Backed
    ensures Ahead(rs, fine[..i] + Pieces(fine[i], v, e) + fine[i + 1..], i, v, e)
  {
    var ps := Pieces(fine[i], v, e);
    assert forall q :: q in ps ==> q.kind == Backed;
    assert fine[i..] == [fine[i]] + fine[i + 1..];
    assert (fine[..i] + ps + fine[i + 1..])[i..] == ps + fine[i + 1..];
  }

  lemma AheadEnds(rs: seq<Region>, fine: seq<Region>, i: nat, v: nat, e: nat)
    requires Ahead(rs, fine, i, v, e) && Ordered(fine, 0) && (i == |fine| || e <= fine[i].vaddr)
    ensures NoneRefuses(rs, v, e)
  {
    hide Ordered;
    if i < |fine| {
      RestOutside(fine, i, v, e);
    }
  }

  /** Everything that refuses starts at or after the region that has been reached. */
  lemma AheadIsLater(rs: seq<Region>, fine: seq<Region>, i: nat, v: nat, e: nat)
    requires Ahead(rs, fine, i, v, e) && Ordered(fine, 0) && i < |fine|
    ensures forall q :: q in rs && Refuses(q, v, e) ==> q == fine[i] || End(fine[i]) <= q.vaddr
  {
    hide Ordered;
    forall q | q in rs && Refuses(q, v, e) ensures q == fine[i] || End(fine[i]) <= q.vaddr {
      var j :| i <= j < |fine| && fine[j] == q;
      if i < j {
        OrderedPair(fine, 0, i, j);
      }
    }
  }

  /** The addresses of r are no longer mapped, those of the range before it have the new flags, and all others are as before. */
  ghost predicate LostAfter(rs: seq<Region>, rs': seq<Region>, r: Region, v: nat, flags: bv64) {
    forall a: nat :: Find(rs', a) == if Contains(r, a) then None
                                     else if v <= a < r.vaddr then WithFlags(Find(rs, a), flags) else Find(rs, a)
  }

  /** All addresses before the region that has been reached have been dealt with. */
  lemma ProgressBefore(rs: seq<Region>, fine: seq<Region>, now: seq<Region>, i: nat, v: nat, e: nat, flags: bv64, wantWrite: bool)
    requires Progress(rs, fine, now, i, v, e, flags, wantWrite) && i < |fine| && fine[i].vaddr < e
    ensures Permitted(rs, v, fine[i].vaddr, wantWrite)
  {
    hide Ordered;
    hide Find;
    hide Recoloured;
    forall a: nat | v <= a < fine[i].vaddr && Find(rs, a).Some?
      ensures Allowed(Find(rs, a).value.shared, Find(rs, a).value.writable, wantWrite)
    {
      FindAround(fine, i, a);
      FindMember(fine[..i], a);
    }
  }

  /** A region that refuses to be split is lost. */
  lemma ProgressLoses(rs: seq<Region>, fine: seq<Region>, now: seq<Region>, i: nat, v: nat, e: nat, flags: bv64, wantWrite: bool)
    requires Progress(rs, fine, now, i, v, e, flags, wantWrite) && i < |fine| == |now| && fine[i].vaddr < e
    ensures Ordered(now[..i] + now[i + 1..], 0) && LostAfter(rs, now[..i] + now[i + 1..], fine[i], v, flags)
  {
    hide Ordered;
    hide Find;
    hide Recoloured;
    hide Last;
    var x, r, y := fine[..i], fine[i], fine[i + 1..];
    var x' := Recoloured(x, v, e, flags);
    assert now[..i] == x' && now[i + 1..] == y;
    Around(fine, i);
    RecolouredOrdered(x, v, e, flags, 0);
    OrderedLower(y, End(r), Last(x', 0));
    OrderedAppend(x', y, 0);
    forall a: nat ensures Find(x' + y, a) == if Contains(r, a) then None
                                             else if v <= a < r.vaddr then WithFlags(Find(rs, a), flags) else Find(rs, a)
    {
      FindAround(fine, i, a);
      FindAppend(x', y, a);
      RecolouredFind(x, v, e, flags, a);
    }
  }

  // ---------------------------------------------------------------- inserting

  lemma InsertOrdered(rs: seq<Region>, i: nat, r: Region)
    requires Ordered(rs, 0) && Ordered([r], 0) && Divides(rs, i, r.vaddr)
    requires forall q :: q in rs ==> !Touches(q, r.vaddr, End(r))
    ensures Ordered(rs[..i] + [r] + rs[i..], 0)
  {
    hide Ordered;
    hide Last;
    var x, y := rs[..i], rs[i..];
    assert x + y == rs;
    OrderedAppend(x, y, 0);
    InsertFits(rs, i, r);
    OrderedAppend(x, [r], 0);
    OrderedAppend(x + [r], y, 0);
    LastAppend(x, [r], 0);
    assert y != [] ==> y[0] in rs;
  }

  lemma InsertFits(rs: seq<Region>, i: nat, r: Region)
    requires Ordered(rs, 0) && Ordered([r], 0) && Divides(rs, i, r.vaddr)
    requires forall q :: q in rs ==> !Touches(q, r.vaddr, End(r))
    ensures Ordered([r], Last(rs[..i], 0)) && Ordered(rs[i..], Last([r], Last(rs[..i], 0)))
  {
    var x, y := rs[..i], rs[i..];
    assert x + y == rs;
    OrderedAppend(x, y, 0);
    LastOfNonEmpty(x, 0);
    if i > 0 {
      assert End(rs[i - 1]) <= r.vaddr;
    }
    if y != [] {
      assert rs[i] in rs;
    }
  }

  lemma {:induction false} LastOfNonEmpty(rs: seq<Region>, low: nat)
    ensures Last(rs, low) == if rs == [] then low else End(rs[|rs| - 1])
  {
    if rs != [] {
      LastOfNonEmpty(rs[1..], End(rs[0]));
    }
  }

  lemma InsertFind(rs: seq<Region>, i: nat, r: Region, a: nat)
    requires i <= |rs| && forall q :: q in rs ==> !Touches(q, r.vaddr, End(r))
    ensures Find(rs[..i] + [r] + rs[i..], a) == if Contains(r, a) then Some(At(r, a)) else Find(rs, a)
  {
    hide Find;
    var x, y := rs[..i], rs[i..];
    assert rs == x + y;
    FindAppend(x, y, a);
    FindAppend(x, [r], a);
    FindAppend(x + [r], y, a);
    FindOne(r, a);
    if Find(x, a).Some? {
      FindMember(x, a);
      assert forall q :: q in x ==> q in rs;
    }
  }
}

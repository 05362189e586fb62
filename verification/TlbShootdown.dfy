/**
  The bounded batch of TLB flush requests of one CPU (kernel/kernel/Processor.cpp, FlushTLB
  messages, and kernel/arch/x86_64/PageTable.cpp, invalidate_range).
 */
module TlbShootdown {
  import opened Options

  const CAPACITY := 32
  const KERNEL_PAGE := 0xFFFF_FFFF_80000   // KERNEL_OFFSET / PAGE_SIZE

  /** A FlushTLB message; `table` is None (a null pointer) for kernel addresses. */
  datatype Request = Request(first: nat, count: nat, table: Option<nat>)

  /** A translation in the TLB. Translations of kernel pages are global when the CPU has PGE. */
  datatype Cached = Cached(page: nat, table: nat, global: bool)

  predicate Kernel(page: nat) {
    page >= KERNEL_PAGE
  }

  /** What invalidate_range and broadcast_smp_message produce. */
  predicate WellFormed(r: Request) {
    if r.table.None? then Kernel(r.first) else r.first + r.count <= KERNEL_PAGE
  }

  predicate InRange(r: Request, page: nat) {
    r.first <= page < r.first + r.count
  }

  /** The request names this translation. */
  predicate Covers(r: Request, c: Cached) {
    InRange(r, c.page) && (r.table.Some? ==> c.table == r.table.value)
  }

  // ---------------------------------------------------------------- the batch under the TLB lock

  /** A request is buffered; one that finds the buffer full is dropped. */
  function Posted(es: seq<Request>, r: Request): seq<Request> {
    if |es| < CAPACITY then es + [r] else es
  }

  class Batch {
    const entries: array<Request>
    var count: nat
    var global: bool

    constructor ()
      ensures Valid() && Contents() == [] && !global && fresh(entries)
    {
      entries := new Request[CAPACITY](_ => Request(0, 0, None));
      count, global := 0, false;
    }

    ghost predicate Valid()
      reads this
    {
      entries.Length == CAPACITY && count <= CAPACITY
    }

    ghost function Contents(): seq<Request>
      requires Valid()
      reads this, entries
    {
      entries[..count]
    }

    method Post(r: Request) returns (isFirstEntry: bool)
      requires Valid()
      modifies this, entries
      ensures Valid() && Contents() == Posted(old(Contents()), r)
      ensures global == (old(global) || r.table.None?)
      ensures isFirstEntry <==> old(Contents()) == []
    {
      isFirstEntry := count == 0;
      global := global || r.table.None?;
      if count < entries.Length {
        entries[count] := r;
        count := count + 1;
      }
    }

    /** Empties the batch and hands out what was in it. */
    method Take() returns (es: seq<Request>, g: bool)
      requires Valid()
      modifies this
      ensures Valid() && Contents() == [] && !global
      ensures es == old(Contents()) && g == old(global)
    {
      es := entries[..count];
      g := global;
      count := 0;
      global := false;
    }
  }

  // ---------------------------------------------------------------- invalidation

  predicate Matches(r: Request, current: nat) {
    r.table.None? || r.table.value == current
  }

  /** Reloading cr3 keeps global translations; toggling cr4.PGE drops everything. */
  function FullFlush(tlb: set<Cached>, global: bool, hasPge: bool): set<Cached> {
    if !global || !hasPge then set c | c in tlb && c.global else {}
  }

  /** invalidate_range on the loaded table, without the broadcast. */
  function RangeFlush(tlb: set<Cached>, r: Request, threshold: nat, hasPge: bool): set<Cached> {
    if r.count >= threshold then FullFlush(tlb, Kernel(r.first), hasPge)
    else set c | c in tlb && !InRange(r, c.page)
  }

  function MatchedPages(es: seq<Request>, current: nat): nat {
    if es == [] then 0
    else MatchedPages(es[..|es| - 1], current) + if Matches(es[|es| - 1], current) then es[|es| - 1].count else 0
  }

  function RangeFlushes(tlb: set<Cached>, es: seq<Request>, current: nat, threshold: nat, hasPge: bool): set<Cached> {
    if es == [] then tlb
    else
      var before := RangeFlushes(tlb, es[..|es| - 1], current, threshold, hasPge);
      if Matches(es[|es| - 1], current) then RangeFlush(before, es[|es| - 1], threshold, hasPge) else before
  }

  function Flushed(tlb: set<Cached>, es: seq<Request>, global: bool, current: nat, threshold: nat, hasPge: bool): set<Cached> {
    if MatchedPages(es, current) >= threshold || |es| >= CAPACITY then FullFlush(tlb, global, hasPge)
    else RangeFlushes(tlb, es, current, threshold, hasPge)
  }

  /** The processor's flush, on a set of translations that stands for the CPU's TLB. */
  method Invalidate(tlb: set<Cached>, es: seq<Request>, global: bool, current: nat, threshold: nat, hasPge: bool)
    returns (tlb': set<Cached>)
    ensures tlb' == Flushed(tlb, es, global, current, threshold, hasPge)
  {
    var pages := 0;
    for i := 0 to |es|
      invariant pages == MatchedPages(es[..i], current)
    {
      assert es[..i + 1][..i] == es[..i];
      if Matches(es[i], current) {
        pages := pages + es[i].count;
      }
    }
    assert es[..|es|] == es;
    if pages >= threshold || |es| >= CAPACITY {
      tlb' := FullFlush(tlb, global, hasPge);
    } else {
      tlb' := tlb;
      for i := 0 to |es|
        invariant tlb' == RangeFlushes(tlb, es[..i], current, threshold, hasPge)
      {
        assert es[..i + 1][..i] == es[..i];
        if Matches(es[i], current) {
          tlb' := RangeFlush(tlb', es[i], threshold, hasPge);
        }
      }
    }
  }

  // ---------------------------------------------------------------- the machine

  datatype Phase = Resting | Entered | Took(es: seq<Request>, global: bool)

  /** One CPU, seen together with everybody who posts requests to it. */
  datatype Cpu = Cpu(
    hasPge: bool,
    threshold: nat,
    current: nat,               // the loaded table
    entries: seq<Request>,
    global: bool,
    phase: Phase,
    owed: nat,                  // posters that found the batch empty and have yet to raise the interrupt
    ipi: bool,
    tlb: set<Cached>,
    stale: set<Cached>)         // history: translations older than a request that names them

  datatype Step =
    | Post(r: Request)
    | RaiseIpi
    | ForeignIpi
    | TakeIpi
    | PauseDrain
    | TakeBatch
    | Finish
    | Load(c: Cached)
    | Evict(c: Cached)
    | SwitchTable(table: nat)

  predicate Enabled(s: Cpu, step: Step) {
    match step
    case Post(r) => WellFormed(r)
    case RaiseIpi => s.owed > 0
    case ForeignIpi => true
    case TakeIpi => s.ipi && s.phase.Resting?
    case PauseDrain => s.phase.Resting?
    case TakeBatch => s.phase.Entered?
    case Finish => s.phase.Took?
    case Load(c) => Proper(s, c)
    case Evict(_) => true
    case SwitchTable(_) => s.phase.Resting?
  }

  /** A translation the CPU may load now: of a kernel page, or of the loaded table. */
  predicate Proper(s: Cpu, c: Cached) {
    (c.global <==> s.hasPge && Kernel(c.page)) && (!Kernel(c.page) ==> c.table == s.current)
  }

  function Apply(s: Cpu, step: Step): Cpu
    requires Enabled(s, step)
  {
    match step
    case Post(r) =>
      s.(entries := Posted(s.entries, r), global := s.global || r.table.None?,
         owed := s.owed + if s.entries == [] then 1 else 0,
         stale := s.stale + set c | c in s.tlb && Covers(r, c))
    case RaiseIpi => s.(owed := s.owed - 1, ipi := true)
    case ForeignIpi => s.(ipi := true)
    case TakeIpi => s.(ipi := false, phase := Entered)
    case PauseDrain => s.(phase := Entered)
    case TakeBatch => s.(phase := Took(s.entries, s.global), entries := [], global := false)
    case Finish =>
      var tlb := if s.phase.es == [] then s.tlb
                 else Flushed(s.tlb, s.phase.es, s.phase.global, s.current, s.threshold, s.hasPge);
      s.(phase := Resting, tlb := tlb, stale := s.stale * tlb)
    case Load(c) => s.(tlb := s.tlb + {c}, stale := s.stale - {c})
    case Evict(c) => s.(tlb := s.tlb - {c}, stale := s.stale - {c})
    case SwitchTable(t) => s.(current := t, tlb := FullFlush(s.tlb, false, s.hasPge), stale := s.stale * FullFlush(s.tlb, false, s.hasPge))
  }

  // ---------------------------------------------------------------- the invariant

  /** The batch still accounts for the translation: by name, or by being full. */
  predicate Accounts(es: seq<Request>, global: bool, c: Cached) {
    && (|es| >= CAPACITY || exists i :: 0 <= i < |es| && Covers(es[i], c))
    && (Kernel(c.page) ==> global)
  }

  predicate Inv(s: Cpu) {
    && s.threshold >= 1
    && s.stale <= s.tlb
    && (forall c :: c in s.tlb ==> Proper(s, c))
    && (forall i :: 0 <= i < |s.entries| ==> WellFormed(s.entries[i]))
    && (s.phase.Took? ==> forall i :: 0 <= i < |s.phase.es| ==> WellFormed(s.phase.es[i]))
    && (forall c :: c in s.stale ==> Accounts(s.entries, s.global, c) || (s.phase.Took? && Accounts(s.phase.es, s.phase.global, c)))
    && (s.entries != [] ==> s.owed > 0 || s.ipi || s.phase.Entered?)
  }

  lemma CoveringMatches(s: Cpu, es: seq<Request>, i: nat, c: Cached)
    requires i < |es| && WellFormed(es[i]) && Covers(es[i], c) && Proper(s, c)
    ensures Matches(es[i], s.current)
    ensures MatchedPages(es, s.current) >= 1
  {
    MatchedAtLeast(es, i, s.current);
  }

  lemma MatchedAtLeast(es: seq<Request>, i: nat, current: nat)
    requires i < |es| && Matches(es[i], current)
    ensures MatchedPages(es, current) >= es[i].count
  {
    if i < |es| - 1 {
      MatchedAtLeast(es[..|es| - 1], i, current);
    }
  }

  /** Full flushes reach every translation that a batch accounts for. */
  lemma FullFlushDrops(s: Cpu, es: seq<Request>, global: bool, c: Cached)
    requires Proper(s, c) && Accounts(es, global, c)
    ensures c !in FullFlush(s.tlb, global, s.hasPge)
  {
  }

  lemma {:induction false} RangeFlushesShrink(tlb: set<Cached>, es: seq<Request>, current: nat, threshold: nat, hasPge: bool)
    ensures RangeFlushes(tlb, es, current, threshold, hasPge) <= tlb
  {
    if es != [] {
      RangeFlushesShrink(tlb, es[..|es| - 1], current, threshold, hasPge);
    }
  }

  /** Page-by-page invalidation reaches every translation that a request names. */
  lemma {:induction false} RangeFlushesDrop(s: Cpu, es: seq<Request>, i: nat, c: Cached)
    requires i < |es| && WellFormed(es[i]) && Covers(es[i], c) && Proper(s, c)
    ensures c !in RangeFlushes(s.tlb, es, s.current, s.threshold, s.hasPge)
  {
    CoveringMatches(s, es, i, c);
    if i < |es| - 1 {
      RangeFlushesDrop(s, es[..|es| - 1], i, c);
    }
  }

  /** Whatever way the drain chooses, it drops every translation the batch accounts for. */
  lemma DrainDrops(s: Cpu, es: seq<Request>, global: bool, c: Cached)
    requires forall i :: 0 <= i < |es| ==> WellFormed(es[i])
    requires Proper(s, c) && Accounts(es, global, c)
    ensures c !in Flushed(s.tlb, es, global, s.current, s.threshold, s.hasPge)
  {
    FullFlushDrops(s, es, global, c);
    if |es| < CAPACITY {
      var i :| 0 <= i < |es| && Covers(es[i], c);
      RangeFlushesDrop(s, es, i, c);
    }
  }

  lemma FlushedShrinks(s: Cpu, es: seq<Request>, global: bool)
    ensures Flushed(s.tlb, es, global, s.current, s.threshold, s.hasPge) <= s.tlb
  {
    RangeFlushesShrink(s.tlb, es, s.current, s.threshold, s.hasPge);
  }

  lemma PostKeeps(s: Cpu, r: Request)
    requires Inv(s) && WellFormed(r)
    ensures Inv(Apply(s, Post(r)))
  {
    var s' := Apply(s, Post(r));
    forall c | c in s'.stale
      ensures Accounts(s'.entries, s'.global, c) || (s'.phase.Took? && Accounts(s'.phase.es, s'.phase.global, c))
    {
      if c in s.stale {
        PostedAccounts(s.entries, s.global, r, c);
      } else if |s.entries| < CAPACITY {
        assert s'.entries[|s.entries|] == r;
      }
    }
  }

  lemma PostedAccounts(es: seq<Request>, global: bool, r: Request, c: Cached)
    ensures Accounts(es, global, c) ==> Accounts(Posted(es, r), global || r.table.None?, c)
  {
    if Accounts(es, global, c) && |es| < CAPACITY {
      var i :| 0 <= i < |es| && Covers(es[i], c);
      assert Posted(es, r)[i] == es[i];
    }
  }

  lemma FinishKeeps(s: Cpu)
    requires Inv(s) && s.phase.Took?
    ensures Inv(Apply(s, Finish))
  {
    var s' := Apply(s, Finish);
    FlushedShrinks(s, s.phase.es, s.phase.global);
    forall c | c in s'.stale ensures Accounts(s'.entries, s'.global, c) {
      if Accounts(s.phase.es, s.phase.global, c) {
        DrainDrops(s, s.phase.es, s.phase.global, c);
      }
    }
  }

  lemma StepKeeps(s: Cpu, step: Step)
    requires Inv(s) && Enabled(s, step)
    ensures Inv(Apply(s, step))
  {
    match step
    case Post(r) => PostKeeps(s, r);
    case Finish => FinishKeeps(s);
    case _ =>
  }

  // ---------------------------------------------------------------- whole runs

  predicate CanRun(s: Cpu, steps: seq<Step>)
    decreases |steps|
  {
    steps == [] || (Enabled(s, steps[0]) && CanRun(Apply(s, steps[0]), steps[1..]))
  }

  function Run(s: Cpu, steps: seq<Step>): Cpu
    requires CanRun(s, steps)
    decreases |steps|
  {
    if steps == [] then s else Run(Apply(s, steps[0]), steps[1..])
  }

  function Init(hasPge: bool, threshold: nat, current: nat): Cpu {
    Cpu(hasPge, threshold, current, [], false, Resting, 0, false, {}, {})
  }

  lemma {:induction false} RunKeeps(s: Cpu, steps: seq<Step>)
    requires Inv(s) && CanRun(s, steps)
    ensures Inv(Run(s, steps))
    decreases |steps|
  {
    if steps != [] {
      StepKeeps(s, steps[0]);
      RunKeeps(Apply(s, steps[0]), steps[1..]);
    }
  }

  /** Steps between taking a batch and finishing with it. */
  predicate During(steps: seq<Step>) {
    forall i :: 0 <= i < |steps| ==> !steps[i].TakeBatch? && !steps[i].Finish?
  }

  /** One of the steps posts a request that names the translation. */
  predicate Names(steps: seq<Step>, c: Cached) {
    exists i :: 0 <= i < |steps| && steps[i].Post? && Covers(steps[i].r, c)
  }

  lemma NamesFirst(steps: seq<Step>, c: Cached)
    requires steps != [] && !Names(steps, c)
    ensures !(steps[0].Post? && Covers(steps[0].r, c)) && !Names(steps[1..], c)
  {
    assert forall i :: 0 <= i < |steps| - 1 ==> steps[1..][i] == steps[i + 1];
  }

  /** Only a request that names a translation makes it stale; the drain keeps its batch meanwhile. */
  lemma {:induction false} StaleBefore(s: Cpu, steps: seq<Step>, c: Cached)
    requires s.phase.Took? && CanRun(s, steps) && During(steps) && !Names(steps, c) && c in Run(s, steps).stale
    ensures c in s.stale && Run(s, steps).phase == s.phase
    decreases |steps|
  {
    if steps != [] {
      NamesFirst(steps, c);
      StaleBefore(Apply(s, steps[0]), steps[1..], c);
    }
  }

  lemma {:induction false} BatchKept(s: Cpu, steps: seq<Step>)
    requires s.phase.Took? && CanRun(s, steps) && During(steps)
    ensures Run(s, steps).phase == s.phase
    decreases |steps|
  {
    if steps != [] {
      BatchKept(Apply(s, steps[0]), steps[1..]);
    }
  }

  /**
    After any drain in any run, a translation that is older than a request naming it is in the TLB only if such a
    request was posted after the drain took its batch, however many requests there were before it.
   */
  lemma DrainLeavesNothingStale(hasPge: bool, threshold: nat, current: nat, before: seq<Step>, during: seq<Step>)
    requires threshold >= 1 && CanRun(Init(hasPge, threshold, current), before)
    requires Enabled(Run(Init(hasPge, threshold, current), before), TakeBatch) && During(during)
    requires CanRun(Apply(Run(Init(hasPge, threshold, current), before), TakeBatch), during)
    ensures var s := Run(Apply(Run(Init(hasPge, threshold, current), before), TakeBatch), during);
            && Enabled(s, Finish)
            && forall c :: c in Apply(s, Finish).stale ==> Names(during, c)
  {
    hide Inv;
    var s0 := Run(Init(hasPge, threshold, current), before);
    var s1 := Apply(s0, TakeBatch);
    var s := Run(s1, during);
    InitInv(hasPge, threshold, current);
    RunKeeps(Init(hasPge, threshold, current), before);
    StepKeeps(s0, TakeBatch);
    RunKeeps(s1, during);
    BatchKept(s1, during);
    forall c | c in Apply(s, Finish).stale ensures Names(during, c) {
      if !Names(during, c) {
        StaleBefore(s1, during, c);
        TakenIsDropped(s1, s, c);
      }
    }
  }

  lemma InitInv(hasPge: bool, threshold: nat, current: nat)
    requires threshold >= 1
    ensures Inv(Init(hasPge, threshold, current))
  {
  }

  /** What was stale when the batch was taken is gone when the drain ends. */
  lemma TakenIsDropped(s1: Cpu, s: Cpu, c: Cached)
    requires Inv(s1) && Inv(s) && s1.phase.Took? && s1.entries == [] && s.phase == s1.phase && c in s1.stale && c in s.stale
    ensures c !in Apply(s, Finish).stale
  {
    assert !Accounts(s1.entries, s1.global, c);
    DrainDrops(s, s.phase.es, s.phase.global, c);
  }

  /** In every run, a posted request is about to be looked at. */
  lemma NoRequestStranded(hasPge: bool, threshold: nat, current: nat, steps: seq<Step>)
    requires threshold >= 1 && CanRun(Init(hasPge, threshold, current), steps)
    ensures var s := Run(Init(hasPge, threshold, current), steps);
            s.entries != [] ==> s.owed > 0 || s.ipi || s.phase.Entered?
  {
    RunKeeps(Init(hasPge, threshold, current), steps);
  }
}

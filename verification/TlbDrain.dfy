/**
  What a drain of the TLB batch flushes and what it keeps, that every request can be carried out, and the batch with its
  array as the machine's.
 */
module TlbDrain {
  import opened Options
  import opened TlbShootdown

  lemma KernelAddresses(addr: nat)
    ensures Kernel(addr / 4096) <==> addr >= 0xFFFF_FFFF_8000_0000
  {
  }

  // ---------------------------------------------------------------- what a drain keeps

  /** A request that concerns the loaded table has the page in its range. */
  predicate Hit(es: seq<Request>, current: nat, page: nat) {
    exists i :: 0 <= i < |es|
             && (es[i].table == None || es[i].table == Some(current))
             && es[i].first <= page < es[i].first + es[i].count
  }

  lemma {:induction false} RangeFlushesExact(tlb: set<Cached>, es: seq<Request>, current: nat, threshold: nat,
                                             hasPge: bool, c: Cached)
    requires MatchedPages(es, current) < threshold
    ensures c in RangeFlushes(tlb, es, current, threshold, hasPge) <==> c in tlb && !Hit(es, current, c.page)
  {
    if es != [] {
      var n := |es| - 1;
      var before := es[..n];
      MatchedAtMost(es, current);
      RangeFlushesExact(tlb, before, current, threshold, hasPge, c);
      assert forall i :: 0 <= i < n ==> before[i] == es[i];
    }
  }

  lemma MatchedAtMost(es: seq<Request>, current: nat)
    requires es != []
    ensures MatchedPages(es[..|es| - 1], current) <= MatchedPages(es, current)
  {
  }

  /**
    A drain drops no more than it has to.  A batch of few pages costs exactly the pages its requests name, whatever
    table they were loaded for; any other keeps the global translations, unless it has a request for kernel pages.
   */
  lemma FlushedExactly(tlb: set<Cached>, es: seq<Request>, global: bool, current: nat, threshold: nat, hasPge: bool,
                       c: Cached)
    ensures c in Flushed(tlb, es, global, current, threshold, hasPge)
       <==> && c in tlb
            && (if MatchedPages(es, current) >= threshold || |es| >= 32 then c.global && !(global && hasPge)
                else !Hit(es, current, c.page))
  {
    hide RangeFlushes;
    if MatchedPages(es, current) < threshold {
      RangeFlushesExact(tlb, es, current, threshold, hasPge, c);
    }
  }

  // ---------------------------------------------------------------- where requests come from

  /** What invalidate_range of a table broadcasts. */
  function RequestFor(first: nat, count: nat, table: nat): Request {
    Request(first, count, if Kernel(first) then None else Some(table))
  }

  /** Every request is as the machine expects it, except for a range of user pages that runs into the kernel's. */
  lemma RequestIsWellFormed(first: nat, count: nat, table: nat)
    ensures WellFormed(RequestFor(first, count, table)) <==> first >= 0xFFFF_FFFF_80000 || first + count <= 0xFFFF_FFFF_80000
  {
  }

  /** invalidate_range on the calling CPU; the pages of a table that is not loaded are not in its TLB. */
  function Invalidated(s: Cpu, first: nat, count: nat, table: nat): set<Cached> {
    if !Kernel(first) && table != s.current then s.tlb
    else RangeFlush(s.tlb, RequestFor(first, count, table), s.threshold, s.hasPge)
  }

  /** The caller's own TLB is left with nothing that the broadcast request names, and loses no more than the flush costs. */
  lemma InvalidatedExactly(s: Cpu, first: nat, count: nat, table: nat, c: Cached)
    requires Inv(s) && WellFormed(RequestFor(first, count, table)) && c in s.tlb
    ensures Covers(RequestFor(first, count, table), c) ==> c !in Invalidated(s, first, count, table)
    ensures c !in Invalidated(s, first, count, table)
       <==> && (Kernel(first) || table == s.current)
            && (if count >= s.threshold then !c.global || (Kernel(first) && s.hasPge) else first <= c.page < first + count)
  {
    assert Proper(s, c);
  }

  // ---------------------------------------------------------------- every request can be carried out

  lemma {:induction false} RunsJoin(s: Cpu, first: seq<Step>, after: seq<Step>)
    requires CanRun(s, first) && CanRun(Run(s, first), after)
    ensures CanRun(s, first + after) && Run(s, first + after) == Run(Run(s, first), after)
    decreases |first|
  {
    hide Apply;
    hide Enabled;
    if first == [] {
      assert first + after == after;
    } else {
      RunsJoin(Apply(s, first[0]), first[1..], after);
      assert (first + after)[1..] == first[1..] + after;
    }
  }

  lemma OneStep(s: Cpu, step: Step)
    requires Enabled(s, step)
    ensures CanRun(s, [step]) && Run(s, [step]) == Apply(s, step)
  {
    hide Apply;
    hide Enabled;
    assert [step][1..] == [];
  }

  lemma TwoSteps(s: Cpu, step: Step, next: Step)
    requires Enabled(s, step) && Enabled(Apply(s, step), next)
    ensures CanRun(s, [step, next]) && Run(s, [step, next]) == Apply(Apply(s, step), next)
  {
    hide Apply;
    hide Enabled;
    OneStep(Apply(s, step), next);
    assert [step, next][1..] == [next];
  }

  /** Only what the CPU itself does, and the interrupts that posters owe it. */
  predicate Answers(steps: seq<Step>) {
    forall i :: 0 <= i < |steps| ==> steps[i].RaiseIpi? || steps[i].TakeIpi? || steps[i].TakeBatch? || steps[i].Finish?
  }

  /** A CPU that looks at its batch and is left alone ends with nothing stale. */
  lemma DrainAlone(s: Cpu)
    requires Inv(s) && s.phase.Entered?
    ensures CanRun(s, [TakeBatch, Finish])
    ensures var s' := Run(s, [TakeBatch, Finish]); s'.stale == {} && s'.entries == [] && s'.phase.Resting?
  {
    TwoSteps(s, TakeBatch, Finish);
    var s1 := Apply(s, TakeBatch);
    StepKeeps(s, TakeBatch);
    forall c | c in s1.stale ensures c !in Apply(s1, Finish).stale {
      TakenIsDropped(s1, s1, c);
    }
  }

  /** A resting CPU with requests in its batch is made to look. */
  lemma CpuIsCalled(s: Cpu) returns (steps: seq<Step>)
    requires Inv(s) && s.phase.Resting? && s.entries != []
    ensures CanRun(s, steps) && Answers(steps) && |steps| <= 2 && Inv(Run(s, steps)) && Run(s, steps).phase.Entered?
  {
    if s.ipi {
      steps := [TakeIpi];
      OneStep(s, TakeIpi);
    } else {
      steps := [RaiseIpi, TakeIpi];
      TwoSteps(s, RaiseIpi, TakeIpi);
    }
    RunKeeps(s, steps);
  }

  /** From a resting CPU: nothing is stale, or a few steps of its own and the owed interrupt see to that. */
  lemma RestingCanFlush(s: Cpu) returns (steps: seq<Step>)
    requires Inv(s) && s.phase.Resting?
    ensures CanRun(s, steps) && Answers(steps) && |steps| <= 4 && Run(s, steps).stale == {}
  {
    if s.entries == [] {
      steps := [];
      forall c ensures c !in s.stale {
        assert !Accounts(s.entries, s.global, c);
      }
    } else {
      steps := CpuIsCalled(s);
      DrainAlone(Run(s, steps));
      RunsJoin(s, steps, [TakeBatch, Finish]);
      steps := steps + [TakeBatch, Finish];
    }
  }

  /** In every run, whatever has been posted, the CPU and posters that owe it an interrupt can flush all stale translations. */
  lemma EverythingCanBeFlushed(hasPge: bool, threshold: nat, current: nat, before: seq<Step>) returns (steps: seq<Step>)
    requires threshold >= 1 && CanRun(Init(hasPge, threshold, current), before)
    ensures var s := Run(Init(hasPge, threshold, current), before);
            CanRun(s, steps) && Answers(steps) && |steps| <= 6 && Run(s, steps).stale == {}
  {
    hide Inv;
    hide Run;
    hide CanRun;
    hide Apply;
    var s := Run(Init(hasPge, threshold, current), before);
    InitInv(hasPge, threshold, current);
    RunKeeps(Init(hasPge, threshold, current), before);
    if s.phase.Entered? {
      steps := [TakeBatch, Finish];
      DrainAlone(s);
    } else if s.phase.Resting? {
      steps := RestingCanFlush(s);
    } else {
      FinishRests(s);
      steps := RestingCanFlush(Run(s, [Finish]));
      RunsJoin(s, [Finish], steps);
      steps := [Finish] + steps;
    }
  }

  lemma FinishRests(s: Cpu)
    requires Inv(s) && s.phase.Took?
    ensures CanRun(s, [Finish]) && Inv(Run(s, [Finish])) && Run(s, [Finish]).phase.Resting?
  {
    OneStep(s, Finish);
    StepKeeps(s, Finish);
  }

  // ---------------------------------------------------------------- what the history says

  /** The translation is in the TLB all the time, and never loaded anew. */
  ghost predicate StaysCached(s: Cpu, steps: seq<Step>, c: Cached)
    requires CanRun(s, steps)
    decreases |steps|
  {
    c in s.tlb && (steps != [] ==> steps[0] != Load(c) && StaysCached(Apply(s, steps[0]), steps[1..], c))
  }

  /** A request of the run names the translation, which was in the TLB then and has been ever since. */
  ghost predicate Outlives(s: Cpu, steps: seq<Step>, c: Cached)
    requires CanRun(s, steps)
    decreases |steps|
  {
    && steps != []
    && ((steps[0].Post? && Covers(steps[0].r, c) && StaysCached(s, steps, c)) || Outlives(Apply(s, steps[0]), steps[1..], c))
  }

  lemma {:induction false} StaleAfterRun(s: Cpu, steps: seq<Step>, c: Cached)
    requires Inv(s) && CanRun(s, steps)
    ensures c in Run(s, steps).stale <==> (c in s.stale && StaysCached(s, steps, c)) || Outlives(s, steps, c)
    decreases |steps|
  {
    hide Inv;
    StaleIsCached(s);
    if steps != [] {
      StepKeeps(s, steps[0]);
      StaleAfterRun(Apply(s, steps[0]), steps[1..], c);
      StaleAfterStep(s, steps[0], c);
    }
  }

  lemma StaleIsCached(s: Cpu)
    requires Inv(s)
    ensures s.stale <= s.tlb
  {
  }

  lemma StaleAfterStep(s: Cpu, step: Step, c: Cached)
    requires Inv(s) && Enabled(s, step)
    ensures var s' := Apply(s, step);
            c in s'.stale <==> c in s.tlb && c in s'.tlb && step != Load(c) && (c in s.stale || (step.Post? && Covers(step.r, c)))
  {
    hide Flushed;
  }

  /** In every run, the stale translations are those that are older than a request which names them. */
  lemma StaleIff(hasPge: bool, threshold: nat, current: nat, steps: seq<Step>, c: Cached)
    requires threshold >= 1 && CanRun(Init(hasPge, threshold, current), steps)
    ensures c in Run(Init(hasPge, threshold, current), steps).stale <==> Outlives(Init(hasPge, threshold, current), steps, c)
  {
    hide Inv;
    hide Run;
    hide CanRun;
    InitInv(hasPge, threshold, current);
    StaleAfterRun(Init(hasPge, threshold, current), steps, c);
  }

  /** A translation that is loaded and then named is stale. */
  lemma LoadedThenNamed(s: Cpu, c: Cached, r: Request)
    requires Proper(s, c) && WellFormed(r) && Covers(r, c)
    ensures CanRun(s, [Load(c), Post(r)]) && c in Run(s, [Load(c), Post(r)]).stale
  {
    TwoSteps(s, Load(c), Post(r));
  }

  /** The interrupts that posters have raised or still owe, one for each batch. */
  function Raised(steps: seq<Step>): nat {
    if steps == [] then 0 else (if steps[0].RaiseIpi? then 1 else 0) + Raised(steps[1..])
  }

  ghost function FirstPosts(s: Cpu, steps: seq<Step>): nat
    requires CanRun(s, steps)
    decreases |steps|
  {
    if steps == [] then 0
    else (if steps[0].Post? && s.entries == [] then 1 else 0) + FirstPosts(Apply(s, steps[0]), steps[1..])
  }

  /** Whether an interrupt is latched: one was raised since the last was taken. */
  function Latched(ipi: bool, steps: seq<Step>): bool
    decreases |steps|
  {
    if steps == [] then ipi
    else Latched(if steps[0].TakeIpi? then false else ipi || steps[0].RaiseIpi? || steps[0].ForeignIpi?, steps[1..])
  }

  lemma {:induction false} InterruptsAfterRun(s: Cpu, steps: seq<Step>)
    requires CanRun(s, steps)
    ensures Run(s, steps).owed + Raised(steps) == s.owed + FirstPosts(s, steps)
    ensures Run(s, steps).ipi == Latched(s.ipi, steps)
    decreases |steps|
  {
    if steps != [] {
      InterruptsAfterRun(Apply(s, steps[0]), steps[1..]);
    }
  }

  /** In every run, each poster that found the batch empty raises the interrupt once or still owes it. */
  lemma InterruptsAddUp(hasPge: bool, threshold: nat, current: nat, steps: seq<Step>)
    requires CanRun(Init(hasPge, threshold, current), steps)
    ensures var s := Run(Init(hasPge, threshold, current), steps);
            && s.owed + Raised(steps) == FirstPosts(Init(hasPge, threshold, current), steps)
            && s.ipi == Latched(false, steps)
  {
    hide Run;
    hide CanRun;
    InterruptsAfterRun(Init(hasPge, threshold, current), steps);
  }

  // ---------------------------------------------------------------- the batch follows the machine's

  /** A processor with its batch and a TLB beside the machine. */
  class Target {
    const batch: Batch
    var tlb: set<Cached>
    ghost var cpu: Cpu

    ghost predicate Valid()
      reads this, batch, batch.entries
    {
      && batch.Valid() && batch.Contents() == cpu.entries && batch.global == cpu.global
      && tlb == cpu.tlb && Inv(cpu)
    }

    constructor (hasPge: bool, threshold: nat, current: nat)
      requires threshold >= 1
      ensures Valid() && cpu == Init(hasPge, threshold, current) && fresh(batch) && fresh(batch.entries)
    {
      batch := new Batch();
      tlb := {};
      cpu := Init(hasPge, threshold, current);
      InitInv(hasPge, threshold, current);
    }

    /** Posting is the machine's; whoever finds the batch empty owes the interrupt. */
    method Post(r: Request) returns (owes: bool)
      requires Valid() && WellFormed(r)
      modifies this`cpu, batch, batch.entries
      ensures Valid() && cpu == Apply(old(cpu), Step.Post(r))
      ensures owes <==> cpu.owed == old(cpu.owed) + 1
      ensures !owes <==> cpu.owed == old(cpu.owed)
    {
      hide Inv;
      StepKeeps(cpu, Step.Post(r));
      owes := batch.Post(r);
      cpu := Apply(cpu, Step.Post(r));
    }

    /** A drain that nobody interferes with takes the machine's two steps, and leaves nothing stale. */
    method Drain(current: nat, threshold: nat, hasPge: bool)
      requires Valid() && cpu.phase.Entered?
      requires current == cpu.current && threshold == cpu.threshold && hasPge == cpu.hasPge
      modifies this, batch
      ensures Valid() && cpu == Apply(Apply(old(cpu), TakeBatch), Finish)
      ensures cpu.stale == {} && batch.Contents() == []
    {
      hide Inv;
      DrainAlone(cpu);
      TwoSteps(cpu, TakeBatch, Finish);
      StepKeeps(cpu, TakeBatch);
      StepKeeps(Apply(cpu, TakeBatch), Finish);
      var es, global := batch.Take();
      if |es| > 0 {
        tlb := Invalidate(tlb, es, global, current, threshold, hasPge);
      }
      cpu := Apply(Apply(cpu, TakeBatch), Finish);
    }
  }
}

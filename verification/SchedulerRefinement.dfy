/**
  The schedulers with their linked nodes follow the step machine: every operation of the schedulers takes the steps
  of the machine that the source's code stands for, so that whatever holds in every reachable state of the machine
  holds of the schedulers.
 */
module SchedulerRefinement {
  import opened Options
  import opened SchedulerSteps
  import opened SchedulerProof
  import opened ThreadNode
  import Processors
  import Scheduler

  // ---------------------------------------------------------------- reachable states

  ghost predicate Reachable(s: State) {
    exists init, steps :: Init(init) && CanRun(init, steps) && Run(init, steps) == s
  }

  lemma ReachableInv(s: State) returns (loc: map<nat, Location>)
    requires Reachable(s)
    ensures Inv(s, loc)
  {
    hide Inv;
    var init, steps :| Init(init) && CanRun(init, steps) && Run(init, steps) == s;
    loc := Reached(init, steps);
  }

  lemma {:induction false} RunOn(s: State, steps: seq<Step>, step: Step)
    requires CanRun(s, steps) && Enabled(Run(s, steps), step)
    ensures CanRun(s, steps + [step]) && Run(s, steps + [step]) == Apply(Run(s, steps), step)
    decreases |steps|
  {
    hide Apply;
    hide Enabled;
    if steps == [] {
      assert [] + [step] == [step] && [step][1..] == [];
      assert CanRun(Apply(s, step), []);
    } else {
      assert (steps + [step])[1..] == steps[1..] + [step];
      RunOn(Apply(s, steps[0]), steps[1..], step);
    }
  }

  /** The machine can get from one state to the other. */
  ghost predicate Leads(s: State, s': State) {
    exists steps :: CanRun(s, steps) && Run(s, steps) == s'
  }

  lemma LeadsHere(s: State)
    ensures Leads(s, s)
  {
    assert CanRun(s, []) && Run(s, []) == s;
  }

  lemma LeadsOn(s: State, s': State, step: Step)
    requires Leads(s, s') && Enabled(s', step)
    ensures Leads(s, Apply(s', step))
  {
    hide Apply;
    hide Enabled;
    hide CanRun;
    hide Run;
    var steps :| CanRun(s, steps) && Run(s, steps) == s';
    RunOn(s, steps, step);
    assert CanRun(s, steps + [step]);
  }

  lemma {:induction false} LeadsFar(s: State, s1: State, steps: seq<Step>)
    requires Leads(s, s1) && CanRun(s1, steps)
    ensures Leads(s, Run(s1, steps))
    decreases |steps|
  {
    hide Apply;
    hide Enabled;
    hide Leads;
    if steps != [] {
      LeadsOn(s, s1, steps[0]);
      LeadsFar(s, Apply(s1, steps[0]), steps[1..]);
    }
  }

  lemma LeadsThrough(s: State, s1: State, s2: State)
    requires Leads(s, s1) && Leads(s1, s2)
    ensures Leads(s, s2)
  {
    hide Run;
    hide CanRun;
    var steps :| CanRun(s1, steps) && Run(s1, steps) == s2;
    LeadsFar(s, s1, steps);
  }

  /** What is reachable leads to what is reachable. */
  lemma ReachesThrough(s: State, s': State)
    requires Reachable(s) && Leads(s, s')
    ensures Reachable(s')
  {
    hide Run;
    hide CanRun;
    hide Init;
    var init, before :| Init(init) && CanRun(init, before) && Run(init, before) == s;
    assert Leads(init, s);
    LeadsThrough(init, s, s');
    var steps :| CanRun(init, steps) && Run(init, steps) == s';
  }

  lemma ReachesOn(s: State, step: Step)
    requires Reachable(s) && Enabled(s, step)
    ensures Reachable(Apply(s, step)) && Leads(s, Apply(s, step))
  {
    hide Reachable;
    hide Leads;
    hide Apply;
    hide Enabled;
    LeadsHere(s);
    LeadsOn(s, s, step);
    ReachesThrough(s, Apply(s, step));
  }

  // ---------------------------------------------------------------- what an operation does to a state

  /** Only the processor changes, and no thread on its way. */
  ghost predicate Becomes(s: State, s': State, c: nat, cpu: Cpu) {
    && c < |s.cpus| && s'.cpus == s.cpus[c := cpu] && s'.arrivals == s.arrivals
    && (forall n :: n in s.threads && Arrival(s.threads[n].owner, n) in s.arrivals ==>
          n in s'.threads && s'.threads[n].owner == s.threads[n].owner)
  }

  /** A thread of a processor is not on its way. */
  lemma NotOnItsWay(s: State, loc: map<nat, Location>, n: nat)
    requires Inv(s, loc) && n in loc && loc[n].On?
    ensures forall c :: Arrival(c, n) !in s.arrivals
  {
  }

  lemma YieldBecomes(s: State, c: nat)
    requires Enabled(s, Yield(c))
    ensures var blocked := s.cpus[c].current.Some? && s.threads[s.cpus[c].current.value].blocked;
            Becomes(s, Apply(s, Yield(c)), c, WithNext(WithoutCurrent(s.cpus[c], blocked)))
  {
  }

  lemma ExitBecomes(s: State, loc: map<nat, Location>, c: nat)
    requires Inv(s, loc) && Enabled(s, Exit(c))
    ensures Becomes(s, Apply(s, Exit(c)), c, WithNext(s.cpus[c].(current := None, count := s.cpus[c].count - 1)))
  {
    hide Inv;
    CurrentAt(s, loc, c);
    NotOnItsWay(s, loc, s.cpus[c].current.value);
  }

  lemma BlockBecomes(s: State, c: nat, on: Option<nat>)
    requires Enabled(s, Block(c, on))
    ensures Becomes(s, Apply(s, Block(c, on)), c, s.cpus[c].(busy := Blocking))
  {
  }

  lemma BecomesNext(s: State, s1: State, s2: State, c: nat, cpu1: Cpu, cpu2: Cpu)
    requires Becomes(s, s1, c, cpu1) && Becomes(s1, s2, c, cpu2)
    ensures Becomes(s, s2, c, cpu2)
  {
  }

  lemma PokeBecomes(s: State, c: nat, n: nat)
    requires Enabled(s, Poke(c, n))
    ensures Becomes(s, Apply(s, Poke(c, n)), c, s.cpus[c])
    ensures Apply(s, Poke(c, n)).threads == s.threads && Call(c, n) in Apply(s, Poke(c, n)).wakes
  {
  }

  lemma UnblockBecomes(s: State, c: nat, n: nat)
    requires Enabled(s, Unblock(c, n)) && n in s.threads && s.threads[n].owner == c
    ensures var s', t := Apply(s, Unblock(c, n)), s.threads[n];
            && s'.threads == s.threads
            && Becomes(s, s', c, if !t.blocked then s.cpus[c]
                                 else s.cpus[c].(blockList := s.cpus[c].blockList - {n}, busy := Unhooking(n, t.blocker, None)))
  {
  }

  lemma UnhookBecomes(s: State, c: nat)
    requires Enabled(s, Unhook(c))
    ensures var s', busy := Apply(s, Unhook(c)), s.cpus[c].busy;
            && busy.thread in s'.threads && s'.threads[busy.thread].owner == s.threads[busy.thread].owner
            && Becomes(s, s', c, s.cpus[c].(busy := Ready(busy.thread, busy.target)))
  {
  }

  lemma ReleaseBecomes(s: State, c: nat)
    requires Enabled(s, Release(c)) && s.cpus[c].busy.target == None
    ensures Becomes(s, Apply(s, Release(c)), c, s.cpus[c].(runList := s.cpus[c].runList + [s.cpus[c].busy.thread], busy := Free))
  {
  }

  /** unblock_thread on the thread's own processor. */
  lemma Unblocks(s: State, c: nat, n: nat) returns (s': State)
    requires Reachable(s) && Enabled(s, Unblock(c, n)) && n in s.threads && s.threads[n].owner == c
    ensures Reachable(s') && Leads(s, s')
    ensures Becomes(s, s', c, if s.threads[n].blocked then Awoken(s.cpus[c], n) else s.cpus[c])
  {
    hide Reachable;
    hide Leads;
    hide Apply;
    s' := Apply(s, Unblock(c, n));
    UnblockBecomes(s, c, n);
    ReachesOn(s, Unblock(c, n));
    if s.threads[n].blocked {
      var s1 := s';
      UnhookBecomes(s1, c);
      ReachesOn(s1, Unhook(c));
      var s2 := Apply(s1, Unhook(c));
      BecomesNext(s, s1, s2, c, s1.cpus[c], s2.cpus[c]);
      ReleaseBecomes(s2, c);
      ReachesOn(s2, Release(c));
      s' := Apply(s2, Release(c));
      BecomesNext(s, s2, s', c, s2.cpus[c], s'.cpus[c]);
      LeadsThrough(s, s1, s2);
      LeadsThrough(s, s2, s');
    }
  }

  /** A thread on a processor's block list is blocked and the processor's own. */
  lemma Sleeper(s: State, c: nat, n: nat)
    requires Reachable(s) && c < |s.cpus| && n in s.cpus[c].blockList
    ensures n in s.threads && s.threads[n].owner == c && s.threads[n].blocked
  {
    hide Reachable;
    hide Inv;
    var loc := ReachableInv(s);
    Residents(s, loc, c);
    assert At(s.cpus[c], Asleep, n);
    Whereabouts(s, loc, n);
  }

  /** A timeout wakes one sleeper. */
  lemma WakesOne(s: State, c: nat, n: nat) returns (s': State)
    requires Reachable(s) && IsFree(s, c) && n in s.cpus[c].blockList
    ensures Reachable(s') && Leads(s, s') && Becomes(s, s', c, Awoken(s.cpus[c], n))
  {
    hide Reachable;
    hide Leads;
    hide Apply;
    Sleeper(s, c, n);
    var s1 := Apply(s, Poke(c, n));
    PokeBecomes(s, c, n);
    ReachesOn(s, Poke(c, n));
    s' := Unblocks(s1, c, n);
    BecomesNext(s, s1, s', c, s1.cpus[c], s'.cpus[c]);
    LeadsThrough(s, s1, s');
  }

  /** Timeouts wake sleepers one after the other. */
  lemma {:induction false} WakesAll(s: State, c: nat, q: seq<nat>) returns (s': State)
    requires Reachable(s) && IsFree(s, c) && Wakeable(s.cpus[c], q)
    ensures Reachable(s') && Leads(s, s') && Becomes(s, s', c, AllAwoken(s.cpus[c], q)) && IsFree(s', c)
    decreases |q|
  {
    hide Reachable;
    hide Leads;
    if q == [] {
      s' := s;
      LeadsHere(s);
    } else {
      var n := |q| - 1;
      var s1 := WakesAll(s, c, q[..n]);
      s' := WakesOne(s1, c, q[n]);
      BecomesNext(s, s1, s', c, s1.cpus[c], s'.cpus[c]);
      LeadsThrough(s, s1, s');
    }
  }

  // ---------------------------------------------------------------- threads that set out and arrive

  /** The processor changes, and the thread is on its way from then on. */
  ghost predicate Sends(s: State, s': State, c: nat, cpu: Cpu, p: nat, n: nat) {
    && c < |s.cpus| && s'.cpus == s.cpus[c := cpu] && s'.arrivals == s.arrivals + multiset{Arrival(p, n)}
    && n in s'.threads && s'.threads[n].owner == p
    && (forall m :: m in s.threads && Arrival(s.threads[m].owner, m) in s.arrivals ==>
          m in s'.threads && s'.threads[m].owner == s.threads[m].owner)
  }

  lemma MigrateBecomes(s: State, loc: map<nat, Location>, c: nat, n: nat, p: nat)
    requires Inv(s, loc) && Enabled(s, Migrate(c, n, p))
    ensures var s', t, cpu := Apply(s, Migrate(c, n, p)), s.threads[n], s.cpus[c];
            if t.blocked then
              && s'.threads == s.threads
              && Becomes(s, s', c, cpu.(blockList := cpu.blockList - {n}, busy := Unhooking(n, t.blocker, Some(p))))
            else Sends(s, s', c, Departed(cpu, n, false), p, n)
  {
    hide Inv;
    Residents(s, loc, c);
    assert At(s.cpus[c], Queued, n) || At(s.cpus[c], Asleep, n);
    NotOnItsWay(s, loc, n);
  }

  lemma ReleaseSends(s: State, loc: map<nat, Location>, c: nat)
    requires Inv(s, loc) && Enabled(s, Release(c)) && s.cpus[c].busy.target.Some?
    ensures var cpu := s.cpus[c];
            Sends(s, Apply(s, Release(c)), c, cpu.(count := cpu.count - 1, busy := Free), cpu.busy.target.value, cpu.busy.thread)
  {
    hide Inv;
    InHandAt(s, loc, c);
    NotOnItsWay(s, loc, s.cpus[c].busy.thread);
  }

  lemma BecomesThenSends(s: State, s1: State, s2: State, c: nat, cpu1: Cpu, cpu2: Cpu, p: nat, n: nat)
    requires Becomes(s, s1, c, cpu1) && Sends(s1, s2, c, cpu2, p, n)
    ensures Sends(s, s2, c, cpu2, p, n)
  {
  }

  /** Load balancing gives a thread away. */
  lemma Migrates(s: State, c: nat, n: nat, p: nat) returns (s': State)
    requires Reachable(s) && Enabled(s, Migrate(c, n, p))
    ensures Reachable(s') && Leads(s, s') && Sends(s, s', c, Departed(s.cpus[c], n, s.threads[n].blocked), p, n)
  {
    hide Reachable;
    hide Leads;
    hide Apply;
    hide Inv;
    var loc := ReachableInv(s);
    s' := Apply(s, Migrate(c, n, p));
    MigrateBecomes(s, loc, c, n, p);
    ReachesOn(s, Migrate(c, n, p));
    if s.threads[n].blocked {
      var s1 := s';
      UnhookBecomes(s1, c);
      ReachesOn(s1, Unhook(c));
      var s2 := Apply(s1, Unhook(c));
      BecomesNext(s, s1, s2, c, s1.cpus[c], s2.cpus[c]);
      var loc2 := ReachableInv(s2);
      ReleaseSends(s2, loc2, c);
      ReachesOn(s2, Release(c));
      s' := Apply(s2, Release(c));
      BecomesThenSends(s, s2, s', c, s2.cpus[c], s'.cpus[c], p, n);
      LeadsThrough(s, s1, s2);
      LeadsThrough(s, s2, s');
    }
  }

  /** The thread is no longer on its way, and joins the processor. */
  ghost predicate Receives(s: State, s': State, c: nat, n: nat) {
    && c < |s.cpus| && s'.cpus == s.cpus[c := s.cpus[c].(runList := s.cpus[c].runList + [n], count := s.cpus[c].count + 1)]
    && s'.arrivals == s.arrivals - multiset{Arrival(c, n)} && s'.threads == s.threads
  }

  lemma Arrives(s: State, c: nat, n: nat)
    requires Reachable(s) && Enabled(s, Arrive(c, n))
    ensures s.threads[n].owner == c && Reachable(Apply(s, Arrive(c, n))) && Receives(s, Apply(s, Arrive(c, n)), c, n)
  {
    hide Reachable;
    hide Inv;
    var loc := ReachableInv(s);
    OnItsWay(s, loc, c, n);
    ReachesOn(s, Arrive(c, n));
  }

  lemma OnItsWay(s: State, loc: map<nat, Location>, c: nat, n: nat)
    requires Inv(s, loc) && Arrival(c, n) in s.arrivals
    ensures n in s.threads && s.threads[n].owner == c && loc[n] == Travelling(c)
  {
    assert n in loc && loc[n] == Travelling(c);
    assert ThreadOk(s.threads[n], n, loc[n], s.cpus, s.chains);
  }

  predicate IsThere(cpu: Cpu, place: Place, n: nat) {
    match place
    case Running => cpu.current == Some(n)
    case Queued => n in cpu.runList
    case Asleep => n in cpu.blockList
    case InHand => false
  }

  /** What the place of a thread says about it. */
  lemma OnlyThere(s: State, loc: map<nat, Location>, c: nat, n: nat, place: Place)
    requires Inv(s, loc) && c < |s.cpus| && IsThere(s.cpus[c], place, n)
    ensures n in loc && loc[n] == On(c, place) && n in s.threads && s.threads[n].owner == c
    ensures s.threads[n].blocked <==> place == Asleep || (place == Running && s.cpus[c].busy == Blocking)
    ensures place != Running ==> s.cpus[c].current != Some(n)
  {
    hide Inv;
    Residents(s, loc, c);
    assert At(s.cpus[c], place, n);
    Whereabouts(s, loc, n);
    assert s.cpus[c].current == Some(n) ==> At(s.cpus[c], Running, n);
  }

  /** Nothing happens to any processor, nor to a thread on its way. */
  predicate Silent(s: State, step: Step) {
    || step.Deliver? || step.Take? || step.Poke?
    || (step.Unblock? && (step.thread in s.threads ==> s.threads[step.thread].owner != step.cpu || !s.threads[step.thread].blocked))
  }

  lemma SilentBecomes(s: State, step: Step)
    requires Enabled(s, step) && Silent(s, step)
    ensures step.cpu < |s.cpus| && Becomes(s, Apply(s, step), step.cpu, s.cpus[step.cpu])
  {
  }

  lemma AddBecomes(s: State, c: nat, n: nat, p: nat)
    requires Enabled(s, Add(c, n, p))
    ensures var s', cpu := Apply(s, Add(c, n, p)), s.cpus[c];
            if p == c then Becomes(s, s', c, cpu.(runList := cpu.runList + [n], count := cpu.count + 1))
            else Sends(s, s', c, cpu, p, n)
  {
  }

  // ---------------------------------------------------------------- the schedulers and the machine side by side

  class Machine {
    const processors: Processors.Processors
    ghost var state: State

    /** The processors are as the state says, and every thread without a processor is on its way to one. */
    ghost predicate Mirrors()
      reads *
    {
      && |state.cpus| == |processors.cpus|
      && (forall i :: 0 <= i < |processors.cpus| ==> state.cpus[i] == processors.cpus[i].View())
      && (forall x :: x in processors.travelling ==>
            x.tid in state.threads && Arrival(state.threads[x.tid].owner, x.tid) in state.arrivals)
    }

    ghost predicate Valid()
      reads *
    {
      processors.Valid() && Mirrors() && Reachable(state)
    }

    ghost predicate Has(c: nat)
      reads this, processors
    {
      c < |processors.cpus| == |processors.nodes|
    }

    constructor (processors: Processors.Processors)
      requires processors.Valid() && processors.travelling == {}
      requires forall i :: 0 <= i < |processors.cpus| ==> processors.cpus[i].Nodes() == {}
      ensures Valid() && this.processors == processors
    {
      hide Reachable;
      hide Scheduler.Scheduler.Valid;
      hide Scheduler.Scheduler.View;
      this.processors := processors;
      state := State(seq(|processors.cpus|, _ => IDLE), map[], map[], multiset{}, multiset{}, {}, {});
      new;
      Beginning(state);
      forall i | 0 <= i < |processors.cpus| ensures state.cpus[i] == processors.cpus[i].View() {
        processors.cpus[i].NothingToDo();
      }
    }

    /** Every thread of a processor is where the state has it, and blocked if the state says so. */
    lemma Located(i: nat, x: Node)
      requires Valid() && i < |processors.cpus| && x in processors.nodes[i]
      ensures x.tid in state.threads && state.threads[x.tid].owner == i && state.threads[x.tid].blocked == x.blocked
      ensures forall c :: Arrival(c, x.tid) !in state.arrivals
      ensures x == processors.cpus[i].current <==> state.cpus[i].current == Some(x.tid)
    {
      hide Reachable;
      hide Inv;
      hide At;
      hide Scheduler.Scheduler.Valid;
      hide Scheduler.Scheduler.View;
      var loc := ReachableInv(state);
      processors.cpus[i].PlaceOf(x);
      processors.cpus[i].CurrentInView();
      OnlyThere(state, loc, i, x.tid, if x == processors.cpus[i].current then Running else if x.blocked then Asleep else Queued);
      NotOnItsWay(state, loc, x.tid);
    }

    /** No thread has the number of a new one. */
    lemma Unknown(n: nat)
      requires Valid() && n !in state.threads
      ensures forall x :: x in Processors.All(processors.nodes, processors.travelling) ==> x.tid != n
    {
      hide Reachable;
      hide Processors.All;
      forall x | x in Processors.All(processors.nodes, processors.travelling) ensures x.tid != n {
        Processors.AllIs(processors.nodes, processors.travelling, x);
        if x !in processors.travelling {
          var i :| 0 <= i < |processors.nodes| && x in processors.nodes[i];
          Located(i, x);
        }
      }
    }

    /** In every reachable state, the node of a thread on no list has null links. */
    lemma UnlistedIsUnlinked(x: Node)
      requires Valid() && x in Processors.All(processors.nodes, processors.travelling) && Unlisted(state, x.tid)
      ensures x.Unlinked()
    {
      hide Reachable;
      hide Scheduler.Scheduler.Valid;
      hide Processors.All;
      processors.UnlistedThreadIsUnlinked(state, x);
    }

    /** The threads on their way, as a state has them. */
    ghost predicate Awaits(s: State)
      reads *
    {
      forall x :: x in processors.travelling ==> x.tid in s.threads && Arrival(s.threads[x.tid].owner, x.tid) in s.arrivals
    }

    ghost predicate SameElsewhere(s: State, c: nat)
      reads *
    {
      |s.cpus| == |processors.cpus| && forall i :: 0 <= i < |s.cpus| && i != c ==> s.cpus[i] == processors.cpus[i].View()
    }

    lemma Sizes()
      requires Valid()
      ensures |processors.nodes| == |processors.cpus| == |state.cpus| && Awaits(state)
      ensures forall i :: 0 <= i < |processors.cpus| ==> state.cpus[i] == processors.cpus[i].View()
    {
    }

    /** The machine takes the steps that the processors have taken. */
    ghost method Settle(s: State)
      requires processors.Valid() && Reachable(s) && Awaits(s) && |s.cpus| == |processors.cpus|
      requires forall i :: 0 <= i < |processors.cpus| ==> s.cpus[i] == processors.cpus[i].View()
      modifies this`state
      ensures Valid() && state == s
    {
      hide Reachable;
      hide Processors.All;
      hide Processors.Partition;
      hide Scheduler.Identified;
      hide Scheduler.Scheduler.Valid;
      hide Scheduler.Scheduler.View;
      state := s;
    }

    ghost method MoveTo(s: State, c: nat)
      requires processors.Valid() && Reachable(s) && c < |processors.cpus| && SameElsewhere(state, c) && Awaits(state)
      requires Becomes(state, s, c, processors.cpus[c].View())
      modifies this`state
      ensures Valid() && state == s
    {
      hide Reachable;
      hide Processors.Processors.Valid;
      hide Scheduler.Scheduler.View;
      Settle(s);
    }

    /** The same when a thread sets out. */
    ghost method SendTo(s: State, c: nat, node: Node, p: nat)
      requires processors.Valid() && Reachable(s) && c < |processors.cpus| && SameElsewhere(state, c)
      requires forall x :: x in processors.travelling && x != node ==>
        x.tid in state.threads && Arrival(state.threads[x.tid].owner, x.tid) in state.arrivals
      requires Sends(state, s, c, processors.cpus[c].View(), p, node.tid)
      modifies this`state
      ensures Valid() && state == s
    {
      hide Reachable;
      hide Processors.Processors.Valid;
      hide Scheduler.Scheduler.View;
      Settle(s);
    }

    lemma OtherTravellers(node: Node)
      requires processors.Valid() && node in processors.travelling
      ensures forall x :: x in processors.travelling && x != node ==> x.tid != node.tid
    {
      hide Processors.All;
      hide Scheduler.Scheduler.Valid;
      Processors.AllIs(processors.nodes, processors.travelling, node);
      forall x | x in processors.travelling && x != node ensures x.tid != node.tid {
        Processors.AllIs(processors.nodes, processors.travelling, x);
      }
    }

    /** A thread of the machine with a node that is on no processor is on its way. */
    lemma Traveller(node: Node, c: nat)
      requires Valid() && node in Processors.All(processors.nodes, processors.travelling) && Arrival(c, node.tid) in state.arrivals
      ensures node in processors.travelling
    {
      hide Reachable;
      hide Processors.All;
      hide Scheduler.Scheduler.Valid;
      hide Scheduler.Scheduler.View;
      Processors.AllIs(processors.nodes, processors.travelling, node);
      if node !in processors.travelling {
        var i :| 0 <= i < |processors.nodes| && node in processors.nodes[i];
        Located(i, node);
      }
    }

    // -------------------------------------------------------------- operations

    /** Steps of the machine that no scheduler notices: calls and messages that come and go, and chains that change. */
    ghost method Elsewhere(step: Step)
      requires Valid() && Enabled(state, step) && Silent(state, step)
      modifies this`state
      ensures Valid() && state == Apply(old(state), step)
    {
      hide Reachable;
      hide Apply;
      hide Mirrors;
      hide Becomes;
      hide Processors.Processors.Valid;
      hide Scheduler.Scheduler.View;
      Sizes();
      SilentBecomes(state, step);
      ReachesOn(state, step);
      MoveTo(Apply(state, step), step.cpu);
    }

    /** A new thread, for this processor or for another one. */
    method AddThread(c: nat, tid: nat, wakeTime: nat, p: nat) returns (node: Node)
      requires Has(c) && Valid() && Enabled(state, Add(c, tid, p))
      modifies this`state, processors, processors.cpus[c], processors.cpus[c].runList, processors.nodes[c]
      ensures Valid() && state == Apply(old(state), Add(c, tid, p)) && node.tid == tid
    {
      hide Reachable;
      hide Apply;
      hide Mirrors;
      hide Becomes;
      hide Processors.Processors.Valid;
      hide Scheduler.Scheduler.View;
      Sizes();
      Unknown(tid);
      AddBecomes(state, c, tid, p);
      ReachesOn(state, Add(c, tid, p));
      node := processors.Create(tid, wakeTime);
      if p == c {
        processors.Arrive(c, node);
        MoveTo(Apply(state, Add(c, tid, p)), c);
      } else {
        SendTo(Apply(state, Add(c, tid, p)), c, node, p);
      }
    }

    /** A NewThread message is handled. */
    method Arrive(c: nat, node: Node)
      requires Has(c) && Valid() && Enabled(state, SchedulerSteps.Arrive(c, node.tid))
      requires node in Processors.All(processors.nodes, processors.travelling)
      modifies this`state, processors, processors.cpus[c], processors.cpus[c].runList, processors.nodes[c], node
      ensures Valid() && state == Apply(old(state), SchedulerSteps.Arrive(c, node.tid))
    {
      hide Reachable;
      hide Apply;
      hide Mirrors;
      hide Becomes;
      hide Processors.Processors.Valid;
      hide Scheduler.Scheduler.View;
      Sizes();
      Traveller(node, c);
      OtherTravellers(node);
      Arrives(state, c, node.tid);
      processors.Arrive(c, node);
      Settle(Apply(state, SchedulerSteps.Arrive(c, node.tid)));
    }

    /** A call of unblock_thread is carried out on the thread's own processor. */
    method UnblockThread(c: nat, node: Node)
      requires Has(c) && Valid() && Enabled(state, Unblock(c, node.tid)) && node in processors.nodes[c]
      modifies this`state, processors.cpus[c].runList, processors.cpus[c].blockList, processors.nodes[c]
      ensures Valid() && !node.blocked && Leads(old(state), state)
      ensures Becomes(old(state), state, c, if old(node.blocked) then Awoken(old(state).cpus[c], node.tid) else old(state).cpus[c])
    {
      hide Reachable;
      hide Leads;
      hide Awoken;
      hide Apply;
      hide Mirrors;
      hide Becomes;
      hide Processors.Processors.Valid;
      hide Scheduler.Scheduler.View;
      Sizes();
      Located(c, node);
      processors.cpus[c].CurrentInView();
      ghost var s := Unblocks(state, c, node.tid);
      processors.UnblockThread(c, node);
      MoveTo(s, c);
    }

    /** The current thread blocks. */
    method BlockCurrentThread(c: nat, wakeTime: nat, ghost on: Option<nat>)
      requires Has(c) && Valid() && Enabled(state, Block(c, on))
      modifies this`state, processors.nodes[c]
      ensures Valid() && state == Apply(old(state), Block(c, on))
    {
      hide Reachable;
      hide Apply;
      hide Mirrors;
      hide Becomes;
      hide Processors.Processors.Valid;
      hide Scheduler.Scheduler.View;
      Sizes();
      processors.cpus[c].CurrentInView();
      BlockBecomes(state, c, on);
      ReachesOn(state, Block(c, on));
      processors.BlockCurrentThread(c, wakeTime);
      MoveTo(Apply(state, Block(c, on)), c);
    }

    /** A processor goes on to its next thread. */
    method Reschedule(c: nat)
      requires Has(c) && Valid() && Enabled(state, Yield(c))
      modifies this`state, processors.cpus[c], processors.cpus[c].runList, processors.cpus[c].blockList, processors.nodes[c]
      ensures Valid() && state == Apply(old(state), Yield(c))
    {
      hide Reachable;
      hide Apply;
      hide Mirrors;
      hide Becomes;
      hide Processors.Processors.Valid;
      hide Scheduler.Scheduler.View;
      hide WithNext;
      hide WithoutCurrent;
      Sizes();
      processors.cpus[c].CurrentInView();
      if processors.cpus[c].current != null {
        CurrentIsOwn(c);
        Located(c, processors.cpus[c].current);
      }
      YieldBecomes(state, c);
      ReachesOn(state, Yield(c));
      processors.Reschedule(c);
      MoveTo(Apply(state, Yield(c)), c);
    }

    lemma CurrentIsOwn(c: nat)
      requires processors.Valid() && c < |processors.cpus| && processors.cpus[c].current != null
      ensures processors.cpus[c].current in processors.nodes[c]
    {
      hide Scheduler.Scheduler.Valid;
      processors.cpus[c].CurrentIsApart();
    }

    /** The current thread is terminated. */
    method Exit(c: nat)
      requires Has(c) && Valid() && Enabled(state, SchedulerSteps.Exit(c))
      modifies this`state, processors`nodes, processors.cpus[c], processors.cpus[c].runList, processors.cpus[c].blockList
      modifies processors.nodes[c]
      ensures Valid() && state == Apply(old(state), SchedulerSteps.Exit(c))
    {
      hide Reachable;
      hide Apply;
      hide Mirrors;
      hide Becomes;
      hide Processors.Processors.Valid;
      hide Scheduler.Scheduler.View;
      hide Inv;
      hide WithNext;
      Sizes();
      processors.cpus[c].CurrentInView();
      ghost var loc := ReachableInv(state);
      ExitBecomes(state, loc, c);
      ReachesOn(state, SchedulerSteps.Exit(c));
      processors.Exit(c);
      MoveTo(Apply(state, SchedulerSteps.Exit(c)), c);
    }

    /** Timeouts on a processor that is not in the middle of anything. */
    method WakeUpSleepingThreads(c: nat, now: nat)
      requires Has(c) && Valid() && IsFree(state, c)
      modifies this`state, processors.cpus[c].runList, processors.cpus[c].blockList, processors.nodes[c]
      ensures Valid() && Leads(old(state), state)
    {
      hide Reachable;
      hide Leads;
      hide Apply;
      hide Mirrors;
      hide Becomes;
      hide Processors.Processors.Valid;
      hide Scheduler.Scheduler.View;
      hide Wakeable;
      hide AllAwoken;
      Sizes();
      ghost var woken := processors.WakeUpSleepingThreads(c, now);
      ghost var s := WakesAll(state, c, woken);
      MoveTo(s, c);
    }

    /** Load balancing. */
    method GiveAway(c: nat, node: Node, p: nat)
      requires Has(c) && Valid() && Enabled(state, Migrate(c, node.tid, p)) && node in processors.nodes[c]
      modifies this`state, processors, processors.cpus[c], processors.cpus[c].runList, processors.cpus[c].blockList
      modifies processors.nodes[c]
      ensures Valid() && Leads(old(state), state) && Arrival(p, node.tid) in state.arrivals && node.Unlinked()
    {
      hide Reachable;
      hide Leads;
      hide Apply;
      hide Mirrors;
      hide Becomes;
      hide Processors.Processors.Valid;
      hide Scheduler.Scheduler.View;
      hide Departed;
      Sizes();
      Located(c, node);
      NotCurrent(c, node, p);
      ghost var s := Migrates(state, c, node.tid, p);
      processors.GiveAway(c, node);
      SendTo(s, c, node, p);
    }

    lemma NotCurrent(c: nat, node: Node, p: nat)
      requires Has(c) && Valid() && Enabled(state, Migrate(c, node.tid, p)) && node in processors.nodes[c]
      ensures node != processors.cpus[c].current
    {
      hide Reachable;
      hide Inv;
      hide At;
      hide Mirrors;
      hide Processors.Processors.Valid;
      hide Scheduler.Scheduler.View;
      Sizes();
      var loc := ReachableInv(state);
      Located(c, node);
      OnlyThere(state, loc, c, node.tid, if node.tid in state.cpus[c].runList then Queued else Asleep);
    }
  }

  lemma Beginning(s: State)
    requires s == State(seq(|s.cpus|, _ => IDLE), map[], map[], multiset{}, multiset{}, {}, {})
    ensures Reachable(s)
  {
    assert CanRun(s, []) && Run(s, []) == s;
  }
}

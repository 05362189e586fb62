/**
  The order in which waiting threads are woken: the linked chain of a blocker is the chain of the step machine, and in
  every run that chain has the threads in the reverse order of their blocking.
 */
module BlockOrder {
  import opened Options
  import opened Sequences
  import opened ThreadNode
  import opened SchedulerSteps
  import opened SchedulerProof
  import opened SchedulerRefinement
  import Scheduler
  import ThreadBlocker

  // ---------------------------------------------------------------- which steps change a chain

  /** The step works on the chain of blocker b. */
  predicate Touches(s: State, step: Step, b: nat)
    requires Enabled(s, step)
  {
    match step
    case Take(_, b') => b' == b
    case Block(_, on) => on == Some(b)
    case Unhook(c) => s.cpus[c].busy.blocker == Some(b)
    case _ => false
  }

  lemma OtherStepKeeps(s: State, step: Step, b: nat)
    requires Enabled(s, step) && !Touches(s, step, b)
    ensures Chain(Apply(s, step).chains, b) == Chain(s.chains, b)
  {
  }

  lemma BlockGoesFirst(s: State, c: nat, b: nat)
    requires Enabled(s, Step.Block(c, Some(b)))
    ensures Chain(Apply(s, Step.Block(c, Some(b))).chains, b) == [s.cpus[c].current.value] + Chain(s.chains, b)
  {
  }

  lemma UnhookRemoves(s: State, c: nat, b: nat)
    requires Enabled(s, Unhook(c)) && s.cpus[c].busy.blocker == Some(b)
    ensures var n, q := s.cpus[c].busy.thread, Chain(s.chains, b);
            Chain(Apply(s, Unhook(c)).chains, b) == if s.threads[n].blocker == Some(b) then Without(q, n) else q
  {
  }

  lemma TakeRemovesFirst(s: State, c: nat, b: nat)
    requires Enabled(s, Take(c, b))
    ensures var s' := Apply(s, Take(c, b));
            && Chain(s'.chains, b) == Chain(s.chains, b)[1..] && |s'.cpus| == |s.cpus|
            && s'.wakes == s.wakes + multiset{Call(c, Chain(s.chains, b)[0])}
            && (forall n :: n in s.threads ==> n in s'.threads)
  {
  }

  // ---------------------------------------------------------------- the last to block is the first to be woken

  /** The number of the step at which each thread last blocked; the first step has number i. */
  ghost function LastBlocked(s: State, steps: seq<Step>, i: nat, when: map<nat, nat>): map<nat, nat>
    requires CanRun(s, steps)
    decreases |steps|
  {
    if steps == [] then when
    else LastBlocked(Apply(s, steps[0]), steps[1..], i + 1,
                     if steps[0].Block? then when[s.cpus[steps[0].cpu].current.value := i] else when)
  }

  /** The threads of a chain, the youngest wait first, all of them before i. */
  ghost predicate YoungFirst(q: seq<nat>, when: map<nat, nat>, i: nat) {
    && (forall j :: 0 <= j < |q| ==> q[j] in when && when[q[j]] < i)
    && (forall j, k :: 0 <= j < k < |q| ==> when[q[k]] < when[q[j]])
  }

  lemma {:induction false} WithoutMembers(q: seq<nat>, n: nat)
    ensures forall x :: x in Without(q, n) ==> x in q
  {
    if q != [] && q[0] != n {
      WithoutMembers(q[1..], n);
    }
  }

  lemma YoungFirstTail(q: seq<nat>, when: map<nat, nat>, i: nat)
    requires YoungFirst(q, when, i) && q != []
    ensures YoungFirst(q[1..], when, i) && q[0] in when && when[q[0]] < i
    ensures forall x :: x in q[1..] ==> x in when && when[x] < when[q[0]]
  {
    assert forall j :: 0 <= j < |q| - 1 ==> q[1..][j] == q[j + 1];
  }

  lemma YoungFirstHead(x: nat, q: seq<nat>, when: map<nat, nat>, i: nat)
    requires YoungFirst(q, when, i) && x in when && when[x] < i
    requires forall y :: y in q ==> y in when && when[y] < when[x]
    ensures YoungFirst([x] + q, when, i)
  {
    var r := [x] + q;
    forall j, k | 0 <= j < k < |r| ensures when[r[k]] < when[r[j]] {
      assert r[k] == q[k - 1];
      assert j > 0 ==> r[j] == q[j - 1];
    }
  }

  lemma {:induction false} WithoutStaysYoungFirst(q: seq<nat>, n: nat, when: map<nat, nat>, i: nat)
    requires YoungFirst(q, when, i)
    ensures YoungFirst(Without(q, n), when, i)
  {
    hide YoungFirst;
    if q != [] {
      YoungFirstTail(q, when, i);
      if q[0] != n {
        WithoutStaysYoungFirst(q[1..], n, when, i);
        WithoutMembers(q[1..], n);
        YoungFirstHead(q[0], Without(q[1..], n), when, i);
      }
    }
  }

  /** A thread that blocks is on no chain yet. */
  lemma BlockerIsNew(s: State, loc: map<nat, Location>, c: nat, on: Option<nat>, b: nat)
    requires Inv(s, loc) && Enabled(s, Step.Block(c, on))
    ensures s.cpus[c].current.value !in Chain(s.chains, b)
  {
    hide Inv;
    CurrentAt(s, loc, c);
    ChainNames(s, loc, b);
  }

  lemma ChainNames(s: State, loc: map<nat, Location>, b: nat)
    requires Inv(s, loc)
    ensures forall n :: n in Chain(s.chains, b) ==> n in s.threads && s.threads[n].blocker == Some(b)
  {
    hide Placement;
    hide Threads;
    hide Cpus;
    hide Mailed;
    hide Wakes;
    hide Taken;
    if b in s.chains {
      assert ChainOk(s.chains[b], b, s.threads);
    }
  }

  lemma StaysYoungFirst(s: State, loc: map<nat, Location>, step: Step, b: nat, when: map<nat, nat>, i: nat)
    requires Inv(s, loc) && Enabled(s, step) && YoungFirst(Chain(s.chains, b), when, i)
    ensures var when' := if step.Block? then when[s.cpus[step.cpu].current.value := i] else when;
            YoungFirst(Chain(Apply(s, step).chains, b), when', i + 1)
  {
    hide Inv;
    hide Apply;
    var q := Chain(s.chains, b);
    if step.Block? {
      BlockerIsNew(s, loc, step.cpu, step.on, b);
    }
    if !Touches(s, step, b) {
      OtherStepKeeps(s, step, b);
    } else {
      match step
      case Take(c, _) => TakeRemovesFirst(s, c, b);
      case Block(c, _) => BlockGoesFirst(s, c, b);
      case Unhook(c) => UnhookRemoves(s, c, b); WithoutStaysYoungFirst(q, s.cpus[c].busy.thread, when, i);
    }
  }

  lemma {:induction false} RunStaysYoungFirst(s: State, loc: map<nat, Location>, steps: seq<Step>, b: nat, i: nat,
                                              when: map<nat, nat>)
    requires Inv(s, loc) && CanRun(s, steps) && YoungFirst(Chain(s.chains, b), when, i)
    ensures YoungFirst(Chain(Run(s, steps).chains, b), LastBlocked(s, steps, i, when), i + |steps|)
    decreases |steps|
  {
    hide Inv;
    hide Apply;
    hide Chain;
    hide YoungFirst;
    if steps != [] {
      var step := steps[0];
      var loc' := StepKeeps(s, loc, step);
      StaysYoungFirst(s, loc, step, b, when, i);
      RunStaysYoungFirst(Apply(s, step), loc', steps[1..], b, i + 1,
                         if step.Block? then when[s.cpus[step.cpu].current.value := i] else when);
    }
  }

  /** In every run, the threads of a chain stand in the reverse order of their blocking: the last one is woken first. */
  lemma YoungestFirst(init: State, steps: seq<Step>, b: nat)
    requires Init(init) && CanRun(init, steps)
    ensures var q, when := Chain(Run(init, steps).chains, b), LastBlocked(init, steps, 0, map[]);
            && (forall j :: 0 <= j < |q| ==> q[j] in when)
            && (forall j, k :: 0 <= j < k < |q| ==> when[q[k]] < when[q[j]])
  {
    hide Run;
    hide CanRun;
    hide LastBlocked;
    hide Inv;
    InitInv(init);
    RunStaysYoungFirst(init, map[], steps, b, 0, map[]);
  }

  // ---------------------------------------------------------------- the linked chain follows the machine's

  function Takes(c: nat, b: nat, k: nat): seq<Step> {
    if k == 0 then [] else [Take(c, b)] + Takes(c, b, k - 1)
  }

  function Calls(c: nat, q: seq<nat>): multiset<Wake> {
    if q == [] then multiset{} else multiset{Call(c, q[0])} + Calls(c, q[1..])
  }

  /** The machine takes the first k threads off a chain, and a wake-up is due for each of them. */
  lemma {:induction false} TakesRun(s: State, c: nat, b: nat, k: nat)
    requires c < |s.cpus| && k <= |Chain(s.chains, b)|
    requires forall n :: n in Chain(s.chains, b) ==> n in s.threads
    ensures CanRun(s, Takes(c, b, k))
    ensures var s' := Run(s, Takes(c, b, k));
            && Chain(s'.chains, b) == Chain(s.chains, b)[k..]
            && s'.wakes == s.wakes + Calls(c, Chain(s.chains, b)[..k])
    decreases k
  {
    hide Apply;
    if k > 0 {
      var q := Chain(s.chains, b);
      assert Enabled(s, Take(c, b));
      TakeRemovesFirst(s, c, b);
      TakesRun(Apply(s, Take(c, b)), c, b, k - 1);
      assert Takes(c, b, k)[1..] == Takes(c, b, k - 1);
      assert q[..k][0] == q[0] && q[..k][1..] == q[1..][..k - 1] && q[1..][k - 1..] == q[k..];
    }
  }

  /** What every reachable state says about a chain. */
  lemma ChainFacts(s: State, b: nat)
    requires Reachable(s)
    ensures Distinct(Chain(s.chains, b))
    ensures forall n :: n in Chain(s.chains, b) <==> n in s.threads && s.threads[n].blocker == Some(b)
  {
    hide Run;
    hide CanRun;
    hide Init;
    var init, steps :| Init(init) && CanRun(init, steps) && Run(init, steps) == s;
    ChainsAgree(init, steps, b);
  }

  lemma DifferentThreads(chain: seq<Node>)
    requires Distinct(Scheduler.Tids(chain))
    ensures Scheduler.Identified(set x | x in chain)
  {
    forall x, y | x in chain && y in chain && x.tid == y.tid ensures x == y {
      var i :| 0 <= i < |chain| && chain[i] == x;
      var j :| 0 <= j < |chain| && chain[j] == y;
      assert Scheduler.Tids(chain)[i] == Scheduler.Tids(chain)[j];
    }
  }

  /** A blocker beside the machine: its chain is the machine's chain of the same number. */
  class WaitQueue {
    const blocker: ThreadBlocker.Blocker
    const number: nat
    ghost var state: State

    ghost predicate Valid()
      reads this, blocker, blocker.chain
    {
      blocker.Valid() && Reachable(state) && blocker.View() == Chain(state.chains, number)
    }

    constructor (number: nat, ghost state: State)
      requires Reachable(state) && Chain(state.chains, number) == []
      ensures Valid() && fresh(blocker) && this.number == number && this.state == state
    {
      hide Reachable;
      this.blocker := new ThreadBlocker.Blocker();
      this.number := number;
      this.state := state;
    }

    /** A thread that blocks becomes the first of the chain, here and in the machine. */
    method Block(node: Node, ghost c: nat)
      requires Valid() && node.blocked && node.blocker == null
      requires Enabled(state, Step.Block(c, Some(number))) && state.cpus[c].current == Some(node.tid)
      modifies this`state, blocker, node`chainPrev, node`chainNext, node`blocker, blocker.chain`chainPrev
      ensures Valid() && state == Apply(old(state), Step.Block(c, Some(number)))
      ensures node.blocker == blocker && blocker.chain == [node] + old(blocker.chain)
    {
      hide Reachable;
      hide Apply;
      hide ThreadBlocker.Blocker.Linked;
      ReachesOn(state, Step.Block(c, Some(number)));
      BlockGoesFirst(state, c, number);
      blocker.AddThreadToBlockQueue(node);
      state := Apply(state, Step.Block(c, Some(number)));
    }

    /** The machine takes one thread after the other off its chain, and has the wake-ups of exactly the threads woken. */
    method Unblock(count: nat, ghost c: nat) returns (woken: seq<Node>)
      requires Valid() && c < |state.cpus|
      modifies this`state, blocker, blocker.chain`chainPrev, blocker.chain`chainNext, blocker.chain`blocker
      ensures Valid() && |woken| == (if count < |old(blocker.chain)| then count else |old(blocker.chain)|)
      ensures woken == old(blocker.chain)[..|woken|] && blocker.chain == old(blocker.chain)[|woken|..]
      ensures CanRun(old(state), Takes(c, number, |woken|)) && state == Run(old(state), Takes(c, number, |woken|))
      ensures state.wakes == old(state.wakes) + Calls(c, Scheduler.Tids(woken))
    {
      hide Reachable;
      hide Run;
      hide CanRun;
      hide ThreadBlocker.Blocker.Linked;
      ghost var k := if count < |blocker.chain| then count else |blocker.chain|;
      ghost var was := blocker.View();
      ChainFacts(state, number);
      TakesRun(state, c, number, k);
      LeadsHere(state);
      LeadsFar(state, state, Takes(c, number, k));
      ReachesThrough(state, Run(state, Takes(c, number, k)));
      woken := blocker.Unblock(count);
      assert Scheduler.Tids(woken) == was[..k];
      state := Run(state, Takes(c, number, k));
    }

    /** Taking a thread off the chain is the machine's Unhook, also when an unblock came first. */
    method Remove(node: Node, ghost k: nat, ghost c: nat)
      requires Valid() && Enabled(state, Unhook(c))
      requires state.cpus[c].busy.blocker == Some(number) && state.cpus[c].busy.thread == node.tid
      requires node.blocker == blocker ==> k < |blocker.chain| && blocker.chain[k] == node
      requires forall x :: x in blocker.chain && x.tid == node.tid ==> x == node
      modifies this`state, blocker, node`chainPrev, node`chainNext, node`blocker
      modifies blocker.chain`chainPrev, blocker.chain`chainNext
      ensures Valid() && state == Apply(old(state), Unhook(c)) && node.blocker != blocker
    {
      hide Reachable;
      hide Apply;
      ChainFacts(state, number);
      DifferentThreads(blocker.chain);
      UnhookRemoves(state, c, number);
      ReachesOn(state, Unhook(c));
      Named(node);
      if node in blocker.chain {
        Chained(node);
      }
      blocker.RemoveThreadFromBlockQueue(node, k);
      state := Apply(state, Unhook(c));
    }

    /** The chain has a node with this thread's number. */
    lemma Named(node: Node)
      requires Valid() && forall x :: x in blocker.chain && x.tid == node.tid ==> x == node
      ensures node.tid in Chain(state.chains, number) <==> node in blocker.chain
    {
      hide Reachable;
      hide ThreadBlocker.Blocker.Linked;
      if node in blocker.chain {
        var i :| 0 <= i < |blocker.chain| && blocker.chain[i] == node;
        assert blocker.View()[i] == node.tid;
      }
      if node.tid in blocker.View() {
        var i :| 0 <= i < |blocker.chain| && blocker.View()[i] == node.tid;
        assert blocker.chain[i] in blocker.chain;
      }
    }

    lemma Chained(node: Node)
      requires Valid() && node in blocker.chain
      ensures node.blocker == blocker
    {
      hide Reachable;
      var i :| 0 <= i < |blocker.chain| && blocker.chain[i] == node;
      assert ThreadBlocker.Waits(blocker.chain, i, blocker, true);
    }

    /** Every other step of the machine leaves the chain alone. */
    ghost method Elsewhere(step: Step)
      requires Valid() && Enabled(state, step) && !Touches(state, step, number)
      modifies this`state
      ensures Valid() && state == Apply(old(state), step)
    {
      hide Reachable;
      hide Apply;
      hide ThreadBlocker.Blocker.Linked;
      OtherStepKeeps(state, step, number);
      ReachesOn(state, step);
      state := Apply(state, step);
    }
  }
}

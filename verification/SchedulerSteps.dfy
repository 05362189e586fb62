/**
  Threads, processors and blockers as a state machine (kernel/kernel/Scheduler.cpp and
  kernel/kernel/ThreadBlocker.cpp).  A step is what one processor does between two points where
  others can act: everything under a blocker's lock, everything on a processor's own lists, one
  read of a thread's processor followed by the message sent to it.  Messages that a sender holds
  or that are pending form one pool; SmpMessages says why none of them is lost.
 */
module SchedulerSteps {
  import opened Options

  /** What a processor is in the middle of, with its messages disabled. */
  datatype Busy =
    | Free
    | Blocking                                                                 // current is blocked and about to yield
    | Unhooking(thread: nat, blocker: Option<nat>, target: Option<nat>)        // off the block list, blocker read
    | Ready(thread: nat, target: Option<nat>)                                  // off the chain

  datatype Cpu = Cpu(current: Option<nat>, runList: seq<nat>, blockList: set<nat>, count: int, busy: Busy)

  datatype Thread = Thread(owner: nat, blocked: bool, blocker: Option<nat>)

  /** A NewThread message. */
  datatype Arrival = Arrival(cpu: nat, thread: nat)

  /** A call of unblock_thread that a processor is about to make, or an UnblockThread message on its way. */
  datatype Wake = Call(cpu: nat, thread: nat) | Message(cpu: nat, thread: nat)

  /**
    A thread's number stands for the Thread object: it is never given to another one.  gone records the deleted
    threads, and taken which threads an unblock took off a chain and nobody has released since; what a step does
    depends on neither.
   */
  datatype State = State(
    cpus: seq<Cpu>,
    threads: map<nat, Thread>,
    chains: map<nat, seq<nat>>,
    arrivals: multiset<Arrival>,
    wakes: multiset<Wake>,
    taken: set<nat>,
    gone: set<nat>)

  datatype Step =
    | Add(cpu: nat, thread: nat, target: nat)        // add_thread of a new thread, bound to a processor
    | Arrive(cpu: nat, thread: nat)                  // a NewThread message is handled
    | Deliver(cpu: nat, thread: nat)                 // an UnblockThread message is handled
    | Take(cpu: nat, blocker: nat)                   // ThreadBlocker::unblock takes the first thread off its chain
    | Poke(cpu: nat, thread: nat)                    // unblock_thread for another reason: a timeout, a signal
    | Unblock(cpu: nat, thread: nat)                 // unblock_thread looks at the thread
    | Unhook(cpu: nat)                               // remove_thread_from_block_queue
    | Release(cpu: nat)                              // the thread becomes runnable, here or on another processor
    | Block(cpu: nat, on: Option<nat>)               // block_current_thread up to its yield
    | Yield(cpu: nat)                                // reschedule
    | Exit(cpu: nat)                                 // reschedule of a terminated thread
    | Migrate(cpu: nat, thread: nat, target: nat)    // load balancing gives a thread away

  // ---------------------------------------------------------------- parts of a state

  function Chain(chains: map<nat, seq<nat>>, b: nat): seq<nat> {
    if b in chains then chains[b] else []
  }

  function Without(q: seq<nat>, n: nat): seq<nat> {
    if q == [] then [] else if q[0] == n then q[1..] else [q[0]] + Without(q[1..], n)
  }

  function WithCpu(s: State, c: nat, cpu: Cpu): State
    requires c < |s.cpus|
  {
    s.(cpus := s.cpus[c := cpu])
  }

  function WithThread(s: State, n: nat, t: Thread): State {
    s.(threads := s.threads[n := t])
  }

  predicate IsFree(s: State, c: nat) {
    c < |s.cpus| && s.cpus[c].busy == Free
  }

  /** On no run list and no block list, which makes its shared links null (Processors.UnlistedThreadIsUnlinked). */
  ghost predicate Unlisted(s: State, n: nat) {
    forall c :: 0 <= c < |s.cpus| ==> n !in s.cpus[c].runList && n !in s.cpus[c].blockList
  }

  // ---------------------------------------------------------------- steps

  /** When a processor takes a step. */
  predicate Enabled(s: State, step: Step) {
    match step
    case Add(c, n, p) => IsFree(s, c) && n !in s.threads && n !in s.gone && p < |s.cpus|
    case Arrive(c, n) => IsFree(s, c) && Arrival(c, n) in s.arrivals && n in s.threads
    case Deliver(c, n) => IsFree(s, c) && Message(c, n) in s.wakes
    case Take(c, b) => c < |s.cpus| && Chain(s.chains, b) != [] && Chain(s.chains, b)[0] in s.threads
    case Poke(c, n) => c < |s.cpus| && n in s.threads
    case Unblock(c, n) => IsFree(s, c) && Call(c, n) in s.wakes
    case Unhook(c) => c < |s.cpus| && s.cpus[c].busy.Unhooking? && s.cpus[c].busy.thread in s.threads
    case Release(c) => c < |s.cpus| && s.cpus[c].busy.Ready? && s.cpus[c].busy.thread in s.threads
    case Block(c, b) => IsFree(s, c) && s.cpus[c].current.Some? && s.cpus[c].current.value in s.threads
    case Yield(c) =>
      && c < |s.cpus|
      && (s.cpus[c].busy == Free || s.cpus[c].busy == Blocking)
      && (s.cpus[c].current.Some? ==> s.cpus[c].current.value in s.threads)
    case Exit(c) => IsFree(s, c) && s.cpus[c].current.Some? && s.cpus[c].current.value in s.threads
    case Migrate(c, n, p) =>
      && IsFree(s, c) && p < |s.cpus| && p != c && n in s.threads
      && (n in s.cpus[c].runList || n in s.cpus[c].blockList)
  }

  /** What the source asserts at a step, what its list operations demand, and that a thread it is told about still exists. */
  ghost predicate Asserts(s: State, step: Step)
    requires Enabled(s, step)
  {
    match step
    case Add(c, n, p) => Unlisted(s, n)
    case Arrive(c, n) => s.threads[n].owner == c ==> !s.threads[n].blocked && Unlisted(s, n)
    case Deliver(c, n) => n in s.threads
    case Take(c, b) => var n := Chain(s.chains, b)[0]; s.threads[n].blocked && s.threads[n].blocker == Some(b)
    case Poke(c, n) => true
    case Unblock(c, n) =>
      && n in s.threads
      && (s.threads[n].owner == c && s.threads[n].blocked ==> n in s.cpus[c].blockList)
    case Unhook(c) =>
      var busy := s.cpus[c].busy;
      busy.blocker.Some? && s.threads[busy.thread].blocker == busy.blocker ==>
        s.threads[busy.thread].blocked && busy.thread in Chain(s.chains, busy.blocker.value)
    case Release(c) => Unlisted(s, s.cpus[c].busy.thread)
    case Block(c, b) =>
      var t := s.threads[s.cpus[c].current.value];
      t.owner == c && !t.blocked && t.blocker == None
    case Yield(c) =>
      var cpu := s.cpus[c];
      && (cpu.current.Some? ==> Unlisted(s, cpu.current.value))
      && (forall n :: n in cpu.runList ==> n in s.threads && !s.threads[n].blocked)
    case Exit(c) => Unlisted(s, s.cpus[c].current.value) && 0 < s.cpus[c].count
    case Migrate(c, n, p) =>
      && s.threads[n].owner == c && 0 < s.cpus[c].count
      && (if s.threads[n].blocked then n in s.cpus[c].blockList else n in s.cpus[c].runList)
  }

  /** The first half of reschedule: the current thread goes onto the run or block list. */
  function WithoutCurrent(cpu: Cpu, blocked: bool): Cpu {
    if cpu.current == None then cpu
    else if blocked then cpu.(current := None, blockList := cpu.blockList + {cpu.current.value}, busy := Free)
    else cpu.(current := None, runList := cpu.runList + [cpu.current.value], busy := Free)
  }

  /** The second half: the first thread of the run list runs, if there is one. */
  function WithNext(cpu: Cpu): Cpu {
    if cpu.runList == [] then cpu else cpu.(current := Some(cpu.runList[0]), runList := cpu.runList[1..])
  }

  /** What an unblock of a blocked thread does to its processor. */
  function Awoken(cpu: Cpu, n: nat): Cpu {
    cpu.(blockList := cpu.blockList - {n}, runList := cpu.runList + [n])
  }

  /** The same for several threads, one after the other. */
  function AllAwoken(cpu: Cpu, q: seq<nat>): Cpu {
    if q == [] then cpu else Awoken(AllAwoken(cpu, q[..|q| - 1]), q[|q| - 1])
  }

  /** Each of them is asleep when its turn comes. */
  predicate Wakeable(cpu: Cpu, q: seq<nat>) {
    q == [] || (Wakeable(cpu, q[..|q| - 1]) && q[|q| - 1] in AllAwoken(cpu, q[..|q| - 1]).blockList)
  }

  /** What a migration does to the processor that gives the thread away. */
  function Departed(cpu: Cpu, n: nat, blocked: bool): Cpu {
    if blocked then cpu.(blockList := cpu.blockList - {n}, count := cpu.count - 1)
    else cpu.(runList := Without(cpu.runList, n), count := cpu.count - 1)
  }

  function PutBack(s: State, c: nat): State
    requires c < |s.cpus| && (s.cpus[c].current.Some? ==> s.cpus[c].current.value in s.threads)
  {
    if s.cpus[c].current == None then s
    else WithCpu(s, c, WithoutCurrent(s.cpus[c], s.threads[s.cpus[c].current.value].blocked))
  }

  function PickNext(s: State, c: nat): State
    requires c < |s.cpus|
  {
    if s.cpus[c].runList == [] then s else WithCpu(s, c, WithNext(s.cpus[c]))
  }

  /** An unblock_thread of a deleted thread has no defined outcome; the call is dropped. */
  function Apply(s: State, step: Step): State
    requires Enabled(s, step)
  {
    match step
    case Add(c, n, p) =>
      var s1 := WithThread(s, n, Thread(p, false, None));
      if p == c then WithCpu(s1, c, s.cpus[c].(runList := s.cpus[c].runList + [n], count := s.cpus[c].count + 1))
      else s1.(arrivals := s.arrivals + multiset{Arrival(p, n)})
    case Arrive(c, n) =>
      var s1 := s.(arrivals := s.arrivals - multiset{Arrival(c, n)});
      var p := s.threads[n].owner;
      if p != c then s1.(arrivals := s1.arrivals + multiset{Arrival(p, n)})
      else WithCpu(s1, c, s.cpus[c].(runList := s.cpus[c].runList + [n], count := s.cpus[c].count + 1))
    case Deliver(c, n) =>
      s.(wakes := s.wakes - multiset{Message(c, n)} + multiset{Call(c, n)})
    case Take(c, b) =>
      var n := Chain(s.chains, b)[0];
      WithThread(s, n, s.threads[n].(blocker := None)).(
        chains := s.chains[b := Chain(s.chains, b)[1..]],
        wakes := s.wakes + multiset{Call(c, n)},
        taken := s.taken + {n})
    case Poke(c, n) =>
      s.(wakes := s.wakes + multiset{Call(c, n)})
    case Unblock(c, n) =>
      var s1 := s.(wakes := s.wakes - multiset{Call(c, n)});
      if n !in s.threads then s1
      else
        var t := s.threads[n];
        if t.owner != c then s1.(wakes := s1.wakes + multiset{Message(t.owner, n)})
        else if !t.blocked then s1
        else WithCpu(s1, c, s.cpus[c].(blockList := s.cpus[c].blockList - {n}, busy := Unhooking(n, t.blocker, None)))
    case Unhook(c) =>
      var busy := s.cpus[c].busy;
      var t := s.threads[busy.thread];
      var s1 := WithCpu(s, c, s.cpus[c].(busy := Ready(busy.thread, busy.target)));
      if busy.blocker.Some? && t.blocker == busy.blocker then
        WithThread(s1, busy.thread, t.(blocker := None)).(
          chains := s.chains[busy.blocker.value := Without(Chain(s.chains, busy.blocker.value), busy.thread)])
      else s1
    case Release(c) =>
      var n, cpu := s.cpus[c].busy.thread, s.cpus[c];
      var t := s.threads[n].(blocked := false);
      if cpu.busy.target == None then
        WithThread(WithCpu(s, c, cpu.(runList := cpu.runList + [n], busy := Free)), n, t).(taken := s.taken - {n})
      else
        var p := cpu.busy.target.value;
        WithThread(WithCpu(s, c, cpu.(count := cpu.count - 1, busy := Free)), n, t.(owner := p)).(
          arrivals := s.arrivals + multiset{Arrival(p, n)}, taken := s.taken - {n})
    case Block(c, b) =>
      var n := s.cpus[c].current.value;
      var s1 := WithThread(WithCpu(s, c, s.cpus[c].(busy := Blocking)), n, s.threads[n].(blocked := true, blocker := b));
      if b == None then s1 else s1.(chains := s.chains[b.value := [n] + Chain(s.chains, b.value)])
    case Yield(c) => PickNext(PutBack(s, c), c)
    case Exit(c) =>
      var n := s.cpus[c].current.value;
      PickNext(WithCpu(s, c, s.cpus[c].(current := None, count := s.cpus[c].count - 1)).(
                 threads := s.threads - {n}, gone := s.gone + {n}), c)
    case Migrate(c, n, p) =>
      var cpu, t := s.cpus[c], s.threads[n];
      if t.blocked then WithCpu(s, c, cpu.(blockList := cpu.blockList - {n}, busy := Unhooking(n, t.blocker, Some(p))))
      else
        WithThread(WithCpu(s, c, cpu.(runList := Without(cpu.runList, n), count := cpu.count - 1)), n, t.(owner := p)).(
          arrivals := s.arrivals + multiset{Arrival(p, n)})
  }

  // ---------------------------------------------------------------- runs

  /** Processors with nothing to do, and no thread yet. */
  ghost predicate Init(s: State) {
    && (forall c :: 0 <= c < |s.cpus| ==> s.cpus[c] == Cpu(None, [], {}, 0, Free))
    && s.threads == map[] && s.chains == map[] && s.arrivals == multiset{} && s.wakes == multiset{}
    && s.taken == {} && s.gone == {}
  }

  ghost predicate CanRun(s: State, steps: seq<Step>)
    decreases |steps|
  {
    steps != [] ==> Enabled(s, steps[0]) && CanRun(Apply(s, steps[0]), steps[1..])
  }

  ghost function Run(s: State, steps: seq<Step>): State
    requires CanRun(s, steps)
    decreases |steps|
  {
    if steps == [] then s else Run(Apply(s, steps[0]), steps[1..])
  }
}

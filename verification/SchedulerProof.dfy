/**
  What every step of the scheduler machine keeps: each thread in exactly one place, exact thread
  counts, chains that agree with the blocker fields, and no lost wake-up.
 */
module SchedulerProof {
  import opened Options
  import opened SchedulerSteps
  import opened Sequences

  // ---------------------------------------------------------------- places

  datatype Place = Running | Queued | Asleep | InHand

  /** Where a thread is: somewhere on a processor, or on its way to one. */
  datatype Location = On(cpu: nat, place: Place) | Travelling(cpu: nat)

  /** The thread is at that place of the processor. */
  predicate At(cpu: Cpu, place: Place, n: nat) {
    match place
    case Running => cpu.current == Some(n)
    case Queued => n in cpu.runList
    case Asleep => n in cpu.blockList
    case InHand => (cpu.busy.Unhooking? || cpu.busy.Ready?) && cpu.busy.thread == n
  }

  /** The places of processor c hold exactly the threads located there. */
  ghost predicate Placed(cpu: Cpu, c: nat, loc: map<nat, Location>) {
    && (forall place, n :: At(cpu, place, n) <==> n in loc && loc[n] == On(c, place))
    && Distinct(cpu.runList)
  }

  ghost predicate Placement(cpus: seq<Cpu>, loc: map<nat, Location>) {
    && (forall c :: 0 <= c < |cpus| ==> Placed(cpus[c], c, loc))
    && (forall n :: n in loc ==> loc[n].cpu < |cpus|)
  }

  /** Thread n is put at a place of the processor, or leaves it, and no other thread moves. */
  ghost predicate Moves(cpu: Cpu, cpu': Cpu, n: nat, to: Option<Place>) {
    && (forall place, m :: At(cpu', place, m) <==> if m == n then to == Some(place) else At(cpu, place, m))
    && Distinct(cpu'.runList)
  }

  lemma MovesPlacement(cpus: seq<Cpu>, loc: map<nat, Location>, loc': map<nat, Location>, c: nat, cpu': Cpu, n: nat, to: Option<Place>)
    requires Placement(cpus, loc) && c < |cpus| && Moves(cpus[c], cpu', n, to)
    requires n in loc ==> loc[n].cpu == c || loc[n].Travelling?
    requires match to
      case None => n in loc' ==> loc'[n].Travelling? && loc'[n].cpu < |cpus|
      case Some(place) => n in loc' && loc'[n] == On(c, place)
    requires forall m :: m != n ==> (m in loc' <==> m in loc) && (m in loc ==> loc'[m] == loc[m])
    ensures Placement(cpus[c := cpu'], loc')
  {
    var cpus' := cpus[c := cpu'];
    forall d | 0 <= d < |cpus'| ensures Placed(cpus'[d], d, loc') {
      assert Placed(cpus[d], d, loc);
    }
  }

  // ---------------------------------------------------------------- moves on one processor

  lemma MovesToQueue(cpu: Cpu, cpu': Cpu, n: nat)
    requires Distinct(cpu.runList) && n !in cpu.runList && cpu'.runList == cpu.runList + [n]
    requires cpu'.current == (if cpu.current == Some(n) then None else cpu.current) && cpu'.blockList == cpu.blockList - {n}
    requires if At(cpu, InHand, n) then cpu'.busy == Free else forall m :: At(cpu', InHand, m) <==> At(cpu, InHand, m)
    ensures Moves(cpu, cpu', n, Some(Queued))
  {
    forall m ensures At(cpu', Queued, m) <==> m == n || At(cpu, Queued, m) {
      assert m in cpu'.runList <==> m in cpu.runList || m == n;
    }
  }

  lemma WithoutMembers(q: seq<nat>, n: nat)
    requires Distinct(q) && n in q
    ensures Distinct(Without(q, n)) && |Without(q, n)| == |q| - 1
    ensures forall m :: m in Without(q, n) <==> m in q && m != n
  {
    if q[0] == n {
      forall m ensures m in q[1..] <==> m in q && m != n {
        if m in q && m != n {
          var i :| 0 <= i < |q| && q[i] == m;
          assert q[1..][i - 1] == m;
        }
      }
    } else {
      assert n in q[1..];
      WithoutMembers(q[1..], n);
      var r := Without(q[1..], n);
      assert forall m :: m in q <==> m == q[0] || m in q[1..];
      assert q[0] !in q[1..];
      assert forall i :: 0 <= i < |r| ==> r[i] in r;
    }
  }

  // ---------------------------------------------------------------- the invariant

  /** Whether a thread at a location is blocked. */
  predicate Sleeps(cpus: seq<Cpu>, l: Location)
    requires l.cpu < |cpus|
  {
    match l
    case On(c, place) => place == Asleep || place == InHand || (place == Running && cpus[c].busy == Blocking)
    case Travelling(_) => false
  }

  ghost predicate ThreadOk(t: Thread, n: nat, l: Location, cpus: seq<Cpu>, chains: map<nat, seq<nat>>) {
    && l.cpu < |cpus| && t.owner == l.cpu && t.blocked == Sleeps(cpus, l)
    && (t.blocker.Some? ==> t.blocked && n in Chain(chains, t.blocker.value))
  }

  ghost predicate Threads(threads: map<nat, Thread>, loc: map<nat, Location>, cpus: seq<Cpu>, chains: map<nat, seq<nat>>) {
    loc.Keys == threads.Keys && forall n :: n in threads ==> ThreadOk(threads[n], n, loc[n], cpus, chains)
  }

  function Members(cpu: Cpu): nat {
    (if cpu.current.Some? then 1 else 0) + |cpu.runList| + |cpu.blockList|
    + (if cpu.busy.Unhooking? || cpu.busy.Ready? then 1 else 0)
  }

  predicate BusyOk(busy: Busy, current: Option<nat>, threads: map<nat, Thread>, size: nat) {
    match busy
    case Free => true
    case Blocking => current.Some?
    case Unhooking(n, b, p) => (p.Some? ==> p.value < size) && n in threads && (threads[n].blocker == None || threads[n].blocker == b)
    case Ready(n, p) => (p.Some? ==> p.value < size) && n in threads && threads[n].blocker == None
  }

  ghost predicate Cpus(cpus: seq<Cpu>, threads: map<nat, Thread>) {
    forall c :: 0 <= c < |cpus| ==>
      cpus[c].count == Members(cpus[c]) && BusyOk(cpus[c].busy, cpus[c].current, threads, |cpus|)
  }

  ghost predicate ChainOk(q: seq<nat>, b: nat, threads: map<nat, Thread>) {
    Distinct(q) && forall n :: n in q ==> n in threads && threads[n].blocker == Some(b)
  }

  ghost predicate Chains(chains: map<nat, seq<nat>>, threads: map<nat, Thread>) {
    forall b :: b in chains ==> ChainOk(chains[b], b, threads)
  }

  /** Exactly the threads on their way have a NewThread message, one each. */
  ghost predicate Mailed(arrivals: multiset<Arrival>, loc: map<nat, Location>) {
    forall a :: arrivals[a] == if a.thread in loc && loc[a.thread] == Travelling(a.cpu) then 1 else 0
  }

  /** Calls and messages are for threads that exist or have existed. */
  ghost predicate Wakes(wakes: multiset<Wake>, threads: map<nat, Thread>, gone: set<nat>, size: nat) {
    forall w :: w in wakes ==> (w.thread in threads || w.thread in gone) && w.cpu < size
  }

  /** Somebody is about to unblock the thread, or has sent a message to do it, or its processor is doing it. */
  ghost predicate Owed(n: nat, wakes: multiset<Wake>, loc: map<nat, Location>) {
    || (exists w :: w in wakes && w.thread == n)
    || (n in loc && loc[n].On? && loc[n].place == InHand)
  }

  ghost predicate Taken(taken: set<nat>, threads: map<nat, Thread>, wakes: multiset<Wake>, loc: map<nat, Location>) {
    forall n :: n in taken ==> n in threads && threads[n].blocked && threads[n].blocker == None && Owed(n, wakes, loc)
  }

  function Total(cpus: seq<Cpu>): int {
    if cpus == [] then 0 else Total(cpus[..|cpus| - 1]) + cpus[|cpus| - 1].count
  }

  ghost predicate Inv(s: State, loc: map<nat, Location>) {
    && Placement(s.cpus, loc)
    && Threads(s.threads, loc, s.cpus, s.chains)
    && Cpus(s.cpus, s.threads)
    && Chains(s.chains, s.threads)
    && Mailed(s.arrivals, loc)
    && Wakes(s.wakes, s.threads, s.gone, |s.cpus|)
    && Taken(s.taken, s.threads, s.wakes, loc)
    && Total(s.cpus) + |s.arrivals| == |s.threads|
  }

  // ---------------------------------------------------------------- preserving the parts

  lemma {:induction false} TotalAfter(cpus: seq<Cpu>, c: nat, cpu: Cpu)
    requires c < |cpus|
    ensures Total(cpus[c := cpu]) == Total(cpus) - cpus[c].count + cpu.count
  {
    var n := |cpus| - 1;
    if c == n {
      assert cpus[c := cpu][..n] == cpus[..n];
    } else {
      assert cpus[c := cpu][..n] == cpus[..n][c := cpu];
      TotalAfter(cpus[..n], c, cpu);
    }
  }

  /** Nothing changes for a thread that is not the one at hand, nor the current one of a processor that blocks or yields. */
  lemma ThreadsAfter(threads: map<nat, Thread>, loc: map<nat, Location>, cpus: seq<Cpu>, chains: map<nat, seq<nat>>,
                     c: nat, cpu: Cpu, n: nat, t: Thread, l: Location)
    requires Threads(threads, loc, cpus, chains) && c < |cpus|
    requires (cpu.busy == Blocking <==> cpus[c].busy == Blocking) || forall m :: m in loc && m != n ==> loc[m] != On(c, Running)
    requires ThreadOk(t, n, l, cpus[c := cpu], chains)
    ensures Threads(threads[n := t], loc[n := l], cpus[c := cpu], chains)
  {
    var cpus', threads', loc' := cpus[c := cpu], threads[n := t], loc[n := l];
    forall m | m in threads' ensures ThreadOk(threads'[m], m, loc'[m], cpus', chains) {
      if m != n {
        assert ThreadOk(threads[m], m, loc[m], cpus, chains);
      }
    }
  }

  lemma CpusAfter(cpus: seq<Cpu>, threads: map<nat, Thread>, c: nat, cpu: Cpu)
    requires Cpus(cpus, threads) && c < |cpus|
    requires cpu.count == Members(cpu) && BusyOk(cpu.busy, cpu.current, threads, |cpus|)
    ensures Cpus(cpus[c := cpu], threads)
  {
  }

  /** A thread may change as long as its blocker field does not. */
  lemma CpusThread(cpus: seq<Cpu>, threads: map<nat, Thread>, n: nat, t: Thread)
    requires Cpus(cpus, threads) && (n in threads ==> t.blocker == threads[n].blocker || t.blocker == None)
    ensures Cpus(cpus, threads[n := t])
  {
  }

  lemma ChainsThread(chains: map<nat, seq<nat>>, threads: map<nat, Thread>, n: nat, t: Thread)
    requires Chains(chains, threads) && (n in threads ==> t.blocker == threads[n].blocker)
    ensures Chains(chains, threads[n := t])
  {
    forall b | b in chains ensures ChainOk(chains[b], b, threads[n := t]) {
      assert ChainOk(chains[b], b, threads);
    }
  }

  lemma MailedMove(arrivals: multiset<Arrival>, loc: map<nat, Location>, n: nat, l: Location)
    requires Mailed(arrivals, loc) && l.On? && (n in loc ==> loc[n].On?)
    ensures Mailed(arrivals, loc[n := l])
  {
  }

  lemma MailedSend(arrivals: multiset<Arrival>, loc: map<nat, Location>, n: nat, p: nat)
    requires Mailed(arrivals, loc) && (n in loc ==> loc[n].On?)
    ensures Mailed(arrivals + multiset{Arrival(p, n)}, loc[n := Travelling(p)])
  {
  }

  lemma MailedReceive(arrivals: multiset<Arrival>, loc: map<nat, Location>, c: nat, n: nat, l: Location)
    requires Mailed(arrivals, loc) && Arrival(c, n) in arrivals && l.On?
    ensures Mailed(arrivals - multiset{Arrival(c, n)}, loc[n := l])
  {
  }

  /** Moving a thread, or adding wakes, leaves every debt in place. */
  lemma TakenAfter(taken: set<nat>, threads: map<nat, Thread>, wakes: multiset<Wake>, loc: map<nat, Location>,
                   n: nat, t: Thread, wakes': multiset<Wake>, l: Location)
    requires Taken(taken, threads, wakes, loc)
    requires n in taken ==> t.blocked && t.blocker == None && Owed(n, wakes', loc[n := l])
    requires forall w :: w in wakes && w.thread != n ==> w in wakes'
    ensures Taken(taken, threads[n := t], wakes', loc[n := l])
  {
    forall m | m in taken && m != n ensures Owed(m, wakes', loc[n := l]) {
      assert Owed(m, wakes, loc);
    }
  }

  // ---------------------------------------------------------------- messages and calls

  /** Calls and messages for a thread may come and go, as long as one is left for a thread that is owed one. */
  lemma WakesChanged(s: State, loc: map<nat, Location>, n: nat, wakes: multiset<Wake>, last: Wake)
    requires Inv(s, loc) && (n in s.threads || n in s.gone)
    requires forall w :: w in wakes ==> w in s.wakes || (w.thread == n && w.cpu < |s.cpus|)
    requires forall w :: w in s.wakes && w.thread != n ==> w in wakes
    requires n in s.taken ==> last in wakes && last.thread == n
    ensures Inv(s.(wakes := wakes), loc)
  {
    hide Placement;
    hide Threads;
    hide Cpus;
    hide Chains;
    hide Mailed;
    forall m | m in s.taken ensures Owed(m, wakes, loc) {
      assert Owed(m, s.wakes, loc);
    }
  }

  lemma SameThreads(s: State, loc: map<nat, Location>)
    requires Inv(s, loc)
    ensures loc.Keys == s.threads.Keys
  {
  }

  lemma DeliverKeeps(s: State, loc: map<nat, Location>, c: nat, n: nat)
    requires Inv(s, loc) && Enabled(s, Deliver(c, n))
    ensures (Asserts(s, Deliver(c, n)) <==> n in s.threads) && Inv(Apply(s, Deliver(c, n)), loc)
  {
    hide Inv;
    KnownWake(s, loc, Message(c, n));
    WakesChanged(s, loc, n, s.wakes - multiset{Message(c, n)} + multiset{Call(c, n)}, Call(c, n));
  }

  lemma KnownWake(s: State, loc: map<nat, Location>, w: Wake)
    requires Inv(s, loc) && w in s.wakes
    ensures (w.thread in s.threads || w.thread in s.gone) && w.cpu < |s.cpus|
  {
  }

  lemma PokeKeeps(s: State, loc: map<nat, Location>, c: nat, n: nat)
    requires Inv(s, loc) && Enabled(s, Poke(c, n))
    ensures Asserts(s, Poke(c, n)) && Inv(Apply(s, Poke(c, n)), loc)
  {
    hide Inv;
    WakesChanged(s, loc, n, s.wakes + multiset{Call(c, n)}, Call(c, n));
  }

  // ---------------------------------------------------------------- taking a thread off a chain

  /** Taking a thread off its chain, from the front or from the middle. */
  lemma OffChain(s: State, loc: map<nat, Location>, b: nat, n: nat, q: seq<nat>)
    requires Threads(s.threads, loc, s.cpus, s.chains) && Chains(s.chains, s.threads) && Cpus(s.cpus, s.threads)
    requires n in s.threads && s.threads[n].blocker == Some(b) && b in s.chains
    requires Distinct(q) && forall m :: m in q <==> m in s.chains[b] && m != n
    ensures var t := s.threads[n].(blocker := None);
            && Threads(s.threads[n := t], loc, s.cpus, s.chains[b := q])
            && Chains(s.chains[b := q], s.threads[n := t])
            && Cpus(s.cpus, s.threads[n := t])
  {
    var t := s.threads[n].(blocker := None);
    var threads', chains' := s.threads[n := t], s.chains[b := q];
    CpusThread(s.cpus, s.threads, n, t);
    forall m | m in threads' ensures ThreadOk(threads'[m], m, loc[m], s.cpus, chains') {
      assert ThreadOk(s.threads[m], m, loc[m], s.cpus, s.chains);
    }
    forall d | d in chains' ensures ChainOk(chains'[d], d, threads') {
      assert ChainOk(s.chains[d], d, s.threads);
    }
  }

  lemma TakeKeeps(s: State, loc: map<nat, Location>, c: nat, b: nat)
    requires Inv(s, loc) && Enabled(s, Take(c, b))
    ensures Asserts(s, Take(c, b)) && Inv(Apply(s, Take(c, b)), loc)
  {
    hide Placement;
    hide Threads;
    hide Cpus;
    hide Mailed;
    var q, n := s.chains[b], s.chains[b][0];
    assert ChainOk(q, b, s.threads);
    ChainedIsBlocked(s, loc, n);
    forall m ensures m in q[1..] <==> m in q && m != n {
      if m in q && m != n {
        var i :| 0 <= i < |q| && q[i] == m;
        assert q[1..][i - 1] == m;
      }
    }
    OffChain(s, loc, b, n, q[1..]);
    var s' := Apply(s, Take(c, b));
    assert Call(c, n) in s'.wakes;
    var t := s.threads[n].(blocker := None);
    TakenAfter(s.taken, s.threads, s.wakes, loc, n, t, s'.wakes, loc[n]);
    assert loc[n := loc[n]] == loc;
  }

  lemma ChainedIsBlocked(s: State, loc: map<nat, Location>, n: nat)
    requires Threads(s.threads, loc, s.cpus, s.chains) && n in s.threads
    ensures n in loc && loc[n].cpu < |s.cpus| && s.threads[n].owner == loc[n].cpu && s.threads[n].blocked == Sleeps(s.cpus, loc[n])
    ensures s.threads[n].blocker.Some? ==> s.threads[n].blocked && n in Chain(s.chains, s.threads[n].blocker.value)
  {
    assert ThreadOk(s.threads[n], n, loc[n], s.cpus, s.chains);
  }

  // ---------------------------------------------------------------- unblocking

  /** What is known about a thread from its location. */
  lemma Whereabouts(s: State, loc: map<nat, Location>, n: nat)
    requires Inv(s, loc) && n in s.threads
    ensures n in loc && loc[n].cpu < |s.cpus| && s.threads[n].owner == loc[n].cpu && s.threads[n].blocked == Sleeps(s.cpus, loc[n])
    ensures s.threads[n].blocker.Some? ==> s.threads[n].blocked && n in Chain(s.chains, s.threads[n].blocker.value)
    ensures loc[n].On? ==> At(s.cpus[loc[n].cpu], loc[n].place, n)
    ensures loc[n] == Travelling(loc[n].cpu) ==> s.arrivals[Arrival(loc[n].cpu, n)] == 1
  {
    hide Sleeps;
    ChainedIsBlocked(s, loc, n);
    assert Placed(s.cpus[loc[n].cpu], loc[n].cpu, loc);
  }

  /** What is known about the threads of a processor. */
  lemma Residents(s: State, loc: map<nat, Location>, c: nat)
    requires Inv(s, loc) && c < |s.cpus|
    ensures Placed(s.cpus[c], c, loc) && loc.Keys == s.threads.Keys
    ensures s.cpus[c].count == Members(s.cpus[c]) && BusyOk(s.cpus[c].busy, s.cpus[c].current, s.threads, |s.cpus|)
  {
  }

  lemma Listed(s: State, loc: map<nat, Location>, n: nat)
    requires Inv(s, loc) && (n in loc ==> loc[n].Travelling? || loc[n].place == Running || loc[n].place == InHand)
    ensures Unlisted(s, n)
  {
    forall c | 0 <= c < |s.cpus| ensures n !in s.cpus[c].runList && n !in s.cpus[c].blockList {
      assert Placed(s.cpus[c], c, loc);
      assert !At(s.cpus[c], Queued, n) && !At(s.cpus[c], Asleep, n);
    }
  }

  /** A call that another processor has to carry out, or that comes too late. */
  lemma UnblockElsewhere(s: State, loc: map<nat, Location>, c: nat, n: nat)
    requires Inv(s, loc) && Enabled(s, Unblock(c, n)) && n in s.threads && (s.threads[n].owner != c || !s.threads[n].blocked)
    ensures Asserts(s, Unblock(c, n)) && Inv(Apply(s, Unblock(c, n)), loc)
  {
    hide Inv;
    Whereabouts(s, loc, n);
    if n in s.taken {
      TakenIsBlocked(s, loc, n);
    }
    var wakes, p := s.wakes - multiset{Call(c, n)}, s.threads[n].owner;
    if p != c {
      WakesChanged(s, loc, n, wakes + multiset{Message(p, n)}, Message(p, n));
    } else {
      WakesChanged(s, loc, n, wakes, Call(c, n));
    }
  }

  /** A call for a deleted thread. */
  lemma UnblockStray(s: State, loc: map<nat, Location>, c: nat, n: nat)
    requires Inv(s, loc) && Enabled(s, Unblock(c, n)) && n !in s.threads
    ensures Inv(Apply(s, Unblock(c, n)), loc)
  {
    hide Inv;
    KnownWake(s, loc, Call(c, n));
    if n in s.taken {
      TakenIsBlocked(s, loc, n);
    }
    WakesChanged(s, loc, n, s.wakes - multiset{Call(c, n)}, Call(c, n));
  }

  lemma TakenIsBlocked(s: State, loc: map<nat, Location>, n: nat)
    requires Inv(s, loc) && n in s.taken
    ensures n in s.threads && s.threads[n].blocked && s.threads[n].blocker == None
  {
  }

  /** A blocked thread of a processor that is not busy is on its block list. */
  lemma OnBlockList(s: State, loc: map<nat, Location>, c: nat, n: nat)
    requires Inv(s, loc) && IsFree(s, c) && n in s.threads && s.threads[n].owner == c && s.threads[n].blocked
    ensures n in loc && loc[n] == On(c, Asleep) && n in s.cpus[c].blockList
  {
    hide Inv;
    assert !At(s.cpus[c], InHand, n);
    Whereabouts(s, loc, n);
  }

  lemma PickUpMoves(cpu: Cpu, n: nat, busy: Busy, c: nat, loc: map<nat, Location>)
    requires Placed(cpu, c, loc) && n in loc && loc[n] == On(c, Asleep) && cpu.busy == Free && busy.Unhooking? && busy.thread == n
    ensures Moves(cpu, cpu.(blockList := cpu.blockList - {n}, busy := busy), n, Some(InHand))
  {
    var cpu' := cpu.(blockList := cpu.blockList - {n}, busy := busy);
    forall place, m ensures At(cpu', place, m) <==> if m == n then place == InHand else At(cpu, place, m) {
      assert At(cpu, place, m) <==> m in loc && loc[m] == On(c, place);
    }
  }

  /** A thread comes off its processor's block list into the processor's hands. */
  lemma PickedUp(s: State, loc: map<nat, Location>, c: nat, n: nat, target: Option<nat>, wakes: multiset<Wake>)
    requires Inv(s, loc) && IsFree(s, c) && n in s.threads && s.threads[n].owner == c && s.threads[n].blocked
    requires target.Some? ==> target.value < |s.cpus|
    requires wakes == s.wakes || wakes == s.wakes - multiset{Call(c, n)}
    ensures n in s.cpus[c].blockList
    ensures Inv(WithCpu(s.(wakes := wakes), c, s.cpus[c].(blockList := s.cpus[c].blockList - {n},
                                                          busy := Unhooking(n, s.threads[n].blocker, target))),
                loc[n := On(c, InHand)])
  {
    hide Placement;
    hide Placed;
    hide Moves;
    hide Threads;
    hide Cpus;
    hide Chains;
    hide Mailed;
    hide Taken;
    var cpu, l, busy := s.cpus[c], On(c, InHand), Unhooking(n, s.threads[n].blocker, target);
    var cpu' := cpu.(blockList := cpu.blockList - {n}, busy := busy);
    OnBlockList(s, loc, c, n);
    Residents(s, loc, c);
    PickUpMoves(cpu, n, busy, c, loc);
    MovesPlacement(s.cpus, loc, loc[n := l], c, cpu', n, Some(InHand));
    ChainedIsBlocked(s, loc, n);
    ThreadsAfter(s.threads, loc, s.cpus, s.chains, c, cpu', n, s.threads[n], l);
    assert s.threads[n := s.threads[n]] == s.threads;
    CpusAfter(s.cpus, s.threads, c, cpu');
    TotalAfter(s.cpus, c, cpu');
    MailedMove(s.arrivals, loc, n, l);
    TakenMoved(s.taken, s.threads, s.wakes, loc, n, wakes, c);
  }

  /** A debt for a thread is paid once its processor has the thread in its hands. */
  lemma TakenMoved(taken: set<nat>, threads: map<nat, Thread>, wakes: multiset<Wake>, loc: map<nat, Location>,
                   n: nat, wakes': multiset<Wake>, c: nat)
    requires Taken(taken, threads, wakes, loc) && n in threads
    requires wakes' == wakes || wakes' == wakes - multiset{Call(c, n)}
    ensures Taken(taken, threads, wakes', loc[n := On(c, InHand)])
  {
    TakenAfter(taken, threads, wakes, loc, n, threads[n], wakes', On(c, InHand));
    assert threads[n := threads[n]] == threads;
  }

  lemma UnblockKeeps(s: State, loc: map<nat, Location>, c: nat, n: nat)
    requires Inv(s, loc) && Enabled(s, Unblock(c, n)) && n in s.threads && s.threads[n].owner == c && s.threads[n].blocked
    ensures Asserts(s, Unblock(c, n)) && Inv(Apply(s, Unblock(c, n)), loc[n := On(c, InHand)])
  {
    hide Inv;
    PickedUp(s, loc, c, n, None, s.wakes - multiset{Call(c, n)});
  }

  // ---------------------------------------------------------------- finishing an unblock or a migration

  lemma InHandAt(s: State, loc: map<nat, Location>, c: nat)
    requires Inv(s, loc) && c < |s.cpus| && (s.cpus[c].busy.Unhooking? || s.cpus[c].busy.Ready?)
    ensures s.cpus[c].busy.thread in loc && loc[s.cpus[c].busy.thread] == On(c, InHand)
    ensures s.cpus[c].busy.thread in s.threads && s.threads[s.cpus[c].busy.thread].owner == c
    ensures s.threads[s.cpus[c].busy.thread].blocked
  {
    hide Inv;
    var n := s.cpus[c].busy.thread;
    Residents(s, loc, c);
    assert At(s.cpus[c], InHand, n);
    Whereabouts(s, loc, n);
  }

  /** The busy state of a processor changes, with the same thread in its hands. */
  lemma BusyChanged(s: State, loc: map<nat, Location>, c: nat, busy: Busy)
    requires Inv(s, loc) && c < |s.cpus| && s.cpus[c].busy.Unhooking?
    requires busy.Ready? && busy.thread == s.cpus[c].busy.thread && BusyOk(busy, s.cpus[c].current, s.threads, |s.cpus|)
    ensures Inv(WithCpu(s, c, s.cpus[c].(busy := busy)), loc)
  {
    hide Threads;
    hide Cpus;
    hide Chains;
    hide Mailed;
    hide Taken;
    hide Moves;
    var cpu, n := s.cpus[c], busy.thread;
    var cpu' := cpu.(busy := busy);
    InHandAt(s, loc, c);
    Residents(s, loc, c);
    hide Placement;
    SameHands(cpu, cpu', n, c, loc);
    MovesPlacement(s.cpus, loc, loc, c, cpu', n, Some(InHand));
    ChainedIsBlocked(s, loc, n);
    ThreadsAfter(s.threads, loc, s.cpus, s.chains, c, cpu', n, s.threads[n], loc[n]);
    assert s.threads[n := s.threads[n]] == s.threads && loc[n := loc[n]] == loc;
    CpusAfter(s.cpus, s.threads, c, cpu');
    TotalAfter(s.cpus, c, cpu');
  }

  lemma SameHands(cpu: Cpu, cpu': Cpu, n: nat, c: nat, loc: map<nat, Location>)
    requires Placed(cpu, c, loc) && n in loc && loc[n] == On(c, InHand) && cpu' == cpu.(busy := cpu'.busy)
    requires cpu'.busy.Ready? && cpu'.busy.thread == n
    ensures Moves(cpu, cpu', n, Some(InHand))
  {
    forall place, m ensures At(cpu', place, m) <==> if m == n then place == InHand else At(cpu, place, m) {
      assert At(cpu, place, m) <==> m in loc && loc[m] == On(c, place);
    }
  }

  lemma UnhookKeeps(s: State, loc: map<nat, Location>, c: nat)
    requires Inv(s, loc) && Enabled(s, Unhook(c))
    ensures Asserts(s, Unhook(c)) && Inv(Apply(s, Unhook(c)), loc)
  {
    hide Inv;
    hide Placed;
    var busy := s.cpus[c].busy;
    var n := busy.thread;
    Whereabouts(s, loc, n);
    Residents(s, loc, c);
    var busy' := Ready(n, busy.target);
    if busy.blocker.Some? && s.threads[n].blocker == busy.blocker {
      var b := busy.blocker.value;
      var s1 := Unhooked(s, loc, n, b);
      BusyChanged(s1, loc, c, busy');
    } else {
      BusyChanged(s, loc, c, busy');
    }
  }

  /** remove_thread_from_block_queue. */
  lemma Unhooked(s: State, loc: map<nat, Location>, n: nat, b: nat) returns (s': State)
    requires Inv(s, loc) && n in s.threads && s.threads[n].blocker == Some(b) && b in s.chains && n in s.chains[b]
    ensures s' == WithThread(s, n, s.threads[n].(blocker := None)).(chains := s.chains[b := Without(s.chains[b], n)])
    ensures Inv(s', loc)
  {
    hide Placement;
    hide Threads;
    hide Cpus;
    hide Mailed;
    var q, t := s.chains[b], s.threads[n].(blocker := None);
    assert ChainOk(q, b, s.threads);
    WithoutMembers(q, n);
    OffChain(s, loc, b, n, Without(q, n));
    SameThreads(s, loc);
    TakenAfter(s.taken, s.threads, s.wakes, loc, n, t, s.wakes, loc[n]);
    assert loc[n := loc[n]] == loc;
    s' := WithThread(s, n, t).(chains := s.chains[b := Without(q, n)]);
  }

  // ---------------------------------------------------------------- one thread settles somewhere else

  /** One thread changes its location and its fields but for its blocker, on a processor that changes accordingly. */
  lemma Settles(s: State, loc: map<nat, Location>, c: nat, cpu: Cpu, n: nat, t: Thread, l: Location,
                arrivals: multiset<Arrival>, taken: set<nat>) returns (s': State)
    requires Inv(s, loc) && c < |s.cpus| && (n in loc ==> loc[n].cpu == c || loc[n].Travelling?)
    requires Moves(s.cpus[c], cpu, n, if l.On? then Some(l.place) else None) && (l.On? ==> l.cpu == c) && l.cpu < |s.cpus|
    requires (cpu.busy == Blocking <==> s.cpus[c].busy == Blocking) || forall m :: m in loc && m != n ==> loc[m] != On(c, Running)
    requires ThreadOk(t, n, l, s.cpus[c := cpu], s.chains) && t.blocker == (if n in s.threads then s.threads[n].blocker else None)
    requires cpu.count == Members(cpu) && BusyOk(cpu.busy, cpu.current, s.threads[n := t], |s.cpus|)
    requires Mailed(arrivals, loc[n := l]) && Taken(taken, s.threads[n := t], s.wakes, loc[n := l])
    requires |arrivals| + cpu.count - |s.arrivals| - s.cpus[c].count == if n in s.threads then 0 else 1
    ensures s' == State(s.cpus[c := cpu], s.threads[n := t], s.chains, arrivals, s.wakes, taken, s.gone)
    ensures Inv(s', loc[n := l])
  {
    hide Placement;
    hide Placed;
    hide Moves;
    hide Threads;
    hide Cpus;
    hide Chains;
    hide Mailed;
    hide Taken;
    hide ThreadOk;
    hide BusyOk;
    MovesPlacement(s.cpus, loc, loc[n := l], c, cpu, n, if l.On? then Some(l.place) else None);
    ThreadsAfter(s.threads, loc, s.cpus, s.chains, c, cpu, n, t, l);
    CpusThread(s.cpus, s.threads, n, t);
    CpusAfter(s.cpus, s.threads[n := t], c, cpu);
    ChainsThread(s.chains, s.threads, n, t);
    TotalAfter(s.cpus, c, cpu);
    assert |s.threads[n := t]| == |s.threads| + if n in s.threads then 0 else 1 by {
      assert s.threads[n := t].Keys == s.threads.Keys + {n};
    }
    s' := State(s.cpus[c := cpu], s.threads[n := t], s.chains, arrivals, s.wakes, taken, s.gone);
  }

  lemma TakenWithout(s: State, loc: map<nat, Location>, n: nat, t: Thread, l: Location)
    requires Inv(s, loc)
    ensures Taken(s.taken - {n}, s.threads[n := t], s.wakes, loc[n := l])
  {
    TakenAfter(s.taken - {n}, s.threads, s.wakes, loc, n, t, s.wakes, l);
  }

  /** A thread in a processor's hands goes onto its run list, or to another processor. */
  lemma ReleaseKeeps(s: State, loc: map<nat, Location>, c: nat) returns (loc': map<nat, Location>)
    requires Inv(s, loc) && Enabled(s, Release(c))
    ensures Asserts(s, Release(c)) && Inv(Apply(s, Release(c)), loc')
  {
    hide Inv;
    hide Mailed;
    hide Taken;
    var cpu, n := s.cpus[c], s.cpus[c].busy.thread;
    InHandAt(s, loc, c);
    Residents(s, loc, c);
    Listed(s, loc, n);
    NotCurrent(cpu, c, loc, n);
    var t := s.threads[n].(blocked := false);
    if cpu.busy.target == None {
      var l, cpu' := On(c, Queued), cpu.(runList := cpu.runList + [n], busy := Free);
      MovesToQueue(cpu, cpu', n);
      MailedStays(s, loc, n, l);
      TakenWithout(s, loc, n, t, l);
      hide Placed;
      hide Moves;
      var s' := Settles(s, loc, c, cpu', n, t, l, s.arrivals, s.taken - {n});
      loc' := loc[n := l];
    } else {
      var p := cpu.busy.target.value;
      var l, cpu' := Travelling(p), cpu.(count := cpu.count - 1, busy := Free);
      LeavesHand(cpu, cpu', n, c, loc);
      MailedSent(s, loc, n, p);
      TakenWithout(s, loc, n, t.(owner := p), l);
      hide Placed;
      hide Moves;
      var s' := Settles(s, loc, c, cpu', n, t.(owner := p), l, s.arrivals + multiset{Arrival(p, n)}, s.taken - {n});
      loc' := loc[n := l];
    }
  }

  lemma NotCurrent(cpu: Cpu, c: nat, loc: map<nat, Location>, n: nat)
    requires Placed(cpu, c, loc) && n in loc && loc[n] == On(c, InHand)
    ensures cpu.current != Some(n) && n !in cpu.runList && n !in cpu.blockList && At(cpu, InHand, n)
  {
    assert !At(cpu, Running, n) && !At(cpu, Queued, n) && !At(cpu, Asleep, n);
  }

  lemma LeavesHand(cpu: Cpu, cpu': Cpu, n: nat, c: nat, loc: map<nat, Location>)
    requires Placed(cpu, c, loc) && n in loc && loc[n] == On(c, InHand) && cpu' == cpu.(count := cpu'.count, busy := Free)
    ensures Moves(cpu, cpu', n, None)
  {
    forall place, m ensures At(cpu', place, m) <==> m != n && At(cpu, place, m) {
      assert At(cpu, place, m) <==> m in loc && loc[m] == On(c, place);
    }
  }

  lemma MailedStays(s: State, loc: map<nat, Location>, n: nat, l: Location)
    requires Inv(s, loc) && n in loc && loc[n].On? && l.On?
    ensures Mailed(s.arrivals, loc[n := l])
  {
    MailedMove(s.arrivals, loc, n, l);
  }

  lemma MailedSent(s: State, loc: map<nat, Location>, n: nat, p: nat)
    requires Inv(s, loc) && (n in loc ==> loc[n].On?)
    ensures Mailed(s.arrivals + multiset{Arrival(p, n)}, loc[n := Travelling(p)])
  {
    MailedSend(s.arrivals, loc, n, p);
  }

  // ---------------------------------------------------------------- adding and receiving threads

  lemma AddKeeps(s: State, loc: map<nat, Location>, c: nat, n: nat, p: nat) returns (loc': map<nat, Location>)
    requires Inv(s, loc) && Enabled(s, Add(c, n, p))
    ensures Asserts(s, Add(c, n, p)) && Inv(Apply(s, Add(c, n, p)), loc')
  {
    hide Inv;
    hide Mailed;
    hide Taken;
    var cpu, t := s.cpus[c], Thread(p, false, None);
    SameThreads(s, loc);
    Listed(s, loc, n);
    Residents(s, loc, c);
    if n in s.taken {
      TakenIsBlocked(s, loc, n);
      assert false;
    }
    assert s.taken - {n} == s.taken;
    if p == c {
      var l, cpu' := On(c, Queued), cpu.(runList := cpu.runList + [n], count := cpu.count + 1);
      StrangerMoves(cpu, cpu', n, c, loc);
      MailedNew(s, loc, n, l);
      TakenWithout(s, loc, n, t, l);
      hide Placed;
      hide Moves;
      var s' := Settles(s, loc, c, cpu', n, t, l, s.arrivals, s.taken);
      loc' := loc[n := l];
    } else {
      var l := Travelling(p);
      StrangerStays(cpu, n, c, loc);
      MailedSent(s, loc, n, p);
      TakenWithout(s, loc, n, t, l);
      hide Placed;
      hide Moves;
      var s' := Settles(s, loc, c, cpu, n, t, l, s.arrivals + multiset{Arrival(p, n)}, s.taken);
      assert s.cpus[c := cpu] == s.cpus;
      loc' := loc[n := l];
    }
  }

  lemma StrangerMoves(cpu: Cpu, cpu': Cpu, n: nat, c: nat, loc: map<nat, Location>)
    requires Placed(cpu, c, loc) && (n in loc ==> loc[n].Travelling?) && cpu' == cpu.(runList := cpu.runList + [n], count := cpu'.count)
    ensures Moves(cpu, cpu', n, Some(Queued))
  {
    assert !At(cpu, Running, n) && !At(cpu, Queued, n) && !At(cpu, Asleep, n) && !At(cpu, InHand, n);
    MovesToQueue(cpu, cpu', n);
  }

  lemma StrangerStays(cpu: Cpu, n: nat, c: nat, loc: map<nat, Location>)
    requires Placed(cpu, c, loc) && (n in loc ==> loc[n].Travelling?)
    ensures Moves(cpu, cpu, n, None)
  {
  }

  lemma MailedNew(s: State, loc: map<nat, Location>, n: nat, l: Location)
    requires Inv(s, loc) && n !in loc && l.On?
    ensures Mailed(s.arrivals, loc[n := l])
  {
    MailedMove(s.arrivals, loc, n, l);
  }

  lemma ArriveKeeps(s: State, loc: map<nat, Location>, c: nat, n: nat)
    requires Inv(s, loc) && Enabled(s, Arrive(c, n))
    ensures Asserts(s, Arrive(c, n)) && s.threads[n].owner == c && Inv(Apply(s, Arrive(c, n)), loc[n := On(c, Queued)])
  {
    hide Inv;
    hide Mailed;
    hide Taken;
    var cpu, t, l := s.cpus[c], s.threads[n], On(c, Queued);
    Underway(s, loc, c, n, l);
    Whereabouts(s, loc, n);
    Listed(s, loc, n);
    Residents(s, loc, c);
    if n in s.taken {
      TakenIsBlocked(s, loc, n);
      assert false;
    }
    assert s.taken - {n} == s.taken;
    var cpu' := cpu.(runList := cpu.runList + [n], count := cpu.count + 1);
    StrangerMoves(cpu, cpu', n, c, loc);
    TakenWithout(s, loc, n, t, l);
    hide Placed;
    hide Moves;
    var s' := Settles(s, loc, c, cpu', n, t, l, s.arrivals - multiset{Arrival(c, n)}, s.taken);
    assert s.threads[n := t] == s.threads;
  }

  lemma Underway(s: State, loc: map<nat, Location>, c: nat, n: nat, l: Location)
    requires Inv(s, loc) && Arrival(c, n) in s.arrivals && l.On?
    ensures n in loc && loc[n] == Travelling(c) && Mailed(s.arrivals - multiset{Arrival(c, n)}, loc[n := l])
  {
    assert s.arrivals[Arrival(c, n)] > 0;
    MailedReceive(s.arrivals, loc, c, n, l);
  }

  // ---------------------------------------------------------------- migration

  lemma MigrateKeeps(s: State, loc: map<nat, Location>, c: nat, n: nat, p: nat) returns (loc': map<nat, Location>)
    requires Inv(s, loc) && Enabled(s, Migrate(c, n, p))
    ensures Asserts(s, Migrate(c, n, p)) && Inv(Apply(s, Migrate(c, n, p)), loc')
  {
    hide Inv;
    hide Mailed;
    hide Taken;
    Whereabouts(s, loc, n);
    Residents(s, loc, c);
    var cpu, t := s.cpus[c], s.threads[n];
    assert At(cpu, Queued, n) || At(cpu, Asleep, n);
    assert t.owner == c && t.blocked == (loc[n] == On(c, Asleep));
    if t.blocked {
      PickedUp(s, loc, c, n, Some(p), s.wakes);
      assert n in cpu.blockList;
      loc' := loc[n := On(c, InHand)];
    } else {
      var cpu', l := cpu.(runList := Without(cpu.runList, n), count := cpu.count - 1), Travelling(p);
      WithoutMembers(cpu.runList, n);
      LeavesQueue(cpu, cpu', n, c, loc);
      MailedSent(s, loc, n, p);
      TakenWithout(s, loc, n, t.(owner := p), l);
      if n in s.taken {
        TakenIsBlocked(s, loc, n);
        assert false;
      }
      assert s.taken - {n} == s.taken;
      hide Placed;
      hide Moves;
      var s' := Settles(s, loc, c, cpu', n, t.(owner := p), l, s.arrivals + multiset{Arrival(p, n)}, s.taken);
      loc' := loc[n := l];
    }
  }

  lemma LeavesQueue(cpu: Cpu, cpu': Cpu, n: nat, c: nat, loc: map<nat, Location>)
    requires Placed(cpu, c, loc) && n in loc && loc[n] == On(c, Queued)
    requires cpu' == cpu.(count := cpu'.count, runList := cpu'.runList)
    requires Distinct(cpu'.runList) && forall m :: m in cpu'.runList <==> m in cpu.runList && m != n
    ensures Moves(cpu, cpu', n, None)
  {
    forall place, m ensures At(cpu', place, m) <==> m != n && At(cpu, place, m) {
      assert At(cpu, place, m) <==> m in loc && loc[m] == On(c, place);
    }
  }

  // ---------------------------------------------------------------- blocking and yielding

  lemma CurrentAt(s: State, loc: map<nat, Location>, c: nat)
    requires Inv(s, loc) && c < |s.cpus| && s.cpus[c].current.Some?
    ensures var n := s.cpus[c].current.value;
            && n in s.threads && n in loc && loc[n] == On(c, Running)
            && s.threads[n].owner == c
            && (s.threads[n].blocked <==> s.cpus[c].busy == Blocking)
            && (s.threads[n].blocker.Some? ==> s.threads[n].blocked)
    ensures forall m :: m in loc && loc[m] == On(c, Running) ==> Some(m) == s.cpus[c].current
  {
    hide Inv;
    Residents(s, loc, c);
    assert At(s.cpus[c], Running, s.cpus[c].current.value);
    Whereabouts(s, loc, s.cpus[c].current.value);
    forall m | m in loc && loc[m] == On(c, Running) ensures Some(m) == s.cpus[c].current {
      assert At(s.cpus[c], Running, m);
    }
  }

  lemma BlockKeeps(s: State, loc: map<nat, Location>, c: nat, b: Option<nat>)
    requires Inv(s, loc) && Enabled(s, Block(c, b))
    ensures Asserts(s, Block(c, b)) && Inv(Apply(s, Block(c, b)), loc)
    ensures b.Some? ==> Chain(Apply(s, Block(c, b)).chains, b.value) == [s.cpus[c].current.value] + Chain(s.chains, b.value)
  {
    hide Inv;
    hide Mailed;
    hide Taken;
    var cpu, n := s.cpus[c], s.cpus[c].current.value;
    var t, cpu', l := s.threads[n].(blocked := true), s.cpus[c].(busy := Blocking), On(c, Running);
    CurrentAt(s, loc, c);
    Residents(s, loc, c);
    if n in s.taken {
      TakenIsBlocked(s, loc, n);
      assert false;
    }
    assert s.taken - {n} == s.taken;
    StaysCurrent(cpu, cpu', n, c, loc);
    MailedStays(s, loc, n, l);
    TakenWithout(s, loc, n, t, l);
    hide Placed;
    hide Moves;
    var s1 := Settles(s, loc, c, cpu', n, t, l, s.arrivals, s.taken);
    assert loc[n := l] == loc;
    if b.Some? {
      var s2 := Chained(s1, loc, n, b.value);
      assert s.threads[n := t][n := t.(blocker := b)] == s.threads[n := t.(blocker := b)];
    }
  }

  lemma StaysCurrent(cpu: Cpu, cpu': Cpu, n: nat, c: nat, loc: map<nat, Location>)
    requires Placed(cpu, c, loc) && cpu.busy == Free && cpu.current == Some(n) && cpu' == cpu.(busy := Blocking)
    ensures Moves(cpu, cpu', n, Some(Running))
  {
    forall place, m ensures At(cpu', place, m) <==> if m == n then place == Running else At(cpu, place, m) {
      assert At(cpu, place, m) <==> m in loc && loc[m] == On(c, place);
      assert At(cpu, Running, n);
    }
  }

  /** add_thread_to_block_queue. */
  lemma Chained(s: State, loc: map<nat, Location>, n: nat, b: nat) returns (s': State)
    requires Inv(s, loc) && n in s.threads && s.threads[n].blocked && s.threads[n].blocker == None && n !in s.taken
    requires n in loc && loc[n].On? && loc[n].place == Running
    ensures s' == WithThread(s, n, s.threads[n].(blocker := Some(b))).(chains := s.chains[b := [n] + Chain(s.chains, b)])
    ensures Inv(s', loc)
  {
    hide Placement;
    hide Threads;
    hide Cpus;
    hide Chains;
    hide Mailed;
    hide Taken;
    var t := s.threads[n].(blocker := Some(b));
    var threads', chains' := s.threads[n := t], s.chains[b := [n] + Chain(s.chains, b)];
    s' := WithThread(s, n, t).(chains := chains');
    NotInHand(s, loc, n);
    ChainedCpus(s, n, t);
    ChainedChains(s, n, b);
    ChainedThreads(s, loc, n, b);
    TakenWithout(s, loc, n, t, loc[n]);
    assert s.taken - {n} == s.taken && loc[n := loc[n]] == loc;
    assert threads'.Keys == s.threads.Keys;
    assert |threads'| == |s.threads|;
  }

  lemma NotInHand(s: State, loc: map<nat, Location>, n: nat)
    requires Inv(s, loc) && n in loc && loc[n].On? && loc[n].place == Running
    ensures forall c :: 0 <= c < |s.cpus| ==> !At(s.cpus[c], InHand, n)
  {
    forall c | 0 <= c < |s.cpus| ensures !At(s.cpus[c], InHand, n) {
      assert Placed(s.cpus[c], c, loc);
    }
  }

  lemma ChainedCpus(s: State, n: nat, t: Thread)
    requires Cpus(s.cpus, s.threads) && forall c :: 0 <= c < |s.cpus| ==> !At(s.cpus[c], InHand, n)
    ensures Cpus(s.cpus, s.threads[n := t])
  {
  }

  lemma ChainedChains(s: State, n: nat, b: nat)
    requires Chains(s.chains, s.threads) && n in s.threads && s.threads[n].blocker == None
    ensures Chains(s.chains[b := [n] + Chain(s.chains, b)], s.threads[n := s.threads[n].(blocker := Some(b))])
  {
    var threads' := s.threads[n := s.threads[n].(blocker := Some(b))];
    var chains' := s.chains[b := [n] + Chain(s.chains, b)];
    forall d | d in chains' ensures ChainOk(chains'[d], d, threads') {
      if d in s.chains {
        assert ChainOk(s.chains[d], d, s.threads);
      }
    }
  }

  lemma ChainedThreads(s: State, loc: map<nat, Location>, n: nat, b: nat)
    requires Threads(s.threads, loc, s.cpus, s.chains) && n in s.threads && s.threads[n].blocked
    ensures Threads(s.threads[n := s.threads[n].(blocker := Some(b))], loc, s.cpus, s.chains[b := [n] + Chain(s.chains, b)])
  {
    var threads' := s.threads[n := s.threads[n].(blocker := Some(b))];
    var chains' := s.chains[b := [n] + Chain(s.chains, b)];
    forall m | m in threads' ensures ThreadOk(threads'[m], m, loc[m], s.cpus, chains') {
      assert ThreadOk(s.threads[m], m, loc[m], s.cpus, s.chains);
    }
  }

  /** The first half of reschedule: the current thread goes onto a list. */
  lemma PutBackKeeps(s: State, loc: map<nat, Location>, c: nat) returns (loc': map<nat, Location>)
    requires Inv(s, loc) && Enabled(s, Yield(c))
    ensures Inv(PutBack(s, c), loc') && IsFree(PutBack(s, c), c) && PutBack(s, c).cpus[c].current == None
  {
    hide Inv;
    hide Mailed;
    hide Taken;
    var cpu := s.cpus[c];
    Residents(s, loc, c);
    loc' := loc;
    if cpu.current.Some? {
      var n := cpu.current.value;
      CurrentAt(s, loc, c);
      var t := s.threads[n];
      var l := if t.blocked then On(c, Asleep) else On(c, Queued);
      Whereabouts(s, loc, n);
      MailedStays(s, loc, n, l);
      TakenStays(s, loc, n, l);
      var cpu' := PutBack(s, c).cpus[c];
      YieldMoves(cpu, cpu', n, c, loc, t.blocked);
      hide Placed;
      hide Moves;
      var s' := Settles(s, loc, c, cpu', n, t, l, s.arrivals, s.taken);
      assert s.threads[n := t] == s.threads;
      loc' := loc[n := l];
    }
  }

  lemma TakenStays(s: State, loc: map<nat, Location>, n: nat, l: Location)
    requires Inv(s, loc) && n in s.threads && n in loc && loc[n].On? && loc[n].place != InHand
    ensures Taken(s.taken, s.threads[n := s.threads[n]], s.wakes, loc[n := l])
  {
    if n in s.taken {
      assert Owed(n, s.wakes, loc);
      assert Owed(n, s.wakes, loc[n := l]);
    }
    TakenAfter(s.taken, s.threads, s.wakes, loc, n, s.threads[n], s.wakes, l);
  }

  lemma YieldMoves(cpu: Cpu, cpu': Cpu, n: nat, c: nat, loc: map<nat, Location>, blocked: bool)
    requires Placed(cpu, c, loc) && cpu.current == Some(n) && (cpu.busy == Free || cpu.busy == Blocking)
    requires cpu' == if blocked then cpu.(current := None, blockList := cpu.blockList + {n}, busy := Free)
                     else cpu.(current := None, runList := cpu.runList + [n], busy := Free)
    ensures Moves(cpu, cpu', n, Some(if blocked then Asleep else Queued))
    ensures n !in cpu.runList && n !in cpu.blockList
  {
    assert At(cpu, Running, n);
    assert !At(cpu, Queued, n) && !At(cpu, Asleep, n);
    if blocked {
      forall place, m ensures At(cpu', place, m) <==> if m == n then place == Asleep else At(cpu, place, m) {
        assert At(cpu, place, m) <==> m in loc && loc[m] == On(c, place);
      }
    } else {
      MovesToQueue(cpu, cpu', n);
    }
  }

  /** The second half of reschedule: the first thread of the run list runs. */
  lemma PickNextKeeps(s: State, loc: map<nat, Location>, c: nat) returns (loc': map<nat, Location>)
    requires Inv(s, loc) && IsFree(s, c) && s.cpus[c].current == None
    ensures Inv(PickNext(s, c), loc')
  {
    hide Inv;
    hide Mailed;
    hide Taken;
    var cpu := s.cpus[c];
    Residents(s, loc, c);
    loc' := loc;
    if cpu.runList != [] {
      var n, l := cpu.runList[0], On(c, Running);
      assert At(cpu, Queued, n);
      Whereabouts(s, loc, n);
      var cpu' := cpu.(current := Some(n), runList := cpu.runList[1..]);
      PickMoves(cpu, cpu', c, loc);
      MailedStays(s, loc, n, l);
      TakenStays(s, loc, n, l);
      hide Placed;
      hide Moves;
      var s' := Settles(s, loc, c, cpu', n, s.threads[n], l, s.arrivals, s.taken);
      assert s.threads[n := s.threads[n]] == s.threads;
      loc' := loc[n := l];
    }
  }

  lemma PickMoves(cpu: Cpu, cpu': Cpu, c: nat, loc: map<nat, Location>)
    requires Placed(cpu, c, loc) && cpu.current == None && cpu.runList != []
    requires cpu' == cpu.(current := Some(cpu.runList[0]), runList := cpu.runList[1..])
    ensures Moves(cpu, cpu', cpu.runList[0], Some(Running))
  {
    var n, q := cpu.runList[0], cpu.runList;
    forall m ensures m in q[1..] <==> m in q && m != n {
      if m in q && m != n {
        var i :| 0 <= i < |q| && q[i] == m;
        assert q[1..][i - 1] == m;
      }
    }
    forall place, m ensures At(cpu', place, m) <==> if m == n then place == Running else At(cpu, place, m) {
      assert At(cpu, place, m) <==> m in loc && loc[m] == On(c, place);
      assert At(cpu, Queued, n);
    }
  }

  lemma YieldKeeps(s: State, loc: map<nat, Location>, c: nat) returns (loc': map<nat, Location>)
    requires Inv(s, loc) && Enabled(s, Yield(c))
    ensures Asserts(s, Yield(c)) && Inv(Apply(s, Yield(c)), loc')
  {
    hide Inv;
    hide PutBack;
    hide PickNext;
    Residents(s, loc, c);
    if s.cpus[c].current.Some? {
      CurrentAt(s, loc, c);
      Listed(s, loc, s.cpus[c].current.value);
    }
    forall n | n in s.cpus[c].runList ensures n in s.threads && !s.threads[n].blocked {
      assert At(s.cpus[c], Queued, n);
      Whereabouts(s, loc, n);
    }
    var loc1 := PutBackKeeps(s, loc, c);
    loc' := PickNextKeeps(PutBack(s, c), loc1, c);
  }

  // ---------------------------------------------------------------- the end of a thread

  /** The current thread of a processor goes away, with nothing left that refers to it. */
  lemma Dropped(s: State, loc: map<nat, Location>, c: nat) returns (s': State)
    requires Inv(s, loc) && Enabled(s, Exit(c))
    ensures var n := s.cpus[c].current.value;
            s' == WithCpu(s, c, s.cpus[c].(current := None, count := s.cpus[c].count - 1)).(
                    threads := s.threads - {n}, gone := s.gone + {n})
    ensures Inv(s', loc - {s.cpus[c].current.value})
  {
    hide Placement;
    hide Placed;
    hide Moves;
    hide Threads;
    hide Cpus;
    hide Chains;
    hide Mailed;
    hide Taken;
    var cpu, n := s.cpus[c], s.cpus[c].current.value;
    var cpu' := cpu.(current := None, count := cpu.count - 1);
    CurrentAt(s, loc, c);
    Residents(s, loc, c);
    DropMoves(cpu, cpu', n, c, loc);
    MovesPlacement(s.cpus, loc, loc - {n}, c, cpu', n, None);
    DropThreads(s, loc, c, cpu', n);
    DropCpus(s, loc, c, cpu', n);
    DropRest(s, loc, n);
    TotalAfter(s.cpus, c, cpu');
    assert (s.threads - {n}).Keys == s.threads.Keys - {n};
    assert |s.threads - {n}| == |s.threads| - 1;
    s' := WithCpu(s, c, cpu').(threads := s.threads - {n}, gone := s.gone + {n});
  }

  lemma DropMoves(cpu: Cpu, cpu': Cpu, n: nat, c: nat, loc: map<nat, Location>)
    requires Placed(cpu, c, loc) && cpu.current == Some(n) && cpu' == cpu.(current := None, count := cpu'.count)
    ensures Moves(cpu, cpu', n, None)
  {
    forall place, m ensures At(cpu', place, m) <==> m != n && At(cpu, place, m) {
      assert At(cpu, place, m) <==> m in loc && loc[m] == On(c, place);
      assert At(cpu, Running, n);
    }
  }

  lemma DropThreads(s: State, loc: map<nat, Location>, c: nat, cpu: Cpu, n: nat)
    requires Threads(s.threads, loc, s.cpus, s.chains) && c < |s.cpus| && cpu.busy == s.cpus[c].busy
    ensures Threads(s.threads - {n}, loc - {n}, s.cpus[c := cpu], s.chains)
  {
    forall m | m in s.threads - {n} ensures ThreadOk((s.threads - {n})[m], m, (loc - {n})[m], s.cpus[c := cpu], s.chains) {
      assert ThreadOk(s.threads[m], m, loc[m], s.cpus, s.chains);
    }
  }

  lemma DropCpus(s: State, loc: map<nat, Location>, c: nat, cpu: Cpu, n: nat)
    requires Inv(s, loc) && c < |s.cpus| && n in loc && loc[n] == On(c, Running)
    requires cpu.count == Members(cpu) && cpu.busy == Free
    ensures Cpus(s.cpus[c := cpu], s.threads - {n})
  {
    NotInHand(s, loc, n);
  }

  lemma DropRest(s: State, loc: map<nat, Location>, n: nat)
    requires Inv(s, loc) && n in s.threads && !s.threads[n].blocked && s.threads[n].blocker == None
    requires n in loc && loc[n].On? && loc[n].place != InHand
    ensures Chains(s.chains, s.threads - {n}) && Mailed(s.arrivals, loc - {n})
    ensures Wakes(s.wakes, s.threads - {n}, s.gone + {n}, |s.cpus|) && Taken(s.taken, s.threads - {n}, s.wakes, loc - {n})
  {
    forall b | b in s.chains ensures ChainOk(s.chains[b], b, s.threads - {n}) {
      assert ChainOk(s.chains[b], b, s.threads);
    }
    forall m | m in s.taken ensures Owed(m, s.wakes, loc - {n}) {
      assert Owed(m, s.wakes, loc);
    }
  }

  lemma ExitKeeps(s: State, loc: map<nat, Location>, c: nat) returns (loc': map<nat, Location>)
    requires Inv(s, loc) && Enabled(s, Exit(c))
    ensures Asserts(s, Exit(c)) && Inv(Apply(s, Exit(c)), loc')
  {
    hide Inv;
    hide PickNext;
    CurrentAt(s, loc, c);
    Residents(s, loc, c);
    Listed(s, loc, s.cpus[c].current.value);
    var s1 := Dropped(s, loc, c);
    loc' := PickNextKeeps(s1, loc - {s.cpus[c].current.value}, c);
  }

  // ---------------------------------------------------------------- every step, every run

  /** The step is told about a thread that has been deleted. */
  predicate Misdirected(s: State, step: Step) {
    (step.Deliver? || step.Unblock?) && step.thread !in s.threads
  }

  /** Every step keeps the invariant, and finds the source's assertions true unless it is about a deleted thread. */
  lemma StepKeeps(s: State, loc: map<nat, Location>, step: Step) returns (loc': map<nat, Location>)
    requires Inv(s, loc) && Enabled(s, step)
    ensures (Asserts(s, step) <==> !Misdirected(s, step)) && Inv(Apply(s, step), loc')
  {
    hide Inv;
    hide Apply;
    hide Asserts;
    hide Enabled;
    loc' := loc;
    match step {
      case Add(c, n, p) => loc' := AddKeeps(s, loc, c, n, p);
      case Arrive(c, n) => ArriveKeeps(s, loc, c, n); loc' := loc[n := On(c, Queued)];
      case Deliver(c, n) => DeliverKeeps(s, loc, c, n);
      case Take(c, b) => TakeKeeps(s, loc, c, b);
      case Poke(c, n) => PokeKeeps(s, loc, c, n);
      case Unblock(c, n) => loc' := UnblockStep(s, loc, c, n);
      case Unhook(c) => UnhookKeeps(s, loc, c);
      case Release(c) => loc' := ReleaseKeeps(s, loc, c);
      case Block(c, b) => BlockKeeps(s, loc, c, b);
      case Yield(c) => loc' := YieldKeeps(s, loc, c);
      case Exit(c) => loc' := ExitKeeps(s, loc, c);
      case Migrate(c, n, p) => loc' := MigrateKeeps(s, loc, c, n, p);
    }
  }

  lemma UnblockStep(s: State, loc: map<nat, Location>, c: nat, n: nat) returns (loc': map<nat, Location>)
    requires Inv(s, loc) && Enabled(s, Unblock(c, n))
    ensures (Asserts(s, Unblock(c, n)) <==> n in s.threads) && Inv(Apply(s, Unblock(c, n)), loc')
  {
    hide Inv;
    hide Apply;
    if n !in s.threads {
      UnblockStray(s, loc, c, n);
      loc' := loc;
    } else if s.threads[n].owner == c && s.threads[n].blocked {
      UnblockKeeps(s, loc, c, n);
      loc' := loc[n := On(c, InHand)];
    } else {
      UnblockElsewhere(s, loc, c, n);
      loc' := loc;
    }
  }

  lemma {:induction false} RunKeeps(s: State, loc: map<nat, Location>, steps: seq<Step>) returns (loc': map<nat, Location>)
    requires Inv(s, loc) && CanRun(s, steps)
    ensures Inv(Run(s, steps), loc')
    decreases |steps|
  {
    hide Inv;
    hide Apply;
    loc' := loc;
    if steps != [] {
      var loc1 := StepKeeps(s, loc, steps[0]);
      loc' := RunKeeps(Apply(s, steps[0]), loc1, steps[1..]);
    }
  }

  lemma InitInv(s: State)
    requires Init(s)
    ensures Inv(s, map[])
  {
    NobodyCounted(s.cpus);
  }

  lemma {:induction false} NobodyCounted(cpus: seq<Cpu>)
    requires forall c :: 0 <= c < |cpus| ==> cpus[c] == Cpu(None, [], {}, 0, Free)
    ensures Total(cpus) == 0
  {
    if cpus != [] {
      NobodyCounted(cpus[..|cpus| - 1]);
    }
  }

  /** The three steps of a local unblock together move the thread from the block list to the end of the run list. */
  lemma UnblockedLocally(s: State, c: nat, n: nat)
    requires Enabled(s, Unblock(c, n)) && n in s.threads && s.threads[n].owner == c && s.threads[n].blocked
    ensures var s1 := Apply(s, Unblock(c, n));
            && Enabled(s1, Unhook(c)) && Enabled(Apply(s1, Unhook(c)), Release(c))
            && var s3 := Apply(Apply(s1, Unhook(c)), Release(c));
               && s3.cpus[c] == Awoken(s.cpus[c], n)
               && !s3.threads[n].blocked && s3.threads[n].blocker == None
  {
  }

  /** The steps of a migration together take the thread off its list and out of the count, and hand it to a message. */
  lemma MigratedAway(s: State, c: nat, n: nat, p: nat)
    requires Enabled(s, Migrate(c, n, p))
    ensures var s1 := Apply(s, Migrate(c, n, p));
            if !s.threads[n].blocked then
              && s1.cpus[c] == Departed(s.cpus[c], n, false)
              && s1.threads[n] == s.threads[n].(owner := p) && s1.arrivals == s.arrivals + multiset{Arrival(p, n)}
            else
              && Enabled(s1, Unhook(c)) && Enabled(Apply(s1, Unhook(c)), Release(c))
              && var s3 := Apply(Apply(s1, Unhook(c)), Release(c));
                 && s3.cpus[c] == Departed(s.cpus[c], n, true)
                 && s3.threads[n] == Thread(p, false, None) && s3.arrivals == s.arrivals + multiset{Arrival(p, n)}
  {
  }

  // ---------------------------------------------------------------- what holds in every reachable state

  /** The thread is on that processor's list, or in its hands, or a NewThread message carries it there. */
  ghost predicate IsAt(s: State, n: nat, l: Location) {
    l.cpu < |s.cpus| && if l.On? then At(s.cpus[l.cpu], l.place, n) else Arrival(l.cpu, n) in s.arrivals
  }

  /** Every live thread is in exactly one place, once; nothing else is anywhere. */
  lemma EachThreadInOnePlace(init: State, steps: seq<Step>)
    requires Init(init) && CanRun(init, steps)
    ensures var s := Run(init, steps);
            && (forall n :: n in s.threads ==> exists l :: IsAt(s, n, l))
            && (forall n, l, l' :: IsAt(s, n, l) && IsAt(s, n, l') ==> l == l')
            && (forall n, l :: IsAt(s, n, l) ==> n in s.threads)
            && (forall c :: 0 <= c < |s.cpus| ==> Distinct(s.cpus[c].runList))
            && (forall a :: s.arrivals[a] <= 1)
  {
    hide Run;
    hide CanRun;
    var s := Run(init, steps);
    var loc := Reached(init, steps);
    forall n, l | IsAt(s, n, l) ensures n in loc && loc[n] == l {
      assert l.On? ==> Placed(s.cpus[l.cpu], l.cpu, loc);
    }
    forall n | n in s.threads ensures IsAt(s, n, loc[n]) {
      Whereabouts(s, loc, n);
    }
    forall c | 0 <= c < |s.cpus| ensures Distinct(s.cpus[c].runList) {
      assert Placed(s.cpus[c], c, loc);
    }
  }

  lemma Reached(init: State, steps: seq<Step>) returns (loc: map<nat, Location>)
    requires Init(init) && CanRun(init, steps)
    ensures Inv(Run(init, steps), loc)
  {
    hide Inv;
    InitInv(init);
    loc := RunKeeps(init, map[], steps);
  }

  /**
    No assertion of the source fails, no node is pushed while it is on a list, no count goes below zero, unless the
    step is about a deleted thread.
   */
  lemma NoAssertionFails(init: State, steps: seq<Step>, step: Step)
    requires Init(init) && CanRun(init, steps) && Enabled(Run(init, steps), step)
    ensures Asserts(Run(init, steps), step) <==> !Misdirected(Run(init, steps), step)
  {
    hide Inv;
    hide Asserts;
    hide Enabled;
    var loc := Reached(init, steps);
    var loc' := StepKeeps(Run(init, steps), loc, step);
  }

  /** A processor can finish what it is in the middle of, or turn to anything that it may turn to. */
  ghost predicate GoesOn(s: State, c: nat)
    requires c < |s.cpus|
  {
    match s.cpus[c].busy
    case Free =>
      && Enabled(s, Yield(c))
      && (s.cpus[c].current.Some? ==> Enabled(s, Exit(c)) && forall on :: Enabled(s, Block(c, on)))
      && (forall n: nat :: Arrival(c, n) in s.arrivals ==> Enabled(s, Arrive(c, n)))
      && (forall n: nat :: Message(c, n) in s.wakes ==> Enabled(s, Deliver(c, n)))
      && (forall n: nat :: Call(c, n) in s.wakes ==> Enabled(s, Unblock(c, n)))
      && (forall n: nat, p: nat :: n !in s.threads && n !in s.gone && p < |s.cpus| ==> Enabled(s, Add(c, n, p)))
      && (forall n: nat, p: nat :: (n in s.cpus[c].runList || n in s.cpus[c].blockList) && p < |s.cpus| && p != c ==>
            Enabled(s, Migrate(c, n, p)))
    case Blocking => s.cpus[c].current.Some? && Enabled(s, Yield(c))
    case Unhooking(_, _, _) => Enabled(s, Unhook(c))
    case Ready(_, _) => Enabled(s, Release(c))
  }

  /**
    No processor ever gets stuck: whatever it is in the middle of can be finished, and every message and every chain
    that it may turn to leads to a thread that exists.
   */
  lemma NobodyGetsStuck(init: State, steps: seq<Step>, c: nat)
    requires Init(init) && CanRun(init, steps) && c < |Run(init, steps).cpus|
    ensures GoesOn(Run(init, steps), c)
    ensures forall b: nat :: Chain(Run(init, steps).chains, b) != [] ==> Enabled(Run(init, steps), Take(c, b))
    ensures forall n: nat :: n in Run(init, steps).threads ==> Enabled(Run(init, steps), Poke(c, n))
  {
    hide Run;
    hide CanRun;
    hide Inv;
    hide GoesOn;
    var s := Run(init, steps);
    var loc := Reached(init, steps);
    AlwaysGoesOn(s, loc, c);
    forall b: nat | Chain(s.chains, b) != [] ensures Enabled(s, Take(c, b)) {
      ChainedIsLive(s, loc, b);
    }
  }

  lemma AlwaysGoesOn(s: State, loc: map<nat, Location>, c: nat)
    requires Inv(s, loc) && c < |s.cpus|
    ensures GoesOn(s, c)
  {
    hide Inv;
    if s.cpus[c].current.Some? {
      CurrentAt(s, loc, c);
    }
    HandIsLive(s, loc, c);
    ListedIsLive(s, loc, c);
    forall n: nat | Arrival(c, n) in s.arrivals ensures n in s.threads {
      TravellerIsLive(s, loc, c, n);
    }
  }

  lemma HandIsLive(s: State, loc: map<nat, Location>, c: nat)
    requires Inv(s, loc) && c < |s.cpus|
    ensures s.cpus[c].busy.Unhooking? || s.cpus[c].busy.Ready? ==> s.cpus[c].busy.thread in s.threads
    ensures s.cpus[c].busy.Blocking? ==> s.cpus[c].current.Some?
  {
    assert BusyOk(s.cpus[c].busy, s.cpus[c].current, s.threads, |s.cpus|);
  }

  lemma ListedIsLive(s: State, loc: map<nat, Location>, c: nat)
    requires Inv(s, loc) && c < |s.cpus|
    ensures forall n :: n in s.cpus[c].runList || n in s.cpus[c].blockList ==> n in s.threads
  {
    hide Cpus;
    hide Chains;
    hide Mailed;
    hide Wakes;
    hide Taken;
    forall n | n in s.cpus[c].runList || n in s.cpus[c].blockList ensures n in s.threads {
      assert At(s.cpus[c], Queued, n) || At(s.cpus[c], Asleep, n);
    }
  }

  lemma TravellerIsLive(s: State, loc: map<nat, Location>, c: nat, n: nat)
    requires Inv(s, loc) && Arrival(c, n) in s.arrivals
    ensures n in s.threads
  {
    assert s.arrivals[Arrival(c, n)] > 0;
  }

  lemma ChainedIsLive(s: State, loc: map<nat, Location>, b: nat)
    requires Inv(s, loc)
    ensures forall n :: n in Chain(s.chains, b) ==> n in s.threads
  {
    if b in s.chains {
      assert ChainOk(s.chains[b], b, s.threads);
    }
  }

  /** The thread counts of the processors are exact, and with the threads on their way they add up to all threads. */
  lemma CountsAddUp(init: State, steps: seq<Step>)
    requires Init(init) && CanRun(init, steps)
    ensures var s := Run(init, steps);
            && Total(s.cpus) + |s.arrivals| == |s.threads|
            && forall c :: 0 <= c < |s.cpus| ==> s.cpus[c].count == Members(s.cpus[c])
  {
    var loc := Reached(init, steps);
  }

  /** A thread is on a blocker's chain exactly when its field names that blocker, and it is then blocked. */
  lemma ChainsAgree(init: State, steps: seq<Step>, b: nat)
    requires Init(init) && CanRun(init, steps)
    ensures var s := Run(init, steps);
            && Distinct(Chain(s.chains, b))
            && (forall n :: n in Chain(s.chains, b) <==> n in s.threads && s.threads[n].blocker == Some(b))
            && (forall n :: n in Chain(s.chains, b) ==> s.threads[n].blocked)
  {
    hide Run;
    hide CanRun;
    hide Placement;
    hide Cpus;
    hide Mailed;
    var s := Run(init, steps);
    var loc := Reached(init, steps);
    forall n | n in s.threads && s.threads[n].blocker == Some(b) ensures n in Chain(s.chains, b) && s.threads[n].blocked {
      ChainedIsBlocked(s, loc, n);
    }
    if b in s.chains {
      assert ChainOk(s.chains[b], b, s.threads);
    }
  }

  // ---------------------------------------------------------------- no wake-up is lost

  predicate Blocked(s: State, n: nat) {
    n in s.threads && s.threads[n].blocked
  }

  /** The thread is runnable, or gone, at some point of the run. */
  ghost predicate WakesUp(s: State, steps: seq<Step>, n: nat)
    requires CanRun(s, steps)
    decreases |steps|
  {
    !Blocked(s, n) || (steps != [] && WakesUp(Apply(s, steps[0]), steps[1..], n))
  }

  lemma StepWakes(s: State, loc: map<nat, Location>, step: Step, n: nat)
    requires Inv(s, loc) && Enabled(s, step) && n in s.taken
    ensures n in Apply(s, step).taken || !Blocked(Apply(s, step), n)
  {
    hide Inv;
    TakenIsBlocked(s, loc, n);
    if step.Yield? {
      YieldWakes(s, step.cpu);
    }
  }

  lemma {:induction false} OwedUntilAwake(s: State, loc: map<nat, Location>, steps: seq<Step>, n: nat)
    requires Inv(s, loc) && CanRun(s, steps) && n in s.taken
    ensures WakesUp(s, steps, n) || n in Run(s, steps).taken
    decreases |steps|
  {
    hide Inv;
    hide Apply;
    if steps != [] {
      var s' := Apply(s, steps[0]);
      var loc' := StepKeeps(s, loc, steps[0]);
      StepWakes(s, loc, steps[0], n);
      if n in s'.taken {
        OwedUntilAwake(s', loc', steps[1..], n);
      }
    }
  }

  /** Somebody is about to call unblock_thread for it, an UnblockThread message is on its way, or its processor is at it. */
  ghost predicate Pending(s: State, n: nat) {
    || (exists w :: w in s.wakes && w.thread == n && w.cpu < |s.cpus|)
    || (n in s.threads && s.threads[n].owner < |s.cpus| && At(s.cpus[s.threads[n].owner], InHand, n))
  }

  /**
    After an unblock took a thread off its chain, the thread wakes up somewhere in the run, or it is still blocked
    at the end and its wake-up is pending, whatever timeouts, signals and migrations came in between.
   */
  lemma NoWakeupLost(init: State, before: seq<Step>, c: nat, b: nat, after: seq<Step>)
    requires Init(init) && CanRun(init, before) && Enabled(Run(init, before), Take(c, b))
    requires CanRun(Apply(Run(init, before), Take(c, b)), after)
    ensures var s, n := Apply(Run(init, before), Take(c, b)), Chain(Run(init, before).chains, b)[0];
            WakesUp(s, after, n) || (Blocked(Run(s, after), n) && Pending(Run(s, after), n))
  {
    hide Inv;
    hide Run;
    hide CanRun;
    hide WakesUp;
    var s0 := Run(init, before);
    var loc0 := Reached(init, before);
    var s, n := Apply(s0, Take(c, b)), Chain(s0.chains, b)[0];
    TakeKeeps(s0, loc0, c, b);
    OwedUntilAwake(s, loc0, after, n);
    if n in Run(s, after).taken {
      var loc := RunKeeps(s, loc0, after);
      StillPending(Run(s, after), loc, n);
    }
  }

  lemma StillPending(s: State, loc: map<nat, Location>, n: nat)
    requires Inv(s, loc) && n in s.taken
    ensures Blocked(s, n) && Pending(s, n)
  {
    hide Placement;
    hide Cpus;
    hide Chains;
    hide Mailed;
    Whereabouts(s, loc, n);
    assert Owed(n, s.wakes, loc);
  }

  // ---------------------------------------------------------------- a pending wake-up can always be carried out

  /** Steps with which a processor carries on; they start no wake-up. */
  predicate CarriesOn(step: Step) {
    step.Deliver? || step.Unblock? || step.Unhook? || step.Release? || step.Yield?
  }

  /** There are at most k such steps after which the thread is runnable. */
  ghost predicate CanWakeUp(s: State, n: nat, k: nat) {
    exists steps :: Carries(steps, k) && CanRun(s, steps) && WakesUp(s, steps, n)
  }

  predicate Carries(steps: seq<Step>, k: nat) {
    |steps| <= k && forall i :: 0 <= i < |steps| ==> CarriesOn(steps[i])
  }

  lemma AwakeAlready(s: State, n: nat, k: nat)
    requires !Blocked(s, n)
    ensures CanWakeUp(s, n, k)
  {
    assert Carries([], k) && CanRun(s, []) && WakesUp(s, [], n);
  }

  lemma WakeAfter(s: State, step: Step, n: nat, k: nat, more: nat)
    requires Enabled(s, step) && CarriesOn(step) && CanWakeUp(Apply(s, step), n, k) && k < more
    ensures CanWakeUp(s, n, more)
  {
    hide Apply;
    hide Enabled;
    hide CarriesOn;
    var steps :| Carries(steps, k) && CanRun(Apply(s, step), steps) && WakesUp(Apply(s, step), steps, n);
    var all := [step] + steps;
    assert all[1..] == steps;
    assert Carries(all, more) && CanRun(s, all) && WakesUp(s, all, n);
  }

  /** Once a processor has the thread in its hands, it finishes on its own, in two steps. */
  lemma HandFinishes(s: State, loc: map<nat, Location>, c: nat, n: nat)
    requires Inv(s, loc) && c < |s.cpus| && At(s.cpus[c], InHand, n)
    ensures CanWakeUp(s, n, 2)
  {
    hide Inv;
    InHandAt(s, loc, c);
    if s.cpus[c].busy.Unhooking? {
      var s1 := Apply(s, Unhook(c));
      UnhookKeeps(s, loc, c);
      AwakeAlready(Apply(s1, Release(c)), n, 0);
      WakeAfter(s1, Release(c), n, 0, 1);
      WakeAfter(s, Unhook(c), n, 1, 2);
    } else {
      AwakeAlready(Apply(s, Release(c)), n, 0);
      WakeAfter(s, Release(c), n, 0, 2);
    }
  }

  function Rank(busy: Busy): nat {
    match busy
    case Free => 0
    case Blocking => 1
    case Unhooking(_, _, _) => 2
    case Ready(_, _) => 1
  }

  /** What a processor does next, and finishes sooner or later. */
  function NextOf(busy: Busy, c: nat): Step
    requires busy != Free
  {
    match busy
    case Blocking => Yield(c)
    case Unhooking(_, _, _) => Unhook(c)
    case Ready(_, _) => Release(c)
  }

  ghost predicate Undisturbed(s: State, s': State, c: nat, n: nat)
    requires c < |s.cpus|
  {
    && s'.wakes == s.wakes && |s'.cpus| == |s.cpus| && Rank(s'.cpus[c].busy) < Rank(s.cpus[c].busy)
    && s'.threads.Keys == s.threads.Keys
    && (Blocked(s, n) ==> Blocked(s', n) && s'.threads[n].owner == s.threads[n].owner)
  }

  lemma GetsOnYielding(s: State, c: nat, n: nat)
    requires Enabled(s, Yield(c)) && s.cpus[c].busy == Blocking && s.cpus[c].current.Some?
    ensures Undisturbed(s, Apply(s, Yield(c)), c, n)
  {
  }

  lemma GetsOnUnhooking(s: State, c: nat, n: nat)
    requires Enabled(s, Unhook(c)) && s.cpus[c].busy.thread != n
    ensures Undisturbed(s, Apply(s, Unhook(c)), c, n)
  {
  }

  lemma GetsOnReleasing(s: State, c: nat, n: nat)
    requires Enabled(s, Release(c)) && s.cpus[c].busy.thread != n
    ensures Undisturbed(s, Apply(s, Release(c)), c, n)
  {
  }

  /** A busy processor gets on with what it does, and this changes nothing for a thread that is not in its hands. */
  lemma GetsOn(s: State, loc: map<nat, Location>, c: nat, n: nat)
    requires Inv(s, loc) && c < |s.cpus| && s.cpus[c].busy != Free && !At(s.cpus[c], InHand, n)
    ensures Enabled(s, NextOf(s.cpus[c].busy, c)) && Undisturbed(s, Apply(s, NextOf(s.cpus[c].busy, c)), c, n)
  {
    hide Inv;
    hide Apply;
    hide Undisturbed;
    Residents(s, loc, c);
    if s.cpus[c].busy == Blocking {
      CurrentAt(s, loc, c);
      GetsOnYielding(s, c, n);
    } else {
      InHandAt(s, loc, c);
      if s.cpus[c].busy.Unhooking? {
        GetsOnUnhooking(s, c, n);
      } else {
        GetsOnReleasing(s, c, n);
      }
    }
  }

  /**
    How many steps a wake-up takes at most: what its processor is busy with, the delivery of a message, then the
    unblock in three steps; before that, if the thread lives elsewhere, one to forward it, one to deliver it there
    and two for what that processor is busy with.
   */
  function Effort(s: State, n: nat, w: Wake): nat
    requires n in s.threads && w.cpu < |s.cpus|
  {
    (if w.cpu == s.threads[n].owner then 0 else 4) + (if w.Message? then 1 else 0) + Rank(s.cpus[w.cpu].busy) + 3
  }

  /**
    From any state in which a wake-up for a blocked thread is pending, the processors carry it out, in at most ten
    steps of their own and without anybody starting another wake-up.
   */
  lemma WakeupCanHappen(s: State, loc: map<nat, Location>, n: nat, w: Wake)
    requires Inv(s, loc) && Blocked(s, n) && w in s.wakes && w.thread == n
    ensures w.cpu < |s.cpus| && Effort(s, n, w) <= 10 && CanWakeUp(s, n, Effort(s, n, w))
    decreases if w.cpu < |s.cpus| then Effort(s, n, w) else 0
  {
    hide Inv;
    hide CanWakeUp;
    var c := w.cpu;
    KnownWake(s, loc, w);
    Whereabouts(s, loc, n);
    var k := Effort(s, n, w);
    if At(s.cpus[c], InHand, n) {
      HandFinishes(s, loc, c, n);
      CanWakeUpWithin(s, n, 2, k);
    } else if s.cpus[c].busy != Free {
      var step := NextOf(s.cpus[c].busy, c);
      GetsOn(s, loc, c, n);
      var loc' := StepKeeps(s, loc, step);
      WakeupCanHappen(Apply(s, step), loc', n, w);
      WakeAfter(s, step, n, Effort(Apply(s, step), n, w), k);
    } else if w.Message? {
      DeliverKeeps(s, loc, c, n);
      WakeupCanHappen(Apply(s, Deliver(c, n)), loc, n, Call(c, n));
      WakeAfter(s, Deliver(c, n), n, k - 1, k);
    } else if s.threads[n].owner == c {
      UnblockKeeps(s, loc, c, n);
      HandFinishes(Apply(s, Unblock(c, n)), loc[n := On(c, InHand)], c, n);
      WakeAfter(s, Unblock(c, n), n, 2, k);
    } else {
      UnblockElsewhere(s, loc, c, n);
      var s', w' := Apply(s, Unblock(c, n)), Message(s.threads[n].owner, n);
      WakeupCanHappen(s', loc, n, w');
      WakeAfter(s, Unblock(c, n), n, Effort(s', n, w'), k);
    }
  }

  lemma CanWakeUpWithin(s: State, n: nat, k: nat, more: nat)
    requires CanWakeUp(s, n, k) && k <= more
    ensures CanWakeUp(s, n, more)
  {
    var steps :| Carries(steps, k) && CanRun(s, steps) && WakesUp(s, steps, n);
    assert Carries(steps, more);
  }

  /** Nobody is at work on the thread, on no processor. */
  lemma NotInAnyHand(s: State, loc: map<nat, Location>, c: nat, n: nat)
    requires Inv(s, loc) && n in s.threads && !Pending(s, n) && c < |s.cpus|
    ensures !At(s.cpus[c], InHand, n) && forall w :: w in s.wakes ==> w.thread != n
  {
    hide Inv;
    Whereabouts(s, loc, n);
    Residents(s, loc, c);
    forall w | w in s.wakes ensures w.thread != n {
      KnownWake(s, loc, w);
    }
  }

  lemma UnawaitedByCall(s: State, c: nat, m: nat, step: Step, n: nat)
    requires Enabled(s, step) && (step == Deliver(c, m) || step == Unblock(c, m))
    requires Blocked(s, n) && !Pending(s, n) && forall w :: w in s.wakes ==> w.thread != n
    ensures Blocked(Apply(s, step), n) && !Pending(Apply(s, step), n)
  {
  }

  lemma UnawaitedByHand(s: State, c: nat, step: Step, n: nat)
    requires Enabled(s, step) && (step == Unhook(c) || step == Release(c))
    requires Blocked(s, n) && !Pending(s, n) && !At(s.cpus[c], InHand, n)
    ensures Blocked(Apply(s, step), n) && !Pending(Apply(s, step), n)
  {
  }

  lemma UnawaitedByYield(s: State, c: nat, n: nat)
    requires Enabled(s, Yield(c)) && Blocked(s, n) && !Pending(s, n)
    ensures Blocked(Apply(s, Yield(c)), n) && !Pending(Apply(s, Yield(c)), n)
  {
  }

  /** Without a call, a message or a processor at work on it, a blocked thread sleeps on while the processors carry on. */
  lemma {:induction false} SleepsOn(s: State, loc: map<nat, Location>, steps: seq<Step>, k: nat, n: nat)
    requires Inv(s, loc) && Blocked(s, n) && !Pending(s, n) && Carries(steps, k) && CanRun(s, steps)
    ensures !WakesUp(s, steps, n)
    decreases |steps|
  {
    hide Inv;
    hide Apply;
    hide Pending;
    if steps != [] {
      var step := steps[0];
      NotInAnyHand(s, loc, step.cpu, n);
      if step.Deliver? || step.Unblock? {
        UnawaitedByCall(s, step.cpu, step.thread, step, n);
      } else if step.Yield? {
        UnawaitedByYield(s, step.cpu, n);
      } else {
        UnawaitedByHand(s, step.cpu, step, n);
      }
      var loc' := StepKeeps(s, loc, step);
      SleepsOn(Apply(s, step), loc', steps[1..], k, n);
    }
  }

  lemma PendingCanWakeUp(s: State, loc: map<nat, Location>, n: nat, k: nat)
    requires Inv(s, loc) && Blocked(s, n) && Pending(s, n) && 10 <= k
    ensures CanWakeUp(s, n, k)
  {
    hide Inv;
    hide CanWakeUp;
    if w :| w in s.wakes && w.thread == n {
      WakeupCanHappen(s, loc, n, w);
      CanWakeUpWithin(s, n, Effort(s, n, w), k);
    } else {
      HandFinishes(s, loc, s.threads[n].owner, n);
      CanWakeUpWithin(s, n, 2, k);
    }
  }

  /**
    In every reachable state the processors can wake a blocked thread on their own if and only if a call or message
    for it is under way or its processor is at it, and then ten steps are enough.
   */
  lemma CanWakeUpIff(init: State, steps: seq<Step>, n: nat, k: nat)
    requires Init(init) && CanRun(init, steps) && Blocked(Run(init, steps), n) && 10 <= k
    ensures CanWakeUp(Run(init, steps), n, k) <==> Pending(Run(init, steps), n)
  {
    hide Inv;
    hide Run;
    hide CanRun;
    hide Pending;
    var s := Run(init, steps);
    var loc := Reached(init, steps);
    if Pending(s, n) {
      PendingCanWakeUp(s, loc, n, k);
    } else {
      forall more | Carries(more, k) && CanRun(s, more) ensures !WakesUp(s, more, n) {
        SleepsOn(s, loc, more, k, n);
      }
    }
  }

  /** A thread that an unblock took off a chain is never stuck: ten steps of the processors are enough. */
  lemma TakenCanWakeUp(init: State, steps: seq<Step>, n: nat)
    requires Init(init) && CanRun(init, steps) && n in Run(init, steps).taken
    ensures CanWakeUp(Run(init, steps), n, 10)
  {
    hide Inv;
    hide Run;
    hide CanRun;
    hide CanWakeUp;
    hide Pending;
    var loc := Reached(init, steps);
    StillPending(Run(init, steps), loc, n);
    PendingCanWakeUp(Run(init, steps), loc, n, 10);
  }

  // ---------------------------------------------------------------- threads that exit while somebody is about to wake them

  /** A call or message for a thread that has been deleted. */
  ghost predicate Stray(s: State, w: Wake) {
    w in s.wakes && w.thread !in s.threads
  }

  ghost predicate NoStray(s: State) {
    forall w :: !Stray(s, w)
  }

  /** If a thread exits, nobody is about to wake it. */
  ghost predicate CleanExit(s: State, step: Step)
    requires Enabled(s, step)
  {
    step.Exit? ==> forall w :: w in s.wakes ==> w.thread != s.cpus[step.cpu].current.value
  }

  /** The threads that exist after a step. */
  function Living(s: State, step: Step): set<nat>
    requires Enabled(s, step)
  {
    match step
    case Add(_, n, _) => s.threads.Keys + {n}
    case Exit(c) => s.threads.Keys - {s.cpus[c].current.value}
    case _ => s.threads.Keys
  }

  predicate Answers(step: Step, w: Wake) {
    (step.Deliver? || step.Unblock?) && w.thread == step.thread
  }

  lemma YieldWakes(s: State, c: nat)
    requires Enabled(s, Yield(c))
    ensures var s' := Apply(s, Yield(c)); s'.threads == s.threads && s'.wakes == s.wakes && s'.taken == s.taken
  {
  }

  lemma ExitWakes(s: State, c: nat)
    requires Enabled(s, Exit(c))
    ensures var s' := Apply(s, Exit(c)); s'.threads.Keys == s.threads.Keys - {s.cpus[c].current.value} && s'.wakes == s.wakes
  {
  }

  /** Most steps leave calls and messages alone. */
  lemma QuietWakes(s: State, step: Step)
    requires Enabled(s, step)
    requires step.Add? || step.Arrive? || step.Block? || step.Migrate?
    ensures var s' := Apply(s, step); s'.threads.Keys == Living(s, step) && s'.wakes == s.wakes
  {
  }

  lemma HandWakes(s: State, step: Step)
    requires Enabled(s, step) && (step.Unhook? || step.Release?)
    ensures var s' := Apply(s, step); s'.threads.Keys == s.threads.Keys && s'.wakes == s.wakes
  {
  }

  lemma CallWakes(s: State, step: Step)
    requires Enabled(s, step) && (step.Deliver? || step.Take? || step.Poke?)
    ensures var s' := Apply(s, step);
            && s'.threads.Keys == Living(s, step)
            && forall w :: w in s'.wakes || Answers(step, w) <==> w in s.wakes || w == Called(s, step) || Answers(step, w)
  {
  }

  lemma UnblockWakes(s: State, c: nat, n: nat)
    requires Enabled(s, Unblock(c, n))
    ensures var s' := Apply(s, Unblock(c, n));
            s'.threads == s.threads && forall w: Wake :: w.thread != n ==> (w in s'.wakes <==> w in s.wakes)
  {
  }

  /** The call that the step adds. */
  function Called(s: State, step: Step): Wake
    requires Enabled(s, step) && (step.Deliver? || step.Take? || step.Poke?)
  {
    Call(step.cpu, if step.Take? then Chain(s.chains, step.blocker)[0] else step.thread)
  }

  /** Which threads, calls and messages there are after a step. */
  lemma WakesOf(s: State, step: Step)
    requires Enabled(s, step)
    ensures var s' := Apply(s, step);
            && s'.threads.Keys == Living(s, step)
            && (forall w :: w in s'.wakes ==> w in s.wakes || (w.thread in s.threads && !step.Exit?) || Answers(step, w))
            && (forall w :: w in s.wakes ==> w in s'.wakes || Answers(step, w))
  {
    hide Apply;
    if step.Yield? {
      YieldWakes(s, step.cpu);
    } else if step.Exit? {
      ExitWakes(s, step.cpu);
    } else if step.Deliver? || step.Take? || step.Poke? {
      CallWakes(s, step);
    } else if step.Unblock? {
      UnblockWakes(s, step.cpu, step.thread);
    } else if step.Unhook? || step.Release? {
      HandWakes(s, step);
    } else {
      QuietWakes(s, step);
    }
  }

  /** A step that finds its thread leaves stray calls and messages as they are. */
  lemma StraysStay(s: State, loc: map<nat, Location>, step: Step, w: Wake)
    requires Inv(s, loc) && Enabled(s, step) && !Misdirected(s, step) && Stray(s, w)
    ensures Stray(Apply(s, step), w)
  {
    hide Inv;
    hide Apply;
    WakesOf(s, step);
    KnownWake(s, loc, w);
  }

  lemma FindsThread(s: State, step: Step)
    requires Enabled(s, step) && NoStray(s)
    ensures !Misdirected(s, step)
  {
    if step.Deliver? {
      assert !Stray(s, Message(step.cpu, step.thread));
    } else if step.Unblock? {
      assert !Stray(s, Call(step.cpu, step.thread));
    }
  }

  lemma NoStrayKept(s: State, step: Step)
    requires Enabled(s, step) && NoStray(s) && CleanExit(s, step)
    ensures !Misdirected(s, step) && NoStray(Apply(s, step))
  {
    hide Apply;
    WakesOf(s, step);
    FindsThread(s, step);
    var s' := Apply(s, step);
    forall w ensures !Stray(s', w) {
      assert !Stray(s, w);
    }
  }

  /** No stray calls and a clean exit: the same as a step that finds its thread and leaves no stray calls. */
  lemma StepStrays(s: State, loc: map<nat, Location>, step: Step)
    requires Inv(s, loc) && Enabled(s, step)
    ensures NoStray(s) && CleanExit(s, step) <==> !Misdirected(s, step) && NoStray(Apply(s, step))
  {
    hide Inv;
    hide Apply;
    var s' := Apply(s, step);
    if NoStray(s) && CleanExit(s, step) {
      NoStrayKept(s, step);
    } else if !Misdirected(s, step) {
      if w :| Stray(s, w) {
        StraysStay(s, loc, step, w);
      } else {
        ExitWakes(s, step.cpu);
        var w :| w in s.wakes && w.thread == s.cpus[step.cpu].current.value;
        assert Stray(s', w);
      }
    }
  }

  /** Whenever a thread exits in the run, nobody is about to wake it. */
  ghost predicate CleanExits(s: State, steps: seq<Step>)
    requires CanRun(s, steps)
    decreases |steps|
  {
    steps != [] ==> CleanExit(s, steps[0]) && CleanExits(Apply(s, steps[0]), steps[1..])
  }

  /** No assertion fails in the run. */
  ghost predicate AllHold(s: State, steps: seq<Step>)
    requires CanRun(s, steps)
    decreases |steps|
  {
    steps != [] ==> Asserts(s, steps[0]) && AllHold(Apply(s, steps[0]), steps[1..])
  }

  lemma {:induction false} RunStrays(s: State, loc: map<nat, Location>, steps: seq<Step>)
    requires Inv(s, loc) && CanRun(s, steps)
    ensures NoStray(s) && CleanExits(s, steps) <==> AllHold(s, steps) && NoStray(Run(s, steps))
    decreases |steps|
  {
    hide Inv;
    hide Apply;
    hide Asserts;
    hide NoStray;
    hide CleanExit;
    hide Misdirected;
    if steps != [] {
      var loc' := StepKeeps(s, loc, steps[0]);
      StepStrays(s, loc, steps[0]);
      RunStrays(Apply(s, steps[0]), loc', steps[1..]);
    }
  }

  /**
    Every thread that exits in a run does so while nobody is about to wake it, if and only if no assertion fails
    in the run and no call or message for a deleted thread is left at its end.
   */
  lemma CleanExitsDecide(init: State, steps: seq<Step>)
    requires Init(init) && CanRun(init, steps)
    ensures CleanExits(init, steps) <==> AllHold(init, steps) && NoStray(Run(init, steps))
  {
    hide Inv;
    InitInv(init);
    RunStrays(init, map[], steps);
  }

  predicate NoExit(steps: seq<Step>) {
    forall i :: 0 <= i < |steps| ==> !steps[i].Exit?
  }

  /** The run can go on with a step at which an assertion fails. */
  ghost predicate FailsAfter(s: State, steps: seq<Step>, step: Step) {
    CanRun(s, steps) && Enabled(Run(s, steps), step) && !Asserts(Run(s, steps), step)
  }

  /** A stray call or message makes an assertion fail as soon as its processor has finished what it is busy with. */
  lemma StrayIsUsed(s: State, loc: map<nat, Location>, w: Wake) returns (steps: seq<Step>)
    requires Inv(s, loc) && Stray(s, w)
    ensures Carries(steps, 2) && FailsAfter(s, steps, if w.Message? then Deliver(w.cpu, w.thread) else Unblock(w.cpu, w.thread))
    ensures w.cpu < |s.cpus| && |steps| <= Rank(s.cpus[w.cpu].busy)
    decreases if w.cpu < |s.cpus| then Rank(s.cpus[w.cpu].busy) else 0
  {
    hide Inv;
    KnownWake(s, loc, w);
    if s.cpus[w.cpu].busy == Free {
      steps := [];
    } else {
      NotHeld(s, loc, w.cpu, w.thread);
      var step := NextOf(s.cpus[w.cpu].busy, w.cpu);
      GetsOn(s, loc, w.cpu, w.thread);
      var loc' := StepKeeps(s, loc, step);
      var rest := StrayIsUsed(Apply(s, step), loc', w);
      Prepended(s, step, rest, if w.Message? then Deliver(w.cpu, w.thread) else Unblock(w.cpu, w.thread));
      steps := [step] + rest;
    }
  }

  lemma NotHeld(s: State, loc: map<nat, Location>, c: nat, n: nat)
    requires Inv(s, loc) && c < |s.cpus| && n !in s.threads
    ensures !At(s.cpus[c], InHand, n)
  {
    hide Inv;
    Residents(s, loc, c);
  }

  lemma Prepended(s: State, step: Step, rest: seq<Step>, last: Step)
    requires Enabled(s, step) && FailsAfter(Apply(s, step), rest, last)
    ensures FailsAfter(s, [step] + rest, last)
  {
    hide Apply;
    hide Enabled;
    hide Asserts;
    assert ([step] + rest)[1..] == rest;
  }

  /** Before another thread exits, an assertion can fail after an exit if and only if somebody was about to wake the thread. */
  lemma ExitIsSafeIff(s: State, loc: map<nat, Location>, c: nat)
    requires Inv(s, loc) && NoStray(s) && Enabled(s, Exit(c))
    ensures (exists steps, step :: NoExit(steps) && FailsAfter(Apply(s, Exit(c)), steps, step))
            <==> exists w :: w in s.wakes && w.thread == s.cpus[c].current.value
  {
    hide Inv;
    hide Apply;
    hide Asserts;
    var s' := Apply(s, Exit(c));
    var loc' := ExitKeeps(s, loc, c);
    ExitWakes(s, c);
    if w :| w in s.wakes && w.thread == s.cpus[c].current.value {
      var steps := StrayIsUsed(s', loc', w);
      assert NoExit(steps) && FailsAfter(s', steps, if w.Message? then Deliver(w.cpu, w.thread) else Unblock(w.cpu, w.thread));
    } else {
      NoStrayKept(s, Exit(c));
      forall steps, step | NoExit(steps) && FailsAfter(s', steps, step) ensures false {
        NothingFails(s', loc', steps, step);
      }
    }
  }

  lemma NothingFails(s: State, loc: map<nat, Location>, steps: seq<Step>, step: Step)
    requires Inv(s, loc) && NoStray(s) && NoExit(steps)
    ensures !FailsAfter(s, steps, step)
  {
    hide Inv;
    hide Asserts;
    hide CanRun;
    hide Run;
    if CanRun(s, steps) && Enabled(Run(s, steps), step) {
      NoExitIsClean(s, steps);
      RunStrays(s, loc, steps);
      var loc' := RunKeeps(s, loc, steps);
      var loc'' := StepKeeps(Run(s, steps), loc', step);
      FindsThread(Run(s, steps), step);
    }
  }

  lemma {:induction false} NoExitIsClean(s: State, steps: seq<Step>)
    requires CanRun(s, steps) && NoExit(steps)
    ensures CleanExits(s, steps)
    decreases |steps|
  {
    hide Apply;
    if steps != [] {
      NoExitIsClean(Apply(s, steps[0]), steps[1..]);
    }
  }

  const IDLE := Cpu(None, [], {}, 0, Free)

  /** Two processors of which the second has nothing to do, and thread 0. */
  function Scene(cpu: Cpu, t: Thread, chains: map<nat, seq<nat>>, wakes: multiset<Wake>, taken: set<nat>): State {
    State([cpu, IDLE], map[0 := t], chains, multiset{}, wakes, taken, {})
  }

  lemma SameState(s: State, s': State)
    requires |s.cpus| == 2 == |s'.cpus| && s.cpus[1] == s'.cpus[1]
    requires var c, c' := s.cpus[0], s'.cpus[0];
             && c.current == c'.current && c.runList == c'.runList && c.blockList == c'.blockList
             && c.count == c'.count && c.busy == c'.busy
    requires s.threads == s'.threads && s.chains == s'.chains && s.arrivals == s'.arrivals
    requires s.wakes == s'.wakes && s.taken == s'.taken && s.gone == s'.gone
    ensures s == s'
  {
    assert s.cpus == s'.cpus;
  }

  /**
    Thread 0 is created, runs and waits on blocker 7.  Processor 1 takes it off the chain and sends a message, but a
    timeout on processor 0 comes first, and the thread runs again.
   */
  function Story(i: nat): State {
    match i
    case 0 => State([IDLE, IDLE], map[], map[], multiset{}, multiset{}, {}, {})
    case 1 => Scene(Cpu(None, [0], {}, 1, Free), Thread(0, false, None), map[], multiset{}, {})
    case 2 => Scene(Cpu(Some(0), [], {}, 1, Free), Thread(0, false, None), map[], multiset{}, {})
    case 3 => Scene(Cpu(Some(0), [], {}, 1, Blocking), Thread(0, true, Some(7)), map[7 := [0]], multiset{}, {})
    case 4 => Scene(Cpu(None, [], {0}, 1, Free), Thread(0, true, Some(7)), map[7 := [0]], multiset{}, {})
    case 5 => Scene(Cpu(None, [], {0}, 1, Free), Thread(0, true, None), map[7 := []], multiset{Call(1, 0)}, {0})
    case 6 => Scene(Cpu(None, [], {0}, 1, Free), Thread(0, true, None), map[7 := []], multiset{Message(0, 0)}, {0})
    case 7 => Scene(Cpu(None, [], {0}, 1, Free), Thread(0, true, None), map[7 := []], multiset{Message(0, 0), Call(0, 0)}, {0})
    case 8 => Scene(Cpu(None, [], {}, 1, Unhooking(0, None, None)), Thread(0, true, None), map[7 := []], multiset{Message(0, 0)}, {0})
    case 9 => Scene(Cpu(None, [], {}, 1, Ready(0, None)), Thread(0, true, None), map[7 := []], multiset{Message(0, 0)}, {0})
    case 10 => Scene(Cpu(None, [0], {}, 1, Free), Thread(0, false, None), map[7 := []], multiset{Message(0, 0)}, {})
    case _ => Scene(Cpu(Some(0), [], {}, 1, Free), Thread(0, false, None), map[7 := []], multiset{Message(0, 0)}, {})
  }

  const STORY := [Add(0, 0, 0), Yield(0), Block(0, Some(7)), Yield(0), Take(1, 7), Unblock(1, 0), Poke(0, 0),
                  Unblock(0, 0), Unhook(0), Release(0), Yield(0), Exit(0)]

  lemma Story0()
    ensures Enabled(Story(0), Add(0, 0, 0)) && Apply(Story(0), Add(0, 0, 0)) == Story(1)
  {
    SameState(Apply(Story(0), Add(0, 0, 0)), Story(1));
  }

  lemma Story1()
    ensures Enabled(Story(1), Yield(0)) && Apply(Story(1), Yield(0)) == Story(2)
  {
    SameState(Apply(Story(1), Yield(0)), Story(2));
  }

  lemma Story2()
    ensures Enabled(Story(2), Block(0, Some(7))) && Apply(Story(2), Block(0, Some(7))) == Story(3)
  {
    assert [0] + Chain(map[], 7) == [0];
    SameState(Apply(Story(2), Block(0, Some(7))), Story(3));
  }

  lemma Story3()
    ensures Enabled(Story(3), Yield(0)) && Apply(Story(3), Yield(0)) == Story(4)
  {
    SameState(Apply(Story(3), Yield(0)), Story(4));
  }

  lemma Story4()
    ensures Enabled(Story(4), Take(1, 7)) && Apply(Story(4), Take(1, 7)) == Story(5)
  {
    SameState(Apply(Story(4), Take(1, 7)), Story(5));
  }

  lemma Story5()
    ensures Enabled(Story(5), Unblock(1, 0)) && Apply(Story(5), Unblock(1, 0)) == Story(6)
  {
    SameState(Apply(Story(5), Unblock(1, 0)), Story(6));
  }

  lemma Story6()
    ensures Enabled(Story(6), Poke(0, 0)) && Apply(Story(6), Poke(0, 0)) == Story(7)
  {
    SameState(Apply(Story(6), Poke(0, 0)), Story(7));
  }

  lemma Story7()
    ensures Enabled(Story(7), Unblock(0, 0)) && Apply(Story(7), Unblock(0, 0)) == Story(8)
  {
    SameState(Apply(Story(7), Unblock(0, 0)), Story(8));
  }

  lemma Story8()
    ensures Enabled(Story(8), Unhook(0)) && Apply(Story(8), Unhook(0)) == Story(9)
  {
    SameState(Apply(Story(8), Unhook(0)), Story(9));
  }

  lemma Story9()
    ensures Enabled(Story(9), Release(0)) && Apply(Story(9), Release(0)) == Story(10)
  {
    SameState(Apply(Story(9), Release(0)), Story(10));
  }

  lemma Story10()
    ensures Enabled(Story(10), Yield(0)) && Apply(Story(10), Yield(0)) == Story(11)
  {
    SameState(Apply(Story(10), Yield(0)), Story(11));
  }

  /** The rest of the story, from scene i on, ends with a message that finds its thread deleted. */
  lemma {:induction false} StoryFrom(i: nat)
    requires i <= 11
    ensures FailsAfter(Story(i), STORY[i..], Deliver(0, 0))
    decreases 11 - i
  {
    hide FailsAfter;
    hide Apply;
    hide Enabled;
    if i == 11 {
      StoryEnds();
    } else {
      StoryStep(i);
      StoryFrom(i + 1);
      Prepended(Story(i), STORY[i], STORY[i + 1..], Deliver(0, 0));
      assert [STORY[i]] + STORY[i + 1..] == STORY[i..];
    }
  }

  lemma StoryStep(i: nat)
    requires i < 11
    ensures Enabled(Story(i), STORY[i]) && Apply(Story(i), STORY[i]) == Story(i + 1)
  {
    hide Apply;
    hide Enabled;
    match i {
      case 0 => Story0();
      case 1 => Story1();
      case 2 => Story2();
      case 3 => Story3();
      case 4 => Story4();
      case 5 => Story5();
      case 6 => Story6();
      case 7 => Story7();
      case 8 => Story8();
      case 9 => Story9();
      case _ => Story10();
    }
  }

  lemma StoryEnds()
    ensures FailsAfter(Story(11), STORY[11..], Deliver(0, 0))
  {
    ExitWakes(Story(11), 0);
    assert STORY[11..] == [Exit(0)];
    assert FailsAfter(Apply(Story(11), Exit(0)), [], Deliver(0, 0));
    Prepended(Story(11), Exit(0), [], Deliver(0, 0));
    assert [Exit(0)] + [] == [Exit(0)];
  }

  /** It happens: a message can find its thread deleted. */
  lemma MessageToDeletedThread()
    ensures Init(Story(0)) && FailsAfter(Story(0), STORY, Deliver(0, 0))
  {
    hide FailsAfter;
    StoryFrom(0);
    assert STORY[0..] == STORY;
  }
}

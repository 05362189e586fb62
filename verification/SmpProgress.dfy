/**
  What the owner of a message queue and its senders get done: a drain handles everything that was pushed before it,
  it ends, and a sender with a free slot pushes its message.
 */
module SmpProgress {
  import opened SmpMessages

  // ---------------------------------------------------------------- how the lists change

  /** What a step of the owner does to its lists, and any other step to the owner's. */
  ghost predicate Follows(s: State, a: Lists, step: Step, s': State, a': Lists) {
    if !step.Receiver? then
      a'.done == a.done && a'.rest == a.rest && |a'.pending| + |s.pushed| == |a.pending| + |s'.pushed|
    else match s.receiver
      case Resting => true
      case Entered => a' == a.(place := a'.place, pending := [], rest := a.pending)
      case Reversing(_, To(_)) => a.rest != [] && a' == a.(done := [a.rest[0]] + a.done, rest := a.rest[1..])
      case Reversing(_, Null) => a.rest == [] && a' == a.(done := [], rest := a.done)
      case Handling(_, To(_), _) => a.rest != [] && a' == a.(done := a.done + [a.rest[0]], rest := a.rest[1..])
      case Handling(_, Null, _) => a.rest == [] && a' == a
      case GivingBack(_, last) =>
        if last < |s.next| && s.free == s.next[last] then a' == a.(place := a'.place, done := [], free := a.done + a.free)
        else a' == a
  }

  lemma ReceiverFollows(s: State, a: Lists) returns (a': Lists)
    requires Inv(s, a) && Enabled(s, Step.Receiver)
    ensures Inv(Apply(s, Step.Receiver), a') && Follows(s, a, Step.Receiver, Apply(s, Step.Receiver), a')
  {
    hide Inv;
    hide ReceiverStep;
    match s.receiver
    case Entered => a' := ExchangePending(s, a);
    case Reversing(_, To(_)) => a' := ReverseOne(s, a);
    case Reversing(_, Null) => a' := StartHandling(s, a);
    case Handling(_, To(_), _) => a' := HandleOne(s, a);
    case Handling(_, Null, _) => a' := a; StartGivingBack(s, a); NothingToHandle(s, a);
    case GivingBack(_, last) =>
      if s.free == s.next[last] {
        a' := GivenBack(s, a);
      } else {
        a' := a;
        GiveBackRetry(s, a);
      }
  }

  lemma NothingToHandle(s: State, a: Lists)
    requires Inv(s, a) && s.receiver.Handling? && s.receiver.message.Null?
    ensures a.rest == []
  {
  }

  lemma PushedBySender(s: State, id: nat)
    requires Enabled(s, Step.Sender(id))
    ensures Apply(s, Step.Sender(id)).pushed
         == s.pushed + if s.senders[id].Pushing? && s.pending == s.senders[id].seen then [s.senders[id].m] else []
  {
  }

  lemma SenderFollows(s: State, a: Lists, id: nat) returns (a': Lists)
    requires Inv(s, a) && Enabled(s, Step.Sender(id))
    ensures Inv(Apply(s, Step.Sender(id)), a') && Follows(s, a, Step.Sender(id), Apply(s, Step.Sender(id)), a')
  {
    hide Inv;
    hide SenderStep;
    PushedBySender(s, id);
    a' := a;
    if Quiet(s, id) {
      SenderQuietStep(s, a, id);
    } else {
      match s.senders[id]
      case WantSlot(_, _) => a' := ExchangeFree(s, a, id);
      case GotList(_, _, _) => a' := ReturnRest(s, a, id);
      case Returning(_, _, _, _, _) => a' := ReturnRest(s, a, id);
      case Pushing(_, _, _, _) => a' := PushPending(s, a, id);
      case OwesIpi => SenderSignals(s, a, id);
      case Broadcasting(_) => SenderSignals(s, a, id);
    }
  }

  lemma StepFollows(s: State, a: Lists, step: Step) returns (a': Lists)
    requires Inv(s, a) && Enabled(s, step)
    ensures Inv(Apply(s, step), a') && Follows(s, a, step, Apply(s, step), a')
  {
    hide Inv;
    hide SenderStep;
    hide ReceiverStep;
    a' := a;
    match step
    case Start(id, m, mode) => StartInv(s, a, id, WantSlot(m, mode));
    case Sender(id) => a' := SenderFollows(s, a, id);
    case OtherTarget(id, wasFirst) => StartInv(s, a, id, Broadcasting(s.senders[id].needsIpi || wasFirst));
    case TakeIpi => WakeInv(s, a, Apply(s, step));
    case PauseDrain => WakeInv(s, a, Apply(s, step));
    case Receiver => a' := ReceiverFollows(s, a);
    case ForeignIpi => ForeignIpiInv(s, a);
  }

  // ---------------------------------------------------------------- a drain handles everything that was pushed before it

  /** How many messages have been handled or will be before the owner rests. */
  ghost function Assured(s: State, a: Lists): nat {
    match s.receiver
    case Entered => |s.pushed|
    case Reversing(_, _) => |s.handled| + |a.done| + |a.rest|
    case Handling(_, _, _) => |s.handled| + |a.rest|
    case _ => |s.handled|
  }

  lemma WaitingCount(s: State, a: Lists)
    requires Inv(s, a)
    ensures s.handled <= s.pushed && |s.pushed| == |s.handled| + |Waiting(s, a)|
    ensures s.pending == (if a.pending == [] then Null else To(a.pending[0]))
  {
    hide Partition;
    hide SendersOk;
    hide ReceiverOk;
    ChainFacts(s.next, s.pending, a.pending, Null);
  }

  /** Which messages a step handles, by number. */
  lemma HandledByStep(s: State, step: Step)
    requires Enabled(s, step)
    ensures s.handled <= Apply(s, step).handled && s.pushed <= Apply(s, step).pushed
    ensures |Apply(s, step).handled|
         == |s.handled| + if step.Receiver? && s.receiver.Handling? && s.receiver.message.To? then 1 else 0
  {
  }

  lemma NextPhase(s: State, step: Step)
    requires Enabled(s, step)
    ensures var r := Apply(s, step).receiver;
            if !step.Receiver? then r == s.receiver || (s.receiver.Resting? && r == Entered)
            else match s.receiver
              case Resting => true
              case Entered => if s.pending.Null? then r == Resting else r.Reversing?
              case Reversing(_, To(_)) => r.Reversing?
              case Reversing(_, Null) => r.Handling?
              case Handling(_, To(_), _) => r.Handling?
              case Handling(_, Null, _) => r.GivingBack?
              case GivingBack(_, _) => r.GivingBack? || r.Resting?
  {
  }

  lemma AssuredKept(s: State, a: Lists, step: Step, a': Lists)
    requires Inv(s, a) && Enabled(s, step) && Inv(Apply(s, step), a') && Follows(s, a, step, Apply(s, step), a')
    ensures Assured(s, a) <= Assured(Apply(s, step), a')
  {
    hide Inv;
    hide Apply;
    WaitingCount(s, a);
    WaitingCount(Apply(s, step), a');
    HandledByStep(s, step);
    NextPhase(s, step);
  }

  lemma {:induction false} RunAssures(s: State, a: Lists, steps: seq<Step>) returns (a': Lists)
    requires Inv(s, a) && CanRun(s, steps)
    ensures Inv(Run(s, steps), a') && Assured(s, a) <= Assured(Run(s, steps), a') && s.pushed <= Run(s, steps).pushed
    decreases |steps|
  {
    hide Inv;
    hide Apply;
    hide Assured;
    a' := a;
    if steps != [] {
      var a1 := StepFollows(s, a, steps[0]);
      AssuredKept(s, a, steps[0], a1);
      HandledByStep(s, steps[0]);
      a' := RunAssures(Apply(s, steps[0]), a1, steps[1..]);
    }
  }

  /** In every run, once the owner rests after it looked, everything that had been pushed when it looked is handled. */
  lemma DrainHandlesAll(s: State, steps: seq<Step>)
    requires Reachable(s) && s.receiver.Entered? && CanRun(s, steps) && Run(s, steps).receiver.Resting?
    ensures s.pushed <= Run(s, steps).handled
  {
    hide Inv;
    hide Run;
    hide CanRun;
    var a := ReachableInv(s);
    var a' := RunAssures(s, a, steps);
    WaitingCount(Run(s, steps), a');
  }

  // ---------------------------------------------------------------- a drain ends

  /** How many steps of its own the owner takes at most before it rests, when the free list is left alone. */
  ghost function Left(s: State, a: Lists): nat {
    match s.receiver
    case Resting => 0
    case Entered => 2 * |s.next| + 5
    case Reversing(_, _) => 2 * |a.rest| + |a.done| + 4
    case Handling(_, _, _) => |a.rest| + 3
    case GivingBack(_, last) => if last < |s.next| && s.free == s.next[last] then 1 else 2
  }

  /** The owner has relinked its last slot to the free list. */
  lemma Relinked(s: State)
    requires Enabled(s, Step.Receiver)
    ensures var s' := Apply(s, Step.Receiver);
            s'.receiver.GivingBack? ==> s'.receiver.last < |s'.next| && s'.free == s'.next[s'.receiver.last]
    ensures s.receiver.GivingBack? && s.free == s.next[s.receiver.last] ==> Apply(s, Step.Receiver).receiver.Resting?
  {
  }

  lemma PendingBound(s: State, a: Lists)
    requires Inv(s, a)
    ensures |a.pending| <= |s.next|
  {
    OwnedBound(a.place, a.pending, Pending);
  }

  lemma OwnStep(s: State, a: Lists, a': Lists)
    requires Inv(s, a) && Enabled(s, Step.Receiver) && Follows(s, a, Step.Receiver, Apply(s, Step.Receiver), a')
    ensures Left(Apply(s, Step.Receiver), a') < Left(s, a)
  {
    hide Inv;
    hide Apply;
    PendingBound(s, a);
    NextPhase(s, Step.Receiver);
    Relinked(s);
    NoLists(s, a);
  }

  /** A new drain starts with nothing at the owner. */
  lemma NoLists(s: State, a: Lists)
    requires Inv(s, a)
    ensures s.receiver.Entered? || s.receiver.Resting? ==> a.done == [] && a.rest == []
    ensures s.receiver.GivingBack? ==>
              s.receiver.last < |s.next| && s.receiver.last < |a.place| && a.place[s.receiver.last] == Received
  {
    if s.receiver.GivingBack? {
      assert a.done + a.rest == a.done;
    }
  }

  /** Senders write to their own slots. */
  lemma SenderLeavesReceived(s: State, a: Lists, id: nat, x: nat)
    requires Inv(s, a) && Enabled(s, Step.Sender(id)) && x < |a.place| && a.place[x] == Received && x < |s.next|
    ensures x < |SenderStep(s, id).next| && SenderStep(s, id).next[x] == s.next[x]
  {
    hide QueuesOk;
    hide ReceiverOk;
    hide InOrder;
    if Quiet(s, id) {
      hide SenderStep;
      hide Owned;
      hide SenderOk;
      SenderKept(s, a.place, a.held[id], id);
    }
  }

  lemma OtherStep(s: State, a: Lists, step: Step, a': Lists)
    requires Inv(s, a) && Enabled(s, step) && !step.Receiver? && Follows(s, a, step, Apply(s, step), a')
    requires !s.receiver.Resting? && Apply(s, step).free == s.free
    ensures Left(Apply(s, step), a') <= Left(s, a) && |Apply(s, step).next| == |s.next|
  {
    hide Inv;
    hide SenderStep;
    hide ReceiverStep;
    NoLists(s, a);
    NextPhase(s, step);
    SameSlots(s, step);
    if step.Sender? && s.receiver.GivingBack? {
      SenderLeavesReceived(s, a, step.id, s.receiver.last);
    }
  }

  lemma SameSlots(s: State, step: Step)
    requires Enabled(s, step)
    ensures |Apply(s, step).next| == |s.next|
  {
  }

  /** The number of steps that the owner takes itself. */
  function Own(steps: seq<Step>): nat {
    if steps == [] then 0 else (if steps[0].Receiver? then 1 else 0) + Own(steps[1..])
  }

  /** The owner is at work all the time, and nobody else changes the free list. */
  ghost predicate Undisturbed(s: State, steps: seq<Step>)
    requires CanRun(s, steps)
    decreases |steps|
  {
    && !s.receiver.Resting?
    && (steps != [] ==>
          (steps[0].Receiver? || Apply(s, steps[0]).free == s.free) && Undisturbed(Apply(s, steps[0]), steps[1..]))
  }

  lemma {:induction false} WorkIsBounded(s: State, a: Lists, steps: seq<Step>)
    requires Inv(s, a) && CanRun(s, steps) && Undisturbed(s, steps)
    ensures Own(steps) < Left(s, a)
    decreases |steps|
  {
    hide Inv;
    hide Apply;
    if steps == [] {
      hide Left;
      AtWork(s, a);
    } else {
      hide Left;
      var a' := StepFollows(s, a, steps[0]);
      if steps[0].Receiver? {
        OwnStep(s, a, a');
      } else {
        OtherStep(s, a, steps[0], a');
      }
      WorkIsBounded(Apply(s, steps[0]), a', steps[1..]);
    }
  }

  lemma AtWork(s: State, a: Lists)
    requires !s.receiver.Resting?
    ensures 0 < Left(s, a)
  {
  }

  lemma LeftBound(s: State, a: Lists)
    requires Inv(s, a)
    ensures Left(s, a) <= 2 * |s.next| + 5
  {
    OwnedBound(a.place, a.done + a.rest, Received);
  }

  /**
    Whatever the senders do meanwhile, as long as they leave the free list alone, the owner rests after a number of its
    own steps that the number of slots bounds.
   */
  lemma DrainEnds(s: State, steps: seq<Step>)
    requires Reachable(s) && CanRun(s, steps) && Undisturbed(s, steps)
    ensures Own(steps) < 2 * |s.next| + 5
  {
    hide Inv;
    var a := ReachableInv(s);
    WorkIsBounded(s, a, steps);
    LeftBound(s, a);
  }

  /** A run of the owner alone. */
  function Alone(k: nat): seq<Step> {
    if k == 0 then [] else [Step.Receiver] + Alone(k - 1)
  }

  lemma OwnStepKeeps(s: State, a: Lists, a': Lists)
    requires Enabled(s, Step.Receiver) && Follows(s, a, Step.Receiver, Apply(s, Step.Receiver), a')
    ensures var s' := Apply(s, Step.Receiver);
            && s'.pushed == s.pushed && s'.senders == s.senders && |s'.next| == |s.next| && !s'.receiver.Entered?
            && a'.held == a.held && a'.pending == if s.receiver.Entered? then [] else a.pending
  {
  }

  lemma OwnerCan(s: State, a: Lists)
    requires Inv(s, a) && !s.receiver.Resting?
    ensures Enabled(s, Step.Receiver)
  {
    hide Partition;
    hide SendersOk;
    hide QueuesOk;
    hide InOrder;
    if s.receiver.Reversing? {
      ChainFacts(s.next, s.receiver.message, a.rest, Null);
    }
    ReceiverSlots(s, a);
  }

  /** The slots at the owner are slots. */
  lemma ReceiverSlots(s: State, a: Lists)
    requires Inv(s, a)
    ensures forall i :: 0 <= i < |a.done| ==> a.done[i] < |s.next| && a.done[i] < |s.body|
    ensures forall i :: 0 <= i < |a.rest| ==> a.rest[i] < |s.next| && a.rest[i] < |s.body|
  {
    hide Chain;
    ReceivedPlaces(s, a);
  }

  lemma {:induction false} OwnerGoesOn(s: State, a: Lists) returns (k: nat, a': Lists)
    requires Inv(s, a)
    ensures k <= Left(s, a) && CanRun(s, Alone(k))
    ensures var s' := Run(s, Alone(k));
            && s'.receiver.Resting? && s'.pushed == s.pushed && s'.senders == s.senders && |s'.next| == |s.next| && Inv(s', a')
            && a'.held == a.held && a'.pending == if s.receiver.Entered? then [] else a.pending
    decreases Left(s, a)
  {
    hide Inv;
    hide Apply;
    hide Enabled;
    hide Left;
    hide Follows;
    k, a' := 0, a;
    if !s.receiver.Resting? {
      OwnerCan(s, a);
      var s1 := Apply(s, Step.Receiver);
      var a1 := StepFollows(s, a, Step.Receiver);
      OwnStep(s, a, a1);
      OwnStepKeeps(s, a, a1);
      k, a' := OwnerGoesOn(s1, a1);
      assert Alone(k + 1)[1..] == Alone(k);
      k := k + 1;
    }
  }

  /**
    An owner that looks at its queue and is left alone rests within a bounded number of steps: everything that was pushed
    is handled, nothing is pending, and every slot that no sender holds is on the free list, once.
   */
  lemma OwnerRests(s: State) returns (k: nat, a: Lists)
    requires Reachable(s) && s.receiver.Entered?
    ensures k <= 2 * |s.next| + 5 && CanRun(s, Alone(k)) && Inv(s, a)
    ensures var s' := Run(s, Alone(k));
            && s'.receiver.Resting? && s'.handled == s.pushed == s'.pushed && s'.pending == Null && s'.senders == s.senders
            && forall x :: 0 <= x < |a.place| ==>
                 multiset(Walk(s'.next, s'.free, |s'.next|))[x] == if a.place[x].Held? then 0 else 1
  {
    hide Inv;
    hide Run;
    hide CanRun;
    a := ReachableInv(s);
    var a';
    k, a' := OwnerGoesOn(s, a);
    LeftBound(s, a);
    var s' := Run(s, Alone(k));
    DrainHandlesAll(s, Alone(k));
    WaitingCount(s', a');
    FreeSlots(s, a, s', a');
  }

  lemma FreeSlots(s: State, a: Lists, s': State, a': Lists)
    requires Inv(s, a) && Inv(s', a') && |s'.next| == |s.next| && a'.held == a.held && a'.pending == [] && s'.receiver.Resting?
    requires s'.senders == s.senders
    ensures forall x :: 0 <= x < |a.place| ==>
              multiset(Walk(s'.next, s'.free, |s'.next|))[x] == if a.place[x].Held? then 0 else 1
  {
    hide Owned;
    hide Chain;
    hide SenderOk;
    hide InOrder;
    OwnedBound(a'.place, a'.free, Free);
    ChainIsWalk(s'.next, s'.free, a'.free, |s'.next|);
    forall x | 0 <= x < |a.place| ensures multiset(a'.free)[x] == if a.place[x].Held? then 0 else 1 {
      OwnedCount(a'.place, a'.free, Free, x);
      WhoHolds(s, a, s', a', x);
    }
  }

  lemma WhoHolds(s: State, a: Lists, s': State, a': Lists, x: nat)
    requires Inv(s, a) && Inv(s', a') && |s'.next| == |s.next| && a'.held == a.held && a'.pending == [] && s'.receiver.Resting?
    requires x < |a.place| && s'.senders == s.senders
    ensures x < |a'.place| && (a'.place[x] == Free <==> !a.place[x].Held?)
  {
    hide Chain;
    hide SenderOk;
    hide InOrder;
    hide QueuesOk;
    assert a'.done + a'.rest == [];
    if a.place[x].Held? {
      assert x in a.held[a.place[x].id];
      assert Owned(a'.place, a'.held[a.place[x].id], a.place[x]);
    }
    if a'.place[x].Held? {
      assert x in a'.held[a'.place[x].id];
      assert Owned(a.place, a.held[a'.place[x].id], a'.place[x]);
    }
  }

  // ---------------------------------------------------------------- a sender with a free slot pushes its message

  predicate HasMessage(p: Sender) {
    !p.Idle? && !p.OwesIpi? && !p.Broadcasting?
  }

  /** A run of one sender alone. */
  function By(id: nat, k: nat): seq<Step> {
    if k == 0 then [] else [Step.Sender(id)] + By(id, k - 1)
  }

  /** How many steps of its own a sender takes before its message is pushed; a walking one stands at slot i of its list. */
  ghost function ToPush(s: State, a: Lists, id: nat, i: nat): nat
    requires Ready(s, a, id, i)
  {
    match s.senders[id]
    case GotList(_, _, x) => if x >= |s.next| || s.next[x].Null? || s.free.Null? then 4 else |a.held[id]| + 4
    case Walking(_, _, _, _, _) => 4 + |a.held[id]| - i
    case Returning(_, _, _, _, last) => if last < |s.next| && s.free == s.next[last] then 4 else 5
    case HasSlot(_, _, _) => 3
    case Loading(_, _, _) => 2
    case Pushing(_, _, _, seen) => if s.pending == seen then 1 else 2
    case WantSlot(_, _) => 5
  }

  ghost predicate Ready(s: State, a: Lists, id: nat, i: nat) {
    && id < |s.senders| && id < |a.held| && HasMessage(s.senders[id])
    && (s.senders[id].WantSlot? ==> s.free.To?)
    && (s.senders[id].Walking? ==> 1 <= i < |a.held[id]| && a.held[id][i] == s.senders[id].last)
  }

  /** Where a walking sender gets to. */
  lemma WalkedTo(s: State, a: Lists, id: nat, i: nat)
    requires Inv(s, a) && Ready(s, a, id, i) && s.senders[id].Walking?
    ensures var last := s.senders[id].last;
            last < |s.next| && s.next[last] == if i + 1 < |a.held[id]| then To(a.held[id][i + 1]) else Null
  {
    hide Owned;
    hide QueuesOk;
    hide ReceiverOk;
    hide InOrder;
    var l := a.held[id];
    assert SenderOk(s.senders[id], l, s.next, s.body);
    assert l[1..][i - 1] == l[i];
    assert Link(s.next, l[1..], Null, i - 1);
  }

  lemma WalkStarts(s: State, a: Lists, id: nat)
    requires Inv(s, a) && id < |s.senders| && id < |a.held| && s.senders[id].GotList?
    ensures var x := s.senders[id].storage;
            x < |s.next| && s.next[x] == if 1 < |a.held[id]| then To(a.held[id][1]) else Null
  {
    hide Owned;
    hide QueuesOk;
    hide ReceiverOk;
    hide InOrder;
    var l := a.held[id];
    assert SenderOk(s.senders[id], l, s.next, s.body);
    assert Link(s.next, l, Null, 0);
  }

  /** One step of a sender that has a message: it pushes it, or is nearer to that. */
  lemma Nearer(s: State, a: Lists, id: nat, i: nat, a': Lists) returns (j: nat)
    requires Inv(s, a) && Ready(s, a, id, i) && Enabled(s, Step.Sender(id)) && |a'.held| == |s.senders|
    requires Quiet(s, id) ==> a' == a
    ensures var s' := SenderStep(s, id); var p := s.senders[id];
            && s'.handled == s.handled && s'.receiver == s.receiver && |s'.next| == |s.next|
            && (if p.Pushing? && s.pending == p.seen then
                  s'.pushed == s.pushed + [p.m] && s'.senders[id] == AfterPush(p.mode, p.seen.Null?)
                else && s'.pushed == s.pushed && s'.pending == s.pending && Ready(s', a', id, j)
                     && s'.senders[id].m == p.m && s'.senders[id].mode == p.mode && ToPush(s', a', id, j) < ToPush(s, a, id, i))
  {
    hide Inv;
    j := 0;
    match s.senders[id]
    case GotList(_, _, _) => j := 1; WalkStarts(s, a, id);
    case Walking(_, _, _, _, _) => j := i + 1; WalkedTo(s, a, id, i);
    case _ =>
  }

  lemma SenderFollowsQuietly(s: State, a: Lists, id: nat) returns (a': Lists)
    requires Inv(s, a) && Enabled(s, Step.Sender(id))
    ensures Inv(SenderStep(s, id), a') && |a'.held| == |s.senders| && (Quiet(s, id) ==> a' == a)
  {
    hide SenderStep;
    if Quiet(s, id) {
      SenderQuietStep(s, a, id);
      a' := a;
    } else {
      a' := SenderFollows(s, a, id);
      SameSenders(s, id);
    }
  }

  lemma SameSenders(s: State, id: nat)
    requires Enabled(s, Step.Sender(id))
    ensures |SenderStep(s, id).senders| == |s.senders|
  {
  }

  lemma SenderCan(s: State, a: Lists, id: nat)
    requires Inv(s, a) && id < |s.senders| && !s.senders[id].Idle?
    ensures Enabled(s, Step.Sender(id))
  {
    SenderEnabled(s, a, id);
  }

  lemma {:induction false} SenderGoesOn(s: State, a: Lists, id: nat, i: nat) returns (k: nat)
    requires Inv(s, a) && Ready(s, a, id, i)
    ensures k <= ToPush(s, a, id, i) && CanRun(s, By(id, k))
    ensures var s' := Run(s, By(id, k)); var p := s.senders[id];
            && s'.pushed == s.pushed + [p.m] && s'.handled == s.handled && s'.receiver == s.receiver
            && id < |s'.senders| && s'.senders[id] == AfterPush(p.mode, s.pending.Null?)
    decreases ToPush(s, a, id, i)
  {
    hide Inv;
    hide SenderStep;
    hide ToPush;
    SenderCan(s, a, id);
    var a' := SenderFollowsQuietly(s, a, id);
    var j := Nearer(s, a, id, i, a');
    SameSenders(s, id);
    var s1 := Apply(s, Step.Sender(id));
    if s.senders[id].Pushing? && s.pending == s.senders[id].seen {
      k := 1;
      assert By(id, 1) == [Step.Sender(id)];
      Positive(s, a, id, i);
      OneStep(s, Step.Sender(id));
    } else {
      k := SenderGoesOn(s1, a', id, j);
      assert By(id, k + 1)[1..] == By(id, k);
      k := k + 1;
    }
  }

  lemma Positive(s: State, a: Lists, id: nat, i: nat)
    requires Ready(s, a, id, i)
    ensures 1 <= ToPush(s, a, id, i)
  {
  }

  lemma OneStep(s: State, step: Step)
    requires Enabled(s, step)
    ensures CanRun(s, [step]) && Run(s, [step]) == Apply(s, step)
  {
    hide Apply;
    hide Enabled;
    assert [step][1..] == [];
  }

  /**
    A sender that has a message and, if it still waits for a slot, finds one on the free list pushes that message within
    a bounded number of steps when it is left alone. It then owes the interrupt exactly if the queue was empty.
   */
  lemma SenderPushes(s: State, id: nat) returns (k: nat)
    requires Reachable(s) && id < |s.senders| && HasMessage(s.senders[id])
    requires s.senders[id].WantSlot? ==> s.free.To?
    ensures k <= |s.next| + 4 && CanRun(s, By(id, k))
    ensures var s' := Run(s, By(id, k)); var p := s.senders[id];
            && s'.pushed == s.pushed + [p.m] && s'.handled == s.handled && s'.receiver == s.receiver && id < |s'.senders|
            && match p.mode
               case Unicast => s'.senders[id] == if s.pending.Null? then OwesIpi else Idle
               case Broadcast(needs) => s'.senders[id] == Broadcasting(needs || s.pending.Null?)
  {
    hide Inv;
    hide Run;
    hide CanRun;
    var a := ReachableInv(s);
    var i := StandsAt(s, a, id);
    k := SenderGoesOn(s, a, id, i);
    ToPushBound(s, a, id, i);
  }

  lemma StandsAt(s: State, a: Lists, id: nat) returns (i: nat)
    requires Inv(s, a) && id < |s.senders| && HasMessage(s.senders[id])
    requires s.senders[id].WantSlot? ==> s.free.To?
    ensures Ready(s, a, id, i)
  {
    hide Owned;
    hide QueuesOk;
    hide ReceiverOk;
    hide InOrder;
    hide Chain;
    i := 0;
    var l := a.held[id];
    assert SenderOk(s.senders[id], l, s.next, s.body);
    if s.senders[id].Walking? {
      var n :| 0 <= n < |l[1..]| && l[1..][n] == s.senders[id].last;
      i := n + 1;
    }
  }

  lemma ToPushBound(s: State, a: Lists, id: nat, i: nat)
    requires Inv(s, a) && Ready(s, a, id, i)
    ensures ToPush(s, a, id, i) <= |s.next| + 4
  {
    hide InOrder;
    hide ReceiverOk;
    OwnedBound(a.place, a.held[id], Held(id));
    if s.senders[id].WantSlot? {
      ChainFacts(s.next, s.free, a.free, Null);
    } else {
      assert SenderOk(s.senders[id], a.held[id], s.next, s.body);
      assert a.held[id] != [];
    }
  }

  // ---------------------------------------------------------------- everything that is pushed can be handled

  lemma {:induction false} RunsJoin(s: State, first: seq<Step>, after: seq<Step>)
    requires CanRun(s, first) && CanRun(Run(s, first), after)
    ensures CanRun(s, first + after) && Run(s, first + after) == Run(Run(s, first), after)
    decreases |first|
  {
    hide Apply;
    hide Enabled;
    if first == [] {
      assert first + after == after;
    } else {
      RunsJoin(Apply(s, first[0]), first[1..], after);
      assert (first + after)[1..] == first[1..] + after;
    }
  }

  lemma StillReachable(s: State, steps: seq<Step>)
    requires Reachable(s) && CanRun(s, steps)
    ensures Reachable(Run(s, steps))
  {
    hide Run;
    hide CanRun;
    var slots: nat, senders: nat, before: seq<Step> :|
      CanRun(Init(slots, senders), before) && s == Run(Init(slots, senders), before);
    RunsJoin(Init(slots, senders), before, steps);
  }

  /** Nobody starts a message, and no interrupt comes from elsewhere. */
  predicate Answers(steps: seq<Step>) {
    forall i :: 0 <= i < |steps| ==> steps[i].Receiver? || steps[i].TakeIpi? || steps[i].Sender?
  }

  lemma {:induction false} AloneAnswers(k: nat)
    ensures Answers(Alone(k)) && |Alone(k)| == k
  {
    if k > 0 {
      AloneAnswers(k - 1);
    }
  }

  /** A resting owner with pending messages is made to look, by the interrupt it has or by one that a sender owes. */
  lemma OwnerIsCalled(s: State) returns (steps: seq<Step>)
    requires Reachable(s) && s.receiver.Resting? && s.pending.To?
    ensures CanRun(s, steps) && Answers(steps) && |steps| <= 2
    ensures Run(s, steps).receiver.Entered? && Run(s, steps).pushed == s.pushed && |Run(s, steps).next| == |s.next|
  {
    NoMessageStranded(s);
    if s.ipi {
      steps := [TakeIpi];
      OneStep(s, TakeIpi);
    } else {
      var id :| 0 <= id < |s.senders| && Owes(s.senders[id]);
      steps := [Step.Sender(id)];
      OneStep(s, Step.Sender(id));
      OneStep(Apply(s, Step.Sender(id)), TakeIpi);
      RunsJoin(s, steps, [TakeIpi]);
      steps := steps + [TakeIpi];
    }
  }

  /**
    From every reachable state the owner and senders that owe it an interrupt can, in a number of steps that the number
    of slots bounds, handle everything that has been pushed: no message is ever beyond reach.
   */
  lemma EverythingCanBeHandled(s: State) returns (steps: seq<Step>)
    requires Reachable(s)
    ensures CanRun(s, steps) && Answers(steps) && |steps| <= 4 * |s.next| + 12
    ensures Run(s, steps).handled == Run(s, steps).pushed == s.pushed && Run(s, steps).receiver.Resting?
  {
    hide Inv;
    hide Run;
    hide CanRun;
    var a := ReachableInv(s);
    LeftBound(s, a);
    var k, a' := OwnerGoesOn(s, a);
    AloneAnswers(k);
    steps := Alone(k);
    var s1 := Run(s, steps);
    if s1.pending.To? {
      StillReachable(s, steps);
      var call := OwnerIsCalled(s1);
      RunsJoin(s, steps, call);
      steps := steps + call;
      StillReachable(s, steps);
      var k', _ := OwnerRests(Run(s, steps));
      AloneAnswers(k');
      RunsJoin(s, steps, Alone(k'));
      steps := steps + Alone(k');
    } else {
      WaitingCount(s1, a');
    }
  }

  /** With a free slot, a message that an idle sender starts to send gets through: it is the last one handled. */
  lemma MessageGetsThrough(s: State, id: nat, m: Message) returns (steps: seq<Step>)
    requires Reachable(s) && id < |s.senders| && s.senders[id].Idle? && s.free.To?
    ensures steps != [] && steps[0] == Start(id, m, Unicast) && Answers(steps[1..]) && |steps| <= 5 * |s.next| + 17
    ensures CanRun(s, steps) && Run(s, steps).handled == Run(s, steps).pushed == s.pushed + [m]
  {
    hide Run;
    hide CanRun;
    var start := Start(id, m, Unicast);
    OneStep(s, start);
    StillReachable(s, [start]);
    var s1 := Apply(s, start);
    var k := SenderPushes(s1, id);
    var s2 := Run(s1, By(id, k));
    StillReachable(s1, By(id, k));
    var rest := EverythingCanBeHandled(s2);
    RunsJoin(s1, By(id, k), rest);
    RunsJoin(s, [start], By(id, k) + rest);
    steps := [start] + (By(id, k) + rest);
    ByAnswers(id, k);
    SameSlotsAfter(s1, By(id, k));
  }

  lemma {:induction false} ByAnswers(id: nat, k: nat)
    ensures Answers(By(id, k)) && |By(id, k)| == k
  {
    if k > 0 {
      ByAnswers(id, k - 1);
    }
  }

  lemma {:induction false} SameSlotsAfter(s: State, steps: seq<Step>)
    requires CanRun(s, steps)
    ensures |Run(s, steps).next| == |s.next|
    decreases |steps|
  {
    hide Apply;
    hide Enabled;
    if steps != [] {
      SameSlots(s, steps[0]);
      SameSlotsAfter(Apply(s, steps[0]), steps[1..]);
    }
  }

  // ---------------------------------------------------------------- a broadcast

  function OtherTargets(id: nat, wasFirst: seq<bool>): seq<Step> {
    if wasFirst == [] then [Step.Sender(id)] else [OtherTarget(id, wasFirst[0])] + OtherTargets(id, wasFirst[1..])
  }

  /** A broadcast raises the interrupt exactly if its message was the first at one of its targets. */
  lemma {:induction false} BroadcastSignals(s: State, id: nat, wasFirst: seq<bool>)
    requires id < |s.senders| && s.senders[id].Broadcasting?
    ensures CanRun(s, OtherTargets(id, wasFirst))
    ensures var s' := Run(s, OtherTargets(id, wasFirst));
            s' == s.(ipi := s.ipi || s.senders[id].needsIpi || true in wasFirst, senders := s.senders[id := Idle])
    decreases |wasFirst|
  {
    if wasFirst == [] {
      OneStep(s, Step.Sender(id));
    } else {
      var s1 := Apply(s, OtherTarget(id, wasFirst[0]));
      BroadcastSignals(s1, id, wasFirst[1..]);
      assert OtherTargets(id, wasFirst)[1..] == OtherTargets(id, wasFirst[1..]);
      assert wasFirst == [wasFirst[0]] + wasFirst[1..];
    }
  }

  // ---------------------------------------------------------------- interrupts

  /** The step raises the owner's interrupt. */
  predicate Raises(s: State, step: Step) {
    step.ForeignIpi? || (step.Sender? && step.id < |s.senders| && Owes(s.senders[step.id]))
  }

  /** An interrupt was raised in the run, or pending before it, and has not been taken since. */
  ghost predicate Latched(ipi: bool, s: State, steps: seq<Step>)
    requires CanRun(s, steps)
    decreases |steps|
  {
    if steps == [] then ipi
    else Latched(!steps[0].TakeIpi? && (ipi || Raises(s, steps[0])), Apply(s, steps[0]), steps[1..])
  }

  /** In every run the owner has an interrupt to take exactly if one was raised since it took the last. */
  lemma {:induction false} LatchedIff(s: State, steps: seq<Step>)
    requires CanRun(s, steps)
    ensures Run(s, steps).ipi <==> Latched(s.ipi, s, steps)
    decreases |steps|
  {
    hide Apply;
    hide Enabled;
    hide Raises;
    if steps != [] {
      IpiAfterStep(s, steps[0]);
      LatchedIff(Apply(s, steps[0]), steps[1..]);
    }
  }

  lemma IpiAfterStep(s: State, step: Step)
    requires Enabled(s, step)
    ensures Apply(s, step).ipi <==> !step.TakeIpi? && (s.ipi || Raises(s, step))
  {
  }
}

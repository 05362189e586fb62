/**
  The lock-free message queue of one CPU (kernel/kernel/Processor.cpp: initialize_smp,
  send_smp_message, broadcast_smp_message and handle_smp_messages).

  Every access to a shared atomic is one step, so a run of this machine is one interleaving
  of any number of senders with the CPU that owns the queue.
 */
module SmpMessages {
  import Pigeonhole

  type Message = nat

  datatype Ptr = Null | To(slot: nat)

  /** A unicast raises its own interrupt; a broadcast ORs `was_first` over all its targets. */
  datatype Mode = Unicast | Broadcast(needsIpi: bool)

  datatype Sender =
    | Idle
    | WantSlot(m: Message, mode: Mode)                                     // waits for a free slot
    | GotList(m: Message, mode: Mode, storage: nat)                        // the free list is taken
    | Walking(m: Message, mode: Mode, storage: nat, base: nat, last: nat)  // looking for its end
    | Returning(m: Message, mode: Mode, storage: nat, base: nat, last: nat) // gives the slots it does not need back
    | HasSlot(m: Message, mode: Mode, storage: nat)                        // fills its slot
    | Loading(m: Message, mode: Mode, storage: nat)                        // reads the head of the pending list
    | Pushing(m: Message, mode: Mode, storage: nat, seen: Ptr)             // tries to put its slot in front of it
    | OwesIpi                                                              // the list was empty: raises the interrupt
    | Broadcasting(needsIpi: bool)                                         // to the other processors

  datatype Receiver =
    | Resting
    | Entered                                                // takes the pending list
    | Reversing(reversed: Ptr, message: Ptr)                 // the pending list, newest first
    | Handling(first: Ptr, message: Ptr, lastHandled: Ptr)   // the reversed list, oldest first
    | GivingBack(first: Ptr, last: nat)                      // gives the handled slots back

  datatype State = State(
    next: seq<Ptr>,           // by slot
    body: seq<Message>,       // by slot
    free: Ptr,
    pending: Ptr,
    senders: seq<Sender>,
    receiver: Receiver,
    ipi: bool,                // an interrupt is latched at the owning CPU
    pushed: seq<Message>,     // history: messages in the order their pushes took effect
    handled: seq<Message>)    // history: messages in the order they were handled

  datatype Step =
    | Start(id: nat, m: Message, mode: Mode)
    | Sender(id: nat)
    | OtherTarget(id: nat, wasFirst: bool)
    | TakeIpi
    | PauseDrain
    | Receiver
    | ForeignIpi

  // ---------------------------------------------------------------- the machine

  predicate Enabled(s: State, step: Step) {
    match step
    case Start(id, _, _) => id < |s.senders| && s.senders[id].Idle?
    case Sender(id) => id < |s.senders| && !s.senders[id].Idle? && SlotsKnown(s, s.senders[id])
    case OtherTarget(id, _) => id < |s.senders| && s.senders[id].Broadcasting?
    case TakeIpi => s.ipi && s.receiver.Resting?
    case PauseDrain => s.receiver.Resting?
    case Receiver => !s.receiver.Resting? && ReceiverKnown(s)
    case ForeignIpi => true
  }

  /** The pointers the sender is about to follow are pointers to slots. */
  predicate SlotsKnown(s: State, p: Sender) {
    match p
    case GotList(_, _, x) => x < |s.next|
    case Walking(_, _, x, b, l) => l < |s.next|
    case Returning(_, _, x, b, l) => l < |s.next|
    case HasSlot(_, _, x) => x < |s.next| && x < |s.body|
    case Loading(_, _, x) => x < |s.next|
    case Pushing(_, _, x, _) => x < |s.next|
    case _ => true
  }

  predicate ReceiverKnown(s: State) {
    match s.receiver
    case Reversing(_, To(x)) => x < |s.next|
    case Handling(_, To(x), _) => x < |s.next| && x < |s.body|
    case Handling(_, Null, l) => l.To? && l.slot < |s.next|
    case GivingBack(_, l) => l < |s.next|
    case _ => true
  }

  function Apply(s: State, step: Step): State
    requires Enabled(s, step)
  {
    match step
    case Start(id, m, mode) => s.(senders := s.senders[id := WantSlot(m, mode)])
    case Sender(id) => SenderStep(s, id)
    case OtherTarget(id, wasFirst) =>
      s.(senders := s.senders[id := Broadcasting(s.senders[id].needsIpi || wasFirst)])
    case TakeIpi => s.(ipi := false, receiver := Entered)
    case PauseDrain => s.(receiver := Entered)
    case Receiver => ReceiverStep(s)
    case ForeignIpi => s.(ipi := true)
  }

  function SenderStep(s: State, id: nat): State
    requires Enabled(s, Step.Sender(id))
  {
    match s.senders[id]
    case WantSlot(m, mode) =>
      if s.free.Null? then s
      else s.(free := Null, senders := s.senders[id := GotList(m, mode, s.free.slot)])
    case GotList(m, mode, x) =>
      if s.next[x].Null? then s.(senders := s.senders[id := HasSlot(m, mode, x)])
      else if s.free.Null? then s.(free := s.next[x], senders := s.senders[id := HasSlot(m, mode, x)])
      else s.(senders := s.senders[id := Walking(m, mode, x, s.next[x].slot, s.next[x].slot)])
    case Walking(m, mode, x, base, last) =>
      if s.next[last].To? then s.(senders := s.senders[id := Walking(m, mode, x, base, s.next[last].slot)])
      else s.(next := s.next[last := s.free], senders := s.senders[id := Returning(m, mode, x, base, last)])
    case Returning(m, mode, x, base, last) =>
      if s.free == s.next[last] then s.(free := To(base), senders := s.senders[id := HasSlot(m, mode, x)])
      else s.(next := s.next[last := s.free])
    case HasSlot(m, mode, x) =>
      s.(body := s.body[x := m], next := s.next[x := Null], senders := s.senders[id := Loading(m, mode, x)])
    case Loading(m, mode, x) =>
      s.(next := s.next[x := s.pending], senders := s.senders[id := Pushing(m, mode, x, s.pending)])
    case Pushing(m, mode, x, seen) =>
      if s.pending == seen then
        s.(pending := To(x), pushed := s.pushed + [m], senders := s.senders[id := AfterPush(mode, seen.Null?)])
      else s.(next := s.next[x := s.pending], senders := s.senders[id := Pushing(m, mode, x, s.pending)])
    case OwesIpi => s.(ipi := true, senders := s.senders[id := Idle])
    case Broadcasting(needs) => s.(ipi := s.ipi || needs, senders := s.senders[id := Idle])
  }

  function AfterPush(mode: Mode, wasFirst: bool): Sender {
    match mode
    case Unicast => if wasFirst then OwesIpi else Idle
    case Broadcast(needs) => Broadcasting(needs || wasFirst)
  }

  function ReceiverStep(s: State): State
    requires Enabled(s, Step.Receiver)
  {
    match s.receiver
    case Entered =>
      s.(pending := Null, receiver := if s.pending.Null? then Resting else Reversing(Null, s.pending))
    case Reversing(reversed, To(x)) =>
      s.(next := s.next[x := reversed], receiver := Reversing(To(x), s.next[x]))
    case Reversing(reversed, Null) => s.(receiver := Handling(reversed, reversed, Null))
    case Handling(first, To(x), _) =>
      s.(handled := s.handled + [s.body[x]], receiver := Handling(first, s.next[x], To(x)))
    case Handling(first, Null, l) => s.(next := s.next[l.slot := s.free], receiver := GivingBack(first, l.slot))
    case GivingBack(first, l) =>
      if s.free == s.next[l] then s.(free := first, receiver := Resting)
      else s.(next := s.next[l := s.free])
  }

  /** initialize_smp: all slots chained on the free list. */
  function Init(slots: nat, senders: nat): State {
    State(seq(slots, (i: nat) => if i + 1 < slots then To(i + 1) else Null),
          seq(slots, (i: nat) => 0),
          if slots == 0 then Null else To(0), Null,
          seq(senders, (i: nat) => Idle), Resting, false, [], [])
  }

  /** The machine can take these steps one after the other. */
  predicate CanRun(s: State, steps: seq<Step>)
    decreases |steps|
  {
    steps == [] || (Enabled(s, steps[0]) && CanRun(Apply(s, steps[0]), steps[1..]))
  }

  function Run(s: State, steps: seq<Step>): State
    requires CanRun(s, steps)
    decreases |steps|
  {
    if steps == [] then s else Run(Apply(s, steps[0]), steps[1..])
  }

  // ---------------------------------------------------------------- who holds which slot

  datatype Place = Free | Pending | Held(id: nat) | Received

  /** A witness of the invariant: the place of every slot and the order of every list. */
  datatype Lists = Lists(
    place: seq<Place>,
    free: seq<nat>,            // head first
    pending: seq<nat>,         // newest first
    held: seq<seq<nat>>,       // by sender
    done: seq<nat>,            // at the receiver: reversed, or handled
    rest: seq<nat>)            // at the receiver: still to be reversed, or to be handled

  /** The i-th slot of l points to the one after it, or to end. */
  ghost predicate Link(next: seq<Ptr>, l: seq<nat>, end: Ptr, i: int)
    requires 0 <= i < |l|
  {
    l[i] < |next| && next[l[i]] == if i + 1 < |l| then To(l[i + 1]) else end
  }

  /** Following `next` from head goes through l and arrives at end. */
  ghost predicate Chain(next: seq<Ptr>, head: Ptr, l: seq<nat>, end: Ptr) {
    && head == (if l == [] then end else To(l[0]))
    && forall i :: 0 <= i < |l| ==> Link(next, l, end, i)
  }

  /** l lists the slots at place p, each once. */
  ghost predicate Owned(place: seq<Place>, l: seq<nat>, p: Place) {
    && (forall i :: 0 <= i < |l| ==> l[i] < |place| && place[l[i]] == p)
    && (forall i, j :: 0 <= i < j < |l| ==> l[i] != l[j])
    && (forall x :: 0 <= x < |place| && place[x] == p ==> x in l)
  }

  /** Every slot has one place, and the list of that place has it exactly once. */
  ghost predicate Partition(s: State, a: Lists) {
    && |a.place| == |s.next| == |s.body| && |a.held| == |s.senders|
    && Owned(a.place, a.free, Free)
    && Owned(a.place, a.pending, Pending)
    && (forall id :: 0 <= id < |a.held| ==> Owned(a.place, a.held[id], Held(id)))
    && Owned(a.place, a.done + a.rest, Received)
    && (forall x :: 0 <= x < |a.place| && a.place[x].Held? ==> a.place[x].id < |s.senders|)
  }

  /** What a sender holds at each of its program points. */
  ghost predicate SenderOk(p: Sender, l: seq<nat>, next: seq<Ptr>, body: seq<Message>) {
    match p
    case Idle => l == []
    case WantSlot(_, _) => l == []
    case OwesIpi => l == []
    case Broadcasting(_) => l == []
    case GotList(_, _, x) => l != [] && Chain(next, To(x), l, Null)
    case Walking(_, _, x, base, last) =>
      |l| >= 2 && l[0] == x && last in l[1..] && Chain(next, To(base), l[1..], Null)
    case Returning(_, _, x, base, last) =>
      |l| >= 2 && l[0] == x && last == l[|l| - 1] && last < |next| && Chain(next, To(base), l[1..], next[last])
    case HasSlot(_, _, x) => l == [x]
    case Loading(m, _, x) => l == [x] && x < |body| && body[x] == m
    case Pushing(m, _, x, seen) => l == [x] && x < |body| && body[x] == m && x < |next| && next[x] == seen
  }

  ghost predicate SendersOk(s: State, a: Lists) {
    |a.held| == |s.senders| && forall id :: 0 <= id < |s.senders| ==> SenderOk(s.senders[id], a.held[id], s.next, s.body)
  }

  ghost predicate ReceiverOk(s: State, a: Lists) {
    match s.receiver
    case Resting => a.done == [] && a.rest == []
    case Entered => a.done == [] && a.rest == []
    case Reversing(rev, msg) => a.done + a.rest != [] && Chain(s.next, rev, a.done, Null) && Chain(s.next, msg, a.rest, Null)
    case Handling(first, msg, last) =>
      && a.done + a.rest != []
      && Chain(s.next, first, a.done + a.rest, Null)
      && msg == (if a.rest == [] then Null else To(a.rest[0]))
      && last == (if a.done == [] then Null else To(a.done[|a.done| - 1]))
    case GivingBack(first, l) =>
      a.rest == [] && a.done != [] && l == a.done[|a.done| - 1] && l < |s.next| && Chain(s.next, first, a.done, s.next[l])
  }

  ghost predicate QueuesOk(s: State, a: Lists) {
    Chain(s.next, s.free, a.free, Null) && Chain(s.next, s.pending, a.pending, Null)
  }

  function Reversed<T>(l: seq<T>): (r: seq<T>)
    ensures |r| == |l|
  {
    if l == [] then [] else Reversed(l[1..]) + [l[0]]
  }

  /** The slots whose messages have been pushed but not handled, oldest first. */
  ghost function Waiting(s: State, a: Lists): seq<nat> {
    (match s.receiver
     case Reversing(_, _) => Reversed(a.rest) + a.done
     case Handling(_, _, _) => a.rest
     case _ => []) + Reversed(a.pending)
  }

  ghost function Bodies(body: seq<Message>, l: seq<nat>): seq<Message>
    requires forall i :: 0 <= i < |l| ==> l[i] < |body|
  {
    seq(|l|, i requires 0 <= i < |l| => body[l[i]])
  }

  /** Each pushed message has been handled once, in push order, or still waits in that order. */
  ghost predicate InOrder(s: State, a: Lists) {
    && (forall i :: 0 <= i < |Waiting(s, a)| ==> Waiting(s, a)[i] < |s.body|)
    && s.pushed == s.handled + Bodies(s.body, Waiting(s, a))
  }

  predicate Owes(p: Sender) {
    p.OwesIpi? || (p.Broadcasting? && p.needsIpi)
  }

  /** No message is stranded: somebody still has to make the owning CPU look at the queue. */
  ghost predicate Signalled(s: State) {
    s.pending.To? ==> s.ipi || s.receiver.Entered? || exists id :: 0 <= id < |s.senders| && Owes(s.senders[id])
  }

  ghost predicate Inv(s: State, a: Lists) {
    Partition(s, a) && QueuesOk(s, a) && SendersOk(s, a) && ReceiverOk(s, a) && InOrder(s, a) && Signalled(s)
  }

  // ---------------------------------------------------------------- moving slots between lists

  ghost function Moved(place: seq<Place>, l: seq<nat>, p: Place): seq<Place> {
    seq(|place|, (i: nat) requires i < |place| => if i in l then p else place[i])
  }

  lemma Transfer(place: seq<Place>, keep: seq<nat>, moved: seq<nat>, target: seq<nat>, p: Place, q: Place)
    requires p != q && Owned(place, keep + moved, p) && Owned(place, target, q)
    ensures Owned(Moved(place, moved, q), keep, p)
    ensures Owned(Moved(place, moved, q), moved + target, q)
  {
    var place' := Moved(place, moved, q);
    var l := keep + moved;
    assert forall i :: 0 <= i < |keep| ==> l[i] == keep[i];
    assert forall i :: 0 <= i < |moved| ==> l[|keep| + i] == moved[i];
  }

  lemma TransferOther(place: seq<Place>, moved: seq<nat>, p: Place, q: Place, l: seq<nat>, r: Place)
    requires Owned(place, l, r) && r != p && r != q
    requires forall i :: 0 <= i < |moved| ==> moved[i] < |place| && place[moved[i]] == p
    ensures Owned(Moved(place, moved, q), l, r)
  {
  }

  // ---------------------------------------------------------------- frames

  /** `next` and `body` changed at most on the slots at place p. */
  ghost predicate OnlyAt(s: State, s': State, place: seq<Place>, p: Place) {
    && |s'.next| == |s.next| == |place| && |s'.body| == |s.body| == |place|
    && forall x :: 0 <= x < |place| && place[x] != p ==> s'.next[x] == s.next[x] && s'.body[x] == s.body[x]
  }

  lemma ChainFrame(s: State, s': State, place: seq<Place>, p: Place, head: Ptr, l: seq<nat>, end: Ptr)
    requires OnlyAt(s, s', place, p) && Chain(s.next, head, l, end)
    requires forall i :: 0 <= i < |l| ==> l[i] < |place| && place[l[i]] != p
    ensures Chain(s'.next, head, l, end)
  {
    forall i | 0 <= i < |l| ensures Link(s'.next, l, end, i) {
      assert Link(s.next, l, end, i);
    }
  }

  lemma SenderFrame(s: State, s': State, place: seq<Place>, p: Place, x: Sender, l: seq<nat>)
    requires OnlyAt(s, s', place, p) && SenderOk(x, l, s.next, s.body)
    requires forall i :: 0 <= i < |l| ==> l[i] < |place| && place[l[i]] != p
    ensures SenderOk(x, l, s'.next, s'.body)
  {
    match x
    case GotList(_, _, y) => ChainFrame(s, s', place, p, To(y), l, Null);
    case Walking(_, _, _, base, _) => ChainFrame(s, s', place, p, To(base), l[1..], Null);
    case Returning(_, _, _, base, last) =>
      assert s'.next[l[|l| - 1]] == s.next[l[|l| - 1]];
      ChainFrame(s, s', place, p, To(base), l[1..], s.next[last]);
    case Loading(_, _, y) => assert l[0] == y && s'.body[y] == s.body[y];
    case Pushing(_, _, y, _) => assert l[0] == y && s'.body[y] == s.body[y] && s'.next[y] == s.next[y];
    case _ =>
  }

  /** A sender's step leaves the other senders' holdings alone. */
  lemma OthersKept(s: State, a: Lists, s': State, a': Lists, id: nat)
    requires Partition(s, a) && SendersOk(s, a) && OnlyAt(s, s', a.place, Held(id))
    requires id < |s.senders| && |a'.held| == |s'.senders| == |s.senders|
    requires forall j :: 0 <= j < |s.senders| && j != id ==> s'.senders[j] == s.senders[j] && a'.held[j] == a.held[j]
    requires SenderOk(s'.senders[id], a'.held[id], s'.next, s'.body)
    ensures SendersOk(s', a')
  {
    forall j | 0 <= j < |s.senders| && j != id
      ensures SenderOk(s'.senders[j], a'.held[j], s'.next, s'.body)
    {
      SenderFrame(s, s', a.place, Held(id), s.senders[j], a.held[j]);
    }
  }

  lemma WaitingPlaces(s: State, a: Lists, i: nat)
    requires Partition(s, a) && i < |Waiting(s, a)|
    ensures Waiting(s, a)[i] < |a.place| && a.place[Waiting(s, a)[i]] in {Pending, Received}
  {
    ReversedMembers(a.pending);
    ReversedMembers(a.rest);
    var x := Waiting(s, a)[i];
    if x in Reversed(a.pending) {
      assert x in a.pending;
    } else {
      assert x in a.done + a.rest;
    }
  }

  lemma ReversedMembers(l: seq<nat>)
    ensures forall x :: x in Reversed(l) <==> x in l
  {
    if l != [] {
      ReversedMembers(l[1..]);
      assert l == [l[0]] + l[1..];
    }
  }

  /** A sender's local step, which moves no slot, keeps everything the receiver relies on. */
  lemma QuietStep(s: State, a: Lists, s': State, id: nat)
    requires Inv(s, a) && id < |s.senders| && OnlyAt(s, s', a.place, Held(id))
    requires s'.free == s.free && s'.pending == s.pending && s'.receiver == s.receiver && s'.ipi == s.ipi
    requires s'.pushed == s.pushed && s'.handled == s.handled
    requires |s'.senders| == |s.senders| && !Owes(s.senders[id])
    requires forall j :: 0 <= j < |s.senders| && j != id ==> s'.senders[j] == s.senders[j]
    requires SenderOk(s'.senders[id], a.held[id], s'.next, s'.body)
    ensures Inv(s', a)
  {
    hide Chain;
    hide Owned;
    hide SenderOk;
    hide SendersOk;
    hide ReceiverOk;
    hide InOrder;
    hide OnlyAt;
    SameSize(s, s', a.place, Held(id));
    OthersKept(s, a, s', a, id);
    QueuePlaces(s, a);
    ChainFrame(s, s', a.place, Held(id), s.free, a.free, Null);
    ChainFrame(s, s', a.place, Held(id), s.pending, a.pending, Null);
    ReceiverFrame(s, s', a, Held(id));
    WaitingFrame(s, s', a, Held(id));
    StillSignalled(s, s', id);
  }

  lemma SameSize(s: State, s': State, place: seq<Place>, p: Place)
    requires OnlyAt(s, s', place, p)
    ensures |s'.next| == |s.next| && |s'.body| == |s.body|
  {
  }

  lemma QueuePlaces(s: State, a: Lists)
    requires Partition(s, a)
    ensures forall i :: 0 <= i < |a.free| ==> a.free[i] < |a.place| && a.place[a.free[i]] == Free
    ensures forall i :: 0 <= i < |a.pending| ==> a.pending[i] < |a.place| && a.place[a.pending[i]] == Pending
  {
  }

  lemma ReceivedPlaces(s: State, a: Lists)
    requires Partition(s, a)
    ensures forall i :: 0 <= i < |a.done| ==> a.done[i] < |a.place| && a.place[a.done[i]] == Received
    ensures forall i :: 0 <= i < |a.rest| ==> a.rest[i] < |a.place| && a.place[a.rest[i]] == Received
  {
    var l := a.done + a.rest;
    assert forall i :: 0 <= i < |a.done| ==> l[i] == a.done[i];
    assert forall i :: 0 <= i < |a.rest| ==> l[|a.done| + i] == a.rest[i];
  }

  lemma ReceiverFrame(s: State, s': State, a: Lists, p: Place)
    requires Partition(s, a) && ReceiverOk(s, a) && OnlyAt(s, s', a.place, p) && p != Received && s'.receiver == s.receiver
    ensures ReceiverOk(s', a)
  {
    var l := a.done + a.rest;
    ReceivedPlaces(s, a);
    match s.receiver
    case Reversing(rev, msg) =>
      ChainFrame(s, s', a.place, p, rev, a.done, Null);
      ChainFrame(s, s', a.place, p, msg, a.rest, Null);
    case Handling(first, _, _) => ChainFrame(s, s', a.place, p, first, l, Null);
    case GivingBack(first, x) =>
      assert s'.next[a.done[|a.done| - 1]] == s.next[a.done[|a.done| - 1]];
      ChainFrame(s, s', a.place, p, first, a.done, s.next[x]);
    case _ =>
  }

  lemma WaitingFrame(s: State, s': State, a: Lists, p: Place)
    requires Partition(s, a) && InOrder(s, a) && OnlyAt(s, s', a.place, p) && p != Received && p != Pending
    requires s'.receiver == s.receiver && s'.pushed == s.pushed && s'.handled == s.handled
    ensures InOrder(s', a)
  {
    forall i | 0 <= i < |Waiting(s, a)|
      ensures Waiting(s, a)[i] < |s.body| && s'.body[Waiting(s, a)[i]] == s.body[Waiting(s, a)[i]]
    {
      WaitingPlaces(s, a, i);
    }
    assert Bodies(s'.body, Waiting(s', a)) == Bodies(s.body, Waiting(s, a));
  }

  // ---------------------------------------------------------------- sender steps

  lemma ChainTail(next: seq<Ptr>, head: Ptr, l: seq<nat>, end: Ptr)
    requires l != [] && Chain(next, head, l, end)
    ensures l[0] < |next| && Chain(next, next[l[0]], l[1..], end)
  {
    assert Link(next, l, end, 0);
    forall i | 0 <= i < |l[1..]| ensures Link(next, l[1..], end, i) {
      assert Link(next, l, end, i + 1);
    }
  }

  /** The steps in which a sender moves no slot to another list. */
  predicate Quiet(s: State, id: nat)
    requires Enabled(s, Step.Sender(id))
  {
    var p := s.senders[id];
    match p
    case WantSlot(_, _) => s.free.Null?
    case GotList(_, _, x) => s.next[x].Null? || s.free.To?
    case Returning(_, _, _, _, last) => s.free != s.next[last]
    case Pushing(_, _, _, seen) => s.pending != seen
    case OwesIpi => false
    case Broadcasting(_) => false
    case _ => true
  }

  /** What a quiet step of sender id keeps of its own holdings and of everybody else's slots. */
  ghost predicate Kept(s: State, s': State, place: seq<Place>, l: seq<nat>, id: nat) {
    && OnlyAt(s, s', place, Held(id))
    && |s'.senders| == |s.senders| && id < |s.senders|
    && SenderOk(s'.senders[id], l, s'.next, s'.body)
    && s' == s.(next := s'.next, body := s'.body, senders := s.senders[id := s'.senders[id]])
  }

  lemma WantSlotKept(s: State, place: seq<Place>, l: seq<nat>, id: nat)
    requires Enabled(s, Step.Sender(id)) && Quiet(s, id) && s.senders[id].WantSlot?
    requires SenderOk(s.senders[id], l, s.next, s.body) && Owned(place, l, Held(id)) && |place| == |s.next| == |s.body|
    ensures Kept(s, SenderStep(s, id), place, l, id)
  {
  }

  lemma GotListKept(s: State, place: seq<Place>, l: seq<nat>, id: nat)
    requires Enabled(s, Step.Sender(id)) && Quiet(s, id) && s.senders[id].GotList?
    requires SenderOk(s.senders[id], l, s.next, s.body) && Owned(place, l, Held(id)) && |place| == |s.next| == |s.body|
    ensures Kept(s, SenderStep(s, id), place, l, id)
  {
    var x := s.senders[id].storage;
    ChainTail(s.next, To(x), l, Null);
    assert Link(s.next, l, Null, 0);
  }

  lemma WalkingKept(s: State, place: seq<Place>, l: seq<nat>, id: nat)
    requires Enabled(s, Step.Sender(id)) && Quiet(s, id) && s.senders[id].Walking?
    requires SenderOk(s.senders[id], l, s.next, s.body) && Owned(place, l, Held(id)) && |place| == |s.next| == |s.body|
    ensures Kept(s, SenderStep(s, id), place, l, id)
  {
    var last, t := s.senders[id].last, l[1..];
    var k :| 0 <= k < |t| && t[k] == last;
    assert Link(s.next, t, Null, k) && l[k + 1] == last;
    if s.next[last].Null? {
      assert k == |t| - 1;
      LastRelinked(s.next, s.senders[id].base, t, Null, s.free);
    }
  }

  lemma ReturningKept(s: State, place: seq<Place>, l: seq<nat>, id: nat)
    requires Enabled(s, Step.Sender(id)) && Quiet(s, id) && s.senders[id].Returning?
    requires SenderOk(s.senders[id], l, s.next, s.body) && Owned(place, l, Held(id)) && |place| == |s.next| == |s.body|
    ensures Kept(s, SenderStep(s, id), place, l, id)
  {
    var p := s.senders[id];
    LastRelinked(s.next, p.base, l[1..], s.next[p.last], s.free);
  }

  lemma HasSlotKept(s: State, place: seq<Place>, l: seq<nat>, id: nat)
    requires Enabled(s, Step.Sender(id)) && Quiet(s, id) && s.senders[id].HasSlot?
    requires SenderOk(s.senders[id], l, s.next, s.body) && Owned(place, l, Held(id)) && |place| == |s.next| == |s.body|
    ensures Kept(s, SenderStep(s, id), place, l, id)
  {
    assert l[0] == s.senders[id].storage;
  }

  lemma LoadingKept(s: State, place: seq<Place>, l: seq<nat>, id: nat)
    requires Enabled(s, Step.Sender(id)) && Quiet(s, id) && s.senders[id].Loading?
    requires SenderOk(s.senders[id], l, s.next, s.body) && Owned(place, l, Held(id)) && |place| == |s.next| == |s.body|
    ensures Kept(s, SenderStep(s, id), place, l, id)
  {
    assert l[0] == s.senders[id].storage;
  }

  lemma PushingKept(s: State, place: seq<Place>, l: seq<nat>, id: nat)
    requires Enabled(s, Step.Sender(id)) && Quiet(s, id) && s.senders[id].Pushing?
    requires SenderOk(s.senders[id], l, s.next, s.body) && Owned(place, l, Held(id)) && |place| == |s.next| == |s.body|
    ensures Kept(s, SenderStep(s, id), place, l, id)
  {
    assert l[0] == s.senders[id].storage;
  }

  lemma SenderKept(s: State, place: seq<Place>, l: seq<nat>, id: nat)
    requires Enabled(s, Step.Sender(id)) && Quiet(s, id)
    requires SenderOk(s.senders[id], l, s.next, s.body) && Owned(place, l, Held(id)) && |place| == |s.next| == |s.body|
    ensures Kept(s, SenderStep(s, id), place, l, id)
  {
    hide SenderOk;
    hide Owned;
    hide Kept;
    match s.senders[id]
    case WantSlot(_, _) => WantSlotKept(s, place, l, id);
    case GotList(_, _, _) => GotListKept(s, place, l, id);
    case Walking(_, _, _, _, _) => WalkingKept(s, place, l, id);
    case Returning(_, _, _, _, _) => ReturningKept(s, place, l, id);
    case HasSlot(_, _, _) => HasSlotKept(s, place, l, id);
    case Loading(_, _, _) => LoadingKept(s, place, l, id);
    case Pushing(_, _, _, _) => PushingKept(s, place, l, id);
  }

  lemma SenderQuietStep(s: State, a: Lists, id: nat)
    requires Inv(s, a) && Enabled(s, Step.Sender(id)) && Quiet(s, id)
    ensures Inv(SenderStep(s, id), a)
  {
    hide SenderOk;
    hide SenderStep;
    hide Owned;
    hide Chain;
    hide ReceiverOk;
    hide InOrder;
    SenderKept(s, a.place, a.held[id], id);
    QuietStep(s, a, SenderStep(s, id), id);
  }

  /** Redirecting the last link of a list only changes where the list ends. */
  lemma LastRelinked(next: seq<Ptr>, head: nat, l: seq<nat>, end: Ptr, end': Ptr)
    requires l != [] && Chain(next, To(head), l, end)
    requires forall i, j :: 0 <= i < j < |l| ==> l[i] != l[j]
    requires l[|l| - 1] < |next|
    ensures Chain(next[l[|l| - 1] := end'], To(head), l, end')
  {
    var next' := next[l[|l| - 1] := end'];
    forall i | 0 <= i < |l| ensures Link(next', l, end', i) {
      assert Link(next, l, end, i);
    }
  }

  // ---------------------------------------------------------------- steps that move slots

  ghost predicate Known(a: Lists, r: Place) {
    r.Held? ==> r.id < |a.held|
  }

  /** The list of the slots at a place. */
  ghost function ListOf(a: Lists, r: Place): seq<nat>
    requires Known(a, r)
  {
    match r
    case Free => a.free
    case Pending => a.pending
    case Held(id) => a.held[id]
    case Received => a.done + a.rest
  }

  ghost predicate Moves(a: Lists, a': Lists, keep: seq<nat>, moved: seq<nat>, p: Place, q: Place) {
    && Known(a, p) && Known(a, q) && p != q && |a'.held| == |a.held|
    && a'.place == Moved(a.place, moved, q)
    && ListOf(a, p) == keep + moved && ListOf(a', p) == keep && ListOf(a', q) == moved + ListOf(a, q)
    && (forall r :: Known(a, r) && r != p && r != q ==> ListOf(a', r) == ListOf(a, r))
  }

  lemma OwnedOf(s: State, a: Lists, r: Place)
    requires Partition(s, a) && Known(a, r)
    ensures Owned(a.place, ListOf(a, r), r)
  {
    hide Owned;
  }

  lemma MovedOwned(s: State, a: Lists, a': Lists, keep: seq<nat>, moved: seq<nat>, p: Place, q: Place, r: Place)
    requires Partition(s, a) && Moves(a, a', keep, moved, p, q) && Known(a, r)
    ensures Owned(a'.place, ListOf(a', r), r)
  {
    hide Owned;
    hide Partition;
    OwnedOf(s, a, p);
    OwnedOf(s, a, q);
    OwnedOf(s, a, r);
    if r == p || r == q {
      Transfer(a.place, keep, moved, ListOf(a, q), p, q);
    } else {
      MovedFrom(a.place, keep, moved, p);
      TransferOther(a.place, moved, p, q, ListOf(a, r), r);
    }
  }

  /** Moving the slots `moved` from place p to the front of place q keeps the partition. */
  lemma PartitionMoved(s: State, a: Lists, s': State, a': Lists, keep: seq<nat>, moved: seq<nat>, p: Place, q: Place)
    requires Partition(s, a) && Moves(a, a', keep, moved, p, q)
    requires |s'.next| == |s.next| && |s'.body| == |s.body| && |s'.senders| == |s.senders|
    ensures Partition(s', a')
  {
    hide Owned;
    MovedOwned(s, a, a', keep, moved, p, q, Free);
    MovedOwned(s, a, a', keep, moved, p, q, Pending);
    MovedOwned(s, a, a', keep, moved, p, q, Received);
    forall id | 0 <= id < |a'.held| ensures Owned(a'.place, a'.held[id], Held(id)) {
      MovedOwned(s, a, a', keep, moved, p, q, Held(id));
    }
  }

  lemma MovedFrom(place: seq<Place>, keep: seq<nat>, moved: seq<nat>, p: Place)
    requires Owned(place, keep + moved, p)
    ensures forall i :: 0 <= i < |moved| ==> moved[i] < |place| && place[moved[i]] == p
  {
    assert forall i :: 0 <= i < |moved| ==> (keep + moved)[|keep| + i] == moved[i];
  }

  /** Only senders that owe nothing changed, so whoever had to raise the interrupt still has to. */
  lemma StillSignalled(s: State, s': State, id: nat)
    requires Signalled(s) && id < |s.senders| == |s'.senders| && !Owes(s.senders[id])
    requires forall j :: 0 <= j < |s.senders| && j != id ==> s'.senders[j] == s.senders[j]
    requires s'.pending == s.pending && s'.ipi == s.ipi && s'.receiver == s.receiver
    ensures Signalled(s')
  {
    if j :| 0 <= j < |s.senders| && Owes(s.senders[j]) {
      assert Owes(s'.senders[j]);
    }
  }

  lemma SendersAfter(s: State, a: Lists, s': State, a': Lists, id: nat)
    requires SendersOk(s, a) && s'.next == s.next && s'.body == s.body && id < |s.senders|
    requires |s'.senders| == |s.senders| && |a'.held| == |a.held|
    requires forall j :: 0 <= j < |s.senders| && j != id ==> s'.senders[j] == s.senders[j] && a'.held[j] == a.held[j]
    requires SenderOk(s'.senders[id], a'.held[id], s.next, s.body)
    ensures SendersOk(s', a')
  {
    hide SenderOk;
  }

  /** A sender takes the whole free list. */
  lemma ExchangeFree(s: State, a: Lists, id: nat) returns (a': Lists)
    requires Inv(s, a) && Enabled(s, Step.Sender(id)) && s.senders[id].WantSlot? && s.free.To?
    ensures Inv(SenderStep(s, id), a')
    ensures a' == a.(place := a'.place, free := [], held := a.held[id := a.free])
  {
    hide ReceiverOk;
    hide InOrder;
    hide Owned;
    var s' := SenderStep(s, id);
    a' := a.(place := Moved(a.place, a.free, Held(id)), held := a.held[id := a.free], free := []);
    assert SenderOk(s.senders[id], a.held[id], s.next, s.body);
    assert [] + a.free == a.free && a.free + [] == a.free;
    PartitionMoved(s, a, s', a', [], a.free, Free, Held(id));
    StillSignalled(s, s', id);
    SendersAfter(s, a, s', a', id);
    SameReceiver(s, a, s', a');
  }

  lemma SameReceiver(s: State, a: Lists, s': State, a': Lists)
    requires ReceiverOk(s, a) && InOrder(s, a)
    requires s'.next == s.next && s'.body == s.body && s'.receiver == s.receiver
    requires s'.pushed == s.pushed && s'.handled == s.handled
    requires a'.done == a.done && a'.rest == a.rest && a'.pending == a.pending
    ensures ReceiverOk(s', a') && InOrder(s', a')
  {
  }

  lemma ChainFacts(next: seq<Ptr>, head: Ptr, l: seq<nat>, end: Ptr)
    requires Chain(next, head, l, end)
    ensures l == [] ==> head == end
    ensures l != [] ==> head == To(l[0]) && l[|l| - 1] < |next| && next[l[|l| - 1]] == end
  {
    if l != [] {
      assert Link(next, l, end, |l| - 1);
    }
  }

  lemma ChainJoin(next: seq<Ptr>, head: Ptr, l: seq<nat>, mid: Ptr, l': seq<nat>, end: Ptr)
    requires Chain(next, head, l, mid) && Chain(next, mid, l', end)
    ensures Chain(next, head, l + l', end)
  {
    var t := l + l';
    forall i | 0 <= i < |t| ensures Link(next, t, end, i) {
      if i < |l| {
        assert Link(next, l, mid, i);
      } else {
        assert Link(next, l', end, i - |l|);
      }
    }
  }

  /** All held slots but the first go to the front of the free list. */
  lemma ReturnRest(s: State, a: Lists, id: nat) returns (a': Lists)
    requires Inv(s, a) && Enabled(s, Step.Sender(id)) && !Quiet(s, id) && (s.senders[id].GotList? || s.senders[id].Returning?)
    ensures Inv(SenderStep(s, id), a')
    ensures a.held[id] != []
    ensures a' == a.(place := a'.place, held := a.held[id := [a.held[id][0]]], free := a.held[id][1..] + a.free)
  {
    hide ReceiverOk;
    hide InOrder;
    hide Owned;
    hide Chain;
    var s', l := SenderStep(s, id), a.held[id];
    a' := a.(place := Moved(a.place, l[1..], Free), held := a.held[id := [l[0]]], free := l[1..] + a.free);
    RestIsFree(s, l, a.free, id);
    assert [l[0]] + l[1..] == l;
    PartitionMoved(s, a, s', a', [l[0]], l[1..], Held(id), Free);
    StillSignalled(s, s', id);
    SendersAfter(s, a, s', a', id);
    SameReceiver(s, a, s', a');
  }

  lemma RestIsFree(s: State, l: seq<nat>, free: seq<nat>, id: nat)
    requires Enabled(s, Step.Sender(id)) && !Quiet(s, id) && (s.senders[id].GotList? || s.senders[id].Returning?)
    requires SenderOk(s.senders[id], l, s.next, s.body) && Chain(s.next, s.free, free, Null)
    ensures l != [] && SenderStep(s, id) == s.(free := SenderStep(s, id).free, senders := SenderStep(s, id).senders)
    ensures SenderStep(s, id).senders == s.senders[id := HasSlot(s.senders[id].m, s.senders[id].mode, l[0])]
    ensures Chain(s.next, SenderStep(s, id).free, l[1..] + free, Null)
  {
    match s.senders[id]
    case GotList(_, _, x) =>
      ChainTail(s.next, To(x), l, Null);
      ChainFacts(s.next, s.free, free, Null);
      assert free == [] && l[1..] + free == l[1..];
    case Returning(_, _, x, base, last) =>
      ChainJoin(s.next, To(base), l[1..], s.next[last], free, Null);
  }

  /** The message becomes the newest pending one. */
  lemma PushPending(s: State, a: Lists, id: nat) returns (a': Lists)
    requires Inv(s, a) && Enabled(s, Step.Sender(id)) && s.senders[id].Pushing? && s.pending == s.senders[id].seen
    ensures Inv(SenderStep(s, id), a')
    ensures a' == a.(place := a'.place, held := a.held[id := []], pending := [s.senders[id].storage] + a.pending)
  {
    hide ReceiverOk;
    hide Owned;
    hide Chain;
    hide InOrder;
    var s', x := SenderStep(s, id), s.senders[id].storage;
    assert SenderOk(s.senders[id], a.held[id], s.next, s.body);
    a' := a.(place := Moved(a.place, [x], Pending), held := a.held[id := []], pending := [x] + a.pending);
    assert [] + [x] == [x];
    PartitionMoved(s, a, s', a', [], [x], Held(id), Pending);
    PushedChain(s.next, x, a.pending, s.pending);
    SendersAfter(s, a, s', a', id);
    assert ReceiverOk(s', a') by {
      SameReceiverOk(s, a, s', a');
    }
    PushedInOrder(s, a, s', a', x);
    PushSignals(s, s', id);
  }

  lemma SameReceiverOk(s: State, a: Lists, s': State, a': Lists)
    requires ReceiverOk(s, a) && s'.next == s.next && s'.receiver == s.receiver && a'.done == a.done && a'.rest == a.rest
    ensures ReceiverOk(s', a')
  {
  }

  lemma PushedChain(next: seq<Ptr>, x: nat, l: seq<nat>, head: Ptr)
    requires Chain(next, head, l, Null) && x < |next| && next[x] == head
    ensures Chain(next, To(x), [x] + l, Null)
  {
    assert Chain(next, To(x), [x], head) by {
      assert Link(next, [x], head, 0);
    }
    ChainJoin(next, To(x), [x], head, l, Null);
  }

  /** The push appends its message to what waits. */
  lemma PushedInOrder(s: State, a: Lists, s': State, a': Lists, x: nat)
    requires InOrder(s, a) && s'.body == s.body && s'.receiver == s.receiver && s'.handled == s.handled
    requires a'.done == a.done && a'.rest == a.rest && a'.pending == [x] + a.pending
    requires x < |s.body| && s'.pushed == s.pushed + [s.body[x]]
    ensures InOrder(s', a')
  {
    assert ([x] + a.pending)[1..] == a.pending;
    assert Waiting(s', a') == Waiting(s, a) + [x];
    assert Bodies(s.body, Waiting(s', a')) == Bodies(s.body, Waiting(s, a)) + [s.body[x]];
  }

  lemma PushSignals(s: State, s': State, id: nat)
    requires Signalled(s) && Enabled(s, Step.Sender(id)) && s.senders[id].Pushing? && s.pending == s.senders[id].seen
    requires s' == SenderStep(s, id)
    ensures Signalled(s')
  {
    if s.pending.Null? {
      assert Owes(s'.senders[id]);
    } else if j :| 0 <= j < |s.senders| && Owes(s.senders[j]) {
      assert Owes(s'.senders[j]);
    }
  }

  // ---------------------------------------------------------------- steps that only signal

  /** Steps after which the slots, the queues and the receiver's lists are as before. */
  lemma SignalStep(s: State, a: Lists, s': State, id: nat)
    requires Inv(s, a) && id < |s.senders| && a.held[id] == []
    requires |s'.senders| == |s.senders| && s' == s.(ipi := s'.ipi, senders := s.senders[id := s'.senders[id]])
    requires s'.senders[id].Idle? || s'.senders[id].WantSlot? || s'.senders[id].Broadcasting?
    requires s.ipi ==> s'.ipi
    requires Owes(s.senders[id]) ==> s'.ipi || Owes(s'.senders[id])
    ensures Inv(s', a)
  {
    hide Owned;
    hide Chain;
    SendersAfter(s, a, s', a, id);
    SameReceiver(s, a, s', a);
    if j :| 0 <= j < |s.senders| && Owes(s.senders[j]) {
      assert s'.ipi || Owes(s'.senders[j]);
    }
  }

  lemma HoldsNothing(s: State, a: Lists, id: nat)
    requires SendersOk(s, a) && id < |s.senders|
    requires s.senders[id].Idle? || s.senders[id].OwesIpi? || s.senders[id].Broadcasting?
    ensures a.held[id] == []
  {
    assert SenderOk(s.senders[id], a.held[id], s.next, s.body);
  }

  lemma SenderInv(s: State, a: Lists, id: nat) returns (a': Lists)
    requires Inv(s, a) && Enabled(s, Step.Sender(id))
    ensures Inv(SenderStep(s, id), a')
  {
    hide Inv;
    if Quiet(s, id) {
      a' := a;
      SenderQuietStep(s, a, id);
    } else {
      match s.senders[id]
      case WantSlot(_, _) => a' := ExchangeFree(s, a, id);
      case GotList(_, _, _) => a' := ReturnRest(s, a, id);
      case Returning(_, _, _, _, _) => a' := ReturnRest(s, a, id);
      case Pushing(_, _, _, _) => a' := PushPending(s, a, id);
      case OwesIpi => a' := a; SenderSignals(s, a, id);
      case Broadcasting(_) => a' := a; SenderSignals(s, a, id);
    }
  }

  lemma SenderSignals(s: State, a: Lists, id: nat)
    requires Inv(s, a) && Enabled(s, Step.Sender(id)) && (s.senders[id].OwesIpi? || s.senders[id].Broadcasting?)
    ensures Inv(SenderStep(s, id), a)
  {
    HoldsNothing(s, a, id);
    hide Partition;
    hide QueuesOk;
    hide SendersOk;
    hide ReceiverOk;
    hide InOrder;
    hide Signalled;
    SignalStep(s, a, SenderStep(s, id), id);
  }

  lemma StartInv(s: State, a: Lists, id: nat, p: Sender)
    requires Inv(s, a) && id < |s.senders| && (s.senders[id].Idle? || s.senders[id].Broadcasting?)
    requires s.senders[id].Idle? ==> p.WantSlot?
    requires s.senders[id].Broadcasting? ==> p.Broadcasting? && (s.senders[id].needsIpi ==> p.needsIpi)
    ensures Inv(s.(senders := s.senders[id := p]), a)
  {
    HoldsNothing(s, a, id);
    hide Partition;
    hide QueuesOk;
    hide SendersOk;
    hide ReceiverOk;
    hide InOrder;
    hide Signalled;
    SignalStep(s, a, s.(senders := s.senders[id := p]), id);
  }

  // ---------------------------------------------------------------- receiver steps

  lemma WakeInv(s: State, a: Lists, s': State)
    requires Inv(s, a) && s.receiver.Resting?
    requires s' == s.(ipi := s'.ipi, receiver := Entered)
    ensures Inv(s', a)
  {
    hide Owned;
    hide Chain;
    hide SenderOk;
    assert Waiting(s', a) == Waiting(s, a);
  }

  lemma ForeignIpiInv(s: State, a: Lists)
    requires Inv(s, a)
    ensures Inv(s.(ipi := true), a)
  {
    hide Owned;
    hide Chain;
    hide SenderOk;
    assert Waiting(s.(ipi := true), a) == Waiting(s, a);
  }

  /** The receiver takes the whole pending list. */
  lemma ExchangePending(s: State, a: Lists) returns (a': Lists)
    requires Inv(s, a) && s.receiver.Entered?
    ensures Inv(ReceiverStep(s), a')
    ensures a' == a.(place := a'.place, pending := [], rest := a.pending)
  {
    hide Owned;
    hide Chain;
    hide SenderOk;
    var s' := ReceiverStep(s);
    a' := a.(place := Moved(a.place, a.pending, Received), pending := [], rest := a.pending);
    ChainFacts(s.next, s.pending, a.pending, Null);
    assert [] + a.pending == a.pending && a.pending + [] == a.pending;
    PartitionMoved(s, a, s', a', [], a.pending, Pending, Received);
    EmptyChain(s.next);
    assert Waiting(s', a') == Waiting(s, a);
  }

  lemma EmptyChain(next: seq<Ptr>)
    ensures Chain(next, Null, [], Null)
  {
  }

  /** A receiver step changes `next` on its own slots only: everybody else is unaffected. */
  lemma ReceiverLocal(s: State, a: Lists, s': State, a': Lists)
    requires Partition(s, a) && QueuesOk(s, a) && SendersOk(s, a) && OnlyAt(s, s', a.place, Received)
    requires s'.senders == s.senders && s'.free == s.free && s'.pending == s.pending
    requires a'.held == a.held && a'.free == a.free && a'.pending == a.pending
    ensures QueuesOk(s', a') && SendersOk(s', a')
  {
    ChainFrame(s, s', a.place, Received, s.free, a.free, Null);
    ChainFrame(s, s', a.place, Received, s.pending, a.pending, Null);
    forall j | 0 <= j < |s.senders| ensures SenderOk(s'.senders[j], a'.held[j], s'.next, s'.body) {
      SenderFrame(s, s', a.place, Received, s.senders[j], a.held[j]);
    }
  }

  lemma OwnedPermuted(place: seq<Place>, l: seq<nat>, l': seq<nat>, p: Place)
    requires Owned(place, l, p) && multiset(l) == multiset(l')
    ensures Owned(place, l', p)
  {
    forall x ensures x in l <==> x in l' {
      assert x in l <==> x in multiset(l);
      assert x in l' <==> x in multiset(l');
    }
    forall i | 0 <= i < |l'| ensures l'[i] < |place| && place[l'[i]] == p {
      assert l'[i] in l;
    }
    DistinctCounts(l);
    forall i, j | 0 <= i < j < |l'| ensures l'[i] != l'[j] {
      if l'[i] == l'[j] {
        TwiceCounts(l', i, j);
      }
    }
  }

  lemma DistinctCounts(l: seq<nat>)
    requires forall i, j :: 0 <= i < j < |l| ==> l[i] != l[j]
    ensures forall x :: multiset(l)[x] <= 1
  {
    if l != [] {
      DistinctCounts(l[1..]);
      assert l == [l[0]] + l[1..];
      assert l[0] !in l[1..];
    }
  }

  lemma TwiceCounts(l: seq<nat>, i: nat, j: nat)
    requires i < j < |l| && l[i] == l[j]
    ensures multiset(l)[l[i]] >= 2
  {
    assert l == l[..j] + l[j..];
    assert l[i] in l[..j] && l[j..][0] == l[i];
  }

  /** One slot moves from the front of the pending list to the reversed one. */
  lemma ReverseOne(s: State, a: Lists) returns (a': Lists)
    requires Inv(s, a) && s.receiver.Reversing? && s.receiver.message.To? && Enabled(s, Step.Receiver)
    ensures Inv(ReceiverStep(s), a')
    ensures a.rest != [] && a' == a.(done := [a.rest[0]] + a.done, rest := a.rest[1..])
  {
    hide SenderOk;
    hide QueuesOk;
    var s', x := ReceiverStep(s), s.receiver.message.slot;
    a' := a.(done := [x] + a.done, rest := a.rest[1..]);
    ReversedShape(s, a);
    hide Chain;
    hide Owned;
    ReceiverLocal(s, a, s', a');
    assert a.rest == [x] + a.rest[1..];
    assert Waiting(s', a') == Waiting(s, a) by {
      assert Reversed(a.rest) + a.done == Reversed(a.rest[1..]) + ([x] + a.done);
    }
  }

  lemma ReversedShape(s: State, a: Lists)
    requires Partition(s, a) && ReceiverOk(s, a) && s.receiver.Reversing? && s.receiver.message.To? && Enabled(s, Step.Receiver)
    ensures a.rest != [] && a.rest[0] == s.receiver.message.slot
    ensures var x := a.rest[0];
            && OnlyAt(s, ReceiverStep(s), a.place, Received)
            && Owned(a.place, [x] + a.done + a.rest[1..], Received)
            && Chain(ReceiverStep(s).next, To(x), [x] + a.done, Null)
            && Chain(ReceiverStep(s).next, s.next[x], a.rest[1..], Null)
  {
    hide Owned;
    hide Chain;
    ChainFacts(s.next, s.receiver.message, a.rest, Null);
    var x, s' := a.rest[0], ReceiverStep(s);
    HeadOfRest(a.place, a.done, a.rest);
    ChainTail(s.next, s.receiver.message, a.rest, Null);
    UntouchedChain(s.next, x, s.receiver.reversed, s.receiver.reversed, a.done);
    UntouchedChain(s.next, x, s.receiver.reversed, s.next[x], a.rest[1..]);
    PushedChain(s'.next, x, a.done, s.receiver.reversed);
  }

  lemma HeadOfRest(place: seq<Place>, done: seq<nat>, rest: seq<nat>)
    requires Owned(place, done + rest, Received) && rest != []
    ensures rest[0] < |place| && place[rest[0]] == Received
    ensures forall i :: 0 <= i < |done| ==> done[i] != rest[0]
    ensures forall i :: 0 <= i < |rest[1..]| ==> rest[1..][i] != rest[0]
    ensures Owned(place, [rest[0]] + done + rest[1..], Received)
  {
    var x, l := rest[0], done + rest;
    assert l[|done|] == x;
    assert multiset(l) == multiset([x] + done + rest[1..]) by {
      assert rest == [x] + rest[1..];
    }
    OwnedPermuted(place, l, [x] + done + rest[1..], Received);
    assert forall i :: 0 <= i < |done| ==> l[i] == done[i];
    assert forall i :: 0 <= i < |rest[1..]| ==> l[|done| + 1 + i] == rest[1..][i];
  }

  lemma UntouchedChain(next: seq<Ptr>, x: nat, v: Ptr, head: Ptr, l: seq<nat>)
    requires x < |next| && Chain(next, head, l, Null) && forall i :: 0 <= i < |l| ==> l[i] != x
    ensures Chain(next[x := v], head, l, Null)
  {
    var next' := next[x := v];
    forall i | 0 <= i < |l| ensures Link(next', l, Null, i) {
      assert Link(next, l, Null, i);
    }
  }

  lemma StartHandling(s: State, a: Lists) returns (a': Lists)
    requires Inv(s, a) && s.receiver.Reversing? && s.receiver.message.Null? && Enabled(s, Step.Receiver)
    ensures Inv(ReceiverStep(s), a')
    ensures a.rest == [] && a' == a.(done := [], rest := a.done)
  {
    hide SenderOk;
    hide Owned;
    ChainFacts(s.next, s.receiver.message, a.rest, Null);
    ChainFacts(s.next, s.receiver.reversed, a.done, Null);
    hide Chain;
    a' := a.(done := [], rest := a.done);
    assert a.rest == [] && a.done + a.rest == a.done && [] + a.done == a.done;
    assert Waiting(ReceiverStep(s), a') == Waiting(s, a);
  }

  /** The oldest waiting message is handled. */
  lemma HandleOne(s: State, a: Lists) returns (a': Lists)
    requires Inv(s, a) && s.receiver.Handling? && s.receiver.message.To? && Enabled(s, Step.Receiver)
    ensures Inv(ReceiverStep(s), a')
    ensures a.rest != [] && a' == a.(done := a.done + [a.rest[0]], rest := a.rest[1..])
  {
    hide SenderOk;
    hide Owned;
    var x, s', l := s.receiver.message.slot, ReceiverStep(s), a.done + a.rest;
    a' := a.(done := a.done + [x], rest := a.rest[1..]);
    assert Link(s.next, l, Null, |a.done|) && l[|a.done|] == x;
    assert a'.done + a'.rest == l;
    hide Chain;
    assert Waiting(s, a) == [x] + Waiting(s', a');
    HandledInOrder(s, a, s', a', x);
  }

  lemma HandledInOrder(s: State, a: Lists, s': State, a': Lists, x: nat)
    requires InOrder(s, a) && x < |s.body| && Waiting(s, a) == [x] + Waiting(s', a')
    requires s'.body == s.body && s'.pushed == s.pushed && s'.handled == s.handled + [s.body[x]]
    ensures InOrder(s', a')
  {
    var w := Waiting(s', a');
    forall i | 0 <= i < |w| ensures w[i] < |s.body| {
      assert Waiting(s, a)[i + 1] == w[i];
    }
    assert Bodies(s.body, Waiting(s, a)) == [s.body[x]] + Bodies(s.body, w);
  }

  /** The last handled slot is pointed at the free list. */
  lemma StartGivingBack(s: State, a: Lists)
    requires Inv(s, a) && s.receiver.Handling? && s.receiver.message.Null? && Enabled(s, Step.Receiver)
    ensures Inv(ReceiverStep(s), a)
  {
    hide SenderOk;
    hide QueuesOk;
    var s' := ReceiverStep(s);
    assert a.done + a.rest == a.done;
    ChainFacts(s.next, s.receiver.first, a.done, Null);
    LastRelinked(s.next, a.done[0], a.done, Null, s.free);
    hide Chain;
    ReceiverLocal(s, a, s', a);
    assert Waiting(s', a) == Waiting(s, a);
  }

  /** The handled slots go to the front of the free list, or the exchange is retried. */
  lemma GiveBack(s: State, a: Lists) returns (a': Lists)
    requires Inv(s, a) && s.receiver.GivingBack? && Enabled(s, Step.Receiver)
    ensures Inv(ReceiverStep(s), a')
  {
    hide Inv;
    hide ReceiverStep;
    if s.free == s.next[s.receiver.last] {
      a' := GivenBack(s, a);
    } else {
      a' := a;
      GiveBackRetry(s, a);
    }
  }

  lemma GivenBack(s: State, a: Lists) returns (a': Lists)
    requires Inv(s, a) && s.receiver.GivingBack? && Enabled(s, Step.Receiver) && s.free == s.next[s.receiver.last]
    ensures Inv(ReceiverStep(s), a')
    ensures a' == a.(place := a'.place, done := [], free := a.done + a.free)
  {
    hide SenderOk;
    hide Owned;
    hide Chain;
    var s' := ReceiverStep(s);
    assert a.done + a.rest == a.done && [] + a.done == a.done && a.rest == [];
    a' := a.(place := Moved(a.place, a.done, Free), done := [], free := a.done + a.free);
    ChainJoin(s.next, s.receiver.first, a.done, s.free, a.free, Null);
    PartitionMoved(s, a, s', a', [], a.done, Received, Free);
    assert Waiting(s', a') == Waiting(s, a);
  }

  lemma GiveBackRetry(s: State, a: Lists)
    requires Inv(s, a) && s.receiver.GivingBack? && Enabled(s, Step.Receiver) && s.free != s.next[s.receiver.last]
    ensures Inv(ReceiverStep(s), a)
  {
    hide SenderOk;
    hide QueuesOk;
    var s', l := ReceiverStep(s), s.receiver.last;
    assert a.done + a.rest == a.done;
    ChainFacts(s.next, s.receiver.first, a.done, s.next[l]);
    LastRelinked(s.next, a.done[0], a.done, s.next[l], s.free);
    hide Chain;
    ReceiverLocal(s, a, s', a);
    assert Waiting(s', a) == Waiting(s, a);
  }

  lemma ReceiverInv(s: State, a: Lists) returns (a': Lists)
    requires Inv(s, a) && Enabled(s, Step.Receiver)
    ensures Inv(ReceiverStep(s), a')
  {
    hide Inv;
    match s.receiver
    case Entered => a' := ExchangePending(s, a);
    case Reversing(_, To(_)) => a' := ReverseOne(s, a);
    case Reversing(_, Null) => a' := StartHandling(s, a);
    case Handling(_, To(_), _) => a' := HandleOne(s, a);
    case Handling(_, Null, _) => a' := a; StartGivingBack(s, a);
    case GivingBack(_, _) => a' := GiveBack(s, a);
  }

  // ---------------------------------------------------------------- whole runs

  lemma InitInv(slots: nat, senders: nat) returns (a: Lists)
    ensures Inv(Init(slots, senders), a)
  {
    hide Owned;
    hide Chain;
    var s, l, place := Init(slots, senders), seq(slots, (i: nat) => i), seq(slots, (i: nat) => Free);
    a := Lists(place, l, [], seq(senders, (i: nat) => []), [], []);
    AllFree(slots, place, l);
    AllChained(slots, senders, l);
    NothingElsewhere(place);
    EmptyChain(s.next);
    assert a.done + a.rest == [] && Waiting(s, a) == [] && Bodies(s.body, []) == [];
    assert forall id :: 0 <= id < senders ==> a.held[id] == [] && s.senders[id] == Idle;
  }

  lemma AllFree(slots: nat, place: seq<Place>, l: seq<nat>)
    requires place == seq(slots, (i: nat) => Free) && l == seq(slots, (i: nat) => i)
    ensures Owned(place, l, Free)
  {
    forall x | 0 <= x < slots ensures x in l {
      assert l[x] == x;
    }
  }

  lemma AllChained(slots: nat, senders: nat, l: seq<nat>)
    requires l == seq(slots, (i: nat) => i)
    ensures Chain(Init(slots, senders).next, Init(slots, senders).free, l, Null)
  {
    forall i | 0 <= i < |l| ensures Link(Init(slots, senders).next, l, Null, i) {
    }
  }

  lemma NothingElsewhere(place: seq<Place>)
    requires forall x :: 0 <= x < |place| ==> place[x] == Free
    ensures forall p :: p != Free ==> Owned(place, [], p)
  {
  }

  lemma StepInv(s: State, a: Lists, step: Step) returns (a': Lists)
    requires Inv(s, a) && Enabled(s, step)
    ensures Inv(Apply(s, step), a')
  {
    hide Inv;
    a' := a;
    match step
    case Start(id, m, mode) => StartInv(s, a, id, WantSlot(m, mode));
    case Sender(id) => a' := SenderInv(s, a, id);
    case OtherTarget(id, wasFirst) => StartInv(s, a, id, Broadcasting(s.senders[id].needsIpi || wasFirst));
    case TakeIpi => WakeInv(s, a, Apply(s, step));
    case PauseDrain => WakeInv(s, a, Apply(s, step));
    case Receiver => a' := ReceiverInv(s, a);
    case ForeignIpi => ForeignIpiInv(s, a);
  }

  lemma {:induction false} RunInv(s: State, a: Lists, steps: seq<Step>) returns (a': Lists)
    requires Inv(s, a) && CanRun(s, steps)
    ensures Inv(Run(s, steps), a')
    decreases |steps|
  {
    hide Inv;
    if steps == [] {
      a' := a;
    } else {
      a' := StepInv(s, a, steps[0]);
      a' := RunInv(Apply(s, steps[0]), a', steps[1..]);
    }
  }

  /** The state is reached by some interleaving from initialize_smp. */
  ghost predicate Reachable(s: State) {
    exists slots: nat, senders: nat, steps: seq<Step> ::
      CanRun(Init(slots, senders), steps) && s == Run(Init(slots, senders), steps)
  }

  lemma ReachableInv(s: State) returns (a: Lists)
    requires Reachable(s)
    ensures Inv(s, a)
  {
    var slots: nat, senders: nat, steps: seq<Step> :|
      CanRun(Init(slots, senders), steps) && s == Run(Init(slots, senders), steps);
    a := InitInv(slots, senders);
    a := RunInv(Init(slots, senders), a, steps);
  }

  /** In every interleaving each slot is in one place, and only the list of that place has it, once. */
  lemma SlotInOnePlace(s: State, x: nat) returns (a: Lists, p: Place)
    requires Reachable(s) && x < |s.next|
    ensures Inv(s, a) && Known(a, p)
    ensures forall r :: Known(a, r) ==> (x in ListOf(a, r) <==> r == p)
    ensures multiset(ListOf(a, p))[x] == 1
  {
    a := ReachableInv(s);
    p := a.place[x];
    forall r | Known(a, r) ensures x in ListOf(a, r) <==> r == p {
      OwnedOf(s, a, r);
    }
    OwnedOf(s, a, p);
    DistinctCounts(ListOf(a, p));
  }

  /** In every interleaving, messages are handled at most once and in push order. */
  lemma HandledInPushOrder(s: State)
    requires Reachable(s)
    ensures s.handled <= s.pushed
    ensures s.pending.Null? && s.receiver.Resting? ==> s.handled == s.pushed
  {
    var a := ReachableInv(s);
    ChainFacts(s.next, s.pending, a.pending, Null);
  }

  /** In every interleaving, a non-empty pending list is about to be looked at. */
  lemma NoMessageStranded(s: State)
    requires Reachable(s)
    ensures s.pending.To? ==> s.ipi || s.receiver.Entered? || exists id :: 0 <= id < |s.senders| && Owes(s.senders[id])
  {
    var a := ReachableInv(s);
  }

  /** In every interleaving, no sender and no receiver ever follows a null or dangling pointer. */
  lemma NobodyGetsStuck(s: State)
    requires Reachable(s)
    ensures forall id :: 0 <= id < |s.senders| && !s.senders[id].Idle? ==> Enabled(s, Step.Sender(id))
    ensures !s.receiver.Resting? ==> Enabled(s, Step.Receiver)
  {
    var a := ReachableInv(s);
    forall id | 0 <= id < |s.senders| && !s.senders[id].Idle? ensures Enabled(s, Step.Sender(id)) {
      SenderEnabled(s, a, id);
    }
    ReceivedPlaces(s, a);
    match s.receiver
    case Reversing(_, To(x)) => ChainFacts(s.next, s.receiver.message, a.rest, Null);
    case _ =>
  }

  lemma SenderEnabled(s: State, a: Lists, id: nat)
    requires Partition(s, a) && SendersOk(s, a) && id < |s.senders| && !s.senders[id].Idle?
    ensures Enabled(s, Step.Sender(id))
  {
    var l := a.held[id];
    assert SenderOk(s.senders[id], l, s.next, s.body) && Owned(a.place, l, Held(id));
    match s.senders[id]
    case GotList(_, _, x) => assert l[0] == x;
    case Walking(_, _, _, _, last) => assert last in l;
    case HasSlot(_, _, x) => assert l[0] == x;
    case Loading(_, _, x) => assert l[0] == x;
    case _ =>
  }

  /** Following `next` from head for at most n slots. */
  function Walk(next: seq<Ptr>, head: Ptr, n: nat): seq<nat>
    decreases n
  {
    if n == 0 || head.Null? || head.slot >= |next| then [] else [head.slot] + Walk(next, next[head.slot], n - 1)
  }

  lemma {:induction false} ChainIsWalk(next: seq<Ptr>, head: Ptr, l: seq<nat>, n: nat)
    requires Chain(next, head, l, Null) && |l| <= n
    ensures Walk(next, head, n) == l
    decreases n
  {
    if l != [] {
      ChainTail(next, head, l, Null);
      ChainIsWalk(next, next[l[0]], l[1..], n - 1);
      assert l == [l[0]] + l[1..];
    }
  }

  /** Once everybody has finished, the free list and the pending list hold all the slots again. */
  lemma SlotsConserved(s: State, x: nat)
    requires Reachable(s) && x < |s.next| && s.receiver.Resting?
    requires forall id :: 0 <= id < |s.senders| ==> s.senders[id].Idle?
    ensures multiset(Walk(s.next, s.free, |s.next|) + Walk(s.next, s.pending, |s.next|))[x] == 1
  {
    var a := ReachableInv(s);
    OwnedBound(a.place, a.free, Free);
    OwnedBound(a.place, a.pending, Pending);
    ChainIsWalk(s.next, s.free, a.free, |s.next|);
    ChainIsWalk(s.next, s.pending, a.pending, |s.next|);
    OwnedCount(a.place, a.free, Free, x);
    OwnedCount(a.place, a.pending, Pending, x);
    assert a.place[x] == Free || a.place[x] == Pending by {
      OwnedOf(s, a, a.place[x]);
      if a.place[x].Held? {
        HoldsNothing(s, a, a.place[x].id);
      }
    }
  }

  lemma OwnedCount(place: seq<Place>, l: seq<nat>, p: Place, x: nat)
    requires Owned(place, l, p) && x < |place|
    ensures multiset(l)[x] == if place[x] == p then 1 else 0
  {
    DistinctCounts(l);
    assert x in l <==> x in multiset(l);
  }

  lemma OwnedBound(place: seq<Place>, l: seq<nat>, p: Place)
    requires Owned(place, l, p)
    ensures |l| <= |place|
  {
    Pigeonhole.DistinctBound(l, |place|);
  }
}

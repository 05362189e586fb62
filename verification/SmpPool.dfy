/**
  The message queue of a CPU as a pool: what has been sent and not handled yet.  SchedulerSteps keeps its messages in
  such pools.
 */
module SmpPool {
  import opened SmpMessages

  /** The message that a sender has begun to send and not pushed yet. */
  function Underway(p: Sender): multiset<Message> {
    match p
    case WantSlot(m, _) => multiset{m}
    case GotList(m, _, _) => multiset{m}
    case Walking(m, _, _, _, _) => multiset{m}
    case Returning(m, _, _, _, _) => multiset{m}
    case HasSlot(m, _, _) => multiset{m}
    case Loading(m, _, _) => multiset{m}
    case Pushing(m, _, _, _) => multiset{m}
    case _ => multiset{}
  }

  function Carried(senders: seq<Sender>): multiset<Message> {
    if senders == [] then multiset{} else Carried(senders[..|senders| - 1]) + Underway(senders[|senders| - 1])
  }

  /** All messages that have been sent and not handled yet. */
  function Pool(s: State): multiset<Message> {
    Carried(s.senders) + (multiset(s.pushed) - multiset(s.handled))
  }

  lemma {:induction false} CarriedAfter(senders: seq<Sender>, id: nat, p: Sender)
    requires id < |senders|
    ensures Carried(senders[id := p]) + Underway(senders[id]) == Carried(senders) + Underway(p)
  {
    hide Underway;
    var n := |senders| - 1;
    var senders' := senders[id := p];
    if id == n {
      assert senders'[..n] == senders[..n];
    } else {
      assert senders'[..n] == senders[..n][id := p] && senders'[n] == senders[n] && senders[..n][id] == senders[id];
      CarriedAfter(senders[..n], id, p);
      Exchanged(Carried(senders'[..n]), Underway(senders[id]), Carried(senders[..n]), Underway(p), Underway(senders[n]));
    }
  }

  lemma Exchanged(a: multiset<Message>, b: multiset<Message>, c: multiset<Message>, d: multiset<Message>, e: multiset<Message>)
    requires a + b == c + d
    ensures (a + e) + b == (c + e) + d
  {
    forall m ensures ((a + e) + b)[m] == ((c + e) + d)[m] {
      assert (a + b)[m] == (c + d)[m];
    }
  }

  /** What has been handled has been pushed. */
  lemma HandledWasPushed(s: State, a: Lists)
    requires Inv(s, a)
    ensures s.handled <= s.pushed && multiset(s.handled) <= multiset(s.pushed)
  {
    assert s.pushed == s.handled + s.pushed[|s.handled|..];
  }

  /** Nobody but the sender moves. */
  lemma OtherSenders(s: State, id: nat)
    requires Enabled(s, Step.Sender(id))
    ensures var s' := Apply(s, Step.Sender(id));
            id < |s.senders| == |s'.senders| && s'.handled == s.handled
            && forall j :: 0 <= j < |s.senders| && j != id ==> s'.senders[j] == s.senders[j]
  {
  }

  predicate Pushes(s: State, id: nat)
    requires id < |s.senders|
  {
    s.senders[id].Pushing? && s.pending == s.senders[id].seen
  }

  ghost predicate KeepsMessage(s: State, s': State, id: nat)
    requires id < |s.senders|
  {
    id < |s'.senders| && s'.pushed == s.pushed && Underway(s'.senders[id]) == Underway(s.senders[id])
  }

  predicate Looking(p: Sender) {
    p.WantSlot? || p.GotList? || p.Walking? || p.Returning?
  }

  lemma LookingKeeps(s: State, id: nat)
    requires Enabled(s, Step.Sender(id)) && Looking(s.senders[id])
    ensures KeepsMessage(s, Apply(s, Step.Sender(id)), id)
  {
  }

  lemma FillingKeeps(s: State, id: nat)
    requires Enabled(s, Step.Sender(id)) && (s.senders[id].HasSlot? || s.senders[id].Loading?)
    ensures KeepsMessage(s, Apply(s, Step.Sender(id)), id)
  {
  }

  lemma RetryKeeps(s: State, id: nat)
    requires Enabled(s, Step.Sender(id)) && s.senders[id].Pushing? && !Pushes(s, id)
    ensures KeepsMessage(s, Apply(s, Step.Sender(id)), id)
  {
  }

  lemma SignallingKeeps(s: State, id: nat)
    requires Enabled(s, Step.Sender(id)) && (s.senders[id].OwesIpi? || s.senders[id].Broadcasting?)
    ensures KeepsMessage(s, Apply(s, Step.Sender(id)), id)
  {
  }

  /** A sender keeps its message until it pushes it. */
  lemma SenderKeepsMessage(s: State, id: nat)
    requires Enabled(s, Step.Sender(id)) && !Pushes(s, id)
    ensures KeepsMessage(s, Apply(s, Step.Sender(id)), id)
  {
    hide Apply;
    hide KeepsMessage;
    if Looking(s.senders[id]) {
      LookingKeeps(s, id);
    } else if s.senders[id].HasSlot? || s.senders[id].Loading? {
      FillingKeeps(s, id);
    } else if s.senders[id].Pushing? {
      RetryKeeps(s, id);
    } else {
      SignallingKeeps(s, id);
    }
  }

  lemma SenderPushes(s: State, id: nat)
    requires Enabled(s, Step.Sender(id)) && Pushes(s, id)
    ensures var s', m := Apply(s, Step.Sender(id)), s.senders[id].m;
            && id < |s'.senders| && s'.pushed == s.pushed + [m]
            && Underway(s.senders[id]) == multiset{m} && Underway(s'.senders[id]) == multiset{}
  {
  }

  /** A sender's own steps keep its message in the pool. */
  lemma SenderPool(s: State, a: Lists, id: nat)
    requires Inv(s, a) && Enabled(s, Step.Sender(id))
    ensures Pool(Apply(s, Step.Sender(id))) == Pool(s)
  {
    hide Inv;
    hide Apply;
    hide Enabled;
    hide Underway;
    hide Carried;
    var s' := Apply(s, Step.Sender(id));
    HandledWasPushed(s, a);
    OtherSenders(s, id);
    assert s'.senders == s.senders[id := s'.senders[id]];
    CarriedAfter(s.senders, id, s'.senders[id]);
    if !Pushes(s, id) {
      SenderKeepsMessage(s, id);
      Cancelled(Carried(s'.senders), Carried(s.senders), Underway(s.senders[id]));
    } else {
      SenderPushes(s, id);
      PushedOn(Carried(s'.senders), Carried(s.senders), Underway(s.senders[id]), multiset(s.pushed), multiset(s.handled));
    }
  }

  lemma Cancelled(a: multiset<Message>, b: multiset<Message>, c: multiset<Message>)
    requires a + c == b + c
    ensures a == b
  {
    forall m ensures a[m] == b[m] {
      assert (a + c)[m] == (b + c)[m];
    }
  }

  lemma PushedOn(a: multiset<Message>, b: multiset<Message>, m: multiset<Message>, pushed: multiset<Message>, handled: multiset<Message>)
    requires a + m == b + multiset{} && handled <= pushed
    ensures a + (pushed + m - handled) == b + (pushed - handled)
  {
    forall x ensures (a + (pushed + m - handled))[x] == (b + (pushed - handled))[x] {
      assert (a + m)[x] == (b + multiset{})[x];
    }
  }

  predicate Handles(s: State, step: Step) {
    step.Receiver? && s.receiver.Handling? && s.receiver.message.To?
  }

  /** The message that the step handles, if it does. */
  function HandledBy(s: State, step: Step): multiset<Message>
    requires Enabled(s, step)
  {
    if Handles(s, step) then multiset{s.body[s.receiver.message.slot]} else multiset{}
  }

  lemma StepHandled(s: State, step: Step)
    requires Enabled(s, step)
    ensures multiset(Apply(s, step).handled) == multiset(s.handled) + HandledBy(s, step)
  {
  }

  lemma ReceiverKeepsPushed(s: State, step: Step)
    requires Enabled(s, step) && !step.Start? && !step.Sender? && !step.OtherTarget?
    ensures Apply(s, step).pushed == s.pushed && Apply(s, step).senders == s.senders
  {
  }

  lemma TakenOut(a: multiset<Message>, pushed: multiset<Message>, handled: multiset<Message>, m: multiset<Message>)
    requires handled + m <= pushed
    ensures m <= a + (pushed - handled) && a + (pushed - (handled + m)) == a + (pushed - handled) - m
  {
    forall x ensures m[x] <= (a + (pushed - handled))[x] {
      assert (handled + m)[x] <= pushed[x];
    }
  }

  /** Sending adds to the pool, handling takes from it, and every other step of the queue leaves it alone. */
  lemma StepPool(s: State, a: Lists, step: Step)
    requires Inv(s, a) && Enabled(s, step)
    ensures HandledBy(s, step) <= Pool(s)
    ensures Pool(Apply(s, step)) == Pool(s) + (if step.Start? then multiset{step.m} else multiset{}) - HandledBy(s, step)
  {
    hide Inv;
    hide Carried;
    if step.Sender? {
      SenderPool(s, a, step.id);
    } else if step.Start? || step.OtherTarget? {
      StartPool(s, step);
    } else {
      DrainPool(s, a, step);
    }
  }

  lemma StartPool(s: State, step: Step)
    requires Enabled(s, step) && (step.Start? || step.OtherTarget?)
    ensures Pool(Apply(s, step)) == Pool(s) + if step.Start? then multiset{step.m} else multiset{}
  {
    hide Carried;
    hide Apply;
    hide Underway;
    var s' := Apply(s, step);
    Starts(s, step);
    CarriedAfter(s.senders, step.id, s'.senders[step.id]);
    Added(Carried(s'.senders), Carried(s.senders), Underway(s'.senders[step.id]), multiset(s.pushed) - multiset(s.handled));
  }

  lemma Starts(s: State, step: Step)
    requires Enabled(s, step) && (step.Start? || step.OtherTarget?)
    ensures var s' := Apply(s, step);
            && |s'.senders| == |s.senders| && s'.senders == s.senders[step.id := s'.senders[step.id]]
            && s'.pushed == s.pushed && s'.handled == s.handled && Underway(s.senders[step.id]) == multiset{}
            && Underway(s'.senders[step.id]) == if step.Start? then multiset{step.m} else multiset{}
  {
  }

  lemma Added(a: multiset<Message>, b: multiset<Message>, m: multiset<Message>, rest: multiset<Message>)
    requires a + multiset{} == b + m
    ensures a + rest == b + rest + m
  {
    forall x ensures (a + rest)[x] == (b + rest + m)[x] {
      assert (a + multiset{})[x] == (b + m)[x];
    }
  }

  lemma DrainPool(s: State, a: Lists, step: Step)
    requires Inv(s, a) && Enabled(s, step) && !step.Start? && !step.Sender? && !step.OtherTarget?
    ensures HandledBy(s, step) <= Pool(s) && Pool(Apply(s, step)) == Pool(s) - HandledBy(s, step)
  {
    hide Inv;
    hide Apply;
    hide Enabled;
    hide Carried;
    hide HandledBy;
    var a' := StepInv(s, a, step);
    HandledWasPushed(Apply(s, step), a');
    StepHandled(s, step);
    ReceiverKeepsPushed(s, step);
    TakenOut(Carried(s.senders), multiset(s.pushed), multiset(s.handled), HandledBy(s, step));
  }

  function Sent(steps: seq<Step>): multiset<Message> {
    if steps == [] then multiset{}
    else (if steps[0].Start? then multiset{steps[0].m} else multiset{}) + Sent(steps[1..])
  }

  lemma {:induction false} RunPool(s: State, a: Lists, steps: seq<Step>)
    requires Inv(s, a) && CanRun(s, steps)
    ensures multiset(Run(s, steps).handled) + Pool(Run(s, steps)) == multiset(s.handled) + Pool(s) + Sent(steps)
    decreases |steps|
  {
    hide Inv;
    hide Apply;
    hide Enabled;
    hide Pool;
    hide HandledBy;
    if steps != [] {
      var a' := StepInv(s, a, steps[0]);
      StepPool(s, a, steps[0]);
      StepHandled(s, steps[0]);
      RunPool(Apply(s, steps[0]), a', steps[1..]);
    }
  }

  /** In every run, whatever has been sent has been handled or is in the pool, and nothing else is. */
  lemma NothingLostOrMadeUp(slots: nat, senders: nat, steps: seq<Step>)
    requires CanRun(Init(slots, senders), steps)
    ensures var s := Run(Init(slots, senders), steps); multiset(s.handled) + Pool(s) == Sent(steps)
  {
    hide Inv;
    var a := InitInv(slots, senders);
    RunPool(Init(slots, senders), a, steps);
    NobodySends(senders);
  }

  lemma {:induction false} NobodySends(senders: nat)
    ensures Carried(seq(senders, (i: nat) => Idle)) == multiset{}
  {
    if senders > 0 {
      NobodySends(senders - 1);
      assert seq(senders, (i: nat) => Idle)[..senders - 1] == seq(senders - 1, (i: nat) => Idle);
    }
  }
}

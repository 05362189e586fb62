/**
  The scheduler of one processor (kernel/kernel/Scheduler.cpp): its current thread, its run list,
  its block list and its thread count.
 */
module Scheduler {
  import opened Options
  import opened Sequences
  import opened ThreadNode
  import SchedulerHeap
  import SchedulerQueue
  import SchedulerSteps

  /** The nodes are ordered by wake time. */
  ghost predicate Sorted(s: seq<Node>)
    reads s
  {
    forall i, j :: 0 <= i < j < |s| ==> s[i].wakeTime <= s[j].wakeTime
  }

  // ---------------------------------------------------------------- what a scheduler stands for

  ghost function Tids(s: seq<Node>): seq<nat> {
    seq(|s|, (i: nat) requires i < |s| => s[i].tid)
  }

  ghost function TidSet(m: set<Node>): set<nat> {
    set x | x in m :: x.tid
  }

  /** Different nodes belong to different threads. */
  ghost predicate Identified(m: set<Node>) {
    forall x, y :: x in m && y in m && x.tid == y.tid ==> x == y
  }

  ghost function NodesOf(items: seq<Node>, members: set<Node>, current: Node?): set<Node> {
    (set x | x in items) + members + if current == null then {} else {current}
  }

  lemma NodesAdded(items: seq<Node>, members: set<Node>, current: Node?, x: Node)
    requires Identified(NodesOf(items, members, current)) && forall y :: y in NodesOf(items, members, current) ==> y.tid != x.tid
    ensures x != current && x !in items && x !in members
    ensures Identified(NodesOf(items + [x], members, current))
  {
    assert NodesOf(items + [x], members, current) == NodesOf(items, members, current) + {x};
    assert x !in NodesOf(items, members, current);
  }

  lemma NodesUnblocked(items: seq<Node>, members: set<Node>, current: Node?, x: Node)
    requires x in members
    ensures NodesOf(items + [x], members - {x}, current) == NodesOf(items, members, current)
  {
  }

  lemma NodesPicked(items: seq<Node>, members: set<Node>)
    requires items != []
    ensures NodesOf(items[1..], members, items[0]) == NodesOf(items, members, null)
  {
    assert items == [items[0]] + items[1..];
  }

  lemma NodesPutBack(items: seq<Node>, members: set<Node>, x: Node)
    requires Identified(NodesOf(items, members, x))
    ensures Identified(NodesOf(items + [x], members, null))
    ensures Identified(NodesOf(items, members + {x}, null))
    ensures Identified(NodesOf(items, members, null))
  {
    assert NodesOf(items + [x], members, null) == NodesOf(items, members, x);
    assert NodesOf(items, members + {x}, null) == NodesOf(items, members, x);
    assert NodesOf(items, members, null) <= NodesOf(items, members, x);
  }

  lemma NodesLeft(items: seq<Node>, members: set<Node>, current: Node?, k: nat)
    requires k < |items| && Distinct(items) && items[k] !in members && items[k] != current
    ensures NodesOf(items[..k] + items[k + 1..], members, current) == NodesOf(items, members, current) - {items[k]}
  {
    var rest := items[..k] + items[k + 1..];
    forall x ensures x in rest <==> x in items && x != items[k] {
      if x in items && x != items[k] {
        var i :| 0 <= i < |items| && items[i] == x;
        assert rest[if i < k then i else i - 1] == x;
      }
    }
  }

  lemma NodesWithout(items: seq<Node>, members: set<Node>, current: Node?, x: Node)
    requires x in members && x !in items && x != current
    ensures NodesOf(items, members - {x}, current) == NodesOf(items, members, current) - {x}
  {
  }

  lemma FewerIdentified(m: set<Node>, x: Node)
    requires Identified(m)
    ensures Identified(m - {x})
  {
  }

  lemma NoNodes(items: seq<Node>, members: set<Node>, current: Node?)
    ensures NodesOf(items, members, current) == {} ==> items == [] && members == {} && current == null
  {
    if items != [] {
      assert items[0] in NodesOf(items, members, current);
    }
    assert members <= NodesOf(items, members, current);
    if current != null {
      assert current in NodesOf(items, members, current);
    }
  }

  lemma MembersIdentified(items: seq<Node>, members: set<Node>, current: Node?)
    requires Identified(NodesOf(items, members, current))
    ensures Identified(members)
  {
    assert members <= NodesOf(items, members, current);
  }

  lemma TidsRest(s: seq<Node>)
    requires s != []
    ensures |Tids(s)| == |s| && Tids(s)[0] == s[0].tid && Tids(s)[1..] == Tids(s[1..])
  {
  }

  lemma NoTids()
    ensures Tids([]) == []
  {
  }

  lemma TidsAppend(s: seq<Node>, x: Node)
    ensures Tids(s + [x]) == Tids(s) + [x.tid]
  {
  }

  lemma {:induction false} WithoutAt(q: seq<nat>, k: nat)
    requires k < |q| && Distinct(q)
    ensures SchedulerSteps.Without(q, q[k]) == q[..k] + q[k + 1..]
  {
    if k > 0 {
      WithoutAt(q[1..], k - 1);
      assert q[..k] + q[k + 1..] == [q[0]] + (q[1..][..k - 1] + q[1..][k..]);
    }
  }

  lemma TidsDistinct(s: seq<Node>)
    requires Identified(set x | x in s) && Distinct(s)
    ensures Distinct(Tids(s))
  {
  }

  /** Taking a node out of the list takes its thread out of the threads of the list. */
  lemma TidsWithout(s: seq<Node>, k: nat)
    requires k < |s| && Identified(set x | x in s) && Distinct(s)
    ensures Tids(s[..k] + s[k + 1..]) == SchedulerSteps.Without(Tids(s), s[k].tid)
  {
    TidsDistinct(s);
    WithoutAt(Tids(s), k);
    assert Tids(s[..k] + s[k + 1..]) == Tids(s)[..k] + Tids(s)[k + 1..];
  }

  lemma ItemsIdentified(items: seq<Node>, members: set<Node>, current: Node?)
    requires Identified(NodesOf(items, members, current))
    ensures Identified(set x | x in items)
  {
    assert (set x | x in items) <= NodesOf(items, members, current);
  }

  lemma TidSetWithout(m: set<Node>, x: Node)
    requires x in m && Identified(m)
    ensures TidSet(m - {x}) == TidSet(m) - {x.tid}
  {
    forall y | y in m && y != x ensures y.tid in TidSet(m) && y.tid != x.tid {
    }
  }

  lemma TidSetWith(m: set<Node>, x: Node)
    ensures TidSet(m + {x}) == TidSet(m) + {x.tid}
  {
  }

  lemma NobodyAwoken(cpu: SchedulerSteps.Cpu)
    ensures SchedulerSteps.Wakeable(cpu, []) && SchedulerSteps.AllAwoken(cpu, []) == cpu
  {
  }

  lemma OneMoreAwoken(cpu: SchedulerSteps.Cpu, q: seq<nat>, n: nat)
    requires SchedulerSteps.Wakeable(cpu, q) && n in SchedulerSteps.AllAwoken(cpu, q).blockList
    ensures SchedulerSteps.Wakeable(cpu, q + [n])
    ensures SchedulerSteps.AllAwoken(cpu, q + [n]) == SchedulerSteps.Awoken(SchedulerSteps.AllAwoken(cpu, q), n)
  {
    assert (q + [n])[..|q|] == q;
  }

  class Scheduler {
    const runList: SchedulerQueue.Queue
    const blockList: SchedulerHeap.Heap
    var current: Node?
    var threadCount: nat

    constructor ()
      ensures Valid() && current == null && runList.items == [] && blockList.members == {}
      ensures fresh(runList) && fresh(blockList)
    {
      runList := new SchedulerQueue.Queue();
      blockList := new SchedulerHeap.Heap();
      current, threadCount := null, 0;
    }

    /** The lists and the current thread share no node, so that the union links of a node belong to one of them. */
    ghost predicate Apart()
      reads this, runList, blockList, current
    {
      && (forall x :: x in runList.items ==> x !in blockList.members)
      && (current != null ==> current.Unlinked() && current !in runList.items && current !in blockList.members)
    }

    /** The current thread is blocked and about to yield. */
    ghost predicate Blocking()
      reads this, current
    {
      current != null && current.blocked
    }

    /** The processor of the step machine that this scheduler is. */
    ghost function View(): SchedulerSteps.Cpu
      reads this, runList, blockList, current
    {
      SchedulerSteps.Cpu(if current == null then None else Some(current.tid), Tids(runList.items),
                         TidSet(blockList.members), threadCount,
                         if Blocking() then SchedulerSteps.Blocking else SchedulerSteps.Free)
    }

    /** The nodes of the processor's threads. */
    ghost function Nodes(): set<Node>
      reads this, runList, blockList
    {
      NodesOf(runList.items, blockList.members, current)
    }

    /** Run-list threads are not blocked, block-list threads are, and the count is exact. */
    ghost predicate Valid()
      reads this, runList, blockList, runList.items, blockList.members, current
    {
      && runList.Valid() && blockList.Valid() && Apart() && Identified(NodesOf(runList.items, blockList.members, current))
      && (forall x :: x in runList.items ==> !x.blocked)
      && (forall x :: x in blockList.members ==> x.blocked)
      && threadCount == |runList.items| + |blockList.members| + if current == null then 0 else 1
    }

    /** A scheduler without threads. */
    lemma NothingToDo()
      requires Valid() && Nodes() == {}
      ensures View() == SchedulerSteps.Cpu(None, [], {}, 0, SchedulerSteps.Free)
    {
      NoNodes(runList.items, blockList.members, current);
      assert Tids(runList.items) == [] && TidSet(blockList.members) == {};
    }

    lemma CurrentInView()
      ensures (current == null <==> View().current == None) && (current != null ==> View().current == Some(current.tid))
      ensures View().busy == if Blocking() then SchedulerSteps.Blocking else SchedulerSteps.Free
    {
    }

    /** Where the thread of a node is in the view. */
    lemma PlaceOf(x: Node)
      requires Valid() && x in Nodes()
      ensures x == current ==> View().current == Some(x.tid) && (x.blocked <==> View().busy == SchedulerSteps.Blocking)
      ensures x != current ==> if x.blocked then x.tid in View().blockList else x.tid in View().runList
    {
      if x in runList.items {
        var k :| 0 <= k < |runList.items| && runList.items[k] == x;
        assert Tids(runList.items)[k] == x.tid;
      }
    }

    lemma UnlistedIsCurrent(x: Node)
      requires Valid() && x in Nodes() && x !in runList.items && x !in blockList.members
      ensures x == current && x.Unlinked()
    {
    }

    lemma CurrentIsApart()
      requires Valid()
      ensures current != null ==> current !in runList.items && current !in blockList.members && current in Nodes()
    {
    }

    /** A thread that is not running is on the list that its flag says. */
    lemma BlockedIsAsleep(x: Node)
      requires Valid() && x in Nodes()
      ensures x != current ==> if x.blocked then x in blockList.members else x in runList.items
    {
    }

    /** The owning processor's half of add_thread. */
    method AddThread(node: Node)
      requires Valid() && node.Unlinked() && !node.blocked
      requires forall x :: x in NodesOf(runList.items, blockList.members, current) ==> x.tid != node.tid
      modifies this`threadCount, runList, runList.items`parent, node`parent, node`lchild
      ensures Valid() && runList.items == old(runList.items) + [node]
      ensures View() == old(View()).(runList := old(View()).runList + [node.tid], count := old(View()).count + 1)
    {
      hide Identified;
      hide NodesOf;
      hide Tids;
      hide TidSet;
      hide SchedulerHeap.Heap.Valid;
      hide SchedulerQueue.Queue.Valid;
      TidsAppend(runList.items, node);
      NodesAdded(runList.items, blockList.members, current, node);
      runList.Push(node);
      threadCount := threadCount + 1;
    }

    /** The owning processor's half of unblock_thread: from the block list to the end of the run list, if blocked. */
    method UnblockThread(node: Node)
      requires Valid() && (node.blocked ==> node in blockList.members)
      modifies runList, blockList, runList.items`parent, node`blocked
      modifies blockList.members`parent, blockList.members`lchild, blockList.members`rchild
      ensures Valid() && !node.blocked
      ensures blockList.members == old(blockList.members) - {node}
      ensures runList.items == old(runList.items) + if old(node.blocked) then [node] else []
      ensures View() == if old(node.blocked) then SchedulerSteps.Awoken(old(View()), node.tid) else old(View())
    {
      hide Identified;
      hide NodesOf;
      hide Tids;
      hide TidSet;
      hide SchedulerHeap.Heap.Valid;
      hide SchedulerQueue.Queue.Valid;
      if !node.blocked {
        return;
      }
      TidsAppend(runList.items, node);
      NodesUnblocked(runList.items, blockList.members, current, node);
      MembersIdentified(runList.items, blockList.members, current);
      TidSetWithout(blockList.members, node);
      blockList.Pop(node);
      node.blocked := false;
      runList.Push(node);
    }

    /** Load balancing lets go of a thread: it leaves its list, unlinked and awake, and is no longer counted. */
    method GiveAway(node: Node)
      requires Valid() && if node.blocked then node in blockList.members else node in runList.items
      modifies this`threadCount, runList, blockList, runList.items`parent, runList.items`lchild, node`blocked
      modifies blockList.members`parent, blockList.members`lchild, blockList.members`rchild
      ensures Valid() && node.Unlinked() && !node.blocked
      ensures Nodes() == old(Nodes()) - {node}
      ensures View() == SchedulerSteps.Departed(old(View()), node.tid, old(node.blocked))
    {
      hide Valid;
      if !node.blocked {
        TakeFromRunList(node);
      } else {
        TakeFromBlockList(node);
        node.blocked := false;
      }
    }

    method TakeFromRunList(node: Node)
      requires Valid() && !node.blocked && node in runList.items
      modifies this`threadCount, runList, runList.items`parent, runList.items`lchild
      ensures Valid() && node.Unlinked() && Nodes() == old(Nodes()) - {node}
      ensures View() == old(View()).(runList := SchedulerSteps.Without(old(View()).runList, node.tid),
                                     count := old(View()).count - 1)
    {
      hide Identified;
      hide NodesOf;
      hide Tids;
      hide TidSet;
      hide SchedulerHeap.Heap.Valid;
      hide SchedulerQueue.Queue.Valid;
      ghost var k :| 0 <= k < |runList.items| && runList.items[k] == node;
      runList.AreDistinct();
      ItemsIdentified(runList.items, blockList.members, current);
      TidsWithout(runList.items, k);
      NodesLeft(runList.items, blockList.members, current, k);
      FewerIdentified(NodesOf(runList.items, blockList.members, current), node);
      runList.Pop(node, k);
      threadCount := threadCount - 1;
    }

    method TakeFromBlockList(node: Node)
      requires Valid() && node in blockList.members
      modifies this`threadCount, blockList, blockList.members`parent, blockList.members`lchild, blockList.members`rchild
      ensures Valid() && node.Unlinked() && Nodes() == old(Nodes()) - {node}
      ensures node !in runList.items && node !in blockList.members && node != current
      ensures View() == old(View()).(blockList := old(View()).blockList - {node.tid}, count := old(View()).count - 1)
    {
      hide Identified;
      hide NodesOf;
      hide Tids;
      hide TidSet;
      hide SchedulerHeap.Heap.Valid;
      hide SchedulerQueue.Queue.Valid;
      MembersIdentified(runList.items, blockList.members, current);
      TidSetWithout(blockList.members, node);
      NodesWithout(runList.items, blockList.members, current, node);
      FewerIdentified(NodesOf(runList.items, blockList.members, current), node);
      blockList.Pop(node);
      threadCount := threadCount - 1;
    }

    /** block_current_thread up to its yield: only the current thread's node changes. */
    method BlockCurrentThread(wakeTime: nat)
      requires Valid() && current != null && !current.blocked
      modifies current`blocked, current`wakeTime
      ensures Valid() && current.blocked && current.wakeTime == wakeTime
      ensures View() == old(View()).(busy := SchedulerSteps.Blocking)
    {
      hide Identified;
      hide NodesOf;
      hide Tids;
      hide TidSet;
      hide SchedulerHeap.Heap.Valid;
      hide SchedulerQueue.Queue.Valid;
      current.blocked := true;
      current.wakeTime := wakeTime;
    }

    /** The run list with the current thread behind it, if that can run on. */
    ghost function Runnable(terminated: bool): seq<Node>
      reads this, runList, current
    {
      runList.items + if current != null && !terminated && !current.blocked then [current] else []
    }

    /** Puts the current thread onto the list it belongs to, or lets go of it, and runs the first of the run list. */
    method Reschedule(terminated: bool)
      requires Valid() && (terminated ==> current != null && !current.blocked)
      modifies this, runList, blockList, runList.items`parent, runList.items`lchild, current
      modifies blockList.members`parent, blockList.members`lchild, blockList.members`rchild
      ensures Valid()
      ensures var q := old(Runnable(terminated));
              current == (if q == [] then null else q[0]) && runList.items == if q == [] then [] else q[1..]
      ensures blockList.members == old(blockList.members) + if old(current != null && current.blocked) then {old(current)} else {}
      ensures current != null ==> !current.blocked
      ensures !terminated ==>
        View() == SchedulerSteps.WithNext(SchedulerSteps.WithoutCurrent(old(View()), old(current != null && current.blocked)))
      ensures terminated ==> View() == SchedulerSteps.WithNext(old(View()).(current := None, count := old(View()).count - 1))
    {
      hide SchedulerHeap.Heap.Valid;
      hide SchedulerQueue.Queue.Valid;
      hide Valid;
      RunListValid();
      if runList.Empty() && (current == null || !current.blocked) && !terminated {
        assert current != null ==> old(Runnable(terminated)) == [current];
        return;
      }
      if current != null {
        PutBack(terminated);
      } else {
        assert old(Runnable(terminated)) == runList.items;
      }
      PickNext();
    }

    lemma RunListValid()
      requires Valid()
      ensures runList.Valid()
    {
    }

    /** The second half of reschedule. */
    method PickNext()
      requires Valid() && current == null
      modifies this`current, runList, runList.items`parent, runList.items`lchild
      ensures Valid()
      ensures var q := old(runList.items);
              current == (if q == [] then null else q[0]) && runList.items == if q == [] then [] else q[1..]
      ensures current != null ==> !current.blocked
      ensures View() == SchedulerSteps.WithNext(old(View()))
    {
      hide Identified;
      hide NodesOf;
      hide Tids;
      hide TidSet;
      hide SchedulerHeap.Heap.Valid;
      hide SchedulerQueue.Queue.Valid;
      NoTids();
      if runList.items != [] {
        TidsRest(runList.items);
        NodesPicked(runList.items, blockList.members);
      }
      current := runList.PopFront();
    }

    /** The first half of reschedule, for a current thread. */
    method PutBack(terminated: bool)
      requires Valid() && current != null && (terminated ==> !current.blocked)
      modifies this, runList, blockList, runList.items`parent, current`parent, current`lchild, current`rchild
      modifies blockList.members`parent, blockList.members`lchild, blockList.members`rchild
      ensures Valid() && current == null && runList.items == old(Runnable(terminated))
      ensures blockList.members == old(blockList.members) + if old(current.blocked) then {old(current)} else {}
      ensures !terminated ==> View() == SchedulerSteps.WithoutCurrent(old(View()), old(current.blocked))
      ensures terminated ==> View() == old(View()).(current := None, count := old(View()).count - 1)
    {
      hide Identified;
      hide NodesOf;
      hide Tids;
      hide TidSet;
      hide SchedulerHeap.Heap.Valid;
      hide SchedulerQueue.Queue.Valid;
      var node := current;
      TidsAppend(runList.items, node);
      TidSetWith(blockList.members, node);
      NodesPutBack(runList.items, blockList.members, node);
      current := null;
      if terminated {
        threadCount := threadCount - 1;
      } else if !node.blocked {
        runList.Push(node);
      } else {
        blockList.Push(node);
      }
    }

    /** Of the sleepers, exactly those woken so far are gone; they were due, and nobody left wakes before them. */
    ghost predicate Waking(sleepers: set<Node>, woken: seq<Node>, now: nat)
      reads this, blockList, sleepers, woken
    {
      && blockList.members <= sleepers
      && (forall x :: x in woken ==> x in sleepers && x.wakeTime <= now)
      && (forall x :: x in sleepers ==> (x in woken <==> x !in blockList.members))
      && (forall x, y :: x in woken && y in blockList.members ==> x.wakeTime <= y.wakeTime)
      && Sorted(woken)
    }

    /** One round of wake_up_sleeping_threads. */
    method WakeUpFirst(front: Node, now: nat, ghost sleepers: set<Node>, ghost woken: seq<Node>)
      requires Valid() && Waking(sleepers, woken, now) && front in blockList.members && front.wakeTime <= now
      requires forall x :: x in blockList.members ==> front.wakeTime <= x.wakeTime
      modifies runList, blockList, runList.items`parent, front`blocked
      modifies blockList.members`parent, blockList.members`lchild, blockList.members`rchild
      ensures Valid() && Waking(sleepers, woken + [front], now)
      ensures blockList.members == old(blockList.members) - {front} && runList.items == old(runList.items) + [front]
      ensures front.tid in old(View()).blockList && View() == SchedulerSteps.Awoken(old(View()), front.tid)
    {
      hide SchedulerHeap.Heap.Valid;
      hide SchedulerQueue.Queue.Valid;
      hide Valid;
      hide Tids;
      hide SchedulerSteps.Awoken;
      BlockListValid();
      UnblockThread(front);
    }

    lemma BlockListValid()
      requires Valid()
      ensures blockList.Valid() && forall x :: x in blockList.members ==> x.blocked
    {
    }

    /** Moves exactly the sleepers that are due to the end of the run list, in the order of their wake times. */
    method WakeUpSleepingThreads(now: nat) returns (ghost woken: seq<Node>)
      requires Valid()
      modifies runList, blockList, runList.items`parent, blockList.members`blocked
      modifies blockList.members`parent, blockList.members`lchild, blockList.members`rchild
      ensures Valid() && runList.items == old(runList.items) + woken
      ensures blockList.members <= old(blockList.members) && forall x :: x in woken ==> x in old(blockList.members)
      ensures forall x :: x in old(blockList.members) ==>
        (x in woken <==> x.wakeTime <= now) && (x in blockList.members <==> now < x.wakeTime)
      ensures Sorted(woken)
      ensures SchedulerSteps.Wakeable(old(View()), Tids(woken)) && View() == SchedulerSteps.AllAwoken(old(View()), Tids(woken))
    {
      hide SchedulerHeap.Heap.Valid;
      hide SchedulerQueue.Queue.Valid;
      hide Valid;
      hide Waking;
      hide Sorted;
      hide Tids;
      hide TidSet;
      hide SchedulerSteps.Awoken;
      hide SchedulerSteps.AllAwoken;
      hide SchedulerSteps.Wakeable;
      hide View;
      woken := [];
      NoTids();
      ghost var view := View();
      NobodyAwoken(view);
      ghost var sleepers := blockList.members;
      NobodyWoken(sleepers, now);
      BlockListValid();
      var front := blockList.Front();
      while front != null && now >= front.wakeTime
        invariant Valid() && Waking(sleepers, woken, now)
        invariant blockList.members <= sleepers && runList.items == old(runList.items) + woken
        invariant front == null <==> blockList.members == {}
        invariant front != null ==> front in blockList.members && forall x :: x in blockList.members ==> front.wakeTime <= x.wakeTime
        invariant forall x :: x in woken ==> x in sleepers
        invariant SchedulerSteps.Wakeable(view, Tids(woken)) && View() == SchedulerSteps.AllAwoken(view, Tids(woken))
        decreases blockList.members
      {
        TidsAppend(woken, front);
        WakeUpFirst(front, now, sleepers, woken);
        OneMoreAwoken(view, Tids(woken), front.tid);
        woken := woken + [front];
        BlockListValid();
        front := blockList.Front();
      }
      EverybodyWoken(sleepers, woken, now, front);
    }

    lemma NobodyWoken(sleepers: set<Node>, now: nat)
      requires sleepers == blockList.members
      ensures Waking(sleepers, [], now)
    {
    }

    lemma EverybodyWoken(sleepers: set<Node>, woken: seq<Node>, now: nat, front: Node?)
      requires Waking(sleepers, woken, now) && (front == null ==> blockList.members == {})
      requires front != null ==> now < front.wakeTime && forall x :: x in blockList.members ==> front.wakeTime <= x.wakeTime
      ensures forall x :: x in sleepers ==> (x in woken <==> x.wakeTime <= now) && (x in blockList.members <==> now < x.wakeTime)
      ensures Sorted(woken)
    {
    }
  }
}

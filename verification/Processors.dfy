/**
  The schedulers of all processors together (kernel/kernel/Scheduler.cpp): threads are created, arrive, block,
  wake up, exit and move from one processor to another.  A node's link words belong to at most one list, and they
  are null whenever the node is on none.
 */
module Processors {
  import opened Options
  import opened Scheduler
  import opened SchedulerSteps
  import opened ThreadNode

  /** Different processors have different schedulers and lists. */
  ghost predicate Separate(cpus: seq<Scheduler>) {
    forall i, j :: 0 <= i < j < |cpus| ==>
      cpus[i] != cpus[j] && cpus[i].runList != cpus[j].runList && cpus[i].blockList != cpus[j].blockList
  }

  /** Every node belongs to one processor or is on its way. */
  ghost predicate Partition(nodes: seq<set<Node>>, travelling: set<Node>) {
    && (forall i, j :: 0 <= i < j < |nodes| ==> nodes[i] !! nodes[j])
    && (forall i :: 0 <= i < |nodes| ==> nodes[i] !! travelling)
  }

  ghost function All(nodes: seq<set<Node>>, travelling: set<Node>): set<Node> {
    if nodes == [] then travelling else All(nodes[..|nodes| - 1], travelling) + nodes[|nodes| - 1]
  }

  lemma {:induction false} AllIs(nodes: seq<set<Node>>, travelling: set<Node>, x: Node)
    ensures x in All(nodes, travelling) <==> x in travelling || exists i :: 0 <= i < |nodes| && x in nodes[i]
  {
    if nodes != [] {
      AllIs(nodes[..|nodes| - 1], travelling, x);
    }
  }

  lemma FewerStayIdentified(nodes: seq<set<Node>>, travelling: set<Node>, nodes': seq<set<Node>>, travelling': set<Node>)
    requires Identified(All(nodes, travelling))
    requires forall x :: x in All(nodes', travelling') ==> x in All(nodes, travelling)
    ensures Identified(All(nodes', travelling'))
  {
  }

  lemma Arrived(nodes: seq<set<Node>>, travelling: set<Node>, c: nat, x: Node)
    requires c < |nodes| && x in travelling && Partition(nodes, travelling) && Identified(All(nodes, travelling))
    ensures var nodes' := nodes[c := nodes[c] + {x}];
            Partition(nodes', travelling - {x}) && Identified(All(nodes', travelling - {x}))
  {
    var nodes' := nodes[c := nodes[c] + {x}];
    forall y | y in All(nodes', travelling - {x}) ensures y in All(nodes, travelling) {
      AllIs(nodes', travelling - {x}, y);
      AllIs(nodes, travelling, y);
    }
    FewerStayIdentified(nodes, travelling, nodes', travelling - {x});
  }

  /** A node leaves its processor, for another one or for good. */
  lemma Left(nodes: seq<set<Node>>, travelling: set<Node>, c: nat, x: Node, onItsWay: set<Node>)
    requires c < |nodes| && x in nodes[c] && Partition(nodes, travelling) && Identified(All(nodes, travelling)) && onItsWay <= {x}
    ensures var nodes' := nodes[c := nodes[c] - {x}];
            Partition(nodes', travelling + onItsWay) && Identified(All(nodes', travelling + onItsWay))
  {
    var nodes', travelling' := nodes[c := nodes[c] - {x}], travelling + onItsWay;
    forall i | 0 <= i < |nodes'| ensures nodes'[i] !! travelling' {
      assert i != c ==> nodes[i] !! nodes[c];
    }
    forall y | y in All(nodes', travelling') ensures y in All(nodes, travelling) {
      AllIs(nodes', travelling', y);
      AllIs(nodes, travelling, y);
    }
    FewerStayIdentified(nodes, travelling, nodes', travelling');
  }

  lemma Created(nodes: seq<set<Node>>, travelling: set<Node>, x: Node)
    requires Partition(nodes, travelling) && Identified(All(nodes, travelling))
    requires forall y :: y in All(nodes, travelling) ==> y.tid != x.tid
    ensures Partition(nodes, travelling + {x}) && Identified(All(nodes, travelling + {x}))
  {
    assert x !in All(nodes, travelling);
    AllIs(nodes, travelling, x);
    forall y | y in All(nodes, travelling + {x}) ensures y == x || y in All(nodes, travelling) {
      AllIs(nodes, travelling + {x}, y);
      AllIs(nodes, travelling, y);
    }
  }

  lemma Listing(items: seq<Node>, members: set<Node>, x: Node)
    ensures x in items ==> x.tid in Tids(items)
    ensures x in members ==> x.tid in TidSet(members)
  {
    if x in items {
      var k :| 0 <= k < |items| && items[k] == x;
      assert Tids(items)[k] == x.tid;
    }
  }

  // ---------------------------------------------------------------- the nodes of one processor

  lemma NodesWithMore(items: seq<Node>, members: set<Node>, current: Node?, x: Node)
    ensures NodesOf(items + [x], members, current) == NodesOf(items, members, current) + {x}
  {
  }

  lemma NodesAwoken(items: seq<Node>, members: set<Node>, current: Node?, woken: seq<Node>, left: set<Node>)
    requires left <= members && (forall x :: x in woken ==> x in members) && forall x :: x in members ==> (x in woken <==> x !in left)
    ensures NodesOf(items + woken, left, current) == NodesOf(items, members, current)
  {
  }

  lemma NodesRescheduled(items: seq<Node>, members: set<Node>, current: Node?, blocked: bool, terminated: bool)
    requires (terminated ==> current != null && !blocked) && (blocked ==> current != null)
    requires current != null ==> current !in items && current !in members
    ensures var q := items + if current != null && !terminated && !blocked then [current] else [];
            NodesOf(if q == [] then [] else q[1..], members + (if blocked then {current} else {}), if q == [] then null else q[0])
            == NodesOf(items, members, current) - if terminated then {current} else {}
  {
    var q := items + if current != null && !terminated && !blocked then [current] else [];
    var members' := members + if blocked then {current} else {};
    if q != [] {
      NodesPicked(q, members');
    }
    assert NodesOf(q, members', null) == NodesOf(items, members, current) - if terminated then {current} else {};
  }

  class Processors {
    const cpus: seq<Scheduler>
    ghost var nodes: seq<set<Node>>      // of each processor's threads
    ghost var travelling: set<Node>      // of new threads and those in a NewThread message

    /** The schedulers are valid and disjoint, and a node on its way to a processor is unlinked and not blocked. */
    ghost predicate Valid()
      reads *
    {
      && |nodes| == |cpus| && Separate(cpus) && Partition(nodes, travelling) && Identified(All(nodes, travelling))
      && (forall i :: 0 <= i < |cpus| ==> cpus[i].Valid() && cpus[i].Nodes() == nodes[i])
      && (forall x :: x in travelling ==> x.Unlinked() && !x.blocked)
    }

    /** Processors with nothing to do. */
    constructor (cpus: seq<Scheduler>)
      requires Separate(cpus) && forall i :: 0 <= i < |cpus| ==> cpus[i].Valid() && cpus[i].Nodes() == {}
      ensures Valid() && this.cpus == cpus && travelling == {} && nodes == seq(|cpus|, _ => {})
    {
      this.cpus := cpus;
      nodes, travelling := seq(|cpus|, _ => {}), {};
      new;
      hide Scheduler.Valid;
      hide All;
      forall x | x in All(nodes, travelling) ensures false {
        AllIs(nodes, travelling, x);
      }
    }

    /** A thread that is on no list of any processor has null links, so that it can be pushed. */
    lemma UnlistedIsUnlinked(x: Node)
      requires Valid() && x in All(nodes, travelling)
      requires forall i :: 0 <= i < |cpus| ==> x !in cpus[i].runList.items && x !in cpus[i].blockList.members
      ensures x.Unlinked()
    {
      hide Scheduler.Valid;
      hide All;
      hide Identified;
      hide Partition;
      AllIs(nodes, travelling, x);
      if x !in travelling {
        var i :| 0 <= i < |nodes| && x in nodes[i];
        cpus[i].UnlistedIsCurrent(x);
      }
    }

    /** So a thread that is unlisted in the step machine can be pushed: the assertions at the head of both pushes hold. */
    lemma UnlistedThreadIsUnlinked(s: State, x: Node)
      requires Valid() && x in All(nodes, travelling) && |s.cpus| == |cpus| && Unlisted(s, x.tid)
      requires forall i :: 0 <= i < |cpus| ==>
        s.cpus[i].runList == cpus[i].View().runList && s.cpus[i].blockList == cpus[i].View().blockList
      ensures x.Unlinked()
    {
      hide Scheduler.Valid;
      hide All;
      hide Identified;
      hide Partition;
      hide NodesOf;
      forall i | 0 <= i < |cpus| ensures x !in cpus[i].runList.items && x !in cpus[i].blockList.members {
        assert x.tid !in s.cpus[i].runList && x.tid !in s.cpus[i].blockList;
        Listing(cpus[i].runList.items, cpus[i].blockList.members, x);
      }
      UnlistedIsUnlinked(x);
    }

    /** And a thread is on at most one list. */
    lemma OnOneList(x: Node, i: nat, j: nat)
      requires Valid() && i < |cpus| && j < |cpus|
      requires x in cpus[i].runList.items || x in cpus[i].blockList.members
      requires x in cpus[j].runList.items || x in cpus[j].blockList.members
      ensures i == j && !(x in cpus[i].runList.items && x in cpus[i].blockList.members) && x !in travelling
    {
      assert cpus[i].Valid() && x in nodes[i] && x in nodes[j];
    }

    // -------------------------------------------------------------- what a step of one processor leaves alone

    /** What a processor's scheduler refers to. */
    ghost predicate Owns(i: nat)
      requires i < |cpus| && i < |nodes|
      reads this, cpus, cpus[i].runList, cpus[i].blockList
    {
      && (forall x :: x in cpus[i].runList.items ==> x in nodes[i])
      && (forall x :: x in cpus[i].blockList.members ==> x in nodes[i])
      && (cpus[i].current != null ==> cpus[i].current in nodes[i])
    }

    lemma AllOwn()
      requires Valid()
      ensures forall i :: 0 <= i < |cpus| ==> Owns(i)
    {
    }

    /** Neither the processor's scheduler nor its nodes have changed. */
    twostate predicate Untouched(i: nat)
      requires i < |cpus| && i < |old(nodes)|
      reads *
    {
      && unchanged(cpus[i]) && unchanged(cpus[i].runList) && unchanged(cpus[i].blockList)
      && forall x :: x in old(nodes[i]) ==> unchanged(x)
    }

    twostate lemma OtherStays(i: nat)
      requires i < |cpus| && i < |old(nodes)| && old(Owns(i)) && old(cpus[i].Valid()) && Untouched(i)
      ensures cpus[i].Valid() && cpus[i].Nodes() == old(cpus[i].Nodes()) && cpus[i].View() == old(cpus[i].View())
    {
      hide Scheduler.Valid;
      assert forall k :: 0 <= k < |cpus[i].runList.items| ==> cpus[i].runList.items[k] in old(nodes[i]);
    }

    // -------------------------------------------------------------- operations

    /** A new thread. */
    method Create(tid: nat, wakeTime: nat) returns (node: Node)
      requires Valid() && forall x :: x in All(nodes, travelling) ==> x.tid != tid
      modifies this`travelling
      ensures Valid() && fresh(node) && node.tid == tid && travelling == old(travelling) + {node}
    {
      hide Scheduler.Valid;
      hide All;
      hide Identified;
      hide Partition;
      node := new Node(tid, wakeTime);
      Created(nodes, travelling, node);
      travelling := travelling + {node};
    }

    /** A new thread is added, or a NewThread message handled. */
    method Arrive(c: nat, node: Node)
      requires Valid() && c < |cpus| && node in travelling
      modifies this, cpus[c], cpus[c].runList, nodes[c], node
      ensures Valid() && travelling == old(travelling) - {node} && nodes == old(nodes)[c := old(nodes[c]) + {node}]
      ensures forall i :: 0 <= i < |cpus| && i != c ==> cpus[i].View() == old(cpus[i].View())
      ensures cpus[c].View() == old(cpus[c].View()).(runList := old(cpus[c].View()).runList + [node.tid],
                                                     count := old(cpus[c].View()).count + 1)
    {
      hide Identified;
      hide NodesOf;
      hide Partition;
      hide All;
      hide Scheduler.Valid;
      hide Scheduler.View;
      AllOwn();
      AreApart(c);
      Stranger(node, c);
      NodesWithMore(cpus[c].runList.items, cpus[c].blockList.members, cpus[c].current, node);
      Arrived(nodes, travelling, c, node);
      assert Owns(c);
      cpus[c].AddThread(node);
      forall i | 0 <= i < |cpus| && i != c
        ensures cpus[i].Valid() && cpus[i].Nodes() == old(nodes[i]) && cpus[i].View() == old(cpus[i].View())
      {
        OtherStays(i);
      }
      travelling := travelling - {node};
      nodes := nodes[c := nodes[c] + {node}];
    }

    /** The owning processor's half of unblock_thread. */
    method UnblockThread(c: nat, node: Node)
      requires Valid() && c < |cpus| && node in nodes[c] && (node == cpus[c].current ==> !node.blocked)
      modifies cpus[c].runList, cpus[c].blockList, nodes[c]
      ensures Valid() && !node.blocked
      ensures forall i :: 0 <= i < |cpus| && i != c ==> cpus[i].View() == old(cpus[i].View())
      ensures cpus[c].View() == if old(node.blocked) then Awoken(old(cpus[c].View()), node.tid) else old(cpus[c].View())
    {
      hide Awoken;
      hide Identified;
      hide NodesOf;
      hide Partition;
      hide All;
      hide Scheduler.Valid;
      hide Scheduler.View;
      AllOwn();
      AreApart(c);
      assert Owns(c);
      cpus[c].BlockedIsAsleep(node);
      if node.blocked {
        NodesUnblocked(cpus[c].runList.items, cpus[c].blockList.members, cpus[c].current, node);
        cpus[c].UnblockThread(node);
      }
      forall i | 0 <= i < |cpus| && i != c
        ensures cpus[i].Valid() && cpus[i].Nodes() == old(nodes[i]) && cpus[i].View() == old(cpus[i].View())
      {
        OtherStays(i);
      }
    }

    /** The current thread of a processor blocks; it goes onto the block list at the next reschedule. */
    method BlockCurrentThread(c: nat, wakeTime: nat)
      requires Valid() && c < |cpus| && cpus[c].current != null && !cpus[c].current.blocked
      modifies nodes[c]
      ensures Valid() && cpus[c].current.blocked && cpus[c].current.wakeTime == wakeTime
      ensures forall i :: 0 <= i < |cpus| && i != c ==> cpus[i].View() == old(cpus[i].View())
      ensures cpus[c].View() == old(cpus[c].View()).(busy := Blocking)
    {
      hide Identified;
      hide NodesOf;
      hide Partition;
      hide All;
      hide Scheduler.Valid;
      hide Scheduler.View;
      AllOwn();
      AreApart(c);
      assert Owns(c);
      cpus[c].BlockCurrentThread(wakeTime);
      forall i | 0 <= i < |cpus| && i != c
        ensures cpus[i].Valid() && cpus[i].Nodes() == old(nodes[i]) && cpus[i].View() == old(cpus[i].View())
      {
        OtherStays(i);
      }
    }

    /** A processor goes on to its next thread. */
    method Reschedule(c: nat)
      requires Valid() && c < |cpus|
      modifies cpus[c], cpus[c].runList, cpus[c].blockList, nodes[c]
      ensures Valid()
      ensures forall i :: 0 <= i < |cpus| && i != c ==> cpus[i].View() == old(cpus[i].View())
      ensures cpus[c].View() == WithNext(WithoutCurrent(old(cpus[c].View()), old(cpus[c].current != null && cpus[c].current.blocked)))
    {
      hide Identified;
      hide NodesOf;
      hide Partition;
      hide All;
      hide Scheduler.Valid;
      hide Scheduler.View;
      AllOwn();
      AreApart(c);
      assert Owns(c);
      cpus[c].CurrentIsApart();
      NodesRescheduled(cpus[c].runList.items, cpus[c].blockList.members, cpus[c].current,
                       cpus[c].current != null && cpus[c].current.blocked, false);
      cpus[c].Reschedule(false);
      forall i | 0 <= i < |cpus| && i != c
        ensures cpus[i].Valid() && cpus[i].Nodes() == old(nodes[i]) && cpus[i].View() == old(cpus[i].View())
      {
        OtherStays(i);
      }
    }

    /** The current thread of a processor is terminated: its node is gone. */
    method Exit(c: nat)
      requires Valid() && c < |cpus| && cpus[c].current != null && !cpus[c].current.blocked
      modifies this`nodes, cpus[c], cpus[c].runList, cpus[c].blockList, nodes[c]
      ensures Valid() && nodes[c] == old(nodes[c]) - {old(cpus[c].current)}
      ensures forall i :: 0 <= i < |cpus| && i != c ==> nodes[i] == old(nodes[i]) && cpus[i].View() == old(cpus[i].View())
      ensures cpus[c].View() == WithNext(old(cpus[c].View()).(current := None, count := old(cpus[c].View()).count - 1))
    {
      hide Identified;
      hide NodesOf;
      hide Partition;
      hide All;
      hide Scheduler.Valid;
      hide Scheduler.View;
      AllOwn();
      AreApart(c);
      assert Owns(c);
      ghost var node: Node := cpus[c].current;
      cpus[c].CurrentIsApart();
      NodesRescheduled(cpus[c].runList.items, cpus[c].blockList.members, node, false, true);
      Left(nodes, travelling, c, node, {});
      assert travelling + {} == travelling;
      cpus[c].Reschedule(true);
      forall i | 0 <= i < |cpus| && i != c
        ensures cpus[i].Valid() && cpus[i].Nodes() == old(nodes[i]) && cpus[i].View() == old(cpus[i].View())
      {
        OtherStays(i);
      }
      nodes := nodes[c := nodes[c] - {node}];
    }

    /** The due sleepers of a processor wake up, and only they. */
    method WakeUpSleepingThreads(c: nat, now: nat) returns (ghost woken: seq<nat>)
      requires Valid() && c < |cpus|
      modifies cpus[c].runList, cpus[c].blockList, nodes[c]
      ensures Valid() && cpus[c].blockList.members <= old(cpus[c].blockList.members)
      ensures forall x :: x in old(cpus[c].blockList.members) ==>
        if now < x.wakeTime then x in cpus[c].blockList.members else x in cpus[c].runList.items
      ensures forall i :: 0 <= i < |cpus| && i != c ==> cpus[i].View() == old(cpus[i].View())
      ensures Wakeable(old(cpus[c].View()), woken) && cpus[c].View() == AllAwoken(old(cpus[c].View()), woken)
    {
      hide Identified;
      hide AllAwoken;
      hide Wakeable;
      hide Tids;
      hide NodesOf;
      hide Partition;
      hide All;
      hide Scheduler.Valid;
      hide Scheduler.View;
      AllOwn();
      AreApart(c);
      assert Owns(c);
      ghost var items, members := cpus[c].runList.items, cpus[c].blockList.members;
      ghost var awoken := cpus[c].WakeUpSleepingThreads(now);
      NodesAwoken(items, members, cpus[c].current, awoken, cpus[c].blockList.members);
      woken := Tids(awoken);
      forall i | 0 <= i < |cpus| && i != c
        ensures cpus[i].Valid() && cpus[i].Nodes() == old(nodes[i]) && cpus[i].View() == old(cpus[i].View())
      {
        OtherStays(i);
      }
    }

    /** Load balancing: the thread leaves its processor, unlinked, and a NewThread message carries it. */
    method GiveAway(c: nat, node: Node)
      requires Valid() && c < |cpus| && node in nodes[c] && node != cpus[c].current
      modifies this, cpus[c], cpus[c].runList, cpus[c].blockList, nodes[c]
      ensures Valid() && travelling == old(travelling) + {node} && nodes == old(nodes)[c := old(nodes[c]) - {node}]
      ensures node.Unlinked() && !node.blocked
      ensures forall i :: 0 <= i < |cpus| && i != c ==> cpus[i].View() == old(cpus[i].View())
      ensures cpus[c].View() == Departed(old(cpus[c].View()), node.tid, old(node.blocked))
    {
      hide Identified;
      hide Departed;
      hide Partition;
      hide All;
      hide Scheduler.Valid;
      hide Scheduler.View;
      hide Scheduler.Nodes;
      Left(nodes, travelling, c, node, {node});
      LetGo(c, node);
      travelling := travelling + {node};
      nodes := nodes[c := nodes[c] - {node}];
    }

    /** The part of it that concerns the schedulers. */
    method LetGo(c: nat, node: Node)
      requires Valid() && c < |cpus| && node in nodes[c] && node != cpus[c].current
      modifies cpus[c], cpus[c].runList, cpus[c].blockList, nodes[c]
      ensures cpus[c].Valid() && cpus[c].Nodes() == nodes[c] - {node}
      ensures cpus[c].View() == Departed(old(cpus[c].View()), node.tid, old(node.blocked))
      ensures forall i :: 0 <= i < |cpus| && i != c ==>
        cpus[i].Valid() && cpus[i].Nodes() == nodes[i] && cpus[i].View() == old(cpus[i].View())
      ensures node.Unlinked() && !node.blocked && forall x :: x in travelling ==> x.Unlinked() && !x.blocked
    {
      hide Identified;
      hide Departed;
      hide NodesOf;
      hide Partition;
      hide All;
      hide Scheduler.Valid;
      hide Scheduler.View;
      AllOwn();
      AreApart(c);
      assert Owns(c);
      cpus[c].BlockedIsAsleep(node);
      cpus[c].GiveAway(node);
      forall i | 0 <= i < |cpus| && i != c
        ensures cpus[i].Valid() && cpus[i].Nodes() == old(nodes[i]) && cpus[i].View() == old(cpus[i].View())
      {
        OtherStays(i);
      }
    }

    lemma AreApart(c: nat)
      requires Valid() && c < |cpus|
      ensures forall i :: 0 <= i < |cpus| && i != c ==> nodes[i] !! nodes[c]
      ensures forall i :: 0 <= i < |cpus| ==> nodes[i] !! travelling
    {
    }

    /** A thread on its way is none of the processor's. */
    lemma Stranger(node: Node, c: nat)
      requires Valid() && c < |cpus| && node in travelling
      ensures forall x :: x in NodesOf(cpus[c].runList.items, cpus[c].blockList.members, cpus[c].current) ==> x.tid != node.tid
    {
      hide NodesOf;
      forall x | x in nodes[c] ensures x.tid != node.tid {
        AllIs(nodes, travelling, x);
        AllIs(nodes, travelling, node);
      }
    }
  }
}

/**
  The chain of threads that wait for something: a doubly linked list through the scheduler nodes
  (kernel/kernel/ThreadBlocker.cpp).  Every method runs under the blocker's lock.
 */
module ThreadBlocker {
  import opened Sequences
  import opened ThreadNode
  import Scheduler
  import SchedulerSteps

  /** The links and the blocker field of a waiting node; the first one's prev link counts only when firstToo holds. */
  ghost predicate Waits(s: seq<Node>, i: int, blocker: Blocker, firstToo: bool)
    requires 0 <= i < |s|
    reads s
  {
    && s[i].chainNext == (if i + 1 < |s| then s[i + 1] else null)
    && (i > 0 || firstToo ==> s[i].chainPrev == (if i > 0 then s[i - 1] else null))
    && s[i].blocker == blocker
    && s[i].blocked
  }

  class Blocker {
    var first: Node?     // m_block_chain
    ghost var chain: seq<Node>

    constructor ()
      ensures Valid() && chain == []
    {
      first, chain := null, [];
    }

    ghost predicate Linked(firstToo: bool)
      reads this, chain
    {
      && Distinct(chain)
      && (forall i :: 0 <= i < |chain| ==> Waits(chain, i, this, firstToo))
      && first == (if chain == [] then null else chain[0])
    }

    ghost predicate Valid()
      reads this, chain
    {
      Linked(true)
    }

    /** The chain of the step machine that this is. */
    ghost function View(): seq<nat>
      reads this
    {
      Scheduler.Tids(chain)
    }

    /** A thread that waits for nothing yet goes to the front. */
    method AddThreadToBlockQueue(node: Node)
      requires Valid() && node.blocked && node.blocker == null
      modifies this, node`chainPrev, node`chainNext, node`blocker, chain`chainPrev
      ensures Valid() && chain == [node] + old(chain) && node.blocker == this
      ensures View() == [node.tid] + old(View())
    {
      forall i | 0 <= i < |chain| ensures chain[i] != node {
        assert Waits(chain, i, this, true);
      }
      node.blocker := this;
      node.chainPrev := null;
      node.chainNext := first;
      if first != null {
        first.chainPrev := node;
      }
      first := node;
      chain := [node] + chain;
      forall i | 0 <= i < |chain| ensures Waits(chain, i, this, true) {
        assert i > 0 ==> old(Waits(chain, i - 1, this, true));
      }
    }

    /** Removes a waiting thread wherever it stands; a thread that an unblock already took is left alone. */
    method RemoveThreadFromBlockQueue(node: Node, ghost k: nat)
      requires Valid() && (node.blocker == this ==> k < |chain| && chain[k] == node)
      modifies this, node`chainPrev, node`chainNext, node`blocker, chain`chainPrev, chain`chainNext
      ensures Valid()
      ensures old(node.blocker) != this ==> chain == old(chain) && node.blocker == old(node.blocker)
      ensures old(node.blocker) == this ==>
        chain == old(chain[..k] + chain[k + 1..]) && node.blocker == null && node.chainPrev == null && node.chainNext == null
      ensures old(node.blocker) == this && Scheduler.Identified(set x | x in old(chain)) ==>
        View() == SchedulerSteps.Without(old(View()), node.tid)
    {
      hide Scheduler.Identified;
      hide SchedulerSteps.Without;
      hide Scheduler.Tids;
      hide Linked;
      if node.blocker != this {
        return;
      }
      AreDistinct();
      if Scheduler.Identified(set x | x in chain) {
        Scheduler.TidsWithout(chain, k);
      }
      Unlink(node, k);
    }

    lemma AreDistinct()
      requires Valid()
      ensures Distinct(chain)
    {
    }

    /** The neighbours of a waiting thread become each other's. */
    method Unlink(node: Node, ghost k: nat)
      requires Valid() && k < |chain| && chain[k] == node
      modifies this, node`chainPrev, node`chainNext, node`blocker, chain`chainPrev, chain`chainNext
      ensures Valid() && chain == old(chain[..k] + chain[k + 1..])
      ensures node.blocker == null && node.chainPrev == null && node.chainNext == null
    {
      ghost var was := chain;
      DistinctWithout(was, k);
      assert Waits(chain, k, this, true);
      assert k > 0 ==> Waits(chain, k - 1, this, true);
      assert k + 1 < |chain| ==> Waits(chain, k + 1, this, true);
      if node.chainPrev != null {
        node.chainPrev.chainNext := node.chainNext;
      }
      if node.chainNext != null {
        node.chainNext.chainPrev := node.chainPrev;
      }
      if node == first {
        first := node.chainNext;
      }
      node.blocker := null;
      node.chainPrev := null;
      node.chainNext := null;
      chain := chain[..k] + chain[k + 1..];
      forall i | 0 <= i < |chain| ensures Waits(chain, i, this, true) {
        ghost var j := if i < k then i else i + 1;
        assert old(Waits(chain, j, this, true)) && chain[i] == was[j] && was[j] != node;
        assert i + 1 < |chain| ==> chain[i + 1] == was[if j + 1 == k then j + 2 else j + 1];
        assert i > 0 ==> chain[i - 1] == was[if j - 1 == k then j - 2 else j - 1];
      }
    }

    /** Takes the first thread off the chain; the new first one's prev link is left for later. */
    method TakeFirst() returns (node: Node)
      requires Linked(false) && chain != []
      modifies this, chain`chainPrev, chain`chainNext, chain`blocker
      ensures Linked(false) && node == old(chain)[0] && chain == old(chain)[1..]
      ensures node.blocker == null && node.chainPrev == null && node.chainNext == null && node.blocked
    {
      assert Waits(chain, 0, this, false);
      node := first;
      first := node.chainNext;
      node.blocker := null;
      node.chainPrev := null;
      node.chainNext := null;
      chain := chain[1..];
      forall i | 0 <= i < |chain| ensures Waits(chain, i, this, false) {
        assert old(Waits(chain, i + 1, this, false));
      }
    }

    /** Takes up to count threads off the chain, first come last served; unblock_thread is called for each of them. */
    method Unblock(count: nat) returns (woken: seq<Node>)
      requires Valid()
      modifies this, chain`chainPrev, chain`chainNext, chain`blocker
      ensures Valid()
      ensures var k := if count < |old(chain)| then count else |old(chain)|;
              woken == old(chain)[..k] && chain == old(chain)[k..] && View() == old(View())[k..]
      ensures forall n :: n in woken ==> n.blocker == null && n.chainPrev == null && n.chainNext == null && n.blocked
    {
      woken := [];
      ghost var all := chain;
      forall i | 0 <= i < |chain| ensures Waits(chain, i, this, false) {
        assert Waits(chain, i, this, true);
      }
      var i := 0;
      while i < count && first != null
        invariant i <= count && i <= |all| && woken == all[..i] && chain == all[i..] && Linked(false)
        invariant forall n :: n in woken ==> n.blocker == null && n.chainPrev == null && n.chainNext == null && n.blocked
        modifies this, all`chainPrev, all`chainNext, all`blocker
      {
        assert all[i] == chain[0] && all[..i + 1] == all[..i] + [all[i]];
        TakenApart(all, i);
        var node := TakeFirst();
        woken := woken + [node];
        i := i + 1;
      }
      if first != null {
        TakenApart(all, i);
        label Cut: first.chainPrev := null;
        forall j | 0 <= j < |chain| ensures Waits(chain, j, this, true) {
          assert old@Cut(Waits(chain, j, this, false));
        }
      }
    }
  }

  /** A chain's front and back share no node. */
  lemma TakenApart(s: seq<Node>, i: nat)
    requires Distinct(s) && i <= |s|
    ensures forall x :: x in s[..i] ==> x !in s[i..]
  {
  }
}

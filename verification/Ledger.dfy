/** All descriptor queues of a reactor on their one shared pool: they behave as independent
    sequences, and no descriptor is ever lost or closed twice. */
module Ledger {
  import opened Outcomes
  import opened Bytes
  import opened Pool
  import opened Ancillary
  import Rights

  /** The chains are intact, pairwise disjoint, and together hold every node that is in use. */
  ghost predicate Separate(nodes: seq<FdNode>, chains: seq<seq<FdLease>>) {
    && (forall i :: 0 <= i < |chains| ==> Chained(nodes, chains[i]))
    && (forall i, j :: 0 <= i < j < |chains| ==> Footprint(chains[i]) !! Footprint(chains[j]))
    && (forall n :: n in InUse(nodes) ==> exists i :: 0 <= i < |chains| && n in Footprint(chains[i]))
  }

  lemma OtherChain(
    before: seq<FdNode>, after: seq<FdNode>, mine: seq<FdLease>, chain: seq<FdLease>, other: seq<FdLease>)
    requires OwnChange(before, after, mine, chain) && Chained(before, other) && Footprint(other) !! Footprint(mine)
    ensures Chained(after, other) && Footprint(other) !! Footprint(chain)
  {
    ChainIsHeld(before, other);
    ChainUndisturbed(before, after, Footprint(mine), other);
  }

  lemma OtherNode(before: seq<FdNode>, after: seq<FdNode>, mine: seq<FdLease>, chain: seq<FdLease>, n: nat)
    requires OwnChange(before, after, mine, chain) && n in InUse(after) && n !in Footprint(chain)
    ensures n in InUse(before) && n !in Footprint(mine)
  {}

  /** An operation of one queue leaves all queues intact and separate. */
  lemma OneQueueStep(
    before: seq<FdNode>, after: seq<FdNode>, chains: seq<seq<FdLease>>, k: nat, chain: seq<FdLease>)
    requires Separate(before, chains) && k < |chains|
    requires OwnChange(before, after, chains[k], chain) && Chained(after, chain)
    ensures Separate(after, chains[k := chain])
  {
    hide Chained, Footprint, OwnChange, InUse;
    var updated := chains[k := chain];
    forall i | 0 <= i < |chains| && i != k
      ensures Chained(after, chains[i]) && Footprint(chains[i]) !! Footprint(chain)
    {
      assert Footprint(chains[i]) !! Footprint(chains[k]);
      OtherChain(before, after, chains[k], chain, chains[i]);
    }
    forall n | n in InUse(after) ensures exists i :: 0 <= i < |updated| && n in Footprint(updated[i]) {
      if n in Footprint(chain) {
        assert n in Footprint(updated[k]);
      } else {
        OtherNode(before, after, chains[k], chain, n);
        var i :| 0 <= i < |chains| && n in Footprint(chains[i]);
        assert updated[i] == chains[i];
      }
    }
  }

  lemma SeparateAppend(nodes: seq<FdNode>, chains: seq<seq<FdLease>>)
    requires Separate(nodes, chains)
    ensures Separate(nodes, chains + [[]])
  {
    var longer := chains + [[]];
    forall n | n in InUse(nodes) ensures exists i :: 0 <= i < |longer| && n in Footprint(longer[i]) {
      var i :| 0 <= i < |chains| && n in Footprint(chains[i]);
      assert longer[i] == chains[i];
    }
  }

  /** How often `fd` is queued anywhere. */
  ghost function Queued(contents: seq<seq<Fd>>, fd: Fd): nat {
    if contents == [] then 0 else multiset(contents[0])[fd] + Queued(contents[1..], fd)
  }

  lemma {:induction false} QueuedUpdate(contents: seq<seq<Fd>>, k: nat, fds: seq<Fd>, fd: Fd)
    requires k < |contents|
    ensures Queued(contents[k := fds], fd) + multiset(contents[k])[fd] == Queued(contents, fd) + multiset(fds)[fd]
  {
    var updated := contents[k := fds];
    if k == 0 {
      assert updated[1..] == contents[1..];
    } else {
      assert updated[1..] == contents[1..][k - 1 := fds];
      QueuedUpdate(contents[1..], k - 1, fds, fd);
    }
  }

  lemma {:induction false} QueuedAppend(contents: seq<seq<Fd>>, fd: Fd)
    ensures Queued(contents + [[]], fd) == Queued(contents, fd)
  {
    var longer := contents + [[]];
    if contents == [] {
      assert longer[1..] == [];
    } else {
      assert longer[1..] == contents[1..] + [[]];
      QueuedAppend(contents[1..], fd);
    }
  }

  /** Every descriptor that came in went out to a handler, was closed, or is queued, as often as
      it came in. */
  ghost predicate Balanced(received: seq<Fd>, handedOut: seq<Fd>, closed: seq<Fd>, contents: seq<seq<Fd>>) {
    forall fd :: multiset(received)[fd] == multiset(handedOut)[fd] + multiset(closed)[fd] + Queued(contents, fd)
  }

  /** One queue's operation keeps the balance when what came in, plus what the queue held, is what
      went out plus what the queue holds. */
  lemma StaysBalanced(
    received: seq<Fd>, handedOut: seq<Fd>, closed: seq<Fd>, contents: seq<seq<Fd>>, k: nat,
    more: seq<Fd>, handed: seq<Fd>, dropped: seq<Fd>,
    receivedAfter: seq<Fd>, handedAfter: seq<Fd>, closedAfter: seq<Fd>, contentsAfter: seq<seq<Fd>>)
    requires Balanced(received, handedOut, closed, contents) && k < |contents| == |contentsAfter|
    requires receivedAfter == received + more && handedAfter == handedOut + handed && closedAfter == closed + dropped
    requires contentsAfter == contents[k := contentsAfter[k]]
    requires contents[k] + more == handed + dropped + contentsAfter[k]
             || contents[k] + more == contentsAfter[k] + handed + dropped
    ensures Balanced(receivedAfter, handedAfter, closedAfter, contentsAfter)
  {
    var mine := contentsAfter[k];
    forall fd
      ensures multiset(receivedAfter)[fd] ==
              multiset(handedAfter)[fd] + multiset(closedAfter)[fd] + Queued(contentsAfter, fd)
    {
      QueuedUpdate(contents, k, mine, fd);
      assert multiset(contents[k] + more)[fd] == multiset(handed + dropped + mine)[fd]
                                              == multiset(mine + handed + dropped)[fd];
    }
  }

  ghost function Lengths(chains: seq<seq<FdLease>>): nat {
    if chains == [] then 0 else |chains[0]| + Lengths(chains[1..])
  }

  ghost function Union(chains: seq<seq<FdLease>>): set<nat> {
    if chains == [] then {} else Footprint(chains[0]) + Union(chains[1..])
  }

  lemma {:induction false} UnionMembers(chains: seq<seq<FdLease>>)
    ensures forall n :: n in Union(chains) <==> exists i :: 0 <= i < |chains| && n in Footprint(chains[i])
    decreases |chains|
  {
    hide Footprint;
    if chains != [] {
      UnionMembers(chains[1..]);
      forall n ensures n in Union(chains) <==> exists i :: 0 <= i < |chains| && n in Footprint(chains[i]) {
        if i :| 0 <= i < |chains| && n in Footprint(chains[i]) && i > 0 {
          assert n in Footprint(chains[1..][i - 1]);
        }
        if n in Union(chains[1..]) {
          var i :| 0 <= i < |chains[1..]| && n in Footprint(chains[1..][i]);
          assert n in Footprint(chains[i + 1]);
        }
      }
    }
  }

  lemma {:induction false} UnionFacts(nodes: seq<FdNode>, chains: seq<seq<FdLease>>)
    requires forall i :: 0 <= i < |chains| ==> Chained(nodes, chains[i])
    requires forall i, j :: 0 <= i < j < |chains| ==> Footprint(chains[i]) !! Footprint(chains[j])
    ensures Union(chains) <= InUse(nodes) && |Union(chains)| == Lengths(chains)
    decreases |chains|
  {
    hide Chained, Footprint, InUse;
    if chains != [] {
      UnionFacts(nodes, chains[1..]);
      ChainIsHeld(nodes, chains[0]);
      UnionMembers(chains[1..]);
      forall n | n in Union(chains[1..]) ensures n !in Footprint(chains[0]) {
        var i :| 0 <= i < |chains[1..]| && n in Footprint(chains[1..][i]);
        assert Footprint(chains[0]) !! Footprint(chains[i + 1]);
      }
    }
  }

  /** The pool's active count is the number of queued descriptors: nothing has leaked. */
  lemma ActiveIsQueued(nodes: seq<FdNode>, chains: seq<seq<FdLease>>)
    requires Separate(nodes, chains)
    ensures |InUse(nodes)| == Lengths(chains)
  {
    hide Chained, Footprint, InUse;
    UnionFacts(nodes, chains);
    UnionMembers(chains);
    assert InUse(nodes) == Union(chains);
  }

  class Ledger {
    const pool: SharedFds
    const kernel: Kernel
    var queues: seq<FdQueue>
    // Every descriptor the runtime has come to own, in order.
    ghost var received: seq<Fd>
    // Every descriptor whose ownership went to a handler.
    ghost var handedOut: seq<Fd>

    ghost function Chains(): seq<seq<FdLease>>
      reads this, queues
    {
      seq(|queues|, i requires 0 <= i < |queues| reads this, queues => queues[i].chain)
    }

    /** What every queue holds. */
    ghost function View(): (view: seq<seq<Fd>>)
      reads this, queues
      ensures |view| == |queues|
    {
      seq(|queues|, i requires 0 <= i < |queues| reads this, queues => queues[i].Contents())
    }

    ghost predicate Valid()
      reads this, pool, kernel, queues
    {
      && pool.Valid()
      && (forall i :: 0 <= i < |queues| ==> queues[i].pool == pool && queues[i].Valid())
      && (forall i, j :: 0 <= i < j < |queues| ==> queues[i] != queues[j])
      && Separate(pool.nodes, Chains())
      && Balanced(received, handedOut, kernel.closed, View())
    }

    constructor (pool: SharedFds, kernel: Kernel)
      requires pool.Valid() && InUse(pool.nodes) == {} && kernel.closed == []
      ensures Valid() && queues == [] && this.pool == pool && this.kernel == kernel
      ensures received == [] && handedOut == []
    {
      this.pool, this.kernel := pool, kernel;
      queues, received, handedOut := [], [], [];
    }

    twostate predicate StepOf(k: nat)
      requires k < |queues|
      reads this, pool, queues
    {
      && queues == old(queues)
      && queues[k].pool == pool
      && queues[k].OnlyMine()
      && forall i :: 0 <= i < |queues| && i != k ==> unchanged(queues[i])
    }

    /** What an operation of queue `k` leaves to show for the chains of all queues ... */
    twostate lemma ChainsAfter(k: nat)
      requires k < |queues| && StepOf(k)
      requires old(Separate(pool.nodes, Chains())) && Chained(pool.nodes, queues[k].chain)
      ensures Chains() == old(Chains())[k := queues[k].chain]
      ensures Separate(pool.nodes, Chains())
    {
      hide Separate, OwnChange, Chained;
      assert Chains() == old(Chains())[k := queues[k].chain];
      OneQueueStep(old(pool.nodes), pool.nodes, old(Chains()), k, queues[k].chain);
    }

    /** ... for their validity ... */
    twostate lemma ValidAfter(k: nat)
      requires k < |queues| && StepOf(k)
      requires old(Valid()) && queues[k].Valid()
      ensures forall i :: 0 <= i < |queues| ==> queues[i].pool == pool && queues[i].Valid()
      ensures Separate(pool.nodes, Chains())
    {
      hide OwnChange, Chained, Consistent, Footprint, InUse;
      ChainsAfter(k);
      forall i | 0 <= i < |queues| ensures queues[i].pool == pool && queues[i].Valid() {
        assert Chained(pool.nodes, Chains()[i]);
      }
    }

    twostate lemma AfterStep(k: nat)
      requires k < |queues| && StepOf(k)
      requires old(Valid()) && queues[k].Valid()
      ensures forall i :: 0 <= i < |queues| ==> queues[i].pool == pool && queues[i].Valid()
      ensures forall i, j :: 0 <= i < j < |queues| ==> queues[i] != queues[j]
      ensures Separate(pool.nodes, Chains())
      ensures View() == old(View())[k := queues[k].Contents()]
    {
      hide OwnChange, Fds, Separate, Linked, Consistent, Balanced;
      ValidAfter(k);
      assert View() == old(View())[k := queues[k].Contents()];
    }

    /** A connection opens a queue of its own. */
    method Open(budget: nat)
      requires Valid()
      modifies this
      ensures Valid() && View() == old(View()) + [[]] && received == old(received) && handedOut == old(handedOut)
    {
      hide Consistent, InUse, Separate, Footprint, Queued, Chained, Linked;
      var queue := new FdQueue(pool, budget);
      ghost var view, chains := View(), Chains();
      queues := queues + [queue];
      assert Chains() == chains + [[]];
      assert View() == view + [[]];
      SeparateAppend(pool.nodes, chains);
      forall fd ensures Queued(View(), fd) == Queued(view, fd) {
        QueuedAppend(view, fd);
      }
    }

    /** The kernel delivers a control buffer to connection `k`. */
    method Receive(k: nat, control: seq<byte>) returns (r: Result<nat, Error>)
      requires Valid() && k < |queues|
      modifies this, pool, kernel, queues[k]
      ensures Valid() && queues == old(queues) && handedOut == old(handedOut)
      ensures received == old(received) + Rights.ParseControl(control).fds
      ensures if r.Ok? then
                View() == old(View())[k := old(View())[k] + Rights.ParseControl(control).fds]
                && kernel.closed == old(kernel.closed)
              else
                View() == old(View())
                && kernel.closed == old(kernel.closed) + Rights.ParseControl(control).fds
    {
      hide Separate, Balanced, OwnChange, Fds, Rights.ParseControl, Consistent;
      ghost var fds: seq<Fd> := Rights.ParseControl(control).fds;
      r := EnqueueRights(control, queues[k], kernel);
      received := received + fds;
      AfterStep(k);
      StaysBalanced(old(received), handedOut, old(kernel.closed), old(View()), k,
                    fds, [], if r.Ok? then [] else fds, received, handedOut, kernel.closed, View());
    }

    /** A decoder takes the oldest descriptor of connection `k`. */
    method Pop(k: nat) returns (r: Result<Fd, Error>)
      requires Valid() && k < |queues|
      modifies this, pool, queues[k]
      ensures Valid() && queues == old(queues) && received == old(received)
      ensures var mine := old(View())[k];
              if mine == [] then r == Err(Empty) && View() == old(View()) && handedOut == old(handedOut)
              else r == Ok(mine[0]) && View() == old(View())[k := mine[1..]]
                   && handedOut == old(handedOut) + [mine[0]]
    {
      hide Separate, Balanced, OwnChange, Fds, Consistent;
      ghost var mine := View()[k];
      r := queues[k].Pop();
      ghost var handed := if r.Ok? then [r.value] else [];
      handedOut := handedOut + handed;
      AfterStep(k);
      StaysBalanced(received, old(handedOut), kernel.closed, old(View()), k, [], handed, [],
                    received, handedOut, kernel.closed, View());
    }

    /** A frame for a destroyed object drops its descriptors. */
    method Discard(k: nat, amount: nat) returns (r: Result<(), Error>)
      requires Valid() && k < |queues|
      modifies this, pool, kernel, queues[k]
      ensures Valid() && queues == old(queues) && received == old(received) && handedOut == old(handedOut)
      ensures var mine := old(View())[k];
              if |mine| < amount then r == Err(Empty) && View() == old(View()) && kernel.closed == old(kernel.closed)
              else r == Ok(()) && View() == old(View())[k := mine[amount..]]
                   && kernel.closed == old(kernel.closed) + mine[..amount]
    {
      hide Separate, Balanced, OwnChange, Fds, Consistent;
      ghost var mine := View()[k];
      r := queues[k].Discard(amount, kernel);
      AfterStep(k);
      StaysBalanced(received, handedOut, old(kernel.closed), old(View()), k,
                    [], [], if r.Ok? then mine[..amount] else [], received, handedOut, kernel.closed, View());
    }

    /** A sender entrusts a descriptor to connection `k`; on failure it keeps it. */
    method Append(k: nat, fd: Fd) returns (r: Result<(), Error>)
      requires Valid() && k < |queues|
      modifies this, pool, queues[k]
      ensures Valid() && queues == old(queues) && handedOut == old(handedOut)
      ensures View() == if r.Ok? then old(View())[k := old(View())[k] + [fd]] else old(View())
      ensures received == if r.Ok? then old(received) + [fd] else old(received)
    {
      hide Separate, Balanced, OwnChange, Fds, Consistent, Linked, Chained, Footprint, InUse;
      r := queues[k].Append(fd);
      ghost var more := if r.Ok? then [fd] else [];
      received := received + more;
      AfterStep(k);
      assert handedOut + [] == handedOut && kernel.closed + [] == kernel.closed;
      assert old(View())[k] + more == View()[k] + [] + [];
      StaysBalanced(old(received), handedOut, kernel.closed, old(View()), k, more, [], [],
                    received, handedOut, kernel.closed, View());
    }

    /** Connection `k` is torn down. */
    method Teardown(k: nat)
      requires Valid() && k < |queues|
      modifies this, pool, kernel, queues[k]
      ensures Valid() && queues == old(queues) && received == old(received) && handedOut == old(handedOut)
      ensures View() == old(View())[k := []] && kernel.closed == old(kernel.closed) + old(View())[k]
    {
      hide Separate, Balanced, OwnChange, Fds, Consistent;
      queues[k].Deinit(kernel);
      AfterStep(k);
      StaysBalanced(received, handedOut, old(kernel.closed), old(View()), k, [], [], old(View())[k],
                    received, handedOut, kernel.closed, View());
    }

    /** Exactly-once ownership: when every queue is empty the pool is idle, and each descriptor
        ever received was either handed out or closed, once. */
    lemma NothingLeaks()
      requires Valid() && forall i :: 0 <= i < |queues| ==> View()[i] == []
      ensures pool.activeCount == 0
      ensures multiset(received) == multiset(handedOut) + multiset(kernel.closed)
    {
      ActiveIsQueued(pool.nodes, Chains());
      AvailableIsExact(pool.nodes, pool.freeHead, pool.free, pool.tenancies);
      AllEmpty(Chains(), View());
      assert forall fd :: multiset(received)[fd] == (multiset(handedOut) + multiset(kernel.closed))[fd];
    }
  }

  lemma {:induction false} AllEmpty(chains: seq<seq<FdLease>>, view: seq<seq<Fd>>)
    requires |chains| == |view|
    requires forall i :: 0 <= i < |view| ==> view[i] == [] && Fds(chains[i]) == view[i]
    ensures Lengths(chains) == 0 && forall fd :: Queued(view, fd) == 0
  {
    if chains != [] {
      AllEmpty(chains[1..], view[1..]);
    }
  }
}

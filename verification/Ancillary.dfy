/** Queues of file descriptors as sequences, and control buffers whose descriptors are either all queued or all
    closed. */
module Ancillary {
  import opened Outcomes
  import opened Bytes
  import opened Pool
  import Rights

  /** The process's descriptor table, as far as this runtime acts on it: `close` calls in order. */
  class Kernel {
    ghost var closed: seq<Fd>

    constructor ()
      ensures closed == []
    {
      closed := [];
    }

    method Close(fd: Fd)
      modifies this
      ensures closed == old(closed) + [fd]
    {
      closed := closed + [fd];
    }
  }

  ghost function Footprint(chain: seq<FdLease>): set<nat> {
    if chain == [] then {} else {chain[0].index} + Footprint(chain[1..])
  }

  ghost function Fds(chain: seq<FdLease>): (fds: seq<Fd>)
    ensures |fds| == |chain|
  {
    if chain == [] then [] else [chain[0].payload] + Fds(chain[1..])
  }

  /** The nodes of `chain` are held by its leases, distinct, and linked one to the next. */
  ghost predicate Chained(nodes: seq<FdNode>, chain: seq<FdLease>) {
    chain == [] ||
    (&& Holds(nodes, chain[0])
     && nodes[chain[0].index].chainNext == (if |chain| == 1 then SENTINEL else chain[1].index)
     && chain[0].index !in Footprint(chain[1..])
     && Chained(nodes, chain[1..]))
  }

  lemma {:induction false} ChainIsHeld(nodes: seq<FdNode>, chain: seq<FdLease>)
    requires Chained(nodes, chain)
    ensures Footprint(chain) <= InUse(nodes)
    ensures |Footprint(chain)| == |chain|
    ensures chain != [] ==> chain[|chain| - 1].index in Footprint(chain)
  {
    if chain != [] {
      ChainIsHeld(nodes, chain[1..]);
    }
  }

  /** A chain is unaffected by changes to nodes outside its footprint. */
  lemma {:induction false} ChainUndisturbed(
    before: seq<FdNode>, after: seq<FdNode>, mine: set<nat>, chain: seq<FdLease>)
    requires Chained(before, chain) && LeavesOthers(before, after, mine) && Footprint(chain) !! mine
    ensures Chained(after, chain)
  {
    if chain != [] {
      assert chain[0].index in Footprint(chain);
      assert Footprint(chain[1..]) <= Footprint(chain);
      ChainUndisturbed(before, after, mine, chain[1..]);
    }
  }

  /** A chain is its first node in front of the rest. */
  lemma ChainParts(nodes: seq<FdNode>, first: FdLease, rest: seq<FdLease>)
    ensures Chained(nodes, [first] + rest) <==>
            && Holds(nodes, first)
            && nodes[first.index].chainNext == (if rest == [] then SENTINEL else rest[0].index)
            && first.index !in Footprint(rest)
            && Chained(nodes, rest)
    ensures Footprint([first] + rest) == {first.index} + Footprint(rest)
  {
    hide Fds;
    assert ([first] + rest)[1..] == rest;
  }

  lemma {:induction false} ChainAppend(nodes: seq<FdNode>, chain: seq<FdLease>, lease: FdLease)
    requires Chained(nodes, chain) && chain != []
    requires Holds(nodes, lease) && nodes[lease.index].chainNext == SENTINEL
    requires lease.index !in Footprint(chain)
    ensures var tail := chain[|chain| - 1].index;
            && tail < |nodes| && nodes[tail].chainNext == SENTINEL
            && Chained(nodes[tail := nodes[tail].(chainNext := lease.index)], chain + [lease])
    decreases |chain|
  {
    hide Chained, Footprint;
    var first, rest, tail := chain[0], chain[1..], chain[|chain| - 1].index;
    assert chain == [first] + rest && chain + [lease] == [first] + (rest + [lease]);
    ChainParts(nodes, first, rest);
    FootprintAppend(rest, lease);
    if rest == [] {
      assert [] + [lease] == [lease];
      OneLink(nodes[tail := nodes[tail].(chainNext := lease.index)], lease);
    } else {
      ChainAppend(nodes, rest, lease);
      ChainIsHeld(nodes, rest);
    }
    ChainParts(nodes[tail := nodes[tail].(chainNext := lease.index)], first, rest + [lease]);
  }

  lemma {:induction false} FootprintAppend(chain: seq<FdLease>, lease: FdLease)
    ensures Footprint(chain + [lease]) == Footprint(chain) + {lease.index}
    ensures Fds(chain + [lease]) == Fds(chain) + [lease.payload]
  {
    var longer := chain + [lease];
    if chain == [] {
      assert longer[1..] == [];
    } else {
      assert longer[1..] == chain[1..] + [lease];
      FootprintAppend(chain[1..], lease);
    }
  }

  lemma OneLink(nodes: seq<FdNode>, lease: FdLease)
    requires Holds(nodes, lease) && nodes[lease.index].chainNext == SENTINEL
    ensures Chained(nodes, [lease]) && Footprint([lease]) == {lease.index} && Fds([lease]) == [lease.payload]
  {
    assert [lease][1..] == [];
  }

  /** The queue's fields describe `chain`. */
  ghost predicate Linked(
    nodes: seq<FdNode>, head: Option<FdLease>, tail: Option<FdLease>, count: nat, chain: seq<FdLease>)
  {
    && Chained(nodes, chain)
    && count == |chain|
    && head == (if chain == [] then None else Some(chain[0]))
    && tail == (if chain == [] then None else Some(chain[|chain| - 1]))
  }

  /** One queue's effect on the pool: it changes only its own nodes and nodes that nobody held,
      and everything that was held stays held unless this queue gave it up. */
  ghost predicate OwnChange(
    before: seq<FdNode>, after: seq<FdNode>, chainBefore: seq<FdLease>, chainAfter: seq<FdLease>)
  {
    && LeavesOthers(before, after, Footprint(chainBefore))
    && InUse(after) == InUse(before) - Footprint(chainBefore) + Footprint(chainAfter)
    && Footprint(chainAfter) !! InUse(before) - Footprint(chainBefore)
  }

  lemma OwnChangeNone(before: seq<FdNode>, after: seq<FdNode>, chain: seq<FdLease>)
    requires Chained(before, chain) && LeavesOthers(before, after, {}) && InUse(after) == InUse(before)
    ensures OwnChange(before, after, chain, chain) && Chained(after, chain)
  {
    ChainIsHeld(before, chain);
    ChainUndisturbed(before, after, {}, chain);
  }

  lemma OwnChangeThen(
    n0: seq<FdNode>, n1: seq<FdNode>, n2: seq<FdNode>, c0: seq<FdLease>, c1: seq<FdLease>, c2: seq<FdLease>)
    requires OwnChange(n0, n1, c0, c1) && OwnChange(n1, n2, c1, c2)
    ensures OwnChange(n0, n2, c0, c2)
  {
    forall i: nat | i < |n0| && n0[i].inUse && i !in Footprint(c0) ensures n2[i] == n0[i] {
      assert i in InUse(n0) - Footprint(c0);
      assert n1[i] == n0[i];
    }
  }

  /** What `pop` does to the pool and the chain. */
  lemma PopChain(before: seq<FdNode>, after: seq<FdNode>, chain: seq<FdLease>)
    requires Chained(before, chain) && chain != []
    requires LeavesOthers(before, after, {chain[0].index})
    requires InUse(after) == InUse(before) - {chain[0].index}
    ensures Chained(after, chain[1..]) && OwnChange(before, after, chain, chain[1..])
  {
    ChainIsHeld(before, chain);
    ChainIsHeld(before, chain[1..]);
    ChainUndisturbed(before, after, {chain[0].index}, chain[1..]);
  }

  /** What linking a freshly acquired node behind the tail does. */
  lemma AppendChain(before: seq<FdNode>, nodes: seq<FdNode>, chain: seq<FdLease>, lease: FdLease)
    requires Chained(before, chain) && LeavesOthers(before, nodes, {})
    requires Holds(nodes, lease) && nodes[lease.index].chainNext == SENTINEL
    requires lease.index !in InUse(before) && InUse(nodes) == InUse(before) + {lease.index}
    ensures chain == [] ==> Chained(nodes, chain + [lease]) && OwnChange(before, nodes, chain, chain + [lease])
    ensures chain != [] ==>
              var tail := chain[|chain| - 1];
              && Holds(nodes, tail) && nodes[tail.index].chainNext == SENTINEL
              && var after := nodes[tail.index := nodes[tail.index].(chainNext := lease.index)];
              Chained(after, chain + [lease]) && OwnChange(before, after, chain, chain + [lease])
    ensures Fds(chain + [lease]) == Fds(chain) + [lease.payload]
  {
    hide Chained;
    ChainIsHeld(before, chain);
    ChainUndisturbed(before, nodes, {}, chain);
    FootprintAppend(chain, lease);
    if chain == [] {
      assert chain + [lease] == [lease];
      OneLink(nodes, lease);
    } else {
      TailIsHeld(nodes, chain);
      ChainAppend(nodes, chain, lease);
      RelinkIsOwn(before, nodes, chain, lease, chain[|chain| - 1].index);
    }
  }

  lemma RelinkIsOwn(before: seq<FdNode>, nodes: seq<FdNode>, chain: seq<FdLease>, lease: FdLease, tail: nat)
    requires LeavesOthers(before, nodes, {}) && tail in Footprint(chain) && tail < |nodes|
    requires Footprint(chain) <= InUse(before)
    requires lease.index !in InUse(before) && InUse(nodes) == InUse(before) + {lease.index}
    requires Footprint(chain + [lease]) == Footprint(chain) + {lease.index}
    ensures OwnChange(before, nodes[tail := nodes[tail].(chainNext := lease.index)], chain, chain + [lease])
  {
    hide Footprint;
    var after := nodes[tail := nodes[tail].(chainNext := lease.index)];
    assert InUse(after) == InUse(nodes);
  }

  lemma {:induction false} TailIsHeld(nodes: seq<FdNode>, chain: seq<FdLease>)
    requires Chained(nodes, chain) && chain != []
    ensures var tail := chain[|chain| - 1];
            Holds(nodes, tail) && tail.index in Footprint(chain) && nodes[tail.index].chainNext == SENTINEL
  {
    if |chain| > 1 {
      TailIsHeld(nodes, chain[1..]);
    }
  }

  /** The successor that `nextLease` reads back is the chain's next lease. */
  lemma SuccessorInChain(nodes: seq<FdNode>, chain: seq<FdLease>)
    requires Chained(nodes, chain) && chain != []
    ensures Holds(nodes, chain[0]) && Chained(nodes, chain[1..])
    ensures Fds(chain) == [chain[0].payload] + Fds(chain[1..])
    ensures var next := nodes[chain[0].index].chainNext;
            if |chain| == 1 then next == SENTINEL
            else next < |nodes| && nodes[next].inUse
                 && Lease(next, nodes[next].generation, nodes[next].payload) == chain[1]
  {
    if |chain| > 1 {
      assert chain[1..][0] == chain[1];
    }
  }

  lemma SplitAt(done: seq<Fd>, waiting: seq<Fd>, doneBefore: seq<Fd>, waitingBefore: seq<Fd>, amount: nat)
    requires done + waiting == doneBefore + waitingBefore
    requires |waiting| + amount == |waitingBefore|
    ensures waiting == waitingBefore[amount..] && done == doneBefore + waitingBefore[..amount]
  {
    var whole := doneBefore + waitingBefore;
    assert done == whole[..|done|] && waiting == whole[|done|..];
  }

  /** A sequence of descriptors, at most `budget` long, kept as a chain of leased nodes of the shared pool. The
      nodes of `chain` are nobody else's. */
  class FdQueue {
    const pool: SharedFds
    const budget: nat
    var head: Option<FdLease>
    var tail: Option<FdLease>
    var count: nat
    ghost var chain: seq<FdLease>

    ghost predicate Valid()
      reads this, pool
    {
      && pool.Valid()
      && Linked(pool.nodes, head, tail, count, chain)
      && count <= budget
    }

    ghost function Contents(): seq<Fd>
      reads this
    {
      Fds(chain)
    }

    /** This queue's effect on the pool; no other queue can tell. */
    twostate predicate OnlyMine()
      reads this, pool
    {
      && OwnChange(old(pool.nodes), pool.nodes, old(chain), chain)
      && pool.activeCount - count == old(pool.activeCount) - old(count)
    }

    lemma Untouched()
      requires Valid()
      ensures OwnChange(pool.nodes, pool.nodes, chain, chain)
    {
      OwnChangeNone(pool.nodes, pool.nodes, chain);
    }

    /** Nodes that are free or this queue's never get fewer by its own work. */
    twostate lemma FreeOrMineGrow()
      requires old(Valid()) && Valid() && OnlyMine()
      ensures old(|pool.free| + count) <= |pool.free| + count
    {
      hide Consistent, Linked;
    }

    constructor (pool: SharedFds, budget: nat)
      requires pool.Valid()
      ensures Valid() && Contents() == [] && this.pool == pool && this.budget == budget
    {
      this.pool, this.budget := pool, budget;
      head, tail, count := None, None, 0;
      chain := [];
    }

    method EnsureCapacity(needed: nat) returns (r: Result<(), Error>)
      requires Valid()
      modifies pool
      ensures Valid() && OnlyMine()
      ensures r == Err(DescriptorBudgetExceeded) <==> needed > budget - count
      ensures r.Ok? ==> |pool.free| >= needed
      ensures old(|pool.free|) <= |pool.free|
      ensures old(|pool.free|) >= needed && needed <= budget - count ==> r.Ok?
      ensures r.Err? ==> r.error in {DescriptorBudgetExceeded, CapacityOverflow, OutOfMemory}
    {
      hide Consistent, Chained, OwnChange;
      if needed > budget - count {
        OwnChangeNone(pool.nodes, pool.nodes, chain);
        return Err(DescriptorBudgetExceeded);
      }
      r := pool.EnsureAvailable(needed);
      assert InUse(pool.nodes) == InUse(old(pool.nodes));
      OwnChangeNone(old(pool.nodes), pool.nodes, chain);
    }

    /** The front of the sequence, whose node becomes free. */
    method Pop() returns (r: Result<Fd, Error>)
      requires Valid()
      modifies this, pool
      ensures Valid() && OnlyMine()
      ensures if old(Contents()) == [] then r == Err(Empty) && Contents() == []
              else r == Ok(old(Contents())[0]) && Contents() == old(Contents())[1..]
    {
      hide Consistent, OwnChange, InUse;
      if count == 0 {
        OwnChangeNone(pool.nodes, pool.nodes, chain);
        return Err(Empty);
      }
      SuccessorInChain(pool.nodes, chain);
      var first := head.value;
      var following := pool.NextLease(first);
      head := following.value;
      r := pool.Take(first);
      PopChain(old(pool.nodes), pool.nodes, chain);
      count := count - 1;
      if head.None? {
        tail := None;
      }
      chain := chain[1..];
      assert chain != [] ==> chain[|chain| - 1] == old(chain)[|old(chain)| - 1];
    }

    /** Closes the oldest `amount` descriptors, or none when there are fewer. */
    method Discard(amount: nat, kernel: Kernel) returns (r: Result<(), Error>)
      requires Valid()
      modifies this, pool, kernel
      ensures Valid() && OnlyMine()
      ensures r == if old(count) < amount then Err(Empty) else Ok(())
      ensures r.Ok? ==> Contents() == old(Contents())[amount..]
                        && kernel.closed == old(kernel.closed) + old(Contents())[..amount]
      ensures r.Err? ==> Contents() == old(Contents()) && kernel.closed == old(kernel.closed)
    {
      hide Consistent, OwnChange, Chained, Footprint, InUse, Fds;
      OwnChangeNone(pool.nodes, pool.nodes, chain);
      if count < amount {
        return Err(Empty);
      }
      CloseOldest(amount, kernel);
      SplitAt(kernel.closed, Contents(), old(kernel.closed), old(Contents()), amount);
      return Ok(());
    }

    /** The loop of `discard`. */
    method CloseOldest(amount: nat, kernel: Kernel)
      requires Valid() && amount <= count
      modifies this, pool, kernel
      ensures Valid() && OnlyMine() && count == old(count) - amount
      ensures kernel.closed + Contents() == old(kernel.closed) + old(Contents())
    {
      hide Consistent, OwnChange;
      OwnChangeNone(pool.nodes, pool.nodes, chain);
      for i := 0 to amount
        invariant Valid() && OnlyMine()
        invariant count == old(count) - i
        invariant kernel.closed + Contents() == old(kernel.closed) + old(Contents())
      {
        label Before:
        var fd := Pop();
        kernel.Close(fd.value);
        OwnChangeThen(old(pool.nodes), old@Before(pool.nodes), pool.nodes, old(chain), old@Before(chain), chain);
      }
    }

    method Append(fd: Fd) returns (r: Result<(), Error>)
      requires Valid()
      modifies this, pool
      ensures Valid() && OnlyMine()
      ensures Contents() == if r.Ok? then old(Contents()) + [fd] else old(Contents())
      ensures r == Err(DescriptorBudgetExceeded) <==> old(count) == budget
      ensures r.Ok? ==> |pool.free| >= old(|pool.free|) - 1
      ensures old(count) < budget && old(|pool.free|) > 0 ==> r.Ok?
      ensures r.Err? ==> r.error in {DescriptorBudgetExceeded, CapacityOverflow, OutOfMemory}
    {
      hide Consistent, Chained, OwnChange, InUse, ViewOf, LeavesOthers;
      var room := EnsureCapacity(1);
      if room.Err? {
        return Err(room.error);
      }
      ghost var nodes := pool.nodes;
      var acquired := pool.Acquire(fd);
      var lease := acquired.value;
      AppendChain(nodes, pool.nodes, chain, lease);
      match tail {
        case Some(last) =>
          // The source takes the descriptor back if this fails; it cannot.
          var linked := pool.Link(last, lease);
          assert linked.Ok?;
        case None =>
          head := Some(lease);
      }
      tail := Some(lease);
      count := count + 1;
      chain := chain + [lease];
      OwnChangeThen(old(pool.nodes), nodes, pool.nodes, old(chain), old(chain), chain);
      return Ok(());
    }

    static lemma CopyOne(before: seq<Fd>, all: seq<Fd>, index: nat)
      requires index < |all| <= |before|
      ensures (all[..index] + before[index..])[index := all[index]] == all[..index + 1] + before[index + 1..]
    {}

    /** The descriptors in order, without removing them. */
    method CopyTo(destination: array<Fd>) returns (r: Result<nat, Error>)
      requires Valid()
      modifies destination
      ensures r == if destination.Length < count then Err(DescriptorBudgetExceeded) else Ok(count)
      ensures r.Ok? ==> destination[..] == Contents() + old(destination[count..])
      ensures r.Err? ==> destination[..] == old(destination[..])
    {
      hide Consistent, Footprint, Chained, Fds, Holds, InUse, OwnChange;
      if destination.Length < count {
        return Err(DescriptorBudgetExceeded);
      }
      var current := head;
      var index := 0;
      ghost var left, all, before := chain, Fds(chain), destination[..];
      assert all[..0] + before[0..] == before;
      while current.Some?
        invariant index + |left| == |all|
        invariant Chained(pool.nodes, left)
        invariant current == if left == [] then None else Some(left[0])
        invariant all[index..] == Fds(left)
        invariant destination[..] == all[..index] + before[index..]
        decreases |left|
      {
        SuccessorInChain(pool.nodes, left);
        assert all[index] == all[index..][0];
        CopyOne(before, all, index);
        destination[index] := current.value.payload;
        var following := pool.NextLease(current.value);
        current := following.value;
        index := index + 1;
        left := left[1..];
      }
      assert all[..index] == all;
      return Ok(count);
    }

    /** `deinit`: closes every descriptor still queued, oldest first. */
    method Deinit(kernel: Kernel)
      requires Valid()
      modifies this, pool, kernel
      ensures Valid() && OnlyMine() && Contents() == []
      ensures kernel.closed == old(kernel.closed) + old(Contents())
    {
      hide Consistent, OwnChange, Chained, Footprint, InUse, Fds;
      OwnChangeNone(pool.nodes, pool.nodes, chain);
      while true
        invariant Valid() && OnlyMine()
        invariant Fds(chain) == Contents()
        invariant kernel.closed + Contents() == old(kernel.closed) + old(Contents())
        decreases count
      {
        label Before:
        var fd := Pop();
        OwnChangeThen(old(pool.nodes), old@Before(pool.nodes), pool.nodes, old(chain), old@Before(chain), chain);
        if fd.Err? {
          break;
        }
        kernel.Close(fd.value);
      }
    }
  }

  /** The descriptors of the longest well-formed beginning of `control` are closed, in order. */
  method CloseRights(control: seq<byte>, kernel: Kernel) returns (r: Result<(), Error>)
    modifies kernel
    ensures kernel.closed == old(kernel.closed) + Rights.ParseControl(control).fds
    ensures r == if Rights.ParseControl(control).ok then Ok(()) else Err(MalformedControl)
  {
    hide Rights.ParseControl, Rights.Pending, Rights.FdsOf;
    var rights := new Rights.RightsIterator(control);
    while true
      invariant fresh(rights) && rights.Valid()
      invariant rights.Remaining().ok == Rights.ParseControl(control).ok
      invariant kernel.closed + rights.Remaining().fds == old(kernel.closed) + Rights.ParseControl(control).fds
      decreases |rights.Remaining().fds|
    {
      var next := rights.Next();
      match next {
        case Err(e) => return Err(e);
        case Ok(None) => return Ok(());
        case Ok(Some(fd)) => kernel.Close(fd);
      }
    }
  }

  /** The first pass of `enqueueRights`. */
  method CountRights(control: seq<byte>) returns (r: Result<nat, Error>)
    ensures var parsed := Rights.ParseControl(control);
            r == if parsed.ok then Ok(|parsed.fds|) else Err(MalformedControl)
  {
    hide Rights.ParseControl, Rights.Pending, Rights.FdsOf;
    var rights := new Rights.RightsIterator(control);
    var count := 0;
    while true
      invariant fresh(rights) && rights.Valid()
      invariant rights.Remaining().ok == Rights.ParseControl(control).ok
      invariant count + |rights.Remaining().fds| == |Rights.ParseControl(control).fds|
      decreases |rights.Remaining().fds|
    {
      var next := rights.Next();
      match next {
        case Err(e) => return Err(e);
        case Ok(None) => return Ok(count);
        case Ok(Some(_)) => count := count + 1;
      }
    }
  }

  /** The second pass of `enqueueRights`. It cannot fail: room for every descriptor was made first. */
  method AppendRights(control: seq<byte>, queue: FdQueue)
    requires queue.Valid() && Rights.ParseControl(control).ok
    requires |Rights.ParseControl(control).fds| <= queue.budget - queue.count
    requires |Rights.ParseControl(control).fds| <= |queue.pool.free|
    modifies queue, queue.pool
    ensures queue.Valid() && queue.OnlyMine()
    ensures queue.Contents() == old(queue.Contents()) + Rights.ParseControl(control).fds
  {
    hide Rights.ParseControl, Rights.Pending, Rights.FdsOf, Consistent, OwnChange, Chained, Footprint, InUse, Fds,
         Rights.RightsIterator.Valid, Rights.RightsIterator.Remaining;
    OwnChangeNone(queue.pool.nodes, queue.pool.nodes, queue.chain);
    var rights := new Rights.RightsIterator(control);
    while true
      invariant fresh(rights) && rights.Valid() && rights.Remaining().ok
      invariant queue.Valid() && queue.OnlyMine()
      invariant |rights.Remaining().fds| <= queue.budget - queue.count
      invariant |rights.Remaining().fds| <= |queue.pool.free|
      invariant queue.Contents() + rights.Remaining().fds ==
                old(queue.Contents()) + Rights.ParseControl(control).fds
      decreases |rights.Remaining().fds|
    {
      label Before:
      var next := rights.Next();
      if next == Ok(None) {
        return;
      }
      var appended := queue.Append(next.value.value);
      assert appended.Ok?;
      OwnChangeThen(old(queue.pool.nodes), old@Before(queue.pool.nodes), queue.pool.nodes,
                    old(queue.chain), old@Before(queue.chain), queue.chain);
    }
  }

  /** All or nothing: either the parsed descriptors are appended in order and none is closed, or the queue is as
      before and those of the well-formed beginning are closed once each. */
  method EnqueueRights(control: seq<byte>, queue: FdQueue, kernel: Kernel) returns (r: Result<nat, Error>)
    requires queue.Valid()
    modifies queue, queue.pool, kernel
    ensures queue.Valid() && queue.OnlyMine()
    ensures var parsed := Rights.ParseControl(control);
            && (r.Ok? ==>
                  && parsed.ok && r.value == |parsed.fds|
                  && queue.Contents() == old(queue.Contents()) + parsed.fds
                  && kernel.closed == old(kernel.closed))
            && (r.Err? ==>
                  && queue.Contents() == old(queue.Contents())
                  && kernel.closed == old(kernel.closed) + parsed.fds)
            && (r == Err(MalformedControl) <==> !parsed.ok)
            && (r == Err(DescriptorBudgetExceeded) <==>
                  parsed.ok && |parsed.fds| > queue.budget - old(queue.count))
            && ((parsed.ok && |parsed.fds| <= queue.budget - old(queue.count)
                 && |parsed.fds| <= old(|queue.pool.free|)) ==> r.Ok?)
            && (r.Err? ==> r.error in {MalformedControl, DescriptorBudgetExceeded, CapacityOverflow, OutOfMemory})
  {
    hide Rights.ParseControl, Consistent, OwnChange;
    OwnChangeNone(queue.pool.nodes, queue.pool.nodes, queue.chain);
    var counted := CountRights(control);
    if counted.Err? {
      var _ := CloseRights(control, kernel);
      return counted;
    }
    if counted.value == 0 {
      assert Rights.ParseControl(control).fds == [];
      return Ok(0);
    }
    var room := queue.EnsureCapacity(counted.value);
    if room.Err? {
      var _ := CloseRights(control, kernel);
      return Err(room.error);
    }
    label Room:
    AppendRights(control, queue);
    OwnChangeThen(old(queue.pool.nodes), old@Room(queue.pool.nodes), queue.pool.nodes,
                  old(queue.chain), old@Room(queue.chain), queue.chain);
    return counted;
  }
}

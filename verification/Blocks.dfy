/** A pool whose nodes carry memory: which block a lease grants, and whose memory anyone may write. */
module Blocks {
  import opened Outcomes
  import opened Bytes
  import opened Pool
  import opened Tenancies
  import opened Completion

  type Block = array<byte>
  type BlockLease = Lease<Block>

  ghost function IdleBlocks(nodes: seq<Node<Block>>): set<object> {
    set i | 0 <= i < |nodes| && !nodes[i].inUse :: nodes[i].payload
  }

  /** Acquiring a node, after possibly growing by unused ones, takes its block out of the idle memory. */
  lemma AcquireMemory(before: seq<Node<Block>>, nodes: seq<Node<Block>>, index: nat)
    requires before <= nodes && index < |nodes| && !nodes[index].inUse
    ensures var after := nodes[index := Acquired(nodes[index], nodes[index].payload)];
            && SameMemory(before, after)
            && (forall i :: |before| <= i < |nodes| ==> after[i].payload == nodes[i].payload)
            && (forall o :: o in IdleBlocks(after) ==>
                  o in IdleBlocks(before) || exists i :: |before| <= i < |nodes| && o == nodes[i].payload)
    ensures index < |before| ==> nodes[index].payload in IdleBlocks(before)
  {
    var after := nodes[index := Acquired(nodes[index], nodes[index].payload)];
    forall o | o in IdleBlocks(after)
      ensures o in IdleBlocks(before) || exists i :: |before| <= i < |nodes| && o == nodes[i].payload
    {
      var i :| 0 <= i < |after| && !after[i].inUse && after[i].payload == o;
      assert i != index && nodes[i].payload == o;
      if i < |before| {
        assert before[i] == nodes[i];
      }
    }
  }

  lemma GrowMemory(before: seq<Node<Block>>, nodes: seq<Node<Block>>)
    requires before <= nodes
    ensures SameMemory(before, nodes)
    ensures forall o :: o in IdleBlocks(nodes) ==>
              o in IdleBlocks(before) || exists i :: |before| <= i < |nodes| && o == nodes[i].payload
  {
    forall o | o in IdleBlocks(nodes)
      ensures o in IdleBlocks(before) || exists i :: |before| <= i < |nodes| && o == nodes[i].payload
    {
      var i :| 0 <= i < |nodes| && !nodes[i].inUse && nodes[i].payload == o;
      if i < |before| {
        assert before[i] == nodes[i];
      }
    }
  }

  class SharedBlocks {
    const blockSize: nat
    var nodes: seq<Node<Block>>
    var freeHead: nat
    var activeCount: nat
    ghost var free: seq<nat>
    ghost var tenancies: seq<nat>

    ghost predicate Valid()
      reads this
      ensures Valid() ==> |nodes| == |tenancies| <= SENTINEL
    {
      && Consistent(nodes, freeHead, free, tenancies)
      && activeCount + |free| == |nodes|
      && OwnMemory(nodes, blockSize)
    }

    /** The pool as a directory of tenancies. */
    ghost function View(): Directory
      reads this
      requires |nodes| == |tenancies|
    {
      ViewOf(nodes, tenancies)
    }

    /** The memory that nobody holds and anyone may write after acquiring it. */
    ghost function Idle(): set<object>
      reads this
    {
      IdleBlocks(nodes)
    }

    constructor (blockSize: nat)
      ensures Valid() && nodes == [] && activeCount == 0 && this.blockSize == blockSize
    {
      this.blockSize := blockSize;
      nodes, freeHead, activeCount := [], SENTINEL, 0;
      free, tenancies := [], [];
    }

    /** `init`: a pool that has grown to the requested reserve. */
    static method Init(blockSize: nat, count: nat) returns (r: Result<SharedBlocks, Error>)
      ensures r.Ok? ==> fresh(r.value) && r.value.Valid() && r.value.blockSize == blockSize > 0
                        && |r.value.nodes| == count && r.value.activeCount == 0
      ensures r == Err(InvalidConfig) <==> blockSize == 0 || count == 0 || count > SENTINEL
      ensures r.Err? && r.error != InvalidConfig ==>
                r.error == OutOfMemory || (r.error == CapacityOverflow && blockSize * count > USIZE_MAX)
    {
      if blockSize == 0 || count == 0 || count > SENTINEL {
        return Err(InvalidConfig);
      }
      if blockSize * count > USIZE_MAX {
        return Err(CapacityOverflow);
      }
      var pool := new SharedBlocks(blockSize);
      var reserved := pool.EnsureAvailable(count);
      match reserved {
        case Ok(_) => return Ok(pool);
        case Err(e) => return Err(e);
      }
    }

    method EnsureAvailable(count: nat) returns (r: Result<(), Error>)
      requires Valid()
      modifies this
      ensures Valid() && activeCount == old(activeCount)
      ensures old(nodes) <= nodes && old(tenancies) <= tenancies
      ensures forall i :: |old(nodes)| <= i < |nodes| ==> !nodes[i].inUse && fresh(nodes[i].payload)
      ensures Extends(old(View()), View())
      ensures r.Ok? ==> |free| == if old(|free|) < count then count else old(|free|)
      ensures old(|free|) >= count ==> r.Ok?
      ensures r == Err(CapacityOverflow) <==> count > SENTINEL - activeCount
      ensures r.Err? ==> r.error == CapacityOverflow || (r.error == OutOfMemory && |free| < count)
      ensures old(|free|) >= count || r == Err(CapacityOverflow) ==> nodes == old(nodes) && free == old(free)
    {
      hide Consistent, OwnMemory;
      if count > SENTINEL - activeCount {
        return Err(CapacityOverflow);
      }
      while |nodes| - activeCount < count
        invariant Valid() && activeCount == old(activeCount)
        invariant old(nodes) <= nodes && old(tenancies) <= tenancies
        invariant forall i :: |old(nodes)| <= i < |nodes| ==> !nodes[i].inUse && fresh(nodes[i].payload)
        invariant |free| == old(|free|) || |free| <= count
        invariant old(|free|) <= |free|
        invariant old(|free|) >= count ==> nodes == old(nodes) && free == old(free)
        decreases count - |free|
      {
        var grown := Grow();
        if grown.Err? {
          return Err(grown.error);
        }
      }
      return Ok(());
    }

    method Grow() returns (r: Result<(), Error>)
      requires Valid()
      modifies this
      ensures Valid() && activeCount == old(activeCount)
      ensures r.Ok? ==> |free| == old(|free|) + 1 && |nodes| == old(|nodes|) + 1
                        && nodes[..old(|nodes|)] == old(nodes) && !nodes[old(|nodes|)].inUse
                        && fresh(nodes[old(|nodes|)].payload) && old(tenancies) <= tenancies
      ensures r.Err? ==> nodes == old(nodes) && free == old(free) && tenancies == old(tenancies)
      ensures r == Err(CapacityOverflow) <==> old(|nodes|) >= SENTINEL
      ensures r.Err? ==> r.error == CapacityOverflow || r.error == OutOfMemory
    {
      hide Consistent;
      if |nodes| >= SENTINEL {
        return Err(CapacityOverflow);
      }
      var granted: bool := *;
      if !granted {
        return Err(OutOfMemory);
      }
      var bytes := new byte[blockSize];
      GrowKeeps(nodes, freeHead, free, tenancies, bytes);
      var index := |nodes|;
      nodes := nodes + [Node(bytes, freeHead, SENTINEL, 0, false)];
      freeHead := index;
      free, tenancies := free + [index], tenancies + [0];
      return Ok(());
    }

    method Acquire() returns (r: Result<BlockLease, Error>)
      requires Valid()
      modifies this
      ensures Valid() && LeavesOthers(old(nodes), nodes, {})
      ensures SameMemory(old(nodes), nodes)
      ensures forall i :: |old(nodes)| <= i < |nodes| ==> fresh(nodes[i].payload)
      ensures r.Ok? ==>
                && Holds(nodes, r.value)
                && r.value.index !in InUse(old(nodes))
                && InUse(nodes) == InUse(old(nodes)) + {r.value.index}
                && activeCount == old(activeCount) + 1
                && Step(old(View()), View())
                && r.value.generation == GenerationAfter(tenancies[r.value.index])
                && r.value.payload.Length == blockSize
                && (r.value.payload in old(Idle()) || fresh(r.value.payload))
      ensures r.Err? ==> InUse(nodes) == InUse(old(nodes)) && activeCount == old(activeCount)
                         && Extends(old(View()), View())
      ensures Idle() <= old(Idle()) + set o: object | o in Idle() && fresh(o)
      ensures old(|free|) > 0 ==> r.Ok?
      ensures r.Err? ==> r.error == CapacityOverflow || r.error == OutOfMemory
    {
      hide Consistent, OwnMemory, InUse, LeavesOthers, ViewOf, Step, Acquired, IdleBlocks, SameMemory, Extends, Holds,
           GenerationAfter;
      NothingFree(nodes, freeHead, free, tenancies);
      var room := EnsureAvailable(1);
      if room.Err? {
        SameInUse(old(nodes), nodes);
        GrowMemory(old(nodes), nodes);
        return Err(room.error);
      }
      HeadInBounds(nodes, freeHead, free, tenancies);
      GrowThenAcquire(old(nodes), old(tenancies), nodes, freeHead, free, tenancies, nodes[freeHead].payload);
      FreeHeadIsIdle(nodes, freeHead, free, tenancies);
      AcquireMemory(old(nodes), nodes, freeHead);
      var lease := AcquireHead();
      return Ok(lease);
    }

    method AcquireHead() returns (lease: BlockLease)
      requires Valid() && free != []
      modifies this
      ensures Valid() && activeCount == old(activeCount) + 1
      ensures lease.index == old(freeHead) < |old(nodes)| == |old(tenancies)| && !old(nodes)[lease.index].inUse
      ensures var node := old(nodes)[lease.index];
              nodes == old(nodes)[lease.index := Acquired(node, node.payload)]
      ensures tenancies == old(tenancies)[lease.index := old(tenancies)[lease.index] + 1]
      ensures lease.generation == GenerationAfter(tenancies[lease.index])
      ensures Holds(nodes, lease) && lease.payload == old(nodes)[lease.index].payload
      ensures lease.payload.Length == blockSize
    {
      hide Consistent;
      HeadInBounds(nodes, freeHead, free, tenancies);
      AcquireKeeps(nodes, freeHead, free, tenancies, nodes[freeHead].payload);
      var index := freeHead;
      var node := nodes[index];
      freeHead := node.freeNext;
      nodes := nodes[index := Acquired(node, node.payload)];
      activeCount := activeCount + 1;
      free, tenancies := free[..|free| - 1], tenancies[index := tenancies[index] + 1];
      lease := Lease(index, nodes[index].generation, node.payload);
      GenerationOf(nodes, freeHead, free, tenancies, index);
    }

    method Release(lease: BlockLease) returns (r: Result<(), Error>)
      requires Valid()
      modifies this
      ensures Valid() && LeavesOthers(old(nodes), nodes, {lease.index})
      ensures SameMemory(old(nodes), nodes) && |nodes| == |old(nodes)|
      ensures r == if Holds(old(nodes), lease) then Ok(()) else Err(StaleLease)
      ensures r.Ok? ==> InUse(nodes) == InUse(old(nodes)) - {lease.index}
                        && activeCount == old(activeCount) - 1
                        && Idle() == old(Idle()) + {lease.payload}
                        && Deactivates(old(View()), View(), lease.index)
      ensures r.Err? ==> nodes == old(nodes) && activeCount == old(activeCount) && tenancies == old(tenancies)
    {
      hide Consistent;
      if !Holds(nodes, lease) {
        return Err(StaleLease);
      }
      ReleaseKeeps(nodes, freeHead, free, tenancies, lease.index);
      nodes := nodes[lease.index := Released(nodes[lease.index], freeHead)];
      freeHead := lease.index;
      activeCount := activeCount - 1;
      free := free + [lease.index];
      return Ok(());
    }

    method Link(tail: BlockLease, next: BlockLease) returns (r: Result<(), Error>)
      requires Valid()
      modifies this
      ensures Valid() && activeCount == old(activeCount) && free == old(free)
      ensures tenancies == old(tenancies) && View() == old(View())
      ensures r.Ok? <==> Holds(old(nodes), tail) && Holds(old(nodes), next)
                         && old(nodes)[tail.index].chainNext == SENTINEL
      ensures r.Err? ==>
                r.error == if Holds(old(nodes), tail) && Holds(old(nodes), next) then InvalidConfig else StaleLease
      ensures nodes == if r.Ok? then old(nodes)[tail.index := old(nodes)[tail.index].(chainNext := next.index)]
                       else old(nodes)
    {
      if !Holds(nodes, tail) || !Holds(nodes, next) {
        return Err(StaleLease);
      }
      if nodes[tail.index].chainNext != SENTINEL {
        return Err(InvalidConfig);
      }
      LinkKeeps(nodes, freeHead, free, tenancies, tail.index, next.index);
      nodes := nodes[tail.index := nodes[tail.index].(chainNext := next.index)];
      return Ok(());
    }

    method NextLease(lease: BlockLease) returns (r: Result<Option<BlockLease>, Error>)
      requires Valid()
      ensures !Holds(nodes, lease) ==> r == Err(StaleLease)
      ensures Holds(nodes, lease) && nodes[lease.index].chainNext == SENTINEL ==> r == Ok(None)
      ensures Holds(nodes, lease) && nodes[lease.index].chainNext != SENTINEL ==>
                var next := nodes[lease.index].chainNext;
                r == if nodes[next].inUse
                then Ok(Some(Lease(next, nodes[next].generation, nodes[next].payload))) else Err(StaleLease)
    {
      if !Holds(nodes, lease) {
        return Err(StaleLease);
      }
      var index := nodes[lease.index].chainNext;
      if index == SENTINEL {
        return Ok(None);
      }
      var node := nodes[index];
      if !node.inUse {
        return Err(StaleLease);
      }
      return Ok(Some(Lease(index, node.generation, node.payload)));
    }
  }

  /** Nodes keep their blocks for good. */
  ghost predicate SameMemory(before: seq<Node<Block>>, after: seq<Node<Block>>) {
    && |before| <= |after|
    && forall i :: 0 <= i < |before| ==> after[i].payload == before[i].payload
  }

  /** Every node has a block of its own, of the pool's size. */
  ghost predicate OwnMemory(nodes: seq<Node<Block>>, blockSize: nat) {
    && (forall i :: 0 <= i < |nodes| ==> nodes[i].payload.Length == blockSize)
    && (forall i, j :: 0 <= i < j < |nodes| ==> nodes[i].payload != nodes[j].payload)
  }
}

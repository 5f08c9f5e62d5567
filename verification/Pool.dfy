/** Nodes on an intrusive free list, leased under generations: what acquiring, releasing and growing do to the
    list, and how long a given-up lease stays refused. */
module Pool {
  import opened Outcomes
  import opened Bytes
  import opened Completion
  import opened FreeList
  import opened Tenancies

  /** Marks the end of a free list or chain, and bounds the number of nodes. */
  const SENTINEL: nat := 0xffff_ffff

  datatype Node<T> = Node(payload: T, freeNext: nat, chainNext: nat, generation: u32, inUse: bool)

  datatype Lease<T> = Lease(index: nat, generation: u32, payload: T)

  /** `validate`: the lease names a node that is still held by it. */
  predicate Holds<T(==)>(nodes: seq<Node<T>>, lease: Lease<T>) {
    && lease.index < |nodes|
    && nodes[lease.index].inUse
    && nodes[lease.index].generation == lease.generation
    && nodes[lease.index].payload == lease.payload
  }

  ghost function Links<T>(nodes: seq<Node<T>>): (links: seq<nat>)
    ensures |links| == |nodes| && forall i :: 0 <= i < |links| ==> links[i] == nodes[i].freeNext
  {
    seq(|nodes|, i requires 0 <= i < |nodes| => nodes[i].freeNext)
  }

  /** The free list is acyclic, visits exactly the unused nodes, and every node carries the
      generation of its latest tenancy. */
  ghost predicate Consistent<T>(nodes: seq<Node<T>>, freeHead: nat, free: seq<nat>, tenancies: seq<nat>) {
    && |nodes| == |tenancies| <= SENTINEL
    && Distinct(free)
    && Threaded(Links(nodes), freeHead, free, SENTINEL)
    && (forall i: nat :: i < |nodes| ==> (nodes[i].inUse <==> i !in free))
    && (forall i: nat :: i < |nodes| ==> nodes[i].generation == GenerationAfter(tenancies[i]))
    && (forall i: nat :: i < |nodes| && nodes[i].inUse ==> tenancies[i] > 0)
    && (forall i: nat :: i < |nodes| ==> nodes[i].chainNext == SENTINEL || nodes[i].chainNext < |nodes|)
  }

  ghost function ViewOf<T>(nodes: seq<Node<T>>, tenancies: seq<nat>): Directory
    requires |nodes| == |tenancies|
  {
    seq(|nodes|, i requires 0 <= i < |nodes| => Tenancy(tenancies[i], nodes[i].inUse))
  }

  ghost function InUse<T>(nodes: seq<Node<T>>): set<nat> {
    set i: nat | i < |nodes| && nodes[i].inUse
  }

  /** Every node that was held, other than those of `mine`, is exactly as before. */
  ghost predicate LeavesOthers<T>(before: seq<Node<T>>, after: seq<Node<T>>, mine: set<nat>) {
    && |before| <= |after|
    && forall i: nat :: i < |before| && before[i].inUse && i !in mine ==> after[i] == before[i]
  }

  /** The free list holds as many nodes as `available` reports. */
  lemma AvailableIsExact<T>(nodes: seq<Node<T>>, freeHead: nat, free: seq<nat>, tenancies: seq<nat>)
    requires Consistent(nodes, freeHead, free, tenancies)
    ensures |InUse(nodes)| + |free| == |nodes|
  {
    ThreadedInBounds(Links(nodes), freeHead, free, SENTINEL);
    UsedCount(|nodes|, free, InUse(nodes));
  }

  lemma HeadInBounds<T>(nodes: seq<Node<T>>, freeHead: nat, free: seq<nat>, tenancies: seq<nat>)
    requires Consistent(nodes, freeHead, free, tenancies) && free != []
    ensures freeHead < |nodes|
  {}

  lemma FreeHeadIsIdle<T>(nodes: seq<Node<T>>, freeHead: nat, free: seq<nat>, tenancies: seq<nat>)
    requires Consistent(nodes, freeHead, free, tenancies) && free != []
    ensures freeHead < |nodes| && !nodes[freeHead].inUse
  {
    assert freeHead in free;
  }

  /** With an empty free list every node is held. */
  lemma NothingFree<T>(nodes: seq<Node<T>>, freeHead: nat, free: seq<nat>, tenancies: seq<nat>)
    requires Consistent(nodes, freeHead, free, tenancies)
    ensures free == [] ==> forall i :: 0 <= i < |nodes| ==> nodes[i].inUse
  {}

  lemma GenerationOf<T>(nodes: seq<Node<T>>, freeHead: nat, free: seq<nat>, tenancies: seq<nat>, i: nat)
    requires Consistent(nodes, freeHead, free, tenancies) && i < |nodes|
    ensures |nodes| == |tenancies| && nodes[i].generation == GenerationAfter(tenancies[i])
  {}

  /** What `acquire` makes of a node. */
  function Acquired<T>(node: Node<T>, payload: T): Node<T> {
    node.(payload := payload, chainNext := SENTINEL, generation := NextGeneration(node.generation), inUse := true)
  }

  /** What `release` and `take` make of a node. */
  function Released<T>(node: Node<T>, freeHead: nat): Node<T> {
    node.(freeNext := freeHead, chainNext := SENTINEL, inUse := false)
  }

  lemma AcquireKeeps<T>(nodes: seq<Node<T>>, freeHead: nat, free: seq<nat>, tenancies: seq<nat>, payload: T)
    requires Consistent(nodes, freeHead, free, tenancies) && free != []
    ensures freeHead < |nodes| && !nodes[freeHead].inUse && freeHead == free[|free| - 1]
    ensures var count := tenancies[freeHead] + 1;
            var after := nodes[freeHead := Acquired(nodes[freeHead], payload)];
            && Consistent(after, nodes[freeHead].freeNext, free[..|free| - 1], tenancies[freeHead := count])
            && Recycles(ViewOf(nodes, tenancies), ViewOf(after, tenancies[freeHead := count]), freeHead)
  {
    ThreadedInBounds(Links(nodes), freeHead, free, SENTINEL);
    var after := nodes[freeHead := Acquired(nodes[freeHead], payload)];
    ThreadedPop(Links(nodes), Links(after), freeHead, free, SENTINEL);
    var count := tenancies[freeHead] + 1;
    assert ViewOf(after, tenancies[freeHead := count]) ==
           ViewOf(nodes, tenancies)[freeHead := Tenancy(count, true)];
  }

  /** Growing only when every node is held, then acquiring, is one step of the directory. */
  lemma GrowThenAcquire<T>(
    before: seq<Node<T>>, tenanciesBefore: seq<nat>,
    nodes: seq<Node<T>>, freeHead: nat, free: seq<nat>, tenancies: seq<nat>, payload: T)
    requires Consistent(nodes, freeHead, free, tenancies) && free != []
    requires |before| == |tenanciesBefore| && before <= nodes && tenanciesBefore <= tenancies
    requires forall i :: |before| <= i < |nodes| ==> !nodes[i].inUse
    requires nodes == before || forall i :: 0 <= i < |before| ==> before[i].inUse
    ensures freeHead < |nodes| && freeHead !in InUse(before)
    ensures var after := nodes[freeHead := Acquired(nodes[freeHead], payload)];
            && InUse(after) == InUse(before) + {freeHead}
            && LeavesOthers(before, after, {})
            && Step(ViewOf(before, tenanciesBefore), ViewOf(after, tenancies[freeHead := tenancies[freeHead] + 1]))
  {
    AcquireKeeps(nodes, freeHead, free, tenancies, payload);
    var after := nodes[freeHead := Acquired(nodes[freeHead], payload)];
    if nodes == before {
      assert tenanciesBefore == tenancies;
    } else {
      assert freeHead >= |before|;
      assert Extends(ViewOf(before, tenanciesBefore), ViewOf(after, tenancies[freeHead := tenancies[freeHead] + 1]));
    }
  }

  lemma SameInUse<T>(before: seq<Node<T>>, after: seq<Node<T>>)
    requires before <= after && forall i :: |before| <= i < |after| ==> !after[i].inUse
    ensures InUse(after) == InUse(before) && LeavesOthers(before, after, {})
  {}

  lemma ReleaseKeeps<T>(nodes: seq<Node<T>>, freeHead: nat, free: seq<nat>, tenancies: seq<nat>, index: nat)
    requires Consistent(nodes, freeHead, free, tenancies)
    requires index < |nodes| && nodes[index].inUse
    ensures var after := nodes[index := Released(nodes[index], freeHead)];
            && Consistent(after, index, free + [index], tenancies)
            && Deactivates(ViewOf(nodes, tenancies), ViewOf(after, tenancies), index)
            && |free| < |nodes|
  {
    var after := nodes[index := Released(nodes[index], freeHead)];
    ThreadedInBounds(Links(nodes), freeHead, free, SENTINEL);
    ThreadedPush(Links(nodes), Links(after), freeHead, free, SENTINEL, index);
    DistinctPush(free, index);
    assert ViewOf(after, tenancies) ==
           ViewOf(nodes, tenancies)[index := ViewOf(nodes, tenancies)[index].(active := false)];
    AvailableIsExact(nodes, freeHead, free, tenancies);
    assert index in InUse(nodes);
  }

  lemma GrowKeeps<T>(nodes: seq<Node<T>>, freeHead: nat, free: seq<nat>, tenancies: seq<nat>, payload: T)
    requires Consistent(nodes, freeHead, free, tenancies) && |nodes| < SENTINEL
    ensures var after := nodes + [Node(payload, freeHead, SENTINEL, 0, false)];
            && Consistent(after, |nodes|, free + [|nodes|], tenancies + [0])
  {
    var after := nodes + [Node(payload, freeHead, SENTINEL, 0, false)];
    var index := |nodes|;
    ThreadedInBounds(Links(nodes), freeHead, free, SENTINEL);
    ThreadedAgrees(Links(nodes), Links(after), freeHead, free, SENTINEL);
    ThreadedCons(Links(after), freeHead, free, SENTINEL, index);
    DistinctPush(free, index);
  }

  /** Changing only the chain link of a node disturbs nothing else. */
  lemma LinkKeeps<T>(nodes: seq<Node<T>>, freeHead: nat, free: seq<nat>, tenancies: seq<nat>, index: nat, target: nat)
    requires Consistent(nodes, freeHead, free, tenancies) && index < |nodes| && target < |nodes|
    ensures var after := nodes[index := nodes[index].(chainNext := target)];
            && Consistent(after, freeHead, free, tenancies)
            && ViewOf(after, tenancies) == ViewOf(nodes, tenancies)
  {
    var after := nodes[index := nodes[index].(chainNext := target)];
    assert Links(after) == Links(nodes);
  }

  /** A lease validates exactly while its node is in the tenancy that its generation names, with the
      payload it was handed out with. */
  lemma HeldLeaseIsCurrent<T>(
    nodes: seq<Node<T>>, freeHead: nat, free: seq<nat>, tenancies: seq<nat>, lease: Lease<T>)
    requires Consistent(nodes, freeHead, free, tenancies)
    ensures Holds(nodes, lease) <==>
            && Current(ViewOf(nodes, tenancies), lease.index, lease.generation)
            && nodes[lease.index].payload == lease.payload
  {}

  // ---- histories

  datatype Snapshot<T> = Snapshot(nodes: seq<Node<T>>, freeHead: nat, free: seq<nat>, tenancies: seq<nat>)
  {
    ghost predicate Sound() {
      Consistent(nodes, freeHead, free, tenancies)
    }

    ghost function View(): Directory
      requires Sound()
    {
      ViewOf(nodes, tenancies)
    }
  }

  /** Every state of the pool is consistent, and each comes from the one before by a step of the directory. */
  ghost predicate IsHistory<T>(history: seq<Snapshot<T>>) {
    && history != []
    && (forall k :: 0 <= k < |history| ==> history[k].Sound())
    && (forall k :: 0 <= k < |history| - 1 ==> Step(history[k].View(), history[k + 1].View()))
  }

  lemma HistoryThen<T>(history: seq<Snapshot<T>>, next: Snapshot<T>)
    requires IsHistory(history) && next.Sound() && Step(history[|history| - 1].View(), next.View())
    ensures IsHistory(history + [next])
  {
    hide Consistent, Step, ViewOf;
  }

  ghost function Views<T>(history: seq<Snapshot<T>>): (views: seq<Directory>)
    requires IsHistory(history)
    ensures |views| == |history| && forall k :: 0 <= k < |views| ==> views[k] == history[k].View()
  {
    seq(|history|, k requires 0 <= k < |history| => history[k].View())
  }

  /** Over any history of the pool, a lease whose node has been given up is refused until the node has been
      acquired 2^32-1 more times. At exactly that acquisition it is accepted once more, if the node then
      carries the same payload. */
  lemma StaleLeasesNeverHold<T>(history: seq<Snapshot<T>>, lease: Lease<T>, issued: nat, released: nat, now: nat)
    requires IsHistory(history) && issued <= released <= now < |history|
    requires Holds(history[issued].nodes, lease)
    requires lease.index < |history[released].nodes| && !history[released].nodes[lease.index].inUse
    ensures lease.index < |history[now].nodes| == |history[now].tenancies|
    ensures lease.index < |history[issued].tenancies|
    ensures history[issued].tenancies[lease.index] <= history[now].tenancies[lease.index]
    ensures var gap := history[now].tenancies[lease.index] - history[issued].tenancies[lease.index];
            var node := history[now].nodes[lease.index];
            && (gap < PERIOD ==> !Holds(history[now].nodes, lease))
            && (gap == PERIOD ==> (Holds(history[now].nodes, lease) <==> node.inUse && node.payload == lease.payload))
  {
    var views, first, last := Views(history), history[issued], history[now];
    assert Tenancies.Run(views) by {
      forall k | 0 <= k < |views| - 1 ensures Step(views[k], views[k + 1]) {
        assert Step(history[k].View(), history[k + 1].View());
      }
    }
    HeldLeaseIsCurrent(first.nodes, first.freeHead, first.free, first.tenancies, lease);
    HeldLeaseIsCurrent(last.nodes, last.freeHead, last.free, last.tenancies, lease);
    assert history[released].Sound();
    CountOnlyGrows(views, lease.index, issued, now);
    var gap := last.tenancies[lease.index] - first.tenancies[lease.index];
    if gap < PERIOD {
      StaleUntilWrap(views, lease.index, lease.generation, issued, released, now);
    } else if gap == PERIOD && last.nodes[lease.index].inUse {
      WrapsAround(views, lease.index, lease.generation, issued, now);
    }
  }

  type FdLease = Lease<Fd>
  type FdNode = Node<Fd>

  /** The pool for descriptors: a node in use carries the descriptor it was acquired for, until `Take`. */
  class SharedFds {
    var nodes: seq<FdNode>
    var freeHead: nat
    var activeCount: nat
    ghost var free: seq<nat>
    ghost var tenancies: seq<nat>

    ghost predicate Valid()
      reads this
      ensures Valid() ==> |nodes| == |tenancies| <= SENTINEL
    {
      && Consistent(nodes, freeHead, free, tenancies)
      && activeCount + |free| == |nodes|
    }

    ghost function View(): Directory
      reads this
      requires |nodes| == |tenancies|
    {
      ViewOf(nodes, tenancies)
    }

    constructor ()
      ensures Valid() && nodes == [] && activeCount == 0
    {
      nodes, freeHead, activeCount := [], SENTINEL, 0;
      free, tenancies := [], [];
    }

    /** `init`: an empty pool that has grown to the requested reserve. */
    static method Init(capacity: nat) returns (r: Result<SharedFds, Error>)
      ensures r.Ok? ==> fresh(r.value) && r.value.Valid() && |r.value.nodes| == capacity && r.value.activeCount == 0
      ensures capacity == 0 || capacity > SENTINEL <==> r == Err(InvalidConfig)
      ensures r.Err? ==> r.error == InvalidConfig || r.error == OutOfMemory
    {
      if capacity == 0 || capacity > SENTINEL {
        return Err(InvalidConfig);
      }
      var pool := new SharedFds();
      var reserved := pool.EnsureAvailable(capacity);
      match reserved {
        case Ok(_) => return Ok(pool);
        case Err(e) => return Err(e);
      }
    }

    method EnsureAvailable(count: nat) returns (r: Result<(), Error>)
      requires Valid()
      modifies this
      ensures Valid() && activeCount == old(activeCount)
      ensures old(nodes) <= nodes && forall i :: |old(nodes)| <= i < |nodes| ==> !nodes[i].inUse
      ensures old(tenancies) <= tenancies
      ensures r.Ok? ==> |free| == if old(|free|) < count then count else old(|free|)
      ensures Extends(old(View()), View())
      ensures r == Err(CapacityOverflow) <==> count > SENTINEL - activeCount
      ensures old(|free|) >= count ==> r.Ok?
      ensures old(|free|) <= |free|
      ensures r.Err? ==> r.error == CapacityOverflow || (r.error == OutOfMemory && |free| < count)
      ensures old(|free|) >= count || r == Err(CapacityOverflow) ==>
                nodes == old(nodes) && free == old(free) && tenancies == old(tenancies)
    {
      hide Consistent;
      if count > SENTINEL - activeCount {
        return Err(CapacityOverflow);
      }
      while |nodes| - activeCount < count
        invariant Valid() && activeCount == old(activeCount)
        invariant old(nodes) <= nodes && forall i :: |old(nodes)| <= i < |nodes| ==> !nodes[i].inUse
        invariant old(tenancies) <= tenancies
        invariant |free| == old(|free|) || |free| <= count
        invariant old(|free|) <= |free|
        invariant old(|free|) >= count ==>
                    nodes == old(nodes) && free == old(free) && tenancies == old(tenancies)
        decreases count - |free|
      {
        var grown := Grow();
        if grown.Err? {
          return Err(grown.error);
        }
      }
      return Ok(());
    }

    /** Adds one node, unless the node count is exhausted or the allocator refuses. */
    method Grow() returns (r: Result<(), Error>)
      requires Valid()
      modifies this
      ensures Valid() && activeCount == old(activeCount)
      ensures r.Ok? ==> |free| == old(|free|) + 1 && |nodes| == old(|nodes|) + 1
                        && nodes[..old(|nodes|)] == old(nodes) && !nodes[old(|nodes|)].inUse
                        && old(tenancies) <= tenancies
      ensures r.Err? ==> nodes == old(nodes) && free == old(free) && tenancies == old(tenancies)
      ensures r == Err(CapacityOverflow) <==> old(|nodes|) >= SENTINEL
      ensures r.Err? ==> r.error == CapacityOverflow || r.error == OutOfMemory
    {
      if |nodes| >= SENTINEL {
        return Err(CapacityOverflow);
      }
      var granted: bool := *;
      if !granted {
        return Err(OutOfMemory);
      }
      GrowKeeps(nodes, freeHead, free, tenancies, -1);
      var index := |nodes|;
      nodes := nodes + [Node(-1, freeHead, SENTINEL, 0, false)];
      freeHead := index;
      free, tenancies := free + [index], tenancies + [0];
      return Ok(());
    }

    method Acquire(fd: Fd) returns (r: Result<FdLease, Error>)
      requires Valid()
      modifies this
      ensures Valid() && LeavesOthers(old(nodes), nodes, {})
      ensures r.Ok? ==>
                && Holds(nodes, r.value) && r.value.payload == fd
                && r.value.index !in InUse(old(nodes))
                && InUse(nodes) == InUse(old(nodes)) + {r.value.index}
                && nodes[r.value.index].chainNext == SENTINEL
                && Step(old(View()), View())
                && activeCount == old(activeCount) + 1
                && |free| == (if old(|free|) == 0 then 1 else old(|free|)) - 1
                && r.value.generation == GenerationAfter(tenancies[r.value.index])
      ensures r.Err? ==> InUse(nodes) == InUse(old(nodes)) && activeCount == old(activeCount)
                         && Extends(old(View()), View())
      ensures old(|free|) > 0 ==> r.Ok?
      ensures r.Err? ==> r.error == CapacityOverflow || r.error == OutOfMemory
    {
      hide Consistent, InUse, LeavesOthers, ViewOf, Step, Acquired, Extends;
      NothingFree(nodes, freeHead, free, tenancies);
      var room := EnsureAvailable(1);
      if room.Err? {
        SameInUse(old(nodes), nodes);
        return Err(room.error);
      }
      GrowThenAcquire(old(nodes), old(tenancies), nodes, freeHead, free, tenancies, fd);
      var lease := AcquireHead(fd);
      return Ok(lease);
    }

    /** The part of `acquire` after a free node is certain. */
    method AcquireHead(fd: Fd) returns (lease: FdLease)
      requires Valid() && free != []
      modifies this
      ensures Valid() && activeCount == old(activeCount) + 1 && free == old(free)[..|old(free)| - 1]
      ensures old(freeHead) < |old(nodes)| == |old(tenancies)|
      ensures nodes == old(nodes)[old(freeHead) := Acquired(old(nodes)[old(freeHead)], fd)]
      ensures tenancies == old(tenancies)[old(freeHead) := old(tenancies)[old(freeHead)] + 1]
      ensures lease == Lease(old(freeHead), nodes[old(freeHead)].generation, fd)
      ensures Holds(nodes, lease) && nodes[lease.index].chainNext == SENTINEL
      ensures lease.generation == GenerationAfter(tenancies[lease.index])
    {
      AcquireKeeps(nodes, freeHead, free, tenancies, fd);
      var index := freeHead;
      var node := nodes[index];
      freeHead := node.freeNext;
      nodes := nodes[index := Acquired(node, fd)];
      activeCount := activeCount + 1;
      free, tenancies := free[..|free| - 1], tenancies[index := tenancies[index] + 1];
      lease := Lease(index, nodes[index].generation, fd);
    }

    /** Ends the tenancy of a current lease and hands out its payload. */
    method Take(lease: FdLease) returns (r: Result<Fd, Error>)
      requires Valid()
      modifies this
      ensures Valid() && LeavesOthers(old(nodes), nodes, {lease.index})
      ensures r == if Holds(old(nodes), lease) then Ok(lease.payload) else Err(StaleLease)
      ensures r.Ok? ==>
                && InUse(nodes) == InUse(old(nodes)) - {lease.index}
                && activeCount == old(activeCount) - 1
                && |free| == old(|free|) + 1
                && Deactivates(old(View()), View(), lease.index)
      ensures r.Err? ==> nodes == old(nodes) && activeCount == old(activeCount) && free == old(free)
                         && tenancies == old(tenancies)
    {
      if !Holds(nodes, lease) {
        return Err(StaleLease);
      }
      ReleaseKeeps(nodes, freeHead, free, tenancies, lease.index);
      nodes := nodes[lease.index := Released(nodes[lease.index], freeHead)];
      freeHead := lease.index;
      activeCount := activeCount - 1;
      free := free + [lease.index];
      return Ok(lease.payload);
    }

    method Link(tail: FdLease, next: FdLease) returns (r: Result<(), Error>)
      requires Valid()
      modifies this
      ensures Valid() && activeCount == old(activeCount) && free == old(free)
      ensures tenancies == old(tenancies) && View() == old(View())
      ensures r.Ok? <==> Holds(old(nodes), tail) && Holds(old(nodes), next)
                         && old(nodes)[tail.index].chainNext == SENTINEL
      ensures r.Err? ==>
                r.error == if Holds(old(nodes), tail) && Holds(old(nodes), next) then InvalidConfig else StaleLease
      ensures nodes == if r.Ok? then old(nodes)[tail.index := old(nodes)[tail.index].(chainNext := next.index)]
                       else old(nodes)
    {
      if !Holds(nodes, tail) || !Holds(nodes, next) {
        return Err(StaleLease);
      }
      if nodes[tail.index].chainNext != SENTINEL {
        return Err(InvalidConfig);
      }
      LinkKeeps(nodes, freeHead, free, tenancies, tail.index, next.index);
      nodes := nodes[tail.index := nodes[tail.index].(chainNext := next.index)];
      return Ok(());
    }

    /** The successor is checked only for being in use; its generation is read back from the node. */
    method NextLease(lease: FdLease) returns (r: Result<Option<FdLease>, Error>)
      requires Valid()
      ensures !Holds(nodes, lease) ==> r == Err(StaleLease)
      ensures Holds(nodes, lease) && nodes[lease.index].chainNext == SENTINEL ==> r == Ok(None)
      ensures Holds(nodes, lease) && nodes[lease.index].chainNext != SENTINEL ==>
                var next := nodes[lease.index].chainNext;
                r == if nodes[next].inUse
                then Ok(Some(Lease(next, nodes[next].generation, nodes[next].payload))) else Err(StaleLease)
    {
      if !Holds(nodes, lease) {
        return Err(StaleLease);
      }
      var index := nodes[lease.index].chainNext;
      if index == SENTINEL {
        return Ok(None);
      }
      var node := nodes[index];
      if !node.inUse {
        return Err(StaleLease);
      }
      return Ok(Some(Lease(index, node.generation, node.payload)));
    }
  }
}

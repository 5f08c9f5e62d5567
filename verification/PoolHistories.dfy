/** Any list of calls on a shared pool, failed ones included, is a history in the sense of the wrap bound. */
module PoolHistories {
  import opened Bytes
  import opened Tenancies
  import opened Pool
  import opened Blocks

  datatype Call<T> =
    | Acquire(payload: T)
    | Release(lease: Lease<T>)
    | Link(tail: Lease<T>, next: Lease<T>)
    | EnsureAvailable(count: nat)

  ghost function FdsNow(pool: SharedFds): (now: Snapshot<Fd>)
    reads pool
  {
    Snapshot(pool.nodes, pool.freeHead, pool.free, pool.tenancies)
  }

  ghost function BlocksNow(pool: SharedBlocks): (now: Snapshot<Block>)
    reads pool
  {
    Snapshot(pool.nodes, pool.freeHead, pool.free, pool.tenancies)
  }

  /** One call on the descriptor pool is one step of its directory, whatever it returns. */
  method CallFds(pool: SharedFds, call: Call<Fd>)
    requires pool.Valid()
    modifies pool
    ensures pool.Valid() && Step(old(pool.View()), pool.View())
  {
    hide Consistent, ViewOf, Recycles;
    match call {
      case Acquire(fd) => var _ := pool.Acquire(fd);
      case Release(lease) => var _ := pool.Take(lease);
      case Link(tail, next) => var _ := pool.Link(tail, next);
      case EnsureAvailable(count) => var _ := pool.EnsureAvailable(count);
    }
  }

  /** One call on the block pool; blocks are not chosen by the caller. */
  method CallBlocks(pool: SharedBlocks, call: Call<Block>)
    requires pool.Valid()
    modifies pool
    ensures pool.Valid() && Step(old(pool.View()), pool.View())
  {
    hide Consistent, OwnMemory, ViewOf, Recycles;
    match call {
      case Acquire(_) => var _ := pool.Acquire();
      case Release(lease) => var _ := pool.Release(lease);
      case Link(tail, next) => var _ := pool.Link(tail, next);
      case EnsureAvailable(count) => var _ := pool.EnsureAvailable(count);
    }
  }

  /** The states between any calls on the descriptor pool form a history. */
  method ReplayFds(pool: SharedFds, calls: seq<Call<Fd>>) returns (ghost history: seq<Snapshot<Fd>>)
    requires pool.Valid()
    modifies pool
    ensures pool.Valid() && |history| == |calls| + 1 && IsHistory(history)
    ensures history[0] == old(FdsNow(pool)) && history[|calls|] == FdsNow(pool)
  {
    hide Consistent, Step, ViewOf;
    history := [FdsNow(pool)];
    for i := 0 to |calls|
      invariant pool.Valid() && |history| == i + 1 && IsHistory(history)
      invariant history[0] == old(FdsNow(pool)) && history[i] == FdsNow(pool)
    {
      CallFds(pool, calls[i]);
      HistoryThen(history, FdsNow(pool));
      history := history + [FdsNow(pool)];
    }
  }

  /** The same for the block pool. */
  method ReplayBlocks(pool: SharedBlocks, calls: seq<Call<Block>>) returns (ghost history: seq<Snapshot<Block>>)
    requires pool.Valid()
    modifies pool
    ensures pool.Valid() && |history| == |calls| + 1 && IsHistory(history)
    ensures history[0] == old(BlocksNow(pool)) && history[|calls|] == BlocksNow(pool)
  {
    hide Consistent, OwnMemory, Step, ViewOf;
    history := [BlocksNow(pool)];
    for i := 0 to |calls|
      invariant pool.Valid() && |history| == i + 1 && IsHistory(history)
      invariant history[0] == old(BlocksNow(pool)) && history[i] == BlocksNow(pool)
    {
      CallBlocks(pool, calls[i]);
      HistoryThen(history, BlocksNow(pool));
      history := history + [BlocksNow(pool)];
    }
  }
}

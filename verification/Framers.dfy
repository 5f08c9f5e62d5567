/** All framers of a reactor on their one shared block pool. */
module Framers {
  import opened Outcomes
  import opened Bytes
  import opened Pool
  import opened Blocks
  import opened Wire
  import opened Stream

  ghost function Sum(counts: seq<nat>): nat {
    if counts == [] then 0 else counts[0] + Sum(counts[1..])
  }

  lemma {:induction false} SumUpdate(counts: seq<nat>, k: nat, count: nat)
    requires k < |counts|
    ensures Sum(counts[k := count]) + counts[k] == Sum(counts) + count
  {
    var updated := counts[k := count];
    if k == 0 {
      assert updated[1..] == counts[1..];
    } else {
      assert updated[1..] == counts[1..][k - 1 := count];
      SumUpdate(counts[1..], k - 1, count);
    }
  }

  lemma {:induction false} SumAppend(counts: seq<nat>, count: nat)
    ensures Sum(counts + [count]) == Sum(counts) + count
  {
    var longer := counts + [count];
    if counts == [] {
      assert longer[1..] == [];
    } else {
      assert longer[1..] == counts[1..] + [count];
      SumAppend(counts[1..], count);
    }
  }

  lemma {:induction false} SumRemove(counts: seq<nat>, k: nat)
    requires k < |counts|
    ensures Sum(counts[..k] + counts[k + 1..]) + counts[k] == Sum(counts)
  {
    var fewer := counts[..k] + counts[k + 1..];
    if k == 0 {
      assert fewer == counts[1..];
    } else {
      assert fewer[1..] == counts[1..][..k - 1] + counts[1..][k..];
      SumRemove(counts[1..], k - 1);
    }
  }

  lemma {:induction false} SumZero(counts: seq<nat>)
    requires forall i :: 0 <= i < |counts| ==> counts[i] == 0
    ensures Sum(counts) == 0
  {
    if counts != [] {
      SumZero(counts[1..]);
    }
  }

  class Framers {
    const pool: SharedBlocks
    var framers: seq<Framer>

    /** Two framers hold different nodes and use different memory. */
    ghost predicate Apart(f: Framer, g: Framer)
      reads f, g
    {
      && f != g
      && f.Mine() !! g.Mine()
      && f.scratch != g.scratch && f.scratch != g.inlineScratch
      && f.inlineScratch != g.scratch && f.inlineScratch != g.inlineScratch
    }

    ghost predicate Valid()
      reads this, pool, framers, set f | f in framers :: f.scratch
    {
      && pool.Valid() && pool.blockSize > 0
      && (forall i :: 0 <= i < |framers| ==> framers[i].blocks == pool && framers[i].Valid())
      && (forall i, j :: 0 <= i < j < |framers| ==> Apart(framers[i], framers[j]))
      && pool.activeCount == Sum(Counts())
    }

    ghost function Counts(): (counts: seq<nat>)
      reads this, framers
      ensures |counts| == |framers|
    {
      seq(|framers|, i requires 0 <= i < |framers| reads this, framers => framers[i].Leases())
    }

    constructor (pool: SharedBlocks)
      requires pool.Valid() && pool.blockSize > 0 && pool.activeCount == 0
      ensures Valid() && framers == [] && this.pool == pool
    {
      this.pool, framers := pool, [];
    }

    method Open()
      requires Valid()
      modifies this
      ensures Valid() && |framers| == old(|framers|) + 1 && framers[..|framers| - 1] == old(framers)
      ensures fresh(framers[|framers| - 1]) && framers[|framers| - 1].Pending() == []
    {
      hide Consistent, OwnMemory, Framer.Space;
      ghost var counts := Counts();
      var framer := new Framer.InitShared(pool);
      framers := framers + [framer];
      assert Counts() == counts + [0];
      SumAppend(counts, 0);
    }

    /** The memory framer `k` may write is none of framer `i`'s. */
    lemma MemoryApart(k: nat, i: nat)
      requires Valid() && k < |framers| && i < |framers| && i != k
      ensures framers[i] !in framers[k].Writable()
      ensures framers[i].scratch !in framers[k].Writable()
      ensures framers[i].inlineScratch !in framers[k].Writable()
    {
      hide Consistent;
      var f, g := framers[i], framers[k];
      assert Apart(f, g) || Apart(g, f);
      ScratchIsBusy(i);
    }

    /** Scratch space is never memory that nobody holds. */
    lemma ScratchIsBusy(i: nat)
      requires Valid() && i < |framers|
      ensures framers[i].scratch !in pool.Idle() && framers[i].inlineScratch !in pool.Idle()
    {
      var f := framers[i];
      if f.lease.Some? {
        var l := f.lease.value;
        forall n | 0 <= n < |pool.nodes| && !pool.nodes[n].inUse ensures pool.nodes[n].payload != f.scratch {
          assert n != l.index;
        }
      }
    }

    /** The message, the unread input and the pending bytes of framer `k` are its own; nobody else
        notices the call, and messages they have lent out stay in place. */
    method Next(k: nat, input: seq<byte>) returns (r: Result<Option<Message>, Error>, rest: seq<byte>)
      requires Valid() && k < |framers|
      modifies framers[k], framers[k].Writable()
      ensures Valid() && framers == old(framers)
      ensures Answers(framers[k].Capacity(), old(framers[k].Pending()), input, old(framers[k].Starved()),
                      r, framers[k].Pending(), rest)
      ensures framers[k].Starved() ==> old(framers[k].Starved())
      ensures forall i :: 0 <= i < |framers| && i != k ==>
                && framers[i].scratch == old(framers[i].scratch) && framers[i].lease == old(framers[i].lease)
                && framers[i].Pending() == old(framers[i].Pending())
                && (forall m :: old(framers[i].Borrowed(m)) ==> framers[i].Borrowed(m))
    {
      hide Consistent, OwnMemory, OwnNodes, Answers, Framer.Space, Framer.Borrowed, Framer.Starved,
           Framer.Capacity, Peek, Apart, Holds, SameMemory, LeavesOthers, InUse;
      AllApart(k);
      ghost var counts := Counts();
      r, rest := framers[k].Next(input);
      assert pool.Valid() by { PoolIsValid(k); }
      Bystanders(k);
      assert Counts() == counts[k := framers[k].Leases()];
      SumUpdate(counts, k, framers[k].Leases());
    }

    /** A connection goes away, possibly in the middle of a message. */
    method Close(k: nat)
      requires Valid() && k < |framers|
      modifies this, framers[k], pool
      ensures Valid() && framers == old(framers[..k] + framers[k + 1..])
      ensures pool.activeCount == old(pool.activeCount) - old(framers[k].Leases())
      ensures forall i :: 0 <= i < old(|framers|) && i != k ==>
                unchanged(old(framers)[i]) && unchanged(old(framers)[i].scratch)
    {
      hide Framer.Valid, SharedBlocks.Valid, Apart;
      ghost var counts := Counts();
      Retire(k);
      ghost var all := framers;
      framers := framers[..k] + framers[k + 1..];
      assert forall i :: 0 <= i < |framers| ==> framers[i] == all[if i < k then i else i + 1];
      forall i, j | 0 <= i < j < |framers| ensures Apart(framers[i], framers[j]) {
        assert Apart(all[if i < k then i else i + 1], all[if j < k then j else j + 1]);
      }
      assert Counts() == counts[..k] + counts[k + 1..];
      SumRemove(counts, k);
    }

    /** Returns the lease of framer `k`, which must then be dropped. */
    method Retire(k: nat)
      requires Valid() && k < |framers|
      modifies framers[k], pool
      ensures pool.Valid() && pool.activeCount == old(pool.activeCount) - old(framers[k].Leases())
      ensures forall i :: 0 <= i < |framers| && i != k ==>
                framers[i].Valid() && unchanged(framers[i]) && unchanged(framers[i].scratch)
      ensures forall i, j :: 0 <= i < j < |framers| && i != k && j != k ==> Apart(framers[i], framers[j])
    {
      hide Consistent, OwnMemory, OwnNodes, Framer.Space;
      AllApart(k);
      framers[k].Deinit();
      Bystanders(k);
    }

    lemma PoolIsValid(k: nat)
      requires k < |framers| && framers[k].Valid() && framers[k].blocks == pool
      ensures pool.Valid()
    {}

    /** No other framer has anything in the memory that framer `k` may write. */
    ghost predicate OthersApart(k: nat)
      requires k < |framers| && framers[k].blocks == pool
      reads this, framers, pool
    {
      forall i :: 0 <= i < |framers| && i != k ==>
        && framers[i] !in framers[k].Writable()
        && framers[i].scratch !in framers[k].Writable()
        && framers[i].inlineScratch !in framers[k].Writable()
    }

    lemma AllApart(k: nat)
      requires Valid() && k < |framers|
      requires framers[k].blocks == pool
      ensures OthersApart(k)
    {
      forall i | 0 <= i < |framers| && i != k
        ensures framers[i] !in framers[k].Writable() && framers[i].scratch !in framers[k].Writable()
        ensures framers[i].inlineScratch !in framers[k].Writable()
      {
        MemoryApart(k, i);
      }
    }

    /** The work of framer `k` leaves the other framers valid, with everything in place. */
    twostate lemma Bystanders(k: nat)
      requires old(Valid()) && framers == old(framers) && k < |framers| && old(OthersApart(k))
      requires pool.Valid()
      requires framers[k].OnlyMine()
      requires framers[k].OwnMemoryOnly()
      requires forall i :: 0 <= i < |framers| && i != k ==>
                 unchanged(framers[i]) && framers[i].scratch[..] == old(framers[i].scratch[..])
      ensures forall i :: 0 <= i < |framers| && i != k ==>
                framers[i].Valid() && Apart(framers[i], framers[k]) && Apart(framers[k], framers[i])
    {
      hide Consistent, OwnMemory;
      forall i | 0 <= i < |framers| && i != k
        ensures framers[i].Valid() && Apart(framers[i], framers[k]) && Apart(framers[k], framers[i])
      {
        var f, g := framers[i], framers[k];
        assert old(Apart(f, g)) || old(Apart(g, f));
        assert old(f.Mine()) <= InUse(old(pool.nodes));
        forall n | 0 <= n < |pool.nodes| ensures pool.nodes[n].payload != f.inlineScratch {
          if n < old(|pool.nodes|) {
            assert pool.nodes[n].payload == old(pool.nodes[n].payload);
          }
        }
      }
    }

    /** When every framer has returned its lease, the pool is idle. */
    lemma ActiveIsLeased()
      requires Valid()
      ensures (forall i :: 0 <= i < |framers| ==> framers[i].lease.None?) ==> pool.activeCount == 0
      ensures pool.activeCount == Sum(Counts())
    {
      if forall i :: 0 <= i < |framers| ==> framers[i].lease.None? {
        SumZero(Counts());
      }
    }
  }
}

/** Generation-checked slot directory that routes completions to connections. */
module Slots {
  import opened Outcomes
  import opened Bytes
  import opened Completion
  import opened FreeList
  import opened Tenancies

  const ACTIVE: nat := 0xffff_ffff
  const FREE_END: nat := 0xffff_fffe
  const SLOT_LIMIT: nat := 0x100_0000

  datatype Slot = Slot(generation: u32, nextFree: nat)

  datatype Acquired = Acquired(index: u24, generation: u32)

  datatype Routed = Routed(slot: u24, operation: Operation)

  /** A token reaches a connection in this directory. */
  ghost predicate Routes(directory: Directory, token: Token) {
    Current(directory, token.slot, token.generation)
  }

  ghost function Links(storage: seq<Slot>): (links: seq<nat>)
    ensures |links| == |storage| && forall i :: 0 <= i < |links| ==> links[i] == storage[i].nextFree
  {
    seq(|storage|, i requires 0 <= i < |storage| => storage[i].nextFree)
  }

  /** `free` lists, head last, the slots reached from `freeHead`; all other slots are active. */
  ghost predicate FreeListed(storage: seq<Slot>, freeHead: nat, free: seq<nat>) {
    && |storage| <= SLOT_LIMIT
    && Distinct(free)
    && Threaded(Links(storage), freeHead, free, FREE_END)
    && (forall i: nat :: i < |storage| ==> (storage[i].nextFree == ACTIVE <==> i !in free))
  }

  ghost predicate Generations(storage: seq<Slot>, tenancies: seq<nat>) {
    && |storage| == |tenancies|
    && forall i :: 0 <= i < |storage| ==>
          tenancies[i] > 0 && storage[i].generation == GenerationAfter(tenancies[i])
  }

  ghost function ViewOf(storage: seq<Slot>, tenancies: seq<nat>): Directory
    requires |storage| == |tenancies|
  {
    seq(|storage|, i requires 0 <= i < |storage| => Tenancy(tenancies[i], storage[i].nextFree == ACTIVE))
  }

  /** The value-level invariant of the directory. */
  ghost predicate Consistent(storage: seq<Slot>, freeHead: nat, free: seq<nat>, tenancies: seq<nat>) {
    FreeListed(storage, freeHead, free) && Generations(storage, tenancies)
  }

  lemma RecycleKeeps(storage: seq<Slot>, freeHead: nat, free: seq<nat>, tenancies: seq<nat>)
    requires Consistent(storage, freeHead, free, tenancies) && free != []
    ensures freeHead < |storage| && freeHead == free[|free| - 1]
    ensures var slot := Slot(NextGeneration(storage[freeHead].generation), ACTIVE);
            var count := tenancies[freeHead] + 1;
            && Consistent(storage[freeHead := slot], storage[freeHead].nextFree, free[..|free| - 1],
                          tenancies[freeHead := count])
            && Recycles(ViewOf(storage, tenancies),
                        ViewOf(storage[freeHead := slot], tenancies[freeHead := count]), freeHead)
  {
    ThreadedInBounds(Links(storage), freeHead, free, FREE_END);
    var slot := Slot(NextGeneration(storage[freeHead].generation), ACTIVE);
    ThreadedPop(Links(storage), Links(storage[freeHead := slot]), freeHead, free, FREE_END);
    var count := tenancies[freeHead] + 1;
    assert ViewOf(storage[freeHead := slot], tenancies[freeHead := count]) ==
           ViewOf(storage, tenancies)[freeHead := Tenancy(count, true)];
  }

  lemma AppendKeeps(storage: seq<Slot>, freeHead: nat, free: seq<nat>, tenancies: seq<nat>)
    requires Consistent(storage, freeHead, free, tenancies) && |storage| < SLOT_LIMIT
    ensures var slot := Slot(NextGeneration(0), ACTIVE);
            && Consistent(storage + [slot], freeHead, free, tenancies + [1])
            && ViewOf(storage + [slot], tenancies + [1]) == ViewOf(storage, tenancies) + [Tenancy(1, true)]
  {
    var slot := Slot(NextGeneration(0), ACTIVE);
    ThreadedInBounds(Links(storage), freeHead, free, FREE_END);
    ThreadedAgrees(Links(storage), Links(storage + [slot]), freeHead, free, FREE_END);
    assert GenerationAfter(1) == NextGeneration(GenerationAfter(0));
  }

  lemma ReleaseKeeps(storage: seq<Slot>, freeHead: nat, free: seq<nat>, tenancies: seq<nat>, index: nat)
    requires Consistent(storage, freeHead, free, tenancies)
    requires index < |storage| && storage[index].nextFree == ACTIVE
    ensures var released := storage[index := storage[index].(nextFree := freeHead)];
            && Consistent(released, index, free + [index], tenancies)
            && Deactivates(ViewOf(storage, tenancies), ViewOf(released, tenancies), index)
            && |free| < |storage|
  {
    var released := storage[index := storage[index].(nextFree := freeHead)];
    ThreadedInBounds(Links(storage), freeHead, free, FREE_END);
    ThreadedPush(Links(storage), Links(released), freeHead, free, FREE_END, index);
    DistinctPush(free, index);
    assert freeHead != ACTIVE;
    assert ViewOf(released, tenancies) ==
           ViewOf(storage, tenancies)[index := ViewOf(storage, tenancies)[index].(active := false)];
    ActiveCount(storage, freeHead, free);
    assert index in ActiveSlots(storage);
  }

  /** The list is empty exactly when its head says so. */
  lemma EmptyList(storage: seq<Slot>, freeHead: nat, free: seq<nat>, tenancies: seq<nat>)
    requires Consistent(storage, freeHead, free, tenancies)
    ensures (freeHead == FREE_END <==> free == []) && |storage| <= SLOT_LIMIT
  {
    ThreadedInBounds(Links(storage), freeHead, free, FREE_END);
  }

  lemma GenerationOf(storage: seq<Slot>, freeHead: nat, free: seq<nat>, tenancies: seq<nat>, i: nat)
    requires Consistent(storage, freeHead, free, tenancies) && i < |storage|
    ensures |storage| == |tenancies| && storage[i].generation == GenerationAfter(tenancies[i])
  {}

  ghost function ActiveSlots(storage: seq<Slot>): set<nat> {
    set i: nat | i < |storage| && storage[i].nextFree == ACTIVE
  }

  lemma ActiveCount(storage: seq<Slot>, freeHead: nat, free: seq<nat>)
    requires FreeListed(storage, freeHead, free)
    ensures |ActiveSlots(storage)| + |free| == |storage|
  {
    forall i: nat ensures i in ActiveSlots(storage) <==> i < |storage| && i !in free {}
    ThreadedInBounds(Links(storage), freeHead, free, FREE_END);
    UsedCount(|storage|, free, ActiveSlots(storage));
  }

  class Slots {
    var storage: seq<Slot>
    var freeHead: nat
    var activeCount: nat
    // Inactive slots in free-list order, the head last.
    ghost var free: seq<nat>
    // How often each slot has been acquired.
    ghost var tenancies: seq<nat>
    // The largest number of slots ever active at once.
    ghost var highWater: nat

    ghost predicate Valid()
      reads this
      ensures Valid() ==> |storage| == |tenancies|
    {
      && Consistent(storage, freeHead, free, tenancies)
      && activeCount == |storage| - |free|
      && |storage| == highWater
    }

    ghost function View(): Directory
      reads this
      requires |storage| == |tenancies|
    {
      ViewOf(storage, tenancies)
    }

    constructor ()
      ensures Valid() && View() == [] && highWater == 0
    {
      storage, freeHead, activeCount := [], FREE_END, 0;
      free, tenancies, highWater := [], [], 0;
    }

    method Acquire() returns (r: Result<Acquired, Error>)
      requires Valid()
      modifies this
      ensures Valid()
      ensures r.Ok? ==>
                && Step(old(View()), View())
                && r.value.index < |View()|
                && (r.value.index < old(|View()|) ==> !old(View())[r.value.index].active)
                && View()[r.value.index].active
                && r.value.generation == GenerationAfter(View()[r.value.index].count) > 0
                && activeCount == old(activeCount) + 1
                && highWater == if activeCount > old(highWater) then activeCount else old(highWater)
      ensures r.Err? ==> View() == old(View()) && highWater == old(highWater) && activeCount == old(activeCount)
      ensures r == Err(SlotSpaceExhausted) <==> old(activeCount) == old(|storage|) == SLOT_LIMIT
      ensures r.Err? ==> r.error == SlotSpaceExhausted || (r.error == OutOfMemory && old(activeCount) == old(|storage|))
    {
      hide Consistent;
      var index: nat;
      EmptyList(storage, freeHead, free, tenancies);
      if freeHead == FREE_END {
        if |storage| > SLOT_LIMIT - 1 {
          return Err(SlotSpaceExhausted);
        }
        index := |storage|;
        var granted: bool := *;
        if !granted {
          return Err(OutOfMemory);
        }
        AppendKeeps(storage, freeHead, free, tenancies);
        storage := storage + [Slot(0, FREE_END)];
        tenancies := tenancies + [1];
        highWater := highWater + 1;
        assert storage[index := Slot(NextGeneration(0), ACTIVE)] == old(storage) + [Slot(NextGeneration(0), ACTIVE)];
      } else {
        index := freeHead;
        RecycleKeeps(storage, freeHead, free, tenancies);
        freeHead := storage[index].nextFree;
        free := free[..|free| - 1];
        tenancies := tenancies[index := tenancies[index] + 1];
      }
      var generation := NextGeneration(storage[index].generation);
      storage := storage[index := Slot(generation, ACTIVE)];
      activeCount := activeCount + 1;
      GenerationOf(storage, freeHead, free, tenancies, index);
      return Ok(Acquired(index, generation));
    }

    method Deactivate(index: u24, generation: u32) returns (r: Result<(), Error>)
      requires Valid()
      modifies this
      ensures Valid() && highWater == old(highWater)
      ensures r.Ok? <==>
              && index < old(|View()|)
              && old(View())[index].active
              && GenerationAfter(old(View())[index].count) == generation
      ensures r.Ok? ==> Deactivates(old(View()), View(), index) && activeCount == old(activeCount) - 1
      ensures r.Err? ==> View() == old(View()) && activeCount == old(activeCount)
      ensures r.Err? ==>
                r.error == if index >= |View()| then SlotOutOfRange
                           else if !View()[index].active then SlotInactive else WrongGeneration
    {
      if index >= |storage| {
        return Err(SlotOutOfRange);
      }
      if storage[index].nextFree != ACTIVE {
        return Err(SlotInactive);
      }
      if storage[index].generation != generation {
        return Err(WrongGeneration);
      }
      ReleaseKeeps(storage, freeHead, free, tenancies, index);
      storage := storage[index := storage[index].(nextFree := freeHead)];
      freeHead := index;
      activeCount := activeCount - 1;
      free := free + [index];
      return Ok(());
    }

    method MakeToken(index: u24, generation: u32, operation: Operation) returns (r: Result<u64, Error>)
      requires Valid()
      ensures r.Ok? <==> Routes(View(), Token(operation, index, generation))
      ensures r.Ok? ==> Decode(r.value) == Some(Token(operation, index, generation))
      ensures r.Err? ==>
                r.error == if index >= |View()| then SlotOutOfRange
                           else if !View()[index].active then SlotInactive else WrongGeneration
    {
      if index >= |storage| {
        return Err(SlotOutOfRange);
      }
      if storage[index].nextFree != ACTIVE {
        return Err(SlotInactive);
      }
      if storage[index].generation != generation {
        return Err(WrongGeneration);
      }
      DecodeEncode(Token(operation, index, generation));
      return Ok(Encode(Token(operation, index, generation)));
    }

    /** Some exactly for words whose token is current in the directory. */
    method Route(userData: u64) returns (r: Option<Routed>)
      requires Valid()
      ensures r.Some? <==> Decode(userData).Some? && Routes(View(), Decode(userData).value)
      ensures r.Some? ==> r.value == Routed(Decode(userData).value.slot, Decode(userData).value.operation)
    {
      match Decode(userData) {
        case None => r := None;
        case Some(token) => r := RouteToken(token);
      }
    }

    method RouteToken(token: Token) returns (r: Option<Routed>)
      requires Valid()
      ensures r == if Routes(View(), token) then Some(Routed(token.slot, token.operation)) else None
    {
      if token.slot >= |storage| {
        return None;
      }
      if storage[token.slot].nextFree != ACTIVE || storage[token.slot].generation != token.generation {
        return None;
      }
      return Some(Routed(token.slot, token.operation));
    }

    /** `activeCount` counts the active slots, and the free list holds all the others. */
    lemma ActiveCountIsExact()
      requires Valid()
      ensures activeCount == |ActiveSlots(storage)|
    {
      ActiveCount(storage, freeHead, free);
    }
  }

  /** Once its slot has been deactivated, a token is dropped until the slot has been
      acquired again 2^32-1 times, and at that acquisition it would route once more. */
  lemma StaleTokensNeverRoute(history: seq<Directory>, token: Token, issued: nat, released: nat, now: nat)
    requires Run(history) && issued <= released <= now < |history|
    requires Routes(history[issued], token) && history[issued][token.slot].count > 0
    requires token.slot < |history[released]| && !history[released][token.slot].active
    ensures token.slot < |history[now]|
    ensures var gap := history[now][token.slot].count - history[issued][token.slot].count;
            && (gap < PERIOD ==> !Routes(history[now], token))
            && (gap == PERIOD && history[now][token.slot].active ==> Routes(history[now], token))
  {
    CountOnlyGrows(history, token.slot, issued, now);
    var gap := history[now][token.slot].count - history[issued][token.slot].count;
    if gap < PERIOD {
      StaleUntilWrap(history, token.slot, token.generation, issued, released, now);
    } else if gap == PERIOD && history[now][token.slot].active {
      WrapsAround(history, token.slot, token.generation, issued, now);
    }
  }

  // ---- histories

  datatype Call = Acquire | Deactivate(index: u24, generation: u32)

  lemma RunThen(history: seq<Directory>, next: Directory)
    requires Run(history) && history != [] && Step(history[|history| - 1], next)
    ensures Run(history + [next])
  {
    hide Step;
  }

  /** One call is one step of the directory, whatever it returns. */
  method Perform(slots: Slots, call: Call)
    requires slots.Valid()
    modifies slots
    ensures slots.Valid() && Step(old(slots.View()), slots.View())
  {
    hide Consistent, ViewOf;
    match call {
      case Acquire => var _ := slots.Acquire();
      case Deactivate(index, generation) => var _ := slots.Deactivate(index, generation);
    }
  }

  /** The directories between any calls, refused ones included, are a history in the sense of the wrap bound. */
  method Replay(slots: Slots, calls: seq<Call>) returns (ghost history: seq<Directory>)
    requires slots.Valid()
    modifies slots
    ensures slots.Valid() && |history| == |calls| + 1 && Run(history)
    ensures history[0] == old(slots.View()) && history[|calls|] == slots.View()
  {
    hide Consistent, ViewOf, Step;
    history := [slots.View()];
    for i := 0 to |calls|
      invariant slots.Valid() && |history| == i + 1 && Run(history)
      invariant history[0] == old(slots.View()) && history[i] == slots.View()
    {
      Perform(slots, calls[i]);
      RunThen(history, slots.View());
      history := history + [slots.View()];
    }
  }
}

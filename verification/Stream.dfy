/** The framer as an object: what each call answers, in terms of the verdict on pending bytes and input, and what
    it does to the block pool it shares. */
module Stream {
  import opened Outcomes
  import opened Bytes
  import opened Memory
  import opened Pool
  import opened Blocks
  import opened Wire
  import opened Fragmentation

  const INLINE_SCRATCH: nat := 64

  function Least(a: nat, b: nat): nat {
    if a < b then a else b
  }

  /** What a pool reports when it has to grow and may not. */
  predicate PoolFailure(error: Error) {
    error == OutOfMemory || error == CapacityOverflow
  }

  /** A call's results are those the verdict asks for. No byte is lost: what was pending, followed by
      the input, is the delivered message, followed by what is pending now, followed by the unread
      input. The pool's failures are answers only to a framer that is `starved`. */
  ghost predicate Answers(
    capacity: nat, pending: seq<byte>, input: seq<byte>, starved: bool,
    r: Result<Option<Message>, Error>, pendingAfter: seq<byte>, rest: seq<byte>)
  {
    var bytes := pending + input;
    var verdict := Judge(capacity, pending, input);
    match r
    case Ok(Some(message)) =>
      verdict.Deliver? && DecodeMessage(bytes) == r && pendingAfter == [] && rest == bytes[verdict.size..]
    case Ok(None) => verdict.Wait? && pendingAfter == bytes && rest == []
    case Err(e) => pendingAfter + rest == bytes && (verdict == Fail(e) || (starved && PoolFailure(e)))
  }

  lemma JudgeShort(capacity: nat, pending: seq<byte>, input: seq<byte>)
    requires pending != []
    ensures var bytes := pending + input;
            && (Least(HEADER_LEN, |bytes|) > capacity ==> Judge(capacity, pending, input) == Fail(MessageTooLarge))
            && (|bytes| < HEADER_LEN && |bytes| <= capacity ==> Judge(capacity, pending, input) == Wait)
  {}

  lemma JudgeByHeader(capacity: nat, pending: seq<byte>, input: seq<byte>)
    requires pending != [] && |pending + input| >= HEADER_LEN && HEADER_LEN <= capacity
    ensures var bytes := pending + input;
            Judge(capacity, pending, input) ==
            match DecodeHeader(bytes)
            case Err(e) => Fail(e)
            case Ok(header) =>
              if header.size > capacity then Fail(MessageTooLarge)
              else if |bytes| < header.size then Wait
              else Deliver(header.size)
  {}

  /** Storing an incomplete input first and then looking at it is the same as looking at it. */
  lemma JudgeStored(capacity: nat, input: seq<byte>)
    requires input != [] && Peek(input).Partial?
    ensures Judge(capacity, input, []) == Judge(capacity, [], input)
    ensures |input| > capacity ==> Judge(capacity, [], input) == Fail(MessageTooLarge)
  {
    hide DecodeHeader;
    assert input + [] == input;
    var none: seq<byte> := [];
    assert none + input == input;
  }

  lemma AnswersStored(
    capacity: nat, input: seq<byte>, starved: bool,
    r: Result<Option<Message>, Error>, pendingAfter: seq<byte>, rest: seq<byte>)
    requires input != [] && Peek(input).Partial?
    requires Answers(capacity, input, [], starved, r, pendingAfter, rest)
    ensures Answers(capacity, [], input, starved, r, pendingAfter, rest)
    ensures !(r.Ok? && r.value.Some?)
  {
    JudgeStored(capacity, input);
    hide Judge, Peek;
    var none: seq<byte> := [];
    assert none + input == input == input + none;
  }

  /** An answer to a framer that is not starved is an answer to any. */
  lemma AnswersEither(
    capacity: nat, pending: seq<byte>, input: seq<byte>, fewer: bool, more: bool,
    r: Result<Option<Message>, Error>, pendingAfter: seq<byte>, rest: seq<byte>)
    requires Answers(capacity, pending, input, fewer, r, pendingAfter, rest) && (fewer ==> more)
    ensures Answers(capacity, pending, input, more, r, pendingAfter, rest)
  {
    hide Judge, PoolFailure;
  }

  /** With nothing pending, the answer is read off the input. */
  lemma AnswersDirect(capacity: nat, input: seq<byte>, starved: bool)
    ensures Peek(input).Whole? ==>
              Answers(capacity, [], input, starved, DecodeMessage(input), [], input[Peek(input).size..])
    ensures Peek(input).Bad? ==> Answers(capacity, [], input, starved, DecodeMessage(input), [], input)
    ensures input == [] ==> Answers(capacity, [], input, starved, Ok(None), [], input)
    ensures |input| > capacity && Peek(input).Partial? ==>
              Answers(capacity, [], input, starved, Err(MessageTooLarge), [], input)
    ensures forall e :: starved && PoolFailure(e) ==> Answers(capacity, [], input, starved, Err(e), [], input)
  {
    var none: seq<byte> := [];
    assert none + input == input;
    if input != [] && Peek(input).Partial? {
      JudgeStored(capacity, input);
    }
    hide DecodeHeader;
  }

  /** One framer's effect on the shared pool: it changes only the nodes it held and nodes that
      nobody held, and everything else that was held stays held. */
  ghost predicate OwnNodes(
    before: seq<Node<Block>>, after: seq<Node<Block>>, mineBefore: set<nat>, mineAfter: set<nat>)
  {
    && SameMemory(before, after)
    && LeavesOthers(before, after, mineBefore)
    && InUse(after) == InUse(before) - mineBefore + mineAfter
    && mineAfter !! InUse(before) - mineBefore
  }

  lemma OwnNodesThen(
    n0: seq<Node<Block>>, n1: seq<Node<Block>>, n2: seq<Node<Block>>, m0: set<nat>, m1: set<nat>, m2: set<nat>)
    requires OwnNodes(n0, n1, m0, m1) && OwnNodes(n1, n2, m1, m2)
    ensures OwnNodes(n0, n2, m0, m2)
    ensures SameMemory(n0, n1) && SameMemory(n1, n2)
  {
    forall i: nat | i < |n0| && n0[i].inUse && i !in m0 ensures n2[i] == n0[i] {
      assert i in InUse(n0) - m0;
      assert n1[i] == n0[i];
    }
  }

  lemma OwnNodesAcquire(before: seq<Node<Block>>, after: seq<Node<Block>>, index: nat)
    requires SameMemory(before, after) && LeavesOthers(before, after, {})
    requires index !in InUse(before) && InUse(after) == InUse(before) + {index}
    ensures OwnNodes(before, after, {}, {index})
  {}

  lemma OwnNodesFailed(before: seq<Node<Block>>, after: seq<Node<Block>>)
    requires SameMemory(before, after) && LeavesOthers(before, after, {}) && InUse(after) == InUse(before)
    ensures OwnNodes(before, after, {}, {})
  {}

  lemma OwnNodesRelease(before: seq<Node<Block>>, after: seq<Node<Block>>, index: nat)
    requires SameMemory(before, after) && LeavesOthers(before, after, {index})
    requires InUse(after) == InUse(before) - {index}
    ensures OwnNodes(before, after, {index}, {})
  {}

  lemma OwnNodesNone(nodes: seq<Node<Block>>, mine: set<nat>)
    requires mine <= InUse(nodes)
    ensures OwnNodes(nodes, nodes, mine, mine)
  {}

  /** `scratch[..buffered]` is the beginning of a message whose rest has yet to arrive. Scratch is the caller's
      when `blocks` is null, and otherwise inline or, past 64 bytes, the block of `lease`. */
  class Framer {
    var scratch: array<byte>
    var buffered: nat
    const blocks: SharedBlocks?
    var lease: Option<BlockLease>
    var releaseBeforeNext: bool
    const inlineScratch: array<byte>

    /** The nodes of the shared pool that this framer holds. */
    ghost function Mine(): set<nat>
      reads this
    {
      if lease.Some? then {lease.value.index} else {}
    }

    ghost function Leases(): nat
      reads this
    {
      if lease.Some? then 1 else 0
    }

    /** The largest message that scratch space can hold. */
    ghost function Capacity(): nat
      reads this
    {
      if blocks == null then scratch.Length
      else if blocks.blockSize > INLINE_SCRATCH then blocks.blockSize else INLINE_SCRATCH
    }

    /** The memory a call may write. */
    ghost function Writable(): set<object>
      reads this, blocks
    {
      {this, scratch, inlineScratch} + if blocks == null then {} else {blocks as object} + blocks.Idle()
    }

    /** Scratch is the caller's, empty, inline, or exactly the leased block, which is larger. */
    ghost predicate Space()
      reads this`scratch, this`lease, blocks
      ensures Space() && lease.Some? ==> blocks != null
    {
      && inlineScratch.Length == INLINE_SCRATCH
      && if blocks == null then lease.None?
         else
           && blocks.Valid()
           && (forall i :: 0 <= i < |blocks.nodes| ==> blocks.nodes[i].payload != inlineScratch)
           && match lease
              case None => scratch == inlineScratch || scratch.Length == 0
              case Some(l) => Holds(blocks.nodes, l) && scratch == l.payload
                              && scratch.Length == blocks.blockSize > INLINE_SCRATCH
    }

    ghost predicate Sound()
      reads this, blocks
    {
      Space() && buffered <= scratch.Length
    }

    /** Between calls a lease is kept only for buffered bytes or for a message just returned. */
    ghost predicate Valid()
      reads this, blocks, scratch
    {
      && Sound()
      && (releaseBeforeNext ==> lease.Some? && buffered == 0)
      && (lease.Some? ==> releaseBeforeNext || buffered > 0)
      && (buffered > HEADER_LEN ==> Peek(scratch[..buffered]).Partial?)
    }

    /** Bytes of an incomplete message seen so far. */
    ghost function Pending(): seq<byte>
      reads this, scratch
      requires buffered <= scratch.Length
    {
      scratch[..buffered]
    }

    /** This framer's effect on the shared pool; no other framer can tell. */
    twostate predicate OnlyMine()
      reads this, blocks
    {
      blocks != null ==>
        && OwnNodes(old(blocks.nodes), blocks.nodes, old(Mine()), Mine())
        && blocks.activeCount - Leases() == old(blocks.activeCount) - old(Leases())
    }

    /** There is no block for this framer unless the pool grows: none is free, and it has none to give back. */
    ghost predicate Starved()
      reads this`lease, blocks
    {
      blocks != null && lease.None? && blocks.free == []
    }

    /** A framer's own work on the pool never starves it. */
    twostate lemma StaysFed()
      requires old(Sound()) && Sound() && OnlyMine()
      ensures Starved() ==> old(Starved())
    {
      hide Consistent, OwnMemory, InUse, LeavesOthers;
    }

    /** Memory comes only from where the caller could see it, or from the allocator. */
    twostate predicate OwnMemoryOnly()
      reads this, blocks
    {
      && (scratch in old(Writable()) || fresh(scratch))
      && (blocks != null ==>
            && (forall o :: o in blocks.Idle() ==> o in old(Writable()) || fresh(o))
            && (forall k :: old(|blocks.nodes|) <= k < |blocks.nodes| ==> fresh(blocks.nodes[k].payload)))
    }

    twostate lemma WritesNoMore()
      requires OwnMemoryOnly()
      ensures forall o :: o in Writable() ==> o in old(Writable()) || fresh(o)
    {}

    constructor Init(scratch: array<byte>)
      ensures Valid() && Pending() == [] && blocks == null && this.scratch == scratch
      ensures fresh(inlineScratch)
    {
      this.scratch := scratch;
      buffered, blocks, lease, releaseBeforeNext := 0, null, None, false;
      inlineScratch := new byte[INLINE_SCRATCH];
    }

    /** On a shared pool, holding no block. */
    constructor InitShared(blocks: SharedBlocks)
      requires blocks.Valid()
      ensures Valid() && Pending() == [] && this.blocks == blocks && Mine() == {}
      ensures fresh(inlineScratch) && fresh(scratch)
    {
      scratch := new byte[0];
      buffered, lease, releaseBeforeNext := 0, None, false;
      this.blocks := blocks;
      inlineScratch := new byte[INLINE_SCRATCH];
    }

    method ReleaseLease()
      requires Sound()
      modifies this`lease, this`scratch, blocks
      ensures lease.None? && Capacity() == old(Capacity()) && OnlyMine() && OwnMemoryOnly()
      ensures blocks != null ==> blocks.Valid()
      ensures old(lease.None?) || buffered == 0 ==> Sound()
      ensures old(lease.None?) ==> scratch == old(scratch)
    {
      hide Consistent, OwnMemory;
      if lease.None? {
        return;
      }
      var released := blocks.Release(lease.value);
      assert released.Ok?;
      lease, scratch := None, inlineScratch;
    }

    /** Makes scratch space for `required` bytes, keeping what is buffered. */
    method EnsureCapacity(required: nat) returns (r: Result<(), Error>)
      requires Sound()
      modifies this`scratch, this`lease, Writable() - {this}
      ensures Sound() && OnlyMine() && OwnMemoryOnly() && Capacity() == old(Capacity())
      ensures Pending() == old(Pending())
      ensures r.Ok? ==> scratch.Length >= required && required <= Capacity()
      ensures r.Err? ==> scratch == old(scratch) && lease == old(lease)
      ensures r.Err? ==> (r.error == MessageTooLarge && required > Capacity())
                         || (old(Starved()) && PoolFailure(r.error))
      ensures lease.Some? && old(lease.None?) ==> required > INLINE_SCRATCH
    {
      hide Consistent, OwnMemory, InUse;
      NoChange();
      if scratch.Length >= required {
        return Ok(());
      }
      if blocks == null {
        return Err(MessageTooLarge);
      }
      if required <= inlineScratch.Length && lease.None? {
        scratch := inlineScratch;
        return Ok(());
      }
      if lease.Some? {
        return Err(MessageTooLarge);
      }
      r := LeaseBlock(required);
    }

    lemma NoChange()
      requires Sound()
      ensures blocks != null ==> OwnNodes(blocks.nodes, blocks.nodes, Mine(), Mine())
    {
      if blocks != null {
        OwnNodesNone(blocks.nodes, Mine());
      }
    }

    /** A block of at least `required` bytes; one that is too small goes straight back. */
    method TakeBlock(required: nat) returns (r: Result<BlockLease, Error>)
      requires Sound() && blocks != null && lease.None?
      modifies blocks
      ensures Sound() && OwnMemoryOnly()
      ensures SameMemory(old(blocks.nodes), blocks.nodes)
      ensures r.Ok? ==> Holds(blocks.nodes, r.value) && r.value.payload.Length == blocks.blockSize >= required
                        && (r.value.payload in old(blocks.Idle()) || fresh(r.value.payload))
      ensures OwnNodes(old(blocks.nodes), blocks.nodes, {}, if r.Ok? then {r.value.index} else {})
      ensures blocks.activeCount == old(blocks.activeCount) + if r.Ok? then 1 else 0
      ensures r.Err? ==> (r.error == MessageTooLarge && required > blocks.blockSize)
                         || (old(Starved()) && PoolFailure(r.error))
    {
      hide Consistent, OwnMemory, OwnNodes, InUse, LeavesOthers;
      r := blocks.Acquire();
      if r.Err? {
        OwnNodesFailed(old(blocks.nodes), blocks.nodes);
        return;
      }
      OwnNodesAcquire(old(blocks.nodes), blocks.nodes, r.value.index);
      if r.value.payload.Length < required {
        ghost var held := blocks.nodes;
        var released := blocks.Release(r.value);
        assert released.Ok?;
        OwnNodesRelease(held, blocks.nodes, r.value.index);
        OwnNodesThen(old(blocks.nodes), held, blocks.nodes, {}, {r.value.index}, {});
        return Err(MessageTooLarge);
      }
    }

    /** The leasing part of `ensureCapacity`. */
    method LeaseBlock(required: nat) returns (r: Result<(), Error>)
      requires Sound() && blocks != null && lease.None? && required > INLINE_SCRATCH
      requires scratch.Length < required
      modifies this`scratch, this`lease, Writable() - {this}
      ensures Sound() && OnlyMine() && OwnMemoryOnly()
      ensures Pending() == old(Pending())
      ensures r.Ok? ==> scratch.Length >= required && lease.Some?
      ensures r.Err? ==> scratch == old(scratch) && lease == old(lease)
      ensures r.Err? ==> (r.error == MessageTooLarge && required > blocks.blockSize)
                         || (old(Starved()) && PoolFailure(r.error))
    {
      hide Consistent, OwnMemory, OwnNodes, InUse, LeavesOthers, PoolFailure, Peek, SameMemory;
      var leased := TakeBlock(required);
      if leased.Err? {
        return Err(leased.error);
      }
      Copy(leased.value.payload, 0, scratch[..buffered]);
      lease, scratch := Some(leased.value), leased.value.payload;
      return Ok(());
    }

    /** `@memcpy` of the next `count` input bytes behind the buffered ones. */
    method Absorb(input: seq<byte>, count: nat) returns (rest: seq<byte>)
      requires buffered + count <= scratch.Length && count <= |input|
      modifies this`buffered, scratch
      ensures buffered == old(buffered) + count <= scratch.Length
      ensures Pending() == old(Pending()) + input[..count] && rest == input[count..]
    {
      Copy(scratch, buffered, input[..count]);
      buffered := buffered + count;
      rest := input[count..];
    }

    lemma CapacityCoversScratch()
      requires Sound()
      ensures scratch.Length <= Capacity()
      ensures buffered > 0 && blocks != null ==> scratch.Length >= INLINE_SCRATCH
      ensures blocks == null ==> scratch.Length == Capacity()
    {}

    /** A message returned from scratch space stays there: its block is still held and its bytes
        are still in place. */
    ghost predicate Borrowed(message: Message)
      reads this, scratch
    {
      && message.header.size <= scratch.Length
      && DecodeMessage(scratch[..message.header.size]) == Ok(Some(message))
      && releaseBeforeNext == lease.Some?
    }

    /** The part of `next` after the header is known. */
    method AssembleBody(header: Header, input: seq<byte>)
      returns (r: Result<Option<Message>, Error>, rest: seq<byte>)
      requires Sound() && !releaseBeforeNext && HEADER_LEN <= buffered <= header.size
      requires DecodeHeader(Pending()) == Ok(header)
      modifies this, Writable()
      ensures Sound() && OnlyMine() && OwnMemoryOnly() && Capacity() == old(Capacity())
      ensures releaseBeforeNext ==> lease.Some? && buffered == 0 && r.Ok? && r.value.Some?
      ensures lease.Some? ==> releaseBeforeNext || buffered > 0
      ensures var bytes := old(Pending()) + input;
              match r
              case Ok(Some(message)) =>
                && header.size <= Capacity() && |bytes| >= header.size
                && message == Message(header, bytes[HEADER_LEN..header.size])
                && Pending() == [] && rest == bytes[header.size..] && Borrowed(message)
              case Ok(None) => |bytes| < header.size <= Capacity() && Pending() == bytes && rest == []
              case Err(e) => Pending() == old(Pending()) && rest == input
                             && ((e == MessageTooLarge && header.size > Capacity())
                                 || (old(Starved()) && PoolFailure(e)))
    {
      hide Space, OwnNodes, Consistent, OwnMemory, DecodeHeader, InUse;
      ghost var bytes := Pending() + input;
      rest := input;
      var room := EnsureCapacity(header.size);
      if room.Err? {
        return Err(room.error), rest;
      }
      var count := Least(header.size - buffered, |rest|);
      rest := Absorb(rest, count);
      assert Pending() + rest == bytes;
      if buffered < header.size {
        return Ok(None), rest;
      }
      assert scratch[..buffered] == bytes[..header.size];
      HeaderIsLocal(old(Pending()), bytes[..header.size][old(buffered)..]);
      assert old(Pending()) + bytes[..header.size][old(buffered)..] == bytes[..header.size];
      var decoded := DecodeMessage(scratch[..buffered]);
      buffered := 0;
      releaseBeforeNext := lease.Some?;
      assert bytes[..header.size][HEADER_LEN..] == bytes[HEADER_LEN..header.size];
      return decoded, rest;
    }

    /** Reads until scratch space holds a header; false when the input does not last. */
    method FillHeader(input: seq<byte>) returns (r: Result<bool, Error>, rest: seq<byte>)
      requires Sound() && buffered > 0
      modifies this`buffered, scratch
      ensures Sound() && buffered > 0 && Pending() + rest == old(Pending()) + input
      ensures old(buffered) >= HEADER_LEN ==> Pending() == old(Pending()) && rest == input
      ensures old(buffered) < HEADER_LEN ==> buffered <= HEADER_LEN
      ensures r == Ok(true) ==> buffered >= HEADER_LEN
      ensures r == Ok(false) ==> buffered < HEADER_LEN && rest == []
      ensures r.Err? ==> r.error == MessageTooLarge && Pending() == old(Pending()) && rest == input
                         && Least(HEADER_LEN, |Pending() + rest|) > scratch.Length
    {
      hide Space, Peek;
      rest := input;
      if buffered < HEADER_LEN {
        var count := Least(HEADER_LEN - buffered, |rest|);
        if buffered + count > scratch.Length {
          return Err(MessageTooLarge), rest;
        }
        rest := Absorb(rest, count);
        assert Pending() + rest == old(Pending()) + input;
        if buffered < HEADER_LEN {
          return Ok(false), rest;
        }
      }
      return Ok(true), rest;
    }

    /** The part of `next` that reads into scratch space. */
    method Assemble(input: seq<byte>) returns (r: Result<Option<Message>, Error>, rest: seq<byte>)
      requires Valid() && !releaseBeforeNext && buffered > 0
      modifies this, Writable()
      ensures Valid() && OnlyMine() && OwnMemoryOnly() && Capacity() == old(Capacity())
      ensures Answers(old(Capacity()), old(Pending()), input, old(Starved()), r, Pending(), rest)
      ensures r.Ok? && r.value.Some? ==> Borrowed(r.value.value)
      ensures releaseBeforeNext ==> r.Ok? && r.value.Some?
    {
      hide Space, OwnNodes, Consistent, OwnMemory, DecodeHeader, InUse, Fits, Judge, PoolFailure, LeavesOthers,
           Starved, Borrowed, Holds, SameMemory;
      ghost var pending, bytes, capacity := Pending(), Pending() + input, Capacity();
      NoChange();
      CapacityCoversScratch();
      JudgeShort(capacity, pending, input);
      var filled;
      filled, rest := FillHeader(input);
      match filled {
        case Err(e) =>
          return Err(e), rest;
        case Ok(false) =>
          assert Pending() + rest == Pending();
          return Ok(None), rest;
        case Ok(true) =>
      }
      JudgeByHeader(capacity, pending, input);
      HeaderIsLocal(Pending(), rest);
      match DecodeHeader(scratch[..buffered]) {
        case Err(e) =>
          return Err(e), rest;
        case Ok(header) =>
          r, rest := AssembleBody(header, rest);
      }
    }

    /** The next complete message of the stream, or null once the input is used up. */
    method Next(input: seq<byte>) returns (r: Result<Option<Message>, Error>, rest: seq<byte>)
      requires Valid()
      modifies this, Writable()
      ensures Valid() && OnlyMine() && OwnMemoryOnly() && Capacity() == old(Capacity())
      ensures Answers(old(Capacity()), old(Pending()), input, old(Starved()), r, Pending(), rest)
      ensures r.Ok? && r.value.Some? && old(Pending()) != [] ==> Borrowed(r.value.value)
      ensures r.Ok? && r.value.Some? && old(Pending()) == [] ==> lease.None?
      ensures Starved() ==> old(Starved())
      ensures releaseBeforeNext ==> r.Ok? && r.value.Some?
    {
      hide Space, OwnNodes, Consistent, OwnMemory, DecodeHeader, InUse, Answers, Peek, LeavesOthers, Starved;
      NoChange();
      if buffered > 0 {
        r, rest := Assemble(input);
        StaysFed();
        return;
      }
      assert Pending() == [];
      if releaseBeforeNext {
        ReleaseLease();
        releaseBeforeNext := false;
      }
      StaysFed();
      label Released:
      r, rest := Begin(input);
      AnswersEither(Capacity(), [], input, old@Released(Starved()), old(Starved()), r, Pending(), rest);
      if blocks != null {
        OwnNodesThen(old(blocks.nodes), old@Released(blocks.nodes), blocks.nodes,
                     old(Mine()), old@Released(Mine()), Mine());
      }
      StaysFed();
    }

    /** The part of `next` that looks for a message in the receive buffer itself. */
    method Begin(input: seq<byte>) returns (r: Result<Option<Message>, Error>, rest: seq<byte>)
      requires Valid() && buffered == 0 && lease.None? && !releaseBeforeNext
      modifies this, Writable()
      ensures Valid() && OnlyMine() && OwnMemoryOnly() && Capacity() == old(Capacity())
      ensures Answers(old(Capacity()), [], input, old(Starved()), r, Pending(), rest)
      ensures r.Ok? && r.value.Some? ==> lease.None?
      ensures !releaseBeforeNext
    {
      hide Space, OwnNodes, Consistent, OwnMemory, DecodeHeader, InUse, Answers, LeavesOthers, Starved;
      NoChange();
      AnswersDirect(Capacity(), input, Starved());
      assert Pending() == [];
      rest := input;
      var decoded := DecodeMessage(rest);
      match decoded {
        case Err(_) =>
          return decoded, rest;
        case Ok(Some(message)) =>
          rest := rest[message.header.size..];
          return decoded, rest;
        case Ok(None) =>
      }
      if |rest| == 0 {
        return Ok(None), rest;
      }
      r, rest := Store(rest);
    }

    /** The part of `next` that copies the start of a message out of the receive buffer. */
    method Store(input: seq<byte>) returns (r: Result<Option<Message>, Error>, rest: seq<byte>)
      requires Valid() && buffered == 0 && lease.None? && !releaseBeforeNext
      requires input != [] && Peek(input).Partial?
      modifies this, Writable()
      ensures Valid() && OnlyMine() && OwnMemoryOnly() && Capacity() == old(Capacity())
      ensures Answers(old(Capacity()), [], input, old(Starved()), r, Pending(), rest)
      ensures !(r.Ok? && r.value.Some?) && !releaseBeforeNext
    {
      hide Space, OwnNodes, Consistent, OwnMemory, DecodeHeader, InUse, Answers, LeavesOthers, Starved,
           Borrowed, Holds, SameMemory, Fits, Judge, PoolFailure, Wire.DecodeMessage;
      ghost var capacity, starved := Capacity(), Starved();
      AnswersDirect(capacity, input, starved);
      rest := input;
      var room := EnsureCapacity(|rest|);
      if room.Err? {
        assert Pending() == [];
        return Err(room.error), rest;
      }
      StaysFed();
      // The source checks `input.len > scratch.len` here as well; it never is.
      rest := Absorb(rest, |rest|);
      assert Pending() == input && rest == [];
      label Stored:
      r, rest := Assemble(rest);
      AnswersEither(capacity, input, [], old@Stored(Starved()), starved, r, Pending(), rest);
      AnswersStored(capacity, input, starved, r, Pending(), rest);
      if blocks != null {
        OwnNodesThen(old(blocks.nodes), old@Stored(blocks.nodes), blocks.nodes,
                     old(Mine()), old@Stored(Mine()), Mine());
      }
    }

    /** Returns the lease, if any; the framer may not be used afterwards. */
    method Deinit()
      requires Valid()
      modifies this`lease, this`scratch, blocks
      ensures lease.None? && OnlyMine() && OwnMemoryOnly()
      ensures blocks != null ==> blocks.Valid()
    {
      hide Space, OwnNodes, Consistent, OwnMemory, InUse;
      ReleaseLease();
    }
  }
}

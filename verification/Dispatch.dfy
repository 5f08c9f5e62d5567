/** The batch loops: every complete message in a receive buffer, handed to its handler with its own
    descriptors. */
module Dispatch {
  import opened Outcomes
  import opened Bytes
  import opened Wire
  import opened Codec
  import opened Fragmentation
  import opened Stream
  import opened Lanes
  import Pool
  import Blocks
  import Ancillary
  import Connection
  import GeneratedCodec

  /** Descriptors of messages whose target was destroyed: dispatch closes those itself. */
  function Dropped(log: seq<Delivery>): seq<Fd> {
    if log == [] then [] else (if log[0].values.None? then log[0].fds else []) + Dropped(log[1..])
  }

  lemma {:induction false} DroppedAppend(log: seq<Delivery>, more: seq<Delivery>)
    ensures Dropped(log + more) == Dropped(log) + Dropped(more)
    decreases |log|
  {
    if log == [] {
      assert log + more == more;
    } else {
      assert (log + more)[1..] == log[1..] + more;
      DroppedAppend(log[1..], more);
    }
  }

  /** The namespace and the handlers of one connection. */
  class Context {
    const side: Side
    const turns: nat -> Turn
    var objects: Namespace
    var count: nat
    ghost var log: seq<Delivery>

    constructor (side: Side, turns: nat -> Turn, objects: Namespace)
      ensures this.side == side && this.turns == turns && this.objects == objects && count == 0 && log == []
    {
      this.side, this.turns, this.objects, count, log := side, turns, objects, 0, [];
    }

    ghost function View(queue: Ancillary.FdQueue): Lane
      reads this, queue
    {
      Lane(objects, queue.Contents(), log, count)
    }

    /** One message: its target is looked up, and its handler decodes it or its descriptors are closed. */
    method Receive(message: Message, queue: Ancillary.FdQueue, kernel: Ancillary.Kernel) returns (end: End)
      requires queue.Valid()
      modifies this, queue, queue.pool, kernel
      ensures queue.Valid() && queue.OnlyMine()
      ensures (View(queue), end) == Process(side, old(View(queue)), message, turns)
      ensures old(log) <= log && kernel.closed == old(kernel.closed) + Dropped(log[|old(log)|..])
    {
      hide Pool.Consistent, Ancillary.OwnChange, Ancillary.Chained, Ancillary.Fds, GeneratedCodec.Decoded, FdCount,
           Entries;
      Ancillary.OwnChangeNone(queue.pool.nodes, queue.pool.nodes, queue.chain);
      var id, opcode := message.header.objectId, message.header.opcode;
      var target: Target;
      match Lookup(side, objects, id, opcode) {
        case Err(e) => return Failed(id, e);
        case Ok(found) => target := found;
      }
      ghost var fds := queue.Contents();
      if target.entity.destroyed {
        var discarded := queue.Discard(FdCount(target.schema), kernel);
        if discarded.Err? {
          return Failed(id, discarded.error);
        }
        log := log + [Delivery(id, opcode, target.schema, fds[..FdCount(target.schema)], None)];
        return Running;
      }
      var decoded := GeneratedCodec.DecodeMessage(
        target.schema, message.payload, Some(Entries(objects)), side == Client, queue);
      if decoded.Err? {
        return Failed(id, decoded.error);
      }
      log := log + [Delivery(id, opcode, target.schema, fds[..FdCount(target.schema)], Some(decoded.value))];
      var turn := turns(count);
      objects := turn.objects;
      if turn.fails {
        return Failed(id, HandlerFailure);
      }
      count := count + 1;
      if side == Client && IsServerError(target, opcode) {
        return Failed(id, ServerProtocolError);
      }
      return if turn.stop then End.Stopped else Running;
    }
  }

  /** `frames` have been read off the front of the stream; the rest of it is `pending + rest`. */
  ghost predicate ReadSoFar(
    capacity: nat, pending0: seq<byte>, input: seq<byte>, frames: seq<seq<byte>>, pending: seq<byte>, rest: seq<byte>)
  {
    var others := Drain(capacity, pending, rest);
    && Drain(capacity, pending0, input) == Parsed(frames + others.frames, others.tail)
    && pending0 + input == Flatten(frames) + (pending + rest)
  }

  lemma NothingRead(capacity: nat, pending: seq<byte>, input: seq<byte>)
    ensures ReadSoFar(capacity, pending, input, [], pending, input)
  {
    var parsed := Drain(capacity, pending, input);
    assert [] + parsed.frames == parsed.frames;
    assert Flatten([]) + (pending + input) == pending + input;
  }

  lemma {:induction false} FlattenAppend(frames: seq<seq<byte>>, last: seq<byte>)
    ensures Flatten(frames + [last]) == Flatten(frames) + last
    decreases |frames|
  {
    if frames == [] {
      assert [last][1..] == [] && Flatten([last]) == last + [];
    } else {
      assert (frames + [last])[1..] == frames[1..] + [last];
      FlattenAppend(frames[1..], last);
    }
  }

  /** One more message delivered by the framer. */
  lemma OneMoreRead(
    capacity: nat, pending0: seq<byte>, input: seq<byte>, frames: seq<seq<byte>>, pending: seq<byte>, rest: seq<byte>,
    n: nat)
    requires ReadSoFar(capacity, pending0, input, frames, pending, rest)
    requires Judge(capacity, pending, rest) == Deliver(n)
    ensures n <= |pending + rest|
    ensures var bytes := pending + rest;
            && ReadSoFar(capacity, pending0, input, frames + [bytes[..n]], [], bytes[n..])
            && Wire.DecodeMessage(bytes) == Ok(Some(MessageOf(bytes[..n])))
  {
    hide DecodeHeader, Flatten;
    var bytes := pending + rest;
    var frame, others := bytes[..n], Drain(capacity, [], bytes[n..]);
    assert frames + ([frame] + others.frames) == frames + [frame] + others.frames;
    FlattenAppend(frames, frame);
    assert bytes == frame + bytes[n..];
    assert Flatten(frames) + bytes == (Flatten(frames) + frame) + ([] + bytes[n..]);
    PeekIsStable(frame, bytes[n..]);
    PeekOfFrame(bytes, n);
  }

  /** The same, as the framer's caller sees it. */
  lemma Delivered(
    capacity: nat, pending0: seq<byte>, input: seq<byte>, frames: seq<seq<byte>>, pending: seq<byte>, rest: seq<byte>,
    starved: bool, message: Message, pending': seq<byte>, rest': seq<byte>)
    requires ReadSoFar(capacity, pending0, input, frames, pending, rest)
    requires Answers(capacity, pending, rest, starved, Ok(Some(message)), pending', rest')
    ensures message.header.size <= |pending + rest|
    ensures var frame := (pending + rest)[..message.header.size];
            ReadSoFar(capacity, pending0, input, frames + [frame], pending', rest') && MessageOf(frame) == message
    ensures |pending'| + |rest'| < |pending| + |rest| && pending' == []
  {
    hide ReadSoFar, Peek, DecodeHeader;
    var n := Judge(capacity, pending, rest).size;
    OneMoreRead(capacity, pending0, input, frames, pending, rest, n);
    SizeOfWhole(pending + rest, n, message);
  }

  lemma SizeOfWhole(bytes: seq<byte>, n: nat, message: Message)
    requires Peek(bytes) == Whole(n) && Wire.DecodeMessage(bytes) == Ok(Some(message))
    ensures message.header.size == n >= HEADER_LEN
  {}

  lemma {:induction false} MessagesAppend(frames: seq<seq<byte>>, last: seq<byte>)
    ensures MessagesOf(frames + [last]) == MessagesOf(frames) + [MessageOf(last)]
    decreases |frames|
  {
    if frames == [] {
      assert [last][1..] == [];
    } else {
      assert (frames + [last])[1..] == frames[1..] + [last];
      MessagesAppend(frames[1..], last);
    }
  }

  lemma RunLast(side: Side, lane: Lane, frames: seq<seq<byte>>, last: seq<byte>, turns: nat -> Turn)
    requires Run(side, lane, MessagesOf(frames), turns).1 == Running
    ensures Run(side, lane, MessagesOf(frames + [last]), turns) ==
            Process(side, Run(side, lane, MessagesOf(frames), turns).0, MessageOf(last), turns)
  {
    hide Process, MessageOf, MessagesOf;
    MessagesAppend(frames, last);
    RunAppend(side, lane, MessagesOf(frames), [MessageOf(last)], turns);
    assert [MessageOf(last)][1..] == [];
  }

  /** Why a batch ended: no complete message left, a message that ended it, or a framing error. */
  datatype Halt = Exhausted | Ended(end: End) | Unframed(cause: Error)

  /** How the end of a batch relates to reading the buffer directly. */
  ghost predicate HaltsRight(
    halt: Halt, end: End, parsed: Parsed, frames: seq<seq<byte>>, pending: seq<byte>, rest: seq<byte>, starved: bool)
  {
    match halt
    case Exhausted => end == Running && parsed == Parsed(frames, Rest(pending)) && rest == []
    case Ended(e) => e == end != Running && frames <= parsed.frames && pending == []
    case Unframed(cause) =>
      && end == Running
      && (parsed == Parsed(frames, Tail.Stopped(cause, pending + rest))
          || (starved && PoolFailure(cause) && frames <= parsed.frames))
  }

  lemma AtTheEnd(
    capacity: nat, pending0: seq<byte>, input: seq<byte>, frames: seq<seq<byte>>, pending: seq<byte>, rest: seq<byte>,
    starved: bool, r: Result<Option<Message>, Error>, pending': seq<byte>, rest': seq<byte>)
    requires ReadSoFar(capacity, pending0, input, frames, pending, rest)
    requires Answers(capacity, pending, rest, starved, r, pending', rest') && !(r.Ok? && r.value.Some?)
    ensures pending' + rest' == pending + rest && pending0 + input == Flatten(frames) + (pending' + rest')
    ensures HaltsRight(if r.Err? then Unframed(r.error) else Exhausted, Running,
                       Drain(capacity, pending0, input), frames, pending', rest', starved)
  {
    hide Flatten;
    var others := Drain(capacity, pending, rest);
    assert others.frames == [] ==> frames + others.frames == frames;
    assert frames <= frames + others.frames;
  }

  /** One turn of the batch loop. */
  method DispatchNext(
    framer: Framer, queue: Ancillary.FdQueue, context: Context, kernel: Ancillary.Kernel, input: seq<byte>)
    returns (next: Result<Option<Message>, Error>, end: End, rest: seq<byte>)
    requires framer.Valid() && queue.Valid()
    modifies framer, framer.Writable(), context, queue, queue.pool, kernel
    ensures framer.Valid() && framer.Capacity() == old(framer.Capacity())
    ensures forall o :: o in framer.Writable() ==> o in old(framer.Writable()) || fresh(o)
    ensures framer.Starved() ==> old(framer.Starved())
    ensures queue.Valid() && queue.OnlyMine()
    ensures Answers(framer.Capacity(), old(framer.Pending()), input, old(framer.Starved()),
                    next, framer.Pending(), rest)
    ensures if next.Ok? && next.value.Some? then
              (context.View(queue), end) ==
              Process(context.side, old(context.View(queue)), next.value.value, context.turns)
            else context.View(queue) == old(context.View(queue)) && end == Running
    ensures old(context.log) <= context.log
            && kernel.closed == old(kernel.closed) + Dropped(context.log[|old(context.log)|..])
  {
    hide Pool.Consistent, Ancillary.OwnChange, Ancillary.Chained, Ancillary.Fds, Framer.Space, Peek,
         Answers, Process, Dropped, Blocks.OwnMemory, Framer.OnlyMine, Framer.Starved, Framer.OwnMemoryOnly,
         Framer.Capacity, Framer.Borrowed;
    Ancillary.OwnChangeNone(queue.pool.nodes, queue.pool.nodes, queue.chain);
    NothingDropped(context.log);
    next, rest := framer.Next(input);
    framer.WritesNoMore();
    end := Running;
    if next.Ok? && next.value.Some? {
      end := context.Receive(next.value.value, queue, kernel);
    }
  }

  /** The batch loop, for events and for requests. */
  method DispatchFrames(
    framer: Framer, queue: Ancillary.FdQueue, context: Context, kernel: Ancillary.Kernel, input: seq<byte>)
    returns (halt: Halt, rest: seq<byte>, ghost frames: seq<seq<byte>>)
    requires framer.Valid() && queue.Valid()
    modifies framer, framer.Writable(), context, queue, queue.pool, kernel
    ensures framer.Valid() && framer.Capacity() == old(framer.Capacity())
    ensures framer.Starved() ==> old(framer.Starved())
    ensures forall o :: o in framer.Writable() ==> o in old(framer.Writable()) || fresh(o)
    ensures queue.Valid() && queue.OnlyMine()
    ensures var (lane, end) := Run(context.side, old(context.View(queue)), MessagesOf(frames), context.turns);
            && context.View(queue) == lane
            && HaltsRight(halt, end, Drain(old(framer.Capacity()), old(framer.Pending()), input), frames,
                          framer.Pending(), rest, old(framer.Starved()))
    ensures old(framer.Pending()) + input == Flatten(frames) + (framer.Pending() + rest)
    ensures old(context.log) <= context.log
            && kernel.closed == old(kernel.closed) + Dropped(context.log[|old(context.log)|..])
  {
    hide Pool.Consistent, Ancillary.OwnChange, Ancillary.Chained, Ancillary.Fds, Framer.Space, Peek,
         Answers, Run, Process, ReadSoFar, Drain, Flatten, HaltsRight, MessagesOf, MessageOf, Judge, Dropped,
         Blocks.OwnMemory, Framer.OnlyMine, Framer.Starved;
    ghost var capacity, pending0, lane0 := framer.Capacity(), framer.Pending(), context.View(queue);
    ghost var starved := framer.Starved();
    Ancillary.OwnChangeNone(queue.pool.nodes, queue.pool.nodes, queue.chain);
    rest, frames := input, [];
    NothingDropped(context.log);
    NothingRead(capacity, pending0, input);
    RunNothing(context.side, lane0, context.turns);
    while true
      invariant framer.Valid() && framer.Capacity() == capacity && queue.Valid() && queue.OnlyMine()
      invariant forall o :: o in framer.Writable() ==> o in old(framer.Writable()) || fresh(o)
      invariant framer.Starved() ==> starved
      invariant ReadSoFar(capacity, pending0, input, frames, framer.Pending(), rest)
      invariant Run(context.side, lane0, MessagesOf(frames), context.turns) == (context.View(queue), Running)
      invariant old(context.log) <= context.log
      invariant kernel.closed == old(kernel.closed) + Dropped(context.log[|old(context.log)|..])
      decreases |framer.Pending()| + |rest|
    {
      label Before:
      ghost var pending, unread, log := framer.Pending(), rest, context.log;
      var next, end;
      next, end, rest := DispatchNext(framer, queue, context, kernel, rest);
      Ancillary.OwnChangeThen(old(queue.pool.nodes), old@Before(queue.pool.nodes), queue.pool.nodes,
                              old(queue.chain), old@Before(queue.chain), queue.chain);
      DroppedThen(old(context.log), log, context.log);
      AnswersEither(capacity, pending, unread, old@Before(framer.Starved()), starved, next, framer.Pending(), rest);
      if next.Err? || next.value.None? {
        AtTheEnd(capacity, pending0, input, frames, pending, unread, starved,
                 next, framer.Pending(), rest);
        return if next.Err? then Unframed(next.error) else Exhausted, rest, frames;
      }
      var message := next.value.value;
      Delivered(capacity, pending0, input, frames, pending, unread, starved,
                message, framer.Pending(), rest);
      ghost var frame := (pending + unread)[..message.header.size];
      RunLast(context.side, lane0, frames, frame, context.turns);
      frames := frames + [frame];
      if end != Running {
        EndedRight(capacity, pending0, input, frames, framer.Pending(), rest, end, starved);
        return Ended(end), rest, frames;
      }
    }
  }

  lemma NothingDropped(log: seq<Delivery>)
    ensures Dropped(log[|log|..]) == []
  {}

  lemma DroppedThen(log0: seq<Delivery>, log1: seq<Delivery>, log2: seq<Delivery>)
    requires log0 <= log1 <= log2
    ensures Dropped(log2[|log0|..]) == Dropped(log1[|log0|..]) + Dropped(log2[|log1|..])
  {
    assert log2[|log0|..] == log1[|log0|..] + log2[|log1|..];
    DroppedAppend(log1[|log0|..], log2[|log1|..]);
  }

  lemma EndedRight(
    capacity: nat, pending0: seq<byte>, input: seq<byte>, frames: seq<seq<byte>>, pending: seq<byte>, rest: seq<byte>,
    end: End, starved: bool)
    requires ReadSoFar(capacity, pending0, input, frames, pending, rest) && pending == [] && end != Running
    ensures HaltsRight(Ended(end), end, Drain(capacity, pending0, input), frames, pending, rest, starved)
    ensures pending0 + input == Flatten(frames) + (pending + rest)
  {
    hide Flatten, Drain;
    var others := Drain(capacity, pending, rest);
    assert frames <= frames + others.frames;
  }

  lemma RunNothing(side: Side, lane: Lane, turns: nat -> Turn)
    ensures Run(side, lane, MessagesOf([]), turns) == (lane, Running)
  {}

  datatype EventResult = Dispatched(dispatched: nat) | Terminal(dispatched: nat, objectId: Option<u32>, cause: Error)

  function ResultOf(halt: Halt, count: nat): EventResult {
    match halt
    case Ended(Failed(id, cause)) => Terminal(count, Some(id), cause)
    case Unframed(cause) => Terminal(count, None, cause)
    case _ => Dispatched(count)
  }

  lemma {:induction false} CountGrows(side: Side, lane: Lane, messages: seq<Message>, turns: nat -> Turn)
    ensures lane.count <= Run(side, lane, messages, turns).0.count
    decreases |messages|
  {
    hide Lookup, GeneratedCodec.Decoded, FdCount, Entries;
    if messages != [] {
      var (next, end) := Process(side, lane, messages[0], turns);
      if end.Running? {
        CountGrows(side, next, messages[1..], turns);
      }
    }
  }

  /** Events of one buffer. Framing, lookup, decoding and handler errors, and the server's fatal error
      event, close the connection; nothing else does. */
  method DispatchEvents(
    actor: Connection.Actor, framer: Framer, queue: Ancillary.FdQueue, context: Context, kernel: Ancillary.Kernel,
    input: seq<byte>)
    returns (r: EventResult, rest: seq<byte>, ghost halt: Halt, ghost frames: seq<seq<byte>>)
    requires framer.Valid() && queue.Valid() && context.side == Client
    modifies actor`state, framer, framer.Writable(), context, queue, queue.pool, kernel
    ensures framer.Valid() && framer.Capacity() == old(framer.Capacity())
    ensures framer.Starved() ==> old(framer.Starved())
    ensures forall o :: o in framer.Writable() ==> o in old(framer.Writable()) || fresh(o)
    ensures queue.Valid() && queue.OnlyMine()
    ensures !old(actor.CanDispatch()) ==>
              r == Dispatched(0) && rest == input && context.View(queue) == old(context.View(queue))
              && framer.Pending() == old(framer.Pending())
    ensures old(actor.CanDispatch()) ==>
              var (lane, end) := Run(Client, old(context.View(queue)), MessagesOf(frames), context.turns);
              && context.View(queue) == lane && context.count >= old(context.count)
              && HaltsRight(halt, end, Drain(old(framer.Capacity()), old(framer.Pending()), input), frames,
                            framer.Pending(), rest, old(framer.Starved()))
              && r == ResultOf(halt, context.count - old(context.count))
    ensures actor.state == if r.Terminal? then old(actor.state).(phase := old(actor.state).ClosedPhase())
                           else old(actor.state)
    ensures old(framer.Pending()) + input == Flatten(frames) + (framer.Pending() + rest)
    ensures Handed(old(context.log)) + old(queue.Contents()) == Handed(context.log) + queue.Contents()
    ensures old(context.log) <= context.log
            && kernel.closed == old(kernel.closed) + Dropped(context.log[|old(context.log)|..])
  {
    hide Pool.Consistent, Ancillary.OwnChange, Ancillary.Chained, Ancillary.Fds, Framer.Space, Peek, Run, Drain,
         HaltsRight, MessagesOf, Dropped, Handed, Blocks.OwnMemory, Framer.OnlyMine, Framer.Starved;
    if !actor.CanDispatch() {
      Ancillary.OwnChangeNone(queue.pool.nodes, queue.pool.nodes, queue.chain);
      NothingDropped(context.log);
      assert Flatten([]) == [];
      return Dispatched(0), input, Exhausted, [];
    }
    var before := context.count;
    var halted;
    halted, rest, frames := DispatchFrames(framer, queue, context, kernel, input);
    halt := halted;
    CountGrows(Client, old(context.View(queue)), MessagesOf(frames), context.turns);
    LanesStayInStep(Client, old(context.View(queue)), MessagesOf(frames), context.turns);
    r := ResultOf(halted, context.count - before);
    if r.Terminal? {
      actor.BeginClose();
    }
  }

  /** Requests of one buffer, on the server's side. Errors are the caller's to act on. */
  method DispatchRequests(
    actor: Connection.Actor, framer: Framer, queue: Ancillary.FdQueue, context: Context, kernel: Ancillary.Kernel,
    input: seq<byte>)
    returns (r: Result<nat, Error>, rest: seq<byte>, ghost halt: Halt, ghost frames: seq<seq<byte>>)
    requires framer.Valid() && queue.Valid() && context.side == Server
    modifies framer, framer.Writable(), context, queue, queue.pool, kernel
    ensures framer.Valid() && framer.Capacity() == old(framer.Capacity())
    ensures framer.Starved() ==> old(framer.Starved())
    ensures forall o :: o in framer.Writable() ==> o in old(framer.Writable()) || fresh(o)
    ensures queue.Valid() && queue.OnlyMine()
    ensures !actor.CanDispatch() ==>
              r == Ok(0) && rest == input && context.View(queue) == old(context.View(queue))
              && framer.Pending() == old(framer.Pending())
    ensures actor.CanDispatch() ==>
              var (lane, end) := Run(Server, old(context.View(queue)), MessagesOf(frames), context.turns);
              && context.View(queue) == lane && context.count >= old(context.count)
              && HaltsRight(halt, end, Drain(old(framer.Capacity()), old(framer.Pending()), input), frames,
                            framer.Pending(), rest, old(framer.Starved()))
              && r == match ResultOf(halt, context.count - old(context.count))
                      case Dispatched(count) => Ok(count)
                      case Terminal(_, _, cause) => Err(cause)
    ensures old(framer.Pending()) + input == Flatten(frames) + (framer.Pending() + rest)
    ensures Handed(old(context.log)) + old(queue.Contents()) == Handed(context.log) + queue.Contents()
    ensures old(context.log) <= context.log
            && kernel.closed == old(kernel.closed) + Dropped(context.log[|old(context.log)|..])
  {
    hide Pool.Consistent, Ancillary.OwnChange, Ancillary.Chained, Ancillary.Fds, Framer.Space, Peek, Run, Drain,
         HaltsRight, MessagesOf, Dropped, Handed, Blocks.OwnMemory, Framer.OnlyMine, Framer.Starved;
    if !actor.CanDispatch() {
      Ancillary.OwnChangeNone(queue.pool.nodes, queue.pool.nodes, queue.chain);
      NothingDropped(context.log);
      assert Flatten([]) == [];
      return Ok(0), input, Exhausted, [];
    }
    var before := context.count;
    var halted;
    halted, rest, frames := DispatchFrames(framer, queue, context, kernel, input);
    halt := halted;
    CountGrows(Server, old(context.View(queue)), MessagesOf(frames), context.turns);
    LanesStayInStep(Server, old(context.View(queue)), MessagesOf(frames), context.turns);
    match ResultOf(halted, context.count - before) {
      case Dispatched(count) => r := Ok(count);
      case Terminal(_, _, cause) => r := Err(cause);
    }
  }
}

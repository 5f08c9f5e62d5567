/** Receive completions: what the kernel laid out in a selected buffer, how both sides work on it, and the
    buffer returned exactly once around that. */
module Receive {
  import opened Outcomes
  import opened Bytes
  import opened Wire
  import opened Fragmentation
  import opened Stream
  import opened Lanes
  import opened Dispatch
  import Arrivals
  import Pool
  import Blocks
  import Ancillary
  import Rights
  import Connection

  // ---- the layout of a selected buffer

  /** `io_uring_recvmsg_out`, which the kernel writes ahead of everything else. */
  datatype Output = Output(nameLen: u32, controlLen: u32, payloadLen: u32, flags: u32)

  const OUTPUT_LEN: nat := 16

  function ReadOutput(b: seq<byte>): Output
    requires |b| == OUTPUT_LEN
  {
    Output(ReadU32(b[..4]), ReadU32(b[4..8]), ReadU32(b[8..12]), ReadU32(b[12..]))
  }

  function WriteOutput(output: Output): (b: seq<byte>)
    ensures |b| == OUTPUT_LEN
  {
    WriteU32(output.nameLen) + WriteU32(output.controlLen) + WriteU32(output.payloadLen) + WriteU32(output.flags)
  }

  lemma OutputRoundTrip(output: Output)
    ensures ReadOutput(WriteOutput(output)) == output
  {
    hide WriteU32, ReadU32;
    var b := WriteOutput(output);
    assert b[..4] == WriteU32(output.nameLen) && b[4..8] == WriteU32(output.controlLen);
    assert b[8..12] == WriteU32(output.payloadLen) && b[12..] == WriteU32(output.flags);
    ReadWriteU32(output.nameLen);
    ReadWriteU32(output.controlLen);
    ReadWriteU32(output.payloadLen);
    ReadWriteU32(output.flags);
  }

  /** `MSG_TRUNC` or `MSG_CTRUNC` is set. */
  predicate Truncated(flags: u32) {
    flags / 0x20 % 2 == 1 || flags / 0x08 % 2 == 1
  }

  /** The areas a receiver asks for between that record and the payload. */
  datatype Areas = Areas(name: nat, control: nat)

  /** A completion, with what looking up its buffer gives. */
  datatype Completion = Completion(res: int, buffer: Result<seq<byte>, Error>)

  /** What a completion turns out to be: without a buffer, with one that has no room for its areas, with one
      whose control data is there but whose message is not acceptable, or a message. */
  datatype Received =
    | Unusable(error: Error)
    | Malformed(error: Error)
    | Refused(control: seq<byte>, error: Error)
    | Usable(control: seq<byte>, payload: seq<byte>)

  function Inspect(areas: Areas, completion: Completion): Received {
    if completion.res < 0 then Unusable(InvalidCompletion)
    else if completion.res == 0 then Unusable(Error.Disconnected) else
    match completion.buffer
    case Err(e) => Unusable(e)
    case Ok(bytes) =>
      var prefix := OUTPUT_LEN + areas.name + areas.control;
      if |bytes| < prefix then Malformed(InvalidMessage) else
      var output := ReadOutput(bytes[..OUTPUT_LEN]);
      if output.controlLen > areas.control then Malformed(InvalidMessage) else
      var start := OUTPUT_LEN + areas.name;
      var control, payload := bytes[start..start + output.controlLen], bytes[prefix..];
      if output.nameLen != 0 || Truncated(output.flags) || output.payloadLen != |payload|
      then Refused(control, InvalidMessage)
      else if payload == [] then Refused(control, Error.Disconnected)
      else Usable(control, payload)
  }

  /** A buffer as the kernel fills it. */
  function LaidOut(output: Output, name: seq<byte>, control: seq<byte>, unused: seq<byte>, payload: seq<byte>)
    : seq<byte>
  {
    WriteOutput(output) + name + control + unused + payload
  }

  /** Whatever stands in the unused parts of its areas, a filled buffer gives back the sender's control data and
      payload, unless the kernel had to cut one of them; then the control data is found all the same. */
  lemma LaidOutIsReceived(
    areas: Areas, name: seq<byte>, control: seq<byte>, unused: seq<byte>, payload: seq<byte>, flags: u32, res: int)
    requires |name| == areas.name && |control| + |unused| == areas.control
    requires |control| <= U32_MAX && |payload| <= U32_MAX && res > 0
    ensures var bytes := LaidOut(Output(0, |control|, |payload|, flags), name, control, unused, payload);
            Inspect(areas, Completion(res, Ok(bytes))) ==
            if Truncated(flags) then Refused(control, InvalidMessage)
            else if payload == [] then Refused(control, Error.Disconnected)
            else Usable(control, payload)
  {
    hide WriteOutput, ReadOutput, Truncated;
    var output := Output(0, |control|, |payload|, flags);
    OutputRoundTrip(output);
    var bytes := LaidOut(output, name, control, unused, payload);
    var start := OUTPUT_LEN + areas.name;
    assert bytes[..OUTPUT_LEN] == WriteOutput(output);
    assert bytes[start..start + |control|] == control;
    assert bytes[OUTPUT_LEN + areas.name + areas.control..] == payload;
  }

  // ---- buffers

  /** What a usable receive completion carries. */
  datatype Buffer = Buffer(control: seq<byte>, payload: seq<byte>)

  /** The kernel's receive buffers: how many are lent to the runtime, and how often one was returned. */
  class Receiver {
    const areas: Areas
    var lent: nat
    ghost var returned: nat

    constructor (areas: Areas)
      ensures this.areas == areas && lent == 0 && returned == 0
    {
      this.areas, lent, returned := areas, 0, 0;
    }

    method Release()
      requires lent > 0
      modifies this
      ensures lent == old(lent) - 1 && returned == old(returned) + 1
    {
      lent, returned := lent - 1, returned + 1;
    }

    /** A completion that does not decode keeps no buffer, and none of the descriptors that came with it. */
    method DecodeCompletion(completion: Completion, kernel: Ancillary.Kernel) returns (r: Result<Buffer, Error>)
      modifies this, kernel
      ensures var received := Inspect(areas, completion);
              && r == (if received.Usable? then Ok(Buffer(received.control, received.payload)) else Err(received.error))
              && lent == old(lent) + (if received.Usable? then 1 else 0)
              && returned == old(returned) + (if received.Malformed? || received.Refused? then 1 else 0)
              && kernel.closed == old(kernel.closed)
                                  + (if received.Refused? then Rights.ParseControl(received.control).fds else [])
    {
      hide Rights.ParseControl, ReadOutput, Truncated;
      if completion.res < 0 {
        return Err(InvalidCompletion);
      }
      if completion.res == 0 {
        return Err(Error.Disconnected);
      }
      if completion.buffer.Err? {
        return Err(completion.buffer.error);
      }
      var bytes := completion.buffer.value;
      lent := lent + 1;
      var prefix := OUTPUT_LEN + areas.name + areas.control;
      if |bytes| < prefix {
        Release();
        return Err(InvalidMessage);
      }
      var output := ReadOutput(bytes[..OUTPUT_LEN]);
      if output.controlLen > areas.control {
        Release();
        return Err(InvalidMessage);
      }
      var start := OUTPUT_LEN + areas.name;
      var control := bytes[start..start + output.controlLen];
      var payload := bytes[prefix..];
      if output.nameLen != 0 || Truncated(output.flags) || output.payloadLen != |payload| {
        var _ := Ancillary.CloseRights(control, kernel);
        Release();
        return Err(InvalidMessage);
      }
      if |payload| == 0 {
        var _ := Ancillary.CloseRights(control, kernel);
        Release();
        return Err(Error.Disconnected);
      }
      return Ok(Buffer(control, payload));
    }
  }

  // ---- completions as steps of a session

  /** A dispatch reports the session it leaves behind. Only where memory is `scarce` may it report instead that
      a pool could not grow. */
  ghost predicate Reports(r: EventResult, session: Session, lane: Lane, pending: seq<byte>, scarce: bool) {
    match r
    case Dispatched(_) => session == Live(lane, pending)
    case Terminal(_, id, cause) => session == Over(lane, id, cause) || (scarce && id == None && PoolFailure(cause))
  }

  /** The same for requests, whose errors do not name the object. */
  ghost predicate ReportsRequests(
    r: Result<nat, Error>, session: Session, lane: Lane, pending: seq<byte>, scarce: bool)
  {
    match r
    case Ok(_) => session == Live(lane, pending)
    case Err(cause) =>
      (session.Over? && session == Over(lane, session.objectId, cause)) || (scarce && PoolFailure(cause))
  }

  lemma ReportsAlike(
    e: EventResult, r: Result<nat, Error>, side: Side, capacity: nat, budget: nat, before: Lane, pending0: seq<byte>,
    arrival: Arrival, turns: nat -> Turn, lane: Lane, pending: seq<byte>, scarce: bool)
    requires Reports(e, Arrive(side, capacity, budget, before, pending0, arrival, turns), lane, pending, scarce)
    requires r == if e.Terminal? then Err(e.cause) else Ok(e.dispatched)
    ensures ReportsRequests(r, Arrive(side, capacity, budget, before, pending0, arrival, turns), lane, pending, scarce)
  {
    hide Arrive, PoolFailure;
  }

  lemma {:induction false} MessagesSplit(first: seq<seq<byte>>, second: seq<seq<byte>>)
    ensures MessagesOf(first + second) == MessagesOf(first) + MessagesOf(second)
    decreases |first|
  {
    hide MessageOf;
    if first == [] {
      assert first + second == second;
    } else {
      assert (first + second)[0] == first[0] && (first + second)[1..] == first[1..] + second;
      MessagesSplit(first[1..], second);
    }
  }

  /** A batch that ended early ends as the whole buffer would. */
  lemma EndsAlike(side: Side, lane: Lane, frames: seq<seq<byte>>, all: seq<seq<byte>>, turns: nat -> Turn)
    requires frames <= all && Run(side, lane, MessagesOf(frames), turns).1 != Running
    ensures Run(side, lane, MessagesOf(all), turns) == Run(side, lane, MessagesOf(frames), turns)
  {
    hide Run, MessagesOf;
    assert all == frames + all[|frames|..];
    MessagesSplit(frames, all[|frames|..]);
    RunAppend(side, lane, MessagesOf(frames), MessagesOf(all[|frames|..]), turns);
  }

  lemma HaltReports(
    side: Side, capacity: nat, budget: nat, lane: Lane, pending: seq<byte>, arrival: Arrival, turns: nat -> Turn,
    halt: Halt, frames: seq<seq<byte>>, pending': seq<byte>, rest: seq<byte>, starved: bool, count: nat)
    requires |lane.waiting| + |arrival.fds| <= budget
    requires var joined := lane.(waiting := lane.waiting + arrival.fds);
             HaltsRight(halt, Run(side, joined, MessagesOf(frames), turns).1, Drain(capacity, pending, arrival.bytes),
                        frames, pending', rest, starved)
    ensures var joined := lane.(waiting := lane.waiting + arrival.fds);
            Reports(ResultOf(halt, count), Arrive(side, capacity, budget, lane, pending, arrival, turns),
                    Run(side, joined, MessagesOf(frames), turns).0, pending', starved)
  {
    hide Run, MessagesOf, Drain, PoolFailure;
    if halt.Ended? {
      var joined := lane.(waiting := lane.waiting + arrival.fds);
      EndsAlike(side, joined, frames, Drain(capacity, pending, arrival.bytes).frames, turns);
    }
  }

  /** When the budget has no room for a completion's descriptors, that ends the session. */
  lemma RefusalReports(
    side: Side, capacity: nat, budget: nat, lane: Lane, pending: seq<byte>, arrival: Arrival, turns: nat -> Turn,
    cause: Error, scarce: bool)
    requires (|lane.waiting| + |arrival.fds| > budget && cause == DescriptorBudgetExceeded)
             || (scarce && PoolFailure(cause))
    ensures Reports(Terminal(0, None, cause), Arrive(side, capacity, budget, lane, pending, arrival, turns),
                    lane, pending, scarce)
  {}

  /** More memory to be had makes fewer reports acceptable. */
  lemma ReportsEither(r: EventResult, session: Session, lane: Lane, pending: seq<byte>, fewer: bool, more: bool)
    requires Reports(r, session, lane, pending, fewer) && (fewer ==> more)
    ensures Reports(r, session, lane, pending, more)
  {}

  /** The descriptors that came with a completion. */
  function FdsIn(received: Received): seq<Fd> {
    match received
    case Refused(control, _) => Rights.ParseControl(control).fds
    case Usable(control, _) => Rights.ParseControl(control).fds
    case _ => []
  }

  /** Why a completion that is not readable is turned away. */
  function Cause(received: Received): Error {
    if received.Usable? then MalformedControl else received.error
  }

  /** How many descriptors the queue takes without growing its pool. */
  ghost function Room(queue: Ancillary.FdQueue): nat
    requires queue.Valid()
    reads queue, queue.pool
  {
    Least(queue.budget - queue.count, |queue.pool.free|)
  }

  /** Receiving this may make a pool grow: the framer has no block to be had, or the budget allows descriptors
      for which there are too few free nodes. */
  ghost predicate Scarce(framer: Framer, queue: Ancillary.FdQueue, received: Received)
    requires framer.Valid() && queue.Valid()
    reads framer, framer.blocks, framer.scratch, queue, queue.pool
  {
    framer.Starved() || |queue.pool.free| < |FdsIn(received)| <= queue.budget - queue.count
  }

  /** The completion carries a message and control data that can be read. */
  predicate Readable(received: Received) {
    received.Usable? && Rights.ParseControl(received.control).ok
  }

  function ArrivalOf(received: Received): Arrival
    requires received.Usable?
  {
    Arrival(FdsIn(received), received.payload)
  }

  /** The first half of a receive. Either the descriptors are queued and the buffer stays with the caller, or
      they are closed, the buffer is back, and the reason is reported. */
  method Accept(queue: Ancillary.FdQueue, kernel: Ancillary.Kernel, receiver: Receiver, completion: Completion)
    returns (r: Result<Buffer, Error>)
    requires queue.Valid()
    modifies queue, queue.pool, kernel, receiver
    ensures queue.Valid() && queue.OnlyMine()
    ensures var received := Inspect(receiver.areas, completion);
            && (r.Ok? ==>
                  && Readable(received) && r.value == Buffer(received.control, received.payload)
                  && queue.Contents() == old(queue.Contents()) + FdsIn(received)
                  && |old(queue.Contents())| + |FdsIn(received)| <= queue.budget
                  && kernel.closed == old(kernel.closed)
                  && receiver.lent == old(receiver.lent) + 1 && receiver.returned == old(receiver.returned))
            && (r.Err? ==>
                  && queue.Contents() == old(queue.Contents())
                  && kernel.closed == old(kernel.closed) + FdsIn(received)
                  && receiver.lent == old(receiver.lent)
                  && receiver.returned == old(receiver.returned) + (if received.Unusable? then 0 else 1))
            && (!Readable(received) ==> r == Err(Cause(received)))
            && (Readable(received) && r.Err? ==>
                  || (r.error == DescriptorBudgetExceeded
                      && |old(queue.Contents())| + |FdsIn(received)| > queue.budget)
                  || (PoolFailure(r.error)
                      && old(|queue.pool.free|) < |FdsIn(received)| <= queue.budget - old(queue.count)))
            && (Readable(received) && |FdsIn(received)| <= old(Room(queue)) ==> r.Ok?)
  {
    hide Pool.Consistent, Ancillary.OwnChange, Ancillary.Chained, Ancillary.Fds, Rights.ParseControl, Inspect;
    Ancillary.OwnChangeNone(queue.pool.nodes, queue.pool.nodes, queue.chain);
    r := receiver.DecodeCompletion(completion, kernel);
    if r.Err? {
      return;
    }
    assert queue.count == |queue.Contents()|;
    var ingested := Ancillary.EnqueueRights(r.value.control, queue, kernel);
    if ingested.Err? {
      receiver.Release();
      return Err(ingested.error);
    }
    assert queue.count == |queue.Contents()|;
  }

  /** Every descriptor of an accepted completion is handed to a handler, still queued, or dropped with its
      message and closed; those of any other completion are closed, and nothing else happens to the lanes. */
  ghost predicate Accounted(
    received: Received, accepted: bool, before: Lane, after: Lane, closed: seq<Fd>, closed': seq<Fd>)
  {
    if accepted then
      && Readable(received) && before.log <= after.log
      && Handed(before.log) + before.waiting + FdsIn(received) == Handed(after.log) + after.waiting
      && closed' == closed + Dropped(after.log[|before.log|..])
    else after == before && closed' == closed + FdsIn(received)
  }

  lemma HandedAlong(log: seq<Delivery>, waiting: seq<Fd>, fds: seq<Fd>)
    ensures Handed(log) + (waiting + fds) == Handed(log) + waiting + fds
  {}

  /** The second half of a receive, for events: the queue holds what it did in `lane`, and then the completion's
      descriptors. */
  method DispatchArrivedEvents(
    actor: Connection.Actor, framer: Framer, queue: Ancillary.FdQueue, context: Context, kernel: Ancillary.Kernel,
    payload: seq<byte>, ghost lane: Lane, ghost received: Received, ghost scarce: bool)
    returns (r: EventResult, ghost frames: seq<seq<byte>>, ghost unread: seq<byte>)
    requires framer.Valid() && queue.Valid() && context.side == Client
    requires received.Usable? && Readable(received) && payload == received.payload
    requires framer.Starved() ==> scarce
    requires context.View(queue) == lane.(waiting := lane.waiting + FdsIn(received))
    requires |lane.waiting| + |FdsIn(received)| <= queue.budget
    modifies actor`state, framer, framer.Writable(), context, queue, queue.pool, kernel
    ensures framer.Valid() && framer.Capacity() == old(framer.Capacity())
    ensures framer.Starved() ==> old(framer.Starved())
    ensures forall o :: o in framer.Writable() ==> o in old(framer.Writable()) || fresh(o)
    ensures queue.Valid() && queue.OnlyMine()
    ensures actor.state == if r.Terminal? then old(actor.state).(phase := old(actor.state).ClosedPhase())
                           else old(actor.state)
    ensures r.dispatched == context.count - lane.count
    ensures Accounted(received, true, lane, context.View(queue), old(kernel.closed), kernel.closed)
    ensures old(framer.Pending()) + payload == Flatten(frames) + (framer.Pending() + unread)
    ensures if old(actor.CanDispatch()) then
              Reports(r, Arrive(Client, old(framer.Capacity()), queue.budget, lane, old(framer.Pending()),
                                ArrivalOf(received), context.turns), context.View(queue), framer.Pending(), scarce)
            else
              && r == Dispatched(0) && framer.Pending() == old(framer.Pending())
              && context.View(queue) == old(context.View(queue))
  {
    hide Pool.Consistent, Ancillary.OwnChange, Ancillary.Chained, Ancillary.Fds, Framer.Space, Peek, Run, Drain,
         HaltsRight, MessagesOf, Dropped, Handed, Blocks.OwnMemory, Framer.OnlyMine, Framer.Starved,
         Rights.ParseControl, Arrive, Reports, Flatten, PoolFailure, FdsIn, Readable;
    ghost var capacity, pending, starved := framer.Capacity(), framer.Pending(), framer.Starved();
    ghost var halt;
    r, unread, halt, frames := DispatchEvents(actor, framer, queue, context, kernel, payload);
    HandedAlong(lane.log, lane.waiting, FdsIn(received));
    if old(actor.CanDispatch()) {
      HaltReports(Client, capacity, queue.budget, lane, pending, ArrivalOf(received), context.turns, halt, frames,
                  framer.Pending(), unread, starved, context.count - lane.count);
      ReportsEither(r, Arrive(Client, capacity, queue.budget, lane, pending, ArrivalOf(received), context.turns),
                    context.View(queue), framer.Pending(), starved, scarce);
    }
  }

  /** The second half of a receive, for requests. */
  method DispatchArrivedRequests(
    actor: Connection.Actor, framer: Framer, queue: Ancillary.FdQueue, context: Context, kernel: Ancillary.Kernel,
    payload: seq<byte>, ghost lane: Lane, ghost received: Received, ghost scarce: bool)
    returns (r: Result<nat, Error>, ghost frames: seq<seq<byte>>, ghost unread: seq<byte>)
    requires framer.Valid() && queue.Valid() && context.side == Server
    requires received.Usable? && Readable(received) && payload == received.payload
    requires framer.Starved() ==> scarce
    requires context.View(queue) == lane.(waiting := lane.waiting + FdsIn(received))
    requires |lane.waiting| + |FdsIn(received)| <= queue.budget
    modifies framer, framer.Writable(), context, queue, queue.pool, kernel
    ensures framer.Valid() && framer.Capacity() == old(framer.Capacity())
    ensures framer.Starved() ==> old(framer.Starved())
    ensures forall o :: o in framer.Writable() ==> o in old(framer.Writable()) || fresh(o)
    ensures queue.Valid() && queue.OnlyMine()
    ensures r.Ok? ==> r.value == context.count - lane.count
    ensures Accounted(received, true, lane, context.View(queue), old(kernel.closed), kernel.closed)
    ensures old(framer.Pending()) + payload == Flatten(frames) + (framer.Pending() + unread)
    ensures if actor.CanDispatch() then
              ReportsRequests(r, Arrive(Server, old(framer.Capacity()), queue.budget, lane, old(framer.Pending()),
                                ArrivalOf(received), context.turns), context.View(queue), framer.Pending(), scarce)
            else
              && r == Ok(0) && framer.Pending() == old(framer.Pending())
              && context.View(queue) == old(context.View(queue))
  {
    hide Pool.Consistent, Ancillary.OwnChange, Ancillary.Chained, Ancillary.Fds, Framer.Space, Peek, Run, Drain,
         HaltsRight, MessagesOf, Dropped, Handed, Blocks.OwnMemory, Framer.OnlyMine, Framer.Starved,
         Rights.ParseControl, Arrive, Reports, ReportsRequests, Flatten, PoolFailure, FdsIn, Readable;
    ghost var capacity, pending, starved := framer.Capacity(), framer.Pending(), framer.Starved();
    ghost var halt;
    r, unread, halt, frames := DispatchRequests(actor, framer, queue, context, kernel, payload);
    HandedAlong(lane.log, lane.waiting, FdsIn(received));
    if actor.CanDispatch() {
      var count := context.count - lane.count;
      HaltReports(Server, capacity, queue.budget, lane, pending, ArrivalOf(received), context.turns, halt, frames,
                  framer.Pending(), unread, starved, count);
      ReportsEither(ResultOf(halt, count),
                    Arrive(Server, capacity, queue.budget, lane, pending, ArrivalOf(received), context.turns),
                    context.View(queue), framer.Pending(), starved, scarce);
      ReportsAlike(ResultOf(halt, count), r, Server, capacity, queue.budget, lane, pending, ArrivalOf(received),
                   context.turns, context.View(queue), framer.Pending(), scarce);
    }
  }

  /** One receive completion on the client's side. Whatever the outcome, a buffer that was taken goes back
      once, and no descriptor that arrived is lost or closed twice. A readable completion is one arrival of
      the session, unless memory is scarce and a pool cannot grow, or the connection no longer dispatches. */
  method ReceivedEvents(
    actor: Connection.Actor, framer: Framer, queue: Ancillary.FdQueue, context: Context, kernel: Ancillary.Kernel,
    receiver: Receiver, completion: Completion)
    returns (r: EventResult, ghost accepted: bool, ghost frames: seq<seq<byte>>, ghost unread: seq<byte>)
    requires framer.Valid() && queue.Valid() && context.side == Client
    modifies actor`state, framer, framer.Writable(), context, queue, queue.pool, kernel, receiver
    ensures framer.Valid() && framer.Capacity() == old(framer.Capacity())
    ensures framer.Starved() ==> old(framer.Starved())
    ensures forall o :: o in framer.Writable() ==> o in old(framer.Writable()) || fresh(o)
    ensures queue.Valid() && queue.OnlyMine()
    ensures actor.state == if r.Terminal? then old(actor.state).(phase := old(actor.state).ClosedPhase())
                           else old(actor.state)
    ensures r.dispatched == context.count - old(context.count)
    ensures var received := Inspect(receiver.areas, completion);
            && receiver.lent == old(receiver.lent)
            && receiver.returned == old(receiver.returned) + (if received.Unusable? then 0 else 1)
            && Accounted(received, accepted, old(context.View(queue)), context.View(queue),
                         old(kernel.closed), kernel.closed)
            && (Readable(received) && |FdsIn(received)| <= old(Room(queue)) ==> accepted)
            && (accepted ==>
                  old(framer.Pending()) + received.payload == Flatten(frames) + (framer.Pending() + unread))
            && (!accepted ==> framer.Pending() == old(framer.Pending()) && r.Terminal?)
            && (!Readable(received) ==> r == Terminal(0, None, Cause(received)))
            && (Readable(received) && old(actor.CanDispatch()) ==>
                  Reports(r, Arrive(Client, old(framer.Capacity()), queue.budget, old(context.View(queue)),
                                    old(framer.Pending()), ArrivalOf(received), context.turns),
                          context.View(queue), framer.Pending(), old(Scarce(framer, queue, received))))
            && (accepted && !old(actor.CanDispatch()) ==>
                  && r == Dispatched(0) && framer.Pending() == old(framer.Pending())
                  && context.View(queue)
                     == old(context.View(queue)).(waiting := old(queue.Contents()) + FdsIn(received)))
  {
    hide Pool.Consistent, Ancillary.OwnChange, Ancillary.Chained, Ancillary.Fds, Framer.Space, Peek, Dropped, Handed,
         Blocks.OwnMemory, Framer.OnlyMine, Framer.Starved, Rights.ParseControl, Arrive, Reports, Inspect, Flatten,
         PoolFailure, FdsIn, Room, Ancillary.Linked;
    NothingDropped(context.log);
    accepted, frames, unread := false, [], [];
    ghost var lane, received := context.View(queue), Inspect(receiver.areas, completion);
    ghost var pending, capacity := framer.Pending(), framer.Capacity();
    ghost var scarce := Scarce(framer, queue, received);
    var buffer := Accept(queue, kernel, receiver, completion);
    if buffer.Err? {
      if Readable(received) {
        RefusalReports(Client, capacity, queue.budget, lane, pending, ArrivalOf(received), context.turns, buffer.error,
                       scarce);
      }
      actor.BeginClose();
      r := Terminal(0, None, buffer.error);
      return;
    }
    accepted := true;
    label Accepted:
    r, frames, unread :=
      DispatchArrivedEvents(actor, framer, queue, context, kernel, buffer.value.payload, lane, received, scarce);
    Ancillary.OwnChangeThen(old(queue.pool.nodes), old@Accepted(queue.pool.nodes), queue.pool.nodes,
                            old(queue.chain), old@Accepted(queue.chain), queue.chain);
    receiver.Release();
  }

  /** The same on the server's side, where errors are the caller's to act on. */
  method ReceivedRequests(
    actor: Connection.Actor, framer: Framer, queue: Ancillary.FdQueue, context: Context, kernel: Ancillary.Kernel,
    receiver: Receiver, completion: Completion)
    returns (r: Result<nat, Error>, ghost accepted: bool, ghost frames: seq<seq<byte>>, ghost unread: seq<byte>)
    requires framer.Valid() && queue.Valid() && context.side == Server
    modifies framer, framer.Writable(), context, queue, queue.pool, kernel, receiver
    ensures framer.Valid() && framer.Capacity() == old(framer.Capacity())
    ensures framer.Starved() ==> old(framer.Starved())
    ensures forall o :: o in framer.Writable() ==> o in old(framer.Writable()) || fresh(o)
    ensures queue.Valid() && queue.OnlyMine()
    ensures r.Ok? ==> r.value == context.count - old(context.count)
    ensures var received := Inspect(receiver.areas, completion);
            && receiver.lent == old(receiver.lent)
            && receiver.returned == old(receiver.returned) + (if received.Unusable? then 0 else 1)
            && Accounted(received, accepted, old(context.View(queue)), context.View(queue),
                         old(kernel.closed), kernel.closed)
            && (Readable(received) && |FdsIn(received)| <= old(Room(queue)) ==> accepted)
            && (accepted ==>
                  old(framer.Pending()) + received.payload == Flatten(frames) + (framer.Pending() + unread))
            && (!accepted ==> framer.Pending() == old(framer.Pending()) && r.Err?)
            && (!Readable(received) ==> r == Err(Cause(received)))
            && (Readable(received) && actor.CanDispatch() ==>
                  ReportsRequests(r, Arrive(Server, old(framer.Capacity()), queue.budget, old(context.View(queue)),
                                    old(framer.Pending()), ArrivalOf(received), context.turns),
                          context.View(queue), framer.Pending(), old(Scarce(framer, queue, received))))
            && (accepted && !actor.CanDispatch() ==>
                  && r == Ok(0) && framer.Pending() == old(framer.Pending())
                  && context.View(queue)
                     == old(context.View(queue)).(waiting := old(queue.Contents()) + FdsIn(received)))
  {
    hide Pool.Consistent, Ancillary.OwnChange, Ancillary.Chained, Ancillary.Fds, Framer.Space, Peek, Dropped, Handed,
         Blocks.OwnMemory, Framer.OnlyMine, Framer.Starved, Rights.ParseControl, Arrive, Reports, ReportsRequests,
         Inspect, Flatten, PoolFailure, FdsIn, Room, Ancillary.Linked;
    NothingDropped(context.log);
    accepted, frames, unread := false, [], [];
    ghost var lane, received := context.View(queue), Inspect(receiver.areas, completion);
    ghost var pending, capacity := framer.Pending(), framer.Capacity();
    ghost var scarce := Scarce(framer, queue, received);
    var buffer := Accept(queue, kernel, receiver, completion);
    if buffer.Err? {
      if Readable(received) {
        var arrival := ArrivalOf(received);
        RefusalReports(Server, capacity, queue.budget, lane, pending, arrival, context.turns, buffer.error, scarce);
        ReportsAlike(Terminal(0, None, buffer.error), Err(buffer.error), Server, capacity, queue.budget, lane, pending,
                     arrival, context.turns, lane, pending, scarce);
      }
      r := Err(buffer.error);
      return;
    }
    accepted := true;
    label Accepted:
    r, frames, unread :=
      DispatchArrivedRequests(actor, framer, queue, context, kernel, buffer.value.payload, lane, received, scarce);
    Ancillary.OwnChangeThen(old(queue.pool.nodes), old@Accepted(queue.pool.nodes), queue.pool.nodes,
                            old(queue.chain), old@Accepted(queue.chain), queue.chain);
    receiver.Release();
  }

  // ---- any number of completions

  function InspectAll(areas: Areas, completions: seq<Completion>): (all: seq<Received>)
    ensures |all| == |completions|
  {
    if completions == [] then [] else [Inspect(areas, completions[0])] + InspectAll(areas, completions[1..])
  }

  lemma {:induction false} InspectAllAt(areas: Areas, completions: seq<Completion>, i: nat)
    requires i < |completions|
    ensures InspectAll(areas, completions)[i] == Inspect(areas, completions[i])
    decreases |completions|
  {
    hide Inspect;
    if i > 0 {
      InspectAllAt(areas, completions[1..], i - 1);
    }
  }

  /** The session after these completions, as far as it gets. */
  function Heard(
    side: Side, capacity: nat, budget: nat, lane: Lane, pending: seq<byte>, all: seq<Received>, turns: nat -> Turn)
    : Session
    decreases |all|
  {
    if all == [] then Live(lane, pending)
    else if !Readable(all[0]) then Over(lane, None, Cause(all[0]))
    else
      match Arrive(side, capacity, budget, lane, pending, ArrivalOf(all[0]), turns)
      case Over(after, id, cause) => Over(after, id, cause)
      case Live(after, left) => Heard(side, capacity, budget, after, left, all[1..], turns)
  }

  function ArrivalsOf(all: seq<Received>): seq<Arrival>
    requires forall received :: received in all ==> Readable(received)
  {
    if all == [] then [] else
    assert Readable(all[0]);
    [ArrivalOf(all[0])] + ArrivalsOf(all[1..])
  }

  /** Completions that can all be read are the arrivals that the theorems from sender to receiver are about. */
  lemma {:induction false} HeardIsArriveAll(
    side: Side, capacity: nat, budget: nat, lane: Lane, pending: seq<byte>, all: seq<Received>, turns: nat -> Turn)
    requires forall received :: received in all ==> Readable(received)
    ensures Heard(side, capacity, budget, lane, pending, all, turns)
            == ArriveAll(side, capacity, budget, lane, pending, ArrivalsOf(all), turns)
    decreases |all|
  {
    hide Arrive, ArrivalOf, Rights.ParseControl;
    if all != [] {
      assert Readable(all[0]);
      assert ArrivalsOf(all)[1..] == ArrivalsOf(all[1..]);
      var first := Arrive(side, capacity, budget, lane, pending, ArrivalOf(all[0]), turns);
      if first.Live? {
        HeardIsArriveAll(side, capacity, budget, first.lane, first.pending, all[1..], turns);
      }
    }
  }

  function TotalFds(all: seq<Received>): nat {
    if all == [] then 0 else |FdsIn(all[0])| + TotalFds(all[1..])
  }

  /** There is memory for all of them: a block for the framer, and free nodes for all their descriptors or for
      all that the budget allows. */
  ghost predicate Supplied(framer: Framer, queue: Ancillary.FdQueue, all: seq<Received>)
    requires framer.Valid() && queue.Valid()
    reads framer, framer.blocks, framer.scratch, queue, queue.pool
  {
    !framer.Starved() && Covers(|queue.pool.free|, queue.budget - queue.count, TotalFds(all))
  }

  predicate Covers(free: nat, allowed: nat, needed: nat) {
    Least(allowed, needed) <= free
  }

  /** Taking in `fds` descriptors and handing out some leaves enough for the others. */
  lemma CoversOthers(free: nat, count: nat, free': nat, count': nat, budget: nat, fds: nat, others: nat)
    requires count <= budget && count' <= budget && Covers(free, budget - count, fds + others)
    requires free + count <= free' + count' && count' <= count + fds
    ensures Covers(free', budget - count', others)
  {}

  lemma {:induction false} HandedGrows(log: seq<Delivery>, longer: seq<Delivery>)
    requires log <= longer
    ensures |Handed(log)| <= |Handed(longer)|
    decreases |log|
  {
    if log != [] {
      assert log[0] == longer[0] && log[1..] <= longer[1..];
      HandedGrows(log[1..], longer[1..]);
    }
  }

  lemma FewerWait(received: Received, before: Lane, after: Lane, closed: seq<Fd>, closed': seq<Fd>)
    requires Accounted(received, true, before, after, closed, closed')
    ensures |after.waiting| <= |before.waiting| + |FdsIn(received)|
  {
    hide Handed, Dropped, FdsIn, Readable;
    HandedGrows(before.log, after.log);
    var all := Handed(before.log) + before.waiting + FdsIn(received);
    assert |all| == |Handed(before.log)| + |before.waiting| + |FdsIn(received)|;
    assert |all| == |Handed(after.log)| + |after.waiting|;
  }

  /** A receive completion on either side. */
  method ReceivedOne(
    actor: Connection.Actor, framer: Framer, queue: Ancillary.FdQueue, context: Context, kernel: Ancillary.Kernel,
    receiver: Receiver, completion: Completion)
    returns (r: Result<nat, Error>)
    requires framer.Valid() && queue.Valid() && actor.CanDispatch()
    modifies actor`state, framer, framer.Writable(), context, queue, queue.pool, kernel, receiver
    ensures framer.Valid() && framer.Capacity() == old(framer.Capacity())
    ensures framer.Starved() ==> old(framer.Starved())
    ensures forall o :: o in framer.Writable() ==> o in old(framer.Writable()) || fresh(o)
    ensures queue.Valid() && queue.OnlyMine()
    ensures receiver.lent == old(receiver.lent)
    ensures old(|queue.pool.free| + queue.count) <= |queue.pool.free| + queue.count
    ensures r.Ok? ==> r.value == context.count - old(context.count) && actor.state == old(actor.state)
    ensures var received := Inspect(receiver.areas, completion);
            && (!Readable(received) ==>
                  && r == Err(Cause(received))
                  && context.View(queue) == old(context.View(queue)) && framer.Pending() == old(framer.Pending()))
            && (Readable(received) ==>
                  ReportsRequests(r, Arrive(context.side, old(framer.Capacity()), queue.budget,
                                            old(context.View(queue)), old(framer.Pending()), ArrivalOf(received),
                                            context.turns),
                                  context.View(queue), framer.Pending(), old(Scarce(framer, queue, received))))
            && (r.Ok? ==> queue.count <= old(queue.count) + |FdsIn(received)|)
  {
    hide Pool.Consistent, Ancillary.OwnChange, Ancillary.Chained, Ancillary.Fds, Framer.Space, Peek, Dropped, Handed,
         Blocks.OwnMemory, Framer.OnlyMine, Framer.Starved, Rights.ParseControl, Arrive, Reports, ReportsRequests,
         Inspect, Flatten, PoolFailure, FdsIn, Room, Scarce;
    ghost var lane, received := context.View(queue), Inspect(receiver.areas, completion);
    ghost var pending, capacity, scarce := framer.Pending(), framer.Capacity(), Scarce(framer, queue, received);
    ghost var closed, accepted, frames, unread := kernel.closed, false, [], [];
    if context.side == Client {
      var e;
      e, accepted, frames, unread := ReceivedEvents(actor, framer, queue, context, kernel, receiver, completion);
      r := if e.Terminal? then Err(e.cause) else Ok(e.dispatched);
      if Readable(received) {
        ReportsAlike(e, r, Client, capacity, queue.budget, lane, pending, ArrivalOf(received), context.turns,
                     context.View(queue), framer.Pending(), scarce);
      }
    } else {
      r, accepted, frames, unread := ReceivedRequests(actor, framer, queue, context, kernel, receiver, completion);
    }
    if accepted {
      FewerWait(received, lane, context.View(queue), closed, kernel.closed);
    }
    queue.FreeOrMineGrow();
  }

  lemma HeardFirst(
    side: Side, capacity: nat, budget: nat, lane: Lane, pending: seq<byte>, all: seq<Received>, turns: nat -> Turn,
    r: Result<nat, Error>, after: Lane, left: seq<byte>, scarce: bool)
    requires all != []
    requires if Readable(all[0]) then
               ReportsRequests(r, Arrive(side, capacity, budget, lane, pending, ArrivalOf(all[0]), turns), after, left,
                               scarce)
             else r == Err(Cause(all[0])) && after == lane && left == pending
    ensures var heard := Heard(side, capacity, budget, lane, pending, all, turns);
            if r.Ok? then heard == Heard(side, capacity, budget, after, left, all[1..], turns)
            else ReportsRequests(r, heard, after, left, scarce)
  {
    hide Arrive, ArrivalOf, PoolFailure, Rights.ParseControl;
  }

  lemma HeardNothing(
    side: Side, capacity: nat, budget: nat, lane: Lane, pending: seq<byte>, turns: nat -> Turn, n: nat, scarce: bool)
    ensures ReportsRequests(Ok(n), Heard(side, capacity, budget, lane, pending, [], turns), lane, pending, scarce)
  {}

  lemma EitherReports(r: Result<nat, Error>, session: Session, lane: Lane, pending: seq<byte>, fewer: bool, more: bool)
    requires ReportsRequests(r, session, lane, pending, fewer) && (fewer ==> more)
    ensures ReportsRequests(r, session, lane, pending, more)
  {}

  lemma SuppliedNow(framer: Framer, queue: Ancillary.FdQueue, all: seq<Received>)
    requires framer.Valid() && queue.Valid() && all != [] && Supplied(framer, queue, all)
    ensures !Scarce(framer, queue, all[0])
  {
    hide Framer.Starved, FdsIn;
  }

  lemma SuppliedOthers(framer: Framer, queue: Ancillary.FdQueue, all: seq<Received>, free: nat, count: nat)
    requires framer.Valid() && queue.Valid() && !framer.Starved() && all != [] && count <= queue.budget
    requires Covers(free, queue.budget - count, TotalFds(all))
    requires free + count <= |queue.pool.free| + queue.count && queue.count <= count + |FdsIn(all[0])|
    ensures Supplied(framer, queue, all[1..])
  {
    hide Framer.Starved, FdsIn;
    CoversOthers(free, count, |queue.pool.free|, queue.count, queue.budget, |FdsIn(all[0])|, TotalFds(all[1..]));
  }

  /** Completions of one connection in the order they were posted, up to the first failure. If there is memory
      for all of them, the outcome is that of the session; otherwise it may also be that a pool could not grow. */
  method ReceivedAll(
    actor: Connection.Actor, framer: Framer, queue: Ancillary.FdQueue, context: Context, kernel: Ancillary.Kernel,
    receiver: Receiver, completions: seq<Completion>)
    returns (r: Result<nat, Error>)
    requires framer.Valid() && queue.Valid() && actor.CanDispatch()
    modifies actor`state, framer, framer.Writable(), context, queue, queue.pool, kernel, receiver
    ensures framer.Valid() && queue.Valid() && queue.OnlyMine()
    ensures receiver.lent == old(receiver.lent)
    ensures var all := InspectAll(receiver.areas, completions);
            ReportsRequests(
              r, Heard(context.side, old(framer.Capacity()), queue.budget, old(context.View(queue)),
                       old(framer.Pending()), all, context.turns),
              context.View(queue), framer.Pending(), !old(Supplied(framer, queue, all)))
  {
    hide Pool.Consistent, Ancillary.OwnChange, Ancillary.Chained, Ancillary.Fds, Framer.Space, Peek, Handed,
         Blocks.OwnMemory, Framer.OnlyMine, Framer.Starved, Arrive, ReportsRequests, Inspect, InspectAll, Heard,
         Readable, PoolFailure, FdsIn, TotalFds, Scarce, Covers, Framer.Borrowed, Ancillary.Linked,
         Framer.OwnMemoryOnly, Blocks.SharedBlocks.Valid;
    ghost var side, turns, capacity, budget := context.side, context.turns, framer.Capacity(), queue.budget;
    ghost var all := InspectAll(receiver.areas, completions);
    ghost var outcome := Heard(side, capacity, budget, context.View(queue), framer.Pending(), all, turns);
    ghost var supplied := Supplied(framer, queue, all);
    var i, count := 0, context.count;
    queue.Untouched();
    assert all[0..] == all;
    while i < |completions|
      invariant i <= |completions| == |all|
      invariant framer.Valid() && framer.Capacity() == capacity && actor.CanDispatch()
      invariant forall o :: o in framer.Writable() ==> o in old(framer.Writable()) || fresh(o)
      invariant queue.Valid() && queue.OnlyMine() && receiver.lent == old(receiver.lent)
      invariant Heard(side, capacity, budget, context.View(queue), framer.Pending(), all[i..], turns) == outcome
      invariant supplied ==> Supplied(framer, queue, all[i..])
      invariant count <= context.count
    {
      label Before:
      ghost var lane, pending := context.View(queue), framer.Pending();
      ghost var left, scarce := all[i..], Scarce(framer, queue, all[i]);
      ghost var free, held := |queue.pool.free|, queue.count;
      InspectAllAt(receiver.areas, completions, i);
      assert left[0] == all[i] && left[1..] == all[i + 1..];
      if supplied {
        SuppliedNow(framer, queue, left);
      }
      var one := ReceivedOne(actor, framer, queue, context, kernel, receiver, completions[i]);
      Ancillary.OwnChangeThen(old(queue.pool.nodes), old@Before(queue.pool.nodes), queue.pool.nodes,
                              old(queue.chain), old@Before(queue.chain), queue.chain);
      HeardFirst(side, capacity, budget, lane, pending, left, turns, one, context.View(queue), framer.Pending(),
                 scarce);
      if one.Err? {
        EitherReports(one, outcome, context.View(queue), framer.Pending(), scarce, !supplied);
        return one;
      }
      if supplied {
        SuppliedOthers(framer, queue, left, free, held);
      }
      i := i + 1;
    }
    assert all[i..] == [];
    var n := context.count - count;
    HeardNothing(side, capacity, budget, context.View(queue), framer.Pending(), turns, n, !supplied);
    return Ok(n);
  }

  /** From a sender's messages to a receiver's handlers, through kernel buffers, the descriptor queue and the
      framer: with memory for what is coming, all completions are dispatched if and only if every message's
      descriptors come no later than its last byte and the budget holds what waits; and then handlers have got
      exactly the complete messages, as they were sent. Within the budget the only failure is `Empty`. */
  method ReceivedAsSent(
    actor: Connection.Actor, framer: Framer, queue: Ancillary.FdQueue, context: Context, kernel: Ancillary.Kernel,
    receiver: Receiver, completions: seq<Completion>, ghost sent: seq<Arrivals.Sent>, ghost unread: seq<byte>,
    ghost unsent: seq<Fd>)
    returns (r: Result<nat, Error>)
    requires framer.Valid() && queue.Valid() && actor.CanDispatch()
    requires forall received :: received in InspectAll(receiver.areas, completions) ==> Readable(received)
    requires Supplied(framer, queue, InspectAll(receiver.areas, completions))
    requires Arrivals.Underway(
               context.side, framer.Capacity(), context.View(queue), framer.Pending(),
               ArrivalsOf(InspectAll(receiver.areas, completions)), sent, context.turns, unread, unsent)
    modifies actor`state, framer, framer.Writable(), context, queue, queue.pool, kernel, receiver
    ensures framer.Valid() && queue.Valid() && queue.OnlyMine()
    ensures receiver.lent == old(receiver.lent)
    ensures var arrivals := ArrivalsOf(InspectAll(receiver.areas, completions));
            var pending, waiting := |old(framer.Pending())|, |old(queue.Contents())|;
            var n := Arrivals.CompletedBy(sent, pending, arrivals, |arrivals|);
            && (r.Ok? <==> Arrivals.InTime(sent, pending, waiting, arrivals)
                           && Arrivals.Affordable(sent, pending, waiting, arrivals, queue.budget))
            && (r.Ok? ==> Arrivals.UpToDate(context.side, old(context.View(queue)), sent, context.turns, unread, unsent,
                                            n, context.View(queue), framer.Pending()))
            && (r.Err? && Arrivals.Affordable(sent, pending, waiting, arrivals, queue.budget) ==> r.error == Empty)
  {
    hide Pool.Consistent, Ancillary.OwnChange, Ancillary.Chained, Ancillary.Fds, Framer.Space, Peek, Inspect,
         InspectAll, Blocks.OwnMemory, Framer.OnlyMine, Heard, Readable, PoolFailure, Supplied, ArriveAll, ArrivalsOf,
         Arrivals.Underway, Arrivals.UpToDate, Arrivals.InTime, Arrivals.Affordable, Arrivals.CompletedBy,
         Arrivals.LateBy, Arrivals.Expected, Arrivals.Understood, Arrivals.Reached;
    ghost var side, turns, lane, pending := context.side, context.turns, context.View(queue), framer.Pending();
    ghost var capacity, all := framer.Capacity(), InspectAll(receiver.areas, completions);
    ghost var arrivals := ArrivalsOf(all);
    HeardIsArriveAll(side, capacity, queue.budget, lane, pending, all, turns);
    Arrivals.SentThroughArrivals(side, capacity, queue.budget, lane, pending, arrivals, sent, turns, unread, unsent);
    if Arrivals.Affordable(sent, |pending|, |lane.waiting|, arrivals, queue.budget)
       && !Arrivals.InTime(sent, |pending|, |lane.waiting|, arrivals) {
      var k, m := Arrivals.LateDescriptorEndsRun(
        side, capacity, queue.budget, lane, pending, arrivals, sent, turns, unread, unsent);
    }
    r := ReceivedAll(actor, framer, queue, context, kernel, receiver, completions);
  }
}

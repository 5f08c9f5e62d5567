/** Bytes and descriptors reach a connection on two lanes. What dispatching a sequence of messages makes
    of both, and why each message gets exactly the descriptors its sender attached. */
module Lanes {
  import opened Outcomes
  import opened Bytes
  import opened Wire
  import opened Codec
  import opened GeneratedCodec
  import opened Fragmentation

  type SupportedSchema = schema: Schema | AllSupported(schema) witness []

  /** Metadata of one message; its `fd_count` is the number of descriptor arguments. */
  datatype MessageType = MessageType(since: u32, destructor: bool, schema: SupportedSchema)

  datatype Interface = Interface(name: string, version: u32, requests: seq<MessageType>, events: seq<MessageType>)

  datatype Object = Object(interface: Interface, version: u32, generation: u32, destroyed: bool)

  type Namespace = map<u32, Object>

  /** A client reads events, a server requests. */
  datatype Side = Client | Server

  function FindMessage(
    interface: Interface, messages: seq<MessageType>, opcode: u16, version: u32): Result<MessageType, Error>
  {
    if version == 0 || version > interface.version then Err(InvalidObjectVersion)
    else if opcode >= |messages| then Err(UnknownOpcode)
    else if messages[opcode].since > version then Err(UnsupportedVersion)
    else Ok(messages[opcode])
  }

  datatype Target = Target(entity: Object, schema: SupportedSchema)

  function Lookup(side: Side, objects: Namespace, id: u32, opcode: u16): Result<Target, Error> {
    if id !in objects then Err(UnknownObject) else
    var entity := objects[id];
    if side == Server && entity.destroyed then Err(DestroyedObject) else
    var messages := if side == Server then entity.interface.requests else entity.interface.events;
    match FindMessage(entity.interface, messages, opcode, entity.version)
    case Err(e) => Err(e)
    case Ok(found) => Ok(Target(entity, found.schema))
  }

  /** The namespace as object arguments are checked against it. */
  function Entries(objects: Namespace): Objects {
    map id | id in objects :: Entry(objects[id].interface.name, objects[id].destroyed)
  }

  /** `wl_display.error`. */
  predicate IsServerError(target: Target, opcode: u16) {
    target.entity.interface.name == "wl_display" && opcode == 0
  }

  /** What a handler does when its turn comes: how it leaves the namespace, and how it returns. */
  datatype Turn = Turn(objects: Namespace, stop: bool, fails: bool)

  /** A message that took its descriptors off the queue; no values when its target was destroyed. */
  datatype Delivery = Delivery(
    objectId: u32, opcode: u16, schema: SupportedSchema, fds: seq<Fd>, values: Option<seq<Value>>)

  datatype Lane = Lane(objects: Namespace, waiting: seq<Fd>, log: seq<Delivery>, count: nat)

  datatype End = Running | Stopped | Failed(objectId: u32, cause: Error)

  /** One message. Handlers decode with the generated decoder; `turns(k)` is the k-th handler call. */
  function Process(side: Side, lane: Lane, message: Message, turns: nat -> Turn): (Lane, End) {
    var id, opcode := message.header.objectId, message.header.opcode;
    match Lookup(side, lane.objects, id, opcode)
    case Err(e) => (lane, Failed(id, e))
    case Ok(target) =>
      var amount := FdCount(target.schema);
      if target.entity.destroyed then
        if |lane.waiting| < amount then (lane, Failed(id, Empty))
        else (lane.(waiting := lane.waiting[amount..],
                    log := lane.log + [Delivery(id, opcode, target.schema, lane.waiting[..amount], None)]), Running)
      else
        match Decoded(target.schema, message.payload, Some(Entries(lane.objects)), side == Client, lane.waiting)
        case Err(e) => (lane, Failed(id, e))
        case Ok(values) =>
          var turn := turns(lane.count);
          var handed := Lane(turn.objects, lane.waiting[amount..],
                             lane.log + [Delivery(id, opcode, target.schema, lane.waiting[..amount], Some(values))],
                             if turn.fails then lane.count else lane.count + 1);
          (handed,
           if turn.fails then Failed(id, HandlerFailure)
           else if side == Client && IsServerError(target, opcode) then Failed(id, ServerProtocolError)
           else if turn.stop then End.Stopped else Running)
  }

  function Run(side: Side, lane: Lane, messages: seq<Message>, turns: nat -> Turn): (Lane, End)
    decreases |messages|
  {
    if messages == [] then (lane, Running) else
    var (next, end) := Process(side, lane, messages[0], turns);
    if end.Running? then Run(side, next, messages[1..], turns) else (next, end)
  }

  function Handed(log: seq<Delivery>): seq<Fd> {
    if log == [] then [] else log[0].fds + Handed(log[1..])
  }

  lemma {:induction false} HandedAppend(log: seq<Delivery>, last: Delivery)
    ensures Handed(log + [last]) == Handed(log) + last.fds
    decreases |log|
  {
    if log == [] {
      assert [last][1..] == [];
    } else {
      assert (log + [last])[1..] == log[1..] + [last];
      HandedAppend(log[1..], last);
    }
  }

  /** The entry is for this message and holds as many descriptors as the message's type declares. */
  predicate Matches(delivery: Delivery, message: Message) {
    && delivery.objectId == message.header.objectId && delivery.opcode == message.header.opcode
    && |delivery.fds| == FdCount(delivery.schema)
  }

  /** One message either leaves both lanes alone, or takes exactly its own descriptors from the front. */
  lemma ProcessKeepsStep(side: Side, lane: Lane, message: Message, turns: nat -> Turn)
    ensures var (after, end) := Process(side, lane, message, turns);
            && (after.log == lane.log || (|after.log| == |lane.log| + 1 && after.log[..|lane.log|] == lane.log
                                          && Matches(after.log[|lane.log|], message)))
            && Handed(lane.log) + lane.waiting == Handed(after.log) + after.waiting
            && (end == Running || end == End.Stopped ==> |after.log| == |lane.log| + 1)
            && (after.log == lane.log ==> after == lane && end.Failed?)
  {
    hide Decoded, FdCount, Entries;
    var (after, end) := Process(side, lane, message, turns);
    if after.log != lane.log {
      var target := Lookup(side, lane.objects, message.header.objectId, message.header.opcode).value;
      var amount := FdCount(target.schema);
      var last := after.log[|lane.log|];
      assert after.log == lane.log + [last];
      HandedAppend(lane.log, last);
      assert lane.waiting == lane.waiting[..amount] + lane.waiting[amount..];
    }
  }

  /** Bytes and descriptors stay in step over any batch, with any mix of live and destroyed targets:
      the accepted messages are an initial stretch of the batch, each took exactly as many descriptors as
      its type declares, and together they took the front of the queue. */
  lemma {:induction false} LanesStayInStep(side: Side, lane: Lane, messages: seq<Message>, turns: nat -> Turn)
    ensures var (after, end) := Run(side, lane, messages, turns);
            && |lane.log| <= |after.log| <= |lane.log| + |messages|
            && after.log[..|lane.log|] == lane.log
            && (forall i :: |lane.log| <= i < |after.log| ==> Matches(after.log[i], messages[i - |lane.log|]))
            && Handed(lane.log) + lane.waiting == Handed(after.log) + after.waiting
            && (end.Running? ==> |after.log| == |lane.log| + |messages|)
    decreases |messages|
  {
    hide Process, Matches;
    if messages != [] {
      var (next, end) := Process(side, lane, messages[0], turns);
      ProcessKeepsStep(side, lane, messages[0], turns);
      if end.Running? {
        LanesStayInStep(side, next, messages[1..], turns);
        var after := Run(side, next, messages[1..], turns).0;
        assert after.log[..|lane.log|] == after.log[..|next.log|][..|lane.log|];
        assert after.log[|lane.log|] == after.log[..|next.log|][|lane.log|];
      }
    }
  }

  /** Dispatching batch by batch is dispatching the whole. */
  lemma {:induction false} RunAppend(
    side: Side, lane: Lane, first: seq<Message>, second: seq<Message>, turns: nat -> Turn)
    ensures var (middle, end) := Run(side, lane, first, turns);
            Run(side, lane, first + second, turns) ==
            if end.Running? then Run(side, middle, second, turns) else (middle, end)
    decreases |first|
  {
    hide Process;
    if first == [] {
      assert first + second == second;
    } else {
      assert (first + second)[0] == first[0] && (first + second)[1..] == first[1..] + second;
      var (next, end) := Process(side, lane, first[0], turns);
      if end.Running? {
        RunAppend(side, next, first[1..], second, turns);
      }
    }
  }

  /** A run ended for lack of descriptors. */
  predicate LacksFds(end: End) {
    end.Failed? && end.cause == Empty
  }

  lemma DecodedIgnoresMore(
    schema: SupportedSchema, payload: seq<byte>, objects: Option<Objects>, event: bool, waiting: seq<Fd>, more: seq<Fd>)
    requires Decoded(schema, payload, objects, event, waiting) != Err(Empty)
    ensures Decoded(schema, payload, objects, event, waiting + more)
            == Decoded(schema, payload, objects, event, waiting)
  {
    hide DecodeValues, CheckObjects, Merge, FdCount;
    if FdCount(schema) <= |waiting| {
      assert (waiting + more)[..FdCount(schema)] == waiting[..FdCount(schema)];
    }
  }

  lemma ProcessIgnoresMore(side: Side, lane: Lane, message: Message, turns: nat -> Turn, more: seq<Fd>)
    requires !LacksFds(Process(side, lane, message, turns).1)
    ensures var (after, end) := Process(side, lane, message, turns);
            Process(side, lane.(waiting := lane.waiting + more), message, turns)
            == (after.(waiting := after.waiting + more), end)
  {
    hide Entries, FdCount, Decoded, FindMessage;
    var found := Lookup(side, lane.objects, message.header.objectId, message.header.opcode);
    if found.Ok? {
      var schema := found.value.schema;
      if !found.value.entity.destroyed {
        DecodedIgnoresMore(schema, message.payload, Some(Entries(lane.objects)), side == Client, lane.waiting, more);
      }
      if FdCount(schema) <= |lane.waiting| {
        assert (lane.waiting + more)[..FdCount(schema)] == lane.waiting[..FdCount(schema)];
        assert (lane.waiting + more)[FdCount(schema)..] == lane.waiting[FdCount(schema)..] + more;
      }
    }
  }

  /** Descriptors that come early change nothing: unless a batch ended for lack of descriptors, it goes the same
      way with more of them behind the queue, and leaves those there. */
  lemma {:induction false} RunIgnoresMore(
    side: Side, lane: Lane, messages: seq<Message>, turns: nat -> Turn, more: seq<Fd>)
    requires !LacksFds(Run(side, lane, messages, turns).1)
    ensures var (after, end) := Run(side, lane, messages, turns);
            Run(side, lane.(waiting := lane.waiting + more), messages, turns)
            == (after.(waiting := after.waiting + more), end)
    decreases |messages|
  {
    hide Process;
    if messages != [] {
      ProcessIgnoresMore(side, lane, messages[0], turns, more);
      var (next, end) := Process(side, lane, messages[0], turns);
      if end.Running? {
        RunIgnoresMore(side, next, messages[1..], turns, more);
      }
    }
  }

  /** Two batches with descriptors arriving between them are one batch with all descriptors there at once. */
  lemma RunInterleaved(
    side: Side, lane: Lane, first: seq<Message>, more: seq<Fd>, second: seq<Message>, turns: nat -> Turn)
    requires Run(side, lane, first, turns).1 == Running
    ensures var middle := Run(side, lane, first, turns).0;
            Run(side, lane.(waiting := lane.waiting + more), first + second, turns)
            == Run(side, middle.(waiting := middle.waiting + more), second, turns)
  {
    hide Run;
    RunIgnoresMore(side, lane, first, turns, more);
    RunAppend(side, lane.(waiting := lane.waiting + more), first, second, turns);
  }

  // ---- completions

  /** The message in a complete frame. */
  function MessageOf(frame: seq<byte>): Message {
    match Wire.DecodeMessage(frame)
    case Ok(Some(message)) => message
    case _ => Message(Header(0, 0, 0), [])
  }

  function MessagesOf(frames: seq<seq<byte>>): (messages: seq<Message>)
    ensures |messages| == |frames|
  {
    if frames == [] then [] else [MessageOf(frames[0])] + MessagesOf(frames[1..])
  }

  /** What one receive completion brings: descriptors in its control data, and a stretch of the stream. */
  datatype Arrival = Arrival(fds: seq<Fd>, bytes: seq<byte>)

  /** Between completions a session is its lanes and the bytes of an incomplete message, unless an error has
      ended it: of a message when there is an id, otherwise of framing or of the descriptor budget. */
  datatype Session =
    | Live(lane: Lane, pending: seq<byte>)
    | Over(lane: Lane, objectId: Option<u32>, cause: Error)

  /** One completion: its descriptors join the queue, then its bytes are dispatched. When a handler stops,
      the rest of the buffer goes unread. */
  function Arrive(
    side: Side, capacity: nat, budget: nat, lane: Lane, pending: seq<byte>, arrival: Arrival, turns: nat -> Turn)
    : Session
  {
    if |lane.waiting| + |arrival.fds| > budget then Over(lane, None, DescriptorBudgetExceeded) else
    var parsed := Drain(capacity, pending, arrival.bytes);
    var (after, end) := Run(side, lane.(waiting := lane.waiting + arrival.fds), MessagesOf(parsed.frames), turns);
    match end
    case Failed(id, cause) => Over(after, Some(id), cause)
    case Stopped => Live(after, [])
    case Running =>
      match parsed.tail
      case Rest(left) => Live(after, left)
      case Stopped(cause, _) => Over(after, None, cause)
  }

  /** One completion after the other; nothing follows an error. */
  function ArriveAll(
    side: Side, capacity: nat, budget: nat, lane: Lane, pending: seq<byte>, arrivals: seq<Arrival>, turns: nat -> Turn)
    : Session
    decreases |arrivals|
  {
    if arrivals == [] then Live(lane, pending) else
    match Arrive(side, capacity, budget, lane, pending, arrivals[0], turns)
    case Over(after, id, cause) => Over(after, id, cause)
    case Live(after, left) => ArriveAll(side, capacity, budget, after, left, arrivals[1..], turns)
  }
}

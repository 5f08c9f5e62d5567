/** Typed requests and events of one client object, and what a destructor leaves behind. */
module Client {
  import opened Outcomes
  import opened Bytes
  import opened Wire
  import opened Codec
  import opened GeneratedCodec
  import opened Lanes
  import opened Transmit
  import Pool
  import Ancillary

  const SERVER_ID_START: u32 := 0xff00_0000

  datatype Handle = Handle(id: u32, generation: u32)

  /** The object a handle stands for, if it is alive and has the expected interface. */
  function Resolve(objects: Namespace, handle: Handle, declared: Interface): Result<Object, Error> {
    if handle.id !in objects || objects[handle.id].generation != handle.generation then Err(StaleHandle)
    else if objects[handle.id].destroyed then Err(DestroyedObject)
    else if objects[handle.id].interface != declared then Err(WrongInterface)
    else Ok(objects[handle.id])
  }

  /** A destroyed client object stays behind as a tombstone; a server object is gone at once. */
  function Retired(objects: Namespace, id: u32): Namespace {
    if id >= SERVER_ID_START then objects - {id}
    else if id in objects then objects[id := objects[id].(destroyed := true)]
    else objects
  }

  /** Object arguments of a request, checked before anything is encoded. */
  function CheckRequest(objects: Namespace, schema: Schema, values: seq<Value>): Result<(), Error>
    requires Typed(schema, values) && AllSupported(schema)
  {
    if schema == [] then Ok(()) else
    assert schema[0] in schema;
    match CheckObject(Entries(objects), false, schema[0], values[0])
    case Err(e) => Err(e)
    case Ok(_) => CheckRequest(objects, schema[1..], values[1..])
  }

  /** Argument `i` is the first that does not name a live object of the declared interface, and the error
      says in which way. */
  ghost predicate FirstRefused(objects: Namespace, schema: Schema, values: seq<Value>, i: nat, error: Error)
    requires |values| == |schema|
  {
    && i < |schema| && schema[i].kind == ObjectArg && values[i].IdValue? && values[i].id.Some?
    && !Resolves(Some(Entries(objects)), schema[i], values[i])
    && (forall j :: 0 <= j < i ==> Resolves(Some(Entries(objects)), schema[j], values[j]))
    && var id := values[i].id.value;
       error == if id in objects && !objects[id].destroyed then WrongInterface else UnknownObject
  }

  method ValidateRequest(objects: Namespace, schema: Schema, values: seq<Value>) returns (r: Result<(), Error>)
    requires Typed(schema, values) && AllSupported(schema)
    ensures r == CheckRequest(objects, schema, values)
    ensures r.Ok? <==> AllResolve(Some(Entries(objects)), schema, values)
    ensures r.Err? ==> exists i :: FirstRefused(objects, schema, values, i, r.error)
  {
    hide CheckObject, Entries, HasType, Resolves;
    assert schema[0..] == schema && values[0..] == values;
    for i := 0 to |schema|
      invariant CheckRequest(objects, schema, values) == CheckRequest(objects, schema[i..], values[i..])
      invariant forall j :: 0 <= j < i ==> Resolves(Some(Entries(objects)), schema[j], values[j])
    {
      assert schema[i..][1..] == schema[i + 1..] && values[i..][1..] == values[i + 1..];
      ObjectsAreIds(schema[i], values[i]);
      AcceptedResolves(objects, schema[i], values[i]);
      var checked := CheckObject(Entries(objects), false, schema[i], values[i]);
      if checked.Err? {
        assert FirstRefused(objects, schema, values, i, checked.error);
        return Err(checked.error);
      }
    }
    return Ok(());
  }

  lemma AcceptedResolves(objects: Namespace, a: Argument, v: Value)
    requires a.kind == ObjectArg ==> v.IdValue?
    ensures var checked := CheckObject(Entries(objects), false, a, v);
            && (checked.Ok? <==> Resolves(Some(Entries(objects)), a, v))
            && (checked.Err? ==>
                  && a.kind == ObjectArg && v.id.Some?
                  && checked.error == if v.id.value in objects && !objects[v.id.value].destroyed then WrongInterface
                                      else UnknownObject)
  {}

  lemma ObjectsAreIds(a: Argument, v: Value)
    requires HasType(a, v) && a.Supported()
    ensures a.kind == ObjectArg ==> v.IdValue?
  {}

  /** The request to encode, or the first reason to refuse it. */
  function Requested(
    declared: Interface, objects: Namespace, handle: Handle, opcode: u16, values: seq<Value>)
    : (r: Result<MessageType, Error>)
    requires opcode < |declared.requests| && Typed(declared.requests[opcode].schema, values)
  {
    match Resolve(objects, handle, declared)
    case Err(e) => Err(e)
    case Ok(entity) =>
      match FindMessage(declared, declared.requests, opcode, entity.version)
      case Err(e) => Err(e)
      case Ok(request) =>
        match CheckRequest(objects, request.schema, values)
        case Err(e) => Err(e)
        case Ok(_) => Ok(request)
  }

  /** `sendRequest`: the object is retired only after the whole frame is queued; a failure at any point
      leaves the queue and the namespace as they were. */
  method SendRequest(
    declared: Interface, objects: Namespace, queue: Queue, handle: Handle, opcode: u16, values: seq<Value>)
    returns (r: Result<(), Error>, after: Namespace)
    requires queue.Valid() && handle.id > 1
    requires opcode < |declared.requests| && Typed(declared.requests[opcode].schema, values)
    modifies queue
    ensures queue.Valid() && queue.active == old(queue.active)
    ensures r.Err? ==>
              queue.bytes == old(queue.bytes) && queue.descriptors == old(queue.descriptors) && after == objects
    ensures match Requested(declared, objects, handle, opcode, values)
            case Err(e) => r == Err(e)
            case Ok(request) =>
              && (MessageSize(request.schema, values).Err? ==> r == Err(MessageSize(request.schema, values).error))
              && (r.Ok? ==>
                    && MessageSize(request.schema, values).Ok?
                    && queue.bytes == old(queue.bytes) + Frame(request.schema, opcode, handle.id, values)
                    && queue.descriptors == old(queue.descriptors) + FdsOf(request.schema, values)
                    && after == if request.destructor then Retired(objects, handle.id) else objects)
  {
    hide Frame, MessageSize, CheckRequest, HasType, FdsOf;
    after := objects;
    var target: Object;
    match Resolve(objects, handle, declared) {
      case Err(e) => return Err(e), after;
      case Ok(entity) => target := entity;
    }
    var request: MessageType;
    match FindMessage(target.interface, target.interface.requests, opcode, target.version) {
      case Err(e) => return Err(e), after;
      case Ok(found) => request := found;
    }
    r := ValidateRequest(objects, request.schema, values);
    if r.Err? {
      return;
    }
    r := EncodeMessage(request.schema, opcode, queue, handle.id, values);
    if r.Ok? && request.destructor {
      after := Retired(objects, handle.id);
    }
  }

  /** What `decodeEvent` decodes, or why it refuses to look at the message. */
  function EventType(
    declared: Interface, objects: Namespace, handle: Handle, message: Message): Result<MessageType, Error>
  {
    if message.header.objectId != handle.id then Err(WrongObject) else
    match Resolve(objects, handle, declared)
    case Err(e) => Err(e)
    case Ok(entity) => FindMessage(declared, declared.events, message.header.opcode, entity.version)
  }

  /** `decodeEvent`: a destructor event retires its object, and only once it is decoded; a failure at any
      point leaves the descriptor queue and the namespace as they were. */
  method DecodeEvent(
    declared: Interface, objects: Namespace, handle: Handle, message: Message, queue: Ancillary.FdQueue)
    returns (r: Result<seq<Value>, Error>, after: Namespace)
    requires queue.Valid() && handle.id > 1
    modifies queue, queue.pool
    ensures queue.Valid() && queue.OnlyMine()
    ensures r.Err? ==> queue.Contents() == old(queue.Contents()) && after == objects
    ensures match EventType(declared, objects, handle, message)
            case Err(e) => r == Err(e)
            case Ok(event) =>
              && r == Decoded(event.schema, message.payload, Some(Entries(objects)), true, old(queue.Contents()))
              && (r.Ok? ==> queue.Contents() == old(queue.Contents())[FdCount(event.schema)..]
                            && after == if event.destructor then Retired(objects, handle.id) else objects)
  {
    hide Pool.Consistent, Ancillary.OwnChange, Ancillary.Chained, Ancillary.Fds, Decoded, Entries, FdCount,
         Retired, EventType;
    Ancillary.OwnChangeNone(queue.pool.nodes, queue.pool.nodes, queue.chain);
    after := objects;
    var event: MessageType;
    match EventType(declared, objects, handle, message) {
      case Err(e) => return Err(e), after;
      case Ok(found) => event := found;
    }
    r := GeneratedCodec.DecodeMessage(event.schema, message.payload, Some(Entries(objects)), true, queue);
    if r.Ok? && event.destructor {
      after := Retired(objects, handle.id);
    }
  }

  /** A retired client object keeps the lanes in step: later events to it are dropped together with exactly
      their descriptors, without a handler. A retired server object is unknown from then on. */
  lemma RetiredKeepsLanes(lane: Lane, id: u32, message: Message, turns: nat -> Turn)
    requires id in lane.objects && message.header.objectId == id
    ensures var retired := lane.(objects := Retired(lane.objects, id));
            var (after, end) := Process(Side.Client, retired, message, turns);
            var found := Lookup(Side.Client, lane.objects, id, message.header.opcode);
            && (id >= SERVER_ID_START ==> after == retired && end == Failed(id, UnknownObject))
            && (id < SERVER_ID_START && found.Err? ==> after == retired && end == Failed(id, found.error))
            && (id < SERVER_ID_START && found.Ok? ==>
                  var amount := FdCount(found.value.schema);
                  if |lane.waiting| < amount then after == retired && end == Failed(id, Empty)
                  else
                    && end == Running && after.waiting == lane.waiting[amount..]
                    && after.objects == retired.objects && after.count == lane.count
                    && after.log == lane.log + [Delivery(id, message.header.opcode, found.value.schema,
                                                         lane.waiting[..amount], None)])
  {
    hide FdCount, Decoded, Entries;
  }
}

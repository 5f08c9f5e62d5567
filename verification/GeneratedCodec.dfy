/** The generated encoders and decoders at work on a transmit queue and a descriptor queue. */
module GeneratedCodec {
  import opened Outcomes
  import opened Bytes
  import opened Wire
  import opened Codec
  import opened CodecProofs
  import opened Transmit
  import Pool
  import Ancillary

  // ---- encoding

  ghost function Frame(schema: Schema, opcode: u16, objectId: u32, values: seq<Value>): seq<byte>
    requires Typed(schema, values) && AllSupported(schema) && MessageSize(schema, values).Ok? && objectId != 0
  {
    MessageSizeIsExact(schema, values);
    var size := MessageSize(schema, values).value;
    EncodeHeader(Header(objectId, opcode, size)).value + EncodeValues(schema, values)
  }

  method WriteWord(reservation: Reservation, v: u32) returns (r: Result<(), Error>)
    requires |reservation.written| <= reservation.byteCount && !reservation.finished
    requires |reservation.written| + 4 <= reservation.byteCount
    modifies reservation`written
    ensures r.Ok? && reservation.written == old(reservation.written) + WriteU32(v)
  {
    r := reservation.Write(WriteU32(v));
  }

  method WriteText(reservation: Reservation, text: Option<seq<byte>>) returns (r: Result<(), Error>)
    requires !reservation.finished && (text.Some? ==> |text.value| < U32_MAX)
    requires |reservation.written| + |EncodeText(text)| <= reservation.byteCount
    modifies reservation`written
    ensures r.Ok? && reservation.written == old(reservation.written) + EncodeText(text)
  {
    hide WriteU32;
    match text {
      case None =>
        r := WriteWord(reservation, 0);
      case Some(bytes) =>
        var wireLen := |bytes| + 1;
        r := WriteWord(reservation, wireLen);
        r := reservation.Write(bytes);
        r := reservation.Write([0] + Padding(wireLen));
    }
  }

  method WriteBytes(reservation: Reservation, data: Option<seq<byte>>) returns (r: Result<(), Error>)
    requires !reservation.finished && (data.Some? ==> |data.value| <= U32_MAX)
    requires |reservation.written| + |EncodeBytes(data)| <= reservation.byteCount
    modifies reservation`written
    ensures r.Ok? && reservation.written == old(reservation.written) + EncodeBytes(data)
  {
    hide WriteU32;
    var bytes := if data.Some? then data.value else [];
    r := WriteWord(reservation, |bytes|);
    r := reservation.Write(bytes);
    r := reservation.Write(Padding(|bytes|));
  }

  method WriteArgument(reservation: Reservation, a: Argument, v: Value) returns (r: Result<(), Error>)
    requires HasType(a, v) && a.Supported() && ArgumentSize(a, v).Ok? && !reservation.finished
    requires |reservation.written| + |EncodeArgument(a, v)| <= reservation.byteCount
    modifies reservation`written
    ensures r.Ok? && reservation.written == old(reservation.written) + EncodeArgument(a, v)
  {
    hide WriteU32, EncodeText, EncodeBytes;
    if a.kind == FdArg {
      return Ok(());
    }
    if a.Dynamic() {
      r := WriteText(reservation, Some(v.name));
      r := WriteWord(reservation, v.version);
      r := WriteWord(reservation, v.newId);
      return;
    }
    if a.enumeration.Some? {
      r := WriteWord(reservation, ToWire(a.enumeration.value, v.number));
      return;
    }
    match a.kind {
      case IntArg | FixedArg => r := WriteWord(reservation, ToUnsigned(v.signed));
      case UintArg => r := WriteWord(reservation, v.unsigned);
      case ObjectArg | NewIdArg => r := WriteWord(reservation, if v.id.Some? then v.id.value else 0);
      case StringArg => r := WriteText(reservation, v.text);
      case ArrayArg => r := WriteBytes(reservation, v.bytes);
      case FdArg => r := Ok(());
    }
  }

  /** The emitted size function. */
  method Preflight(schema: Schema, values: seq<Value>) returns (r: Result<nat, Error>)
    requires Typed(schema, values) && AllSupported(schema)
    ensures r == MessageSize(schema, values)
  {
    hide HasType, ArgumentSize;
    var size: nat := HEADER_LEN;
    assert schema[0..] == schema && values[0..] == values;
    for i := 0 to |schema|
      invariant SizeFrom(schema, values, HEADER_LEN) == SizeFrom(schema[i..], values[i..], size)
    {
      assert schema[i..][1..] == schema[i + 1..] && values[i..][1..] == values[i + 1..];
      match ArgumentSize(schema[i], values[i]) {
        case Err(e) =>
          return Err(e);
        case Ok(n) =>
          if size + n > USIZE_MAX {
            return Err(SumError(schema[i], values[i], size, n));
          }
          size := size + n;
      }
    }
    if size > MAX_MESSAGE_LEN {
      return Err(MessageTooLarge);
    }
    return Ok(size);
  }

  lemma {:induction false} SplitEncoding(schema: Schema, values: seq<Value>, i: nat)
    requires Encodable(schema, values) && i < |schema|
    ensures Encodable(schema[i..], values[i..]) && Encodable(schema[i + 1..], values[i + 1..])
    ensures EncodeValues(schema[i..], values[i..]) ==
            EncodeArgument(schema[i], values[i]) + EncodeValues(schema[i + 1..], values[i + 1..])
  {
    hide HasType, ArgumentSize, EncodeArgument;
    assert schema[i..][1..] == schema[i + 1..] && values[i..][1..] == values[i + 1..];
  }

  /** Writes the arguments in order; the reservation is filled exactly. */
  method WriteArguments(reservation: Reservation, schema: Schema, values: seq<Value>)
    requires Encodable(schema, values) && !reservation.finished
    requires |reservation.written| + |EncodeValues(schema, values)| == reservation.byteCount
    modifies reservation`written
    ensures reservation.written == old(reservation.written) + EncodeValues(schema, values)
  {
    hide HasType, ArgumentSize, EncodeArgument;
    for i := 0 to |schema|
      invariant Encodable(schema[i..], values[i..])
      invariant reservation.written + EncodeValues(schema[i..], values[i..]) ==
                old(reservation.written) + EncodeValues(schema, values)
    {
      SplitEncoding(schema, values, i);
      var written := WriteArgument(reservation, schema[i], values[i]);
    }
  }

  /** The emitted encoder: either the whole message and its descriptors are queued, or the queue is
      as before. The reservation never overflows and is never left short. */
  method EncodeMessage(schema: Schema, opcode: u16, queue: Queue, objectId: u32, values: seq<Value>)
    returns (r: Result<(), Error>)
    requires queue.Valid() && Typed(schema, values) && AllSupported(schema)
    modifies queue
    ensures queue.Valid() && queue.active == old(queue.active)
    ensures r == Err(NullSender) <==> objectId == 0
    ensures objectId != 0 && MessageSize(schema, values).Err? ==> r == Err(MessageSize(schema, values).error)
    ensures r.Ok? ==>
              && objectId != 0 && MessageSize(schema, values).Ok?
              && queue.bytes == old(queue.bytes) + Frame(schema, opcode, objectId, values)
              && queue.descriptors == old(queue.descriptors) + FdsOf(schema, values)
              && !queue.reservationActive
    ensures r.Err? ==> queue.bytes == old(queue.bytes) && queue.descriptors == old(queue.descriptors)
                       && queue.reservationActive == old(queue.reservationActive)
    ensures r.Err? && objectId != 0 && MessageSize(schema, values).Ok? ==>
              r.error in {ReservationActive, ByteBudgetExceeded, DescriptorBudgetExceeded,
                          OutOfMemory, CapacityOverflow}
  {
    hide SizeFrom, EncodeValues, HasType, ArgumentSize, EncodeHeader;
    if objectId == 0 {
      return Err(NullSender);
    }
    assert MessageSize(schema, values) != Err(NullSender) by { SizeErrors(schema, values); }
    var size: nat;
    var preflight := Preflight(schema, values);
    match preflight {
      case Err(e) => return Err(e);
      case Ok(s) => size := s;
    }
    MessageSizeIsExact(schema, values);
    var reserved := queue.Reserve(size);
    if reserved.Err? {
      return Err(reserved.error);
    }
    var reservation := reserved.value;
    var header := EncodeHeader(Header(objectId, opcode, size));
    assert header.Ok? by { HeaderEncodes(objectId, opcode, size); }
    var written := reservation.Write(header.value);
    WriteArguments(reservation, schema, values);
    assert [] + header.value == header.value;
    r := reservation.Commit(FdsOf(schema, values));
    if r.Err? {
      reservation.Abort();
    }
  }

  lemma HeaderEncodes(objectId: u32, opcode: u16, size: u16)
    requires objectId != 0 && size >= HEADER_LEN && size % 4 == 0
    ensures EncodeHeader(Header(objectId, opcode, size)).Ok?
  {}

  lemma {:induction false} SizeErrors(schema: Schema, values: seq<Value>)
    requires Typed(schema, values) && AllSupported(schema)
    ensures MessageSize(schema, values) != Err(NullSender)
  {
    SizeFromErrors(schema, values, HEADER_LEN);
  }

  lemma {:induction false} SizeFromErrors(schema: Schema, values: seq<Value>, size: nat)
    requires Typed(schema, values) && AllSupported(schema)
    ensures SizeFrom(schema, values, size) != Err(NullSender)
    decreases |schema|
  {
    if schema != [] && ArgumentSize(schema[0], values[0]).Ok? {
      SizeFromErrors(schema[1..], values[1..], size + ArgumentSize(schema[0], values[0]).value);
    }
  }

  // ---- decoding

  /** What a connection's namespace knows of an object. */
  datatype Entry = Entry(interface: string, destroyed: bool)

  type Objects = map<u32, Entry>

  /** Validation of one decoded object argument. In events a destroyed object reads as null. */
  function CheckObject(objects: Objects, event: bool, a: Argument, v: Value): Result<Value, Error>
    requires a.kind == ObjectArg ==> v.IdValue?
  {
    if a.kind != ObjectArg || v.id.None? then Ok(v)
    else if v.id.value !in objects then Err(UnknownObject)
    else
      var entry := objects[v.id.value];
      if entry.destroyed then
        if event then Ok(IdValue(if a.allowNull then None else Some(0))) else Err(UnknownObject)
      else if a.interface.Some? && a.interface.value != entry.interface then Err(WrongInterface)
      else Ok(v)
  }

  function CheckObjects(
    objects: Objects, event: bool, schema: Schema, values: seq<Value>): (r: Result<seq<Value>, Error>)
    requires |values| == |schema|
    requires forall i :: 0 <= i < |schema| && schema[i].kind == ObjectArg ==> values[i].IdValue?
    ensures r.Ok? ==> |r.value| == |schema|
  {
    if schema == [] then Ok([]) else
    match CheckObject(objects, event, schema[0], values[0])
    case Err(e) => Err(e)
    case Ok(v) =>
      match CheckObjects(objects, event, schema[1..], values[1..])
      case Err(e) => Err(e)
      case Ok(vs) => Ok([v] + vs)
  }

  /** The fields of the decoded message: byte-carrying values and descriptors in schema order. */
  function Merge(schema: Schema, plain: seq<Value>, fds: seq<Fd>): (values: seq<Value>)
    requires |plain| == |Plain(schema)| && |fds| == FdCount(schema)
    ensures |values| == |schema|
  {
    if schema == [] then []
    else if schema[0].kind == FdArg then [FdValue(fds[0])] + Merge(schema[1..], plain, fds[1..])
    else
      assert Plain(schema)[1..] == Plain(schema[1..]);
      [plain[0]] + Merge(schema[1..], plain[1..], fds)
  }

  lemma {:induction false} DecodedLength(schema: Schema, bytes: seq<byte>)
    requires AllSupported(schema) && DecodeValues(schema, bytes).Ok?
    ensures |DecodeValues(schema, bytes).value| == |Plain(schema)|
    ensures forall i :: 0 <= i < |Plain(schema)| && Plain(schema)[i].kind == ObjectArg ==>
              DecodeValues(schema, bytes).value[i].IdValue?
    decreases |schema|
  {
    hide DecodeArgument;
    if schema != [] {
      if schema[0].kind == FdArg {
        DecodedLength(schema[1..], bytes);
        assert Plain(schema) == Plain(schema[1..]);
      } else {
        var read := DecodeArgument(schema[0], bytes).value;
        DecodedLength(schema[1..], read.rest);
        ObjectsReadAsIds(schema[0], bytes);
      }
    }
  }

  lemma ObjectsReadAsIds(a: Argument, bytes: seq<byte>)
    requires a.Supported() && a.kind != FdArg && DecodeArgument(a, bytes).Ok?
    ensures a.kind == ObjectArg ==> DecodeArgument(a, bytes).value.value.IdValue?
  {}

  /** The emitted decoder as a function of the payload and the waiting descriptors. */
  function Decoded(
    schema: Schema, payload: seq<byte>, objects: Option<Objects>, event: bool, waiting: seq<Fd>)
    : (r: Result<seq<Value>, Error>)
    requires AllSupported(schema)
    ensures r.Ok? ==> FdCount(schema) <= |waiting|
  {
    match DecodeValues(schema, payload)
    case Err(e) => Err(e)
    case Ok(plain) =>
      DecodedLength(schema, payload);
      var checked := if objects.Some? then CheckObjects(objects.value, event, Plain(schema), plain) else Ok(plain);
      match checked
      case Err(e) => Err(e)
      case Ok(values) =>
        if |waiting| < FdCount(schema) then Err(Empty)
        else Ok(Merge(schema, values, waiting[..FdCount(schema)]))
  }

  /** Reads the byte-carrying arguments one after the other. */
  method ReadValues(schema: Schema, payload: seq<byte>) returns (r: Result<seq<Value>, Error>)
    requires AllSupported(schema)
    ensures r == DecodeValues(schema, payload)
  {
    hide DecodeArgument;
    var values, cursor := [], payload;
    assert schema[0..] == schema;
    PrependNone(DecodeValues(schema, payload));
    for i := 0 to |schema|
      invariant DecodeValues(schema, payload) == Prepend(values, DecodeValues(schema[i..], cursor))
    {
      assert schema[i..][1..] == schema[i + 1..];
      if schema[i].kind != FdArg {
        match DecodeArgument(schema[i], cursor) {
          case Err(e) =>
            return Err(e);
          case Ok(Read(v, rest)) =>
            PrependOne(values, v, DecodeValues(schema[i + 1..], rest));
            values, cursor := values + [v], rest;
        }
      }
    }
    if cursor != [] {
      return Err(TrailingArguments);
    }
    assert values + [] == values;
    return Ok(values);
  }

  ghost function Prepend(values: seq<Value>, r: Result<seq<Value>, Error>): Result<seq<Value>, Error> {
    match r
    case Err(e) => Err(e)
    case Ok(more) => Ok(values + more)
  }

  lemma PrependNone(r: Result<seq<Value>, Error>)
    ensures Prepend([], r) == r
  {
    if r.Ok? {
      assert [] + r.value == r.value;
    }
  }

  lemma PrependOne(values: seq<Value>, v: Value, r: Result<seq<Value>, Error>)
    ensures Prepend(values, Prepend([v], r)) == Prepend(values + [v], r)
  {
    if r.Ok? {
      assert values + ([v] + r.value) == values + [v] + r.value;
    }
  }

  /** Takes the message's descriptors off the front of the queue. */
  method PopFds(queue: Ancillary.FdQueue, amount: nat) returns (fds: seq<Fd>)
    requires queue.Valid() && amount <= queue.count
    modifies queue, queue.pool
    ensures queue.Valid() && queue.OnlyMine()
    ensures |fds| == amount && old(queue.Contents()) == fds + queue.Contents()
  {
    hide Pool.Consistent, Ancillary.OwnChange, Ancillary.Chained, Ancillary.Fds;
    Ancillary.OwnChangeNone(queue.pool.nodes, queue.pool.nodes, queue.chain);
    fds := [];
    for i := 0 to amount
      invariant queue.Valid() && queue.OnlyMine()
      invariant |fds| == i && queue.count == old(queue.count) - i
      invariant old(queue.Contents()) == fds + queue.Contents()
    {
      label Before:
      var fd := queue.Pop();
      Ancillary.OwnChangeThen(old(queue.pool.nodes), old@Before(queue.pool.nodes), queue.pool.nodes,
                              old(queue.chain), old@Before(queue.chain), queue.chain);
      fds := fds + [fd.value];
    }
  }

  /** The emitted decoder. A decode that fails for any reason leaves the descriptor queue as it was; a
      success removes exactly the message's descriptors from its front. */
  method DecodeMessage(
    schema: Schema, payload: seq<byte>, objects: Option<Objects>, event: bool, queue: Ancillary.FdQueue)
    returns (r: Result<seq<Value>, Error>)
    requires queue.Valid() && AllSupported(schema)
    modifies queue, queue.pool
    ensures queue.Valid() && queue.OnlyMine()
    ensures r == Decoded(schema, payload, objects, event, old(queue.Contents()))
    ensures queue.Contents() == if r.Ok? then old(queue.Contents())[FdCount(schema)..] else old(queue.Contents())
  {
    hide Pool.Consistent, Ancillary.OwnChange, Ancillary.Chained, Ancillary.Fds, DecodeValues, CheckObjects, Merge,
         FdCount;
    Ancillary.OwnChangeNone(queue.pool.nodes, queue.pool.nodes, queue.chain);
    var values: seq<Value>;
    var plain := ReadValues(schema, payload);
    match plain {
      case Err(e) => return Err(e);
      case Ok(vs) => values := vs;
    }
    DecodedLength(schema, payload);
    if objects.Some? {
      match CheckObjects(objects.value, event, Plain(schema), values) {
        case Err(e) => return Err(e);
        case Ok(vs) => values := vs;
      }
    }
    var fdCount := FdCount(schema);
    if queue.count < fdCount {
      return Err(Empty);
    }
    var fds := PopFds(queue, fdCount);
    assert old(queue.Contents())[..fdCount] == fds && old(queue.Contents())[fdCount..] == queue.Contents();
    return Ok(Merge(schema, values, fds));
  }

  // ---- round trip

  /** The object a value names exists on the receiving side, alive and with the declared interface. */
  ghost predicate Resolves(objects: Option<Objects>, a: Argument, v: Value) {
    objects.Some? && a.kind == ObjectArg ==>
      v.IdValue? && (v.id.Some? ==>
        v.id.value in objects.value && !objects.value[v.id.value].destroyed
        && (a.interface.Some? ==> a.interface.value == objects.value[v.id.value].interface))
  }

  ghost predicate AllResolve(objects: Option<Objects>, schema: Schema, values: seq<Value>)
    requires |values| == |schema|
  {
    forall i :: 0 <= i < |schema| ==> Resolves(objects, schema[i], values[i])
  }

  /** Objects that all resolve pass validation as they are. */
  lemma {:induction false} LiveObjectsPass(objects: Objects, event: bool, schema: Schema, values: seq<Value>)
    requires |values| == |schema| && AllResolve(Some(objects), schema, values)
    ensures CheckObjects(objects, event, schema, values) == Ok(values)
    decreases |schema|
  {
    hide Resolves, CheckObject;
    if schema != [] {
      forall i | 0 <= i < |schema| - 1 ensures Resolves(Some(objects), schema[1..][i], values[1..][i]) {
        assert Resolves(Some(objects), schema[i + 1], values[i + 1]);
      }
      LiveObjectPasses(objects, event, schema[0], values[0]);
      LiveObjectsPass(objects, event, schema[1..], values[1..]);
      assert [values[0]] + values[1..] == values;
    }
  }

  lemma LiveObjectPasses(objects: Objects, event: bool, a: Argument, v: Value)
    requires Resolves(Some(objects), a, v)
    ensures (a.kind == ObjectArg ==> v.IdValue?) && CheckObject(objects, event, a, v) == Ok(v)
  {}

  /** An event's object argument is accepted when its object is known and, while alive, has the declared
      interface. */
  ghost predicate EventKnows(objects: Objects, a: Argument, v: Value)
    requires a.kind == ObjectArg ==> v.IdValue?
  {
    a.kind == ObjectArg && v.id.Some? ==>
      && v.id.value in objects
      && var entry := objects[v.id.value];
         entry.destroyed || a.interface.None? || a.interface.value == entry.interface
  }

  /** What a handler is given for it: a destroyed object reads as null, or as 0 where null is not allowed. */
  function EventReads(objects: Objects, a: Argument, v: Value): Value
    requires a.kind == ObjectArg ==> v.IdValue?
  {
    if a.kind == ObjectArg && v.id.Some? && v.id.value in objects && objects[v.id.value].destroyed then
      IdValue(if a.allowNull then None else Some(0))
    else v
  }

  /** Validation of an event, argument by argument. */
  lemma {:induction false} EventObjects(objects: Objects, schema: Schema, values: seq<Value>)
    requires |values| == |schema|
    requires forall i :: 0 <= i < |schema| && schema[i].kind == ObjectArg ==> values[i].IdValue?
    ensures var checked := CheckObjects(objects, true, schema, values);
            && (checked.Ok? <==> forall i :: 0 <= i < |schema| ==> EventKnows(objects, schema[i], values[i]))
            && (checked.Ok? ==>
                  forall i :: 0 <= i < |schema| ==> checked.value[i] == EventReads(objects, schema[i], values[i]))
    decreases |schema|
  {
    hide CheckObject, EventKnows, EventReads;
    if schema != [] {
      EventObjects(objects, schema[1..], values[1..]);
      EventObject(objects, schema[0], values[0]);
      forall i | 0 < i < |schema| ensures schema[i] == schema[1..][i - 1] && values[i] == values[1..][i - 1] {}
      forall i | 0 <= i < |schema| - 1 ensures schema[1..][i] == schema[i + 1] && values[1..][i] == values[i + 1] {}
    }
  }

  lemma EventObject(objects: Objects, a: Argument, v: Value)
    requires a.kind == ObjectArg ==> v.IdValue?
    ensures var checked := CheckObject(objects, true, a, v);
            && (checked.Ok? <==> EventKnows(objects, a, v))
            && (checked.Ok? ==> checked.value == EventReads(objects, a, v))
  {}

  /** Validation looks at byte-carrying arguments only, so it may come before or after the descriptors. */
  lemma {:induction false} CheckSplits(objects: Objects, event: bool, schema: Schema, values: seq<Value>)
    requires |values| == |schema|
    requires forall i :: 0 <= i < |schema| && schema[i].kind == ObjectArg ==> values[i].IdValue?
    ensures var plain := PlainValues(schema, values);
            && |plain| == |Plain(schema)|
            && (forall i :: 0 <= i < |plain| && Plain(schema)[i].kind == ObjectArg ==> plain[i].IdValue?)
            && CheckObjects(objects, event, Plain(schema), plain) ==
               match CheckObjects(objects, event, schema, values)
               case Err(e) => Err(e)
               case Ok(checked) => Ok(PlainValues(schema, checked))
    ensures var checked := CheckObjects(objects, event, schema, values);
            checked.Ok? ==>
              forall i :: 0 <= i < |schema| && schema[i].kind != ObjectArg ==> checked.value[i] == values[i]
    decreases |schema|
  {
    hide CheckObject, Plain, PlainValues;
    if schema == [] {
      assert Plain(schema) == [] && PlainValues(schema, values) == [] by { PlainNothing(schema, values); }
    } else {
      CheckSplits(objects, event, schema[1..], values[1..]);
      PlainStep(schema, values);
      var first := CheckObject(objects, event, schema[0], values[0]);
      var rest := CheckObjects(objects, event, schema[1..], values[1..]);
      OthersPass(objects, event, schema[0], values[0]);
      if first.Ok? && rest.Ok? {
        var checked := [first.value] + rest.value;
        assert CheckObjects(objects, event, schema, values) == Ok(checked) && checked[1..] == rest.value;
        PlainStep(schema, checked);
      }
    }
  }

  lemma PlainNothing(schema: Schema, values: seq<Value>)
    requires schema == [] && values == []
    ensures Plain(schema) == [] && PlainValues(schema, values) == []
  {}

  lemma OthersPass(objects: Objects, event: bool, a: Argument, v: Value)
    requires a.kind == ObjectArg ==> v.IdValue?
    ensures a.kind != ObjectArg ==> CheckObject(objects, event, a, v) == Ok(v)
  {}

  lemma PlainStep(schema: Schema, values: seq<Value>)
    requires |values| == |schema| > 0
    ensures var plain, rest := PlainValues(schema, values), PlainValues(schema[1..], values[1..]);
            if schema[0].kind == FdArg then Plain(schema) == Plain(schema[1..]) && plain == rest
            else
              && Plain(schema) == [schema[0]] + Plain(schema[1..]) && Plain(schema)[1..] == Plain(schema[1..])
              && plain == [values[0]] + rest && plain[1..] == rest
  {}

  /** Byte-carrying values and descriptors, taken apart, are put together again in schema order. */
  lemma {:induction false} MergeSplit(schema: Schema, values: seq<Value>, seen: seq<Value>)
    requires Typed(schema, values) && AllSupported(schema) && |seen| == |schema|
    requires forall i :: 0 <= i < |schema| && schema[i].kind == FdArg ==> seen[i] == values[i]
    ensures |FdsOf(schema, values)| == FdCount(schema)
    ensures |PlainValues(schema, seen)| == |Plain(schema)|
    ensures Merge(schema, PlainValues(schema, seen), FdsOf(schema, values)) == seen
    decreases |schema|
  {
    hide HasType, Merge, FdsOf, FdCount, Plain, PlainValues, Typed, AllSupported;
    if schema == [] {
      MergeNothing(values);
    } else {
      var fds, plain := FdsOf(schema, values), PlainValues(schema, seen);
      FdsFirst(schema, values);
      PlainStep(schema, seen);
      forall i | 0 <= i < |schema| - 1 && schema[1..][i].kind == FdArg ensures seen[1..][i] == values[1..][i] {
        assert schema[i + 1].kind == FdArg;
      }
      MergeSplit(schema[1..], values[1..], seen[1..]);
      MergeFirst(schema, plain, fds);
      assert schema[0].kind == FdArg ==> fds[1..] == FdsOf(schema[1..], values[1..]);
    }
  }

  lemma MergeNothing(values: seq<Value>)
    requires Typed([], values)
    ensures FdsOf([], values) == [] && FdCount([]) == 0 && Plain([]) == [] && PlainValues([], []) == []
    ensures Merge([], [], []) == []
  {}

  lemma MergeFirst(schema: Schema, plain: seq<Value>, fds: seq<Fd>)
    requires schema != [] && |plain| == |Plain(schema)| && |fds| == FdCount(schema)
    ensures if schema[0].kind == FdArg then
              && fds != [] && Plain(schema) == Plain(schema[1..]) && |fds[1..]| == FdCount(schema[1..])
              && Merge(schema, plain, fds) == [FdValue(fds[0])] + Merge(schema[1..], plain, fds[1..])
            else
              && plain != [] && Plain(schema) == [schema[0]] + Plain(schema[1..]) && |fds| == FdCount(schema[1..])
              && |plain[1..]| == |Plain(schema[1..])|
              && Merge(schema, plain, fds) == [plain[0]] + Merge(schema[1..], plain[1..], fds)
  {}

  lemma FdsFirst(schema: Schema, values: seq<Value>)
    requires Typed(schema, values) && AllSupported(schema) && schema != []
    ensures |values| == |schema| && Typed(schema[1..], values[1..]) && AllSupported(schema[1..])
    ensures HasType(schema[0], values[0]) && schema[0].Supported()
    ensures if schema[0].kind == FdArg then
              && values[0].FdValue? && FdCount(schema) == 1 + FdCount(schema[1..])
              && FdsOf(schema, values) == [values[0].fd] + FdsOf(schema[1..], values[1..])
            else FdCount(schema) == FdCount(schema[1..]) && FdsOf(schema, values) == FdsOf(schema[1..], values[1..])
  {
    hide HasType;
    FdIsNormal(schema[0], values[0]);
  }

  lemma FdIsNormal(a: Argument, v: Value)
    requires HasType(a, v) && a.Supported()
    ensures a.kind == FdArg ==> v.FdValue? && Normal(a, v) == v
    ensures a.kind == ObjectArg ==> Normal(a, v).IdValue?
  {}

  lemma {:induction false} NormalShapes(schema: Schema, values: seq<Value>)
    requires Typed(schema, values) && AllSupported(schema)
    ensures var normal := NormalValues(schema, values);
            forall i :: 0 <= i < |schema| ==>
              && (schema[i].kind == ObjectArg ==> normal[i].IdValue?)
              && (schema[i].kind == FdArg ==> normal[i] == values[i])
    decreases |schema|
  {
    hide HasType, Normal;
    if schema != [] {
      NormalShapes(schema[1..], values[1..]);
      FdIsNormal(schema[0], values[0]);
      forall i | 0 < i < |schema| ensures schema[i] == schema[1..][i - 1] && values[i] == values[1..][i - 1] {}
    }
  }

  /** What the receiver makes of a message's values: their normal form, with its object arguments checked
      against the receiver's namespace. */
  ghost function Seen(
    schema: Schema, values: seq<Value>, objects: Option<Objects>, event: bool): (r: Result<seq<Value>, Error>)
    requires Typed(schema, values) && AllSupported(schema)
  {
    NormalShapes(schema, values);
    if objects.None? then Ok(NormalValues(schema, values))
    else CheckObjects(objects.value, event, schema, NormalValues(schema, values))
  }

  /** The frame an encoder writes is one whole message with the header it was given. */
  lemma FrameIsWhole(schema: Schema, opcode: u16, objectId: u32, values: seq<Value>, more: seq<byte>)
    requires Typed(schema, values) && AllSupported(schema) && MessageSize(schema, values).Ok? && objectId != 0
    ensures var frame := Frame(schema, opcode, objectId, values);
            && |frame| == MessageSize(schema, values).value
            && Peek(frame + more) == Whole(|frame|)
            && Encodable(schema, values)
            && Wire.DecodeMessage(frame + more) ==
               Ok(Some(Message(Header(objectId, opcode, |frame|), EncodeValues(schema, values))))
  {
    hide EncodeHeader, DecodeHeader, SizeFrom, EncodeValues, HasType, ArgumentSize;
    MessageSizeIsExact(schema, values);
    var size := MessageSize(schema, values).value;
    HeaderEncodes(objectId, opcode, size);
    var header := Header(objectId, opcode, size);
    var payload := EncodeValues(schema, values);
    var frame := Frame(schema, opcode, objectId, values);
    HeaderRoundTrip(header, payload + more);
    assert frame + more == EncodeHeader(header).value + (payload + more);
    assert (frame + more)[HEADER_LEN..size] == payload;
  }

  /** Round trip for every schema: decoding what was encoded gives the values back in normal form, checked
      against the receiver's namespace, with the descriptors the sender attached, whatever descriptors wait
      behind them. Descriptors that are late are an error of their own. */
  lemma MessageRoundTrip(schema: Schema, values: seq<Value>, objects: Option<Objects>, event: bool, waiting: seq<Fd>)
    requires Typed(schema, values) && AllSupported(schema) && MessageSize(schema, values).Ok?
    ensures Encodable(schema, values) && |FdsOf(schema, values)| == FdCount(schema)
    ensures var decoded := Decoded(schema, EncodeValues(schema, values), objects, event, waiting);
            && (FdsOf(schema, values) <= waiting ==> decoded == Seen(schema, values, objects, event))
            && (|waiting| < FdCount(schema) && Seen(schema, values, objects, event).Ok? ==> decoded == Err(Empty))
  {
    hide SizeFrom, EncodeValues, DecodeValues, HasType, ArgumentSize, Normal, FdCount, FdsOf, Merge, CheckObjects;
    MessageSizeIsExact(schema, values);
    ValuesRoundTrip(schema, values);
    NormalShapes(schema, values);
    var normal, fds := NormalValues(schema, values), FdsOf(schema, values);
    MergeSplit(schema, values, normal);
    if objects.Some? {
      CheckSplits(objects.value, event, schema, normal);
      var seen := CheckObjects(objects.value, event, schema, normal);
      if seen.Ok? {
        MergeSplit(schema, values, seen.value);
      }
    }
    if fds <= waiting {
      assert waiting[..FdCount(schema)] == fds;
    }
  }

  lemma {:induction false} MergeEncodes(schema: Schema, plain: seq<Value>, fds: seq<Fd>)
    requires AllSupported(schema) && Encodable(Plain(schema), plain) && |fds| == FdCount(schema)
    ensures var values := Merge(schema, plain, fds);
            && Encodable(schema, values) && FdsOf(schema, values) == fds
            && EncodeValues(schema, values) == EncodeValues(Plain(schema), plain)
    decreases |schema|
  {
    hide Merge, FdsOf, FdCount, Plain, Encodable, EncodeValues, AllSupported;
    if schema == [] {
      EncodesNothing(plain, fds);
    } else {
      EncodableLength(Plain(schema), plain);
      var values := Merge(schema, plain, fds);
      MergeFirst(schema, plain, fds);
      SupportedTail(schema);
      if schema[0].kind == FdArg {
        MergeEncodes(schema[1..], plain, fds[1..]);
        FdEncodes(schema, FdValue(fds[0]), values[1..]);
      } else {
        PlainFirst(schema, plain);
        MergeEncodes(schema[1..], plain[1..], fds);
        EncodesFirst(schema, plain[0], values[1..]);
      }
      assert values == [values[0]] + values[1..];
    }
  }

  lemma EncodesNothing(plain: seq<Value>, fds: seq<Fd>)
    requires Encodable(Plain([]), plain) && |fds| == FdCount([])
    ensures Encodable([], Merge([], plain, fds)) && FdsOf([], Merge([], plain, fds)) == fds
    ensures EncodeValues([], Merge([], plain, fds)) == EncodeValues(Plain([]), plain)
  {}

  lemma EncodableLength(schema: Schema, values: seq<Value>)
    requires Encodable(schema, values)
    ensures |values| == |schema|
  {}

  lemma SupportedTail(schema: Schema)
    requires AllSupported(schema) && schema != []
    ensures AllSupported(schema[1..]) && schema[0].Supported()
  {}

  /** A descriptor argument ahead of the others adds a descriptor and no bytes. */
  lemma FdEncodes(schema: Schema, v: Value, others: seq<Value>)
    requires schema != [] && schema[0].Supported() && schema[0].kind == FdArg && v.FdValue?
    requires Encodable(schema[1..], others)
    ensures Encodable(schema, [v] + others)
    ensures FdsOf(schema, [v] + others) == [v.fd] + FdsOf(schema[1..], others)
    ensures EncodeValues(schema, [v] + others) == EncodeValues(schema[1..], others)
  {
    hide HasType, ArgumentSize;
    FdIsTyped(schema[0], v.fd);
    EncodableFront(schema, v, others);
  }

  lemma EncodesFirst(schema: Schema, v: Value, others: seq<Value>)
    requires schema != [] && schema[0].Supported() && schema[0].kind != FdArg
    requires HasType(schema[0], v) && ArgumentSize(schema[0], v).Ok?
    requires Encodable(schema[1..], others)
    ensures Encodable(schema, [v] + others)
    ensures FdsOf(schema, [v] + others) == FdsOf(schema[1..], others)
    ensures EncodeValues(schema, [v] + others) == EncodeArgument(schema[0], v) + EncodeValues(schema[1..], others)
  {
    hide HasType, ArgumentSize, EncodeArgument;
    EncodableFront(schema, v, others);
  }

  lemma EncodableFront(schema: Schema, v: Value, others: seq<Value>)
    requires schema != [] && schema[0].Supported() && HasType(schema[0], v) && ArgumentSize(schema[0], v).Ok?
    requires Encodable(schema[1..], others)
    ensures Encodable(schema, [v] + others) && ([v] + others)[1..] == others
  {
    hide HasType, ArgumentSize;
    var values := [v] + others;
    forall i | 0 <= i < |schema| ensures HasType(schema[i], values[i]) && ArgumentSize(schema[i], values[i]).Ok? {
      if i > 0 {
        assert schema[i] == schema[1..][i - 1] && values[i] == others[i - 1];
      }
    }
  }

  lemma PlainFirst(schema: Schema, plain: seq<Value>)
    requires AllSupported(schema) && schema != [] && schema[0].kind != FdArg
    requires Encodable(Plain(schema), plain)
    ensures schema[0].Supported() && plain != []
    ensures HasType(schema[0], plain[0]) && ArgumentSize(schema[0], plain[0]).Ok?
    ensures Encodable(Plain(schema[1..]), plain[1..])
    ensures EncodeValues(Plain(schema), plain)
            == EncodeArgument(schema[0], plain[0]) + EncodeValues(Plain(schema[1..]), plain[1..])
  {
    hide HasType, ArgumentSize, EncodeArgument;
    assert Plain(schema)[0] == schema[0] && Plain(schema)[1..] == Plain(schema[1..]);
    EncodableTail(Plain(schema), plain);
  }

  lemma EncodableTail(schema: Schema, values: seq<Value>)
    requires Encodable(schema, values) && schema != []
    ensures Encodable(schema[1..], values[1..])
    ensures schema[0].Supported() && HasType(schema[0], values[0]) && ArgumentSize(schema[0], values[0]).Ok?
  {
    hide HasType, ArgumentSize;
  }

  lemma FdIsTyped(a: Argument, fd: Fd)
    requires a.Supported() && a.kind == FdArg
    ensures HasType(a, FdValue(fd)) && ArgumentSize(a, FdValue(fd)).Ok? && EncodeArgument(a, FdValue(fd)) == []
  {}

  /** Every decoded message, descriptors included, encodes again: with the same descriptors, to a payload
      and a size that are those of the original, and that decode to the same values. */
  lemma MessageReencodes(schema: Schema, payload: seq<byte>, event: bool, waiting: seq<Fd>, more: seq<Fd>)
    requires AllSupported(schema) && Decoded(schema, payload, None, event, waiting).Ok?
    ensures var values := Decoded(schema, payload, None, event, waiting).value;
            && Encodable(schema, values)
            && FdsOf(schema, values) == waiting[..FdCount(schema)]
            && |EncodeValues(schema, values)| == |payload|
            && Decoded(schema, EncodeValues(schema, values), None, event, FdsOf(schema, values) + more) == Ok(values)
            && (HEADER_LEN + |payload| <= MAX_MESSAGE_LEN ==>
                  MessageSize(schema, values) == Ok(HEADER_LEN + |payload|))
  {
    hide DecodeValues, EncodeValues, Encodable, Merge, FdCount, FdsOf, SizeFrom;
    var plain, fds := DecodeValues(schema, payload).value, waiting[..FdCount(schema)];
    DecodedReencodes(schema, payload);
    DecodedLength(schema, payload);
    MergeEncodes(schema, plain, fds);
    var values := Merge(schema, plain, fds);
    assert (fds + more)[..FdCount(schema)] == fds;
    if HEADER_LEN + |payload| <= MAX_MESSAGE_LEN {
      EncodableSizes(schema, values, HEADER_LEN);
    }
  }
}

/** The meaning of the generated codecs, for every message schema: what the emitted sizer
    accepts and returns, which bytes the emitted encoder writes, and what the emitted decoder
    makes of arbitrary bytes. */
module Codec {
  import opened Outcomes
  import opened Bytes
  import opened Wire

  datatype Kind = IntArg | UintArg | FixedArg | StringArg | ObjectArg | NewIdArg | ArrayArg | FdArg

  /** `enumeration` is Some(signed) for an argument typed by an enum wrapper. */
  datatype Argument = Argument(kind: Kind, interface: Option<string>, enumeration: Option<bool>, allowNull: bool)
  {
    /** A `new_id` without an interface travels as interface name, version and id. */
    predicate Dynamic() {
      kind == NewIdArg && interface.None?
    }

    /** Schemas the generator emits working code for. */
    predicate Supported() {
      && (enumeration.Some? ==> kind == IntArg || kind == UintArg)
      && !(Dynamic() && allowNull)
    }
  }

  type Schema = seq<Argument>

  predicate AllSupported(schema: Schema) {
    forall a :: a in schema ==> a.Supported()
  }

  datatype Value =
    | IntValue(signed: i32)
    | UintValue(unsigned: u32)
    | EnumValue(number: int)
    | TextValue(text: Option<seq<byte>>)
    | IdValue(id: Option<u32>)
    | BytesValue(bytes: Option<seq<byte>>)
    | DynamicValue(name: seq<byte>, version: u32, newId: u32)
    | FdValue(fd: Fd)

  /** The value has the field type that the generator declares for the argument. */
  predicate HasType(a: Argument, v: Value) {
    if a.enumeration.Some? then
      v.EnumValue? && (if a.enumeration.value then -0x8000_0000 <= v.number < 0x8000_0000
                       else 0 <= v.number < 0x1_0000_0000)
    else match a.kind
    case IntArg | FixedArg => v.IntValue?
    case UintArg => v.UintValue?
    case StringArg => v.TextValue? && (v.text.None? ==> a.allowNull) && (v.text.Some? ==> |v.text.value| <= USIZE_MAX)
    case ArrayArg =>
      v.BytesValue? && (v.bytes.None? ==> a.allowNull) && (v.bytes.Some? ==> |v.bytes.value| <= USIZE_MAX)
    case ObjectArg => v.IdValue? && (v.id.None? ==> a.allowNull)
    case NewIdArg => if a.interface.None? then v.DynamicValue? && |v.name| <= USIZE_MAX
                     else v.IdValue? && (v.id.None? ==> a.allowNull)
    case FdArg => v.FdValue?
  }

  predicate Typed(schema: Schema, values: seq<Value>) {
    |values| == |schema| && forall i :: 0 <= i < |schema| ==> HasType(schema[i], values[i])
  }

  // ---- sizing

  function VariableSize(len: nat, terminator: nat): Result<nat, Error> {
    if len + terminator > USIZE_MAX then Err(LengthOverflow)
    else if len + terminator > U32_MAX then Err(LengthOverflow)
    else Ok(4 + Align4(len + terminator))
  }

  function TextSize(text: seq<byte>): Result<nat, Error> {
    if 0 in text then Err(InvalidString) else VariableSize(|text|, 1)
  }

  /** What one argument adds to the message size. */
  function ArgumentSize(a: Argument, v: Value): Result<nat, Error>
    requires HasType(a, v) && a.Supported()
  {
    match a.kind
    case IntArg | UintArg | FixedArg => Ok(4)
    case ObjectArg => if !a.allowNull && v.id == Some(0) then Err(NullObject) else Ok(4)
    case NewIdArg =>
      if a.interface.None? then
        if v.newId == 0 then Err(NullObject) else
        match TextSize(v.name)
        case Err(e) => Err(e)
        case Ok(n) => Ok(n + 8)
      else if !a.allowNull && v.id == Some(0) then Err(NullObject) else Ok(4)
    case StringArg => if v.text.None? then Ok(4) else TextSize(v.text.value)
    case ArrayArg => if v.bytes.None? then Ok(4) else VariableSize(|v.bytes.value|, 0)
    case FdArg => Ok(0)
  }

  /** A sum that leaves the word is reported when a variable length is added, and trapped when a
      constant is. */
  function SumError(a: Argument, v: Value, size: nat, n: nat): Error {
    if a.Dynamic() then if size + n > USIZE_MAX + 8 then LengthOverflow else ArithmeticTrap
    else if (v.TextValue? && v.text.Some?) || (v.BytesValue? && v.bytes.Some?) then LengthOverflow
    else ArithmeticTrap
  }

  /** The running total. */
  function SizeFrom(schema: Schema, values: seq<Value>, size: nat): Result<nat, Error>
    requires Typed(schema, values) && AllSupported(schema)
  {
    if schema == [] then Ok(size) else
    match ArgumentSize(schema[0], values[0])
    case Err(e) => Err(e)
    case Ok(n) =>
      if size + n > USIZE_MAX then
        Err(SumError(schema[0], values[0], size, n))
      else SizeFrom(schema[1..], values[1..], size + n)
  }

  function MessageSize(schema: Schema, values: seq<Value>): Result<nat, Error>
    requires Typed(schema, values) && AllSupported(schema)
  {
    match SizeFrom(schema, values, HEADER_LEN)
    case Err(e) => Err(e)
    case Ok(size) => if size > MAX_MESSAGE_LEN then Err(MessageTooLarge) else Ok(size)
  }

  // ---- encoding

  function Padding(len: nat): (z: seq<byte>)
    ensures |z| == (4 - len % 4) % 4
  {
    Zeros((4 - len % 4) % 4)
  }

  function EncodeText(text: Option<seq<byte>>): seq<byte>
    requires text.Some? ==> |text.value| < U32_MAX
  {
    match text
    case None => WriteU32(0)
    case Some(bytes) => WriteU32(|bytes| + 1) + bytes + ([0] + Padding(|bytes| + 1))
  }

  function EncodeBytes(data: Option<seq<byte>>): seq<byte>
    requires data.Some? ==> |data.value| <= U32_MAX
  {
    var bytes := if data.Some? then data.value else [];
    WriteU32(|bytes|) + bytes + Padding(|bytes|)
  }

  /** The 32-bit image of an enum wrapper, and the wrapper of an image. */
  function ToWire(signed: bool, number: int): u32
    requires if signed then -0x8000_0000 <= number < 0x8000_0000 else 0 <= number < 0x1_0000_0000
  {
    if signed then ToUnsigned(number) else number
  }

  function FromWire(signed: bool, wire: u32): int {
    if signed then ToSigned(wire) else wire
  }

  /** The bytes of one argument; descriptors travel on their own lane. */
  function EncodeArgument(a: Argument, v: Value): seq<byte>
    requires HasType(a, v) && a.Supported() && ArgumentSize(a, v).Ok?
  {
    if a.enumeration.Some? then WriteU32(ToWire(a.enumeration.value, v.number)) else
    match a.kind
    case IntArg | FixedArg => WriteU32(ToUnsigned(v.signed))
    case UintArg => WriteU32(v.unsigned)
    case ObjectArg => WriteU32(if v.id.Some? then v.id.value else 0)
    case NewIdArg =>
      if a.interface.None? then EncodeText(Some(v.name)) + WriteU32(v.version) + WriteU32(v.newId)
      else WriteU32(if v.id.Some? then v.id.value else 0)
    case StringArg => EncodeText(v.text)
    case ArrayArg => EncodeBytes(v.bytes)
    case FdArg => []
  }

  ghost predicate Encodable(schema: Schema, values: seq<Value>) {
    && Typed(schema, values) && AllSupported(schema)
    && forall i :: 0 <= i < |schema| ==> ArgumentSize(schema[i], values[i]).Ok?
  }

  ghost function EncodeValues(schema: Schema, values: seq<Value>): seq<byte>
    requires Encodable(schema, values)
  {
    if schema == [] then [] else EncodeArgument(schema[0], values[0]) + EncodeValues(schema[1..], values[1..])
  }

  function FdsOf(schema: Schema, values: seq<Value>): seq<Fd>
    requires Typed(schema, values)
  {
    if schema == [] then []
    else (if schema[0].kind == FdArg && schema[0].enumeration.None? then [values[0].fd] else [])
         + FdsOf(schema[1..], values[1..])
  }

  /** `fd_count` of the metadata. */
  function FdCount(schema: Schema): nat {
    if schema == [] then 0 else (if schema[0].kind == FdArg then 1 else 0) + FdCount(schema[1..])
  }

  // ---- decoding

  datatype Read<T> = Read(value: T, rest: seq<byte>)

  function TakeUint(bytes: seq<byte>): Result<Read<u32>, Error> {
    if |bytes| < 4 then Err(UnexpectedEnd) else Ok(Read(ReadU32(bytes[..4]), bytes[4..]))
  }

  function TakeText(bytes: seq<byte>): (r: Result<Read<Option<seq<byte>>>, Error>)
  {
    match TakeUint(bytes)
    case Err(e) => Err(e)
    case Ok(Read(len, rest)) =>
      if len == 0 then Ok(Read(None, rest))
      else if |rest| < Align4(len) then Err(UnexpectedEnd)
      else if rest[len - 1] != 0 || 0 in rest[..len - 1] then Err(InvalidString)
      else Ok(Read(Some(rest[..len - 1]), rest[Align4(len)..]))
  }

  function TakeBytes(bytes: seq<byte>): (r: Result<Read<seq<byte>>, Error>)
  {
    match TakeUint(bytes)
    case Err(e) => Err(e)
    case Ok(Read(len, rest)) =>
      if |rest| < Align4(len) then Err(UnexpectedEnd)
      else Ok(Read(rest[..len], rest[Align4(len)..]))
  }

  function DecodeId(a: Argument, bytes: seq<byte>): Result<Read<Value>, Error> {
    match TakeUint(bytes)
    case Err(e) => Err(e)
    case Ok(Read(id, rest)) =>
      if id != 0 then Ok(Read(IdValue(Some(id)), rest))
      else if a.allowNull then Ok(Read(IdValue(None), rest))
      else Err(NullObject)
  }

  function DecodeDynamic(bytes: seq<byte>): Result<Read<Value>, Error> {
    match TakeText(bytes)
    case Err(e) => Err(e)
    case Ok(Read(None, _)) => Err(UnexpectedNull)
    case Ok(Read(Some(name), rest)) =>
      match TakeUint(rest)
      case Err(e) => Err(e)
      case Ok(Read(version, rest')) =>
        match TakeUint(rest')
        case Err(e) => Err(e)
        case Ok(Read(id, rest'')) =>
          if id == 0 then Err(NullObject) else Ok(Read(DynamicValue(name, version, id), rest''))
  }

  function DecodeArgument(a: Argument, bytes: seq<byte>): Result<Read<Value>, Error>
    requires a.Supported() && a.kind != FdArg
  {
    if a.enumeration.Some? then
      match TakeUint(bytes)
      case Err(e) => Err(e)
      case Ok(Read(wire, rest)) => Ok(Read(EnumValue(FromWire(a.enumeration.value, wire)), rest))
    else match a.kind
    case IntArg | FixedArg =>
      (match TakeUint(bytes)
       case Err(e) => Err(e)
       case Ok(Read(wire, rest)) => Ok(Read(IntValue(ToSigned(wire)), rest)))
    case UintArg =>
      (match TakeUint(bytes)
       case Err(e) => Err(e)
       case Ok(Read(wire, rest)) => Ok(Read(UintValue(wire), rest)))
    case StringArg =>
      (match TakeText(bytes)
       case Err(e) => Err(e)
       case Ok(Read(text, rest)) =>
         if text.None? && !a.allowNull then Err(UnexpectedNull) else Ok(Read(TextValue(text), rest)))
    case ArrayArg =>
      (match TakeBytes(bytes)
       case Err(e) => Err(e)
       case Ok(Read(data, rest)) =>
         Ok(Read(BytesValue(if a.allowNull && data == [] then None else Some(data)), rest)))
    case ObjectArg => DecodeId(a, bytes)
    case NewIdArg => if a.interface.None? then DecodeDynamic(bytes) else DecodeId(a, bytes)
  }

  /** All byte-carrying arguments in order, then the end of the message. */
  function DecodeValues(schema: Schema, bytes: seq<byte>): Result<seq<Value>, Error>
    requires AllSupported(schema)
  {
    if schema == [] then (if bytes == [] then Ok([]) else Err(TrailingArguments))
    else if schema[0].kind == FdArg then DecodeValues(schema[1..], bytes)
    else match DecodeArgument(schema[0], bytes)
         case Err(e) => Err(e)
         case Ok(Read(v, rest)) =>
           match DecodeValues(schema[1..], rest)
           case Err(e) => Err(e)
           case Ok(vs) => Ok([v] + vs)
  }

  /** The byte-carrying arguments and values of a message. */
  function Plain(schema: Schema): Schema {
    if schema == [] then [] else (if schema[0].kind == FdArg then [] else [schema[0]]) + Plain(schema[1..])
  }

  function PlainValues(schema: Schema, values: seq<Value>): seq<Value>
    requires |values| == |schema|
  {
    if schema == [] then []
    else (if schema[0].kind == FdArg then [] else [values[0]]) + PlainValues(schema[1..], values[1..])
  }

  /** What a value becomes on the wire: a nullable empty data and a nullable id 0 read as null. */
  function Normal(a: Argument, v: Value): Value {
    if v.BytesValue? && a.allowNull && v.bytes == Some([]) then BytesValue(None)
    else if v.IdValue? && a.allowNull && v.id == Some(0) then IdValue(None)
    else v
  }

  function NormalValues(schema: Schema, values: seq<Value>): (normal: seq<Value>)
    requires |values| == |schema|
    ensures |normal| == |schema|
  {
    if schema == [] then [] else [Normal(schema[0], values[0])] + NormalValues(schema[1..], values[1..])
  }
}

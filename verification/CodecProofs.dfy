/** The generated sizer, encoder and decoder agree, for every schema. */
module CodecProofs {
  import opened Outcomes
  import opened Bytes
  import opened Wire
  import opened Codec

  lemma TakeWritten(v: u32, rest: seq<byte>)
    ensures TakeUint(WriteU32(v) + rest) == Ok(Read(v, rest))
  {
    hide WriteU32, ReadU32;
    var bytes := WriteU32(v) + rest;
    assert bytes[..4] == WriteU32(v) && bytes[4..] == rest;
    ReadWriteU32(v);
  }

  lemma PaddingFills(len: nat)
    ensures len + |Padding(len)| == Align4(len)
  {}

  lemma TextRoundTrip(text: Option<seq<byte>>, rest: seq<byte>)
    requires text.Some? ==> |text.value| < U32_MAX && 0 !in text.value
    ensures TakeText(EncodeText(text) + rest) == Ok(Read(text, rest))
  {
    hide WriteU32, TakeUint, Padding, Align4;
    match text
    case None => TakeWritten(0, rest);
    case Some(bytes) =>
      var len := |bytes| + 1;
      var body := bytes + ([0] + Padding(len)) + rest;
      assert EncodeText(text) + rest == WriteU32(len) + body;
      TakeWritten(len, body);
      PaddingFills(len);
      assert body[..len - 1] == bytes && body[len - 1] == 0 && body[Align4(len)..] == rest;
  }

  lemma BytesRoundTrip(data: Option<seq<byte>>, rest: seq<byte>)
    requires data.Some? ==> |data.value| <= U32_MAX
    ensures TakeBytes(EncodeBytes(data) + rest) == Ok(Read(if data.Some? then data.value else [], rest))
  {
    hide WriteU32, TakeUint, Padding, Align4;
    var bytes := if data.Some? then data.value else [];
    var body := bytes + Padding(|bytes|) + rest;
    assert EncodeBytes(data) + rest == WriteU32(|bytes|) + body;
    TakeWritten(|bytes|, body);
    PaddingFills(|bytes|);
    assert body[..|bytes|] == bytes && body[Align4(|bytes|)..] == rest;
  }

  /** Signed and unsigned enum wrappers are bijections on 32-bit wire values. */
  lemma EnumBijection(signed: bool, number: int, wire: u32)
    requires if signed then -0x8000_0000 <= number < 0x8000_0000 else 0 <= number < 0x1_0000_0000
    ensures FromWire(signed, ToWire(signed, number)) == number
    ensures ToWire(signed, FromWire(signed, wire)) == wire
  {}

  lemma DynamicRoundTrip(name: seq<byte>, version: u32, id: u32, rest: seq<byte>)
    requires |name| < U32_MAX && 0 !in name && id != 0
    ensures DecodeDynamic(EncodeText(Some(name)) + WriteU32(version) + WriteU32(id) + rest) ==
            Ok(Read(DynamicValue(name, version, id), rest))
  {
    hide WriteU32, TakeUint, EncodeText, TakeText;
    var tail := WriteU32(version) + (WriteU32(id) + rest);
    assert EncodeText(Some(name)) + WriteU32(version) + WriteU32(id) + rest == EncodeText(Some(name)) + tail;
    TextRoundTrip(Some(name), tail);
    TakeWritten(version, WriteU32(id) + rest);
    TakeWritten(id, rest);
  }

  /** One argument: decoding what was encoded gives back the value in normal form, and stops
      exactly where the encoding stopped. */
  lemma ArgumentRoundTrip(a: Argument, v: Value, rest: seq<byte>)
    requires a.Supported() && a.kind != FdArg && HasType(a, v) && ArgumentSize(a, v).Ok?
    ensures DecodeArgument(a, EncodeArgument(a, v) + rest) == Ok(Read(Normal(a, v), rest))
  {
    hide WriteU32, TakeUint, EncodeText, TakeText, EncodeBytes, TakeBytes, DecodeDynamic, ToUnsigned, ToSigned,
         FromWire, ToWire;
    if a.enumeration.Some? {
      TakeWritten(ToWire(a.enumeration.value, v.number), rest);
      EnumBijection(a.enumeration.value, v.number, 0);
    } else {
      match a.kind
      case IntArg | FixedArg =>
        TakeWritten(ToUnsigned(v.signed), rest);
        SignedBijection(v.signed);
      case UintArg => TakeWritten(v.unsigned, rest);
      case ObjectArg => TakeWritten(if v.id.Some? then v.id.value else 0, rest);
      case NewIdArg =>
        if a.interface.None? {
          DynamicRoundTrip(v.name, v.version, v.newId, rest);
        } else {
          TakeWritten(if v.id.Some? then v.id.value else 0, rest);
        }
      case StringArg => TextRoundTrip(v.text, rest);
      case ArrayArg => BytesRoundTrip(v.bytes, rest);
    }
  }

  lemma SignedBijection(v: i32)
    ensures ToSigned(ToUnsigned(v)) == v
  {}

  /** Decoding the encoded arguments of a message gives back the values, in normal form. */
  lemma {:induction false} ValuesRoundTrip(schema: Schema, values: seq<Value>)
    requires Encodable(schema, values)
    ensures DecodeValues(schema, EncodeValues(schema, values)) ==
            Ok(PlainValues(schema, NormalValues(schema, values)))
    decreases |schema|
  {
    hide HasType, ArgumentSize, EncodeArgument, DecodeArgument, Normal;
    if schema != [] {
      var rest := EncodeValues(schema[1..], values[1..]);
      ValuesRoundTrip(schema[1..], values[1..]);
      var normal := NormalValues(schema, values);
      assert normal[1..] == NormalValues(schema[1..], values[1..]);
      if schema[0].kind == FdArg {
        FdIsSilent(schema[0], values[0]);
        assert EncodeValues(schema, values) == rest;
        assert PlainValues(schema, normal) == PlainValues(schema[1..], normal[1..]);
      } else {
        ArgumentRoundTrip(schema[0], values[0], rest);
      }
    }
  }

  lemma FdIsSilent(a: Argument, v: Value)
    requires a.Supported() && a.kind == FdArg && HasType(a, v) && ArgumentSize(a, v).Ok?
    ensures EncodeArgument(a, v) == []
  {}

  // ---- exact sizing

  lemma TextLength(text: seq<byte>)
    requires TextSize(text).Ok?
    ensures |text| < U32_MAX && |EncodeText(Some(text))| == TextSize(text).value && TextSize(text).value % 4 == 0
  {
    hide WriteU32, Padding, Align4;
    PaddingFills(|text| + 1);
    WordAligned(|text| + 1);
  }

  lemma WordAligned(n: nat)
    ensures (4 + Align4(n)) % 4 == 0
  {
    Align4IsAligned(n);
  }

  lemma BytesLength(data: seq<byte>)
    requires VariableSize(|data|, 0).Ok?
    ensures |data| <= U32_MAX && |EncodeBytes(Some(data))| == VariableSize(|data|, 0).value
    ensures VariableSize(|data|, 0).value % 4 == 0
  {
    hide WriteU32, Padding, Align4;
    PaddingFills(|data|);
    WordAligned(|data|);
  }

  /** The sizer's answer is the number of bytes the encoder writes, a multiple of four. */
  lemma ArgumentSizeIsExact(a: Argument, v: Value)
    requires a.Supported() && HasType(a, v) && ArgumentSize(a, v).Ok?
    ensures |EncodeArgument(a, v)| == ArgumentSize(a, v).value
    ensures ArgumentSize(a, v).value % 4 == 0 && ArgumentSize(a, v).value <= 0x1_0000_0010
  {
    hide WriteU32, EncodeText, EncodeBytes, TextSize, VariableSize;
    match a.kind
    case StringArg =>
      if v.text.Some? {
        TextLength(v.text.value);
        TextBound(v.text.value);
      } else {
        assert |EncodeText(None)| == 4 by { NullTextLength(); }
      }
    case ArrayArg =>
      if v.bytes.Some? {
        BytesLength(v.bytes.value);
        BytesBound(|v.bytes.value|);
      } else {
        assert |EncodeBytes(None)| == 4 by { NullTextLength(); }
      }
    case NewIdArg =>
      if a.interface.None? {
        TextLength(v.name);
        TextBound(v.name);
      }
    case _ =>
  }

  lemma NullTextLength()
    ensures |EncodeText(None)| == 4 && |EncodeBytes(None)| == 4
  {}

  lemma TextBound(text: seq<byte>)
    requires TextSize(text).Ok?
    ensures TextSize(text).value <= 0x1_0000_0004
  {}

  lemma BytesBound(len: nat)
    requires VariableSize(len, 0).Ok?
    ensures VariableSize(len, 0).value <= 0x1_0000_0004
  {}

  lemma {:induction false} SizeFromIsExact(schema: Schema, values: seq<Value>, size: nat)
    requires Typed(schema, values) && AllSupported(schema) && SizeFrom(schema, values, size).Ok?
    ensures Encodable(schema, values)
    ensures SizeFrom(schema, values, size).value == size + |EncodeValues(schema, values)|
    ensures |EncodeValues(schema, values)| % 4 == 0
    decreases |schema|
  {
    hide HasType, ArgumentSize, EncodeArgument;
    if schema != [] {
      ArgumentSizeIsExact(schema[0], values[0]);
      SizeFromIsExact(schema[1..], values[1..], size + ArgumentSize(schema[0], values[0]).value);
      forall i | 0 <= i < |schema| ensures ArgumentSize(schema[i], values[i]).Ok? {
        if i > 0 {
          assert schema[i] == schema[1..][i - 1] && values[i] == values[1..][i - 1];
        }
      }
    }
  }

  /** The preflight size is exactly header plus encoded arguments, word-aligned, and fits the
      16-bit size field. */
  lemma MessageSizeIsExact(schema: Schema, values: seq<Value>)
    requires Typed(schema, values) && AllSupported(schema) && MessageSize(schema, values).Ok?
    ensures Encodable(schema, values)
    ensures MessageSize(schema, values).value == HEADER_LEN + |EncodeValues(schema, values)| <= MAX_MESSAGE_LEN
    ensures MessageSize(schema, values).value % 4 == 0
  {
    hide SizeFrom, EncodeValues, HasType, ArgumentSize;
    SizeFromIsExact(schema, values, HEADER_LEN);
    AddAligned(|EncodeValues(schema, values)|);
  }

  lemma AddAligned(n: nat)
    requires n % 4 == 0
    ensures (HEADER_LEN + n) % 4 == 0
  {}

  /** Values are refused for their own sake only, never because the running sum left the word,
      for every schema of fewer than 2^31 arguments. */
  lemma {:induction false} SizingNeverTraps(schema: Schema, values: seq<Value>, size: nat)
    requires Typed(schema, values) && AllSupported(schema)
    requires size + |schema| * 0x1_0000_0010 <= USIZE_MAX
    ensures SizeFrom(schema, values, size).Ok? <==>
            forall i :: 0 <= i < |schema| ==> ArgumentSize(schema[i], values[i]).Ok?
    ensures SizeFrom(schema, values, size).Err? ==>
              exists i :: 0 <= i < |schema| && ArgumentSize(schema[i], values[i]) == SizeFrom(schema, values, size)
    decreases |schema|
  {
    hide HasType, ArgumentSize;
    if schema != [] {
      if ArgumentSize(schema[0], values[0]).Ok? {
        ArgumentSizeIsExact(schema[0], values[0]);
        var next := size + ArgumentSize(schema[0], values[0]).value;
        assert |schema[1..]| == |schema| - 1;
        SizingNeverTraps(schema[1..], values[1..], next);
        assert forall i :: 0 <= i < |schema[1..]| ==>
                 schema[1..][i] == schema[i + 1] && values[1..][i] == values[i + 1];
        assert forall i :: 0 < i < |schema| ==> schema[i] == schema[1..][i - 1] && values[i] == values[1..][i - 1];
      }
    }
  }

  // ---- what the decoder accepts

  lemma TextAccepted(bytes: seq<byte>)
    requires TakeText(bytes).Ok?
    ensures var read := TakeText(bytes).value;
            match read.value
            case None => |bytes| == 4 + |read.rest|
            case Some(text) => TextSize(text).Ok? && |bytes| == TextSize(text).value + |read.rest|
  {
    hide ReadU32, Align4;
  }

  lemma BytesAccepted(bytes: seq<byte>)
    requires TakeBytes(bytes).Ok?
    ensures var read := TakeBytes(bytes).value;
            VariableSize(|read.value|, 0).Ok? && |bytes| == VariableSize(|read.value|, 0).value + |read.rest|
            && (read.value == [] ==> |bytes| == 4 + |read.rest|)
  {
    hide ReadU32;
  }

  /** Whatever the decoder accepts is a value of the declared type in normal form, which the sizer
      accepts with exactly the size that was consumed. */
  lemma ArgumentAccepted(a: Argument, bytes: seq<byte>)
    requires a.Supported() && a.kind != FdArg && DecodeArgument(a, bytes).Ok?
    ensures var read := DecodeArgument(a, bytes).value;
            && HasType(a, read.value) && Normal(a, read.value) == read.value
            && ArgumentSize(a, read.value).Ok?
            && |bytes| == ArgumentSize(a, read.value).value + |read.rest|
  {
    hide ReadU32, TakeText, TakeBytes, TextSize, VariableSize;
    if a.enumeration.None? {
      match a.kind
      case StringArg =>
        TextAccepted(bytes);
        if TakeText(bytes).value.value.Some? {
          TextIsBounded(bytes);
        }
      case ArrayArg =>
        BytesAccepted(bytes);
        BytesAreBounded(bytes);
      case NewIdArg =>
        if a.interface.None? {
          TextAccepted(bytes);
          TextIsBounded(bytes);
        }
      case _ =>
    }
  }

  lemma TextIsBounded(bytes: seq<byte>)
    requires TakeText(bytes).Ok? && TakeText(bytes).value.value.Some?
    ensures |TakeText(bytes).value.value.value| <= U32_MAX
  {
    hide ReadU32, Align4;
  }

  lemma BytesAreBounded(bytes: seq<byte>)
    requires TakeBytes(bytes).Ok?
    ensures |TakeBytes(bytes).value.value| <= U32_MAX
  {
    hide ReadU32, Align4;
  }

  lemma {:induction false} PlainIsPlain(schema: Schema)
    requires AllSupported(schema)
    ensures AllSupported(Plain(schema)) && forall a :: a in Plain(schema) ==> a.kind != FdArg
    ensures forall bytes :: DecodeValues(schema, bytes) == DecodeValues(Plain(schema), bytes)
    decreases |schema|
  {
    hide DecodeArgument;
    if schema != [] {
      PlainIsPlain(schema[1..]);
      var plain := Plain(schema);
      if schema[0].kind != FdArg {
        assert plain == [schema[0]] + Plain(schema[1..]);
        assert plain[1..] == Plain(schema[1..]);
      } else {
        assert plain == Plain(schema[1..]);
      }
    }
  }

  lemma {:induction false} PlainReencodes(schema: Schema, bytes: seq<byte>)
    requires AllSupported(schema) && (forall a :: a in schema ==> a.kind != FdArg)
    requires DecodeValues(schema, bytes).Ok?
    ensures var values := DecodeValues(schema, bytes).value;
            && Encodable(schema, values)
            && |EncodeValues(schema, values)| == |bytes|
            && DecodeValues(schema, EncodeValues(schema, values)) == Ok(values)
    decreases |schema|
  {
    hide DecodeArgument, HasType, ArgumentSize, EncodeArgument, Normal;
    if schema != [] {
      ArgumentAccepted(schema[0], bytes);
      var read := DecodeArgument(schema[0], bytes).value;
      PlainReencodes(schema[1..], read.rest);
      var values := DecodeValues(schema, bytes).value;
      assert values[1..] == DecodeValues(schema[1..], read.rest).value;
      forall i | 0 <= i < |schema|
        ensures HasType(schema[i], values[i]) && ArgumentSize(schema[i], values[i]).Ok?
      {
        if i > 0 {
          assert schema[i] == schema[1..][i - 1] && values[i] == values[1..][i - 1];
        }
      }
      ArgumentSizeIsExact(schema[0], values[0]);
      ArgumentRoundTrip(schema[0], values[0], EncodeValues(schema[1..], values[1..]));
    }
  }

  /** Decoded byte-carrying values can always be encoded again: to the same number of bytes, which decode
      to the same values. */
  lemma DecodedReencodes(schema: Schema, bytes: seq<byte>)
    requires AllSupported(schema) && DecodeValues(schema, bytes).Ok?
    ensures var plain, values := Plain(schema), DecodeValues(schema, bytes).value;
            && Encodable(plain, values)
            && |EncodeValues(plain, values)| == |bytes|
            && DecodeValues(schema, EncodeValues(plain, values)) == Ok(values)
  {
    hide DecodeValues, EncodeValues, Encodable, Plain;
    PlainIsPlain(schema);
    PlainReencodes(Plain(schema), bytes);
  }

  /** The sizer accepts whatever encodes within a word, with exactly that size. */
  lemma {:induction false} EncodableSizes(schema: Schema, values: seq<Value>, size: nat)
    requires Encodable(schema, values) && size + |EncodeValues(schema, values)| <= USIZE_MAX
    ensures SizeFrom(schema, values, size) == Ok(size + |EncodeValues(schema, values)|)
    decreases |schema|
  {
    hide HasType, ArgumentSize, EncodeArgument;
    if schema != [] {
      ArgumentSizeIsExact(schema[0], values[0]);
      EncodableSizes(schema[1..], values[1..], size + ArgumentSize(schema[0], values[0]).value);
    }
  }
}

/** Wayland wire framing: headers and complete messages. */
module Wire {
  import opened Outcomes
  import opened Bytes

  const HEADER_LEN: nat := 8
  const MAX_MESSAGE_LEN: nat := 0xffff

  datatype Header = Header(objectId: u32, opcode: u16, size: u16)

  datatype Message = Message(header: Header, payload: seq<byte>)

  /** The header in the first eight bytes. */
  function DecodeHeader(bytes: seq<byte>): (r: Result<Header, Error>)
    requires |bytes| >= HEADER_LEN
    ensures r.Ok? ==> HEADER_LEN <= r.value.size
    ensures r.Err? ==> r.error != MessageTooLarge
  {
    var objectId := ReadU32(bytes[..4]);
    var word := ReadU32(bytes[4..8]);
    var size := word / 0x1_0000;
    if objectId == 0 then Err(NullSender)
    else if size < HEADER_LEN then Err(InvalidSize)
    else if size % 4 != 0 then Err(UnalignedSize)
    else Ok(Header(objectId, word % 0x1_0000, size))
  }

  function EncodeHeader(header: Header): (r: Result<seq<byte>, Error>)
    ensures r.Ok? ==> |r.value| == HEADER_LEN
  {
    if header.objectId == 0 then Err(NullSender)
    else if header.size < HEADER_LEN then Err(InvalidSize)
    else if header.size % 4 != 0 then Err(UnalignedSize)
    else Ok(WriteU32(header.objectId) + WriteU32(header.size * 0x1_0000 + header.opcode))
  }

  lemma HeaderRoundTrip(header: Header, rest: seq<byte>)
    requires EncodeHeader(header).Ok?
    ensures DecodeHeader(EncodeHeader(header).value + rest) == Ok(header)
  {
    var word := header.size * 0x1_0000 + header.opcode;
    var bytes := EncodeHeader(header).value + rest;
    assert bytes[..4] == WriteU32(header.objectId) && bytes[4..8] == WriteU32(word);
    assert word / 0x1_0000 == header.size && word % 0x1_0000 == header.opcode;
    assert ReadU32(bytes[..4]) == header.objectId by { ReadWriteU32(header.objectId); }
    assert ReadU32(bytes[4..8]) == word by { ReadWriteU32(word); }
  }

  /** What the front of a byte stream holds. */
  datatype Front = Partial | Bad(error: Error) | Whole(size: nat)

  function Peek(bytes: seq<byte>): (front: Front)
    ensures front.Whole? ==> HEADER_LEN <= front.size <= |bytes|
    ensures front.Bad? ==> |bytes| >= HEADER_LEN && front.error != MessageTooLarge
    ensures |bytes| < HEADER_LEN ==> front.Partial?
  {
    if |bytes| < HEADER_LEN then Partial else
    match DecodeHeader(bytes)
    case Err(e) => Bad(e)
    case Ok(header) => if |bytes| < header.size then Partial else Whole(header.size)
  }

  /** `Message.decode`: None until the whole message is there. */
  function DecodeMessage(bytes: seq<byte>): (r: Result<Option<Message>, Error>)
    ensures match Peek(bytes)
            case Partial => r == Ok(None)
            case Bad(e) => r == Err(e)
            case Whole(n) => r.Ok? && r.value.Some? && r.value.value.header.size == n
                             && r.value.value.payload == bytes[HEADER_LEN..n]
  {
    if |bytes| < HEADER_LEN then Ok(None) else
    match DecodeHeader(bytes)
    case Err(e) => Err(e)
    case Ok(header) =>
      if |bytes| < header.size then Ok(None)
      else Ok(Some(Message(header, bytes[HEADER_LEN..header.size])))
  }

  /** The header, and with it validity and size, depends on the first eight bytes alone. */
  lemma HeaderIsLocal(bytes: seq<byte>, more: seq<byte>)
    requires |bytes| >= HEADER_LEN
    ensures DecodeHeader(bytes + more) == DecodeHeader(bytes)
  {
    var longer := bytes + more;
    assert longer[..4] == bytes[..4] && longer[4..8] == bytes[4..8];
  }

  /** More bytes never change a verdict that has been reached. */
  lemma PeekIsStable(bytes: seq<byte>, more: seq<byte>)
    ensures !Peek(bytes).Partial? ==> Peek(bytes + more) == Peek(bytes)
    ensures Peek(bytes).Partial? && |bytes| >= HEADER_LEN ==>
              DecodeHeader(bytes + more) == DecodeHeader(bytes) && !Peek(bytes + more).Bad?
    ensures Peek(bytes).Whole? ==>
              var n := Peek(bytes).size;
              (bytes + more)[..n] == bytes[..n] && (bytes + more)[n..] == bytes[n..] + more
              && DecodeMessage(bytes + more) == DecodeMessage(bytes) == DecodeMessage(bytes[..n])
  {
    hide DecodeHeader;
    if |bytes| >= HEADER_LEN {
      HeaderIsLocal(bytes, more);
      if Peek(bytes).Whole? {
        var n := Peek(bytes).size;
        assert bytes[..n] + bytes[n..] == bytes;
        HeaderIsLocal(bytes[..n], bytes[n..]);
        assert (bytes + more)[HEADER_LEN..n] == bytes[HEADER_LEN..n] == bytes[..n][HEADER_LEN..n];
      }
    }
  }
}

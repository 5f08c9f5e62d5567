/** The SCM_RIGHTS control-buffer codec: cmsghdr records as laid out by a 64-bit Linux
    kernel (section 20 of RFC 3542). */
module Rights {
  import opened Outcomes
  import opened Bytes
  import opened Memory

  const CMSG_HEADER: nat := 16
  const FD_SIZE: nat := 4
  const SOL_SOCKET: u32 := 1
  const SCM_RIGHTS: u32 := 1

  function ReadFd(b: seq<byte>): Fd
    requires |b| == FD_SIZE
  {
    ToSigned(ReadU32(b))
  }

  function WriteFd(fd: Fd): (b: seq<byte>)
    ensures |b| == FD_SIZE
  {
    WriteU32(ToUnsigned(fd))
  }

  function FdsOf(data: seq<byte>): (fds: seq<Fd>)
    requires |data| % 4 == 0
    ensures |fds| * 4 == |data|
  {
    if data == [] then [] else [ReadFd(data[..FD_SIZE])] + FdsOf(data[FD_SIZE..])
  }

  function FdBytes(fds: seq<Fd>): (data: seq<byte>)
    ensures |data| == |fds| * 4
  {
    if fds == [] then [] else WriteFd(fds[0]) + FdBytes(fds[1..])
  }

  lemma {:induction false} FdsOfFdBytes(fds: seq<Fd>)
    ensures FdsOf(FdBytes(fds)) == fds
  {
    if fds != [] {
      FdsOfFdBytes(fds[1..]);
      ReadWriteU32(ToUnsigned(fds[0]));
      var data := FdBytes(fds);
      assert data[..FD_SIZE] == WriteFd(fds[0]) && data[FD_SIZE..] == FdBytes(fds[1..]);
    }
  }

  /** One step of parsing a nonempty control buffer. `consumed` is how far the cursor moves. */
  datatype Item =
    | Malformed
    | Foreign(consumed: nat)
    | Carried(data: seq<byte>, consumed: nat)

  function ReadItem(control: seq<byte>): (item: Item)
    requires control != []
    ensures !item.Malformed? ==> 0 < item.consumed <= |control|
    ensures item.Carried? ==> item.data != [] && |item.data| % 4 == 0
  {
    if |control| < CMSG_HEADER then Malformed else
    var len := ReadU64(control[..8]);
    var level := ReadU32(control[8..12]);
    var kind := ReadU32(control[12..16]);
    if len < CMSG_HEADER || len > |control| then Malformed else
    if Align8(len) > |control| && len != |control| then Malformed else
    var consumed := if Align8(len) < |control| then Align8(len) else |control|;
    if level != SOL_SOCKET || kind != SCM_RIGHTS then Foreign(consumed) else
    var data := control[CMSG_HEADER..len];
    if |data| == 0 || |data| % 4 != 0 then Malformed else Carried(data, consumed)
  }

  /** The descriptors ahead of the first malformed record, and whether there is none. */
  datatype Parsed = Parsed(fds: seq<Fd>, ok: bool)

  function ParseControl(control: seq<byte>): Parsed
    decreases |control|
  {
    if control == [] then Parsed([], true) else
    match ReadItem(control)
    case Malformed => Parsed([], false)
    case Foreign(consumed) => ParseControl(control[consumed..])
    case Carried(data, consumed) =>
      var rest := ParseControl(control[consumed..]);
      Parsed(FdsOf(data) + rest.fds, rest.ok)
  }

  /** What a cursor at `recordOffset`, with `rights` partly read, has yet to produce. */
  ghost function Pending(control: seq<byte>, recordOffset: nat, unread: seq<byte>): Parsed
    requires recordOffset <= |control| && |unread| % 4 == 0
  {
    var rest := ParseControl(control[recordOffset..]);
    Parsed(FdsOf(unread) + rest.fds, rest.ok)
  }

  lemma TakeFd(unread: seq<byte>)
    requires |unread| % 4 == 0 && unread != []
    ensures |unread| >= FD_SIZE && |unread[FD_SIZE..]| % 4 == 0
    ensures FdsOf(unread) == [ReadFd(unread[..FD_SIZE])] + FdsOf(unread[FD_SIZE..])
  {
  }

  lemma PendingTake(control: seq<byte>, recordOffset: nat, unread: seq<byte>)
    requires recordOffset <= |control| && |unread| % 4 == 0 && unread != []
    ensures |unread| >= FD_SIZE && |unread[FD_SIZE..]| % 4 == 0
    ensures var pending := Pending(control, recordOffset, unread);
            && pending.fds != [] && pending.fds[0] == ReadFd(unread[..FD_SIZE])
            && Pending(control, recordOffset, unread[FD_SIZE..]) == Parsed(pending.fds[1..], pending.ok)
  {
    TakeFd(unread);
    var first, others := ReadFd(unread[..FD_SIZE]), FdsOf(unread[FD_SIZE..]);
    var rest := ParseControl(control[recordOffset..]);
    assert ([first] + others + rest.fds)[1..] == others + rest.fds;
  }

  lemma PendingRecord(control: seq<byte>, recordOffset: nat)
    requires recordOffset < |control|
    ensures var item := ReadItem(control[recordOffset..]);
            match item
            case Malformed => Pending(control, recordOffset, []) == Parsed([], false)
            case Foreign(n) => Pending(control, recordOffset, []) == Pending(control, recordOffset + n, [])
            case Carried(data, n) => Pending(control, recordOffset, []) == Pending(control, recordOffset + n, data)
  {
    var suffix := control[recordOffset..];
    var item := ReadItem(suffix);
    if !item.Malformed? {
      assert suffix[item.consumed..] == control[recordOffset + item.consumed..];
    }
    var parsed := ParseControl(suffix);
    assert [] + parsed.fds == parsed.fds;
  }

  lemma PendingEnd(control: seq<byte>)
    ensures Pending(control, |control|, []) == Parsed([], true)
  {
    assert control[|control|..] == [];
  }

  class RightsIterator {
    const control: seq<byte>
    var recordOffset: nat
    var rights: seq<byte>
    var rightsOffset: nat

    ghost predicate Valid()
      reads this
    {
      && recordOffset <= |control|
      && rightsOffset <= |rights|
      && (|rights| - rightsOffset) % 4 == 0
    }

    ghost function Remaining(): Parsed
      reads this
      requires Valid()
    {
      Pending(control, recordOffset, rights[rightsOffset..])
    }

    constructor (control: seq<byte>)
      ensures Valid() && Remaining() == ParseControl(control)
      ensures this.control == control
    {
      this.control := control;
      recordOffset, rights, rightsOffset := 0, [], 0;
      new;
      assert control[0..] == control && rights[0..] == [];
      var parsed := ParseControl(control);
      assert [] + parsed.fds == parsed.fds;
    }

    method Next() returns (r: Result<Option<Fd>, Error>)
      requires Valid()
      modifies this
      ensures Valid()
      ensures var before := old(Remaining());
              if before.fds != [] then
                r == Ok(Some(before.fds[0])) && Remaining() == Parsed(before.fds[1..], before.ok)
              else if before.ok then r == Ok(None) && Remaining() == before
              else r == Err(MalformedControl)
    {
      hide ReadItem, ReadFd, FdsOf, ParseControl, Pending;
      while true
        invariant Valid() && Remaining() == old(Remaining())
        decreases |control| - recordOffset, |rights| - rightsOffset
      {
        if rightsOffset < |rights| {
          PendingTake(control, recordOffset, rights[rightsOffset..]);
          var start := rightsOffset;
          rightsOffset := rightsOffset + FD_SIZE;
          assert rights[start..][..FD_SIZE] == rights[start..start + FD_SIZE];
          assert rights[start..][FD_SIZE..] == rights[rightsOffset..];
          return Ok(Some(ReadFd(rights[start..start + FD_SIZE])));
        }
        assert rights[rightsOffset..] == [];
        if recordOffset == |control| {
          PendingEnd(control);
          return Ok(None);
        }
        PendingRecord(control, recordOffset);
        match ReadItem(control[recordOffset..]) {
          case Malformed =>
            return Err(MalformedControl);
          case Foreign(consumed) =>
            recordOffset := recordOffset + consumed;
          case Carried(data, consumed) =>
            recordOffset := recordOffset + consumed;
            rights, rightsOffset := data, 0;
            assert rights[rightsOffset..] == data;
        }
      }
    }
  }

  /** The records a sender or the kernel may place in a control buffer. */
  datatype Record =
    | RightsRecord(fds: seq<Fd>)
    | ForeignRecord(level: u32, kind: u32, data: seq<byte>)
  {
    predicate Genuine() {
      && CMSG_HEADER + |Body()| <= USIZE_MAX
      && match this
         case RightsRecord(fds) => fds != []
         case ForeignRecord(level, kind, _) => level != SOL_SOCKET || kind != SCM_RIGHTS
    }

    function Body(): seq<byte> {
      match this
      case RightsRecord(fds) => FdBytes(fds)
      case ForeignRecord(_, _, data) => data
    }

    function Level(): u32 { if RightsRecord? then SOL_SOCKET else level }

    function Kind(): u32 { if RightsRecord? then SCM_RIGHTS else kind }

    function Fds(): seq<Fd> { if RightsRecord? then fds else [] }
  }

  function Header(len: u64, level: u32, kind: u32): (b: seq<byte>)
    ensures |b| == CMSG_HEADER
  {
    WriteU64(len) + WriteU32(level) + WriteU32(kind)
  }

  /** A record without, and with, the padding up to the next record. */
  function Bare(record: Record): (b: seq<byte>)
    requires record.Genuine()
    ensures |b| == CMSG_HEADER + |record.Body()|
  {
    Header(CMSG_HEADER + |record.Body()|, record.Level(), record.Kind()) + record.Body()
  }

  function Padded(record: Record): (b: seq<byte>)
    requires record.Genuine()
    ensures |b| == Align8(CMSG_HEADER + |record.Body()|)
  {
    Bare(record) + Zeros(Align8(|Bare(record)|) - |Bare(record)|)
  }

  function PrintAll(records: seq<Record>, trimLast: bool): seq<byte>
    requires forall r :: r in records ==> r.Genuine()
  {
    if records == [] then []
    else if |records| == 1 && trimLast then Bare(records[0])
    else Padded(records[0]) + PrintAll(records[1..], trimLast)
  }

  function AllFds(records: seq<Record>): seq<Fd> {
    if records == [] then [] else records[0].Fds() + AllFds(records[1..])
  }

  lemma HeaderFields(len: u64, level: u32, kind: u32)
    ensures var b := Header(len, level, kind);
            ReadU64(b[..8]) == len && ReadU32(b[8..12]) == level && ReadU32(b[12..16]) == kind
  {
    var b := Header(len, level, kind);
    assert b[..8] == WriteU64(len) && b[8..12] == WriteU32(level) && b[12..16] == WriteU32(kind);
    ReadWriteU64(len);
    ReadWriteU32(level);
    ReadWriteU32(kind);
  }

  /** A header that is consistent with the buffer behind it is accepted. */
  lemma ReadHeaded(header: seq<byte>, body: seq<byte>, rest: seq<byte>, level: u32, kind: u32)
    requires |header| == CMSG_HEADER
    requires ReadU64(header[..8]) == CMSG_HEADER + |body|
    requires ReadU32(header[8..12]) == level && ReadU32(header[12..16]) == kind
    requires rest == [] || CMSG_HEADER + |body| + |rest| >= Align8(CMSG_HEADER + |body|)
    ensures var whole := Align8(CMSG_HEADER + |body|);
            var total := CMSG_HEADER + |body| + |rest|;
            var consumed := if whole < total then whole else total;
            ReadItem(header + body + rest) ==
            if level != SOL_SOCKET || kind != SCM_RIGHTS then Foreign(consumed)
            else if |body| == 0 || |body| % 4 != 0 then Malformed
            else Carried(body, consumed)
  {
    var buffer := header + body + rest;
    assert buffer[..8] == header[..8];
    assert buffer[8..12] == header[8..12];
    assert buffer[12..16] == header[12..16];
    assert buffer[CMSG_HEADER..CMSG_HEADER + |body|] == body;
  }

  /** A printed record reads back as itself, whatever follows it: padding and further records,
      or nothing at all. */
  lemma ReadPrinted(record: Record, rest: seq<byte>)
    requires record.Genuine()
    requires rest == [] || |Bare(record)| + |rest| >= Align8(|Bare(record)|)
    ensures var whole := Align8(|Bare(record)|);
            var total := |Bare(record)| + |rest|;
            var consumed := if whole < total then whole else total;
            ReadItem(Bare(record) + rest) ==
            if record.RightsRecord? then Carried(record.Body(), consumed) else Foreign(consumed)
  {
    var len := CMSG_HEADER + |record.Body()|;
    hide Header, ReadItem, FdBytes, Align8, ReadU64, ReadU32;
    HeaderFields(len, record.Level(), record.Kind());
    ReadHeaded(Header(len, record.Level(), record.Kind()), record.Body(), rest, record.Level(), record.Kind());
  }

  lemma ParsePadded(record: Record, tail: seq<byte>)
    requires record.Genuine()
    ensures var rest := ParseControl(tail);
            ParseControl(Padded(record) + tail) == Parsed(record.Fds() + rest.fds, rest.ok)
  {
    hide Header, ReadItem, FdBytes;
    var zeros := Zeros(Align8(|Bare(record)|) - |Bare(record)|);
    var buffer := Padded(record) + tail;
    assert buffer == Bare(record) + (zeros + tail);
    ReadPrinted(record, zeros + tail);
    assert buffer[|Padded(record)|..] == tail;
    if record.RightsRecord? {
      FdsOfFdBytes(record.fds);
    }
  }

  lemma ParseBare(record: Record)
    requires record.Genuine()
    ensures ParseControl(Bare(record)) == Parsed(record.Fds(), true)
  {
    hide Header, ReadItem, FdBytes;
    var b := Bare(record);
    assert b + [] == b;
    ReadPrinted(record, []);
    assert b[|b|..] == [];
    if record.RightsRecord? {
      FdsOfFdBytes(record.fds);
    }
  }

  /** Printer and parser undo each other, with foreign records interleaved anywhere and the last
      record possibly without its padding. */
  lemma {:induction false} ControlRoundTrip(records: seq<Record>, trimLast: bool)
    requires forall r :: r in records ==> r.Genuine()
    ensures ParseControl(PrintAll(records, trimLast)) == Parsed(AllFds(records), true)
  {
    if records == [] {
    } else if |records| == 1 && trimLast {
      ParseBare(records[0]);
      assert AllFds(records) == records[0].Fds();
    } else {
      ControlRoundTrip(records[1..], trimLast);
      ParsePadded(records[0], PrintAll(records[1..], trimLast));
    }
  }

  /** Cutting a buffer short inside its last record never yields descriptors of that record. */
  lemma TruncationIsDetected(record: Record, cut: nat)
    requires record.Genuine()
    requires 0 < cut < |Bare(record)|
    ensures ParseControl(Bare(record)[..cut]) == Parsed([], false)
  {
    var buffer := Bare(record)[..cut];
    if cut >= CMSG_HEADER {
      var len := CMSG_HEADER + |record.Body()|;
      HeaderFields(len, record.Level(), record.Kind());
      assert buffer[..8] == Header(len, record.Level(), record.Kind())[..8];
    }
    assert ReadItem(buffer) == Malformed;
  }

  /** The number of descriptors whose record is so large that rounding it up leaves the word. */
  const TRAPPING_COUNT: nat := 0x3fff_ffff_ffff_fffb

  function RightsControlSize(count: nat): Result<nat, Error> {
    if count == 0 then Ok(0) else
    var dataLen := count * 4;
    if dataLen > USIZE_MAX then Err(Overflow) else
    var used := CMSG_HEADER + dataLen;
    if used > USIZE_MAX then Err(Overflow) else
    if used + 7 > USIZE_MAX then Err(ArithmeticTrap) else Ok(Align8(used))
  }

  lemma ControlSizeArithmetic(count: nat)
    requires count > 0
    ensures var used, size := CMSG_HEADER + count * 4, RightsControlSize(count);
            && (size.Ok? ==> size.value == Align8(used) && used <= USIZE_MAX)
            && (size.Err? <==> Align8(used) > USIZE_MAX)
            && (size == Err(ArithmeticTrap) <==> count == TRAPPING_COUNT)
  {
    hide Align8;
    var used := CMSG_HEADER + count * 4;
    assert used + 7 <= USIZE_MAX ==> Align8(used) <= USIZE_MAX;
    assert used > USIZE_MAX ==> Align8(used) > USIZE_MAX;
    if used + 7 > USIZE_MAX >= used {
      assert used == 4 * (count + 4) && 4 * (count + 4) > 4 * 0x3fff_ffff_ffff_fffe;
      assert count == TRAPPING_COUNT && used == 0xffff_ffff_ffff_fffc;
      assert Align8(0xffff_ffff_ffff_fffc) == 0x1_0000_0000_0000_0000 by { TrappingSize(); }
    }
  }

  lemma TrappingSize()
    ensures Align8(0xffff_ffff_ffff_fffc) == 0x1_0000_0000_0000_0000
  {}

  /** The advertised size is the size of the printed record, and `Overflow` is reported exactly
      when that size does not fit a word, except that one count is not reported but trapped. */
  lemma ControlSizeIsExact(fds: seq<Fd>)
    requires fds != []
    ensures var record, size := RightsRecord(fds), RightsControlSize(|fds|);
            && (size.Ok? ==> record.Genuine() && size.value == |Padded(record)| <= USIZE_MAX)
            && (size.Err? <==> Align8(CMSG_HEADER + |record.Body()|) > USIZE_MAX)
            && (size == Err(ArithmeticTrap) <==> |fds| == TRAPPING_COUNT)
  {
    hide Align8, RightsControlSize, FdBytes, Header;
    ControlSizeArithmetic(|fds|);
  }

  lemma PaddedLayout(fds: seq<Fd>, header: seq<byte>, data: seq<byte>, rest: seq<byte>)
    requires RightsRecord(fds).Genuine()
    requires header == Header(CMSG_HEADER + |fds| * 4, SOL_SOCKET, SCM_RIGHTS) && data == FdBytes(fds)
    ensures var space := |Padded(RightsRecord(fds))|;
            && CMSG_HEADER + |data| <= space
            && Padded(RightsRecord(fds)) + rest ==
               header + data + (Zeros(space) + rest)[CMSG_HEADER + |data|..]
  {
    hide Header, FdBytes, Align8;
  }

  /** Writes one SCM_RIGHTS record at the start of `storage`. */
  method EncodeRights(storage: array<byte>, fds: seq<Fd>) returns (r: Result<nat, Error>)
    modifies storage
    ensures r.Ok? ==> fds != [] && RightsRecord(fds).Genuine()
                      && r.value == |Padded(RightsRecord(fds))| <= storage.Length
                      && storage[..] == Padded(RightsRecord(fds)) + old(storage[r.value..])
    ensures r.Err? ==> storage[..] == old(storage[..])
    ensures fds == [] <==> r == Err(MalformedControl)
    ensures fds != [] && RightsControlSize(|fds|).Ok? ==>
              (r.Ok? <==> RightsControlSize(|fds|).value <= storage.Length)
  {
    hide Header, FdBytes, Align8, Padded, RightsControlSize;
    if |fds| == 0 {
      return Err(MalformedControl);
    }
    ControlSizeIsExact(fds);
    assert RightsControlSize(|fds|) != Err(MalformedControl) by { NeverMalformed(|fds|); }
    var space: nat;
    match RightsControlSize(|fds|) {
      case Err(e) => return Err(e);
      case Ok(s) => space := s;
    }
    if storage.Length < space {
      return Err(ControlBufferTooSmall);
    }
    Clear(storage, space);
    ghost var rest, cleared := old(storage[space..]), storage[..];
    var data := FdBytes(fds);
    var header := Header(CMSG_HEADER + |data|, SOL_SOCKET, SCM_RIGHTS);
    PaddedLayout(fds, header, data, rest);
    Copy(storage, 0, header);
    assert storage[..] == header + cleared[CMSG_HEADER..];
    Copy(storage, CMSG_HEADER, data);
    assert storage[..] == header + data + cleared[CMSG_HEADER + |data|..];
    return Ok(space);
  }

  lemma NeverMalformed(count: nat)
    ensures RightsControlSize(count) != Err(MalformedControl)
  {}
}

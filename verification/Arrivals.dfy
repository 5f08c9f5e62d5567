/** From sender to receiver. The kernel delivers a sender's bytes and descriptors in completions of its own
    making; when every message's descriptors come no later than its last byte, the receiver's handlers get
    the sender's messages, and otherwise the run ends at the message whose descriptors are late. */
module Arrivals {
  import opened Outcomes
  import opened Bytes
  import opened Wire
  import opened Codec
  import opened GeneratedCodec
  import opened Fragmentation
  import opened Lanes

  datatype Draft = Draft(objectId: u32, opcode: u16, schema: SupportedSchema, values: seq<Value>)
  {
    predicate Sendable() {
      objectId != 0 && Typed(schema, values) && MessageSize(schema, values).Ok?
    }
  }

  /** A message that its encoder accepts. */
  type Sent = m: Draft | m.Sendable() witness Draft(1, 0, [], [])

  ghost function FrameOf(m: Sent): seq<byte> {
    Frame(m.schema, m.opcode, m.objectId, m.values)
  }

  function FdsSent(m: Sent): seq<Fd> {
    FdsOf(m.schema, m.values)
  }

  ghost function Frames(sent: seq<Sent>): (frames: seq<seq<byte>>)
    ensures |frames| == |sent|
  {
    if sent == [] then [] else [FrameOf(sent[0])] + Frames(sent[1..])
  }

  /** The descriptors of all messages, in order. */
  function SentFds(sent: seq<Sent>): seq<Fd> {
    if sent == [] then [] else FdsSent(sent[0]) + SentFds(sent[1..])
  }

  // ---- what the receiver should make of it

  /** Where the receiver's handlers have got to: their namespace, and how often they have been called. */
  datatype Reader = Reader(objects: Namespace, count: nat)

  function At(lane: Lane): Reader {
    Reader(lane.objects, lane.count)
  }

  predicate ToTombstone(side: Side, at: Reader, m: Sent) {
    var found := Lookup(side, at.objects, m.objectId, m.opcode);
    found.Ok? && found.value.entity.destroyed
  }

  /** The sender's values in normal form, with the objects they name as the receiver knows them. */
  ghost function SeenBy(side: Side, at: Reader, m: Sent): Result<seq<Value>, Error> {
    Seen(m.schema, m.values, Some(Entries(at.objects)), side == Client)
  }

  /** The receiver knows the target by the schema the sender used. Unless the target is destroyed, the
      message's objects pass validation, its handler neither stops nor fails, and it is not the fatal error
      event. */
  ghost predicate Takes(side: Side, at: Reader, m: Sent, turns: nat -> Turn) {
    var found := Lookup(side, at.objects, m.objectId, m.opcode);
    && found.Ok? && found.value.schema == m.schema
    && (found.value.entity.destroyed ||
        (&& SeenBy(side, at, m).Ok?
         && !turns(at.count).fails && !turns(at.count).stop
         && !(side == Client && IsServerError(found.value, m.opcode))))
  }

  function Next(side: Side, at: Reader, m: Sent, turns: nat -> Turn): Reader {
    if ToTombstone(side, at, m) then at else Reader(turns(at.count).objects, at.count + 1)
  }

  /** What handlers are given: nothing for a message to a destroyed object, and otherwise its values; and
      always the descriptors it was sent with. */
  ghost function Reads(side: Side, at: Reader, m: Sent, turns: nat -> Turn): Delivery
    requires Takes(side, at, m, turns)
  {
    Delivery(m.objectId, m.opcode, m.schema, FdsSent(m),
             if ToTombstone(side, at, m) then None else Some(SeenBy(side, at, m).value))
  }

  ghost predicate Understood(side: Side, at: Reader, sent: seq<Sent>, turns: nat -> Turn)
    decreases |sent|
  {
    sent == []
    || (Takes(side, at, sent[0], turns) && Understood(side, Next(side, at, sent[0], turns), sent[1..], turns))
  }

  ghost function Expected(side: Side, at: Reader, sent: seq<Sent>, turns: nat -> Turn): (log: seq<Delivery>)
    requires Understood(side, at, sent, turns)
    ensures |log| == |sent|
    decreases |sent|
  {
    if sent == [] then []
    else [Reads(side, at, sent[0], turns)] + Expected(side, Next(side, at, sent[0], turns), sent[1..], turns)
  }

  function Reached(side: Side, at: Reader, sent: seq<Sent>, turns: nat -> Turn): Reader
    decreases |sent|
  {
    if sent == [] then at else Reached(side, Next(side, at, sent[0], turns), sent[1..], turns)
  }

  // ---- one message, one batch

  lemma FrameDecodes(m: Sent, more: seq<byte>)
    ensures Peek(FrameOf(m) + more) == Whole(|FrameOf(m)|)
    ensures Encodable(m.schema, m.values)
    ensures MessageOf(FrameOf(m)) ==
            Message(Header(m.objectId, m.opcode, |FrameOf(m)|), EncodeValues(m.schema, m.values))
  {
    hide Frame, EncodeValues, SizeFrom, Encodable, Peek;
    FrameIsWhole(m.schema, m.opcode, m.objectId, m.values, more);
    FrameIsWhole(m.schema, m.opcode, m.objectId, m.values, []);
    assert FrameOf(m) + [] == FrameOf(m);
  }

  lemma OneDelivered(side: Side, lane: Lane, m: Sent, turns: nat -> Turn, more: seq<Fd>)
    requires Takes(side, At(lane), m, turns) && lane.waiting == FdsSent(m) + more
    ensures var next := Next(side, At(lane), m, turns);
            Process(side, lane, MessageOf(FrameOf(m)), turns) ==
            (Lane(next.objects, more, lane.log + [Reads(side, At(lane), m, turns)], next.count), Running)
  {
    hide FrameOf, Decoded, FdCount, FdsOf, Entries, EncodeValues, MessageSize, Encodable, Seen;
    FrameDecodes(m, []);
    MessageRoundTrip(m.schema, m.values, Some(Entries(lane.objects)), side == Client, lane.waiting);
    assert lane.waiting[..FdCount(m.schema)] == FdsSent(m) && lane.waiting[FdCount(m.schema)..] == more;
  }

  /** A message whose descriptors are not all there ends the batch, and nothing is taken. */
  lemma OneLate(side: Side, lane: Lane, m: Sent, turns: nat -> Turn)
    requires Takes(side, At(lane), m, turns) && |lane.waiting| < |FdsSent(m)|
    ensures Process(side, lane, MessageOf(FrameOf(m)), turns) == (lane, Failed(m.objectId, Empty))
  {
    hide FrameOf, Decoded, FdCount, FdsOf, Entries, EncodeValues, MessageSize, Encodable, Seen;
    FrameDecodes(m, []);
    MessageRoundTrip(m.schema, m.values, Some(Entries(lane.objects)), side == Client, lane.waiting);
  }

  lemma RunFirst(side: Side, lane: Lane, sent: seq<Sent>, turns: nat -> Turn)
    requires sent != []
    ensures var (next, end) := Process(side, lane, MessageOf(FrameOf(sent[0])), turns);
            Run(side, lane, MessagesOf(Frames(sent)), turns) ==
            if end.Running? then Run(side, next, MessagesOf(Frames(sent[1..])), turns) else (next, end)
  {
    hide Process, FrameOf, MessageOf;
    var frames := Frames(sent);
    assert frames[1..] == Frames(sent[1..]);
    assert MessagesOf(frames)[1..] == MessagesOf(Frames(sent[1..]));
  }

  lemma FirstUnderstood(side: Side, at: Reader, sent: seq<Sent>, turns: nat -> Turn)
    requires Understood(side, at, sent, turns) && sent != []
    ensures Takes(side, at, sent[0], turns) && Understood(side, Next(side, at, sent[0], turns), sent[1..], turns)
    ensures Expected(side, at, sent, turns) ==
            [Reads(side, at, sent[0], turns)] + Expected(side, Next(side, at, sent[0], turns), sent[1..], turns)
    ensures Reached(side, at, sent, turns) == Reached(side, Next(side, at, sent[0], turns), sent[1..], turns)
    ensures SentFds(sent) == FdsSent(sent[0]) + SentFds(sent[1..])
  {
    hide Takes, Next, Reads, FdsSent;
  }

  lemma FdsOfPrefix(sent: seq<Sent>, k: nat)
    requires k < |sent|
    ensures SentFds(sent[..k + 1]) == FdsSent(sent[0]) + SentFds(sent[1..][..k])
  {
    hide FdsSent;
    assert sent[..k + 1][1..] == sent[1..][..k];
  }

  lemma LogThen(log: seq<Delivery>, one: Delivery, others: seq<Delivery>, k: nat)
    requires k <= |others|
    ensures log + [one] + others[..k] == log + ([one] + others)[..k + 1]
  {}

  lemma AppendLog(log: seq<Delivery>, one: Delivery, others: seq<Delivery>)
    ensures log + [one] + others == log + ([one] + others)
  {}

  lemma FrontFds(fds: seq<Fd>, others: seq<Fd>, more: seq<Fd>)
    ensures fds + others + more == fds + (others + more)
  {}

  lemma SplitFds(waiting: seq<Fd>, fds: seq<Fd>, others: seq<Fd>, missing: seq<Fd>)
    requires waiting + missing == fds + others && |fds| <= |waiting|
    ensures waiting == fds + waiting[|fds|..] && waiting[|fds|..] + missing == others
  {
    assert waiting == (waiting + missing)[..|waiting|];
    assert waiting[..|fds|] == (fds + others)[..|fds|] == fds;
    assert waiting[|fds|..] + missing == (waiting + missing)[|fds|..] == others;
  }

  /** From sender to receiver in one batch: handlers get the sender's messages and exactly the descriptors
      sent with them, whatever waits behind. */
  lemma {:induction false} DeliveredAsSent(side: Side, lane: Lane, sent: seq<Sent>, turns: nat -> Turn, more: seq<Fd>)
    requires Understood(side, At(lane), sent, turns) && lane.waiting == SentFds(sent) + more
    ensures var reached := Reached(side, At(lane), sent, turns);
            Run(side, lane, MessagesOf(Frames(sent)), turns) ==
            (Lane(reached.objects, more, lane.log + Expected(side, At(lane), sent, turns), reached.count), Running)
    decreases |sent|
  {
    if sent == [] {
      assert lane.log + [] == lane.log && SentFds(sent) + more == more;
    } else {
      hide FrameOf, Process, FdsSent, Takes, Next, Reads, MessageOf, Run, Frames, MessagesOf,
           Understood, Expected, Reached, SentFds, Draft.Sendable, AllSupported;
      var m, tail := sent[0], sent[1..];
      FirstUnderstood(side, At(lane), sent, turns);
      FrontFds(FdsSent(m), SentFds(tail), more);
      OneDelivered(side, lane, m, turns, SentFds(tail) + more);
      var next := Process(side, lane, MessageOf(FrameOf(m)), turns).0;
      DeliveredAsSent(side, next, tail, turns, more);
      RunFirst(side, lane, sent, turns);
      AppendLog(lane.log, Reads(side, At(lane), m, turns), Expected(side, At(next), tail, turns));
    }
  }

  /** When a batch's descriptors are not all there, the batch is delivered up to the first message that
      lacks some, and ends there. */
  lemma {:induction false} LateEndsBatch(side: Side, lane: Lane, sent: seq<Sent>, turns: nat -> Turn, missing: seq<Fd>)
    returns (m: nat)
    requires Understood(side, At(lane), sent, turns) && lane.waiting + missing == SentFds(sent) && missing != []
    ensures m < |sent| && |SentFds(sent[..m])| <= |lane.waiting| < |SentFds(sent[..m + 1])|
    ensures var (after, end) := Run(side, lane, MessagesOf(Frames(sent)), turns);
            && end == Failed(sent[m].objectId, Empty)
            && after.log == lane.log + Expected(side, At(lane), sent, turns)[..m]
    decreases |sent|
  {
    hide FrameOf, Process, FdsSent, Takes, Next, Reads, MessageOf, Run, Frames, MessagesOf,
         Understood, Expected, Reached, SentFds, Draft.Sendable, AllSupported;
    NoFds(sent);
    var first, tail := sent[0], sent[1..];
    FirstUnderstood(side, At(lane), sent, turns);
    RunFirst(side, lane, sent, turns);
    var fds := FdsSent(first);
    if |lane.waiting| < |fds| {
      OneLate(side, lane, first, turns);
      m := 0;
      FdsOfPrefix(sent, 0);
      assert lane.log + Expected(side, At(lane), sent, turns)[..0] == lane.log;
    } else {
      SplitFds(lane.waiting, fds, SentFds(tail), missing);
      var more := lane.waiting[|fds|..];
      OneDelivered(side, lane, first, turns, more);
      var next := Process(side, lane, MessageOf(FrameOf(first)), turns).0;
      var k := LateEndsBatch(side, next, tail, turns, missing);
      m := k + 1;
      FdsOfPrefix(sent, k);
      FdsOfPrefix(sent, k + 1);
      LogThen(lane.log, Reads(side, At(lane), first, turns), Expected(side, At(next), tail, turns), k);
    }
  }

  lemma NoFds(sent: seq<Sent>)
    ensures SentFds(sent[..0]) == [] && (sent == [] ==> SentFds(sent) == [])
  {}

  // ---- the byte lane

  /** How many of the messages are complete in the first `len` bytes of their stream. */
  ghost function Completed(sent: seq<Sent>, len: nat): (n: nat)
    ensures n <= |sent|
  {
    if sent == [] || |FrameOf(sent[0])| > len then 0 else 1 + Completed(sent[1..], len - |FrameOf(sent[0])|)
  }

  /** Of the first `len` bytes, `left` lie behind the first `n` messages, and so do all bytes that follow. */
  ghost predicate Behind(sent: seq<Sent>, len: nat, n: nat, left: nat, x: nat) {
    n <= |sent| && Completed(sent, len + x) == n + Completed(sent[n..], left + x)
  }

  ghost predicate Splits(sent: seq<Sent>, len: nat, n: nat, left: nat) {
    forall x: nat :: Behind(sent, len, n, left, x)
  }

  lemma ShortIsPartial(m: Sent, bytes: seq<byte>, more: seq<byte>, others: seq<byte>)
    requires bytes + more == FrameOf(m) + others && |bytes| < |FrameOf(m)|
    ensures Peek(bytes).Partial?
  {
    hide FrameOf, Peek, EncodeValues, Encodable;
    FrameDecodes(m, others);
    PeekIsStable(bytes, more);
    WholeIsThere(bytes);
  }

  lemma WholeIsThere(bytes: seq<byte>)
    ensures Peek(bytes).Whole? ==> Peek(bytes).size <= |bytes|
  {}

  lemma SplitsAtOnce(sent: seq<Sent>, len: nat)
    ensures Splits(sent, len, 0, len)
  {
    hide Completed;
    assert sent[0..] == sent;
  }

  lemma SplitsLater(sent: seq<Sent>, len: nat, n: nat, left: nat)
    requires sent != [] && Splits(sent[1..], len, n, left)
    ensures Splits(sent, |FrameOf(sent[0])| + len, n + 1, left)
  {
    hide FrameOf, Draft.Sendable, AllSupported;
    var size := |FrameOf(sent[0])|;
    var total, k := size + len, n + 1;
    forall x: nat ensures Behind(sent, total, k, left, x) {
      assert Behind(sent[1..], len, n, left, x);
      assert sent[n + 1..] == sent[1..][n..];
    }
  }

  /** Reading any initial stretch of the sender's stream gives the messages that are complete in it. */
  lemma {:induction false} PrefixParses(sent: seq<Sent>, bytes: seq<byte>, more: seq<byte>)
    requires bytes + more == Flatten(Frames(sent))
    ensures var n, parsed := Completed(sent, |bytes|), ParseStream(bytes);
            && parsed.frames == Frames(sent[..n]) && parsed.tail.Rest?
            && parsed.tail.bytes + more == Flatten(Frames(sent[n..]))
            && Splits(sent, |bytes|, n, |parsed.tail.bytes|)
    decreases |sent|
  {
    hide FrameOf, Peek, EncodeValues, Encodable, Splits, Draft.Sendable, AllSupported;
    var n := Completed(sent, |bytes|);
    if n == 0 {
      SplitsAtOnce(sent, |bytes|);
    }
    if sent == [] {
      assert bytes == [] && sent[..0] == [] && sent[0..] == [];
      EmptyIsPartial();
    } else {
      var frame, tail := FrameOf(sent[0]), sent[1..];
      assert Frames(sent)[1..] == Frames(tail);
      if |bytes| < |frame| {
        ShortIsPartial(sent[0], bytes, more, Flatten(Frames(tail)));
        assert sent[..0] == [] && sent[0..] == sent;
      } else {
        var left := bytes[|frame|..];
        FrontOfStream(bytes, more, frame, Flatten(Frames(tail)));
        FrameDecodes(sent[0], left);
        PrefixParses(tail, left, more);
        var k := n - 1;
        assert sent[..n] == [sent[0]] + tail[..k] && sent[..n][1..] == tail[..k] && sent[n..] == tail[k..];
        SplitsLater(sent, |left|, k, |ParseStream(left).tail.bytes|);
      }
    }
  }

  lemma EmptyIsPartial()
    ensures Peek([]).Partial?
  {}

  lemma FrontOfStream(bytes: seq<byte>, more: seq<byte>, frame: seq<byte>, others: seq<byte>)
    requires bytes + more == frame + others && |bytes| >= |frame|
    ensures bytes == frame + bytes[|frame|..] && bytes[..|frame|] == frame && bytes[|frame|..] + more == others
  {
    assert bytes == (bytes + more)[..|bytes|];
    assert bytes[..|frame|] == (frame + others)[..|frame|];
    assert bytes[|frame|..] + more == (bytes + more)[|frame|..];
  }

  // ---- both lanes

  function AllFds(arrivals: seq<Arrival>): seq<Fd> {
    if arrivals == [] then [] else arrivals[0].fds + AllFds(arrivals[1..])
  }

  function AllBytes(arrivals: seq<Arrival>): seq<byte> {
    if arrivals == [] then [] else arrivals[0].bytes + AllBytes(arrivals[1..])
  }

  /** How many messages are complete once `k` completions have arrived behind `pending` bytes. */
  ghost function CompletedBy(sent: seq<Sent>, pending: nat, arrivals: seq<Arrival>, k: nat): (n: nat)
    requires k <= |arrivals|
    ensures n <= |sent|
  {
    Completed(sent, pending + |AllBytes(arrivals[..k])|)
  }

  /** After `k` completions, the descriptors of every complete message have arrived, behind `waiting` ones
      that had before. */
  ghost predicate InTimeAt(sent: seq<Sent>, pending: nat, waiting: nat, arrivals: seq<Arrival>, k: nat)
    requires k <= |arrivals|
  {
    |SentFds(sent[..CompletedBy(sent, pending, arrivals, k)])| <= waiting + |AllFds(arrivals[..k])|
  }

  ghost predicate InTime(sent: seq<Sent>, pending: nat, waiting: nat, arrivals: seq<Arrival>) {
    forall k :: 0 <= k <= |arrivals| ==> InTimeAt(sent, pending, waiting, arrivals, k)
  }

  /** Completion `k` brings no more descriptors than the budget allows beside those still waiting. */
  ghost predicate RoomAt(sent: seq<Sent>, pending: nat, waiting: nat, arrivals: seq<Arrival>, budget: nat, k: nat)
    requires k < |arrivals|
  {
    waiting + |AllFds(arrivals[..k + 1])| <= budget + |SentFds(sent[..CompletedBy(sent, pending, arrivals, k)])|
  }

  ghost predicate Affordable(sent: seq<Sent>, pending: nat, waiting: nat, arrivals: seq<Arrival>, budget: nat) {
    forall k :: 0 <= k < |arrivals| ==> RoomAt(sent, pending, waiting, arrivals, budget, k)
  }

  /** After `k` completions message `m` is complete, and it is the first that lacks descriptors. */
  ghost predicate LateBy(sent: seq<Sent>, pending: nat, waiting: nat, arrivals: seq<Arrival>, k: nat, m: nat)
    requires k <= |arrivals|
  {
    && m < CompletedBy(sent, pending, arrivals, k)
    && |SentFds(sent[..m])| <= waiting + |AllFds(arrivals[..k])| < |SentFds(sent[..m + 1])|
  }

  lemma {:induction false} FdsAppend(first: seq<Sent>, second: seq<Sent>)
    ensures SentFds(first + second) == SentFds(first) + SentFds(second)
    decreases |first|
  {
    hide FdsSent, Draft.Sendable, AllSupported;
    if first == [] {
      assert first + second == second;
    } else {
      assert (first + second)[1..] == first[1..] + second;
      FdsAppend(first[1..], second);
    }
  }

  lemma FdsBehind(sent: seq<Sent>, n: nat, m: nat)
    requires n + m <= |sent|
    ensures |SentFds(sent[..n + m])| == |SentFds(sent[..n])| + |SentFds(sent[n..][..m])|
    ensures SentFds(sent) == SentFds(sent[..n]) + SentFds(sent[n..])
  {
    hide SentFds, Draft.Sendable, AllSupported;
    assert sent[..n + m] == sent[..n] + sent[n..][..m] && sent == sent[..n] + sent[n..];
    FdsAppend(sent[..n], sent[n..][..m]);
    FdsAppend(sent[..n], sent[n..]);
  }

  lemma FirstArrival(arrivals: seq<Arrival>, k: nat)
    requires k < |arrivals|
    ensures AllFds(arrivals[..k + 1]) == arrivals[0].fds + AllFds(arrivals[1..][..k])
    ensures AllBytes(arrivals[..k + 1]) == arrivals[0].bytes + AllBytes(arrivals[1..][..k])
    ensures AllFds(arrivals[..0]) == [] && AllBytes(arrivals[..0]) == []
  {
    assert arrivals[..k + 1][1..] == arrivals[1..][..k];
  }

  /** The conditions seen from after the first completion, which completed `n` messages. */
  lemma Shifted(
    sent: seq<Sent>, pending: nat, waiting: nat, arrivals: seq<Arrival>, budget: nat, len: nat, n: nat, left: nat,
    rest: nat, k: nat)
    requires k < |arrivals| && n <= |sent| && len == pending + |arrivals[0].bytes|
    requires Splits(sent, len, n, left)
    requires waiting + |arrivals[0].fds| == |SentFds(sent[..n])| + rest
    ensures CompletedBy(sent, pending, arrivals, k + 1) == n + CompletedBy(sent[n..], left, arrivals[1..], k)
    ensures InTimeAt(sent, pending, waiting, arrivals, k + 1) <==> InTimeAt(sent[n..], left, rest, arrivals[1..], k)
    ensures k + 1 < |arrivals| ==>
              (RoomAt(sent, pending, waiting, arrivals, budget, k + 1) <==>
               RoomAt(sent[n..], left, rest, arrivals[1..], budget, k))
  {
    hide Completed, SentFds, AllFds, AllBytes, Draft.Sendable, AllSupported;
    FirstArrival(arrivals, k);
    if k + 1 < |arrivals| {
      FirstArrival(arrivals, k + 1);
    }
    var x := |AllBytes(arrivals[1..][..k])|;
    assert Behind(sent, len, n, left, x);
    assert pending + |AllBytes(arrivals[..k + 1])| == len + x;
    FdsBehind(sent, n, CompletedBy(sent[n..], left, arrivals[1..], k));
  }

  lemma LateShifted(
    sent: seq<Sent>, pending: nat, waiting: nat, arrivals: seq<Arrival>, len: nat, n: nat, left: nat, rest: nat,
    k: nat, m: nat)
    requires k < |arrivals| && n <= |sent| && len == pending + |arrivals[0].bytes|
    requires Splits(sent, len, n, left)
    requires waiting + |arrivals[0].fds| == |SentFds(sent[..n])| + rest
    requires LateBy(sent[n..], left, rest, arrivals[1..], k, m)
    ensures LateBy(sent, pending, waiting, arrivals, k + 1, n + m)
    ensures n + m < |sent| && sent[n..][m] == sent[n + m]
  {
    hide Completed, SentFds, AllFds, AllBytes, Draft.Sendable, AllSupported, CompletedBy;
    Shifted(sent, pending, waiting, arrivals, 0, len, n, left, rest, k);
    FirstArrival(arrivals, k);
    FdsBehind(sent, n, m);
    FdsBehind(sent, n, m + 1);
  }

  lemma {:induction false} ExpectedSplit(side: Side, at: Reader, sent: seq<Sent>, turns: nat -> Turn, n: nat)
    requires Understood(side, at, sent, turns) && n <= |sent|
    ensures Understood(side, at, sent[..n], turns)
    ensures var middle := Reached(side, at, sent[..n], turns);
            && Understood(side, middle, sent[n..], turns)
            && Expected(side, at, sent, turns)
               == Expected(side, at, sent[..n], turns) + Expected(side, middle, sent[n..], turns)
            && Reached(side, at, sent, turns) == Reached(side, middle, sent[n..], turns)
    decreases n
  {
    hide Takes, Next, Reads, Draft.Sendable, AllSupported;
    if n == 0 {
      assert sent[..0] == [] && sent[0..] == sent;
    } else {
      ExpectedSplit(side, Next(side, at, sent[0], turns), sent[1..], turns, n - 1);
      assert sent[..n][0] == sent[0] && sent[..n][1..] == sent[1..][..n - 1] && sent[n..] == sent[1..][n - 1..];
    }
  }

  /** What a sender sends is under way: it has all been written, the receiver holds `pending` bytes of the
      first message, and completions have brought the stream up to `unread` and the descriptors up to `unsent`. */
  ghost predicate Underway(
    side: Side, capacity: nat, lane: Lane, pending: seq<byte>, arrivals: seq<Arrival>, sent: seq<Sent>,
    turns: nat -> Turn, unread: seq<byte>, unsent: seq<Fd>)
  {
    && Understood(side, At(lane), sent, turns)
    && AllFit(capacity, Flatten(Frames(sent)))
    && Completed(sent, |pending|) == 0
    && pending + AllBytes(arrivals) + unread == Flatten(Frames(sent))
    && lane.waiting + AllFds(arrivals) + unsent == SentFds(sent)
  }

  /** The receiver has been given the first `n` messages, each with the sender's descriptors, and nothing else;
      it holds what has arrived of the others. */
  ghost predicate UpToDate(
    side: Side, lane: Lane, sent: seq<Sent>, turns: nat -> Turn, unread: seq<byte>, unsent: seq<Fd>, n: nat,
    after: Lane, left: seq<byte>)
    requires Understood(side, At(lane), sent, turns) && n <= |sent|
  {
    && At(after) == Reached(side, At(lane), sent[..n], turns)
    && after.log == lane.log + Expected(side, At(lane), sent, turns)[..n]
    && left + unread == Flatten(Frames(sent[n..]))
    && after.waiting + unsent == SentFds(sent[n..])
  }

  lemma ConcatBytes(a: seq<byte>, b: seq<byte>, c: seq<byte>, d: seq<byte>)
    ensures a + (b + c) + d == (a + b) + (c + d)
  {}

  lemma ConcatFds(a: seq<Fd>, b: seq<Fd>, c: seq<Fd>, d: seq<Fd>)
    ensures a + (b + c) + d == (a + b) + (c + d)
  {}

  /** What the framer makes of the first completion's bytes. */
  lemma FirstParses(capacity: nat, pending: seq<byte>, arrivals: seq<Arrival>, sent: seq<Sent>, unread: seq<byte>)
    returns (left: seq<byte>)
    requires AllFit(capacity, Flatten(Frames(sent))) && arrivals != []
    requires pending + AllBytes(arrivals) + unread == Flatten(Frames(sent))
    ensures var n := Completed(sent, |pending| + |arrivals[0].bytes|);
            && Drain(capacity, pending, arrivals[0].bytes) == Parsed(Frames(sent[..n]), Rest(left))
            && left + AllBytes(arrivals[1..]) + unread == Flatten(Frames(sent[n..]))
            && AllFit(capacity, Flatten(Frames(sent[n..])))
            && Splits(sent, |pending| + |arrivals[0].bytes|, n, |left|)
  {
    hide Frames, Completed, Behind, AllFit, Flatten, Drain, ParseStream, Draft.Sendable, AllSupported;
    var bytes, more := pending + arrivals[0].bytes, AllBytes(arrivals[1..]) + unread;
    ConcatBytes(pending, arrivals[0].bytes, AllBytes(arrivals[1..]), unread);
    PrefixParses(sent, bytes, more);
    AllFitSplit(capacity, bytes, more);
    DrainIsParse(capacity, pending, arrivals[0].bytes);
    left := ParseStream(bytes).tail.bytes;
    assert left + AllBytes(arrivals[1..]) + unread == left + more;
  }

  /** The first completion, when it leaves no message without its descriptors. */
  lemma FirstInTime(
    side: Side, capacity: nat, budget: nat, lane: Lane, pending: seq<byte>, arrivals: seq<Arrival>, sent: seq<Sent>,
    turns: nat -> Turn, unread: seq<byte>, unsent: seq<Fd>, n: nat)
    returns (next: Lane, left: seq<byte>)
    requires Underway(side, capacity, lane, pending, arrivals, sent, turns, unread, unsent) && arrivals != []
    requires |lane.waiting| + |arrivals[0].fds| <= budget
    requires n == Completed(sent, |pending| + |arrivals[0].bytes|)
    requires |SentFds(sent[..n])| <= |lane.waiting| + |arrivals[0].fds|
    ensures Arrive(side, capacity, budget, lane, pending, arrivals[0], turns) == Live(next, left)
    ensures At(next) == Reached(side, At(lane), sent[..n], turns)
    ensures next.log == lane.log + Expected(side, At(lane), sent, turns)[..n]
    ensures Underway(side, capacity, next, left, arrivals[1..], sent[n..], turns, unread, unsent)
    ensures Splits(sent, |pending| + |arrivals[0].bytes|, n, |left|)
    ensures |lane.waiting| + |arrivals[0].fds| == |SentFds(sent[..n])| + |next.waiting|
  {
    hide Frames, Completed, AllFit, Flatten, Drain, Run, MessagesOf, Reached, Expected, Understood, SentFds,
         Draft.Sendable, AllSupported;
    left := FirstParses(capacity, pending, arrivals, sent, unread);
    var joined := lane.(waiting := lane.waiting + arrivals[0].fds);
    var missing := AllFds(arrivals[1..]) + unsent;
    ConcatFds(lane.waiting, arrivals[0].fds, AllFds(arrivals[1..]), unsent);
    FdsBehind(sent, n, 0);
    SplitFds(joined.waiting, SentFds(sent[..n]), SentFds(sent[n..]), missing);
    var more := joined.waiting[|SentFds(sent[..n])|..];
    ExpectedSplit(side, At(lane), sent, turns, n);
    DeliveredAsSent(side, joined, sent[..n], turns, more);
    next := Run(side, joined, MessagesOf(Frames(sent[..n])), turns).0;
    assert more + AllFds(arrivals[1..]) + unsent == more + missing;
    assert Behind(sent, |pending| + |arrivals[0].bytes|, n, |left|, 0);
  }

  /** The first completion, when some message it completes lacks descriptors. */
  lemma FirstIsLate(
    side: Side, capacity: nat, budget: nat, lane: Lane, pending: seq<byte>, arrivals: seq<Arrival>, sent: seq<Sent>,
    turns: nat -> Turn, unread: seq<byte>, unsent: seq<Fd>, n: nat)
    returns (m: nat)
    requires Underway(side, capacity, lane, pending, arrivals, sent, turns, unread, unsent) && arrivals != []
    requires |lane.waiting| + |arrivals[0].fds| <= budget
    requires n == Completed(sent, |pending| + |arrivals[0].bytes|)
    requires |SentFds(sent[..n])| > |lane.waiting| + |arrivals[0].fds|
    ensures m < n && |SentFds(sent[..m])| <= |lane.waiting| + |arrivals[0].fds| < |SentFds(sent[..m + 1])|
    ensures var outcome := Arrive(side, capacity, budget, lane, pending, arrivals[0], turns);
            && outcome == Over(outcome.lane, Some(sent[m].objectId), Empty)
            && outcome.lane.log == lane.log + Expected(side, At(lane), sent, turns)[..m]
  {
    hide Frames, Completed, AllFit, Flatten, Drain, Run, MessagesOf, Reached, Expected, Understood, SentFds,
         Draft.Sendable, AllSupported;
    var left := FirstParses(capacity, pending, arrivals, sent, unread);
    var joined := lane.(waiting := lane.waiting + arrivals[0].fds);
    ConcatFds(lane.waiting, arrivals[0].fds, AllFds(arrivals[1..]), unsent);
    FdsBehind(sent, n, 0);
    SplitFds(SentFds(sent[..n]) + SentFds(sent[n..]), joined.waiting, AllFds(arrivals[1..]) + unsent, []);
    var missing := SentFds(sent[..n])[|joined.waiting|..];
    assert joined.waiting + missing == SentFds(sent[..n]);
    ExpectedSplit(side, At(lane), sent, turns, n);
    m := LateEndsBatch(side, joined, sent[..n], turns, missing);
    assert sent[..n][..m] == sent[..m] && sent[..n][..m + 1] == sent[..m + 1];
  }

  lemma AtTheStart(sent: seq<Sent>, pending: nat, waiting: nat, arrivals: seq<Arrival>, budget: nat)
    requires Completed(sent, pending) == 0
    ensures CompletedBy(sent, pending, arrivals, 0) == 0 && InTimeAt(sent, pending, waiting, arrivals, 0)
    ensures arrivals != [] ==>
              (RoomAt(sent, pending, waiting, arrivals, budget, 0) <==> waiting + |arrivals[0].fds| <= budget)
  {
    hide Completed;
    NoFds(sent);
    if arrivals != [] {
      FirstArrival(arrivals, 0);
    }
  }

  lemma LateFirst(sent: seq<Sent>, pending: nat, waiting: nat, arrivals: seq<Arrival>, n: nat, m: nat)
    requires arrivals != [] && n == Completed(sent, pending + |arrivals[0].bytes|) && m < n
    requires |SentFds(sent[..m])| <= waiting + |arrivals[0].fds| < |SentFds(sent[..m + 1])|
    ensures LateBy(sent, pending, waiting, arrivals, 1, m)
  {
    hide Completed, SentFds;
    FirstArrival(arrivals, 0);
  }

  /** The log after `n` messages and then `m` more. */
  lemma LogBehind(side: Side, lane: Lane, sent: seq<Sent>, turns: nat -> Turn, n: nat, next: Lane, m: nat)
    requires Understood(side, At(lane), sent, turns) && n + m <= |sent|
    requires At(next) == Reached(side, At(lane), sent[..n], turns)
    requires next.log == lane.log + Expected(side, At(lane), sent, turns)[..n]
    ensures Understood(side, At(next), sent[n..], turns)
    ensures next.log + Expected(side, At(next), sent[n..], turns)[..m]
            == lane.log + Expected(side, At(lane), sent, turns)[..n + m]
  {
    hide Understood, Expected, Reached, Draft.Sendable, AllSupported;
    ExpectedSplit(side, At(lane), sent, turns, n);
  }

  lemma UpToDateBehind(
    side: Side, lane: Lane, sent: seq<Sent>, turns: nat -> Turn, unread: seq<byte>, unsent: seq<Fd>, n: nat,
    next: Lane, m: nat, after: Lane, left: seq<byte>)
    requires Understood(side, At(lane), sent, turns) && n + m <= |sent|
    requires At(next) == Reached(side, At(lane), sent[..n], turns)
    requires next.log == lane.log + Expected(side, At(lane), sent, turns)[..n]
    requires Understood(side, At(next), sent[n..], turns)
    requires UpToDate(side, next, sent[n..], turns, unread, unsent, m, after, left)
    ensures UpToDate(side, lane, sent, turns, unread, unsent, n + m, after, left)
  {
    hide Understood, Expected, Reached, Frames, Flatten, SentFds, Draft.Sendable, AllSupported;
    LogBehind(side, lane, sent, turns, n, next, m);
    PrefixUnderstood(side, At(lane), sent, turns, n + m);
    ExpectedSplit(side, At(lane), sent[..n + m], turns, n);
    assert sent[..n + m][..n] == sent[..n] && sent[..n + m][n..] == sent[n..][..m] && sent[n..][m..] == sent[n + m..];
  }

  lemma PrefixUnderstood(side: Side, at: Reader, sent: seq<Sent>, turns: nat -> Turn, n: nat)
    requires Understood(side, at, sent, turns) && n <= |sent|
    ensures Understood(side, at, sent[..n], turns)
  {
    ExpectedSplit(side, at, sent, turns, n);
  }

  lemma NothingYet(
    side: Side, capacity: nat, lane: Lane, pending: seq<byte>, sent: seq<Sent>, turns: nat -> Turn, unread: seq<byte>,
    unsent: seq<Fd>)
    requires Underway(side, capacity, lane, pending, [], sent, turns, unread, unsent)
    ensures UpToDate(side, lane, sent, turns, unread, unsent, 0, lane, pending)
  {
    hide Frames, Flatten, SentFds, AllFit, Completed, Understood, Draft.Sendable, AllSupported;
    assert sent[..0] == [] && sent[0..] == sent;
    assert pending + AllBytes([]) + unread == pending + unread;
    assert lane.waiting + AllFds([]) + unsent == lane.waiting + unsent;
  }

  lemma TooMany(
    side: Side, capacity: nat, budget: nat, lane: Lane, pending: seq<byte>, arrival: Arrival, turns: nat -> Turn)
    requires |lane.waiting| + |arrival.fds| > budget
    ensures Arrive(side, capacity, budget, lane, pending, arrival, turns) == Over(lane, None, DescriptorBudgetExceeded)
  {}

  /** What has arrived decides how far the receiver gets. Before the first completion that exceeds the budget
      or leaves a message without its descriptors everything is delivered as sent; a completion of either kind
      ends the run, the second kind at the message that is late. */
  lemma {:induction false} ArrivalsDecide(
    side: Side, capacity: nat, budget: nat, lane: Lane, pending: seq<byte>, arrivals: seq<Arrival>, sent: seq<Sent>,
    turns: nat -> Turn, unread: seq<byte>, unsent: seq<Fd>)
    returns (k: nat, m: nat)
    requires Underway(side, capacity, lane, pending, arrivals, sent, turns, unread, unsent)
    ensures k <= |arrivals| && m <= |sent|
    ensures forall j :: 0 <= j < k ==> InTimeAt(sent, |pending|, |lane.waiting|, arrivals, j)
    ensures forall j :: 0 <= j < k - 1 ==> RoomAt(sent, |pending|, |lane.waiting|, arrivals, budget, j)
    ensures match ArriveAll(side, capacity, budget, lane, pending, arrivals, turns)
            case Live(after, left) =>
              && k == |arrivals| && m == CompletedBy(sent, |pending|, arrivals, k)
              && InTimeAt(sent, |pending|, |lane.waiting|, arrivals, k)
              && (k > 0 ==> RoomAt(sent, |pending|, |lane.waiting|, arrivals, budget, k - 1))
              && UpToDate(side, lane, sent, turns, unread, unsent, m, after, left)
            case Over(after, Some(id), cause) =>
              && k > 0 && RoomAt(sent, |pending|, |lane.waiting|, arrivals, budget, k - 1)
              && LateBy(sent, |pending|, |lane.waiting|, arrivals, k, m)
              && id == sent[m].objectId && cause == Empty
              && after.log == lane.log + Expected(side, At(lane), sent, turns)[..m]
            case Over(after, None, cause) =>
              && k > 0 && !RoomAt(sent, |pending|, |lane.waiting|, arrivals, budget, k - 1)
              && m == CompletedBy(sent, |pending|, arrivals, k - 1)
              && cause == DescriptorBudgetExceeded
              && after.log == lane.log + Expected(side, At(lane), sent, turns)[..m]
    decreases |arrivals|
  {
    hide InTimeAt, RoomAt, LateBy, UpToDate, Completed, CompletedBy, Arrive, Understood, Expected, Reached, Frames,
         Flatten, SentFds, AllFds, AllBytes, AllFit, Splits, Draft.Sendable, AllSupported;
    AtTheStart(sent, |pending|, |lane.waiting|, arrivals, budget);
    if arrivals == [] {
      k, m := 0, 0;
      NothingYet(side, capacity, lane, pending, sent, turns, unread, unsent);
      return;
    }
    var len := |pending| + |arrivals[0].bytes|;
    var n := Completed(sent, len);
    if |lane.waiting| + |arrivals[0].fds| > budget {
      k, m := 1, 0;
      TooMany(side, capacity, budget, lane, pending, arrivals[0], turns);
      assert Expected(side, At(lane), sent, turns)[..0] == [];
    } else if |SentFds(sent[..n])| > |lane.waiting| + |arrivals[0].fds| {
      k := 1;
      m := FirstIsLate(side, capacity, budget, lane, pending, arrivals, sent, turns, unread, unsent, n);
      LateFirst(sent, |pending|, |lane.waiting|, arrivals, n, m);
    } else {
      var next, left := FirstInTime(side, capacity, budget, lane, pending, arrivals, sent, turns, unread, unsent, n);
      var tail, others := arrivals[1..], sent[n..];
      var k', m' := ArrivalsDecide(side, capacity, budget, next, left, tail, others, turns, unread, unsent);
      k, m := k' + 1, n + m';
      forall j | 1 <= j <= |arrivals|
        ensures CompletedBy(sent, |pending|, arrivals, j) == n + CompletedBy(others, |left|, tail, j - 1)
        ensures InTimeAt(sent, |pending|, |lane.waiting|, arrivals, j)
                <==> InTimeAt(others, |left|, |next.waiting|, tail, j - 1)
        ensures j < |arrivals| ==> (RoomAt(sent, |pending|, |lane.waiting|, arrivals, budget, j)
                                    <==> RoomAt(others, |left|, |next.waiting|, tail, budget, j - 1))
      {
        Shifted(sent, |pending|, |lane.waiting|, arrivals, budget, len, n, |left|, |next.waiting|, j - 1);
      }
      var outcome := ArriveAll(side, capacity, budget, next, left, tail, turns);
      assert ArriveAll(side, capacity, budget, lane, pending, arrivals, turns) == outcome;
      LogBehind(side, lane, sent, turns, n, next, m');
      match outcome {
        case Live(after, unparsed) =>
          UpToDateBehind(side, lane, sent, turns, unread, unsent, n, next, m', after, unparsed);
        case Over(_, Some(_), _) =>
          LateShifted(sent, |pending|, |lane.waiting|, arrivals, len, n, |left|, |next.waiting|, k', m');
        case Over(_, None, _) =>
      }
    }
  }

  lemma LateIsNotInTime(sent: seq<Sent>, pending: nat, waiting: nat, arrivals: seq<Arrival>, k: nat, m: nat)
    requires k <= |arrivals| && LateBy(sent, pending, waiting, arrivals, k, m)
    ensures !InTimeAt(sent, pending, waiting, arrivals, k)
  {
    hide CompletedBy, SentFds, AllFds, Draft.Sendable, AllSupported;
    var n := CompletedBy(sent, pending, arrivals, k);
    FdsBehind(sent[..n], m + 1, 0);
    assert sent[..n][..m + 1] == sent[..m + 1];
  }

  /** All of the stream completes all messages. */
  lemma {:induction false} WholeStream(sent: seq<Sent>)
    ensures Completed(sent, |Flatten(Frames(sent))|) == |sent|
    decreases |sent|
  {
    hide FrameOf, Draft.Sendable, AllSupported;
    if sent != [] {
      assert Frames(sent)[1..] == Frames(sent[1..]);
      WholeStream(sent[1..]);
    }
  }

  lemma EverythingDelivered(
    side: Side, capacity: nat, lane: Lane, pending: seq<byte>, arrivals: seq<Arrival>, sent: seq<Sent>,
    turns: nat -> Turn, m: nat, after: Lane, left: seq<byte>)
    requires Underway(side, capacity, lane, pending, arrivals, sent, turns, [], [])
    requires m == CompletedBy(sent, |pending|, arrivals, |arrivals|)
    requires UpToDate(side, lane, sent, turns, [], [], m, after, left)
    ensures m == |sent| && left == [] && after.waiting == []
    ensures At(after) == Reached(side, At(lane), sent, turns)
    ensures after.log == lane.log + Expected(side, At(lane), sent, turns)
  {
    hide Completed, Flatten, Understood, Expected, Reached, AllFit, SentFds, Frames, Draft.Sendable, AllSupported;
    WholeStream(sent);
    assert arrivals[..|arrivals|] == arrivals;
    assert pending + AllBytes(arrivals) + [] == pending + AllBytes(arrivals);
    assert sent[..m] == sent && sent[m..] == [];
    NothingSent();
    assert left + [] == left && after.waiting + [] == after.waiting;
  }

  lemma NothingSent()
    ensures SentFds([]) == [] && Flatten(Frames([])) == []
  {}

  /** From sender to receiver on both lanes, however the kernel cuts the stream and wherever it puts the
      descriptors: the session goes on if and only if every message's descriptors come no later than its last
      byte and the budget holds what waits; and then handlers have got exactly the messages that are complete,
      as they were sent. In the end nothing is left over. */
  lemma SentThroughArrivals(
    side: Side, capacity: nat, budget: nat, lane: Lane, pending: seq<byte>, arrivals: seq<Arrival>, sent: seq<Sent>,
    turns: nat -> Turn, unread: seq<byte>, unsent: seq<Fd>)
    requires Underway(side, capacity, lane, pending, arrivals, sent, turns, unread, unsent)
    ensures var outcome := ArriveAll(side, capacity, budget, lane, pending, arrivals, turns);
            var n := CompletedBy(sent, |pending|, arrivals, |arrivals|);
            var reached := Reached(side, At(lane), sent, turns);
            && (outcome.Live? <==> InTime(sent, |pending|, |lane.waiting|, arrivals)
                                   && Affordable(sent, |pending|, |lane.waiting|, arrivals, budget))
            && (outcome.Live? ==>
                  UpToDate(side, lane, sent, turns, unread, unsent, n, outcome.lane, outcome.pending))
            && (outcome.Live? && unread == [] && unsent == [] ==>
                  outcome == Live(Lane(reached.objects, [], lane.log + Expected(side, At(lane), sent, turns),
                                       reached.count), []))
  {
    hide InTimeAt, RoomAt, LateBy, UpToDate, CompletedBy, ArriveAll, Underway, Understood, Expected, Reached,
         Draft.Sendable, AllSupported;
    var k, m := ArrivalsDecide(side, capacity, budget, lane, pending, arrivals, sent, turns, unread, unsent);
    var outcome := ArriveAll(side, capacity, budget, lane, pending, arrivals, turns);
    if outcome.Over? && outcome.objectId.Some? {
      LateIsNotInTime(sent, |pending|, |lane.waiting|, arrivals, k, m);
    }
    if outcome.Live? && unread == [] && unsent == [] {
      EverythingDelivered(side, capacity, lane, pending, arrivals, sent, turns, m, outcome.lane, outcome.pending);
    }
  }

  /** The other half: when the first completion in trouble is one that leaves a message without its
      descriptors, the run ends with `Empty` at the first such message, after all messages before it. */
  lemma LateDescriptorEndsRun(
    side: Side, capacity: nat, budget: nat, lane: Lane, pending: seq<byte>, arrivals: seq<Arrival>, sent: seq<Sent>,
    turns: nat -> Turn, unread: seq<byte>, unsent: seq<Fd>)
    returns (k: nat, m: nat)
    requires Underway(side, capacity, lane, pending, arrivals, sent, turns, unread, unsent)
    requires Affordable(sent, |pending|, |lane.waiting|, arrivals, budget)
    requires !InTime(sent, |pending|, |lane.waiting|, arrivals)
    ensures k <= |arrivals| && LateBy(sent, |pending|, |lane.waiting|, arrivals, k, m) && m < |sent|
    ensures forall j :: 0 <= j < k ==> InTimeAt(sent, |pending|, |lane.waiting|, arrivals, j)
    ensures var outcome := ArriveAll(side, capacity, budget, lane, pending, arrivals, turns);
            && outcome == Over(outcome.lane, Some(sent[m].objectId), Empty)
            && outcome.lane.log == lane.log + Expected(side, At(lane), sent, turns)[..m]
  {
    hide InTimeAt, RoomAt, UpToDate, CompletedBy, ArriveAll, Underway, Understood, Expected, Reached,
         Draft.Sendable, AllSupported;
    k, m := ArrivalsDecide(side, capacity, budget, lane, pending, arrivals, sent, turns, unread, unsent);
  }
}

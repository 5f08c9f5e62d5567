/** What the receiving side of a connection makes of a byte stream, however the kernel cuts
    it into receive buffers. */
module Fragmentation {
  import opened Outcomes
  import opened Bytes
  import opened Wire

  /** What one call of the framer is to do with `pending` bytes of an earlier buffer, the
      unread `input`, and scratch space for at most `capacity` bytes. */
  datatype Verdict = Wait | Fail(error: Error) | Deliver(size: nat)

  function Judge(capacity: nat, pending: seq<byte>, input: seq<byte>): (v: Verdict)
    ensures v.Deliver? ==> Peek(pending + input) == Whole(v.size)
    ensures v.Wait? ==> Peek(pending + input).Partial?
  {
    var bytes := pending + input;
    var front := Peek(bytes);
    if pending == [] && front.Whole? then Deliver(front.size)
    else if pending == [] && front.Bad? then Fail(front.error)
    else if !Fits(capacity, bytes) then Fail(MessageTooLarge)
    else match front
    case Whole(n) => Deliver(n)
    case Bad(e) => Fail(e)
    case Partial => Wait
  }

  /** Scratch space holds the header bytes seen so far, and the message they declare. */
  predicate Fits(capacity: nat, bytes: seq<byte>) {
    if |bytes| < HEADER_LEN then |bytes| <= capacity
    else
      && HEADER_LEN <= capacity
      && (DecodeHeader(bytes).Ok? ==> DecodeHeader(bytes).value.size <= capacity)
  }

  /** How a stream ends: with bytes of an incomplete message, or at an error with everything
      from the offending message on left over. */
  datatype Tail = Rest(bytes: seq<byte>) | Stopped(error: Error, bytes: seq<byte>)

  datatype Parsed = Parsed(frames: seq<seq<byte>>, tail: Tail)

  /** The reference: the whole stream read directly. */
  function ParseStream(bytes: seq<byte>): Parsed
    decreases |bytes|
  {
    match Peek(bytes)
    case Partial => Parsed([], Rest(bytes))
    case Bad(e) => Parsed([], Stopped(e, bytes))
    case Whole(n) =>
      var others := ParseStream(bytes[n..]);
      Parsed([bytes[..n]] + others.frames, others.tail)
  }

  /** Calling `next` until it returns null or fails, on one receive buffer. */
  function Drain(capacity: nat, pending: seq<byte>, input: seq<byte>): Parsed
    decreases |pending| + |input|
  {
    var bytes := pending + input;
    match Judge(capacity, pending, input)
    case Wait => Parsed([], Rest(bytes))
    case Fail(e) => Parsed([], Stopped(e, bytes))
    case Deliver(n) =>
      var others := Drain(capacity, [], bytes[n..]);
      Parsed([bytes[..n]] + others.frames, others.tail)
  }

  function Flatten(chunks: seq<seq<byte>>): seq<byte> {
    if chunks == [] then [] else chunks[0] + Flatten(chunks[1..])
  }

  /** Draining one receive buffer after the other. */
  function Feed(capacity: nat, pending: seq<byte>, chunks: seq<seq<byte>>): Parsed
    decreases |chunks|
  {
    if chunks == [] then Parsed([], Rest(pending)) else
    var first := Drain(capacity, pending, chunks[0]);
    match first.tail
    case Stopped(e, left) => Parsed(first.frames, Stopped(e, left + Flatten(chunks[1..])))
    case Rest(left) =>
      var others := Feed(capacity, left, chunks[1..]);
      Parsed(first.frames + others.frames, others.tail)
  }

  /** Every message the stream declares, the incomplete one at its end included, fits scratch space. */
  predicate AllFit(capacity: nat, bytes: seq<byte>)
    decreases |bytes|
  {
    && Fits(capacity, bytes)
    && match Peek(bytes)
       case Whole(n) => AllFit(capacity, bytes[n..])
       case _ => true
  }

  lemma {:induction false} ParseAppend(front: seq<byte>, more: seq<byte>)
    ensures var first := ParseStream(front);
            match first.tail
            case Stopped(e, left) => ParseStream(front + more) == Parsed(first.frames, Stopped(e, left + more))
            case Rest(left) =>
              var others := ParseStream(left + more);
              ParseStream(front + more) == Parsed(first.frames + others.frames, others.tail)
    decreases |front|
  {
    hide DecodeHeader;
    PeekIsStable(front, more);
    if Peek(front).Whole? {
      var n := Peek(front).size;
      ParseAppend(front[n..], more);
      ParseWhole(front);
      ParseWhole(front + more);
      PrependFrame(front[..n], ParseStream(front[n..]), ParseStream((front + more)[n..]));
    } else if Peek(front).Partial? {
      PrependNothing(ParseStream(front + more));
    }
  }

  lemma ParseWhole(bytes: seq<byte>)
    requires Peek(bytes).Whole?
    ensures var n := Peek(bytes).size;
            var others := ParseStream(bytes[n..]);
            ParseStream(bytes) == Parsed([bytes[..n]] + others.frames, others.tail)
  {}

  lemma PrependNothing(parsed: Parsed)
    ensures Parsed([] + parsed.frames, parsed.tail) == parsed
  {}

  lemma PrependFrame(frame: seq<byte>, first: Parsed, whole: Parsed)
    ensures forall others: Parsed :: whole == Parsed(first.frames + others.frames, others.tail) ==>
              [frame] + whole.frames == ([frame] + first.frames) + others.frames
  {}

  lemma FitsPrefix(capacity: nat, front: seq<byte>, more: seq<byte>)
    requires Fits(capacity, front + more)
    ensures Fits(capacity, front)
  {
    hide DecodeHeader;
    if |front| >= HEADER_LEN {
      HeaderIsLocal(front, more);
    }
  }

  lemma {:induction false} AllFitSplit(capacity: nat, front: seq<byte>, more: seq<byte>)
    requires AllFit(capacity, front + more)
    ensures AllFit(capacity, front)
    ensures ParseStream(front).tail.Rest? ==> AllFit(capacity, ParseStream(front).tail.bytes + more)
    decreases |front|
  {
    hide DecodeHeader;
    FitsPrefix(capacity, front, more);
    PeekIsStable(front, more);
    if Peek(front).Whole? {
      AllFitSplit(capacity, front[Peek(front).size..], more);
    }
  }

  lemma {:induction false} DrainIsParse(capacity: nat, pending: seq<byte>, input: seq<byte>)
    requires AllFit(capacity, pending + input)
    ensures Drain(capacity, pending, input) == ParseStream(pending + input)
    decreases |pending| + |input|
  {
    hide Fits, DecodeHeader;
    var bytes := pending + input;
    if Peek(bytes).Whole? {
      var n := Peek(bytes).size;
      assert [] + bytes[n..] == bytes[n..];
      DrainIsParse(capacity, [], bytes[n..]);
    }
  }

  /** Fragmentation is invisible: any way of cutting the stream yields the messages, the error
      point and the leftover of the uncut stream, if scratch space fits every message. */
  lemma {:induction false} FragmentationIsInvisible(capacity: nat, pending: seq<byte>, chunks: seq<seq<byte>>)
    requires AllFit(capacity, pending + Flatten(chunks))
    requires Peek(pending).Partial?
    ensures Feed(capacity, pending, chunks) == ParseStream(pending + Flatten(chunks))
    decreases |chunks|
  {
    hide DecodeHeader;
    if chunks == [] {
      assert pending + [] == pending;
    } else {
      var others := Flatten(chunks[1..]);
      assert pending + Flatten(chunks) == (pending + chunks[0]) + others;
      AllFitSplit(capacity, pending + chunks[0], others);
      DrainIsParse(capacity, pending, chunks[0]);
      ParseAppend(pending + chunks[0], others);
      var first := Drain(capacity, pending, chunks[0]);
      if first.tail.Rest? {
        TailIsPartial(pending + chunks[0]);
        FragmentationIsInvisible(capacity, first.tail.bytes, chunks[1..]);
      }
    }
  }

  lemma {:induction false} TailIsPartial(bytes: seq<byte>)
    ensures var tail := ParseStream(bytes).tail;
            match tail
            case Rest(left) => Peek(left).Partial?
            case Stopped(e, left) => Peek(left) == Bad(e) && e != MessageTooLarge
    decreases |bytes|
  {
    if Peek(bytes).Whole? {
      TailIsPartial(bytes[Peek(bytes).size..]);
    }
  }

  /** A message that does not fit is refused when the kernel cuts it after seven bytes. */
  lemma CutUnfit(capacity: nat, bytes: seq<byte>) returns (head: seq<byte>, rest: seq<byte>)
    requires !Fits(capacity, bytes)
    ensures head + rest == bytes
    ensures Feed(capacity, [], [head, rest]).tail == Stopped(MessageTooLarge, bytes)
  {
    hide DecodeHeader;
    var cut := if |bytes| < 7 then |bytes| else 7;
    head, rest := bytes[..cut], bytes[cut..];
    var none: seq<byte> := [];
    assert none + head == head && head != [] && head + rest == bytes;
    assert Flatten([head, rest][1..]) == rest by {
      assert [head, rest][1..] == [rest] && Flatten([rest][1..]) == [];
      assert rest + [] == rest;
    }
    if cut <= capacity {
      assert Judge(capacity, [], head) == Wait;
      assert Judge(capacity, head, rest) == Fail(MessageTooLarge);
      var second := [head, rest][1..];
      assert second == [rest];
      assert Flatten(second[1..]) == [];
      assert bytes + [] == bytes;
      assert Feed(capacity, head, second).tail == Stopped(MessageTooLarge, bytes);
    } else {
      assert Judge(capacity, [], head) == Fail(MessageTooLarge);
    }
  }

  /** If some declared message does not fit, some way of cutting the stream is refused. */
  lemma {:induction false} UnfitIsVisible(capacity: nat, bytes: seq<byte>) returns (head: seq<byte>, rest: seq<byte>)
    requires !AllFit(capacity, bytes)
    ensures head + rest == bytes
    ensures Feed(capacity, [], [head, rest]).tail.Stopped?
    ensures Feed(capacity, [], [head, rest]).tail.error == MessageTooLarge
    decreases |bytes|
  {
    hide DecodeHeader;
    if !Fits(capacity, bytes) {
      head, rest := CutUnfit(capacity, bytes);
    } else {
      var n := Peek(bytes).size;
      var h, r := UnfitIsVisible(capacity, bytes[n..]);
      head, rest := bytes[..n] + h, r;
      assert head + rest == bytes;
      PeekIsStable(bytes[..n], h);
      assert Peek(bytes[..n]) == Whole(n) by { PeekOfFrame(bytes, n); }
      assert [] + head == head && head[n..] == h;
      assert Drain(capacity, [], head).tail == Drain(capacity, [], h).tail;
      assert Feed(capacity, [], [head, rest]).tail.Stopped?;
    }
  }

  lemma PeekOfFrame(bytes: seq<byte>, n: nat)
    requires Peek(bytes) == Whole(n)
    ensures Peek(bytes[..n]) == Whole(n)
  {
    hide DecodeHeader;
    assert bytes[..n] + bytes[n..] == bytes;
    HeaderIsLocal(bytes[..n], bytes[n..]);
  }

  /** The exact condition: every way of cutting the stream agrees with the uncut stream if and
      only if scratch space fits every declared message. */
  lemma InvisibleIffAllFit(capacity: nat, bytes: seq<byte>)
    ensures (forall chunks: seq<seq<byte>> ::
               Flatten(chunks) == bytes ==> Feed(capacity, [], chunks) == ParseStream(bytes))
            <==> AllFit(capacity, bytes)
  {
    hide DecodeHeader;
    if AllFit(capacity, bytes) {
      forall chunks: seq<seq<byte>> | Flatten(chunks) == bytes
        ensures Feed(capacity, [], chunks) == ParseStream(bytes)
      {
        var none: seq<byte> := [];
        assert none + bytes == bytes;
        FragmentationIsInvisible(capacity, none, chunks);
      }
    } else {
      var head, rest := UnfitIsVisible(capacity, bytes);
      var chunks := [head, rest];
      assert Flatten(chunks) == bytes by {
        assert chunks[1..] == [rest] && Flatten([rest][1..]) == [];
        assert rest + [] == rest;
      }
      TailIsPartial(bytes);
    }
  }
}

/** The connection statechart and the actor that applies completions to it. */
module Connection {
  import opened Outcomes
  import opened Bytes
  import opened Completion
  import opened Transmit

  datatype Phase = Open | ProtocolError | Draining | ClosingIdle | Canceling | Canceled

  datatype State = State(phase: Phase, receiving: bool)
  {
    predicate Closing() {
      phase in {ClosingIdle, Canceling, Canceled}
    }

    predicate CancelRequested() {
      phase in {Canceling, Canceled}
    }

    /** The phase after a close is asked for: closing phases are their own. */
    function ClosedPhase(): Phase {
      if Closing() then phase else ClosingIdle
    }
  }

  datatype Input =
    | ArmReceive | BeginProtocolError | CommitProtocolError | BeginClose | RequestCancel
    | ReceiveContinues | ReceiveStops | ReceiveCloses | SendDrained | SendFails | CancelCompletes

  /** The transition table. */
  function Step(state: State, input: Input): Result<State, Error> {
    match input
    case ArmReceive =>
      if state.phase != Open then Err(Closing)
      else if state.receiving then Err(ReceiveAlreadyActive)
      else Ok(state.(receiving := true))
    case BeginProtocolError =>
      if state.phase != Open then Err(Closing) else Ok(state.(phase := ProtocolError))
    case CommitProtocolError =>
      if state.phase != ProtocolError then Err(NoProtocolError) else Ok(state.(phase := Draining))
    case BeginClose => Ok(state.(phase := state.ClosedPhase()))
    case RequestCancel =>
      if state.CancelRequested() then Err(CancelAlreadyActive) else Ok(state.(phase := Canceling))
    case ReceiveContinues =>
      if !state.receiving then Err(ReceiveNotActive) else Ok(state)
    case ReceiveStops =>
      if !state.receiving then Err(ReceiveNotActive) else Ok(state.(receiving := false))
    case ReceiveCloses =>
      if !state.receiving then Err(ReceiveNotActive)
      else Ok(state.(receiving := false, phase := state.ClosedPhase()))
    case SendDrained => Ok(if state.phase == Draining then state.(phase := ClosingIdle) else state)
    case SendFails => Ok(state.(phase := state.ClosedPhase()))
    case CancelCompletes =>
      if state.phase != Canceling then Err(CancelNotActive) else Ok(state.(phase := Canceled))
  }

  /** How far along its one-way road a phase is. */
  function Depth(phase: Phase): nat {
    match phase
    case Open => 0
    case ProtocolError => 1
    case Draining => 2
    case ClosingIdle => 3
    case Canceling => 4
    case Canceled => 5
  }

  /** Phases only move forward, so closing is never left. */
  lemma StepMovesForward(state: State, input: Input)
    requires Step(state, input).Ok?
    ensures Depth(state.phase) <= Depth(Step(state, input).value.phase)
    ensures state.Closing() ==> Step(state, input).value.Closing()
  {
    match input
    case _ =>
  }

  // ---- completions

  const CANCELED: nat := 125
  const NOBUFS: nat := 105
  const NOENT: nat := 2
  const ALREADY: nat := 114

  datatype Cqe = Cqe(userData: u64, res: i32, more: bool, buffer: bool, bufferMore: bool)
  {
    /** 0 stands for success. */
    function Errno(): nat {
      if -4096 < res < 0 then -res else 0
    }
  }

  datatype Event =
    | Received(length: nat, more: bool)
    | Sent(length: nat, moreQueued: bool)
    | Disconnected
    | ReceiveStopped
    | SendStopped
    | BuffersExhausted
    | CancelComplete

  /** What a receive completion reports, when a receive was active. */
  function ReceiveReport(state: State, cqe: Cqe): Result<Event, Error> {
    if cqe.res > 0 then Ok(Received(cqe.res, cqe.more))
    else if cqe.res == 0 then Ok(Event.Disconnected)
    else if state.phase != Open && cqe.Errno() == CANCELED then Ok(ReceiveStopped)
    else if cqe.Errno() == NOBUFS then Ok(BuffersExhausted)
    else Err(IoFailure)
  }

  /** The state after a receive completion: data with the more flag keeps the receive armed, end of
      stream and failures close the connection. */
  function AfterReceive(state: State, cqe: Cqe): State {
    var report := ReceiveReport(state, cqe);
    State(if report == Ok(Event.Disconnected) || report == Err(IoFailure) then state.ClosedPhase() else state.phase,
          cqe.res > 0 && cqe.more)
  }

  /** The state after a send completion that left `queued` bytes. */
  function AfterSend(state: State, cqe: Cqe, queued: nat): State {
    if cqe.res <= 0 then
      if state.Closing() then state else state.(phase := ClosingIdle)
    else if queued == 0 && state.phase == Draining then state.(phase := ClosingIdle)
    else state
  }

  function SendReport(state: State, cqe: Cqe, queued: nat): Result<Event, Error> {
    if cqe.res > 0 then Ok(Sent(cqe.res, queued > 0))
    else if state.Closing() && cqe.Errno() == CANCELED then Ok(SendStopped)
    else Err(IoFailure)
  }

  function CancelReport(cqe: Cqe): Result<Event, Error> {
    if cqe.res < 0 && cqe.Errno() !in {NOENT, ALREADY} then Err(IoFailure) else Ok(CancelComplete)
  }

  /** The parts of the transmit queue that completions act on. */
  datatype Tx = Tx(bytes: seq<byte>, active: Option<Flight>, reserved: bool)

  /** A send completion is refused, with nothing changed, while a reservation is open, when nothing is
      in flight, and when it claims more bytes than were submitted. */
  predicate SendRefused(tx: Tx, cqe: Cqe) {
    tx.reserved || tx.active.None? || cqe.res > tx.active.value.byteCount
  }

  /** What remains queued after an accepted send completion. */
  function Unsent(tx: Tx, cqe: Cqe): seq<byte> {
    if 0 < cqe.res <= |tx.bytes| then tx.bytes[cqe.res..] else tx.bytes
  }

  ghost predicate SendCompleted(
    before: State, tx: Tx, cqe: Cqe, after: State, tx': Tx, r: Result<Event, Error>)
  {
    if SendRefused(tx, cqe) then
      r.Err? && r.error in {ReservationActive, NoSendActive, InvalidCompletion} && after == before && tx' == tx
    else
      && tx' == Tx(Unsent(tx, cqe), None, false)
      && after == AfterSend(before, cqe, |tx'.bytes|)
      && r == SendReport(before, cqe, |tx'.bytes|)
  }

  /** What a completion that reached the right actor does. */
  ghost predicate Completed(
    operation: Operation, before: State, tx: Tx, cqe: Cqe, after: State, tx': Tx, r: Result<Event, Error>)
  {
    match operation
    case Receive =>
      tx' == tx && if before.receiving then r == ReceiveReport(before, cqe) && after == AfterReceive(before, cqe)
                   else r == Err(ReceiveNotActive) && after == before
    case Send => SendCompleted(before, tx, cqe, after, tx', r)
    case Cancel =>
      tx' == tx && if before.phase == Canceling then r == CancelReport(cqe) && after == before.(phase := Canceled)
                   else r == Err(CancelNotActive) && after == before
    case Accept | AcceptCancel => r == Err(UnexpectedCompletion) && after == before && tx' == tx
  }

  class Actor {
    const slot: u24
    const generation: u32
    const transmit: Queue
    var state: State

    constructor (slot: u24, generation: u32, transmit: Queue)
      requires generation != 0
      ensures state == State(Open, false)
      ensures this.slot == slot && this.generation == generation && this.transmit == transmit
    {
      this.slot, this.generation, this.transmit, state := slot, generation, transmit, State(Open, false);
    }

    function View(): Tx
      reads this, transmit
    {
      Tx(transmit.bytes, transmit.active, transmit.reservationActive)
    }

    function MakeToken(operation: Operation): u64 {
      Encode(Token(operation, slot, generation))
    }

    method ArmReceive() returns (r: Result<u64, Error>)
      modifies this`state
      ensures r.Ok? <==> old(state) == State(Open, false)
      ensures r.Ok? ==> r.value == MakeToken(Receive) && state == State(Open, true)
      ensures r.Err? ==> state == old(state)
                         && r.error == if state.phase != Open then Closing else ReceiveAlreadyActive
    {
      match Step(state, Input.ArmReceive) {
        case Err(e) => return Err(e);
        case Ok(next) => state := next;
      }
      return Ok(MakeToken(Receive));
    }

    /** A send of `byteCount` bytes and all queued descriptors is about to be submitted. */
    method BeginSend(byteCount: nat) returns (r: Result<u64, Error>)
      requires transmit.Valid()
      modifies transmit`active
      ensures transmit.Valid()
      ensures state.phase == ProtocolError ==> r == Err(ProtocolErrorPending)
      ensures state.Closing() ==> r == Err(Closing)
      ensures r.Ok? <==> state.phase in {Open, Draining} && !transmit.reservationActive && old(transmit.active).None?
                         && 0 < byteCount <= |transmit.bytes|
      ensures r.Ok? ==> r.value == MakeToken(Send)
                        && transmit.active == Some(Flight(byteCount, |transmit.descriptors|))
      ensures r.Err? ==> transmit.active == old(transmit.active)
    {
      if state.phase == ProtocolError {
        return Err(ProtocolErrorPending);
      }
      if state.Closing() {
        return Err(Closing);
      }
      var begun := transmit.Begin(byteCount);
      if begun.Err? {
        return Err(begun.error);
      }
      return Ok(MakeToken(Send));
    }

    method BeginProtocolError() returns (r: Result<(), Error>)
      modifies this`state
      ensures r == if old(state).phase == Open then Ok(()) else Err(Closing)
      ensures state == if r.Ok? then old(state).(phase := ProtocolError) else old(state)
    {
      match Step(state, Input.BeginProtocolError) {
        case Err(e) => return Err(e);
        case Ok(next) => state := next;
      }
      return Ok(());
    }

    /** Draining is entered only with output queued, so its last send completion can end it. */
    method CommitProtocolError() returns (r: Result<(), Error>)
      modifies this`state
      ensures r == if old(state).phase != ProtocolError then Err(NoProtocolError)
                   else if transmit.bytes == [] then Err(EmptyMessage) else Ok(())
      ensures state == if r.Ok? then old(state).(phase := Draining) else old(state)
    {
      var next: State;
      match Step(state, Input.CommitProtocolError) {
        case Err(e) => return Err(e);
        case Ok(s) => next := s;
      }
      if transmit.QueuedBytes() == 0 {
        return Err(EmptyMessage);
      }
      state := next;
      return Ok(());
    }

    method BeginClose()
      modifies this`state
      ensures state == old(state).(phase := old(state).ClosedPhase()) && state.Closing()
    {
      state := Step(state, Input.BeginClose).value;
    }

    method RequestCancel() returns (r: Result<(), Error>)
      modifies this`state
      ensures r == if old(state).CancelRequested() then Err(CancelAlreadyActive) else Ok(())
      ensures state == if r.Ok? then old(state).(phase := Canceling) else old(state)
    {
      match Step(state, Input.RequestCancel) {
        case Err(e) => return Err(e);
        case Ok(next) => state := next;
      }
      return Ok(());
    }

    predicate CanDispatch()
      reads this
    {
      state.phase == Open
    }

    predicate CanDeinit()
      reads this, transmit
    {
      !state.receiving && state.phase != Canceling && !transmit.SendActive()
    }

    /** Output is accepted only while open, and only whole. */
    method Enqueue(bytes: seq<byte>, descriptors: seq<Fd>) returns (r: Result<(), Error>)
      requires transmit.Valid()
      modifies transmit
      ensures transmit.Valid() && transmit.active == old(transmit.active)
      ensures transmit.reservationActive == old(transmit.reservationActive)
      ensures state.phase != Open ==> r == Err(Closing)
      ensures r.Ok? ==> bytes != [] && transmit.bytes == old(transmit.bytes) + bytes
                        && transmit.descriptors == old(transmit.descriptors) + descriptors
      ensures r.Err? ==> transmit.bytes == old(transmit.bytes) && transmit.descriptors == old(transmit.descriptors)
    {
      if state.phase != Open {
        return Err(Closing);
      }
      r := transmit.Enqueue(bytes, descriptors);
    }

    /** Checks the generation once more, for callers that bypass the slot directory. */
    method Complete(cqe: Cqe) returns (r: Result<Event, Error>)
      requires transmit.Valid()
      modifies this`state, transmit
      ensures transmit.Valid()
      ensures match Decode(cqe.userData)
              case None => r == Err(UnexpectedCompletion) && state == old(state) && View() == old(View())
              case Some(token) =>
                if BelongsTo(token, slot, generation) then
                  Completed(token.operation, old(state), old(View()), cqe, state, View(), r)
                else r == Err(StaleCompletion) && state == old(state) && View() == old(View())
    {
      var token: Token;
      match Decode(cqe.userData) {
        case None => return Err(UnexpectedCompletion);
        case Some(t) => token := t;
      }
      if !BelongsTo(token, slot, generation) {
        return Err(StaleCompletion);
      }
      r := CompleteRouted(token.operation, cqe);
    }

    method CompleteRouted(operation: Operation, cqe: Cqe) returns (r: Result<Event, Error>)
      requires transmit.Valid()
      modifies this`state, transmit
      ensures transmit.Valid()
      ensures Completed(operation, old(state), old(View()), cqe, state, View(), r)
    {
      match operation {
        case Receive => r := CompleteReceive(cqe);
        case Send => r := CompleteSend(cqe);
        case Cancel => r := CompleteCancel(cqe);
        case Accept | AcceptCancel => r := Err(UnexpectedCompletion);
      }
    }

    method CompleteReceive(cqe: Cqe) returns (r: Result<Event, Error>)
      modifies this`state
      ensures if old(state).receiving then
                r == ReceiveReport(old(state), cqe) && state == AfterReceive(old(state), cqe)
              else r == Err(ReceiveNotActive) && state == old(state)
    {
      var next: Result<State, Error>;
      if cqe.res > 0 {
        next := Step(state, if cqe.more then ReceiveContinues else ReceiveStops);
        if next.Err? {
          return Err(next.error);
        }
        state := next.value;
        return Ok(Received(cqe.res, cqe.more));
      }
      if cqe.res == 0 {
        next := Step(state, ReceiveCloses);
        if next.Err? {
          return Err(next.error);
        }
        state := next.value;
        return Ok(Event.Disconnected);
      }
      if state.phase != Open && cqe.Errno() == CANCELED {
        next := Step(state, ReceiveStops);
        if next.Err? {
          return Err(next.error);
        }
        state := next.value;
        return Ok(ReceiveStopped);
      }
      if cqe.Errno() == NOBUFS {
        next := Step(state, ReceiveStops);
        if next.Err? {
          return Err(next.error);
        }
        state := next.value;
        return Ok(BuffersExhausted);
      }
      next := Step(state, ReceiveCloses);
      if next.Err? {
        return Err(next.error);
      }
      state := next.value;
      return Err(IoFailure);
    }

    method CompleteSend(cqe: Cqe) returns (r: Result<Event, Error>)
      requires transmit.Valid()
      modifies this`state, transmit
      ensures transmit.Valid()
      ensures SendCompleted(old(state), old(View()), cqe, state, View(), r)
    {
      if cqe.res <= 0 {
        var failed := transmit.Failed();
        if failed.Err? {
          return Err(failed.error);
        }
        if state.Closing() && cqe.Errno() == CANCELED {
          return Ok(SendStopped);
        }
        state := Step(state, SendFails).value;
        return Err(IoFailure);
      }
      var written: nat := cqe.res;
      var completed := transmit.Complete(written);
      if completed.Err? {
        return Err(completed.error);
      }
      var moreQueued := transmit.QueuedBytes() > 0;
      if !moreQueued {
        state := Step(state, SendDrained).value;
      }
      return Ok(Sent(written, moreQueued));
    }

    method CompleteCancel(cqe: Cqe) returns (r: Result<Event, Error>)
      modifies this`state
      ensures if old(state).phase == Canceling then r == CancelReport(cqe) && state == old(state).(phase := Canceled)
              else r == Err(CancelNotActive) && state == old(state)
    {
      match Step(state, CancelCompletes) {
        case Err(e) => return Err(e);
        case Ok(next) => state := next;
      }
      if cqe.res < 0 && cqe.Errno() != NOENT && cqe.Errno() != ALREADY {
        return Err(IoFailure);
      }
      return Ok(CancelComplete);
    }
  }
}

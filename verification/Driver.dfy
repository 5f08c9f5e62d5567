/** The client driver at work on an actor and its reactor. Every call is a stretch of a run of the step
    system, so everything proved of runs holds of the driver. */
module Driver {
  import opened Outcomes
  import opened Completion
  import opened FreeList
  import opened Transmit
  import opened Connection
  import opened Runs
  import opened Tenancies
  import Ancillary
  import Pool
  import Slots
  import Stream

  /** An entry is either before the cursor or at it or after it. */
  lemma OneEntry(all: seq<nat>, i: nat, slot: nat)
    requires i < |all| && Distinct(all)
    ensures Distinct(all[i..]) && Distinct(all[i + 1..])
    ensures slot in all <==> slot in all[..i] || slot == all[i] || slot in all[i + 1..]
    ensures slot in all[..i] ==> slot != all[i] && slot !in all[i..]
    ensures slot == all[i] ==> slot !in all[..i] && slot !in all[i + 1..]
  {
    assert all == all[..i] + [all[i]] + all[i + 1..];
  }

  lemma NoLongerCurrent(before: Directory, after: Directory, i: nat, generation: nat)
    requires Deactivates(before, after, i)
    ensures !Current(after, i, generation)
  {}

  /** The reactor as one connection uses it. Whether the submission queue has room is decided afresh at
      every attempt, and what the sweep does with other connections is their business. */
  class Reactor {
    const actor: Actor
    /** `receive_rearm_pending` and the FIFO of deferred receives, by slot. */
    var permit: bool
    var deferred: seq<nat>
    /** The connection's socket is open. */
    ghost var socket: bool
    ghost var kernel: Kernel

    constructor (actor: Actor)
      ensures this.actor == actor && !permit && deferred == [] && socket && kernel == Kernel(false, false, false)
    {
      this.actor, permit, deferred, socket, kernel := actor, false, [], true, Kernel(false, false, false);
    }

    ghost function Footprint(): set<object> {
      {this, actor, actor.transmit}
    }

    /** Each peer has at most one entry. */
    ghost predicate Valid()
      reads Footprint()
    {
      actor.transmit.Valid() && Distinct(deferred)
    }

    /** Submits a send of what the first two blocks hold, `flight`. Every refusal leaves the queue as it was. */
    method PrepareSend(room: bool) returns (r: Result<(), Error>, ghost flight: Flight)
      requires Valid()
      modifies actor.transmit`active, this`kernel
      ensures Valid()
      ensures old(actor.transmit.active).None? && actor.transmit.bytes != [] ==>
                0 < flight.byteCount <= |actor.transmit.bytes|
      ensures r == if old(actor.transmit.active).Some? then Err(SendAlreadyActive)
                   else if actor.transmit.reservationActive then Err(ReservationActive)
                   else if actor.transmit.bytes == [] then Err(EmptyMessage)
                   else if actor.state.phase == ProtocolError then Err(ProtocolErrorPending)
                   else if actor.state.Closing() then Err(Closing)
                   else if !room then Err(SubmissionQueueFull) else Ok(())
      ensures actor.transmit.active == if r.Ok? then Some(flight) else old(actor.transmit.active)
      ensures kernel == if r.Ok? then old(kernel).(send := true) else old(kernel)
    {
      flight := Flight(|actor.transmit.bytes|, |actor.transmit.descriptors|);
      if actor.transmit.SendActive() {
        return Err(SendAlreadyActive), flight;
      }
      if actor.transmit.reservationActive {
        return Err(ReservationActive), flight;
      }
      if actor.transmit.QueuedBytes() == 0 {
        return Err(EmptyMessage), flight;
      }
      var count: nat :| 0 < count <= |actor.transmit.bytes|;
      flight := Flight(count, |actor.transmit.descriptors|);
      var tag := actor.BeginSend(count);
      if tag.Err? {
        return Err(tag.error), flight;
      }
      if !room {
        var _ := actor.transmit.Failed();
        return Err(SubmissionQueueFull), flight;
      }
      kernel := kernel.(send := true);
      return Ok(()), flight;
    }

    /** False when nothing is in flight; on an error the actor's state is restored. */
    method PrepareClose(room: bool) returns (r: Result<bool, Error>)
      requires Valid()
      modifies actor`state, this`kernel
      ensures Valid()
      ensures var idle := !old(actor.state).receiving && actor.transmit.active.None?;
              && r == (if idle then Ok(false)
                       else if old(actor.state).CancelRequested() then Err(CancelAlreadyActive)
                       else if !room then Err(SubmissionQueueFull) else Ok(true))
              && actor.state == (if idle then old(actor.state).(phase := old(actor.state).ClosedPhase())
                                 else if r.Ok? then old(actor.state).(phase := Canceling) else old(actor.state))
              && kernel == (if r == Ok(true) then old(kernel).(cancel := true) else old(kernel))
    {
      var previous := actor.state;
      actor.BeginClose();
      if !actor.state.receiving && !actor.transmit.SendActive() {
        return Ok(false);
      }
      var requested := actor.RequestCancel();
      if requested.Err? {
        actor.state := previous;
        return Err(requested.error);
      }
      if !room {
        actor.state := previous;
        return Err(SubmissionQueueFull);
      }
      kernel := kernel.(cancel := true);
      return Ok(true);
    }

    /** The peer's entry leaves the deferred receives. */
    method RemoveDeferredReceive()
      requires Valid()
      modifies this`deferred
      ensures Valid() && forall slot :: slot in deferred <==> slot in old(deferred) && slot != actor.slot
    {
      var i := 0;
      while i < |deferred| && deferred[i] != actor.slot
        invariant i <= |deferred| && actor.slot !in deferred[..i]
      {
        i := i + 1;
      }
      if i < |deferred| {
        OneEntry(deferred, i, actor.slot);
        deferred := deferred[..i] + deferred[i + 1..];
      }
    }

    /** `actor.deinit`, and the socket. */
    method TearDown(framer: Stream.Framer, received: Ancillary.FdQueue, files: Ancillary.Kernel)
      requires actor.transmit.Valid() && !actor.transmit.reservationActive && framer.Valid() && received.Valid()
      modifies this`socket, actor.transmit
      modifies framer`lease, framer`scratch, framer.blocks, received, received.pool, files
      ensures actor.transmit.Valid() && actor.transmit.bytes == [] && actor.transmit.descriptors == []
      ensures actor.transmit.closed == old(actor.transmit.closed) + old(actor.transmit.descriptors)
      ensures framer.lease.None? && framer.OnlyMine()
      ensures received.Contents() == [] && received.OnlyMine()
      ensures files.closed == old(files.closed) + old(received.Contents())
      ensures !socket
    {
      hide Pool.Consistent, Ancillary.OwnChange, Ancillary.Chained, Stream.OwnNodes, Stream.Framer.Space;
      framer.Deinit();
      received.Deinit(files);
      actor.transmit.Deinit();
      socket := false;
    }

    /** Releases a peer that is still in the directory, unless the kernel may still touch it: its slot is given
        up, so none of its tokens routes again before the generations wrap; its framer's block goes back; its
        descriptors, received and queued, and its socket are closed. */
    method DestroyPeer(
      slots: Slots.Slots, framer: Stream.Framer, received: Ancillary.FdQueue, files: Ancillary.Kernel)
      returns (r: Result<(), Error>)
      requires Valid() && slots.Valid() && !actor.transmit.reservationActive && framer.Valid() && received.Valid()
      modifies this`deferred, this`socket, actor.transmit, slots
      modifies framer`lease, framer`scratch, framer.blocks, received, received.pool, files
      ensures Valid() && slots.Valid()
      ensures r.Ok? <==> old(Current(slots.View(), actor.slot, actor.generation)) && old(actor.CanDeinit())
      ensures r == Err(ActorBusy) <==>
              old(Current(slots.View(), actor.slot, actor.generation)) && !old(actor.CanDeinit())
      ensures r.Ok? ==>
                && (forall slot :: slot in deferred <==> slot in old(deferred) && slot != actor.slot)
                && Deactivates(old(slots.View()), slots.View(), actor.slot)
                && !Current(slots.View(), actor.slot, actor.generation)
                && actor.transmit.bytes == [] && actor.transmit.descriptors == []
                && actor.transmit.closed == old(actor.transmit.closed) + old(actor.transmit.descriptors)
                && framer.lease.None? && framer.OnlyMine()
                && received.Contents() == [] && received.OnlyMine()
                && files.closed == old(files.closed) + old(received.Contents())
                && !socket
      ensures r.Err? ==>
                && deferred == old(deferred) && socket == old(socket) && slots.View() == old(slots.View())
                && unchanged(actor.transmit) && unchanged(framer) && unchanged(received) && unchanged(files)
    {
      hide Pool.Consistent, Ancillary.OwnChange, Ancillary.Chained, Stream.OwnNodes, Stream.Framer.Space,
           Ancillary.FdQueue.Valid, Ancillary.Fds, Stream.Framer.Valid, Transmit.Queue.Valid, Deactivates;
      var token := slots.MakeToken(actor.slot, actor.generation, Receive);
      if token.Err? {
        return Err(token.error);
      }
      if !actor.CanDeinit() {
        return Err(ActorBusy);
      }
      RemoveDeferredReceive();
      var given := slots.Deactivate(actor.slot, actor.generation);
      assert given.Ok?;
      NoLongerCurrent(old(slots.View()), slots.View(), actor.slot, actor.generation);
      TearDown(framer, received, files);
      return Ok(());
    }

    /** Parks an inactive receive; false when it is parked already. */
    method DeferReceive() returns (r: Result<bool, Error>)
      requires Valid()
      modifies this`deferred
      ensures Valid()
      ensures r == if actor.state.phase != Open then Err(Closing)
                   else if actor.state.receiving then Err(ReceiveAlreadyActive)
                   else Ok(actor.slot !in old(deferred))
      ensures deferred == if r == Ok(true) then old(deferred) + [actor.slot] else old(deferred)
    {
      if actor.state.phase != Open {
        return Err(Closing);
      }
      if actor.state.receiving {
        return Err(ReceiveAlreadyActive);
      }
      if actor.slot in deferred {
        return Ok(false);
      }
      deferred := deferred + [actor.slot];
      return Ok(true);
    }

    method NoteReceiveBufferReturned(cqe: Cqe)
      modifies this`permit
      ensures permit == (old(permit) || ReturnsBuffer(cqe))
    {
      if cqe.res > 0 && cqe.buffer && !cqe.bufferMore {
        permit := true;
      }
    }

    /** One sweep over the deferred receives, in order, until it is done or the submission queue is full. */
    method PrepareDeferredReceives() returns (prepared: nat, ghost sweep: Sweep)
      requires Valid()
      modifies actor`state, this
      ensures Valid()
      ensures old(!permit) ==> sweep.Idle?
      ensures old(permit) && old(actor.slot in deferred) ==> !sweep.Idle?
      ensures var arms := sweep.Passed? && old(actor.slot in deferred) && old(actor.state) == State(Open, false);
              && actor.state == (if arms then State(Open, true) else old(actor.state))
              && kernel == (if arms then old(kernel).(receive := true) else old(kernel))
      ensures (actor.slot in deferred) == (old(actor.slot in deferred) && !sweep.Passed?)
      ensures permit == if sweep.Passed? then sweep.full else old(permit)
      ensures permit && old(permit) && !sweep.Idle? ==> deferred != []
      ensures kernel != old(kernel) ==> prepared > 0
    {
      hide Distinct;
      prepared := 0;
      if !permit || deferred == [] {
        return 0, Idle;
      }
      permit := false;
      ghost var all, i := deferred, 0;
      assert all[0..] == all;
      while deferred != []
        invariant i <= |all| && deferred == all[i..] && Valid() && !permit
        invariant if actor.slot in all[..i] && old(actor.state) == State(Open, false)
                  then actor.state == State(Open, true) && kernel == old(kernel).(receive := true)
                  else actor.state == old(actor.state) && kernel == old(kernel)
        invariant kernel != old(kernel) ==> prepared > 0
        decreases |deferred|
      {
        assert deferred[1..] == all[i + 1..] && all[..i + 1] == all[..i] + [deferred[0]];
        var slot := deferred[0];
        OneEntry(all, i, actor.slot);
        var room: bool := *;
        if slot == actor.slot {
          if actor.state.phase == Open && !actor.state.receiving {
            var tag := actor.ArmReceive();
            if !room {
              actor.state := actor.state.(receiving := false);
              permit := true;
              return prepared, Short;
            }
            kernel := kernel.(receive := true);
            prepared := prepared + 1;
          }
        } else {
          var drops: bool := *;
          if !drops {
            if !room {
              permit := true;
              return prepared, if actor.slot in all[..i] then Passed(true) else Short;
            }
            prepared := prepared + 1;
          }
        }
        deferred, i := deferred[1..], i + 1;
      }
      assert all[..i] == all;
      return prepared, Passed(false);
    }

    predicate DeferredReceivesPending()
      reads this
    {
      permit && deferred != []
    }
  }

  /** How many operations one kernel state holds that the other does not. */
  function Submitted(before: Kernel, after: Kernel): nat {
    One(after.receive && !before.receive) + One(after.send && !before.send) + One(after.cancel && !before.cancel)
  }

  lemma SubmittedThen(before: Kernel, between: Kernel, after: Kernel)
    ensures Submitted(before, before) == 0
    ensures Submitted(before, after) <= Submitted(before, between) + Submitted(between, after)
  {}

  datatype Progress = Progress(prepared: nat, pending: bool, quiescent: bool)

  /** A completion of this connection, with what the handlers it runs do and whether the dispatch ends in
      a terminal result. */
  datatype Incoming = Incoming(operation: Operation, cqe: Cqe, script: seq<Chore>, terminal: bool)

  /** The completions of one batch were all posted by a kernel holding these operations. */
  ghost predicate Posted(kernel: Kernel, active: Option<Flight>, batch: seq<Incoming>)
    decreases |batch|
  {
    batch != [] ==>
      && (match batch[0].operation
          case Receive => kernel.receive && FaithfulReceive(batch[0].cqe)
          case Send => kernel.send && (active.Some? ==> batch[0].cqe.res <= active.value.byteCount)
          case Cancel => kernel.cancel
          case Accept | AcceptCancel => false)
      && Posted(Answered(kernel, batch[0].operation, batch[0].cqe), active, batch[1..])
  }

  class Driver {
    const reactor: Reactor
    var scheduled: bool
    var notified: bool
    ghost var notifications: nat

    constructor (reactor: Reactor)
      ensures this.reactor == reactor && !scheduled && !notified && notifications == 0
    {
      this.reactor, scheduled, notified, notifications := reactor, false, false, 0;
    }

    ghost function Footprint(): set<object> {
      {this} + reactor.Footprint()
    }

    ghost function View(): Sys
      reads Footprint()
    {
      var actor := reactor.actor;
      Sys(actor.state, actor.View(), scheduled, notified, notifications,
          actor.slot in reactor.deferred, reactor.permit, reactor.kernel)
    }

    ghost predicate Valid()
      reads Footprint()
    {
      reactor.Valid() && Inv(View())
    }

    /** For producers and closers outside the driver; false when it is scheduled already. */
    method Schedule() returns (first: bool)
      modifies this`scheduled
      ensures first == !old(scheduled) && scheduled && View() == old(View()).(scheduled := true)
    {
      if scheduled {
        return false;
      }
      scheduled := true;
      return true;
    }

    /** A new connection's first receive, and the driver over it, is where runs start. */
    method Begin()
      requires reactor.Valid()
      requires reactor.actor.state == State(Open, false) && reactor.actor.View() == Tx([], None, false)
      requires reactor.deferred == [] && !reactor.permit && reactor.kernel == Kernel(false, false, false)
      requires !scheduled && !notified && notifications == 0
      modifies reactor.actor`state, reactor`kernel
      ensures Valid() && View() == START
    {
      var tag := reactor.actor.ArmReceive();
      reactor.kernel := reactor.kernel.(receive := true);
      StartIsSound();
    }

    /** One action of a handler on its connection. Output that the queue refuses changes nothing. */
    method RunChore(wanted: Chore) returns (ghost done: seq<Chore>)
      requires reactor.Valid() && !reactor.actor.transmit.reservationActive
      modifies reactor`kernel, reactor.actor`state, reactor.actor.transmit
      ensures reactor.Valid() && View() == DoAll(old(View()), done) && |done| <= 1
    {
      hide DoAll;
      var actor := reactor.actor;
      OneOrNone(View(), wanted);
      match wanted {
        case Output(bytes) =>
          var queued := actor.transmit.Enqueue(bytes, []);
          return if queued.Ok? then [wanted] else [];
        case Close => actor.BeginClose();
        case CloseNow(room) => var _ := reactor.PrepareClose(room);
        case BeginError => var _ := actor.BeginProtocolError();
        case CommitError => var _ := actor.CommitProtocolError();
      }
      return [wanted];
    }

    method RunScript(script: seq<Chore>) returns (ghost chores: seq<Chore>)
      requires reactor.Valid() && Core(View())
      modifies reactor`kernel, reactor.actor`state, reactor.actor.transmit
      ensures reactor.Valid() && View() == DoAll(old(View()), chores) && Core(View())
    {
      hide DoAll, Core, Do;
      chores := [];
      NoChores(View());
      for i := 0 to |script|
        invariant reactor.Valid() && View() == DoAll(old(View()), chores) && Core(View())
      {
        NotReserved(View());
        ghost var done := RunChore(script[i]);
        DoneAppend(old(View()), chores, done);
        ChoresKeep(old(View()), chores + done);
        chores := chores + done;
      }
    }

    /** An inactive receive of an open connection goes to the deferred ones. */
    method Park()
      requires reactor.Valid()
      modifies reactor`deferred
      ensures reactor.Valid() && View() == Runs.Parked(old(View()))
    {
      if reactor.actor.state.phase == Open && !reactor.actor.state.receiving {
        var _ := reactor.DeferReceive();
      }
    }

    /** A producer or closer outside the driver does its work and schedules. */
    method Outside(script: seq<Chore>) returns (ghost chores: seq<Chore>)
      requires Valid()
      modifies Footprint()
      ensures Valid() && View() == Apply(old(View()), Action.Outside(chores))
    {
      hide DoAll, Core, Awake, Listening;
      chores := RunScript(script);
      var _ := Schedule();
      OutsideKeeps(old(View()), chores);
    }

    /** Dispatch of received data and what follows it. */
    method Received(incoming: Incoming) returns (ghost chores: seq<Chore>)
      requires reactor.Valid() && Core(View())
      modifies reactor, reactor.actor`state, reactor.actor.transmit
      ensures reactor.Valid()
      ensures View() == Runs.Parked(Dispatched(old(View()), incoming.cqe, chores, incoming.terminal))
    {
      hide DoAll, Core;
      var actor := reactor.actor;
      chores := [];
      NoChores(View());
      if actor.CanDispatch() {
        chores := RunScript(incoming.script);
      }
      if incoming.terminal {
        actor.BeginClose();
      }
      reactor.NoteReceiveBufferReturned(incoming.cqe);
      Park();
    }

    /** A completion is this connection's when its token routes and names the actor's slot at the actor's
        generation. */
    ghost predicate IsMine(slots: Slots.Slots, cqe: Cqe)
      requires slots.Valid()
      reads this, reactor, slots
    {
      match Decode(cqe.userData)
      case None => false
      case Some(token) =>
        && token.operation in {Receive, Send, Cancel}
        && Slots.Routes(slots.View(), token)
        && BelongsTo(token, reactor.actor.slot, reactor.actor.generation)
    }

    /** What a listener asked for is nobody's here. */
    method Route(slots: Slots.Slots, cqe: Cqe) returns (r: Result<Operation, Error>)
      requires slots.Valid()
      ensures r.Ok? <==> IsMine(slots, cqe)
      ensures r.Ok? ==> r.value == Decode(cqe.userData).value.operation
      ensures r.Err? ==> r.error == InvalidCompletion
    {
      var token: Token;
      match Decode(cqe.userData) {
        case None => return Err(InvalidCompletion);
        case Some(t) => token := t;
      }
      if token.operation in {Accept, AcceptCancel} {
        return Err(InvalidCompletion);
      }
      var routed := slots.RouteToken(token);
      if routed.None? || !BelongsTo(token, reactor.actor.slot, reactor.actor.generation) {
        return Err(InvalidCompletion);
      }
      return Ok(token.operation);
    }

    /** The kernel's answer reaches the actor, which accepts it. */
    method Answer(operation: Operation, cqe: Cqe) returns (event: Result<Event, Error>)
      requires Valid() && Deliverable(View(), operation, cqe)
      modifies reactor`kernel, reactor.actor`state, reactor.actor.transmit
      ensures reactor.Valid() && Core(View())
      ensures View() == Applied(old(View()).(kernel := Answered(old(View()).kernel, operation, cqe)), operation, cqe)
      ensures event.Err? ==> event.error == IoFailure && reactor.actor.state.Closing()
      ensures event.Ok? && event.value.Received? <==> operation == Receive && cqe.res > 0
      ensures event == Ok(BuffersExhausted) <==> operation == Receive && cqe.Errno() == NOBUFS
    {
      hide DoAll, Core, Awake, Listening;
      AppliedKeeps(View(), operation, cqe);
      reactor.kernel := Answered(reactor.kernel, operation, cqe);
      event := reactor.actor.CompleteRouted(operation, cqe);
    }

    /** One completion. No completion of a faithful kernel is an error, and each ends with the driver
        scheduled. */
    method Complete(incoming: Incoming) returns (r: Result<(), Error>, ghost chores: seq<Chore>)
      requires Valid() && Deliverable(View(), incoming.operation, incoming.cqe)
      modifies Footprint()
      ensures Valid() && r.Ok? && scheduled
      ensures View() == Delivered(old(View()), incoming.operation, incoming.cqe, chores, incoming.terminal)
    {
      hide DoAll, Inv, Core, Applied, Deliverable, Dispatched, Delivered, Runs.Parked, Reactor.Valid, Driver.View;
      var actor := reactor.actor;
      chores := [];
      ghost var before := old(View());
      DeliveredCases(before, incoming.operation, incoming.cqe, [], incoming.terminal);
      var event := Answer(incoming.operation, incoming.cqe);
      match event {
        case Err(e) =>
          if e != IoFailure || !actor.state.Closing() {
            return Err(e), chores;
          }
          var _ := Schedule();
        case Ok(Received(_, _)) =>
          chores := Received(incoming);
          var _ := Schedule();
          DeliveredCases(before, incoming.operation, incoming.cqe, chores, incoming.terminal);
        case Ok(BuffersExhausted) =>
          Park();
          var _ := Schedule();
        case Ok(_) =>
          var _ := Schedule();
      }
      DeliveryKeeps(before, incoming.operation, incoming.cqe, chores, incoming.terminal);
      return Ok(()), chores;
    }

    /** A completion as it comes off the ring: refused without effect if it is not this connection's. */
    method CompleteCqe(slots: Slots.Slots, cqe: Cqe, script: seq<Chore>, terminal: bool)
      returns (r: Result<(), Error>, ghost chores: seq<Chore>)
      requires Valid() && slots.Valid() && slots as object !in Footprint()
      requires IsMine(slots, cqe) ==> Deliverable(View(), Decode(cqe.userData).value.operation, cqe)
      modifies Footprint()
      ensures Valid()
      ensures r.Ok? <==> old(IsMine(slots, cqe))
      ensures r.Err? ==> r.error == InvalidCompletion
      ensures if r.Ok? then
                scheduled
                && View() == Delivered(old(View()), Decode(cqe.userData).value.operation, cqe, chores, terminal)
              else View() == old(View())
    {
      chores := [];
      var routed := Route(slots, cqe);
      if routed.Err? {
        return Err(routed.error), chores;
      }
      r, chores := Complete(Incoming(routed.value, cqe, script, terminal));
    }

    /** The connection's own part of `Prepare`. */
    method Advance(room: bool) returns (r: Result<nat, Error>, disconnected: bool, ghost flight: Flight)
      requires Valid()
      modifies this`scheduled, reactor`kernel, reactor.actor`state, reactor.actor.transmit`active
      ensures reactor.Valid() && Covers(old(View()), flight)
      ensures disconnected == (r.Ok? && Finishes(old(View()))) && (r.Err? ==> scheduled)
      ensures r.Ok? ==> r.value == Submitted(old(reactor.kernel), reactor.kernel)
      ensures if Refused(old(View()), room) then
                View() == old(View())
                && r == Err(if View().state.phase == ProtocolError then ProtocolErrorPending else SubmissionQueueFull)
              else r.Ok? && View() == Advanced(old(View()), flight)
    {
      hide Core, Awake, Listening, Advanced;
      var actor := reactor.actor;
      flight := Flight(1, 0);
      CoreParts(View());
      if !scheduled {
        AdvancedCases(View(), flight);
        return Ok(0), false, flight;
      }
      if actor.state.Closing() && actor.CanDeinit() {
        AdvancedCases(View(), flight);
        return Ok(0), true, flight;
      }
      disconnected := false;
      r := Ok(0);
      if actor.state.Closing() {
        if !actor.state.CancelRequested() {
          var queued := reactor.PrepareClose(room);
          if queued.Err? {
            return Err(queued.error), false, flight;
          }
          r := Ok(if queued.value then 1 else 0);
        }
      } else if actor.transmit.QueuedBytes() != 0 && !actor.transmit.SendActive() {
        var sent;
        sent, flight := reactor.PrepareSend(room);
        if sent.Err? {
          return Err(sent.error), false, flight;
        }
        r := Ok(1);
      }
      scheduled := false;
      AdvancedCases(old(View()), flight);
    }

    /** The reactor's sweep, as far as this connection is concerned. */
    method SweepDeferred() returns (prepared: nat, ghost sweep: Sweep)
      requires reactor.Valid()
      modifies reactor, reactor.actor`state
      ensures reactor.Valid() && SweepAllowed(old(View()), sweep) && View() == Swept(old(View()), sweep)
      ensures Submitted(old(reactor.kernel), reactor.kernel) <= prepared
    {
      hide Swept;
      prepared, sweep := reactor.PrepareDeferredReceives();
      SweptIs(old(View()), View(), sweep);
    }

    /** The disconnected hook, at most once. */
    method Notify()
      modifies this`notified, this`notifications
      ensures old(!scheduled) ==> View() == Finished(old(View()))
    {
      if !notified {
        notified, notifications := true, notifications + 1;
      }
    }

    /** Prepares the send, the cancellation and the deferred receives until the submission queue fills, and
        reports a finished connection last. */
    method Prepare(room: bool) returns (r: Result<Progress, Error>, ghost flight: Flight, ghost sweep: Sweep)
      requires Valid()
      modifies Footprint()
      ensures Valid() && Covers(old(View()), flight) && SweepAllowed(old(View()), sweep)
      ensures View() == Prepared(old(View()), room, flight, sweep)
      ensures r.Err? <==> Refused(old(View()), room) && old(reactor.actor.state.phase) == ProtocolError
      ensures r.Err? ==> r.error == ProtocolErrorPending && View() == old(View())
                         && reactor.actor.state.phase == ProtocolError
      ensures r.Ok? ==> (r.value.pending <==> scheduled || reactor.DeferredReceivesPending())
      ensures r.Ok? && !Refused(old(View()), room) ==> (r.value.quiescent <==> reactor.kernel.Idle())
      ensures r.Ok? && Refused(old(View()), room) ==> !r.value.quiescent
      ensures r.Ok? ==> Submitted(old(reactor.kernel), reactor.kernel) <= r.value.prepared
    {
      hide Inv, Advanced, Finishes, Swept, Refused, Submitted, Kernel.Idle;
      var actor := reactor.actor;
      sweep := if reactor.permit && actor.slot in reactor.deferred then Short else Idle;
      SubmittedThen(reactor.kernel, reactor.kernel, reactor.kernel);
      var advanced, disconnected;
      advanced, disconnected, flight := Advance(room);
      if advanced.Err? {
        if advanced.error == SubmissionQueueFull {
          return Ok(Progress(0, true, false)), flight, sweep;
        }
        return Err(advanced.error), flight, sweep;
      }
      label Sweeping:
      ghost var before := View();
      KeepsDeferred(old(View()), flight);
      var swept;
      swept, sweep := SweepDeferred();
      SubmittedThen(old(reactor.kernel), before.kernel, reactor.kernel);
      if disconnected {
        scheduled := false;
      }
      var pending := scheduled || reactor.DeferredReceivesPending();
      var quiescent := actor.CanDeinit();
      if disconnected {
        Notify();
      }
      PrepareKeeps(old(View()), room, flight, sweep);
      Quiet(View());
      return Ok(Progress(advanced.value + swept, pending, quiescent)), flight, sweep;
    }

    /** A connection in the directory is released exactly when the kernel holds nothing of it, and then it is
        gone: no completion is its own any more. */
    method Destroy(
      slots: Slots.Slots, framer: Stream.Framer, received: Ancillary.FdQueue, files: Ancillary.Kernel)
      returns (r: Result<(), Error>)
      requires Valid() && slots.Valid() && framer.Valid() && received.Valid()
      modifies reactor`deferred, reactor`socket, reactor.actor.transmit, slots
      modifies framer`lease, framer`scratch, framer.blocks, received, received.pool, files
      ensures slots.Valid()
      ensures var current := old(Current(slots.View(), reactor.actor.slot, reactor.actor.generation));
              (r.Ok? <==> current && old(reactor.kernel).Idle())
              && (r == Err(ActorBusy) <==> current && !old(reactor.kernel).Idle())
      ensures r.Ok? ==>
                && reactor.actor.slot !in reactor.deferred && !reactor.socket
                && framer.lease.None? && received.Contents() == []
                && reactor.actor.transmit.closed
                   == old(reactor.actor.transmit.closed) + old(reactor.actor.transmit.descriptors)
                && forall cqe: Cqe :: !IsMine(slots, cqe)
      ensures r.Err? ==> View() == old(View()) && slots.View() == old(slots.View())
    {
      hide Core, Awake, Listening, Deactivates, Transmit.Queue.Valid, Pool.Consistent, Ancillary.OwnChange,
           Ancillary.Fds, Ancillary.FdQueue.Valid, Ancillary.FdQueue.OnlyMine, Stream.Framer.Valid,
           Stream.Framer.OnlyMine;
      CoreParts(View());
      r := reactor.DestroyPeer(slots, framer, received, files);
    }

    /** A batch of completions, then one `Prepare`: a run of the step system, one step for each. */
    method Dispatch(batch: seq<Incoming>, room: bool)
      returns (r: Result<Progress, Error>, ghost run: seq<Sys>, ghost actions: seq<Action>)
      requires Valid() && Posted(View().kernel, View().tx.active, batch)
      modifies Footprint()
      ensures Valid()
      ensures |actions| == |batch| + 1 && IsRun(run, actions)
      ensures run[0] == old(View()) && run[|actions|] == View()
      ensures forall i :: 0 <= i < |batch| ==>
                actions[i].Complete? && actions[i].operation == batch[i].operation && actions[i].cqe == batch[i].cqe
                && actions[i].terminal == batch[i].terminal
      ensures actions[|batch|].Prepare? && actions[|batch|].room == room
      ensures r.Err? ==> r.error == ProtocolErrorPending && reactor.actor.state.phase == ProtocolError
      ensures r.Ok? ==> (r.value.pending <==> scheduled || reactor.DeferredReceivesPending())
    {
      hide Inv, Enabled, Apply, Delivered, Prepared, Posted, Refused, Reactor.Valid, Driver.View;
      run, actions := [View()], [];
      ghost var posted, active := View().kernel, View().tx.active;
      assert batch[0..] == batch;
      for i := 0 to |batch|
        invariant Valid() && |actions| == i && IsRun(run, actions)
        invariant run[0] == old(View()) && run[i] == View()
        invariant Posted(posted, active, batch[i..]) && StillHeld(posted, active, View())
        invariant forall k :: 0 <= k < i ==>
                    actions[k].Complete? && actions[k].operation == batch[k].operation && actions[k].cqe == batch[k].cqe
                    && actions[k].terminal == batch[k].terminal
      {
        var incoming := batch[i];
        assert batch[i..][0] == incoming && batch[i..][1..] == batch[i + 1..];
        ghost var before := View();
        PostedIsDeliverable(posted, active, batch[i..], before);
        ghost var chores;
        var done;
        done, chores := Complete(incoming);
        ghost var action := Action.Complete(incoming.operation, incoming.cqe, chores, incoming.terminal);
        PostedNext(posted, active, batch[i..], before, chores);
        CompleteIsStep(before, action);
        RunThen(run, actions, action);
        run, actions := run + [View()], actions + [action];
        posted := Answered(posted, incoming.operation, incoming.cqe);
      }
      ghost var before, flight, sweep := View(), Flight(0, 0), Idle;
      r, flight, sweep := Prepare(room);
      ghost var last := Action.Prepare(room, flight, sweep);
      PrepareIsStep(before, last);
      RunThen(run, actions, last);
      run, actions := run + [View()], actions + [last];
    }
  }

  ghost predicate StillHeld(posted: Kernel, active: Option<Flight>, s: Sys) {
    && (posted.receive ==> s.kernel.receive) && (posted.cancel ==> s.kernel.cancel)
    && (posted.send ==> s.kernel.send && s.tx.active == active)
  }

  lemma PostedIsDeliverable(posted: Kernel, active: Option<Flight>, batch: seq<Incoming>, s: Sys)
    requires batch != [] && Posted(posted, active, batch) && StillHeld(posted, active, s)
    ensures Deliverable(s, batch[0].operation, batch[0].cqe)
  {}

  lemma PostedNext(posted: Kernel, active: Option<Flight>, batch: seq<Incoming>, s: Sys, chores: seq<Chore>)
    requires batch != [] && Posted(posted, active, batch) && StillHeld(posted, active, s)
    requires Inv(s) && Deliverable(s, batch[0].operation, batch[0].cqe)
    ensures var rest := Answered(posted, batch[0].operation, batch[0].cqe);
            && Posted(rest, active, batch[1..])
            && StillHeld(rest, active, Delivered(s, batch[0].operation, batch[0].cqe, chores, batch[0].terminal))
  {
    hide Inv, Delivered;
    DeliveryAnswers(s, batch[0].operation, batch[0].cqe, chores, batch[0].terminal);
  }

  lemma CompleteIsStep(s: Sys, action: Action)
    requires action.Complete? && Deliverable(s, action.operation, action.cqe)
    ensures Enabled(s, action)
    ensures Apply(s, action) == Delivered(s, action.operation, action.cqe, action.chores, action.terminal)
  {
    hide Delivered;
  }

  lemma PrepareIsStep(s: Sys, action: Action)
    requires action.Prepare? && Covers(s, action.flight) && SweepAllowed(s, action.sweep)
    ensures Enabled(s, action) && Apply(s, action) == Prepared(s, action.room, action.flight, action.sweep)
  {
    hide Prepared;
  }

  lemma {:induction false} DoAllAppend(s: Sys, chores: seq<Chore>, last: Chore)
    ensures DoAll(s, chores + [last]) == Do(DoAll(s, chores), last)
    decreases |chores|
  {
    hide Do;
    if chores == [] {
      assert [last][1..] == [];
    } else {
      assert (chores + [last])[1..] == chores[1..] + [last];
      DoAllAppend(Do(s, chores[0]), chores[1..], last);
    }
  }

  /** One more step at the end of a run. */
  lemma RunThen(run: seq<Sys>, actions: seq<Action>, action: Action)
    requires IsRun(run, actions) && Enabled(run[|actions|], action)
    ensures IsRun(run + [Apply(run[|actions|], action)], actions + [action])
  {
    hide Enabled, Apply;
  }

  lemma DeliveredCases(s: Sys, operation: Operation, cqe: Cqe, chores: seq<Chore>, terminal: bool)
    ensures var applied := Applied(s.(kernel := Answered(s.kernel, operation, cqe)), operation, cqe);
            Delivered(s, operation, cqe, chores, terminal) ==
            (if operation == Receive && cqe.res > 0 then Runs.Parked(Dispatched(applied, cqe, chores, terminal))
             else if operation == Receive && cqe.Errno() == NOBUFS then Runs.Parked(applied)
             else applied).(scheduled := true)
  {
    hide DoAll, Dispatched, Applied;
  }

  lemma DoneAppend(s: Sys, chores: seq<Chore>, done: seq<Chore>)
    requires |done| <= 1
    ensures DoAll(s, chores + done) == DoAll(DoAll(s, chores), done)
  {
    OneOrNone(DoAll(s, chores), if done == [] then Close else done[0]);
    if done == [] {
      assert chores + done == chores;
    } else {
      assert done == [done[0]];
      DoAllAppend(s, chores, done[0]);
    }
  }

  lemma NoChores(s: Sys)
    ensures DoAll(s, []) == s
  {}

  lemma OneOrNone(s: Sys, chore: Chore)
    ensures DoAll(s, []) == s && DoAll(s, [chore]) == Do(s, chore)
  {
    DoAllAppend(s, [], chore);
    assert [] + [chore] == [chore];
  }

  lemma NotReserved(s: Sys)
    requires Core(s)
    ensures !s.tx.reserved
  {}

  /** The actor accepts every deliverable completion. */
  lemma AppliedKeeps(s: Sys, operation: Operation, cqe: Cqe)
    requires Inv(s) && Deliverable(s, operation, cqe)
    ensures Core(Applied(s.(kernel := Answered(s.kernel, operation, cqe)), operation, cqe))
    ensures operation == Receive ==> s.state.receiving
    ensures operation == Send ==> !SendRefused(s.tx, cqe)
    ensures operation == Cancel ==> s.state.phase == Canceling
    ensures !s.tx.reserved
  {
    match operation
    case Receive =>
    case Send =>
    case Cancel =>
  }

  lemma AdvancedCases(s: Sys, flight: Flight)
    ensures !s.scheduled ==> Advanced(s, flight) == s
    ensures Finishes(s) ==> Advanced(s, flight) == s
    ensures s.scheduled && s.state.Closing() && !s.CanDeinit() ==>
              Advanced(s, flight) == if s.state.CancelRequested() then s.(scheduled := false)
                                     else CloseSubmitted(s, true).(scheduled := false)
    ensures s.scheduled && !s.state.Closing() ==>
              Advanced(s, flight) ==
              if s.SendWaits() then
                s.(scheduled := false, tx := s.tx.(active := Some(flight)), kernel := s.kernel.(send := true))
              else s.(scheduled := false)
  {}

  lemma KeepsDeferred(s: Sys, flight: Flight)
    ensures Advanced(s, flight).parked == s.parked && Advanced(s, flight).permit == s.permit
    ensures Finishes(s) ==> Advanced(s, flight) == s
  {}

  /** A sweep as seen in the fields it may touch. */
  lemma SweptIs(before: Sys, after: Sys, sweep: Sweep)
    requires var arms := sweep.Passed? && before.parked && before.state == State(Open, false);
             && after.state == (if arms then State(Open, true) else before.state)
             && after.kernel == (if arms then before.kernel.(receive := true) else before.kernel)
    requires after.parked == (before.parked && !sweep.Passed?)
    requires after.permit == if sweep.Passed? then sweep.full else before.permit
    requires after == before.(state := after.state, kernel := after.kernel,
                              parked := after.parked, permit := after.permit)
    ensures after == Swept(before, sweep)
  {}

  lemma Quiet(s: Sys)
    requires Inv(s)
    ensures s.CanDeinit() <==> s.kernel.Idle()
  {}

  /** The parts of the invariant that the driver's branches rest on. */
  lemma CoreParts(s: Sys)
    requires Core(s)
    ensures Mirrors(s) && !s.tx.reserved && (s.CanDeinit() <==> s.kernel.Idle())
  {}
}

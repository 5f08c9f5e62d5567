/** One client connection, its driver, the reactor and the kernel as a system of steps: whatever order
    completions arrive in, however often the submission queue is full, and whatever handlers do. */
module Runs {
  import opened Outcomes
  import opened Bytes
  import opened Completion
  import opened Transmit
  import opened Connection

  /** The operations the kernel still has to answer. */
  datatype Kernel = Kernel(receive: bool, send: bool, cancel: bool)
  {
    predicate Idle() {
      !receive && !send && !cancel
    }
  }

  /** `parked` and `permit` are the connection's entry in the reactor's deferred receives and the
      reactor-wide permission to sweep them. */
  datatype Sys = Sys(
    state: State, tx: Tx, scheduled: bool, notified: bool, notifications: nat,
    parked: bool, permit: bool, kernel: Kernel)
  {
    predicate CanDeinit() {
      !state.receiving && state.phase != Canceling && tx.active.None?
    }

    predicate SendWaits() {
      tx.bytes != [] && tx.active.None?
    }
  }

  const START := Sys(State(Open, true), Tx([], None, false), false, false, 0, false, false, Kernel(true, false, false))

  function One(b: bool): nat {
    if b then 1 else 0
  }

  // ---- what handlers and the application do to a connection

  datatype Chore =
    | Output(bytes: seq<byte>)
    | Close
    | CloseNow(room: bool)
    | BeginError
    | CommitError

  /** `prepareClose`: enters closing and submits one cancellation for whatever is in flight; with no
      room in the submission queue, or a cancellation already requested, nothing changes. */
  function CloseSubmitted(s: Sys, room: bool): Sys {
    if !s.state.receiving && s.tx.active.None? then s.(state := s.state.(phase := s.state.ClosedPhase()))
    else if s.state.CancelRequested() || !room then s
    else s.(state := s.state.(phase := Canceling), kernel := s.kernel.(cancel := true))
  }

  function Do(s: Sys, chore: Chore): Sys {
    match chore
    case Output(bytes) => s.(tx := s.tx.(bytes := s.tx.bytes + bytes))
    case Close => s.(state := s.state.(phase := s.state.ClosedPhase()))
    case CloseNow(room) => CloseSubmitted(s, room)
    case BeginError => if s.state.phase == Open then s.(state := s.state.(phase := ProtocolError)) else s
    case CommitError =>
      if s.state.phase == ProtocolError && s.tx.bytes != [] then s.(state := s.state.(phase := Draining)) else s
  }

  function DoAll(s: Sys, chores: seq<Chore>): Sys
    decreases |chores|
  {
    if chores == [] then s else DoAll(Do(s, chores[0]), chores[1..])
  }

  // ---- steps

  /** How one sweep of the deferred receives, which serves all connections, treats this one. */
  datatype Sweep = Idle | Passed(full: bool) | Short

  predicate SweepAllowed(s: Sys, sweep: Sweep) {
    (!s.permit ==> sweep.Idle?) && (s.permit && s.parked ==> !sweep.Idle?)
  }

  function Swept(s: Sys, sweep: Sweep): Sys {
    match sweep
    case Idle => s
    case Short => s
    case Passed(full) =>
      var arms := s.parked && s.state.phase == Open && !s.state.receiving;
      s.(parked := false, permit := full,
         state := s.state.(receiving := s.state.receiving || arms),
         kernel := s.kernel.(receive := s.kernel.receive || arms))
  }

  datatype Action =
    | Complete(operation: Operation, cqe: Cqe, chores: seq<Chore>, terminal: bool)
    | Prepare(room: bool, flight: Flight, sweep: Sweep)
    | Outside(chores: seq<Chore>)
    | OthersSweep(sweep: Sweep)
    | OthersReturn

  /** A receive stays armed only after delivering data, and data fills a whole buffer of a ring that is
      registered without incremental consumption. */
  predicate FaithfulReceive(cqe: Cqe) {
    (cqe.more ==> cqe.res > 0) && (cqe.res > 0 ==> ReturnsBuffer(cqe))
  }

  /** A completion the kernel may deliver; a send never reports more than was submitted. */
  predicate Deliverable(s: Sys, operation: Operation, cqe: Cqe) {
    match operation
    case Receive => s.kernel.receive && FaithfulReceive(cqe)
    case Send => s.kernel.send && (s.tx.active.Some? ==> cqe.res <= s.tx.active.value.byteCount)
    case Cancel => s.kernel.cancel
    case Accept | AcceptCancel => false
  }

  /** A send covers some of what is queued. */
  predicate Covers(s: Sys, flight: Flight) {
    s.SendWaits() ==> 0 < flight.byteCount <= |s.tx.bytes|
  }

  predicate Enabled(s: Sys, action: Action) {
    match action
    case Complete(operation, cqe, _, _) => Deliverable(s, operation, cqe)
    case Prepare(_, flight, sweep) => Covers(s, flight) && SweepAllowed(s, sweep)
    case Outside(_) => true
    case OthersSweep(sweep) => SweepAllowed(s, sweep)
    case OthersReturn => true
  }

  function Answered(kernel: Kernel, operation: Operation, cqe: Cqe): Kernel {
    match operation
    case Receive => kernel.(receive := cqe.more)
    case Send => kernel.(send := false)
    case Cancel => kernel.(cancel := false)
    case Accept | AcceptCancel => kernel
  }

  /** The actor's part of a completion. */
  function Applied(s: Sys, operation: Operation, cqe: Cqe): Sys {
    match operation
    case Receive => s.(state := AfterReceive(s.state, cqe))
    case Send =>
      var rest := Unsent(s.tx, cqe);
      s.(tx := Tx(rest, None, s.tx.reserved), state := AfterSend(s.state, cqe, |rest|))
    case Cancel => s.(state := s.state.(phase := Canceled))
    case Accept | AcceptCancel => s
  }

  /** A buffer the kernel does not keep for incremental consumption goes back to it. */
  predicate ReturnsBuffer(cqe: Cqe) {
    cqe.res > 0 && cqe.buffer && !cqe.bufferMore
  }

  function Parked(s: Sys): Sys {
    if s.state.phase == Open && !s.state.receiving then s.(parked := true) else s
  }

  /** Dispatch of received data: handlers run only while open, and a terminal result closes. */
  function Dispatched(s: Sys, cqe: Cqe, chores: seq<Chore>, terminal: bool): Sys {
    var ran := if s.state.phase == Open then DoAll(s, chores) else s;
    var closed := if terminal then Do(ran, Close) else ran;
    closed.(permit := closed.permit || ReturnsBuffer(cqe))
  }

  /** Every accepted completion ends with the driver scheduled. */
  function Delivered(s: Sys, operation: Operation, cqe: Cqe, chores: seq<Chore>, terminal: bool): Sys {
    var applied := Applied(s.(kernel := Answered(s.kernel, operation, cqe)), operation, cqe);
    var after :=
      if operation != Receive then applied
      else if cqe.res > 0 then Parked(Dispatched(applied, cqe, chores, terminal))
      else if cqe.Errno() == NOBUFS then Parked(applied)
      else applied;
    after.(scheduled := true)
  }

  /** `prepare` returns early, with the connection as it was: the submission queue has no room for the
      cancellation or the send, or the output has to wait for a protocol error to be committed. */
  predicate Refused(s: Sys, room: bool) {
    s.scheduled &&
    if s.state.Closing() then !s.CanDeinit() && !s.state.CancelRequested() && !room
    else s.SendWaits() && (!room || s.state.phase == ProtocolError)
  }

  /** The first half of `prepare`; `flight` is what a send covers. */
  function Advanced(s: Sys, flight: Flight): Sys {
    if !s.scheduled then s
    else if s.state.Closing() then
      if s.CanDeinit() then s
      else if s.state.CancelRequested() then s.(scheduled := false)
      else CloseSubmitted(s, true).(scheduled := false)
    else if s.SendWaits() then
      s.(scheduled := false, tx := s.tx.(active := Some(flight)), kernel := s.kernel.(send := true))
    else s.(scheduled := false)
  }

  predicate Finishes(s: Sys) {
    s.scheduled && s.state.Closing() && s.CanDeinit()
  }

  function Finished(s: Sys): Sys {
    s.(scheduled := false, notified := true, notifications := s.notifications + One(!s.notified))
  }

  /** One `prepare` call: the connection's own work, the sweep, and last the disconnected hook. */
  function Prepared(s: Sys, room: bool, flight: Flight, sweep: Sweep): Sys {
    if Refused(s, room) then s else
    var swept := Swept(Advanced(s, flight), sweep);
    if Finishes(s) then Finished(swept) else swept
  }

  function Apply(s: Sys, action: Action): Sys {
    match action
    case Complete(operation, cqe, chores, terminal) => Delivered(s, operation, cqe, chores, terminal)
    case Prepare(room, flight, sweep) => Prepared(s, room, flight, sweep)
    case Outside(chores) => DoAll(s, chores).(scheduled := true)
    case OthersSweep(sweep) => Swept(s, sweep)
    case OthersReturn => s.(permit := true)
  }

  // ---- invariants

  /** The actor's flags say exactly what the kernel still references. */
  predicate Mirrors(s: Sys) {
    && s.state.receiving == s.kernel.receive
    && s.tx.active.Some? == s.kernel.send
    && (s.state.phase == Canceling) == s.kernel.cancel
  }

  predicate Core(s: Sys) {
    && Mirrors(s)
    && !s.tx.reserved
    && (s.tx.active.Some? ==> 0 < s.tx.active.value.byteCount <= |s.tx.bytes|)
    && (s.state.phase == Draining ==> s.tx.bytes != [])
    && s.notifications == (if s.notified then 1 else 0)
    && (s.notified ==> s.state.Closing() && s.kernel.Idle())
  }

  /** No wakeup is lost. */
  predicate Awake(s: Sys) {
    && (!s.state.Closing() && s.SendWaits() ==> s.scheduled)
    && (s.state.phase == ClosingIdle && (s.state.receiving || s.tx.active.Some?) ==> s.scheduled)
    && (s.state.Closing() && !s.notified ==> s.scheduled || !s.kernel.Idle())
  }

  predicate Listening(s: Sys) {
    s.state.phase == Open ==> s.state.receiving || s.parked
  }

  predicate Inv(s: Sys) {
    Core(s) && Awake(s) && Listening(s)
  }

  /** What handlers and the application cannot do. */
  predicate Kept(before: Sys, after: Sys) {
    && after.state.receiving == before.state.receiving
    && (after.state.phase == Open ==> before.state.phase == Open)
    && (before.state.Closing() ==> after.state.Closing())
    && after.tx.active == before.tx.active && |before.tx.bytes| <= |after.tx.bytes|
    && after.parked == before.parked && after.permit == before.permit
    && after.scheduled == before.scheduled && after.notified == before.notified
    && after.kernel.receive == before.kernel.receive && after.kernel.send == before.kernel.send
    && (before.kernel.cancel ==> after.kernel.cancel)
  }

  lemma OutputKeeps(s: Sys, bytes: seq<byte>)
    requires Core(s)
    ensures Core(Do(s, Output(bytes))) && Kept(s, Do(s, Output(bytes)))
  {
    var longer := s.tx.bytes + bytes;
    assert |longer| == |s.tx.bytes| + |bytes|;
    var after := s.(tx := Tx(longer, s.tx.active, s.tx.reserved));
    assert Do(s, Output(bytes)) == after;
  }

  /** A change of phase alone, as far as the invariants care. */
  lemma PhaseKeeps(s: Sys, phase: Phase)
    requires Core(s) && s.state.phase != Canceling && phase != Canceling && phase != Open
    requires phase == Draining ==> s.tx.bytes != []
    requires s.state.Closing() ==> s.state.(phase := phase).Closing()
    ensures var after := s.(state := s.state.(phase := phase)); Core(after) && Kept(s, after)
  {}

  lemma CloseNowKeeps(s: Sys, room: bool)
    requires Core(s)
    ensures Core(CloseSubmitted(s, room)) && Kept(s, CloseSubmitted(s, room))
  {}

  lemma ChoreKeeps(s: Sys, chore: Chore)
    requires Core(s)
    ensures Core(Do(s, chore)) && Kept(s, Do(s, chore))
  {
    hide Core, Kept;
    match chore
    case Output(bytes) => OutputKeeps(s, bytes);
    case CloseNow(room) => CloseNowKeeps(s, room);
    case _ =>
      var after := Do(s, chore);
      assert after == s.(state := s.state.(phase := after.state.phase));
      if s.state.phase == after.state.phase {
        KeptNothing(s);
      } else {
        PhaseKeeps(s, after.state.phase);
      }
  }

  lemma KeptNothing(s: Sys)
    ensures Kept(s, s)
  {}

  lemma {:induction false} ChoresKeep(s: Sys, chores: seq<Chore>)
    requires Core(s)
    ensures Core(DoAll(s, chores)) && Kept(s, DoAll(s, chores))
    decreases |chores|
  {
    hide Core, Do;
    if chores != [] {
      ChoreKeeps(s, chores[0]);
      ChoresKeep(Do(s, chores[0]), chores[1..]);
    }
  }

  lemma ReceiveKeeps(s: Sys, cqe: Cqe, chores: seq<Chore>, terminal: bool)
    requires Inv(s) && Deliverable(s, Receive, cqe)
    ensures Inv(Delivered(s, Receive, cqe, chores, terminal))
  {
    hide DoAll;
    var applied := s.(kernel := s.kernel.(receive := cqe.more), state := AfterReceive(s.state, cqe));
    assert applied == Applied(s.(kernel := Answered(s.kernel, Receive, cqe)), Receive, cqe);
    if cqe.res > 0 {
      ChoresKeep(applied, chores);
      DispatchKeeps(applied, cqe, chores, terminal);
      ParkKeeps(Dispatched(applied, cqe, chores, terminal));
    } else {
      assert Core(applied);
      ParkKeeps(applied);
    }
  }

  lemma DispatchKeeps(s: Sys, cqe: Cqe, chores: seq<Chore>, terminal: bool)
    requires Core(s)
    ensures Core(Dispatched(s, cqe, chores, terminal))
  {
    hide DoAll, Core, Do;
    ChoresKeep(s, chores);
    var ran := if s.state.phase == Open then DoAll(s, chores) else s;
    var closed := if terminal then Do(ran, Close) else ran;
    ChoreKeeps(ran, Close);
    PermitKeeps(closed, closed.permit || ReturnsBuffer(cqe));
  }

  lemma PermitKeeps(s: Sys, permit: bool)
    requires Core(s)
    ensures Core(s.(permit := permit))
  {}

  lemma ParkKeeps(s: Sys)
    requires Core(s)
    ensures Core(Parked(s)) && Inv(Parked(s).(scheduled := true))
  {}

  lemma SendKeeps(s: Sys, cqe: Cqe)
    requires Inv(s) && Deliverable(s, Send, cqe)
    ensures Inv(Delivered(s, Send, cqe, [], false))
  {}

  lemma CancelKeeps(s: Sys, cqe: Cqe)
    requires Inv(s) && Deliverable(s, Cancel, cqe)
    ensures Inv(Delivered(s, Cancel, cqe, [], false))
  {}

  /** A completion answers its own operation; handlers can at most add a cancellation. */
  lemma DeliveryAnswers(s: Sys, operation: Operation, cqe: Cqe, chores: seq<Chore>, terminal: bool)
    requires Inv(s) && Deliverable(s, operation, cqe)
    ensures var after, answered := Delivered(s, operation, cqe, chores, terminal), Answered(s.kernel, operation, cqe);
            && after.kernel.receive == answered.receive && after.kernel.send == answered.send
            && (answered.cancel ==> after.kernel.cancel)
            && (operation != Send ==> after.tx.active == s.tx.active)
  {
    hide DoAll, Unsent, Core, Awake, Listening, Dispatched, AfterReceive, AfterSend;
    if operation == Receive && cqe.res > 0 {
      AppliedCore(s, operation, cqe);
      DispatchAnswers(Applied(s.(kernel := Answered(s.kernel, operation, cqe)), operation, cqe), cqe, chores, terminal);
    }
  }

  lemma DispatchAnswers(s: Sys, cqe: Cqe, chores: seq<Chore>, terminal: bool)
    requires Core(s)
    ensures var after := Dispatched(s, cqe, chores, terminal);
            && after.kernel.receive == s.kernel.receive && after.kernel.send == s.kernel.send
            && (s.kernel.cancel ==> after.kernel.cancel) && after.tx.active == s.tx.active
  {
    hide DoAll, Core;
    ChoresKeep(s, chores);
  }

  lemma DeliveryKeeps(s: Sys, operation: Operation, cqe: Cqe, chores: seq<Chore>, terminal: bool)
    requires Inv(s) && Deliverable(s, operation, cqe)
    ensures Inv(Delivered(s, operation, cqe, chores, terminal))
  {
    hide DoAll, Core, Awake, Listening, Applied, Dispatched, Parked;
    match operation
    case Receive => ReceiveKeeps(s, cqe, chores, terminal);
    case Send =>
      assert Delivered(s, Send, cqe, chores, terminal) == Delivered(s, Send, cqe, [], false);
      SendKeeps(s, cqe);
    case Cancel =>
      assert Delivered(s, Cancel, cqe, chores, terminal) == Delivered(s, Cancel, cqe, [], false);
      CancelKeeps(s, cqe);
  }

  lemma AdvanceKeeps(s: Sys, room: bool, flight: Flight)
    requires Inv(s) && Covers(s, flight) && !Refused(s, room) && !Finishes(s)
    ensures Inv(Advanced(s, flight))
  {}

  lemma FinishKeeps(s: Sys)
    requires Inv(s) && Finishes(s)
    ensures Inv(Finished(s))
  {}

  lemma PrepareKeeps(s: Sys, room: bool, flight: Flight, sweep: Sweep)
    requires Inv(s) && Covers(s, flight) && SweepAllowed(s, sweep)
    ensures Inv(Prepared(s, room, flight, sweep))
  {
    hide Inv;
    if Refused(s, room) {
    } else if Finishes(s) {
      SweepKeeps(s, sweep);
      FinishKeeps(Swept(s, sweep));
    } else {
      AdvanceKeeps(s, room, flight);
      SweepKeeps(Advanced(s, flight), sweep);
    }
  }

  /** Every step keeps every invariant. */
  lemma StepKeeps(s: Sys, action: Action)
    requires Inv(s) && Enabled(s, action)
    ensures Inv(Apply(s, action))
  {
    hide DoAll, Prepared, Delivered, Awake, Core, Listening;
    match action
    case Complete(operation, cqe, chores, terminal) => DeliveryKeeps(s, operation, cqe, chores, terminal);
    case Prepare(room, flight, sweep) => PrepareKeeps(s, room, flight, sweep);
    case Outside(chores) => OutsideKeeps(s, chores);
    case OthersSweep(sweep) => SweepKeeps(s, sweep);
    case OthersReturn => ReturnKeeps(s);
  }

  lemma OutsideKeeps(s: Sys, chores: seq<Chore>)
    requires Inv(s)
    ensures Inv(DoAll(s, chores).(scheduled := true))
  {
    hide DoAll;
    ChoresKeep(s, chores);
  }

  lemma SweepKeeps(s: Sys, sweep: Sweep)
    requires Inv(s) && SweepAllowed(s, sweep)
    ensures Inv(Swept(s, sweep))
  {}

  lemma ReturnKeeps(s: Sys)
    requires Inv(s)
    ensures Inv(s.(permit := true))
  {}

  // ---- runs

  ghost predicate IsRun(run: seq<Sys>, actions: seq<Action>) {
    && |run| == |actions| + 1
    && forall i :: 0 <= i < |actions| ==> Enabled(run[i], actions[i]) && run[i + 1] == Apply(run[i], actions[i])
  }

  ghost predicate Starts(run: seq<Sys>, actions: seq<Action>) {
    IsRun(run, actions) && run[0] == START
  }

  lemma {:induction false} InvOverRuns(run: seq<Sys>, actions: seq<Action>, from: nat, i: nat)
    requires IsRun(run, actions) && from <= i < |run| && Inv(run[from])
    ensures Inv(run[i])
    decreases i
  {
    hide Inv, Apply, Enabled;
    if from < i {
      InvOverRuns(run, actions, from, i - 1);
      StepKeeps(run[i - 1], actions[i - 1]);
    }
  }

  lemma StartIsSound()
    ensures Inv(START)
  {}

  /** In every reachable state: queued output of a connection that is not closing, with no send in
      flight, is scheduled; a closing connection that has outstanding operations and has not asked to
      cancel them is scheduled; one not yet reported as disconnected is scheduled or waits for the
      kernel; and an open connection is listening, or its receive is deferred with permission to arm it
      again, unless that receive ended for want of buffers and none has been returned since. */
  lemma NoLostWakeup(run: seq<Sys>, actions: seq<Action>, i: nat)
    requires Starts(run, actions) && i < |run|
    ensures var s := run[i];
            && (!s.state.Closing() && s.tx.bytes != [] && s.tx.active.None? ==> s.scheduled)
            && (s.state.phase == ClosingIdle && !s.kernel.Idle() ==> s.scheduled)
            && (s.state.Closing() && !s.notified ==> s.scheduled || !s.kernel.Idle())
            && (s.state.phase == Open && !s.kernel.receive ==> s.parked && (s.permit <==> !Starved(run, actions, i)))
  {
    hide Apply, Enabled, Starved;
    StartIsSound();
    InvOverRuns(run, actions, 0, i);
    if run[i].state == State(Open, false) {
      StarvedIffNotPermitted(run, actions, i);
    }
  }

  /** In every reachable state the actor's flags are the kernel's, so the actor may be destroyed exactly
      when the kernel references nothing of it, and draining always has something left to send. */
  lemma FlagsMirrorKernel(run: seq<Sys>, actions: seq<Action>, i: nat)
    requires Starts(run, actions) && i < |run|
    ensures Mirrors(run[i]) && (run[i].CanDeinit() <==> run[i].kernel.Idle())
    ensures run[i].state.phase == Draining ==> run[i].tx.bytes != []
  {
    hide Apply, Enabled;
    StartIsSound();
    InvOverRuns(run, actions, 0, i);
  }

  /** The flags stay right exactly as long as the kernel keeps a receive armed only after data. */
  lemma MirrorNeedsKernel(s: Sys, cqe: Cqe)
    requires Mirrors(s) && s.kernel.receive
    ensures var applied := Applied(s.(kernel := Answered(s.kernel, Receive, cqe)), Receive, cqe);
            Mirrors(applied) <==> (cqe.more ==> cqe.res > 0)
  {}

  /** Closing is never left. */
  lemma {:induction false} ClosingIsForever(run: seq<Sys>, actions: seq<Action>, i: nat, j: nat)
    requires IsRun(run, actions) && i <= j < |run| && Inv(run[i]) && run[i].state.Closing()
    ensures run[j].state.Closing() && (run[i].notified ==> run[j].notified)
    decreases j
  {
    hide Inv, Apply, Enabled;
    if i < j {
      ClosingIsForever(run, actions, i, j - 1);
      InvOverRuns(run, actions, i, j - 1);
      ClosingStep(run[j - 1], actions[j - 1]);
    }
  }

  /** While closing no handler runs, and a completion changes no more than this. */
  lemma ClosingDelivery(s: Sys, operation: Operation, cqe: Cqe, chores: seq<Chore>, terminal: bool)
    requires s.state.Closing()
    ensures var after := Delivered(s, operation, cqe, chores, terminal);
            && after.state.phase == (if operation == Cancel then Canceled else s.state.phase)
            && after.kernel == Answered(s.kernel, operation, cqe)
            && after.scheduled && after.notified == s.notified
  {
    hide DoAll, Unsent;
    match operation
    case Receive =>
      var applied := Applied(s.(kernel := Answered(s.kernel, operation, cqe)), operation, cqe);
      assert applied.state.phase == s.state.phase;
      assert Do(applied, Close).state == applied.state;
    case _ =>
  }

  lemma ClosingStep(s: Sys, action: Action)
    requires Inv(s) && Enabled(s, action) && s.state.Closing()
    ensures Apply(s, action).state.Closing() && (s.notified ==> Apply(s, action).notified)
  {
    hide DoAll, Core, Awake, Listening, Delivered;
    match action
    case Complete(operation, cqe, chores, terminal) => ClosingDelivery(s, operation, cqe, chores, terminal);
    case Outside(chores) => ChoresKeep(s, chores);
    case _ =>
  }

  /** The disconnected hook runs at most once in any run; when it runs, and ever after, the kernel holds
      no receive, send or cancellation of the connection. */
  lemma HookRunsOnce(run: seq<Sys>, actions: seq<Action>, i: nat, j: nat)
    requires Starts(run, actions) && i < j < |run|
    ensures run[j].notifications <= 1
    ensures run[i + 1].notifications != run[i].notifications ==>
              && run[i + 1].notifications == run[i].notifications + 1
              && actions[i].Prepare? && run[i].state.Closing() && run[i].kernel.Idle()
              && run[j].kernel.Idle() && run[j].notifications == 1
  {
    hide Apply, Enabled;
    StartIsSound();
    InvOverRuns(run, actions, 0, i);
    InvOverRuns(run, actions, 0, i + 1);
    InvOverRuns(run, actions, 0, j);
    if run[i + 1].notifications != run[i].notifications {
      OnlyPrepareNotifies(run[i], actions[i]);
      ClosingIsForever(run, actions, i + 1, j);
    }
  }

  lemma OnlyPrepareNotifies(s: Sys, action: Action)
    requires Inv(s) && Enabled(s, action) && Apply(s, action).notified != s.notified
    ensures action.Prepare? && s.scheduled && s.state.Closing() && s.kernel.Idle()
    ensures Apply(s, action).state.Closing() && Apply(s, action).notified
  {
    hide DoAll, Core, Awake, Listening;
    match action
    case Complete(operation, cqe, chores, terminal) =>
      var applied := Applied(s.(kernel := Answered(s.kernel, operation, cqe)), operation, cqe);
      NotifiedSame(applied, chores);
    case Prepare(_, _, _) => assert Mirrors(s) by { assert Core(s); CoreMirrors(s); }
    case Outside(chores) => ChoresKeep(s, chores);
    case _ =>
  }

  lemma CoreMirrors(s: Sys)
    requires Core(s)
    ensures Mirrors(s)
  {}

  lemma {:induction false} NotifiedSame(s: Sys, chores: seq<Chore>)
    ensures DoAll(s, chores).notified == s.notified
    decreases |chores|
  {
    if chores != [] {
      NotifiedSame(Do(s, chores[0]), chores[1..]);
    }
  }

  // ---- teardown

  function Weight(kernel: Kernel): nat {
    2 * (One(kernel.receive) + One(kernel.send) + One(kernel.cancel))
  }

  /** What is left to do before a closing connection is reported as disconnected. */
  function Rank(s: Sys): nat {
    Weight(s.kernel) + 2 * One(s.state.phase == ClosingIdle) + One(s.scheduled) + One(!s.notified)
  }

  /** The kernel gives its last answer to an operation, or the scheduled driver finds room. */
  predicate Useful(s: Sys, action: Action) {
    match action
    case Complete(_, cqe, _, _) => !cqe.more
    case Prepare(room, _, _) => room && s.scheduled
    case _ => false
  }

  lemma CompletionRank(s: Sys, operation: Operation, cqe: Cqe, chores: seq<Chore>, terminal: bool)
    requires Inv(s) && s.state.Closing() && Deliverable(s, operation, cqe)
    ensures var after := Delivered(s, operation, cqe, chores, terminal);
            Rank(after) <= Rank(s) + 1 && (!cqe.more ==> Rank(after) < Rank(s))
  {
    hide Delivered, Inv, AfterReceive, AfterSend, ReceiveReport, Weight;
    ClosingDelivery(s, operation, cqe, chores, terminal);
    AnswerWeight(s, operation, cqe);
  }

  lemma AnswerWeight(s: Sys, operation: Operation, cqe: Cqe)
    requires Inv(s) && Deliverable(s, operation, cqe)
    ensures var after := Weight(Answered(s.kernel, operation, cqe));
            after <= Weight(s.kernel) && (!cqe.more ==> after + 2 == Weight(s.kernel))
    ensures operation == Cancel ==> s.state.phase == Canceling
  {
    CoreMirrors(s);
  }

  lemma PrepareRank(s: Sys, room: bool, flight: Flight, sweep: Sweep)
    requires Inv(s) && s.state.Closing() && SweepAllowed(s, sweep)
    ensures var after := Prepared(s, room, flight, sweep);
            Rank(after) <= Rank(s) && (s.scheduled && room ==> Rank(after) < Rank(s))
  {}

  lemma {:induction false} ChoresRank(s: Sys, chores: seq<Chore>)
    requires Core(s) && s.state.Closing()
    ensures Rank(DoAll(s, chores)) <= Rank(s)
    decreases |chores|
  {
    if chores != [] {
      hide Core, Do;
      ChoreKeeps(s, chores[0]);
      ChoreRank(s, chores[0]);
      ChoresRank(Do(s, chores[0]), chores[1..]);
    }
  }

  lemma ChoreRank(s: Sys, chore: Chore)
    requires Core(s) && s.state.Closing()
    ensures Rank(Do(s, chore)) <= Rank(s)
  {}

  lemma ScheduleRank(s: Sys)
    ensures Rank(s.(scheduled := true)) <= Rank(s) + 1
  {}

  lemma SweepRank(s: Sys, sweep: Sweep)
    requires s.state.Closing()
    ensures Rank(Swept(s, sweep)) == Rank(s) == Rank(s.(permit := true))
  {}

  /** While closing, useful steps bring the rank down and no other step raises it by more than one. */
  lemma StepRank(s: Sys, action: Action)
    requires Inv(s) && Enabled(s, action) && s.state.Closing()
    ensures Rank(Apply(s, action)) <= Rank(s) + 1
    ensures Useful(s, action) ==> Rank(Apply(s, action)) < Rank(s)
  {
    hide DoAll, Prepared, Delivered, Rank;
    match action
    case Complete(operation, cqe, chores, terminal) => CompletionRank(s, operation, cqe, chores, terminal);
    case Prepare(room, flight, sweep) => PrepareRank(s, room, flight, sweep);
    case Outside(chores) =>
      ChoresKeep(s, chores);
      ChoresRank(s, chores);
      ScheduleRank(DoAll(s, chores));
    case OthersSweep(sweep) => SweepRank(s, sweep);
    case OthersReturn => SweepRank(s, Idle);
  }

  function UsefulSteps(run: seq<Sys>, actions: seq<Action>): nat
    requires |run| == |actions| + 1
    decreases |actions|
  {
    if actions == [] then 0
    else
      var n := |actions| - 1;
      UsefulSteps(run[..n + 1], actions[..n]) + One(Useful(run[n], actions[n]))
  }

  lemma {:induction false} TeardownBound(run: seq<Sys>, actions: seq<Action>)
    requires IsRun(run, actions) && Inv(run[0]) && run[0].state.Closing()
    ensures Rank(run[|actions|]) + 2 * UsefulSteps(run, actions) <= Rank(run[0]) + |actions|
    decreases |actions|
  {
    hide Inv, Apply, Enabled, Rank, Useful;
    if actions != [] {
      var n := |actions| - 1;
      TeardownBound(run[..n + 1], actions[..n]);
      InvOverRuns(run, actions, 0, n);
      ClosingIsForever(run, actions, 0, n);
      StepRank(run[n], actions[n]);
    }
  }

  /** A closing connection that has not been reported has a useful step to take. */
  lemma UsefulExists(s: Sys) returns (action: Action)
    requires Inv(s) && s.state.Closing() && !s.notified
    ensures Enabled(s, action) && Useful(s, action)
  {
    if s.scheduled {
      action := Prepare(true, Flight(1, 0), if s.permit && s.parked then Passed(false) else Idle);
    } else {
      var cqe := Cqe(0, 0, false, false, false);
      action := Complete(if s.kernel.receive then Receive else if s.kernel.send then Send else Cancel, cqe, [], false);
    }
  }

  /** Teardown: in every run from a closing state, the useful steps exceed the others by no more than the
      rank of that state, and a run that leaves no useful step to take ends with the connection reported
      and the kernel idle. */
  lemma TeardownIsReached(run: seq<Sys>, actions: seq<Action>)
    requires IsRun(run, actions) && Inv(run[0]) && run[0].state.Closing()
    ensures 2 * UsefulSteps(run, actions) <= |actions| + Rank(run[0])
    ensures (forall action :: Enabled(run[|actions|], action) ==> !Useful(run[|actions|], action)) ==>
              run[|actions|].notified && run[|actions|].kernel.Idle()
  {
    hide Apply, Rank, Core, Awake, Listening;
    TeardownBound(run, actions);
    InvOverRuns(run, actions, 0, |actions|);
    ClosingIsForever(run, actions, 0, |actions|);
    var last := run[|actions|];
    if !last.notified {
      var action := UsefulExists(last);
    } else {
      NotifiedIsIdle(last);
    }
  }

  lemma NotifiedIsIdle(s: Sys)
    requires Core(s) && s.notified
    ensures s.kernel.Idle()
  {}

  // ---- deferred receives

  /** A receive completion that reports that no buffer was left. */
  predicate Exhausts(action: Action) {
    action.Complete? && action.operation == Receive && action.cqe.Errno() == NOBUFS
  }

  /** A receive buffer goes back to the kernel. */
  predicate ReturnsOne(action: Action) {
    match action
    case Complete(operation, cqe, _, _) => operation == Receive && ReturnsBuffer(cqe)
    case OthersReturn => true
    case _ => false
  }

  /** A sweep of the deferred receives that the submission queue had room for to its end. */
  predicate SweepsAll(s: Sys, action: Action) {
    match action
    case Prepare(room, _, sweep) => !Refused(s, room) && sweep == Passed(false)
    case OthersSweep(sweep) => sweep == Passed(false)
    case _ => false
  }

  /** No buffer was returned between step `k`, right after a whole sweep or at the start, and step `i`. */
  ghost predicate NothingReturned(run: seq<Sys>, actions: seq<Action>, k: nat, i: nat)
    requires IsRun(run, actions) && i < |run|
  {
    && k <= i && (k == 0 || SweepsAll(run[k - 1], actions[k - 1]))
    && forall m :: k <= m < i ==> !ReturnsOne(actions[m])
  }

  /** Step `j` ended the receive, and it has not been armed since. */
  ghost predicate EndedAt(run: seq<Sys>, actions: seq<Action>, j: nat, i: nat)
    requires IsRun(run, actions) && i < |run|
  {
    j < i && run[j].state.receiving && forall m :: j < m <= i ==> !run[m].state.receiving
  }

  /** The receive ended for want of buffers, and since the last sweep no buffer has been returned. */
  ghost predicate Starved(run: seq<Sys>, actions: seq<Action>, i: nat)
    requires IsRun(run, actions) && i < |run|
  {
    exists j: nat, k: nat ::
      EndedAt(run, actions, j, i) && Exhausts(actions[j]) && k <= j && NothingReturned(run, actions, k, i)
  }

  lemma {:induction false} ChoresKeepPermit(s: Sys, chores: seq<Chore>)
    ensures DoAll(s, chores).permit == s.permit
    decreases |chores|
  {
    if chores != [] {
      ChoresKeepPermit(Do(s, chores[0]), chores[1..]);
    }
  }

  /** The permission to sweep comes with a returned buffer and goes with a whole sweep. */
  lemma PermitStep(s: Sys, action: Action)
    requires Enabled(s, action)
    ensures Apply(s, action).permit <==> ReturnsOne(action) || (s.permit && !SweepsAll(s, action))
    ensures !(ReturnsOne(action) && SweepsAll(s, action))
  {
    hide DoAll;
    match action
    case Complete(operation, cqe, chores, terminal) =>
      ChoresKeepPermit(Applied(s.(kernel := Answered(s.kernel, operation, cqe)), operation, cqe), chores);
    case Outside(chores) => ChoresKeepPermit(s, chores);
    case _ =>
  }

  lemma ReturnedStep(run: seq<Sys>, actions: seq<Action>, k: nat, i: nat)
    requires IsRun(run, actions) && 0 < i < |run|
    ensures NothingReturned(run, actions, k, i) <==>
              || (k < i && NothingReturned(run, actions, k, i - 1) && !ReturnsOne(actions[i - 1]))
              || (k == i && SweepsAll(run[i - 1], actions[i - 1]))
  {
    hide ReturnsOne, SweepsAll, Enabled, Apply;
  }

  lemma {:induction false} NoPermit(run: seq<Sys>, actions: seq<Action>, i: nat)
    requires Starts(run, actions) && i < |run|
    ensures !run[i].permit <==> exists k: nat :: NothingReturned(run, actions, k, i)
    decreases i
  {
    hide Apply, Enabled, SweepsAll, ReturnsOne;
    if i == 0 {
      assert NothingReturned(run, actions, 0, 0);
    } else {
      hide NothingReturned;
      NoPermit(run, actions, i - 1);
      PermitStep(run[i - 1], actions[i - 1]);
      forall k: nat
        ensures NothingReturned(run, actions, k, i) <==>
                  || (k < i && NothingReturned(run, actions, k, i - 1) && !ReturnsOne(actions[i - 1]))
                  || (k == i && SweepsAll(run[i - 1], actions[i - 1]))
      {
        ReturnedStep(run, actions, k, i);
      }
      if SweepsAll(run[i - 1], actions[i - 1]) {
        assert NothingReturned(run, actions, i, i);
      } else if !run[i].permit {
        var k: nat :| NothingReturned(run, actions, k, i - 1);
        NotAhead(run, actions, k, i - 1);
        assert NothingReturned(run, actions, k, i);
      }
    }
  }

  lemma NotAhead(run: seq<Sys>, actions: seq<Action>, k: nat, i: nat)
    requires IsRun(run, actions) && i < |run| && NothingReturned(run, actions, k, i)
    ensures k <= i
  {}

  /** A step that leaves an open connection without receive and permission either ended the receive for
      want of buffers, or found it so. */
  lemma StrandingStep(s: Sys, action: Action)
    requires Inv(s) && Enabled(s, action)
    requires Apply(s, action).state == State(Open, false) && !Apply(s, action).permit
    ensures s.state.phase == Open && !s.permit
    ensures s.state.receiving ==> Exhausts(action)
  {
    hide DoAll, Core, Awake;
    match action
    case Complete(operation, cqe, chores, terminal) =>
      assert Mirrors(s) by { CoreMirrors(s); }
      AppliedCore(s, operation, cqe);
      ChoresKeep(Applied(s.(kernel := Answered(s.kernel, operation, cqe)), operation, cqe), chores);
    case Prepare(_, _, _) =>
    case Outside(chores) => ChoresKeep(s, chores);
    case _ =>
  }

  lemma AppliedCore(s: Sys, operation: Operation, cqe: Cqe)
    requires Inv(s) && Deliverable(s, operation, cqe)
    ensures Core(Applied(s.(kernel := Answered(s.kernel, operation, cqe)), operation, cqe))
  {}

  lemma {:induction false} StrandedBy(run: seq<Sys>, actions: seq<Action>, i: nat) returns (j: nat)
    requires Starts(run, actions) && i < |run| && run[i].state == State(Open, false) && !run[i].permit
    ensures EndedAt(run, actions, j, i) && Exhausts(actions[j])
    ensures forall m :: j <= m <= i ==> !run[m].permit
    decreases i
  {
    hide Apply, Enabled, Exhausts, Inv;
    StartIsSound();
    assert i > 0;
    InvOverRuns(run, actions, 0, i - 1);
    StrandingStep(run[i - 1], actions[i - 1]);
    if run[i - 1].state.receiving {
      j := i - 1;
    } else {
      j := StrandedBy(run, actions, i - 1);
    }
  }

  /** The exact condition: an open connection whose receive is not armed lacks the permission to arm it
      again if and only if that receive ended for want of buffers and no buffer has been returned since
      the last sweep. */
  lemma StarvedIffNotPermitted(run: seq<Sys>, actions: seq<Action>, i: nat)
    requires Starts(run, actions) && i < |run| && run[i].state == State(Open, false)
    ensures !run[i].permit <==> Starved(run, actions, i)
  {
    hide Apply, Enabled, Exhausts, ReturnsOne, SweepsAll;
    NoPermit(run, actions, i);
    if !run[i].permit {
      var j := StrandedBy(run, actions, i);
      NoPermit(run, actions, j);
      var k: nat :| NothingReturned(run, actions, k, j);
      forall m | j <= m < i ensures !ReturnsOne(actions[m]) {
        PermitStep(run[m], actions[m]);
        assert !run[m + 1].permit;
      }
      assert NothingReturned(run, actions, k, i);
    }
  }

  /** So a receive that ended with data is never stranded: where no receive has run out of buffers, every
      open connection listens or has the permission it needs. */
  lemma OnlyExhaustionStrands(run: seq<Sys>, actions: seq<Action>, i: nat)
    requires Starts(run, actions) && i < |run| && (forall j :: 0 <= j < i ==> !Exhausts(actions[j]))
    ensures run[i].state == State(Open, false) ==> run[i].parked && run[i].permit
  {
    hide Apply, Enabled, Exhausts;
    StartIsSound();
    InvOverRuns(run, actions, 0, i);
    if run[i].state == State(Open, false) {
      StarvedIffNotPermitted(run, actions, i);
    }
  }

  /** In every reachable state a deferred receive can be armed by the next sweep exactly when the
      connection is not starved. */
  lemma RearmedIffNotStarved(run: seq<Sys>, actions: seq<Action>, i: nat)
    requires Starts(run, actions) && i < |run| && run[i].state == State(Open, false)
    ensures (exists sweep :: SweepAllowed(run[i], sweep) && Swept(run[i], sweep).kernel.receive)
            <==> !Starved(run, actions, i)
  {
    hide Apply, Enabled, Starved, Core, Awake;
    StartIsSound();
    InvOverRuns(run, actions, 0, i);
    CoreMirrors(run[i]);
    StarvedIffNotPermitted(run, actions, i);
    if run[i].permit {
      assert SweepAllowed(run[i], Passed(false)) && Swept(run[i], Passed(false)).kernel.receive;
    }
  }

  /** Starvation happens, and does not need a lasting want of buffers: one is returned, another connection's sweep
      uses up the permission, and only then is this connection's completion dispatched. It stays open with
      nothing outstanding, nothing scheduled and no permission to sweep. */
  lemma ParkedWithoutPermit() returns (run: seq<Sys>, actions: seq<Action>)
    ensures Starts(run, actions)
    ensures actions == [OthersReturn, OthersSweep(Passed(false)),
                        Complete(Receive, Cqe(0, -105, false, false, false), [], false),
                        Prepare(true, Flight(1, 0), Idle)]
    ensures var last := run[|actions|];
            last.state == State(Open, false) && last.kernel.Idle() && !last.scheduled && last.parked && !last.permit
  {
    var noBuffer := Complete(Receive, Cqe(0, -105, false, false, false), [], false);
    actions := [OthersReturn, OthersSweep(Passed(false)), noBuffer, Prepare(true, Flight(1, 0), Idle)];
    var returned := START.(permit := true);
    var arrived := Apply(START, noBuffer);
    run := [START, returned, START, arrived, Apply(arrived, actions[3])];
  }
}

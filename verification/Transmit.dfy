/** The transmit queue as its users see it: queued bytes and descriptors, at most one send in
    flight, and reservations that publish a whole message or nothing. The block chains behind it
    are not part of this model. */
module Transmit {
  import opened Outcomes
  import opened Bytes

  datatype Flight = Flight(byteCount: nat, descriptorCount: nat)

  class Queue {
    const byteBudget: nat
    const fdBudget: nat
    var bytes: seq<byte>
    var descriptors: seq<Fd>
    var active: Option<Flight>
    var reservationActive: bool
    /** Descriptors the queue has closed, in order. */
    ghost var closed: seq<Fd>

    ghost predicate Valid()
      reads this
    {
      && |bytes| <= byteBudget && |descriptors| <= fdBudget
      && (active.Some? ==> 0 < active.value.byteCount <= |bytes| && active.value.descriptorCount <= |descriptors|)
    }

    constructor (byteBudget: nat, fdBudget: nat)
      ensures Valid() && bytes == [] && descriptors == [] && active.None? && !reservationActive && closed == []
      ensures this.byteBudget == byteBudget && this.fdBudget == fdBudget
    {
      this.byteBudget, this.fdBudget := byteBudget, fdBudget;
      bytes, descriptors, active, reservationActive, closed := [], [], None, false, [];
    }

    function QueuedBytes(): nat
      reads this
    {
      |bytes|
    }

    predicate SendActive()
      reads this
    {
      active.Some?
    }

    /** Queues whole or not at all; growing a shared pool may be refused. */
    method Enqueue(more: seq<byte>, fds: seq<Fd>) returns (r: Result<(), Error>)
      requires Valid()
      modifies this`bytes, this`descriptors
      ensures Valid()
      ensures more == [] ==> r == Err(EmptyMessage)
      ensures more != [] && reservationActive ==> r == Err(ReservationActive)
      ensures more != [] && !reservationActive && |more| > byteBudget - |old(bytes)| ==> r == Err(ByteBudgetExceeded)
      ensures r.Ok? ==> more != [] && bytes == old(bytes) + more && descriptors == old(descriptors) + fds
      ensures r.Err? ==> bytes == old(bytes) && descriptors == old(descriptors)
    {
      if more == [] {
        return Err(EmptyMessage);
      }
      if reservationActive {
        return Err(ReservationActive);
      }
      if |more| > byteBudget - |bytes| {
        return Err(ByteBudgetExceeded);
      }
      if |fds| > fdBudget - |descriptors| {
        return Err(DescriptorBudgetExceeded);
      }
      var granted: bool, full: bool := *, *;
      if !granted {
        return Err(if full then CapacityOverflow else OutOfMemory);
      }
      bytes, descriptors := bytes + more, descriptors + fds;
      return Ok(());
    }

    /** Growing the shared pool may be refused. */
    method Reserve(byteCount: nat) returns (r: Result<Reservation, Error>)
      requires Valid()
      modifies this`reservationActive
      ensures r.Ok? ==> fresh(r.value) && r.value.queue == this && r.value.byteCount == byteCount
                        && r.value.written == [] && !r.value.finished && reservationActive
      ensures r.Err? ==> reservationActive == old(reservationActive)
      ensures r == Err(ReservationActive) <==> old(reservationActive)
      ensures r == Err(EmptyMessage) <==> !old(reservationActive) && byteCount == 0
      ensures r == Err(ByteBudgetExceeded) <==>
              !old(reservationActive) && byteCount > 0 && byteCount > byteBudget - |bytes|
      ensures r.Err? ==> r.error in {ReservationActive, EmptyMessage, ByteBudgetExceeded, OutOfMemory, CapacityOverflow}
    {
      if reservationActive {
        return Err(ReservationActive);
      }
      if byteCount == 0 {
        return Err(EmptyMessage);
      }
      if byteCount > byteBudget - |bytes| {
        return Err(ByteBudgetExceeded);
      }
      var granted: bool, full: bool := *, *;
      if !granted {
        return Err(if full then CapacityOverflow else OutOfMemory);
      }
      var reservation := new Reservation(this, byteCount);
      reservationActive := true;
      return Ok(reservation);
    }

    /** Records that a send of the first `byteCount` bytes and all descriptors is submitted. */
    method Begin(byteCount: nat) returns (r: Result<(), Error>)
      requires Valid()
      modifies this`active
      ensures Valid()
      ensures r.Ok? <==> !reservationActive && old(active).None? && 0 < byteCount <= |bytes|
      ensures active == if r.Ok? then Some(Flight(byteCount, |descriptors|)) else old(active)
    {
      if reservationActive {
        return Err(ReservationActive);
      }
      if SendActive() {
        return Err(SendAlreadyActive);
      }
      if byteCount == 0 || byteCount > |bytes| {
        return Err(InvalidCompletion);
      }
      active := Some(Flight(byteCount, |descriptors|));
      return Ok(());
    }

    /** A partial write consumes only what was written, but closes all descriptors of the flight: the kernel has
        handed them over with the first byte. */
    method Complete(written: nat) returns (r: Result<(), Error>)
      requires Valid()
      modifies this
      ensures Valid() && reservationActive == old(reservationActive)
      ensures r.Ok? <==> !reservationActive && old(active).Some? && 0 < written <= old(active).value.byteCount
      ensures r.Ok? ==> active.None? && bytes == old(bytes)[written..]
                        && descriptors == old(descriptors)[old(active).value.descriptorCount..]
                        && closed == old(closed) + old(descriptors)[..old(active).value.descriptorCount]
      ensures r.Err? ==> active == old(active) && closed == old(closed)
                         && bytes == old(bytes) && descriptors == old(descriptors)
                         && r.error in {ReservationActive, NoSendActive, InvalidCompletion}
    {
      if reservationActive {
        return Err(ReservationActive);
      }
      if active.None? {
        return Err(NoSendActive);
      }
      if written == 0 || written > active.value.byteCount {
        return Err(InvalidCompletion);
      }
      bytes := bytes[written..];
      closed := closed + descriptors[..active.value.descriptorCount];
      descriptors := descriptors[active.value.descriptorCount..];
      active := None;
      return Ok(());
    }

    /** Gives up whatever is queued; its descriptors are closed. */
    method Deinit()
      requires Valid() && !reservationActive
      modifies this
      ensures Valid() && bytes == [] && descriptors == [] && active.None? && !reservationActive
      ensures closed == old(closed) + old(descriptors)
    {
      bytes, active, closed, descriptors := [], None, closed + descriptors, [];
    }

    method Failed() returns (r: Result<(), Error>)
      requires Valid()
      modifies this`active
      ensures Valid()
      ensures r.Ok? <==> !reservationActive && old(active).Some?
      ensures active == if r.Ok? then None else old(active)
      ensures r.Err? ==> r.error in {ReservationActive, NoSendActive}
    {
      if reservationActive {
        return Err(ReservationActive);
      }
      if !SendActive() {
        return Err(NoSendActive);
      }
      active := None;
      return Ok(());
    }
  }

  /** Private space for one message; nothing of it is visible before `Commit`. */
  class Reservation {
    const queue: Queue
    const byteCount: nat
    var written: seq<byte>
    var finished: bool

    constructor (queue: Queue, byteCount: nat)
      ensures this.queue == queue && this.byteCount == byteCount && written == [] && !finished
    {
      this.queue, this.byteCount, written, finished := queue, byteCount, [], false;
    }

    method Write(bytes: seq<byte>) returns (r: Result<(), Error>)
      requires |written| <= byteCount
      modifies this`written
      ensures r == if finished || |bytes| > byteCount - |old(written)| then Err(ReservationOverflow) else Ok(())
      ensures written == if r.Ok? then old(written) + bytes else old(written)
    {
      if finished || |bytes| > byteCount - |written| {
        return Err(ReservationOverflow);
      }
      written := written + bytes;
      return Ok(());
    }

    /** Publishes bytes and descriptors together. */
    method Commit(fds: seq<Fd>) returns (r: Result<(), Error>)
      requires queue.Valid() && |queue.bytes| + byteCount <= queue.byteBudget
      modifies this`finished, queue`bytes, queue`descriptors, queue`reservationActive
      ensures queue.Valid()
      ensures r.Ok? ==> finished && !queue.reservationActive
                        && queue.bytes == old(queue.bytes) + written
                        && queue.descriptors == old(queue.descriptors) + fds
      ensures r.Err? ==> finished == old(finished) && queue.bytes == old(queue.bytes)
                         && queue.descriptors == old(queue.descriptors)
                         && queue.reservationActive == old(queue.reservationActive)
      ensures r == Err(InvalidCompletion) <==> old(finished) || |written| != byteCount
      ensures r == Err(DescriptorBudgetExceeded) <==>
              !old(finished) && |written| == byteCount && fds != []
              && |fds| > queue.fdBudget - |old(queue.descriptors)|
      ensures r.Err? ==> r.error in {InvalidCompletion, DescriptorBudgetExceeded, OutOfMemory, CapacityOverflow}
    {
      if finished || |written| != byteCount {
        return Err(InvalidCompletion);
      }
      if |fds| != 0 {
        if |fds| > queue.fdBudget - |queue.descriptors| {
          return Err(DescriptorBudgetExceeded);
        }
        var granted: bool, full: bool := *, *;
        if !granted {
          return Err(if full then CapacityOverflow else OutOfMemory);
        }
      }
      queue.bytes := queue.bytes + written;
      queue.descriptors := queue.descriptors + fds;
      queue.reservationActive := false;
      finished := true;
      return Ok(());
    }

    method Abort()
      modifies this`finished, queue`reservationActive
      ensures finished
      ensures queue.reservationActive == (old(finished) && old(queue.reservationActive))
    {
      if finished {
        return;
      }
      queue.reservationActive := false;
      finished := true;
    }
  }
}

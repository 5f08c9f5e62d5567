/** All connections of a reactor on its one ring of receive buffers: when a receive that ran out of buffers is
    armed again, and when it is forgotten. */
module Buffers {
  import Connection
  import Runs

  /** One connection's receive: the connection is open, and the kernel has an armed receive for it. */
  datatype Peer = Peer(open: bool, armed: bool)

  /** Completions that have been posted and not yet dispatched: data in a buffer, after which the receive may stay
      armed, and a receive that ended because no buffer was free. */
  datatype Posted = Data(peer: nat, more: bool) | Exhausted(peer: nat)

  /** `lent` buffers are in the hands of the application. `permit` and `parked` are the permission to sweep and
      the deferred receives, in order. */
  datatype Ring = Ring(
    size: nat, free: nat, lent: nat, posted: seq<Posted>, permit: bool, parked: seq<nat>, peers: seq<Peer>)

  /** The kernel delivers data, runs out of buffers, or ends a receive for another reason, which closes its
      connection. Completions are dispatched in any order that keeps each connection's own, as its driver takes
      them; the buffer goes back at once, or is lent and comes back later. Deferred receives are swept, as far
      as there is room for submissions. Connections come and begin to close. */
  datatype Step =
    | Attach
    | Deliver(peer: nat, more: bool)
    | RunOut(peer: nat)
    | Stop(peer: nat)
    | Close(peer: nat)
    | Dispatch(i: nat, lend: bool)
    | Return
    | Sweep(room: nat)

  predicate FirstOfItsPeer(posted: seq<Posted>, i: nat) {
    i < |posted| && forall j :: 0 <= j < i ==> posted[j].peer != posted[i].peer
  }

  predicate Enabled(s: Ring, step: Step) {
    match step
    case Deliver(p, _) => p < |s.peers| && s.peers[p].armed && s.free > 0
    case RunOut(p) => p < |s.peers| && s.peers[p].armed && s.free == 0
    case Stop(p) => p < |s.peers| && s.peers[p].armed
    case Close(p) => p < |s.peers|
    case Dispatch(i, _) => FirstOfItsPeer(s.posted, i)
    case Return => s.lent > 0
    case _ => true
  }

  /** `deferReceive` for an open connection whose receive has ended. */
  function Parked(s: Ring, p: nat): Ring {
    if p < |s.peers| && s.peers[p].open && !s.peers[p].armed && p !in s.parked then s.(parked := s.parked + [p]) else s
  }

  function Without(posted: seq<Posted>, i: nat): seq<Posted>
    requires i < |posted|
  {
    posted[..i] + posted[i + 1..]
  }

  function Dispatched(s: Ring, i: nat, lend: bool): Ring
    requires i < |s.posted|
  {
    var rest := s.(posted := Without(s.posted, i));
    match s.posted[i]
    case Exhausted(p) => Parked(rest, p)
    case Data(p, more) =>
      var back := if lend then rest.(lent := s.lent + 1) else rest.(free := s.free + 1, permit := true);
      if more then back else Parked(back, p)
  }

  /** What a sweep that can submit `room` receives leaves deferred, and the connections after it. */
  function Armed(parked: seq<nat>, peers: seq<Peer>, room: nat): (seq<nat>, seq<Peer>)
    decreases |parked|
  {
    if parked == [] then ([], peers) else
    var p := parked[0];
    if p >= |peers| || !peers[p].open || peers[p].armed then Armed(parked[1..], peers, room)
    else if room == 0 then (parked, peers)
    else Armed(parked[1..], peers[p := peers[p].(armed := true)], room - 1)
  }

  /** Without permission or anything deferred nothing happens; the permission is used up unless the sweep was
      cut short. */
  function Swept(s: Ring, room: nat): Ring {
    if !s.permit || s.parked == [] then s else
    var (left, peers) := Armed(s.parked, s.peers, room);
    s.(permit := left != [], parked := left, peers := peers)
  }

  function Apply(s: Ring, step: Step): Ring
    requires Enabled(s, step)
  {
    match step
    case Attach => s.(peers := s.peers + [Peer(true, true)])
    case Deliver(p, more) =>
      s.(free := s.free - 1, posted := s.posted + [Data(p, more)], peers := s.peers[p := s.peers[p].(armed := more)])
    case RunOut(p) => s.(posted := s.posted + [Exhausted(p)], peers := s.peers[p := s.peers[p].(armed := false)])
    case Stop(p) => s.(peers := s.peers[p := Peer(false, false)])
    case Close(p) => s.(peers := s.peers[p := s.peers[p].(open := false)])
    case Dispatch(i, lend) => Dispatched(s, i, lend)
    case Return => s.(free := s.free + 1, lent := s.lent - 1, permit := true)
    case Sweep(room) => Swept(s, room)
  }

  function Start(size: nat): Ring {
    Ring(size, size, 0, [], false, [], [])
  }

  ghost predicate IsRun(run: seq<Ring>, steps: seq<Step>) {
    && |run| == |steps| + 1
    && forall i :: 0 <= i < |steps| ==> Enabled(run[i], steps[i]) && run[i + 1] == Apply(run[i], steps[i])
  }

  ghost predicate Starts(run: seq<Ring>, steps: seq<Step>) {
    IsRun(run, steps) && run[0].size > 0 && run[0] == Start(run[0].size)
  }

  // ---- buffers are conserved

  function Filled(posted: seq<Posted>): nat {
    if posted == [] then 0 else (if posted[0].Data? then 1 else 0) + Filled(posted[1..])
  }

  lemma {:induction false} FilledAppend(posted: seq<Posted>, last: Posted)
    ensures Filled(posted + [last]) == Filled(posted) + (if last.Data? then 1 else 0)
    decreases |posted|
  {
    if posted == [] {
      assert [last][1..] == [];
    } else {
      assert (posted + [last])[1..] == posted[1..] + [last];
      FilledAppend(posted[1..], last);
    }
  }

  lemma {:induction false} FilledWithout(posted: seq<Posted>, i: nat)
    requires i < |posted|
    ensures Filled(Without(posted, i)) + (if posted[i].Data? then 1 else 0) == Filled(posted)
    decreases i
  {
    if i == 0 {
      assert Without(posted, 0) == posted[1..];
    } else {
      assert Without(posted, i)[0] == posted[0] && Without(posted, i)[1..] == Without(posted[1..], i - 1);
      FilledWithout(posted[1..], i - 1);
    }
  }

  predicate Conserved(s: Ring) {
    s.size > 0 && s.free + s.lent + Filled(s.posted) == s.size
  }

  /** A buffer is out: lent, or filled and not yet dispatched. It will come back, and permit a sweep. */
  predicate Out(s: Ring) {
    s.lent > 0 || Filled(s.posted) > 0
  }

  lemma ConservedStep(s: Ring, step: Step)
    requires Conserved(s) && Enabled(s, step)
    ensures Conserved(Apply(s, step)) && Apply(s, step).size == s.size
  {
    hide Armed, Without;
    match step
    case Deliver(p, more) => FilledAppend(s.posted, Data(p, more));
    case RunOut(p) => FilledAppend(s.posted, Exhausted(p));
    case Dispatch(i, _) => FilledWithout(s.posted, i);
    case _ =>
  }

  // ---- the order of things

  /** No completion of the same receive follows this one. */
  predicate Final(e: Posted) {
    e.Exhausted? || !e.more
  }

  predicate Distinct(s: seq<nat>) {
    forall i, j :: 0 <= i < j < |s| ==> s[i] != s[j]
  }

  predicate Ended(s: Ring, p: nat) {
    p < |s.peers| && !s.peers[p].armed
  }

  predicate LastOfItsPeer(posted: seq<Posted>, i: nat)
    requires i < |posted|
  {
    forall j :: i < j < |posted| ==> posted[j].peer != posted[i].peer
  }

  /** A receive that has posted its last completion is not armed, and one that is deferred has nothing posted. */
  predicate Settled(s: Ring) {
    && (forall i :: 0 <= i < |s.posted| ==> s.posted[i].peer < |s.peers|)
    && (forall i :: 0 <= i < |s.posted| && Final(s.posted[i]) ==>
          Ended(s, s.posted[i].peer) && LastOfItsPeer(s.posted, i))
    && Distinct(s.parked)
    && (forall k :: 0 <= k < |s.parked| ==> Ended(s, s.parked[k]))
    && (forall k, i :: 0 <= k < |s.parked| && 0 <= i < |s.posted| ==> s.posted[i].peer != s.parked[k])
  }

  /** A sweep arms only what it takes off the front, and opens or closes nothing. */
  lemma {:induction false} ArmedOnly(parked: seq<nat>, peers: seq<Peer>, room: nat)
    requires Distinct(parked)
    ensures var (left, after) := Armed(parked, peers, room);
            && |after| == |peers| && |left| <= |parked| && left == parked[|parked| - |left|..]
            && (forall p :: 0 <= p < |peers| ==> after[p].open == peers[p].open)
            && (forall p :: 0 <= p < |peers| && (p !in parked || p in left) ==> after[p] == peers[p])
            && (forall p :: 0 <= p < |peers| && p in parked && p !in left ==>
                  after[p].armed == (peers[p].armed || peers[p].open))
    decreases |parked|
  {
    if parked != [] {
      var p, tail := parked[0], parked[1..];
      assert forall q :: q in parked <==> q == p || q in tail;
      if p >= |peers| || !peers[p].open || peers[p].armed {
        ArmedOnly(tail, peers, room);
      } else if room > 0 {
        ArmedOnly(tail, peers[p := peers[p].(armed := true)], room - 1);
      }
    }
  }

  lemma SettledSweep(s: Ring, room: nat)
    requires Settled(s)
    ensures Settled(Swept(s, room))
  {
    hide Armed, Final, LastOfItsPeer;
    if s.permit && s.parked != [] {
      ArmedOnly(s.parked, s.peers, room);
      var (left, peers) := Armed(s.parked, s.peers, room);
      SettledLess(s, left, peers, s.(permit := left != [], parked := left, peers := peers));
    }
  }

  /** Taking connections off the front of the deferred ones and arming some of those. */
  lemma SettledLess(s: Ring, left: seq<nat>, peers: seq<Peer>, after: Ring)
    requires Settled(s) && |left| <= |s.parked| && left == s.parked[|s.parked| - |left|..] && |peers| == |s.peers|
    requires forall p :: 0 <= p < |peers| && (p !in s.parked || p in left) ==> peers[p] == s.peers[p]
    requires after.posted == s.posted && after.parked == left && after.peers == peers
    ensures Settled(after)
  {
    hide Final, LastOfItsPeer;
    forall i | 0 <= i < |s.posted| ensures s.posted[i].peer !in s.parked {}
    forall k | 0 <= k < |left| ensures left[k] == s.parked[|s.parked| - |left| + k] && left[k] in left {}
  }

  lemma SettledPost(s: Ring, e: Posted)
    requires Settled(s) && e.peer < |s.peers| && s.peers[e.peer].armed
    ensures Settled(s.(posted := s.posted + [e], peers := s.peers[e.peer := s.peers[e.peer].(armed := !Final(e))]))
  {
    hide Final;
  }

  lemma WithoutAt(posted: seq<Posted>, i: nat, k: nat)
    requires i < |posted| && k < |posted| - 1
    ensures |Without(posted, i)| == |posted| - 1 && Without(posted, i)[k] == posted[if k < i then k else k + 1]
  {}

  lemma SettledWithout(s: Ring, i: nat)
    requires Settled(s) && FirstOfItsPeer(s.posted, i)
    ensures var rest := Without(s.posted, i);
            && Settled(s.(posted := rest))
            && (Final(s.posted[i]) ==> forall k :: 0 <= k < |rest| ==> rest[k].peer != s.posted[i].peer)
  {
    hide Final, Without;
    var rest := Without(s.posted, i);
    WithoutLength(s.posted, i);
    forall k | 0 <= k < |rest| ensures rest[k] == s.posted[if k < i then k else k + 1] {
      WithoutAt(s.posted, i, k);
    }
    assert Final(s.posted[i]) ==> LastOfItsPeer(s.posted, i);
    forall k | 0 <= k < |rest| && Final(rest[k]) ensures LastOfItsPeer(rest, k) {
      assert LastOfItsPeer(s.posted, if k < i then k else k + 1);
    }
  }

  lemma WithoutLength(posted: seq<Posted>, i: nat)
    requires i < |posted|
    ensures |Without(posted, i)| == |posted| - 1
  {}

  lemma SettledPark(s: Ring, p: nat)
    requires Settled(s) && forall i :: 0 <= i < |s.posted| ==> s.posted[i].peer != p
    ensures Settled(Parked(s, p))
  {
    hide Final, LastOfItsPeer;
  }

  lemma SettledDispatch(s: Ring, i: nat, lend: bool)
    requires Settled(s) && FirstOfItsPeer(s.posted, i)
    ensures Settled(Dispatched(s, i, lend))
  {
    hide Settled, LastOfItsPeer, Parked, Without;
    SettledWithout(s, i);
    var rest := s.(posted := Without(s.posted, i));
    match s.posted[i]
    case Exhausted(p) => SettledPark(rest, p);
    case Data(p, more) =>
      var back := if lend then rest.(lent := s.lent + 1) else rest.(free := s.free + 1, permit := true);
      Counted(rest, back);
      if !more {
        SettledPark(back, p);
      }
  }

  /** The order of things does not depend on the counts. */
  lemma Counted(s: Ring, other: Ring)
    requires Settled(s) && other.posted == s.posted && other.parked == s.parked && other.peers == s.peers
    ensures Settled(other)
  {
    hide Final, LastOfItsPeer;
  }

  lemma SettledStep(s: Ring, step: Step)
    requires Settled(s) && Enabled(s, step)
    ensures Settled(Apply(s, step))
  {
    hide Armed, Swept, Dispatched, Final;
    match step
    case Deliver(p, more) =>
      assert Final(Data(p, more)) <==> !more by { DataIsFinal(p, more); }
      SettledPost(s, Data(p, more));
    case RunOut(p) =>
      assert Final(Exhausted(p)) by { ExhaustedIsFinal(p); }
      SettledPost(s, Exhausted(p));
    case Dispatch(i, lend) => SettledDispatch(s, i, lend);
    case Sweep(room) => SettledSweep(s, room);
    case _ =>
  }

  lemma DataIsFinal(p: nat, more: bool)
    ensures Final(Data(p, more)) <==> !more
  {}

  lemma ExhaustedIsFinal(p: nat)
    ensures Final(Exhausted(p))
  {}

  // ---- no receive is forgotten

  predicate IsOpen(s: Ring, p: nat) {
    p < |s.peers| && s.peers[p].open
  }

  predicate OpenDeferred(s: Ring) {
    exists p :: p in s.parked && IsOpen(s, p)
  }

  predicate OpenPosted(s: Ring) {
    exists e :: e in s.posted && IsOpen(s, e.peer)
  }

  /** An open connection that is deferred will be armed: a sweep is permitted, or a buffer is still to come back. */
  predicate Remembered(s: Ring) {
    OpenDeferred(s) ==> s.permit || Out(s)
  }

  /** What keeps it so: it holds of those, too, whose last completion is posted and not yet dispatched. */
  predicate Watched(s: Ring) {
    OpenDeferred(s) || OpenPosted(s) ==> s.permit || Out(s)
  }

  predicate Sound(s: Ring) {
    Conserved(s) && Settled(s)
  }

  /** A sweep that uses up the permission while no buffer is out, and while an open connection's want of buffers is
      posted and not yet dispatched. */
  predicate TooEarly(s: Ring, step: Step) {
    step.Sweep? && s.permit && !Swept(s, step.room).permit && !Out(s) && OpenPosted(s)
  }

  lemma NothingFilled(posted: seq<Posted>)
    requires Filled(posted) == 0
    ensures forall i :: 0 <= i < |posted| ==> posted[i].Exhausted?
  {
    if posted != [] {
      NothingFilled(posted[1..]);
      assert forall i :: 0 < i < |posted| ==> posted[i] == posted[1..][i - 1];
    }
  }

  lemma WatchedSweep(s: Ring, room: nat)
    requires Sound(s) && Watched(s)
    ensures Watched(Swept(s, room)) <==> !TooEarly(s, Sweep(room))
  {
    hide Armed, Filled;
    if s.permit && s.parked != [] {
      ArmedOnly(s.parked, s.peers, room);
      var after := Swept(s, room);
      assert forall p :: IsOpen(after, p) <==> IsOpen(s, p);
      assert OpenPosted(after) <==> OpenPosted(s);
    }
  }

  lemma WatchedDispatch(s: Ring, i: nat, lend: bool)
    requires Watched(s) && i < |s.posted|
    ensures Watched(Dispatched(s, i, lend))
  {
    var after, e := Dispatched(s, i, lend), s.posted[i];
    FilledWithout(s.posted, i);
    assert e in s.posted;
    assert forall other :: other in Without(s.posted, i) ==> other in s.posted;
    assert after.posted == Without(s.posted, i) && after.peers == s.peers;
    if e.Exhausted? && !s.permit && !Out(s) {
      assert !IsOpen(s, e.peer);
      assert after == s.(posted := Without(s.posted, i));
    }
  }

  /** The exact condition, step by step. */
  lemma WatchedIffNotTooEarly(s: Ring, step: Step)
    requires Sound(s) && Watched(s) && Enabled(s, step)
    ensures Watched(Apply(s, step)) <==> !TooEarly(s, step)
  {
    hide Armed, Swept, Dispatched, Settled;
    match step
    case Deliver(p, more) => FilledAppend(s.posted, Data(p, more));
    case RunOut(p) => FilledAppend(s.posted, Exhausted(p));
    case Sweep(room) => WatchedSweep(s, room);
    case Dispatch(i, lend) => WatchedDispatch(s, i, lend);
    case Attach => AttachKeeps(s);
    case _ =>
  }

  lemma AttachKeeps(s: Ring)
    requires Settled(s)
    ensures Watched(s) ==> Watched(s.(peers := s.peers + [Peer(true, true)]))
  {
    var after := s.(peers := s.peers + [Peer(true, true)]);
    assert forall p :: 0 <= p < |s.peers| ==> IsOpen(after, p) == IsOpen(s, p);
  }

  // ---- runs

  lemma {:induction false} SoundOverRuns(run: seq<Ring>, steps: seq<Step>, i: nat)
    requires Starts(run, steps) && i < |run|
    ensures Sound(run[i]) && run[i].size == run[0].size
    decreases i
  {
    hide Apply, Enabled, Settled, Conserved;
    if i == 0 {
      StartIsSound(run[0].size);
    } else {
      SoundOverRuns(run, steps, i - 1);
      ConservedStep(run[i - 1], steps[i - 1]);
      SettledStep(run[i - 1], steps[i - 1]);
    }
  }

  lemma StartIsSound(size: nat)
    requires size > 0
    ensures Sound(Start(size)) && Watched(Start(size))
  {}

  /** In every run without a sweep that comes too early, no deferred receive of an open connection is ever
      forgotten: while it waits, a sweep is permitted or a buffer is out, and returning that permits one. */
  lemma {:induction false} NoneForgotten(run: seq<Ring>, steps: seq<Step>, i: nat)
    requires Starts(run, steps) && i < |run|
    requires forall j :: 0 <= j < i ==> !TooEarly(run[j], steps[j])
    ensures Watched(run[i]) && Remembered(run[i])
    decreases i
  {
    hide Apply, Enabled, Settled, Conserved, TooEarly;
    if i == 0 {
      StartIsSound(run[0].size);
    } else {
      NoneForgotten(run, steps, i - 1);
      SoundOverRuns(run, steps, i - 1);
      WatchedIffNotTooEarly(run[i - 1], steps[i - 1]);
    }
  }

  /** Whoever sweeps only when all posted completions have been dispatched, or with a buffer out, is safe. */
  lemma DrainedNeverForgets(run: seq<Ring>, steps: seq<Step>, i: nat)
    requires Starts(run, steps) && i < |run|
    requires forall j :: 0 <= j < i && steps[j].Sweep? ==> run[j].posted == [] || Out(run[j])
    ensures Remembered(run[i])
  {
    hide Apply, Enabled, Settled, Conserved, Watched, Remembered, Out, Swept;
    forall j | 0 <= j < i ensures !TooEarly(run[j], steps[j]) {}
    NoneForgotten(run, steps, i);
  }

  lemma TwoPeers(s: Ring)
    requires Settled(s) && s.posted != [] && s.parked != []
    ensures |s.peers| > 1
  {
    var p, q := s.posted[0].peer, s.parked[0];
    assert Ended(s, q) && p != q;
  }

  /** A reactor's only connection is never forgotten, whenever it sweeps. */
  lemma LoneConnectionIsSafe(run: seq<Ring>, steps: seq<Step>, i: nat)
    requires Starts(run, steps) && i < |run|
    requires forall j :: 0 <= j <= i ==> |run[j].peers| <= 1
    ensures Remembered(run[i])
  {
    hide Apply, Enabled, Settled, Conserved, Watched, Remembered, Out;
    forall j | 0 <= j < i ensures !TooEarly(run[j], steps[j]) {
      SoundOverRuns(run, steps, j);
      if run[j].posted != [] && run[j].parked != [] {
        TwoPeers(run[j]);
      }
    }
    NoneForgotten(run, steps, i);
  }

  /** The converse: a sweep that came too early has forgotten a receive as soon as that is dispatched. An open
      connection is then deferred while every buffer is free and nothing permits a sweep. */
  lemma TooEarlyForgets(s: Ring, sweep: Step) returns (i: nat)
    requires Sound(s) && TooEarly(s, sweep)
    ensures var swept := Apply(s, sweep);
            && i < |swept.posted| && Enabled(swept, Dispatch(i, false))
            && var after := Apply(swept, Dispatch(i, false));
               OpenDeferred(after) && !Remembered(after) && after.free == after.size == s.size
  {
    hide Armed, Filled, Settled, Swept, Without;
    var swept := Swept(s, sweep.room);
    SweptFacts(s, sweep.room);
    NothingFilled(swept.posted);
    var e :| e in swept.posted && IsOpen(swept, e.peer);
    i :| 0 <= i < |swept.posted| && swept.posted[i] == e;
    ExhaustedIsFirst(swept, i);
    FilledWithout(swept.posted, i);
    assert e.peer in Dispatched(swept, i, false).parked;
  }

  /** So the sweeps that forget are exactly these. */
  lemma ForgetsIffTooEarly(s: Ring, room: nat)
    requires Sound(s) && Watched(s)
    ensures var swept := Apply(s, Sweep(room));
            TooEarly(s, Sweep(room))
            <==> exists i, lend :: Enabled(swept, Dispatch(i, lend)) && !Remembered(Apply(swept, Dispatch(i, lend)))
  {
    hide Armed, Filled, Settled, Swept, Dispatched, Without, Out;
    var swept := Swept(s, room);
    if TooEarly(s, Sweep(room)) {
      var i := TooEarlyForgets(s, Sweep(room));
    } else {
      WatchedSweep(s, room);
      SweptFacts(s, room);
      forall i, lend | Enabled(swept, Dispatch(i, lend)) ensures Remembered(Apply(swept, Dispatch(i, lend))) {
        WatchedDispatch(swept, i, lend);
      }
    }
  }

  lemma SweptFacts(s: Ring, room: nat)
    requires Sound(s)
    ensures var swept := Swept(s, room);
            && Sound(swept) && swept.size == s.size && swept.posted == s.posted && swept.lent == s.lent
            && swept.free == s.free && (OpenPosted(s) ==> OpenPosted(swept))
  {
    hide Armed, Filled;
    SettledSweep(s, room);
    ArmedOnly(s.parked, s.peers, room);
    assert forall p :: IsOpen(Swept(s, room), p) <==> IsOpen(s, p);
  }

  lemma ExhaustedIsFirst(s: Ring, i: nat)
    requires Settled(s) && i < |s.posted| && forall j :: 0 <= j < |s.posted| ==> s.posted[j].Exhausted?
    ensures FirstOfItsPeer(s.posted, i) && Ended(s, s.posted[i].peer)
    ensures forall j :: 0 <= j < |s.parked| ==> s.parked[j] != s.posted[i].peer
  {
    forall j | 0 <= j < i ensures s.posted[j].peer != s.posted[i].peer {
      assert LastOfItsPeer(s.posted, j);
    }
  }

  lemma StepFirst(s: Ring, step: Step, run: seq<Ring>, steps: seq<Step>)
    requires Enabled(s, step) && IsRun(run, steps) && run[0] == Apply(s, step)
    ensures IsRun([s] + run, [step] + steps)
    ensures ([s] + run)[|steps| + 1] == run[|steps|]
  {
    hide Apply, Enabled;
    var all, more := [s] + run, [step] + steps;
    forall i | 0 <= i < |more| ensures Enabled(all[i], more[i]) && all[i + 1] == Apply(all[i], more[i]) {
      if i > 0 {
        assert all[i] == run[i - 1] && more[i] == steps[i - 1] && all[i + 1] == run[i];
      }
    }
  }

  lemma OneState(s: Ring)
    ensures IsRun([s], [])
  {}

  /** Nothing is under way, and no sweep is permitted. */
  predicate StandsStill(s: Ring) {
    !s.permit && s.lent == 0 && s.posted == [] && forall p :: 0 <= p < |s.peers| ==> !s.peers[p].armed
  }

  /** Then no receive is armed ever again, unless a new connection comes. */
  lemma {:induction false} StillForGood(run: seq<Ring>, steps: seq<Step>, i: nat)
    requires IsRun(run, steps) && i < |run| && StandsStill(run[0])
    requires forall j :: 0 <= j < i ==> steps[j] != Attach
    ensures StandsStill(run[i])
    decreases i
  {
    hide Armed;
    if i > 0 {
      StillForGood(run, steps, i - 1);
    }
  }

  const LISTENS := Peer(true, true)
  const WAITS := Peer(true, false)
  const CLOSES := Peer(false, false)
  const STILL := Ring(1, 1, 0, [], false, [0], [WAITS, CLOSES])

  lemma StillIsStill()
    ensures StandsStill(STILL) && OpenDeferred(STILL)
  {
    assert 0 in STILL.parked && IsOpen(STILL, 0);
  }

  lemma SweepDropsClosing()
    ensures Swept(Ring(1, 1, 0, [Exhausted(0)], true, [1], [WAITS, CLOSES]), 1)
            == Ring(1, 1, 0, [Exhausted(0)], false, [], [WAITS, CLOSES])
  {
    assert [1][1..] == [] && Armed([1], [WAITS, CLOSES], 1) == ([], [WAITS, CLOSES]);
  }

  lemma StandstillFollows() returns (run: seq<Ring>, steps: seq<Step>)
    ensures IsRun(run, steps)
    ensures run[0] == Ring(1, 0, 0, [Data(0, true), Exhausted(1), Exhausted(0)], false, [], [WAITS, WAITS])
    ensures steps == [Dispatch(0, false), Dispatch(0, false), Close(1), Sweep(1), Dispatch(0, false)]
    ensures run[|steps|] == STILL
  {
    hide IsRun, Swept;
    OneState(STILL);
    run, steps := [STILL], [];
    run, steps := Earlier(Ring(1, 1, 0, [Exhausted(0)], false, [], [WAITS, CLOSES]), Dispatch(0, false), run, steps);
    SweepDropsClosing();
    run, steps := Earlier(Ring(1, 1, 0, [Exhausted(0)], true, [1], [WAITS, CLOSES]), Sweep(1), run, steps);
    run, steps := Earlier(Ring(1, 1, 0, [Exhausted(0)], true, [1], [WAITS, WAITS]), Close(1), run, steps);
    run, steps := Earlier(
      Ring(1, 1, 0, [Exhausted(1), Exhausted(0)], true, [], [WAITS, WAITS]), Dispatch(0, false), run, steps);
    run, steps := Earlier(
      Ring(1, 0, 0, [Data(0, true), Exhausted(1), Exhausted(0)], false, [], [WAITS, WAITS]), Dispatch(0, false),
      run, steps);
  }

  /** It comes to that: one buffer, two connections that both run out of it, and one of them begins to close. The
      sweep that drops that one uses up the permission before the other's want of a buffer is dispatched. */
  lemma Standstill() returns (run: seq<Ring>, steps: seq<Step>)
    ensures Starts(run, steps)
    ensures steps == [Attach, Attach, Deliver(0, true), RunOut(1), RunOut(0), Dispatch(0, false), Dispatch(0, false),
                      Close(1), Sweep(1), Dispatch(0, false)]
    ensures StandsStill(run[|steps|]) && OpenDeferred(run[|steps|])
  {
    hide IsRun, StandsStill, OpenDeferred;
    StillIsStill();
    run, steps := StandstillFollows();
    run, steps := Earlier(
      Ring(1, 0, 0, [Data(0, true), Exhausted(1)], false, [], [LISTENS, WAITS]), RunOut(0), run, steps);
    run, steps := Earlier(Ring(1, 0, 0, [Data(0, true)], false, [], [LISTENS, LISTENS]), RunOut(1), run, steps);
    run, steps := Earlier(Ring(1, 1, 0, [], false, [], [LISTENS, LISTENS]), Deliver(0, true), run, steps);
    run, steps := Earlier(Ring(1, 1, 0, [], false, [], [LISTENS]), Attach, run, steps);
    run, steps := Earlier(Start(1), Attach, run, steps);
  }

  lemma Earlier(s: Ring, step: Step, run: seq<Ring>, steps: seq<Step>) returns (all: seq<Ring>, more: seq<Step>)
    requires Enabled(s, step) && IsRun(run, steps) && run[0] == Apply(s, step)
    ensures IsRun(all, more) && all[0] == s && more == [step] + steps && |all| == |run| + 1
    ensures all[|more|] == run[|steps|]
  {
    StepFirst(s, step, run, steps);
    all, more := [s] + run, [step] + steps;
  }

  // ---- one connection among many

  /** What the system of one connection knows of this one. */
  ghost predicate SeenBy(s: Ring, p: nat, one: Runs.Sys) {
    && p < |s.peers|
    && one.permit == s.permit && one.parked == (p in s.parked)
    && (one.state.phase == Connection.Open) == s.peers[p].open && one.state.receiving == s.peers[p].armed
  }

  /** A sweep of all is, for each connection, one of the sweeps that its own system allows. */
  lemma SweepSeenByOne(s: Ring, room: nat, p: nat, one: Runs.Sys) returns (sweep: Runs.Sweep)
    requires Settled(s) && SeenBy(s, p, one)
    ensures Runs.SweepAllowed(one, sweep) && SeenBy(Swept(s, room), p, Runs.Swept(one, sweep))
  {
    hide Armed, Settled;
    if !s.permit || s.parked == [] {
      return Runs.Idle;
    }
    DeferredOnce(s);
    ArmedOnly(s.parked, s.peers, room);
    var left := Swept(s, room).parked;
    if p in left {
      assert p in s.parked;
      return Runs.Short;
    }
    return if p in s.parked || left == [] then Runs.Passed(left != []) else Runs.Short;
  }

  lemma DeferredOnce(s: Ring)
    requires Settled(s)
    ensures Distinct(s.parked)
  {}
}

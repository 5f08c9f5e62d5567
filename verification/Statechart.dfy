/** A breadth-first search over at most 256 states, and that it finds exactly the reachable ones. */
module Statechart {
  import opened Outcomes
  import opened Bytes
  import opened FreeList

  /** A chart: the transition function on bit patterns, None for a refused input. */
  type Chart<!I> = (byte, I) -> Option<byte>

  // ---- the reference

  ghost predicate Steps<I>(step: Chart<I>, inputs: seq<I>, from: byte, next: byte) {
    exists i :: 0 <= i < |inputs| && step(from, inputs[i]) == Some(next)
  }

  ghost predicate IsPath<I>(step: Chart<I>, inputs: seq<I>, path: seq<byte>) {
    path != [] && forall i :: 0 <= i < |path| - 1 ==> Steps(step, inputs, path[i], path[i + 1])
  }

  /** The reflexive-transitive closure of accepted inputs. */
  ghost predicate Reachable<I>(step: Chart<I>, inputs: seq<I>, start: byte, target: byte) {
    exists path :: IsPath(step, inputs, path) && path[0] == start && path[|path| - 1] == target
  }

  lemma ReachableStart<I>(step: Chart<I>, inputs: seq<I>, start: byte)
    ensures Reachable(step, inputs, start, start)
  {
    assert IsPath(step, inputs, [start]);
  }

  lemma ReachableNext<I>(step: Chart<I>, inputs: seq<I>, start: byte, from: byte, next: byte)
    requires Reachable(step, inputs, start, from) && Steps(step, inputs, from, next)
    ensures Reachable(step, inputs, start, next)
  {
    hide Steps;
    var path :| IsPath(step, inputs, path) && path[0] == start && path[|path| - 1] == from;
    var longer := path + [next];
    assert IsPath(step, inputs, longer);
    assert longer[0] == start && longer[|longer| - 1] == next;
  }

  ghost predicate Closed<I>(step: Chart<I>, inputs: seq<I>, marked: seq<bool>)
    requires |marked| == 256
  {
    forall from: byte, next: byte :: marked[from] && Steps(step, inputs, from, next) ==> marked[next]
  }

  /** A marked set that holds the start and is closed under steps holds every end of a path. */
  lemma {:induction false} ClosedHoldsPaths<I>(step: Chart<I>, inputs: seq<I>, marked: seq<bool>, path: seq<byte>)
    requires |marked| == 256 && Closed(step, inputs, marked)
    requires IsPath(step, inputs, path) && marked[path[0]]
    ensures marked[path[|path| - 1]]
    decreases |path|
  {
    hide Steps;
    if |path| > 1 {
      var shorter := path[..|path| - 1];
      assert IsPath(step, inputs, shorter);
      ClosedHoldsPaths(step, inputs, marked, shorter);
      assert Steps(step, inputs, path[|path| - 2], path[|path| - 1]);
    }
  }

  lemma SubsetSize(part: set<nat>, all: set<nat>)
    requires part <= all
    ensures |part| <= |all|
  {
    assert all == part + (all - part) && part * (all - part) == {};
  }

  lemma RoomBelow(s: seq<byte>, b: byte, n: nat)
    requires Distinct(s) && b !in s && n == 0x100
    ensures |s| < n
  {
    hide Below, Distinct;
    var index: nat := b;
    MembersHaveSize(s);
    assert index in Below(n);
    SubsetSize(FreeList.Members(s), Below(n) - {index});
  }

  /** The queue of 256 entries always has room for a byte it does not hold. */
  lemma RoomForAnother(s: seq<byte>, b: byte)
    requires Distinct(s) && b !in s
    ensures |s| < 256
  {
    RoomBelow(s, b, 256);
  }

  // ---- the explorer

  /** The states produced by the accepted inputs, in the order of the inputs. */
  ghost function Accepted<I>(step: Chart<I>, inputs: seq<I>, from: byte): (out: seq<byte>)
    ensures |out| <= |inputs|
  {
    if inputs == [] then [] else
    var n := |inputs| - 1;
    Accepted(step, inputs[..n], from)
    + match step(from, inputs[n]) case Some(next) => [next] case None => []
  }

  lemma {:induction false} AcceptedIsSteps<I>(step: Chart<I>, inputs: seq<I>, from: byte, next: byte)
    ensures next in Accepted(step, inputs, from) <==> Steps(step, inputs, from, next)
    decreases |inputs|
  {
    if inputs != [] {
      var n := |inputs| - 1;
      AcceptedIsSteps(step, inputs[..n], from, next);
      assert Steps(step, inputs, from, next) <==>
             Steps(step, inputs[..n], from, next) || step(from, inputs[n]) == Some(next) by {
        if Steps(step, inputs[..n], from, next) {
          var i :| 0 <= i < n && step(from, inputs[..n][i]) == Some(next);
          assert step(from, inputs[i]) == Some(next);
        }
        if Steps(step, inputs, from, next) {
          var i :| 0 <= i < |inputs| && step(from, inputs[i]) == Some(next);
          assert i < n ==> step(from, inputs[..n][i]) == Some(next);
        }
      }
    }
  }

  method Successors<I>(step: Chart<I>, inputs: seq<I>, from: byte, out: array<byte>) returns (count: nat)
    requires out.Length == |inputs|
    modifies out
    ensures count <= out.Length && out[..count] == Accepted(step, inputs, from)
  {
    count := 0;
    assert inputs[..0] == [];
    for i := 0 to |inputs|
      invariant count <= i && out[..count] == Accepted(step, inputs[..i], from)
    {
      assert inputs[..i + 1][..i] == inputs[..i];
      match step(from, inputs[i]) {
        case Some(next) =>
          out[count] := next;
          count := count + 1;
          assert out[..count] == out[..count - 1] + [next];
        case None =>
      }
    }
    assert inputs[..|inputs|] == inputs;
  }

  /** What the marks and the queue have in common at all times. */
  ghost predicate Frontier<I>(step: Chart<I>, inputs: seq<I>, start: byte, marked: seq<bool>, queued: seq<byte>) {
    && |marked| == 256
    && Distinct(queued) && start in queued
    && (forall b: byte :: marked[b] <==> b in queued)
    && (forall b :: b in queued ==> Reachable(step, inputs, start, b))
  }

  /** Every step from the first `done` queued states leads to a marked state. */
  ghost predicate Explored<I>(step: Chart<I>, inputs: seq<I>, marked: seq<bool>, queued: seq<byte>, done: nat)
    requires |marked| == 256 && done <= |queued|
  {
    forall i, next: byte :: 0 <= i < done && Steps(step, inputs, queued[i], next) ==> marked[next]
  }

  lemma OneMore<I>(
    step: Chart<I>, inputs: seq<I>, start: byte, marked: seq<bool>, queued: seq<byte>, from: byte, next: byte)
    requires Frontier(step, inputs, start, marked, queued) && from in queued
    requires Steps(step, inputs, from, next) && !marked[next]
    ensures |queued| < 256 && Frontier(step, inputs, start, marked[next := true], queued + [next])
  {
    hide Steps, Reachable;
    ReachableNext(step, inputs, start, from, next);
    RoomForAnother(queued, next);
  }

  lemma Started<I>(step: Chart<I>, inputs: seq<I>, start: byte, marked: seq<bool>, queued: seq<byte>)
    requires |marked| == 256 && queued == [start] && forall b: byte :: marked[b] <==> b == start
    ensures Frontier(step, inputs, start, marked, queued) && Explored(step, inputs, marked, queued, 0)
  {
    hide Steps, Reachable;
    ReachableStart(step, inputs, start);
  }

  /** Marking and queueing more leaves explored states explored. */
  lemma StillExplored<I>(
    step: Chart<I>, inputs: seq<I>, marked: seq<bool>, queued: seq<byte>, done: nat, next: byte)
    requires |marked| == 256 && done <= |queued| && Explored(step, inputs, marked, queued, done)
    ensures Explored(step, inputs, marked[next := true], queued + [next], done)
  {
    hide Steps;
  }

  lemma OneExplored<I>(step: Chart<I>, inputs: seq<I>, marked: seq<bool>, queued: seq<byte>, done: nat)
    requires |marked| == 256 && done < |queued| && Explored(step, inputs, marked, queued, done)
    requires forall b :: b in Accepted(step, inputs, queued[done]) ==> marked[b]
    ensures Explored(step, inputs, marked, queued, done + 1)
  {
    hide Steps, Accepted;
    forall next: byte | Steps(step, inputs, queued[done], next) ensures marked[next] {
      AcceptedIsSteps(step, inputs, queued[done], next);
    }
  }

  lemma AllExplored<I>(step: Chart<I>, inputs: seq<I>, start: byte, marked: seq<bool>, queued: seq<byte>)
    requires Frontier(step, inputs, start, marked, queued) && Explored(step, inputs, marked, queued, |queued|)
    ensures forall b: byte :: marked[b] <==> Reachable(step, inputs, start, b)
  {
    hide Steps;
    assert Closed(step, inputs, marked);
    forall b: byte | Reachable(step, inputs, start, b) ensures marked[b] {
      var path :| IsPath(step, inputs, path) && path[0] == start && path[|path| - 1] == b;
      ClosedHoldsPaths(step, inputs, marked, path);
    }
  }

  /** One turn of the outer loop: the successors of the state at `head`. */
  method Expand<I>(
    step: Chart<I>, inputs: seq<I>, start: byte, seen: array<bool>, queue: array<byte>, head: nat, tail: nat)
    returns (end: nat)
    requires seen.Length == queue.Length == 256 && head < tail <= 256
    requires Frontier(step, inputs, start, seen[..], queue[..tail])
    requires Explored(step, inputs, seen[..], queue[..tail], head)
    modifies seen, queue
    ensures tail <= end <= 256
    ensures Frontier(step, inputs, start, seen[..], queue[..end])
    ensures Explored(step, inputs, seen[..], queue[..end], head + 1)
  {
    hide Steps, Reachable, Frontier, Explored, Accepted;
    var next := new byte[|inputs|];
    var count := Successors(step, inputs, queue[head], next);
    ghost var accepted := next[..count];
    end := tail;
    for i := 0 to count
      invariant tail <= end <= 256 && queue[head] == old(queue[head]) && next[..count] == accepted
      invariant Frontier(step, inputs, start, seen[..], queue[..end])
      invariant Explored(step, inputs, seen[..], queue[..end], head)
      invariant forall k :: 0 <= k < i ==> seen[next[k]]
    {
      var successor := next[i];
      if seen[successor] {
        continue;
      }
      AcceptedIsSteps(step, inputs, queue[head], successor);
      assert accepted[i] == successor && queue[..end][head] == queue[head];
      OneMore(step, inputs, start, seen[..], queue[..end], queue[head], successor);
      StillExplored(step, inputs, seen[..], queue[..end], head, successor);
      ghost var marked, queued := seen[..], queue[..end];
      seen[successor] := true;
      queue[end] := successor;
      end := end + 1;
      assert seen[..] == marked[successor := true] && queue[..end] == queued + [successor];
    }
    assert forall b :: b in accepted ==> exists k :: 0 <= k < count && next[k] == b;
    assert queue[..end][head] == queue[head];
    OneExplored(step, inputs, seen[..], queue[..end], head);
  }

  /** Terminates, never writes past its queue, and marks exactly the reachable states. */
  method Reach<I>(step: Chart<I>, inputs: seq<I>, start: byte) returns (seen: array<bool>)
    ensures fresh(seen) && seen.Length == 256
    ensures forall b: byte :: seen[b] <==> Reachable(step, inputs, start, b)
  {
    hide Steps, Reachable, Frontier, Explored;
    seen := new bool[256](_ => false);
    var queue := new byte[256];
    var head, tail := 0, 1;
    queue[0] := start;
    seen[start] := true;
    Started(step, inputs, start, seen[..], queue[..1]);
    while head < tail
      invariant head <= tail <= 256
      invariant Frontier(step, inputs, start, seen[..], queue[..tail])
      invariant Explored(step, inputs, seen[..], queue[..tail], head)
      decreases 256 - head
    {
      tail := Expand(step, inputs, start, seen, queue, head, tail);
      head := head + 1;
    }
    AllExplored(step, inputs, start, seen[..], queue[..tail]);
  }

  // ---- decoding a set

  ghost function MembersOf(set': seq<bool>): (members: seq<byte>)
    requires |set'| <= 256
    ensures |members| <= |set'|
  {
    if set' == [] then [] else
    var n := |set'| - 1;
    MembersOf(set'[..n]) + if set'[n] then [n] else []
  }

  ghost predicate AreMembers(set': seq<bool>, members: seq<byte>) {
    && (forall i, j :: 0 <= i < j < |members| ==> members[i] < members[j])
    && (forall b: byte :: b in members <==> b < |set'| && set'[b])
  }

  lemma AddMember(set': seq<bool>, present: bool, members: seq<byte>)
    requires |set'| < 256 && AreMembers(set', members)
    ensures AreMembers(set' + [present], members + if present then [|set'|] else [])
  {
    var longer := members + if present then [|set'|] else [];
    forall i | 0 <= i < |members| ensures members[i] < |set'| {
      assert members[i] in members;
    }
    assert forall b: byte :: b in longer <==> b in members || (present && b == |set'|);
  }

  /** The members in increasing order, each once, and nothing else. */
  lemma {:induction false} MembersOfIsExact(set': seq<bool>)
    requires |set'| <= 256
    ensures AreMembers(set', MembersOf(set'))
    decreases |set'|
  {
    if set' != [] {
      var n := |set'| - 1;
      MembersOfIsExact(set'[..n]);
      AddMember(set'[..n], set'[n], MembersOf(set'[..n]));
      assert set' == set'[..n] + [set'[n]];
    }
  }

  method Members(set': array<bool>, out: array<byte>) returns (count: nat)
    requires set'.Length == out.Length == 256
    modifies out
    ensures count <= 256 && out[..count] == MembersOf(set'[..])
  {
    count := 0;
    for index := 0 to 256
      invariant count <= index && out[..count] == MembersOf(set'[..index])
    {
      assert set'[..index + 1][..index] == set'[..index];
      if !set'[index] {
        continue;
      }
      out[count] := index;
      count := count + 1;
      assert out[..count] == out[..count - 1] + [index];
    }
    assert set'[..256] == set'[..];
  }
}

/** Intrusive free lists: a stack of array indices threaded through an array of
    links. The specification lists the indices with the head of the list last. */
module FreeList {
  ghost predicate Distinct(stack: seq<nat>) {
    forall j, k :: 0 <= j < k < |stack| ==> stack[j] != stack[k]
  }

  /** Following `links` from `head` visits the stack from its last element down to `end`. */
  ghost predicate Threaded(links: seq<nat>, head: nat, stack: seq<nat>, end: nat)
    decreases |stack|
  {
    if stack == [] then head == end
    else
      var rest := |stack| - 1;
      head == stack[rest] < |links| && Threaded(links, links[head], stack[..rest], end)
  }

  /** A list never looks at links outside its members. */
  lemma {:induction false} ThreadedAgrees(links: seq<nat>, others: seq<nat>, head: nat, stack: seq<nat>, end: nat)
    requires Threaded(links, head, stack, end)
    requires |links| <= |others| && forall i: nat :: i in stack && i < |links| ==> others[i] == links[i]
    ensures Threaded(others, head, stack, end)
    decreases |stack|
  {
    if stack != [] {
      var rest := |stack| - 1;
      assert head in stack;
      assert forall i: nat :: i in stack[..rest] ==> i in stack;
      ThreadedAgrees(links, others, links[head], stack[..rest], end);
    }
  }

  lemma {:induction false} ThreadedInBounds(links: seq<nat>, head: nat, stack: seq<nat>, end: nat)
    requires Threaded(links, head, stack, end)
    ensures forall i: nat :: i in stack ==> i < |links|
    decreases |stack|
  {
    if stack != [] {
      var rest := |stack| - 1;
      ThreadedInBounds(links, links[head], stack[..rest], end);
      assert stack == stack[..rest] + [stack[rest]];
    }
  }

  lemma DistinctPush(stack: seq<nat>, index: nat)
    requires Distinct(stack) && index !in stack
    ensures Distinct(stack + [index])
  {}

  lemma ThreadedCons(links: seq<nat>, head: nat, stack: seq<nat>, end: nat, index: nat)
    requires Threaded(links, head, stack, end)
    requires index < |links| && links[index] == head
    ensures Threaded(links, index, stack + [index], end)
  {
    var pushed := stack + [index];
    assert pushed[..|pushed| - 1] == stack;
  }

  /** Releasing an index that the list does not hold makes it the new head. */
  lemma ThreadedPush(links: seq<nat>, others: seq<nat>, head: nat, stack: seq<nat>, end: nat, index: nat)
    requires Threaded(links, head, stack, end) && index !in stack
    requires index < |links| <= |others| && others[index] == head
    requires forall i: nat :: i < |links| && i != index ==> others[i] == links[i]
    ensures Threaded(others, index, stack + [index], end)
  {
    ThreadedAgrees(links, others, head, stack, end);
    ThreadedCons(others, head, stack, end, index);
  }

  /** Acquiring takes the head off and leaves every other link alone. */
  lemma ThreadedPop(links: seq<nat>, others: seq<nat>, head: nat, stack: seq<nat>, end: nat)
    requires Threaded(links, head, stack, end) && Distinct(stack) && stack != []
    requires |others| == |links| && forall i: nat :: i < |links| && i != head ==> others[i] == links[i]
    ensures var rest := stack[..|stack| - 1];
            && head < |links| && stack == rest + [head] && head !in rest
            && Threaded(others, links[head], rest, end) && Distinct(rest)
  {
    var rest := stack[..|stack| - 1];
    assert head !in rest;
    ThreadedAgrees(links, others, links[head], rest, end);
  }

  ghost function Below(n: nat): (s: set<nat>)
    ensures forall i: nat :: i in s <==> i < n
    ensures |s| == n
  {
    if n == 0 then {} else Below(n - 1) + {n - 1}
  }

  ghost function Members(stack: seq<nat>): set<nat> {
    set x | x in stack
  }

  lemma {:induction false} MembersHaveSize(stack: seq<nat>)
    requires Distinct(stack)
    ensures |Members(stack)| == |stack|
  {
    if stack != [] {
      var last := |stack| - 1;
      MembersHaveSize(stack[..last]);
      assert Members(stack) == Members(stack[..last]) + {stack[last]};
      assert stack[last] !in Members(stack[..last]);
    }
  }

  /** If the stack holds exactly the unused indices, the used ones are the rest. */
  lemma UsedCount(size: nat, stack: seq<nat>, used: set<nat>)
    requires Distinct(stack)
    requires forall i: nat :: i in used <==> i < size && i !in stack
    requires forall i: nat :: i in stack ==> i < size
    ensures |used| + |stack| == size
  {
    MembersHaveSize(stack);
    assert Below(size) == used + Members(stack);
    assert used !! Members(stack);
  }
}

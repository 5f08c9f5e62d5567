/** Storage that is handed out, returned and handed out again: how often each place
    has been held, and when a generation number can be mistaken for a later one. */
module Tenancies {
  import opened Completion

  /** One place as its users see it: how often it has been acquired, and whether it is held. */
  datatype Tenancy = Tenancy(count: nat, active: bool)

  type Directory = seq<Tenancy>

  /** New places appear behind the existing ones. */
  ghost predicate Extends(before: Directory, after: Directory) {
    before <= after
  }

  ghost predicate Recycles(before: Directory, after: Directory, i: nat) {
    i < |before| && !before[i].active && after == before[i := Tenancy(before[i].count + 1, true)]
  }

  ghost predicate Deactivates(before: Directory, after: Directory, i: nat) {
    i < |before| && before[i].active && after == before[i := before[i].(active := false)]
  }

  /** The only ways a directory changes. */
  ghost predicate Step(before: Directory, after: Directory) {
    || Extends(before, after)
    || (exists i :: Recycles(before, after, i))
    || (exists i :: Deactivates(before, after, i))
  }

  ghost predicate Run(history: seq<Directory>) {
    forall k :: 0 <= k < |history| - 1 ==> Step(history[k], history[k + 1])
  }

  /** A generation number refers to the present holder of a place. */
  ghost predicate Current(directory: Directory, index: nat, generation: nat) {
    && index < |directory|
    && directory[index].active
    && GenerationAfter(directory[index].count) == generation
  }

  /** Along a run the count of a place never falls, and a place that was free counts one more
      holder by the time it is held again. */
  lemma {:induction false} CountOnlyGrows(history: seq<Directory>, index: nat, first: int, last: int)
    requires Run(history) && 0 <= first <= last < |history|
    requires index < |history[first]|
    ensures index < |history[last]|
    ensures history[first][index].count <= history[last][index].count
    ensures !history[first][index].active && history[last][index].active ==>
              history[first][index].count < history[last][index].count
    decreases last - first
  {
    if first < last {
      CountOnlyGrows(history, index, first, last - 1);
      assert Step(history[last - 1], history[last - 1 + 1]);
    }
  }

  /** A generation issued at one point of a run is accepted at a later point exactly when the
      place is then held and the two tenancies are a whole number of periods apart. */
  lemma CurrentOverARun(history: seq<Directory>, index: nat, generation: nat, issued: nat, now: nat)
    requires Run(history) && issued <= now < |history|
    requires Current(history[issued], index, generation) && history[issued][index].count > 0
    ensures index < |history[now]|
    ensures var gap := history[now][index].count - history[issued][index].count;
            Current(history[now], index, generation) <==> history[now][index].active && gap % PERIOD == 0
  {
    CountOnlyGrows(history, index, issued, now);
    SameGeneration(history[issued][index].count, history[now][index].count);
  }

  /** Once its place has been released, a generation is refused until the place has been
      acquired again 2^32-1 times. */
  lemma StaleUntilWrap(history: seq<Directory>, index: nat, generation: nat, issued: nat, released: nat, now: nat)
    requires Run(history) && issued <= released <= now < |history|
    requires Current(history[issued], index, generation) && history[issued][index].count > 0
    requires index < |history[released]| && !history[released][index].active
    requires index < |history[now]|
    requires history[now][index].count < history[issued][index].count + PERIOD
    ensures !Current(history[now], index, generation)
  {
    CurrentOverARun(history, index, generation, issued, now);
    CountOnlyGrows(history, index, issued, released);
    CountOnlyGrows(history, index, released, now);
  }

  /** The bound is tight: the 2^32-1st acquisition makes the generation current again. */
  lemma WrapsAround(history: seq<Directory>, index: nat, generation: nat, issued: nat, now: nat)
    requires Run(history) && issued <= now < |history|
    requires Current(history[issued], index, generation) && history[issued][index].count > 0
    requires index < |history[now]| && history[now][index].active
    requires history[now][index].count == history[issued][index].count + PERIOD
    ensures Current(history[now], index, generation)
  {
    CurrentOverARun(history, index, generation, issued, now);
  }
}

/**
 * Reachability in a finite graph, and the shared visited set of a depth-first search.
 * The specification has no memory: it speaks of walks only.
 */
module Search {
  /** The mutable set a search shares between its recursive calls. */
  class Seen<T(==)> {
    var members: set<T>

    constructor ()
      ensures members == {}
    {
      members := {};
    }

    method Add(member: T)
      modifies this
      ensures members == old(members) + {member}
    {
      members := members + {member};
    }
  }

  ghost predicate Walk<T(!new)>(edge: (T, T) -> bool, path: seq<T>) {
    path != [] && forall i | 0 <= i < |path| - 1 :: edge(path[i], path[i + 1])
  }

  /** Some walk from `from` ends in a goal. */
  ghost predicate Reaches<T(!new)>(edge: (T, T) -> bool, goal: T -> bool, from: T) {
    exists path: seq<T> :: Walk(edge, path) && path[0] == from && goal(path[|path| - 1])
  }

  lemma GoalIsReached<T(!new)>(edge: (T, T) -> bool, goal: T -> bool, from: T)
    requires goal(from)
    ensures Reaches(edge, goal, from)
  {
    var path := [from];
    assert Walk(edge, path) && path[0] == from && goal(path[|path| - 1]);
  }

  lemma EdgeExtendsReach<T(!new)>(edge: (T, T) -> bool, goal: T -> bool, from: T, next: T)
    requires edge(from, next) && Reaches(edge, goal, next)
    ensures Reaches(edge, goal, from)
  {
    var tail: seq<T> :| Walk(edge, tail) && tail[0] == next && goal(tail[|tail| - 1]);
    var path := [from] + tail;
    assert forall i | 0 <= i < |path| - 1 :: path[i + 1] == tail[i];
    assert Walk(edge, path) && path[0] == from && goal(path[|path| - 1]);
  }

  /** No goal inside, and no edge leads out. */
  ghost predicate ClosedRegion<T(!new)>(edge: (T, T) -> bool, goal: T -> bool, region: iset<T>) {
    && (forall x | x in region :: !goal(x))
    && forall x, y | x in region && edge(x, y) :: y in region
  }

  lemma WalkStaysInside<T(!new)>(edge: (T, T) -> bool, goal: T -> bool, region: iset<T>, path: seq<T>, n: nat)
    requires ClosedRegion(edge, goal, region) && Walk(edge, path) && path[0] in region && n < |path|
    ensures path[n] in region
  {
    if n > 0 {
      WalkStaysInside(edge, goal, region, path, n - 1);
      assert edge(path[n - 1], path[n - 1 + 1]);
    }
  }

  lemma ClosedRegionReachesNothing<T(!new)>(edge: (T, T) -> bool, goal: T -> bool, region: iset<T>, from: T)
    requires ClosedRegion(edge, goal, region) && from in region
    ensures !Reaches(edge, goal, from)
  {
    if Reaches(edge, goal, from) {
      var path: seq<T> :| Walk(edge, path) && path[0] == from && goal(path[|path| - 1]);
      WalkStaysInside(edge, goal, region, path, |path| - 1);
    }
  }
}

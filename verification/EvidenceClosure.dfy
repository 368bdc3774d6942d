/**
 The transitive closure of evidence dependencies (`evidence.py`, lines 331-373).
 */
module EvidenceClosure {
  type Id = string
  type Dependencies = map<Id, seq<Id>>

  function DependenciesOf(dependencies: Dependencies, id: Id): seq<Id> {
    if id in dependencies then dependencies[id] else []
  }

  ghost predicate IsClosed(dependencies: Dependencies, ids: set<Id>) {
    forall id, d :: id in ids && d in DependenciesOf(dependencies, id) ==> d in ids
  }

  ghost predicate Contains(ids: set<Id>, roots: seq<Id>) {
    forall root :: root in roots ==> root in ids
  }

  /** The least closed set that contains the roots. */
  ghost predicate IsClosure(dependencies: Dependencies, roots: seq<Id>, ids: set<Id>) {
    && Contains(ids, roots) && IsClosed(dependencies, ids)
    && forall other: set<Id> :: Contains(other, roots) && IsClosed(dependencies, other) ==> ids <= other
  }

  /** Every id that is a root or is named anywhere in the map. */
  ghost function Universe(roots: seq<Id>, dependencies: Dependencies): set<Id> {
    (set root | root in roots) + set id, d | id in dependencies && d in dependencies[id] :: d
  }

  /** The worklist: it ends on every dependency map, cyclic or not. */
  method Traverse(roots: seq<Id>, dependencies: Dependencies) returns (seen: set<Id>)
    ensures IsClosure(dependencies, roots, seen)
  {
    seen := {};
    var stack := roots;
    while stack != []
      invariant seen <= Universe(roots, dependencies)
      invariant forall id :: id in stack ==> id in Universe(roots, dependencies)
      invariant forall root :: root in roots ==> root in seen || root in stack
      invariant forall id, d :: id in seen && d in DependenciesOf(dependencies, id) ==> d in seen || d in stack
      invariant forall other: set<Id> :: Contains(other, roots) && IsClosed(dependencies, other) ==>
                  seen <= other && forall id :: id in stack ==> id in other
      decreases Universe(roots, dependencies) - seen, |stack|
    {
      var current := stack[|stack| - 1];
      ghost var before := stack;
      stack := stack[..|stack| - 1];
      assert before == stack + [current];
      if current in seen {
        continue;
      }
      seen := seen + {current};
      var pushed := PushUnseen(seen, DependenciesOf(dependencies, current));
      stack := stack + pushed;
    }
  }

  /** The dependencies that were not seen yet, in order. */
  method PushUnseen(seen: set<Id>, dependencies: seq<Id>) returns (pushed: seq<Id>)
    ensures forall id :: id in pushed <==> id in dependencies && id !in seen
  {
    pushed := [];
    for i := 0 to |dependencies|
      invariant forall id :: id in pushed <==> id in dependencies[..i] && id !in seen
    {
      assert dependencies[..i + 1] == dependencies[..i] + [dependencies[i]];
      if dependencies[i] !in seen {
        pushed := pushed + [dependencies[i]];
      }
    }
    assert dependencies[..|dependencies|] == dependencies;
  }

  class EvidenceClosure {
    const closure: set<Id>
    const missing: set<Id>
    const closed: bool

    constructor (roots: seq<Id>, dependencies: Dependencies, resolved: seq<Id>)
      ensures IsClosure(dependencies, roots, closure)
      ensures missing == set id | id in closure && id !in resolved
      ensures closed <==> forall id :: id in closure ==> id in resolved
    {
      var seen := Traverse(roots, dependencies);
      closure := seen;
      missing := set id | id in seen && id !in resolved;
      closed := (set id | id in seen && id !in resolved) == {};
      new;
      assert forall id :: id in closure && id !in resolved ==> id in missing;
    }
  }

  // ----- reachability -----

  /** A chain of dependencies. */
  ghost predicate IsChain(dependencies: Dependencies, chain: seq<Id>) {
    && chain != []
    && forall i :: 0 <= i < |chain| - 1 ==>
         chain[i] in dependencies && chain[i + 1] in dependencies[chain[i]]
  }

  ghost predicate ReachableFrom(dependencies: Dependencies, roots: seq<Id>, id: Id) {
    exists chain :: IsChain(dependencies, chain) && chain[0] in roots && chain[|chain| - 1] == id
  }

  lemma {:induction false} ChainStaysInside(dependencies: Dependencies, chain: seq<Id>, ids: set<Id>)
    requires IsChain(dependencies, chain) && chain[0] in ids && IsClosed(dependencies, ids)
    ensures chain[|chain| - 1] in ids
    decreases |chain|
  {
    if |chain| > 1 {
      var init := chain[..|chain| - 1];
      assert forall i :: 0 <= i < |init| ==> init[i] == chain[i];
      ChainStaysInside(dependencies, init, ids);
      assert chain[|chain| - 2 + 1] in DependenciesOf(dependencies, chain[|chain| - 2]);
    }
  }

  lemma ExtendChain(dependencies: Dependencies, roots: seq<Id>, id: Id, d: Id)
    requires ReachableFrom(dependencies, roots, id) && d in DependenciesOf(dependencies, id)
    ensures ReachableFrom(dependencies, roots, d)
  {
    var chain :| IsChain(dependencies, chain) && chain[0] in roots && chain[|chain| - 1] == id;
    var longer := chain + [d];
    assert IsChain(dependencies, longer);
  }

  lemma RootIsReachable(dependencies: Dependencies, roots: seq<Id>, root: Id)
    requires root in roots
    ensures ReachableFrom(dependencies, roots, root)
  {
    assert IsChain(dependencies, [root]);
  }

  /** The least closed set is exactly what chains of dependencies reach from the roots, so there is
      one closure. */
  lemma ClosureIsReachability(dependencies: Dependencies, roots: seq<Id>, ids: set<Id>, id: Id)
    requires IsClosure(dependencies, roots, ids)
    ensures id in ids <==> ReachableFrom(dependencies, roots, id)
  {
    hide IsChain, ReachableFrom;
    if ReachableFrom(dependencies, roots, id) {
      ReachableIsInside(dependencies, roots, ids, id);
    }
    var reached := set x | x in ids && ReachableFrom(dependencies, roots, x);
    forall root | root in roots ensures root in reached {
      RootIsReachable(dependencies, roots, root);
    }
    forall x, d | x in reached && d in DependenciesOf(dependencies, x) ensures d in reached {
      ExtendChain(dependencies, roots, x, d);
    }
    assert IsClosed(dependencies, reached) && Contains(reached, roots);
  }

  lemma ReachableIsInside(dependencies: Dependencies, roots: seq<Id>, ids: set<Id>, id: Id)
    requires Contains(ids, roots) && IsClosed(dependencies, ids) && ReachableFrom(dependencies, roots, id)
    ensures id in ids
  {
    var chain :| IsChain(dependencies, chain) && chain[0] in roots && chain[|chain| - 1] == id;
    ChainStaysInside(dependencies, chain, ids);
  }
}

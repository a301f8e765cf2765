/** The worklist that collects every binary a program depends on. */
module DependencyClosure {

  type Binary = string

  /** A chain of dependencies, each naming the next. */
  ghost predicate IsPath(deps: Binary -> seq<Binary>, path: seq<Binary>) {
    path != [] && forall i :: 0 <= i < |path| - 1 ==> path[i + 1] in deps(path[i])
  }

  ghost predicate Reachable(deps: Binary -> seq<Binary>, start: Binary, b: Binary) {
    exists path :: IsPath(deps, path) && path[0] == start && path[|path| - 1] == b
  }

  lemma ReachableNext(deps: Binary -> seq<Binary>, start: Binary, b: Binary, d: Binary)
    requires Reachable(deps, start, b) && d in deps(b)
    ensures Reachable(deps, start, d)
  {
    var path :| IsPath(deps, path) && path[0] == start && path[|path| - 1] == b;
    assert IsPath(deps, path + [d]);
    assert (path + [d])[|path|] == d;
  }

  lemma {:induction false} ClosedContainsPath(deps: Binary -> seq<Binary>, closed: set<Binary>, path: seq<Binary>)
    requires IsPath(deps, path) && path[0] in closed
    requires forall b, d :: b in closed && d in deps(b) ==> d in closed
    ensures path[|path| - 1] in closed
    decreases |path|
  {
    if |path| <= 1 {
    } else {
      assert path[1] in deps(path[0]);
      ClosedContainsPath(deps, closed, path[1..]);
    }
  }

  ghost predicate Distinct(s: seq<Binary>) {
    forall i, j :: 0 <= i < j < |s| ==> s[i] != s[j]
  }

  lemma DistinctAppend(a: seq<Binary>, b: seq<Binary>)
    requires Distinct(a) && Distinct(b) && forall x :: x in a ==> x !in b
    ensures Distinct(a + b)
  {
    forall i, j | 0 <= i < |a| <= j < |a| + |b| ensures (a + b)[i] != (a + b)[j] {
      assert (a + b)[i] in a && (a + b)[j] == b[j - |a|];
    }
  }

  function SetOf(s: seq<Binary>): set<Binary> {
    set x | x in s
  }

  /** `deps` lists what a binary links against; `universe` is any finite set closed under it. The result is the
      set of binaries reachable from the start, and each of them has been expanded once. */
  method Closure(start: Binary, deps: Binary -> seq<Binary>, ghost universe: set<Binary>)
    returns (binaries: set<Binary>, ghost expanded: seq<Binary>)
    requires start in universe && forall b, d :: b in universe && d in deps(b) ==> d in universe
    ensures forall b :: b in binaries <==> Reachable(deps, start, b)
    ensures Distinct(expanded)
    ensures forall b :: b in expanded <==> b in binaries
  {
    binaries := {start};
    var queue := [start];
    expanded := [];
    assert Reachable(deps, start, start) by {
      assert IsPath(deps, [start]);
    }
    while queue != []
      invariant start in binaries && binaries <= universe
      invariant forall b :: b in binaries ==> Reachable(deps, start, b)
      invariant forall b :: b in binaries <==> b in expanded + queue
      invariant Distinct(expanded + queue)
      invariant forall b, d :: b in expanded && d in deps(b) ==> d in binaries
      decreases universe - SetOf(expanded)
    {
      ghost var before := expanded + queue;
      var binary := queue[0];
      queue := queue[1..];
      assert before[|expanded|] == binary;
      assert binary !in expanded by {
        forall i | 0 <= i < |expanded| ensures expanded[i] != binary {
          assert before[i] == expanded[i];
        }
      }
      assert SetOf(expanded + [binary]) == SetOf(expanded) + {binary};
      expanded := expanded + [binary];
      assert expanded + queue == before;
      var newDeps := (set d | d in deps(binary)) - binaries;
      forall d | d in newDeps ensures Reachable(deps, start, d) {
        ReachableNext(deps, start, binary, d);
      }
      binaries := binaries + newDeps;
      var extension := ListOf(newDeps);
      DistinctAppend(before, extension);
      assert expanded + (queue + extension) == before + extension;
      queue := queue + extension;
    }
    assert expanded + queue == expanded;
    forall b | Reachable(deps, start, b) ensures b in binaries {
      var path :| IsPath(deps, path) && path[0] == start && path[|path| - 1] == b;
      ClosedContainsPath(deps, binaries, path);
    }
  }

  /** The elements of a set, in some order. */
  method ListOf(s: set<Binary>) returns (list: seq<Binary>)
    ensures forall b :: b in list <==> b in s
    ensures Distinct(list)
  {
    list := [];
    var rest := s;
    while rest != {}
      invariant rest <= s
      invariant forall b :: b in list <==> b in s && b !in rest
      invariant Distinct(list)
      decreases rest
    {
      var b :| b in rest;
      list, rest := list + [b], rest - {b};
    }
  }
}

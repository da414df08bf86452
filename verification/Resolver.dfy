/** Dependency closures of the module command, in the order modules must be selected. */
module Resolver {
  import opened Graph
  import opened Wrappers

  datatype ResolveError =
    | DependencyCycle(id: string)
    | UnknownDependency(id: string)

  /** Everything the module needs is known and free of cycles. */
  ghost predicate Resolvable(g: Dependencies, moduleId: string) {
    forall x | Reachable(g, moduleId, x) :: x in g && !OnCycle(g, x)
  }

  /** The closure of a module: each needed module once, after all of its dependencies. */
  ghost predicate IsClosure(g: Dependencies, moduleId: string, order: seq<string>) {
    && Distinct(order)
    && AllDependenciesFirst(g, order)
    && (forall x :: x in order <==> Reachable(g, moduleId, x))
    && order != [] && order[|order| - 1] == moduleId
  }

  /** The error names a module that is needed and is indeed unknown or on a cycle. */
  ghost predicate Justified(g: Dependencies, moduleId: string, error: ResolveError) {
    && Reachable(g, moduleId, error.id)
    && match error
       case DependencyCycle(id) => OnCycle(g, id)
       case UnknownDependency(id) => id !in g
  }

  class Visitor {
    const dependencies: Dependencies
    ghost const root: string
    var visiting: set<string>
    var visited: set<string>
    var result: seq<string>

    constructor (dependencies: Dependencies, ghost root: string)
      ensures this.dependencies == dependencies && this.root == root
      ensures Valid() && visiting == {} && result == []
    {
      this.dependencies := dependencies;
      this.root := root;
      visiting, visited, result := {}, {}, [];
    }

    ghost predicate Valid()
      reads this
    {
      && (forall x :: x in result <==> x in visited)
      && visiting !! visited
      && visiting <= dependencies.Keys
      && Distinct(result)
      && AllDependenciesFirst(dependencies, result)
      && (forall x | x in visited :: Reachable(dependencies, root, x))
    }

    /** The modules being visited form a walk, each exactly once, that can go on to `id`. */
    ghost predicate OnTrail(trail: seq<string>, id: string)
      reads this
    {
      && Distinct(trail) && (forall x :: x in trail <==> x in visiting)
      && (trail != [] ==> Walk(dependencies, trail) && Edge(dependencies, trail[|trail| - 1], id))
      && Reachable(dependencies, root, id)
    }

    method Visit(id: string, ghost trail: seq<string>) returns (outcome: Result<(), ResolveError>)
      requires Valid() && OnTrail(trail, id)
      modifies this
      ensures outcome.Success? ==>
        && Valid() && visiting == old(visiting)
        && old(result) <= result
        && id in visited && (id !in old(visited) ==> result[|result| - 1] == id)
      ensures outcome.Failure? ==> Justified(dependencies, root, outcome.error)
      decreases dependencies.Keys - visiting
    {
      if id in visiting {
        ghost var start :| 0 <= start < |trail| && trail[start] == id;
        TrailCloses(dependencies, trail, start, id);
        assert ClosedWalk(dependencies, trail[start..] + [id]);
        return Failure(DependencyCycle(id));
      }
      visiting := visiting + {id};
      if id in visited {
        visiting := visiting - {id};
        return Success(());
      }
      if id !in dependencies {
        return Failure(UnknownDependency(id));
      }
      var required := dependencies[id];
      for i := 0 to |required|
        invariant Valid() && visiting == old(visiting) + {id}
        invariant old(result) <= result
        invariant forall j | 0 <= j < i :: required[j] in visited
      {
        ExtendWalk(dependencies, trail, id);
        ReachableStep(dependencies, root, id, required[i]);
        outcome := Visit(required[i], trail + [id]);
        if outcome.Failure? {
          return;
        }
      }
      ExtendFullOrder(dependencies, result, id);
      visiting := visiting - {id};
      visited := visited + {id};
      result := result + [id];
      return Success(());
    }
  }

  /** Succeeds exactly when the closure exists, and then returns it. */
  method DependenciesFor(g: Dependencies, moduleId: string) returns (r: Result<seq<string>, ResolveError>)
    ensures r.Success? <==> Resolvable(g, moduleId)
    ensures r.Success? ==> IsClosure(g, moduleId, r.value)
    ensures r.Failure? ==> Justified(g, moduleId, r.error)
  {
    var visitor := new Visitor(g, moduleId);
    ReachableRefl(g, moduleId);
    var outcome := visitor.Visit(moduleId, []);
    if outcome.Failure? {
      return Failure(outcome.error);
    }
    forall x, y | x in visitor.visited && Edge(g, x, y) ensures y in visitor.visited {
      var i :| 0 <= i < |visitor.result| && visitor.result[i] == x;
      assert y in visitor.result[..i];
    }
    ClosedSetContainsReachable(g, moduleId, visitor.visited);
    forall x | Reachable(g, moduleId, x) ensures x in g && !OnCycle(g, x) {
      NoCycleInOrder(g, visitor.result, x);
    }
    return Success(visitor.result);
  }
}

/** The three-colour search for dependency cycles of the module catalog. */
module CycleSearch {
  import opened Graph
  import opened Text

  function JoinWith(parts: seq<string>, separator: string): string {
    if |parts| == 0 then ""
    else if |parts| == 1 then parts[0]
    else parts[0] + separator + JoinWith(parts[1..], separator)
  }

  /** The joined text is all parts in order, with separators between them. */
  lemma {:induction false} JoinWithSplits(a: seq<string>, b: seq<string>, separator: string)
    requires a != [] && b != []
    ensures JoinWith(a + b, separator) == JoinWith(a, separator) + separator + JoinWith(b, separator)
    ensures |a| == 1 ==> JoinWith(a, separator) == a[0]
  {
    assert (a + b)[0] == a[0] && (a + b)[1..] == a[1..] + b;
    if |a| > 1 {
      JoinWithSplits(a[1..], b, separator);
    } else {
      assert a[1..] + b == b;
    }
  }

  function CycleMessage(cycle: seq<string>): string {
    "Module dependency cycle: " + JoinWith(cycle, " -> ") + "."
  }

  /** `trail.indexOf(id)`. */
  function IndexOf(trail: seq<string>, id: string): (i: int)
    ensures -1 <= i < |trail|
    ensures i >= 0 ==> trail[i] == id
    ensures i < 0 <==> id !in trail
  {
    if trail == [] then -1
    else if trail[0] == id then 0
    else
      var i := IndexOf(trail[1..], id);
      if i < 0 then -1 else i + 1
  }

  /** A reported message names the modules of some cycle, in order. */
  ghost predicate ReportsCycle(g: Dependencies, message: string) {
    exists cycle :: ClosedWalk(g, cycle) && message == CycleMessage(cycle)
  }

  class Search {
    const dependencies: Dependencies
    var visiting: set<string>
    var visited: set<string>
    var errors: set<string>
    ghost var finished: seq<string>

    constructor (dependencies: Dependencies)
      ensures this.dependencies == dependencies
      ensures Valid() && visiting == {} && visited == {} && errors == {}
    {
      this.dependencies := dependencies;
      visiting, visited, errors := {}, {}, {};
      finished := [];
    }

    ghost predicate Valid()
      reads this
    {
      && (forall x :: x in finished <==> x in visited)
      && visiting !! visited
      && visiting <= dependencies.Keys
      && Distinct(finished)
      && (errors == {} ==> DependenciesFirst(dependencies, finished))
      && forall message | message in errors :: ReportsCycle(dependencies, message)
    }

    /** The trail is the walk of modules being visited, each exactly once. */
    ghost predicate OnTrail(trail: seq<string>)
      reads this
    {
      && Distinct(trail) && (forall x :: x in trail <==> x in visiting)
      && (trail == [] || Walk(dependencies, trail))
    }

    method Visit(moduleId: string, trail: seq<string>)
      requires Valid() && OnTrail(trail) && moduleId in dependencies
      requires trail != [] ==> Edge(dependencies, trail[|trail| - 1], moduleId)
      modifies this
      ensures Valid() && visiting == old(visiting)
      ensures old(visited) <= visited && old(errors) <= errors
      ensures errors == {} ==> moduleId in visited
      decreases dependencies.Keys - visiting
    {
      if moduleId in visiting {
        var cycleStart := IndexOf(trail, moduleId);
        var cycle := trail[cycleStart..] + [moduleId];
        TrailCloses(dependencies, trail, cycleStart, moduleId);
        errors := errors + {CycleMessage(cycle)};
        return;
      }
      if moduleId in visited {
        return;
      }
      visiting := visiting + {moduleId};
      var required := dependencies[moduleId];
      ExtendWalk(dependencies, trail, moduleId);
      for i := 0 to |required|
        invariant Valid() && OnTrail(trail + [moduleId])
        invariant visiting == old(visiting) + {moduleId}
        invariant old(visited) <= visited && old(errors) <= errors
        invariant errors == {} ==>
          forall j | 0 <= j < i :: required[j] in dependencies ==> required[j] in visited
      {
        if required[i] in dependencies {
          Visit(required[i], trail + [moduleId]);
        }
      }
      if errors == {} {
        ExtendOrder(dependencies, finished, moduleId);
      }
      visiting := visiting - {moduleId};
      visited := visited + {moduleId};
      finished := finished + [moduleId];
    }
  }

  lemma FinishedMeansAcyclic(g: Dependencies, finished: seq<string>)
    requires DependenciesFirst(g, finished) && Distinct(finished)
    requires forall x | x in g :: x in finished
    ensures Acyclic(g)
  {
    forall w ensures !ClosedWalk(g, w) {
      if ClosedWalk(g, w) {
        assert Edge(g, w[0], w[1]);
        NoCycleInOrder(g, finished, w[0]);
      }
    }
  }

  /** Sound and complete: no errors exactly when the graph over the known ids has no cycle. */
  method DependencyCycleErrors(dependencies: Dependencies) returns (messages: seq<string>)
    ensures messages == [] <==> Acyclic(dependencies)
    ensures forall message | message in messages :: ReportsCycle(dependencies, message)
    ensures StrictlyAscending(messages)
  {
    var search := new Search(dependencies);
    var ids := Ascending(dependencies.Keys);
    for i := 0 to |ids|
      invariant search.dependencies == dependencies && search.Valid() && search.visiting == {}
      invariant fresh(search)
      invariant search.errors == {} ==> forall j | 0 <= j < i :: ids[j] in search.visited
    {
      search.Visit(ids[i], []);
    }
    messages := Ascending(search.errors);
    if messages == [] {
      assert search.errors == {} by { assert forall x :: x !in search.errors; }
      FinishedMeansAcyclic(dependencies, search.finished);
    } else {
      var message := messages[0];
      assert message in messages;
    }
  }
}

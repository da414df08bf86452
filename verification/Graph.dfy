/** Module dependency graphs: walks, reachability, cycles and dependency orders. */
module Graph {

  /** Required modules by module id; a required module may be unknown (not a key). */
  type Dependencies = map<string, seq<string>>

  predicate Edge(g: Dependencies, a: string, b: string) {
    a in g && b in g[a]
  }

  ghost predicate Walk(g: Dependencies, w: seq<string>) {
    w != [] && forall i | 0 < i < |w| :: Edge(g, w[i - 1], w[i])
  }

  ghost predicate WalkBetween(g: Dependencies, a: string, b: string, w: seq<string>) {
    Walk(g, w) && w[0] == a && w[|w| - 1] == b
  }

  /** Reflexive and transitive. */
  ghost predicate Reachable(g: Dependencies, a: string, b: string) {
    exists w :: WalkBetween(g, a, b, w)
  }

  /** A walk of at least one edge that returns to where it began. */
  ghost predicate ClosedWalk(g: Dependencies, w: seq<string>) {
    Walk(g, w) && |w| > 1 && w[0] == w[|w| - 1]
  }

  ghost predicate OnCycle(g: Dependencies, a: string) {
    exists w :: ClosedWalk(g, w) && w[0] == a
  }

  ghost predicate Acyclic(g: Dependencies) {
    forall w :: !ClosedWalk(g, w)
  }

  ghost predicate Distinct(s: seq<string>) {
    forall i, j | 0 <= i < j < |s| :: s[i] != s[j]
  }

  /** Every known dependency of a listed module is listed before it. */
  ghost predicate DependenciesFirst(g: Dependencies, order: seq<string>) {
    forall i | 0 <= i < |order| :: order[i] in g
      && forall d | d in g[order[i]] && d in g :: d in order[..i]
  }

  /** Every dependency of a listed module is listed before it, so all of them are known. */
  ghost predicate AllDependenciesFirst(g: Dependencies, order: seq<string>) {
    forall i | 0 <= i < |order| :: order[i] in g
      && forall d | d in g[order[i]] :: d in order[..i]
  }

  lemma ExtendFullOrder(g: Dependencies, order: seq<string>, id: string)
    requires AllDependenciesFirst(g, order) && id in g
    requires forall d | d in g[id] :: d in order
    ensures AllDependenciesFirst(g, order + [id])
  {
    var longer := order + [id];
    forall i | 0 <= i < |longer|
      ensures longer[i] in g && forall d | d in g[longer[i]] :: d in longer[..i]
    {
      assert longer[..i] == order[..i];
      assert i == |order| ==> longer[..i] == order;
    }
  }

  lemma ExtendOrder(g: Dependencies, order: seq<string>, id: string)
    requires DependenciesFirst(g, order) && id in g
    requires forall d | d in g[id] && d in g :: d in order
    ensures DependenciesFirst(g, order + [id])
  {
    var longer := order + [id];
    forall i | 0 <= i < |longer|
      ensures longer[i] in g && forall d | d in g[longer[i]] && d in g :: d in longer[..i]
    {
      assert longer[..i] == order[..i];
      assert i == |order| ==> longer[..i] == order;
    }
  }

  lemma ReachableRefl(g: Dependencies, a: string)
    ensures Reachable(g, a, a)
  {
    assert WalkBetween(g, a, a, [a]);
  }

  lemma WalkJoin(g: Dependencies, v: seq<string>, w: seq<string>)
    requires Walk(g, v) && Walk(g, w) && Edge(g, v[|v| - 1], w[0])
    ensures Walk(g, v + w)
  {
    var u := v + w;
    forall i | 0 < i < |u| ensures Edge(g, u[i - 1], u[i]) {
      if i < |v| {
        assert u[i - 1] == v[i - 1] && u[i] == v[i];
      } else if i > |v| {
        assert u[i - 1] == w[i - |v| - 1] && u[i] == w[i - |v|];
      }
    }
  }

  lemma ExtendWalk(g: Dependencies, trail: seq<string>, id: string)
    requires trail == [] || (Walk(g, trail) && Edge(g, trail[|trail| - 1], id))
    ensures Walk(g, trail + [id])
  {
    if trail != [] { WalkJoin(g, trail, [id]); }
  }

  lemma TrailCloses(g: Dependencies, trail: seq<string>, start: nat, id: string)
    requires start < |trail| && trail[start] == id
    requires Walk(g, trail) && Edge(g, trail[|trail| - 1], id)
    ensures ClosedWalk(g, trail[start..] + [id])
  {
    var tail := trail[start..];
    forall i | 0 < i < |tail| ensures Edge(g, tail[i - 1], tail[i]) {
      assert Edge(g, trail[start + i - 1], trail[start + i]);
    }
    WalkJoin(g, tail, [id]);
  }

  lemma ReachableStep(g: Dependencies, a: string, b: string, c: string)
    requires Reachable(g, a, b) && Edge(g, b, c)
    ensures Reachable(g, a, c)
  {
    var w :| WalkBetween(g, a, b, w);
    WalkJoin(g, w, [c]);
    assert WalkBetween(g, a, c, w + [c]);
  }

  /** A set that holds `a` and is closed under edges holds everything reachable from `a`. */
  lemma ClosedSetContainsReachable(g: Dependencies, a: string, s: set<string>)
    requires a in s
    requires forall x, y | x in s && Edge(g, x, y) :: y in s
    ensures forall b :: Reachable(g, a, b) ==> b in s
  {
    forall b | Reachable(g, a, b) ensures b in s {
      var w :| WalkBetween(g, a, b, w);
      ClosedSetContainsWalk(g, w, s, |w| - 1);
    }
  }

  lemma {:induction false} ClosedSetContainsWalk(g: Dependencies, w: seq<string>, s: set<string>, k: nat)
    requires Walk(g, w) && k < |w| && w[0] in s
    requires forall x, y | x in s && Edge(g, x, y) :: y in s
    ensures w[k] in s
  {
    if k > 0 {
      ClosedSetContainsWalk(g, w, s, k - 1);
    }
  }

  /** Walks through known modules only descend in a dependency order. */
  lemma {:induction false} WalkDescends(g: Dependencies, order: seq<string>, w: seq<string>, i: nat, k: nat)
    requires DependenciesFirst(g, order) && i < |order|
    requires Walk(g, w) && w[0] == order[i] && 0 < k < |w|
    requires forall j | 0 <= j < |w| :: w[j] in g
    ensures w[k] in order[..i]
  {
    if k > 1 {
      WalkDescends(g, order, w, i, k - 1);
      var j :| 0 <= j < i && order[j] == w[k - 1];
      assert w[k] in order[..j];
    } else {
      assert Edge(g, w[0], w[1]);
    }
  }

  lemma NoCycleInOrder(g: Dependencies, order: seq<string>, a: string)
    requires DependenciesFirst(g, order) && Distinct(order) && a in order
    ensures !OnCycle(g, a)
  {
    forall w | ClosedWalk(g, w) && w[0] == a ensures false {
      var i :| 0 <= i < |order| && order[i] == a;
      forall j | 0 <= j < |w| ensures w[j] in g {
        if j + 1 < |w| { assert Edge(g, w[j + 1 - 1], w[j + 1]); }
      }
      WalkDescends(g, order, w, i, |w| - 1);
    }
  }
}

/** Call graphs and reachability in them. */
module CallGraph {

  type Id = nat

  /** For each function, the functions it calls, in iteration order. */
  type Graph = map<Id, seq<Id>>

  /** No dangling callees. */
  ghost predicate Closed(g: Graph)
  {
    forall x :: x in g ==> forall y :: y in g[x] ==> y in g
  }

  ghost predicate Edge(g: Graph, x: Id, y: Id)
  {
    x in g && y in g[x]
  }

  ghost predicate IsPath(g: Graph, p: seq<Id>)
  {
    |p| > 0 && forall i :: 0 <= i < |p| - 1 ==> Edge(g, p[i], p[i + 1])
  }

  ghost predicate PathBetween(g: Graph, x: Id, p: seq<Id>, y: Id)
  {
    IsPath(g, p) && p[0] == x && p[|p| - 1] == y
  }

  ghost predicate Reach(g: Graph, x: Id, y: Id)
  {
    exists p :: PathBetween(g, x, p, y)
  }

  ghost predicate Mutual(g: Graph, x: Id, y: Id)
  {
    Reach(g, x, y) && Reach(g, y, x)
  }

  /** Some other function and x call each other, directly or not. */
  ghost predicate HasMate(g: Graph, x: Id)
  {
    exists y :: y != x && Mutual(g, x, y)
  }

  lemma ReachSelf(g: Graph, x: Id)
    ensures Reach(g, x, x)
  {
    assert PathBetween(g, x, [x], x);
  }

  lemma ReachEdge(g: Graph, x: Id, y: Id)
    requires Edge(g, x, y)
    ensures Reach(g, x, y)
  {
    assert PathBetween(g, x, [x, y], y);
  }

  lemma ReachTrans(g: Graph, x: Id, y: Id, z: Id)
    requires Reach(g, x, y) && Reach(g, y, z)
    ensures Reach(g, x, z)
  {
    var p :| PathBetween(g, x, p, y);
    var q :| PathBetween(g, y, q, z);
    var r := p + q[1..];
    forall i | 0 <= i < |r| - 1 ensures Edge(g, r[i], r[i + 1]) {
      if i < |p| - 1 {
        assert Edge(g, p[i], p[i + 1]);
      } else {
        assert Edge(g, q[i - |p| + 1], q[i - |p| + 2]);
      }
    }
    assert PathBetween(g, x, r, z);
  }

  /** A path that leaves a set crosses its border by some edge. */
  lemma Crossing(g: Graph, s: set<Id>, x: Id, y: Id) returns (a: Id, b: Id)
    requires Reach(g, x, y) && x in s && y !in s
    ensures a in s && b !in s && Edge(g, a, b)
  {
    var p :| PathBetween(g, x, p, y);
    var i := 0;
    while p[i + 1] in s
      invariant 0 <= i < |p| - 1 && p[i] in s
      decreases |p| - i
    {
      i := i + 1;
    }
    a, b := p[i], p[i + 1];
  }

  lemma MutualEquivalence(g: Graph, x: Id, y: Id, z: Id)
    ensures Mutual(g, x, x)
    ensures Mutual(g, x, y) ==> Mutual(g, y, x)
    ensures Mutual(g, x, y) && Mutual(g, y, z) ==> Mutual(g, x, z)
  {
    ReachSelf(g, x);
    if Mutual(g, x, y) && Mutual(g, y, z) {
      ReachTrans(g, x, y, z);
      ReachTrans(g, z, y, x);
    }
  }
}

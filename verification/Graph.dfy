/** Finite directed graphs over items: paths, reachability, acyclicity. */
module Graph {
  import opened References

  type Edges = set<(Node, Node)>

  /** A nonempty walk along edges. */
  ghost predicate Path(g: Edges, p: seq<Node>) {
    p != [] && forall i :: 0 <= i < |p| - 1 ==> (p[i], p[i + 1]) in g
  }

  ghost predicate PathFrom(g: Edges, p: seq<Node>, a: Node, b: Node) {
    Path(g, p) && p[0] == a && p[|p| - 1] == b
  }

  /** Reflexive, transitive reachability. */
  ghost predicate Reach(g: Edges, a: Node, b: Node) {
    exists p :: PathFrom(g, p, a, b)
  }

  ghost predicate Acyclic(g: Edges) {
    forall p :: Path(g, p) && |p| > 1 ==> p[0] != p[|p| - 1]
  }

  ghost function Vertices(g: Edges): set<Node> {
    (set e | e in g :: e.0) + (set e | e in g :: e.1)
  }

  /** Everything that reaches `n`, itself included. */
  ghost function Dependents(g: Edges, n: Node): set<Node> {
    set x | x in Vertices(g) + {n} && Reach(g, x, n)
  }

  /** Everything that `n` reaches, itself included. */
  ghost function Reachable(g: Edges, n: Node): set<Node> {
    set x | x in Vertices(g) + {n} && Reach(g, n, x)
  }

  lemma ReachSelf(g: Edges, a: Node)
    ensures Reach(g, a, a)
  {
    assert PathFrom(g, [a], a, a);
  }

  lemma ReachEdge(g: Edges, a: Node, b: Node)
    requires (a, b) in g
    ensures Reach(g, a, b)
  {
    assert PathFrom(g, [a, b], a, b);
  }

  lemma JoinPaths(g: Edges, p: seq<Node>, q: seq<Node>)
    requires Path(g, p) && Path(g, q) && p[|p| - 1] == q[0]
    ensures PathFrom(g, p + q[1..], p[0], q[|q| - 1])
  {
    var r := p + q[1..];
    forall i | 0 <= i < |r| - 1 ensures (r[i], r[i + 1]) in g {
      if i >= |p| - 1 {
        assert r[i] == q[i - |p| + 1] && r[i + 1] == q[i - |p| + 2];
      }
    }
  }

  lemma ReachTrans(g: Edges, a: Node, b: Node, c: Node)
    requires Reach(g, a, b) && Reach(g, b, c)
    ensures Reach(g, a, c)
  {
    var p :| PathFrom(g, p, a, b);
    var q :| PathFrom(g, q, b, c);
    JoinPaths(g, p, q);
  }

  lemma PathSlice(g: Edges, p: seq<Node>, i: nat, j: nat)
    requires Path(g, p) && i < j <= |p|
    ensures PathFrom(g, p[i..j], p[i], p[j - 1])
  {}

  /** A walk only visits vertices of the graph, except when it stands still. */
  lemma ReachVertices(g: Edges, a: Node, b: Node)
    requires Reach(g, a, b)
    ensures a == b || (a in Vertices(g) && b in Vertices(g))
  {
    var p :| PathFrom(g, p, a, b);
    if |p| > 1 {
      assert (p[0], p[1]) in g && (p[|p| - 2], p[|p| - 1]) in g;
    }
  }

  lemma DependentsReach(g: Edges, n: Node, x: Node)
    ensures x in Dependents(g, n) <==> Reach(g, x, n)
  {
    if Reach(g, x, n) { ReachVertices(g, x, n); }
  }

  lemma ReachableReach(g: Edges, n: Node, x: Node)
    ensures x in Reachable(g, n) <==> Reach(g, n, x)
  {
    if Reach(g, n, x) { ReachVertices(g, n, x); }
  }

  /** A walk that does not start at `n`'s edges survives any change to the edges leaving `n`. */
  lemma PathUnchanged(g: Edges, g': Edges, n: Node, p: seq<Node>)
    requires Path(g, p)
    requires forall e :: e in g && e.0 != n ==> e in g'
    requires forall i :: 0 <= i < |p| - 1 ==> p[i] != n
    ensures Path(g', p)
  {}

  /** Fewer edges, fewer cycles. */
  lemma AcyclicSubset(g: Edges, g': Edges)
    requires Acyclic(g) && g' <= g
    ensures Acyclic(g')
  {
    forall p | Path(g', p) && |p| > 1 ensures p[0] != p[|p| - 1] {
      assert Path(g, p);
    }
  }

  /** A cycle created by changing the edges that leave `n` must pass through `n`. */
  lemma CycleThrough(g: Edges, g': Edges, n: Node, p: seq<Node>) returns (i: nat)
    requires Acyclic(g)
    requires forall e :: e in g' && e.0 != n ==> e in g
    requires Path(g', p) && |p| > 1 && p[0] == p[|p| - 1]
    ensures i < |p| - 1 && p[i] == n
  {
    if forall k :: 0 <= k < |p| - 1 ==> p[k] != n {
      PathUnchanged(g', g, n, p);
      assert false;
    }
    i :| 0 <= i < |p| - 1 && p[i] == n;
  }

  /** Rotating a cycle to start at one of its nodes. */
  lemma RotateCycle(g: Edges, p: seq<Node>, i: nat)
    requires Path(g, p) && |p| > 1 && p[0] == p[|p| - 1] && i < |p| - 1
    ensures PathFrom(g, p[i..] + p[1..i + 1], p[i], p[i])
  {
    PathSlice(g, p, i, |p|);
    PathSlice(g, p, 0, i + 1);
    JoinPaths(g, p[i..], p[..i + 1]);
    assert p[..i + 1][1..] == p[1..i + 1];
  }

  /** Replacing the edges that leave `n` keeps the graph acyclic when no new walk returns to `n`. */
  lemma AcyclicAfter(g: Edges, g': Edges, n: Node)
    requires Acyclic(g)
    requires forall e :: e in g' && e.0 != n ==> e in g
    requires forall p :: Path(g', p) && |p| > 1 && p[0] == n ==> p[|p| - 1] != n
    ensures Acyclic(g')
  {
    forall p | Path(g', p) && |p| > 1 ensures p[0] != p[|p| - 1] {
      if p[0] == p[|p| - 1] {
        var i := CycleThrough(g, g', n, p);
        RotateCycle(g', p, i);
        assert false;
      }
    }
  }

  /** In an acyclic graph, following an edge strictly shrinks what is reachable. */
  lemma ReachableShrinks(g: Edges, a: Node, b: Node)
    requires Acyclic(g) && (a, b) in g
    ensures |Reachable(g, b)| < |Reachable(g, a)|
  {
    ReachEdge(g, a, b);
    forall x | x in Reachable(g, b) ensures x in Reachable(g, a) {
      ReachTrans(g, a, b, x);
      ReachableReach(g, a, x);
    }
    ReachSelf(g, a);
    if a in Reachable(g, b) {
      var p :| PathFrom(g, p, b, a);
      JoinPaths(g, [a, b], p);
      assert false;
    }
    assert Reachable(g, b) < Reachable(g, a);
    StrictSubsetSize(Reachable(g, b), Reachable(g, a));
  }

  lemma SubsetSize<T>(a: set<T>, b: set<T>)
    requires a <= b
    ensures |a| <= |b|
  {
    assert b == a + (b - a);
  }

  lemma StrictSubsetSize<T>(a: set<T>, b: set<T>)
    requires a < b
    ensures |a| < |b|
  {
    var x :| x in b && x !in a;
    SubsetSize(a + {x}, b);
  }
}

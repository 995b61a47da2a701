/** Paths and reachability in finite directed graphs given as adjacency maps. */
module Reachability {

  type Adjacency<T> = map<T, set<T>>

  predicate Edge<T(==)>(g: Adjacency<T>, a: T, b: T) {
    a in g && b in g[a]
  }

  ghost predicate IsPath<T>(g: Adjacency<T>, p: seq<T>) {
    |p| > 0 && forall i :: 0 <= i < |p| - 1 ==> Edge(g, p[i], p[i + 1])
  }

  ghost predicate PathBetween<T>(g: Adjacency<T>, a: T, b: T, p: seq<T>) {
    IsPath(g, p) && p[0] == a && p[|p| - 1] == b
  }

  /** b is reachable from a in zero or more edges. */
  ghost predicate Reaches<T(!new)>(g: Adjacency<T>, a: T, b: T) {
    exists p :: PathBetween(g, a, b, p)
  }

  /** The graph without the edges that enter a forbidden node. */
  ghost function Avoiding<T>(g: Adjacency<T>, forbidden: set<T>): Adjacency<T> {
    map a | a in g :: g[a] - forbidden
  }

  /** Every node mentioned by the graph. */
  ghost function Universe<T>(g: Adjacency<T>): set<T> {
    g.Keys + set a, b | a in g && b in g[a] :: b
  }

  ghost predicate Closed<T(!new)>(g: Adjacency<T>, s: set<T>) {
    forall a, b :: a in s && Edge(g, a, b) ==> b in s
  }

  lemma ReachesSelf<T(!new)>(g: Adjacency<T>, a: T)
    ensures Reaches(g, a, a)
  {
    assert PathBetween(g, a, a, [a]);
  }

  lemma ReachesStep<T(!new)>(g: Adjacency<T>, a: T, b: T, c: T)
    requires Reaches(g, a, b) && Edge(g, b, c)
    ensures Reaches(g, a, c)
  {
    var p :| PathBetween(g, a, b, p);
    assert PathBetween(g, a, c, p + [c]);
  }

  lemma ReachesTrans<T(!new)>(g: Adjacency<T>, a: T, b: T, c: T)
    requires Reaches(g, a, b) && Reaches(g, b, c)
    ensures Reaches(g, a, c)
  {
    var p :| PathBetween(g, a, b, p);
    var q :| PathBetween(g, b, c, q);
    var r := p + q[1..];
    forall i | 0 <= i < |r| - 1 ensures Edge(g, r[i], r[i + 1]) {
      if i >= |p| - 1 {
        assert Edge(g, q[i - |p| + 1], q[i - |p| + 2]);
      }
    }
    assert PathBetween(g, a, c, r);
  }

  /** A set closed under successors holds everything reachable from its members. */
  lemma ClosedHoldsReachable<T(!new)>(g: Adjacency<T>, s: set<T>, a: T, b: T)
    requires Closed(g, s) && a in s && Reaches(g, a, b)
    ensures b in s
  {
    var p :| PathBetween(g, a, b, p);
    for i := 0 to |p| - 1
      invariant p[i] in s
    {
      assert Edge(g, p[i], p[i + 1]);
    }
  }

  lemma MonotoneReaches<T(!new)>(g: Adjacency<T>, h: Adjacency<T>, a: T, b: T)
    requires forall x, y :: Edge(g, x, y) ==> Reaches(h, x, y)
    requires Reaches(g, a, b)
    ensures Reaches(h, a, b)
  {
    var p :| PathBetween(g, a, b, p);
    ReachesSelf(h, a);
    for i := 0 to |p| - 1
      invariant Reaches(h, a, p[i])
    {
      assert Edge(g, p[i], p[i + 1]);
      ReachesTrans(h, a, p[i], p[i + 1]);
    }
  }
}

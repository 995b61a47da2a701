/** Backward and forward walks over the program assignment and value-flow graphs. */
module Visits {
  import opened Reachability

  /** An edge into a node of the assignment graph. */
  datatype PagEdge<T> = PagEdge(src: T, isAddr: bool)

  datatype Pag<T> = Pag(inEdges: map<T, seq<PagEdge<T>>>, dummies: set<T>) {
    function In(n: T): seq<PagEdge<T>> {
      if n in inEdges then inEdges[n] else []
    }
  }

  /** One step backwards: over an edge that is not an address-of edge and does not come from a dummy node. */
  ghost function Backwards<T>(pag: Pag<T>): Adjacency<T> {
    map n | n in pag.inEdges ::
      set e | e in pag.inEdges[n] && !e.isAddr && e.src !in pag.dummies :: e.src
  }

  /** d is a real object whose address is taken into a node that flows to the start. */
  ghost predicate IsDef<T(!new)>(pag: Pag<T>, start: T, d: T) {
    exists n :: Reaches(Backwards(pag), start, n) && PagEdge(d, true) in pag.In(n) && d !in pag.dummies
  }

  /** Collects the definitions that flow into one node and schedules its other sources. */
  method SelectDefs<T(==)>(pag: Pag<T>, current: T, worklist0: seq<T>, visited0: seq<T>, ret0: set<T>)
    returns (worklist: seq<T>, visited: seq<T>, ret: set<T>)
    ensures forall d :: d in ret <==> d in ret0 || (PagEdge(d, true) in pag.In(current) && d !in pag.dummies)
    ensures forall x :: x in worklist <==> x in worklist0 || (Edge(Backwards(pag), current, x) && x !in visited0)
    ensures forall x :: x in visited <==> x in visited0 || Edge(Backwards(pag), current, x) || x == current
    ensures worklist == worklist0 || exists x :: x in visited && x !in visited0 && x in worklist
  {
    worklist, visited, ret := worklist0, visited0, ret0;
    var edges := pag.In(current);
    for i := 0 to |edges|
      invariant forall d :: d in ret <==> d in ret0 || (PagEdge(d, true) in edges[..i] && d !in pag.dummies)
      invariant forall x :: x in worklist <==>
                            x in worklist0 || (PagEdge(x, false) in edges[..i] && x !in pag.dummies && x !in visited0)
      invariant forall x :: x in visited <==>
                            x in visited0 || (PagEdge(x, false) in edges[..i] && x !in pag.dummies)
      invariant worklist == worklist0 || exists x :: x in visited && x !in visited0 && x in worklist
    {
      var e := edges[i];
      assert edges[..i + 1] == edges[..i] + [e];
      if e.src !in pag.dummies {
        if e.isAddr {
          ret := ret + {e.src};
        } else if e.src !in visited {
          worklist := worklist + [e.src];
          visited := visited + [e.src];
        }
      }
    }
    assert edges[..|edges|] == edges;
    forall x ensures Edge(Backwards(pag), current, x) <==> PagEdge(x, false) in edges && x !in pag.dummies {
      if PagEdge(x, false) in edges && x !in pag.dummies {
        assert PagEdge(x, false).src in Backwards(pag)[current];
      }
    }
    visited := visited + [current];
  }

  method GetDefNodes<T(==,!new)>(pag: Pag<T>, start: T) returns (defs: set<T>)
    ensures forall d :: d in defs <==> IsDef(pag, start, d)
  {
    ghost var g := Backwards(pag);
    ghost var all := Universe(g) + {start};
    ghost var seen: set<T>, done: set<T> := {}, {};
    defs := {};
    var worklist, visited := [start], [];
    ReachesSelf(g, start);
    while worklist != []
      invariant forall x :: x in visited <==> x in seen
      invariant done <= seen <= all && forall x :: x in worklist ==> x in all
      invariant start in done || start in worklist
      invariant forall x :: x in seen ==> x in done || x in worklist
      invariant forall x :: x in seen || x in worklist ==> Reaches(g, start, x)
      invariant forall v, w :: v in done && Edge(g, v, w) ==> w in seen
      invariant forall d :: d in defs <==> d !in pag.dummies && exists n :: n in done && PagEdge(d, true) in pag.In(n)
      decreases all - seen, |worklist|
    {
      var current := worklist[|worklist| - 1];
      ghost var worklist0, seen0, visited0 := worklist, seen, visited;
      worklist := worklist[..|worklist| - 1];
      assert worklist0 == worklist + [current];
      worklist, visited, defs := SelectDefs(pag, current, worklist, visited, defs);
      forall x | Edge(g, current, x) ensures x in all && Reaches(g, start, x) {
        ReachesStep(g, start, current, x);
      }
      seen := set x | x in visited;
      done := done + {current};
      if worklist != worklist0[..|worklist0| - 1] {
        var x :| x in visited && x !in visited0;
        assert x in all - seen0 && x !in all - seen;
      }
      assert seen0 <= seen;
      assert all - seen <= all - seen0;
    }
    forall d | IsDef(pag, start, d) ensures d in defs {
      var n :| Reaches(g, start, n) && PagEdge(d, true) in pag.In(n) && d !in pag.dummies;
      ClosedHoldsReachable(g, done, start, n);
    }
  }

  ghost function Forwards<T>(out: map<T, seq<T>>): Adjacency<T> {
    map n | n in out :: set w | w in out[n]
  }

  /** p is a non-empty chain of edges that starts at an edge of `from` and ends in the value `to`. */
  ghost predicate ChainTo<T, V>(out: map<T, seq<T>>, value: T -> V, from: T, to: V, p: seq<T>) {
    p != [] && IsPath(Forwards(out), [from] + p) && value(p[|p| - 1]) == to
  }

  /** p ends with the edge from v to w. */
  ghost predicate EndsWithEdge<T>(from: T, p: seq<T>, v: T, w: T) {
    p != [] && p[|p| - 1] == w && ([from] + p)[|p| - 1] == v
  }

  /** The edge from v to w has been followed, and recorded if it ends in the wanted value. */
  ghost predicate EdgeDone<T, V>(value: T -> V, from: T, to: V, seen: set<T>, ret: seq<seq<T>>, v: T, w: T) {
    w in seen && (value(w) == to ==> exists p :: p in ret && EndsWithEdge(from, p, v, w))
  }

  ghost predicate Explored<T(!new), V>(out: map<T, seq<T>>, value: T -> V, from: T, to: V,
                                       seen: set<T>, ret: seq<seq<T>>, v: T) {
    forall w :: Edge(Forwards(out), v, w) ==> EdgeDone(value, from, to, seen, ret, v, w)
  }

  lemma EdgeStaysDone<T, V>(value: T -> V, from: T, to: V, seen: set<T>, ret: seq<seq<T>>,
                            seen': set<T>, ret': seq<seq<T>>, v: T, w: T)
    requires EdgeDone(value, from, to, seen, ret, v, w) && seen <= seen' && ret <= ret'
    ensures EdgeDone(value, from, to, seen', ret', v, w)
  {
    if value(w) == to {
      var p :| p in ret && EndsWithEdge(from, p, v, w);
      assert p in ret';
    }
  }

  /** Every node seen in the meantime has been explored. */
  ghost predicate AllExplored<T(!new), V>(out: map<T, seq<T>>, value: T -> V, from: T, to: V,
                                          before: set<T>, seen: set<T>, ret: seq<seq<T>>) {
    forall v :: v in seen && v !in before ==> Explored(out, value, from, to, seen, ret, v)
  }

  lemma ExtendExplored<T(!new), V>(out: map<T, seq<T>>, value: T -> V, from: T, to: V, before: set<T>,
                                   seen: set<T>, ret: seq<seq<T>>, seen': set<T>, ret': seq<seq<T>>, ret1: seq<seq<T>>)
    requires AllExplored(out, value, from, to, before, seen, ret)
    requires AllExplored(out, value, from, to, seen, seen', ret')
    requires seen <= seen' && ret <= ret1 <= ret'
    ensures AllExplored(out, value, from, to, before, seen', ret')
  {
    forall v, w | v in seen' && v !in before && Edge(Forwards(out), v, w)
      ensures EdgeDone(value, from, to, seen', ret', v, w)
    {
      if v in seen {
        assert Explored(out, value, from, to, seen, ret, v);
        EdgeStaysDone(value, from, to, seen, ret, seen', ret', v, w);
      } else {
        assert Explored(out, value, from, to, seen', ret', v);
      }
    }
  }

  /** Following an edge makes the chain longer. */
  lemma PushEdge<T, V>(out: map<T, seq<T>>, value: T -> V, from: T, to: V, path: seq<T>, node: T, dst: T)
    requires IsPath(Forwards(out), [from] + path) && ([from] + path)[|path|] == node && Edge(Forwards(out), node, dst)
    ensures IsPath(Forwards(out), [from] + (path + [dst])) && ([from] + (path + [dst]))[|path + [dst]|] == dst
    ensures EndsWithEdge(from, path + [dst], node, dst)
    ensures value(dst) == to ==> ChainTo(out, value, from, to, path + [dst])
  {
    hide Forwards, Edge;
    assert [from] + (path + [dst]) == ([from] + path) + [dst];
  }

  /** Following the edge at i keeps the edges before it done. */
  lemma EdgesStayDone<T, V>(value: T -> V, from: T, to: V, seen: set<T>, ret: seq<seq<T>>, ret1: seq<seq<T>>,
                            seen': set<T>, ret': seq<seq<T>>, node: T, edges: seq<T>, i: nat)
    requires i < |edges| && ret <= ret' && ret1 <= ret' && seen <= seen' && edges[i] in seen'
    requires forall k :: 0 <= k < i ==> EdgeDone(value, from, to, seen, ret, node, edges[k])
    requires EdgeDone(value, from, to, {edges[i]}, ret1, node, edges[i])
    ensures forall k :: 0 <= k < i + 1 ==> EdgeDone(value, from, to, seen', ret', node, edges[k])
  {
    hide EdgeDone;
    forall k | 0 <= k < i + 1 ensures EdgeDone(value, from, to, seen', ret', node, edges[k]) {
      if k < i {
        EdgeStaysDone(value, from, to, seen, ret, seen', ret', node, edges[k]);
      } else {
        EdgeStaysDone(value, from, to, {edges[i]}, ret1, seen', ret', node, edges[i]);
      }
    }
  }

  lemma EdgeNow<T, V>(value: T -> V, from: T, to: V, ret: seq<seq<T>>, path: seq<T>, node: T, dst: T)
    requires EndsWithEdge(from, path, node, dst) && (value(dst) == to ==> path in ret)
    ensures EdgeDone(value, from, to, {dst}, ret, node, dst)
  {
    hide EndsWithEdge;
  }

  lemma IsEdge<T>(out: map<T, seq<T>>, node: T, edges: seq<T>, i: nat)
    requires edges == (if node in out then out[node] else []) && i < |edges|
    ensures Edge(Forwards(out), node, edges[i])
  {
  }

  lemma NothingNew<T(!new), V>(out: map<T, seq<T>>, value: T -> V, from: T, to: V, seen: set<T>, ret: seq<seq<T>>)
    ensures AllExplored(out, value, from, to, seen, seen, ret)
  {
  }

  /** A node all of whose edges are done has been explored. */
  lemma NodeExplored<T(!new), V>(out: map<T, seq<T>>, value: T -> V, from: T, to: V, seen0: set<T>, seen: set<T>,
                                 ret: seq<seq<T>>, node: T, edges: seq<T>)
    requires edges == if node in out then out[node] else []
    requires forall k :: 0 <= k < |edges| ==> EdgeDone(value, from, to, seen, ret, node, edges[k])
    requires AllExplored(out, value, from, to, seen0 + {node}, seen, ret)
    ensures AllExplored(out, value, from, to, seen0, seen, ret)
  {
    hide EdgeDone;
    assert Explored(out, value, from, to, seen, ret, node);
  }

  /** The collections the recursive path search updates through pointers. */
  class PathSearch<T(==,!new), V(==)> {
    const out: map<T, seq<T>>
    const value: T -> V
    const from: T
    const to: V
    var path: seq<T>
    var visited: seq<T>
    var ret: seq<seq<T>>

    constructor (out: map<T, seq<T>>, value: T -> V, from: T, to: V)
      ensures this.out == out && this.value == value && this.from == from && this.to == to
      ensures path == [] && visited == [] && ret == []
    {
      this.out, this.value, this.from, this.to := out, value, from, to;
      path, visited, ret := [], [], [];
    }

    ghost function Seen(): set<T>
      reads this
    {
      set x | x in visited
    }

    method ConcreteGetPathFromTo(node: T) returns (found: bool)
      requires IsPath(Forwards(out), [from] + path) && ([from] + path)[|path|] == node
      requires forall p :: p in ret ==> ChainTo(out, value, from, to, p)
      modifies this
      ensures path == old(path) && old(ret) <= ret && Seen() >= old(Seen()) + {node}
      ensures forall p :: p in ret ==> ChainTo(out, value, from, to, p)
      ensures AllExplored(out, value, from, to, old(Seen()), Seen(), ret)
      ensures found <==> node !in old(visited) && ret != []
      decreases Universe(Forwards(out)) + {from, node} - Seen()
    {
      hide Forwards, Edge, IsPath, ChainTo, EndsWithEdge, EdgeDone, AllExplored, Universe;
      if node in visited {
        NothingNew(out, value, from, to, Seen(), ret);
        return false;
      }
      ghost var path0, seen0, ret0 := path, Seen(), ret;
      visited := visited + [node];
      var edges := if node in out then out[node] else [];
      assert Seen() == seen0 + {node};
      NothingNew(out, value, from, to, Seen(), ret);
      for i := 0 to |edges|
        invariant path == path0 && ret0 <= ret && Seen() >= seen0 + {node}
        invariant forall p :: p in ret ==> ChainTo(out, value, from, to, p)
        invariant AllExplored(out, value, from, to, seen0 + {node}, Seen(), ret)
        invariant forall k :: 0 <= k < i ==> EdgeDone(value, from, to, Seen(), ret, node, edges[k])
      {
        var dst := edges[i];
        ghost var ret1, seen1 := ret, Seen();
        IsEdge(out, node, edges, i);
        PushEdge(out, value, from, to, path0, node, dst);
        path := path + [dst];
        if value(dst) == to {
          ret := ret + [path];
          assert ret[|ret| - 1] == path;
        }
        ghost var ret2 := ret;
        EdgeNow(value, from, to, ret2, path, node, dst);
        assert Smaller(node, dst, seen0, Seen());
        var _ := ConcreteGetPathFromTo(dst);
        path := path[..|path| - 1];
        assert ret1 <= ret2 <= ret;
        ExtendExplored(out, value, from, to, seen0 + {node}, seen1, ret1, Seen(), ret, ret2);
        EdgesStayDone(value, from, to, seen1, ret1, ret2, Seen(), ret, node, edges, i);
      }
      NodeExplored(out, value, from, to, seen0, Seen(), ret, node, edges);
      return ret != [];
    }

    /** The measure of the recursion: fewer nodes are left to be seen. */
    ghost predicate Smaller(node: T, dst: T, seen0: set<T>, seen: set<T>)
      requires Edge(Forwards(out), node, dst)
      requires node !in seen0 && seen >= seen0 + {node}
      ensures Smaller(node, dst, seen0, seen)
    {
      assert node in Universe(Forwards(out)) && dst in Universe(Forwards(out));
      Universe(Forwards(out)) + {from, dst} - seen < Universe(Forwards(out)) + {from, node} - seen0
    }
  }

  /** Every recorded path is a real chain to the value; every edge into the value whose source can be reached
      is the last edge of a recorded path. */
  method GetPathFromTo<T(==,!new), V(==)>(out: map<T, seq<T>>, value: T -> V, from: T, to: V)
    returns (paths: seq<seq<T>>)
    ensures forall p :: p in paths ==> ChainTo(out, value, from, to, p)
    ensures forall v, w :: Reaches(Forwards(out), from, v) && Edge(Forwards(out), v, w) && value(w) == to ==>
                           exists p :: p in paths && EndsWithEdge(from, p, v, w)
  {
    var search := new PathSearch(out, value, from, to);
    var _ := search.ConcreteGetPathFromTo(from);
    paths := search.ret;
    ghost var g := Forwards(out);
    forall v, w | Reaches(g, from, v) && Edge(g, v, w) && value(w) == to
      ensures exists p :: p in paths && EndsWithEdge(from, p, v, w)
    {
      forall a, b | a in search.Seen() && Edge(g, a, b) ensures b in search.Seen() {
        assert Explored(out, value, from, to, search.Seen(), paths, a);
      }
      ClosedHoldsReachable(g, search.Seen(), from, v);
      assert Explored(out, value, from, to, search.Seen(), paths, v);
    }
  }
}

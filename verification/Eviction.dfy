/** Removing the uninteresting nodes of a flow graph in place. */
module Eviction {
  import opened Reachability
  import opened FlowGraph

  /** The edges after one eviction, with or without a self-loop on the evicted node. */
  ghost predicate BridgedEdge<T>(g: Adjacency<T>, v: T, a: T, b: T) {
    (Edge(g, a, b) && a != v && b != v) || (Edge(g, a, v) && Edge(g, v, b))
  }

  /** Connects every predecessor of a node to every successor and removes the node.
      A self-loop makes the node its own predecessor, so the new edges bring it back. */
  method EvictNode<T(==,!new)>(g: Graph<T>, current: T)
    modifies g
    ensures forall a, b :: Edge(g.nodes, a, b) <==> BridgedEdge(old(g.nodes), current, a, b)
    ensures current in g.nodes <==> Edge(old(g.nodes), current, current)
    ensures g.nodes.Keys - {current} == old(g.nodes).Keys - {current}
  {
    var incoming := g.GetIncomingNodes(current);
    var outgoing := g.GetOutgoingNodes(current);
    g.RemoveNode(current);
    ghost var rest := g.nodes;
    for i := 0 to |incoming|
      invariant forall a, b :: Edge(g.nodes, a, b) <==> Edge(rest, a, b) || (a in incoming[..i] && b in outgoing)
      invariant forall a :: a in g.nodes <==> a in rest || (a in incoming[..i] && outgoing != [])
    {
      for j := 0 to |outgoing|
        invariant forall a, b :: Edge(g.nodes, a, b) <==>
                                 Edge(rest, a, b) || (a in incoming[..i] && b in outgoing) ||
                                 (a == incoming[i] && b in outgoing[..j])
        invariant forall a :: a in g.nodes <==>
                              a in rest || (a in incoming[..i] && outgoing != []) || (a == incoming[i] && j > 0)
      {
        g.AddEdge(incoming[i], outgoing[j]);
      }
      assert outgoing[..|outgoing|] == outgoing;
    }
    assert incoming[..|incoming|] == incoming;
    if Edge(old(g.nodes), current, current) {
      assert current in incoming && current in outgoing;
    }
  }

  /** A path between two other nodes survives the eviction of v. */
  lemma {:induction false} BridgePath<T(!new)>(g: Adjacency<T>, h: Adjacency<T>, v: T, p: seq<T>)
    requires forall a, b :: Edge(h, a, b) <==> BridgedEdge(g, v, a, b)
    requires IsPath(g, p) && p[0] != v && p[|p| - 1] != v
    ensures Reaches(h, p[0], p[|p| - 1])
    decreases |p|
  {
    ReachesSelf(h, p[0]);
    if |p| > 1 {
      assert Edge(g, p[0], p[1]);
      if p[1] != v {
        BridgePath(g, h, v, p[1..]);
        ReachesStep(h, p[0], p[0], p[1]);
        ReachesTrans(h, p[0], p[1], p[|p| - 1]);
      } else {
        assert Edge(g, p[1], p[2]);
        if p[2] == v {
          var q := [p[0]] + p[2..];
          assert IsPath(g, q) by {
            forall i | 0 <= i < |q| - 1 ensures Edge(g, q[i], q[i + 1]) {
              if i > 0 { assert Edge(g, p[i + 1], p[i + 2]); }
            }
          }
          BridgePath(g, h, v, q);
        } else {
          BridgePath(g, h, v, p[2..]);
          ReachesStep(h, p[0], p[0], p[2]);
          ReachesTrans(h, p[0], p[2], p[|p| - 1]);
        }
      }
    }
  }

  /** Evicting v changes no reachability between other nodes. */
  lemma EvictionKeepsReachability<T(!new)>(g: Adjacency<T>, h: Adjacency<T>, v: T, a: T, b: T)
    requires forall x, y :: Edge(h, x, y) <==> BridgedEdge(g, v, x, y)
    requires a != v && b != v
    ensures Reaches(h, a, b) <==> Reaches(g, a, b)
  {
    if Reaches(g, a, b) {
      var p :| PathBetween(g, a, b, p);
      BridgePath(g, h, v, p);
    }
    if Reaches(h, a, b) {
      forall x, y | Edge(h, x, y) ensures Reaches(g, x, y) {
        ReachesSelf(g, x);
        if Edge(g, x, y) {
          ReachesStep(g, x, x, y);
        } else {
          ReachesStep(g, x, x, v);
          ReachesStep(g, x, v, y);
        }
      }
      MonotoneReaches(h, g, a, b);
    }
  }

  /** Reachability between the nodes that are never evicted is the same in both graphs. */
  ghost predicate SameAnswers<T(!new)>(g: Adjacency<T>, h: Adjacency<T>, evict: T -> bool) {
    forall a, b :: !evict(a) && !evict(b) ==> (Reaches(g, a, b) <==> Reaches(h, a, b))
  }

  /** What is known of the original edges while the traversal changes the graph: the successors of a processed
      node have been seen, and those of the others have been seen or are still its successors. */
  ghost predicate Covered<T(!new)>(g0: Adjacency<T>, g: Adjacency<T>, processed: set<T>, visited: set<T>) {
    && (forall u, w :: u in processed && Edge(g0, u, w) ==> w in visited)
    && (forall u, w :: u !in processed && Edge(g0, u, w) ==> w in visited || Edge(g, u, w))
  }

  /** An evictable node that has been processed and is still there carries a self-loop. */
  ghost predicate OnlyLoopsStay<T>(g: Adjacency<T>, processed: set<T>, evict: T -> bool) {
    forall v :: v in processed && evict(v) && v in Universe(g) ==> Edge(g, v, v)
  }

  lemma UniverseOfBridged<T(!new)>(g: Adjacency<T>, h: Adjacency<T>, v: T)
    requires forall a, b :: Edge(h, a, b) <==> BridgedEdge(g, v, a, b)
    requires v in h <==> Edge(g, v, v)
    requires h.Keys - {v} == g.Keys - {v}
    ensures Universe(h) <= Universe(g)
    ensures v in Universe(h) ==> Edge(h, v, v)
    ensures forall w :: w != v && Edge(g, w, w) ==> Edge(h, w, w)
  {
    forall x | x in Universe(h) ensures x in Universe(g) && (x == v ==> Edge(h, v, v)) {
      if x in h {
        if x == v {
          assert Edge(g, v, v);
        } else {
          assert x in h.Keys - {v};
        }
      } else {
        var a :| a in h && x in h[a];
        assert Edge(h, a, x);
        assert Edge(g, a, x) || Edge(g, v, x);
      }
    }
  }

  /** The effect of processing an evictable node on the facts the traversal keeps. */
  lemma EvictionKeepsCover<T(!new)>(g0: Adjacency<T>, g: Adjacency<T>, h: Adjacency<T>, v: T,
                                    processed: set<T>, visited: set<T>, evict: T -> bool)
    requires forall a, b :: Edge(h, a, b) <==> BridgedEdge(g, v, a, b)
    requires v in h <==> Edge(g, v, v)
    requires h.Keys - {v} == g.Keys - {v}
    requires evict(v) && v in visited && v in processed
    requires SameAnswers(g0, g, evict) && Covered(g0, g, processed, visited)
    requires OnlyLoopsStay(g, processed - {v}, evict)
    ensures SameAnswers(g0, h, evict) && Covered(g0, h, processed, visited)
    ensures OnlyLoopsStay(h, processed, evict) && Universe(h) <= Universe(g)
  {
    UniverseOfBridged(g, h, v);
    forall a, b | !evict(a) && !evict(b) ensures Reaches(g0, a, b) <==> Reaches(h, a, b) {
      EvictionKeepsReachability(g, h, v, a, b);
    }
  }

  /** Pushes the successors that have not been seen. */
  method PushSuccessors<T(==,!new)>(g: Graph<T>, current: T, visited0: set<T>, worklist0: seq<T>)
    returns (visited: set<T>, worklist: seq<T>)
    requires forall x :: x in worklist0 ==> x in visited0
    requires forall i, j :: 0 <= i < j < |worklist0| ==> worklist0[i] != worklist0[j]
    ensures forall x :: x in visited <==> x in visited0 || Edge(g.nodes, current, x)
    ensures forall x :: x in worklist <==> x in worklist0 || (x in visited && x !in visited0)
    ensures forall i, j :: 0 <= i < j < |worklist| ==> worklist[i] != worklist[j]
  {
    visited, worklist := visited0, worklist0;
    var successors := g.GetOutgoingNodes(current);
    for i := 0 to |successors|
      invariant forall x :: x in visited <==> x in visited0 || x in successors[..i]
      invariant forall x :: x in worklist <==> x in worklist0 || (x in visited && x !in visited0)
      invariant forall i, j :: 0 <= i < j < |worklist| ==> worklist[i] != worklist[j]
    {
      var succ := successors[i];
      if succ !in visited {
        visited := visited + {succ};
        worklist := worklist + [succ];
      }
    }
    assert successors[..|successors|] == successors;
  }

  /** Breadth-first over the graph while it is being thinned out. Everything reachable from the start in the
      original graph is processed, and an evictable node outlives that only through its self-loop. */
  method TraverseAndRemoveNodes<T(==,!new)>(g: Graph<T>, start: T, evict: T -> bool)
    modifies g
    ensures SameAnswers(old(g.nodes), g.nodes, evict)
    ensures forall v :: evict(v) && Reaches(old(g.nodes), start, v) ==>
                        (v in Universe(g.nodes) <==> Edge(g.nodes, v, v))
    ensures forall v :: !evict(v) ==> (v in old(g.nodes) <==> v in g.nodes)
  {
    ghost var g0 := g.nodes;
    ghost var all := Universe(g0) + {start};
    ghost var processed: set<T> := {};
    var visited: set<T> := {};
    var worklist := [start];
    while worklist != []
      invariant processed <= visited <= all && Universe(g.nodes) <= all
      invariant forall x :: x in visited ==> x in processed || x in worklist
      invariant forall x :: x in worklist ==> x in all && x !in processed
      invariant forall i, j :: 0 <= i < j < |worklist| ==> worklist[i] != worklist[j]
      invariant if processed == {} then worklist == [start] && visited == {}
                else start in processed && forall x :: x in worklist ==> x in visited
      invariant SameAnswers(g0, g.nodes, evict) && Covered(g0, g.nodes, processed, visited)
      invariant OnlyLoopsStay(g.nodes, processed, evict)
      invariant forall v :: !evict(v) ==> (v in g0 <==> v in g.nodes)
      decreases all - processed
    {
      var current := worklist[0];
      assert current in worklist;
      ghost var worklist0 := worklist;
      worklist := worklist[1..];
      assert worklist0 == [current] + worklist;
      visited := visited + {current};
      visited, worklist := PushSuccessors(g, current, visited, worklist);
      assert forall x :: Edge(g.nodes, current, x) ==> x in Universe(g.nodes);
      ghost var before := g.nodes;
      processed := processed + {current};
      assert Covered(g0, g.nodes, processed, visited);
      if evict(current) {
        EvictNode(g, current);
        EvictionKeepsCover(g0, before, g.nodes, current, processed, visited, evict);
        forall v | !evict(v) ensures v in before <==> v in g.nodes {
          assert v in g.nodes.Keys - {current} <==> v in before.Keys - {current};
        }
      }
    }
    assert Closed(g0, visited);
    forall v | evict(v) && Reaches(g0, start, v) ensures v in Universe(g.nodes) <==> Edge(g.nodes, v, v) {
      ClosedHoldsReachable(g0, visited, start, v);
    }
  }
}

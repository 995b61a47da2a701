/** The adjacency-list graph of the use-after-free analysis. */
module FlowGraph {
  import opened Reachability

  /** The elements of a set in some order, each once. */
  method Enumerate<T(==)>(s: set<T>) returns (elems: seq<T>)
    ensures forall x :: x in elems <==> x in s
    ensures forall i, j :: 0 <= i < j < |elems| ==> elems[i] != elems[j]
  {
    elems := [];
    var rest := s;
    while rest != {}
      invariant rest <= s
      invariant forall x :: x in elems <==> x in s && x !in rest
      invariant forall i, j :: 0 <= i < j < |elems| ==> elems[i] != elems[j]
    {
      var x :| x in rest;
      elems := elems + [x];
      rest := rest - {x};
    }
  }

  /** What `removeNode` leaves of an adjacency map. */
  ghost function WithoutNode<T>(g: Adjacency<T>, v: T): Adjacency<T> {
    map a | a in g && a != v :: g[a] - {v}
  }

  ghost function WithEdge<T>(g: Adjacency<T>, a: T, b: T): Adjacency<T> {
    g[a := (if a in g then g[a] else {}) + {b}]
  }

  class Graph<T(==,!new)> {
    var nodes: Adjacency<T>

    constructor ()
      ensures nodes == map[]
    {
      nodes := map[];
    }

    method AddNode(value: T)
      modifies this
      ensures nodes == if value in old(nodes) then old(nodes) else old(nodes)[value := {}]
    {
      if value !in nodes {
        nodes := nodes[value := {}];
      }
    }

    /** Indexing creates the source node when it is missing. */
    method AddEdge(from: T, to: T)
      modifies this
      ensures nodes == WithEdge(old(nodes), from, to)
    {
      if from !in nodes {
        nodes := nodes[from := {}];
      }
      nodes := nodes[from := nodes[from] + {to}];
    }

    method RemoveNode(value: T)
      modifies this
      ensures nodes == WithoutNode(old(nodes), value)
    {
      var keys := Enumerate(nodes.Keys);
      ghost var before := nodes;
      for i := 0 to |keys|
        invariant nodes.Keys == before.Keys
        invariant forall k :: 0 <= k < |keys| ==>
                                nodes[keys[k]] == if k < i then before[keys[k]] - {value} else before[keys[k]]
      {
        nodes := nodes[keys[i] := nodes[keys[i]] - {value}];
      }
      forall a | a in before && a != value ensures nodes[a] == before[a] - {value} {
        assert a in keys;
      }
      nodes := nodes - {value};
      assert nodes == WithoutNode(before, value);
    }

    method RemoveEdge(from: T, to: T)
      modifies this
      ensures nodes.Keys == old(nodes).Keys
      ensures forall a, b :: Edge(nodes, a, b) <==> Edge(old(nodes), a, b) && !(a == from && b == to)
    {
      if from in nodes {
        nodes := nodes[from := nodes[from] - {to}];
      }
    }

    method GetIncomingNodes(node: T) returns (incoming: seq<T>)
      ensures forall a :: a in incoming <==> Edge(nodes, a, node)
    {
      incoming := [];
      var keys := Enumerate(nodes.Keys);
      for i := 0 to |keys|
        invariant forall a :: a in incoming <==> a in keys[..i] && node in nodes[a]
      {
        if node in nodes[keys[i]] {
          incoming := incoming + [keys[i]];
        }
      }
      assert keys[..|keys|] == keys;
    }

    method GetOutgoingNodes(node: T) returns (outgoing: seq<T>)
      ensures forall b :: b in outgoing <==> Edge(nodes, node, b)
    {
      if node in nodes {
        outgoing := Enumerate(nodes[node]);
      } else {
        outgoing := [];
      }
    }

    /** A visited node that still sits on the stack has each successor visited or above it.
        Popping it again therefore pushes nothing, which is why the search ends. */
    ghost predicate SuccessorsVisitedOrAbove(stack: seq<T>, visited: set<T>)
      reads this
    {
      forall i, w :: 0 <= i < |stack| && stack[i] in visited && Edge(nodes, stack[i], w) ==>
                       w in visited || w in stack[i + 1..]
    }

    /** Depth-first search with an explicit stack; a node can be on the stack several times. */
    method HasPath(node1: T, node2: T) returns (found: bool)
      ensures found <==> Reaches(nodes, node1, node2)
    {
      var visited: set<T> := {};
      var stack := [node1];
      ghost var all := Universe(nodes) + {node1};
      ReachesSelf(nodes, node1);
      while stack != []
        invariant visited <= all && forall x :: x in stack ==> x in all
        invariant node1 in visited || node1 in stack
        invariant node2 !in visited
        invariant forall x :: x in stack || x in visited ==> Reaches(nodes, node1, x)
        invariant forall v, w :: v in visited && Edge(nodes, v, w) ==> w in visited || w in stack
        invariant SuccessorsVisitedOrAbove(stack, visited)
        decreases all - visited, |stack|
      {
        var current := stack[|stack| - 1];
        ghost var stack0, visited0 := stack, visited;
        stack := stack[..|stack| - 1];
        assert stack0 == stack + [current];
        if current == node2 {
          return true;
        }
        visited := visited + {current};
        ghost var base, pushed := stack, [];
        var neighbours := GetOutgoingNodes(current);
        for i := 0 to |neighbours|
          invariant stack == base + pushed
          invariant forall x :: x in pushed <==> x in neighbours[..i] && x !in visited
          invariant current in visited0 ==> pushed == []
        {
          assert Edge(nodes, current, neighbours[i]);
          assert current in visited0 ==> neighbours[i] in visited by {
            assert stack0[|stack0| - 1] == current && stack0[|stack0|..] == [];
          }
          if neighbours[i] !in visited {
            stack := stack + [neighbours[i]];
            pushed := pushed + [neighbours[i]];
          }
        }
        assert neighbours[..|neighbours|] == neighbours;
        forall x | x in stack ensures x in all && Reaches(nodes, node1, x) {
          if x in pushed {
            ReachesStep(nodes, node1, current, x);
          }
        }
        PushKeepsOrder(base, pushed, current, visited0);
        if current in visited0 {
          assert visited == visited0;
        } else {
          assert current in all - visited0 && current !in all - visited;
        }
      }
      if Reaches(nodes, node1, node2) {
        ClosedHoldsReachable(nodes, visited, node1, node2);
        assert false;
      }
      return false;
    }

    lemma PushKeepsOrder(base: seq<T>, pushed: seq<T>, current: T, visited: set<T>)
      requires SuccessorsVisitedOrAbove(base + [current], visited)
      requires forall w :: Edge(nodes, current, w) ==> w in visited + {current} || w in pushed
      requires forall x :: x in pushed ==> x !in visited + {current}
      ensures SuccessorsVisitedOrAbove(base + pushed, visited + {current})
    {
      var below, stack := base + [current], base + pushed;
      forall i, w | 0 <= i < |stack| && stack[i] in visited + {current} && Edge(nodes, stack[i], w)
        ensures w in visited + {current} || w in stack[i + 1..]
      {
        assert i < |base| by {
          assert forall k :: 0 <= k < |pushed| ==> stack[|base| + k] == pushed[k];
        }
        assert stack[i + 1..] == base[i + 1..] + pushed;
        assert below[i + 1..] == base[i + 1..] + [current];
        assert below[i] == stack[i];
      }
    }
  }
}

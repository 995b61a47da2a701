/** Carving and querying the allocation/free flow graph, and node eviction. */
module UafFlow {
  import opened Reachability
  import opened FlowGraph

  /** The interprocedural control-flow graph: the targets of each node's out-edges. */
  type Icfg<T> = map<T, seq<T>>

  ghost function Flow<T>(icfg: Icfg<T>): Adjacency<T> {
    map a | a in icfg :: set b | b in icfg[a]
  }

  /** A call to an allocation or free function with the definitions its pointer can have. */
  datatype MemOp<T, D> = MemOp(node: T, defs: set<D>)

  /** The edges that avoid the forbidden nodes. */
  lemma ThinEdges<T>(icfg: Icfg<T>, forbidden: set<T>, v: T, successors: seq<T>)
    requires successors == if v in icfg then icfg[v] else []
    ensures forall w :: Edge(Avoiding(Flow(icfg), forbidden), v, w) <==> w in successors && w !in forbidden
    ensures forall w :: Edge(Avoiding(Flow(icfg), forbidden), v, w) ==> w in Universe(Avoiding(Flow(icfg), forbidden))
  {
  }

  /** Breadth-first search that never enters a forbidden node. */
  method ExistPathWithoutForbiddenNodes<T(==,!new)>(icfg: Icfg<T>, nodeA: T, nodeB: T, forbidden: set<T>)
    returns (found: bool)
    ensures found <==> Reaches(Avoiding(Flow(icfg), forbidden), nodeA, nodeB)
  {
    hide Edge, Reaches, Avoiding, Flow, Universe;
    ghost var g := Avoiding(Flow(icfg), forbidden);
    ReachesSelf(g, nodeA);
    if nodeA == nodeB {
      return true;
    }
    var visited: seq<T> := [];
    var worklist := [nodeA];
    ghost var all := Universe(g) + {nodeA};
    ghost var done: set<T> := {};
    while worklist != []
      invariant forall x :: x in visited <==> x in done
      invariant done <= all && forall x :: x in worklist ==> x in all
      invariant nodeA in done || nodeA in worklist
      invariant nodeB !in done && nodeB !in worklist
      invariant forall x :: x in worklist || x in done ==> Reaches(g, nodeA, x)
      invariant forall v, w :: v in done && Edge(g, v, w) ==> w in done || w in worklist
      decreases all - done, |worklist|
    {
      var current := worklist[0];
      worklist := worklist[1..];
      if current !in visited {
        visited := visited + [current];
        done := done + {current};
        var successors := if current in icfg then icfg[current] else [];
        ThinEdges(icfg, forbidden, current, successors);
        for i := 0 to |successors|
          invariant forall x :: x in worklist ==> x in all && Reaches(g, nodeA, x)
          invariant nodeB !in worklist && nodeA in done + set x | x in worklist
          invariant forall v, w :: v in done && v != current && Edge(g, v, w) ==> w in done || w in worklist
          invariant forall k :: 0 <= k < i ==>
                                  successors[k] in forbidden || successors[k] in done || successors[k] in worklist
        {
          var succ := successors[i];
          if succ !in forbidden && succ !in visited {
            ReachesStep(g, nodeA, current, succ);
            if succ == nodeB {
              return true;
            }
            worklist := worklist + [succ];
          }
        }
      }
    }
    if Reaches(g, nodeA, nodeB) {
      ClosedHoldsReachable(g, done, nodeA, nodeB);
      assert false;
    }
    return false;
  }

  ghost function SeqSet<T>(s: seq<T>): set<T> {
    set x | x in s
  }

  /** The edges `CreateAllocFreeFlowGraph` puts between selected nodes: control can get from a to b
      without passing through any other selected node. */
  ghost predicate CarvedEdge<T(!new)>(icfg: Icfg<T>, selected: set<T>, a: T, b: T) {
    a in selected && b in selected && Reaches(Avoiding(Flow(icfg), selected - {a, b}), a, b)
  }

  /** The node of each operation, followed by the nodes where its definitions are made. */
  method SelectedNodes<T(==), D(==)>(ops: seq<MemOp<T, D>>, icfgOf: map<D, T>) returns (nodes: seq<T>)
    ensures forall x :: x in nodes <==>
                        exists op :: op in ops &&
                                     (x == op.node || exists d :: d in op.defs && d in icfgOf && x == icfgOf[d])
  {
    nodes := [];
    for i := 0 to |ops|
      invariant forall x :: x in nodes <==>
                            exists k :: 0 <= k < i && (x == ops[k].node ||
                                                       exists d :: d in ops[k].defs && d in icfgOf && x == icfgOf[d])
    {
      nodes := nodes + [ops[i].node];
      var defs := Enumerate(ops[i].defs);
      for j := 0 to |defs|
        invariant forall x :: x in nodes <==>
                              x == ops[i].node ||
                              (exists k :: 0 <= k < j && defs[k] in icfgOf && x == icfgOf[defs[k]]) ||
                              exists k :: 0 <= k < i && (x == ops[k].node ||
                                                         exists d :: d in ops[k].defs && d in icfgOf && x == icfgOf[d])
      {
        if defs[j] in icfgOf {
          nodes := nodes + [icfgOf[defs[j]]];
        }
      }
    }
  }

  method CreateAllocFreeFlowGraph<T(==,!new)>(g: Graph<T>, icfg: Icfg<T>, nodes: seq<T>)
    modifies g
    ensures forall a, b :: Edge(g.nodes, a, b) <==>
                           Edge(old(g.nodes), a, b) || CarvedEdge(icfg, SeqSet(nodes), a, b)
  {
    ghost var sel := SeqSet(nodes);
    for i := 0 to |nodes|
      invariant forall a, b :: Edge(g.nodes, a, b) <==>
                               Edge(old(g.nodes), a, b) || (a in nodes[..i] && CarvedEdge(icfg, sel, a, b))
    {
      var nodeA := nodes[i];
      for j := 0 to |nodes|
        invariant forall a, b :: Edge(g.nodes, a, b) <==>
                                 Edge(old(g.nodes), a, b) || (a in nodes[..i] && CarvedEdge(icfg, sel, a, b)) ||
                                 (a == nodeA && b in nodes[..j] && CarvedEdge(icfg, sel, a, b))
      {
        var nodeB := nodes[j];
        var forbidden := set x | x in nodes;
        forbidden := forbidden - {nodeB};
        forbidden := forbidden - {nodeA};
        assert forbidden == sel - {nodeA, nodeB};
        var connected := ExistPathWithoutForbiddenNodes(icfg, nodeA, nodeB, forbidden);
        if connected {
          g.AddNode(nodeA);
          g.AddNode(nodeB);
          g.AddEdge(nodeA, nodeB);
        }
      }
    }
    assert nodes[..|nodes|] == nodes;
  }

  /** Splitting a control-flow path at the selected nodes on it gives a path in the carved graph. */
  lemma {:induction false} CarvePath<T(!new)>(icfg: Icfg<T>, selected: set<T>, c: Adjacency<T>, p: seq<T>)
    requires forall a, b :: Edge(c, a, b) <==> CarvedEdge(icfg, selected, a, b)
    requires IsPath(Flow(icfg), p) && p[0] in selected && p[|p| - 1] in selected
    ensures Reaches(c, p[0], p[|p| - 1])
    decreases |p|
  {
    ReachesSelf(c, p[0]);
    if |p| > 1 {
      var j := 1;
      while p[j] !in selected
        invariant 1 <= j < |p|
        invariant forall k :: 1 <= k < j ==> p[k] !in selected
        decreases |p| - j
      {
        j := j + 1;
      }
      var segment := p[..j + 1];
      assert PathBetween(Avoiding(Flow(icfg), selected - {p[0], p[j]}), p[0], p[j], segment) by {
        forall k | 0 <= k < j ensures Edge(Avoiding(Flow(icfg), selected - {p[0], p[j]}), segment[k], segment[k + 1]) {
          assert Edge(Flow(icfg), p[k], p[k + 1]);
        }
      }
      assert Edge(c, p[0], p[j]);
      CarvePath(icfg, selected, c, p[j..]);
      ReachesStep(c, p[0], p[0], p[j]);
      ReachesTrans(c, p[0], p[j], p[|p| - 1]);
    }
  }

  /** The small carved graph answers reachability between selected nodes as the control-flow graph does. */
  lemma CarvedReachability<T(!new)>(icfg: Icfg<T>, selected: set<T>, c: Adjacency<T>, a: T, b: T)
    requires forall x, y :: Edge(c, x, y) <==> CarvedEdge(icfg, selected, x, y)
    requires a in selected && b in selected
    ensures Reaches(c, a, b) <==> Reaches(Flow(icfg), a, b)
  {
    if Reaches(Flow(icfg), a, b) {
      var p :| PathBetween(Flow(icfg), a, b, p);
      CarvePath(icfg, selected, c, p);
    }
    if Reaches(c, a, b) {
      forall x, y | Edge(c, x, y) ensures Reaches(Flow(icfg), x, y) {
        var thin := Avoiding(Flow(icfg), selected - {x, y});
        forall u, v | Edge(thin, u, v) ensures Reaches(Flow(icfg), u, v) {
          ReachesSelf(Flow(icfg), u);
          ReachesStep(Flow(icfg), u, u, v);
        }
        MonotoneReaches(thin, Flow(icfg), x, y);
      }
      MonotoneReaches(c, Flow(icfg), a, b);
    }
  }

  /** A malloc-free pair over a common definition, with the allocations that can follow the free. */
  class MFPath<T(==), D(==)> {
    const free: MemOp<T, D>
    const alloc: MemOp<T, D>
    const pathDefs: set<D>
    var lastAlloc: set<MemOp<T, D>>

    constructor (free: MemOp<T, D>, alloc: MemOp<T, D>)
      ensures this.free == free && this.alloc == alloc && lastAlloc == {}
      ensures pathDefs == free.defs + alloc.defs
    {
      this.free := free;
      this.alloc := alloc;
      pathDefs := free.defs + alloc.defs;
      lastAlloc := {};
    }

    method AddLastAlloc(op: MemOp<T, D>)
      modifies this
      ensures lastAlloc == old(lastAlloc) + {op}
    {
      lastAlloc := lastAlloc + {op};
    }
  }

  ghost predicate IsMatch<T, D>(f: MemOp<T, D>, a: MemOp<T, D>) {
    exists d :: d in f.defs && d in a.defs
  }

  /** The records for one pair: one for each common definition. */
  ghost function PairRecords<T, D>(f: MemOp<T, D>, a: MemOp<T, D>): seq<(MemOp<T, D>, MemOp<T, D>)> {
    seq(|f.defs * a.defs|, _ => (f, a))
  }

  ghost function RowRecords<T, D>(f: MemOp<T, D>, allocs: seq<MemOp<T, D>>): seq<(MemOp<T, D>, MemOp<T, D>)> {
    if allocs == [] then []
    else RowRecords(f, allocs[..|allocs| - 1]) + PairRecords(f, allocs[|allocs| - 1])
  }

  /** The records for two lists, in the order in which they are made. */
  ghost function Records<T, D>(frees: seq<MemOp<T, D>>, allocs: seq<MemOp<T, D>>): seq<(MemOp<T, D>, MemOp<T, D>)> {
    if frees == [] then []
    else Records(frees[..|frees| - 1], allocs) + RowRecords(frees[|frees| - 1], allocs)
  }

  /** A pair has a record exactly when it has a common definition. */
  lemma RecordsKnown<T, D>(frees: seq<MemOp<T, D>>, allocs: seq<MemOp<T, D>>, f: MemOp<T, D>, a: MemOp<T, D>)
    ensures (f, a) in Records(frees, allocs) <==> f in frees && a in allocs && IsMatch(f, a)
  {
    if frees != [] {
      var n := |frees| - 1;
      assert frees == frees[..n] + [frees[n]];
      RecordsKnown(frees[..n], allocs, f, a);
      RowKnown(frees[n], allocs, f, a);
    }
  }

  lemma RowKnown<T, D>(g: MemOp<T, D>, allocs: seq<MemOp<T, D>>, f: MemOp<T, D>, a: MemOp<T, D>)
    ensures (f, a) in RowRecords(g, allocs) <==> f == g && a in allocs && IsMatch(f, a)
  {
    if allocs != [] {
      var n := |allocs| - 1;
      assert allocs == allocs[..n] + [allocs[n]];
      RowKnown(g, allocs[..n], f, a);
      var pair := PairRecords(g, allocs[n]);
      if IsMatch(g, allocs[n]) {
        var d :| d in g.defs && d in allocs[n].defs;
        assert d in g.defs * allocs[n].defs;
        assert pair[0] == (g, allocs[n]);
      } else {
        assert g.defs * allocs[n].defs == {};
      }
    }
  }

  /** The two operations of each record. */
  ghost function Ends<T, D>(flow: seq<MFPath<T, D>>): (r: seq<(MemOp<T, D>, MemOp<T, D>)>)
    ensures |r| == |flow|
  {
    seq(|flow|, i requires 0 <= i < |flow| => (flow[i].free, flow[i].alloc))
  }

  lemma EndsConcat<T, D>(x: seq<MFPath<T, D>>, y: seq<MFPath<T, D>>)
    ensures Ends(x + y) == Ends(x) + Ends(y)
  {
  }

  ghost predicate Unresolved<T, D>(flow: seq<MFPath<T, D>>)
    reads flow
  {
    forall p :: p in flow ==> p.lastAlloc == {}
  }

  ghost predicate AllOf<T, D>(paths: seq<MFPath<T, D>>, f: MemOp<T, D>, a: MemOp<T, D>)
    reads paths
  {
    forall i :: 0 <= i < |paths| ==> paths[i].free == f && paths[i].alloc == a && paths[i].lastAlloc == {}
  }

  /** The two inner loops of the matching: a record for each pair of equal definitions. */
  method MatchPair<T(==), D(==)>(f: MemOp<T, D>, a: MemOp<T, D>) returns (paths: seq<MFPath<T, D>>)
    ensures forall i :: 0 <= i < |paths| ==> fresh(paths[i])
    ensures AllOf(paths, f, a) && |paths| == |f.defs * a.defs|
  {
    hide Common;
    paths := [];
    var fdefs := Enumerate(f.defs);
    var adefs := Enumerate(a.defs);
    CommonBounds(f.defs, fdefs, a.defs);
    for i := 0 to |fdefs|
      invariant (forall k :: 0 <= k < |paths| ==> fresh(paths[k])) && AllOf(paths, f, a)
      invariant |paths| == |Common(fdefs[..i], a.defs)|
    {
      var more := MatchOne(f, a, fdefs[i], adefs);
      CommonNext(fdefs, i, a.defs);
      paths := paths + more;
    }
    assert fdefs[..|fdefs|] == fdefs;
  }

  ghost function Common<D>(ds: seq<D>, of: set<D>): set<D> {
    set d | d in ds && d in of
  }

  lemma CommonBounds<D>(defs: set<D>, ds: seq<D>, of: set<D>)
    requires forall d :: d in ds <==> d in defs
    ensures Common(ds, of) == defs * of && Common([], of) == {}
  {
  }

  lemma CommonNext<D>(ds: seq<D>, i: nat, of: set<D>)
    requires i < |ds| && forall k, j :: 0 <= k < j < |ds| ==> ds[k] != ds[j]
    ensures |Common(ds[..i + 1], of)| == |Common(ds[..i], of)| + if ds[i] in of then 1 else 0
  {
    assert ds[..i + 1] == ds[..i] + [ds[i]];
    assert Common(ds[..i + 1], of) == Common(ds[..i], of) + if ds[i] in of then {ds[i]} else {};
  }

  /** The innermost loop: a definition of the free is compared with all of the allocation. */
  method MatchOne<T(==), D(==)>(f: MemOp<T, D>, a: MemOp<T, D>, def: D, adefs: seq<D>)
    returns (paths: seq<MFPath<T, D>>)
    requires forall i, j :: 0 <= i < j < |adefs| ==> adefs[i] != adefs[j]
    ensures forall i :: 0 <= i < |paths| ==> fresh(paths[i])
    ensures AllOf(paths, f, a) && |paths| == if def in adefs then 1 else 0
  {
    paths := [];
    for j := 0 to |adefs|
      invariant (forall k :: 0 <= k < |paths| ==> fresh(paths[k])) && AllOf(paths, f, a)
      invariant |paths| == if def in adefs[..j] then 1 else 0
    {
      if def == adefs[j] {
        var path := new MFPath(f, a);
        paths := paths + [path];
      }
    }
  }

  lemma PairEnds<T, D>(paths: seq<MFPath<T, D>>, f: MemOp<T, D>, a: MemOp<T, D>)
    requires AllOf(paths, f, a) && |paths| == |f.defs * a.defs|
    ensures Ends(paths) == PairRecords(f, a) && Unresolved(paths)
  {
  }

  /** One record per free, allocation and common definition, in this order. */
  method InitMFFlow<T(==), D(==)>(allocList: seq<MemOp<T, D>>, freeList: seq<MemOp<T, D>>)
    returns (flow: seq<MFPath<T, D>>)
    ensures forall i :: 0 <= i < |flow| ==> fresh(flow[i])
    ensures Unresolved(flow) && Ends(flow) == Records(freeList, allocList)
  {
    hide PairRecords;
    flow := [];
    for i := 0 to |freeList|
      invariant (forall k :: 0 <= k < |flow| ==> fresh(flow[k])) && Unresolved(flow)
      invariant Ends(flow) == Records(freeList[..i], allocList)
    {
      ghost var before := flow;
      for j := 0 to |allocList|
        invariant (forall k :: 0 <= k < |flow| ==> fresh(flow[k])) && Unresolved(flow)
        invariant Ends(flow) == Ends(before) + RowRecords(freeList[i], allocList[..j])
      {
        var paths := MatchPair(freeList[i], allocList[j]);
        PairEnds(paths, freeList[i], allocList[j]);
        EndsConcat(flow, paths);
        assert allocList[..j + 1][..j] == allocList[..j];
        flow := flow + paths;
      }
      assert allocList[..|allocList|] == allocList;
      assert freeList[..i + 1][..i] == freeList[..i];
    }
    assert freeList[..|freeList|] == freeList;
  }

  /** The allocations that can run after the free at `node`. */
  ghost function Following<T(!new), D>(g: Adjacency<T>, node: T, allocList: seq<MemOp<T, D>>): set<MemOp<T, D>> {
    set a | a in allocList && Reaches(g, node, a.node)
  }

  method ResolveMFMFlow<T(==,!new), D(==)>(g: Graph<T>, flow: seq<MFPath<T, D>>, allocList: seq<MemOp<T, D>>)
    modifies flow
    ensures forall p :: p in flow ==>
                        p.lastAlloc == old(p.lastAlloc) + Following(g.nodes, p.free.node, allocList)
  {
    ghost var nodes := g.nodes;
    for i := 0 to |flow|
      invariant g.nodes == nodes
      invariant forall p :: p in flow ==>
                            p.lastAlloc == old(p.lastAlloc) +
                                           (if p in flow[..i] then Following(nodes, p.free.node, allocList) else {})
    {
      var path := flow[i];
      for j := 0 to |allocList|
        invariant g.nodes == nodes
        invariant forall p :: p in flow && p != path ==>
                              p.lastAlloc == old(p.lastAlloc) +
                                             (if p in flow[..i] then Following(nodes, p.free.node, allocList) else {})
        invariant path.lastAlloc == old(path.lastAlloc) + Following(nodes, path.free.node, allocList[..j]) +
                                    (if path in flow[..i] then Following(nodes, path.free.node, allocList) else {})
      {
        var follows := g.HasPath(path.free.node, allocList[j].node);
        if follows {
          path.AddLastAlloc(allocList[j]);
        }
        assert Following(nodes, path.free.node, allocList[..j + 1]) ==
               Following(nodes, path.free.node, allocList[..j]) + (if follows then {allocList[j]} else {});
      }
      assert allocList[..|allocList|] == allocList;
    }
  }

  /** The analysis from the operation lists on, as the program calls it: the matching gets the two lists in each other's
      place, so the records' frees are allocations, and what is recorded is what those allocations reach. */
  method AnalyseFlow<T(==,!new), D(==)>(icfg: Icfg<T>, icfgOf: map<D, T>,
                                        freeList: seq<MemOp<T, D>>, allocList: seq<MemOp<T, D>>)
    returns (flow: seq<MFPath<T, D>>)
    ensures Ends(flow) == Records(allocList, freeList)
    ensures forall p :: p in flow ==>
                        p.free in allocList && p.alloc in freeList && IsMatch(p.free, p.alloc) &&
                        p.lastAlloc == Following(Flow(icfg), p.free.node, allocList)
  {
    var g := new Graph<T>();
    var frees := SelectedNodes(freeList, icfgOf);
    var allocs := SelectedNodes(allocList, icfgOf);
    CreateAllocFreeFlowGraph(g, icfg, frees + allocs);
    ghost var carved := g.nodes;
    flow := InitMFFlow(freeList, allocList);
    ResolveMFMFlow(g, flow, allocList);
    forall p | p in flow
      ensures p.free in allocList && p.alloc in freeList && IsMatch(p.free, p.alloc)
      ensures p.lastAlloc == Following(Flow(icfg), p.free.node, allocList)
    {
      RecordedEnds(flow, p);
      RecordsKnown(allocList, freeList, p.free, p.alloc);
      SameFollowing(icfg, SeqSet(frees + allocs), carved, p.free.node, allocList);
    }
  }

  lemma RecordedEnds<T, D>(flow: seq<MFPath<T, D>>, p: MFPath<T, D>)
    requires p in flow
    ensures (p.free, p.alloc) in Ends(flow)
  {
    var i :| 0 <= i < |flow| && flow[i] == p;
    assert Ends(flow)[i] == (p.free, p.alloc);
  }

  /** From a selected node the carved graph reaches the same selected operations as the control flow. */
  lemma SameFollowing<T(!new), D>(icfg: Icfg<T>, selected: set<T>, c: Adjacency<T>, node: T,
                                  allocList: seq<MemOp<T, D>>)
    requires forall x, y :: Edge(c, x, y) <==> CarvedEdge(icfg, selected, x, y)
    requires node in selected && forall a :: a in allocList ==> a.node in selected
    ensures Following(c, node, allocList) == Following(Flow(icfg), node, allocList)
  {
    forall a | a in allocList ensures Reaches(c, node, a.node) <==> Reaches(Flow(icfg), node, a.node) {
      CarvedReachability(icfg, selected, c, node, a.node);
    }
  }

  /** What is recorded for an allocation in a free's place is what the free would get exactly if the free reaches the
      allocation again and reaches no allocation that this one does not. */
  lemma SwapHarmless<T(!new), D>(g: Adjacency<T>, f: MemOp<T, D>, a: MemOp<T, D>, allocList: seq<MemOp<T, D>>)
    requires a in allocList
    ensures Following(g, a.node, allocList) == Following(g, f.node, allocList) <==>
            Reaches(g, f.node, a.node) &&
            forall b :: b in allocList && Reaches(g, f.node, b.node) ==> Reaches(g, a.node, b.node)
  {
    ReachesSelf(g, a.node);
    var there, here := Following(g, a.node, allocList), Following(g, f.node, allocList);
    assert a in there;
    if Reaches(g, f.node, a.node) {
      forall b | b in there ensures b in here {
        ReachesTrans(g, f.node, a.node, b.node);
      }
    }
    if here == there {
      assert a in here;
      forall b | b in allocList && Reaches(g, f.node, b.node) ensures Reaches(g, a.node, b.node) {
        assert b in here;
      }
    }
  }

  /** For a free that its allocation reaches, the two agree exactly if the free can reach the allocation again. */
  lemma SwapHarmlessBehind<T(!new), D>(g: Adjacency<T>, f: MemOp<T, D>, a: MemOp<T, D>, allocList: seq<MemOp<T, D>>)
    requires a in allocList && Reaches(g, a.node, f.node)
    ensures Following(g, a.node, allocList) == Following(g, f.node, allocList) <==> Reaches(g, f.node, a.node)
  {
    hide Following;
    SwapHarmless(g, f, a, allocList);
    forall b | b in allocList && Reaches(g, f.node, b.node) ensures Reaches(g, a.node, b.node) {
      ReachesTrans(g, a.node, f.node, b.node);
    }
  }

  function Straight(): Icfg<nat> {
    map[0 := [1], 1 := []]
  }

  /** An allocation followed by its free and nothing else: the free reaches no allocation, and yet one is recorded. */
  method SwapShows() returns (flow: seq<MFPath<nat, nat>>)
    ensures var a, f := MemOp(0, {0}), MemOp(1, {0});
            |flow| == 1 && flow[0].lastAlloc == {a} && Following(Flow(Straight()), f.node, [a]) == {}
  {
    var a: MemOp<nat, nat>, f: MemOp<nat, nat> := MemOp(0, {0}), MemOp(1, {0});
    flow := AnalyseFlow(Straight(), map[], [f], [a]);
    ghost var g := Flow(Straight());
    ReachesSelf(g, 0);
    NotBack();
    assert [a][..0] == [] && [f][..0] == [];
    assert a.defs * f.defs == {0};
    assert Records([a], [f]) == Records([a][..0], [f]) + RowRecords(a, [f]);
    assert RowRecords(a, [f]) == RowRecords(a, [f][..0]) + PairRecords(a, f);
    assert |PairRecords(a, f)| == 1;
    assert flow[0] in flow && flow[0].free == a;
    assert Following(g, 0, [a]) == {a} && Following(g, 1, [a]) == {};
  }

  lemma NotBack()
    ensures !Reaches(Flow(Straight()), 1, 0)
  {
    var g := Flow(Straight());
    assert Closed(g, {1});
    if Reaches(g, 1, 0) {
      ClosedHoldsReachable(g, {1}, 1, 0);
      assert false;
    }
  }
}

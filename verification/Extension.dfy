/** Extending the signatures of functions that take pointers: what the pass makes of a module, and that programs run
    afterwards as before, step by step. */
module Extension {
  import opened Ir

  const BLACKLIST := ["main", "wrapper_scanf", "wrapper_gets"]

  /** How many integers each extended function gets. */
  type Extensions = map<string, nat>

  function Pointers(params: seq<Type>): nat {
    if params == [] then 0 else Pointers(params[..|params| - 1]) + if params[|params| - 1].Pointer? then 1 else 0
  }

  function PointersAt(params: seq<Type>): set<nat> {
    set i: nat | i < |params| && params[i].Pointer?
  }

  /** One integer for each parameter that is a pointer. */
  lemma {:induction false} PointersCounted(params: seq<Type>)
    ensures Pointers(params) == |PointersAt(params)|
  {
    if params != [] {
      var n := |params| - 1;
      PointersCounted(params[..n]);
      var here := if params[n].Pointer? then {n as nat} else {};
      assert PointersAt(params) == PointersAt(params[..n]) + here;
    } else {
      assert PointersAt(params) == {};
    }
  }

  predicate Listed(name: string) {
    name in BLACKLIST
  }

  predicate Extended(f: Function) {
    !f.Declared() && Pointers(f.params) > 0 && !Listed(f.name)
  }

  function CloneName(name: string): string {
    name + "_instrumented"
  }

  lemma CloneNameInjective(a: string, b: string)
    requires CloneName(a) == CloneName(b)
    ensures a == b
  {
    assert CloneName(a)[..|a|] == a && CloneName(b)[..|b|] == b;
  }

  function Integers(n: nat): (r: seq<Type>)
    ensures |r| == n
  {
    seq(n, i => Integer)
  }

  /** The body is shared: the new parameters come last. */
  function Clone(f: Function): Function {
    f.(name := CloneName(f.name), params := f.params + Integers(Pointers(f.params)))
  }

  function ExtensionsOf(m: seq<Function>): Extensions {
    if m == [] then map[]
    else
      var f, rest := m[|m| - 1], ExtensionsOf(m[..|m| - 1]);
      if Extended(f) then rest[f.name := Pointers(f.params)] else rest
  }

  function Clones(m: seq<Function>): seq<Function> {
    if m == [] then []
    else
      var f, rest := m[|m| - 1], Clones(m[..|m| - 1]);
      if Extended(f) then rest + [Clone(f)] else rest
  }

  /** The functions whose names are not in the set. */
  function Drop(m: seq<Function>, names: set<string>): seq<Function> {
    if m == [] then []
    else if m[0].name in names then Drop(m[1..], names) else [m[0]] + Drop(m[1..], names)
  }

  // ---------- Rewriting calls ----------

  function Zeros(n: nat): (r: seq<Operand>)
    ensures |r| == n
  {
    seq(n, i => Constant(0))
  }

  function RewriteCall(x: Extensions, i: Instruction): Instruction {
    if i.Call? && i.callee in x then i.(callee := CloneName(i.callee), args := i.args + Zeros(x[i.callee])) else i
  }

  function RewriteBlock(x: Extensions, b: Block): (r: Block)
    ensures |r| == |b|
  {
    seq(|b|, i requires 0 <= i < |b| => RewriteCall(x, b[i]))
  }

  function RewriteFunction(x: Extensions, f: Function): Function {
    f.(blocks := seq(|f.blocks|, i requires 0 <= i < |f.blocks| => RewriteBlock(x, f.blocks[i])))
  }

  /** Calls are rewritten in all functions but those that will be removed. */
  function RewriteKept(x: Extensions, f: Function): Function {
    if f.name in x then f else RewriteFunction(x, f)
  }

  function RewriteAll(x: Extensions, m: seq<Function>): (r: seq<Function>)
    ensures |r| == |m|
  {
    seq(|m|, i requires 0 <= i < |m| => RewriteKept(x, m[i]))
  }

  /** The module after the pass. */
  function Result(m: seq<Function>): seq<Function> {
    var x := ExtensionsOf(m);
    Drop(RewriteAll(x, m + Clones(m)), x.Keys)
  }

  /** Names are unique, and none is that of a clone. */
  ghost predicate FreshNames(m: seq<Function>) {
    Distinct(m) && forall f, g :: f in m && g in m && Extended(f) ==> g.name != CloneName(f.name)
  }

  // ---------- What the module contains afterwards ----------

  lemma {:induction false} ExtensionsKnown(m: seq<Function>, name: string)
    ensures name in ExtensionsOf(m) <==> exists f :: f in m && Extended(f) && f.name == name
    ensures name in ExtensionsOf(m) ==>
              exists f :: f in m && Extended(f) && f.name == name && ExtensionsOf(m)[name] == Pointers(f.params)
  {
    if m != [] {
      var n := |m| - 1;
      ExtensionsKnown(m[..n], name);
      assert forall f :: f in m <==> f in m[..n] || f == m[n];
      hide Extended, Pointers;
    }
  }

  /** The entry of a function of the module. */
  lemma ExtensionOf(m: seq<Function>, f: Function)
    requires Distinct(m) && f in m
    ensures f.name in ExtensionsOf(m) <==> Extended(f)
    ensures Extended(f) ==> ExtensionsOf(m)[f.name] == Pointers(f.params)
  {
    hide Extended, Pointers, ExtensionsOf;
    ExtensionsKnown(m, f.name);
    SameName(m, f);
  }

  lemma SameName(m: seq<Function>, f: Function)
    requires Distinct(m) && f in m
    ensures forall g :: g in m && g.name == f.name ==> g == f
  {
  }

  lemma {:induction false} ClonesKnown(m: seq<Function>, g: Function)
    ensures g in Clones(m) <==> exists f :: f in m && Extended(f) && g == Clone(f)
  {
    if m != [] {
      var n := |m| - 1;
      ClonesKnown(m[..n], g);
      assert forall f :: f in m <==> f in m[..n] || f == m[n];
      hide Extended, Clone;
    }
  }

  lemma {:induction false} DropKnown(m: seq<Function>, names: set<string>, g: Function)
    ensures g in Drop(m, names) <==> g in m && g.name !in names
  {
    if m != [] {
      DropKnown(m[1..], names, g);
      assert forall f :: f in m <==> f == m[0] || f in m[1..];
    }
  }

  lemma RewriteKnown(x: Extensions, m: seq<Function>, g: Function)
    ensures g in RewriteAll(x, m) <==> exists f :: f in m && g == RewriteKept(x, f)
  {
    hide RewriteKept;
    if g in RewriteAll(x, m) {
      var i :| 0 <= i < |m| && RewriteAll(x, m)[i] == g;
      assert m[i] in m && g == RewriteKept(x, m[i]);
    }
    if f :| f in m && g == RewriteKept(x, f) {
      var i :| 0 <= i < |m| && m[i] == f;
      assert RewriteAll(x, m)[i] == g;
    }
  }

  /** What stands for a function after the pass. */
  function Replacement(x: Extensions, f: Function): Function {
    RewriteFunction(x, if Extended(f) then Clone(f) else f)
  }

  function Target(x: Extensions, name: string): string {
    if name in x then CloneName(name) else name
  }

  /** The module consists of the replacements of its functions, and nothing else: what was extended is gone, and no
      clone has been cloned. */
  lemma ResultKnown(m: seq<Function>, g: Function)
    requires FreshNames(m)
    ensures g in Result(m) <==> exists f :: f in m && g == Replacement(ExtensionsOf(m), f)
  {
    var x := ExtensionsOf(m);
    DropKnown(RewriteAll(x, m + Clones(m)), x.Keys, g);
    RewriteKnown(x, m + Clones(m), g);
    hide RewriteFunction, Extended, ExtensionsOf, Clones, Drop, RewriteAll;
    if g in Result(m) {
      var h :| h in m + Clones(m) && g == RewriteKept(x, h);
      RewriteName(x, h);
      if h in m {
        ExtensionOf(m, h);
        assert g == Replacement(x, h);
      } else {
        ClonesKnown(m, h);
        var f :| f in m && Extended(f) && h == Clone(f);
        assert g == Replacement(x, f);
      }
    }
    if f :| f in m && g == Replacement(x, f) {
      ExtensionOf(m, f);
      if Extended(f) {
        ClonesKnown(m, Clone(f));
        CloneNotExtended(m, f);
        RewriteName(x, Clone(f));
        assert Clone(f) in m + Clones(m) && g == RewriteKept(x, Clone(f));
      } else {
        RewriteName(x, f);
        assert f in m + Clones(m) && g == RewriteKept(x, f);
      }
    }
  }

  lemma RewriteName(x: Extensions, f: Function)
    ensures RewriteFunction(x, f).name == f.name && RewriteKept(x, f).name == f.name
        && RewriteFunction(x, f).params == f.params
  {
  }

  lemma CloneNotExtended(m: seq<Function>, f: Function)
    requires FreshNames(m) && f in m && Extended(f)
    ensures CloneName(f.name) !in ExtensionsOf(m)
  {
    hide Extended, ExtensionsOf, CloneName;
    ExtensionsKnown(m, CloneName(f.name));
  }

  lemma ReplacementName(m: seq<Function>, f: Function)
    requires FreshNames(m) && f in m
    ensures Replacement(ExtensionsOf(m), f).name == Target(ExtensionsOf(m), f.name)
    ensures |Replacement(ExtensionsOf(m), f).params| == |f.params| + Extra(ExtensionsOf(m), f.name)
  {
    ExtensionOf(m, f);
    RewriteName(ExtensionsOf(m), if Extended(f) then Clone(f) else f);
    hide RewriteFunction, Extended, ExtensionsOf;
  }

  function Extra(x: Extensions, name: string): nat {
    if name in x then x[name] else 0
  }

  /** Different functions have replacements of different names. */
  lemma TargetsDiffer(m: seq<Function>, f: Function, g: Function)
    requires FreshNames(m) && f in m && g in m && Target(ExtensionsOf(m), f.name) == Target(ExtensionsOf(m), g.name)
    ensures f == g
  {
    var x := ExtensionsOf(m);
    ExtensionOf(m, f);
    ExtensionOf(m, g);
    hide ExtensionsOf, Extended, CloneName;
    if f.name in x && g.name in x {
      CloneNameInjective(f.name, g.name);
    }
    SameName(m, f);
  }

  /** Looking a replacement up by its name finds it; there may be equal copies of it, never another function. */
  lemma FindReplacement(m: seq<Function>, f: Function)
    requires FreshNames(m) && f in m
    ensures Find(Result(m), Target(ExtensionsOf(m), f.name)) == Known(Replacement(ExtensionsOf(m), f))
  {
    var x := ExtensionsOf(m);
    var r := Replacement(x, f);
    hide ExtensionsOf, Extended, Replacement, Result, Target, Find;
    ResultKnown(m, r);
    ReplacementName(m, f);
    FindMissing(Result(m), r.name);
    var g := Find(Result(m), r.name).f;
    ResultKnown(m, g);
    var h :| h in m && g == Replacement(x, h);
    ReplacementName(m, h);
    TargetsDiffer(m, f, h);
  }

  /** The name of an extended function is gone. */
  lemma ExtendedGone(m: seq<Function>, f: Function)
    requires FreshNames(m) && f in m && Extended(f)
    ensures Find(Result(m), f.name).Missing?
  {
    var x := ExtensionsOf(m);
    hide ExtensionsOf, Extended, Replacement, Result, CloneName, Find;
    FindMissing(Result(m), f.name);
    forall g | g in Result(m) ensures g.name != f.name {
      ResultKnown(m, g);
      var h :| h in m && g == Replacement(x, h);
      ReplacementName(m, h);
      ExtensionOf(m, h);
      ExtensionOf(m, f);
      if h.name !in x { SameName(m, f); }
    }
  }
}

/** The pass that extends signatures, as it changes a module in place. */
module FunctionInstrumentor {
  import opened Ir
  import opened Extension

  class Pass {
    /** The function list of the module; clones are appended to it while it is being walked. */
    var funcs: seq<Function>
    var blacklist: seq<string>
    var instrumented: Extensions

    constructor (funcs: seq<Function>)
      ensures this.funcs == funcs && blacklist == BLACKLIST && instrumented == map[]
    {
      this.funcs, blacklist, instrumented := funcs, BLACKLIST, map[];
    }

    /** `instrumentFunction` */
    method InstrumentFunction(f: Function) returns (r: bool)
      modifies this`funcs, this`instrumented
      ensures r <==> Pointers(f.params) > 0 && f.name !in blacklist
      ensures r ==> funcs == old(funcs) + [Clone(f)] && instrumented == old(instrumented)[f.name := Pointers(f.params)]
      ensures !r ==> funcs == old(funcs) && instrumented == old(instrumented)
    {
      var instrumentable := 0;
      var paramTypes: seq<Type> := [];
      for i := 0 to |f.params|
        invariant paramTypes == f.params[..i] && instrumentable == Pointers(f.params[..i])
      {
        paramTypes := paramTypes + [f.params[i]];
        assert f.params[..i + 1][..i] == f.params[..i];
        if f.params[i].Pointer? {
          instrumentable := instrumentable + 1;
        }
      }
      assert f.params[..|f.params|] == f.params;
      if instrumentable == 0 || f.name in blacklist {
        return false;
      }
      for i := 0 to instrumentable
        invariant paramTypes == f.params + Integers(i)
      {
        paramTypes := paramTypes + [Integer];
      }
      funcs := funcs + [Function(f.name + "_instrumented", paramTypes, f.blocks)];
      instrumented := instrumented[f.name := instrumentable];
      return true;
    }

    /** The first loop of `runOnModule`: it also comes to the clones, and leaves them alone. */
    method InstrumentAll()
      requires FreshNames(funcs) && blacklist == BLACKLIST && instrumented == map[]
      modifies this
      ensures funcs == old(funcs) + Clones(old(funcs)) && instrumented == ExtensionsOf(old(funcs))
    {
      WalkStart(funcs);
      hide Walked, Clones, ExtensionsOf, Prefix, Extended, Clone, Pointers, FreshNames;
      ghost var m := funcs;
      var i := 0;
      while i < |funcs|
        invariant i <= |funcs| && Walked(m, i, blacklist)
        invariant funcs == m + Clones(Prefix(m, i)) && instrumented == ExtensionsOf(Prefix(m, i))
        invariant |funcs| <= 2 * |m|
        decreases 2 * |m| - i
      {
        var f := funcs[i];
        WalkNext(m, i, funcs, blacklist);
        ghost var before := blacklist;
        if !f.Declared() {
          var r := InstrumentFunction(f);
          if r {
            blacklist := blacklist + [f.name + "_instrumented"];
          } else {
            blacklist := blacklist + [f.name];
          }
        }
        PrefixNext(m, i);
        PrefixNext(m, i + 1);
        assert m + Clones(Prefix(m, i)) + [Clone(f)] == m + (Clones(Prefix(m, i)) + [Clone(f)]);
        WalkOn(m, i, f, before, blacklist);
        i := i + 1;
      }
      PrefixNext(m, i);
    }

    /** `instrumentCalls`: the result tells whether any call was replaced. */
    method InstrumentCalls() returns (changed: bool)
      modifies this`funcs
      ensures funcs == RewriteAll(instrumented, old(funcs)) && (changed <==> funcs != old(funcs))
    {
      hide RewriteKept;
      ghost var m := funcs;
      changed := false;
      for i := 0 to |funcs|
        invariant |funcs| == |m| && instrumented == old(instrumented)
        invariant forall k :: 0 <= k < i ==> funcs[k] == RewriteKept(instrumented, m[k])
        invariant forall k :: i <= k < |m| ==> funcs[k] == m[k]
        invariant changed <==> exists k :: 0 <= k < i && funcs[k] != m[k]
      {
        ghost var before := funcs;
        var f := funcs[i];
        if f.Declared() || f.name in instrumented {
          KeptAsIs(instrumented, f);
          continue;
        }
        var c, g := RewriteCalls(f);
        funcs := funcs[i := g];
        assert forall k :: 0 <= k < |m| && k != i ==> funcs[k] == before[k];
        changed := changed || c;
      }
      assert funcs == RewriteAll(instrumented, m);
    }

    /** The calls in one function. */
    method RewriteCalls(f: Function) returns (changed: bool, g: Function)
      requires f.name !in instrumented
      ensures g == RewriteKept(instrumented, f) && (changed <==> g != f)
    {
      hide RewriteBlock;
      changed := false;
      var blocks: seq<Block> := [];
      for b := 0 to |f.blocks|
        invariant |blocks| == b && forall k :: 0 <= k < b ==> blocks[k] == RewriteBlock(instrumented, f.blocks[k])
        invariant changed <==> exists k :: 0 <= k < b && blocks[k] != f.blocks[k]
      {
        var c, block := RewriteCallsIn(f.blocks[b]);
        ghost var before := blocks;
        blocks := blocks + [block];
        assert forall k :: 0 <= k < b ==> blocks[k] == before[k];
        changed := changed || c;
      }
      g := f.(blocks := blocks);
      assert blocks == RewriteFunction(instrumented, f).blocks;
    }

    /** The calls in one block. */
    method RewriteCallsIn(block: Block) returns (changed: bool, r: Block)
      ensures r == RewriteBlock(instrumented, block) && (changed <==> r != block)
    {
      hide RewriteCall;
      changed := false;
      r := [];
      for k := 0 to |block|
        invariant |r| == k && forall j :: 0 <= j < k ==> r[j] == RewriteCall(instrumented, block[j])
        invariant changed <==> exists j :: 0 <= j < k && r[j] != block[j]
      {
        ghost var before := r;
        var c, i := RewriteOne(block[k]);
        r := r + [i];
        assert forall j :: 0 <= j < k ==> r[j] == before[j];
        changed := changed || c;
      }
    }

    /** A call of an extended function goes to its clone, with a zero for every added parameter. */
    method RewriteOne(i: Instruction) returns (changed: bool, r: Instruction)
      ensures r == RewriteCall(instrumented, i) && (changed <==> r != i)
    {
      if i.Call? && i.callee in instrumented {
        var args := i.args;
        for k := 0 to instrumented[i.callee]
          invariant args == i.args + Zeros(k)
        {
          args := args + [Constant(0)];
        }
        r := Call(i.dst, i.callee + "_instrumented", args);
        assert |r.callee| == |i.callee| + 13;
        return true, r;
      }
      return false, i;
    }

    /** The last loop of `runOnModule`. */
    method RemoveOriginals()
      modifies this`funcs
      ensures funcs == Drop(old(funcs), instrumented.Keys)
    {
      ghost var m := funcs;
      var keys := instrumented.Keys;
      DropNothing(m);
      assert keys - keys == {};
      while keys != {}
        invariant keys <= instrumented.Keys && funcs == Drop(m, instrumented.Keys - keys)
            && instrumented == old(instrumented)
        decreases |keys|
      {
        var key :| key in keys;
        ghost var done := instrumented.Keys - keys;
        Erase(key);
        DropMore(m, done, key);
        keys := keys - {key};
        assert instrumented.Keys - keys == done + {key};
      }
      assert instrumented.Keys - keys == instrumented.Keys;
    }

    /** `eraseFromParent` of the function of that name. */
    method Erase(name: string)
      modifies this`funcs
      ensures funcs == Drop(old(funcs), {name})
    {
      var kept: seq<Function> := [];
      for i := 0 to |funcs|
        invariant funcs == old(funcs) && kept == Drop(funcs[..i], {name})
      {
        DropLast(funcs[..i], funcs[i], {name});
        assert funcs[..i + 1] == funcs[..i] + [funcs[i]];
        if funcs[i].name != name {
          kept := kept + [funcs[i]];
        }
      }
      assert funcs[..|funcs|] == funcs;
      funcs := kept;
    }

    /** `runOnModule`. It reports a change only when it has replaced a call, even if it has replaced functions. */
    method RunOnModule() returns (changed: bool)
      requires FreshNames(funcs) && blacklist == BLACKLIST && instrumented == map[]
      modifies this
      ensures funcs == Result(old(funcs)) && instrumented == ExtensionsOf(old(funcs))
      ensures var all := old(funcs) + Clones(old(funcs)); changed <==> RewriteAll(instrumented, all) != all
    {
      hide FreshNames, Drop, ExtensionsOf, RewriteAll, Clones;
      InstrumentAll();
      changed := InstrumentCalls();
      RemoveOriginals();
    }
  }

  lemma KeptAsIs(x: Extensions, f: Function)
    requires f.Declared() || f.name in x
    ensures RewriteKept(x, f) == f
  {
  }

  lemma {:induction false} DropNothing(m: seq<Function>)
    ensures Drop(m, {}) == m
  {
    if m != [] {
      DropNothing(m[1..]);
    }
  }

  lemma {:induction false} DropMore(m: seq<Function>, names: set<string>, name: string)
    ensures Drop(Drop(m, names), {name}) == Drop(m, names + {name})
  {
    if m != [] {
      DropMore(m[1..], names, name);
    }
  }

  lemma {:induction false} DropLast(m: seq<Function>, f: Function, names: set<string>)
    ensures Drop(m + [f], names) == Drop(m, names) + (if f.name in names then [] else [f])
  {
    if m == [] {
      assert m + [f] == [f] && [f][1..] == [];
    } else {
      DropLast(m[1..], f, names);
      assert (m + [f])[1..] == m[1..] + [f] && (m + [f])[0] == m[0];
    }
  }

  function Prefix(m: seq<Function>, i: nat): seq<Function> {
    if i < |m| then m[..i] else m
  }

  /** The black list after i functions: it has not got the name of any function to come, but those of the clones. */
  ghost predicate Walked(m: seq<Function>, i: nat, blacklist: seq<string>) {
    && BLACKLIST <= blacklist
    && ToCome(m, i, blacklist)
    && ClonesListed(Clones(Prefix(m, i)), blacklist)
  }

  ghost predicate ToCome(m: seq<Function>, i: nat, blacklist: seq<string>) {
    forall j :: i <= j < |m| && m[j].name in blacklist ==> Listed(m[j].name)
  }

  ghost predicate ClonesListed(clones: seq<Function>, blacklist: seq<string>) {
    forall f :: f in clones ==> f.name in blacklist
  }

  lemma WalkStart(m: seq<Function>)
    ensures Walked(m, 0, BLACKLIST) && Clones(Prefix(m, 0)) == [] && ExtensionsOf(Prefix(m, 0)) == map[]
  {
    hide Listed;
    assert forall j :: 0 <= j < |m| && m[j].name in BLACKLIST ==> Listed(m[j].name) by {
      forall j | 0 <= j < |m| && m[j].name in BLACKLIST ensures Listed(m[j].name) {
        InList(m[j].name);
      }
    }
  }

  lemma InList(name: string)
    requires name in BLACKLIST
    ensures Listed(name)
  {
  }

  lemma {:induction false} ClonesShort(m: seq<Function>)
    ensures |Clones(m)| <= |m|
  {
    if m != [] {
      ClonesShort(m[..|m| - 1]);
    }
  }

  /** Extending the walked part by one function. */
  lemma PrefixNext(m: seq<Function>, i: nat)
    ensures i >= |m| ==> Prefix(m, i) == m && Prefix(m, i + 1) == m
    ensures i < |m| && Extended(m[i]) ==>
              && Clones(Prefix(m, i + 1)) == Clones(Prefix(m, i)) + [Clone(m[i])]
              && ExtensionsOf(Prefix(m, i + 1)) == ExtensionsOf(Prefix(m, i))[m[i].name := Pointers(m[i].params)]
    ensures i < |m| && !Extended(m[i]) ==>
              Clones(Prefix(m, i + 1)) == Clones(Prefix(m, i))
                  && ExtensionsOf(Prefix(m, i + 1)) == ExtensionsOf(Prefix(m, i))
    ensures |Clones(Prefix(m, i))| <= |m|
  {
    ClonesShort(Prefix(m, i));
    if i < |m| {
      var next := Prefix(m, i + 1);
      assert next == m[..i + 1] && next[..i] == m[..i] && next[i] == m[i];
      hide Extended, Clone, Pointers;
    }
  }

  /** Originals are taken by the test on names and parameters exactly when they are to be extended; clones never. */
  lemma WalkNext(m: seq<Function>, i: nat, funcs: seq<Function>, blacklist: seq<string>)
    requires FreshNames(m) && i < |funcs| && funcs == m + Clones(Prefix(m, i)) && Walked(m, i, blacklist)
    ensures !funcs[i].Declared() ==>
              (Pointers(funcs[i].params) > 0 && funcs[i].name !in blacklist <==> i < |m| && Extended(funcs[i]))
    ensures i < |m| ==> funcs[i] == m[i]
    ensures funcs[i].Declared() ==> !Extended(funcs[i])
    ensures i >= |m| ==> !funcs[i].Declared() && funcs[i] in Clones(m)
  {
    hide Pointers, Clones, Prefix, Listed, ToCome, ClonesListed, ExtensionsOf;
    if i < |m| {
      WalkOriginal(m, i, blacklist);
    } else {
      PrefixNext(m, i);
      assert funcs[i] == Clones(Prefix(m, i))[i - |m|];
      CloneHasBody(m, funcs[i]);
      WalkClone(Clones(m), funcs[i], blacklist);
    }
  }

  lemma WalkOriginal(m: seq<Function>, i: nat, blacklist: seq<string>)
    requires i < |m| && BLACKLIST <= blacklist && ToCome(m, i, blacklist)
    ensures m[i].name in blacklist <==> Listed(m[i].name)
  {
    if Listed(m[i].name) {
      ListedStays(m[i].name, blacklist);
    }
    hide Listed;
  }

  lemma WalkClone(clones: seq<Function>, f: Function, blacklist: seq<string>)
    requires f in clones && ClonesListed(clones, blacklist)
    ensures f.name in blacklist
  {
  }

  lemma CloneHasBody(m: seq<Function>, g: Function)
    requires g in Clones(m)
    ensures !g.Declared()
  {
    ClonesKnown(m, g);
  }

  /** The black list grows by the name of the clone, or of the function itself. */
  lemma WalkOn(m: seq<Function>, i: nat, f: Function, blacklist: seq<string>, blacklist': seq<string>)
    requires FreshNames(m) && Walked(m, i, blacklist)
    requires if i < |m| then f == m[i] else f in Clones(m)
    requires if f.Declared() then blacklist' == blacklist
             else if i < |m| && Extended(f) then blacklist' == blacklist + [CloneName(f.name)]
             else blacklist' == blacklist + [f.name]
    ensures Walked(m, i + 1, blacklist')
  {
    PrefixNext(m, i);
    assert Extended(f) ==> !f.Declared();
    hide Clones, ExtensionsOf, Extended, Prefix, ToCome, ClonesListed, CloneName;
    if f.Declared() {
      ToComeLess(m, i, blacklist);
      if i >= |m| { CloneHasBody(m, f); }
    } else {
      var name := blacklist'[|blacklist|];
      if i < |m| && Extended(f) {
        Unclaimed(m, i, name);
      }
      ToComeMore(m, i, blacklist, name);
      ClonesListedMore(Clones(Prefix(m, i)), blacklist, name);
      if i < |m| && Extended(f) {
        CloneListed(Clones(Prefix(m, i)), Clone(f), blacklist');
      }
    }
  }

  lemma ListedStays(name: string, blacklist: seq<string>)
    requires BLACKLIST <= blacklist && Listed(name)
    ensures name in blacklist
  {
    var k :| 0 <= k < |BLACKLIST| && BLACKLIST[k] == name;
    assert blacklist[k] == name;
  }

  lemma ToComeLess(m: seq<Function>, i: nat, blacklist: seq<string>)
    requires ToCome(m, i, blacklist)
    ensures ToCome(m, i + 1, blacklist)
  {
    hide Listed;
  }

  lemma ToComeMore(m: seq<Function>, i: nat, blacklist: seq<string>, name: string)
    requires ToCome(m, i, blacklist) && forall j :: i < j < |m| ==> m[j].name != name
    ensures ToCome(m, i + 1, blacklist + [name])
  {
    hide Listed;
  }

  lemma ClonesListedMore(clones: seq<Function>, blacklist: seq<string>, name: string)
    requires ClonesListed(clones, blacklist)
    ensures ClonesListed(clones, blacklist + [name])
  {
  }

  lemma CloneListed(clones: seq<Function>, clone: Function, blacklist: seq<string>)
    requires ClonesListed(clones, blacklist) && clone.name in blacklist
    ensures ClonesListed(clones + [clone], blacklist)
  {
  }

  lemma Unclaimed(m: seq<Function>, i: nat, name: string)
    requires FreshNames(m) && i < |m| && Extended(m[i]) && name == CloneName(m[i].name)
    ensures forall j :: 0 <= j < |m| ==> m[j].name != name
  {
    hide Extended, CloneName;
    forall j | 0 <= j < |m| ensures m[j].name != name {
      assert m[i] in m && m[j] in m;
    }
  }

  /** A function that nobody calls is replaced, but no change is reported. */
  lemma UnreportedChange()
    ensures var m := [Function("f", [Pointer], [[Return(Constant(0))]])];
            && FreshNames(m) && Result(m) == [Clone(m[0])]
            && RewriteAll(ExtensionsOf(m), m + Clones(m)) == m + Clones(m)
  {
    var f := Function("f", [Pointer], [[Return(Constant(0))]]);
    var m := [f];
    assert f.params[..0] == [] && Pointers(f.params) == 1;
    assert m[..0] == [] && ExtensionsOf(m) == map["f" := 1] && Clones(m) == [Clone(f)];
    var x := ExtensionsOf(m);
    assert Clone(f).name == "f_instrumented" && |Clone(f).name| == 14;
    assert RewriteBlock(x, f.blocks[0]) == f.blocks[0];
    assert RewriteFunction(x, Clone(f)) == Clone(f);
    var all := m + Clones(m);
    assert all == [f, Clone(f)] && RewriteAll(x, all) == all;
    var one := [Clone(f)];
    assert all[1..] == one && one[1..] == [] && x.Keys == {"f"};
    assert one[0].name !in x.Keys && all[0].name in x.Keys;
    assert Drop(one, x.Keys) == [one[0]] + Drop(one[1..], x.Keys);
    assert Drop(all, x.Keys) == Drop(all[1..], x.Keys);
  }
}

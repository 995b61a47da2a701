/** The pass that counts activations, as it changes a module in place. */
module RecursionTracker {
  import opened Ir
  import opened Tracking

  /** Functions have no empty blocks. */
  predicate Formed(f: Function) {
    forall n :: 0 <= n < |f.blocks| ==> f.blocks[n] != []
  }

  class Pass {
    var funcs: seq<Function>

    constructor (funcs: seq<Function>)
      ensures this.funcs == funcs
    {
      this.funcs := funcs;
    }

    /** The first pair of loops of `trackRecursion`: the entry code goes before the first instruction met. */
    method InsertEntry(blocks: seq<Block>) returns (r: seq<Block>)
      requires forall n :: 0 <= n < |blocks| ==> blocks[n] != []
      ensures |r| == |blocks|
      ensures forall n :: 0 <= n < |r| ==> r[n] == (if n == 0 then EntryCode() else []) + blocks[n]
    {
      hide EntryCode;
      r := [];
      var first := true;
      for n := 0 to |blocks|
        invariant |r| == n && (first <==> n == 0)
        invariant forall k :: 0 <= k < n ==> r[k] == (if k == 0 then EntryCode() else []) + blocks[k]
      {
        var block: Block := [];
        for k := 0 to |blocks[n]|
          invariant first <==> n == 0 && k == 0
          invariant block == (if n == 0 && k > 0 then EntryCode() else []) + blocks[n][..k]
        {
          if first {
            block := block + EntryCode();
            first := false;
          }
          block := block + [blocks[n][k]];
        }
        assert blocks[n][..|blocks[n]|] == blocks[n];
        r := r + [block];
      }
    }

    /** The second pair of loops, for one block: the exit code goes before every return. */
    method InsertExit(b: Block) returns (r: Block)
      ensures r == TrackBlock(b)
    {
      hide ExitCode;
      r := [];
      for k := 0 to |b|
        invariant r == TrackBlock(b[..k])
      {
        assert b[..k + 1][..k] == b[..k];
        if b[k].Return? {
          r := r + ExitCode();
        }
        r := r + [b[k]];
      }
      assert b[..|b|] == b;
    }

    /** `trackRecursion` */
    method TrackRecursion(f: Function) returns (g: Function)
      requires Formed(f)
      ensures g == TrackFunction(f)
    {
      hide EntryCode, TrackBlock;
      var entered := InsertEntry(f.blocks);
      var blocks: seq<Block> := [];
      for n := 0 to |entered|
        invariant |blocks| == n && forall k :: 0 <= k < n ==> blocks[k] == TrackBlockAt(f.blocks, k)
      {
        var block := InsertExit(entered[n]);
        if n == 0 {
          TrackEntry(f.blocks[0]);
        } else {
          assert entered[n] == f.blocks[n];
        }
        blocks := blocks + [block];
      }
      g := f.(blocks := blocks);
      assert blocks == TrackFunction(f).blocks;
    }

    /** `runOnModule` */
    method RunOnModule() returns (changed: bool)
      requires forall f :: f in funcs ==> Formed(f)
      modifies this
      ensures funcs == TrackModule(old(funcs)) && (changed <==> exists f :: f in old(funcs) && !f.Declared())
    {
      hide TrackFunction, Formed;
      ghost var m := funcs;
      changed := false;
      for i := 0 to |funcs|
        invariant |funcs| == |m| && (changed <==> exists k :: 0 <= k < i && !m[k].Declared())
        invariant forall k :: 0 <= k < i ==> funcs[k] == TrackFunction(m[k])
        invariant forall k :: i <= k < |m| ==> funcs[k] == m[k]
      {
        if !funcs[i].Declared() {
          var g := TrackRecursion(funcs[i]);
          funcs := funcs[i := g];
          changed := true;
        } else {
          DeclaredStays(funcs[i]);
        }
      }
    }
  }

  lemma DeclaredStays(f: Function)
    requires f.Declared()
    ensures TrackFunction(f) == f
  {
  }

  lemma {:induction false} TrackConcat(a: Block, b: Block)
    ensures TrackBlock(a + b) == TrackBlock(a) + TrackBlock(b)
    decreases |b|
  {
    hide TrackInstruction;
    if b == [] {
      assert a + b == a;
    } else {
      var n := |b| - 1;
      TrackConcat(a, b[..n]);
      assert b == b[..n] + [b[n]] && a + b == (a + b[..n]) + [b[n]];
      TrackLast(a + b[..n], b[n]);
      TrackLast(b[..n], b[n]);
      hide TrackBlock;
      Regroup(TrackBlock(a), TrackBlock(b[..n]), TrackInstruction(b[n]));
    }
  }

  lemma TrackLast(b: Block, i: Instruction)
    ensures TrackBlock(b + [i]) == TrackBlock(b) + TrackInstruction(i)
  {
    assert (b + [i])[..|b|] == b;
  }

  lemma Regroup(x: Block, y: Block, z: Block)
    ensures (x + y) + z == x + (y + z)
  {
  }

  /** The entry code has no return. */
  lemma TrackEntry(b: Block)
    ensures TrackBlock(EntryCode() + b) == EntryCode() + TrackBlock(b)
  {
    TrackConcat(EntryCode(), b);
    NoReturns(EntryCode());
  }

  lemma {:induction false} NoReturns(b: Block)
    requires forall k :: 0 <= k < |b| ==> !b[k].Return?
    ensures TrackBlock(b) == b
  {
    if b != [] {
      NoReturns(b[..|b| - 1]);
    }
  }
}

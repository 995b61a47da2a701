/** Counting activations: what the pass inserts into functions, and the code it yields. */
module Tracking {
  import opened Ir

  /** The inserted sequence: load the counter, extend it, add, cut it to 16 bits and store it. */
  function Bump(base: nat, delta: int): (r: Block)
    ensures |r| == 5
  {
    [LoadCounter(Fresh(base)),
     Compute(Fresh(base + 1), SignExtend, [Local(Fresh(base))]),
     Compute(Fresh(base + 2), Add, [Local(Fresh(base + 1)), Constant(delta)]),
     Compute(Fresh(base + 3), Truncate, [Local(Fresh(base + 2))]),
     StoreCounter(Local(Fresh(base + 3)))]
  }

  function EntryCode(): (r: Block)
    ensures |r| == 5
  {
    Bump(0, 1)
  }

  function ExitCode(): (r: Block)
    ensures |r| == 5
  {
    Bump(4, -1)
  }

  /** What stands for an instruction. */
  function TrackInstruction(i: Instruction): Block {
    if i.Return? then ExitCode() + [i] else [i]
  }

  function TrackBlock(b: Block): Block {
    if b == [] then [] else TrackBlock(b[..|b| - 1]) + TrackInstruction(b[|b| - 1])
  }

  function TrackBlockAt(blocks: seq<Block>, n: nat): Block
    requires n < |blocks|
  {
    if n == 0 then EntryCode() + TrackBlock(blocks[0]) else TrackBlock(blocks[n])
  }

  function TrackFunction(f: Function): Function {
    f.(blocks := seq(|f.blocks|, n requires 0 <= n < |f.blocks| => TrackBlockAt(f.blocks, n)))
  }

  function TrackModule(m: seq<Function>): (r: seq<Function>)
    ensures |r| == |m|
  {
    seq(|m|, n requires 0 <= n < |m| => TrackFunction(m[n]))
  }

  // ---------- Programs that do not know of the counter ----------

  predicate Plain(o: Operand) {
    o.Local? ==> o.reg.Named?
  }

  predicate AllPlain(os: seq<Operand>) {
    forall k :: 0 <= k < |os| ==> Plain(os[k])
  }

  /** Instructions use named registers only and do not touch the counter; nothing branches to the entry block. */
  predicate Untracked(i: Instruction) {
    match i
    case Compute(dst, op, os) => dst.Named? && AllPlain(os)
    case Load(dst, a) => dst.Named? && Plain(a)
    case Store(a, v) => Plain(a) && Plain(v)
    case LoadCounter(dst) => false
    case StoreCounter(v) => false
    case Call(dst, callee, args) => dst.Named? && AllPlain(args)
    case Branch(c, yes, no) => Plain(c) && yes != 0 && no != 0
    case Return(v) => Plain(v)
  }

  predicate UntrackedBlock(b: Block) {
    b != [] && forall k :: 0 <= k < |b| ==> Untracked(b[k])
  }

  predicate UntrackedFunction(f: Function) {
    forall n :: 0 <= n < |f.blocks| ==> UntrackedBlock(f.blocks[n])
  }

  ghost predicate UntrackedModule(m: seq<Function>) {
    forall f :: f in m ==> UntrackedFunction(f)
  }

  // ---------- Where the code goes ----------

  /** Where the code of instruction k of a block starts. */
  function Place(b: Block, k: nat): nat
    requires k <= |b|
  {
    |TrackBlock(b[..k])|
  }

  lemma PlaceNext(b: Block, k: nat)
    requires k < |b|
    ensures Place(b, k + 1) == Place(b, k) + |TrackInstruction(b[k])|
  {
    assert b[..k + 1][..k] == b[..k];
  }

  /** The code of an instruction stands at its place. */
  lemma {:induction false} CodeAt(b: Block, k: nat)
    requires k < |b|
    ensures Place(b, k) + |TrackInstruction(b[k])| <= |TrackBlock(b)|
    ensures TrackBlock(b)[Place(b, k)..Place(b, k) + |TrackInstruction(b[k])|] == TrackInstruction(b[k])
    decreases |b|
  {
    var n := |b| - 1;
    hide TrackInstruction;
    if k < n {
      CodeAt(b[..n], k);
      assert b[..n][..k] == b[..k];
      assert b[..n][k] == b[k];
    }
  }

  lemma {:induction false} FindTracked(m: seq<Function>, name: string)
    ensures Find(TrackModule(m), name) == if Find(m, name).Known? then Known(TrackFunction(Find(m, name).f))
        else Missing
  {
    if m != [] {
      hide TrackFunction;
      TrackName(m[0]);
      FindTracked(m[1..], name);
      assert TrackModule(m)[1..] == TrackModule(m[1..]);
    }
  }

  lemma TrackName(f: Function)
    ensures TrackFunction(f).name == f.name && TrackFunction(f).params == f.params
        && (TrackFunction(f).Declared() <==> f.Declared())
  {
  }

  /** The position in the tracked function that corresponds to one in the function. */
  function Offset(f: Function, block: nat, index: nat): nat {
    (if block == 0 then 5 else 0) +
    (if block < |f.blocks| && index <= |f.blocks[block]| then Place(f.blocks[block], index) else index)
  }

  /** Positions that a run can reach. */
  predicate Reachable(f: Function, block: nat, index: nat) {
    if block < |f.blocks| then index <= |f.blocks[block]| else index == 0
  }

  function CodeIn(f: Function, block: nat, index: nat): Fetched {
    if block >= |f.blocks| || index >= |f.blocks[block]| then Nothing else Next(f.blocks[block][index])
  }

  /** At corresponding positions stands the code of the same instruction. */
  lemma CodeTracked(f: Function, block: nat, index: nat)
    requires Reachable(f, block, index)
    ensures CodeIn(f, block, index).Nothing? ==> CodeIn(TrackFunction(f), block, Offset(f, block, index)).Nothing?
    ensures CodeIn(f, block, index).Next? ==>
              var t := TrackInstruction(f.blocks[block][index]);
              && Offset(f, block, index + 1) == Offset(f, block, index) + |t|
              && forall j: nat :: j < |t| ==> CodeIn(TrackFunction(f), block, Offset(f, block, index) + j) == Next(t[j])
  {
    hide TrackInstruction, TrackBlock, EntryCode;
    var g := TrackFunction(f);
    if block < |f.blocks| {
      var b := f.blocks[block];
      var k := if block == 0 then 5 else 0;
      assert g.blocks[block] == TrackBlockAt(f.blocks, block);
      assert g.blocks[block][k..] == TrackBlock(b);
      if index < |b| {
        CodeAt(b, index);
        PlaceNext(b, index);
        var t, p := TrackInstruction(b[index]), Place(b, index);
        forall j: nat | j < |t| ensures CodeIn(g, block, k + p + j) == Next(t[j]) {
          assert TrackBlock(b)[p..p + |t|][j] == TrackBlock(b)[p + j];
          assert g.blocks[block][k..][p + j] == g.blocks[block][k + p + j];
        }
      } else {
        assert b[..index] == b;
      }
    }
  }

  lemma EntryTracked(f: Function)
    requires !f.Declared()
    ensures forall j: nat :: j < 5 ==> CodeIn(TrackFunction(f), 0, j) == Next(EntryCode()[j])
  {
    hide EntryCode, TrackBlock;
    assert TrackFunction(f).blocks[0] == EntryCode() + TrackBlock(f.blocks[0]);
  }
}

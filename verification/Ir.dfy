/** A small first-order program representation with direct calls, and a machine that runs it step by step. */
module Ir {
  datatype Type = Pointer | Integer

  /** Named registers belong to the program; fresh ones to inserted code. */
  datatype Register = Named(n: nat) | Fresh(n: nat)

  datatype Operand = Constant(value: int) | Argument(index: nat) | Local(reg: Register)

  /** Operations: the three that inserted code uses, and whatever else a program computes. */
  datatype Operation = SignExtend | Add | Truncate | Other(code: nat)

  datatype Instruction =
    | Compute(dst: Register, op: Operation, operands: seq<Operand>)
    | Load(dst: Register, address: Operand)
    | Store(address: Operand, source: Operand)
    | LoadCounter(dst: Register)
    | StoreCounter(source: Operand)
    | Call(dst: Register, callee: string, args: seq<Operand>)
    | Branch(condition: Operand, yes: nat, no: nat)
    | Return(result: Operand)

  type Block = seq<Instruction>

  /** A function without blocks is only declared. */
  datatype Function = Function(name: string, params: seq<Type>, blocks: seq<Block>) {
    predicate Declared() {
      blocks == []
    }
  }

  ghost predicate Distinct(m: seq<Function>) {
    forall i, j :: 0 <= i < j < |m| ==> m[i].name != m[j].name
  }

  datatype Found = Missing | Known(f: Function)

  function Find(m: seq<Function>, name: string): (r: Found)
    ensures r.Known? ==> r.f in m && r.f.name == name
  {
    if m == [] then Missing else if m[0].name == name then Known(m[0]) else Find(m[1..], name)
  }

  lemma {:induction false} FindMissing(m: seq<Function>, name: string)
    ensures Find(m, name).Missing? <==> forall f :: f in m ==> f.name != name
  {
    if m != [] {
      FindMissing(m[1..], name);
      assert forall f :: f in m <==> f == m[0] || f in m[1..];
    }
  }

  // ---------- The machine ----------

  type Memory = map<int, int>

  /** What the program does not define: its other operations, and the functions it only declares. */
  datatype World = World(compute: (nat, seq<int>) -> int, external: (string, seq<int>, Memory) -> (int, Memory))

  /** An activation. The registers that have not been written hold 0; dst is where the caller wants the result. */
  datatype Frame = Frame(fn: string, block: nat, index: nat, args: seq<int>, regs: map<Register, int>, dst: Register)

  /** Activations, the innermost last. */
  datatype State =
    | Running(frames: seq<Frame>, memory: Memory, counter: int)
    | Finished(result: int, memory: Memory, counter: int)
    | Stuck

  function ReadRegister(regs: map<Register, int>, r: Register): int {
    if r in regs then regs[r] else 0
  }

  function Value(o: Operand, args: seq<int>, regs: map<Register, int>): int {
    match o
    case Constant(v) => v
    case Argument(i) => if i < |args| then args[i] else 0
    case Local(r) => ReadRegister(regs, r)
  }

  function Values(os: seq<Operand>, args: seq<int>, regs: map<Register, int>): (r: seq<int>)
    ensures |r| == |os|
  {
    seq(|os|, i requires 0 <= i < |os| => Value(os[i], args, regs))
  }

  /** 16-bit values extended to 32 bits, 32-bit sums, and cutting to 16 bits; all as unsigned numbers. */
  function Operate(w: World, op: Operation, vs: seq<int>): int {
    match op
    case SignExtend =>
      if |vs| != 1 then 0
      else if vs[0] % 0x1_0000 < 0x8000 then vs[0] % 0x1_0000
      else vs[0] % 0x1_0000 + 0xFFFF_0000
    case Add => if |vs| != 2 then 0 else (vs[0] + vs[1]) % 0x1_0000_0000
    case Truncate => if |vs| != 1 then 0 else vs[0] % 0x1_0000
    case Other(code) => w.compute(code, vs)
  }

  /** The instruction that the frame is at, if its function has a body there. */
  datatype Fetched = Nothing | Next(instruction: Instruction)

  function Fetch(m: seq<Function>, f: Frame): Fetched {
    var g := Find(m, f.fn);
    if g.Missing? || f.block >= |g.f.blocks| || f.index >= |g.f.blocks[f.block]| then Nothing
    else Next(g.f.blocks[f.block][f.index])
  }

  function Advance(f: Frame): Frame {
    f.(index := f.index + 1)
  }

  function Write(f: Frame, dst: Register, v: int): Frame {
    f.(index := f.index + 1, regs := f.regs[dst := v])
  }

  /** The effect of an instruction that stays in its activation. */
  datatype Effect = Effect(frame: Frame, memory: Memory, counter: int)

  function Execute(w: World, f: Frame, i: Instruction, memory: Memory, counter: int): Effect
    requires !i.Call? && !i.Return?
  {
    match i
    case Compute(dst, op, os) => Effect(Write(f, dst, Operate(w, op, Values(os, f.args, f.regs))), memory, counter)
    case Load(dst, a) =>
      var at := Value(a, f.args, f.regs);
      Effect(Write(f, dst, if at in memory then memory[at] else 0), memory, counter)
    case Store(a, v) => Effect(Advance(f), memory[Value(a, f.args, f.regs) := Value(v, f.args, f.regs)], counter)
    case LoadCounter(dst) => Effect(Write(f, dst, counter), memory, counter)
    case StoreCounter(v) => Effect(Advance(f), memory, Value(v, f.args, f.regs))
    case Branch(c, yes, no) =>
      var target := if Value(c, f.args, f.regs) != 0 then yes else no;
      Effect(f.(block := target, index := 0), memory, counter)
  }

  function Entered(name: string, args: seq<int>, dst: Register): Frame {
    Frame(name, 0, 0, args, map[], dst)
  }

  /** A call: a declared function answers at once, a defined one gets an activation; the argument counts must agree. */
  function Invoke(w: World, m: seq<Function>, rest: seq<Frame>, f: Frame, i: Instruction, memory: Memory,
      counter: int): State
    requires i.Call?
  {
    var g, vs := Find(m, i.callee), Values(i.args, f.args, f.regs);
    if g.Missing? || |vs| != |g.f.params| then Stuck
    else if g.f.Declared() then
      var answer := w.external(i.callee, vs, memory);
      Running(rest + [Write(f, i.dst, answer.0)], answer.1, counter)
    else Running(rest + [Advance(f)] + [Entered(i.callee, vs, i.dst)], memory, counter)
  }

  /** A return: the caller gets the value, or the program ends. */
  function Leave(rest: seq<Frame>, f: Frame, i: Instruction, memory: Memory, counter: int): State
    requires i.Return?
  {
    var v := Value(i.result, f.args, f.regs);
    if rest == [] then Finished(v, memory, counter)
    else
      var caller := rest[|rest| - 1];
      Running(rest[..|rest| - 1] + [caller.(regs := caller.regs[f.dst := v])], memory, counter)
  }

  function Step(w: World, m: seq<Function>, s: State): State {
    if !s.Running? then s
    else if s.frames == [] then Stuck
    else
      var rest, f := s.frames[..|s.frames| - 1], s.frames[|s.frames| - 1];
      var i := Fetch(m, f);
      if i.Nothing? then Stuck
      else if i.instruction.Call? then Invoke(w, m, rest, f, i.instruction, s.memory, s.counter)
      else if i.instruction.Return? then Leave(rest, f, i.instruction, s.memory, s.counter)
      else
        var e := Execute(w, f, i.instruction, s.memory, s.counter);
        Running(rest + [e.frame], e.memory, e.counter)
  }

  // ---------- A step, by what the innermost activation is at ----------

  lemma StepStuck(w: World, t: seq<Function>, rest: seq<Frame>, g: Frame, memory: Memory, c: int)
    requires Fetch(t, g).Nothing?
    ensures Step(w, t, Running(rest + [g], memory, c)) == Stuck
  {
    hide Fetch;
    assert (rest + [g])[..|rest|] == rest;
  }

  lemma StepLeave(w: World, t: seq<Function>, rest: seq<Frame>, g: Frame, i: Instruction, memory: Memory, c: int)
    requires Fetch(t, g) == Next(i) && i.Return?
    ensures Step(w, t, Running(rest + [g], memory, c)) == Leave(rest, g, i, memory, c)
  {
    hide Fetch;
    assert (rest + [g])[..|rest|] == rest;
  }

  lemma StepInvoke(w: World, t: seq<Function>, rest: seq<Frame>, g: Frame, i: Instruction, memory: Memory, c: int)
    requires Fetch(t, g) == Next(i) && i.Call?
    ensures Step(w, t, Running(rest + [g], memory, c)) == Invoke(w, t, rest, g, i, memory, c)
  {
    hide Fetch, Invoke;
    assert (rest + [g])[..|rest|] == rest;
  }

  lemma StepExecute(w: World, t: seq<Function>, rest: seq<Frame>, g: Frame, i: Instruction, memory: Memory, c: int)
    requires Fetch(t, g) == Next(i) && !i.Call? && !i.Return?
    ensures var e := Execute(w, g, i, memory, c);
            Step(w, t, Running(rest + [g], memory, c)) == Running(rest + [e.frame], e.memory, e.counter)
  {
    hide Fetch, Execute;
    assert (rest + [g])[..|rest|] == rest;
  }

  function Steps(w: World, m: seq<Function>, s: State, n: nat): State
    decreases n
  {
    if n == 0 then s else Steps(w, m, Step(w, m, s), n - 1)
  }

  lemma {:induction false} StepsAdd(w: World, m: seq<Function>, s: State, a: nat, b: nat)
    ensures Steps(w, m, s, a + b) == Steps(w, m, Steps(w, m, s, a), b)
    decreases a
  {
    if a > 0 {
      StepsAdd(w, m, Step(w, m, s), a - 1, b);
    }
  }

  /** The start of a program. */
  function Start(args: seq<int>, memory: Memory): State {
    Running([Entered("main", args, Named(0))], memory, 0)
  }

  /** Direct calls name functions of the module, with as many arguments as they take. */
  ghost predicate Resolved(m: seq<Function>) {
    forall f, b, k :: f in m && 0 <= b < |f.blocks| && 0 <= k < |f.blocks[b]| ==> CallResolved(m, f.blocks[b][k])
  }

  predicate CallResolved(m: seq<Function>, i: Instruction) {
    i.Call? ==> Find(m, i.callee).Known? && |i.args| == |Find(m, i.callee).f.params|
  }
}

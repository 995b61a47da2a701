/** A tracked program does what the program does, and its counter counts the live activations in every state. */
module TrackingRuns {
  import opened Ir
  import opened Tracking

  // ---------- The inserted sequence ----------

  /** The code stands where the frame is. */
  ghost predicate CodeHere(t: seq<Function>, f: Frame, code: Block) {
    forall j: nat :: j < |code| ==> Fetch(t, f.(index := f.index + j)) == Next(code[j])
  }

  ghost predicate BumpAt(t: seq<Function>, f: Frame, base: nat, delta: int) {
    CodeHere(t, f, Bump(base, delta))
  }

  lemma CodeSplit(t: seq<Function>, f: Frame, code: Block, last: Instruction)
    requires CodeHere(t, f, code + [last])
    ensures CodeHere(t, f, code) && Fetch(t, f.(index := f.index + |code|)) == Next(last)
  {
    hide Fetch;
    assert forall j: nat :: j < |code| ==> (code + [last])[j] == code[j];
    assert (code + [last])[|code|] == last;
  }

  function Extended16(c: int): int {
    if c < 0x8000 then c else c + 0xFFFF_0000
  }

  /** A 16-bit sum. */
  function Plus(c: int, delta: int): int {
    (c + delta) % 0x1_0000
  }

  lemma CutSum(c: int, delta: int)
    requires 0 <= c < 0x1_0000 && -1 <= delta <= 1
    ensures (Extended16(c) + delta) % 0x1_0000_0000 % 0x1_0000 == Plus(c, delta)
  {
    var s := Extended16(c) + delta;
    if s < 0 {
      assert s % 0x1_0000_0000 == 0xFFFF_FFFF;
    } else if s >= 0x1_0000_0000 {
      assert s % 0x1_0000_0000 == 0;
    } else {
      assert s % 0x1_0000_0000 == s;
      if c >= 0x8000 {
        assert s == 0xFFFF * 0x1_0000 + (c + delta);
      }
    }
  }

  /** The registers after j instructions of the sequence. */
  function BumpRegs(regs: map<Register, int>, base: nat, delta: int, c: int, j: nat): map<Register, int> {
    if j == 0 then regs
    else
      var loaded := regs[Fresh(base) := c];
      if j == 1 then loaded
      else
        var extended := loaded[Fresh(base + 1) := Extended16(c)];
        if j == 2 then extended
        else
          var summed := extended[Fresh(base + 2) := (Extended16(c) + delta) % 0x1_0000_0000];
          if j == 3 then summed else summed[Fresh(base + 3) := Plus(c, delta)]
  }

  function BumpFrame(f: Frame, base: nat, delta: int, c: int, j: nat): Frame {
    f.(index := f.index + j, regs := BumpRegs(f.regs, base, delta, c, j))
  }

  /** The state after j instructions of the sequence: the counter changes with the last one. */
  function BumpState(rest: seq<Frame>, f: Frame, memory: Memory, base: nat, delta: int, c: int, j: nat): State {
    Running(rest + [BumpFrame(f, base, delta, c, j)], memory, if j < 5 then c else Plus(c, delta))
  }

  lemma BumpStep(w: World, t: seq<Function>, rest: seq<Frame>, f: Frame, memory: Memory, base: nat, delta: int,
      c: int, j: nat)
    requires BumpAt(t, f, base, delta) && j < 5 && 0 <= c < 0x1_0000 && -1 <= delta <= 1
    ensures Step(w, t, BumpState(rest, f, memory, base, delta, c, j)) ==
        BumpState(rest, f, memory, base, delta, c, j + 1)
  {
    hide Find;
    CutSum(c, delta);
    var g := BumpFrame(f, base, delta, c, j);
    FetchIgnoresRegs(t, f.(index := f.index + j), g);
    assert (rest + [g])[..|rest|] == rest;
    var i := Bump(base, delta)[j];
    BumpExecute(w, f, memory, base, delta, c, j);
    hide Execute, BumpFrame, Fetch, Bump;
  }

  lemma FetchIgnoresRegs(t: seq<Function>, f: Frame, g: Frame)
    requires f.fn == g.fn && f.block == g.block && f.index == g.index
    ensures Fetch(t, f) == Fetch(t, g)
  {
  }

  lemma BumpExecute(w: World, f: Frame, memory: Memory, base: nat, delta: int, c: int, j: nat)
    requires j < 5 && 0 <= c < 0x1_0000 && -1 <= delta <= 1
    ensures var i := Bump(base, delta)[j];
            Execute(w, BumpFrame(f, base, delta, c, j), i, memory, c)
            == Effect(BumpFrame(f, base, delta, c, j + 1), memory, if j < 4 then c else Plus(c, delta))
  {
    CutSum(c, delta);
    hide Plus, Extended16;
    ExtendedIs(c);
  }

  lemma ExtendedIs(c: int)
    requires 0 <= c < 0x1_0000
    ensures Extended16(c) == if c % 0x1_0000 < 0x8000 then c % 0x1_0000 else c % 0x1_0000 + 0xFFFF_0000
  {
  }

  lemma {:induction false} BumpSteps(w: World, t: seq<Function>, rest: seq<Frame>, f: Frame, memory: Memory,
      base: nat, delta: int, c: int, j: nat)
    requires BumpAt(t, f, base, delta) && j <= 5 && 0 <= c < 0x1_0000 && -1 <= delta <= 1
    ensures Steps(w, t, Running(rest + [f], memory, c), j) == BumpState(rest, f, memory, base, delta, c, j)
    decreases j
  {
    hide Step, BumpAt, Plus;
    if j > 0 {
      BumpSteps(w, t, rest, f, memory, base, delta, c, j - 1);
      StepsLast(w, t, Running(rest + [f], memory, c), j - 1);
      BumpStep(w, t, rest, f, memory, base, delta, c, j - 1);
    }
  }

  lemma StepsLast(w: World, m: seq<Function>, s: State, n: nat)
    ensures Steps(w, m, s, n + 1) == Step(w, m, Steps(w, m, s, n))
  {
    StepsAdd(w, m, s, n, 1);
    hide Step;
    assert Steps(w, m, Steps(w, m, s, n), 1) == Steps(w, m, Step(w, m, Steps(w, m, s, n)), 0);
  }

  // ---------- Corresponding states ----------

  /** Named registers hold the same values. */
  ghost predicate Agree(r: map<Register, int>, r': map<Register, int>) {
    forall n: nat :: ReadRegister(r, Named(n)) == ReadRegister(r', Named(n))
  }

  /** The same activation, at the corresponding position. */
  ghost predicate SameFrame(m: seq<Function>, f: Frame, f': Frame) {
    && Find(m, f.fn).Known? && UntrackedFunction(Find(m, f.fn).f)
        && Reachable(Find(m, f.fn).f, f.block, f.index) && f.dst.Named?
    && f'.fn == f.fn && f'.block == f.block && f'.index == Offset(Find(m, f.fn).f, f.block, f.index)
    && f'.args == f.args && f'.dst == f.dst && Agree(f.regs, f'.regs)
  }

  ghost predicate SameFrames(m: seq<Function>, fs: seq<Frame>, fs': seq<Frame>) {
    |fs| == |fs'| && forall k :: 0 <= k < |fs| ==> SameFrame(m, fs[k], fs'[k])
  }

  /** The state of the tracked program between two instructions of the program: everything is the same, and the counter
      is the number of activations. */
  ghost predicate Sync(m: seq<Function>, s: State, s': State) {
    match s
    case Running(fs, memory, c) => s'.Running? && SameFrames(m, fs, s'.frames) && s'.memory == memory
        && s'.counter == |fs| % 0x1_0000
    case Finished(v, memory, c) => s' == Finished(v, memory, 0)
    case Stuck => s' == Stuck
  }

  // ---------- Values ----------

  lemma SameValue(o: Operand, args: seq<int>, r: map<Register, int>, r': map<Register, int>)
    requires Plain(o) && Agree(r, r')
    ensures Value(o, args, r) == Value(o, args, r')
  {
  }

  lemma SameValues(os: seq<Operand>, args: seq<int>, r: map<Register, int>, r': map<Register, int>)
    requires AllPlain(os) && Agree(r, r')
    ensures Values(os, args, r) == Values(os, args, r')
  {
    hide Agree;
    forall k | 0 <= k < |os| ensures Value(os[k], args, r) == Value(os[k], args, r') {
      SameValue(os[k], args, r, r');
    }
  }

  lemma AgreeWrite(r: map<Register, int>, r': map<Register, int>, dst: Register, v: int)
    requires Agree(r, r')
    ensures Agree(r[dst := v], r'[dst := v])
  {
  }

  lemma AgreeBump(r: map<Register, int>, r': map<Register, int>, base: nat, delta: int, c: int, j: nat)
    requires Agree(r, r')
    ensures Agree(r, BumpRegs(r', base, delta, c, j))
  {
    hide Extended16, Plus;
  }

  // ---------- One instruction ----------

  /** At corresponding positions stands the code of the same instruction. */
  lemma SameFetch(m: seq<Function>, f: Frame, f': Frame)
    requires SameFrame(m, f, f')
    ensures Fetch(m, f).Nothing? ==> Fetch(TrackModule(m), f').Nothing?
    ensures Fetch(m, f).Next? ==>
              var i := Fetch(m, f).instruction;
              && Untracked(i) && Reachable(Find(m, f.fn).f, f.block, f.index + 1)
              && Offset(Find(m, f.fn).f, f.block, f.index + 1) == f'.index + |TrackInstruction(i)|
              && CodeHere(TrackModule(m), f', TrackInstruction(i))
  {
    hide Find, Fetch, TrackModule, TrackFunction, Offset, TrackInstruction, Agree, Untracked, CodeIn;
    var g := Find(m, f.fn).f;
    FindTracked(m, f.fn);
    CodeTracked(g, f.block, f.index);
    FetchIs(m, f);
    FetchIs(TrackModule(m), f');
    if Fetch(m, f).Next? {
      CodeUntracked(g, f.block, f.index);
      var t := TrackInstruction(Fetch(m, f).instruction);
      forall j: nat | j < |t| ensures Fetch(TrackModule(m), f'.(index := f'.index + j)) == Next(t[j]) {
        FetchIs(TrackModule(m), f'.(index := f'.index + j));
      }
    }
  }

  lemma FetchIs(m: seq<Function>, f: Frame)
    requires Find(m, f.fn).Known?
    ensures Fetch(m, f) == CodeIn(Find(m, f.fn).f, f.block, f.index)
  {
  }

  lemma CodeUntracked(f: Function, block: nat, index: nat)
    requires UntrackedFunction(f) && CodeIn(f, block, index).Next?
    ensures Untracked(CodeIn(f, block, index).instruction) && Reachable(f, block, index + 1)
    ensures block < |f.blocks| && index < |f.blocks[block]|
        && CodeIn(f, block, index).instruction == f.blocks[block][index]
  {
    assert UntrackedBlock(f.blocks[block]);
  }

  /** An instruction that is not a return stands there unchanged. */
  lemma SameInstruction(m: seq<Function>, f: Frame, f': Frame, i: Instruction)
    requires SameFrame(m, f, f') && Fetch(m, f) == Next(i) && !i.Return?
    ensures Fetch(TrackModule(m), f') == Next(i) && Untracked(i) && (!i.Branch? ==>
        SameFrame(m, Advance(f), Advance(f')))
  {
    hide Find, Fetch, TrackModule, Untracked, Offset, Agree, UntrackedFunction;
    SameFetch(m, f, f');
    assert TrackInstruction(i) == [i] == [] + [i];
    CodeSplit(TrackModule(m), f', [], i);
    assert f'.(index := f'.index + 0) == f';
  }

  lemma WrittenSame(m: seq<Function>, f: Frame, f': Frame, dst: Register, v: int)
    requires SameFrame(m, Advance(f), Advance(f')) && dst.Named?
    ensures SameFrame(m, Write(f, dst, v), Write(f', dst, v))
  {
    AgreeWrite(f.regs, f'.regs, dst, v);
    hide Agree, Find, Offset, UntrackedFunction;
  }

  /** The start of a block other than the entry block is the start of its code. */
  lemma BlockStart(f: Function, block: nat)
    requires block != 0
    ensures Reachable(f, block, 0) && Offset(f, block, 0) == 0
  {
    if block < |f.blocks| {
      assert f.blocks[block][..0] == [];
    }
  }

  lemma SameExecute(w: World, m: seq<Function>, f: Frame, f': Frame, i: Instruction, memory: Memory, c: int, c': int)
    requires SameFrame(m, f, f') && Fetch(m, f) == Next(i) && !i.Call? && !i.Return?
    ensures var e, e' := Execute(w, f, i, memory, c), Execute(w, f', i, memory, c');
            SameFrame(m, e.frame, e'.frame) && e'.memory == e.memory && e'.counter == c'
  {
    hide Find, Fetch, TrackModule, Value, Values, Operate, SameFrame, Agree, Advance, Write;
    SameInstruction(m, f, f', i);
    SameContents(m, f, f');
    match i
    case Compute(dst, op, os) =>
      SameValues(os, f.args, f.regs, f'.regs);
      WrittenSame(m, f, f', dst, Operate(w, op, Values(os, f.args, f.regs)));
    case Load(dst, a) =>
      SameValue(a, f.args, f.regs, f'.regs);
      var at := Value(a, f.args, f.regs);
      WrittenSame(m, f, f', dst, if at in memory then memory[at] else 0);
    case Store(a, v) =>
      SameValue(a, f.args, f.regs, f'.regs);
      SameValue(v, f.args, f.regs, f'.regs);
    case LoadCounter(dst) =>
    case StoreCounter(v) =>
    case Branch(condition, yes, no) =>
      SameValue(condition, f.args, f.regs, f'.regs);
      BranchSame(m, f, f', if Value(condition, f.args, f.regs) != 0 then yes else no);
  }

  lemma SameContents(m: seq<Function>, f: Frame, f': Frame)
    requires SameFrame(m, f, f')
    ensures f'.args == f.args && f'.dst == f.dst && Agree(f.regs, f'.regs)
  {
  }

  lemma BranchSame(m: seq<Function>, f: Frame, f': Frame, target: nat)
    requires SameFrame(m, f, f') && target != 0
    ensures SameFrame(m, f.(block := target, index := 0), f'.(block := target, index := 0))
  {
    hide Find, Agree, UntrackedFunction, Offset, Reachable;
    BlockStart(Find(m, f.fn).f, target);
  }

  lemma SameAppend(m: seq<Function>, fs: seq<Frame>, fs': seq<Frame>, f: Frame, f': Frame)
    requires SameFrames(m, fs, fs') && SameFrame(m, f, f')
    ensures SameFrames(m, fs + [f], fs' + [f'])
  {
    hide SameFrame;
  }

  lemma SameInit(m: seq<Function>, fs: seq<Frame>, fs': seq<Frame>)
    requires SameFrames(m, fs, fs') && fs != []
    ensures SameFrames(m, fs[..|fs| - 1], fs'[..|fs| - 1]) && SameFrame(m, fs[|fs| - 1], fs'[|fs| - 1])
  {
    hide SameFrame;
  }

  /** How many steps of the tracked program one step of the program takes. */
  function Cost(m: seq<Function>, s: State): nat {
    if !s.Running? || s.frames == [] then 1
    else
      var i := Fetch(m, s.frames[|s.frames| - 1]);
      if i.Nothing? then 1
      else if i.instruction.Return? then 6
      else if i.instruction.Call? && Enters(m, i.instruction) then 6
      else 1
  }

  /** The call starts an activation. */
  predicate Enters(m: seq<Function>, i: Instruction)
    requires i.Call?
  {
    var g := Find(m, i.callee);
    g.Known? && |i.args| == |g.f.params| && !g.f.Declared()
  }

  // ---------- Live activations ----------

  /** Past the increment at the entry and before the decrement at the exit: not in the first five instructions, and not
      at a return, in front of which the counter has been decremented already. */
  predicate Counts(t: seq<Function>, f: Frame) {
    && !(f.block == 0 && f.index < 5)
    && !(Fetch(t, f).Next? && Fetch(t, f).instruction.Return?)
  }

  function Live(t: seq<Function>, fs: seq<Frame>): nat {
    if fs == [] then 0 else Live(t, fs[..|fs| - 1]) + if Counts(t, fs[|fs| - 1]) then 1 else 0
  }

  ghost predicate CounterRight(t: seq<Function>, s: State) {
    s.Running? ==> s.counter == Live(t, s.frames) % 0x1_0000
  }

  lemma LiveAppend(t: seq<Function>, fs: seq<Frame>, f: Frame)
    ensures Live(t, fs + [f]) == Live(t, fs) + if Counts(t, f) then 1 else 0
  {
    assert (fs + [f])[..|fs|] == fs;
    hide Counts;
  }

  lemma SameFrameCounts(m: seq<Function>, f: Frame, f': Frame)
    requires SameFrame(m, f, f')
    ensures Counts(TrackModule(m), f')
  {
    SameFetch(m, f, f');
    hide Find, TrackModule, Agree, UntrackedFunction, Reachable;
    if Fetch(m, f).Next? {
      assert f'.(index := f'.index + 0) == f';
      assert Fetch(TrackModule(m), f') == Next(TrackInstruction(Fetch(m, f).instruction)[0]);
    }
  }

  lemma {:induction false} SyncLive(m: seq<Function>, fs: seq<Frame>, fs': seq<Frame>)
    requires SameFrames(m, fs, fs')
    ensures Live(TrackModule(m), fs') == |fs|
    decreases |fs|
  {
    if fs != [] {
      SameInit(m, fs, fs');
      SameFrameCounts(m, fs[|fs| - 1], fs'[|fs| - 1]);
      SyncLive(m, fs[..|fs| - 1], fs'[..|fs| - 1]);
    }
  }

  lemma SyncRight(m: seq<Function>, s: State, s': State)
    requires Sync(m, s, s')
    ensures CounterRight(TrackModule(m), s')
  {
    if s.Running? {
      SyncLive(m, s.frames, s'.frames);
    }
  }

  // ---------- A return ----------

  lemma ExitCodeAt(m: seq<Function>, f: Frame, f': Frame, i: Instruction)
    requires SameFrame(m, f, f') && Fetch(m, f) == Next(i) && i.Return?
    ensures BumpAt(TrackModule(m), f', 4, -1) && Fetch(TrackModule(m), f'.(index := f'.index + 5)) == Next(i)
    ensures f'.block == 0 ==> f'.index >= 5
  {
    hide Find, Fetch, TrackModule, SameFrame, Untracked, Reachable, Offset, CodeHere;
    SameFetch(m, f, f');
    assert TrackInstruction(i) == Bump(4, -1) + [i];
    hide Bump, TrackInstruction;
    CodeSplit(TrackModule(m), f', Bump(4, -1), i);
    OffsetAtEntry(m, f, f');
  }

  lemma OffsetAtEntry(m: seq<Function>, f: Frame, f': Frame)
    requires SameFrame(m, f, f')
    ensures f'.block == 0 ==> f'.index >= 5
  {
  }

  /** Inside the exit code the activation counts until the counter has been stored. */
  lemma ExitRight(m: seq<Function>, rest: seq<Frame>, rest': seq<Frame>, f: Frame, f': Frame, i: Instruction,
      memory: Memory, c: int, j: nat)
    requires SameFrames(m, rest, rest') && SameFrame(m, f, f') && Fetch(m, f) == Next(i) && i.Return?
    requires j <= 5 && c == (|rest| + 1) % 0x1_0000
    ensures CounterRight(TrackModule(m), BumpState(rest', f', memory, 4, -1, c, j))
  {
    hide TrackModule, Fetch, SameFrame, BumpRegs, Live, SameFrames, BumpAt;
    var t, g := TrackModule(m), BumpFrame(f', 4, -1, c, j);
    ExitCodeAt(m, f, f', i);
    SyncLive(m, rest, rest');
    LiveAppend(t, rest', g);
    SameLength(m, rest, rest');
    FetchIgnoresRegs(t, f'.(index := f'.index + j), g);
    if j < 5 {
      BumpInstruction(t, f', 4, -1, j);
    }
  }

  lemma SameLength(m: seq<Function>, fs: seq<Frame>, fs': seq<Frame>)
    requires SameFrames(m, fs, fs')
    ensures |fs| == |fs'|
  {
  }

  lemma BumpInstruction(t: seq<Function>, f: Frame, base: nat, delta: int, j: nat)
    requires BumpAt(t, f, base, delta) && j < 5
    ensures Fetch(t, f.(index := f.index + j)) == Next(Bump(base, delta)[j]) && !Bump(base, delta)[j].Return?
  {
    hide Fetch;
  }

  lemma ReturnSync(w: World, m: seq<Function>, rest: seq<Frame>, rest': seq<Frame>, f: Frame, f': Frame,
      i: Instruction, memory: Memory, c: int, c': int)
    requires SameFrames(m, rest, rest') && SameFrame(m, f, f') && Fetch(m, f) == Next(i) && i.Return?
        && c' == (|rest| + 1) % 0x1_0000
    ensures Sync(m, Leave(rest, f, i, memory, c), Steps(w, TrackModule(m), Running(rest' + [f'], memory, c'), 6))
  {
    hide Steps, Step, Leave, TrackModule, Sync, SameFrames, BumpRegs, Fetch, BumpAt, Live, Untracked, CodeHere,
        TrackInstruction, Find, UntrackedFunction, Reachable, Offset;
    var t, g := TrackModule(m), BumpFrame(f', 4, -1, c', 5);
    ExitCodeAt(m, f, f', i);
    SameFetch(m, f, f');
    BumpSteps(w, t, rest', f', memory, 4, -1, c', 5);
    StepsLast(w, t, Running(rest' + [f'], memory, c'), 5);
    FetchIgnoresRegs(t, f'.(index := f'.index + 5), g);
    AgreeBump(f.regs, f'.regs, 4, -1, c', 5);
    StepLeave(w, t, rest', g, i, memory, Plus(c', -1));
    MinusOne(|rest|);
    LeaveSync(m, rest, rest', f, g, i, memory, c, Plus(c', -1));
  }

  lemma MinusOne(n: nat)
    ensures Plus((n + 1) % 0x1_0000, -1) == n % 0x1_0000
  {
  }

  lemma LeaveSync(m: seq<Function>, rest: seq<Frame>, rest': seq<Frame>, f: Frame, g: Frame, i: Instruction,
      memory: Memory, c: int, c': int)
    requires SameFrames(m, rest, rest') && Untracked(i) && i.Return? && f.args == g.args && f.dst == g.dst
        && Agree(f.regs, g.regs)
    requires c' == |rest| % 0x1_0000
    ensures Sync(m, Leave(rest, f, i, memory, c), Leave(rest', g, i, memory, c'))
  {
    SameValue(i.result, f.args, f.regs, g.regs);
    hide Value, Agree;
    if rest != [] {
      SameInit(m, rest, rest');
      var k := |rest| - 1;
      var v := Value(i.result, f.args, f.regs);
      AgreeWrite(rest[k].regs, rest'[k].regs, f.dst, v);
      SameAppend(m, rest[..k], rest'[..k], rest[k].(regs := rest[k].regs[f.dst := v]),
          rest'[k].(regs := rest'[k].regs[f.dst := v]));
      hide SameFrames;
    }
  }

  // ---------- A call ----------

  /** The activation of the callee at its very start, and after its entry code. */
  lemma EnteredTracked(m: seq<Function>, callee: string, vs: seq<int>, dst: Register, c: int)
    requires Find(m, callee).Known? && UntrackedFunction(Find(m, callee).f) && !Find(m, callee).f.Declared()
        && dst.Named?
    ensures BumpAt(TrackModule(m), Entered(callee, vs, dst), 0, 1)
    ensures SameFrame(m, Entered(callee, vs, dst), BumpFrame(Entered(callee, vs, dst), 0, 1, c, 5))
  {
    hide Find, TrackModule, TrackFunction, BumpRegs, UntrackedFunction, Fetch;
    var g, f := Find(m, callee).f, Entered(callee, vs, dst);
    FindTracked(m, callee);
    EntryTracked(g);
    AgreeBump(map[], map[], 0, 1, c, 5);
    EntryPlace(g);
    forall j: nat | j < 5 ensures Fetch(TrackModule(m), f.(index := f.index + j)) == Next(Bump(0, 1)[j]) {
      FetchIs(TrackModule(m), f.(index := f.index + j));
    }
    hide Bump, Offset, Agree;
  }

  lemma EntryPlace(f: Function)
    requires !f.Declared()
    ensures Offset(f, 0, 0) == 5 && Reachable(f, 0, 0)
  {
    assert f.blocks[0][..0] == [];
  }

  lemma PlusOne(n: nat)
    ensures Plus(n % 0x1_0000, 1) == (n + 1) % 0x1_0000
  {
  }

  /** Inside the entry code the new activation does not count yet. */
  lemma EntryRight(t: seq<Function>, rest: seq<Frame>, f: Frame, memory: Memory, c: int, j: nat)
    requires f.block == 0 && f.index == 0 && j < 5 && c == Live(t, rest) % 0x1_0000
    ensures CounterRight(t, BumpState(rest, f, memory, 0, 1, c, j))
  {
    hide BumpRegs, Live, Fetch;
    LiveAppend(t, rest, BumpFrame(f, 0, 1, c, j));
  }

  /** The state of the tracked program after a call has been executed and j instructions of the entry code. */
  function EnteringState(rest': seq<Frame>, f': Frame, callee: string, vs: seq<int>, dst: Register, memory: Memory,
      c: int, j: nat): State {
    BumpState(rest' + [Advance(f')], Entered(callee, vs, dst), memory, 0, 1, c, j)
  }

  lemma CallEnters(w: World, m: seq<Function>, rest': seq<Frame>, f: Frame, f': Frame, i: Instruction,
      memory: Memory, c: int, j: nat)
    requires SameFrame(m, f, f') && Fetch(m, f) == Next(i) && i.Call? && Enters(m, i) && UntrackedModule(m)
    requires 0 <= c < 0x1_0000 && j <= 5
    ensures Steps(w, TrackModule(m), Running(rest' + [f'], memory, c), j + 1)
            == EnteringState(rest', f', i.callee, Values(i.args, f.args, f.regs), i.dst, memory, c, j)
  {
    hide Steps, Step, SameFrame, TrackModule, BumpFrame, Fetch, BumpAt, UntrackedModule, CodeHere, Values, Find, Plus;
    var t, vs := TrackModule(m), Values(i.args, f.args, f.regs);
    SameInstruction(m, f, f', i);
    CallValues(m, f, f', i);
    CalleeUntracked(m, i.callee);
    FindTracked(m, i.callee);
    TrackName(Find(m, i.callee).f);
    StepInvoke(w, t, rest', f', i, memory, c);
    EnteredTracked(m, i.callee, vs, i.dst, c);
    assert Step(w, t, Running(rest' + [f'], memory, c)) ==
        Running((rest' + [Advance(f')]) + [Entered(i.callee, vs, i.dst)], memory, c);
    BumpSteps(w, t, rest' + [Advance(f')], Entered(i.callee, vs, i.dst), memory, 0, 1, c, j);
    StepsFirst(w, t, Running(rest' + [f'], memory, c), j);
  }

  lemma StepsFirst(w: World, m: seq<Function>, s: State, n: nat)
    ensures Steps(w, m, s, n + 1) == Steps(w, m, Step(w, m, s), n)
  {
  }

  lemma CallValues(m: seq<Function>, f: Frame, f': Frame, i: Instruction)
    requires SameFrame(m, f, f') && i.Call? && Untracked(i)
    ensures Values(i.args, f'.args, f'.regs) == Values(i.args, f.args, f.regs) && i.dst.Named?
  {
    SameValues(i.args, f.args, f.regs, f'.regs);
    hide Values, Agree;
  }

  lemma CalleeUntracked(m: seq<Function>, callee: string)
    requires UntrackedModule(m) && Find(m, callee).Known?
    ensures UntrackedFunction(Find(m, callee).f)
  {
    hide UntrackedFunction;
  }

  /** A call that enters a function: after its entry code everything corresponds again. */
  lemma CallSync(w: World, m: seq<Function>, rest: seq<Frame>, rest': seq<Frame>, f: Frame, f': Frame,
      i: Instruction, memory: Memory, c: int, c': int)
    requires SameFrames(m, rest, rest') && SameFrame(m, f, f') && Fetch(m, f) == Next(i) && i.Call?
        && Enters(m, i) && UntrackedModule(m)
    requires c' == (|rest| + 1) % 0x1_0000
    ensures Sync(m, Invoke(w, m, rest, f, i, memory, c), Steps(w, TrackModule(m), Running(rest' + [f'], memory, c'), 6))
  {
    hide Steps, SameFrame, SameFrames, TrackModule, BumpFrame, Fetch, UntrackedModule, Values, Find, Plus, Entered,
        Advance, Untracked, UntrackedFunction;
    var vs := Values(i.args, f.args, f.regs);
    SameInstruction(m, f, f', i);
    CallValues(m, f, f', i);
    CalleeUntracked(m, i.callee);
    CallEnters(w, m, rest', f, f', i, memory, c', 5);
    EnteredTracked(m, i.callee, vs, i.dst, c');
    SameAppend(m, rest, rest', Advance(f), Advance(f'));
    SameAppend(m, rest + [Advance(f)], rest' + [Advance(f')], Entered(i.callee, vs, i.dst),
        BumpFrame(Entered(i.callee, vs, i.dst), 0, 1, c', 5));
    PlusOne(|rest| + 1);
  }

  lemma CallRight(w: World, m: seq<Function>, rest: seq<Frame>, rest': seq<Frame>, f: Frame, f': Frame,
      i: Instruction, memory: Memory, c': int, j: nat)
    requires SameFrames(m, rest, rest') && SameFrame(m, f, f') && Fetch(m, f) == Next(i) && i.Call?
        && Enters(m, i) && UntrackedModule(m)
    requires c' == (|rest| + 1) % 0x1_0000 && j < 5
    ensures CounterRight(TrackModule(m), Steps(w, TrackModule(m), Running(rest' + [f'], memory, c'), j + 1))
  {
    hide Steps, SameFrame, SameFrames, TrackModule, BumpState, Fetch, UntrackedModule, Values, Find, CounterRight,
        Live, Advance;
    SameInstruction(m, f, f', i);
    CallEnters(w, m, rest', f, f', i, memory, c', j);
    SameAppend(m, rest, rest', Advance(f), Advance(f'));
    SyncLive(m, rest + [Advance(f)], rest' + [Advance(f')]);
    EntryRight(TrackModule(m), rest' + [Advance(f')], Entered(i.callee, Values(i.args, f.args, f.regs), i.dst),
        memory, c', j);
  }

  /** A call that does not enter a function: an answer, or an error. */
  lemma AnswerSync(w: World, m: seq<Function>, rest: seq<Frame>, rest': seq<Frame>, f: Frame, f': Frame,
      i: Instruction, memory: Memory, c: int, c': int)
    requires SameFrames(m, rest, rest') && SameFrame(m, f, f') && Fetch(m, f) == Next(i) && i.Call? && !Enters(m, i)
    requires c' == (|rest| + 1) % 0x1_0000
    ensures Sync(m, Invoke(w, m, rest, f, i, memory, c), Invoke(w, TrackModule(m), rest', f', i, memory, c'))
  {
    hide SameFrames, TrackModule, Fetch, Values, Find, Untracked;
    var vs := Values(i.args, f.args, f.regs);
    SameInstruction(m, f, f', i);
    CallValues(m, f, f', i);
    FindTracked(m, i.callee);
    if Find(m, i.callee).Known? {
      TrackName(Find(m, i.callee).f);
      if |vs| == |Find(m, i.callee).f.params| {
        var v := w.external(i.callee, vs, memory).0;
        WrittenSame(m, f, f', i.dst, v);
        SameAppend(m, rest, rest', Write(f, i.dst, v), Write(f', i.dst, v));
      }
    }
  }

  // ---------- One step of the program ----------

  /** The states of the tracked program for one step of the program: it ends where the program does, and on the way the
      counter is right. */
  ghost predicate Follows(w: World, m: seq<Function>, s: State, s': State) {
    && Sync(m, Step(w, m, s), Steps(w, TrackModule(m), s', Cost(m, s)))
    && forall j: nat :: j < Cost(m, s) ==> CounterRight(TrackModule(m), Steps(w, TrackModule(m), s', j))
  }

  lemma StepsOne(w: World, m: seq<Function>, s: State)
    ensures Steps(w, m, s, 1) == Step(w, m, s) && Steps(w, m, s, 0) == s
  {
    hide Step;
    StepsFirst(w, m, s, 0);
  }

  /** Steps that the tracked program does in one step too. */
  lemma OneStep(w: World, m: seq<Function>, s: State, s': State)
    requires Sync(m, s, s') && Cost(m, s) == 1 && Sync(m, Step(w, m, s), Step(w, TrackModule(m), s'))
    ensures Follows(w, m, s, s')
  {
    hide Sync, Step, Steps, Cost, CounterRight, TrackModule;
    StepsOne(w, TrackModule(m), s');
    SyncRight(m, s, s');
  }

  lemma Halted(w: World, m: seq<Function>, s: State, s': State)
    requires Sync(m, s, s') && (!s.Running? || s.frames == [])
    ensures Follows(w, m, s, s')
  {
    OneStep(w, m, s, s') by {
      if s.Running? { assert s'.frames == []; }
    }
  }

  lemma Follow(w: World, m: seq<Function>, s: State, s': State)
    requires UntrackedModule(m) && Sync(m, s, s')
    ensures Follows(w, m, s, s')
  {
    if !s.Running? || s.frames == [] {
      Halted(w, m, s, s');
    } else {
      var k := |s.frames| - 1;
      var rest, f, rest', f' := s.frames[..k], s.frames[k], s'.frames[..k], s'.frames[k];
      SameInit(m, s.frames, s'.frames);
      assert s.frames == rest + [f] && s'.frames == rest' + [f'];
      assert s == Running(rest + [f], s.memory, s.counter)
          && s' == Running(rest' + [f'], s.memory, (|rest| + 1) % 0x1_0000);
      FollowTop(w, m, rest, rest', f, f', s.memory, s.counter, s'.counter);
    }
  }

  lemma FollowTop(w: World, m: seq<Function>, rest: seq<Frame>, rest': seq<Frame>, f: Frame, f': Frame,
      memory: Memory, c: int, c': int)
    requires UntrackedModule(m) && SameFrames(m, rest, rest') && SameFrame(m, f, f') && c' == (|rest| + 1) % 0x1_0000
    ensures Follows(w, m, Running(rest + [f], memory, c), Running(rest' + [f'], memory, c'))
  {
    hide Steps, Step, SameFrame, SameFrames, TrackModule, Fetch, UntrackedModule, CounterRight, Invoke, Leave,
        Execute, Enters;
    var t, s, s' := TrackModule(m), Running(rest + [f], memory, c), Running(rest' + [f'], memory, c');
    SameAppend(m, rest, rest', f, f');
    assert (rest + [f])[|rest|] == f;
    var i := Fetch(m, f);
    if i.Nothing? {
      FollowNothing(w, m, rest, rest', f, f', memory, c, c');
    } else if i.instruction.Return? {
      FollowReturn(w, m, rest, rest', f, f', i.instruction, memory, c, c');
    } else if i.instruction.Call? {
      SameInstruction(m, f, f', i.instruction);
      StepInvoke(w, m, rest, f, i.instruction, memory, c);
      StepInvoke(w, t, rest', f', i.instruction, memory, c');
      if Enters(m, i.instruction) {
        FollowCall(w, m, rest, rest', f, f', i.instruction, memory, c, c');
      } else {
        AnswerSync(w, m, rest, rest', f, f', i.instruction, memory, c, c');
        OneStep(w, m, s, s');
      }
    } else {
      SameInstruction(m, f, f', i.instruction);
      StepExecute(w, m, rest, f, i.instruction, memory, c);
      StepExecute(w, t, rest', f', i.instruction, memory, c');
      SameExecute(w, m, f, f', i.instruction, memory, c, c');
      SameAppend(m, rest, rest', Execute(w, f, i.instruction, memory, c).frame, Execute(w, f', i.instruction,
          memory, c').frame);
      OneStep(w, m, s, s');
    }
  }

  lemma FollowNothing(w: World, m: seq<Function>, rest: seq<Frame>, rest': seq<Frame>, f: Frame, f': Frame,
      memory: Memory, c: int, c': int)
    requires SameFrames(m, rest, rest') && SameFrame(m, f, f') && c' == (|rest| + 1) % 0x1_0000 && Fetch(m, f).Nothing?
    ensures Follows(w, m, Running(rest + [f], memory, c), Running(rest' + [f'], memory, c'))
  {
    SameFetch(m, f, f');
    SameAppend(m, rest, rest', f, f');
    hide SameFrame, SameFrames, TrackModule, Fetch, Follows, Invoke, Leave, Execute;
    assert (rest + [f])[|rest|] == f && (rest' + [f'])[|rest'|] == f';
    OneStep(w, m, Running(rest + [f], memory, c), Running(rest' + [f'], memory, c'));
  }

  lemma FollowReturn(w: World, m: seq<Function>, rest: seq<Frame>, rest': seq<Frame>, f: Frame, f': Frame,
      i: Instruction, memory: Memory, c: int, c': int)
    requires SameFrames(m, rest, rest') && SameFrame(m, f, f') && c' == (|rest| + 1) % 0x1_0000
    requires Fetch(m, f) == Next(i) && i.Return?
    ensures Follows(w, m, Running(rest + [f], memory, c), Running(rest' + [f'], memory, c'))
  {
    hide Steps, Step, SameFrame, SameFrames, TrackModule, Fetch, CounterRight, Leave, Sync, BumpAt, BumpState, Enters;
    var t, s, s' := TrackModule(m), Running(rest + [f], memory, c), Running(rest' + [f'], memory, c');
    assert (rest + [f])[|rest|] == f;
    StepLeave(w, m, rest, f, i, memory, c);
    ReturnSync(w, m, rest, rest', f, f', i, memory, c, c');
    ExitCodeAt(m, f, f', i);
    forall j: nat | j < 6 ensures CounterRight(t, Steps(w, t, s', j)) {
      BumpSteps(w, t, rest', f', memory, 4, -1, c', j);
      ExitRight(m, rest, rest', f, f', i, memory, c', j);
    }
  }

  lemma FollowCall(w: World, m: seq<Function>, rest: seq<Frame>, rest': seq<Frame>, f: Frame, f': Frame,
      i: Instruction, memory: Memory, c: int, c': int)
    requires UntrackedModule(m) && SameFrames(m, rest, rest') && SameFrame(m, f, f') && c' == (|rest| + 1) % 0x1_0000
    requires Fetch(m, f) == Next(i) && i.Call? && Enters(m, i)
    ensures Follows(w, m, Running(rest + [f], memory, c), Running(rest' + [f'], memory, c'))
  {
    hide Steps, Step, SameFrame, TrackModule, Fetch, CounterRight, Invoke, UntrackedModule, Enters;
    var t, s, s' := TrackModule(m), Running(rest + [f], memory, c), Running(rest' + [f'], memory, c');
    assert (rest + [f])[|rest|] == f;
    StepInvoke(w, m, rest, f, i, memory, c);
    CallSync(w, m, rest, rest', f, f', i, memory, c, c');
    SameAppend(m, rest, rest', f, f');
    SyncRight(m, s, s');
    StepsOne(w, t, s');
    forall j: nat | 0 < j < 6 ensures CounterRight(t, Steps(w, t, s', j)) {
      CallRight(w, m, rest, rest', f, f', i, memory, c', j - 1);
    }
    hide Sync, SameFrames;
  }

  // ---------- Whole runs ----------

  /** Steps of the tracked program for n steps of the program from s on. */
  function Total(w: World, m: seq<Function>, s: State, n: nat): nat
    decreases n
  {
    if n == 0 then 0 else Cost(m, s) + Total(w, m, Step(w, m, s), n - 1)
  }

  lemma {:induction false} RunSync(w: World, m: seq<Function>, s: State, s': State, n: nat)
    requires UntrackedModule(m) && Sync(m, s, s')
    ensures Sync(m, Steps(w, m, s, n), Steps(w, TrackModule(m), s', Total(w, m, s, n))) && Total(w, m, s, n) >= n
    decreases n
  {
    hide Step, Sync, TrackModule, UntrackedModule, Cost;
    if n > 0 {
      Follow(w, m, s, s');
      CostPositive(m, s);
      var k, r := Cost(m, s), Total(w, m, Step(w, m, s), n - 1);
      StepsAdd(w, TrackModule(m), s', k, r);
      RunSync(w, m, Step(w, m, s), Steps(w, TrackModule(m), s', k), n - 1);
      StepsFirst(w, m, s, n - 1);
      hide Steps;
    }
  }

  lemma CostPositive(m: seq<Function>, s: State)
    ensures Cost(m, s) > 0
  {
    hide Fetch, Enters;
  }

  lemma {:induction false} RunRight(w: World, m: seq<Function>, s: State, s': State, n: nat)
    requires UntrackedModule(m) && Sync(m, s, s')
    ensures CounterRight(TrackModule(m), Steps(w, TrackModule(m), s', n))
    decreases n
  {
    hide Step, Steps, Sync, TrackModule, UntrackedModule, Cost, CounterRight;
    Follow(w, m, s, s');
    CostPositive(m, s);
    var k := Cost(m, s);
    if n >= k {
      StepsAdd(w, TrackModule(m), s', k, n - k);
      RunRight(w, m, Step(w, m, s), Steps(w, TrackModule(m), s', k), n - k);
    }
  }

  /** The tracked program after the entry code of `main`. */
  lemma StartSync(w: World, m: seq<Function>, args: seq<int>, memory: Memory, j: nat)
    requires UntrackedModule(m) && Find(m, "main").Known? && !Find(m, "main").f.Declared() && j <= 5
    ensures Steps(w, TrackModule(m), Start(args, memory), j) ==
        BumpState([], Entered("main", args, Named(0)), memory, 0, 1, 0, j)
    ensures j == 5 ==> Sync(m, Start(args, memory), Steps(w, TrackModule(m), Start(args, memory), j))
  {
    hide Steps, TrackModule, UntrackedModule, Find, BumpAt, BumpFrame, UntrackedFunction;
    var f := Entered("main", args, Named(0));
    CalleeUntracked(m, "main");
    EnteredTracked(m, "main", args, Named(0), 0);
    assert [] + [f] == [f];
    BumpSteps(w, TrackModule(m), [], f, memory, 0, 1, 0, j);
    hide SameFrame;
    if j == 5 {
      assert [] + [BumpFrame(f, 0, 1, 0, 5)] == [BumpFrame(f, 0, 1, 0, 5)];
    }
  }

  /** In every state of a tracked program the counter is the number of live activations, modulo 65536. */
  lemma CounterCounts(w: World, m: seq<Function>, args: seq<int>, memory: Memory, n: nat)
    requires UntrackedModule(m) && Find(m, "main").Known? && !Find(m, "main").f.Declared()
    ensures CounterRight(TrackModule(m), Steps(w, TrackModule(m), Start(args, memory), n))
  {
    hide Steps, TrackModule, UntrackedModule, Find, Sync, BumpState, CounterRight;
    if n < 5 {
      StartSync(w, m, args, memory, n);
      EntryRight(TrackModule(m), [], Entered("main", args, Named(0)), memory, 0, n);
    } else {
      StartSync(w, m, args, memory, 5);
      StepsAdd(w, TrackModule(m), Start(args, memory), 5, n - 5);
      RunRight(w, m, Start(args, memory), Steps(w, TrackModule(m), Start(args, memory), 5), n - 5);
    }
  }

  /** Where the tracked program is after n steps of the program. */
  function Tracked(w: World, m: seq<Function>, args: seq<int>, memory: Memory, n: nat): State {
    Steps(w, TrackModule(m), Start(args, memory), 5 + Total(w, m, Start(args, memory), n))
  }

  /** All other state evolves as in the program: after every number of its steps the tracked program has the same
      activations, registers and memory, and it ends exactly when the program does, with the same result and
      counter 0. */
  lemma SameRuns(w: World, m: seq<Function>, args: seq<int>, memory: Memory, n: nat)
    requires UntrackedModule(m) && Find(m, "main").Known? && !Find(m, "main").f.Declared()
    ensures Sync(m, Steps(w, m, Start(args, memory), n), Tracked(w, m, args, memory, n))
    ensures Total(w, m, Start(args, memory), n) >= n
  {
    hide Steps, TrackModule, UntrackedModule, Find, Sync, Total;
    var s := Start(args, memory);
    StartSync(w, m, args, memory, 5);
    StepsAdd(w, TrackModule(m), s, 5, Total(w, m, s, n));
    RunSync(w, m, s, Steps(w, TrackModule(m), s, 5), n);
  }

  /** A call that returns restores the counter: whenever the program is at the same depth, the counter is the same. */
  lemma ReturnRestores(w: World, m: seq<Function>, args: seq<int>, memory: Memory, before: nat, after: nat)
    requires UntrackedModule(m) && Find(m, "main").Known? && !Find(m, "main").f.Declared()
    requires Steps(w, m, Start(args, memory), before).Running? && Steps(w, m, Start(args, memory), after).Running?
    requires |Steps(w, m, Start(args, memory), before).frames| == |Steps(w, m, Start(args, memory), after).frames|
    ensures Tracked(w, m, args, memory, before).Running? && Tracked(w, m, args, memory, after).Running?
    ensures Tracked(w, m, args, memory, before).counter == Tracked(w, m, args, memory, after).counter
  {
    hide Steps, UntrackedModule, Find, Tracked, SameFrames;
    SameRuns(w, m, args, memory, before);
    SameRuns(w, m, args, memory, after);
  }
}

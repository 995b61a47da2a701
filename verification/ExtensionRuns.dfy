/** Programs run after the signature extension exactly as before, step by step. */
module ExtensionRuns {
  import opened Ir
  import opened Extension

  function ZeroValues(n: nat): (r: seq<int>)
    ensures |r| == n
  {
    seq(n, i => 0)
  }

  /** The activation in the extended module: another name, and zeros behind the arguments. */
  function ImageFrame(x: Extensions, f: Frame): Frame {
    f.(fn := Target(x, f.fn), args := f.args + ZeroValues(Extra(x, f.fn)))
  }

  function ImageFrames(x: Extensions, fs: seq<Frame>): (r: seq<Frame>)
    ensures |r| == |fs|
  {
    seq(|fs|, i requires 0 <= i < |fs| => ImageFrame(x, fs[i]))
  }

  function Image(x: Extensions, s: State): State {
    if s.Running? then s.(frames := ImageFrames(x, s.frames)) else s
  }

  /** All activations are of functions of the module. */
  ghost predicate FramesKnown(m: seq<Function>, s: State) {
    s.Running? ==> forall f :: f in s.frames ==> Find(m, f.fn).Known?
  }

  // ---------- Calls ----------

  lemma FindIn(m: seq<Function>, name: string)
    requires Find(m, name).Known?
    ensures Find(m, name).f in m && Find(m, name).f.name == name
  {
  }

  /** Every call of the new module names a function that is there, with as many arguments as that takes. */
  lemma ResultResolved(m: seq<Function>)
    requires FreshNames(m) && Resolved(m)
    ensures Resolved(Result(m))
  {
    var x := ExtensionsOf(m);
    hide ExtensionsOf, Result, Extended;
    forall g, b, k | g in Result(m) && 0 <= b < |g.blocks| && 0 <= k < |g.blocks[b]|
      ensures CallResolved(Result(m), g.blocks[b][k])
    {
      ResultKnown(m, g);
      var f :| f in m && g == Replacement(x, f);
      assert g.blocks[b][k] == RewriteCall(x, f.blocks[b][k]);
      assert CallResolved(m, f.blocks[b][k]);
      CallStaysResolved(m, f.blocks[b][k]);
    }
  }

  lemma CallStaysResolved(m: seq<Function>, i: Instruction)
    requires FreshNames(m) && CallResolved(m, i)
    ensures CallResolved(Result(m), RewriteCall(ExtensionsOf(m), i))
  {
    hide ExtensionsOf, Result, Replacement, Find;
    if i.Call? {
      var h := Find(m, i.callee).f;
      FindIn(m, i.callee);
      FindReplacement(m, h);
      ReplacementName(m, h);
    }
  }

  // ---------- One step ----------

  lemma ValueImage(x: Extensions, o: Operand, args: seq<int>, n: nat, regs: map<Register, int>)
    ensures Value(o, args + ZeroValues(n), regs) == Value(o, args, regs)
  {
  }

  lemma ValuesImage(x: Extensions, os: seq<Operand>, args: seq<int>, n: nat, regs: map<Register, int>)
    ensures Values(os, args + ZeroValues(n), regs) == Values(os, args, regs)
  {
    forall i | 0 <= i < |os| ensures Value(os[i], args + ZeroValues(n), regs) == Value(os[i], args, regs) {
      ValueImage(x, os[i], args, n, regs);
    }
  }

  /** The values of the added arguments are zeros. */
  lemma ZerosPassed(os: seq<Operand>, n: nat, args: seq<int>, regs: map<Register, int>)
    ensures Values(os + Zeros(n), args, regs) == Values(os, args, regs) + ZeroValues(n)
  {
  }

  lemma FetchImage(m: seq<Function>, f: Frame)
    requires FreshNames(m) && Find(m, f.fn).Known?
    ensures var x := ExtensionsOf(m);
            Fetch(Result(m), ImageFrame(x, f)) == (if Fetch(m, f).Nothing? then Nothing
                else Next(RewriteCall(x, Fetch(m, f).instruction)))
  {
    hide ExtensionsOf, Result, Find, Target, Extended;
    FindIn(m, f.fn);
    FindReplacement(m, Find(m, f.fn).f);
  }

  lemma ExecuteImage(w: World, x: Extensions, f: Frame, i: Instruction, memory: Memory, counter: int)
    requires !i.Call? && !i.Return?
    ensures var e := Execute(w, f, i, memory, counter);
            Execute(w, ImageFrame(x, f), i, memory, counter) == Effect(ImageFrame(x, e.frame), e.memory, e.counter)
    ensures Execute(w, f, i, memory, counter).frame.fn == f.fn
  {
    hide Value, Values, Operate;
    var n := Extra(x, f.fn);
    match i
    case Compute(dst, op, os) => ValuesImage(x, os, f.args, n, f.regs);
    case Load(dst, a) => ValueImage(x, a, f.args, n, f.regs);
    case Store(a, v) => ValueImage(x, a, f.args, n, f.regs); ValueImage(x, v, f.args, n, f.regs);
    case LoadCounter(dst) =>
    case StoreCounter(v) => ValueImage(x, v, f.args, n, f.regs);
    case Branch(c, yes, no) => ValueImage(x, c, f.args, n, f.regs);
  }

  lemma ImageAppend(x: Extensions, fs: seq<Frame>, f: Frame)
    ensures ImageFrames(x, fs + [f]) == ImageFrames(x, fs) + [ImageFrame(x, f)]
  {
  }

  lemma ImageInit(x: Extensions, fs: seq<Frame>)
    requires fs != []
    ensures ImageFrames(x, fs)[..|fs| - 1] == ImageFrames(x, fs[..|fs| - 1])
    ensures ImageFrames(x, fs)[|fs| - 1] == ImageFrame(x, fs[|fs| - 1])
  {
  }

  lemma InvokeImage(w: World, m: seq<Function>, rest: seq<Frame>, f: Frame, i: Instruction, memory: Memory,
      counter: int)
    requires FreshNames(m) && i.Call? && Find(m, i.callee).Known?
    ensures var x := ExtensionsOf(m);
            Invoke(w, Result(m), ImageFrames(x, rest), ImageFrame(x, f), RewriteCall(x, i), memory, counter)
            == Image(x, Invoke(w, m, rest, f, i, memory, counter))
  {
    var x := ExtensionsOf(m);
    hide ExtensionsOf, Result, Find, Values, ImageFrames, ZeroValues, Zeros, CloneName;
    CalleeImage(m, i.callee);
    var n := Extra(x, f.fn);
    ValuesImage(x, i.args, f.args, n, f.regs);
    if i.callee in x {
      ZerosPassed(i.args, x[i.callee], f.args + ZeroValues(n), f.regs);
    }
    var vs := Values(i.args, f.args, f.regs);
    if |vs| == |Find(m, i.callee).f.params| {
      if Find(m, i.callee).f.Declared() {
        ImageAppend(x, rest, Write(f, i.dst, w.external(i.callee, vs, memory).0));
      } else {
        ImageAppend(x, rest, Advance(f));
        ImageAppend(x, rest + [Advance(f)], Entered(i.callee, vs, i.dst));
        NothingAdded(vs);
      }
    }
  }

  lemma NothingAdded(vs: seq<int>)
    ensures vs + ZeroValues(0) == vs
  {
  }

  /** What a call finds: the replacement of what it found before. */
  lemma CalleeImage(m: seq<Function>, callee: string)
    requires FreshNames(m) && Find(m, callee).Known?
    ensures var x := ExtensionsOf(m);
            var r := Find(Result(m), Target(x, callee));
            && r.Known? && |r.f.params| == |Find(m, callee).f.params| + Extra(x, callee)
            && (r.f.Declared() <==> Find(m, callee).f.Declared())
            && (Find(m, callee).f.Declared() ==> callee !in x)
  {
    var h := Find(m, callee).f;
    FindIn(m, callee);
    hide Find, ExtensionsOf, Result;
    FindReplacement(m, h);
    ReplacementName(m, h);
    ExtensionOf(m, h);
  }

  lemma LeaveImage(x: Extensions, rest: seq<Frame>, f: Frame, i: Instruction, memory: Memory, counter: int)
    requires i.Return?
    ensures Leave(ImageFrames(x, rest), ImageFrame(x, f), i, memory, counter) ==
        Image(x, Leave(rest, f, i, memory, counter))
  {
    ValueImage(x, i.result, f.args, Extra(x, f.fn), f.regs);
    hide Value;
    if rest != [] {
      ImageInit(x, rest);
      var caller := rest[|rest| - 1];
      ImageAppend(x, rest[..|rest| - 1], caller.(regs := caller.regs[f.dst := Value(i.result, f.args, f.regs)]));
    }
  }

  /** Steps of the two modules go together, whatever the state. */
  lemma StepImage(w: World, m: seq<Function>, s: State)
    requires FreshNames(m) && Resolved(m) && FramesKnown(m, s)
    ensures Step(w, Result(m), Image(ExtensionsOf(m), s)) == Image(ExtensionsOf(m), Step(w, m, s))
    ensures FramesKnown(m, Step(w, m, s))
  {
    if s.Running? && s.frames != [] {
      var n := |s.frames| - 1;
      var rest, f := s.frames[..n], s.frames[n];
      assert s == Running(rest + [f], s.memory, s.counter);
      StepImageTop(w, m, rest, f, s.memory, s.counter);
      hide Step, ExtensionsOf, Result, ImageFrames;
      ImageAppend(ExtensionsOf(m), rest, f);
    } else {
      hide ExtensionsOf, Result;
    }
  }

  lemma StepImageTop(w: World, m: seq<Function>, rest: seq<Frame>, f: Frame, memory: Memory, c: int)
    requires FreshNames(m) && Resolved(m) && Find(m, f.fn).Known? && FramesKnown(m, Running(rest, memory, c))
    ensures var x, s := ExtensionsOf(m), Running(rest + [f], memory, c);
            && Step(w, Result(m), Running(ImageFrames(x, rest) + [ImageFrame(x, f)], memory, c)) ==
               Image(x, Step(w, m, s))
            && FramesKnown(m, Step(w, m, s))
  {
    hide ExtensionsOf, Result, ImageFrames, ImageFrame, Find, Step, Execute, Invoke, Leave, Fetch, FreshNames, Resolved,
         RewriteCall;
    var x, i := ExtensionsOf(m), Fetch(m, f);
    FetchImage(m, f);
    Rewriting(x, i);
    if i.Nothing? {
      StepStuck(w, m, rest, f, memory, c);
      StepStuck(w, Result(m), ImageFrames(x, rest), ImageFrame(x, f), memory, c);
    } else if i.instruction.Call? {
      FetchResolved(m, f);
      StepInvoke(w, m, rest, f, i.instruction, memory, c);
      StepInvoke(w, Result(m), ImageFrames(x, rest), ImageFrame(x, f), RewriteCall(x, i.instruction), memory, c);
      InvokeImage(w, m, rest, f, i.instruction, memory, c);
      InvokeKnown(w, m, rest, f, i.instruction, memory, c);
    } else if i.instruction.Return? {
      StepLeave(w, m, rest, f, i.instruction, memory, c);
      StepLeave(w, Result(m), ImageFrames(x, rest), ImageFrame(x, f), i.instruction, memory, c);
      LeaveImage(x, rest, f, i.instruction, memory, c);
      LeaveKnown(m, rest, f, i.instruction, memory, c);
    } else {
      var e := Execute(w, f, i.instruction, memory, c);
      StepExecute(w, m, rest, f, i.instruction, memory, c);
      StepExecute(w, Result(m), ImageFrames(x, rest), ImageFrame(x, f), i.instruction, memory, c);
      ExecuteImage(w, x, f, i.instruction, memory, c);
      ImageAppend(x, rest, e.frame);
    }
  }

  lemma Rewriting(x: Extensions, i: Fetched)
    ensures i.Next? && !i.instruction.Call? ==> RewriteCall(x, i.instruction) == i.instruction
    ensures i.Next? && i.instruction.Call? ==> RewriteCall(x, i.instruction).Call?
  {
  }

  lemma FetchResolved(m: seq<Function>, f: Frame)
    requires Resolved(m) && Fetch(m, f).Next?
    ensures CallResolved(m, Fetch(m, f).instruction)
  {
    FindIn(m, f.fn);
  }

  lemma InvokeKnown(w: World, m: seq<Function>, rest: seq<Frame>, f: Frame, i: Instruction, memory: Memory,
      counter: int)
    requires i.Call? && Find(m, i.callee).Known? && Find(m, f.fn).Known? && forall g :: g in rest ==>
        Find(m, g.fn).Known?
    ensures FramesKnown(m, Invoke(w, m, rest, f, i, memory, counter))
  {
    hide Find, Values;
  }

  lemma LeaveKnown(m: seq<Function>, rest: seq<Frame>, f: Frame, i: Instruction, memory: Memory, counter: int)
    requires i.Return? && forall g :: g in rest ==> Find(m, g.fn).Known?
    ensures FramesKnown(m, Leave(rest, f, i, memory, counter))
  {
    hide Find, Value;
  }

  lemma {:induction false} StepsImage(w: World, m: seq<Function>, s: State, n: nat)
    requires FreshNames(m) && Resolved(m) && FramesKnown(m, s)
    ensures Steps(w, Result(m), Image(ExtensionsOf(m), s), n) == Image(ExtensionsOf(m), Steps(w, m, s, n))
    decreases n
  {
    hide Step, ExtensionsOf, Result, FreshNames, Resolved, FramesKnown, Image;
    if n > 0 {
      StepImage(w, m, s);
      StepsImage(w, m, Step(w, m, s), n - 1);
    }
  }

  /** The whole program: after every number of steps the new module is where the old one is, and it ends with the same
      result and memory. */
  lemma SameRuns(w: World, m: seq<Function>, args: seq<int>, memory: Memory, n: nat)
    requires FreshNames(m) && Resolved(m) && Find(m, "main").Known?
    ensures Steps(w, Result(m), Start(args, memory), n) == Image(ExtensionsOf(m), Steps(w, m, Start(args, memory), n))
    ensures var s, s' := Steps(w, m, Start(args, memory), n), Steps(w, Result(m), Start(args, memory), n);
            (s.Running? <==> s'.Running?) && (!s.Running? ==> s' == s)
  {
    var x := ExtensionsOf(m);
    ExtensionsKnown(m, "main");
    assert "main" !in x;
    hide ExtensionsOf, Result, Find, Steps;
    StepsImage(w, m, Start(args, memory), n);
    assert args + ZeroValues(0) == args;
    assert ImageFrame(x, Entered("main", args, Named(0))) == Entered("main", args, Named(0));
    assert Image(x, Start(args, memory)) == Start(args, memory);
  }
}

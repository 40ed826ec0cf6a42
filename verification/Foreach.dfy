/** The Foreach loop of the bytecode, for any loop body whose typing keeps off the loop's own cells. */
module ForeachLoop {
  import opened Alu
  import opened Image
  import opened FrameMachine
  import opened Evaluator

  /** What a loop body can change: its method's variables, the world and vm->sp. */
  datatype Env = Env(params: seq<int>, locals: seq<int>, w: World, vmsp: int)

  /** A loop: its Foreach instruction and the offsets of its body, the method it lies in and what is suspended under it,
      the array and length cells, the operands below them. */
  datatype Loop = Loop(meth: int, at: int, body: set<int>, caller: Stack, pending: Pending, below: seq<int>,
                       array_: int, len: int)

  /** What a body does: the environment after its round for an index, how many steps the round takes, and what holds
      of the environment before it. */
  datatype Work = Work(eff: (int, Env) -> Env, cost: (int, Env) -> nat, inv: (int, Env) -> bool)

  /** The operands the loop itself needs and those below. */
  function Own(l: Loop): (ops: seq<int>)
    ensures |ops| == |l.below| + 2
  {
    l.below + [l.array_, l.len]
  }

  function BodyAt(l: Loop, pc: int, e: Env, above: seq<int>): Body {
    Body(l.meth, pc, End(l.caller), e.params, e.locals, Own(l) + above)
  }

  /** The machine in the loop's method at `pc`, with `above` over the array and length cells. */
  function LoopAt(l: Loop, pc: int, e: Env, above: seq<int>): Config {
    Running(BodyAt(l, pc, e, above), l.caller, e.w, e.vmsp, l.pending)
  }

  /** Exactly these ticks take the machine from `c` to `c'`. */
  ghost predicate Reaches(img: Image, ty: Typing, c: Config, ticks: seq<Tick>, c': Config) {
    Run(img, ty, c, ticks) == Next(c')
  }

  predicate IsLoop(img: Image, l: Loop) { l.at in img.lines && img.lines[l.at].instr.Foreach? && l.len < 0x8000_0000 }

  // ----- the typing of the body

  /** Control stays in the body or comes back to the Foreach. */
  predicate Inward(l: Loop, pc: int) { pc in l.body || pc == l.at }

  /** By the typed heights the instruction takes nothing of the loop's own operands. */
  predicate KeepsOff(img: Image, ty: Typing, l: Loop, pc: int)
    requires pc in img.lines && pc in ty.at
  {
    var line, h, own := img.lines[pc], ty.at[pc].height, |l.below| + 2;
    if Simple(line.instr) then h - Pops(line.instr) >= own && forall f | f in Flows(line) :: Inward(l, f.0)
    else match line.instr
      case StoreVar(_, _, n) => h - n >= own && Inward(l, line.next)
      case Call(withParam0, target) =>
        && (target in img.heads ==> h + (if withParam0 then 1 else 0) - img.heads[target].params >= own)
        && Inward(l, line.next)
      case CallVirtual(_, argc) => h - argc >= own && Inward(l, line.next)
      case CallNative(_, _, argc, _) => h - argc >= own && Inward(l, line.next)
      case Return(_) => false
      case _ => Inward(l, line.next)
  }

  predicate IsBody(img: Image, ty: Typing, l: Loop)
    requires IsLoop(img, l)
  {
    && img.lines[l.at].next in l.body && At(ty, l.at, l.meth, |l.below| + 3) && l.at !in l.body
    && forall pc | pc in l.body :: pc in img.lines && pc in ty.at && KeepsOff(img, ty, l, pc)
  }

  // ----- the loop's frame, wherever the machine is

  function Frames(s: Stack): nat {
    match s
    case Base(_, _) => 0
    case Frame(_, _, _, _, _, caller) => 1 + Frames(caller)
  }

  /** The loop's activation with its own operands untouched. */
  predicate LoopFrame(l: Loop, s: Stack, argc: nat) {
    && s.Frame? && s.caller == l.caller && Inward(l, s.pc)
    && |Own(l)| + argc <= |s.ops| && s.ops[..|Own(l)|] == Own(l)
  }

  /** It is on the stack, on top with `argc` operands lent to a native or below the frames of calls. */
  predicate OnStack(l: Loop, s: Stack, argc: nat) {
    match s
    case Base(_, _) => false
    case Frame(_, _, _, _, _, caller) =>
      if Frames(s) == Frames(l.caller) + 1 then LoopFrame(l, s, argc) else OnStack(l, caller, 0)
  }

  /** It is on a stack that waits for a native. */
  ghost predicate Waits(l: Loop, p: Pending) {
    match p
    case Nobody => false
    case Waiting(top, argc, _, _, outer) => if outer == l.pending then OnStack(l, top, argc) else Waits(l, outer)
  }

  ghost predicate Kept(l: Loop, c: Config) {
    if c.pending == l.pending then OnStack(l, c.control.top, if c.control.Native? then c.control.argc else 0)
    else Waits(l, c.pending)
  }

  /** Back at the Foreach, in the same activation of its method. */
  ghost predicate AtHead(l: Loop, c: Config) {
    && c.pending == l.pending && c.control.Executing? && c.control.top.Frame?
    && c.control.top.caller == l.caller && c.control.top.pc == l.at
  }

  lemma {:induction false} OnStackDeeper(l: Loop, s: Stack, argc: nat)
    requires OnStack(l, s, argc)
    ensures Frames(s) >= Frames(l.caller) + 1
    decreases s
  {
    if Frames(s) != Frames(l.caller) + 1 { OnStackDeeper(l, s.caller, 0); }
  }

  lemma {:induction false} WaitsDeeper(l: Loop, p: Pending)
    requires Waits(l, p)
    ensures Suspended(p) > Suspended(l.pending)
    decreases p
  {
    if p.outer != l.pending { WaitsDeeper(l, p.outer); }
  }

  /** A frame above the loop's can do what it likes. */
  lemma AboveLoop(l: Loop, s: Stack, s': Stack, argc: nat, argc': nat)
    requires OnStack(l, s, argc) && s'.Frame? && s'.caller == s.caller && Frames(s) != Frames(l.caller) + 1
    ensures OnStack(l, s', argc')
  {
  }

  /** The loop's own frame goes on above its operands. */
  lemma LoopGoesOn(l: Loop, s: Stack, s': Stack, k: nat, argc: nat)
    requires LoopFrame(l, s, 0) && s'.Frame? && s'.caller == s.caller && Inward(l, s'.pc)
    requires |Own(l)| <= k <= |s.ops| && s.ops[..k] <= s'.ops && |Own(l)| + argc <= |s'.ops|
    ensures LoopFrame(l, s', argc)
  {
    assert s'.ops[..|Own(l)|] == s'.ops[..k][..|Own(l)|] == s.ops[..|Own(l)|];
  }

  /** A callee on top of the loop's stack. */
  lemma CalleeOn(l: Loop, s: Stack, callee: Stack)
    requires callee.Frame? && callee.caller == s && OnStack(l, s, 0)
    ensures OnStack(l, callee, 0)
  {
    OnStackDeeper(l, s, 0);
  }

  // ----- one step

  /** What holds before a step of the running frame. */
  ghost predicate Stepping(img: Image, ty: Typing, l: Loop, c: Config, top: Stack) {
    && IsLoop(img, l) && IsBody(img, ty, l) && c.control == Executing(top) && top.Frame? && top.pc in img.lines
    && StackOk(img, ty, top, 0) && c.pending == l.pending && OnStack(l, top, 0) && !AtHead(l, c)
  }

  predicate InLoop(l: Loop, s: Stack) { Frames(s) == Frames(l.caller) + 1 }

  lemma TopInBody(img: Image, ty: Typing, l: Loop, c: Config, top: Stack)
    requires Stepping(img, ty, l, c, top) && InLoop(l, top)
    ensures LoopFrame(l, top, 0) && top.pc in l.body && top.pc in ty.at && KeepsOff(img, ty, l, top.pc)
    ensures |top.ops| == ty.at[top.pc].height
  {
  }

  lemma SimpleKept(img: Image, ty: Typing, l: Loop, c: Config, top: Stack)
    requires Stepping(img, ty, l, c, top) && Simple(img.lines[top.pc].instr)
    ensures var o := StepSimple(img, c, top, img.lines[top.pc]); o.Next? ==> Kept(l, o.c)
  {
    hide Perform, Flows, IsBody;
    var line := img.lines[top.pc];
    var k := |top.ops| - Pops(line.instr);
    if k >= 0 {
      var e := Perform(img, line, top.ops[k..], c.w);
      PerformFlows(img, line, top.ops[k..], c.w);
      if e.Go? {
        var top' := top.(ops := top.ops[..k] + e.pushed, pc := e.pc);
        if InLoop(l, top) {
          TopInBody(img, ty, l, c, top);
          LoopGoesOn(l, top, top', k, 0);
        } else {
          AboveLoop(l, top, top', 0, 0);
        }
      }
    }
  }

  lemma VarKept(img: Image, ty: Typing, l: Loop, c: Config, top: Stack)
    requires Stepping(img, ty, l, c, top) && (img.lines[top.pc].instr.LoadVar? || img.lines[top.pc].instr.StoreVar?)
    ensures var o := StepVar(c, top, img.lines[top.pc]); o.Next? ==> Kept(l, o.c)
  {
    hide Put, IsBody;
    var line := img.lines[top.pc];
    var o := StepVar(c, top, line);
    if o.Next? {
      var top', k := o.c.control.top, if line.instr.LoadVar? then |top.ops| else |top.ops| - line.instr.width;
      assert top.ops[..|top.ops|] == top.ops;
      if InLoop(l, top) {
        TopInBody(img, ty, l, c, top);
        LoopGoesOn(l, top, top', k, 0);
      } else {
        AboveLoop(l, top, top', 0, 0);
      }
    }
  }

  lemma InvokeKept(img: Image, ty: Typing, l: Loop, c: Config, top: Stack, ret: int, target: int, t: Tick)
    requires c.pending == l.pending && top.Frame? && OnStack(l, top, 0)
    requires InLoop(l, top) ==> Inward(l, ret)
                                && (target in img.heads ==> |top.ops| - img.heads[target].params >= |Own(l)|)
    ensures var o := Invoke(img, c, top, ret, target, t); o.Next? ==> Kept(l, o.c)
  {
    hide Fit;
    if target in img.heads && img.heads[target].params <= |top.ops| {
      var k := |top.ops| - img.heads[target].params;
      var s := top.(pc := ret, ops := top.ops[..k]);
      if InLoop(l, top) {
        LoopGoesOn(l, top, s, k, 0);
      } else {
        AboveLoop(l, top, s, 0, 0);
      }
      CalleeOn(l, s, Callee(target, img.heads[target], top.(pc := ret), t));
    }
  }

  lemma Pushed(l: Loop, top: Stack, v: int)
    requires top.Frame? && OnStack(l, top, 0)
    ensures OnStack(l, top.(ops := top.ops + [v]), 0) && (InLoop(l, top.(ops := top.ops + [v])) <==> InLoop(l, top))
  {
    var top' := top.(ops := top.ops + [v]);
    assert top.ops[..|top.ops|] == top.ops;
    if InLoop(l, top) {
      LoopGoesOn(l, top, top', |top.ops|, 0);
    } else {
      AboveLoop(l, top, top', 0, 0);
    }
  }

  lemma CallKept(img: Image, ty: Typing, l: Loop, c: Config, top: Stack, t: Tick)
    requires Stepping(img, ty, l, c, top)
    requires var i := img.lines[top.pc].instr; i.Call? || i.CallVirtual? || i.InlineParam0?
    ensures var o := StepCall(img, ty, c, top, img.lines[top.pc], t); o.Next? ==> Kept(l, o.c)
  {
    hide Invoke, GoodTarget, IsBody, OnStack;
    var line := img.lines[top.pc];
    if InLoop(l, top) { TopInBody(img, ty, l, c, top); }
    match line.instr
    case InlineParam0(off) =>
      if |top.params| >= 1 { InlineKept(img, ty, l, c, top, Wrap32(top.params[0] + off)); }
    case Call(withParam0, target) =>
      if !withParam0 {
        InvokeKept(img, ty, l, c, top, line.next, target, t);
      } else if |top.params| >= 1 {
        Pushed(l, top, top.params[0]);
        InvokeKept(img, ty, l, c, top.(ops := top.ops + [top.params[0]]), line.next, target, t);
      }
    case CallVirtual(slot, argc) =>
      if 1 <= argc <= |top.ops| {
        var target := img.resolve(c.w, top.ops[|top.ops| - argc], slot);
        if GoodTarget(img, ty, top.pc, line.next, argc, target) {
          TargetArity(img, ty, top.pc, line.next, argc, target);
          InvokeKept(img, ty, l, c, top, line.next, target, t);
        }
      }
  }

  lemma TargetArity(img: Image, ty: Typing, pc: int, next: int, argc: nat, target: int)
    requires GoodTarget(img, ty, pc, next, argc, target)
    ensures target in img.heads && img.heads[target].params == argc
  {
  }

  lemma InlineKept(img: Image, ty: Typing, l: Loop, c: Config, top: Stack, v: int)
    requires Stepping(img, ty, l, c, top) && img.lines[top.pc].instr.InlineParam0?
    ensures var top' := top.(ops := top.ops + [v], pc := img.lines[top.pc].next); OnStack(l, top', 0)
  {
    hide IsBody;
    var top' := top.(ops := top.ops + [v], pc := img.lines[top.pc].next);
    assert top.ops[..|top.ops|] == top.ops;
    if InLoop(l, top) {
      TopInBody(img, ty, l, c, top);
      LoopGoesOn(l, top, top', |top.ops|, 0);
    } else {
      AboveLoop(l, top, top', 0, 0);
    }
  }

  lemma NativeKept(img: Image, ty: Typing, l: Loop, c: Config, top: Stack)
    requires Stepping(img, ty, l, c, top) && img.lines[top.pc].instr.CallNative?
    requires img.hasNative(img.lines[top.pc].instr.kit, img.lines[top.pc].instr.id)
    ensures var o := StepNative(img, c, top, img.lines[top.pc]); o.Next? ==> Kept(l, o.c)
  {
    hide IsBody;
    var line := img.lines[top.pc];
    var top', argc := top.(pc := line.next), line.instr.argc;
    if argc <= |top.ops| {
      assert top.ops[..|top.ops|] == top.ops;
      if InLoop(l, top) {
        TopInBody(img, ty, l, c, top);
        LoopGoesOn(l, top, top', |top.ops|, argc);
      } else {
        AboveLoop(l, top, top', 0, argc);
      }
    }
  }

  lemma ReturnKept(img: Image, ty: Typing, l: Loop, c: Config, top: Stack)
    requires Stepping(img, ty, l, c, top) && img.lines[top.pc].instr.Return?
    ensures var o := Unwind(c, top, img.lines[top.pc].instr.results); o.Next? ==> Kept(l, o.c)
  {
    hide IsBody;
    if InLoop(l, top) {
      TopInBody(img, ty, l, c, top);
      assert false;
    } else {
      var n := img.lines[top.pc].instr.results;
      OnStackDeeper(l, top.caller, 0);
      if n <= |top.ops| {
        Appended(l, top.caller, top.ops[|top.ops| - n..]);
      }
    }
  }

  lemma Appended(l: Loop, s: Stack, result: seq<int>)
    requires s.Frame? && OnStack(l, s, 0)
    ensures OnStack(l, s.(ops := s.ops + result), 0)
  {
    assert s.ops[..|s.ops|] == s.ops;
    if InLoop(l, s) {
      LoopGoesOn(l, s, s.(ops := s.ops + result), |s.ops|, 0);
    } else {
      AboveLoop(l, s, s.(ops := s.ops + result), 0, 0);
    }
  }

  lemma LeaveKept(l: Loop, c: Config, w: World, v: int)
    requires Kept(l, c)
    ensures var o := Leave(w, c.vmsp, c.pending, v);
            o.Next? && Suspended(o.c.pending) >= Suspended(l.pending) ==> Kept(l, o.c)
  {
    hide OnStack;
  }

  /** Elsewhere than on the loop's own stack every step leaves the stack that waits alone. */
  lemma ElsewhereKept(img: Image, ty: Typing, l: Loop, c: Config, t: Tick)
    requires Kept(l, c) && c.pending != l.pending && c.control.Executing? && Step(img, ty, c, t).Next?
    requires Suspended(Step(img, ty, c, t).c.pending) >= Suspended(l.pending)
    ensures Kept(l, Step(img, ty, c, t).c)
  {
    hide OnStack, Perform, Put, Fit, GoodTarget, NativeResult, Waits, Overruns, Suspended, End;
    forall v | Leave(c.w, c.vmsp, c.pending, v).Next?
      ensures var c' := Leave(c.w, c.vmsp, c.pending, v).c;
              Suspended(c'.pending) >= Suspended(l.pending) ==> Kept(l, c')
    {
      LeaveKept(l, c, c.w, v);
    }
  }

  lemma FinishKept(l: Loop, top: Stack, argc: nat, result: seq<int>)
    requires top.Frame? && argc <= |top.ops| && OnStack(l, top, argc)
    ensures OnStack(l, top.(ops := top.ops[..|top.ops| - argc] + result), 0)
  {
    var k := |top.ops| - argc;
    var top' := top.(ops := top.ops[..k] + result);
    if InLoop(l, top) {
      assert top'.ops[..|Own(l)|] == top.ops[..|Own(l)|];
    } else {
      AboveLoop(l, top, top', argc, 0);
    }
  }

  lemma ActKept(img: Image, ty: Typing, l: Loop, c: Config, t: Tick)
    requires Kept(l, c) && c.control.Native? && c.control.top.Frame? && c.control.argc <= |c.control.top.ops|
    requires Step(img, ty, c, t).Next?
    ensures Kept(l, Step(img, ty, c, t).c)
  {
    hide OnStack, Fit, NativeResult, Overruns;
    var top, argc, n := c.control.top, c.control.argc, c.control.results;
    match c.control.act
    case Finish(lo, hi, w) =>
      if c.pending == l.pending { FinishKept(l, top, argc, NativeResult(lo, hi, n)); }
    case CallBack(w, target, args, resume) =>
      if c.pending != l.pending { WaitsDeeper(l, c.pending); }
      assert Suspended(Waiting(top, argc, n, resume, c.pending)) == Suspended(c.pending) + 1;
  }

  lemma RunningKept(img: Image, ty: Typing, l: Loop, c: Config, top: Stack, t: Tick)
    requires Stepping(img, ty, l, c, top) && Step(img, ty, c, t).Next?
    requires Suspended(Step(img, ty, c, t).c.pending) >= Suspended(l.pending)
    ensures Kept(l, Step(img, ty, c, t).c)
  {
    hide Stepping, StepSimple, StepVar, StepCall, Unwind, Overruns, Kept, Leave;
    assert c.control == Executing(top) && top.Frame? && top.pc in img.lines && Kept(l, c) by {
      SteppingParts(img, ty, l, c, top);
    }
    var i := img.lines[top.pc].instr;
    LeaveKept(l, c, c.w, ERR_NULL_POINTER);
    LeaveKept(l, c, c.w, ERR_STACK_OVERFLOW);
    LeaveKept(l, c, c.w, ERR_UNKNOWN_OPCODE);
    LeaveKept(l, c, c.w, ERR_MISSING_NATIVE);
    if Simple(i) {
      SimpleKept(img, ty, l, c, top);
    } else if i.LoadVar? || i.StoreVar? {
      VarKept(img, ty, l, c, top);
    } else if i.CallNative? {
      if img.hasNative(i.kit, i.id) { NativeKept(img, ty, l, c, top); }
    } else if i.Return? {
      ReturnKept(img, ty, l, c, top);
    } else if !i.Unknown? {
      CallKept(img, ty, l, c, top, t);
    }
  }

  lemma SteppingParts(img: Image, ty: Typing, l: Loop, c: Config, top: Stack)
    requires Stepping(img, ty, l, c, top)
    ensures c.control == Executing(top) && top.Frame? && top.pc in img.lines && Kept(l, c)
  {
  }

  /** Until it is back at its Foreach the loop keeps its operands: branches, calls, natives and their callbacks
      included, as long as its vmCall has not ended. */
  lemma StepKept(img: Image, ty: Typing, l: Loop, c: Config, t: Tick)
    requires WellFormed(img, ty) && Typed(img, ty, c) && IsLoop(img, l) && IsBody(img, ty, l)
    requires Kept(l, c) && !AtHead(l, c) && Step(img, ty, c, t).Next?
    requires Suspended(Step(img, ty, c, t).c.pending) >= Suspended(l.pending)
    ensures Kept(l, Step(img, ty, c, t).c)
  {
    hide WellFormed, IsBody, Step, OnStack, LineOk, AtHead, PendingOk, StackOk, WaitOk;
    if c.control.Native? {
      TypedNative(img, ty, c);
      ActKept(img, ty, l, c, t);
    } else if c.pending == l.pending {
      TopOk(img, ty, c);
      RunningKept(img, ty, l, c, c.control.top, t);
    } else {
      ElsewhereKept(img, ty, l, c, t);
    }
  }

  lemma TypedNative(img: Image, ty: Typing, c: Config)
    requires Typed(img, ty, c) && c.control.Native?
    ensures c.control.top.Frame? && c.control.argc <= |c.control.top.ops|
  {
  }

  // ----- a round of the body

  /** These ticks take the machine back to the Foreach for the first time, and the loop's vmCall does not end on the
      way. */
  ghost predicate Back(img: Image, ty: Typing, l: Loop, c: Config, ticks: seq<Tick>)
    decreases |ticks|
  {
    if AtHead(l, c) then ticks == []
    else
      && ticks != [] && Suspended(c.pending) >= Suspended(l.pending)
      && Step(img, ty, c, ticks[0]).Next? && Back(img, ty, l, Step(img, ty, c, ticks[0]).c, ticks[1..])
  }

  lemma {:induction false} BackKept(img: Image, ty: Typing, l: Loop, c: Config, ticks: seq<Tick>)
    requires WellFormed(img, ty) && Typed(img, ty, c) && IsLoop(img, l) && IsBody(img, ty, l)
    requires Kept(l, c) && Back(img, ty, l, c, ticks)
    ensures Run(img, ty, c, ticks).Next?
    ensures var c' := Run(img, ty, c, ticks).c; Typed(img, ty, c') && Kept(l, c') && AtHead(l, c')
    decreases |ticks|
  {
    hide WellFormed, Typed, IsBody, Step, Kept, AtHead;
    if !AtHead(l, c) {
      var c1 := Step(img, ty, c, ticks[0]).c;
      StepTyped(img, ty, c, ticks[0]);
      assert Suspended(c1.pending) >= Suspended(l.pending) by { BackDeep(img, ty, l, c1, ticks[1..]); }
      StepKept(img, ty, l, c, ticks[0]);
      BackKept(img, ty, l, c1, ticks[1..]);
    }
  }

  lemma BackDeep(img: Image, ty: Typing, l: Loop, c: Config, ticks: seq<Tick>)
    requires Back(img, ty, l, c, ticks)
    ensures Suspended(c.pending) >= Suspended(l.pending)
  {
    hide Step;
  }

  /** At the head the typed height leaves room for one operand over the loop's own. */
  lemma HeadCells(img: Image, ty: Typing, l: Loop, c: Config)
    requires Typed(img, ty, c) && Kept(l, c) && AtHead(l, c) && At(ty, l.at, l.meth, |l.below| + 3)
    ensures c.control.Executing? && c.control.top.Frame? && c.control.top.meth == l.meth
    ensures |c.control.top.ops| == |l.below| + 3
    ensures c.control.top.ops == Own(l) + [c.control.top.ops[|l.below| + 2]]
  {
    hide PendingOk;
    var top := c.control.top;
    assert LoopFrame(l, top, 0);
    assert top.ops == top.ops[..|Own(l)|] + top.ops[|Own(l)|..];
  }

  /** The two cells the Foreach pushes fit on the stack. */
  predicate HasRoom(img: Image, l: Loop, e: Env) { Height(BodyAt(l, l.at, e, [0])) + 2 <= img.stackMax }

  function EnvOf(c: Config): Env
    requires c.control.Executing? && c.control.top.Frame?
  {
    Env(c.control.top.params, c.control.top.locals, c.w, c.vmsp)
  }

  /** One round of the body: entered with the array and index on top, it is back at the Foreach with the index on top
      and the effect done. Of the cells below nothing is asked. */
  ghost predicate Round(img: Image, ty: Typing, l: Loop, k: Work, i: int, e: Env, ticks: seq<Tick>)
    requires IsLoop(img, l)
  {
    var c := LoopAt(l, img.lines[l.at].next, e, [i, l.array_, i]);
    && Back(img, ty, l, c, ticks) && Run(img, ty, c, ticks).Next?
    && var c' := Run(img, ty, c, ticks).c;
       && c'.control.Executing? && c'.control.top.Frame? && c'.control.top.ops != []
       && c'.control.top.ops[|c'.control.top.ops| - 1] == i
       && EnvOf(c') == k.eff(i, e) && k.inv(i + 1, k.eff(i, e))
  }

  /** Every round is one, from typed states with room for it. Nothing else is asked of the body: it may branch, call,
      call back or loop. */
  ghost predicate Balanced(img: Image, ty: Typing, l: Loop, k: Work)
    requires IsLoop(img, l)
  {
    && (forall i: int, e: Env | k.inv(i, e) :: HasRoom(img, l, e) && Typed(img, ty, LoopAt(l, l.at, e, [i - 1])))
    && forall i: int, e: Env, ticks: seq<Tick> | 0 <= i < l.len && k.inv(i, e) && |ticks| == k.cost(i, e) ::
         Round(img, ty, l, k, i, e, ticks)
  }

  /** The body's effects for indices i, i+1, .., len-1, in this order. */
  function Effects(eff: (int, Env) -> Env, i: int, len: int, e: Env): Env
    decreases len - i
  {
    if i >= len then e else Effects(eff, i + 1, len, eff(i, e))
  }

  /** Steps from the head with counter i-1 to the exit: one per test, and the bodies. */
  function Cost(k: Work, i: int, len: int, e: Env): nat
    decreases len - i
  {
    if i >= len then 1 else 1 + k.cost(i, e) + Cost(k, i + 1, len, k.eff(i, e))
  }

  lemma RoundAt(img: Image, ty: Typing, l: Loop, k: Work, i: int, e: Env, ticks: seq<Tick>)
    requires IsLoop(img, l) && Balanced(img, ty, l, k) && 0 <= i < l.len && k.inv(i, e) && |ticks| == k.cost(i, e)
    ensures Round(img, ty, l, k, i, e, ticks)
  {
    hide Round, Typed;
  }

  lemma StateFor(img: Image, ty: Typing, l: Loop, k: Work, i: int, e: Env)
    requires IsLoop(img, l) && Balanced(img, ty, l, k) && k.inv(i, e)
    ensures HasRoom(img, l, e) && Typed(img, ty, LoopAt(l, l.at, e, [i - 1]))
  {
    hide Round, HasRoom, Typed;
  }

  lemma FirstKept(img: Image, ty: Typing, l: Loop, e: Env, above: seq<int>)
    requires IsLoop(img, l) && IsBody(img, ty, l)
    ensures Kept(l, LoopAt(l, img.lines[l.at].next, e, above))
  {
    var s := LoopAt(l, img.lines[l.at].next, e, above).control.top;
    assert s.ops[..|Own(l)|] == Own(l);
  }

  /** So a round leaves the loop's own operands as they were. */
  lemma RoundRuns(img: Image, ty: Typing, l: Loop, k: Work, i: int, e: Env, ticks: seq<Tick>)
    requires WellFormed(img, ty) && IsLoop(img, l) && IsBody(img, ty, l) && Round(img, ty, l, k, i, e, ticks)
    requires Typed(img, ty, LoopAt(l, img.lines[l.at].next, e, [i, l.array_, i]))
    ensures Reaches(img, ty, LoopAt(l, img.lines[l.at].next, e, [i, l.array_, i]), ticks,
                    LoopAt(l, l.at, k.eff(i, e), [i]))
  {
    hide WellFormed, Typed, Run, Back, Kept;
    var c := LoopAt(l, img.lines[l.at].next, e, [i, l.array_, i]);
    FirstKept(img, ty, l, e, [i, l.array_, i]);
    BackKept(img, ty, l, c, ticks);
    HeadCells(img, ty, l, Run(img, ty, c, ticks).c);
  }

  /** Runs follow one another. */
  lemma Then(img: Image, ty: Typing, c: Config, ticks: seq<Tick>, d: Config, more: seq<Tick>, e: Config)
    requires Reaches(img, ty, c, ticks, d) && Reaches(img, ty, d, more, e)
    ensures Reaches(img, ty, c, ticks + more, e)
  {
    hide Run;
    RunAppend(img, ty, c, ticks, more);
  }

  /** One test: the counter goes up and either the exit is taken or array and index are pushed. */
  lemma Head(img: Image, ty: Typing, l: Loop, e: Env, i: int, t: Tick)
    requires IsLoop(img, l) && 0 <= i < 0x8000_0000 && HasRoom(img, l, e)
    ensures var line := img.lines[l.at];
            Reaches(img, ty, LoopAt(l, l.at, e, [i - 1]), [t],
                    if i >= l.len then LoopAt(l, line.instr.to, e, [i]) else LoopAt(l, line.next, e, [i, l.array_, i]))
  {
    hide Run;
    var c := LoopAt(l, l.at, e, [i - 1]);
    var b := BodyAt(l, l.at, e, [i - 1]);
    var k := |b.ops| - 3;
    OneStep(img, ty, c, t);
    assert b.ops[k..] == [l.array_, l.len, i - 1];
    assert b.ops[..k] == l.below;
    assert l.below + [l.array_, l.len, i] == Own(l) + [i];
    assert l.below + [l.array_, l.len, i, l.array_, i] == Own(l) + [i, l.array_, i];
  }

  /** The configuration behind a test is typed like the one before it. */
  lemma TypedBehind(img: Image, ty: Typing, c: Config, t: Tick, c': Config)
    requires WellFormed(img, ty) && Typed(img, ty, c) && Reaches(img, ty, c, [t], c')
    ensures Typed(img, ty, c')
  {
    hide WellFormed, Typed, Step;
    OneStep(img, ty, c, t);
    StepTyped(img, ty, c, t);
  }

  /** From counter i-1 the loop runs its body for i, .., len-1 and leaves with the counter past the last index. */
  lemma {:induction false} LoopFrom(img: Image, ty: Typing, l: Loop, k: Work, i: int, e: Env, ticks: seq<Tick>)
    requires WellFormed(img, ty) && IsLoop(img, l) && IsBody(img, ty, l) && Balanced(img, ty, l, k) && k.inv(i, e)
    requires 0 <= i < 0x8000_0000 && (i <= l.len || i == 0) && |ticks| == Cost(k, i, l.len, e)
    ensures Reaches(img, ty, LoopAt(l, l.at, e, [i - 1]), ticks,
                    LoopAt(l, img.lines[l.at].instr.to, Effects(k.eff, i, l.len, e),
                           [if i <= l.len then l.len else i]))
    ensures k.inv(if i <= l.len then l.len else i, Effects(k.eff, i, l.len, e))
    decreases l.len - i
  {
    hide WellFormed, IsBody, Reaches, LoopAt, Balanced, HasRoom, Typed, Back;
    StateFor(img, ty, l, k, i, e);
    Head(img, ty, l, e, i, ticks[0]);
    var start, line := LoopAt(l, l.at, e, [i - 1]), img.lines[l.at];
    if i < l.len {
      var n, e' := k.cost(i, e), k.eff(i, e);
      var body, rest := ticks[1..1 + n], ticks[1 + n..];
      TypedBehind(img, ty, start, ticks[0], LoopAt(l, line.next, e, [i, l.array_, i]));
      RoundAt(img, ty, l, k, i, e, body);
      RoundRuns(img, ty, l, k, i, e, body);
      assert k.inv(i + 1, e') by { RoundInv(img, ty, l, k, i, e, body); }
      LoopFrom(img, ty, l, k, i + 1, e', rest);
      Then(img, ty, start, [ticks[0]], LoopAt(l, line.next, e, [i, l.array_, i]), body, LoopAt(l, l.at, e', [i]));
      var exit := LoopAt(l, line.instr.to, Effects(k.eff, i, l.len, e), [l.len]);
      assert i + 1 - 1 == i;
      Then(img, ty, start, [ticks[0]] + body, LoopAt(l, l.at, e', [i]), rest, exit);
      assert [ticks[0]] + body + rest == ticks;
    } else {
      assert ticks == [ticks[0]];
    }
  }

  lemma RoundInv(img: Image, ty: Typing, l: Loop, k: Work, i: int, e: Env, ticks: seq<Tick>)
    requires IsLoop(img, l) && Round(img, ty, l, k, i, e, ticks)
    ensures k.inv(i + 1, k.eff(i, e))
  {
    hide Back, Run;
  }

  /** Entered with counter -1, a Foreach whose body comes back with the index on top runs the body once for each index
      from 0 to len-1 in order (never, when len is not positive), and reaches its exit with the array and length cells
      untouched, whatever called the method and whatever natives wait below. */
  lemma ForeachRuns(img: Image, ty: Typing, l: Loop, k: Work, e: Env, ticks: seq<Tick>)
    requires WellFormed(img, ty) && IsLoop(img, l) && IsBody(img, ty, l) && Balanced(img, ty, l, k) && k.inv(0, e)
    requires |ticks| == Cost(k, 0, l.len, e)
    ensures var e' := Effects(k.eff, 0, l.len, e);
            Reaches(img, ty, LoopAt(l, l.at, e, [-1]), ticks,
                    LoopAt(l, img.lines[l.at].instr.to, e', [if l.len > 0 then l.len else 0]))
  {
    hide WellFormed, IsBody, Reaches, LoopAt, Balanced;
    LoopFrom(img, ty, l, k, 0, e, ticks);
  }

  /** A body that never comes back is not balanced: a loop whose body jumps to itself. */
  lemma EndlessBody(img: Image, ty: Typing, l: Loop, k: Work, e: Env)
    requires IsLoop(img, l) && l.len > 0 && k.inv(0, e) && l.at != img.lines[l.at].next
    requires img.lines[l.at].next in img.lines && img.lines[img.lines[l.at].next].instr == Jump(img.lines[l.at].next)
    ensures !Balanced(img, ty, l, k)
  {
    hide Typed, HasRoom, Back, Run;
    if Balanced(img, ty, l, k) {
      var ticks := seq(k.cost(0, e), _ => []);
      RoundAt(img, ty, l, k, 0, e, ticks);
      StateFor(img, ty, l, k, 0, e);
      NeverBack(img, ty, l, e, ticks);
    }
  }

  lemma {:induction false} NeverBack(img: Image, ty: Typing, l: Loop, e: Env, ticks: seq<Tick>)
    requires IsLoop(img, l) && HasRoom(img, l, e) && l.at != img.lines[l.at].next
    requires img.lines[l.at].next in img.lines && img.lines[img.lines[l.at].next].instr == Jump(img.lines[l.at].next)
    ensures !Back(img, ty, l, LoopAt(l, img.lines[l.at].next, e, [0, l.array_, 0]), ticks)
    decreases |ticks|
  {
    hide Step;
    var c := LoopAt(l, img.lines[l.at].next, e, [0, l.array_, 0]);
    if ticks != [] {
      JumpsToItself(img, ty, c, ticks[0]);
      NeverBack(img, ty, l, e, ticks[1..]);
    }
  }

  lemma JumpsToItself(img: Image, ty: Typing, c: Config, t: Tick)
    requires c.control.Executing? && c.control.top.Frame? && c.control.top.pc in img.lines
    requires img.lines[c.control.top.pc].instr == Jump(c.control.top.pc) && End(c.control.top) <= img.stackMax
    ensures Step(img, ty, c, t) == Next(c)
  {
    var top := c.control.top;
    assert top.ops[..|top.ops| - 0] + [] == top.ops;
  }
}

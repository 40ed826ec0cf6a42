/** The stack as the source allocates it: exactly as many cells as the overflow limit (main.c:264-265, svm/vm.c:1488).
    An instruction is tested for overflow before it runs and only against sp, so some steps store behind the last
    cell; exactly these make the flat machine go astray, and up to them it is the frame machine. */
module StackEnd {
  import opened Alu
  import opened Image
  import opened FrameMachine
  import opened Simulation
  import F = FlatMachine

  /** The longer array of the simulation. */
  function Padded(s: F.Flat, pad: seq<int>): F.Flat { s.(mem := s.mem + pad) }

  /** Only locals that no instruction has touched may lie behind the last cell. */
  predicate Inside(img: Image, c: Config) {
    match c.control
    case Executing(top) =>
      && top.Frame? && (top.ops != [] ==> End(top) <= img.stackMax)
      && End(top) - |top.ops| - |top.locals| <= img.stackMax
    case Native(_, _, _, _) => true
  }

  /** The cell array of `s`, all of the stack, is a picture of the frames of `c`; `pad` holds what their untouched
      locals behind the last cell stand for. */
  ghost predicate Pictures(img: Image, s: F.Flat, pad: seq<int>, c: Config) {
    |s.mem| == img.stackMax && |pad| == RED_ZONE && Rel(img, Padded(s, pad), c) && Inside(img, c)
  }

  // ----- one step of the longer array, cut back

  /** `o'` is `o` with the pad behind the array. */
  ghost predicate Lifted(o: F.Outcome, o': F.Outcome, pad: seq<int>) {
    match o
    case Next(s) => o' == F.Next(Padded(s, pad))
    case Halt(v, mem, vmsp, w) => o' == F.Halt(v, mem + pad, vmsp, w)
    case Fault => o'.Fault?
    case Wild => false
  }

  /** The step on the array: astray if it reaches behind the last cell, otherwise the step on the longer array. */
  ghost predicate Cut(img: Image, reach: int, o: F.Outcome, o': F.Outcome, pad: seq<int>) {
    if reach > img.stackMax then o.Wild? else Lifted(o, o', pad)
  }

  lemma CutPut(mem: seq<int>, pad: seq<int>, at: int, ws: seq<int>)
    requires InRange(mem, at, |ws|)
    ensures Put(mem + pad, at, ws) == Put(mem, at, ws) + pad
  {
    hide Put;
  }

  lemma CutRead(mem: seq<int>, pad: seq<int>, i: int, j: int)
    requires 0 <= i <= j <= |mem|
    ensures (mem + pad)[i..j] == mem[i..j]
  {
  }

  lemma CutLeave(mem: seq<int>, vmsp: int, w: World, chain: F.Chain, v: int, pad: seq<int>)
    ensures Lifted(F.Leave(mem, vmsp, w, chain, v), F.Leave(mem + pad, vmsp, w, chain, v), pad)
  {
  }

  ghost predicate ReadyOn(img: Image, s: F.Flat, pad: seq<int>, c: Config, r: F.Regs, top: Stack) {
    |s.mem| == img.stackMax && Ready(img, Padded(s, pad), c, r, top)
  }

  lemma OpsOn(img: Image, s: F.Flat, pad: seq<int>, c: Config, r: F.Regs, top: Stack, k: nat)
    requires ReadyOn(img, s, pad, c, r, top) && k <= |top.ops|
    ensures var at := r.sp + 1 - |top.ops| + k;
            0 <= at <= r.sp + 1 == End(top) <= img.stackMax && 0 <= r.sp && s.mem[at..r.sp + 1] == top.ops[k..]
  {
    hide Placed;
    OpsInArray(img, s.mem + pad, r, top, s.chain, c.pending, k);
    PlacedRegs(img, s.mem + pad, r, top, s.chain, c.pending);
    CutRead(s.mem, pad, r.sp + 1 - |top.ops| + k, r.sp + 1);
  }

  lemma ApplyCut(img: Image, s: F.Flat, pad: seq<int>, r: F.Regs, n: nat, e: Effect)
    requires |s.mem| == img.stackMax && 0 <= r.sp - n + 1 && r.sp < img.stackMax
    ensures Cut(img, if e.Go? then r.sp + 1 - n + |e.pushed| else r.sp + 1, F.Apply(s, r, n, e),
                F.Apply(Padded(s, pad), r, n, e), pad)
  {
    hide Put;
    if e.Go? && r.sp + 1 - n + |e.pushed| <= img.stackMax {
      CutPut(s.mem, pad, r.sp - n + 1, e.pushed);
    }
  }

  lemma SimpleCut(img: Image, ty: Typing, s: F.Flat, pad: seq<int>, c: Config, r: F.Regs, top: Stack)
    requires ReadyOn(img, s, pad, c, r, top) && Fits(img, ty, top) && Simple(img.lines[top.pc].instr)
    ensures var l := img.lines[top.pc];
            Cut(img, FrameReach(img, top, l, c.w), F.StepSimple(img, s, r, l), F.StepSimple(img, Padded(s, pad), r, l),
                pad)
  {
    hide Placed, Put, Perform, F.Apply, Flows;
    var l := img.lines[top.pc];
    var n := Pops(l.instr);
    OpsOn(img, s, pad, c, r, top, |top.ops| - n);
    CutRead(s.mem, pad, r.sp - n + 1, r.sp + 1);
    ApplyCut(img, s, pad, r, n, Perform(img, l, top.ops[|top.ops| - n..], c.w));
  }

  lemma LoadCut(img: Image, s: F.Flat, pad: seq<int>, r: F.Regs, l: Line)
    requires l.instr.LoadVar? && |s.mem| == img.stackMax && 0 <= r.sp < img.stackMax
    requires InRange(s.mem, (if l.instr.isLocal then r.lp else r.pp) + l.instr.index, l.instr.width)
    ensures Cut(img, r.sp + 1 + l.instr.width, F.StepVar(img, s, r, l), F.StepVar(img, Padded(s, pad), r, l), pad)
  {
    hide Put;
    var at, n := (if l.instr.isLocal then r.lp else r.pp) + l.instr.index, l.instr.width;
    CutRead(s.mem, pad, at, at + n);
    if r.sp + 1 + n <= img.stackMax { CutPut(s.mem, pad, r.sp + 1, s.mem[at..at + n]); }
  }

  lemma StoreCut(img: Image, s: F.Flat, pad: seq<int>, r: F.Regs, l: Line)
    requires l.instr.StoreVar? && |s.mem| == img.stackMax && r.sp < img.stackMax
    requires InRange(s.mem, (if l.instr.isLocal then r.lp else r.pp) + l.instr.index, l.instr.width)
    requires 0 <= r.sp - l.instr.width + 1
    ensures Cut(img, r.sp + 1, F.StepVar(img, s, r, l), F.StepVar(img, Padded(s, pad), r, l), pad)
  {
    hide Put;
    var at, n := (if l.instr.isLocal then r.lp else r.pp) + l.instr.index, l.instr.width;
    CutRead(s.mem, pad, r.sp - n + 1, r.sp + 1);
    CutPut(s.mem, pad, at, s.mem[r.sp - n + 1..r.sp + 1]);
  }

  lemma VarCut(img: Image, ty: Typing, s: F.Flat, pad: seq<int>, c: Config, r: F.Regs, top: Stack)
    requires ReadyOn(img, s, pad, c, r, top) && Fits(img, ty, top)
    requires img.lines[top.pc].instr.LoadVar? || img.lines[top.pc].instr.StoreVar?
    ensures var l := img.lines[top.pc];
            Cut(img, FrameReach(img, top, l, c.w), F.StepVar(img, s, r, l), F.StepVar(img, Padded(s, pad), r, l), pad)
  {
    hide Placed, Cut, F.StepVar, Ready;
    var l := img.lines[top.pc];
    VarsBelow(img, s, pad, c, r, top, l.instr.isLocal, l.instr.index, l.instr.width);
    if l.instr.LoadVar? {
      OpsOn(img, s, pad, c, r, top, |top.ops|);
      LoadCut(img, s, pad, r, l);
    } else {
      OpsOn(img, s, pad, c, r, top, |top.ops| - l.instr.width);
      StoreCut(img, s, pad, r, l);
    }
  }

  /** Parameters, saved words and locals lie below the operands. */
  lemma VarsBelow(img: Image, s: F.Flat, pad: seq<int>, c: Config, r: F.Regs, top: Stack, isLocal: bool, i: nat, n: nat)
    requires ReadyOn(img, s, pad, c, r, top) && i + n <= if isLocal then |top.locals| else |top.params|
    ensures InRange(s.mem, (if isLocal then r.lp else r.pp) + i, n)
    ensures 0 <= r.pp == r.fp - r.numParams && InRange(s.mem, r.fp, 3) && InRange(s.mem, r.pp - 1, 1)
  {
    CallerPlaced(img, s.mem + pad, r, top, s.chain, c.pending);
    PlacedRegs(img, s.mem + pad, r, top, s.chain, c.pending);
  }

  lemma InvokeCut(img: Image, s: F.Flat, pad: seq<int>, r: F.Regs, ret: int, target: int)
    requires |s.mem| == img.stackMax && 0 <= r.sp + 1 && target in img.heads
    ensures Cut(img, r.sp + 4, F.Invoke(img, s, r, ret, target), F.Invoke(img, Padded(s, pad), r, ret, target), pad)
  {
    hide Put;
    if r.sp + 4 <= img.stackMax {
      CutPut(s.mem, pad, r.sp + 1, [CodeCell(img, ret), StackCell(img, r.fp), CodeCell(img, target)]);
    }
  }

  lemma Call0Cut(img: Image, s: F.Flat, pad: seq<int>, r: F.Regs, l: Line)
    requires |s.mem| == img.stackMax && 0 <= r.sp < img.stackMax && InRange(s.mem, r.pp, 1)
    requires l.instr.Call? && l.instr.withParam0 && l.instr.target in img.heads
    ensures Cut(img, r.sp + 5, F.StepCall(img, s, r, l), F.StepCall(img, Padded(s, pad), r, l), pad)
  {
    hide Put, F.Invoke;
    if r.sp + 2 <= img.stackMax {
      CutPut(s.mem, pad, r.sp + 1, [s.mem[r.pp]]);
      var s' := s.(mem := Put(s.mem, r.sp + 1, [s.mem[r.pp]]));
      InvokeCut(img, s', pad, r.(sp := r.sp + 1), l.next, l.instr.target);
    }
  }

  lemma InlineCut(img: Image, s: F.Flat, pad: seq<int>, r: F.Regs, l: Line)
    requires |s.mem| == img.stackMax && 0 <= r.sp < img.stackMax && InRange(s.mem, r.pp, 1) && l.instr.InlineParam0?
    ensures Cut(img, r.sp + 2, F.StepCall(img, s, r, l), F.StepCall(img, Padded(s, pad), r, l), pad)
  {
    hide Put;
    if r.sp + 2 <= img.stackMax { CutPut(s.mem, pad, r.sp + 1, [Wrap32(s.mem[r.pp] + l.instr.off)]); }
  }

  lemma VirtualCut(img: Image, s: F.Flat, pad: seq<int>, r: F.Regs, l: Line, o: int)
    requires |s.mem| == img.stackMax && 0 <= r.sp < img.stackMax && l.instr.CallVirtual?
    requires InRange(s.mem, r.sp - l.instr.argc + 1, 1) && s.mem[r.sp - l.instr.argc + 1] == o
    requires img.resolve(s.w, o, l.instr.slot) in img.heads
    ensures Cut(img, r.sp + 4, F.StepCall(img, s, r, l), F.StepCall(img, Padded(s, pad), r, l), pad)
  {
    hide F.Invoke, Cut;
    InvokeCut(img, s, pad, r, l.next, img.resolve(s.w, o, l.instr.slot));
  }

  lemma CallCut(img: Image, ty: Typing, s: F.Flat, pad: seq<int>, c: Config, r: F.Regs, top: Stack)
    requires ReadyOn(img, s, pad, c, r, top) && Fits(img, ty, top)
    requires var i := img.lines[top.pc].instr; i.Call? || i.CallVirtual? || i.InlineParam0?
    requires img.lines[top.pc].instr.CallVirtual? ==>
               var i := img.lines[top.pc].instr;
               img.resolve(c.w, top.ops[|top.ops| - i.argc], i.slot) in img.heads
    ensures var l := img.lines[top.pc];
            Cut(img, FrameReach(img, top, l, c.w), F.StepCall(img, s, r, l), F.StepCall(img, Padded(s, pad), r, l), pad)
  {
    hide Placed, F.StepCall, Cut, F.Invoke;
    var l := img.lines[top.pc];
    OpsOn(img, s, pad, c, r, top, |top.ops|);
    match l.instr
    case InlineParam0(off) =>
      VarsBelow(img, s, pad, c, r, top, false, 0, 1);
      InlineCut(img, s, pad, r, l);
    case Call(withParam0, target) =>
      if withParam0 {
        VarsBelow(img, s, pad, c, r, top, false, 0, 1);
        Call0Cut(img, s, pad, r, l);
      } else {
        PlainCallCut(img, s, pad, r, l);
      }
    case CallVirtual(slot, argc) =>
      OpsOn(img, s, pad, c, r, top, |top.ops| - argc);
      assert s.mem[r.sp - argc + 1] == s.mem[r.sp - argc + 1..r.sp + 1][0];
      VirtualCut(img, s, pad, r, l, top.ops[|top.ops| - argc]);
  }

  lemma PlainCallCut(img: Image, s: F.Flat, pad: seq<int>, r: F.Regs, l: Line)
    requires |s.mem| == img.stackMax && 0 <= r.sp < img.stackMax
    requires l.instr.Call? && !l.instr.withParam0 && l.instr.target in img.heads
    ensures Cut(img, r.sp + 4, F.StepCall(img, s, r, l), F.StepCall(img, Padded(s, pad), r, l), pad)
  {
    hide F.Invoke, Cut;
    InvokeCut(img, s, pad, r, l.next, l.instr.target);
  }

  lemma NativeCut(img: Image, ty: Typing, s: F.Flat, pad: seq<int>, c: Config, r: F.Regs, top: Stack)
    requires ReadyOn(img, s, pad, c, r, top) && Fits(img, ty, top) && img.lines[top.pc].instr.CallNative?
    ensures var l := img.lines[top.pc];
            Lifted(F.StepNative(img, s, r, l), F.StepNative(img, Padded(s, pad), r, l), pad)
  {
    hide Placed, F.Leave;
    var l := img.lines[top.pc];
    var k := |top.ops| - l.instr.argc;
    OpsOn(img, s, pad, c, r, top, k);
    CutRead(s.mem, pad, r.sp - l.instr.argc + 1, r.sp + 1);
    CutLeave(s.mem, s.vmsp, s.w, s.chain, ERR_MISSING_NATIVE, pad);
  }

  /** What a return reads, on registers alone. */
  lemma UnwindCut(img: Image, s: F.Flat, pad: seq<int>, r: F.Regs, n: nat)
    requires |s.mem| == img.stackMax && InRange(s.mem, r.sp - n + 1, n) && InRange(s.mem, r.fp, 3)
    requires InRange(s.mem, r.fp - r.numParams - 1, 1) && r.sp < img.stackMax
    requires s.mem[r.fp] != 0 ==> F.ReadsCaller(img, s.mem, r, n)
    ensures Lifted(F.Unwind(img, s, r, n), F.Unwind(img, Padded(s, pad), r, n), pad)
  {
    if s.mem[r.fp] == 0 {
      HostCut(img, s, pad, r, n);
    } else {
      CallerCut(img, s, pad, r, n);
    }
  }

  lemma HostCut(img: Image, s: F.Flat, pad: seq<int>, r: F.Regs, n: nat)
    requires InRange(s.mem, r.sp - n + 1, n) && InRange(s.mem, r.fp, 3) && InRange(s.mem, r.fp - r.numParams - 1, 1)
    requires s.mem[r.fp] == 0
    ensures Lifted(F.Unwind(img, s, r, n), F.Unwind(img, Padded(s, pad), r, n), pad)
  {
    hide Put, F.Leave;
    var mem := s.mem + pad;
    assert mem[r.fp] == 0 && mem[r.fp - r.numParams - 1] == s.mem[r.fp - r.numParams - 1];
    CutRead(s.mem, pad, r.sp - n + 1, r.sp + 1);
    var result := s.mem[r.sp - n + 1..r.sp + 1];
    var v := if n == 0 then s.mem[r.fp - r.numParams - 1] else if n == 1 then result[0] else 0;
    CutLeave(s.mem, s.vmsp, s.w, s.chain, v, pad);
  }

  lemma CallerCut(img: Image, s: F.Flat, pad: seq<int>, r: F.Regs, n: nat)
    requires F.ReadsCaller(img, s.mem, r, n)
    ensures Lifted(F.Unwind(img, s, r, n), F.Unwind(img, Padded(s, pad), r, n), pad)
  {
    hide F.Unwind, Put, F.ReadsCaller, F.CallerRegs;
    SameCaller(img, s.mem, pad, r, n);
    F.UnwindBack(img, s, r, n);
    F.UnwindBack(img, Padded(s, pad), r, n);
    CutRead(s.mem, pad, r.sp - n + 1, r.sp + 1);
    CutPut(s.mem, pad, r.fp - r.numParams, s.mem[r.sp - n + 1..r.sp + 1]);
  }

  lemma SameCaller(img: Image, mem: seq<int>, pad: seq<int>, r: F.Regs, n: nat)
    requires F.ReadsCaller(img, mem, r, n)
    ensures F.ReadsCaller(img, mem + pad, r, n) && F.CallerRegs(img, mem + pad, r, n) == F.CallerRegs(img, mem, r, n)
    ensures InRange(mem, r.sp - n + 1, n) && InRange(mem, r.fp - r.numParams, n)
  {
    hide StackIndex, CodeOffset;
    var fp := StackIndex(img, mem[r.fp + 1]);
    assert (mem + pad)[r.fp] == mem[r.fp] && (mem + pad)[r.fp + 1] == mem[r.fp + 1];
    assert (mem + pad)[fp + 2] == mem[fp + 2];
  }

  /** The saved words and the calling frame's method cell lie in the array. */
  lemma ReturnReads(img: Image, s: F.Flat, pad: seq<int>, c: Config, r: F.Regs, top: Stack, n: nat)
    requires ReadyOn(img, s, pad, c, r, top) && n <= |top.ops| && n <= 2 && img.codeBase > 0
    requires top.caller.Frame? && CallerFits(img, top.caller)
    ensures F.ReadsCaller(img, s.mem, r, n)
  {
    hide Placed, BaseEnd, StackIndex, StackCell;
    var mem, fp := s.mem + pad, FpOf(top.caller, r.pp);
    OpsOn(img, s, pad, c, r, top, |top.ops| - n);
    VarsBelow(img, s, pad, c, r, top, false, 0, 0);
    CallerPlaced(img, mem, r, top, s.chain, c.pending);
    assert s.mem[r.fp] == mem[r.fp] && s.mem[r.fp + 1] == mem[r.fp + 1];
    StackRoundTrip(img, fp);
    assert s.mem[fp + 2] == mem[fp + 2];
  }

  lemma ReturnCut(img: Image, ty: Typing, s: F.Flat, pad: seq<int>, c: Config, r: F.Regs, top: Stack)
    requires ReadyOn(img, s, pad, c, r, top) && Fits(img, ty, top) && img.lines[top.pc].instr.Return?
    requires img.codeBase > 0 && img.lines[top.pc].instr.results <= 2 && CallerFits(img, top.caller)
    ensures var n := img.lines[top.pc].instr.results;
            Lifted(F.Unwind(img, s, r, n), F.Unwind(img, Padded(s, pad), r, n), pad)
  {
    hide Placed, F.Unwind, Lifted, StackIndex, StackCell, CallerFits, F.ReadsCaller, BaseEnd;
    var n := img.lines[top.pc].instr.results;
    var mem := s.mem + pad;
    OpsOn(img, s, pad, c, r, top, |top.ops| - n);
    VarsBelow(img, s, pad, c, r, top, false, 0, 0);
    CallerPlaced(img, mem, r, top, s.chain, c.pending);
    assert s.mem[r.fp] == mem[r.fp];
    if top.caller.Frame? {
      ReturnReads(img, s, pad, c, r, top, n);
    }
    UnwindCut(img, s, pad, r, n);
  }

  lemma FinishCut(img: Image, s: F.Flat, pad: seq<int>, at: int, n: nat)
    requires s.mode.InNative? && s.mode.act.Finish? && |s.mem| == img.stackMax && s.mode.results == n <= 2
    requires at == s.mode.caller.sp - s.mode.argc + 1 >= 0
    ensures Cut(img, at + n, F.StepAct(img, s), F.StepAct(img, Padded(s, pad)), pad)
  {
    hide Put, NativeResult;
    if at + n <= img.stackMax {
      CutPut(s.mem, pad, at, NativeResult(s.mode.act.lo, s.mode.act.hi, n));
    }
  }

  lemma ActCut(img: Image, ty: Typing, s: F.Flat, pad: seq<int>, c: Config)
    requires Pictures(img, s, pad, c) && c.control.Native? && c.control.top.Frame?
    requires c.control.argc <= |c.control.top.ops| && c.control.results <= 2
    requires c.control.act.CallBack? ==> c.control.act.target in img.heads && c.control.act.target in ty.kind
    ensures Cut(img, if Overruns(img, ty, c) then img.stackMax + 1 else 0, F.StepAct(img, s),
                F.StepAct(img, Padded(s, pad)), pad)
  {
    hide Put, F.Leave, Placed, NativeResult, F.Enter, Lifted, Laid;
    var r, argc, n := s.mode.caller, s.mode.argc, s.mode.results;
    PlacedRegs(img, s.mem + pad, r, c.control.top, s.chain, c.pending);
    match c.control.act
    case Finish(lo, hi, w) =>
      OpsInArray(img, s.mem + pad, r, c.control.top, s.chain, c.pending, |c.control.top.ops| - argc);
      FinishCut(img, s, pad, r.sp - argc + 1, n);
    case CallBack(w, target, args, resume) =>
      EnterCut(img, s, pad, w, F.Within(r, argc, n, resume, s.chain), target, args);
  }

  lemma EnterCut(img: Image, s: F.Flat, pad: seq<int>, w: World, chain: F.Chain, target: int, args: seq<int>)
    requires |s.mem| == img.stackMax && 0 <= s.vmsp && target in img.heads
    ensures var o := F.Enter(img, s.mem, s.vmsp, w, chain, target, args);
            if EntryOverruns(img, s.vmsp, target, args) then o.Wild?
            else Lifted(o, F.Enter(img, s.mem + pad, s.vmsp, w, chain, target, args), pad)
  {
    hide Put, F.Leave;
    if img.heads[target].params != |args| {
      CutLeave(s.mem, s.vmsp, w, chain, ERR_INVALID_METHOD_PARAMS, pad);
    } else if s.vmsp + |args| + 4 <= img.stackMax {
      CutPut(s.mem, pad, s.vmsp + 1, args + [0, 0, CodeCell(img, target)]);
    }
  }

  /** The typing rules out every method that is not in the image, except through the heap or a native. */
  predicate GoodCall(img: Image, ty: Typing, c: Config) {
    match c.control
    case Executing(top) =>
      top.Frame? && top.pc in img.lines && img.lines[top.pc].instr.CallVirtual? && Starts(img, top) ==>
        var i := img.lines[top.pc].instr;
        i.argc <= |top.ops| && i.argc >= 1
        && GoodTarget(img, ty, top.pc, img.lines[top.pc].next, i.argc,
                      img.resolve(c.w, top.ops[|top.ops| - i.argc], i.slot))
    case Native(act, _, _, _) => act.CallBack? ==> act.target in img.heads && act.target in ty.kind
  }

  lemma ReadyFrom(img: Image, s: F.Flat, pad: seq<int>, c: Config)
    requires Pictures(img, s, pad, c) && c.control.Executing? && End(c.control.top) <= img.stackMax
    ensures s.mode.Running? && ReadyOn(img, s, pad, c, s.mode.r, c.control.top)
    ensures s.mode.r.cp == c.control.top.pc
  {
    hide Laid, PendingLaid;
    PlacedRegs(img, s.mem + pad, s.mode.r, c.control.top, s.chain, c.pending);
  }

  /** The operand the null test reads, in both arrays. */
  lemma TestCell(img: Image, s: F.Flat, pad: seq<int>, c: Config, d: nat)
    requires Pictures(img, s, pad, c) && c.control.Executing? && d < |c.control.top.ops|
    ensures var top, r := c.control.top, s.mode.r;
            && InRange(s.mem, r.sp - d, 1) && r.sp + 1 == End(top)
            && s.mem[r.sp - d] == top.ops[|top.ops| - 1 - d] == (s.mem + pad)[r.sp - d]
  {
    hide Laid, PendingLaid;
    var top, r := c.control.top, s.mode.r;
    PlacedRegs(img, s.mem + pad, r, top, s.chain, c.pending);
    OpsInArray(img, s.mem + pad, r, top, s.chain, c.pending, |top.ops| - 1 - d);
    assert (s.mem + pad)[r.sp - d] == (s.mem + pad)[r.sp - d..r.sp + 1][0];
  }

  /** An instruction that passes the tests is dispatched, on both arrays. */
  lemma PastTests(img: Image, s: F.Flat, pad: seq<int>, c: Config)
    requires Pictures(img, s, pad, c) && c.control.Executing? && Starts(img, c.control.top)
    ensures var top, r := c.control.top, s.mode.r;
            && F.Step(img, s) == F.Dispatch(img, s, r, img.lines[top.pc])
            && F.Step(img, Padded(s, pad)) == F.Dispatch(img, Padded(s, pad), r, img.lines[top.pc])
  {
    hide Laid, PendingLaid, F.Dispatch, F.Leave;
    var d := PointerDepthOf(img.lines[c.control.top.pc].instr);
    ReadyFrom(img, s, pad, c);
    PlacedRegs(img, s.mem + pad, s.mode.r, c.control.top, s.chain, c.pending);
    if d >= 0 {
      TestCell(img, s, pad, c, d);
    }
  }

  lemma Methods(img: Image, ty: Typing, c: Config)
    requires WellFormed(img, ty) && Typed(img, ty, c) && c.control.Executing? && Starts(img, c.control.top)
    requires GoodCall(img, ty, c)
    ensures img.codeBase > 0
    ensures var top := c.control.top; var i := img.lines[top.pc].instr;
            && (i.Call? ==> i.target in img.heads) && (i.Return? ==> i.results <= 2)
            && (i.CallVirtual? ==> 1 <= i.argc <= |top.ops|
                                   && img.resolve(c.w, top.ops[|top.ops| - i.argc], i.slot) in img.heads)
  {
    hide Typed, WellFormed, LineOk, Starts;
    TopOk(img, ty, c);
    LineMethods(img, ty, c.control.top.pc);
  }

  lemma LineMethods(img: Image, ty: Typing, pc: int)
    requires WellFormed(img, ty) && pc in ty.at && LineOk(img, ty, pc)
    ensures img.codeBase > 0 && pc in img.lines
    ensures var i := img.lines[pc].instr;
            (i.Call? ==> i.target in img.heads) && (i.Return? ==> i.results <= 2)
  {
  }

  lemma InstructionCut(img: Image, ty: Typing, s: F.Flat, pad: seq<int>, c: Config)
    requires WellFormed(img, ty) && Typed(img, ty, c) && Pictures(img, s, pad, c) && c.control.Executing?
    requires Starts(img, c.control.top) && GoodCall(img, ty, c)
    ensures Cut(img, FrameReach(img, c.control.top, img.lines[c.control.top.pc], c.w), F.Step(img, s),
                F.Step(img, Padded(s, pad)), pad)
  {
    hide WellFormed, Typed, Pictures, Starts, F.Step, F.StepSimple, F.StepVar, F.StepNative, F.Unwind, F.StepCall,
      F.Leave, ReadyOn, Fits, Lifted, GoodCall, LineOk;
    Started(img, c.control.top);
    ReadyFrom(img, s, pad, c);
    TopOk(img, ty, c);
    var top, r := c.control.top, s.mode.r;
    var i := img.lines[top.pc].instr;
    PastTests(img, s, pad, c);
    TopFits(img, ty, c, top);
    Methods(img, ty, c);
    if Simple(i) {
      SimpleCut(img, ty, s, pad, c, r, top);
    } else if i.LoadVar? || i.StoreVar? {
      VarCut(img, ty, s, pad, c, r, top);
    } else if i.CallNative? {
      NativeCut(img, ty, s, pad, c, r, top);
    } else if i.Return? {
      ReturnCut(img, ty, s, pad, c, r, top);
    } else if i.Unknown? {
      CutLeave(s.mem, s.vmsp, s.w, s.chain, ERR_UNKNOWN_OPCODE, pad);
    } else {
      CallCut(img, ty, s, pad, c, r, top);
    }
  }

  lemma Started(img: Image, top: Stack)
    requires Starts(img, top)
    ensures top.Frame? && End(top) <= img.stackMax
  {
  }

  // ----- the step on the array

  /** The flat outcome `o` is the frame outcome `a`; behind the last cell it is astray. */
  ghost predicate OnArray(img: Image, mem: seq<int>, floor: int, pad: seq<int>, o: F.Outcome, a: Outcome) {
    match a
    case Next(c) => o.Next? && Pictures(img, o.s, pad, c) && SameBelow(mem, o.s.mem, floor)
    case Halt(v, w, vmsp) => o.Halt? && o.value == v && o.w == w && o.vmsp == vmsp
    case Fault => o.Fault?
    case Overrun => o.Wild?
    case BadTarget => true
    case Stuck => false
  }

  predicate InsideAfter(img: Image, a: Outcome) { a.Next? ==> Inside(img, a.c) }

  lemma CutBack(img: Image, mem: seq<int>, pad: seq<int>, floor: int, o: F.Outcome, o': F.Outcome, a: Outcome)
    requires |mem| == img.stackMax && |pad| == RED_ZONE && Lifted(o, o', pad)
    requires Matches(img, mem + pad, floor, o', a) && InsideAfter(img, a) && !a.Overrun?
    ensures OnArray(img, mem, floor, pad, o, a)
  {
    hide Rel, Inside;
    if a.Next? {
      Prefix(mem, o.s.mem, pad, floor);
    }
  }

  lemma Prefix(mem: seq<int>, mem': seq<int>, pad: seq<int>, n: int)
    requires SameBelow(mem + pad, mem' + pad, n)
    ensures SameBelow(mem, mem', n)
  {
    forall k | 0 <= k < n && k < |mem|
      ensures mem[k] == mem'[k]
    {
      assert (mem + pad)[k] == (mem' + pad)[k];
    }
  }

  lemma LeaveInside(img: Image, w: World, vmsp: int, p: Pending, v: int)
    ensures InsideAfter(img, Leave(w, vmsp, p, v))
  {
  }

  /** A frame that ends inside the stack, and the frames of a call from it. */
  lemma FrameInside(img: Image, w: World, vmsp: int, p: Pending, top: Stack)
    requires top.Frame? && End(top) <= img.stackMax
    ensures Inside(img, Config(w, vmsp, Executing(top), p))
  {
  }

  lemma SimpleInside(img: Image, c: Config, top: Stack, l: Line)
    requires top.Frame? && Simple(l.instr) && FrameReach(img, top, l, c.w) <= img.stackMax
    ensures InsideAfter(img, StepSimple(img, c, top, l))
  {
    hide Perform;
    var k := |top.ops| - Pops(l.instr);
    if k >= 0 {
      var e := Perform(img, l, top.ops[k..], c.w);
      if e.Go? { EndOps(top, top.ops[..k] + e.pushed, e.pc); }
    }
  }

  lemma VarInside(img: Image, c: Config, top: Stack, l: Line)
    requires top.Frame? && (l.instr.LoadVar? || l.instr.StoreVar?)
    requires FrameReach(img, top, l, c.w) <= img.stackMax && End(top) <= img.stackMax
    ensures InsideAfter(img, StepVar(c, top, l))
  {
    hide Put;
  }

  lemma InvokeInside(img: Image, c: Config, top: Stack, ret: int, target: int, stale: Tick)
    requires top.Frame? && End(top) + 3 <= img.stackMax
    ensures InsideAfter(img, Invoke(img, c, top, ret, target, stale))
  {
    hide Fit;
    if target in img.heads && img.heads[target].params <= |top.ops| {
      var k := |top.ops| - img.heads[target].params;
      EndOps(top, top.ops[..k], ret);
    }
  }

  lemma CallInside(img: Image, ty: Typing, c: Config, top: Stack, l: Line, stale: Tick)
    requires top.Frame? && (l.instr.Call? || l.instr.CallVirtual? || l.instr.InlineParam0?)
    requires FrameReach(img, top, l, c.w) <= img.stackMax
    ensures InsideAfter(img, StepCall(img, ty, c, top, l, stale))
  {
    hide Invoke, GoodTarget;
    match l.instr
    case InlineParam0(off) =>
    case Call(withParam0, target) =>
      if withParam0 && |top.params| >= 1 {
        EndOps(top, top.ops + [top.params[0]], top.pc);
        InvokeInside(img, c, top.(ops := top.ops + [top.params[0]]), l.next, target, stale);
      } else {
        InvokeInside(img, c, top, l.next, target, stale);
      }
    case CallVirtual(slot, argc) =>
      if 1 <= argc <= |top.ops| {
        InvokeInside(img, c, top, l.next, img.resolve(c.w, top.ops[|top.ops| - argc], slot), stale);
      }
  }

  lemma UnwindInside(img: Image, c: Config, top: Stack, n: nat)
    requires top.Frame? && End(top) <= img.stackMax
    ensures InsideAfter(img, Unwind(c, top, n))
  {
    if n <= |top.ops| {
      var result := top.ops[|top.ops| - n..];
      if top.caller.Frame? {
        EndOps(top.caller, top.caller.ops + result, top.caller.pc);
      } else {
        LeaveInside(img, c.w, c.vmsp, c.pending, EntryValue(result, top.caller.below));
      }
    }
  }

  lemma ExecutingInside(img: Image, ty: Typing, c: Config, stale: Tick)
    requires WellFormed(img, ty) && Typed(img, ty, c) && c.control.Executing? && !Overruns(img, ty, c)
    ensures InsideAfter(img, Move(img, ty, c, stale))
  {
    hide WellFormed, Typed, LineOk, FrameReach, StepSimple, StepVar, StepCall, Unwind, Leave, Inside;
    TopOk(img, ty, c);
    var top := c.control.top;
    var l := img.lines[top.pc];
    LeaveInside(img, c.w, c.vmsp, c.pending, ERR_NULL_POINTER);
    LeaveInside(img, c.w, c.vmsp, c.pending, ERR_STACK_OVERFLOW);
    LeaveInside(img, c.w, c.vmsp, c.pending, ERR_UNKNOWN_OPCODE);
    if Starts(img, top) {
      if Simple(l.instr) {
        SimpleInside(img, c, top, l);
      } else if l.instr.LoadVar? || l.instr.StoreVar? {
        VarInside(img, c, top, l);
      } else if l.instr.CallNative? {
        NativeCallInside(img, c, top, l);
      } else if l.instr.Return? {
        UnwindInside(img, c, top, l.instr.results);
      } else if !l.instr.Unknown? {
        CallInside(img, ty, c, top, l, stale);
      }
    }
  }

  lemma NativeCallInside(img: Image, c: Config, top: Stack, l: Line)
    requires top.Frame? && l.instr.CallNative?
    ensures InsideAfter(img, StepNative(img, c, top, l))
  {
    LeaveInside(img, c.w, c.vmsp, c.pending, ERR_MISSING_NATIVE);
  }

  lemma EnterInside(img: Image, ty: Typing, w: World, vmsp: int, p: Pending, target: int, args: seq<int>, stale: Tick)
    requires !BeginOverruns(img, ty, vmsp, target, args)
    ensures InsideAfter(img, Enter(img, ty, w, vmsp, p, target, args, stale))
  {
    hide Fit;
    LeaveInside(img, w, vmsp, p, ERR_INVALID_METHOD_PARAMS);
    if target in img.heads && target in ty.kind && img.heads[target].params == |args| {
      var cells := Fit(stale, 1 + img.heads[target].locals);
      var base := Base(cells[0], vmsp + 1);
      var entry := Frame(target, target + 2, args, cells[1..], [], base);
      assert End(base) == vmsp + 1;
      assert End(entry) == vmsp + 1 + |args| + 3 + |cells[1..]| + |entry.ops|;
    }
  }

  lemma NativeInside(img: Image, ty: Typing, c: Config, stale: Tick)
    requires Typed(img, ty, c) && c.control.Native? && !Overruns(img, ty, c)
    ensures InsideAfter(img, Move(img, ty, c, stale))
  {
    hide StackOk, PendingOk, Fit, NativeResult, Leave, Enter, Inside;
    var top, argc, n := c.control.top, c.control.argc, c.control.results;
    match c.control.act
    case Finish(lo, hi, w) =>
      var top' := top.(ops := top.ops[..|top.ops| - argc] + NativeResult(lo, hi, n), pc := top.pc);
      EndOps(top, top'.ops, top.pc);
      FrameInside(img, w, c.vmsp, c.pending, top');
    case CallBack(w, target, args, resume) =>
      EnterInside(img, ty, w, c.vmsp, Waiting(top, argc, n, resume, c.pending), target, args, stale);
  }

  // ----- every step

  /** An instruction stopped by the null or the overflow test. */
  lemma StoppedCut(img: Image, ty: Typing, s: F.Flat, pad: seq<int>, c: Config)
    requires WellFormed(img, ty) && Typed(img, ty, c) && Pictures(img, s, pad, c) && c.control.Executing?
    requires !Starts(img, c.control.top)
    ensures Lifted(F.Step(img, s), F.Step(img, Padded(s, pad)), pad)
  {
    hide Laid, PendingLaid, F.Dispatch, F.Leave, WellFormed, Typed, Lifted, LineOk;
    TopOk(img, ty, c);
    var top, r := c.control.top, s.mode.r;
    var d := PointerDepthOf(img.lines[top.pc].instr);
    PlacedRegs(img, s.mem + pad, r, top, s.chain, c.pending);
    CutLeave(s.mem, s.vmsp, s.w, s.chain, ERR_NULL_POINTER, pad);
    CutLeave(s.mem, s.vmsp, s.w, s.chain, ERR_STACK_OVERFLOW, pad);
    if d >= 0 {
      TestCell(img, s, pad, c, d);
    }
  }

  /** A virtual call of a method the typing does not allow goes astray behind the last cell too. */
  lemma BadCallCut(img: Image, ty: Typing, s: F.Flat, pad: seq<int>, c: Config)
    requires Pictures(img, s, pad, c) && c.control.Executing? && Starts(img, c.control.top)
    requires img.lines[c.control.top.pc].instr.CallVirtual? && Overruns(img, ty, c)
    ensures F.Step(img, s).Wild?
  {
    hide Laid, PendingLaid, Starts;
    Started(img, c.control.top);
    PastTests(img, s, pad, c);
    PlacedRegs(img, s.mem + pad, s.mode.r, c.control.top, s.chain, c.pending);
  }

  lemma MoveGoes(img: Image, ty: Typing, c: Config, stale: Tick)
    ensures !Move(img, ty, c, stale).Overrun?
  {
    hide Perform, GoodTarget, Put, Fit;
  }

  /** The step on the array is the step on the longer one, unless the frames overrun. */
  lemma StepFromCut(img: Image, ty: Typing, s: F.Flat, pad: seq<int>, c: Config)
    requires WellFormed(img, ty) && Typed(img, ty, c) && Pictures(img, s, pad, c)
    requires Cut(img, if Overruns(img, ty, c) then img.stackMax + 1 else 0, F.Step(img, s), F.Step(img, Padded(s, pad)),
                 pad)
    ensures OnArray(img, s.mem, Floor(s, c), pad, F.Step(img, s), Step(img, ty, c, TickFor(img, Padded(s, pad))))
  {
    hide WellFormed, Typed, Rel, Move, F.Step, Overruns, Matches, Lifted, InsideAfter, Inside, TickFor, BaseEnd;
    if !Overruns(img, ty, c) {
      var t := TickFor(img, Padded(s, pad));
      MoveMatches(img, ty, Padded(s, pad), c);
      if c.control.Native? {
        NativeInside(img, ty, c, t);
      } else {
        ExecutingInside(img, ty, c, t);
      }
      MoveGoes(img, ty, c, t);
      CutBack(img, s.mem, pad, Floor(s, c), F.Step(img, s), F.Step(img, Padded(s, pad)), Move(img, ty, c, t));
    }
  }

  lemma NativeStep(img: Image, ty: Typing, s: F.Flat, pad: seq<int>, c: Config)
    requires WellFormed(img, ty) && Typed(img, ty, c) && Pictures(img, s, pad, c) && c.control.Native?
    ensures OnArray(img, s.mem, Floor(s, c), pad, F.Step(img, s), Step(img, ty, c, TickFor(img, Padded(s, pad))))
  {
    hide WellFormed, Rel, F.StepAct, Lifted, PendingOk, StackOk, Inside, TickFor, BaseEnd, OnArray;
    if c.control.act.CallBack? && (c.control.act.target !in img.heads || c.control.act.target !in ty.kind) {
      NoMethod(img, ty, s, pad, c);
    } else {
      NativeMode(img, s, pad, c);
      ActCut(img, ty, s, pad, c);
      StepFromCut(img, ty, s, pad, c);
    }
  }

  lemma NativeMode(img: Image, s: F.Flat, pad: seq<int>, c: Config)
    requires Pictures(img, s, pad, c)
    ensures s.mode.InNative? <==> c.control.Native?
  {
    hide Laid, PendingLaid;
  }

  lemma NoMethod(img: Image, ty: Typing, s: F.Flat, pad: seq<int>, c: Config)
    requires c.control.Native? && c.control.act.CallBack?
    requires c.control.act.target !in img.heads || c.control.act.target !in ty.kind
    ensures OnArray(img, s.mem, Floor(s, c), pad, F.Step(img, s), Step(img, ty, c, TickFor(img, Padded(s, pad))))
  {
    hide Rel, TickFor, BaseEnd;
  }

  lemma BadCall(img: Image, ty: Typing, c: Config, stale: Tick)
    requires c.control.Executing? && Starts(img, c.control.top) && !GoodCall(img, ty, c) && !Overruns(img, ty, c)
    ensures Step(img, ty, c, stale).BadTarget? || Step(img, ty, c, stale).Stuck?
  {
  }

  lemma VirtualOnly(img: Image, ty: Typing, c: Config)
    requires c.control.Executing? && Starts(img, c.control.top) && !GoodCall(img, ty, c)
    ensures c.control.top.pc in img.lines && img.lines[c.control.top.pc].instr.CallVirtual?
  {
  }

  lemma ExecutingStep(img: Image, ty: Typing, s: F.Flat, pad: seq<int>, c: Config)
    requires WellFormed(img, ty) && Typed(img, ty, c) && Pictures(img, s, pad, c) && c.control.Executing?
    ensures OnArray(img, s.mem, Floor(s, c), pad, F.Step(img, s), Step(img, ty, c, TickFor(img, Padded(s, pad))))
  {
    hide WellFormed, Typed, Rel, F.Step, Lifted, Inside, TickFor, BaseEnd, Starts, GoodCall, FrameReach, Move;
    var top := c.control.top;
    if !Starts(img, top) {
      StoppedCut(img, ty, s, pad, c);
      StepFromCut(img, ty, s, pad, c);
    } else if GoodCall(img, ty, c) {
      InstructionCut(img, ty, s, pad, c);
      StepFromCut(img, ty, s, pad, c);
    } else if Overruns(img, ty, c) {
      VirtualOnly(img, ty, c);
      BadCallCut(img, ty, s, pad, c);
    } else {
      StepTyped(img, ty, c, TickFor(img, Padded(s, pad)));
      BadCall(img, ty, c, TickFor(img, Padded(s, pad)));
    }
  }

  /** Step for step, on the array the source allocates: whatever the frames do next, told what the array holds above
      sp, the flat machine does too, and where the frames overrun the stack it goes astray. */
  lemma StepMatches(img: Image, ty: Typing, s: F.Flat, pad: seq<int>, c: Config)
    requires WellFormed(img, ty) && Typed(img, ty, c) && Pictures(img, s, pad, c)
    ensures OnArray(img, s.mem, Floor(s, c), pad, F.Step(img, s), Step(img, ty, c, TickFor(img, Padded(s, pad))))
  {
    hide WellFormed, Typed, Pictures, OnArray, F.Step, Step, TickFor, Floor;
    if c.control.Native? {
      NativeStep(img, ty, s, pad, c);
    } else {
      ExecutingStep(img, ty, s, pad, c);
    }
  }

  /** No raw offset leaves the array, and no address is wrong, exactly when the frames do not overrun it: sp minus the
      operands popped plus those pushed, sp+3 for a call, sp+4 when it pushes parameter 0 first, vm->sp+argc+3 for a
      callback's entry. */
  lemma AstrayExactly(img: Image, ty: Typing, s: F.Flat, pad: seq<int>, c: Config)
    requires WellFormed(img, ty) && Typed(img, ty, c) && Pictures(img, s, pad, c) && GoodCall(img, ty, c)
    ensures F.Step(img, s).Wild? <==> Overruns(img, ty, c)
  {
    hide WellFormed, Typed, Pictures, F.Step, TickFor, Floor, GoodCall, Move, Overruns;
    StepMatches(img, ty, s, pad, c);
    StepTyped(img, ty, c, TickFor(img, Padded(s, pad)));
    if !Overruns(img, ty, c) {
      MoveGoes(img, ty, c, TickFor(img, Padded(s, pad)));
      GoodMove(img, ty, c, TickFor(img, Padded(s, pad)));
    }
  }

  lemma GoodMove(img: Image, ty: Typing, c: Config, stale: Tick)
    requires WellFormed(img, ty) && Typed(img, ty, c) && GoodCall(img, ty, c)
    ensures !Move(img, ty, c, stale).BadTarget?
  {
    hide Put, Fit, WellFormed, Typed, LineOk, StepSimple, StepVar, StepNative, Unwind, StepCall;
    if c.control.Executing? {
      TopOk(img, ty, c);
      if Starts(img, c.control.top) { GoodDispatch(img, ty, c, stale); }
    }
  }

  lemma GoodDispatch(img: Image, ty: Typing, c: Config, stale: Tick)
    requires c.control.Executing? && Starts(img, c.control.top) && GoodCall(img, ty, c)
    ensures !Dispatch(img, ty, c, c.control.top, img.lines[c.control.top.pc], stale).BadTarget?
  {
    hide Perform, Put, Fit, GoodTarget;
  }

  // ----- whole runs

  /** The stale cells a flat run hands the frame machine, one tick per step. */
  ghost function TicksOf(img: Image, s: F.Flat, pad: seq<int>, fuel: nat): (ticks: seq<Tick>)
    ensures |ticks| == fuel
    decreases fuel
  {
    if fuel == 0 then []
    else
      var o := F.Step(img, s);
      [TickFor(img, Padded(s, pad))] + if o.Next? then TicksOf(img, o.s, pad, fuel - 1) else seq(fuel - 1, _ => [])
  }

  /** Over every run: the flat machine on the array of the source does what the frame machine does, up to the first
      step at which the frames overrun the stack, and there it goes astray. Otherwise it never does, unless the heap's
      vtables or a native name a method the typing does not allow there. */
  lemma {:induction false} RunMatches(img: Image, ty: Typing, s: F.Flat, pad: seq<int>, c: Config, fuel: nat)
    requires WellFormed(img, ty) && Typed(img, ty, c) && Pictures(img, s, pad, c)
    ensures OnArray(img, s.mem, 0, pad, F.Run(img, s, fuel), Run(img, ty, c, TicksOf(img, s, pad, fuel)))
    decreases fuel
  {
    hide WellFormed, Typed, Pictures, F.Step, Step, TickFor, Floor;
    if fuel > 0 {
      var ticks := TicksOf(img, s, pad, fuel);
      StepMatches(img, ty, s, pad, c);
      StepTyped(img, ty, c, ticks[0]);
      var o, a := F.Step(img, s), Step(img, ty, c, ticks[0]);
      if a.Next? {
        assert ticks[1..] == TicksOf(img, o.s, pad, fuel - 1);
        RunMatches(img, ty, o.s, pad, a.c, fuel - 1);
      }
    }
  }

  // ----- the remedy: spare cells behind the limit

  /** The frames of a run on the longer array, where nothing overruns. */
  ghost function SpareFrames(img: Image, ty: Typing, s: F.Flat, c: Config, fuel: nat): Outcome
    decreases fuel
  {
    if fuel == 0 then Next(c)
    else
      var o, a := F.Step(img, s), Move(img, ty, c, TickFor(img, s));
      if o.Next? && a.Next? then SpareFrames(img, ty, o.s, a.c, fuel - 1) else a
  }

  /** With 1024 cells behind the overflow limit no run of a well-formed image goes astray, as long as vtables and
      natives name methods the typing allows. */
  lemma {:induction false} SpareRun(img: Image, ty: Typing, s: F.Flat, c: Config, fuel: nat)
    requires WellFormed(img, ty) && Typed(img, ty, c) && Rel(img, s, c)
    ensures Matches(img, s.mem, 0, F.Run(img, s, fuel), SpareFrames(img, ty, s, c, fuel))
    ensures !SpareFrames(img, ty, s, c, fuel).Overrun?
    ensures F.Run(img, s, fuel).Wild? ==> SpareFrames(img, ty, s, c, fuel).BadTarget?
    decreases fuel
  {
    hide WellFormed, Typed, Rel, F.Step, Move, TickFor, Floor;
    if fuel > 0 {
      var o, a := F.Step(img, s), Move(img, ty, c, TickFor(img, s));
      MoveMatches(img, ty, s, c);
      MoveTyped(img, ty, c, TickFor(img, s));
      MoveGoes(img, ty, c, TickFor(img, s));
      if a.Next? {
        SpareRun(img, ty, o.s, a.c, fuel - 1);
      }
    }
  }
}

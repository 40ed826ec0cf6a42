/** A recursive evaluator: a method call is a recursive call, a native's callback
    is a recursive call, and there is no stack at all, only the height it would have. */
module Evaluator {
  import opened Alu
  import opened Image
  import opened FrameMachine

  /** One method body under evaluation; `start` is the height of the stack below its parameters. */
  datatype Body = Body(meth: int, pc: int, start: int, params: seq<int>, locals: seq<int>, ops: seq<int>)

  function Height(b: Body): int { b.start + |b.params| + 3 + |b.locals| + |b.ops| }

  /** Undefined arithmetic, a call the typing does not allow, an operand or variable that is not there, a store behind
      the last cell of the stack. */
  datatype Break = Faulted | BadCall | Underflow | Overran

  function BreakOf(b: Break): Outcome {
    match b
    case Faulted => Fault
    case BadCall => BadTarget
    case Underflow => Stuck
    case Overran => Overrun
  }

  datatype Result =
    | Returned(cells: seq<int>, w: World, vmsp: int, rest: seq<Tick>)
    | Failed(code: int, w: World, vmsp: int, rest: seq<Tick>)
    | OutOfTicks
    | Broken(why: Break)

  datatype ActResult =
    | Finished(lo: int, hi: int, w: World, vmsp: int, rest: seq<Tick>)
    | ActOutOfTicks
    | ActBroken(why: Break)

  function NewBody(target: int, start: int, args: seq<int>, head: Head, stale: seq<int>): Body {
    Body(target, target + 2, start, args, Fit(stale, head.locals), [])
  }

  ghost function Eval(img: Image, ty: Typing, b: Body, w: World, vmsp: int, ticks: seq<Tick>): (r: Result)
    decreases |ticks|, 1
    ensures r.Returned? || r.Failed? ==> |r.rest| < |ticks|
  {
    if ticks == [] then OutOfTicks
    else if b.pc !in img.lines then Broken(Underflow)
    else
      var l, rest := img.lines[b.pc], ticks[1..];
      var d := PointerDepthOf(l.instr);
      if d >= |b.ops| then Broken(Underflow)
      else if d >= 0 && b.ops[|b.ops| - 1 - d] == 0 then Failed(ERR_NULL_POINTER, w, vmsp, rest)
      else if Height(b) > img.stackMax then Failed(ERR_STACK_OVERFLOW, w, vmsp, rest)
      else if Reach(img, b.ops, Height(b), l, w) > img.stackMax then Broken(Overran)
      else if Simple(l.instr) then
        var k := |b.ops| - Pops(l.instr);
        if k < 0 then Broken(Underflow)
        else match Perform(img, l, b.ops[k..], w)
          case Undefined => Broken(Faulted)
          case Go(pushed, pc, w') => Eval(img, ty, b.(ops := b.ops[..k] + pushed, pc := pc), w', vmsp, rest)
      else match l.instr
        case LoadVar(isLocal, i, n) =>
          var vars := if isLocal then b.locals else b.params;
          if |vars| < i + n then Broken(Underflow)
          else Eval(img, ty, b.(ops := b.ops + vars[i..i + n], pc := l.next), w, vmsp, rest)
        case StoreVar(isLocal, i, n) =>
          var k := |b.ops| - n;
          if k < 0 || |if isLocal then b.locals else b.params| < i + n then Broken(Underflow)
          else
            var popped := b.(ops := b.ops[..k], pc := l.next);
            Eval(img, ty,
                 if isLocal then popped.(locals := Put(b.locals, i, b.ops[k..]))
                 else popped.(params := Put(b.params, i, b.ops[k..])),
                 w, vmsp, rest)
        case InlineParam0(off) =>
          if |b.params| < 1 then Broken(Underflow)
          else Eval(img, ty, b.(ops := b.ops + [Wrap32(b.params[0] + off)], pc := l.next), w, vmsp, rest)
        case Call(withParam0, target) =>
          if withParam0 && |b.params| < 1 then Broken(Underflow)
          else
            var b' := if withParam0 then b.(ops := b.ops + [b.params[0]]) else b;
            EvalCall(img, ty, b', l.next, target, w, vmsp, ticks)
        case CallVirtual(slot, argc) =>
          if argc < 1 || |b.ops| < argc then Broken(Underflow)
          else
            var target := img.resolve(w, b.ops[|b.ops| - argc], slot);
            if !GoodTarget(img, ty, b.pc, l.next, argc, target) then Broken(BadCall)
            else EvalCall(img, ty, b, l.next, target, w, vmsp, ticks)
        case CallNative(kit, id, argc, n) =>
          if !img.hasNative(kit, id) then
            if n == 0 then Broken(Underflow) else Failed(ERR_MISSING_NATIVE, w, vmsp, rest)
          else if |b.ops| < argc then Broken(Underflow)
          else
            var k := |b.ops| - argc;
            (match EvalAct(img, ty, img.native(kit, id, b.ops[k..], w), Height(b) - 1, rest)
             case ActOutOfTicks => OutOfTicks
             case ActBroken(why) => Broken(why)
             case Finished(lo, hi, w', vmsp', rest') =>
               if Height(b) - argc + n > img.stackMax then Broken(Overran)
               else if n > 2 then Broken(Underflow)
               else
                 Eval(img, ty, b.(ops := b.ops[..k] + NativeResult(lo, hi, n), pc := l.next), w', vmsp', rest'))
        case Return(n) =>
          if |b.ops| < n then Broken(Underflow) else Returned(b.ops[|b.ops| - n..], w, vmsp, rest)
        case _ => Failed(ERR_UNKNOWN_OPCODE, w, vmsp, rest)
  }

  /** A call: evaluate the callee on the last operands, then go on with its result in their place. */
  ghost function EvalCall(img: Image, ty: Typing, b: Body, ret: int, target: int, w: World, vmsp: int,
                          ticks: seq<Tick>): (r: Result)
    requires ticks != []
    decreases |ticks|, 0
    ensures r.Returned? || r.Failed? ==> |r.rest| < |ticks|
  {
    if target !in img.heads || |b.ops| < img.heads[target].params then Broken(Underflow)
    else
      var head := img.heads[target];
      var k := |b.ops| - head.params;
      match Eval(img, ty, NewBody(target, Height(b) - head.params, b.ops[k..], head, ticks[0]), w, vmsp, ticks[1..])
      case Returned(cells, w', vmsp', rest) =>
        Eval(img, ty, b.(ops := b.ops[..k] + cells, pc := ret), w', vmsp', rest)
      case other => other
  }

  /** A native: each callback is evaluated on its own. */
  ghost function EvalAct(img: Image, ty: Typing, act: Act, vmsp: int, ticks: seq<Tick>): (r: ActResult)
    decreases |ticks|
    ensures r.Finished? ==> |r.rest| < |ticks|
  {
    if ticks == [] then ActOutOfTicks
    else match act
      case Finish(lo, hi, w) => Finished(lo, hi, w, vmsp, ticks[1..])
      case CallBack(w, target, args, resume) =>
        match EvalMethod(img, ty, target, args, w, vmsp, ticks[0], ticks[1..])
        case Returned(v, w', vmsp', rest) => EvalAct(img, ty, resume(v[0], w'), vmsp', rest)
        case Failed(code, w', vmsp', rest) => EvalAct(img, ty, resume(code, w'), vmsp', rest)
        case OutOfTicks => ActOutOfTicks
        case Broken(why) => ActBroken(why)
  }

  /** vmCall as a function of the method, its arguments, the world and vm->sp: one cell, the value handed back. */
  ghost function EvalMethod(img: Image, ty: Typing, target: int, args: seq<int>, w: World, vmsp: int, stale: seq<int>,
                            ticks: seq<Tick>): (r: Result)
    decreases |ticks|, 2
    ensures r.Returned? ==> |r.cells| == 1
    ensures r.Returned? || r.Failed? ==> |r.rest| <= |ticks|
  {
    if target !in img.heads || target !in ty.kind then Broken(BadCall)
    else if EntryOverruns(img, vmsp, target, args) then Broken(Overran)
    else if img.heads[target].params != |args| then Failed(ERR_INVALID_METHOD_PARAMS, w, vmsp, ticks)
    else
      var cells := Fit(stale, 1 + img.heads[target].locals);
      match Eval(img, ty, NewBody(target, vmsp + 1, args, img.heads[target], cells[1..]), w, vmsp, ticks)
      case Returned(v, w', vmsp', rest) => Returned([EntryValue(v, cells[0])], w', vmsp', rest)
      case other => other
  }

  // ----- the frame machine runs what the evaluator computes -----

  function FrameOf(b: Body, caller: Stack): Stack {
    Frame(b.meth, b.pc, b.params, b.locals, b.ops, caller)
  }

  /** The machine with the body's frame on top of `caller`. */
  function Running(b: Body, caller: Stack, w: World, vmsp: int, pending: Pending): Config {
    Config(w, vmsp, Executing(FrameOf(b, caller)), pending)
  }

  /** The caller takes over with the result in place of the arguments. */
  function ReturnTo(caller: Stack, pending: Pending, cells: seq<int>, w: World, vmsp: int): Outcome {
    match caller
    case Base(below, _) => Leave(w, vmsp, pending, EntryValue(cells, below))
    case Frame(_, _, _, _, ops, _) => Next(Config(w, vmsp, Executing(caller.(ops := ops + cells)), pending))
  }

  ghost predicate Agrees(img: Image, ty: Typing, o: Outcome, caller: Stack, pending: Pending, r: Result) {
    match r
    case Returned(cells, w, vmsp, rest) => o == Continue(img, ty, ReturnTo(caller, pending, cells, w, vmsp), rest)
    case Failed(code, w, vmsp, rest) => o == Continue(img, ty, Leave(w, vmsp, pending, code), rest)
    case OutOfTicks => o.Next?
    case Broken(why) => o == BreakOf(why)
  }

  /** The native's caller takes over with the native's result in place of its arguments. */
  function FinishTo(img: Image, top: Stack, argc: nat, n: nat, lo: int, hi: int, w: World, vmsp: int, pending: Pending)
    : Outcome
    requires top.Frame? && argc <= |top.ops|
  {
    if End(top) - argc + n > img.stackMax then Overrun
    else if n > 2 then Stuck
    else
      Next(Config(w, vmsp, Executing(top.(ops := top.ops[..|top.ops| - argc] + NativeResult(lo, hi, n))), pending))
  }

  ghost predicate ActAgrees(img: Image, ty: Typing, o: Outcome, top: Stack, argc: nat, n: nat, pending: Pending,
                            r: ActResult)
    requires top.Frame? && argc <= |top.ops|
  {
    match r
    case Finished(lo, hi, w, vmsp, rest) =>
      o == Continue(img, ty, FinishTo(img, top, argc, n, lo, hi, w, vmsp, pending), rest)
    case ActOutOfTicks => o.Next?
    case ActBroken(why) => o == BreakOf(why)
  }

  /** The frame machine from a frame on, whatever lies below it, equals the evaluator followed by the return. */
  lemma {:induction false} RunIsEval(img: Image, ty: Typing, b: Body, caller: Stack, w: World, vmsp: int,
                                     pending: Pending, ticks: seq<Tick>)
    requires b.start == End(caller)
    ensures Agrees(img, ty, Run(img, ty, Running(b, caller, w, vmsp, pending), ticks), caller, pending,
                   Eval(img, ty, b, w, vmsp, ticks))
    decreases |ticks|, 3
  {
    hide Run, Eval, Agrees, Reach, StopsHere;
    if StopsHere(img, b, w, ticks) {
      AgreesAtOnce(img, ty, b, caller, w, vmsp, pending, ticks);
    } else {
      GoesOn(img, b, w, ticks);
      var l := img.lines[b.pc];
      if Simple(l.instr) {
        SimpleIsEval(img, ty, b, caller, w, vmsp, pending, ticks);
      } else if l.instr.CallNative? {
        NativeIsEval(img, ty, b, caller, w, vmsp, pending, ticks);
      } else if l.instr.Call? || l.instr.CallVirtual? {
        CallsIsEval(img, ty, b, caller, w, vmsp, pending, ticks);
      } else {
        VarIsEval(img, ty, b, caller, w, vmsp, pending, ticks);
      }
    }
  }

  predicate StopsHere(img: Image, b: Body, w: World, ticks: seq<Tick>) {
    ticks == [] || b.pc !in img.lines ||
    var l := img.lines[b.pc];
    var d := PointerDepthOf(l.instr);
    || d >= |b.ops| || (d >= 0 && b.ops[|b.ops| - 1 - d] == 0) || Height(b) > img.stackMax
    || Reach(img, b.ops, Height(b), l, w) > img.stackMax || l.instr.Unknown? || l.instr.Return?
  }

  lemma GoesOn(img: Image, b: Body, w: World, ticks: seq<Tick>)
    requires !StopsHere(img, b, w, ticks)
    ensures ticks != [] && b.pc in img.lines && !img.lines[b.pc].instr.Unknown? && !img.lines[b.pc].instr.Return?
  {
  }

  lemma AgreesAtOnce(img: Image, ty: Typing, b: Body, caller: Stack, w: World, vmsp: int, pending: Pending,
                     ticks: seq<Tick>)
    requires b.start == End(caller) && StopsHere(img, b, w, ticks)
    ensures Agrees(img, ty, Run(img, ty, Running(b, caller, w, vmsp, pending), ticks), caller, pending,
                   Eval(img, ty, b, w, vmsp, ticks))
  {
    hide Leave, StepVar, StepCall, StepNative, StepSimple, EvalCall, EvalAct, GoodTarget, Put, Perform, Reach;
  }

  /** Past the tests the machine takes the instruction's step. */
  lemma StepsOn(img: Image, ty: Typing, b: Body, caller: Stack, w: World, vmsp: int, pending: Pending,
                ticks: seq<Tick>)
    requires b.start == End(caller) && !StopsHere(img, b, w, ticks)
    ensures ticks != [] && b.pc in img.lines
    ensures var c, l, top := Running(b, caller, w, vmsp, pending), img.lines[b.pc], FrameOf(b, caller);
            Run(img, ty, c, ticks)
            == Continue(img, ty,
                        if Simple(l.instr) then StepSimple(img, c, top, l)
                        else if l.instr.LoadVar? || l.instr.StoreVar? then StepVar(c, top, l)
                        else if l.instr.CallNative? then StepNative(img, c, top, l)
                        else StepCall(img, ty, c, top, l, ticks[0]),
                        ticks[1..])
  {
    hide StepVar, StepCall, StepNative, StepSimple, Perform, Reach;
  }

  lemma {:induction false} SimpleIsEval(img: Image, ty: Typing, b: Body, caller: Stack, w: World, vmsp: int,
                                        pending: Pending, ticks: seq<Tick>)
    requires b.start == End(caller) && !StopsHere(img, b, w, ticks) && Simple(img.lines[b.pc].instr)
    ensures Agrees(img, ty, Run(img, ty, Running(b, caller, w, vmsp, pending), ticks), caller, pending,
                   Eval(img, ty, b, w, vmsp, ticks))
    decreases |ticks|, 2
  {
    hide Leave, Perform, Run, EvalCall, EvalAct, GoodTarget, Put, Reach;
    StepsOn(img, ty, b, caller, w, vmsp, pending, ticks);
    var l := img.lines[b.pc];
    var k := |b.ops| - Pops(l.instr);
    if k >= 0 {
      var e := Perform(img, l, b.ops[k..], w);
      if e.Go? {
        RunIsEval(img, ty, b.(ops := b.ops[..k] + e.pushed, pc := e.pc), caller, e.w, vmsp, pending, ticks[1..]);
      }
    }
  }

  lemma {:induction false} LoadIsEval(img: Image, ty: Typing, b: Body, caller: Stack, w: World, vmsp: int,
                                      pending: Pending, ticks: seq<Tick>)
    requires b.start == End(caller) && !StopsHere(img, b, w, ticks) && img.lines[b.pc].instr.LoadVar?
    ensures Agrees(img, ty, Run(img, ty, Running(b, caller, w, vmsp, pending), ticks), caller, pending,
                   Eval(img, ty, b, w, vmsp, ticks))
    decreases |ticks|, 1
  {
    hide Leave, Run, EvalCall, EvalAct, GoodTarget, Put, Reach, Perform;
    StepsOn(img, ty, b, caller, w, vmsp, pending, ticks);
    var l := img.lines[b.pc];
    var vars, i, n := if l.instr.isLocal then b.locals else b.params, l.instr.index, l.instr.width;
    if i + n <= |vars| {
      RunIsEval(img, ty, b.(ops := b.ops + vars[i..i + n], pc := l.next), caller, w, vmsp, pending, ticks[1..]);
    }
  }

  lemma {:induction false} VarIsEval(img: Image, ty: Typing, b: Body, caller: Stack, w: World, vmsp: int,
                                     pending: Pending, ticks: seq<Tick>)
    requires b.start == End(caller) && !StopsHere(img, b, w, ticks)
    requires var i := img.lines[b.pc].instr; i.LoadVar? || i.StoreVar? || i.InlineParam0?
    ensures Agrees(img, ty, Run(img, ty, Running(b, caller, w, vmsp, pending), ticks), caller, pending,
                   Eval(img, ty, b, w, vmsp, ticks))
    decreases |ticks|, 2
  {
    hide Leave, Run, EvalCall, EvalAct, GoodTarget, Put, Reach, Perform;
    StepsOn(img, ty, b, caller, w, vmsp, pending, ticks);
    var l, rest := img.lines[b.pc], ticks[1..];
    match l.instr
    case LoadVar(isLocal, i, n) =>
      LoadIsEval(img, ty, b, caller, w, vmsp, pending, ticks);
    case StoreVar(isLocal, i, n) =>
      var k := |b.ops| - n;
      if k >= 0 && i + n <= |if isLocal then b.locals else b.params| {
        var popped := b.(ops := b.ops[..k], pc := l.next);
        RunIsEval(img, ty,
                  if isLocal then popped.(locals := Put(b.locals, i, b.ops[k..]))
                  else popped.(params := Put(b.params, i, b.ops[k..])), caller, w, vmsp, pending, rest);
      }
    case InlineParam0(off) =>
      if |b.params| >= 1 {
        RunIsEval(img, ty, b.(ops := b.ops + [Wrap32(b.params[0] + off)], pc := l.next), caller, w, vmsp, pending,
                  rest);
      }
  }

  lemma {:induction false} CallsIsEval(img: Image, ty: Typing, b: Body, caller: Stack, w: World, vmsp: int,
                                       pending: Pending, ticks: seq<Tick>)
    requires b.start == End(caller) && !StopsHere(img, b, w, ticks)
    requires img.lines[b.pc].instr.Call? || img.lines[b.pc].instr.CallVirtual?
    ensures Agrees(img, ty, Run(img, ty, Running(b, caller, w, vmsp, pending), ticks), caller, pending,
                   Eval(img, ty, b, w, vmsp, ticks))
    decreases |ticks|, 2
  {
    hide Leave, Run, EvalCall, EvalAct, GoodTarget, Reach;
    StepsOn(img, ty, b, caller, w, vmsp, pending, ticks);
    var l := img.lines[b.pc];
    match l.instr
    case Call(withParam0, target) =>
      if !withParam0 { CallIsEval(img, ty, b, l.next, target, caller, w, vmsp, pending, ticks); }
      else if |b.params| >= 1 {
        CallIsEval(img, ty, b.(ops := b.ops + [b.params[0]]), l.next, target, caller, w, vmsp, pending, ticks);
      }
    case CallVirtual(slot, argc) =>
      if 1 <= argc <= |b.ops| {
        CallIsEval(img, ty, b, l.next, img.resolve(w, b.ops[|b.ops| - argc], slot), caller, w, vmsp, pending, ticks);
      }
  }

  lemma {:induction false} CallIsEval(img: Image, ty: Typing, b: Body, ret: int, target: int, caller: Stack, w: World,
                                      vmsp: int, pending: Pending, ticks: seq<Tick>)
    requires ticks != [] && b.start == End(caller)
    ensures var c := Running(b, caller, w, vmsp, pending);
            Agrees(img, ty,
                   Continue(img, ty, Invoke(img, c, FrameOf(b, caller), ret, target, ticks[0]), ticks[1..]),
                   caller, pending, EvalCall(img, ty, b, ret, target, w, vmsp, ticks))
    decreases |ticks|, 0
  {
    hide Eval, EvalAct, Leave, Step, Fit;
    if target in img.heads && img.heads[target].params <= |b.ops| {
      var head := img.heads[target];
      var k := |b.ops| - head.params;
      var callee := NewBody(target, Height(b) - head.params, b.ops[k..], head, ticks[0]);
      var waiting := FrameOf(b.(ops := b.ops[..k], pc := ret), caller);
      RunIsEval(img, ty, callee, waiting, w, vmsp, pending, ticks[1..]);
      var r := Eval(img, ty, callee, w, vmsp, ticks[1..]);
      if r.Returned? {
        RunIsEval(img, ty, b.(ops := b.ops[..k] + r.cells, pc := ret), caller, r.w, r.vmsp, pending, r.rest);
      }
    }
  }

  lemma {:induction false} NativeIsEval(img: Image, ty: Typing, b: Body, caller: Stack, w: World, vmsp: int,
                                        pending: Pending, ticks: seq<Tick>)
    requires b.start == End(caller) && !StopsHere(img, b, w, ticks) && img.lines[b.pc].instr.CallNative?
    ensures Agrees(img, ty, Run(img, ty, Running(b, caller, w, vmsp, pending), ticks), caller, pending,
                   Eval(img, ty, b, w, vmsp, ticks))
    decreases |ticks|, 0
  {
    hide Leave, Run, EvalAct, NativeResult, Reach;
    StepsOn(img, ty, b, caller, w, vmsp, pending, ticks);
    var l, rest := img.lines[b.pc], ticks[1..];
    var i := l.instr;
    if img.hasNative(i.kit, i.id) && i.argc <= |b.ops| {
      var k := |b.ops| - i.argc;
      var act := img.native(i.kit, i.id, b.ops[k..], w);
      ActIsEval(img, ty, act, FrameOf(b.(pc := l.next), caller), i.argc, i.results, w, Height(b) - 1, pending, rest);
      var r := EvalAct(img, ty, act, Height(b) - 1, rest);
      if r.Finished? && i.results <= 2 {
        RunIsEval(img, ty, b.(ops := b.ops[..k] + NativeResult(r.lo, r.hi, i.results), pc := l.next), caller, r.w,
                  r.vmsp, pending, r.rest);
      }
    }
  }

  lemma {:induction false} ActIsEval(img: Image, ty: Typing, act: Act, top: Stack, argc: nat, n: nat, w: World,
                                     vmsp: int, pending: Pending, ticks: seq<Tick>)
    requires top.Frame? && argc <= |top.ops|
    ensures ActAgrees(img, ty, Run(img, ty, Config(w, vmsp, Native(act, top, argc, n), pending), ticks),
                      top, argc, n, pending, EvalAct(img, ty, act, vmsp, ticks))
    decreases |ticks|
  {
    hide Eval, StepExecuting, NativeResult;
    if ticks != [] && act.CallBack? && act.target in img.heads && act.target in ty.kind {
      var head, rest := img.heads[act.target], ticks[1..];
      var r := EvalMethod(img, ty, act.target, act.args, act.w, vmsp, ticks[0], rest);
      if head.params == |act.args| {
        var cells := Fit(ticks[0], 1 + head.locals);
        RunIsEval(img, ty, NewBody(act.target, vmsp + 1, act.args, head, cells[1..]), Base(cells[0], vmsp + 1), act.w,
                  vmsp, Waiting(top, argc, n, act.resume, pending), rest);
      }
      if r.Returned? { ActIsEval(img, ty, act.resume(r.cells[0], r.w), top, argc, n, r.w, r.vmsp, pending, r.rest); }
      else if r.Failed? { ActIsEval(img, ty, act.resume(r.code, r.w), top, argc, n, r.w, r.vmsp, pending, r.rest); }
    }
  }

  /** The frame machine from an entry on is the evaluator. */
  lemma EnterIsEval(img: Image, ty: Typing, w: World, vmsp: int, target: int, args: seq<int>, stale: seq<int>,
                    ticks: seq<Tick>)
    ensures var o := Continue(img, ty, Begin(img, ty, w, vmsp, Nobody, target, args, stale), ticks);
            match EvalMethod(img, ty, target, args, w, vmsp, stale, ticks)
            case Returned(cells, w', vmsp', _) => o == Halt(cells[0], w', vmsp')
            case Failed(code, w', vmsp', _) => o == Halt(code, w', vmsp')
            case OutOfTicks => o.Next?
            case Broken(why) => o == BreakOf(why)
  {
    hide Step, Eval, Run;
    if target in img.heads && target in ty.kind && img.heads[target].params == |args| {
      var cells := Fit(stale, 1 + img.heads[target].locals);
      RunIsEval(img, ty, NewBody(target, vmsp + 1, args, img.heads[target], cells[1..]), Base(cells[0], vmsp + 1), w,
                vmsp, Nobody, ticks);
    }
  }
}

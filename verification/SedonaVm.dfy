/** vmCall as it is written: one cell array updated in place, registers in
    local variables, natives called in the middle of the loop and calling back
    recursively. Each method is proved against the step function of FlatMachine. */
module SedonaVm {
  import opened Alu
  import opened Image
  import F = FlatMachine
  import M = FrameMachine
  import E = Evaluator
  import S = Staleness
  import V = VmCall

  /** How one instruction ends. */
  datatype Status = Going | Leaving(v: int) | Crashed | Lost

  /** How a vmCall ends: with its int, at the step bound, or in what C leaves undefined. */
  datatype Reply = Value(v: int) | Late | Broken | Astray

  predicate Within(a: array<int>, from: int, n: int) { 0 <= from && 0 <= n && from + n <= a.Length }

  class Vm {
    const img: Image
    const stack: array<int>
    var sp: int
    var w: World

    constructor (img: Image, stack: array<int>, w: World)
      ensures this.img == img && this.stack == stack && this.w == w && sp == 0
    {
      this.img, this.stack, this.w, this.sp := img, stack, w, 0;
    }

    ghost function At(r: F.Regs, chain: F.Chain): F.Flat
      reads this, stack
    {
      F.Flat(stack[..], sp, w, F.Running(r), chain)
    }

    /** The outcome `o` of a step is this state, with registers r if the vmCall goes on. */
    ghost predicate Shows(o: F.Outcome, st: Status, r: F.Regs, chain: F.Chain)
      reads this, stack
    {
      match st
      case Going => o == F.Next(At(r, chain))
      case Leaving(v) => o == F.Leave(stack[..], sp, w, chain, v)
      case Crashed => o == F.Fault
      case Lost => o == F.Wild
    }

    method Store(at: int, ws: seq<int>)
      requires Within(stack, at, |ws|)
      modifies stack
      ensures stack[..] == Put(old(stack[..]), at, ws)
    {
      ghost var mem := stack[..];
      var i := 0;
      while i < |ws|
        invariant 0 <= i <= |ws|
        invariant forall k | 0 <= k < stack.Length ::
          stack[k] == if at <= k < at + i then ws[k - at] else mem[k]
      {
        stack[at + i] := ws[i];
        i := i + 1;
      }
      assert IsPut(stack[..], mem, at, ws);
      assert stack[..] == Put(mem, at, ws);
    }

    method ExecSimple(r: F.Regs, l: Line, ghost chain: F.Chain) returns (st: Status, r': F.Regs)
      requires Simple(l.instr)
      modifies this`w, stack
      ensures Shows(F.StepSimple(img, old(At(r, chain)), r, l), st, r', chain)
    {
      hide Perform, Put;
      r' := r;
      var n := Pops(l.instr);
      if !Within(stack, r.sp - n + 1, n) { return Lost, r; }
      match Perform(img, l, stack[r.sp - n + 1..r.sp + 1], w)
      case Undefined => st := Crashed;
      case Go(pushed, pc, w') =>
        if !Within(stack, r.sp - n + 1, |pushed|) { return Lost, r; }
        Store(r.sp - n + 1, pushed);
        w := w';
        r' := r.(sp := r.sp - n + |pushed|, cp := pc);
        st := Going;
    }

    method ExecVar(r: F.Regs, l: Line, ghost chain: F.Chain) returns (st: Status, r': F.Regs)
      requires l.instr.LoadVar? || l.instr.StoreVar?
      modifies stack
      ensures Shows(F.StepVar(img, old(At(r, chain)), r, l), st, r', chain)
    {
      hide F.StepVar, Put;
      if l.instr.LoadVar? {
        st, r' := ExecLoad(r, l, chain);
      } else {
        st, r' := ExecStore(r, l, chain);
      }
    }

    method ExecLoad(r: F.Regs, l: Line, ghost chain: F.Chain) returns (st: Status, r': F.Regs)
      requires l.instr.LoadVar?
      modifies stack
      ensures Shows(F.StepVar(img, old(At(r, chain)), r, l), st, r', chain)
    {
      hide Put, F.Leave;
      var at := (if l.instr.isLocal then r.lp else r.pp) + l.instr.index;
      var n := l.instr.width;
      if !Within(stack, at, n) || !Within(stack, r.sp + 1, n) { return Lost, r; }
      Store(r.sp + 1, stack[at..at + n]);
      return Going, r.(sp := r.sp + n, cp := l.next);
    }

    method ExecStore(r: F.Regs, l: Line, ghost chain: F.Chain) returns (st: Status, r': F.Regs)
      requires l.instr.StoreVar?
      modifies stack
      ensures Shows(F.StepVar(img, old(At(r, chain)), r, l), st, r', chain)
    {
      hide Put, F.Leave;
      var at := (if l.instr.isLocal then r.lp else r.pp) + l.instr.index;
      var n := l.instr.width;
      var top := r.sp - n + 1;
      if !Within(stack, at, n) || !Within(stack, top, n) { return Lost, r; }
      Store(at, stack[top..top + n]);
      return Going, r.(sp := r.sp - n, cp := l.next);
    }

    method Invoke(r: F.Regs, ret: int, target: int, ghost chain: F.Chain) returns (st: Status, r': F.Regs)
      modifies stack
      ensures Shows(F.Invoke(img, old(At(r, chain)), r, ret, target), st, r', chain)
    {
      hide Put;
      if target !in img.heads || !Within(stack, r.sp + 1, 3) { return Lost, r; }
      var head := img.heads[target];
      var fp := r.sp + 1;
      Store(fp, [CodeCell(img, ret), StackCell(img, r.fp), CodeCell(img, target)]);
      return Going, F.Regs(fp + 2 + head.locals, target + 2, fp, fp - head.params, fp + 3, head.params, head.locals);
    }

    method ExecCall(r: F.Regs, l: Line, ghost chain: F.Chain) returns (st: Status, r': F.Regs)
      requires l.instr.Call? || l.instr.CallVirtual? || l.instr.InlineParam0?
      modifies stack
      ensures Shows(F.StepCall(img, old(At(r, chain)), r, l), st, r', chain)
    {
      hide Put;
      match l.instr
      case InlineParam0(off) =>
        if !Within(stack, r.pp, 1) || !Within(stack, r.sp + 1, 1) { return Lost, r; }
        Store(r.sp + 1, [Wrap32(stack[r.pp] + off)]);
        return Going, r.(sp := r.sp + 1, cp := l.next);
      case Call(withParam0, target) =>
        if withParam0 {
          if !Within(stack, r.pp, 1) || !Within(stack, r.sp + 1, 1) { return Lost, r; }
          Store(r.sp + 1, [stack[r.pp]]);
          st, r' := Invoke(r.(sp := r.sp + 1), l.next, target, chain);
        } else {
          st, r' := Invoke(r, l.next, target, chain);
        }
      case CallVirtual(slot, argc) =>
        if !Within(stack, r.sp - argc + 1, 1) { return Lost, r; }
        st, r' := Invoke(r, l.next, img.resolve(w, stack[r.sp - argc + 1], slot), chain);
    }

    /** The three return instructions, for n result cells. */
    method Unwind(r: F.Regs, n: nat, ghost chain: F.Chain) returns (st: Status, r': F.Regs)
      modifies stack
      ensures Shows(F.Unwind(img, old(At(r, chain)), r, n), st, r', chain)
    {
      hide Put, F.ReadsCaller;
      var base := r.fp - r.numParams;
      if !Within(stack, r.sp - n + 1, n) || !Within(stack, r.fp, 3) || !Within(stack, base - 1, 1) { return Lost, r; }
      if stack[r.fp] != 0 {
        st, r' := UnwindToCaller(r, n, chain);
      } else {
        return Leaving(if n == 0 then stack[base - 1] else if n == 1 then stack[r.sp] else 0), r;
      }
    }

    method UnwindToCaller(r: F.Regs, n: nat, ghost chain: F.Chain) returns (st: Status, r': F.Regs)
      requires Within(stack, r.sp - n + 1, n) && Within(stack, r.fp, 3) && stack[r.fp] != 0
      requires Within(stack, r.fp - r.numParams - 1, 1)
      modifies stack
      ensures Shows(F.Unwind(img, old(At(r, chain)), r, n), st, r', chain)
    {
      hide Put, F.Unwind, StackIndex, CodeOffset;
      ghost var s := At(r, chain);
      var base, cp, fp := r.fp - r.numParams, CodeOffset(img, stack[r.fp]), StackIndex(img, stack[r.fp + 1]);
      if !Within(stack, fp, 3) || !Within(stack, base, n) || CodeOffset(img, stack[fp + 2]) !in img.heads {
        F.UnwindLost(img, s, r, n);
        return Lost, r;
      }
      F.UnwindBack(img, s, r, n);
      var head := img.heads[CodeOffset(img, stack[fp + 2])];
      Store(base, stack[r.sp - n + 1..r.sp + 1]);
      return Going, F.Regs(base + n - 1, cp, fp, fp - head.params, fp + 3, head.params, head.locals);
    }

    /** The state while a native is in control. */
    ghost function AtNative(act: Act, r: F.Regs, argc: nat, n: nat, chain: F.Chain): F.Flat
      reads this, stack
    {
      F.Flat(stack[..], sp, w, F.InNative(act, r, argc, n), chain)
    }

    /** `o` is the outcome of the steps a vmCall in `chain` had left when it ended with `reply`, with `left` of them
        unused. */
    ghost predicate Ends(o: F.Outcome, reply: Reply, chain: F.Chain, left: nat)
      reads this, stack
    {
      match reply
      case Value(v) => o == F.Continue(img, F.Leave(stack[..], sp, w, chain, v), left)
      case Late => o.Next?
      case Broken => o.Fault?
      case Astray => o.Wild?
    }

    /** vmCall up to its first instruction. */
    method Begin(target: int, args: seq<int>, ghost chain: F.Chain) returns (st: Status, r: F.Regs)
      modifies stack
      ensures Shows(F.Enter(img, old(stack[..]), sp, w, chain, target, args), st, r, chain)
    {
      hide Put;
      r := F.Regs(0, 0, 0, 0, 0, 0, 0);
      if target !in img.heads { return Lost, r; }
      var head := img.heads[target];
      if head.params != |args| { return Leaving(ERR_INVALID_METHOD_PARAMS), r; }
      if !Within(stack, sp + 1, |args| + 3) { return Lost, r; }
      Store(sp + 1, args + [0, 0, CodeCell(img, target)]);
      var fp := sp + 1 + |args|;
      return Going, F.Regs(fp + 2 + head.locals, target + 2, fp, fp - head.params, fp + 3, head.params, head.locals);
    }

    /** The switch on the opcode, for everything that calls no native. */
    method Exec(r: F.Regs, l: Line, ghost chain: F.Chain) returns (st: Status, r': F.Regs)
      requires !l.instr.CallNative?
      modifies this`w, stack
      ensures Shows(F.Dispatch(img, old(At(r, chain)), r, l), st, r', chain)
    {
      hide F.StepSimple, F.StepVar, F.StepCall, F.Unwind;
      if Simple(l.instr) {
        st, r' := ExecSimple(r, l, chain);
      } else if l.instr.LoadVar? || l.instr.StoreVar? {
        st, r' := ExecVar(r, l, chain);
      } else if l.instr.Return? {
        st, r' := Unwind(r, l.instr.results, chain);
      } else if l.instr.Unknown? {
        return Leaving(ERR_UNKNOWN_OPCODE), r;
      } else {
        st, r' := ExecCall(r, l, chain);
      }
    }

    /** vmCall(vm, target, args), cut off after `fuel` instructions and native actions. */
    method Call(target: int, args: seq<int>, ghost chain: F.Chain, fuel: nat) returns (reply: Reply, left: nat)
      modifies this, stack
      ensures left <= fuel
      ensures Ends(F.Continue(img, F.Enter(img, old(stack[..]), old(sp), old(w), chain, target, args), fuel),
                   reply, chain, left)
      decreases fuel, 1
    {
      hide F.Enter, F.Dispatch;
      left := fuel;
      var st, r := Begin(target, args, chain);
      ghost var all := F.Continue(img, F.Enter(img, old(stack[..]), old(sp), old(w), chain, target, args), fuel);
      if st.Leaving? { return Value(st.v), fuel; }
      if st.Crashed? { return Broken, fuel; }
      if st.Lost? { return Astray, fuel; }
      while left > 0
        invariant left <= fuel
        invariant all == F.Run(img, At(r, chain), left)
        decreases left
      {
        ghost var s := At(r, chain);
        if r.cp !in img.lines { return Astray, left; }
        var l := img.lines[r.cp];
        var d := PointerDepthOf(l.instr);
        if d >= 0 && !Within(stack, r.sp - d, 1) { return Astray, left; }
        left := left - 1;
        assert all == F.Continue(img, F.Step(img, s), left);
        if d >= 0 && stack[r.sp - d] == 0 { return Value(ERR_NULL_POINTER), left; }
        if r.sp >= img.stackMax { return Value(ERR_STACK_OVERFLOW), left; }
        if l.instr.CallNative? {
          var back;
          NativeDispatch(s, r, l);
          back, reply, r, left := ExecNative(r, l, chain, left);
          if !back { return; }
        } else {
          st, r := Exec(r, l, chain);
          match st
          case Going =>
          case Leaving(v) => return Value(v), left;
          case Crashed => return Broken, left;
          case Lost => return Astray, left;
        }
      }
      reply := Late;
    }

    lemma NativeDispatch(s: F.Flat, r: F.Regs, l: Line)
      requires l.instr.CallNative?
      ensures F.Dispatch(img, s, r, l) == F.StepNative(img, s, r, l)
    {
    }

    /** CallNative, CallNativeWide and CallNativeVoid: the native runs to its end, calling back as it likes.
        Either the vmCall goes on (`back`) or it has ended with `reply`. */
    method ExecNative(r: F.Regs, l: Line, ghost chain: F.Chain, fuel: nat)
      returns (back: bool, reply: Reply, r': F.Regs, left: nat)
      requires l.instr.CallNative?
      modifies this, stack
      ensures left <= fuel
      ensures var o := F.Continue(img, F.StepNative(img, old(At(r, chain)), r, l), fuel);
              if back then o == F.Run(img, At(r', chain), left) else Ends(o, reply, chain, left)
      decreases fuel, 0
    {
      hide Put, F.StepRunning, NativeResult;
      var i := l.instr;
      back, r', left := false, r, fuel;
      if !img.hasNative(i.kit, i.id) {
        reply := if i.results == 0 then Astray else Value(ERR_MISSING_NATIVE);
        return;
      }
      if !Within(stack, r.sp - i.argc + 1, i.argc) { reply := Astray; return; }
      ghost var o := F.Continue(img, F.StepNative(img, At(r, chain), r, l), fuel);
      var act := img.native(i.kit, i.id, stack[r.sp - i.argc + 1..r.sp + 1], w);
      var caller := r.(cp := l.next);
      sp := r.sp;
      while act.CallBack? && left > 0
        invariant left <= fuel
        invariant o == F.Run(img, AtNative(act, caller, i.argc, i.results, chain), left)
        decreases left
      {
        left := left - 1;
        w := act.w;
        reply, left := Call(act.target, act.args, F.Within(caller, i.argc, i.results, act.resume, chain), left);
        if !reply.Value? { return; }
        act := act.resume(reply.v, w);
      }
      if left == 0 { reply := Late; return; }
      left := left - 1;
      var at := r.sp - i.argc + 1;
      if i.results > 2 || !Within(stack, at, i.results) { reply := Astray; return; }
      Store(at, NativeResult(act.lo, act.hi, i.results));
      w := act.w;
      back, reply, r' := true, Late, caller.(sp := r.sp - i.argc + i.results);
    }

    /** vmEntry: empty stack, -1 in its first cell, then vmCall on the main method, on exactly the cells the overflow
        limit names. For a well-formed image the reply and the world left behind are the evaluator's, told what new
        frames find in their locals; where locals are stored before they are loaded it need not be told. The raw
        offsets go astray where the evaluator overruns the stack and nowhere else. */
    method Entry(ghost ty: M.Typing, target: int, args: seq<int>, fuel: nat) returns (reply: Reply)
      requires M.WellFormed(img, ty) && target in ty.kind && stack.Length == img.stackMax
      modifies this, stack
      ensures stack.Length > 0
      ensures var mem := old(stack[..])[0 := -1];
              Answers(E.EvalMethod(img, ty, target, args, old(w), 0, V.EntryCells(mem, 0, args),
                                   V.Oracle(img, mem, 0, old(w), target, args, fuel)), reply, w)
      ensures forall da | S.Definite(img, ty, da) && S.DeafNatives(img, ty) ::
                Answers(E.EvalMethod(img, ty, target, args, old(w), 0, if ty.kind[target] == 0 then [-1] else [],
                                     V.Blank(fuel)), reply, w)
    {
      hide E.EvalMethod, F.Enter, M.WellFormed, V.Oracle, V.EntryCells, S.Definite, S.DeafNatives, V.Blank;
      RoomForBase(img, ty);
      sp := 0;
      stack[0] := -1;
      ghost var mem, w0 := stack[..], w;
      var left;
      reply, left := Call(target, args, F.Outside, fuel);
      V.CallOnCells(img, ty, mem, 0, w0, target, args, fuel);
      assert mem == old(stack[..])[0 := -1];
      forall da | S.Definite(img, ty, da) && S.DeafNatives(img, ty)
        ensures Answers(E.EvalMethod(img, ty, target, args, w0, 0, if ty.kind[target] == 0 then [-1] else [],
                                     V.Blank(fuel)), reply, w)
      {
        V.CallIsEval(img, ty, da, mem, 0, w0, target, args, fuel);
      }
    }
  }

  lemma RoomForBase(img: Image, ty: M.Typing)
    requires M.WellFormed(img, ty)
    ensures img.stackMax > 0
  {
  }

  /** A vmCall's reply and final world as the evaluator gives them. */
  predicate Answers(r: E.Result, reply: Reply, w: World) {
    match r
    case Returned(cells, w', _, _) => |cells| == 1 && reply == Value(cells[0]) && w == w'
    case Failed(code, w', _, _) => reply == Value(code) && w == w'
    case OutOfTicks => reply == Late
    case Broken(why) => why.BadCall? || (why.Faulted? && reply == Broken) || (why.Overran? && reply == Astray)
  }
}

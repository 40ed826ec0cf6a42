/** The machine as vmCall runs it: one cell array and seven registers, every
    access a raw offset. `Wild` marks an access outside the array or to an
    address that is no instruction or method, which C leaves undefined. */
module FlatMachine {
  import opened Alu
  import opened Image

  datatype Regs = Regs(sp: int, cp: int, fp: int, pp: int, lp: int, numParams: int, numLocals: int)

  /** The C stack of suspended calls: a vmCall waiting for a native, the native waiting for its callback. */
  datatype Chain = Outside | Within(r: Regs, argc: nat, results: nat, resume: (int, World) -> Act, outer: Chain)

  datatype Mode = Running(r: Regs) | InNative(act: Act, caller: Regs, argc: nat, results: nat)

  datatype Flat = Flat(mem: seq<int>, vmsp: int, w: World, mode: Mode, chain: Chain)

  datatype Outcome =
    | Next(s: Flat)
    | Halt(value: int, mem: seq<int>, vmsp: int, w: World)
    | Fault
    | Wild

  /** The running vmCall returns `v` to whoever called it. */
  function Leave(mem: seq<int>, vmsp: int, w: World, chain: Chain, v: int): Outcome {
    match chain
    case Outside => Halt(v, mem, vmsp, w)
    case Within(r, argc, results, resume, outer) =>
      Next(Flat(mem, vmsp, w, InNative(resume(v, w), r, argc, results), outer))
  }

  /** vmCall up to its first instruction. */
  ghost function Enter(img: Image, mem: seq<int>, vmsp: int, w: World, chain: Chain, method_: int, args: seq<int>)
    : Outcome
  {
    if method_ !in img.heads then Wild
    else
      var head := img.heads[method_];
      if head.params != |args| then Leave(mem, vmsp, w, chain, ERR_INVALID_METHOD_PARAMS)
      else if !InRange(mem, vmsp + 1, |args| + 3) then Wild
      else
        var fp := vmsp + 1 + |args|;
        Next(Flat(Put(mem, vmsp + 1, args + [0, 0, CodeCell(img, method_)]), vmsp, w,
                  Running(Regs(fp + 2 + head.locals, method_ + 2, fp, fp - head.params, fp + 3,
                               head.params, head.locals)),
                  chain))
  }

  /** The common tail of Call, LoadParam0Call and CallVirtual. */
  ghost function Invoke(img: Image, s: Flat, r: Regs, ret: int, target: int): Outcome {
    if target !in img.heads || !InRange(s.mem, r.sp + 1, 3) then Wild
    else
      var head := img.heads[target];
      var fp := r.sp + 1;
      Next(s.(mem := Put(s.mem, fp, [CodeCell(img, ret), StackCell(img, r.fp), CodeCell(img, target)]),
              mode := Running(Regs(fp + 2 + head.locals, target + 2, fp, fp - head.params, fp + 3,
                                   head.params, head.locals))))
  }

  /** ReturnVoid, ReturnPop and ReturnPopWide, for 0, 1 and 2 result cells. A zero return address leads back to the
      host, any other to the calling frame. */
  ghost function Unwind(img: Image, s: Flat, r: Regs, n: nat): Outcome {
    if !ReadsFrame(s.mem, r, n) then Wild
    else if s.mem[r.fp] == 0 then Leave(s.mem, s.vmsp, s.w, s.chain, HostCell(s.mem, r, n))
    else if !ReadsCaller(img, s.mem, r, n) then Wild
    else
      Next(s.(mem := Put(s.mem, r.fp - r.numParams, s.mem[r.sp - n + 1..r.sp + 1]),
              mode := Running(CallerRegs(img, s.mem, r, n))))
  }

  /** A return can read its result, the saved words and the cell below the parameters. */
  predicate ReadsFrame(mem: seq<int>, r: Regs, n: nat) {
    InRange(mem, r.sp - n + 1, n) && InRange(mem, r.fp, 3) && InRange(mem, r.fp - r.numParams - 1, 1)
  }

  /** What the host gets: the int, 0 for a wide result, the cell below the parameters for void. */
  function HostCell(mem: seq<int>, r: Regs, n: nat): int
    requires ReadsFrame(mem, r, n)
  {
    if n == 0 then mem[r.fp - r.numParams - 1] else if n == 1 then mem[r.sp] else 0
  }

  /** A return into the calling frame can read all it needs. */
  predicate ReadsCaller(img: Image, mem: seq<int>, r: Regs, n: nat) {
    && ReadsFrame(mem, r, n) && mem[r.fp] != 0 && InRange(mem, r.fp - r.numParams, n)
    && var fp := StackIndex(img, mem[r.fp + 1]);
       InRange(mem, fp, 3) && CodeOffset(img, mem[fp + 2]) in img.heads
  }

  /** The registers after it. */
  function CallerRegs(img: Image, mem: seq<int>, r: Regs, n: nat): Regs
    requires ReadsCaller(img, mem, r, n)
  {
    var fp := StackIndex(img, mem[r.fp + 1]);
    var head := img.heads[CodeOffset(img, mem[fp + 2])];
    Regs(r.fp - r.numParams + n - 1, CodeOffset(img, mem[r.fp]), fp, fp - head.params, fp + 3, head.params,
           head.locals)
  }

  lemma CallerReads(img: Image, mem: seq<int>, r: Regs, n: nat)
    requires ReadsCaller(img, mem, r, n)
    ensures ReadsFrame(mem, r, n) && mem[r.fp] != 0
  {
  }

  lemma UnwindBack(img: Image, s: Flat, r: Regs, n: nat)
    requires ReadsCaller(img, s.mem, r, n)
    ensures Unwind(img, s, r, n)
            == Next(s.(mem := Put(s.mem, r.fp - r.numParams, s.mem[r.sp - n + 1..r.sp + 1]),
                         mode := Running(CallerRegs(img, s.mem, r, n))))
  {
    hide Put, Leave, CallerRegs, HostCell, ReadsCaller;
    CallerReads(img, s.mem, r, n);
  }

  lemma UnwindLost(img: Image, s: Flat, r: Regs, n: nat)
    requires ReadsFrame(s.mem, r, n) && s.mem[r.fp] != 0 && !ReadsCaller(img, s.mem, r, n)
    ensures Unwind(img, s, r, n) == Wild
  {
    hide ReadsCaller;
  }

  /** The effect of an instruction that takes its `n` operands off the top. */
  ghost function Apply(s: Flat, r: Regs, n: nat, e: Effect): Outcome {
    match e
    case Undefined => Fault
    case Go(pushed, pc, w) =>
      if !InRange(s.mem, r.sp - n + 1, |pushed|) then Wild
      else Next(s.(mem := Put(s.mem, r.sp - n + 1, pushed), w := w,
                   mode := Running(r.(sp := r.sp - n + |pushed|, cp := pc))))
  }

  ghost function StepSimple(img: Image, s: Flat, r: Regs, l: Line): Outcome
    requires Simple(l.instr)
  {
    var n := Pops(l.instr);
    if !InRange(s.mem, r.sp - n + 1, n) then Wild
    else Apply(s, r, n, Perform(img, l, s.mem[r.sp - n + 1..r.sp + 1], s.w))
  }

  ghost function StepVar(img: Image, s: Flat, r: Regs, l: Line): Outcome
    requires l.instr.LoadVar? || l.instr.StoreVar?
  {
    var at := (if l.instr.isLocal then r.lp else r.pp) + l.instr.index;
    var n := l.instr.width;
    var top := if l.instr.LoadVar? then r.sp + 1 else r.sp - n + 1;
    if !InRange(s.mem, at, n) || !InRange(s.mem, top, n) then Wild
    else if l.instr.LoadVar? then
      Next(s.(mem := Put(s.mem, top, s.mem[at..at + n]), mode := Running(r.(sp := r.sp + n, cp := l.next))))
    else
      Next(s.(mem := Put(s.mem, at, s.mem[top..top + n]), mode := Running(r.(sp := r.sp - n, cp := l.next))))
  }

  ghost function StepCall(img: Image, s: Flat, r: Regs, l: Line): Outcome
    requires l.instr.Call? || l.instr.CallVirtual? || l.instr.InlineParam0?
  {
    match l.instr
    case InlineParam0(off) =>
      if !InRange(s.mem, r.pp, 1) || !InRange(s.mem, r.sp + 1, 1) then Wild
      else Next(s.(mem := Put(s.mem, r.sp + 1, [Wrap32(s.mem[r.pp] + off)]),
                   mode := Running(r.(sp := r.sp + 1, cp := l.next))))
    case Call(withParam0, target) =>
      if !withParam0 then Invoke(img, s, r, l.next, target)
      else if !InRange(s.mem, r.pp, 1) || !InRange(s.mem, r.sp + 1, 1) then Wild
      else Invoke(img, s.(mem := Put(s.mem, r.sp + 1, [s.mem[r.pp]])), r.(sp := r.sp + 1), l.next, target)
    case CallVirtual(slot, argc) =>
      if !InRange(s.mem, r.sp - argc + 1, 1) then Wild
      else Invoke(img, s, r, l.next, img.resolve(s.w, s.mem[r.sp - argc + 1], slot))
  }

  function StepNative(img: Image, s: Flat, r: Regs, l: Line): Outcome
    requires l.instr.CallNative?
  {
    var i := l.instr;
    if !img.hasNative(i.kit, i.id) then
      if i.results == 0 then Wild else Leave(s.mem, s.vmsp, s.w, s.chain, ERR_MISSING_NATIVE)
    else if !InRange(s.mem, r.sp - i.argc + 1, i.argc) then Wild
    else
      Next(s.(vmsp := r.sp,
              mode := InNative(img.native(i.kit, i.id, s.mem[r.sp - i.argc + 1..r.sp + 1], s.w),
                               r.(cp := l.next), i.argc, i.results)))
  }

  /** One action of the native in control. */
  ghost function StepAct(img: Image, s: Flat): Outcome
    requires s.mode.InNative?
  {
    var r, argc, n := s.mode.caller, s.mode.argc, s.mode.results;
    match s.mode.act
    case CallBack(w, target, args, resume) =>
      Enter(img, s.mem, s.vmsp, w, Within(r, argc, n, resume, s.chain), target, args)
    case Finish(lo, hi, w) =>
      if n > 2 || !InRange(s.mem, r.sp - argc + 1, n) then Wild
      else Next(s.(mem := Put(s.mem, r.sp - argc + 1, NativeResult(lo, hi, n)), w := w,
                   mode := Running(r.(sp := r.sp - argc + n))))
  }

  ghost function StepRunning(img: Image, s: Flat, r: Regs): Outcome {
    if r.cp !in img.lines then Wild
    else
      var l := img.lines[r.cp];
      var d := PointerDepthOf(l.instr);
      if d >= 0 && !InRange(s.mem, r.sp - d, 1) then Wild
      else if d >= 0 && s.mem[r.sp - d] == 0 then Leave(s.mem, s.vmsp, s.w, s.chain, ERR_NULL_POINTER)
      else if r.sp >= img.stackMax then Leave(s.mem, s.vmsp, s.w, s.chain, ERR_STACK_OVERFLOW)
      else Dispatch(img, s, r, l)
  }

  /** The switch on the opcode. */
  ghost function Dispatch(img: Image, s: Flat, r: Regs, l: Line): Outcome {
    if Simple(l.instr) then StepSimple(img, s, r, l)
    else if l.instr.LoadVar? || l.instr.StoreVar? then StepVar(img, s, r, l)
    else if l.instr.CallNative? then StepNative(img, s, r, l)
    else if l.instr.Return? then Unwind(img, s, r, l.instr.results)
    else if l.instr.Unknown? then Leave(s.mem, s.vmsp, s.w, s.chain, ERR_UNKNOWN_OPCODE)
    else StepCall(img, s, r, l)
  }

  ghost function Step(img: Image, s: Flat): Outcome {
    match s.mode
    case Running(r) => StepRunning(img, s, r)
    case InNative(_, _, _, _) => StepAct(img, s)
  }

  /** At most `fuel` steps. */
  ghost function Run(img: Image, s: Flat, fuel: nat): Outcome
    decreases fuel, 0
  {
    if fuel == 0 then Next(s) else Continue(img, Step(img, s), fuel - 1)
  }

  ghost function Continue(img: Image, o: Outcome, fuel: nat): Outcome
    decreases fuel, 1
  {
    match o
    case Next(s) => Run(img, s, fuel)
    case _ => o
  }

  /** The debug build's test on a return: the operand area does not hold exactly the result. */
  predicate Imbalanced(r: Regs, n: nat) { r.sp - n + 1 - r.numLocals != r.lp }
}

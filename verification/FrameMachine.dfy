/** The machine as a list of frames: every activation owns its parameters,
    locals and operands, and nothing is shared. `Stuck` marks an operand
    underflow, a variable outside the frame or a call with too few operands. */
module FrameMachine {
  import opened Alu
  import opened Image

  /** Frames of one vmCall, innermost first; `at` is the index of the entry method's first parameter in the cell
      array and `below` the cell under it. */
  datatype Stack =
    | Base(below: int, at: int)
    | Frame(meth: int, pc: int, params: seq<int>, locals: seq<int>, ops: seq<int>, caller: Stack)

  datatype Pending = Nobody | Waiting(top: Stack, argc: nat, results: nat, resume: (int, World) -> Act, outer: Pending)

  datatype Control = Executing(top: Stack) | Native(act: Act, top: Stack, argc: nat, results: nat)

  datatype Config = Config(w: World, vmsp: int, control: Control, pending: Pending)

  /** `Overrun` marks a store behind the last cell of the stack. */
  datatype Outcome = Next(c: Config) | Halt(value: int, w: World, vmsp: int) | Fault | BadTarget | Stuck | Overrun

  /** What one step takes from its surroundings: the stale cells a new frame finds in its locals. */
  type Tick = seq<int>

  /** Operand height per code offset and result size per method. */
  datatype Spot = Spot(meth: int, height: nat)
  datatype Typing = Typing(at: map<int, Spot>, kind: map<int, nat>)

  /** One past the last cell of the frames. */
  function End(s: Stack): int {
    match s
    case Base(_, at) => at
    case Frame(_, _, params, locals, ops, caller) => End(caller) + |params| + 3 + |locals| + |ops|
  }

  /** The vmCalls that wait for a native. */
  function Suspended(p: Pending): nat {
    match p
    case Nobody => 0
    case Waiting(_, _, _, _, outer) => 1 + Suspended(outer)
  }

  // ----- steps -----

  function Leave(w: World, vmsp: int, pending: Pending, v: int): Outcome {
    match pending
    case Nobody => Halt(v, w, vmsp)
    case Waiting(top, argc, results, resume, outer) =>
      Next(Config(w, vmsp, Native(resume(v, w), top, argc, results), outer))
  }

  /** `stale[0]` becomes the cell below the parameters, the rest the locals. */
  function Enter(img: Image, ty: Typing, w: World, vmsp: int, pending: Pending, target: int, args: seq<int>,
                 stale: Tick): Outcome
  {
    if target !in img.heads || target !in ty.kind then BadTarget
    else if img.heads[target].params != |args| then Leave(w, vmsp, pending, ERR_INVALID_METHOD_PARAMS)
    else
      var cells := Fit(stale, 1 + img.heads[target].locals);
      var entry := Frame(target, target + 2, args, cells[1..], [], Base(cells[0], vmsp + 1));
      Next(Config(w, vmsp, Executing(entry), pending))
  }

  function Callee(target: int, head: Head, caller: Stack, stale: Tick): Stack
    requires caller.Frame? && head.params <= |caller.ops|
  {
    var k := |caller.ops| - head.params;
    Frame(target, target + 2, caller.ops[k..], Fit(stale, head.locals), [], caller.(ops := caller.ops[..k]))
  }

  function Invoke(img: Image, c: Config, top: Stack, ret: int, target: int, stale: Tick): Outcome
    requires top.Frame?
  {
    if target !in img.heads || |top.ops| < img.heads[target].params then Stuck
    else Next(c.(control := Executing(Callee(target, img.heads[target], top.(pc := ret), stale))))
  }

  function Unwind(c: Config, top: Stack, n: nat): Outcome
    requires top.Frame?
  {
    if |top.ops| < n then Stuck
    else
      var result := top.ops[|top.ops| - n..];
      match top.caller
      case Base(below, _) => Leave(c.w, c.vmsp, c.pending, EntryValue(result, below))
      case Frame(_, _, _, _, ops, _) => Next(c.(control := Executing(top.caller.(ops := ops + result))))
  }

  /** vmCall's own result when its entry method returns: the int, 0 for a wide result, the cell below for void. */
  function EntryValue(result: seq<int>, below: int): int {
    if |result| == 0 then below else if |result| == 1 then result[0] else 0
  }

  function Apply(c: Config, top: Stack, n: nat, e: Effect): Outcome
    requires top.Frame? && n <= |top.ops|
  {
    match e
    case Undefined => Fault
    case Go(pushed, pc, w) =>
      Next(c.(w := w, control := Executing(top.(ops := top.ops[..|top.ops| - n] + pushed, pc := pc))))
  }

  function StepSimple(img: Image, c: Config, top: Stack, l: Line): Outcome
    requires top.Frame? && Simple(l.instr)
  {
    var n := Pops(l.instr);
    if |top.ops| < n then Stuck else Apply(c, top, n, Perform(img, l, top.ops[|top.ops| - n..], c.w))
  }

  /** The frame with `stored` at index `i` of its locals or parameters and only its first `k` operands. */
  ghost function WithVars(top: Stack, isLocal: bool, i: nat, stored: seq<int>, k: nat, pc: int): Stack
    requires top.Frame? && k <= |top.ops| && i + |stored| <= if isLocal then |top.locals| else |top.params|
  {
    var popped := top.(ops := top.ops[..k], pc := pc);
    if isLocal then popped.(locals := Put(top.locals, i, stored)) else popped.(params := Put(top.params, i, stored))
  }

  ghost function StepVar(c: Config, top: Stack, l: Line): Outcome
    requires top.Frame? && (l.instr.LoadVar? || l.instr.StoreVar?)
  {
    var vars := if l.instr.isLocal then top.locals else top.params;
    var i, n := l.instr.index, l.instr.width;
    if |vars| < i + n then Stuck
    else if l.instr.LoadVar? then
      Next(c.(control := Executing(top.(ops := top.ops + vars[i..i + n], pc := l.next))))
    else if |top.ops| < n then Stuck
    else
      var k := |top.ops| - n;
      Next(c.(control := Executing(WithVars(top, l.instr.isLocal, i, top.ops[k..], k, l.next))))
  }

  /** The heap's vtable agrees with the operand heights at this call site. */
  predicate GoodTarget(img: Image, ty: Typing, pc: int, next: int, argc: nat, target: int) {
    && target in img.heads && target in ty.kind && img.heads[target].params == argc
    && pc in ty.at && next in ty.at
    && ty.at[next].height == ty.at[pc].height - argc + ty.kind[target]
  }

  function StepCall(img: Image, ty: Typing, c: Config, top: Stack, l: Line, stale: Tick): Outcome
    requires top.Frame? && (l.instr.Call? || l.instr.CallVirtual? || l.instr.InlineParam0?)
  {
    match l.instr
    case InlineParam0(off) =>
      if |top.params| < 1 then Stuck
      else Next(c.(control := Executing(top.(ops := top.ops + [Wrap32(top.params[0] + off)], pc := l.next))))
    case Call(withParam0, target) =>
      if !withParam0 then Invoke(img, c, top, l.next, target, stale)
      else if |top.params| < 1 then Stuck
      else Invoke(img, c, top.(ops := top.ops + [top.params[0]]), l.next, target, stale)
    case CallVirtual(slot, argc) =>
      if argc < 1 || |top.ops| < argc then Stuck
      else
        var target := img.resolve(c.w, top.ops[|top.ops| - argc], slot);
        if !GoodTarget(img, ty, top.pc, l.next, argc, target) then BadTarget
        else Invoke(img, c, top, l.next, target, stale)
  }

  function StepNative(img: Image, c: Config, top: Stack, l: Line): Outcome
    requires top.Frame? && l.instr.CallNative?
  {
    var i := l.instr;
    if !img.hasNative(i.kit, i.id) then
      if i.results == 0 then Stuck else Leave(c.w, c.vmsp, c.pending, ERR_MISSING_NATIVE)
    else if |top.ops| < i.argc then Stuck
    else
      Next(c.(vmsp := End(top) - 1,
              control := Native(img.native(i.kit, i.id, top.ops[|top.ops| - i.argc..], c.w),
                                top.(pc := l.next), i.argc, i.results)))
  }

  function StepAct(img: Image, ty: Typing, c: Config, stale: Tick): Outcome
    requires c.control.Native?
  {
    var top, argc, n := c.control.top, c.control.argc, c.control.results;
    match c.control.act
    case CallBack(w, target, args, resume) =>
      Enter(img, ty, w, c.vmsp, Waiting(top, argc, n, resume, c.pending), target, args, stale)
    case Finish(lo, hi, w) =>
      if n > 2 || !top.Frame? || |top.ops| < argc then Stuck
      else Next(c.(w := w, control := Executing(top.(ops := top.ops[..|top.ops| - argc] + NativeResult(lo, hi, n)))))
  }

  ghost function StepExecuting(img: Image, ty: Typing, c: Config, top: Stack, stale: Tick): Outcome {
    if !top.Frame? || top.pc !in img.lines then Stuck
    else
      var l := img.lines[top.pc];
      var d := PointerDepthOf(l.instr);
      if d >= |top.ops| then Stuck
      else if d >= 0 && top.ops[|top.ops| - 1 - d] == 0 then Leave(c.w, c.vmsp, c.pending, ERR_NULL_POINTER)
      else if End(top) > img.stackMax then Leave(c.w, c.vmsp, c.pending, ERR_STACK_OVERFLOW)
      else Dispatch(img, ty, c, top, l, stale)
  }

  ghost function Dispatch(img: Image, ty: Typing, c: Config, top: Stack, l: Line, stale: Tick): Outcome
    requires top.Frame?
  {
    if Simple(l.instr) then StepSimple(img, c, top, l)
    else if l.instr.LoadVar? || l.instr.StoreVar? then StepVar(c, top, l)
    else if l.instr.CallNative? then StepNative(img, c, top, l)
    else if l.instr.Return? then Unwind(c, top, l.instr.results)
    else if l.instr.Unknown? then Leave(c.w, c.vmsp, c.pending, ERR_UNKNOWN_OPCODE)
    else StepCall(img, ty, c, top, l, stale)
  }

  /** A step on a stack without end. */
  ghost function Move(img: Image, ty: Typing, c: Config, stale: Tick): Outcome {
    match c.control
    case Executing(top) => StepExecuting(img, ty, c, top, stale)
    case Native(_, _, _, _) => StepAct(img, ty, c, stale)
  }

  // ----- the end of the stack

  /** The frame's next instruction passes the null and overflow tests. */
  predicate Starts(img: Image, top: Stack) {
    && top.Frame? && top.pc in img.lines && End(top) <= img.stackMax
    && var d := PointerDepthOf(img.lines[top.pc].instr);
       d < |top.ops| && (d >= 0 ==> top.ops[|top.ops| - 1 - d] != 0)
  }

  /** One past the last cell used by an instruction that has passed the tests, when the operands `ops` end at `end`. */
  function Reach(img: Image, ops: seq<int>, end: int, l: Line, w: World): int {
    if Simple(l.instr) then
      var n := Pops(l.instr);
      if |ops| < n then end
      else
        match Perform(img, l, ops[|ops| - n..], w)
        case Go(pushed, _, _) => end - n + |pushed|
        case Undefined => end
    else
      match l.instr
      case LoadVar(_, _, n) => end + n
      case InlineParam0(_) => end + 1
      case Call(withParam0, _) => if withParam0 then end + 4 else end + 3
      case CallVirtual(_, _) => end + 3
      case _ => end
  }

  function FrameReach(img: Image, top: Stack, l: Line, w: World): int
    requires top.Frame?
  {
    Reach(img, top.ops, End(top), l, w)
  }

  /** The next step stores behind the last cell: the source tests for overflow before an instruction, and only
      whether the cell at sp exists. */
  predicate Overruns(img: Image, ty: Typing, c: Config) {
    match c.control
    case Executing(top) => Starts(img, top) && FrameReach(img, top, img.lines[top.pc], c.w) > img.stackMax
    case Native(act, top, argc, n) =>
      match act
      case CallBack(_, target, args, _) => BeginOverruns(img, ty, c.vmsp, target, args)
      case Finish(_, _, _) => End(top) - argc + n > img.stackMax
  }

  /** vmCall's arguments and three saved words do not fit above vm->sp. */
  predicate EntryOverruns(img: Image, vmsp: int, target: int, args: seq<int>)
    requires target in img.heads
  {
    img.heads[target].params == |args| && vmsp + |args| + 4 > img.stackMax
  }

  /** A callback of a method the typing knows does not fit. */
  predicate BeginOverruns(img: Image, ty: Typing, vmsp: int, target: int, args: seq<int>) {
    target in img.heads && target in ty.kind && EntryOverruns(img, vmsp, target, args)
  }

  /** vmCall up to its first instruction, on the real stack. */
  function Begin(img: Image, ty: Typing, w: World, vmsp: int, pending: Pending, target: int, args: seq<int>,
                 stale: Tick): Outcome
  {
    if BeginOverruns(img, ty, vmsp, target, args) then Overrun
    else Enter(img, ty, w, vmsp, pending, target, args, stale)
  }

  ghost function Step(img: Image, ty: Typing, c: Config, stale: Tick): Outcome {
    if Overruns(img, ty, c) then Overrun else Move(img, ty, c, stale)
  }

  /** Past the null and overflow tests a step is the instruction's own, or runs off the stack. */
  lemma Dispatched(img: Image, ty: Typing, c: Config, t: Tick)
    requires c.control.Executing? && Starts(img, c.control.top)
    ensures var top := c.control.top;
            Step(img, ty, c, t) == if FrameReach(img, top, img.lines[top.pc], c.w) > img.stackMax then Overrun
                                   else Dispatch(img, ty, c, top, img.lines[top.pc], t)
  {
    hide FrameReach, Dispatch;
  }

  lemma EndOps(top: Stack, ops: seq<int>, pc: int)
    requires top.Frame?
    ensures End(top.(ops := ops, pc := pc)) == End(top) - |top.ops| + |ops|
  {
  }

  /** One step per tick, until the ticks run out or the outermost vmCall returns. */
  ghost function Run(img: Image, ty: Typing, c: Config, ticks: seq<Tick>): Outcome
    decreases |ticks|, 0
  {
    if ticks == [] then Next(c) else Continue(img, ty, Step(img, ty, c, ticks[0]), ticks[1..])
  }

  ghost function Continue(img: Image, ty: Typing, o: Outcome, ticks: seq<Tick>): Outcome
    decreases |ticks|, 1
  {
    match o
    case Next(c) => Run(img, ty, c, ticks)
    case _ => o
  }

  lemma OneStep(img: Image, ty: Typing, c: Config, t: Tick)
    ensures Run(img, ty, c, [t]) == Step(img, ty, c, t)
  {
    hide Step;
    var o := Step(img, ty, c, t);
    assert [t][1..] == [];
    assert Run(img, ty, c, [t]) == Continue(img, ty, o, []);
    if o.Next? {
      assert Run(img, ty, o.c, []) == o;
    }
  }

  lemma {:induction false} RunAppend(img: Image, ty: Typing, c: Config, ticks: seq<Tick>, more: seq<Tick>)
    ensures Run(img, ty, c, ticks + more) == Continue(img, ty, Run(img, ty, c, ticks), more)
    decreases |ticks|
  {
    hide Step;
    if ticks == [] {
      assert ticks + more == more;
    } else {
      var o := Step(img, ty, c, ticks[0]);
      assert (ticks + more)[1..] == ticks[1..] + more;
      if o.Next? {
        RunAppend(img, ty, o.c, ticks[1..], more);
      }
    }
  }

  // ----- well-formed images -----

  predicate At(ty: Typing, pc: int, meth: int, height: int) {
    pc in ty.at && ty.at[pc].meth == meth && ty.at[pc].height == height
  }

  /** The most cells one instruction pushes (Dup2Down3). */
  const MAX_PUSH: nat := 6

  /** The operand heights agree across one instruction and its indices stay inside the frame. */
  predicate LineOk(img: Image, ty: Typing, pc: int)
    requires pc in ty.at
  {
    var m, h := ty.at[pc].meth, ty.at[pc].height;
    && m in ty.kind && m in img.heads && pc in img.lines
    && var head, l := img.heads[m], img.lines[pc];
    && PointerDepthOf(l.instr) < h
    && if Simple(l.instr) then
         && Pops(l.instr) <= h
         && forall f | f in Flows(l) :: f.1 <= MAX_PUSH && At(ty, f.0, m, h - Pops(l.instr) + f.1)
       else match l.instr
         case LoadVar(isLocal, i, n) =>
           n <= 2 && i + n <= (if isLocal then head.locals else head.params) && At(ty, l.next, m, h + n)
         case StoreVar(isLocal, i, n) =>
           i + n <= (if isLocal then head.locals else head.params) && n <= h && At(ty, l.next, m, h - n)
         case InlineParam0(_) => head.params >= 1 && At(ty, l.next, m, h + 1)
         case Call(withParam0, target) =>
           var h' := if withParam0 then h + 1 else h;
           && (withParam0 ==> head.params >= 1)
           && target in ty.kind && target in img.heads && img.heads[target].params <= h'
           && At(ty, l.next, m, h' - img.heads[target].params + ty.kind[target])
         case CallVirtual(_, argc) => 1 <= argc <= h && l.next in ty.at && ty.at[l.next].meth == m
         case CallNative(kit, id, argc, results) =>
           && argc <= h && results <= 2 && (results == 0 ==> img.hasNative(kit, id))
           && At(ty, l.next, m, h - argc + results)
         case Return(n) => n == ty.kind[m] && n <= h
         case _ => true
  }

  /** Header bytes are bytes. */
  predicate SmallHeads(img: Image) {
    forall m | m in img.heads :: img.heads[m].params <= 255 && img.heads[m].locals <= 255
  }

  /** Every method has a header and starts with no operands; every typed offset passes `LineOk`. */
  predicate WellFormed(img: Image, ty: Typing) {
    && img.codeBase > 0 && img.stackMax > 0 && SmallHeads(img)
    && (forall m | m in ty.kind :: m in img.heads && m >= 0 && ty.kind[m] <= 2 && At(ty, m + 2, m, 0))
    && (forall pc | pc in ty.at :: pc >= 0 && LineOk(img, ty, pc))
  }

  // ----- typed configurations -----

  /** `owed` cells are still to be pushed before the frame's pc is reached with the height typed there. */
  predicate StackOk(img: Image, ty: Typing, s: Stack, owed: int) {
    s.Frame? ==>
      && s.pc in ty.at && ty.at[s.pc].meth == s.meth && |s.ops| + owed == ty.at[s.pc].height
      && s.meth in ty.kind && s.meth in img.heads
      && |s.params| == img.heads[s.meth].params && |s.locals| == img.heads[s.meth].locals
      && StackOk(img, ty, s.caller, ty.kind[s.meth])
  }

  predicate WaitOk(img: Image, ty: Typing, top: Stack, argc: nat, results: nat) {
    top.Frame? && argc <= |top.ops| && results <= 2 && StackOk(img, ty, top, results - argc)
  }

  predicate PendingOk(img: Image, ty: Typing, p: Pending) {
    p.Waiting? ==> WaitOk(img, ty, p.top, p.argc, p.results) && PendingOk(img, ty, p.outer)
  }

  predicate Typed(img: Image, ty: Typing, c: Config) {
    && PendingOk(img, ty, c.pending)
    && match c.control
       case Executing(top) => top.Frame? && StackOk(img, ty, top, 0)
       case Native(_, top, argc, results) => WaitOk(img, ty, top, argc, results)
  }

  ghost predicate Kept(img: Image, ty: Typing, o: Outcome) {
    !o.Stuck? && (o.Next? ==> Typed(img, ty, o.c))
  }

  lemma SimpleTyped(img: Image, ty: Typing, c: Config, top: Stack)
    requires WellFormed(img, ty) && Typed(img, ty, c) && c.control == Executing(top)
    requires LineOk(img, ty, top.pc) && Simple(img.lines[top.pc].instr)
    ensures Kept(img, ty, StepSimple(img, c, top, img.lines[top.pc]))
  {
    var l := img.lines[top.pc];
    PerformFlows(img, l, top.ops[|top.ops| - Pops(l.instr)..], c.w);
  }

  lemma VarTyped(img: Image, ty: Typing, c: Config, top: Stack)
    requires WellFormed(img, ty) && Typed(img, ty, c) && c.control == Executing(top)
    requires LineOk(img, ty, top.pc) && (img.lines[top.pc].instr.LoadVar? || img.lines[top.pc].instr.StoreVar?)
    ensures Kept(img, ty, StepVar(c, top, img.lines[top.pc]))
  {
  }

  lemma EntryHeight(img: Image, ty: Typing, m: int)
    requires WellFormed(img, ty) && m in ty.kind
    ensures m in img.heads && At(ty, m + 2, m, 0) && ty.kind[m] <= 2
  {
    hide LineOk;
  }

  /** The frame a method starts with. */
  lemma FirstFrameOk(img: Image, ty: Typing, m: int, params: seq<int>, locals: seq<int>, caller: Stack)
    requires WellFormed(img, ty) && m in ty.kind && m in img.heads
    requires |params| == img.heads[m].params && |locals| == img.heads[m].locals
    requires StackOk(img, ty, caller, ty.kind[m])
    ensures StackOk(img, ty, Frame(m, m + 2, params, locals, [], caller), 0)
  {
    hide WellFormed;
    EntryHeight(img, ty, m);
    assert At(ty, m + 2, m, 0);
  }

  /** Some operands are taken off, and as many more cells are owed. */
  lemma LessOps(img: Image, ty: Typing, top: Stack, k: nat, owed: int)
    requires top.Frame? && k <= |top.ops| && StackOk(img, ty, top, owed)
    ensures StackOk(img, ty, top.(ops := top.ops[..k]), owed + |top.ops| - k)
  {
  }

  lemma InvokeTyped(img: Image, ty: Typing, c: Config, top: Stack, ret: int, target: int, stale: Tick)
    requires WellFormed(img, ty) && PendingOk(img, ty, c.pending)
    requires top.Frame? && target in ty.kind && target in img.heads && img.heads[target].params <= |top.ops|
    requires StackOk(img, ty, top.(pc := ret), ty.kind[target] - img.heads[target].params)
    ensures Kept(img, ty, Invoke(img, c, top, ret, target, stale))
  {
    hide WellFormed, PendingOk, StackOk, Fit;
    var head := img.heads[target];
    var k := |top.ops| - head.params;
    LessOps(img, ty, top.(pc := ret), k, ty.kind[target] - head.params);
    FirstFrameOk(img, ty, target, top.ops[k..], Fit(stale, head.locals), top.(pc := ret, ops := top.ops[..k]));
  }

  lemma CallTyped(img: Image, ty: Typing, c: Config, top: Stack, stale: Tick)
    requires WellFormed(img, ty) && Typed(img, ty, c) && c.control == Executing(top)
    requires LineOk(img, ty, top.pc)
    requires var i := img.lines[top.pc].instr; i.Call? || i.CallVirtual? || i.InlineParam0?
    ensures Kept(img, ty, StepCall(img, ty, c, top, img.lines[top.pc], stale))
  {
    var l := img.lines[top.pc];
    match l.instr
    case InlineParam0(_) =>
    case Call(withParam0, target) =>
      var top' := if withParam0 then top.(ops := top.ops + [top.params[0]]) else top;
      InvokeTyped(img, ty, c, top', l.next, target, stale);
    case CallVirtual(slot, argc) =>
      var target := img.resolve(c.w, top.ops[|top.ops| - argc], slot);
      if GoodTarget(img, ty, top.pc, l.next, argc, target) {
        InvokeTyped(img, ty, c, top, l.next, target, stale);
      }
  }

  lemma NativeTyped(img: Image, ty: Typing, c: Config, top: Stack)
    requires WellFormed(img, ty) && Typed(img, ty, c) && c.control == Executing(top)
    requires LineOk(img, ty, top.pc) && img.lines[top.pc].instr.CallNative?
    ensures Kept(img, ty, StepNative(img, c, top, img.lines[top.pc]))
  {
  }

  lemma UnwindTyped(img: Image, ty: Typing, c: Config, top: Stack)
    requires WellFormed(img, ty) && Typed(img, ty, c) && c.control == Executing(top)
    requires LineOk(img, ty, top.pc) && img.lines[top.pc].instr.Return?
    ensures Kept(img, ty, Unwind(c, top, img.lines[top.pc].instr.results))
  {
    assert StackOk(img, ty, top.caller, ty.kind[top.meth]);
  }

  lemma EnterTyped(img: Image, ty: Typing, w: World, vmsp: int, p: Pending, target: int, args: seq<int>, stale: Tick)
    requires WellFormed(img, ty) && PendingOk(img, ty, p)
    ensures Kept(img, ty, Enter(img, ty, w, vmsp, p, target, args, stale))
  {
    hide WellFormed, StackOk, Fit, WaitOk;
    if target in img.heads && target in ty.kind && img.heads[target].params == |args| {
      var cells := Fit(stale, 1 + img.heads[target].locals);
      BaseOk(img, ty, cells[0], vmsp + 1, ty.kind[target]);
      FirstFrameOk(img, ty, target, args, cells[1..], Base(cells[0], vmsp + 1));
    }
  }

  lemma BaseOk(img: Image, ty: Typing, below: int, at: int, owed: int)
    ensures StackOk(img, ty, Base(below, at), owed)
  {
  }

  lemma FinishTyped(img: Image, ty: Typing, top: Stack, argc: nat, results: nat, lo: int, hi: int)
    requires WaitOk(img, ty, top, argc, results)
    ensures StackOk(img, ty, top.(ops := top.ops[..|top.ops| - argc] + NativeResult(lo, hi, results)), 0)
  {
    hide NativeResult;
  }

  lemma ActTyped(img: Image, ty: Typing, c: Config, stale: Tick)
    requires WellFormed(img, ty) && Typed(img, ty, c) && c.control.Native?
    ensures Kept(img, ty, StepAct(img, ty, c, stale))
  {
    hide WellFormed, StackOk, Enter, NativeResult;
    var top, argc, n := c.control.top, c.control.argc, c.control.results;
    match c.control.act
    case CallBack(w, target, args, resume) =>
      EnterTyped(img, ty, w, c.vmsp, Waiting(top, argc, n, resume, c.pending), target, args, stale);
    case Finish(lo, hi, w) =>
      FinishTyped(img, ty, top, argc, n, lo, hi);
  }

  lemma MoveTyped(img: Image, ty: Typing, c: Config, stale: Tick)
    requires WellFormed(img, ty) && Typed(img, ty, c)
    ensures Kept(img, ty, Move(img, ty, c, stale))
  {
    hide StepSimple, StepVar, StepCall, StepNative, Unwind, StepAct, StackOk, PendingOk;
    if c.control.Native? {
      ActTyped(img, ty, c, stale);
    } else {
      var top := c.control.top;
      TopOk(img, ty, c);
      LeaveTyped(img, ty, c, ERR_NULL_POINTER);
      LeaveTyped(img, ty, c, ERR_STACK_OVERFLOW);
      LeaveTyped(img, ty, c, ERR_UNKNOWN_OPCODE);
      var i := img.lines[top.pc].instr;
      if Simple(i) { SimpleTyped(img, ty, c, top); }
      else if i.LoadVar? || i.StoreVar? { VarTyped(img, ty, c, top); }
      else if i.CallNative? { NativeTyped(img, ty, c, top); }
      else if i.Return? { UnwindTyped(img, ty, c, top); }
      else if !i.Unknown? { CallTyped(img, ty, c, top, stale); }
    }
  }

  lemma TopOk(img: Image, ty: Typing, c: Config)
    requires WellFormed(img, ty) && Typed(img, ty, c) && c.control.Executing?
    ensures var top := c.control.top;
            && top.Frame? && top.pc in ty.at && LineOk(img, ty, top.pc) && top.pc in img.lines
            && PointerDepthOf(img.lines[top.pc].instr) < |top.ops|
  {
  }

  lemma LeaveTyped(img: Image, ty: Typing, c: Config, v: int)
    requires Typed(img, ty, c)
    ensures Kept(img, ty, Leave(c.w, c.vmsp, c.pending, v))
  {
    hide StackOk;
  }

  /** Progress and preservation: from a typed configuration of a well-formed image a step
      never underflows, never leaves the frame, and leads to a typed configuration. */
  lemma StepTyped(img: Image, ty: Typing, c: Config, stale: Tick)
    requires WellFormed(img, ty) && Typed(img, ty, c)
    ensures !Step(img, ty, c, stale).Stuck?
    ensures Step(img, ty, c, stale).Next? ==> Typed(img, ty, Step(img, ty, c, stale).c)
  {
    hide Move, Typed, Overruns;
    MoveTyped(img, ty, c, stale);
  }

  lemma EntryTyped(img: Image, ty: Typing, w: World, vmsp: int, target: int, args: seq<int>, stale: seq<int>)
    requires WellFormed(img, ty) && target in ty.kind
    ensures var a := Begin(img, ty, w, vmsp, Nobody, target, args, stale);
            !a.BadTarget? && !a.Stuck? && (a.Next? ==> Typed(img, ty, a.c))
  {
    hide WellFormed, Typed, Enter;
    EntryHeight(img, ty, target);
    EnterTyped(img, ty, w, vmsp, Nobody, target, args, stale);
    EnterTarget(img, ty, w, vmsp, target, args, stale);
  }

  lemma EnterTarget(img: Image, ty: Typing, w: World, vmsp: int, target: int, args: seq<int>, stale: Tick)
    requires target in img.heads && target in ty.kind
    ensures !Enter(img, ty, w, vmsp, Nobody, target, args, stale).BadTarget?
  {
  }

  /** Stack discipline over whole runs. */
  lemma {:induction false} RunTyped(img: Image, ty: Typing, c: Config, ticks: seq<Tick>)
    requires WellFormed(img, ty) && Typed(img, ty, c)
    ensures !Run(img, ty, c, ticks).Stuck?
    ensures Run(img, ty, c, ticks).Next? ==> Typed(img, ty, Run(img, ty, c, ticks).c)
    decreases |ticks|
  {
    hide Typed, WellFormed, Step;
    if ticks != [] {
      StepTyped(img, ty, c, ticks[0]);
      var o := Step(img, ty, c, ticks[0]);
      if o.Next? { RunTyped(img, ty, o.c, ticks[1..]); }
    }
  }
}

/** vm->sp is raised when a native is called and never put back: what one callback leaves, and what a native that
    calls back again and again runs into (natives/sys_Test.c:33-41). */
module StackLeak {
  import opened Alu
  import opened Image
  import opened FrameMachine
  import opened Simulation
  import opened StackEnd
  import opened VmCall
  import F = FlatMachine

  // ----- on frames

  function BaseAt(s: Stack): int {
    match s
    case Base(_, at) => at
    case Frame(_, _, _, _, _, caller) => BaseAt(caller)
  }

  lemma {:induction false} EndAbove(s: Stack)
    ensures End(s) >= BaseAt(s) + if s.Frame? then 3 else 0
  {
    if s.Frame? { EndAbove(s.caller); }
  }

  /** All vmCalls suspended above the outermost `depth` have their entry parameters at `x` or higher. */
  predicate Raised(p: Pending, depth: nat, x: int) {
    match p
    case Nobody => true
    case Waiting(top, _, _, _, outer) => Suspended(p) <= depth || (x <= BaseAt(top) && Raised(outer, depth, x))
  }

  /** A step stays in its vmCall, enters one from a native, or leaves one to a native. */
  ghost predicate Moved(c: Config, c': Config) {
    || (c'.pending == c.pending && BaseAt(c'.control.top) == BaseAt(c.control.top))
    || (c'.pending.Waiting? && c'.pending.outer == c.pending && c'.pending.top == c.control.top
        && BaseAt(c'.control.top) == c.vmsp + 1)
    || (c.pending.Waiting? && c'.pending == c.pending.outer && c'.control.top == c.pending.top)
  }

  /** This step calls a native. */
  ghost predicate EntersNative(c: Config, c': Config) {
    c.control.Executing? && c'.control.Native? && c'.pending == c.pending
  }

  ghost predicate VmspAfter(c: Config, c': Config) {
    c'.vmsp == if EntersNative(c, c') then End(c.control.top) - 1 else c.vmsp
  }

  lemma NotOuter(p: Pending)
    requires p.Waiting?
    ensures p.outer != p
  {
    assert Suspended(p) == 1 + Suspended(p.outer);
  }

  lemma LeaveMoves(c: Config, w: World, v: int)
    requires Leave(w, c.vmsp, c.pending, v).Next?
    ensures var c' := Leave(w, c.vmsp, c.pending, v).c; Moved(c, c') && VmspAfter(c, c')
  {
    NotOuter(c.pending);
  }

  lemma EnterMoves(img: Image, ty: Typing, c: Config, stale: Tick)
    requires c.control.Native? && c.control.act.CallBack? && StepAct(img, ty, c, stale).Next?
    ensures var c' := StepAct(img, ty, c, stale).c; Moved(c, c') && VmspAfter(c, c')
  {
    hide Fit;
    var top, argc, n, act := c.control.top, c.control.argc, c.control.results, c.control.act;
    var target, args := act.target, act.args;
    if img.heads[target].params == |args| {
      var cells := Fit(stale, 1 + img.heads[target].locals);
      assert BaseAt(Frame(target, target + 2, args, cells[1..], [], Base(cells[0], c.vmsp + 1)))
          == BaseAt(Base(cells[0], c.vmsp + 1));
    }
  }

  lemma CallMoves(img: Image, ty: Typing, c: Config, top: Stack, l: Line, stale: Tick)
    requires c.control == Executing(top) && top.Frame?
    requires l.instr.Call? || l.instr.CallVirtual? || l.instr.InlineParam0?
    requires StepCall(img, ty, c, top, l, stale).Next?
    ensures var c' := StepCall(img, ty, c, top, l, stale).c; Moved(c, c') && VmspAfter(c, c')
  {
    hide Fit, GoodTarget, Invoke;
    match l.instr
    case InlineParam0(off) =>
    case Call(withParam0, target) =>
      if withParam0 {
        var loaded := top.(ops := top.ops + [top.params[0]]);
        assert BaseAt(loaded) == BaseAt(top);
        InvokeMoves(img, c, top, loaded, l.next, target, stale);
      } else {
        InvokeMoves(img, c, top, top, l.next, target, stale);
      }
    case CallVirtual(slot, argc) =>
      InvokeMoves(img, c, top, top, l.next, img.resolve(c.w, top.ops[|top.ops| - argc], slot), stale);
  }

  lemma InvokeMoves(img: Image, c: Config, top: Stack, s: Stack, ret: int, target: int, stale: Tick)
    requires c.control == Executing(top) && s.Frame? && BaseAt(s) == BaseAt(top)
    requires Invoke(img, c, s, ret, target, stale).Next?
    ensures var c' := Invoke(img, c, s, ret, target, stale).c; Moved(c, c') && VmspAfter(c, c')
  {
    hide Fit;
    var callee := Callee(target, img.heads[target], s.(pc := ret), stale);
    assert BaseAt(callee) == BaseAt(callee.caller) == BaseAt(callee.caller.caller);
  }

  lemma UnwindMoves(c: Config, top: Stack, n: nat)
    requires c.control == Executing(top) && top.Frame? && Unwind(c, top, n).Next?
    ensures var c' := Unwind(c, top, n).c; Moved(c, c') && VmspAfter(c, c')
  {
    if n <= |top.ops| && top.caller.Base? {
      LeaveMoves(c, c.w, EntryValue(top.ops[|top.ops| - n..], top.caller.below));
    }
  }

  lemma StepMoves(img: Image, ty: Typing, c: Config, stale: Tick)
    requires Step(img, ty, c, stale).Next?
    ensures var c' := Step(img, ty, c, stale).c; Moved(c, c') && VmspAfter(c, c')
  {
    hide Perform, Put, Overruns, NativeResult, Leave, Unwind, StepCall, Enter, Moved, VmspAfter;
    if c.control.Native? {
      if c.control.act.CallBack? {
        EnterMoves(img, ty, c, stale);
      } else {
        FinishMoves(img, ty, c, stale);
      }
    } else {
      ExecutingMoves(img, ty, c, stale);
    }
  }

  lemma FinishMoves(img: Image, ty: Typing, c: Config, stale: Tick)
    requires c.control.Native? && c.control.act.Finish? && StepAct(img, ty, c, stale).Next?
    ensures var c' := StepAct(img, ty, c, stale).c; Moved(c, c') && VmspAfter(c, c')
  {
    hide NativeResult;
  }

  lemma PlainMoves(img: Image, c: Config, top: Stack, l: Line)
    requires c.control == Executing(top) && top.Frame?
    ensures Simple(l.instr) && StepSimple(img, c, top, l).Next? ==>
            var c' := StepSimple(img, c, top, l).c; Moved(c, c') && VmspAfter(c, c')
    ensures (l.instr.LoadVar? || l.instr.StoreVar?) && StepVar(c, top, l).Next? ==>
            var c' := StepVar(c, top, l).c; Moved(c, c') && VmspAfter(c, c')
    ensures l.instr.CallNative? && img.hasNative(l.instr.kit, l.instr.id) && StepNative(img, c, top, l).Next? ==>
            var c' := StepNative(img, c, top, l).c; Moved(c, c') && VmspAfter(c, c')
  {
    hide Perform, Put, Leave;
  }

  lemma ExecutingMoves(img: Image, ty: Typing, c: Config, stale: Tick)
    requires c.control.Executing? && StepExecuting(img, ty, c, c.control.top, stale).Next?
    ensures var c' := StepExecuting(img, ty, c, c.control.top, stale).c; Moved(c, c') && VmspAfter(c, c')
  {
    hide StepSimple, StepVar, StepCall, Unwind, Leave, Moved, VmspAfter;
    var top := c.control.top;
    var l := img.lines[top.pc];
    forall v | Leave(c.w, c.vmsp, c.pending, v).Next?
      ensures var c' := Leave(c.w, c.vmsp, c.pending, v).c; Moved(c, c') && VmspAfter(c, c')
    {
      LeaveMoves(c, c.w, v);
    }
    PlainMoves(img, c, top, l);
    if l.instr.Return? && Unwind(c, top, l.instr.results).Next? {
      UnwindMoves(c, top, l.instr.results);
    }
    if (l.instr.Call? || l.instr.CallVirtual? || l.instr.InlineParam0?)
       && StepCall(img, ty, c, top, l, stale).Next? {
      CallMoves(img, ty, c, top, l, stale);
    }
  }

  /** Within a callback that entered at `x`, everything on the stack stays at `x` or higher, and vm->sp is what it was
      or at least x+2. */
  lemma StepRaised(img: Image, ty: Typing, c: Config, stale: Tick, depth: nat, x: int)
    requires Step(img, ty, c, stale).Next?
    requires Suspended(c.pending) >= depth && Raised(c.pending, depth, x) && x <= BaseAt(c.control.top)
    requires x <= c.vmsp + 1 && (c.control.Executing? ==> c.control.top.Frame?)
    ensures var c' := Step(img, ty, c, stale).c;
            && x <= c'.vmsp + 1 && c'.vmsp == (if EntersNative(c, c') then End(c.control.top) - 1 else c.vmsp)
            && (EntersNative(c, c') ==> c'.vmsp >= x + 2)
            && (Suspended(c'.pending) >= depth ==> Raised(c'.pending, depth, x) && x <= BaseAt(c'.control.top))
  {
    hide Step, BaseAt;
    StepMoves(img, ty, c, stale);
    EndAbove(c.control.top);
  }

  // ----- on the cell array

  function Links(chain: F.Chain): nat {
    match chain
    case Outside => 0
    case Within(_, _, _, _, outer) => 1 + Links(outer)
  }

  lemma {:induction false} SameDepth(img: Image, mem: seq<int>, chain: F.Chain, p: Pending, limit: int)
    requires PendingLaid(img, mem, chain, p, limit)
    ensures Links(chain) == Suspended(p)
    decreases p
  {
    hide Laid;
    if p.Waiting? {
      SameDepth(img, mem, chain.outer, p.outer, BaseEnd(p.top, chain.r.sp + 1));
    }
  }

  lemma {:induction false} AboveDeeper(chain: F.Chain, k: F.Chain)
    requires Above(chain, k)
    ensures Links(chain) >= Links(k)
    decreases chain
  {
    if chain != k { AboveDeeper(chain.outer, k); }
  }

  /** This step calls a native. */
  predicate CallsOne(s: F.Flat, s': F.Flat) {
    s.mode.Running? && s'.mode.InNative? && Links(s'.chain) == Links(s.chain)
  }

  lemma PicturesDepth(img: Image, s: F.Flat, pad: seq<int>, c: Config)
    requires Pictures(img, s, pad, c)
    ensures Links(s.chain) == Suspended(c.pending) && s.vmsp == c.vmsp >= 0
    ensures s.mode.Running? <==> c.control.Executing?
    ensures c.control.top.Frame?
  {
    hide Laid, PendingLaid, BaseEnd, Inside;
    var r := RegsIn(s.mode);
    SameDepth(img, s.mem + pad, s.chain, c.pending, BaseEnd(c.control.top, r.sp + 1));
  }

  /** No native and no vtable ever names a method the typing does not allow. */
  ghost predicate Allowed(img: Image, ty: Typing, s: F.Flat, pad: seq<int>, c: Config) {
    forall n: nat :: !Run(img, ty, c, TicksOf(img, s, pad, n)).BadTarget?
  }

  /** The frames behind a step of the flat machine. */
  ghost function FramesAfter(img: Image, ty: Typing, s: F.Flat, pad: seq<int>, c: Config): Outcome {
    Step(img, ty, c, TickFor(img, Padded(s, pad)))
  }

  lemma AllowedStep(img: Image, ty: Typing, s: F.Flat, pad: seq<int>, c: Config)
    requires Allowed(img, ty, s, pad, c)
    ensures !FramesAfter(img, ty, s, pad, c).BadTarget?
    ensures F.Step(img, s).Next? && FramesAfter(img, ty, s, pad, c).Next? ==>
            Allowed(img, ty, F.Step(img, s).s, pad, FramesAfter(img, ty, s, pad, c).c)
  {
    hide Step, F.Step, TickFor;
    OneRun(img, ty, s, pad, c, 0);
    forall n: nat | F.Step(img, s).Next? && FramesAfter(img, ty, s, pad, c).Next?
      ensures var s', c' := F.Step(img, s).s, FramesAfter(img, ty, s, pad, c).c;
              !Run(img, ty, c', TicksOf(img, s', pad, n)).BadTarget?
    {
      OneRun(img, ty, s, pad, c, n);
    }
  }

  lemma OneRun(img: Image, ty: Typing, s: F.Flat, pad: seq<int>, c: Config, n: nat)
    ensures var ticks, a := TicksOf(img, s, pad, n + 1), FramesAfter(img, ty, s, pad, c);
            && Run(img, ty, c, ticks) == Continue(img, ty, a, ticks[1..])
            && (F.Step(img, s).Next? ==> ticks[1..] == TicksOf(img, F.Step(img, s).s, pad, n))
  {
    hide Step, F.Step, TickFor;
    var ticks := TicksOf(img, s, pad, n + 1);
    assert ticks[0] == TickFor(img, Padded(s, pad));
  }

  /** Some step of the callback calls a native, itself or through a further callback. */
  ghost predicate CallsSome(img: Image, s: F.Flat, k: F.Chain, fuel: nat)
    decreases fuel
  {
    && fuel > 0 && Above(s.chain, k) && F.Step(img, s).Next?
    && (CallsOne(s, F.Step(img, s).s) || CallsSome(img, F.Step(img, s).s, k, fuel - 1))
  }

  /** The frames behind RunNested. */
  ghost function NestedFrames(img: Image, ty: Typing, s: F.Flat, pad: seq<int>, c: Config, k: F.Chain, fuel: nat)
    : Config
    decreases fuel
  {
    if fuel == 0 || !Above(s.chain, k) || !F.Step(img, s).Next? || !FramesAfter(img, ty, s, pad, c).Next? then c
    else NestedFrames(img, ty, F.Step(img, s).s, pad, FramesAfter(img, ty, s, pad, c).c, k, fuel - 1)
  }

  /** All of a typed machine's state, with everything above the call `k` at cell x or higher. */
  ghost predicate Good(img: Image, ty: Typing, s: F.Flat, pad: seq<int>, c: Config) {
    Typed(img, ty, c) && Pictures(img, s, pad, c) && Allowed(img, ty, s, pad, c)
  }

  predicate InCallback(c: Config, depth: nat, x: int) {
    Suspended(c.pending) >= depth ==> Raised(c.pending, depth, x) && x <= BaseAt(c.control.top)
  }

  lemma GoodStep(img: Image, ty: Typing, s: F.Flat, pad: seq<int>, c: Config)
    requires WellFormed(img, ty) && Good(img, ty, s, pad, c)
    ensures var a, o := FramesAfter(img, ty, s, pad, c), F.Step(img, s);
            && (a.Next? <==> o.Next?)
            && (o.Next? ==> Good(img, ty, o.s, pad, a.c) && (CallsOne(s, o.s) <==> EntersNative(c, a.c)))
  {
    hide WellFormed, Typed, Pictures, Step, F.Step, TickFor, Floor, Allowed, Moved, BaseAt;
    StepMatches(img, ty, s, pad, c);
    StepTyped(img, ty, c, TickFor(img, Padded(s, pad)));
    AllowedStep(img, ty, s, pad, c);
    var a, o := FramesAfter(img, ty, s, pad, c), F.Step(img, s);
    if o.Next? {
      PicturesDepth(img, s, pad, c);
      PicturesDepth(img, o.s, pad, a.c);
      StepMoves(img, ty, c, TickFor(img, Padded(s, pad)));
      SamePending(c, a.c);
    }
  }

  /** One step of a vmCall stays in it exactly when as many vmCalls are suspended as before. */
  lemma SamePending(c: Config, c': Config)
    requires Moved(c, c')
    ensures c'.pending == c.pending <==> Suspended(c'.pending) == Suspended(c.pending)
  {
  }

  lemma {:induction false} NestedVmsp(img: Image, ty: Typing, s: F.Flat, pad: seq<int>, c: Config, k: F.Chain, x: int,
                                      fuel: nat)
    requires WellFormed(img, ty) && Good(img, ty, s, pad, c)
    requires InCallback(c, Links(k), x) && x <= s.vmsp + 1 && RunNested(img, s, k, fuel).Next?
    ensures var s', c' := RunNested(img, s, k, fuel).s, NestedFrames(img, ty, s, pad, c, k, fuel);
            && Good(img, ty, s', pad, c')
            && (if CallsSome(img, s, k, fuel) then s'.vmsp >= x + 2 else s'.vmsp == s.vmsp)
            && (s.vmsp >= x + 2 ==> s'.vmsp >= x + 2)
    decreases fuel
  {
    hide WellFormed, Good, F.Step, Step, TickFor, Suspended, Raised, BaseAt;
    if fuel > 0 && Above(s.chain, k) {
      GoodStep(img, ty, s, pad, c);
      var s', c' := F.Step(img, s).s, FramesAfter(img, ty, s, pad, c).c;
      GoodParts(img, ty, s, pad, c);
      GoodParts(img, ty, s', pad, c');
      AboveDeeper(s.chain, k);
      StepRaised(img, ty, c, TickFor(img, Padded(s, pad)), Links(k), x);
      NestedVmsp(img, ty, s', pad, c', k, x, fuel - 1);
    }
  }

  lemma {:induction false} GoodRuns(img: Image, ty: Typing, s: F.Flat, pad: seq<int>, c: Config, n: nat)
    returns (c': Config)
    requires WellFormed(img, ty) && Good(img, ty, s, pad, c) && F.Run(img, s, n).Next?
    ensures Good(img, ty, F.Run(img, s, n).s, pad, c')
    decreases n
  {
    hide WellFormed, Good, F.Step, FramesAfter;
    if n == 0 {
      c' := c;
    } else {
      GoodStep(img, ty, s, pad, c);
      c' := GoodRuns(img, ty, F.Step(img, s).s, pad, FramesAfter(img, ty, s, pad, c).c, n - 1);
    }
  }

  /** Every state that a vmCall reaches is of this kind, while no native and no vtable names a method the typing does
      not allow. */
  lemma ReachedGood(img: Image, ty: Typing, mem: seq<int>, vmsp: int, w: World, target: int, args: seq<int>, n: nat)
    returns (c: Config)
    requires WellFormed(img, ty) && target in ty.kind && |mem| == img.stackMax && 0 <= vmsp < img.stackMax
    requires var a := Begin(img, ty, w, vmsp, Nobody, target, args, EntryCells(mem, vmsp, args));
             && a.Next? && forall m: nat ::
                  !Continue(img, ty, a, Oracle(img, mem, vmsp, w, target, args, m)).BadTarget?
    requires VmCall.Call(img, mem, vmsp, w, target, args, n).Next?
    ensures Good(img, ty, VmCall.Call(img, mem, vmsp, w, target, args, n).s, Behind(), c)
  {
    hide WellFormed, Typed, Pictures, Begin, F.Enter, Run, F.Run, EntryCells, TicksOf;
    WellFormedParts(img, ty, target);
    EntryMatches(img, ty, mem, vmsp, w, target, args);
    EntryTyped(img, ty, w, vmsp, target, args, EntryCells(mem, vmsp, args));
    var a := Begin(img, ty, w, vmsp, Nobody, target, args, EntryCells(mem, vmsp, args));
    var o := F.Enter(img, mem, vmsp, w, F.Outside, target, args);
    forall m: nat
      ensures !Run(img, ty, a.c, TicksOf(img, o.s, Behind(), m)).BadTarget?
    {
      assert Oracle(img, mem, vmsp, w, target, args, m) == TicksOf(img, o.s, Behind(), m);
    }
    c := GoodRuns(img, ty, o.s, Behind(), a.c, n);
  }

  lemma GoodParts(img: Image, ty: Typing, s: F.Flat, pad: seq<int>, c: Config)
    requires Good(img, ty, s, pad, c)
    ensures Links(s.chain) == Suspended(c.pending) && 0 <= s.vmsp == c.vmsp && c.control.top.Frame?
  {
    hide Pictures, Typed, Allowed;
    PicturesDepth(img, s, pad, c);
  }

  // ----- whole callbacks

  predicate AtCallback(s: F.Flat) { s.mode.InNative? && s.mode.act.CallBack? }

  /** The call its native waits for. */
  function Waits(s: F.Flat): F.Chain
    requires AtCallback(s)
  {
    F.Within(s.mode.caller, s.mode.argc, s.mode.results, s.mode.act.resume, s.chain)
  }

  /** From the native's call back until the native has its result. */
  ghost function Callback(img: Image, s: F.Flat, fuel: nat): F.Outcome
    requires AtCallback(s)
  {
    var o := F.Step(img, s);
    if o.Next? then RunNested(img, o.s, Waits(s), fuel) else o
  }

  /** A native is called between the two. */
  ghost predicate CallbackCalls(img: Image, s: F.Flat, fuel: nat)
    requires AtCallback(s)
  {
    F.Step(img, s).Next? && CallsSome(img, F.Step(img, s).s, Waits(s), fuel)
  }

  lemma EnteredAt(c: Config, c': Config)
    requires Moved(c, c')
    ensures InCallback(c', Suspended(c.pending) + 1, c.vmsp + 1)
  {
  }

  /** A callback that calls no native leaves vm->sp where it was; one that calls a native, at whatever depth, leaves it
      at least three cells higher when it has ended. */
  lemma CallbackVmsp(img: Image, ty: Typing, s: F.Flat, pad: seq<int>, c: Config, fuel: nat)
    requires WellFormed(img, ty) && Good(img, ty, s, pad, c) && AtCallback(s) && Callback(img, s, fuel).Next?
    ensures var s' := Callback(img, s, fuel).s;
            && (if CallbackCalls(img, s, fuel) then s'.vmsp >= s.vmsp + 3 else s'.vmsp == s.vmsp)
            && exists c' :: Good(img, ty, s', pad, c')
  {
    hide WellFormed, Good, F.Step, Step, TickFor, InCallback, Moved, NestedFrames, CallsSome, RunNested;
    var k := Waits(s);
    GoodStep(img, ty, s, pad, c);
    var s1, c1 := F.Step(img, s).s, FramesAfter(img, ty, s, pad, c).c;
    GoodParts(img, ty, s, pad, c);
    GoodParts(img, ty, s1, pad, c1);
    StepMoves(img, ty, c, TickFor(img, Padded(s, pad)));
    EnteredAt(c, c1);
    NestedVmsp(img, ty, s1, pad, c1, k, s.vmsp + 1, fuel);
    assert Good(img, ty, Callback(img, s, fuel).s, pad, NestedFrames(img, ty, s1, pad, c1, k, fuel));
  }

  /** A native calls back once for each of `fuels`, every time has its result, and every time a native was called on
      the way. */
  ghost predicate Repeats(img: Image, s: F.Flat, fuels: seq<nat>, s': F.Flat)
    decreases |fuels|
  {
    if fuels == [] then s' == s
    else
      && AtCallback(s) && Callback(img, s, fuels[0]).Next? && CallbackCalls(img, s, fuels[0])
      && Resumed(Callback(img, s, fuels[0]).s, Waits(s)) && Repeats(img, Callback(img, s, fuels[0]).s, fuels[1..], s')
  }

  /** One callback that ends, with a native called on the way. */
  lemma RepeatsOnce(img: Image, s: F.Flat, fuel: nat)
    requires s.mode.InNative? && s.mode.act.CallBack? && Callback(img, s, fuel).Next? && CallbackCalls(img, s, fuel)
    requires Resumed(Callback(img, s, fuel).s, Waits(s))
    ensures Repeats(img, s, [fuel], Callback(img, s, fuel).s)
  {
    assert [fuel][1..] == [];
    assert Repeats(img, Callback(img, s, fuel).s, [], Callback(img, s, fuel).s);
  }

  /** Each time vm->sp goes up by three cells or more, so a native cannot do this more than a third of the stack. */
  lemma {:induction false} RunsOut(img: Image, ty: Typing, s: F.Flat, pad: seq<int>, c: Config, fuels: seq<nat>,
                                   s': F.Flat)
    requires WellFormed(img, ty) && Good(img, ty, s, pad, c) && Repeats(img, s, fuels, s')
    ensures s'.vmsp >= s.vmsp + 3 * |fuels| && s.vmsp + 3 * |fuels| < img.stackMax && s'.chain == s.chain
    decreases |fuels|
  {
    hide WellFormed, Good, Callback, CallbackCalls;
    if fuels == [] {
      InStack(img, ty, s, pad, c);
    } else {
      var s1 := Callback(img, s, fuels[0]).s;
      CallbackVmsp(img, ty, s, pad, c, fuels[0]);
      var c1 :| Good(img, ty, s1, pad, c1);
      RunsOut(img, ty, s1, pad, c1, fuels[1..], s');
    }
  }

  lemma InStack(img: Image, ty: Typing, s: F.Flat, pad: seq<int>, c: Config)
    requires Good(img, ty, s, pad, c)
    ensures 0 <= s.vmsp < img.stackMax
  {
    hide Typed, Allowed, Laid, PendingLaid, BaseEnd, Inside;
  }
}

/** Fused opcodes and the base sequences they stand for. An expansion of an image replaces every fused instruction
    by two base instructions and moves all code addresses; both images run alike on the frame machine. Only what the
    typing knows is asked of the expansion: bytes that are no instruction and no method may become anything. */
module Fusion {
  import opened Alu
  import opened Options
  import opened Image
  import opened FrameMachine

  /** Where an expansion puts things: instruction pc at place(pc), the second half of a fused one at middle(pc),
      each of the `methods` m at meth(m). `inlined` gives, for the LoadDataInlineField instructions, the static data
      address and the field offset. The virtual calls that find a rewritten vtable entry are those of `dispatch`. */
  datatype Plan = Plan(place: int -> int, middle: int -> int, meth: int -> int, methods: set<int>,
                       dispatch: (World, int, int) -> bool, inlined: map<int, (int, int)>)

  predicate Fused(p: Plan, pc: int, i: Instr) {
    i.JumpCmp? || i.InlineParam0? || (i.Call? && i.withParam0) || pc in p.inlined
  }

  /** An instruction that stays, with its code addresses moved. */
  function MovedInstr(p: Plan, i: Instr): Instr {
    match i
    case Jump(to) => Jump(p.place(to))
    case JumpIf(z, to) => JumpIf(z, p.place(to))
    case JumpCmp(c, to) => JumpCmp(c, p.place(to))
    case Foreach(to) => Foreach(p.place(to))
    case Switch(tos) => Switch(seq(|tos|, k requires 0 <= k < |tos| => p.place(tos[k])))
    case Call(withParam0, target) => Call(withParam0, p.meth(target))
    case _ => i
  }

  function First(p: Plan, pc: int, i: Instr): Instr
    requires Fused(p, pc, i)
  {
    if pc in p.inlined then Const([p.inlined[pc].0])
    else if i.JumpCmp? then Operate(IntCmp(i.cmp))
    else LoadVar(false, 0, 1)
  }

  function Second(p: Plan, pc: int, i: Instr): Instr
    requires Fused(p, pc, i)
  {
    if pc in p.inlined then Operate(Inline(p.inlined[pc].1))
    else if i.JumpCmp? then JumpIf(false, p.place(i.to))
    else if i.InlineParam0? then Operate(Inline(i.off))
    else Call(false, p.meth(i.target))
  }

  /** What the expansion holds for one line. */
  predicate LineExpands(img: Image, img': Image, p: Plan, pc: int)
    requires pc in img.lines
  {
    var l := img.lines[pc];
    if Fused(p, pc, l.instr) then
      && p.place(pc) in img'.lines && img'.lines[p.place(pc)] == Line(First(p, pc, l.instr), p.middle(pc))
      && p.middle(pc) in img'.lines && img'.lines[p.middle(pc)] == Line(Second(p, pc, l.instr), p.place(l.next))
    else p.place(pc) in img'.lines && img'.lines[p.place(pc)] == Line(MovedInstr(p, l.instr), p.place(l.next))
  }

  /** Comparison and inline address compute what their base opcodes do. */
  ghost predicate BaseOpcodes(img: Image) {
    && (forall c: Cmp, a: seq<int>, w: World | |a| == 2 ::
          img.alu(IntCmp(c), a, w) == Some(([Bool(Compare(c, a[0], a[1]))], w)))
    && forall off: int, a: seq<int>, w: World | |a| == 1 ::
         img.alu(Inline(off), a, w) == Some(([Wrap32(a[0] + off)], w))
  }

  predicate InlinedOk(img: Image, p: Plan) {
    forall pc | pc in p.inlined ::
      pc in img.lines && p.inlined[pc].0 != 0
      && img.lines[pc].instr == Const([Wrap32(p.inlined[pc].0 + p.inlined[pc].1)])
  }

  /** The natives of both images do the same things and call back the same methods, for k actions; after a callback
      of a method the typing does not know nothing is asked. */
  ghost predicate ActAlike(p: Plan, k: nat, a: Act, a': Act)
    decreases k
  {
    k == 0 ||
    match a
    case Finish(_, _, _) => a' == a
    case CallBack(w, target, args, resume) =>
      target in p.methods ==>
        && a'.CallBack? && a'.w == w && a'.target == p.meth(target) && a'.args == args
        && forall v: int, u: World :: ActAlike(p, k - 1, resume(v, u), a'.resume(v, u))
  }

  ghost predicate ActsAlike(p: Plan, a: Act, a': Act) { forall k: nat :: ActAlike(p, k, a, a') }

  ghost predicate ResumesAlike(p: Plan, f: (int, World) -> Act, f': (int, World) -> Act) {
    forall v: int, w: World :: ActsAlike(p, f(v, w), f'(v, w))
  }

  predicate CodeExpands(img: Image, ty: Typing, img': Image, p: Plan) {
    forall pc | pc in ty.at && pc in img.lines :: LineExpands(img, img', p, pc)
  }

  predicate MethodMoves(img: Image, ty: Typing, img': Image, ty': Typing, p: Plan, m: int)
    requires m in ty.kind
  {
    && m in img.heads && p.meth(m) in img'.heads && img'.heads[p.meth(m)] == img.heads[m]
    && p.meth(m) in ty'.kind && ty'.kind[p.meth(m)] == ty.kind[m] && p.place(m + 2) == p.meth(m) + 2
  }

  predicate MethodsMove(img: Image, ty: Typing, img': Image, ty': Typing, p: Plan) {
    p.methods == ty.kind.Keys && forall m | m in ty.kind :: MethodMoves(img, ty, img', ty', p, m)
  }

  predicate SpotsMove(ty: Typing, ty': Typing, p: Plan) {
    forall pc | pc in ty.at ::
      p.place(pc) in ty'.at && ty'.at[p.place(pc)] == Spot(p.meth(ty.at[pc].meth), ty.at[pc].height)
  }

  /** The vtable entries of the typed methods are rewritten. */
  ghost predicate TablesMove(img: Image, img': Image, p: Plan) {
    forall w, o, slot | p.dispatch(w, o, slot) && img.resolve(w, o, slot) in p.methods ::
      img'.resolve(w, o, slot) == p.meth(img.resolve(w, o, slot))
  }

  ghost predicate NativesAlike(img: Image, img': Image, p: Plan) {
    forall kit, id, a, w :: ActsAlike(p, img.native(kit, id, a, w), img'.native(kit, id, a, w))
  }

  /** img' with ty' is the expansion of img with ty under the plan. */
  ghost predicate Expands(img: Image, ty: Typing, img': Image, ty': Typing, p: Plan) {
    && BaseOpcodes(img) && img'.alu == img.alu && img'.hasNative == img.hasNative && InlinedOk(img, p)
    && img'.stackMax == img.stackMax
    && CodeExpands(img, ty, img', p) && MethodsMove(img, ty, img', ty', p) && SpotsMove(ty, ty', p)
    && TablesMove(img, img', p) && NativesAlike(img, img', p)
  }

  // ----- configurations that differ only in code addresses

  function MovedStack(p: Plan, s: Stack): Stack {
    match s
    case Base(_, _) => s
    case Frame(m, pc, params, locals, ops, caller) =>
      Frame(p.meth(m), p.place(pc), params, locals, ops, MovedStack(p, caller))
  }

  ghost predicate PendingAlike(p: Plan, d: Pending, d': Pending)
    decreases d
  {
    match d
    case Nobody => d' == Nobody
    case Waiting(top, argc, results, resume, outer) =>
      && d'.Waiting? && d'.top == MovedStack(p, top) && d'.argc == argc && d'.results == results
      && ResumesAlike(p, resume, d'.resume) && PendingAlike(p, outer, d'.outer)
  }

  ghost predicate ControlAlike(p: Plan, d: Control, d': Control) {
    match d
    case Executing(top) => d' == Executing(MovedStack(p, top))
    case Native(act, top, argc, results) =>
      d'.Native? && d'.top == MovedStack(p, top) && d'.argc == argc && d'.results == results
      && ActsAlike(p, act, d'.act)
  }

  ghost predicate Alike(p: Plan, c: Config, c': Config) {
    && c'.w == c.w && c'.vmsp == c.vmsp
    && ControlAlike(p, c.control, c'.control) && PendingAlike(p, c.pending, c'.pending)
  }

  /** After a BadTarget the run is outside the typing. */
  ghost predicate OutcomeAlike(p: Plan, o: Outcome, o': Outcome) {
    match o
    case Next(c) => o'.Next? && Alike(p, c, o'.c)
    case BadTarget => true
    case _ => o' == o
  }

  // ----- one step

  /** The fused instruction about to run, if any. */
  predicate AtFused(img: Image, p: Plan, c: Config) {
    c.control.Executing? && c.control.top.Frame? && c.control.top.pc in img.lines
    && Fused(p, c.control.top.pc, img.lines[c.control.top.pc].instr)
  }

  /** The overflow test stops the next instruction. */
  predicate Full(img: Image, c: Config) { End(c.control.top) > img.stackMax }

  /** The ticks the expansion takes for one tick: two for a fused instruction that is not stopped by an overflow. */
  function Ticks(img: Image, p: Plan, c: Config, t: Tick): seq<Tick> {
    if AtFused(img, p, c) && !Full(img, c) then [[], t] else [t]
  }

  /** A fused inline-field load of a null parameter, with room for its result: only the base opcode tests for null. */
  predicate NullInline(img: Image, c: Config) {
    c.control.Executing? && c.control.top.Frame? && c.control.top.pc in img.lines
    && img.lines[c.control.top.pc].instr.InlineParam0? && |c.control.top.params| >= 1 && c.control.top.params[0] == 0
    && End(c.control.top) < img.stackMax
  }

  lemma MovedUpdate(p: Plan, s: Stack, pc: int, ops: seq<int>)
    requires s.Frame?
    ensures MovedStack(p, s).Frame?
    ensures MovedStack(p, s.(pc := pc, ops := ops)) == MovedStack(p, s).(pc := p.place(pc), ops := ops)
  {
  }

  lemma {:induction false} MovedEnd(p: Plan, s: Stack)
    ensures End(MovedStack(p, s)) == End(s)
  {
    if s.Frame? { MovedEnd(p, s.caller); }
  }

  lemma LeaveAlike(p: Plan, w: World, vmsp: int, d: Pending, d': Pending, v: int)
    requires PendingAlike(p, d, d')
    ensures OutcomeAlike(p, Leave(w, vmsp, d, v), Leave(w, vmsp, d', v))
  {
  }

  lemma PerformMoves(img: Image, img': Image, p: Plan, l: Line, a: seq<int>, w: World)
    requires Simple(l.instr) && |a| == Pops(l.instr) && img'.alu == img.alu
    ensures Simple(MovedInstr(p, l.instr)) && Pops(MovedInstr(p, l.instr)) == Pops(l.instr)
    ensures Perform(img', Line(MovedInstr(p, l.instr), p.place(l.next)), a, w)
            == match Perform(img, l, a, w)
               case Go(pushed, pc, u) => Go(pushed, p.place(pc), u)
               case Undefined => Undefined
  {
  }

  lemma SimpleAlike(img: Image, img': Image, p: Plan, c: Config, c': Config, l: Line)
    requires img'.alu == img.alu && Alike(p, c, c') && c.control.Executing? && c.control.top.Frame? && Simple(l.instr)
    ensures Simple(MovedInstr(p, l.instr))
    ensures OutcomeAlike(p, StepSimple(img, c, c.control.top, l),
                         StepSimple(img', c', c'.control.top, Line(MovedInstr(p, l.instr), p.place(l.next))))
  {
    hide Perform, MovedInstr, PendingAlike;
    var top := c.control.top;
    if Pops(l.instr) <= |top.ops| {
      PerformMoves(img, img', p, l, top.ops[|top.ops| - Pops(l.instr)..], c.w);
    } else {
      PerformMoves(img, img', p, l, seq(Pops(l.instr), _ => 0), c.w);
    }
  }

  lemma VarAlike(p: Plan, c: Config, c': Config, l: Line)
    requires Alike(p, c, c') && c.control.Executing? && c.control.top.Frame? && (l.instr.LoadVar? || l.instr.StoreVar?)
    ensures OutcomeAlike(p, StepVar(c, c.control.top, l), StepVar(c', c'.control.top, Line(l.instr, p.place(l.next))))
  {
    hide PendingAlike, Put;
  }

  lemma NativeAlike(img: Image, ty: Typing, img': Image, ty': Typing, p: Plan, c: Config, c': Config, l: Line)
    requires Expands(img, ty, img', ty', p) && Alike(p, c, c') && c.control.Executing? && c.control.top.Frame?
    requires l.instr.CallNative?
    ensures OutcomeAlike(p, StepNative(img, c, c.control.top, l),
                         StepNative(img', c', c'.control.top, Line(l.instr, p.place(l.next))))
  {
    hide PendingAlike, ActsAlike, BaseOpcodes, InlinedOk, End, CodeExpands, MethodsMove, SpotsMove, TablesMove;
    MovedEnd(p, c.control.top);
    LeaveAlike(p, c.w, c.vmsp, c.pending, c'.pending, ERR_MISSING_NATIVE);
  }

  lemma UnwindAlike(p: Plan, c: Config, c': Config, n: nat)
    requires Alike(p, c, c') && c.control.Executing? && c.control.top.Frame?
    ensures OutcomeAlike(p, Unwind(c, c.control.top, n), Unwind(c', c'.control.top, n))
  {
    hide PendingAlike;
    var top := c.control.top;
    if n <= |top.ops| {
      var result := top.ops[|top.ops| - n..];
      if top.caller.Base? {
        assert MovedStack(p, top.caller) == top.caller;
        LeaveAlike(p, c.w, c.vmsp, c.pending, c'.pending, EntryValue(result, top.caller.below));
      } else {
        MovedUpdate(p, top.caller, top.caller.pc, top.caller.ops + result);
      }
    }
  }

  lemma HeadMoves(img: Image, ty: Typing, img': Image, ty': Typing, p: Plan, m: int)
    requires Expands(img, ty, img', ty', p) && m in ty.kind
    ensures MethodMoves(img, ty, img', ty', p, m)
  {
    hide CodeExpands, SpotsMove, BaseOpcodes, InlinedOk, TablesMove, NativesAlike, MethodMoves;
  }

  lemma PlanMethods(img: Image, ty: Typing, img': Image, ty': Typing, p: Plan)
    requires Expands(img, ty, img', ty', p)
    ensures p.methods == ty.kind.Keys
  {
    hide CodeExpands, SpotsMove, BaseOpcodes, InlinedOk, TablesMove, NativesAlike;
  }

  lemma InvokeAlike(img: Image, ty: Typing, img': Image, ty': Typing, p: Plan, c: Config, c': Config, top: Stack,
                    ret: int, target: int, stale: seq<int>)
    requires Expands(img, ty, img', ty', p) && c'.w == c.w && c'.vmsp == c.vmsp && top.Frame?
    requires PendingAlike(p, c.pending, c'.pending) && target in ty.kind
    ensures OutcomeAlike(p, Invoke(img, c, top, ret, target, stale),
                         Invoke(img', c', MovedStack(p, top), p.place(ret), p.meth(target), stale))
  {
    hide PendingAlike, Expands, Fit;
    HeadMoves(img, ty, img', ty', p, target);
    MovedUpdate(p, top, ret, top.ops);
    if target in img.heads && img.heads[target].params <= |top.ops| {
      var k := |top.ops| - img.heads[target].params;
      MovedUpdate(p, top, ret, top.ops[..k]);
    }
  }

  lemma ResolveMoves(img: Image, ty: Typing, img': Image, ty': Typing, p: Plan, w: World, o: int, slot: int)
    requires Expands(img, ty, img', ty', p) && p.dispatch(w, o, slot) && img.resolve(w, o, slot) in ty.kind
    ensures img'.resolve(w, o, slot) == p.meth(img.resolve(w, o, slot))
  {
    hide CodeExpands, SpotsMove, BaseOpcodes, InlinedOk, NativesAlike, MethodMoves;
  }

  lemma VirtualAlike(img: Image, ty: Typing, img': Image, ty': Typing, p: Plan, pc: int, next: int, argc: nat, t: int)
    requires Expands(img, ty, img', ty', p) && GoodTarget(img, ty, pc, next, argc, t)
    ensures GoodTarget(img', ty', p.place(pc), p.place(next), argc, p.meth(t))
  {
    hide CodeExpands, MethodsMove, BaseOpcodes, InlinedOk, TablesMove, NativesAlike;
    HeadMoves(img, ty, img', ty', p, t);
  }

  /** A virtual call that does not go through a rewritten vtable entry. */
  predicate StrayVirtual(img: Image, p: Plan, c: Config) {
    match c.control
    case Executing(top) =>
      top.Frame? && top.pc in img.lines && img.lines[top.pc].instr.CallVirtual?
      && var i := img.lines[top.pc].instr;
         1 <= i.argc <= |top.ops| && !p.dispatch(c.w, top.ops[|top.ops| - i.argc], i.slot)
    case Native(_, _, _, _) => false
  }

  /** The typing knows the instruction and the method it calls. */
  predicate LineTyped(img: Image, ty: Typing, pc: int) {
    && pc in ty.at && pc in img.lines && (img.lines[pc].instr.Call? ==> img.lines[pc].instr.target in ty.kind)
  }

  lemma CallAlike(img: Image, ty: Typing, img': Image, ty': Typing, p: Plan, c: Config, c': Config, stale: seq<int>)
    requires Expands(img, ty, img', ty', p) && Alike(p, c, c') && c.control.Executing? && c.control.top.Frame?
    requires LineTyped(img, ty, c.control.top.pc) && !StrayVirtual(img, p, c)
    requires var i := img.lines[c.control.top.pc].instr; (i.Call? && !i.withParam0) || i.CallVirtual?
    ensures var l := img.lines[c.control.top.pc];
            OutcomeAlike(p, StepCall(img, ty, c, c.control.top, l, stale),
                         StepCall(img', ty', c', c'.control.top, Line(MovedInstr(p, l.instr), p.place(l.next)), stale))
  {
    hide PendingAlike, Expands, GoodTarget, Invoke;
    var top := c.control.top;
    var l := img.lines[top.pc];
    match l.instr
    case Call(_, target) => InvokeAlike(img, ty, img', ty', p, c, c', top, l.next, target, stale);
    case CallVirtual(slot, argc) =>
      if 1 <= argc <= |top.ops| {
        var o := top.ops[|top.ops| - argc];
        var target := img.resolve(c.w, o, slot);
        if GoodTarget(img, ty, top.pc, l.next, argc, target) {
          assert target in ty.kind by { TargetTyped(img, ty, top.pc, l.next, argc, target); }
          ResolveMoves(img, ty, img', ty', p, c.w, o, slot);
          VirtualAlike(img, ty, img', ty', p, top.pc, l.next, argc, target);
          InvokeAlike(img, ty, img', ty', p, c, c', top, l.next, target, stale);
        }
      }
  }

  lemma TargetTyped(img: Image, ty: Typing, pc: int, next: int, argc: nat, target: int)
    requires GoodTarget(img, ty, pc, next, argc, target)
    ensures target in ty.kind
  {
  }

  // ----- a fused instruction is its two base instructions

  lemma TwoSteps(img: Image, ty: Typing, c: Config, t: Tick, u: Tick)
    ensures Run(img, ty, c, [t, u])
            == match Step(img, ty, c, t)
               case Next(d) => Step(img, ty, d, u)
               case o => o
  {
    hide Step;
    var o := Step(img, ty, c, t);
    assert [t, u][1..] == [u] && [u][1..] == [];
    assert Run(img, ty, c, [t, u]) == Continue(img, ty, o, [u]);
    if o.Next? {
      var q := Step(img, ty, o.c, u);
      assert Run(img, ty, o.c, [u]) == Continue(img, ty, q, []);
      if q.Next? {
        assert Run(img, ty, q.c, []) == q;
      }
    }
  }

  lemma LineAt(img: Image, ty: Typing, img': Image, ty': Typing, p: Plan, pc: int)
    requires Expands(img, ty, img', ty', p) && pc in ty.at && pc in img.lines
    ensures LineExpands(img, img', p, pc)
    ensures pc in p.inlined ==> p.inlined[pc].0 != 0
                                && img.lines[pc].instr == Const([Wrap32(p.inlined[pc].0 + p.inlined[pc].1)])
    ensures img'.alu == img.alu
  {
    hide LineExpands, BaseOpcodes, MethodsMove, SpotsMove, TablesMove, NativesAlike;
  }

  lemma CompareOpcode(img: Image, ty: Typing, img': Image, ty': Typing, p: Plan, c: Cmp, a: seq<int>, w: World)
    requires Expands(img, ty, img', ty', p) && |a| == 2
    ensures img'.alu(IntCmp(c), a, w) == Some(([Bool(Compare(c, a[0], a[1]))], w))
  {
    hide CodeExpands, InlinedOk, MethodsMove, SpotsMove, TablesMove, NativesAlike;
  }

  lemma InlineOpcode(img: Image, ty: Typing, img': Image, ty': Typing, p: Plan, off: int, a: seq<int>, w: World)
    requires Expands(img, ty, img', ty', p) && |a| == 1
    ensures img'.alu(Inline(off), a, w) == Some(([Wrap32(a[0] + off)], w))
  {
    hide CodeExpands, InlinedOk, MethodsMove, SpotsMove, TablesMove, NativesAlike;
  }

  /** The frame with these operands at pc. */
  function WithOps(c: Config, ops: seq<int>, pc: int): Config
    requires c.control.Executing? && c.control.top.Frame?
  {
    c.(control := Executing(c.control.top.(ops := ops, pc := pc)))
  }

  /** The base opcode for an inline field: the address goes up by the offset, unless it is null. */
  lemma InlineStep(img: Image, ty: Typing, img': Image, ty': Typing, p: Plan, d: Config, t: Tick, off: int, next: int)
    requires Expands(img, ty, img', ty', p) && d.control.Executing? && d.control.top.Frame? && !Full(img', d)
    requires var top := d.control.top;
             && top.pc in img'.lines && img'.lines[top.pc] == Line(Operate(Inline(off)), next) && |top.ops| >= 1
    ensures var top, k := d.control.top, |d.control.top.ops| - 1;
            Step(img', ty', d, t)
            == if top.ops[k] == 0 then Leave(d.w, d.vmsp, d.pending, ERR_NULL_POINTER)
               else Next(WithOps(d, top.ops[..k] + [Wrap32(top.ops[k] + off)], next))
  {
    hide Expands, Leave, End;
    var ops := d.control.top.ops;
    var k := |ops| - 1;
    assert ops[k..] == [ops[k]];
    InlineOpcode(img, ty, img', ty', p, off, [ops[k]], d.w);
  }

  /** LoadParam0 as a step of the expansion. */
  lemma LoadStep(img': Image, ty': Typing, d: Config, t: Tick, next: int)
    requires d.control.Executing? && d.control.top.Frame? && !Full(img', d)
    requires d.control.top.pc in img'.lines && img'.lines[d.control.top.pc] == Line(LoadVar(false, 0, 1), next)
    ensures var top := d.control.top;
            Step(img', ty', d, t)
            == if End(top) + 1 > img'.stackMax then Overrun
               else if |top.params| < 1 then Stuck
               else Next(WithOps(d, top.ops + [top.params[0]], next))
  {
    hide End;
    var top := d.control.top;
    Dispatched(img', ty', d, t);
    if |top.params| >= 1 {
      assert top.params[0..1] == [top.params[0]];
    }
  }

  /** A constant as a step. */
  lemma ConstStep(img: Image, ty: Typing, d: Config, t: Tick, v: int, next: int)
    requires d.control.Executing? && d.control.top.Frame? && !Full(img, d)
    requires d.control.top.pc in img.lines && img.lines[d.control.top.pc] == Line(Const([v]), next)
    ensures var top := d.control.top;
            Step(img, ty, d, t)
            == if End(top) + 1 > img.stackMax then Overrun else Next(WithOps(d, top.ops + [v], next))
  {
    hide End;
    var top := d.control.top;
    Dispatched(img, ty, d, t);
    assert top.ops[..|top.ops|] == top.ops;
  }

  /** The moved machine has the moved innermost frame. */
  lemma AlikeTop(img: Image, ty: Typing, img': Image, ty': Typing, p: Plan, c: Config, c': Config)
    requires Expands(img, ty, img', ty', p) && Alike(p, c, c') && c.control.Executing? && c.control.top.Frame?
    ensures c'.control == Executing(MovedStack(p, c.control.top)) && c'.control.top.Frame?
    ensures c'.control.top.pc == p.place(c.control.top.pc) && c'.control.top.ops == c.control.top.ops
    ensures c'.control.top.params == c.control.top.params
    ensures End(c'.control.top) == End(c.control.top) && (Full(img', c') <==> Full(img, c))
    ensures c'.w == c.w && c'.vmsp == c.vmsp && PendingAlike(p, c.pending, c'.pending)
    ensures img'.stackMax == img.stackMax
  {
    hide Expands, PendingAlike, End;
    SameAlu(img, ty, img', ty', p);
    MovedEnd(p, c.control.top);
  }

  /** The frame goes on at a place of the plan. */
  lemma GoesOnAlike(p: Plan, c: Config, c': Config, ops: seq<int>, pc: int)
    requires c.control.Executing? && c.control.top.Frame? && c'.control == Executing(MovedStack(p, c.control.top))
    requires c'.w == c.w && c'.vmsp == c.vmsp && PendingAlike(p, c.pending, c'.pending)
    ensures c'.control.top.Frame? && OutcomeAlike(p, Next(WithOps(c, ops, pc)), Next(WithOps(c', ops, p.place(pc))))
  {
    hide PendingAlike;
    MovedUpdate(p, c.control.top, pc, ops);
  }

  lemma InlinedAlike(img: Image, ty: Typing, img': Image, ty': Typing, p: Plan, c: Config, c': Config, t: Tick)
    requires Expands(img, ty, img', ty', p) && Alike(p, c, c') && AtFused(img, p, c) && !Full(img, c)
    requires LineTyped(img, ty, c.control.top.pc)
    requires c.control.top.pc in p.inlined
    ensures OutcomeAlike(p, Step(img, ty, c, t), Run(img', ty', c', [[], t]))
  {
    hide Expands, Alike, PendingAlike, Leave, Step, Run, End, OutcomeAlike;
    var top := c.control.top;
    var (base, off) := p.inlined[top.pc];
    var l := img.lines[top.pc];
    LineAt(img, ty, img', ty', p, top.pc);
    AlikeTop(img, ty, img', ty', p, c, c');
    TwoSteps(img', ty', c', [], t);
    ConstStep(img, ty, c, t, Wrap32(base + off), l.next);
    ConstStep(img', ty', c', [], base, p.middle(top.pc));
    if End(top) + 1 <= img.stackMax {
      var d' := WithOps(c', top.ops + [base], p.middle(top.pc));
      EndOps(c'.control.top, top.ops + [base], p.middle(top.pc));
      InlineStep(img, ty, img', ty', p, d', t, off, p.place(l.next));
      assert (top.ops + [base])[..|top.ops|] == top.ops;
      GoesOnAlike(p, c, c', top.ops + [Wrap32(base + off)], l.next);
    } else {
      OverrunAlike(p);
    }
  }

  lemma OverrunAlike(p: Plan)
    ensures OutcomeAlike(p, Overrun, Overrun) && OutcomeAlike(p, Stuck, Stuck)
  {
  }

  /** The fused inline-field load as a step. */
  lemma FusedInlineStep(img: Image, ty: Typing, c: Config, t: Tick)
    requires c.control.Executing? && c.control.top.Frame? && !Full(img, c) && c.control.top.pc in img.lines
    requires img.lines[c.control.top.pc].instr.InlineParam0?
    ensures var top := c.control.top;
            var l := img.lines[top.pc];
            Step(img, ty, c, t)
            == if End(top) + 1 > img.stackMax then Overrun
               else if |top.params| < 1 then Stuck
               else Next(WithOps(c, top.ops + [Wrap32(top.params[0] + l.instr.off)], l.next))
  {
    hide End;
    Dispatched(img, ty, c, t);
  }

  lemma Param0InlineAlike(img: Image, ty: Typing, img': Image, ty': Typing, p: Plan, c: Config, c': Config, t: Tick)
    requires Expands(img, ty, img', ty', p) && Alike(p, c, c') && AtFused(img, p, c) && !Full(img, c)
    requires LineTyped(img, ty, c.control.top.pc)
    requires c.control.top.pc !in p.inlined && img.lines[c.control.top.pc].instr.InlineParam0?
    ensures var o' := Run(img', ty', c', [[], t]);
            if NullInline(img, c) then
              o' == Leave(c'.w, c'.vmsp, c'.pending, ERR_NULL_POINTER) && Step(img, ty, c, t).Next?
            else OutcomeAlike(p, Step(img, ty, c, t), o')
  {
    hide Expands, Alike, PendingAlike, Leave, Step, Run, End, OutcomeAlike;
    var top := c.control.top;
    var l := img.lines[top.pc];
    LineAt(img, ty, img', ty', p, top.pc);
    AlikeTop(img, ty, img', ty', p, c, c');
    TwoSteps(img', ty', c', [], t);
    FusedInlineStep(img, ty, c, t);
    LoadStep(img', ty', c', [], p.middle(top.pc));
    OverrunAlike(p);
    if |top.params| >= 1 && End(top) + 1 <= img.stackMax {
      var ops := top.ops + [top.params[0]];
      var d' := WithOps(c', ops, p.middle(top.pc));
      EndOps(c'.control.top, ops, p.middle(top.pc));
      InlineStep(img, ty, img', ty', p, d', t, l.instr.off, p.place(l.next));
      assert ops[..|top.ops|] == top.ops;
      GoesOnAlike(p, c, c', top.ops + [Wrap32(top.params[0] + l.instr.off)], l.next);
    }
  }

  /** A call as a step, with parameter 0 pushed first or not. */
  lemma CallStep(img: Image, ty: Typing, c: Config, t: Tick)
    requires c.control.Executing? && c.control.top.Frame? && !Full(img, c) && c.control.top.pc in img.lines
    requires img.lines[c.control.top.pc].instr.Call?
    ensures var top := c.control.top;
            var l := img.lines[top.pc];
            Step(img, ty, c, t)
            == if l.instr.withParam0 then
                 if End(top) + 4 > img.stackMax then Overrun
                 else if |top.params| < 1 then Stuck
                 else Invoke(img, c, top.(ops := top.ops + [top.params[0]]), l.next, l.instr.target, t)
               else if End(top) + 3 > img.stackMax then Overrun
               else Invoke(img, c, top, l.next, l.instr.target, t)
  {
    hide End, Invoke;
    Dispatched(img, ty, c, t);
  }

  lemma Param0CallAlike(img: Image, ty: Typing, img': Image, ty': Typing, p: Plan, c: Config, c': Config, t: Tick)
    requires Expands(img, ty, img', ty', p) && Alike(p, c, c') && AtFused(img, p, c) && !Full(img, c)
    requires LineTyped(img, ty, c.control.top.pc)
    requires c.control.top.pc !in p.inlined && img.lines[c.control.top.pc].instr.Call? && |c.control.top.params| >= 1
    ensures OutcomeAlike(p, Step(img, ty, c, t), Run(img', ty', c', [[], t]))
  {
    hide Expands, Alike, PendingAlike, Leave, Step, Run, End, OutcomeAlike, Invoke;
    var top, top' := c.control.top, c'.control.top;
    var l := img.lines[top.pc];
    LineAt(img, ty, img', ty', p, top.pc);
    AlikeTop(img, ty, img', ty', p, c, c');
    TwoSteps(img', ty', c', [], t);
    CallStep(img, ty, c, t);
    LoadStep(img', ty', c', [], p.middle(top.pc));
    OverrunAlike(p);
    if End(top) + 1 <= img.stackMax {
      var ops := top.ops + [top.params[0]];
      var d' := WithOps(c', ops, p.middle(top.pc));
      EndOps(top', ops, p.middle(top.pc));
      CallStep(img', ty', d', t);
      if End(top) + 4 <= img.stackMax {
        var loaded := top.(ops := ops, pc := top.pc);
        MovedUpdate(p, top, top.pc, ops);
        InvokeAlike(img, ty, img', ty', p, c, d', loaded, l.next, l.instr.target, t);
        InvokePc(img', d', d'.control.top, MovedStack(p, loaded), p.place(l.next), p.meth(l.instr.target), t);
      }
    }
  }

  /** A call replaces the pc of the calling frame, so it does not matter. */
  lemma InvokePc(img: Image, c: Config, s: Stack, s': Stack, ret: int, target: int, stale: seq<int>)
    requires s.Frame? && s'.Frame? && s.(pc := ret) == s'.(pc := ret)
    ensures Invoke(img, c, s, ret, target, stale) == Invoke(img, c, s', ret, target, stale)
  {
  }

  /** An instruction that pops all it uses runs off no stack. */
  lemma SimpleStep(img: Image, ty: Typing, c: Config, t: Tick, pushed: seq<int>, pc: int)
    requires c.control.Executing? && c.control.top.Frame? && !Full(img, c) && c.control.top.pc in img.lines
    requires var l, top := img.lines[c.control.top.pc], c.control.top;
             && Simple(l.instr) && PointerDepthOf(l.instr) < 0 && Pops(l.instr) <= |top.ops|
             && |pushed| <= Pops(l.instr)
             && Perform(img, l, top.ops[|top.ops| - Pops(l.instr)..], c.w) == Go(pushed, pc, c.w)
    ensures var l, top := img.lines[c.control.top.pc], c.control.top;
            Step(img, ty, c, t) == Next(WithOps(c, top.ops[..|top.ops| - Pops(l.instr)] + pushed, pc))
  {
    hide End, Perform;
    Dispatched(img, ty, c, t);
  }

  lemma Underflows(img: Image, ty: Typing, c: Config, t: Tick)
    requires c.control.Executing? && c.control.top.Frame? && !Full(img, c) && c.control.top.pc in img.lines
    requires var l := img.lines[c.control.top.pc];
             Simple(l.instr) && PointerDepthOf(l.instr) < 0 && Pops(l.instr) > |c.control.top.ops|
    ensures Step(img, ty, c, t) == Stuck
  {
    hide End, Perform;
    Dispatched(img, ty, c, t);
  }

  lemma CompareJumpAlike(img: Image, ty: Typing, img': Image, ty': Typing, p: Plan, c: Config, c': Config, t: Tick)
    requires Expands(img, ty, img', ty', p) && Alike(p, c, c') && AtFused(img, p, c) && !Full(img, c)
    requires LineTyped(img, ty, c.control.top.pc)
    requires c.control.top.pc !in p.inlined && img.lines[c.control.top.pc].instr.JumpCmp?
    ensures OutcomeAlike(p, Step(img, ty, c, t), Run(img', ty', c', [[], t]))
  {
    hide Expands, Alike, PendingAlike, Leave, Step, Run, End, OutcomeAlike, Compare;
    var top := c.control.top;
    var l := img.lines[top.pc];
    LineAt(img, ty, img', ty', p, top.pc);
    AlikeTop(img, ty, img', ty', p, c, c');
    TwoSteps(img', ty', c', [], t);
    OverrunAlike(p);
    if |top.ops| >= 2 {
      var k := |top.ops| - 2;
      var a := top.ops[k..];
      CompareOpcode(img, ty, img', ty', p, l.instr.cmp, a, c.w);
      var yes := Compare(l.instr.cmp, a[0], a[1]);
      var ops := top.ops[..k] + [Bool(yes)];
      var d' := WithOps(c', ops, p.middle(top.pc));
      SimpleStep(img', ty', c', [], [Bool(yes)], p.middle(top.pc));
      EndOps(c'.control.top, ops, p.middle(top.pc));
      assert ops[k..] == [Bool(yes)] && ops[..k] == top.ops[..k] && top.ops[..k] + [] == top.ops[..k];
      var pc := if yes then l.instr.to else l.next;
      SimpleStep(img', ty', d', t, [], p.place(pc));
      SimpleStep(img, ty, c, t, [], pc);
      GoesOnAlike(p, c, c', top.ops[..k], pc);
    } else {
      Underflows(img, ty, c, t);
      Underflows(img', ty', c', []);
    }
  }

  // ----- natives

  lemma ActsAlikeOpen(p: Plan, a: Act, a': Act)
    requires ActsAlike(p, a, a')
    ensures match a
            case Finish(_, _, _) => a' == a
            case CallBack(w, target, args, resume) =>
              target in p.methods ==>
                && a'.CallBack? && a'.w == w && a'.target == p.meth(target) && a'.args == args
                && ResumesAlike(p, resume, a'.resume)
  {
    assert ActAlike(p, 1, a, a');
    if a.CallBack? && a.target in p.methods {
      forall v: int, w: World, k: nat
        ensures ActAlike(p, k, a.resume(v, w), a'.resume(v, w))
      {
        assert ActAlike(p, k + 1, a, a');
      }
    }
  }

  lemma EnterAlike(img: Image, ty: Typing, img': Image, ty': Typing, p: Plan, w: World, vmsp: int, d: Pending,
                   d': Pending, target: int, args: seq<int>, stale: seq<int>)
    requires Expands(img, ty, img', ty', p) && PendingAlike(p, d, d') && target in ty.kind
    ensures OutcomeAlike(p, Enter(img, ty, w, vmsp, d, target, args, stale),
                         Enter(img', ty', w, vmsp, d', p.meth(target), args, stale))
  {
    hide Expands, PendingAlike, Leave;
    HeadMoves(img, ty, img', ty', p, target);
    LeaveAlike(p, w, vmsp, d, d', ERR_INVALID_METHOD_PARAMS);
    if target in img.heads && target in ty.kind && img.heads[target].params == |args| {
      var cells := Fit(stale, 1 + img.heads[target].locals);
      var s := Frame(target, target + 2, args, cells[1..], [], Base(cells[0], vmsp + 1));
      assert MovedStack(p, s)
          == Frame(p.meth(target), p.place(target + 2), args, cells[1..], [], Base(cells[0], vmsp + 1));
    }
  }

  lemma NativeStepAlike(img: Image, ty: Typing, img': Image, ty': Typing, p: Plan, c: Config, c': Config,
                        stale: seq<int>)
    requires Expands(img, ty, img', ty', p) && Alike(p, c, c') && c.control.Native?
    ensures OutcomeAlike(p, StepAct(img, ty, c, stale), StepAct(img', ty', c', stale))
  {
    hide Expands, ActsAlike, ResumesAlike, Enter, NativeResult;
    var top, argc, n := c.control.top, c.control.argc, c.control.results;
    ActsAlikeOpen(p, c.control.act, c'.control.act);
    match c.control.act
    case CallBack(w, target, args, resume) =>
      PlanMethods(img, ty, img', ty', p);
      if target in ty.kind {
        var d := Waiting(top, argc, n, resume, c.pending);
        var d' := Waiting(c'.control.top, argc, n, c'.control.act.resume, c'.pending);
        assert PendingAlike(p, d, d');
        EnterAlike(img, ty, img', ty', p, w, c.vmsp, d, d', target, args, stale);
      } else {
        Unknown(img, ty, w, c.vmsp, Waiting(top, argc, n, resume, c.pending), target, args, stale);
      }
    case Finish(lo, hi, w) =>
      if n <= 2 && top.Frame? && argc <= |top.ops| {
        MovedUpdate(p, top, top.pc, top.ops[..|top.ops| - argc] + NativeResult(lo, hi, n));
      }
  }

  lemma Unknown(img: Image, ty: Typing, w: World, vmsp: int, p: Pending, target: int, args: seq<int>, stale: Tick)
    requires target !in ty.kind
    ensures Enter(img, ty, w, vmsp, p, target, args, stale).BadTarget?
  {
  }

  // ----- every step, every run

  lemma PlainMoveAlike(img: Image, ty: Typing, img': Image, ty': Typing, p: Plan, c: Config, c': Config, t: Tick)
    requires Expands(img, ty, img', ty', p) && Alike(p, c, c') && c.control.Executing? && c.control.top.Frame?
    requires !AtFused(img, p, c) && LineTyped(img, ty, c.control.top.pc) && !StrayVirtual(img, p, c)
    ensures OutcomeAlike(p, Move(img, ty, c, t), Move(img', ty', c', t))
  {
    hide Expands, PendingAlike, Leave, StepSimple, StepVar, StepNative, StepCall, Unwind, End;
    var top := c.control.top;
    var l := img.lines[top.pc];
    MovedEnd(p, top);
    SameAlu(img, ty, img', ty', p);
    LineAt(img, ty, img', ty', p, top.pc);
    LeaveAlike(p, c.w, c.vmsp, c.pending, c'.pending, ERR_NULL_POINTER);
    LeaveAlike(p, c.w, c.vmsp, c.pending, c'.pending, ERR_STACK_OVERFLOW);
    LeaveAlike(p, c.w, c.vmsp, c.pending, c'.pending, ERR_UNKNOWN_OPCODE);
    if Simple(l.instr) {
      SimpleAlike(img, img', p, c, c', l);
    } else if l.instr.LoadVar? || l.instr.StoreVar? {
      VarAlike(p, c, c', l);
    } else if l.instr.CallNative? {
      NativeAlike(img, ty, img', ty', p, c, c', l);
    } else if l.instr.Return? {
      UnwindAlike(p, c, c', l.instr.results);
    } else if !l.instr.Unknown? {
      CallAlike(img, ty, img', ty', p, c, c', t);
    }
  }

  /** An instruction that stays needs as much of the stack as before. */
  lemma PlainReach(img: Image, ty: Typing, img': Image, ty': Typing, p: Plan, ops: seq<int>, end: int, l: Line,
                   w: World)
    requires Expands(img, ty, img', ty', p)
    ensures Reach(img', ops, end, Line(MovedInstr(p, l.instr), p.place(l.next)), w) == Reach(img, ops, end, l, w)
  {
    hide Expands, Perform, MovedInstr;
    MovedKind(p, l.instr);
    SameAlu(img, ty, img', ty', p);
    if Simple(l.instr) && Pops(l.instr) <= |ops| {
      PerformMoves(img, img', p, l, ops[|ops| - Pops(l.instr)..], w);
    }
  }

  lemma SameAlu(img: Image, ty: Typing, img': Image, ty': Typing, p: Plan)
    requires Expands(img, ty, img', ty', p)
    ensures img'.alu == img.alu && img'.stackMax == img.stackMax
  {
    hide BaseOpcodes, CodeExpands, MethodsMove, SpotsMove, TablesMove, NativesAlike, InlinedOk;
  }

  lemma MovedKind(p: Plan, i: Instr)
    ensures var i' := MovedInstr(p, i);
            && (Simple(i') <==> Simple(i)) && (Simple(i) ==> Pops(i') == Pops(i))
            && (i'.LoadVar? <==> i.LoadVar?) && (i.LoadVar? ==> i' == i)
            && (i'.InlineParam0? <==> i.InlineParam0?) && (i'.CallVirtual? <==> i.CallVirtual?)
            && (i'.Call? <==> i.Call?) && (i.Call? ==> i'.withParam0 == i.withParam0)
            && PointerDepthOf(i') == PointerDepthOf(i)
  {
  }

  lemma PlainOverruns(img: Image, ty: Typing, img': Image, ty': Typing, p: Plan, c: Config, c': Config)
    requires Expands(img, ty, img', ty', p) && Alike(p, c, c') && c.control.Executing? && c.control.top.Frame?
    requires !AtFused(img, p, c) && LineTyped(img, ty, c.control.top.pc)
    ensures Overruns(img', ty', c') <==> Overruns(img, ty, c)
  {
    hide Expands, PendingAlike, Reach, MovedInstr;
    var top := c.control.top;
    var l := img.lines[top.pc];
    SameAlu(img, ty, img', ty', p);
    MovedEnd(p, top);
    LineAt(img, ty, img', ty', p, top.pc);
    MovedKind(p, l.instr);
    PlainReach(img, ty, img', ty', p, top.ops, End(top), l, c.w);
  }

  lemma PlainStepAlike(img: Image, ty: Typing, img': Image, ty': Typing, p: Plan, c: Config, c': Config, t: Tick)
    requires Expands(img, ty, img', ty', p) && Alike(p, c, c') && c.control.Executing? && c.control.top.Frame?
    requires !AtFused(img, p, c) && LineTyped(img, ty, c.control.top.pc) && !StrayVirtual(img, p, c)
    ensures OutcomeAlike(p, Step(img, ty, c, t), Step(img', ty', c', t))
  {
    hide Expands, Alike, Move, Overruns, AtFused;
    PlainMoveAlike(img, ty, img', ty', p, c, c', t);
    PlainOverruns(img, ty, img', ty', p, c, c');
  }

  /** A fused instruction that an overflow stops is stopped in its first half too. */
  lemma FullAlike(img: Image, ty: Typing, img': Image, ty': Typing, p: Plan, c: Config, c': Config, t: Tick)
    requires Expands(img, ty, img', ty', p) && Alike(p, c, c') && AtFused(img, p, c) && Full(img, c)
    requires LineTyped(img, ty, c.control.top.pc)
    ensures OutcomeAlike(p, Step(img, ty, c, t), Step(img', ty', c', t))
  {
    hide Expands, Alike, PendingAlike, Leave, End, Dispatch;
    LineAt(img, ty, img', ty', p, c.control.top.pc);
    AlikeTop(img, ty, img', ty', p, c, c');
    LeaveAlike(p, c.w, c.vmsp, c.pending, c'.pending, ERR_STACK_OVERFLOW);
  }

  /** One step of the fused image is one or two steps of its expansion, unless a fused inline-field load meets a
      null parameter or a virtual call goes past the vtables. */
  lemma StepExpands(img: Image, ty: Typing, img': Image, ty': Typing, p: Plan, c: Config, c': Config, t: Tick)
    requires WellFormed(img, ty) && Typed(img, ty, c)
    requires Expands(img, ty, img', ty', p) && Alike(p, c, c') && !NullInline(img, c) && !StrayVirtual(img, p, c)
    ensures OutcomeAlike(p, Step(img, ty, c, t), Run(img', ty', c', Ticks(img, p, c, t)))
  {
    hide Expands, Alike, Step, OutcomeAlike, Run, WellFormed, Typed, LineTyped, Full, StrayVirtual;
    OneStep(img', ty', c', t);
    if c.control.Native? {
      NativeWhole(img, ty, img', ty', p, c, c', t);
    } else {
      TypedLine(img, ty, c);
      AlikeExecuting(p, c, c');
      if !AtFused(img, p, c) {
        PlainStepAlike(img, ty, img', ty', p, c, c', t);
      } else if Full(img, c) {
        FullAlike(img, ty, img', ty', p, c, c', t);
      } else if c.control.top.pc in p.inlined {
        InlinedAlike(img, ty, img', ty', p, c, c', t);
      } else if img.lines[c.control.top.pc].instr.InlineParam0? {
        Param0InlineAlike(img, ty, img', ty', p, c, c', t);
      } else if img.lines[c.control.top.pc].instr.Call? {
        Param0CallAlike(img, ty, img', ty', p, c, c', t);
      } else {
        CompareJumpAlike(img, ty, img', ty', p, c, c', t);
      }
    }
  }

  lemma AlikeExecuting(p: Plan, c: Config, c': Config)
    requires Alike(p, c, c')
    ensures c.control.Executing? <==> c'.control.Executing?
  {
  }

  lemma NativeWhole(img: Image, ty: Typing, img': Image, ty': Typing, p: Plan, c: Config, c': Config, t: Tick)
    requires Expands(img, ty, img', ty', p) && Alike(p, c, c') && c.control.Native?
    ensures OutcomeAlike(p, Step(img, ty, c, t), Step(img', ty', c', t))
  {
    hide Expands, StepAct, PendingAlike, ActsAlike, End;
    NativeStepAlike(img, ty, img', ty', p, c, c', t);
    MovedEnd(p, c.control.top);
    ActsAlikeOpen(p, c.control.act, c'.control.act);
    SameAlu(img, ty, img', ty', p);
    PlanMethods(img, ty, img', ty', p);
    if c.control.act.CallBack? && c.control.act.target in ty.kind {
      HeadMoves(img, ty, img', ty', p, c.control.act.target);
    } else if c.control.act.CallBack? {
      UnknownStep(img, ty, c, t);
    }
  }

  lemma UnknownStep(img: Image, ty: Typing, c: Config, t: Tick)
    requires c.control.Native? && c.control.act.CallBack? && c.control.act.target !in ty.kind
    ensures Step(img, ty, c, t).BadTarget?
  {
  }

  lemma TypedLine(img: Image, ty: Typing, c: Config)
    requires WellFormed(img, ty) && Typed(img, ty, c) && c.control.Executing?
    ensures var top := c.control.top;
            && top.Frame? && top.pc in img.lines && LineTyped(img, ty, top.pc)
            && (img.lines[top.pc].instr.Call? && img.lines[top.pc].instr.withParam0 ==> |top.params| >= 1)
  {
    TopOk(img, ty, c);
  }

  /** The ticks of the expansion's run, built along the fused run. */
  ghost function RunTicks(img: Image, ty: Typing, p: Plan, c: Config, ticks: seq<Tick>): seq<Tick>
    decreases |ticks|
  {
    if ticks == [] then []
    else
      var o := Step(img, ty, c, ticks[0]);
      Ticks(img, p, c, ticks[0]) + if o.Next? then RunTicks(img, ty, p, o.c, ticks[1..]) else []
  }

  /** No fused inline-field load meets a null parameter on the way, and all virtual calls go through the vtables. */
  ghost predicate Fair(img: Image, ty: Typing, p: Plan, c: Config, ticks: seq<Tick>)
    decreases |ticks|
  {
    ticks == [] ||
    (!NullInline(img, c) && !StrayVirtual(img, p, c)
     && (Step(img, ty, c, ticks[0]).Next? ==> Fair(img, ty, p, Step(img, ty, c, ticks[0]).c, ticks[1..])))
  }

  /** Without fused inline-field loads and virtual calls every run is fair. */
  predicate Harmless(img: Image, ty: Typing) {
    forall pc | pc in ty.at && pc in img.lines ::
      !img.lines[pc].instr.InlineParam0? && !img.lines[pc].instr.CallVirtual?
  }

  lemma {:induction false} HarmlessFair(img: Image, ty: Typing, p: Plan, c: Config, ticks: seq<Tick>)
    requires WellFormed(img, ty) && Typed(img, ty, c) && Harmless(img, ty)
    ensures Fair(img, ty, p, c, ticks)
    decreases |ticks|
  {
    hide WellFormed, Typed, Step, Harmless;
    if ticks != [] {
      HarmlessStep(img, ty, p, c);
      StepTyped(img, ty, c, ticks[0]);
      var o := Step(img, ty, c, ticks[0]);
      if o.Next? { HarmlessFair(img, ty, p, o.c, ticks[1..]); }
    }
  }

  lemma HarmlessStep(img: Image, ty: Typing, p: Plan, c: Config)
    requires WellFormed(img, ty) && Typed(img, ty, c) && Harmless(img, ty)
    ensures !NullInline(img, c) && !StrayVirtual(img, p, c)
  {
    hide WellFormed, Typed, LineOk;
    if c.control.Executing? { TopOk(img, ty, c); }
  }

  /** Every fair run of the fused image is a run of its expansion: same values, same worlds, same errors, same frames
      up to the moved code addresses. */
  lemma {:induction false} RunExpands(img: Image, ty: Typing, img': Image, ty': Typing, p: Plan, c: Config, c': Config,
                                      ticks: seq<Tick>)
    requires WellFormed(img, ty) && Typed(img, ty, c)
    requires Expands(img, ty, img', ty', p) && Alike(p, c, c') && Fair(img, ty, p, c, ticks)
    ensures OutcomeAlike(p, Run(img, ty, c, ticks), Run(img', ty', c', RunTicks(img, ty, p, c, ticks)))
    decreases |ticks|
  {
    hide Expands, Alike, Step, NullInline, StrayVirtual, Ticks, WellFormed, Typed;
    if ticks != [] {
      StepTyped(img, ty, c, ticks[0]);
      var t, o := ticks[0], Step(img, ty, c, ticks[0]);
      var ts := Ticks(img, p, c, t);
      StepExpands(img, ty, img', ty', p, c, c', t);
      var o' := Run(img', ty', c', ts);
      if o.Next? {
        var more := RunTicks(img, ty, p, o.c, ticks[1..]);
        RunAppend(img', ty', c', ts, more);
        RunExpands(img, ty, img', ty', p, o.c, o'.c, ticks[1..]);
      } else {
        assert ts + [] == ts;
      }
    }
  }

  /** And the null test is the only difference: at a fused inline-field load of a null parameter the fused image
      goes on, and the expansion stops with the null error. */
  lemma NullDiffers(img: Image, ty: Typing, img': Image, ty': Typing, p: Plan, c: Config, c': Config, t: Tick)
    requires Expands(img, ty, img', ty', p) && Alike(p, c, c')
    requires AtFused(img, p, c) && !Full(img, c) && NullInline(img, c) && LineTyped(img, ty, c.control.top.pc)
    ensures Step(img, ty, c, t).Next?
    ensures Run(img', ty', c', Ticks(img, p, c, t)) == Leave(c'.w, c'.vmsp, c'.pending, ERR_NULL_POINTER)
  {
    hide Expands, Alike, Step, Run, Leave;
    LineAt(img, ty, img', ty', p, c.control.top.pc);
    Param0InlineAlike(img, ty, img', ty', p, c, c', t);
  }

  /** Exactly then. */
  lemma StepExpandsExactly(img: Image, ty: Typing, img': Image, ty': Typing, p: Plan, c: Config, c': Config, t: Tick)
    requires WellFormed(img, ty) && Typed(img, ty, c) && Expands(img, ty, img', ty', p) && Alike(p, c, c')
    requires !StrayVirtual(img, p, c)
    ensures OutcomeAlike(p, Step(img, ty, c, t), Run(img', ty', c', Ticks(img, p, c, t))) <==> !NullInline(img, c)
  {
    hide Expands, Alike, Step, OutcomeAlike, Run, WellFormed, Typed, StrayVirtual, LineTyped;
    if !NullInline(img, c) {
      StepExpands(img, ty, img', ty', p, c, c', t);
    } else {
      TypedLine(img, ty, c);
      NullDiffers(img, ty, img', ty', p, c, c', t);
      FusedInlineStep(img, ty, c, t);
      NotAlike(p, WithOps(c, Step(img, ty, c, t).c.control.top.ops, img.lines[c.control.top.pc].next), c'.w, c'.vmsp,
               c'.pending);
    }
  }

  /** A frame that goes on is not a vmCall that has ended. */
  lemma NotAlike(p: Plan, c: Config, w: World, vmsp: int, d: Pending)
    requires c.control.Executing?
    ensures !OutcomeAlike(p, Next(c), Leave(w, vmsp, d, ERR_NULL_POINTER))
  {
  }

  // ----- whole calls

  ghost predicate EntryFair(img: Image, ty: Typing, p: Plan, o: Outcome, ticks: seq<Tick>) {
    o.Next? ==> Fair(img, ty, p, o.c, ticks)
  }

  lemma BeginAlike(img: Image, ty: Typing, img': Image, ty': Typing, p: Plan, w: World, vmsp: int, target: int,
                   args: seq<int>, stale: seq<int>)
    requires Expands(img, ty, img', ty', p) && target in ty.kind
    ensures OutcomeAlike(p, Begin(img, ty, w, vmsp, Nobody, target, args, stale),
                         Begin(img', ty', w, vmsp, Nobody, p.meth(target), args, stale))
  {
    hide Expands, Enter, Alike;
    EnterAlike(img, ty, img', ty', p, w, vmsp, Nobody, Nobody, target, args, stale);
    HeadMoves(img, ty, img', ty', p, target);
    SameAlu(img, ty, img', ty', p);
  }

  /** A call of a method of the fused image and of its expansion end with the same value and world. */
  lemma CallExpands(img: Image, ty: Typing, img': Image, ty': Typing, p: Plan, w: World, vmsp: int, target: int,
                    args: seq<int>, stale: seq<int>, ticks: seq<Tick>)
    requires Expands(img, ty, img', ty', p) && WellFormed(img, ty) && target in ty.kind
    requires EntryFair(img, ty, p, Begin(img, ty, w, vmsp, Nobody, target, args, stale), ticks)
    ensures var o := Begin(img, ty, w, vmsp, Nobody, target, args, stale);
            var o' := Begin(img', ty', w, vmsp, Nobody, p.meth(target), args, stale);
            var ticks' := if o.Next? then RunTicks(img, ty, p, o.c, ticks) else ticks;
            OutcomeAlike(p, Continue(img, ty, o, ticks), Continue(img', ty', o', ticks'))
  {
    hide Expands, Alike, Begin, Fair, RunTicks, Run, WellFormed, Typed;
    BeginAlike(img, ty, img', ty', p, w, vmsp, target, args, stale);
    EntryTyped(img, ty, w, vmsp, target, args, stale);
    var o, o' := Begin(img, ty, w, vmsp, Nobody, target, args, stale),
                 Begin(img', ty', w, vmsp, Nobody, p.meth(target), args, stale);
    if o.Next? {
      RunExpands(img, ty, img', ty', p, o.c, o'.c, ticks);
    }
  }
}

/** Definite assignment: when every local is stored before it is loaded, and no native looks at the result of a void
    callback, a run does not depend on what its frames find in their locals, and a vmCall is a function of its
    method, arguments and world. */
module Staleness {
  import opened Alu
  import opened Image
  import opened FrameMachine

  /** The locals surely stored at each code offset. */
  type Stored = map<int, set<int>>

  /** At `pc` at most the locals in `js` are taken to be stored. */
  predicate Within(da: Stored, pc: int, js: set<int>) { pc in da && da[pc] <= js }

  function Cells(i: nat, n: nat): (js: set<int>)
    ensures forall j :: j in js <==> i <= j < i + n
  {
    if n == 0 then {} else Cells(i, n - 1) + {i + n - 1}
  }

  /** A load of locals names stored ones, a store adds its own, and nothing else adds any. */
  predicate LineStored(img: Image, da: Stored, pc: int)
    requires pc in img.lines && pc in da
  {
    var l, js := img.lines[pc], da[pc];
    if Simple(l.instr) then forall f | f in Flows(l) :: Within(da, f.0, js)
    else match l.instr
      case LoadVar(isLocal, i, n) => (isLocal ==> Cells(i, n) <= js) && Within(da, l.next, js)
      case StoreVar(isLocal, i, n) => Within(da, l.next, if isLocal then js + Cells(i, n) else js)
      case Return(_) => true
      case Unknown => true
      case _ => Within(da, l.next, js)
  }

  predicate Definite(img: Image, ty: Typing, da: Stored) {
    && (forall m | m in ty.kind :: Within(da, m + 2, {}))
    && forall pc | pc in ty.at :: pc in img.lines && pc in da && LineStored(img, da, pc)
  }

  // ----- natives

  ghost predicate Deaf(resume: (int, World) -> Act) {
    forall v: int, v': int, w: World :: resume(v, w) == resume(v', w)
  }

  /** For k actions: after a callback of a void method the native goes on in the same way whatever it is handed. */
  ghost predicate DeafFor(ty: Typing, k: nat, a: Act)
    decreases k
  {
    k == 0 ||
    match a
    case Finish(_, _, _) => true
    case CallBack(w, target, args, resume) =>
      && (target in ty.kind && ty.kind[target] == 0 ==> Deaf(resume))
      && forall v: int, u: World :: DeafFor(ty, k - 1, resume(v, u))
  }

  ghost predicate DeafAct(ty: Typing, a: Act) { forall k: nat :: DeafFor(ty, k, a) }

  ghost predicate DeafResume(ty: Typing, f: (int, World) -> Act) { forall v: int, u: World :: DeafAct(ty, f(v, u)) }

  ghost predicate DeafNatives(img: Image, ty: Typing) {
    forall kit: int, id: int, a: seq<int>, w: World :: DeafAct(ty, img.native(kit, id, a, w))
  }

  lemma DeafOpen(ty: Typing, a: Act)
    requires DeafAct(ty, a) && a.CallBack?
    ensures a.target in ty.kind && ty.kind[a.target] == 0 ==> Deaf(a.resume)
    ensures DeafResume(ty, a.resume)
  {
    assert DeafFor(ty, 1, a);
    forall v: int, u: World, k: nat
      ensures DeafFor(ty, k, a.resume(v, u))
    {
      assert DeafFor(ty, k + 1, a);
    }
  }

  // ----- configurations that differ only in cells never stored

  predicate SameLocals(da: Stored, pc: int, ls: seq<int>, ls': seq<int>) {
    |ls| == |ls'| && pc in da && forall j | j in da[pc] && 0 <= j < |ls| :: ls[j] == ls'[j]
  }

  /** The cell below the arguments counts only for a void entry method whose caller listens. */
  predicate SameBase(ty: Typing, meth: int, b: Stack, b': Stack, deaf: bool) {
    && b.Base? && b'.Base? && b'.at == b.at
    && (b'.below == b.below || deaf || (meth in ty.kind && ty.kind[meth] != 0))
  }

  predicate SameStack(ty: Typing, da: Stored, s: Stack, s': Stack, deaf: bool) {
    match s
    case Base(_, _) => false
    case Frame(m, pc, params, locals, ops, caller) =>
      && s'.Frame? && s'.meth == m && s'.pc == pc && s'.params == params && s'.ops == ops
      && SameLocals(da, pc, locals, s'.locals)
      && if caller.Base? then SameBase(ty, m, caller, s'.caller, deaf) else SameStack(ty, da, caller, s'.caller, deaf)
  }

  ghost predicate DeafPending(p: Pending) { p.Waiting? && Deaf(p.resume) }

  ghost predicate SamePending(ty: Typing, da: Stored, p: Pending, p': Pending) {
    match p
    case Nobody => p'.Nobody?
    case Waiting(top, argc, results, resume, outer) =>
      && p'.Waiting? && p'.argc == argc && p'.results == results && p'.resume == resume
      && DeafResume(ty, resume)
      && SameStack(ty, da, top, p'.top, DeafPending(outer)) && SamePending(ty, da, outer, p'.outer)
  }

  ghost predicate SameControl(ty: Typing, da: Stored, d: Control, d': Control, deaf: bool) {
    match d
    case Executing(top) => d'.Executing? && SameStack(ty, da, top, d'.top, deaf)
    case Native(act, top, argc, results) =>
      && d'.Native? && d'.act == act && d'.argc == argc && d'.results == results && DeafAct(ty, act)
      && SameStack(ty, da, top, d'.top, deaf)
  }

  ghost predicate Same(ty: Typing, da: Stored, c: Config, c': Config) {
    && c'.w == c.w && c'.vmsp == c.vmsp && SamePending(ty, da, c.pending, c'.pending)
    && SameControl(ty, da, c.control, c'.control, DeafPending(c.pending))
  }

  ghost predicate SameOutcome(ty: Typing, da: Stored, o: Outcome, o': Outcome) {
    match o
    case Next(c) => o'.Next? && Same(ty, da, c, o'.c)
    case _ => o' == o
  }

  // ----- one step

  lemma {:induction false} SameEnd(ty: Typing, da: Stored, s: Stack, s': Stack, deaf: bool)
    requires SameStack(ty, da, s, s', deaf)
    ensures End(s') == End(s) && s.Frame? && s'.Frame?
  {
    if s.caller.Frame? { SameEnd(ty, da, s.caller, s'.caller, deaf); }
  }

  lemma LocalsWithin(da: Stored, pc: int, pc': int, ls: seq<int>, ls': seq<int>)
    requires SameLocals(da, pc, ls, ls') && Within(da, pc', da[pc])
    ensures SameLocals(da, pc', ls, ls')
  {
  }

  lemma LocalsStored(da: Stored, pc: int, pc': int, ls: seq<int>, ls': seq<int>, i: nat, ws: seq<int>)
    requires SameLocals(da, pc, ls, ls') && Within(da, pc', da[pc] + Cells(i, |ws|)) && i + |ws| <= |ls|
    ensures SameLocals(da, pc', Put(ls, i, ws), Put(ls', i, ws))
  {
    hide Within, Cells;
    WithinThere(da, pc', da[pc] + Cells(i, |ws|));
    forall j | j in da[pc'] && 0 <= j < |ls|
      ensures Put(ls, i, ws)[j] == Put(ls', i, ws)[j]
    {
      assert j in da[pc] + Cells(i, |ws|) by { WithinAt(da, pc', da[pc] + Cells(i, |ws|), j); }
    }
  }

  lemma WithinAt(da: Stored, pc: int, js: set<int>, j: int)
    requires Within(da, pc, js) && j in da[pc]
    ensures j in js
  {
  }

  lemma WithinThere(da: Stored, pc: int, js: set<int>)
    requires Within(da, pc, js)
    ensures pc in da
  {
  }

  lemma NoneStored(da: Stored, pc: int, ls: seq<int>, ls': seq<int>)
    requires Within(da, pc, {}) && |ls| == |ls'|
    ensures SameLocals(da, pc, ls, ls')
  {
    assert da[pc] == {};
  }

  lemma LocalsLoaded(da: Stored, pc: int, ls: seq<int>, ls': seq<int>, i: nat, n: nat)
    requires SameLocals(da, pc, ls, ls') && Cells(i, n) <= da[pc] && i + n <= |ls|
    ensures ls[i..i + n] == ls'[i..i + n]
  {
    forall j | i <= j < i + n
      ensures ls[j] == ls'[j]
    {
      assert j in Cells(i, n);
    }
  }

  /** A load of locals reads the same from every frame that agrees on the stored ones exactly when it names stored
      ones. */
  lemma LoadExact(da: Stored, pc: int, ls: seq<int>, i: nat, n: nat)
    requires pc in da && i + n <= |ls|
    ensures (forall ls' | SameLocals(da, pc, ls, ls') :: ls'[i..i + n] == ls[i..i + n]) <==> Cells(i, n) <= da[pc]
  {
    if Cells(i, n) <= da[pc] {
      forall ls' | SameLocals(da, pc, ls, ls')
        ensures ls'[i..i + n] == ls[i..i + n]
      {
        LocalsLoaded(da, pc, ls, ls', i, n);
      }
    } else {
      var j :| j in Cells(i, n) && j !in da[pc];
      var ls' := ls[j := ls[j] + 1];
      assert SameLocals(da, pc, ls, ls');
      assert ls'[i..i + n][j - i] != ls[i..i + n][j - i];
    }
  }

  /** The innermost frame goes on at `pc` with other operands. */
  lemma SameOps(ty: Typing, da: Stored, s: Stack, s': Stack, deaf: bool, ops: seq<int>, pc: int)
    requires SameStack(ty, da, s, s', deaf) && Within(da, pc, da[s.pc])
    ensures s.Frame? && s'.Frame? && SameStack(ty, da, s.(ops := ops, pc := pc), s'.(ops := ops, pc := pc), deaf)
  {
    LocalsWithin(da, s.pc, pc, s.locals, s'.locals);
  }

  lemma SameLeave(ty: Typing, da: Stored, c: Config, c': Config, w: World, v: int)
    requires c'.vmsp == c.vmsp && SamePending(ty, da, c.pending, c'.pending)
    ensures SameOutcome(ty, da, Leave(w, c.vmsp, c.pending, v), Leave(w, c'.vmsp, c'.pending, v))
  {
    hide SameStack, DeafAct;
  }

  /** A native that does not listen goes on in the same way on two different results. */
  lemma DeafLeave(ty: Typing, da: Stored, c: Config, c': Config, w: World, v: int, v': int)
    requires c'.vmsp == c.vmsp && SamePending(ty, da, c.pending, c'.pending)
    requires v' == v || DeafPending(c.pending)
    ensures SameOutcome(ty, da, Leave(w, c.vmsp, c.pending, v), Leave(w, c'.vmsp, c'.pending, v'))
  {
    hide SameStack, DeafAct;
    SameLeave(ty, da, c, c', w, v);
    if v' != v {
      assert c.pending.resume(v', w) == c.pending.resume(v, w);
    }
  }

  ghost predicate Stepping(img: Image, ty: Typing, da: Stored, c: Config, c': Config, l: Line) {
    && Same(ty, da, c, c') && c.control.Executing? && c.control.top.Frame? && c'.control.Executing?
    && c'.control.top.Frame? && c.control.top.pc in img.lines && l == img.lines[c.control.top.pc]
    && c.control.top.pc in da && LineStored(img, da, c.control.top.pc)
  }

  lemma SameSimple(img: Image, ty: Typing, da: Stored, c: Config, c': Config, l: Line)
    requires Stepping(img, ty, da, c, c', l) && Simple(l.instr)
    ensures SameOutcome(ty, da, StepSimple(img, c, c.control.top, l), StepSimple(img, c', c'.control.top, l))
  {
    hide Perform, Flows, SamePending, DeafPending;
    var top, top' := c.control.top, c'.control.top;
    var k := |top.ops| - Pops(l.instr);
    if k >= 0 {
      var e := Perform(img, l, top.ops[k..], c.w);
      PerformFlows(img, l, top.ops[k..], c.w);
      if e.Go? {
        SameOps(ty, da, top, top', DeafPending(c.pending), top.ops[..k] + e.pushed, e.pc);
      }
    }
  }

  lemma SameVar(img: Image, ty: Typing, da: Stored, c: Config, c': Config, l: Line)
    requires Stepping(img, ty, da, c, c', l) && (l.instr.LoadVar? || l.instr.StoreVar?)
    ensures SameOutcome(ty, da, StepVar(c, c.control.top, l), StepVar(c', c'.control.top, l))
  {
    hide SamePending, DeafPending, Put, Cells, Flows, Within;
    var top, top' := c.control.top, c'.control.top;
    var i, n := l.instr.index, l.instr.width;
    var vars := if l.instr.isLocal then top.locals else top.params;
    if i + n <= |vars| {
      if l.instr.LoadVar? {
        if l.instr.isLocal { LocalsLoaded(da, top.pc, top.locals, top'.locals, i, n); }
        SameOps(ty, da, top, top', DeafPending(c.pending), top.ops + vars[i..i + n], l.next);
      } else if n <= |top.ops| {
        var k := |top.ops| - n;
        if l.instr.isLocal {
          LocalsStored(da, top.pc, l.next, top.locals, top'.locals, i, top.ops[k..]);
        } else {
          LocalsWithin(da, top.pc, l.next, top.locals, top'.locals);
        }
      }
    }
  }

  lemma SameInvoke(img: Image, ty: Typing, da: Stored, c: Config, c': Config, top: Stack, top': Stack, ret: int,
                   target: int, t: Tick, t': Tick)
    requires c'.w == c.w && c'.vmsp == c.vmsp && SamePending(ty, da, c.pending, c'.pending)
    requires SameStack(ty, da, top, top', DeafPending(c.pending)) && Within(da, ret, da[top.pc])
    requires Within(da, target + 2, {})
    ensures SameOutcome(ty, da, Invoke(img, c, top, ret, target, t), Invoke(img, c', top', ret, target, t'))
  {
    hide SamePending, DeafPending, Fit, Within;
    if target in img.heads && img.heads[target].params <= |top.ops| {
      var n := img.heads[target].locals;
      NoneStored(da, target + 2, Fit(t, n), Fit(t', n));
      var k := |top.ops| - img.heads[target].params;
      SameOps(ty, da, top, top', DeafPending(c.pending), top.ops[..k], ret);
    }
  }

  lemma SameCall(img: Image, ty: Typing, da: Stored, c: Config, c': Config, l: Line, t: Tick, t': Tick)
    requires Stepping(img, ty, da, c, c', l) && (l.instr.Call? || l.instr.CallVirtual? || l.instr.InlineParam0?)
    requires Definite(img, ty, da) && (l.instr.Call? ==> l.instr.target in ty.kind)
    ensures SameOutcome(ty, da, StepCall(img, ty, c, c.control.top, l, t), StepCall(img, ty, c', c'.control.top, l, t'))
  {
    hide SamePending, DeafPending, Invoke, Within, Flows;
    var top, top', deaf := c.control.top, c'.control.top, DeafPending(c.pending);
    match l.instr
    case InlineParam0(off) =>
      if |top.params| >= 1 {
        SameOps(ty, da, top, top', deaf, top.ops + [Wrap32(top.params[0] + off)], l.next);
      }
    case Call(withParam0, target) =>
      if !withParam0 {
        SameInvoke(img, ty, da, c, c', top, top', l.next, target, t, t');
      } else if |top.params| >= 1 {
        var ops := top.ops + [top.params[0]];
        SameInvoke(img, ty, da, c, c', top.(ops := ops), top'.(ops := ops), l.next, target, t, t');
      }
    case CallVirtual(slot, argc) =>
      if 1 <= argc <= |top.ops| {
        var target := img.resolve(c.w, top.ops[|top.ops| - argc], slot);
        if GoodTarget(img, ty, top.pc, l.next, argc, target) {
          SameInvoke(img, ty, da, c, c', top, top', l.next, target, t, t');
        }
      }
  }

  lemma SameNative(img: Image, ty: Typing, da: Stored, c: Config, c': Config, l: Line)
    requires Stepping(img, ty, da, c, c', l) && l.instr.CallNative? && DeafNatives(img, ty)
    ensures SameOutcome(ty, da, StepNative(img, c, c.control.top, l), StepNative(img, c', c'.control.top, l))
  {
    hide SamePending, DeafPending, Within, Flows, DeafAct, Leave;
    var top, top' := c.control.top, c'.control.top;
    SameLeave(ty, da, c, c', c.w, ERR_MISSING_NATIVE);
    SameEnd(ty, da, top, top', DeafPending(c.pending));
    SameOps(ty, da, top, top', DeafPending(c.pending), top.ops, l.next);
  }

  lemma SameReturn(img: Image, ty: Typing, da: Stored, c: Config, c': Config, l: Line)
    requires Stepping(img, ty, da, c, c', l) && l.instr.Return? && c.control.top.meth in ty.kind
    requires l.instr.results == ty.kind[c.control.top.meth] && l.instr.results <= |c.control.top.ops|
    requires c.control.top.caller.Frame? ==> c.control.top.caller.pc in da
    ensures var n := l.instr.results;
            SameOutcome(ty, da, Unwind(c, c.control.top, n), Unwind(c', c'.control.top, n))
  {
    hide SamePending, DeafPending, Within, Leave;
    var top, top', n := c.control.top, c'.control.top, l.instr.results;
    var result := top.ops[|top.ops| - n..];
    if top.caller.Base? {
      DeafLeave(ty, da, c, c', c.w, EntryValue(result, top.caller.below), EntryValue(result, top'.caller.below));
    } else {
      WithinSelf(da, top.caller.pc);
      SameOps(ty, da, top.caller, top'.caller, DeafPending(c.pending), top.caller.ops + result, top.caller.pc);
    }
  }

  lemma WithinSelf(da: Stored, pc: int)
    requires pc in da
    ensures Within(da, pc, da[pc])
  {
  }

  lemma SameEnter(img: Image, ty: Typing, da: Stored, w: World, vmsp: int, p: Pending, p': Pending, target: int,
                  args: seq<int>, t: Tick, t': Tick)
    requires Definite(img, ty, da) && SamePending(ty, da, p, p')
    requires (t != [] && t' != [] && t[0] == t'[0]) || (target in ty.kind && (ty.kind[target] == 0 ==> DeafPending(p)))
    ensures SameOutcome(ty, da, Enter(img, ty, w, vmsp, p, target, args, t),
                        Enter(img, ty, w, vmsp, p', target, args, t'))
  {
    hide SamePending, DeafPending, LineStored, Leave, Within;
    if target in img.heads && target in ty.kind && img.heads[target].params == |args| {
      var n := 1 + img.heads[target].locals;
      NoneStored(da, target + 2, Fit(t, n)[1..], Fit(t', n)[1..]);
    } else {
      var any := Base(0, 0);
      SameLeave(ty, da, Config(w, vmsp, Executing(any), p), Config(w, vmsp, Executing(any), p'), w,
                ERR_INVALID_METHOD_PARAMS);
    }
  }

  lemma SameAct(img: Image, ty: Typing, da: Stored, c: Config, c': Config, t: Tick, t': Tick)
    requires Same(ty, da, c, c') && c.control.Native? && Definite(img, ty, da)
    requires c.control.top.Frame? && c.control.top.pc in da
    ensures SameOutcome(ty, da, StepAct(img, ty, c, t), StepAct(img, ty, c', t'))
  {
    hide DeafAct, Enter, NativeResult, Definite, DeafResume, Deaf;
    var top, top', argc, n := c.control.top, c'.control.top, c.control.argc, c.control.results;
    match c.control.act
    case CallBack(w, target, args, resume) =>
      DeafOpen(ty, c.control.act);
      var p, p' := Waiting(top, argc, n, resume, c.pending), Waiting(top', argc, n, resume, c'.pending);
      if target in ty.kind {
        SameEnter(img, ty, da, w, c.vmsp, p, p', target, args, t, t');
      } else {
        NoEntry(img, ty, w, c.vmsp, p, p', target, args, t, t');
      }
    case Finish(lo, hi, w) =>
      if n <= 2 && argc <= |top.ops| {
        WithinSelf(da, top.pc);
        SameOps(ty, da, top, top', DeafPending(c.pending), top.ops[..|top.ops| - argc] + NativeResult(lo, hi, n),
                top.pc);
      }
  }

  lemma NoEntry(img: Image, ty: Typing, w: World, vmsp: int, p: Pending, p': Pending, target: int, args: seq<int>,
                t: Tick, t': Tick)
    requires target !in ty.kind
    ensures Enter(img, ty, w, vmsp, p, target, args, t) == BadTarget == Enter(img, ty, w, vmsp, p', target, args, t')
  {
  }

  // ----- every step, every run

  lemma SameExecuting(img: Image, ty: Typing, da: Stored, c: Config, c': Config, t: Tick, t': Tick)
    requires WellFormed(img, ty) && Typed(img, ty, c) && Definite(img, ty, da) && DeafNatives(img, ty)
    requires Same(ty, da, c, c') && c.control.Executing?
    ensures SameOutcome(ty, da, Move(img, ty, c, t), Move(img, ty, c', t'))
  {
    hide WellFormed, Typed, Definite, DeafNatives, Same, LineStored, StepSimple, StepVar, StepNative, StepCall, Unwind,
      Leave, LineOk, SameOutcome, SamePending, SameStack;
    TopOk(img, ty, c);
    SameParts(img, ty, da, c, c');
    var top := c.control.top;
    var l := img.lines[top.pc];
    SameLeave(ty, da, c, c', c.w, ERR_NULL_POINTER);
    SameLeave(ty, da, c, c', c.w, ERR_STACK_OVERFLOW);
    SameLeave(ty, da, c, c', c.w, ERR_UNKNOWN_OPCODE);
    if Simple(l.instr) {
      SameSimple(img, ty, da, c, c', l);
    } else if l.instr.LoadVar? || l.instr.StoreVar? {
      SameVar(img, ty, da, c, c', l);
    } else if l.instr.CallNative? {
      SameNative(img, ty, da, c, c', l);
    } else if l.instr.Return? {
      ReturnParts(img, ty, da, c);
      SameReturn(img, ty, da, c, c', l);
    } else if !l.instr.Unknown? {
      CallParts(img, ty, top.pc);
      SameCall(img, ty, da, c, c', l, t, t');
    }
  }

  lemma SameParts(img: Image, ty: Typing, da: Stored, c: Config, c': Config)
    requires Typed(img, ty, c) && WellFormed(img, ty) && Definite(img, ty, da) && Same(ty, da, c, c')
    requires c.control.Executing? && c.control.top.Frame? && c.control.top.pc in ty.at
    ensures var top := c.control.top;
            && top.pc in img.lines && c'.control.Executing? && Stepping(img, ty, da, c, c', img.lines[top.pc])
            && c'.control.top.pc == top.pc && c'.control.top.ops == top.ops && End(c'.control.top) == End(top)
    ensures c'.w == c.w && c'.vmsp == c.vmsp && SamePending(ty, da, c.pending, c'.pending)
  {
    hide Typed, WellFormed, SamePending, LineStored;
    SameEnd(ty, da, c.control.top, c'.control.top, DeafPending(c.pending));
  }

  lemma ReturnParts(img: Image, ty: Typing, da: Stored, c: Config)
    requires WellFormed(img, ty) && Typed(img, ty, c) && Definite(img, ty, da) && c.control.Executing?
    requires var top := c.control.top; top.Frame? && top.pc in img.lines && img.lines[top.pc].instr.Return?
    ensures var top := c.control.top;
            && top.meth in ty.kind && img.lines[top.pc].instr.results == ty.kind[top.meth] <= |top.ops|
            && (top.caller.Frame? ==> top.caller.pc in da)
  {
    hide LineStored;
    assert LineOk(img, ty, c.control.top.pc);
    assert StackOk(img, ty, c.control.top.caller, ty.kind[c.control.top.meth]);
  }

  lemma CallParts(img: Image, ty: Typing, pc: int)
    requires WellFormed(img, ty) && pc in ty.at && LineOk(img, ty, pc)
    ensures img.lines[pc].instr.Call? ==> img.lines[pc].instr.target in ty.kind
  {
  }

  lemma NativeParts(img: Image, ty: Typing, da: Stored, c: Config)
    requires Typed(img, ty, c) && Definite(img, ty, da) && c.control.Native?
    ensures c.control.top.Frame? && (c.control.top.pc in ty.at ==> c.control.top.pc in da)
    ensures c.control.top.pc in ty.at
  {
    hide LineStored;
  }

  /** Both overrun the stack or neither. */
  lemma SameOverruns(img: Image, ty: Typing, da: Stored, c: Config, c': Config)
    requires Same(ty, da, c, c') && c.control.top.Frame?
    ensures Overruns(img, ty, c') <==> Overruns(img, ty, c)
  {
    hide Reach, SamePending, SameLocals, SameBase;
    SameEnd(ty, da, c.control.top, c'.control.top, DeafPending(c.pending));
  }

  lemma TopFrame(img: Image, ty: Typing, c: Config)
    requires Typed(img, ty, c)
    ensures c.control.top.Frame?
  {
  }

  /** Two configurations that differ only in cells never stored step to such configurations, whatever new frames
      find. */
  lemma StepSame(img: Image, ty: Typing, da: Stored, c: Config, c': Config, t: Tick, t': Tick)
    requires WellFormed(img, ty) && Typed(img, ty, c) && Definite(img, ty, da) && DeafNatives(img, ty)
    requires Same(ty, da, c, c')
    ensures SameOutcome(ty, da, Step(img, ty, c, t), Step(img, ty, c', t'))
  {
    hide WellFormed, Typed, Definite, DeafNatives, Overruns, StepExecuting, StepAct, SamePending, SameStack, DeafAct;
    TopFrame(img, ty, c);
    SameOverruns(img, ty, da, c, c');
    if c.control.Native? {
      NativeParts(img, ty, da, c);
      SameAct(img, ty, da, c, c', t, t');
    } else {
      SameExecuting(img, ty, da, c, c', t, t');
    }
  }

  /** No run depends on them. */
  lemma {:induction false} RunSame(img: Image, ty: Typing, da: Stored, c: Config, c': Config, ticks: seq<Tick>,
                                   ticks': seq<Tick>)
    requires WellFormed(img, ty) && Typed(img, ty, c) && Definite(img, ty, da) && DeafNatives(img, ty)
    requires Same(ty, da, c, c') && |ticks| == |ticks'|
    ensures SameOutcome(ty, da, Run(img, ty, c, ticks), Run(img, ty, c', ticks'))
    decreases |ticks|
  {
    hide WellFormed, Typed, Definite, DeafNatives, Step, Same;
    if ticks != [] {
      StepSame(img, ty, da, c, c', ticks[0], ticks'[0]);
      StepTyped(img, ty, c, ticks[0]);
      var o, o' := Step(img, ty, c, ticks[0]), Step(img, ty, c', ticks'[0]);
      if o.Next? {
        RunSame(img, ty, da, o.c, o'.c, ticks[1..], ticks'[1..]);
      }
    }
  }
}

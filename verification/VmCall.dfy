/** What the simulation means for vmCall as a whole: its value, its stack
    discipline, its saved-pointer chain and its re-entrancy. */
module VmCall {
  import opened Alu
  import opened Image
  import opened FrameMachine
  import opened Simulation
  import opened StackEnd
  import E = Evaluator
  import F = FlatMachine
  import S = Staleness

  /** vmCall on a cell array with the free cells after index `vmsp`, for at most `fuel` steps. */
  ghost function Call(img: Image, mem: seq<int>, vmsp: int, w: World, target: int, args: seq<int>, fuel: nat)
    : F.Outcome
  {
    F.Continue(img, F.Enter(img, mem, vmsp, w, F.Outside, target, args), fuel)
  }

  /** What untouched locals behind the last cell are taken to hold. */
  function Behind(): seq<int> { seq(RED_ZONE, _ => 0) }

  /** The cell under the arguments, then the cells the entry method's locals will name. */
  function EntryCells(mem: seq<int>, vmsp: int, args: seq<int>): seq<int>
    requires 0 <= vmsp < |mem|
  {
    [mem[vmsp]] + From(mem + Behind(), vmsp + |args| + 4)
  }

  /** What the evaluator cannot know, read off the cell array at every step of the run: the stale cells that a new
      frame's locals name. */
  ghost function Oracle(img: Image, mem: seq<int>, vmsp: int, w: World, target: int, args: seq<int>, fuel: nat)
    : (t: seq<Tick>)
    ensures |t| == fuel
  {
    var o := F.Enter(img, mem, vmsp, w, F.Outside, target, args);
    if o.Next? then TicksOf(img, o.s, Behind(), fuel) else seq(fuel, _ => [])
  }

  lemma EntryMatches(img: Image, ty: Typing, mem: seq<int>, vmsp: int, w: World, target: int, args: seq<int>)
    requires target in ty.kind && target in img.heads && SmallHeads(img)
    requires |mem| == img.stackMax && 0 <= vmsp < img.stackMax
    ensures OnArray(img, mem, vmsp + 1, Behind(), F.Enter(img, mem, vmsp, w, F.Outside, target, args),
                    Begin(img, ty, w, vmsp, Nobody, target, args, EntryCells(mem, vmsp, args)))
  {
    hide F.Enter, Enter, Matches, Inside;
    var s := F.Flat(mem, vmsp, w, F.Running(F.Regs(0, 0, 0, 0, 0, 0, 0)), F.Outside);
    EnterCut(img, s, Behind(), w, F.Outside, target, args);
    EnterMatches(img, ty, mem + Behind(), vmsp, w, F.Outside, Nobody, target, args, vmsp + 1);
    if !BeginOverruns(img, ty, vmsp, target, args) {
      var a := Enter(img, ty, w, vmsp, Nobody, target, args, EntryCells(mem, vmsp, args));
      EnterInside(img, ty, w, vmsp, Nobody, target, args, EntryCells(mem, vmsp, args));
      EnterGoes(img, ty, w, vmsp, target, args, EntryCells(mem, vmsp, args));
      CutBack(img, mem, Behind(), vmsp + 1, F.Enter(img, mem, vmsp, w, F.Outside, target, args),
              F.Enter(img, mem + Behind(), vmsp, w, F.Outside, target, args), a);
    }
  }

  lemma EnterGoes(img: Image, ty: Typing, w: World, vmsp: int, target: int, args: seq<int>, stale: Tick)
    ensures !Enter(img, ty, w, vmsp, Nobody, target, args, stale).Overrun?
  {
  }

  /** The outcome of a flat run is the evaluator's answer, astray where the evaluator says the stack overran; after a
      BadCall the run is outside the typing. */
  ghost predicate Answers(o: F.Outcome, r: E.Result) {
    match r
    case Returned(cells, w, vmsp, _) => o.Halt? && |cells| == 1 && o.value == cells[0] && o.w == w && o.vmsp == vmsp
    case Failed(code, w, vmsp, _) => o.Halt? && o.value == code && o.w == w && o.vmsp == vmsp
    case OutOfTicks => o.Next?
    case Broken(why) => why.BadCall? || (why.Faulted? && o.Fault?) || (why.Overran? && o.Wild?)
  }

  lemma WellFormedParts(img: Image, ty: Typing, target: int)
    requires WellFormed(img, ty) && target in ty.kind
    ensures SmallHeads(img) && target in img.heads
  {
  }

  /** vmCall is the frame machine's run, on the stale cells the array holds. */
  lemma CallIsRun(img: Image, ty: Typing, mem: seq<int>, vmsp: int, w: World, target: int, args: seq<int>, fuel: nat)
    requires WellFormed(img, ty) && target in ty.kind
    requires |mem| == img.stackMax && 0 <= vmsp < img.stackMax
    ensures var a := Begin(img, ty, w, vmsp, Nobody, target, args, EntryCells(mem, vmsp, args));
            && OnArray(img, mem, 0, Behind(), Call(img, mem, vmsp, w, target, args, fuel),
                       Continue(img, ty, a, Oracle(img, mem, vmsp, w, target, args, fuel)))
            && (a.Next? ==> Typed(img, ty, a.c))
  {
    hide WellFormed, Typed, Pictures, F.Step, Step, Begin, F.Enter, Run, F.Run, EntryCells, TicksOf;
    var stale := EntryCells(mem, vmsp, args);
    var o := F.Enter(img, mem, vmsp, w, F.Outside, target, args);
    WellFormedParts(img, ty, target);
    EntryTyped(img, ty, w, vmsp, target, args, stale);
    EntryMatches(img, ty, mem, vmsp, w, target, args);
    var a := Begin(img, ty, w, vmsp, Nobody, target, args, stale);
    if a.Next? {
      RunMatches(img, ty, o.s, Behind(), a.c, fuel);
    }
  }

  /** Whole runs: for every well-formed image, method, arguments, array contents and number of steps, vmCall's value
      and final world are those of the recursive evaluator, told what new frames find in their locals. */
  lemma CallOnCells(img: Image, ty: Typing, mem: seq<int>, vmsp: int, w: World, target: int, args: seq<int>, fuel: nat)
    requires WellFormed(img, ty) && target in ty.kind
    requires |mem| == img.stackMax && 0 <= vmsp < img.stackMax
    ensures Answers(Call(img, mem, vmsp, w, target, args, fuel),
                    E.EvalMethod(img, ty, target, args, w, vmsp, EntryCells(mem, vmsp, args),
                                 Oracle(img, mem, vmsp, w, target, args, fuel)))
  {
    hide WellFormed, Typed, Pictures, Begin, Run, F.Run, E.EvalMethod, EntryCells, Oracle, Call, Continue;
    var stale := EntryCells(mem, vmsp, args);
    var ticks := Oracle(img, mem, vmsp, w, target, args, fuel);
    CallIsRun(img, ty, mem, vmsp, w, target, args, fuel);
    E.EnterIsEval(img, ty, w, vmsp, target, args, stale, ticks);
    NotStuck(img, ty, w, vmsp, target, args, stale, ticks);
  }

  lemma NotStuck(img: Image, ty: Typing, w: World, vmsp: int, target: int, args: seq<int>, stale: seq<int>,
                 ticks: seq<Tick>)
    requires WellFormed(img, ty) && target in ty.kind
    ensures !Continue(img, ty, Begin(img, ty, w, vmsp, Nobody, target, args, stale), ticks).Stuck?
  {
    hide WellFormed, Typed, Begin, Run;
    EntryTyped(img, ty, w, vmsp, target, args, stale);
    var a := Begin(img, ty, w, vmsp, Nobody, target, args, stale);
    if a.Next? {
      RunTyped(img, ty, a.c, ticks);
    }
  }

  // ----- the answer does not depend on the array -----

  function Blank(n: nat): (ticks: seq<Tick>)
    ensures |ticks| == n
  {
    seq(n, _ => [])
  }

  /** What a vmCall can answer out of the array: the cell below the arguments, when its method is void. */
  function Below(ty: Typing, mem: seq<int>, vmsp: int, target: int): seq<int>
    requires target in ty.kind && 0 <= vmsp < |mem|
  {
    if ty.kind[target] == 0 then [mem[vmsp]] else []
  }

  lemma EntrySame(img: Image, ty: Typing, da: S.Stored, mem: seq<int>, vmsp: int, w: World, target: int,
                  args: seq<int>)
    requires S.Definite(img, ty, da) && target in ty.kind && 0 <= vmsp < |mem|
    ensures S.SameOutcome(ty, da, Begin(img, ty, w, vmsp, Nobody, target, args, EntryCells(mem, vmsp, args)),
                          Begin(img, ty, w, vmsp, Nobody, target, args, Below(ty, mem, vmsp, target)))
  {
    hide S.Definite, Enter, S.SameOutcome, BeginOverruns;
    var t, t' := EntryCells(mem, vmsp, args), Below(ty, mem, vmsp, target);
    if !BeginOverruns(img, ty, vmsp, target, args) {
      S.SameEnter(img, ty, da, w, vmsp, Nobody, Nobody, target, args, t, t');
    } else {
      SameOverrun(ty, da);
    }
  }

  lemma SameOverrun(ty: Typing, da: S.Stored)
    ensures S.SameOutcome(ty, da, Overrun, Overrun)
  {
  }

  /** The flat outcome is that of the frames; after a BadTarget the run is outside the typing. */
  ghost predicate Ends(o: F.Outcome, a: Outcome) {
    match a
    case Next(_) => o.Next?
    case Halt(v, w, vmsp) => o.Halt? && o.value == v && o.w == w && o.vmsp == vmsp
    case Fault => o.Fault?
    case Overrun => o.Wild?
    case BadTarget => true
    case Stuck => false
  }

  lemma CallIsFrames(img: Image, ty: Typing, da: S.Stored, mem: seq<int>, vmsp: int, w: World, target: int,
                     args: seq<int>, fuel: nat)
    requires WellFormed(img, ty) && S.Definite(img, ty, da) && S.DeafNatives(img, ty) && target in ty.kind
    requires |mem| == img.stackMax && 0 <= vmsp < img.stackMax
    ensures Ends(Call(img, mem, vmsp, w, target, args, fuel),
                 Continue(img, ty, Begin(img, ty, w, vmsp, Nobody, target, args, Below(ty, mem, vmsp, target)),
                          Blank(fuel)))
  {
    hide WellFormed, Typed, Pictures, Begin, Run, F.Run, EntryCells, Oracle, Call, S.Definite, S.DeafNatives, S.Same,
      Below, Blank;
    var stale, below := EntryCells(mem, vmsp, args), Below(ty, mem, vmsp, target);
    var ticks := Oracle(img, mem, vmsp, w, target, args, fuel);
    CallIsRun(img, ty, mem, vmsp, w, target, args, fuel);
    EntrySame(img, ty, da, mem, vmsp, w, target, args);
    NotStuck(img, ty, w, vmsp, target, args, stale, ticks);
    var a, a' := Begin(img, ty, w, vmsp, Nobody, target, args, stale),
                 Begin(img, ty, w, vmsp, Nobody, target, args, below);
    if a.Next? {
      S.RunSame(img, ty, da, a.c, a'.c, ticks, Blank(fuel));
    }
  }

  /** When locals are stored before they are loaded and natives do not listen to void callbacks: for every method,
      arguments, array contents and number of steps, vmCall answers, stops, fails and goes astray as the recursive
      evaluator says, from the world, vm->sp and, for a void method, the one cell below the arguments. */
  lemma CallIsEval(img: Image, ty: Typing, da: S.Stored, mem: seq<int>, vmsp: int, w: World, target: int,
                   args: seq<int>, fuel: nat)
    requires WellFormed(img, ty) && S.Definite(img, ty, da) && S.DeafNatives(img, ty) && target in ty.kind
    requires |mem| == img.stackMax && 0 <= vmsp < img.stackMax
    ensures Answers(Call(img, mem, vmsp, w, target, args, fuel),
                    E.EvalMethod(img, ty, target, args, w, vmsp, Below(ty, mem, vmsp, target), Blank(fuel)))
  {
    hide WellFormed, Begin, Continue, E.EvalMethod, Call, S.Definite, S.DeafNatives, Below, Blank;
    CallIsFrames(img, ty, da, mem, vmsp, w, target, args, fuel);
    E.EnterIsEval(img, ty, w, vmsp, target, args, Below(ty, mem, vmsp, target), Blank(fuel));
  }

  // ----- spare cells behind the overflow limit -----

  /** The frames of a vmCall on such an array. */
  ghost function SpareCallFrames(img: Image, ty: Typing, mem: seq<int>, vmsp: int, w: World, target: int,
                                 args: seq<int>, fuel: nat): Outcome
    requires 0 <= vmsp < |mem|
  {
    var a := Enter(img, ty, w, vmsp, Nobody, target, args, [mem[vmsp]] + From(mem, vmsp + |args| + 4));
    var o := F.Enter(img, mem, vmsp, w, F.Outside, target, args);
    if a.Next? && o.Next? then SpareFrames(img, ty, o.s, a.c, fuel) else a
  }

  /** No vmCall goes astray then, whatever it is given. */
  lemma SpareCall(img: Image, ty: Typing, mem: seq<int>, vmsp: int, w: World, target: int, args: seq<int>, fuel: nat)
    requires WellFormed(img, ty) && target in ty.kind && |mem| == img.stackMax + RED_ZONE && 0 <= vmsp < img.stackMax
    ensures Call(img, mem, vmsp, w, target, args, fuel).Wild? ==>
              SpareCallFrames(img, ty, mem, vmsp, w, target, args, fuel).BadTarget?
  {
    hide WellFormed, Typed, Rel, Enter, F.Enter, F.Run, SpareFrames;
    WellFormedParts(img, ty, target);
    var stale := [mem[vmsp]] + From(mem, vmsp + |args| + 4);
    EnterMatches(img, ty, mem, vmsp, w, F.Outside, Nobody, target, args, vmsp + 1);
    EnterTyped(img, ty, w, vmsp, Nobody, target, args, stale);
    var a := Enter(img, ty, w, vmsp, Nobody, target, args, stale);
    EnterGoes(img, ty, w, vmsp, target, args, stale);
    if a.Next? {
      SpareRun(img, ty, F.Enter(img, mem, vmsp, w, F.Outside, target, args).s, a.c, fuel);
    }
  }

  // ----- stack discipline -----

  /** The debug build's imbalance warning fires on a return exactly when the typed height there is not the result's
      size. */
  lemma ImbalanceExact(img: Image, ty: Typing, s: F.Flat, pad: seq<int>, c: Config)
    requires WellFormed(img, ty) && Typed(img, ty, c) && Pictures(img, s, pad, c) && c.control.Executing?
    requires c.control.top.pc in img.lines && img.lines[c.control.top.pc].instr.Return?
    ensures var pc := c.control.top.pc;
            F.Imbalanced(s.mode.r, img.lines[pc].instr.results) <==> ty.at[pc].height != img.lines[pc].instr.results
  {
    hide PendingLaid, LineOk, CellsAt;
    TopFits(img, ty, c, c.control.top);
    PlacedRegs(img, s.mem + pad, s.mode.r, c.control.top, s.chain, c.pending);
  }

  predicate BalancedReturns(img: Image, ty: Typing) {
    forall pc | pc in ty.at && pc in img.lines && img.lines[pc].instr.Return? ::
      ty.at[pc].height == img.lines[pc].instr.results
  }

  /** No run of an image whose returns are balanced ever reaches a warning. */
  lemma NeverWarns(img: Image, ty: Typing, s: F.Flat, pad: seq<int>, c: Config, fuel: nat)
    requires WellFormed(img, ty) && BalancedReturns(img, ty) && Typed(img, ty, c) && Pictures(img, s, pad, c)
    requires F.Run(img, s, fuel).Next? && !Run(img, ty, c, TicksOf(img, s, pad, fuel)).BadTarget?
    ensures var s' := F.Run(img, s, fuel).s;
            s'.mode.Running? && s'.mode.r.cp in img.lines && img.lines[s'.mode.r.cp].instr.Return? ==>
              s'.mode.r.sp - img.lines[s'.mode.r.cp].instr.results + 1 == s'.mode.r.lp + s'.mode.r.numLocals
  {
    hide WellFormed, Typed, Pictures, TicksOf, Run, F.Run;
    RunMatches(img, ty, s, pad, c, fuel);
    RunTyped(img, ty, c, TicksOf(img, s, pad, fuel));
    var s', c' := F.Run(img, s, fuel).s, Run(img, ty, c, TicksOf(img, s, pad, fuel)).c;
    RunningPc(img, ty, s', pad, c');
    if s'.mode.Running? && s'.mode.r.cp in img.lines && img.lines[s'.mode.r.cp].instr.Return? {
      ImbalanceExact(img, ty, s', pad, c');
    }
  }

  lemma RunningPc(img: Image, ty: Typing, s: F.Flat, pad: seq<int>, c: Config)
    requires Typed(img, ty, c) && Pictures(img, s, pad, c)
    ensures s.mode.Running? <==> c.control.Executing?
    ensures c.control.Executing? ==> s.mode.r.cp == c.control.top.pc && c.control.top.pc in ty.at
  {
    hide Laid, PendingLaid;
  }

  // ----- the saved frame pointers -----

  /** The walk `for (; fp; fp = fp[1])` that prints a call stack, for at most n frames. */
  ghost function FpWalk(img: Image, mem: seq<int>, fp: int, n: nat): seq<int>
    decreases n
  {
    if n == 0 then []
    else if !InRange(mem, fp + 1, 1) || mem[fp + 1] == 0 then [fp]
    else [fp] + FpWalk(img, mem, StackIndex(img, mem[fp + 1]), n - 1)
  }

  function Depth(s: Stack): nat { if s.Base? then 0 else 1 + Depth(s.caller) }

  /** The frames' own pointers, innermost first. */
  function Fps(s: Stack): (fps: seq<int>)
    ensures |fps| == Depth(s)
  {
    if s.Base? then [] else [End(s.caller) + |s.params|] + Fps(s.caller)
  }

  /** The fp of a frame, three cells below its locals. */
  lemma FpOfFrame(img: Image, mem: seq<int>, s: Stack, end: int)
    requires s.Frame? && Laid(img, mem, s, end)
    ensures Fps(s) == [FpOf(s, end)] + Fps(s.caller) && Laid(img, mem, s.caller, StartOf(s, end))
  {
    hide CellsAt;
    LaidEnd(img, mem, s, end);
  }

  /** From the innermost frame the saved pointers lead through exactly the frames of this vmCall, each entry the fp of
      that frame, and end at the entry frame. */
  lemma {:induction false} WalkIsFps(img: Image, mem: seq<int>, pad: seq<int>, s: Stack, end: int, n: nat)
    requires s.Frame? && Laid(img, mem + pad, s, end) && img.stackBase > 0 && n >= Depth(s)
    requires FpOf(s, end) + 3 <= |mem|
    ensures FpWalk(img, mem, FpOf(s, end), n) == Fps(s)
    decreases s
  {
    hide StackIndex, StackCell;
    var start, fp := StartOf(s, end), FpOf(s, end);
    FpOfFrame(img, mem + pad, s, end);
    BaseEndBelow(img, mem + pad, s, end);
    assert (mem + pad)[fp + 1] == mem[fp + 1] == SavedFp(img, s.caller, start);
    if s.caller.Frame? {
      BaseEndBelow(img, mem + pad, s.caller, start);
      WalkIsFps(img, mem, pad, s.caller, start, n - 1);
      StackRoundTrip(img, FpOf(s.caller, start));
      assert StackCell(img, FpOf(s.caller, start)) > 0 by { AboveZero(img, mem + pad, s.caller, start); }
    }
  }

  lemma AboveZero(img: Image, mem: seq<int>, s: Stack, end: int)
    requires s.Frame? && Laid(img, mem, s, end) && img.stackBase > 0
    ensures StackCell(img, FpOf(s, end)) > 0
  {
  }

  /** They descend by at least three cells each and stay above the entry's first parameter. */
  lemma {:induction false} FpsDescend(img: Image, mem: seq<int>, s: Stack, end: int)
    requires s.Frame? && Laid(img, mem, s, end)
    ensures forall i | 0 <= i < |Fps(s)| :: BaseEnd(s, end) <= Fps(s)[i] <= FpOf(s, end)
    ensures forall i | 0 < i < |Fps(s)| :: Fps(s)[i] + 3 <= Fps(s)[i - 1]
    decreases s
  {
    hide CellsAt;
    var start := StartOf(s, end);
    FpOfFrame(img, mem, s, end);
    BaseEndBelow(img, mem, s, end);
    if s.caller.Frame? {
      FpOfFrame(img, mem, s.caller, start);
      FpsDescend(img, mem, s.caller, start);
    }
  }

  lemma FpChainDescends(img: Image, ty: Typing, s: F.Flat, pad: seq<int>, c: Config, n: nat)
    requires Pictures(img, s, pad, c) && c.control.Executing? && img.stackBase > 0 && n >= Depth(c.control.top)
    ensures var walk := FpWalk(img, s.mem, s.mode.r.fp, n);
            && walk == Fps(c.control.top) && |walk| == Depth(c.control.top)
            && (forall i | 0 <= i < |walk| :: Floor(s, c) <= walk[i])
            && forall i | 0 < i < |walk| :: walk[i] + 3 <= walk[i - 1]
  {
    hide PendingLaid, CellsAt;
    var r, top := s.mode.r, c.control.top;
    PlacedRegs(img, s.mem + pad, r, top, s.chain, c.pending);
    WalkIsFps(img, s.mem, pad, top, r.sp + 1, n);
    FpsDescend(img, s.mem + pad, top, r.sp + 1);
  }

  // ----- re-entrancy -----

  /** `k` is `chain` or a call suspended under it. */
  ghost predicate Above(chain: F.Chain, k: F.Chain) {
    chain == k || (chain.Within? && Above(chain.outer, k))
  }

  /** The vmCall that a native's callback starts runs above that native. */
  lemma CallbackAbove(img: Image, s: F.Flat)
    requires s.mode.InNative? && s.mode.act.CallBack? && F.Step(img, s).Next? && F.Step(img, s).s.mode.Running?
    ensures var k := F.Within(s.mode.caller, s.mode.argc, s.mode.results, s.mode.act.resume, s.chain);
            F.Step(img, s).s.chain == k && Above(F.Step(img, s).s.chain, k)
  {
  }

  lemma {:induction false} FloorAbove(img: Image, mem: seq<int>, chain: F.Chain, p: Pending, limit: int, k: F.Chain)
    requires PendingLaid(img, mem, chain, p, limit) && Above(chain, k) && k.Within?
    ensures k.r.sp + 1 <= limit
    decreases p
  {
    if chain != k {
      BaseEndBelow(img, mem, p.top, chain.r.sp + 1);
      FloorAbove(img, mem, chain.outer, p.outer, BaseEnd(p.top, chain.r.sp + 1), k);
    }
  }

  /** The native that was waiting in `k` is back in control. */
  ghost predicate Resumed(s: F.Flat, k: F.Chain) {
    && k.Within? && s.chain == k.outer && s.mode.InNative?
    && s.mode.caller == k.r && s.mode.argc == k.argc && s.mode.results == k.results
    && exists v :: s.mode.act == k.resume(v, s.w)
  }

  ghost predicate ChainMoved(s: F.Flat, s': F.Flat) {
    || s'.chain == s.chain
    || (s.mode.InNative? && s'.mode.Running? && s'.chain.Within? && s'.chain.outer == s.chain)
    || Resumed(s', s.chain)
  }

  lemma StepChain(img: Image, s: F.Flat)
    ensures F.Step(img, s).Next? ==> ChainMoved(s, F.Step(img, s).s)
    ensures F.Step(img, s).Halt? ==> s.chain.Outside?
  {
    hide Put, Perform, InRange, Resumed;
    var o := F.Step(img, s);
    forall mem, vmsp, w, v | F.Leave(mem, vmsp, w, s.chain, v).Next?
      ensures Resumed(F.Leave(mem, vmsp, w, s.chain, v).s, s.chain)
    {
      LeaveResumes(mem, vmsp, w, s.chain, v);
    }
  }

  lemma LeaveResumes(mem: seq<int>, vmsp: int, w: World, chain: F.Chain, v: int)
    requires F.Leave(mem, vmsp, w, chain, v).Next?
    ensures Resumed(F.Leave(mem, vmsp, w, chain, v).s, chain)
  {
    assert F.Leave(mem, vmsp, w, chain, v).s.mode.act == chain.resume(v, w);
  }

  lemma FloorFacts(img: Image, s: F.Flat, pad: seq<int>, c: Config)
    requires Pictures(img, s, pad, c) && c.control.top.Frame?
    ensures Floor(s, c) <= RegsIn(s.mode).sp + 1 && Floor(s, c) <= s.vmsp + 1
    ensures PendingLaid(img, s.mem + pad, s.chain, c.pending, Floor(s, c))
    ensures s.mode.InNative? ==> s.mode.caller.sp <= s.vmsp
  {
    hide PendingLaid, CellsAt;
    BaseEndBelow(img, s.mem + pad, c.control.top, RegsIn(s.mode).sp + 1);
  }

  lemma TypedTop(img: Image, ty: Typing, c: Config)
    requires Typed(img, ty, c)
    ensures c.control.top.Frame?
  {
    hide StackOk, PendingOk;
  }

  lemma NestedStep(img: Image, ty: Typing, s: F.Flat, pad: seq<int>, c: Config, k: F.Chain)
    requires WellFormed(img, ty) && Typed(img, ty, c) && Pictures(img, s, pad, c)
    requires Above(s.chain, k) && k.Within? && !Step(img, ty, c, TickFor(img, Padded(s, pad))).BadTarget?
    ensures !F.Step(img, s).Halt?
    ensures F.Step(img, s).Next? <==> Step(img, ty, c, TickFor(img, Padded(s, pad))).Next?
    ensures F.Step(img, s).Wild? <==> Step(img, ty, c, TickFor(img, Padded(s, pad))).Overrun?
    ensures F.Step(img, s).Next? ==>
            var s' := F.Step(img, s).s;
            && SameBelow(s.mem, s'.mem, k.r.sp + 1) && k.r.sp <= s'.vmsp
            && (Above(s'.chain, k) || Resumed(s', k))
  {
    hide WellFormed, Typed, Pictures, Step, F.Step, PendingLaid, Floor;
    var t := TickFor(img, Padded(s, pad));
    StepMatches(img, ty, s, pad, c);
    StepTyped(img, ty, c, t);
    StepChain(img, s);
    TypedTop(img, ty, c);
    FloorFacts(img, s, pad, c);
    FloorAbove(img, s.mem + pad, s.chain, c.pending, Floor(s, c), k);
    if F.Step(img, s).Next? {
      var s', c' := F.Step(img, s).s, Step(img, ty, c, t).c;
      TypedTop(img, ty, c');
      FloorFacts(img, s', pad, c');
      if Above(s'.chain, k) {
        FloorAbove(img, s'.mem + pad, s'.chain, c'.pending, Floor(s', c'), k);
      }
    }
  }

  /** Runs the callback that suspended `k` until the native of `k` is back in control. */
  ghost function RunNested(img: Image, s: F.Flat, k: F.Chain, fuel: nat): F.Outcome
    decreases fuel
  {
    if fuel == 0 || !Above(s.chain, k) then F.Next(s)
    else
      var o := F.Step(img, s);
      if o.Next? then RunNested(img, o.s, k, fuel - 1) else o
  }

  /** Non-interference, for every run that stays inside the typing: however deep natives and callbacks nest, a
      callback changes no cell at or below the sp its native was called with, hands that native the same
      parameters back, and leaves vm->sp at or above that sp. */
  lemma {:induction false} NestedCallPreserves(img: Image, ty: Typing, s: F.Flat, pad: seq<int>, c: Config, k: F.Chain,
                                               fuel: nat)
    requires WellFormed(img, ty) && Typed(img, ty, c) && Pictures(img, s, pad, c) && Above(s.chain, k) && k.Within?
    requires k.r.sp <= s.vmsp && !Run(img, ty, c, TicksOf(img, s, pad, fuel)).BadTarget?
    ensures !RunNested(img, s, k, fuel).Halt?
    ensures RunNested(img, s, k, fuel).Wild? ==> Run(img, ty, c, TicksOf(img, s, pad, fuel)).Overrun?
    ensures RunNested(img, s, k, fuel).Next? ==>
            var s' := RunNested(img, s, k, fuel).s;
            && SameBelow(s.mem, s'.mem, k.r.sp + 1) && k.r.sp <= s'.vmsp
            && (Above(s'.chain, k) || Resumed(s', k))
    decreases fuel
  {
    hide WellFormed, Typed, Pictures, Step, F.Step, Resumed, TickFor, Floor;
    if fuel > 0 {
      var ticks := TicksOf(img, s, pad, fuel);
      NestedStep(img, ty, s, pad, c, k);
      StepMatches(img, ty, s, pad, c);
      StepTyped(img, ty, c, ticks[0]);
      if F.Step(img, s).Next? {
        var s', c' := F.Step(img, s).s, Step(img, ty, c, ticks[0]).c;
        assert ticks[1..] == TicksOf(img, s', pad, fuel - 1);
        if Above(s'.chain, k) {
          NestedCallPreserves(img, ty, s', pad, c', k, fuel - 1);
        }
      }
    }
  }

  // ----- vm->sp is not restored -----

  /** The running vmCall is about to call a native that exists. */
  predicate CallsNative(img: Image, s: F.Flat) {
    && s.mode.Running? && s.mode.r.cp in img.lines && img.lines[s.mode.r.cp].instr.CallNative?
    && img.hasNative(img.lines[s.mode.r.cp].instr.kit, img.lines[s.mode.r.cp].instr.id)
  }

  /** vm->sp moves only when a native is called, and then to the caller's sp. */
  lemma VmspMoves(img: Image, s: F.Flat)
    requires F.Step(img, s).Next?
    ensures var s' := F.Step(img, s).s;
            s'.vmsp == if CallsNative(img, s) && s'.mode.InNative? && s'.chain == s.chain then s.mode.r.sp else s.vmsp
  {
    hide Put, Perform;
  }
}

/** The cell array is a faithful picture of the frame list: step for step,
    over every run, with natives calling back to any depth. */
module Simulation {
  import opened Alu
  import opened Image
  import opened FrameMachine
  import F = FlatMachine

  // ----- where a frame lies -----

  function FpOf(s: Stack, end: int): int
    requires s.Frame?
  {
    end - |s.ops| - |s.locals| - 3
  }

  function StartOf(s: Stack, end: int): int
    requires s.Frame?
  {
    FpOf(s, end) - |s.params|
  }

  /** One past the cell below the entry method's first parameter. */
  function BaseEnd(s: Stack, end: int): int {
    if s.Base? then end else BaseEnd(s.caller, StartOf(s, end))
  }

  function RegsOf(s: Stack, end: int): F.Regs
    requires s.Frame?
  {
    F.Regs(end - 1, s.pc, FpOf(s, end), StartOf(s, end), FpOf(s, end) + 3, |s.params|, |s.locals|)
  }

  function SavedCp(img: Image, caller: Stack): int { if caller.Base? then 0 else CodeCell(img, caller.pc) }

  function SavedFp(img: Image, caller: Stack, start: int): int {
    if caller.Base? then 0 else StackCell(img, FpOf(caller, start))
  }

  predicate HoldsAt(mem: seq<int>, at: int, ws: seq<int>) {
    0 <= at && at + |ws| <= |mem| && forall k | 0 <= k < |ws| :: mem[at + k] == ws[k]
  }

  /** One frame from `start` on: parameters, return address, saved fp, method, locals, operands. */
  predicate CellsAt(mem: seq<int>, start: int, params: seq<int>, cp: int, fp: int, meth: int, locals: seq<int>,
                    ops: seq<int>)
  {
    var f := start + |params|;
    && 1 <= start && HoldsAt(mem, start, params)
    && f + 3 <= |mem| && mem[f] == cp && mem[f + 1] == fp && mem[f + 2] == meth
    && HoldsAt(mem, f + 3, locals)
    && HoldsAt(mem, f + 3 + |locals|, ops)
  }

  /** `mem[..end]` ends in the frames of `s`. */
  predicate Laid(img: Image, mem: seq<int>, s: Stack, end: int) {
    match s
    case Base(below, at) => end == at && 1 <= end <= |mem| && mem[end - 1] == below
    case Frame(_, _, _, _, _, _) =>
      var start := StartOf(s, end);
      && CellsAt(mem, start, s.params, SavedCp(img, s.caller), SavedFp(img, s.caller, start), CodeCell(img, s.meth),
                 s.locals, s.ops)
      && Laid(img, mem, s.caller, start)
  }

  /** Suspended activations lie below `limit`, in order, each under the one that runs above it. */
  ghost predicate PendingLaid(img: Image, mem: seq<int>, chain: F.Chain, p: Pending, limit: int) {
    match p
    case Nobody => chain.Outside?
    case Waiting(top, argc, results, resume, outer) =>
      && chain.Within? && chain.argc == argc && chain.results == results && chain.resume == resume
      && top.Frame? && chain.r == RegsOf(top, chain.r.sp + 1) && chain.r.sp + 1 <= limit
      && Laid(img, mem, top, chain.r.sp + 1)
      && PendingLaid(img, mem, chain.outer, outer, BaseEnd(top, chain.r.sp + 1))
  }

  ghost predicate Placed(img: Image, mem: seq<int>, r: F.Regs, top: Stack, chain: F.Chain, p: Pending) {
    match top
    case Base(_, _) => false
    case Frame(_, _, _, _, _, _) =>
      && r == RegsOf(top, r.sp + 1) && Laid(img, mem, top, r.sp + 1)
      && PendingLaid(img, mem, chain, p, BaseEnd(top, r.sp + 1))
  }

  /** Cells behind the stack that the source does not have. The frames of a configuration are compared with a longer
      array here; StackEnd cuts it off again. */
  const RED_ZONE: nat := 1024

  predicate Sized(img: Image, s: F.Flat) {
    |s.mem| == img.stackMax + RED_ZONE && 0 <= s.vmsp < img.stackMax
  }

  ghost predicate Rel(img: Image, s: F.Flat, c: Config) {
    match c.control
    case Executing(top) =>
      && Sized(img, s) && s.w == c.w && s.vmsp == c.vmsp
      && s.mode.Running? && Placed(img, s.mem, s.mode.r, top, s.chain, c.pending)
      && BaseEnd(top, s.mode.r.sp + 1) <= s.vmsp + 1
    case Native(act, top, argc, results) =>
      && Sized(img, s) && s.w == c.w && s.vmsp == c.vmsp
      && s.mode.InNative? && s.mode.act == act && s.mode.argc == argc && s.mode.results == results
      && Placed(img, s.mem, s.mode.caller, top, s.chain, c.pending)
      && s.mode.caller.sp <= s.vmsp
  }

  // ----- writes above a frame leave it alone -----

  predicate SameBelow(mem: seq<int>, mem': seq<int>, n: int) {
    |mem| == |mem'| && forall k | 0 <= k < n && k < |mem| :: mem[k] == mem'[k]
  }

  lemma BaseEndBelow(img: Image, mem: seq<int>, s: Stack, end: int)
    requires Laid(img, mem, s, end)
    ensures 1 <= BaseEnd(s, end) <= end <= |mem|
    ensures s.Frame? ==> BaseEnd(s, end) <= StartOf(s, end)
  {
    if s.Frame? { BaseEndBelow(img, mem, s.caller, StartOf(s, end)); }
  }

  /** Where frames end follows from their sizes. */
  lemma {:induction false} LaidEnd(img: Image, mem: seq<int>, s: Stack, end: int)
    requires Laid(img, mem, s, end)
    ensures end == End(s)
  {
    if s.Frame? { LaidEnd(img, mem, s.caller, StartOf(s, end)); }
  }

  lemma {:induction false} LaidFrame(img: Image, mem: seq<int>, mem': seq<int>, s: Stack, end: int)
    requires Laid(img, mem, s, end) && SameBelow(mem, mem', end)
    ensures Laid(img, mem', s, end)
  {
    if s.Frame? {
      var start := StartOf(s, end);
      LaidFrame(img, mem, mem', s.caller, start);
    }
  }

  lemma {:induction false} PendingFrame(img: Image, mem: seq<int>, mem': seq<int>, chain: F.Chain, p: Pending,
                                        limit: int, limit': int)
    requires PendingLaid(img, mem, chain, p, limit) && SameBelow(mem, mem', limit) && limit <= limit'
    ensures PendingLaid(img, mem', chain, p, limit')
    decreases p
  {
    if p.Waiting? {
      var end := chain.r.sp + 1;
      BaseEndBelow(img, mem, p.top, end);
      LaidFrame(img, mem, mem', p.top, end);
      PendingFrame(img, mem, mem', chain.outer, p.outer, BaseEnd(p.top, end), BaseEnd(p.top, end));
    }
  }

  lemma HoldsApart(mem: seq<int>, at: int, ws: seq<int>, lo: int, xs: seq<int>)
    requires InRange(mem, at, |ws|) && HoldsAt(mem, lo, xs) && (at + |ws| <= lo || lo + |xs| <= at)
    ensures HoldsAt(Put(mem, at, ws), lo, xs)
  {
  }

  lemma HoldsWithin(mem: seq<int>, lo: int, xs: seq<int>, i: nat, ws: seq<int>)
    requires HoldsAt(mem, lo, xs) && i + |ws| <= |xs|
    ensures HoldsAt(Put(mem, lo + i, ws), lo, Put(xs, i, ws))
  {
  }

  lemma HoldsCut(mem: seq<int>, lo: int, xs: seq<int>, k: nat, ws: seq<int>)
    requires HoldsAt(mem, lo, xs) && k <= |xs| && lo + k + |ws| <= |mem|
    ensures HoldsAt(Put(mem, lo + k, ws), lo, xs[..k] + ws)
  {
  }

  lemma HoldsPart(mem: seq<int>, lo: int, xs: seq<int>, i: nat, j: nat)
    requires HoldsAt(mem, lo, xs) && i <= j <= |xs|
    ensures HoldsAt(mem, lo + i, xs[i..j]) && mem[lo + i..lo + j] == xs[i..j]
  {
    assert forall k | 0 <= k < j - i :: xs[i..j][k] == xs[i + k];
  }

  lemma PutBelow(mem: seq<int>, at: int, ws: seq<int>, n: int)
    requires InRange(mem, at, |ws|) && n <= at
    ensures SameBelow(mem, Put(mem, at, ws), n)
  {
  }

  // ----- the ways a step changes the innermost frame -----

  lemma OpsCells(mem: seq<int>, start: int, params: seq<int>, cp: int, fp: int, meth: int, locals: seq<int>,
                 ops: seq<int>, k: nat, pushed: seq<int>)
    requires CellsAt(mem, start, params, cp, fp, meth, locals, ops) && k <= |ops|
    requires start + |params| + 3 + |locals| + k + |pushed| <= |mem|
    ensures CellsAt(Put(mem, start + |params| + 3 + |locals| + k, pushed), start, params, cp, fp, meth, locals,
                    ops[..k] + pushed)
  {
    hide HoldsAt;
    var f := start + |params|;
    var o := f + 3 + |locals|;
    HoldsApart(mem, o + k, pushed, start, params);
    HoldsApart(mem, o + k, pushed, f + 3, locals);
    HoldsCut(mem, o, ops, k, pushed);
  }

  /** The operands above the first `k` are replaced. */
  lemma OpsLaid(img: Image, mem: seq<int>, top: Stack, end: int, k: nat, pushed: seq<int>, pc: int)
    requires top.Frame? && Laid(img, mem, top, end) && k <= |top.ops|
    requires end - |top.ops| + k + |pushed| <= |mem|
    ensures var at := end - |top.ops| + k;
            var top' := top.(ops := top.ops[..k] + pushed, pc := pc);
            && InRange(mem, at, |pushed|)
            && Laid(img, Put(mem, at, pushed), top', at + |pushed|)
            && RegsOf(top', at + |pushed|) == RegsOf(top, end).(sp := at + |pushed| - 1, cp := pc)
            && BaseEnd(top', at + |pushed|) == BaseEnd(top, end)
            && SameBelow(mem, Put(mem, at, pushed), StartOf(top, end))
  {
    hide HoldsAt, Put;
    var start, at := StartOf(top, end), end - |top.ops| + k;
    OpsCells(mem, start, top.params, SavedCp(img, top.caller), SavedFp(img, top.caller, start),
             CodeCell(img, top.meth), top.locals, top.ops, k, pushed);
    PutBelow(mem, at, pushed, start);
    LaidFrame(img, mem, Put(mem, at, pushed), top.caller, start);
  }

  lemma VarCells(mem: seq<int>, start: int, params: seq<int>, cp: int, fp: int, meth: int, locals: seq<int>,
                 ops: seq<int>, k: nat, isLocal: bool, i: nat, stored: seq<int>)
    requires CellsAt(mem, start, params, cp, fp, meth, locals, ops) && k <= |ops|
    requires i + |stored| <= if isLocal then |locals| else |params|
    ensures !isLocal ==>
      CellsAt(Put(mem, start + i, stored), start, Put(params, i, stored), cp, fp, meth, locals, ops[..k])
    ensures isLocal ==>
      CellsAt(Put(mem, start + |params| + 3 + i, stored), start, params, cp, fp, meth, Put(locals, i, stored), ops[..k])
  {
    hide HoldsAt;
    var f := start + |params|;
    var o := f + 3 + |locals|;
    HoldsPart(mem, o, ops, 0, k);
    if isLocal {
      HoldsApart(mem, f + 3 + i, stored, start, params);
      HoldsWithin(mem, f + 3, locals, i, stored);
      HoldsApart(mem, f + 3 + i, stored, o, ops[..k]);
    } else {
      HoldsWithin(mem, start, params, i, stored);
      HoldsApart(mem, start + i, stored, f + 3, locals);
      HoldsApart(mem, start + i, stored, o, ops[..k]);
    }
  }

  /** Cells inside the parameter or local area are overwritten and the operands cut back to the first `k`. */
  lemma VarLaid(img: Image, mem: seq<int>, top: Stack, end: int, k: nat, isLocal: bool, i: nat, stored: seq<int>,
                pc: int)
    requires top.Frame? && Laid(img, mem, top, end) && k <= |top.ops|
    requires i + |stored| <= if isLocal then |top.locals| else |top.params|
    ensures var at := (if isLocal then FpOf(top, end) + 3 else StartOf(top, end)) + i;
            var top' := WithVars(top, isLocal, i, stored, k, pc);
            var end' := end - |top.ops| + k;
            && InRange(mem, at, |stored|)
            && Laid(img, Put(mem, at, stored), top', end')
            && RegsOf(top', end') == RegsOf(top, end).(sp := end' - 1, cp := pc)
            && BaseEnd(top', end') == BaseEnd(top, end)
            && SameBelow(mem, Put(mem, at, stored), StartOf(top, end))
  {
    hide Put;
    var start := StartOf(top, end);
    var at := (if isLocal then FpOf(top, end) + 3 else start) + i;
    VarCells(mem, start, top.params, SavedCp(img, top.caller), SavedFp(img, top.caller, start),
             CodeCell(img, top.meth), top.locals, top.ops, k, isLocal, i, stored);
    PutBelow(mem, at, stored, start);
    LaidFrame(img, mem, Put(mem, at, stored), top.caller, start);
  }

  /** A frame is pushed: the caller's last operands become the parameters where they lie. */
  lemma CalleeLaid(img: Image, mem: seq<int>, top: Stack, end: int, ret: int, target: int, head: Head)
    requires top.Frame? && Laid(img, mem, top, end) && head.params <= |top.ops|
    requires end + 3 + head.locals <= |mem|
    ensures var mem' := Put(mem, end, [CodeCell(img, ret), StackCell(img, FpOf(top, end)), CodeCell(img, target)]);
            var callee := Callee(target, head, top.(pc := ret), mem[end + 3..]);
            var end' := end + 3 + head.locals;
            && Laid(img, mem', callee, end') && BaseEnd(callee, end') == BaseEnd(top, end)
            && FpOf(callee, end') == end && SameBelow(mem, mem', end)
  {
    hide Put, Fit, CellsAt, SameBelow;
    OpsEnd(img, mem, top, end);
    var cells := [CodeCell(img, ret), StackCell(img, FpOf(top, end)), CodeCell(img, target)];
    var mem' := Put(mem, end, cells);
    var callee := Callee(target, head, top.(pc := ret), mem[end + 3..]);
    var k := |top.ops| - head.params;
    PutBelow(mem, end, cells, end);
    LaidFrame(img, mem, mem', top, end);
    CallerLaid(img, mem', top, end, ret, k);
    CalleeCells(mem, mem', end, cells, top.ops[k..], callee.locals) by { ParamsHeld(img, mem, top, end, k); }
  }

  /** The operands the callee takes over. */
  lemma ParamsHeld(img: Image, mem: seq<int>, top: Stack, end: int, k: nat)
    requires top.Frame? && Laid(img, mem, top, end) && k <= |top.ops|
    ensures 1 <= end - |top.ops| + k && end <= |mem| && HoldsAt(mem, end - |top.ops| + k, top.ops[k..])
  {
    hide HoldsAt;
    OpsEnd(img, mem, top, end);
    HoldsPart(mem, end - |top.ops|, top.ops, k, |top.ops|);
    assert top.ops[k..|top.ops|] == top.ops[k..];
  }

  lemma OpsEnd(img: Image, mem: seq<int>, top: Stack, end: int)
    requires top.Frame? && Laid(img, mem, top, end)
    ensures 1 <= end - |top.ops| && end <= |mem|
  {
  }

  /** The caller without them. */
  lemma CallerLaid(img: Image, mem: seq<int>, top: Stack, end: int, ret: int, k: nat)
    requires top.Frame? && Laid(img, mem, top, end) && k <= |top.ops|
    ensures Laid(img, mem, top.(pc := ret, ops := top.ops[..k]), end - |top.ops| + k)
    ensures BaseEnd(top.(pc := ret, ops := top.ops[..k]), end - |top.ops| + k) == BaseEnd(top, end)
  {
    hide HoldsAt;
    HoldsPart(mem, end - |top.ops|, top.ops, 0, k);
  }

  /** Parameters below the saved words, locals where stale cells are. */
  lemma CalleeCells(mem: seq<int>, mem': seq<int>, end: int, cells: seq<int>, params: seq<int>, locals: seq<int>)
    requires |cells| == 3 && InRange(mem, end, 3) && mem' == Put(mem, end, cells) && 1 <= end - |params|
    requires HoldsAt(mem, end - |params|, params) && end + 3 + |locals| <= |mem|
    requires locals == Fit(mem[end + 3..], |locals|)
    ensures CellsAt(mem', end - |params|, params, cells[0], cells[1], cells[2], locals, [])
  {
    hide Put, Fit;
    HoldsApart(mem, end, cells, end - |params|, params);
    assert mem'[end + 3..end + 3 + |locals|] == locals;
  }

  /** vmCall's entry sequence, from any free cell on. */
  lemma EntryLaid(img: Image, mem: seq<int>, at: int, target: int, args: seq<int>, locals: nat)
    requires 1 <= at && at + |args| + 3 + locals <= |mem|
    ensures var mem' := Put(mem, at, args + [0, 0, CodeCell(img, target)]);
            var cells := Fit([mem[at - 1]] + mem[at + |args| + 3..], 1 + locals);
            var entry := Frame(target, target + 2, args, cells[1..], [], Base(cells[0], at));
            var end := at + |args| + 3 + locals;
            && Laid(img, mem', entry, end) && BaseEnd(entry, end) == at && SameBelow(mem, mem', at)
  {
    var written := args + [0, 0, CodeCell(img, target)];
    var mem' := Put(mem, at, written);
    var cells := Fit([mem[at - 1]] + mem[at + |args| + 3..], 1 + locals);
    var fp := at + |args|;
    assert mem'[at..fp] == args;
    assert mem'[fp] == written[|args|] && mem'[fp + 1] == written[|args| + 1] && mem'[fp + 2] == written[|args| + 2];
    assert mem'[fp + 3..fp + 3 + locals] == cells[1..];
  }

  // ----- the same for whole configurations -----

  lemma OpsPlaced(img: Image, mem: seq<int>, r: F.Regs, top: Stack, chain: F.Chain, p: Pending,
                  k: nat, pushed: seq<int>, pc: int)
    requires Placed(img, mem, r, top, chain, p) && k <= |top.ops|
    requires r.sp + 1 - |top.ops| + k + |pushed| <= |mem|
    ensures var at := r.sp + 1 - |top.ops| + k;
            var top' := top.(ops := top.ops[..k] + pushed, pc := pc);
            && InRange(mem, at, |pushed|)
            && Placed(img, Put(mem, at, pushed), r.(sp := at + |pushed| - 1, cp := pc), top', chain, p)
            && BaseEnd(top', at + |pushed|) == BaseEnd(top, r.sp + 1)
            && SameBelow(mem, Put(mem, at, pushed), BaseEnd(top, r.sp + 1))
  {
    hide Laid, PendingLaid, Put, BaseEnd;
    OpsLaid(img, mem, top, r.sp + 1, k, pushed, pc);
    BaseEndBelow(img, mem, top, r.sp + 1);
    var limit := BaseEnd(top, r.sp + 1);
    PendingFrame(img, mem, Put(mem, r.sp + 1 - |top.ops| + k, pushed), chain, p, limit, limit);
  }

  lemma VarPlaced(img: Image, mem: seq<int>, r: F.Regs, top: Stack, chain: F.Chain, p: Pending,
                  k: nat, isLocal: bool, i: nat, stored: seq<int>, pc: int)
    requires Placed(img, mem, r, top, chain, p) && k <= |top.ops|
    requires i + |stored| <= if isLocal then |top.locals| else |top.params|
    ensures var at := (if isLocal then r.lp else r.pp) + i;
            var top' := WithVars(top, isLocal, i, stored, k, pc);
            && InRange(mem, at, |stored|)
            && Placed(img, Put(mem, at, stored), r.(sp := r.sp - |top.ops| + k, cp := pc), top', chain, p)
            && BaseEnd(top', r.sp + 1 - |top.ops| + k) == BaseEnd(top, r.sp + 1)
            && SameBelow(mem, Put(mem, at, stored), BaseEnd(top, r.sp + 1))
  {
    hide Laid, PendingLaid, Put, BaseEnd;
    VarLaid(img, mem, top, r.sp + 1, k, isLocal, i, stored, pc);
    BaseEndBelow(img, mem, top, r.sp + 1);
    var limit := BaseEnd(top, r.sp + 1);
    PendingFrame(img, mem, Put(mem, (if isLocal then r.lp else r.pp) + i, stored), chain, p, limit, limit);
  }

  lemma PcPlaced(img: Image, mem: seq<int>, r: F.Regs, top: Stack, chain: F.Chain, p: Pending, pc: int)
    requires top.Frame? && Placed(img, mem, r, top, chain, p)
    ensures Placed(img, mem, r.(cp := pc), top.(pc := pc), chain, p)
    ensures BaseEnd(top.(pc := pc), r.sp + 1) == BaseEnd(top, r.sp + 1)
  {
    hide PendingLaid, HoldsAt;
  }

  /** What a return reads: the saved words, and the caller's frame just below. */
  lemma CallerPlaced(img: Image, mem: seq<int>, r: F.Regs, top: Stack, chain: F.Chain, p: Pending)
    requires top.Frame? && Placed(img, mem, r, top, chain, p)
    ensures InRange(mem, r.fp, 3) && InRange(mem, r.pp - 1, 1) && r.pp == r.fp - r.numParams <= r.fp
    ensures mem[r.fp] == SavedCp(img, top.caller) && mem[r.fp + 1] == SavedFp(img, top.caller, r.pp)
    ensures top.caller.Base? ==> mem[r.pp - 1] == top.caller.below
    ensures top.caller.Frame? ==>
      && Placed(img, mem, RegsOf(top.caller, r.pp), top.caller, chain, p)
      && BaseEnd(top.caller, r.pp) == BaseEnd(top, r.sp + 1)
      && InRange(mem, FpOf(top.caller, r.pp), 3)
      && mem[FpOf(top.caller, r.pp) + 2] == CodeCell(img, top.caller.meth)
  {
    hide PendingLaid;
    BaseEndBelow(img, mem, top, r.sp + 1);
    assert Laid(img, mem, top.caller, r.pp);
  }

  /** The operands above the first `k`, as the array holds them. */
  lemma OpsInArray(img: Image, mem: seq<int>, r: F.Regs, top: Stack, chain: F.Chain, p: Pending, k: nat)
    requires Placed(img, mem, r, top, chain, p) && k <= |top.ops|
    ensures var at := r.sp + 1 - |top.ops| + k;
            0 <= at <= r.sp + 1 <= |mem| && mem[at..r.sp + 1] == top.ops[k..]
  {
    HoldsPart(mem, r.sp + 1 - |top.ops|, top.ops, k, |top.ops|);
  }

  // ----- one step -----

  /** The flat outcome `o` is the frame outcome `a`, and nothing below `floor` was written on the way. */
  ghost predicate Matches(img: Image, mem: seq<int>, floor: int, o: F.Outcome, a: Outcome) {
    match a
    case Next(c) => o.Next? && Rel(img, o.s, c) && SameBelow(mem, o.s.mem, floor)
    case Halt(v, w, vmsp) => o.Halt? && o.value == v && o.w == w && o.vmsp == vmsp
    case Fault => o.Fault?
    case BadTarget | Overrun => true
    case Stuck => false
  }

  function RegsIn(m: F.Mode): F.Regs { if m.Running? then m.r else m.caller }

  /** The running activation's cells start here: one past the cell below its entry parameters. */
  function Floor(s: F.Flat, c: Config): int { BaseEnd(c.control.top, RegsIn(s.mode).sp + 1) }

  function From(mem: seq<int>, at: int): seq<int> { if 0 <= at <= |mem| then mem[at..] else [] }

  /** What the frame machine's next step finds in the array. */
  function TickFor(img: Image, s: F.Flat): Tick {
    match s.mode
    case Running(r) =>
      var fused := r.cp in img.lines && img.lines[r.cp].instr.Call? && img.lines[r.cp].instr.withParam0;
      var pushed := if fused then 1 else 0;
      From(s.mem, r.sp + pushed + 4)
    case InNative(act, _, _, _) =>
      if act.CallBack? && 0 <= s.vmsp < |s.mem| then [s.mem[s.vmsp]] + From(s.mem, s.vmsp + |act.args| + 4) else []
  }

  /** Leaving the running vmCall hands control back to the native below it. */
  lemma LeaveMatches(img: Image, s: F.Flat, c: Config, v: int, limit: int)
    requires Sized(img, s) && s.vmsp == c.vmsp
    requires PendingLaid(img, s.mem, s.chain, c.pending, limit) && limit <= s.vmsp + 1
    ensures forall floor ::
              Matches(img, s.mem, floor, F.Leave(s.mem, s.vmsp, c.w, s.chain, v), Leave(c.w, c.vmsp, c.pending, v))
  {
  }

  /** What typing says of the innermost frame. */
  predicate Fits(img: Image, ty: Typing, top: Stack) {
    && top.Frame? && top.pc in ty.at && LineOk(img, ty, top.pc) && ty.at[top.pc] == Spot(top.meth, |top.ops|)
    && |top.params| == img.heads[top.meth].params && |top.locals| == img.heads[top.meth].locals
  }

  predicate CallerFits(img: Image, caller: Stack) {
    caller.Frame? ==>
      && caller.pc >= 0 && caller.meth in img.heads
      && |caller.params| == img.heads[caller.meth].params && |caller.locals| == img.heads[caller.meth].locals
  }

  /** A frame in control, past the checks every instruction starts with. */
  ghost predicate Ready(img: Image, s: F.Flat, c: Config, r: F.Regs, top: Stack) {
    && top.Frame? && Sized(img, s) && s.w == c.w && s.vmsp == c.vmsp && r.sp < img.stackMax
    && Placed(img, s.mem, r, top, s.chain, c.pending) && BaseEnd(top, r.sp + 1) <= s.vmsp + 1
  }

  lemma TopFits(img: Image, ty: Typing, c: Config, top: Stack)
    requires WellFormed(img, ty) && Typed(img, ty, c) && c.control == Executing(top)
    ensures Fits(img, ty, top) && top.pc in img.lines && PointerDepthOf(img.lines[top.pc].instr) < |top.ops|
    ensures (img.lines[top.pc].instr.Return? ==> img.lines[top.pc].instr.results <= 2)
    ensures CallerFits(img, top.caller)
  {
    assert LineOk(img, ty, top.pc);
    assert StackOk(img, ty, top.caller, ty.kind[top.meth]);
  }

  lemma PlacedRegs(img: Image, mem: seq<int>, r: F.Regs, top: Stack, chain: F.Chain, p: Pending)
    requires top.Frame? && Placed(img, mem, r, top, chain, p)
    ensures r == RegsOf(top, r.sp + 1) && 0 <= r.sp < |mem| && r.sp + 1 == End(top)
    ensures PendingLaid(img, mem, chain, p, BaseEnd(top, r.sp + 1))
  {
    BaseEndBelow(img, mem, top, r.sp + 1);
    LaidEnd(img, mem, top, r.sp + 1);
  }

  lemma ApplyMatches(img: Image, s: F.Flat, c: Config, r: F.Regs, top: Stack, n: nat, e: Effect)
    requires top.Frame? && Sized(img, s) && s.w == c.w && s.vmsp == c.vmsp
    requires Placed(img, s.mem, r, top, s.chain, c.pending) && BaseEnd(top, r.sp + 1) <= s.vmsp + 1
    requires r.sp < img.stackMax && n <= |top.ops| && (e.Go? ==> |e.pushed| <= MAX_PUSH)
    ensures Matches(img, s.mem, BaseEnd(top, r.sp + 1), F.Apply(s, r, n, e), Apply(c, top, n, e))
  {
    hide SameBelow, Placed, Put, BaseEnd;
    if e.Go? {
      OpsPlaced(img, s.mem, r, top, s.chain, c.pending, |top.ops| - n, e.pushed, e.pc);
    }
  }

  lemma SimpleMatches(img: Image, ty: Typing, s: F.Flat, c: Config, r: F.Regs, top: Stack)
    requires Ready(img, s, c, r, top) && Fits(img, ty, top) && Simple(img.lines[top.pc].instr)
    ensures Matches(img, s.mem, BaseEnd(top, r.sp + 1), F.StepSimple(img, s, r, img.lines[top.pc]),
                    StepSimple(img, c, top, img.lines[top.pc]))
  {
    hide Placed, Put, BaseEnd, Perform, Flows, F.Apply, Apply;
    var l := img.lines[top.pc];
    var n := Pops(l.instr);
    OpsInArray(img, s.mem, r, top, s.chain, c.pending, |top.ops| - n);
    var a := top.ops[|top.ops| - n..];
    PerformFlows(img, l, a, c.w);
    ApplyMatches(img, s, c, r, top, n, Perform(img, l, a, c.w));
  }

  lemma VarsInArray(img: Image, mem: seq<int>, r: F.Regs, top: Stack, chain: F.Chain, p: Pending,
                    isLocal: bool, i: nat, n: nat)
    requires Placed(img, mem, r, top, chain, p) && i + n <= if isLocal then |top.locals| else |top.params|
    ensures var at := (if isLocal then r.lp else r.pp) + i;
            InRange(mem, at, n) && mem[at..at + n] == (if isLocal then top.locals else top.params)[i..i + n]
  {
    HoldsPart(mem, if isLocal then r.lp else r.pp, if isLocal then top.locals else top.params, i, i + n);
  }

  lemma VarMatches(img: Image, ty: Typing, s: F.Flat, c: Config, r: F.Regs, top: Stack)
    requires Ready(img, s, c, r, top) && Fits(img, ty, top)
    requires img.lines[top.pc].instr.LoadVar? || img.lines[top.pc].instr.StoreVar?
    ensures Matches(img, s.mem, BaseEnd(top, r.sp + 1), F.StepVar(img, s, r, img.lines[top.pc]),
                    StepVar(c, top, img.lines[top.pc]))
  {
    hide SameBelow, Placed, Put, BaseEnd, WithVars;
    var l := img.lines[top.pc];
    var i, n := l.instr.index, l.instr.width;
    VarsInArray(img, s.mem, r, top, s.chain, c.pending, l.instr.isLocal, i, n);
    if l.instr.LoadVar? {
      var vars := if l.instr.isLocal then top.locals else top.params;
      OpsPlaced(img, s.mem, r, top, s.chain, c.pending, |top.ops|, vars[i..i + n], l.next);
      assert top.ops[..|top.ops|] == top.ops;
    } else {
      var k := |top.ops| - n;
      OpsInArray(img, s.mem, r, top, s.chain, c.pending, k);
      VarPlaced(img, s.mem, r, top, s.chain, c.pending, k, l.instr.isLocal, i, top.ops[k..], l.next);
    }
  }

  lemma InvokeMatches(img: Image, s: F.Flat, c: Config, r: F.Regs, top: Stack, ret: int, target: int)
    requires top.Frame? && Sized(img, s) && s.w == c.w && s.vmsp == c.vmsp && r.sp <= img.stackMax
    requires Placed(img, s.mem, r, top, s.chain, c.pending) && BaseEnd(top, r.sp + 1) <= s.vmsp + 1
    requires target in img.heads && img.heads[target].params <= |top.ops| && SmallHeads(img)
    ensures Matches(img, s.mem, BaseEnd(top, r.sp + 1), F.Invoke(img, s, r, ret, target),
                    Invoke(img, c, top, ret, target, From(s.mem, r.sp + 4)))
  {
    hide PendingLaid, Put, Laid, Matches, BaseEnd, SameBelow, Fit;
    var end, head := r.sp + 1, img.heads[target];
    PlacedRegs(img, s.mem, r, top, s.chain, c.pending);
    var mem' := Put(s.mem, end, [CodeCell(img, ret), StackCell(img, r.fp), CodeCell(img, target)]);
    CalleeLaid(img, s.mem, top, end, ret, target, head);
    BaseEndBelow(img, s.mem, top, end);
    var limit := BaseEnd(top, end);
    PendingFrame(img, s.mem, mem', s.chain, c.pending, limit, limit) by { LessBelow(s.mem, mem', end, limit); }
    LessBelow(s.mem, mem', end, limit);
    var callee := Callee(target, head, top.(pc := ret), From(s.mem, end + 3));
    Shown(img, s, c, mem', RegsOf(callee, end + 3 + head.locals), callee, limit);
  }

  lemma LessBelow(mem: seq<int>, mem': seq<int>, n: int, k: int)
    requires SameBelow(mem, mem', n) && k <= n
    ensures SameBelow(mem, mem', k) && |mem'| == |mem|
  {
  }

  lemma FromPut(mem: seq<int>, at: int, ws: seq<int>, from: int)
    requires InRange(mem, at, |ws|) && at + |ws| <= from
    ensures From(Put(mem, at, ws), from) == From(mem, from)
  {
  }

  lemma MatchesAfter(img: Image, mem: seq<int>, mem': seq<int>, floor: int, o: F.Outcome, a: Outcome)
    requires SameBelow(mem, mem', floor) && Matches(img, mem', floor, o, a)
    ensures Matches(img, mem, floor, o, a)
  {
    hide Rel;
  }

  lemma Call0Matches(img: Image, s: F.Flat, c: Config, r: F.Regs, top: Stack, ret: int, target: int)
    requires Ready(img, s, c, r, top) && |top.params| >= 1
    requires target in img.heads && img.heads[target].params <= |top.ops| + 1 && SmallHeads(img)
    ensures InRange(s.mem, r.pp, 1) && InRange(s.mem, r.sp + 1, 1)
    ensures Matches(img, s.mem, BaseEnd(top, r.sp + 1),
                    F.Invoke(img, s.(mem := Put(s.mem, r.sp + 1, [s.mem[r.pp]])), r.(sp := r.sp + 1), ret, target),
                    Invoke(img, c, top.(ops := top.ops + [top.params[0]]), ret, target, From(s.mem, r.sp + 5)))
  {
    hide Placed, BaseEnd, F.Invoke, Invoke, SmallHeads, Matches, From, Put;
    var pushed := [top.params[0]];
    PlacedRegs(img, s.mem, r, top, s.chain, c.pending);
    VarsInArray(img, s.mem, r, top, s.chain, c.pending, false, 0, 1);
    assert s.mem[r.pp] == s.mem[r.pp..r.pp + 1][0];
    OpsPlaced(img, s.mem, r, top, s.chain, c.pending, |top.ops|, pushed, top.pc);
    assert top.ops[..|top.ops|] == top.ops;
    var mem' := Put(s.mem, r.sp + 1, pushed);
    FromPut(s.mem, r.sp + 1, pushed, r.sp + 5);
    InvokeMatches(img, s.(mem := mem'), c, r.(sp := r.sp + 1, cp := top.pc), top.(ops := top.ops + pushed), ret,
                  target);
    MatchesAfter(img, s.mem, mem', BaseEnd(top, r.sp + 1),
                 F.Invoke(img, s.(mem := mem'), r.(sp := r.sp + 1), ret, target),
                 Invoke(img, c, top.(ops := top.ops + pushed), ret, target, From(s.mem, r.sp + 5)));
  }

  lemma CallMatches(img: Image, ty: Typing, s: F.Flat, c: Config, r: F.Regs, top: Stack)
    requires Ready(img, s, c, r, top) && Fits(img, ty, top) && SmallHeads(img)
    requires s.mode == F.Running(r) && r.cp == top.pc
    requires var i := img.lines[top.pc].instr; i.Call? || i.CallVirtual? || i.InlineParam0?
    ensures Matches(img, s.mem, BaseEnd(top, r.sp + 1), F.StepCall(img, s, r, img.lines[top.pc]),
                    StepCall(img, ty, c, top, img.lines[top.pc], TickFor(img, s)))
  {
    hide SameBelow, Placed, Put, BaseEnd, F.Invoke, Invoke, SmallHeads;
    var l := img.lines[top.pc];
    match l.instr
    case InlineParam0(off) =>
      VarsInArray(img, s.mem, r, top, s.chain, c.pending, false, 0, 1);
      OpsPlaced(img, s.mem, r, top, s.chain, c.pending, |top.ops|, [Wrap32(top.params[0] + off)], l.next);
      assert top.ops[..|top.ops|] == top.ops;
      assert s.mem[r.pp] == s.mem[r.pp..r.pp + 1][0];
    case Call(withParam0, target) =>
      if withParam0 {
        Call0Matches(img, s, c, r, top, l.next, target);
      } else {
        InvokeMatches(img, s, c, r, top, l.next, target);
      }
    case CallVirtual(slot, argc) =>
      OpsInArray(img, s.mem, r, top, s.chain, c.pending, |top.ops| - argc);
      assert s.mem[r.sp - argc + 1] == s.mem[r.sp - argc + 1..r.sp + 1][0];
      var target := img.resolve(c.w, top.ops[|top.ops| - argc], slot);
      if GoodTarget(img, ty, top.pc, l.next, argc, target) {
        InvokeMatches(img, s, c, r, top, l.next, target);
      }
  }

  lemma NativeMatches(img: Image, ty: Typing, s: F.Flat, c: Config, r: F.Regs, top: Stack)
    requires Ready(img, s, c, r, top) && Fits(img, ty, top) && img.lines[top.pc].instr.CallNative?
    requires 0 <= r.sp && r.sp + 1 == End(top)
    ensures Matches(img, s.mem, BaseEnd(top, r.sp + 1), F.StepNative(img, s, r, img.lines[top.pc]),
                    StepNative(img, c, top, img.lines[top.pc]))
  {
    hide Put, BaseEnd, Placed;
    var l := img.lines[top.pc];
    var i := l.instr;
    PlacedRegs(img, s.mem, r, top, s.chain, c.pending);
    if img.hasNative(i.kit, i.id) {
      OpsInArray(img, s.mem, r, top, s.chain, c.pending, |top.ops| - i.argc);
      PcPlaced(img, s.mem, r, top, s.chain, c.pending, l.next);
    } else {
      LeaveMatches(img, s, c, ERR_MISSING_NATIVE, BaseEnd(top, r.sp + 1));
    }
  }

  lemma UnwindEntry(img: Image, s: F.Flat, c: Config, r: F.Regs, top: Stack, v: int)
    requires Ready(img, s, c, r, top)
    ensures Matches(img, s.mem, BaseEnd(top, r.sp + 1), F.Leave(s.mem, s.vmsp, s.w, s.chain, v),
                    Leave(c.w, c.vmsp, c.pending, v))
  {
    PlacedRegs(img, s.mem, r, top, s.chain, c.pending);
    LeaveMatches(img, s, c, v, BaseEnd(top, r.sp + 1));
  }

  lemma StackRoundTrip(img: Image, index: int)
    ensures StackIndex(img, StackCell(img, index)) == index
  {
  }

  /** The calling frame's registers, as a return reads them back. */
  lemma CallerRead(img: Image, mem: seq<int>, r: F.Regs, top: Stack, chain: F.Chain, p: Pending, n: nat)
    requires top.Frame? && Placed(img, mem, r, top, chain, p) && n <= |top.ops| && img.codeBase > 0
    requires top.caller.Frame? && CallerFits(img, top.caller) && InRange(mem, r.pp, n)
    ensures F.ReadsCaller(img, mem, r, n) && mem[r.sp - n + 1..r.sp + 1] == top.ops[|top.ops| - n..]
    ensures F.CallerRegs(img, mem, r, n) == RegsOf(top.caller, r.pp).(sp := r.pp + n - 1)
  {
    hide Placed, BaseEnd, StackIndex, StackCell;
    StackRoundTrip(img, FpOf(top.caller, r.pp));
    OpsInArray(img, mem, r, top, chain, p, |top.ops| - n);
    CallerPlaced(img, mem, r, top, chain, p);
  }

  /** A frame in control on a new array. */
  lemma Shown(img: Image, s: F.Flat, c: Config, mem: seq<int>, r: F.Regs, top: Stack, limit: int)
    requires top.Frame? && Sized(img, s) && |mem| == |s.mem| && s.w == c.w && s.vmsp == c.vmsp
    requires Placed(img, mem, r, top, s.chain, c.pending) && BaseEnd(top, r.sp + 1) == limit <= s.vmsp + 1
    requires SameBelow(s.mem, mem, limit)
    ensures Matches(img, s.mem, limit, F.Next(s.(mem := mem, mode := F.Running(r))),
                    Next(c.(control := Executing(top))))
  {
    hide Placed, SameBelow, BaseEnd;
  }

  /** The calling frame with the result in place of the arguments. */
  lemma CallerGoesOn(img: Image, mem: seq<int>, r: F.Regs, top: Stack, chain: F.Chain, p: Pending, result: seq<int>)
    requires top.Frame? && Placed(img, mem, r, top, chain, p) && |result| <= |top.ops| && top.caller.Frame?
    ensures r.pp == r.fp - r.numParams && InRange(mem, r.pp, |result|)
    ensures var caller := top.caller.(ops := top.caller.ops + result);
            && Placed(img, Put(mem, r.pp, result), RegsOf(top.caller, r.pp).(sp := r.pp + |result| - 1), caller, chain,
                      p)
            && BaseEnd(caller, r.pp + |result|) == BaseEnd(top, r.sp + 1)
            && SameBelow(mem, Put(mem, r.pp, result), BaseEnd(top, r.sp + 1))
  {
    hide SameBelow, Placed, Put, BaseEnd;
    var caller := top.caller;
    CallerPlaced(img, mem, r, top, chain, p);
    PlacedRegs(img, mem, r, top, chain, p);
    assert caller.ops[..|caller.ops|] == caller.ops;
    OpsPlaced(img, mem, RegsOf(caller, r.pp), caller, chain, p, |caller.ops|, result, caller.pc);
  }

  lemma UnwindCaller(img: Image, s: F.Flat, c: Config, r: F.Regs, top: Stack, n: nat)
    requires Ready(img, s, c, r, top) && n <= |top.ops| && n <= 2
    requires img.codeBase > 0 && top.caller.Frame? && CallerFits(img, top.caller)
    ensures Matches(img, s.mem, BaseEnd(top, r.sp + 1), F.Unwind(img, s, r, n), Unwind(c, top, n))
  {
    hide SameBelow, Placed, Put, BaseEnd, F.Unwind, F.ReadsCaller, F.CallerRegs, CallerFits, Matches, RegsOf;
    var result := top.ops[|top.ops| - n..];
    CallerGoesOn(img, s.mem, r, top, s.chain, c.pending, result);
    CallerRead(img, s.mem, r, top, s.chain, c.pending, n);
    F.UnwindBack(img, s, r, n);
    Shown(img, s, c, Put(s.mem, r.pp, result), F.CallerRegs(img, s.mem, r, n),
          top.caller.(ops := top.caller.ops + result), BaseEnd(top, r.sp + 1));
  }

  lemma UnwindMatches(img: Image, ty: Typing, s: F.Flat, c: Config, r: F.Regs, top: Stack)
    requires Ready(img, s, c, r, top) && Fits(img, ty, top) && img.lines[top.pc].instr.Return?
    requires img.codeBase > 0 && img.lines[top.pc].instr.results <= 2 && CallerFits(img, top.caller)
    ensures var n := img.lines[top.pc].instr.results;
            Matches(img, s.mem, BaseEnd(top, r.sp + 1), F.Unwind(img, s, r, n), Unwind(c, top, n))
  {
    hide Placed, Put, BaseEnd, CallerFits;
    var n := img.lines[top.pc].instr.results;
    if top.caller.Base? {
      OpsInArray(img, s.mem, r, top, s.chain, c.pending, |top.ops| - n);
      CallerPlaced(img, s.mem, r, top, s.chain, c.pending);
      UnwindEntry(img, s, c, r, top, EntryValue(top.ops[|top.ops| - n..], top.caller.below));
    } else {
      UnwindCaller(img, s, c, r, top, n);
    }
  }

  /** vmCall's entry above vm->sp, called by the host or by a native. */
  lemma EnterMatches(img: Image, ty: Typing, mem: seq<int>, vmsp: int, w: World, chain: F.Chain, p: Pending,
                     target: int, args: seq<int>, floor: int)
    requires target in img.heads && target in ty.kind && SmallHeads(img)
    requires |mem| == img.stackMax + RED_ZONE && 0 <= vmsp < img.stackMax
    requires PendingLaid(img, mem, chain, p, vmsp + 1) && floor <= vmsp + 1
    ensures Matches(img, mem, floor, F.Enter(img, mem, vmsp, w, chain, target, args),
                    Enter(img, ty, w, vmsp, p, target, args, [mem[vmsp]] + From(mem, vmsp + |args| + 4)))
  {
    hide Put, Laid, PendingLaid, BaseEnd;
    if img.heads[target].params == |args| {
      var at := vmsp + 1;
      var mem' := Put(mem, at, args + [0, 0, CodeCell(img, target)]);
      EntryLaid(img, mem, at, target, args, img.heads[target].locals);
      PendingFrame(img, mem, mem', chain, p, at, at);
    } else {
      LeaveEntry(img, mem, vmsp, w, chain, p);
    }
  }

  lemma LeaveEntry(img: Image, mem: seq<int>, vmsp: int, w: World, chain: F.Chain, p: Pending)
    requires |mem| == img.stackMax + RED_ZONE && 0 <= vmsp < img.stackMax
    requires PendingLaid(img, mem, chain, p, vmsp + 1)
    ensures forall floor ::
              Matches(img, mem, floor, F.Leave(mem, vmsp, w, chain, ERR_INVALID_METHOD_PARAMS),
                      Leave(w, vmsp, p, ERR_INVALID_METHOD_PARAMS))
  {
    var s := F.Flat(mem, vmsp, w, F.Running(F.Regs(0, 0, 0, 0, 0, 0, 0)), chain);
    LeaveMatches(img, s, Config(w, vmsp, Executing(Base(0, 0)), p), ERR_INVALID_METHOD_PARAMS, vmsp + 1);
  }

  lemma FinishMatches(img: Image, ty: Typing, s: F.Flat, c: Config)
    requires Rel(img, s, c) && c.control.Native? && c.control.act.Finish?
    requires c.control.top.Frame? && c.control.argc <= |c.control.top.ops| && c.control.results <= 2
    ensures Matches(img, s.mem, Floor(s, c), F.StepAct(img, s), StepAct(img, ty, c, TickFor(img, s)))
  {
    hide Put, BaseEnd, Laid, NativeResult;
    var top, argc, n, r := c.control.top, c.control.argc, c.control.results, s.mode.caller;
    BaseEndBelow(img, s.mem, top, r.sp + 1);
    OpsPlaced(img, s.mem, r, top, s.chain, c.pending, |top.ops| - argc,
              NativeResult(c.control.act.lo, c.control.act.hi, n), top.pc);
  }

  lemma ActMatches(img: Image, ty: Typing, s: F.Flat, c: Config)
    requires Rel(img, s, c) && c.control.Native? && SmallHeads(img)
    requires c.control.top.Frame? && c.control.argc <= |c.control.top.ops| && c.control.results <= 2
    ensures Matches(img, s.mem, Floor(s, c), F.StepAct(img, s), StepAct(img, ty, c, TickFor(img, s)))
  {
    hide BaseEnd, Laid, Matches, F.Enter, Enter, NativeResult, SmallHeads;
    var top, argc, n, r := c.control.top, c.control.argc, c.control.results, s.mode.caller;
    match c.control.act
    case Finish(lo, hi, w) =>
      FinishMatches(img, ty, s, c);
    case CallBack(w, target, args, resume) =>
      BaseEndBelow(img, s.mem, top, r.sp + 1);
      if target in img.heads && target in ty.kind {
        EnterMatches(img, ty, s.mem, s.vmsp, w, F.Within(r, argc, n, resume, s.chain),
                     Waiting(top, argc, n, resume, c.pending), target, args, Floor(s, c));
      } else {
        NoEntry(img, ty, s, c);
      }
  }

  lemma NoEntry(img: Image, ty: Typing, s: F.Flat, c: Config)
    requires c.control.Native? && c.control.act.CallBack?
    requires c.control.act.target !in img.heads || c.control.act.target !in ty.kind
    ensures forall o, floor :: Matches(img, s.mem, floor, o, StepAct(img, ty, c, TickFor(img, s)))
  {
  }

  lemma ExecutingMatches(img: Image, ty: Typing, s: F.Flat, c: Config)
    requires WellFormed(img, ty) && Typed(img, ty, c) && Rel(img, s, c) && c.control.Executing?
    ensures Matches(img, s.mem, Floor(s, c), F.Step(img, s), Move(img, ty, c, TickFor(img, s)))
  {
    hide Placed, Put, BaseEnd, Matches, LineOk, SmallHeads, PendingOk, F.StepSimple, StepSimple, F.StepVar, StepVar,
      F.StepNative, StepNative, F.Unwind, Unwind, F.StepCall, StepCall, Leave, F.Leave;
    var top, r := c.control.top, s.mode.r;
    assert LineOk(img, ty, top.pc);
    TopFits(img, ty, c, top);
    var i := img.lines[top.pc].instr;
    var d := PointerDepthOf(i);
    PlacedRegs(img, s.mem, r, top, s.chain, c.pending);
    OpsInArray(img, s.mem, r, top, s.chain, c.pending, if d >= 0 then |top.ops| - 1 - d else 0);
    var limit := BaseEnd(top, r.sp + 1);
    if d >= 0 && top.ops[|top.ops| - 1 - d] == 0 { LeaveMatches(img, s, c, ERR_NULL_POINTER, limit); }
    else if r.sp >= img.stackMax { LeaveMatches(img, s, c, ERR_STACK_OVERFLOW, limit); }
    else if Simple(i) { SimpleMatches(img, ty, s, c, r, top); }
    else if i.LoadVar? || i.StoreVar? { VarMatches(img, ty, s, c, r, top); }
    else if i.CallNative? { NativeMatches(img, ty, s, c, r, top); }
    else if i.Return? { UnwindMatches(img, ty, s, c, r, top); }
    else if i.Unknown? { LeaveMatches(img, s, c, ERR_UNKNOWN_OPCODE, limit); }
    else { CallMatches(img, ty, s, c, r, top); }
  }

  /** Step for step, as long as there are cells: whatever the frames do next, told what the array holds above sp, the
      flat machine does too, and the two stay in correspondence. */
  lemma MoveMatches(img: Image, ty: Typing, s: F.Flat, c: Config)
    requires WellFormed(img, ty) && Typed(img, ty, c) && Rel(img, s, c)
    ensures Matches(img, s.mem, Floor(s, c), F.Step(img, s), Move(img, ty, c, TickFor(img, s)))
  {
    if c.control.Native? {
      ActMatches(img, ty, s, c);
    } else {
      ExecutingMatches(img, ty, s, c);
    }
  }
}

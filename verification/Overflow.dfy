/** The overflow test comes too late for the last push: a code segment that runs off the end of every stack. */
module Overflow {
  import opened Alu
  import opened Bytes
  import opened Image
  import opened FrameMachine
  import opened Evaluator
  import opened Scode
  import F = FlatMachine
  import R = Relocation
  import V = VmCall

  /** When the last cell of the stack is in use the overflow test still passes, and a push writes behind it. */
  lemma PushAtEnd(img: Image, s: F.Flat, r: F.Regs, v: int)
    requires s.mode == F.Running(r) && r.sp == |s.mem| - 1 == img.stackMax - 1
    requires r.cp in img.lines && img.lines[r.cp].instr == Const([v])
    ensures F.Step(img, s).Wild?
  {
    assert Perform(img, img.lines[r.cp], [], s.w).pushed == [v];
    assert s.mem[r.sp + 1..r.sp + 1] == [];
  }

  /** One method without parameters and locals: m times LoadI5, then ReturnPop. */
  function Code(m: nat): (code: seq<Byte>)
    ensures |code| == m + 3
  {
    seq(m + 3, k => if k < 2 then 0 else if k < m + 2 then 7 else 227)
  }

  function Pushes(y: Layout, m: nat, h: R.Host): Image { R.ImageOf(y, Code(m), h) }

  function PushSpot(pc: int): Spot
    requires pc >= 2
  {
    Spot(0, pc - 2)
  }

  function PushTyping(m: nat): Typing { Typing(map pc: int | 2 <= pc <= 2 + m :: PushSpot(pc), map[0 := 1]) }

  lemma PushLine(y: Layout, m: nat, h: R.Host, pc: int)
    requires 2 <= pc <= 2 + m
    ensures var img := Pushes(y, m, h);
            pc in img.lines && img.lines[pc] == if pc < 2 + m then Line(Const([5]), pc + 1) else Line(Return(1), pc + 1)
  {
    hide R.ImageOf;
    R.LoadedLine(y, Code(m), h, pc);
  }

  lemma PushHead(y: Layout, m: nat, h: R.Host)
    ensures 0 in Pushes(y, m, h).heads && Pushes(y, m, h).heads[0] == Head(0, 0)
  {
    hide R.ImageOf;
    R.LoadedHead(y, Code(m), h, 0);
  }

  lemma PushOk(y: Layout, m: nat, h: R.Host, pc: int)
    requires m > 0 && 2 <= pc <= 2 + m
    ensures LineOk(Pushes(y, m, h), PushTyping(m), pc)
  {
    hide Pushes;
    PushLine(y, m, h, pc);
    PushHead(y, m, h);
    var img, ty := Pushes(y, m, h), PushTyping(m);
    assert pc in ty.at && ty.at[pc] == Spot(0, pc - 2);
    if pc < 2 + m {
      assert Flows(img.lines[pc]) == {(pc + 1, 1)} && At(ty, pc + 1, 0, pc - 1);
    }
  }

  lemma PushesWellFormed(y: Layout, m: nat, h: R.Host)
    requires m > 0 && y.stackMax == m && y.codeBase > 0
    ensures WellFormed(Pushes(y, m, h), PushTyping(m))
  {
    hide LineOk, R.ImageOf, SmallHeads;
    R.LoadedRest(y, Code(m), h);
    PushHead(y, m, h);
    forall pc | pc in PushTyping(m).at
      ensures pc >= 0 && LineOk(Pushes(y, m, h), PushTyping(m), pc)
    {
      PushOk(y, m, h, pc);
    }
    assert At(PushTyping(m), 2, 0, 0);
  }

  /** The method after k pushes. */
  function Pushed(k: nat): Body { Body(0, 2 + k, 1, [], [], seq(k, _ => 5)) }

  lemma {:induction false} PushOn(y: Layout, m: nat, h: R.Host, k: nat, w: World, ticks: seq<Tick>)
    requires y.stackMax == m && 4 + k <= m && |ticks| > m - 4 - k
    ensures Eval(Pushes(y, m, h), PushTyping(m), Pushed(k), w, 0, ticks) == Broken(Overran)
    decreases m - k
  {
    hide EvalCall, EvalAct, GoodTarget, R.ImageOf;
    var img, b := Pushes(y, m, h), Pushed(k);
    R.LoadedRest(y, Code(m), h);
    PushLine(y, m, h, 2 + k);
    assert b.ops[|b.ops|..] == [] && b.ops[..|b.ops|] == b.ops;
    if 4 + k < m {
      assert Pushed(k + 1).ops == b.ops + [5];
      PushOn(y, m, h, k + 1, w, ticks[1..]);
    }
  }

  /** Entering the method on a stack of m cells. */
  lemma EvalPushes(y: Layout, m: nat, h: R.Host, w: World, stale: seq<int>, ticks: seq<Tick>)
    requires m > 0 && y.stackMax == m && |ticks| == m
    ensures EvalMethod(Pushes(y, m, h), PushTyping(m), 0, [], w, 0, stale, ticks) == Broken(Overran)
  {
    hide Eval, R.ImageOf;
    R.LoadedRest(y, Code(m), h);
    PushHead(y, m, h);
    if m >= 4 {
      assert NewBody(0, 1, [], Head(0, 0), Fit(stale, 1)[1..]) == Pushed(0);
      PushOn(y, m, h, 0, w, ticks);
    }
  }

  /** The segment is well-formed, and vmCall of its method goes astray on every stack, however long and whatever it
      holds, wherever code and stack lie. */
  lemma EveryStackOverruns(y: Layout, m: nat, h: R.Host, mem: seq<int>, w: World)
    requires m > 0 && y.stackMax == m && y.codeBase > 0 && |mem| == m
    ensures WellFormed(Pushes(y, m, h), PushTyping(m))
    ensures V.Call(Pushes(y, m, h), mem, 0, w, 0, [], m).Wild?
  {
    hide EvalMethod, V.Call, WellFormed, R.ImageOf, V.EntryCells, V.Oracle;
    var img, ty := Pushes(y, m, h), PushTyping(m);
    R.LoadedRest(y, Code(m), h);
    PushesWellFormed(y, m, h);
    V.CallOnCells(img, ty, mem, 0, w, 0, [], m);
    EvalPushes(y, m, h, w, V.EntryCells(mem, 0, []), V.Oracle(img, mem, 0, w, 0, [], m));
  }
}

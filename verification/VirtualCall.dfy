/** Dynamic dispatch in bytes: a method that calls through the vtable of its argument, and what vmCall answers for
    objects of two classes. */
module VirtualCall {
  import opened Alu
  import opened Bytes
  import opened Image
  import opened FrameMachine
  import opened Evaluator
  import opened Scode
  import M = MemoryOpcodes
  import O = Opcodes
  import R = Relocation
  import V = VmCall

  /** In blocks of four bytes: the method this.slot0() in blocks 0 and 1, a method that returns 5 in block 2 and its
      vtable in block 3, a method that returns 4 in block 4 and its vtable in block 5. */
  function Code(): (code: seq<Byte>)
    ensures |code| == 24
  {
    [1, 0, 29, 222, 0, 0, 1, 227, 1, 0, 7, 227, 2, 0, 0, 0, 1, 0, 6, 227, 4, 0, 0, 0]
  }

  predicate Occurs(pc: int) { pc == 2 || pc == 3 || pc == 7 || pc == 10 || pc == 11 || pc == 18 || pc == 19 }

  function LineOf(pc: int): Line {
    if pc == 2 then Line(LoadVar(false, 0, 1), 3)
    else if pc == 3 then Line(CallVirtual(0, 1), 7)
    else if pc == 10 then Line(Const([5]), 11)
    else if pc == 18 then Line(Const([4]), 19)
    else Line(Return(1), pc + 1)
  }

  function SlotTyping(): Typing {
    Typing(map[2 := Spot(0, 0), 3 := Spot(0, 1), 7 := Spot(0, 1), 10 := Spot(8, 0), 11 := Spot(8, 1),
               18 := Spot(16, 0), 19 := Spot(16, 1)],
           map[0 := 1, 8 := 1, 16 := 1])
  }

  function Img(y: Layout, h: R.Host): Image { R.ImageOf(y, Code(), h) }

  lemma CodeDecodes(y: Layout, pc: int)
    requires Occurs(pc)
    ensures Decode(y, Code(), pc) == LineOf(pc)
  {
    hide Operand, Signed8, Signed16, Inlined, Arithmetic, Branch, Storage, Switches;
    O.OneByte(Code(), 6);
    O.BytesAt(Code(), 4);
  }

  lemma LineAt(y: Layout, h: R.Host, pc: int)
    requires Occurs(pc)
    ensures pc in Img(y, h).lines && Img(y, h).lines[pc] == LineOf(pc)
  {
    hide Decode, R.ImageOf, LineOf;
    CodeDecodes(y, pc);
    R.LoadedLine(y, Code(), h, pc);
  }

  lemma HeadAt(y: Layout, h: R.Host, m: int)
    requires m == 0 || m == 8 || m == 16
    ensures m in Img(y, h).heads && Img(y, h).heads[m] == Head(1, 0)
  {
    hide R.ImageOf;
    R.LoadedHead(y, Code(), h, m);
  }

  lemma SlotWellFormed(y: Layout, h: R.Host)
    requires y.stackMax > 0 && y.codeBase > 0
    ensures WellFormed(Img(y, h), SlotTyping())
  {
    hide R.ImageOf, SmallHeads, LineOk;
    R.LoadedRest(y, Code(), h);
    HeadAt(y, h, 0);
    HeadAt(y, h, 8);
    HeadAt(y, h, 16);
    forall pc | pc in SlotTyping().at
      ensures pc >= 0 && LineOk(Img(y, h), SlotTyping(), pc)
    {
      LineFits(y, h, pc);
    }
    assert At(SlotTyping(), 2, 0, 0) && At(SlotTyping(), 10, 8, 0) && At(SlotTyping(), 18, 16, 0);
  }

  lemma LineFits(y: Layout, h: R.Host, pc: int)
    requires Occurs(pc)
    ensures LineOk(Img(y, h), SlotTyping(), pc)
  {
    hide Img;
    LineAt(y, h, pc);
    HeadAt(y, h, 0);
    HeadAt(y, h, 8);
    HeadAt(y, h, 16);
  }

  /** The method that the object's vtable names: block 2 by the vtable in block 3, block 4 by the one in block 5. */
  lemma Resolves(y: Layout, h: R.Host, w: World, o: int)
    requires y.blockSize == 4 && O.Int32(o) == o
    ensures M.Fetch(w.heap, o, 2) == 3 ==> Img(y, h).resolve(w, o, 0) == 8
    ensures M.Fetch(w.heap, o, 2) == 5 ==> Img(y, h).resolve(w, o, 0) == 16
  {
    hide R.ImageOf, Operand, M.Fetch, GetUnsigned, O.Int32;
    R.LoadedRest(y, Code(), h);
    M.FetchIs(w.heap, o, 2);
    O.Cut(o);
    O.BytesAt(Code(), 12);
    O.BytesAt(Code(), 20);
  }

  /** A call of method m, which returns v, from the call site. */
  lemma SlotEval(y: Layout, h: R.Host, vmsp: int, w: World, o: int, m: int, v: int, stale: seq<int>, ticks: seq<Tick>)
    requires y.blockSize == 4 && 0 <= vmsp && vmsp + 11 <= y.stackMax && |ticks| >= 5
    requires (m == 8 && v == 5) || (m == 16 && v == 4)
    requires Img(y, h).resolve(w, o, 0) == m
    ensures EvalMethod(Img(y, h), SlotTyping(), 0, [o], w, vmsp, stale, ticks) == Returned([v], w, vmsp, ticks[5..])
  {
    hide Img, EvalCall, EvalAct, Eval, SlotTyping;
    HeadAt(y, h, 0);
    R.LoadedRest(y, Code(), h);
    var img, ty := Img(y, h), SlotTyping();
    assert img.stackMax == y.stackMax && 0 in ty.kind by { Kinds(y, h); }
    var cells := Fit(stale, 1);
    var b := NewBody(0, vmsp + 1, [o], Head(1, 0), cells[1..]);
    assert b == Body(0, 2, vmsp + 1, [o], [], []);
    LoadsThis(y, h, b, w, vmsp, ticks);
    Calls(y, h, b.(pc := 3, ops := [o]), w, vmsp, o, m, v, ticks[1..]);
    assert ticks[1..][4..] == ticks[5..];
  }

  lemma Kinds(y: Layout, h: R.Host)
    ensures Img(y, h).stackMax == y.stackMax && 0 in SlotTyping().kind
  {
    hide R.ImageOf;
    R.LoadedRest(y, Code(), h);
  }

  lemma LoadsThis(y: Layout, h: R.Host, b: Body, w: World, vmsp: int, ticks: seq<Tick>)
    requires b.pc == 2 && b.ops == [] && |b.params| == 1 && Height(b) < y.stackMax && ticks != []
    ensures Eval(Img(y, h), SlotTyping(), b, w, vmsp, ticks)
            == Eval(Img(y, h), SlotTyping(), b.(pc := 3, ops := b.params), w, vmsp, ticks[1..])
  {
    hide Img, EvalCall, EvalAct, SlotTyping;
    LineAt(y, h, 2);
    Kinds(y, h);
    assert [] + b.params[0..1] == b.params;
  }

  lemma Calls(y: Layout, h: R.Host, b: Body, w: World, vmsp: int, o: int, m: int, v: int, ticks: seq<Tick>)
    requires b.pc == 3 && b.ops == [o] && Height(b) + 4 < y.stackMax && |ticks| >= 4
    requires ((m == 8 && v == 5) || (m == 16 && v == 4)) && Img(y, h).resolve(w, o, 0) == m
    ensures Eval(Img(y, h), SlotTyping(), b, w, vmsp, ticks) == Returned([v], w, vmsp, ticks[4..])
  {
    hide Img, EvalCall, EvalAct;
    LineAt(y, h, 3);
    Kinds(y, h);
    HeadAt(y, h, m);
    assert GoodTarget(Img(y, h), SlotTyping(), 3, 7, 1, m);
    assert Eval(Img(y, h), SlotTyping(), b, w, vmsp, ticks)
        == EvalCall(Img(y, h), SlotTyping(), b, 7, m, w, vmsp, ticks);
    Called(y, h, b, w, vmsp, o, m, v, ticks);
  }

  lemma Called(y: Layout, h: R.Host, b: Body, w: World, vmsp: int, o: int, m: int, v: int, ticks: seq<Tick>)
    requires b.pc == 3 && b.ops == [o] && Height(b) + 4 < y.stackMax && |ticks| >= 4
    requires (m == 8 && v == 5) || (m == 16 && v == 4)
    ensures EvalCall(Img(y, h), SlotTyping(), b, 7, m, w, vmsp, ticks) == Returned([v], w, vmsp, ticks[4..])
  {
    hide Img, Eval, EvalAct, SlotTyping;
    HeadAt(y, h, m);
    var c := NewBody(m, Height(b) - 1, [o], Head(1, 0), ticks[0]);
    assert [o][0..] == [o] && [o][..0] + [v] == [v];
    assert c == Body(m, m + 2, Height(b) - 1, [o], [], []);
    Answers(y, h, c, w, vmsp, v, ticks[1..]);
    ReturnsIt(y, h, b.(ops := [v], pc := 7), w, vmsp, v, ticks[1..][2..]);
    assert ticks[1..][2..][1..] == ticks[4..];
  }

  lemma Answers(y: Layout, h: R.Host, c: Body, w: World, vmsp: int, v: int, ticks: seq<Tick>)
    requires (c.pc == 10 && v == 5) || (c.pc == 18 && v == 4)
    requires c.ops == [] && Height(c) < y.stackMax && |ticks| >= 2
    ensures Eval(Img(y, h), SlotTyping(), c, w, vmsp, ticks) == Returned([v], w, vmsp, ticks[2..])
  {
    hide Img, EvalCall, EvalAct, SlotTyping;
    LineAt(y, h, c.pc);
    Kinds(y, h);
    var c' := c.(pc := c.pc + 1, ops := [v]);
    assert c.ops[0..] == [] && c.ops[..0] + [v] == [v];
    assert Eval(Img(y, h), SlotTyping(), c, w, vmsp, ticks) == Eval(Img(y, h), SlotTyping(), c', w, vmsp, ticks[1..]);
    ReturnsIt(y, h, c', w, vmsp, v, ticks[1..]);
    assert ticks[1..][1..] == ticks[2..];
  }

  lemma ReturnsIt(y: Layout, h: R.Host, b: Body, w: World, vmsp: int, v: int, ticks: seq<Tick>)
    requires (b.pc == 7 || b.pc == 11 || b.pc == 19) && b.ops == [v] && Height(b) <= y.stackMax && ticks != []
    ensures Eval(Img(y, h), SlotTyping(), b, w, vmsp, ticks) == Returned([v], w, vmsp, ticks[1..])
  {
    hide Img, EvalCall, EvalAct, SlotTyping;
    LineAt(y, h, b.pc);
    Kinds(y, h);
    assert [v][0..] == [v];
  }

  /** vmCall answers 5 for an object whose first half-word names the vtable in block 3 and 4 for one whose names the
      vtable in block 5, whatever the stack holds and wherever code and stack lie. */
  lemma DispatchAnswers(y: Layout, h: R.Host, mem: seq<int>, vmsp: int, w: World, o: int, fuel: nat)
    requires y.blockSize == 4 && y.codeBase > 0 && 0 <= vmsp && vmsp + 11 <= y.stackMax == |mem| && fuel >= 5
    requires O.Int32(o) == o && (M.Fetch(w.heap, o, 2) == 3 || M.Fetch(w.heap, o, 2) == 5)
    ensures var r := V.Call(Img(y, h), mem, vmsp, w, 0, [o], fuel);
            r.Halt? && r.w == w && r.vmsp == vmsp && r.value == if M.Fetch(w.heap, o, 2) == 3 then 5 else 4
  {
    hide Img, EvalMethod, WellFormed, V.Call, V.EntryCells, V.Oracle, M.Fetch, O.Int32, SlotTyping;
    var img, ty := Img(y, h), SlotTyping();
    Kinds(y, h);
    SlotWellFormed(y, h);
    Resolves(y, h, w, o);
    V.CallOnCells(img, ty, mem, vmsp, w, 0, [o], fuel);
    var three := M.Fetch(w.heap, o, 2) == 3;
    SlotEval(y, h, vmsp, w, o, if three then 8 else 16, if three then 5 else 4, V.EntryCells(mem, vmsp, [o]),
             V.Oracle(img, mem, vmsp, w, 0, [o], fuel));
  }
}

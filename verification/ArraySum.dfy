/** A whole program: the bytes of a method that adds up the ints of an array with a Foreach loop, and what vmCall
    answers for them. It meets every premise of the theorems about images, typings, locals and loops. */
module ArraySum {
  import opened Alu
  import opened Bytes
  import opened Options
  import opened Image
  import opened FrameMachine
  import opened Scode
  import opened ForeachLoop
  import A = Assembler
  import M = MemoryOpcodes
  import O = Opcodes
  import R = Relocation
  import S = Staleness
  import V = VmCall

  /** Two parameters, one local: sum := 0; foreach (i in array) sum := array[i] + sum; return sum. */
  function Code(): (code: seq<Byte>)
    ensures |code| == 18
  {
    [2, 1, 2, 47, 29, 30, 1, 145, 8, 184, 37, 66, 47, 142, 250, 135, 37, 227]
  }

  predicate Occurs(pc: int) { 2 <= pc <= 17 && pc != 8 && pc != 14 }

  function LineOf(pc: int): Line {
    if pc == 2 then Line(Const([0]), 3)
    else if pc == 3 then Line(StoreVar(true, 0, 1), 4)
    else if pc == 4 then Line(LoadVar(false, 0, 1), 5)
    else if pc == 5 then Line(LoadVar(false, 1, 1), 6)
    else if pc == 6 then Line(Const([-1]), 7)
    else if pc == 7 then Line(Foreach(15), 9)
    else if pc == 9 then Line(Operate(LoadElem(4)), 10)
    else if pc == 10 then Line(LoadVar(true, 0, 1), 11)
    else if pc == 11 then Line(Operate(IntBin(Add)), 12)
    else if pc == 12 then Line(StoreVar(true, 0, 1), 13)
    else if pc == 13 then Line(Jump(7), 15)
    else if pc == 15 then Line(Operate(Shuffle(3, [])), 16)
    else if pc == 16 then Line(LoadVar(true, 0, 1), 17)
    else Line(Return(1), 18)
  }

  function HeightOf(pc: int): nat {
    if pc == 2 || pc == 4 || pc == 16 then 0
    else if pc == 3 || pc == 5 || pc == 17 then 1
    else if pc == 6 then 2
    else if pc == 7 || pc == 13 || pc == 15 then 3
    else if pc == 10 || pc == 12 then 4
    else 5
  }

  function SumTyping(): Typing {
    Typing(map pc: int | 2 <= pc <= 17 && Occurs(pc) :: Spot(0, HeightOf(pc)), map[0 := 1])
  }

  /** The local is stored behind offset 3. */
  function SumStored(): S.Stored { map pc: int | 2 <= pc <= 17 && Occurs(pc) :: if pc <= 3 then {} else {0} }

  function Img(y: Layout, h: R.Host): Image { R.ImageOf(y, Code(), h) }

  lemma Operands()
    ensures Signed8(Code(), 8) == 8 && Signed8(Code(), 14) == -6
  {
    O.OneByte(Code(), 8);
    O.OneByte(Code(), 14);
  }

  lemma CodeDecodes(y: Layout, pc: int)
    requires Occurs(pc)
    ensures Decode(y, Code(), pc) == LineOf(pc)
  {
    hide Operand, Signed8, Signed16, Inlined, Transfer, Literal, Variable, Arithmetic, Branch, Storage;
    Operands();
    if pc == 2 || pc == 6 { LiteralLines(y, pc); }
    else if pc == 7 || pc == 13 { BranchLines(pc); }
    else if pc == 17 { ReturnLine(y); }
    else if pc == 9 { StorageLine(); }
    else if pc == 11 || pc == 15 { DataLines(); }
    else { VariableLines(pc); }
  }

  lemma LiteralLines(y: Layout, pc: int)
    ensures Literal(y, Code(), 2, 2) == LineOf(2) && Literal(y, Code(), 6, 1) == LineOf(6)
  {
  }

  lemma BranchLines(pc: int)
    ensures Branch(Code(), 7, 145) == LineOf(7) && Branch(Code(), 13, 142) == LineOf(13)
  {
    hide Signed8, Signed16;
    Operands();
  }

  lemma ReturnLine(y: Layout)
    ensures Transfer(y, Code(), 17, 227) == LineOf(17)
  {
    hide Operand, Switches;
  }

  lemma StorageLine()
    ensures Storage(Code(), 9, 184) == LineOf(9)
  {
    hide Operand;
  }

  lemma DataLines()
    ensures Arithmetic(66) == IntBin(Add) && Arithmetic(135) == Shuffle(3, [])
  {
  }

  lemma VariableLines(pc: int)
    ensures Variable(Code(), 3, 47) == LineOf(3) && Variable(Code(), 4, 29) == LineOf(4)
    ensures Variable(Code(), 5, 30) == LineOf(5) && Variable(Code(), 10, 37) == LineOf(10)
    ensures Variable(Code(), 12, 47) == LineOf(12) && Variable(Code(), 16, 37) == LineOf(16)
  {
    hide Operand;
  }

  lemma LineAt(y: Layout, h: R.Host, pc: int)
    requires Occurs(pc)
    ensures pc in Img(y, h).lines && Img(y, h).lines[pc] == LineOf(pc)
  {
    hide Decode, R.ImageOf, LineOf;
    CodeDecodes(y, pc);
    R.LoadedLine(y, Code(), h, pc);
  }

  lemma HeadAt0(y: Layout, h: R.Host)
    ensures 0 in Img(y, h).heads && Img(y, h).heads[0] == Head(2, 1)
  {
    hide R.ImageOf;
    R.LoadedHead(y, Code(), h, 0);
  }

  // ----- the premises of the theorems

  lemma LineFits(y: Layout, h: R.Host, pc: int)
    requires Occurs(pc)
    ensures LineOk(Img(y, h), SumTyping(), pc)
  {
    hide Img, LineOk, LineOf;
    LineAt(y, h, pc);
    HeadAt0(y, h);
    if pc <= 7 { EarlyLineFits(Img(y, h), pc); }
    else if pc <= 11 { LoopLineFits(Img(y, h), pc); }
    else { LateLineFits(Img(y, h), pc); }
  }

  lemma EarlyLineFits(img: Image, pc: int)
    requires Occurs(pc) && pc <= 7 && pc in img.lines && img.lines[pc] == LineOf(pc)
    requires 0 in img.heads && img.heads[0] == Head(2, 1)
    ensures LineOk(img, SumTyping(), pc)
  {
  }

  lemma LoopLineFits(img: Image, pc: int)
    requires Occurs(pc) && 7 < pc <= 11 && pc in img.lines && img.lines[pc] == LineOf(pc)
    requires 0 in img.heads && img.heads[0] == Head(2, 1)
    ensures LineOk(img, SumTyping(), pc)
  {
  }

  lemma LateLineFits(img: Image, pc: int)
    requires Occurs(pc) && pc > 11 && pc in img.lines && img.lines[pc] == LineOf(pc)
    requires 0 in img.heads && img.heads[0] == Head(2, 1)
    ensures LineOk(img, SumTyping(), pc)
  {
  }

  lemma SumWellFormed(y: Layout, h: R.Host)
    requires y.stackMax > 0 && y.codeBase > 0
    ensures WellFormed(Img(y, h), SumTyping())
  {
    hide LineOk, R.ImageOf, SmallHeads;
    R.LoadedRest(y, Code(), h);
    HeadAt0(y, h);
    forall pc | pc in SumTyping().at
      ensures pc >= 0 && LineOk(Img(y, h), SumTyping(), pc)
    {
      LineFits(y, h, pc);
    }
    assert At(SumTyping(), 2, 0, 0);
  }

  lemma SumDefinite(y: Layout, h: R.Host)
    ensures S.Definite(Img(y, h), SumTyping(), SumStored())
  {
    hide Img, LineOf, S.LineStored;
    assert S.Within(SumStored(), 2, {});
    forall pc | pc in SumTyping().at
      ensures pc in Img(y, h).lines && pc in SumStored() && S.LineStored(Img(y, h), SumStored(), pc)
    {
      LineAt(y, h, pc);
      StoredAt(y, h, pc);
    }
  }

  lemma StoredAt(y: Layout, h: R.Host, pc: int)
    requires Occurs(pc) && pc in Img(y, h).lines && Img(y, h).lines[pc] == LineOf(pc)
    ensures S.LineStored(Img(y, h), SumStored(), pc)
  {
    hide Img;
    assert S.Cells(0, 1) == {0};
  }

  /** At the return the operand area holds the result alone. */
  lemma SumReturnsBalanced(y: Layout, h: R.Host)
    ensures V.BalancedReturns(Img(y, h), SumTyping())
  {
    hide Img;
    forall pc | pc in SumTyping().at && pc in Img(y, h).lines && Img(y, h).lines[pc].instr.Return?
      ensures SumTyping().at[pc].height == Img(y, h).lines[pc].instr.results
    {
      LineAt(y, h, pc);
    }
  }

  // ----- the method's activation

  /** A call for an array and its length. */
  datatype Site = Site(y: Layout, fpu: (int, seq<int>) -> seq<int>, vmsp: int, w: World, array_: int, len: int)

  function ImgOf(g: Site): Image { Img(g.y, A.Quiet(g.fpu)) }

  /** Room for the method's frame and five operands. */
  predicate Fits(g: Site) {
    0 <= g.vmsp && g.vmsp + 13 <= g.y.stackMax && g.y.codeBase > 0 && -0x8000_0000 <= g.len < 0x8000_0000
  }

  function Caller(g: Site): Stack { Base(0, g.vmsp + 1) }

  function EnvAt(g: Site, sum: int): Env { Env([g.array_, g.len], [sum], g.w, g.vmsp) }

  function Cfg(g: Site, pc: int, sum: int, ops: seq<int>): Config {
    Config(g.w, g.vmsp, Executing(Frame(0, pc, [g.array_, g.len], [sum], ops, Caller(g))), Nobody)
  }

  /** A step from one configuration of the activation to another. */
  ghost predicate Goes(g: Site, pc: int, sum: int, ops: seq<int>, next: int, sum': int, ops': seq<int>) {
    forall t: Tick :: Step(ImgOf(g), SumTyping(), Cfg(g, pc, sum, ops), t) == Next(Cfg(g, next, sum', ops'))
  }

  lemma Rest(g: Site)
    ensures var img := ImgOf(g); img.stackMax == g.y.stackMax && img.alu == Unit(g.y, g.fpu)
    ensures ImgOf(g).native == A.Quiet(g.fpu).native && ImgOf(g).codeBase == g.y.codeBase
  {
    hide R.ImageOf, Unit;
    R.LoadedRest(g.y, Code(), A.Quiet(g.fpu));
  }

  /** Passing the tests, with room for what is pushed, a step is the instruction's own. */
  lemma Dispatches(g: Site, pc: int, sum: int, ops: seq<int>, t: Tick)
    requires Fits(g) && Occurs(pc) && |ops| <= 5 && PointerDepthOf(LineOf(pc).instr) < |ops|
    requires PointerDepthOf(LineOf(pc).instr) >= 0 ==> ops[|ops| - 1 - PointerDepthOf(LineOf(pc).instr)] != 0
    requires Reach(ImgOf(g), ops, g.vmsp + 7 + |ops|, LineOf(pc), g.w) <= g.y.stackMax
    ensures var c := Cfg(g, pc, sum, ops);
            Step(ImgOf(g), SumTyping(), c, t) == Dispatch(ImgOf(g), SumTyping(), c, c.control.top, LineOf(pc), t)
  {
    hide ImgOf, LineOf, Reach, Dispatch, SumTyping, Img;
    LineAt(g.y, A.Quiet(g.fpu), pc);
    Rest(g);
    ImgIs(g);
    TopEnds(g, pc, sum, ops);
    Dispatched(ImgOf(g), SumTyping(), Cfg(g, pc, sum, ops), t);
  }

  lemma TopEnds(g: Site, pc: int, sum: int, ops: seq<int>)
    ensures End(Cfg(g, pc, sum, ops).control.top) == g.vmsp + 7 + |ops|
  {
    assert End(Caller(g)) == g.vmsp + 1;
  }

  lemma ImgIs(g: Site)
    ensures ImgOf(g) == Img(g.y, A.Quiet(g.fpu))
  {
  }

  /** An instruction on operands only. */
  lemma SimpleGoes(g: Site, pc: int, sum: int, ops: seq<int>, next: int, ops': seq<int>)
    requires Fits(g) && Occurs(pc) && |ops| <= 5 && |ops'| <= 5 && Simple(LineOf(pc).instr)
    requires PointerDepthOf(LineOf(pc).instr) < |ops| && Pops(LineOf(pc).instr) <= |ops|
    requires PointerDepthOf(LineOf(pc).instr) >= 0 ==> ops[|ops| - 1 - PointerDepthOf(LineOf(pc).instr)] != 0
    requires var k := |ops| - Pops(LineOf(pc).instr);
             && k <= |ops'| && ops'[..k] == ops[..k]
             && Perform(ImgOf(g), LineOf(pc), ops[k..], g.w) == Go(ops'[k..], next, g.w)
    ensures Goes(g, pc, sum, ops, next, sum, ops')
  {
    hide ImgOf, LineOf, Perform, Step, SumTyping;
    var k := |ops| - Pops(LineOf(pc).instr);
    assert ops[..k] + ops'[k..] == ops';
    forall t: Tick
      ensures Step(ImgOf(g), SumTyping(), Cfg(g, pc, sum, ops), t) == Next(Cfg(g, next, sum, ops'))
    {
      Dispatches(g, pc, sum, ops, t);
    }
  }

  /** A load of the local or of a parameter. */
  lemma LoadGoes(g: Site, pc: int, sum: int, ops: seq<int>, next: int, v: int)
    requires Fits(g) && Occurs(pc) && |ops| <= 4
    requires (LineOf(pc) == Line(LoadVar(true, 0, 1), next) && v == sum)
             || (LineOf(pc) == Line(LoadVar(false, 0, 1), next) && v == g.array_)
             || (LineOf(pc) == Line(LoadVar(false, 1, 1), next) && v == g.len)
    ensures Goes(g, pc, sum, ops, next, sum, ops + [v])
  {
    hide ImgOf, LineOf, Step, SumTyping;
    forall t: Tick
      ensures Step(ImgOf(g), SumTyping(), Cfg(g, pc, sum, ops), t) == Next(Cfg(g, next, sum, ops + [v]))
    {
      Dispatches(g, pc, sum, ops, t);
      assert [sum][0..1] == [sum] && [g.array_, g.len][0..1] == [g.array_] && [g.array_, g.len][1..2] == [g.len];
    }
  }

  lemma StoreGoes(g: Site, pc: int, sum: int, ops: seq<int>, next: int, v: int)
    requires Fits(g) && Occurs(pc) && |ops| <= 4 && LineOf(pc) == Line(StoreVar(true, 0, 1), next)
    ensures Goes(g, pc, sum, ops + [v], next, v, ops)
  {
    hide ImgOf, LineOf, Step, SumTyping, Put;
    forall t: Tick
      ensures Step(ImgOf(g), SumTyping(), Cfg(g, pc, sum, ops + [v]), t) == Next(Cfg(g, next, v, ops))
    {
      Dispatches(g, pc, sum, ops + [v], t);
      O.WrittenPut([sum], 0, [v]);
      assert (ops + [v])[..|ops|] == ops && (ops + [v])[|ops|..] == [v];
      assert [sum][..0] + [v] + [sum][1..] == [v];
    }
  }

  // ----- the sum

  /** The first n words of an array, added up. */
  function Sum(g: Site, n: nat): int {
    if n == 0 then 0 else Sum(g, n - 1) + M.Fetch(g.w.heap, g.array_ + 4 * (n - 1), 4)
  }

  function Word(g: Site, i: int): int { O.Int32(M.Fetch(g.w.heap, g.array_ + 4 * i, 4)) }

  lemma WordLoads(g: Site, i: int)
    ensures ImgOf(g).alu(LoadElem(4), [g.array_, i], g.w) == Some(([Word(g, i)], g.w))
  {
    hide R.ImageOf, M.Fetch, GetUnsigned, Wrap32, O.Int32;
    Rest(g);
    assert g.array_ + 4 * i == g.array_ + 4 * i;
    M.FetchIs(g.w.heap, g.array_ + 4 * i, 4);
    O.Cut(M.Fetch(g.w.heap, g.array_ + 4 * i, 4));
    assert !OnNumbers(LoadElem(4)) && DataPops(LoadElem(4)) == 2;
  }

  lemma WordAdds(g: Site, v: int, sum: int)
    ensures ImgOf(g).alu(IntBin(Add), [v, sum], g.w) == Some(([O.Int32(v + sum)], g.w))
  {
    hide R.ImageOf, Wrap32, O.Int32;
    Rest(g);
    O.Cut(v + sum);
    assert OnNumbers(IntBin(Add)) && DataPops(IntBin(Add)) == 2;
  }

  // ----- one round of the loop

  lemma LoadsElement(g: Site, sum: int, i: int)
    requires Fits(g) && g.array_ != 0
    ensures Goes(g, 9, sum, [g.array_, g.len, i, g.array_, i], 10, sum, [g.array_, g.len, i, Word(g, i)])
  {
    hide ImgOf, Word, Step;
    WordLoads(g, i);
    var ops, ops' := [g.array_, g.len, i, g.array_, i], [g.array_, g.len, i, Word(g, i)];
    assert ops[3..] == [g.array_, i] && ops'[3..] == [Word(g, i)] && ops[..3] == ops'[..3];
    SimpleGoes(g, 9, sum, ops, 10, ops');
  }

  lemma AddsElement(g: Site, sum: int, i: int, v: int)
    requires Fits(g)
    ensures Goes(g, 11, sum, [g.array_, g.len, i, v, sum], 12, sum, [g.array_, g.len, i, O.Int32(v + sum)])
  {
    hide ImgOf, Step, O.Int32;
    WordAdds(g, v, sum);
    var ops, ops' := [g.array_, g.len, i, v, sum], [g.array_, g.len, i, O.Int32(v + sum)];
    assert ops[3..] == [v, sum] && ops'[3..] == [O.Int32(v + sum)] && ops[..3] == ops'[..3];
    SimpleGoes(g, 11, sum, ops, 12, ops');
  }

  lemma JumpsBack(g: Site, sum: int, i: int)
    requires Fits(g)
    ensures Goes(g, 13, sum, [g.array_, g.len, i], 7, sum, [g.array_, g.len, i])
  {
    hide ImgOf, Step;
    var ops := [g.array_, g.len, i];
    assert ops[3..] == [] && ops[..3] == ops;
    SimpleGoes(g, 13, sum, ops, 7, ops);
  }

  function LoopOf(g: Site): Loop { Loop(0, 7, {9, 10, 11, 12, 13}, Caller(g), Nobody, [], g.array_, g.len) }

  function LocalOf(e: Env): int { if |e.locals| == 1 then e.locals[0] else 0 }

  predicate IsEnv(g: Site, e: Env) { e == EnvAt(g, LocalOf(e)) }

  /** A round adds one element to the local, in five steps. */
  function WorkOf(g: Site): Work {
    Work((i: int, e: Env) => EnvAt(g, O.Int32(Word(g, i) + LocalOf(e))), (i: int, e: Env) => 5,
         (i: int, e: Env) => IsEnv(g, e))
  }

  lemma LoopCfg(g: Site, pc: int, sum: int, above: seq<int>)
    ensures LoopAt(LoopOf(g), pc, EnvAt(g, sum), above) == Cfg(g, pc, sum, [g.array_, g.len] + above)
  {
    assert [] + [g.array_, g.len] == [g.array_, g.len];
  }

  lemma KeepsOffAt(g: Site, pc: int)
    requires pc in LoopOf(g).body
    ensures pc in ImgOf(g).lines && pc in SumTyping().at && KeepsOff(ImgOf(g), SumTyping(), LoopOf(g), pc)
  {
    hide Img;
    LineAt(g.y, A.Quiet(g.fpu), pc);
  }

  lemma SumIsLoop(g: Site)
    requires Fits(g)
    ensures IsLoop(ImgOf(g), LoopOf(g)) && ImgOf(g).lines[7] == LineOf(7)
    ensures IsBody(ImgOf(g), SumTyping(), LoopOf(g))
  {
    hide Img, KeepsOff;
    LineAt(g.y, A.Quiet(g.fpu), 7);
    forall pc | pc in LoopOf(g).body
      ensures pc in ImgOf(g).lines && pc in SumTyping().at && KeepsOff(ImgOf(g), SumTyping(), LoopOf(g), pc)
    {
      KeepsOffAt(g, pc);
    }
  }

  /** A step towards the head. */
  lemma OneBack(g: Site, pc: int, sum: int, ops: seq<int>, next: int, sum': int, ops': seq<int>, ticks: seq<Tick>)
    requires Goes(g, pc, sum, ops, next, sum', ops') && ticks != [] && pc != 7
    ensures var img, ty, l, c, c' := ImgOf(g), SumTyping(), LoopOf(g), Cfg(g, pc, sum, ops), Cfg(g, next, sum', ops');
            && Run(img, ty, c, ticks) == Run(img, ty, c', ticks[1..])
            && (Back(img, ty, l, c', ticks[1..]) ==> Back(img, ty, l, c, ticks))
  {
    hide ImgOf, Step, SumTyping;
  }

  lemma RoundSteps(g: Site, sum: int, i: int, ticks: seq<Tick>)
    requires Fits(g) && g.array_ != 0 && |ticks| == 5
    ensures var img, ty, l := ImgOf(g), SumTyping(), LoopOf(g);
            var c, c' := Cfg(g, 9, sum, [g.array_, g.len, i, g.array_, i]),
                         Cfg(g, 7, O.Int32(Word(g, i) + sum), [g.array_, g.len, i]);
            Run(img, ty, c, ticks) == Next(c') && Back(img, ty, l, c, ticks)
  {
    hide ImgOf, Step, SumTyping, Goes, Word, O.Int32, Cfg;
    var own, v := [g.array_, g.len, i], Word(g, i);
    var more := O.Int32(v + sum);
    LoadsElement(g, sum, i);
    LoadGoes(g, 10, sum, own + [v], 11, sum);
    assert own + [v] == [g.array_, g.len, i, v] && own + [v] + [sum] == [g.array_, g.len, i, v, sum];
    AddsElement(g, sum, i, v);
    StoreGoes(g, 12, sum, own, 13, more);
    assert own + [more] == [g.array_, g.len, i, more];
    JumpsBack(g, more, i);
    assert own + [g.array_, i] == [g.array_, g.len, i, g.array_, i];
    OneBack(g, 9, sum, own + [g.array_, i], 10, sum, own + [v], ticks);
    OneBack(g, 10, sum, own + [v], 11, sum, own + [v] + [sum], ticks[1..]);
    OneBack(g, 11, sum, own + [v] + [sum], 12, sum, own + [more], ticks[1..][1..]);
    OneBack(g, 12, sum, own + [more], 13, more, own, ticks[1..][1..][1..]);
    OneBack(g, 13, more, own, 7, more, own, ticks[1..][1..][1..][1..]);
    AtTheHead(g, more, own);
    assert ticks[1..][1..][1..][1..][1..] == [];
  }

  lemma AtTheHead(g: Site, sum: int, ops: seq<int>)
    ensures AtHead(LoopOf(g), Cfg(g, 7, sum, ops))
    ensures Back(ImgOf(g), SumTyping(), LoopOf(g), Cfg(g, 7, sum, ops), [])
  {
  }

  lemma SumBalanced(g: Site)
    requires Fits(g) && (g.array_ != 0 || g.len <= 0)
    ensures IsLoop(ImgOf(g), LoopOf(g)) && Balanced(ImgOf(g), SumTyping(), LoopOf(g), WorkOf(g))
  {
    hide ImgOf, SumTyping, Typed, HasRoom, Round, WorkOf;
    SumIsLoop(g);
    var img, ty, l, k := ImgOf(g), SumTyping(), LoopOf(g), WorkOf(g);
    forall i: int, e: Env | k.inv(i, e)
      ensures HasRoom(img, l, e) && Typed(img, ty, LoopAt(l, l.at, e, [i - 1]))
    {
      WorkIs(g, i, e);
      StateOk(g, LocalOf(e), i);
    }
    forall i: int, e: Env, ticks: seq<Tick> | 0 <= i < l.len && k.inv(i, e) && |ticks| == k.cost(i, e)
      ensures Round(img, ty, l, k, i, e, ticks)
    {
      WorkIs(g, i, e);
      RoundOk(g, LocalOf(e), i, ticks);
    }
  }

  lemma WorkIs(g: Site, i: int, e: Env)
    ensures WorkOf(g).inv(i, e) == IsEnv(g, e) && WorkOf(g).cost(i, e) == 5
    ensures WorkOf(g).eff(i, e) == EnvAt(g, O.Int32(Word(g, i) + LocalOf(e)))
  {
    hide Word, O.Int32;
  }

  lemma StateOk(g: Site, sum: int, i: int)
    requires Fits(g)
    ensures HasRoom(ImgOf(g), LoopOf(g), EnvAt(g, sum))
    ensures Typed(ImgOf(g), SumTyping(), LoopAt(LoopOf(g), 7, EnvAt(g, sum), [i - 1]))
  {
    hide Img;
    Rest(g);
    HeadAt0(g.y, A.Quiet(g.fpu));
    LoopCfg(g, 7, sum, [i - 1]);
    var top := Cfg(g, 7, sum, [g.array_, g.len] + [i - 1]).control.top;
    assert SumTyping().at[7] == Spot(0, 3) && SumTyping().kind[0] == 1;
    assert StackOk(ImgOf(g), SumTyping(), top.caller, 1);
    assert StackOk(ImgOf(g), SumTyping(), top, 0);
  }

  lemma RoundOk(g: Site, sum: int, i: int, ticks: seq<Tick>)
    requires Fits(g) && g.array_ != 0 && |ticks| == 5
    requires IsLoop(ImgOf(g), LoopOf(g)) && ImgOf(g).lines[7] == LineOf(7)
    ensures Round(ImgOf(g), SumTyping(), LoopOf(g), WorkOf(g), i, EnvAt(g, sum), ticks)
  {
    hide ImgOf, SumTyping, Run, Back, Word, O.Int32, LoopAt, WorkOf;
    LoopCfg(g, 9, sum, [i, g.array_, i]);
    assert [g.array_, g.len] + [i, g.array_, i] == [g.array_, g.len, i, g.array_, i];
    RoundSteps(g, sum, i, ticks);
    WorkIs(g, i, EnvAt(g, sum));
    WorkIs(g, i + 1, EnvAt(g, O.Int32(Word(g, i) + sum)));
  }

  // ----- the whole call

  lemma Costs(g: Site, i: int, e: Env)
    ensures Cost(WorkOf(g), i, g.len, e) == if i >= g.len then 1 else 1 + 6 * (g.len - i)
    decreases g.len - i
  {
    hide WorkOf;
    WorkIs(g, i, e);
    if i < g.len { Costs(g, i + 1, WorkOf(g).eff(i, e)); }
  }

  lemma SumCut(g: Site, i: nat)
    ensures O.Int32(Word(g, i) + O.Int32(Sum(g, i))) == O.Int32(Sum(g, i + 1))
  {
    hide M.Fetch, O.Int32;
    var f := M.Fetch(g.w.heap, g.array_ + 4 * i, 4);
    assert Sum(g, i + 1) == Sum(g, i) + f;
    TwoCuts(f, Sum(g, i));
  }

  lemma TwoCuts(a: int, b: int)
    ensures O.Int32(O.Int32(a) + O.Int32(b)) == O.Int32(b + a)
  {
    hide Wrap32, O.Int32;
    O.Cut(a);
    O.Cut(b);
    O.Cut(O.Int32(a) + O.Int32(b));
    O.Cut(b + a);
    WrapSum(a, Wrap32(b));
    WrapSum(b, a);
    assert a + Wrap32(b) == Wrap32(b) + a;
  }

  /** The local holds the sum of what the rounds have seen. */
  lemma {:induction false} EffectsSum(g: Site, i: nat)
    requires i <= g.len || i == 0
    ensures var n: nat := if g.len > 0 then g.len else 0;
            Effects(WorkOf(g).eff, i, g.len, EnvAt(g, O.Int32(Sum(g, i)))) == EnvAt(g, O.Int32(Sum(g, n)))
    decreases g.len - i
  {
    hide WorkOf, Word, Sum, O.Int32;
    if i < g.len {
      WorkIs(g, i, EnvAt(g, O.Int32(Sum(g, i))));
      SumCut(g, i);
      EffectsSum(g, i + 1);
    }
  }

  lemma OneRun(g: Site, pc: int, sum: int, ops: seq<int>, next: int, sum': int, ops': seq<int>, ticks: seq<Tick>)
    requires Goes(g, pc, sum, ops, next, sum', ops') && ticks != []
    ensures Run(ImgOf(g), SumTyping(), Cfg(g, pc, sum, ops), ticks)
            == Run(ImgOf(g), SumTyping(), Cfg(g, next, sum', ops'), ticks[1..])
  {
    hide ImgOf, Step, SumTyping;
  }

  lemma Starts5(g: Site, ticks: seq<Tick>)
    requires Fits(g) && |ticks| >= 5
    ensures Run(ImgOf(g), SumTyping(), Cfg(g, 2, 0, []), ticks)
            == Run(ImgOf(g), SumTyping(), Cfg(g, 7, 0, [g.array_, g.len, -1]), ticks[5..])
  {
    hide ImgOf, Step, SumTyping, Goes, Cfg, Run;
    var a, n := g.array_, g.len;
    Pushes(g, 2, [], 3, 0);
    StoreGoes(g, 3, 0, [], 4, 0);
    LoadGoes(g, 4, 0, [], 5, a);
    LoadGoes(g, 5, 0, [a], 6, n);
    Pushes(g, 6, [a, n], 7, -1);
    assert [] + [0] == [0] && [] + [a] == [a] && [a] + [n] == [a, n] && [a, n] + [-1] == [a, n, -1];
    OneRun(g, 2, 0, [], 3, 0, [0], ticks);
    OneRun(g, 3, 0, [0], 4, 0, [], ticks[1..]);
    OneRun(g, 4, 0, [], 5, 0, [a], ticks[1..][1..]);
    OneRun(g, 5, 0, [a], 6, 0, [a, n], ticks[1..][1..][1..]);
    OneRun(g, 6, 0, [a, n], 7, 0, [a, n, -1], ticks[1..][1..][1..][1..]);
    assert ticks[1..][1..][1..][1..][1..] == ticks[5..];
  }

  lemma Pushes(g: Site, pc: int, ops: seq<int>, next: int, v: int)
    requires Fits(g) && |ops| <= 4 && ((pc == 2 && next == 3 && v == 0) || (pc == 6 && next == 7 && v == -1))
    ensures Goes(g, pc, 0, ops, next, 0, ops + [v])
  {
    hide ImgOf, Step;
    assert ops[|ops|..] == [] && (ops + [v])[|ops|..] == [v] && (ops + [v])[..|ops|] == ops[..|ops|];
    SimpleGoes(g, pc, 0, ops, next, ops + [v]);
  }

  lemma NothingLeft(g: Site, ops: seq<int>)
    requires |ops| == 3
    ensures ImgOf(g).alu(Shuffle(3, []), ops, g.w) == Some(([], g.w))
  {
    hide R.ImageOf;
    Rest(g);
    assert !OnNumbers(Shuffle(3, [])) && DataPops(Shuffle(3, [])) == 3;
    assert Picks(ops, []) == [];
  }

  lemma PopLine(g: Site, ops: seq<int>)
    requires |ops| == 3
    ensures LineOf(15) == Line(Compute(Shuffle(3, []), 3, 0, -1), 16)
    ensures Perform(ImgOf(g), LineOf(15), ops, g.w) == Go([], 16, g.w)
  {
    hide ImgOf;
    NothingLeft(g, ops);
  }

  lemma PopsThree(g: Site, sum: int, i: int)
    requires Fits(g)
    ensures Goes(g, 15, sum, [g.array_, g.len, i], 16, sum, [])
  {
    hide Step, ImgOf, Goes, LineOf, Perform;
    var ops, none: seq<int> := [g.array_, g.len, i], [];
    PopLine(g, ops);
    assert ops[0..] == ops && ops[..0] == none[..0] && none[0..] == none;
    SimpleGoes(g, 15, sum, ops, 16, none);
  }

  lemma Ends3(g: Site, sum: int, i: int, ticks: seq<Tick>)
    requires Fits(g) && |ticks| >= 3
    ensures Run(ImgOf(g), SumTyping(), Cfg(g, 15, sum, [g.array_, g.len, i]), ticks) == Halt(sum, g.w, g.vmsp)
  {
    hide ImgOf, Step, SumTyping, Goes, Cfg, Run;
    PopsThree(g, sum, i);
    LoadGoes(g, 16, sum, [], 17, sum);
    assert [] + [sum] == [sum];
    OneRun(g, 15, sum, [g.array_, g.len, i], 16, sum, [], ticks);
    OneRun(g, 16, sum, [], 17, sum, [sum], ticks[1..]);
    Returns(g, sum, ticks[1..][1..]);
  }

  lemma Returns(g: Site, sum: int, ticks: seq<Tick>)
    requires Fits(g) && ticks != []
    ensures Run(ImgOf(g), SumTyping(), Cfg(g, 17, sum, [sum]), ticks) == Halt(sum, g.w, g.vmsp)
  {
    hide ImgOf, Step, SumTyping;
    Dispatches(g, 17, sum, [sum], ticks[0]);
    assert [sum][0..] == [sum];
  }

  /** The frames' run from the first instruction. */
  lemma SumRuns(g: Site, ticks: seq<Tick>)
    requires Fits(g) && (g.array_ != 0 || g.len <= 0) && |ticks| >= 9 + 6 * (if g.len > 0 then g.len else 0)
    ensures var n: nat := if g.len > 0 then g.len else 0;
            Run(ImgOf(g), SumTyping(), Cfg(g, 2, 0, []), ticks) == Halt(O.Int32(Sum(g, n)), g.w, g.vmsp)
  {
    hide ImgOf, SumTyping, Cfg, Run, WellFormed, IsBody, Balanced, Sum, O.Int32, LoopAt, WorkOf;
    var img, ty, l, k, e := ImgOf(g), SumTyping(), LoopOf(g), WorkOf(g), EnvAt(g, 0);
    var n: nat := if g.len > 0 then g.len else 0;
    Starts5(g, ticks);
    SumIsLoop(g);
    SumBalanced(g);
    ImgIs(g);
    SumWellFormed(g.y, A.Quiet(g.fpu));
    WorkIs(g, 0, e);
    Costs(g, 0, e);
    var rest := ticks[5..];
    var loop, end := rest[..1 + 6 * n], rest[1 + 6 * n..];
    assert loop + end == rest;
    ForeachRuns(img, ty, l, k, e, loop);
    LoopCfg(g, 7, 0, [-1]);
    NoSum(g);
    EffectsSum(g, 0);
    LoopCfg(g, 15, O.Int32(Sum(g, n)), [n]);
    assert [g.array_, g.len] + [-1] == [g.array_, g.len, -1] && [g.array_, g.len] + [n] == [g.array_, g.len, n];
    RunAppend(img, ty, Cfg(g, 7, 0, [g.array_, g.len, -1]), loop, end);
    Ends3(g, O.Int32(Sum(g, n)), n, end);
  }

  lemma NoSum(g: Site)
    ensures O.Int32(Sum(g, 0)) == 0
  {
  }

  /** vmCall of these bytes adds up the array in 32 bits: for every array, length, heap, contents of the stack, place of
      code and stack, and every sufficient number of steps; the world stays as it was. */
  lemma SumAnswers(g: Site, mem: seq<int>, fuel: nat)
    requires Fits(g) && |mem| == g.y.stackMax && fuel >= 9 + 6 * (if g.len > 0 then g.len else 0)
    requires g.array_ != 0 || g.len <= 0
    ensures var n: nat := if g.len > 0 then g.len else 0;
            var o := V.Call(ImgOf(g), mem, g.vmsp, g.w, 0, [g.array_, g.len], fuel);
            o.Halt? && o.value == O.Int32(Sum(g, n)) && o.w == g.w && o.vmsp == g.vmsp
  {
    hide ImgOf, Cfg, Run, WellFormed, S.Definite, S.DeafNatives, V.Call, Sum, O.Int32, V.Blank, Begin, SumTyping;
    var img, ty := ImgOf(g), SumTyping();
    ImgIs(g);
    Rest(g);
    SumWellFormed(g.y, A.Quiet(g.fpu));
    SumDefinite(g.y, A.Quiet(g.fpu));
    A.QuietDeaf(img, ty, g.fpu);
    Begins(g, mem);
    V.CallIsFrames(img, ty, SumStored(), mem, g.vmsp, g.w, 0, [g.array_, g.len], fuel);
    SumRuns(g, V.Blank(fuel));
  }

  /** The first element of no array. */
  lemma NullRuns(g: Site, ticks: seq<Tick>)
    requires Fits(g) && g.array_ == 0 && g.len > 0 && |ticks| >= 7
    ensures Run(ImgOf(g), SumTyping(), Cfg(g, 2, 0, []), ticks) == Halt(100, g.w, g.vmsp)
  {
    hide ImgOf, SumTyping, Step, WorkOf, IsBody, LoopAt, Run;
    var img, ty, l, e := ImgOf(g), SumTyping(), LoopOf(g), EnvAt(g, 0);
    Starts5(g, ticks);
    SumIsLoop(g);
    StateOk(g, 0, 0);
    ForeachLoop.Head(img, ty, l, e, 0, ticks[5]);
    LoopCfg(g, 7, 0, [-1]);
    LoopCfg(g, 9, 0, [0, 0, 0]);
    assert [g.array_, g.len] + [-1] == [g.array_, g.len, -1];
    assert [g.array_, g.len] + [0, 0, 0] == [0, g.len, 0, 0, 0];
    RunAppend(img, ty, Cfg(g, 7, 0, [g.array_, g.len, -1]), [ticks[5]], ticks[6..]);
    assert [ticks[5]] + ticks[6..] == ticks[5..];
    NullStops(g, ticks[6..]);
  }

  lemma NullStops(g: Site, ticks: seq<Tick>)
    requires Fits(g) && g.array_ == 0 && ticks != []
    ensures Run(ImgOf(g), SumTyping(), Cfg(g, 9, 0, [0, g.len, 0, 0, 0]), ticks) == Halt(100, g.w, g.vmsp)
  {
    hide ImgOf, Img, SumTyping;
    LineAt(g.y, A.Quiet(g.fpu), 9);
    ImgIs(g);
  }

  /** For a null array with elements it answers the error 100. */
  lemma NullAnswers(g: Site, mem: seq<int>, fuel: nat)
    requires Fits(g) && |mem| == g.y.stackMax && fuel >= 7 && g.array_ == 0 && g.len > 0
    ensures var o := V.Call(ImgOf(g), mem, g.vmsp, g.w, 0, [g.array_, g.len], fuel);
            o.Halt? && o.value == 100 && o.w == g.w && o.vmsp == g.vmsp
  {
    hide ImgOf, Cfg, Run, WellFormed, S.Definite, S.DeafNatives, V.Call, V.Blank, Begin, SumTyping;
    var img, ty := ImgOf(g), SumTyping();
    ImgIs(g);
    Rest(g);
    SumWellFormed(g.y, A.Quiet(g.fpu));
    SumDefinite(g.y, A.Quiet(g.fpu));
    A.QuietDeaf(img, ty, g.fpu);
    Begins(g, mem);
    V.CallIsFrames(img, ty, SumStored(), mem, g.vmsp, g.w, 0, [g.array_, g.len], fuel);
    NullRuns(g, V.Blank(fuel));
  }

  lemma Begins(g: Site, mem: seq<int>)
    requires Fits(g) && |mem| == g.y.stackMax
    ensures 0 in SumTyping().kind
    ensures Begin(ImgOf(g), SumTyping(), g.w, g.vmsp, Nobody, 0, [g.array_, g.len],
                  V.Below(SumTyping(), mem, g.vmsp, 0))
            == Next(Cfg(g, 2, 0, []))
  {
    hide Img;
    Rest(g);
    HeadAt0(g.y, A.Quiet(g.fpu));
    assert Fit([], 2) == [0, 0] && [0, 0][1..] == [0];
  }
}

/** A test runner in bytes: k tests that each call one native, and what vmCall makes of them on every stack. */
module TestLeak {
  import opened Alu
  import opened Bytes
  import opened Options
  import opened Image
  import opened FrameMachine
  import opened Evaluator
  import opened Scode
  import opened Natives
  import O = Opcodes
  import R = Relocation
  import S = Staleness
  import V = VmCall

  /** In blocks of four bytes: a method that calls native 0::0 and returns its answer, in block 2 a void method that
      calls native 0::1, at offset 18 the block of the test table, and in block 5 the table: k entries for block 2. */
  function Code(k: nat): (code: seq<Byte>)
    requires k < 0x1_0000
    ensures |code| == 22 + 4 * k
  {
    [0, 0, 223, 0, 0, 0, 227, 0, 0, 0, 225, 0, 1, 0, 226, 0, 0, 0, 5, 0, k % 0x100, k / 0x100]
    + seq(4 * k, i => if i % 4 == 2 then 2 else 0)
  }

  /** Native 0::0 is the test runner, 0::1 does nothing. */
  function TestHost(y: Layout, fpu: (int, seq<int>) -> seq<int>, k: nat): R.Host
    requires k < 0x1_0000
  {
    R.Host(fpu, (kit: int, id: int) => kit == 0 && (id == 0 || id == 1),
           (kit: int, id: int, a: seq<int>, w: World) =>
             if kit == 0 && id == 0 && k < 0x1_0000 then DoMain(y, Code(k), w) else Finish(0, 0, w))
  }

  datatype Site = Site(y: Layout, fpu: (int, seq<int>) -> seq<int>, k: nat)

  predicate Fits(g: Site) { 0 < g.k < 0x1_0000 && g.y.blockSize == 4 && g.y.codeBase > 0 && g.y.stackMax > 0 }

  function Img(g: Site): Image
    requires g.k < 0x1_0000
  {
    R.ImageOf(g.y, Code(g.k), TestHost(g.y, g.fpu, g.k))
  }

  predicate Occurs(pc: int) { pc == 2 || pc == 6 || pc == 10 || pc == 14 }

  function LineOf(pc: int): Line {
    if pc == 2 then Line(CallNative(0, 0, 0, 1), 6)
    else if pc == 6 then Line(Return(1), 7)
    else if pc == 10 then Line(CallNative(0, 1, 0, 0), 14)
    else Line(Return(0), 15)
  }

  function TestTyping(): Typing {
    Typing(map[2 := Spot(0, 0), 6 := Spot(0, 1), 10 := Spot(8, 0), 14 := Spot(8, 0)], map[0 := 1, 8 := 0])
  }

  lemma CodeDecodes(y: Layout, k: nat, pc: int)
    requires k < 0x1_0000 && Occurs(pc)
    ensures Decode(y, Code(k), pc) == LineOf(pc)
  {
    hide Operand, Signed8, Signed16, Inlined, Arithmetic, Branch, Storage, Switches, Literal, Variable;
    O.OneByte(Code(k), pc + 1);
    O.OneByte(Code(k), pc + 2);
    O.OneByte(Code(k), pc + 3);
  }

  lemma LineAt(g: Site, pc: int)
    requires Fits(g) && Occurs(pc)
    ensures pc in Img(g).lines && Img(g).lines[pc] == LineOf(pc)
  {
    hide Decode, R.ImageOf, LineOf, Code;
    CodeLong(g.k);
    CodeDecodes(g.y, g.k, pc);
    R.LoadedLine(g.y, Code(g.k), TestHost(g.y, g.fpu, g.k), pc);
  }

  lemma CodeLong(k: nat)
    requires k < 0x1_0000
    ensures |Code(k)| >= 22 && Code(k)[0] == Code(k)[1] == Code(k)[8] == Code(k)[9] == 0
  {
  }

  lemma Rest(g: Site)
    requires Fits(g)
    ensures var img := Img(g);
            && img.stackMax == g.y.stackMax && img.codeBase > 0 && SmallHeads(img)
            && 0 in img.heads && img.heads[0] == Head(0, 0) && 8 in img.heads && img.heads[8] == Head(0, 0)
            && img.hasNative(0, 0) && img.hasNative(0, 1)
    ensures forall a: seq<int>, w: World :: Img(g).native(0, 0, a, w) == DoMain(g.y, Code(g.k), w)
    ensures forall a: seq<int>, w: World :: Img(g).native(0, 1, a, w) == Finish(0, 0, w)
  {
    hide R.ImageOf, DoMain, Code;
    CodeLong(g.k);
    R.LoadedRest(g.y, Code(g.k), TestHost(g.y, g.fpu, g.k));
    R.LoadedHead(g.y, Code(g.k), TestHost(g.y, g.fpu, g.k), 0);
    R.LoadedHead(g.y, Code(g.k), TestHost(g.y, g.fpu, g.k), 8);
  }

  lemma TestWellFormed(g: Site)
    requires Fits(g)
    ensures WellFormed(Img(g), TestTyping())
  {
    hide Img, SmallHeads;
    Rest(g);
    LineAt(g, 2);
    LineAt(g, 6);
    LineAt(g, 10);
    LineAt(g, 14);
    assert At(TestTyping(), 2, 0, 0) && At(TestTyping(), 10, 8, 0);
    assert At(TestTyping(), 6, 0, 1) && At(TestTyping(), 14, 8, 0);
  }

  /** All k tests are the method in block 2. */
  lemma TableIs(g: Site)
    requires Fits(g)
    ensures TestTable(g.y, Code(g.k)) == Some(seq(g.k, _ => 8))
  {
    hide Operand;
    var code := Code(g.k);
    TableBytes(g.y, code);
    assert O.HalfAt(code, 18) == 5 && O.HalfAt(code, 20) == g.k;
    forall i | 0 <= i < g.k
      ensures O.HalfAt(code, 24 + 4 * i) == 2
    {
      assert code[24 + 4 * i] == 2 && code[25 + 4 * i] == 0;
    }
    var ts := TestTable(g.y, code).value;
    assert ts == seq(g.k, _ => 8);
  }

  // ----- one test

  /** A test raises vm->sp by three cells, if its three saved words still fit. */
  lemma OneTest(g: Site, w: World, vmsp: int, stale: seq<int>, ticks: seq<Tick>)
    requires Fits(g) && |ticks| >= 3
    ensures var r := EvalMethod(Img(g), TestTyping(), 8, [], w, vmsp, stale, ticks);
            if vmsp + 4 <= g.y.stackMax then
              r.Returned? && |r.cells| == 1 && r.w == w && r.vmsp == vmsp + 3 && r.rest == ticks[3..]
            else r == Broken(Overran)
  {
    hide Img, EvalCall, Eval, EvalAct;
    Rest(g);
    if vmsp + 4 <= g.y.stackMax {
      var b := NewBody(8, vmsp + 1, [], Head(0, 0), Fit(stale, 1)[1..]);
      assert b == Body(8, 10, vmsp + 1, [], [], []);
      TestBody(g, b, w, vmsp, ticks);
    }
  }

  lemma TestBody(g: Site, b: Body, w: World, vmsp: int, ticks: seq<Tick>)
    requires Fits(g) && |ticks| >= 3 && b == Body(8, 10, vmsp + 1, [], [], []) && vmsp + 4 <= g.y.stackMax
    ensures Eval(Img(g), TestTyping(), b, w, vmsp, ticks) == Returned([], w, vmsp + 3, ticks[3..])
  {
    hide Img, EvalCall;
    Rest(g);
    LineAt(g, 10);
    LineAt(g, 14);
    assert b.ops[0..] == [] && b.ops[..0] + NativeResult(0, 0, 0) == [];
    assert ticks[1..][1..] == ticks[2..] && ticks[2..][1..] == ticks[3..];
    assert Eval(Img(g), TestTyping(), b, w, vmsp, ticks)
        == Eval(Img(g), TestTyping(), b.(pc := 14), w, vmsp + 3, ticks[2..]);
  }

  // ----- all tests

  lemma {:induction false} AllTests(g: Site, i: nat, w: World, vmsp: int, ticks: seq<Tick>)
    requires Fits(g) && i <= g.k && |ticks| >= 4 * (g.k - i) + 1
    ensures var r := RunTests(Img(g), TestTyping(), seq(g.k, _ => 8), i, w, vmsp, ticks);
            if i == g.k || vmsp + 3 * (g.k - i) + 1 <= g.y.stackMax then
              r == Finished(w.failures, 0, w, vmsp + 3 * (g.k - i), ticks[4 * (g.k - i) + 1..])
            else r == ActBroken(Overran)
    decreases g.k - i
  {
    hide Img, EvalMethod;
    if i < g.k {
      OneTest(g, w, vmsp, ticks[0], ticks[1..]);
      var r := EvalMethod(Img(g), TestTyping(), 8, [], w, vmsp, ticks[0], ticks[1..]);
      if r.Returned? {
        assert ticks[1..][3..] == ticks[4..];
        AllTests(g, i + 1, w, vmsp + 3, ticks[4..]);
        assert ticks[4..][4 * (g.k - i - 1) + 1..] == ticks[4 * (g.k - i) + 1..];
      }
    }
  }

  /** The native of the test runner. */
  lemma RunnerEvals(g: Site, w: World, vmsp: int, ticks: seq<Tick>)
    requires Fits(g) && |ticks| >= 4 * g.k + 1
    ensures var r := EvalAct(Img(g), TestTyping(), DoMain(g.y, Code(g.k), w), vmsp, ticks);
            if vmsp + 3 * g.k + 1 <= g.y.stackMax then
              r == Finished(w.failures, 0, w, vmsp + 3 * g.k, ticks[4 * g.k + 1..])
            else r == ActBroken(Overran)
  {
    hide Img, EvalMethod, TestTable, RunTests, DoTests, EvalAct;
    TableIs(g);
    TestsRun(Img(g), TestTyping(), seq(g.k, _ => 8), 0, w, vmsp, ticks);
    AllTests(g, 0, w, vmsp, ticks);
  }

  lemma MainEvals(g: Site, w: World, vmsp: int, stale: seq<int>, ticks: seq<Tick>)
    requires Fits(g) && 0 <= vmsp && |ticks| >= 4 * g.k + 3
    ensures var r := EvalMethod(Img(g), TestTyping(), 0, [], w, vmsp, stale, ticks);
            if vmsp + 3 * g.k + 4 <= g.y.stackMax then
              r.Returned? && r.cells == [w.failures] && r.w == w && r.vmsp == vmsp + 3 * g.k + 3
            else r == Broken(Overran)
  {
    hide Img, EvalCall, Eval, EvalAct;
    Rest(g);
    if vmsp + 4 <= g.y.stackMax {
      var b := NewBody(0, vmsp + 1, [], Head(0, 0), Fit(stale, 1)[1..]);
      assert b == Body(0, 2, vmsp + 1, [], [], []);
      MainBody(g, b, w, vmsp, ticks);
    }
  }

  lemma MainBody(g: Site, b: Body, w: World, vmsp: int, ticks: seq<Tick>)
    requires Fits(g) && |ticks| >= 4 * g.k + 3 && b == Body(0, 2, vmsp + 1, [], [], []) && vmsp + 4 <= g.y.stackMax
    ensures var r := Eval(Img(g), TestTyping(), b, w, vmsp, ticks);
            if vmsp + 3 * g.k + 4 <= g.y.stackMax then
              r.Returned? && r.cells == [w.failures] && r.w == w && r.vmsp == vmsp + 3 * g.k + 3
            else r == Broken(Overran)
  {
    hide Img, EvalCall, EvalAct, DoMain;
    Rest(g);
    LineAt(g, 2);
    LineAt(g, 6);
    RunnerEvals(g, w, vmsp + 3, ticks[1..]);
    assert b.ops[0..] == [] && b.ops[..0] + NativeResult(w.failures, 0, 1) == [w.failures];
    assert [w.failures][0..] == [w.failures];
  }

  lemma TestSound(g: Site)
    requires Fits(g)
    ensures S.DeafNatives(Img(g), TestTyping())
    ensures S.Definite(Img(g), TestTyping(), map[2 := {}, 6 := {}, 10 := {}, 14 := {}])
  {
    hide R.ImageOf, DoMain, Code;
    LineAt(g, 2);
    LineAt(g, 6);
    LineAt(g, 10);
    LineAt(g, 14);
    R.LoadedRest(g.y, Code(g.k), TestHost(g.y, g.fpu, g.k));
    forall kit: int, id: int, a: seq<int>, w: World
      ensures S.DeafAct(TestTyping(), Img(g).native(kit, id, a, w))
    {
      DoMainDeaf(TestTyping(), g.y, Code(g.k), w);
    }
  }

  /** With k tests that each call a native, vm->sp ends 3k + 3 cells higher than it was; if those cells and the
      overflow limit do not leave room, the call runs off the stack. */
  lemma TestsLeak(g: Site, mem: seq<int>, vmsp: int, w: World, fuel: nat)
    requires Fits(g) && |mem| == g.y.stackMax && 0 <= vmsp < g.y.stackMax && fuel >= 4 * g.k + 3
    ensures var o := V.Call(Img(g), mem, vmsp, w, 0, [], fuel);
            if vmsp + 3 * g.k + 4 <= g.y.stackMax then
              o.Halt? && o.value == w.failures && o.w == w && o.vmsp == vmsp + 3 * g.k + 3
            else o.Wild?
  {
    hide Img, WellFormed, EvalMethod, V.Call, S.DeafNatives, S.Definite, V.Blank, V.Below;
    Rest(g);
    TestWellFormed(g);
    TestSound(g);
    V.CallIsEval(Img(g), TestTyping(), map[2 := {}, 6 := {}, 10 := {}, 14 := {}], mem, vmsp, w, 0, [], fuel);
    MainEvals(g, w, vmsp, V.Below(TestTyping(), mem, vmsp, 0), V.Blank(fuel));
  }
}

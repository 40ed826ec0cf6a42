/** The natives that call back into the machine, as action sequences (natives/sys_Component.c:297-432,
    natives/sys_Test.c:11-50). */
module Natives {
  import opened Alu
  import opened Bytes
  import opened Options
  import opened Image
  import opened FrameMachine
  import opened Evaluator
  import opened Scode
  import opened Slots
  import F = FlatMachine
  import U = Fusion
  import K = StackLeak
  import O = Opcodes
  import R = Relocation
  import S = Staleness

  // ----- invoking an action

  /** The slot at offset `at` of the code image: the id byte of its type, and its handle. */
  function SlotAt(y: Layout, code: seq<Byte>, at: int): Slot {
    Slot(Operand(code, y.blockSize * Operand(code, at + 4, 2), 1), Operand(code, at + 6, 2))
  }

  /** The slot's type is named by the block number in bytes 4 and 5 and begins with its id, the handle is in bytes 6 and
      7. */
  lemma SlotBytes(y: Layout, code: seq<Byte>, at: nat)
    ensures SlotAt(y, code, at)
            == Slot(O.ByteAt(code, y.blockSize * O.HalfAt(code, at + 4)), O.HalfAt(code, at + 6))
  {
    hide Operand;
    O.BytesAt(code, at + 4);
    O.BytesAt(code, at + 6);
    O.OneByte(code, y.blockSize * O.HalfAt(code, at + 4));
  }

  /** Component.invoke<Type>: the action method is looked up in the component's vtable and called with the component
      and the value; its result is dropped. A slot of another type is an access error, which answers 0. */
  function Invoke(img: Image, y: Layout, code: seq<Byte>, w: World, self: int, at: int, typeId: int, value: seq<int>)
    : Act
  {
    var s := SlotAt(y, code, at);
    if s.typeId != typeId then Finish(0, 0, w)
    else CallBack(w, img.resolve(w, self, s.handle), [self] + value, (v: int, u: World) => Finish(0, 0, u))
  }

  /** It runs exactly the method a CallVirtual through that slot would, once, on the component and the value, and
      whatever that method returns or however it fails, the native returns 0 to a world only that method changed. On a
      slot of another type it runs nothing. */
  lemma InvokeRuns(img: Image, ty: Typing, y: Layout, code: seq<Byte>, w: World, self: int, at: int, typeId: int,
                   value: seq<int>, vmsp: int, ticks: seq<Tick>)
    requires ticks != []
    ensures var s := SlotAt(y, code, at);
            EvalAct(img, ty, Invoke(img, y, code, w, self, at, typeId, value), vmsp, ticks)
            == if s.typeId != typeId then Finished(0, 0, w, vmsp, ticks[1..])
               else
                 match EvalMethod(img, ty, img.resolve(w, self, s.handle), [self] + value, w, vmsp, ticks[0],
                                  ticks[1..])
                 case Returned(_, u, sp, rest) => if rest == [] then ActOutOfTicks else Finished(0, 0, u, sp, rest[1..])
                 case Failed(_, u, sp, rest) => if rest == [] then ActOutOfTicks else Finished(0, 0, u, sp, rest[1..])
                 case OutOfTicks => ActOutOfTicks
                 case Broken(why) => ActBroken(why)
  {
    hide EvalMethod, SlotAt;
    if SlotAt(y, code, at).typeId == typeId {
      var act := Invoke(img, y, code, w, self, at, typeId, value);
      assert forall v: int, u: World :: act.resume(v, u) == Finish(0, 0, u);
    }
  }

  /** It does not listen to what the action answers, so what a void action leaves on the stack does not matter. */
  lemma InvokeDeaf(img: Image, ty: Typing, y: Layout, code: seq<Byte>, w: World, self: int, at: int, typeId: int,
                   value: seq<int>)
    ensures S.DeafAct(ty, Invoke(img, y, code, w, self, at, typeId, value))
  {
    hide SlotAt;
    var act := Invoke(img, y, code, w, self, at, typeId, value);
    forall k: nat
      ensures S.DeafFor(ty, k, act)
    {
      if k > 0 && act.CallBack? {
        forall v: int, u: World
          ensures S.DeafFor(ty, k - 1, act.resume(v, u))
        {
          assert act.resume(v, u) == Finish(0, 0, u);
        }
      }
    }
  }

  // ----- the test runner

  /** The test table the image's header names, if there is one: pairs of a name and a method. */
  function TestTable(y: Layout, code: seq<Byte>): Option<seq<int>> {
    var block := Operand(code, 18, 2);
    var at := y.blockSize * block;
    var n := Operand(code, at, 2);
    if block == 0 || n == 0 then None
    else Some(seq(n, i => y.blockSize * Operand(code, at + 4 + 4 * i, 2)))
  }

  /** Bytes 18 and 19 of the image name the block of the table: the number of tests, and from byte 4 on entries of four
      bytes whose first half is the method's block. */
  lemma TableBytes(y: Layout, code: seq<Byte>)
    ensures var at := y.blockSize * O.HalfAt(code, 18);
            var n := O.HalfAt(code, at);
            if O.HalfAt(code, 18) == 0 || n == 0 then TestTable(y, code) == None
            else
              && n > 0 && TestTable(y, code).Some? && |TestTable(y, code).value| == n
              && forall i | 0 <= i < n :: TestTable(y, code).value[i] == y.blockSize * O.HalfAt(code, at + 4 + 4 * i)
  {
    hide Operand;
    O.BytesAt(code, 18);
    O.BlockStart(y.blockSize, O.HalfAt(code, 18));
    var at := y.blockSize * O.HalfAt(code, 18);
    O.BytesAt(code, at);
    forall i | 0 <= i < O.HalfAt(code, at)
      ensures Operand(code, at + 4 + 4 * i, 2) == O.HalfAt(code, at + 4 + 4 * i)
    {
      O.BytesAt(code, at + 4 + 4 * i);
    }
  }

  /** Test.doMain from test i on; the counters are read when the last test is done. */
  function DoTests(tests: seq<int>, i: nat, w: World): Act
    decreases |tests| - i
  {
    if i >= |tests| then Finish(w.failures, 0, w)
    else CallBack(w, tests[i], [], (v: int, u: World) => DoTests(tests, i + 1, u))
  }

  /** Without tests it answers -1. */
  function DoMain(y: Layout, code: seq<Byte>, w: World): Act {
    match TestTable(y, code)
    case None => Finish(-1, 0, w)
    case Some(ts) => DoTests(ts, 0, w)
  }

  /** The tests one after the other, each in the world and with the vm->sp its predecessor left; a test that fails
      does not stop the others. */
  ghost function RunTests(img: Image, ty: Typing, tests: seq<int>, i: nat, w: World, vmsp: int, ticks: seq<Tick>)
    : ActResult
    decreases |tests| - i
  {
    if ticks == [] then ActOutOfTicks
    else if i >= |tests| then Finished(w.failures, 0, w, vmsp, ticks[1..])
    else
      match EvalMethod(img, ty, tests[i], [], w, vmsp, ticks[0], ticks[1..])
      case Returned(_, u, sp, rest) => RunTests(img, ty, tests, i + 1, u, sp, rest)
      case Failed(_, u, sp, rest) => RunTests(img, ty, tests, i + 1, u, sp, rest)
      case OutOfTicks => ActOutOfTicks
      case Broken(why) => ActBroken(why)
  }

  lemma {:induction false} TestsRun(img: Image, ty: Typing, tests: seq<int>, i: nat, w: World, vmsp: int,
                                    ticks: seq<Tick>)
    ensures EvalAct(img, ty, DoTests(tests, i, w), vmsp, ticks) == RunTests(img, ty, tests, i, w, vmsp, ticks)
    decreases |tests| - i
  {
    hide EvalMethod;
    if ticks != [] && i < |tests| {
      var r := EvalMethod(img, ty, tests[i], [], w, vmsp, ticks[0], ticks[1..]);
      var act := DoTests(tests, i, w);
      if r.Returned? {
        assert act.resume(r.cells[0], r.w) == DoTests(tests, i + 1, r.w);
        TestsRun(img, ty, tests, i + 1, r.w, r.vmsp, r.rest);
      } else if r.Failed? {
        assert act.resume(r.code, r.w) == DoTests(tests, i + 1, r.w);
        TestsRun(img, ty, tests, i + 1, r.w, r.vmsp, r.rest);
      }
    }
  }

  lemma {:induction false} TestsCount(img: Image, ty: Typing, tests: seq<int>, i: nat, w: World, vmsp: int,
                                      ticks: seq<Tick>)
    ensures var r := RunTests(img, ty, tests, i, w, vmsp, ticks); r.Finished? ==> r.lo == r.w.failures
    decreases |tests| - i
  {
    hide EvalMethod;
    if ticks != [] && i < |tests| {
      var r := EvalMethod(img, ty, tests[i], [], w, vmsp, ticks[0], ticks[1..]);
      if r.Returned? || r.Failed? {
        TestsCount(img, ty, tests, i + 1, r.w, r.vmsp, r.rest);
      }
    }
  }

  /** doMain runs every test of the table, in order, and answers the failure counter as the last one left it; with no
      table or an empty one it runs nothing and answers -1. */
  lemma DoMainRunsTests(img: Image, ty: Typing, y: Layout, code: seq<Byte>, w: World, vmsp: int, ticks: seq<Tick>)
    ensures var r, tests := EvalAct(img, ty, DoMain(y, code, w), vmsp, ticks), TestTable(y, code);
            if tests.None? then r == if ticks == [] then ActOutOfTicks else Finished(-1, 0, w, vmsp, ticks[1..])
            else r == RunTests(img, ty, tests.value, 0, w, vmsp, ticks) && (r.Finished? ==> r.lo == r.w.failures)
  {
    hide RunTests, EvalMethod, TestTable;
    var tests := TestTable(y, code);
    if tests.Some? {
      TestsRun(img, ty, tests.value, 0, w, vmsp, ticks);
      TestsCount(img, ty, tests.value, 0, w, vmsp, ticks);
    }
  }

  lemma {:induction false} TestsDeaf(ty: Typing, tests: seq<int>, i: nat, w: World, k: nat)
    ensures S.DeafFor(ty, k, DoTests(tests, i, w))
    decreases k
  {
    var act := DoTests(tests, i, w);
    if k > 0 && i < |tests| {
      assert forall v: int, u: World :: act.resume(v, u) == DoTests(tests, i + 1, u);
      forall v: int, u: World
        ensures S.DeafFor(ty, k - 1, act.resume(v, u))
      {
        TestsDeaf(ty, tests, i + 1, u, k - 1);
      }
    }
  }

  /** Nor does the test runner listen to its tests. */
  lemma DoMainDeaf(ty: Typing, y: Layout, code: seq<Byte>, w: World)
    ensures S.DeafAct(ty, DoMain(y, code, w))
  {
    hide TestTable;
    var tests := TestTable(y, code);
    forall k: nat
      ensures S.DeafFor(ty, k, DoMain(y, code, w))
    {
      if tests.Some? { TestsDeaf(ty, tests.value, 0, w, k); }
    }
  }

  // ----- the test runner runs out of stack

  /** The test runner is in control, about to run test i. */
  ghost predicate AtTest(s: F.Flat, tests: seq<int>, i: nat) {
    s.mode.InNative? && exists u :: s.mode.act == DoTests(tests, i, u)
  }

  lemma {:induction false} TestsGoOn(img: Image, s: F.Flat, tests: seq<int>, i: nat, w: World, fuels: seq<nat>,
                                     s': F.Flat)
    requires s.mode.InNative? && s.mode.act == DoTests(tests, i, w) && K.Repeats(img, s, fuels, s')
    ensures AtTest(s', tests, i + |fuels|)
    ensures fuels != [] ==> i + |fuels| <= |tests|
    decreases |fuels|
  {
    hide K.Callback, K.CallbackCalls;
    if fuels != [] {
      var s1 := K.Callback(img, s, fuels[0]).s;
      assert i < |tests|;
      var v :| s1.mode.act == K.Waits(s).resume(v, s1.w);
      assert s1.mode.act == DoTests(tests, i + 1, s1.w);
      TestsGoOn(img, s1, tests, i + 1, s1.w, fuels[1..], s');
    }
  }

  /** After k tests that each called a native vm->sp is at least 3k cells higher, because nothing puts it back between
      the tests: so they can only all have ended when vm->sp + 3k is still within the stack. */
  lemma TestsRunOut(img: Image, ty: Typing, s: F.Flat, pad: seq<int>, c: Config, y: Layout, code: seq<Byte>,
                    tests: seq<int>, fuels: seq<nat>, s': F.Flat)
    requires WellFormed(img, ty) && K.Good(img, ty, s, pad, c)
    requires TestTable(y, code) == Some(tests)
    requires s.mode.InNative? && s.mode.act == DoMain(y, code, s.w) && K.Repeats(img, s, fuels, s')
    ensures AtTest(s', tests, |fuels|) && s'.vmsp >= s.vmsp + 3 * |fuels| && s.vmsp + 3 * |fuels| < img.stackMax
  {
    hide WellFormed, K.Good, K.Repeats, DoTests, TestTable;
    TestsGoOn(img, s, tests, 0, s.w, fuels, s');
    K.RunsOut(img, ty, s, pad, c, fuels, s');
  }

  // ----- the same natives on a relocated image

  /** Component.invoke does the same on an image and on its expansion, when the slot's bytes stay and the vtable entry
      is rewritten. */
  lemma InvokeMoves(img: Image, img': Image, p: U.Plan, y: Layout, was: seq<Byte>, code: seq<Byte>, w: World, self: int,
                    at: int, typeId: int, value: seq<int>)
    requires U.TablesMove(img, img', p) && SlotAt(y, code, at) == SlotAt(y, was, at)
    requires p.dispatch(w, self, SlotAt(y, was, at).handle)
    ensures U.ActsAlike(p, Invoke(img, y, was, w, self, at, typeId, value),
                        Invoke(img', y, code, w, self, at, typeId, value))
  {
    hide SlotAt;
    var a, a' := Invoke(img, y, was, w, self, at, typeId, value), Invoke(img', y, code, w, self, at, typeId, value);
    forall k: nat
      ensures U.ActAlike(p, k, a, a')
    {
      if k > 0 && a.CallBack? {
        forall v: int, u: World
          ensures U.ActAlike(p, k - 1, a.resume(v, u), a'.resume(v, u))
        {
          assert a.resume(v, u) == Finish(0, 0, u) && a'.resume(v, u) == Finish(0, 0, u);
        }
      }
    }
  }

  /** The table names the same tests, where they have gone. */
  predicate TestsMoved(p: U.Plan, ts: seq<int>, ts': seq<int>) {
    |ts'| == |ts| && forall k | 0 <= k < |ts| :: ts[k] in p.methods ==> ts'[k] == p.meth(ts[k])
  }

  lemma {:induction false} TestsAlike(p: U.Plan, ts: seq<int>, ts': seq<int>, i: nat, w: World, k: nat)
    requires TestsMoved(p, ts, ts')
    ensures U.ActAlike(p, k, DoTests(ts, i, w), DoTests(ts', i, w))
    decreases k
  {
    var a, a' := DoTests(ts, i, w), DoTests(ts', i, w);
    if k > 0 && i < |ts| {
      assert forall v: int, u: World :: a.resume(v, u) == DoTests(ts, i + 1, u);
      assert forall v: int, u: World :: a'.resume(v, u) == DoTests(ts', i + 1, u);
      forall v: int, u: World
        ensures U.ActAlike(p, k - 1, a.resume(v, u), a'.resume(v, u))
      {
        TestsAlike(p, ts, ts', i + 1, u, k - 1);
      }
    }
  }

  /** So does the test runner, when the entries of the test table are rewritten like those of a vtable. */
  lemma DoMainMoves(y: Layout, was: seq<Byte>, ty: Typing, code: seq<Byte>, p: U.Plan, w: World)
    requires Operand(code, 18, 2) == Operand(was, 18, 2) && p.methods == ty.kind.Keys
    requires var at := y.blockSize * Operand(was, 18, 2);
             && Operand(code, at, 2) == Operand(was, at, 2)
             && forall i | 0 <= i < Operand(was, at, 2) :: R.EntryMoves(y, was, ty, code, p, at + 4 + 4 * i)
    ensures U.ActsAlike(p, DoMain(y, was, w), DoMain(y, code, w))
  {
    hide Operand, DoTests;
    var ts, ts' := TestTable(y, was), TestTable(y, code);
    if ts.Some? {
      TablesAlike(y, was, ty, code, p, y.blockSize * Operand(was, 18, 2));
    }
    forall k: nat
      ensures U.ActAlike(p, k, DoMain(y, was, w), DoMain(y, code, w))
    {
      if ts.Some? { TestsAlike(p, ts.value, ts'.value, 0, w, k); }
    }
  }

  lemma TablesAlike(y: Layout, was: seq<Byte>, ty: Typing, code: seq<Byte>, p: U.Plan, at: int)
    requires p.methods == ty.kind.Keys && at == y.blockSize * Operand(was, 18, 2)
    requires Operand(code, 18, 2) == Operand(was, 18, 2) && Operand(code, at, 2) == Operand(was, at, 2)
    requires forall i | 0 <= i < Operand(was, at, 2) :: R.EntryMoves(y, was, ty, code, p, at + 4 + 4 * i)
    requires TestTable(y, was).Some?
    ensures TestTable(y, code).Some? && TestsMoved(p, TestTable(y, was).value, TestTable(y, code).value)
  {
    hide Operand;
    var ts, ts' := TestTable(y, was).value, TestTable(y, code).value;
    forall i | 0 <= i < |ts|
      ensures ts[i] in p.methods ==> ts'[i] == p.meth(ts[i])
    {
      assert R.EntryMoves(y, was, ty, code, p, at + 4 + 4 * i);
    }
  }
}

/** What vmCall answers for methods of a few bytes that apply one opcode to their parameters: the opcode numbers, from
    the bytes of the image to the value the host gets. */
module Answers {
  import opened Alu
  import opened Bytes
  import opened Image
  import opened Opcodes
  import opened LongOpcodes
  import opened Scode
  import opened ControlOpcodes
  import F = FlatMachine
  import R = Relocation
  import V = VmCall

  /** A call of the method at offset 0, without locals. */
  datatype Site = Site(y: Layout, code: seq<Byte>, h: R.Host, mem: seq<int>, vmsp: int, w: World, args: seq<int>)

  predicate Words(s: seq<int>) { forall k | 0 <= k < |s| :: Int32(s[k]) == s[k] }

  /** The header counts the arguments, and there is room for a few operands. */
  predicate Fits(g: Site) {
    && |g.code| >= 3 && g.code[0] == |g.args| && g.code[1] == 0 && |g.mem| == g.y.stackMax
    && 0 <= g.vmsp && g.vmsp + |g.args| + 10 <= |g.mem|
    && Words(g.mem) && Words(g.args) && Int32(g.y.codeBase) == g.y.codeBase
  }

  /** What the call answers after at most `fuel` steps. */
  ghost function Call(g: Site, fuel: nat): F.Outcome {
    V.Call(R.ImageOf(g.y, g.code, g.h), g.mem, g.vmsp, g.w, 0, g.args, fuel)
  }

  /** The host gets v, and the world is as it was. */
  ghost predicate Gives(g: Site, fuel: nat, v: int) {
    Call(g, fuel).Halt? && Call(g, fuel).value == v && Call(g, fuel).w == g.w && Call(g, fuel).vmsp == g.vmsp
  }

  /** A call with another number of arguments than the header counts answers the error 102 before anything runs. */
  lemma WrongCount(y: Layout, code: seq<Byte>, h: R.Host, mem: seq<int>, vmsp: int, w: World, target: nat,
                   args: seq<int>, fuel: nat)
    requires target + 1 < |code| && code[target] != |args|
    ensures V.Call(R.ImageOf(y, code, h), mem, vmsp, w, target, args, fuel) == F.Halt(102, mem, vmsp, w)
  {
    hide R.ImageOf;
    R.LoadedHead(y, code, h, target);
  }

  // ----- the machine while it runs such a method

  /** Arguments, saved words and operands lie above vm->sp. */
  function Cells(g: Site, ops: seq<int>): seq<int> { g.args + [0, 0, g.y.codeBase] + ops }

  function RegsAt(g: Site, n: nat, cp: int): F.Regs {
    var fp := g.vmsp + 1 + |g.args|;
    F.Regs(fp + 2 + n, cp, fp, g.vmsp + 1, fp + 3, |g.args|, 0)
  }

  /** The machine with these operands on the stack; what lies above them does not matter. */
  ghost predicate Shows(g: Site, ops: seq<int>, cp: int, s: F.Flat) {
    && Fits(g) && |ops| <= 4 && 0 <= cp < |g.code|
    && s.vmsp == g.vmsp && s.w == g.w && s.mode == F.Running(RegsAt(g, |ops|, cp)) && s.chain == F.Outside
    && |s.mem| == |g.mem| && Words(s.mem)
    && s.mem[g.vmsp + 1..g.vmsp + 1 + |g.args| + 3 + |ops|] == Cells(g, ops)
  }

  function PointAt(g: Site, ops: seq<int>, cp: int, s: F.Flat): Point {
    Point(g.y, g.code, g.h, s, RegsAt(g, |ops|, cp))
  }

  function Img(g: Site): Image { R.ImageOf(g.y, g.code, g.h) }

  lemma PointReady(g: Site, ops: seq<int>, cp: int, s: F.Flat)
    requires Shows(g, ops, cp, s)
    ensures var p := PointAt(g, ops, cp, s);
            && Ready(p) && ImageAt(p) == Img(g) && U1(p, 0) == g.code[cp]
            && (forall k | 0 <= k :: U1(p, k) == ByteAt(g.code, cp + k))
            && (forall d | 0 <= d < |ops| :: Top(p, d) == ops[|ops| - 1 - d])
            && forall k | 0 <= k < |g.args| :: s.mem[g.vmsp + 1 + k] == g.args[k]
  {
    hide Int32, R.ImageOf;
    var p := PointAt(g, ops, cp, s);
    var m := s.mem[g.vmsp + 1..g.vmsp + 1 + |g.args| + 3 + |ops|];
    forall d | 0 <= d < |ops|
      ensures Top(p, d) == ops[|ops| - 1 - d]
    {
      CellsAt(g, ops, |ops| - 1 - d);
      assert m[|g.args| + 3 + (|ops| - 1 - d)] == Cells(g, ops)[|g.args| + 3 + (|ops| - 1 - d)];
    }
    forall k | 0 <= k < |g.args|
      ensures s.mem[g.vmsp + 1 + k] == g.args[k]
    {
      assert m[k] == Cells(g, ops)[k] == g.args[k];
    }
  }

  lemma CellsAt(g: Site, ops: seq<int>, k: nat)
    requires k < |ops|
    ensures |Cells(g, ops)| == |g.args| + 3 + |ops| && Cells(g, ops)[|g.args| + 3 + k] == ops[k]
  {
  }

  lemma WrittenWords(mem: seq<int>, at: int, ws: seq<int>)
    requires 0 <= at && at + |ws| <= |mem| && Words(mem) && Words(ws)
    ensures |Written(mem, at, ws)| == |mem| && Words(Written(mem, at, ws))
  {
    hide Int32;
  }

  lemma WrittenBehind(mem: seq<int>, from: int, at: int, ws: seq<int>)
    requires 0 <= from <= at && at + |ws| <= |mem|
    ensures Written(mem, at, ws)[from..at + |ws|] == mem[from..at] + ws
  {
  }

  /** After k steps the call c is in state s, with these operands and the arguments of g. */
  ghost predicate After(c: Site, g: Site, k: nat, ops: seq<int>, cp: int, s: F.Flat) {
    && g == c.(args := g.args) && Shows(g, ops, cp, s)
    && forall fuel: nat | fuel >= k :: Call(c, fuel) == F.Run(Img(g), s, fuel - k)
  }

  lemma Enters(g: Site) returns (s: F.Flat)
    requires Fits(g)
    ensures After(g, g, 0, [], 2, s)
  {
    hide Int32, R.ImageOf, Put, Written, F.Run, Words;
    var saved := g.args + [0, 0, g.y.codeBase];
    var img := Img(g);
    R.LoadedHead(g.y, g.code, g.h, 0);
    R.LoadedRest(g.y, g.code, g.h);
    s := F.Flat(Written(g.mem, g.vmsp + 1, saved), g.vmsp, g.w, F.Running(RegsAt(g, 0, 2)), F.Outside);
    WrittenPut(g.mem, g.vmsp + 1, saved);
    SavedWords(g);
    WrittenWords(g.mem, g.vmsp + 1, saved);
    WrittenBehind(g.mem, g.vmsp + 1, g.vmsp + 1, saved);
    assert F.Enter(img, g.mem, g.vmsp, g.w, F.Outside, 0, g.args) == F.Next(s);
    assert g.mem[g.vmsp + 1..g.vmsp + 1] + saved == Cells(g, []);
  }

  lemma SavedWords(g: Site)
    requires Fits(g)
    ensures Words(g.args + [0, 0, g.y.codeBase])
  {
    assert Int32(0) == 0;
    hide Int32;
  }

  lemma RunOn(img: Image, s: F.Flat, t: F.Flat, n: nat)
    requires F.Step(img, s) == F.Next(t) && n > 0
    ensures F.Run(img, s, n) == F.Run(img, t, n - 1)
  {
  }

  lemma Onward(c: Site, g: Site, k: nat, ops: seq<int>, cp: int, s: F.Flat, g': Site, more: seq<int>, next: int,
               t: F.Flat)
    requires After(c, g, k, ops, cp, s) && F.Step(Img(g), s) == F.Next(t)
    requires g' == g.(args := g'.args) && Shows(g', more, next, t)
    ensures After(c, g', k + 1, more, next, t)
  {
    hide Shows, F.Step, F.Run, Call, R.ImageOf;
    forall fuel: nat | fuel >= k + 1
      ensures Call(c, fuel) == F.Run(Img(g'), t, fuel - (k + 1))
    {
      assert Call(c, fuel) == F.Run(Img(g), s, fuel - k);
      RunOn(Img(g), s, t, fuel - k);
    }
  }

  lemma PartOfCells(mem: seq<int>, from: int, n: nat, k: nat)
    requires 0 <= from && k <= n && from + n <= |mem|
    ensures mem[from..from + n][..k] == mem[from..from + k]
  {
  }

  /** A step on the operands. */
  lemma Operates(c: Site, g: Site, k: nat, ops: seq<int>, cp: int, s: F.Flat, n: nat, ws: seq<int>, next: int)
    returns (t: F.Flat)
    requires After(c, g, k, ops, cp, s) && n <= |ops| && |ops| - n + |ws| <= 4 && Words(ws) && 0 <= next < |g.code|
    requires Goes(PointAt(g, ops, cp, s), n, ws, next)
    ensures After(c, g, k + 1, ops[..|ops| - n] + ws, next, t)
  {
    hide Int32, R.ImageOf, F.Step, Written, Words, Call, F.Run;
    var p := PointAt(g, ops, cp, s);
    var at := p.r.sp + 1 - n;
    t := s.(mem := Written(s.mem, at, ws), mode := F.Running(p.r.(sp := p.r.sp - n + |ws|, cp := next)));
    WrittenWords(s.mem, at, ws);
    WrittenBehind(s.mem, g.vmsp + 1, at, ws);
    PartOfCells(s.mem, g.vmsp + 1, |g.args| + 3 + |ops|, |g.args| + 3 + |ops| - n);
    assert Cells(g, ops)[..|g.args| + 3 + |ops| - n] + ws == Cells(g, ops[..|ops| - n] + ws);
    Onward(c, g, k, ops, cp, s, g, ops[..|ops| - n] + ws, next, t);
  }

  lemma ArgWords(g: Site, i: nat, n: nat)
    requires Fits(g) && i + n <= |g.args|
    ensures Words(g.args[i..i + n])
  {
    hide Int32;
  }

  lemma ParamCells(g: Site, ops: seq<int>, cp: int, s: F.Flat, i: nat, n: nat)
    requires Shows(g, ops, cp, s) && i + n <= |g.args|
    ensures s.mem[g.vmsp + 1 + i..g.vmsp + 1 + i + n] == g.args[i..i + n]
  {
    hide Int32, R.ImageOf;
    PointReady(g, ops, cp, s);
  }

  lemma LoadStep(p: Point, at: int, n: nat, i: nat)
    requires Ready(p) && 0 <= at && at + n <= |p.s.mem| && at == p.r.pp + i
    requires if n == 1 then i <= 3 && U1(p, 0) == 29 + i else n == 2 && U1(p, 0) == 34 && U1(p, 1) == i
    ensures Goes(p, 0, p.s.mem[at..at + n], p.r.cp + n)
  {
    hide Goes, Ready, Stores, U1;
    Variables(p);
  }

  /** LoadParam0 to LoadParam3 and LoadParamWide push arguments. */
  lemma LoadsParam(c: Site, g: Site, k: nat, ops: seq<int>, cp: int, s: F.Flat, i: nat, n: nat) returns (t: F.Flat)
    requires After(c, g, k, ops, cp, s) && |ops| + n <= 4 && i + n <= |g.args| && cp + n < |g.code|
    requires if n == 1 then i <= 3 && g.code[cp] == 29 + i else n == 2 && g.code[cp] == 34 && g.code[cp + 1] == i
    ensures After(c, g, k + 1, ops + g.args[i..i + n], cp + n, t)
  {
    hide Int32, R.ImageOf, F.Step, Written, Goes, Cells, After, Stores;
    assert Shows(g, ops, cp, s) by { AfterShows(c, g, k, ops, cp, s); }
    var p := PointAt(g, ops, cp, s);
    PointReady(g, ops, cp, s);
    ArgWords(g, i, n);
    var ws := g.args[i..i + n];
    ParamCells(g, ops, cp, s, i, n);
    LoadStep(p, g.vmsp + 1 + i, n, i);
    t := Operates(c, g, k, ops, cp, s, 0, ws, cp + n);
    assert ops[..|ops| - 0] == ops;
  }

  lemma AfterShows(c: Site, g: Site, k: nat, ops: seq<int>, cp: int, s: F.Flat)
    requires After(c, g, k, ops, cp, s)
    ensures Shows(g, ops, cp, s)
  {
  }

  /** StoreParamWide 0 makes the two operands the first two arguments. */
  lemma StoresWide(c: Site, g: Site, k: nat, ops: seq<int>, cp: int, s: F.Flat) returns (t: F.Flat)
    requires After(c, g, k, ops, cp, s) && |ops| == 2 <= |g.args| && cp + 2 < |g.code|
    requires g.code[cp] == 36 && g.code[cp + 1] == 0
    ensures After(c, g.(args := ops + g.args[2..]), k + 1, [], cp + 2, t)
  {
    hide Int32, R.ImageOf, F.Step, F.Run, Goes, Call, Written, Words, Cells, Loads;
    var p := PointAt(g, ops, cp, s);
    PointReady(g, ops, cp, s);
    Variables(p);
    var at, m := g.vmsp + 1, s.mem;
    t := s.(mem := Written(m, at, ops), mode := F.Running(RegsAt(g, 0, cp + 2)));
    TopCells(g, ops, s);
    assert Stores(p, 36, 2, p.r.pp + U1(p, 1), 2);
    ArgsReplaced(g, ops, s, cp);
    Onward(c, g, k, ops, cp, s, g.(args := ops + g.args[2..]), [], cp + 2, t);
  }

  lemma TopCells(g: Site, ops: seq<int>, s: F.Flat)
    requires Fits(g) && |ops| <= 4 && |s.mem| == |g.mem|
    requires s.mem[g.vmsp + 1..g.vmsp + 1 + |g.args| + 3 + |ops|] == Cells(g, ops)
    ensures s.mem[g.vmsp + 1 + |g.args| + 3..g.vmsp + 1 + |g.args| + 3 + |ops|] == ops
  {
    hide Int32;
    assert Cells(g, ops)[|g.args| + 3..] == ops;
  }

  lemma ArgsReplaced(g: Site, ops: seq<int>, s: F.Flat, cp: int)
    requires Shows(g, ops, cp, s) && |ops| == 2 <= |g.args|
    ensures var g', m := g.(args := ops + g.args[2..]), Written(s.mem, g.vmsp + 1, ops);
            && Fits(g') && |m| == |g.mem| && Words(m)
            && m[g.vmsp + 1..g.vmsp + 1 + |g.args| + 3] == Cells(g', [])
  {
    hide Int32;
    var at := g.vmsp + 1;
    TopCells(g, ops, s);
    OpsWords(g, ops, cp, s);
    WrittenWords(s.mem, at, ops);
    RestKept(g, ops, s.mem);
  }

  lemma RestKept(g: Site, ops: seq<int>, mem: seq<int>)
    requires Fits(g) && |ops| == 2 <= |g.args| && |mem| == |g.mem|
    requires mem[g.vmsp + 1..g.vmsp + 1 + |g.args| + 3 + |ops|] == Cells(g, ops)
    ensures Written(mem, g.vmsp + 1, ops)[g.vmsp + 1..g.vmsp + 1 + |g.args| + 3]
            == Cells(g.(args := ops + g.args[2..]), [])
  {
    hide Int32;
    var at, n := g.vmsp + 1, |g.args| + 3;
    var m := Written(mem, at, ops);
    var want := Cells(g.(args := ops + g.args[2..]), []);
    forall i | 0 <= i < n
      ensures m[at..at + n][i] == want[i]
    {
      assert m[at..at + n][i] == m[at + i];
      if i >= 2 {
        assert mem[at..at + n + 2][i] == mem[at + i];
        assert Cells(g, ops)[i] == want[i];
      }
    }
  }

  lemma OpsWords(g: Site, ops: seq<int>, cp: int, s: F.Flat)
    requires Shows(g, ops, cp, s)
    ensures Words(ops)
  {
    hide Int32;
    TopCells(g, ops, s);
  }

  /** ReturnPop hands the operand to the host. */
  lemma Ends(g: Site, ops: seq<int>, cp: int, s: F.Flat)
    requires Shows(g, ops, cp, s) && |ops| == 1 && g.code[cp] == 227
    ensures F.Step(Img(g), s) == F.Halt(ops[0], s.mem, g.vmsp, g.w)
  {
    hide Int32, R.ImageOf, F.Step;
    var p := PointAt(g, ops, cp, s);
    PointReady(g, ops, cp, s);
    var at := g.vmsp + 1;
    assert s.mem[at..at + |g.args| + 4][|g.args|] == Cells(g, ops)[|g.args|] == 0;
    assert s.mem[p.r.fp] == 0;
    Returns(p);
  }

  lemma Given(c: Site, g: Site, k: nat, ops: seq<int>, cp: int, s: F.Flat, fuel: nat)
    requires After(c, g, k, ops, cp, s) && |ops| == 1 && g.code[cp] == 227 && fuel > k
    ensures Gives(c, fuel, ops[0])
  {
    hide F.Step, R.ImageOf, Shows, Call;
    assert Shows(g, ops, cp, s);
    Ends(g, ops, cp, s);
    assert Call(c, fuel) == F.Run(Img(g), s, fuel - k);
  }

  // ----- the opcode, and how its result gets to the host

  /** The opcode consumes all operands, and ReturnPop follows. */
  lemma Narrow(g: Site, k: nat, ops: seq<int>, cp: int, s: F.Flat, v: int, fuel: nat)
    requires 0 <= cp && After(g, g, k, ops, cp, s) && cp + 2 == |g.code| && g.code[cp + 1] == 227
    requires Int32(v) == v && fuel >= k + 2 && Goes(PointAt(g, ops, cp, s), |ops|, [v], cp + 1)
    ensures Gives(g, fuel, v)
  {
    hide After, R.ImageOf, Int32, Goes;
    assert Words([v]);
    AfterShows(g, g, k, ops, cp, s);
    var t := Operates(g, g, k, ops, cp, s, |ops|, [v], cp + 1);
    assert ops[..|ops| - |ops|] + [v] == [v];
    Given(g, g, k + 1, [v], cp + 1, t, fuel);
  }

  /** StoreParamWide 0, LoadParam0 or LoadParam1, ReturnPop: the host gets one of the two cells. */
  lemma WideResult(g: Site, k: nat, ops: seq<int>, cp: int, s: F.Flat, ws: seq<int>, i: nat, fuel: nat)
    requires 0 <= cp && After(g, g, k, ops, cp, s) && |g.args| >= 2 && cp + 5 == |g.code| && i < 2 == |ws|
    requires g.code[cp + 1] == 36 && g.code[cp + 2] == 0 && g.code[cp + 3] == 29 + i && g.code[cp + 4] == 227
    requires Words(ws) && fuel >= k + 4 && Goes(PointAt(g, ops, cp, s), |ops|, ws, cp + 1)
    ensures Gives(g, fuel, ws[i])
  {
    hide After, R.ImageOf, Int32, Goes, Words;
    AfterShows(g, g, k, ops, cp, s);
    var t := Operates(g, g, k, ops, cp, s, |ops|, ws, cp + 1);
    assert ops[..|ops| - |ops|] + ws == ws;
    t := StoresWide(g, g, k + 1, ws, cp + 1, t);
    var g' := g.(args := ws + g.args[2..]);
    t := LoadsParam(g, g', k + 2, [], cp + 3, t, i, 1);
    assert [] + g'.args[i..i + 1] == [ws[i]];
    Given(g, g', k + 3, [ws[i]], cp + 4, t, fuel);
  }

  lemma RunFaults(img: Image, s: F.Flat, n: nat)
    requires F.Step(img, s) == F.Fault && n > 0
    ensures F.Run(img, s, n) == F.Fault
  {
  }

  lemma FaultEnds(g: Site, k: nat, ops: seq<int>, cp: int, s: F.Flat, fuel: nat)
    requires After(g, g, k, ops, cp, s) && fuel > k && F.Step(Img(g), s) == F.Fault
    ensures Call(g, fuel) == F.Fault
  {
    hide F.Step, R.ImageOf, Shows, Call, F.Run;
    RunFaults(Img(g), s, fuel - k);
    assert Call(g, fuel) == F.Run(Img(g), s, fuel - k);
  }

  // ----- operands

  /** A method of these bytes with as many arguments as its header says. */
  predicate Method(g: Site, code: seq<Byte>) { Fits(g) && g.code == code }

  /** In front of the byte at cp after k steps, with all arguments as operands. */
  ghost predicate InFront(g: Site, k: nat, cp: int, s: F.Flat, p: Point) {
    && After(g, g, k, g.args, cp, s) && p == PointAt(g, g.args, cp, s) && Ready(p) && U1(p, 0) == g.code[cp]
    && ImageAt(p) == Img(g) && p.s == s && p.r.cp == cp
    && forall d | 0 <= d < |g.args| :: Top(p, d) == g.args[|g.args| - 1 - d]
  }

  lemma Poised(g: Site, k: nat, cp: int, s: F.Flat) returns (p: Point)
    requires After(g, g, k, g.args, cp, s)
    ensures InFront(g, k, cp, s, p)
  {
    hide After, R.ImageOf;
    AfterShows(g, g, k, g.args, cp, s);
    p := PointAt(g, g.args, cp, s);
    PointReady(g, g.args, cp, s);
  }

  lemma OneInt(g: Site) returns (s: F.Flat, p: Point)
    requires Fits(g) && |g.args| == 1 && |g.code| >= 4 && g.code[2] == 29
    ensures InFront(g, 1, 3, s, p)
  {
    hide After, R.ImageOf;
    s := Enters(g);
    s := LoadsParam(g, g, 0, [], 2, s, 0, 1);
    assert [] + g.args[0..1] == g.args;
    p := Poised(g, 1, 3, s);
  }

  lemma TwoInts(g: Site) returns (s: F.Flat, p: Point)
    requires Fits(g) && |g.args| == 2 && |g.code| >= 5 && g.code[2] == 29 && g.code[3] == 30
    ensures InFront(g, 2, 4, s, p)
  {
    hide After, R.ImageOf;
    s := Enters(g);
    s := LoadsParam(g, g, 0, [], 2, s, 0, 1);
    s := LoadsParam(g, g, 1, [] + g.args[0..1], 3, s, 1, 1);
    assert [] + g.args[0..1] + g.args[1..2] == g.args;
    p := Poised(g, 2, 4, s);
  }

  lemma OneLong(g: Site) returns (s: F.Flat, p: Point)
    requires Fits(g) && |g.args| == 2 && |g.code| >= 5 && g.code[2] == 34 && g.code[3] == 0
    ensures InFront(g, 1, 4, s, p)
  {
    hide After, R.ImageOf;
    s := Enters(g);
    s := LoadsParam(g, g, 0, [], 2, s, 0, 2);
    assert [] + g.args[0..2] == g.args;
    p := Poised(g, 1, 4, s);
  }

  lemma TwoLongs(g: Site) returns (s: F.Flat, p: Point)
    requires Fits(g) && |g.args| == 4 && |g.code| >= 7
    requires g.code[2] == 34 && g.code[3] == 0 && g.code[4] == 34 && g.code[5] == 2
    ensures InFront(g, 2, 6, s, p)
  {
    hide After, R.ImageOf;
    s := Enters(g);
    s := LoadsParam(g, g, 0, [], 2, s, 0, 2);
    s := LoadsParam(g, g, 1, [] + g.args[0..2], 4, s, 2, 2);
    assert [] + g.args[0..2] + g.args[2..4] == g.args;
    p := Poised(g, 2, 6, s);
  }

  lemma LongAndInt(g: Site) returns (s: F.Flat, p: Point)
    requires Fits(g) && |g.args| == 3 && |g.code| >= 6 && g.code[2] == 34 && g.code[3] == 0 && g.code[4] == 31
    ensures InFront(g, 2, 5, s, p)
  {
    hide After, R.ImageOf;
    s := Enters(g);
    s := LoadsParam(g, g, 0, [], 2, s, 0, 2);
    s := LoadsParam(g, g, 1, [] + g.args[0..2], 4, s, 2, 1);
    assert [] + g.args[0..2] + g.args[2..3] == g.args;
    p := Poised(g, 2, 5, s);
  }

  // ----- ints: the method loads its parameters, runs the opcode and returns

  lemma IntsGive(g: Site, op: Byte, s: F.Flat, p: Point, v: int, fuel: nat)
    requires Method(g, [2, 0, 29, 30, op, 227]) && InFront(g, 2, 4, s, p) && fuel >= 4
    requires Int32(v) == v && Does(p, op, 1, 2, [v])
    ensures Gives(g, fuel, v)
  {
    hide After, R.ImageOf, Int32, Goes;
    Narrow(g, 2, g.args, 4, s, v, fuel);
  }

  lemma IntMathAnswers(g: Site, op: Byte, fuel: nat)
    requires Method(g, [2, 0, 29, 30, op, 227]) && fuel >= 4
    ensures var x, z := g.args[0], g.args[1];
            && (op == 63 ==> Gives(g, fuel, Int32(x * z))) && (op == 66 ==> Gives(g, fuel, Int32(x + z)))
            && (op == 67 ==> Gives(g, fuel, Int32(x - z)))
  {
    hide After, Goes, Ready, Int32, Gives;
    var s, p := TwoInts(g);
    IntMath(p);
    var x, z := g.args[0], g.args[1];
    CutTwice(x * z);
    CutTwice(x + z);
    CutTwice(x - z);
    if op == 63 { IntsGive(g, op, s, p, Int32(x * z), fuel); }
    if op == 66 { IntsGive(g, op, s, p, Int32(x + z), fuel); }
    if op == 67 { IntsGive(g, op, s, p, Int32(x - z), fuel); }
  }

  /** What C leaves undefined: division by zero, and the quotient that does not fit. */
  predicate Undivided(x: int, z: int, min: int) { z == 0 || (x == min && z == -1) }

  lemma IntDivisionAnswers(g: Site, op: Byte, fuel: nat)
    requires Method(g, [2, 0, 29, 30, op, 227]) && fuel >= 4 && (op == 64 || op == 65)
    ensures var x, z := g.args[0], g.args[1];
            if Undivided(x, z, -0x8000_0000) then Call(g, fuel) == F.Fault
            else Gives(g, fuel, Int32(if op == 64 then Quotient(x, z) else Remainder(x, z)))
  {
    hide After, Goes, Ready, Int32, Gives, Quotient, Remainder, F.Step;
    var s, p := TwoInts(g);
    Division(p);
    var x, z := g.args[0], g.args[1];
    if Undivided(x, z, -0x8000_0000) {
      FaultEnds(g, 2, g.args, 4, s, fuel);
    } else {
      CutTwice(Quotient(x, z));
      CutTwice(Remainder(x, z));
      IntsGive(g, op, s, p, Int32(if op == 64 then Quotient(x, z) else Remainder(x, z)), fuel);
    }
  }

  lemma IntShiftAnswers(g: Site, op: Byte, fuel: nat)
    requires Method(g, [2, 0, 29, 30, op, 227]) && fuel >= 4 && (op == 73 || op == 74)
    ensures var x, n := g.args[0], g.args[1];
            if 0 <= n < 32 then Gives(g, fuel, Int32(if op == 73 then x * Pow2(n) else x / Pow2(n)))
            else Call(g, fuel) == F.Fault
  {
    hide After, Goes, Ready, Int32, Gives, Pow2, F.Step;
    var s, p := TwoInts(g);
    Shifts(p);
    var x, n := g.args[0], g.args[1];
    if 0 <= n < 32 {
      CutTwice(x * Pow2(n));
      CutTwice(x / Pow2(n));
      IntsGive(g, op, s, p, Int32(if op == 73 then x * Pow2(n) else x / Pow2(n)), fuel);
    } else {
      FaultEnds(g, 2, g.args, 4, s, fuel);
    }
  }

  lemma IntCompareAnswers(g: Site, op: Byte, fuel: nat)
    requires Method(g, [2, 0, 29, 30, op, 227]) && fuel >= 4
    ensures var x, z := g.args[0], g.args[1];
            && (op == 57 || op == 129 ==> Gives(g, fuel, if x == z then 1 else 0))
            && (op == 58 || op == 130 ==> Gives(g, fuel, if x != z then 1 else 0))
            && (op == 59 ==> Gives(g, fuel, if x > z then 1 else 0))
            && (op == 60 ==> Gives(g, fuel, if x >= z then 1 else 0))
            && (op == 61 ==> Gives(g, fuel, if x < z then 1 else 0))
            && (op == 62 ==> Gives(g, fuel, if x <= z then 1 else 0))
  {
    hide After, Goes, Ready, Gives;
    var s, p := TwoInts(g);
    IntCompares(p);
    assert Int32(0) == 0 && Int32(1) == 1;
    var x, z := g.args[0], g.args[1];
    if op == 57 || op == 129 { IntsGive(g, op, s, p, if x == z then 1 else 0, fuel); }
    if op == 58 || op == 130 { IntsGive(g, op, s, p, if x != z then 1 else 0, fuel); }
    if op == 59 { IntsGive(g, op, s, p, if x > z then 1 else 0, fuel); }
    if op == 60 { IntsGive(g, op, s, p, if x >= z then 1 else 0, fuel); }
    if op == 61 { IntsGive(g, op, s, p, if x < z then 1 else 0, fuel); }
    if op == 62 { IntsGive(g, op, s, p, if x <= z then 1 else 0, fuel); }
  }

  /** Or, xor and and, bit by bit. */
  lemma IntBitAnswers(g: Site, op: Byte, fuel: nat) returns (v: int)
    requires Method(g, [2, 0, 29, 30, op, 227]) && fuel >= 4 && 68 <= op <= 70
    ensures Gives(g, fuel, v) && Int32(v) == v
    ensures forall k: nat | k < 32 ::
              var a, b := Bit(g.args[0], k), Bit(g.args[1], k);
              Bit(v, k) == if op == 68 then a || b else if op == 69 then a != b else a && b
  {
    hide After, Goes, Ready, Gives, Int32, Bit;
    var s, p := TwoInts(g);
    IntBits(p);
    if op == 68 {
      v :| Int32(v) == v && Does(p, 68, 1, 2, [v])
           && Combined((a: bool, b: bool) => a || b, v, Top(p, 1), Top(p, 0), 32);
    } else if op == 69 {
      v :| Int32(v) == v && Does(p, 69, 1, 2, [v])
           && Combined((a: bool, b: bool) => a != b, v, Top(p, 1), Top(p, 0), 32);
    } else {
      v :| Int32(v) == v && Does(p, 70, 1, 2, [v])
           && Combined((a: bool, b: bool) => a && b, v, Top(p, 1), Top(p, 0), 32);
    }
    IntsGive(g, op, s, p, v, fuel);
  }

  lemma IntUnaryAnswers(g: Site, op: Byte, fuel: nat)
    requires Method(g, [1, 0, 29, op, 227]) && fuel >= 3
    ensures var x := g.args[0];
            && (op == 71 ==> Gives(g, fuel, -1 - x)) && (op == 72 ==> Gives(g, fuel, Int32(-x)))
            && (op == 75 ==> Gives(g, fuel, Int32(x + 1))) && (op == 76 ==> Gives(g, fuel, Int32(x - 1)))
  {
    hide After, Goes, Ready, Gives, Int32;
    var s, p := OneInt(g);
    IntMath(p);
    var x := g.args[0];
    NotWord(g);
    CutTwice(-x);
    CutTwice(x + 1);
    CutTwice(x - 1);
    if op == 71 { Narrow(g, 1, g.args, 3, s, -1 - x, fuel); }
    if op == 72 { Narrow(g, 1, g.args, 3, s, Int32(-x), fuel); }
    if op == 75 { Narrow(g, 1, g.args, 3, s, Int32(x + 1), fuel); }
    if op == 76 { Narrow(g, 1, g.args, 3, s, Int32(x - 1), fuel); }
  }

  lemma NotWord(g: Site)
    requires Fits(g) && |g.args| >= 1
    ensures Int32(-1 - g.args[0]) == -1 - g.args[0]
  {
    assert Int32(g.args[0]) == g.args[0];
  }

  lemma ZeroTestAnswers(g: Site, op: Byte, fuel: nat)
    requires Method(g, [1, 0, 29, op, 227]) && fuel >= 3
    ensures op == 131 ==> Gives(g, fuel, if g.args[0] == 0 then 1 else 0)
    ensures op == 132 ==> Gives(g, fuel, if g.args[0] != 0 then 1 else 0)
  {
    hide After, Goes, Ready, Gives;
    var s, p := OneInt(g);
    ZeroTests(p);
    var x := g.args[0];
    assert Int32(0) == 0 && Int32(1) == 1;
    if op == 131 { Narrow(g, 1, g.args, 3, s, if x == 0 then 1 else 0, fuel); }
    if op == 132 { Narrow(g, 1, g.args, 3, s, if x != 0 then 1 else 0, fuel); }
  }

  // ----- longs: the host asks for cell i of the result

  /** The value of two cells, low one first. */
  function Value64(lo: int, hi: int): int { hi * 0x1_0000_0000 + lo % 0x1_0000_0000 }

  lemma LongWords(v: int)
    ensures Words(Int64(v)) && |Int64(v)| == 2
  {
    CutTwice(v);
    CutTwice(v / 0x1_0000_0000);
    hide Int32;
  }

  lemma LongsGive(g: Site, op: Byte, i: nat, s: F.Flat, p: Point, v: int, fuel: nat)
    requires i < 2 && Method(g, [4, 0, 34, 0, 34, 2, op, 36, 0, 29 + i, 227]) && InFront(g, 2, 6, s, p) && fuel >= 6
    requires Does(p, op, 1, 4, Int64(v))
    ensures Gives(g, fuel, Int64(v)[i])
  {
    hide After, R.ImageOf, Int64, Goes, Words;
    LongWords(v);
    WideResult(g, 2, g.args, 6, s, Int64(v), i, fuel);
  }

  lemma TopValues(g: Site, k: nat, cp: int, s: F.Flat, p: Point)
    requires InFront(g, k, cp, s, p)
    ensures |g.args| == 2 ==> TopLong(p, 0) == Value64(g.args[0], g.args[1])
    ensures |g.args| == 3 ==> TopLong(p, 1) == Value64(g.args[0], g.args[1]) && Top(p, 0) == g.args[2]
    ensures |g.args| == 4 ==>
              TopLong(p, 2) == Value64(g.args[0], g.args[1]) && TopLong(p, 0) == Value64(g.args[2], g.args[3])
  {
    hide After, Ready, R.ImageOf, Top;
    assert forall d | 0 <= d < |g.args| :: Top(p, d) == g.args[|g.args| - 1 - d];
  }

  lemma LongMathAnswers(g: Site, op: Byte, i: nat, fuel: nat)
    requires i < 2 && Method(g, [4, 0, 34, 0, 34, 2, op, 36, 0, 29 + i, 227]) && fuel >= 6
    ensures var x, z := Value64(g.args[0], g.args[1]), Value64(g.args[2], g.args[3]);
            && (op == 83 ==> Gives(g, fuel, Int64(x * z)[i])) && (op == 86 ==> Gives(g, fuel, Int64(x + z)[i]))
            && (op == 87 ==> Gives(g, fuel, Int64(x - z)[i]))
  {
    hide After, Goes, Ready, Int64, Gives, TopLong, Value64;
    var s, p := TwoLongs(g);
    TopValues(g, 2, 6, s, p);
    LongMath(p);
    var x, z := TopLong(p, 2), TopLong(p, 0);
    if op == 83 { LongsGive(g, op, i, s, p, x * z, fuel); }
    if op == 86 { LongsGive(g, op, i, s, p, x + z, fuel); }
    if op == 87 { LongsGive(g, op, i, s, p, x - z, fuel); }
  }

  lemma LongDivisionAnswers(g: Site, op: Byte, i: nat, fuel: nat)
    requires i < 2 && Method(g, [4, 0, 34, 0, 34, 2, op, 36, 0, 29 + i, 227]) && fuel >= 6 && (op == 84 || op == 85)
    ensures var x, z := Value64(g.args[0], g.args[1]), Value64(g.args[2], g.args[3]);
            if Undivided(x, z, -0x8000_0000_0000_0000) then Call(g, fuel) == F.Fault
            else Gives(g, fuel, Int64(if op == 84 then Quotient(x, z) else Remainder(x, z))[i])
  {
    hide After, Goes, Ready, Int64, Gives, TopLong, Value64, Quotient, Remainder, F.Step;
    var s, p := TwoLongs(g);
    TopValues(g, 2, 6, s, p);
    LongDivision(p);
    var x, z := TopLong(p, 2), TopLong(p, 0);
    if Undivided(x, z, -0x8000_0000_0000_0000) {
      FaultEnds(g, 2, g.args, 6, s, fuel);
    } else {
      LongsGive(g, op, i, s, p, if op == 84 then Quotient(x, z) else Remainder(x, z), fuel);
    }
  }

  lemma LongBitAnswers(g: Site, op: Byte, i: nat, fuel: nat) returns (v: int)
    requires i < 2 && Method(g, [4, 0, 34, 0, 34, 2, op, 36, 0, 29 + i, 227]) && fuel >= 6 && 88 <= op <= 90
    ensures Gives(g, fuel, Int64(v)[i]) && -0x8000_0000_0000_0000 <= v < 0x8000_0000_0000_0000
    ensures forall k: nat | k < 64 ::
              var a, b := Bit(Value64(g.args[0], g.args[1]), k), Bit(Value64(g.args[2], g.args[3]), k);
              Bit(v, k) == if op == 88 then a || b else if op == 89 then a != b else a && b
  {
    hide After, Goes, Ready, Gives, Int64, TopLong, Value64, Bit;
    var s, p := TwoLongs(g);
    TopValues(g, 2, 6, s, p);
    LongBits(p);
    if op == 88 {
      v :| -0x8000_0000_0000_0000 <= v < 0x8000_0000_0000_0000 && Does(p, 88, 1, 4, Int64(v))
           && Combined((a: bool, b: bool) => a || b, v, TopLong(p, 2), TopLong(p, 0), 64);
    } else if op == 89 {
      v :| -0x8000_0000_0000_0000 <= v < 0x8000_0000_0000_0000 && Does(p, 89, 1, 4, Int64(v))
           && Combined((a: bool, b: bool) => a != b, v, TopLong(p, 2), TopLong(p, 0), 64);
    } else {
      v :| -0x8000_0000_0000_0000 <= v < 0x8000_0000_0000_0000 && Does(p, 90, 1, 4, Int64(v))
           && Combined((a: bool, b: bool) => a && b, v, TopLong(p, 2), TopLong(p, 0), 64);
    }
    LongsGive(g, op, i, s, p, v, fuel);
  }

  lemma LongCompareAnswers(g: Site, op: Byte, fuel: nat)
    requires Method(g, [4, 0, 34, 0, 34, 2, op, 227]) && fuel >= 4
    ensures var x, z := Value64(g.args[0], g.args[1]), Value64(g.args[2], g.args[3]);
            && (op == 77 ==> Gives(g, fuel, if x == z then 1 else 0))
            && (op == 78 ==> Gives(g, fuel, if x != z then 1 else 0))
            && (op == 79 ==> Gives(g, fuel, if x > z then 1 else 0))
            && (op == 80 ==> Gives(g, fuel, if x >= z then 1 else 0))
            && (op == 81 ==> Gives(g, fuel, if x < z then 1 else 0))
            && (op == 82 ==> Gives(g, fuel, if x <= z then 1 else 0))
  {
    hide After, Goes, Ready, Gives, TopLong, Value64;
    var s, p := TwoLongs(g);
    TopValues(g, 2, 6, s, p);
    LongCompares(p);
    assert Int32(0) == 0 && Int32(1) == 1;
    var x, z := TopLong(p, 2), TopLong(p, 0);
    if op == 77 { Narrow(g, 2, g.args, 6, s, if x == z then 1 else 0, fuel); }
    if op == 78 { Narrow(g, 2, g.args, 6, s, if x != z then 1 else 0, fuel); }
    if op == 79 { Narrow(g, 2, g.args, 6, s, if x > z then 1 else 0, fuel); }
    if op == 80 { Narrow(g, 2, g.args, 6, s, if x >= z then 1 else 0, fuel); }
    if op == 81 { Narrow(g, 2, g.args, 6, s, if x < z then 1 else 0, fuel); }
    if op == 82 { Narrow(g, 2, g.args, 6, s, if x <= z then 1 else 0, fuel); }
  }

  lemma LongUnaryAnswers(g: Site, op: Byte, i: nat, fuel: nat)
    requires i < 2 && Method(g, [2, 0, 34, 0, op, 36, 0, 29 + i, 227]) && fuel >= 5
    ensures var x := Value64(g.args[0], g.args[1]);
            (op == 91 ==> Gives(g, fuel, Int64(-1 - x)[i])) && (op == 92 ==> Gives(g, fuel, Int64(-x)[i]))
  {
    hide After, Goes, Ready, Gives, TopLong, Value64, Int64, Words;
    var s, p := OneLong(g);
    TopValues(g, 1, 4, s, p);
    LongMath(p);
    LongWords(-1 - TopLong(p, 0));
    LongWords(-TopLong(p, 0));
    if op == 91 { WideResult(g, 1, g.args, 4, s, Int64(-1 - TopLong(p, 0)), i, fuel); }
    if op == 92 { WideResult(g, 1, g.args, 4, s, Int64(-TopLong(p, 0)), i, fuel); }
  }

  lemma LongShiftAnswers(g: Site, op: Byte, i: nat, fuel: nat)
    requires i < 2 && Method(g, [3, 0, 34, 0, 31, op, 36, 0, 29 + i, 227]) && fuel >= 6 && (op == 93 || op == 94)
    ensures var x, n := Value64(g.args[0], g.args[1]), g.args[2];
            if 0 <= n < 64 then Gives(g, fuel, Int64(if op == 93 then x * Pow2(n) else x / Pow2(n))[i])
            else Call(g, fuel) == F.Fault
  {
    hide After, Goes, Ready, Gives, TopLong, Value64, Int64, Words, Pow2, F.Step;
    var s, p := LongAndInt(g);
    TopValues(g, 2, 5, s, p);
    LongShifts(p);
    var x, n := TopLong(p, 1), g.args[2];
    if 0 <= n < 64 {
      var v := if op == 93 then x * Pow2(n) else x / Pow2(n);
      LongWords(v);
      WideResult(g, 2, g.args, 5, s, Int64(v), i, fuel);
    } else {
      FaultEnds(g, 2, g.args, 5, s, fuel);
    }
  }

  /** Widening fills the high cell with the sign, narrowing keeps the low cell. */
  lemma IntToLongAnswers(g: Site, i: nat, fuel: nat)
    requires i < 2 && Method(g, [2, 0, 34, 0, 120, 118, 36, 0, 29 + i, 227]) && fuel >= 6
    ensures Gives(g, fuel, if i == 0 then g.args[0] else if g.args[0] < 0 then -1 else 0)
  {
    hide After, Goes, Ready, Gives, Int32, R.ImageOf;
    var x := g.args[0];
    var s, p := OneLong(g);
    Conversions(p);
    assert Words([x]) by { ArgWords(g, 0, 1); assert g.args[0..1] == [x]; }
    var t := Operates(g, g, 1, g.args, 4, s, 2, [x], 5);
    assert g.args[..|g.args| - 2] + [x] == [x];
    AfterShows(g, g, 2, [x], 5, t);
    PointReady(g, [x], 5, t);
    Conversions(PointAt(g, [x], 5, t));
    var ws := [x, if x < 0 then -1 else 0];
    assert Words(ws) by { SignWords(x); }
    WideResult(g, 2, [x], 5, t, ws, i, fuel);
  }

  lemma SignWords(x: int)
    requires Int32(x) == x
    ensures Words([x, if x < 0 then -1 else 0])
  {
    assert Int32(0) == 0 && Int32(-1) == -1;
  }
}

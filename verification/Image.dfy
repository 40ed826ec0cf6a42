/** The decoded code image both machines run, and the instructions that touch
    only the operand area. Offsets count bytes from the code base. */
module Image {
  import opened Alu
  import opened Options

  datatype Instr =
    // operand area only
    | Const(ws: seq<int>)
    | Compute(data: Data, pops: nat, pushes: nat, pointer: int)
    | Jump(to: int)
    | JumpIf(onZero: bool, to: int)
    | JumpCmp(cmp: Cmp, to: int)
    | Foreach(to: int)
    | Switch(tos: seq<int>)
    | Assert
    // parameters and locals
    | LoadVar(isLocal: bool, index: nat, width: nat)
    | StoreVar(isLocal: bool, index: nat, width: nat)
    | InlineParam0(off: int)
    // frames
    | Call(withParam0: bool, target: int)
    | CallVirtual(slot: int, argc: nat)
    | CallNative(kit: int, id: int, argc: nat, results: nat)
    | Return(results: nat)
    | Unknown

  datatype Line = Line(instr: Instr, next: int)

  /** The two header bytes of a method. */
  datatype Head = Head(params: nat, locals: nat)

  /** A native method as the sequence of things it does: call back into the
      machine any number of times, then return (a wide result uses both cells). */
  datatype Act =
    | Finish(lo: int, hi: int, w: World)
    | CallBack(w: World, target: int, args: seq<int>, resume: (int, World) -> Act)

  datatype Image = Image(
    lines: map<int, Line>,
    heads: map<int, Head>,
    codeBase: int,
    stackBase: int,
    stackMax: nat,
    alu: (Data, seq<int>, World) -> Option<(seq<int>, World)>,
    resolve: (World, int, int) -> int,
    hasNative: (int, int) -> bool,
    native: (int, int, seq<int>, World) -> Act)

  /** The instruction for a data operation, with its operand counts and the depth of the cell the
      debug build tests for null (-1 for none). */
  function Operate(d: Data): Instr { Compute(d, DataPops(d), DataPushes(d), PointerDepth(d)) }

  const ERR_UNKNOWN_OPCODE := 11
  const ERR_MISSING_NATIVE := 12
  const ERR_NULL_POINTER := 100
  const ERR_STACK_OVERFLOW := 101
  const ERR_INVALID_METHOD_PARAMS := 102

  /** Code and stack addresses as cells hold them; a stack cell is four bytes. */
  function CodeCell(img: Image, off: int): int { img.codeBase + off }

  function CodeOffset(img: Image, cell: int): int { cell - img.codeBase }

  function StackCell(img: Image, index: int): int { img.stackBase + 4 * index }

  function StackIndex(img: Image, cell: int): int { (cell - img.stackBase) / 4 }

  predicate Simple(i: Instr) {
    i.Const? || i.Compute? || i.Jump? || i.JumpIf? || i.JumpCmp? || i.Foreach? || i.Switch? || i.Assert?
  }

  function Pops(i: Instr): nat
    requires Simple(i)
  {
    match i
    case Const(_) | Jump(_) => 0
    case Compute(_, pops, _, _) => pops
    case JumpIf(_, _) | Switch(_) | Assert => 1
    case JumpCmp(_, _) => 2
    case Foreach(_) => 3
  }

  datatype Effect = Go(pushed: seq<int>, pc: int, w: World) | Undefined

  /** One simple instruction: its operands (deepest first) become `pushed`, control goes to `pc`. */
  function Perform(img: Image, l: Line, a: seq<int>, w: World): Effect
    requires Simple(l.instr) && |a| == Pops(l.instr)
  {
    match l.instr
    case Const(ws) => Go(ws, l.next, w)
    case Compute(d, _, pushes, _) =>
      (match img.alu(d, a, w)
       case Some(r) => Go(Fit(r.0, pushes), l.next, r.1)
       case None => Undefined)
    case Jump(to) => Go([], to, w)
    case JumpIf(onZero, to) => Go([], if (a[0] == 0) == onZero then to else l.next, w)
    case JumpCmp(c, to) => Go([], if Compare(c, a[0], a[1]) then to else l.next, w)
    case Foreach(to) =>
      var counter := Wrap32(a[2] + 1);
      if counter >= a[1] then Go([a[0], a[1], counter], to, w)
      else Go([a[0], a[1], counter, a[0], counter], l.next, w)
    case Switch(tos) => Go([], if 0 <= a[0] < |tos| then tos[a[0]] else l.next, w)
    case Assert =>
      Go([], l.next, if a[0] == 0 then w.(failures := w.failures + 1) else w.(passes := w.passes + 1))
  }

  /** Every (target, pushed cells) pair a simple instruction can take. */
  function Flows(l: Line): set<(int, nat)>
    requires Simple(l.instr)
  {
    match l.instr
    case Const(ws) => {(l.next, |ws|)}
    case Compute(_, _, pushes, _) => {(l.next, pushes)}
    case Jump(to) => {(to, 0)}
    case JumpIf(_, to) => {(to, 0), (l.next, 0)}
    case JumpCmp(_, to) => {(to, 0), (l.next, 0)}
    case Foreach(to) => {(to, 3), (l.next, 5)}
    case Switch(tos) => {(l.next, 0)} + (set k | 0 <= k < |tos| :: (tos[k], 0))
    case Assert => {(l.next, 0)}
  }

  lemma PerformFlows(img: Image, l: Line, a: seq<int>, w: World)
    requires Simple(l.instr) && |a| == Pops(l.instr)
    ensures var e := Perform(img, l, a, w); e.Go? ==> (e.pc, |e.pushed|) in Flows(l)
  {
  }

  function PointerDepthOf(i: Instr): int {
    if i.Compute? then i.pointer else -1
  }

  /** Cells a native leaves on its caller's stack. */
  function NativeResult(lo: int, hi: int, results: nat): (ws: seq<int>)
    requires results <= 2
    ensures |ws| == results
  {
    [lo, hi][..results]
  }
}

/** vmCall of a fused image and of its expansion, on cell arrays with any contents. */
module FusionCalls {
  import opened Alu
  import opened Image
  import opened FrameMachine
  import opened Fusion
  import F = FlatMachine
  import L = FusionLayout
  import S = Staleness
  import V = VmCall

  /** The same end of a vmCall: still running, its value with its world and vm->sp, undefined arithmetic, astray. */
  predicate SameEnd(o: F.Outcome, o': F.Outcome) {
    match o
    case Next(_) => o'.Next?
    case Halt(v, _, vmsp, w) => o'.Halt? && o'.value == v && o'.vmsp == vmsp && o'.w == w
    case Fault => o'.Fault?
    case Wild => o'.Wild?
  }

  lemma {:induction false} RunTicksBlank(img: Image, ty: Typing, p: Plan, c: Config, n: nat)
    ensures RunTicks(img, ty, p, c, V.Blank(n)) == V.Blank(|RunTicks(img, ty, p, c, V.Blank(n))|)
    decreases n
  {
    hide Step, AtFused, Full;
    if n > 0 {
      assert V.Blank(n)[0] == [] && V.Blank(n)[1..] == V.Blank(n - 1);
      var o := Step(img, ty, c, []);
      if o.Next? { RunTicksBlank(img, ty, p, o.c, n - 1); }
    }
  }

  /** What the frames of the fused call do first. */
  function Start(img: Image, ty: Typing, mem: seq<int>, vmsp: int, w: World, target: int, args: seq<int>): Outcome
    requires target in ty.kind && 0 <= vmsp < |mem|
  {
    Begin(img, ty, w, vmsp, Nobody, target, args, V.Below(ty, mem, vmsp, target))
  }

  /** Steps of the expansion for `fuel` steps of the fused call. */
  ghost function Steps(img: Image, ty: Typing, p: Plan, o: Outcome, fuel: nat): nat {
    if o.Next? then |RunTicks(img, ty, p, o.c, V.Blank(fuel))| else fuel
  }

  /** What both images are asked: sound code, locals stored before they are loaded, natives deaf to void callbacks. */
  ghost predicate Sound(img: Image, ty: Typing, da: S.Stored) {
    WellFormed(img, ty) && S.Definite(img, ty, da) && S.DeafNatives(img, ty)
  }

  /** vmCall of a method of the fused image and of its expansion, each on its own cell array with any contents, end
      alike, whenever no fused inline-field load meets a null parameter on the way and all virtual calls go through the
      vtables. */
  lemma VmCallExpands(img: Image, ty: Typing, da: S.Stored, img': Image, ty': Typing, da': S.Stored, p: Plan,
                      mem: seq<int>, mem': seq<int>, vmsp: int, w: World, target: int, args: seq<int>, fuel: nat)
    requires Expands(img, ty, img', ty', p) && Sound(img, ty, da) && Sound(img', ty', da') && target in ty.kind
    requires |mem| == |mem'| == img.stackMax && 0 <= vmsp < img.stackMax
    requires ty.kind[target] == 0 ==> mem'[vmsp] == mem[vmsp]
    requires var o := Start(img, ty, mem, vmsp, w, target, args);
             EntryFair(img, ty, p, o, V.Blank(fuel)) && !Continue(img, ty, o, V.Blank(fuel)).BadTarget?
    ensures var steps := Steps(img, ty, p, Start(img, ty, mem, vmsp, w, target, args), fuel);
            SameEnd(V.Call(img, mem, vmsp, w, target, args, fuel),
                    V.Call(img', mem', vmsp, w, p.meth(target), args, steps))
  {
    hide Expands, WellFormed, S.Definite, S.DeafNatives, V.Call, Begin, Run, EntryFair, RunTicks, Alike, V.Blank;
    var below := V.Below(ty, mem, vmsp, target);
    var o := Start(img, ty, mem, vmsp, w, target, args);
    HeadMoves(img, ty, img', ty', p, target);
    SameAlu(img, ty, img', ty', p);
    assert V.Below(ty', mem', vmsp, p.meth(target)) == below;
    V.CallIsFrames(img, ty, da, mem, vmsp, w, target, args, fuel);
    CallExpands(img, ty, img', ty', p, w, vmsp, target, args, below, V.Blank(fuel));
    if o.Next? { RunTicksBlank(img, ty, p, o.c, fuel); }
    V.CallIsFrames(img', ty', da', mem', vmsp, w, p.meth(target), args, Steps(img, ty, p, o, fuel));
  }

  /** What is asked of the expansion itself follows, with the typing and the stored locals moved along. */
  lemma VmCallMoved(img: Image, ty: Typing, da: S.Stored, img': Image, p: Plan, mem: seq<int>, mem': seq<int>,
                    vmsp: int, w: World, target: int, args: seq<int>, fuel: nat)
    requires Sound(img, ty, da) && L.Apart(img, ty, p) && target in ty.kind
    requires Expands(img, ty, img', L.MovedTyping(img, ty, p), p) && img'.codeBase > 0 && SmallHeads(img')
    requires S.DeafNatives(img', L.MovedTyping(img, ty, p))
    requires |mem| == |mem'| == img.stackMax && 0 <= vmsp < img.stackMax
    requires ty.kind[target] == 0 ==> mem'[vmsp] == mem[vmsp]
    requires var o := Start(img, ty, mem, vmsp, w, target, args);
             EntryFair(img, ty, p, o, V.Blank(fuel)) && !Continue(img, ty, o, V.Blank(fuel)).BadTarget?
    ensures var steps := Steps(img, ty, p, Start(img, ty, mem, vmsp, w, target, args), fuel);
            SameEnd(V.Call(img, mem, vmsp, w, target, args, fuel),
                    V.Call(img', mem', vmsp, w, p.meth(target), args, steps))
  {
    hide Expands, WellFormed, S.Definite, S.DeafNatives, V.Call, Begin, Run, EntryFair, RunTicks, V.Blank, Continue,
      Steps, Start, SmallHeads, L.Apart, L.MovedTyping, L.MovedStored;
    L.ExpansionWellFormed(img, ty, img', p);
    L.ExpansionDefinite(img, ty, da, img', p);
    VmCallExpands(img, ty, da, img', L.MovedTyping(img, ty, p), L.MovedStored(img, ty, da, p), p, mem, mem', vmsp, w,
                  target, args, fuel);
  }
}

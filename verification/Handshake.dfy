/** The debug build's handshake: vmCallDebug polls the event queue before every instruction (svm/vm.c:631-639),
    while the JDWP thread adds requests, holds events, suspends and resumes. */
module Handshake {
  import opened Image
  import opened FlatMachine
  import Q = EventQueue
  import C = ControlOpcodes
  import O = Opcodes

  /** Where the virtual machine's thread is in its loop. */
  datatype Pc =
    | AtTop          // checks, then check_forEvents
    | Suspending     // check_forEvents found a pending request
    | Testing        // isVM_Suspended
    | Waiting        // canDispatchAll
    | Dispatching
    | Resuming
    | Switching      // the instruction itself
    | Finished(o: Outcome)

  datatype Session = Session(flat: Flat, pc: Pc, events: Q.State, hold: bool, counter: int)

  /** What the JDWP thread does to the shared state. */
  datatype Request = AddRequest(e: Q.Entry) | SetHold(hold: bool) | Suspend | Resume

  datatype Move = Vm(encode: Q.Encoder) | Debugger(r: Request)

  /** The counter is a u1. */
  function Up(counter: int): int { (counter + 1) % 256 }

  /** onVM_Resume: its guard tests the address of a function and is always true. */
  function Down(counter: int): int { (counter - 1) % 256 }

  /** An unmatched resume wraps the counter to 255: the guard works if and only if the machine is suspended. */
  lemma ResumeExact(counter: int)
    requires 0 <= counter < 256
    ensures Down(counter) == (if counter > 0 then counter - 1 else 0) <==> counter != 0
    ensures counter == 0 ==> Down(counter) == 255
  {
  }

  /** The instruction passes the null and overflow tests, which come before the poll. */
  predicate Polls(img: Image, s: Flat) {
    match s.mode
    case Running(r) =>
      && r.cp in img.lines && r.sp < img.stackMax
      && var d := PointerDepthOf(img.lines[r.cp].instr);
         d >= 0 ==> Alu.InRange(s.mem, r.sp - d, 1) && s.mem[r.sp - d] != 0
    case InNative(_, _, _, _) => false
  }

  /** One step of vmCall, and back to the top of the loop. */
  ghost function Execute(img: Image, s: Session): Session {
    match Step(img, s.flat)
    case Next(f) => s.(flat := f, pc := AtTop)
    case Halt(_, _, _, _) | Fault | Wild => s.(pc := Finished(Step(img, s.flat)))
  }

  predicate Executes(img: Image, s: Session) { s.pc.Switching? || (s.pc.AtTop? && !Polls(img, s.flat)) }

  /** A step of the poll; it never touches the machine. */
  function PollStep(s: Session, encode: Q.Encoder): Session {
    match s.pc
    case AtTop => s.(pc := if Q.SomePending(s.events.queue) then Suspending else Testing)
    case Suspending => s.(counter := Up(s.counter), pc := Testing)
    case Testing => s.(pc := if s.counter != 0 then Waiting else Switching)
    case Waiting => if s.hold then s else s.(pc := Dispatching)
    case Dispatching => s.(events := Q.Next(s.events, Q.DispatchAll(encode)), pc := Resuming)
    case Resuming => s.(counter := Down(s.counter), pc := Testing)
    case _ => s
  }

  function Serve(s: Session, r: Request): Session {
    match r
    case AddRequest(e) => s.(events := Q.Next(s.events, Q.Add(e.id, e.kind, e.policy, !e.triggered)))
    case SetHold(hold) => s.(hold := hold)
    case Suspend => s.(counter := Up(s.counter))
    case Resume => s.(counter := Down(s.counter))
  }

  ghost function MoveOnce(img: Image, s: Session, m: Move): Session {
    match m
    case Vm(encode) => if Executes(img, s) then Execute(img, s) else PollStep(s, encode)
    case Debugger(r) => Serve(s, r)
  }

  ghost function Play(img: Image, s: Session, moves: seq<Move>): Session
    decreases |moves|
  {
    if moves == [] then s else Play(img, MoveOnce(img, s, moves[0]), moves[1..])
  }

  /** The instructions executed along the way: what is left once poll, suspend, dispatch and debugger moves are
      erased. */
  ghost function Executed(img: Image, s: Session, moves: seq<Move>): nat
    decreases |moves|
  {
    if moves == [] then 0
    else (if moves[0].Vm? && Executes(img, s) then 1 else 0) + Executed(img, MoveOnce(img, s, moves[0]), moves[1..])
  }

  /** What the machine's thread has reached, as an outcome of vmCall. */
  function Reached(s: Session): Outcome { if s.pc.Finished? then s.pc.o else Next(s.flat) }

  /** A finished outcome is not `Next`. */
  predicate Sound(s: Session) { s.pc.Finished? ==> !s.pc.o.Next? }

  /** Debugging is transparent: under every interleaving with the debugger's thread, erasing everything but the
      executed instructions leaves exactly a run of vmCall. */
  lemma {:induction false} Transparent(img: Image, s: Session, moves: seq<Move>)
    requires Sound(s)
    ensures var k := Executed(img, s, moves);
            Reached(Play(img, s, moves)) == if s.pc.Finished? then s.pc.o else Run(img, s.flat, k)
    ensures Sound(Play(img, s, moves))
    decreases |moves|
  {
    hide Step, Polls;
    if moves != [] {
      Transparent(img, MoveOnce(img, s, moves[0]), moves[1..]);
    }
  }

  // ----- the poll, when the debugger's thread is quiet -----

  predicate Collectable(q: seq<Q.Entry>) { exists n | 0 <= n < |q| :: Q.Pending(q[n]) && q[n].policy <= 2 }

  /** The machine's thread alone, for n moves. */
  ghost function Alone(img: Image, s: Session, encode: Q.Encoder, n: nat): Session
    decreases n
  {
    if n == 0 then s else Alone(img, MoveOnce(img, s, Vm(encode)), encode, n - 1)
  }

  lemma {:induction false} AloneSum(img: Image, s: Session, encode: Q.Encoder, m: nat, n: nat)
    ensures Alone(img, s, encode, m + n) == Alone(img, Alone(img, s, encode, m), encode, n)
    decreases m
  {
    hide MoveOnce;
    if m > 0 {
      AloneSum(img, MoveOnce(img, s, Vm(encode)), encode, m - 1, n);
    }
  }

  /** One round of the waiting loop: four moves dispatch once and take one suspension away. */
  lemma Round(img: Image, s: Session, encode: Q.Encoder)
    requires s.pc.Testing? && !s.hold && 0 < s.counter < 256
    ensures Alone(img, s, encode, 4)
            == s.(counter := s.counter - 1, events := Q.Next(s.events, Q.DispatchAll(encode)))
  {
    hide Q.Next, Execute, Polls;
    var a := MoveOnce(img, s, Vm(encode));
    var b := MoveOnce(img, a, Vm(encode));
    var c := MoveOnce(img, b, Vm(encode));
    assert Alone(img, s, encode, 4) == Alone(img, a, encode, 3) == Alone(img, b, encode, 2) == Alone(img, c, encode, 1);
    assert Alone(img, MoveOnce(img, c, Vm(encode)), encode, 0) == MoveOnce(img, c, Vm(encode));
  }

  /** The waiting loop ends at the instruction, with the counter at 0, after four moves per suspension. */
  lemma {:induction false} LoopEnds(img: Image, s: Session, encode: Q.Encoder)
    requires s.pc.Testing? && !s.hold && 0 <= s.counter < 256
    ensures var t := Alone(img, s, encode, 4 * s.counter + 1);
            && t == s.(pc := Switching, counter := 0, events := t.events)
            && if s.counter == 0 then t.events == s.events else !Collectable(t.events.queue)
    decreases s.counter
  {
    hide Q.Next, Execute, Polls, Collectable;
    if s.counter > 0 {
      var t := s.(counter := s.counter - 1, events := Q.Next(s.events, Q.DispatchAll(encode)));
      Round(img, s, encode);
      AloneSum(img, s, encode, 4, 4 * t.counter + 1);
      DispatchedOut(s.events, encode);
      LoopEnds(img, t, encode);
    } else {
      assert Alone(img, s, encode, 1) == MoveOnce(img, s, Vm(encode));
    }
  }

  lemma DispatchedOut(s: Q.State, encode: Q.Encoder)
    ensures !Collectable(Q.Next(s, Q.DispatchAll(encode)).queue)
  {
    hide Q.Next;
    Q.DispatchAllReports(s, encode);
  }

  /** The moves one poll takes. */
  function PollLength(s: Session): nat
    requires 0 <= s.counter < 256
  {
    if Q.SomePending(s.events.queue) then 2 + 4 * Up(s.counter) + 1 else 1 + 4 * s.counter + 1
  }

  /** With events not held and the debugger's thread quiet, every poll ends at its instruction with the counter at
      0 and the machine untouched. A request of policy 0, 1 or 2 is then still pending exactly if the counter stood
      at 255, so that suspending once more wrapped it to 0, and such a request was pending. */
  lemma PollEnds(img: Image, s: Session, encode: Q.Encoder)
    requires s.pc.AtTop? && Polls(img, s.flat) && !s.hold && 0 <= s.counter < 256
    ensures var t := Alone(img, s, encode, PollLength(s));
            && t == s.(pc := Switching, counter := 0, events := t.events)
            && (Collectable(t.events.queue) <==> s.counter == 255 && Collectable(s.events.queue))
  {
    hide Q.Next, Execute, Polls, Collectable, Alone;
    CollectablePends(s.events.queue);
    var a := MoveOnce(img, s, Vm(encode));
    AloneOne(img, s, encode);
    if Q.SomePending(s.events.queue) {
      var b := MoveOnce(img, a, Vm(encode));
      AloneOne(img, a, encode);
      AloneSum(img, s, encode, 1, 1);
      AloneSum(img, s, encode, 2, 4 * b.counter + 1);
      LoopEnds(img, b, encode);
    } else {
      AloneSum(img, s, encode, 1, 4 * a.counter + 1);
      LoopEnds(img, a, encode);
    }
  }

  /** The wrap that was not meant: with the counter at 255 and a breakpoint pending, the poll ends without having sent
      it, and the instruction runs. */
  lemma WrapSkips(img: Image, s: Session, encode: Q.Encoder)
    requires s.pc.AtTop? && Polls(img, s.flat) && !s.hold && s.counter == 255
    requires s.events.queue == [Q.Entry(1, 2, 2, true, false)]
    ensures var t := Alone(img, s, encode, PollLength(s));
            t.pc.Switching? && t.counter == 0 && Collectable(t.events.queue)
  {
    hide Q.Next, Execute, Polls, Alone;
    assert Q.Pending(s.events.queue[0]);
    PollEnds(img, s, encode);
  }

  lemma AloneOne(img: Image, s: Session, encode: Q.Encoder)
    ensures Alone(img, s, encode, 1) == MoveOnce(img, s, Vm(encode))
  {
  }

  lemma CollectablePends(q: seq<Q.Entry>)
    ensures Collectable(q) ==> Q.SomePending(q)
  {
  }

  /** A quiet debugger delays the machine but never stops it: whatever vmCall reaches in `fuel` steps, the debug
      build reaches too. */
  lemma {:induction false} NeverStuck(img: Image, s: Session, encode: Q.Encoder, fuel: nat)
    requires s.pc.AtTop? && !s.hold && 0 <= s.counter < 256
    ensures exists n :: Reached(Alone(img, s, encode, n)) == Run(img, s.flat, fuel)
    decreases fuel
  {
    hide Step, Polls, Collectable, PollLength;
    if fuel == 0 {
      assert Reached(Alone(img, s, encode, 0)) == Run(img, s.flat, 0);
    } else {
      var m, t := ToInstruction(img, s, encode);
      AloneOne(img, t, encode);
      AloneSum(img, s, encode, m, 1);
      var u := Execute(img, t);
      assert Alone(img, s, encode, m + 1) == u;
      if u.pc.AtTop? {
        NeverStuck(img, u, encode, fuel - 1);
        var n :| Reached(Alone(img, u, encode, n)) == Run(img, u.flat, fuel - 1);
        AloneSum(img, s, encode, m + 1, n);
        assert Run(img, s.flat, fuel) == Run(img, u.flat, fuel - 1);
        assert Reached(Alone(img, s, encode, m + 1 + n)) == Run(img, s.flat, fuel);
      } else {
        assert Reached(u) == Run(img, s.flat, fuel);
      }
    }
  }

  lemma ToInstruction(img: Image, s: Session, encode: Q.Encoder) returns (m: nat, t: Session)
    requires s.pc.AtTop? && !s.hold && 0 <= s.counter < 256
    ensures t == Alone(img, s, encode, m) && Executes(img, t)
    ensures t.flat == s.flat && !t.hold && 0 <= t.counter < 256
  {
    hide Step, Polls, Collectable, PollLength, Execute;
    if Polls(img, s.flat) {
      m := PollLength(s);
      PollEnds(img, s, encode);
    } else {
      m := 0;
    }
    t := Alone(img, s, encode, m);
  }

  // ----- which instructions are polled, by the bytes of the code segment

  /** What the tests before the instruction let through. */
  predicate Passes(p: O.Point) {
    && p.s.mode == Running(p.r) && 0 <= p.r.cp < |p.code| && p.r.sp < p.y.stackMax
    && var d := C.NullDepth(p.code[p.r.cp]);
       d >= 0 ==> 0 <= p.r.sp - d < |p.s.mem| && p.s.mem[p.r.sp - d] != 0
  }

  lemma PassesPolls(p: O.Point)
    requires Passes(p)
    ensures Polls(O.ImageAt(p), p.s)
  {
    hide C.NullDepth, O.ImageAt;
    O.Loaded(p);
    C.NullDepthIs(p);
  }

  /** The requests that were collected stay sent. */
  lemma SentStays(s: Q.State, encode: Q.Encoder)
    ensures s.sent <= Q.Next(s, Q.DispatchAll(encode)).sent
  {
    hide Q.Next;
    Q.DispatchAllReports(s, encode);
  }

  lemma {:induction false} LoopSends(img: Image, s: Session, encode: Q.Encoder)
    requires s.pc.Testing? && !s.hold && 0 < s.counter < 256
    ensures Q.Next(s.events, Q.DispatchAll(encode)).sent <= Alone(img, s, encode, 4 * s.counter + 1).events.sent
    decreases s.counter
  {
    hide Q.Next, Execute, Polls;
    var t := s.(counter := s.counter - 1, events := Q.Next(s.events, Q.DispatchAll(encode)));
    Round(img, s, encode);
    AloneSum(img, s, encode, 4, 4 * t.counter + 1);
    LoopEnds(img, t, encode);
    if t.counter > 0 {
      SentStays(t.events, encode);
      LoopSends(img, t, encode);
    }
  }

  lemma {:induction false} LoopUntouched(img: Image, s: Session, encode: Q.Encoder, k: nat)
    requires s.pc.Testing? && !s.hold && 0 <= s.counter < 256 && k <= 4 * s.counter + 1
    ensures Alone(img, s, encode, k).flat == s.flat
    decreases s.counter
  {
    hide Q.Next, Execute, Polls;
    if k > 4 {
      var t := s.(counter := s.counter - 1, events := Q.Next(s.events, Q.DispatchAll(encode)));
      Round(img, s, encode);
      AloneSum(img, s, encode, 4, k - 4);
      LoopUntouched(img, t, encode, k - 4);
    } else if k > 0 {
      WaitUntouched(img, s, encode, k);
    }
  }

  lemma WaitUntouched(img: Image, s: Session, encode: Q.Encoder, k: nat)
    requires s.pc.Testing? && !s.hold && 0 <= s.counter < 256 && 0 < k <= 4 && (k == 1 || s.counter > 0)
    ensures Alone(img, s, encode, k).flat == s.flat
  {
    hide Q.Next, Execute, Polls;
    var a := MoveOnce(img, s, Vm(encode));
    assert Alone(img, s, encode, k) == Alone(img, a, encode, k - 1);
    if k > 1 {
      var b := MoveOnce(img, a, Vm(encode));
      assert Alone(img, a, encode, k - 1) == Alone(img, b, encode, k - 2);
      if k > 2 {
        var c := MoveOnce(img, b, Vm(encode));
        assert Alone(img, b, encode, k - 2) == Alone(img, c, encode, k - 3);
        assert k == 4 ==> Alone(img, c, encode, 1) == Alone(img, MoveOnce(img, c, Vm(encode)), encode, 0);
      }
    }
  }

  /** Every request of policy 0, 1 or 2 that is pending now and has something to report is in a composite then. */
  ghost predicate Sends(before: Q.State, encode: Q.Encoder, sent: seq<Q.Composite>) {
    forall n: nat | n < |before.queue| ::
      var e := before.queue[n];
      !e.removed && e.triggered && e.policy <= 2 && encode(e) != [] ==> Reported(sent, n)
  }

  ghost predicate Reported(sent: seq<Q.Composite>, n: nat) { exists i | 0 <= i < |sent| :: Q.Mentions(sent[i], n) }

  lemma DispatchSends(s: Q.State, encode: Q.Encoder, sent: seq<Q.Composite>)
    requires Q.Next(s, Q.DispatchAll(encode)).sent <= sent
    ensures Sends(s, encode, sent)
  {
    hide Q.Next;
    Q.DispatchAllReports(s, encode);
    forall n: nat | n < |s.queue| && Q.Pending(s.queue[n]) && s.queue[n].policy <= 2 && encode(s.queue[n]) != []
      ensures Reported(sent, n)
    {
      OneSent(s, encode, n, sent);
    }
  }

  lemma OneSent(s: Q.State, encode: Q.Encoder, n: nat, sent: seq<Q.Composite>)
    requires n < |s.queue| && Q.Pending(s.queue[n]) && s.queue[n].policy <= 2 && encode(s.queue[n]) != []
    requires Q.Next(s, Q.DispatchAll(encode)).sent <= sent
    ensures Reported(sent, n)
  {
    hide Q.Next, Q.Reports;
    Q.DispatchAllReports(s, encode);
    var policy := s.queue[n].policy;
    Q.ReportsExactly(s.queue, policy, encode, 0);
    var c := Q.Composite(policy, Q.Reports(s.queue, policy, encode, 0));
    assert Q.Report(n, encode(s.queue[n])) in c.reports;
    assert Q.Mentions(c, n);
    assert c in Q.Sent(policy, c.reports);
    assert c in Q.Next(s, Q.DispatchAll(encode)).sent;
  }

  /** With events not held, the debugger's thread quiet and the counter below 255, an instruction that passes the null
      and overflow tests runs only after a poll that leaves no request of policy 0, 1 or 2 pending and has sent those
      that were: until move m the machine is untouched, move m + 1 is the instruction. */
  lemma PolledFirst(p: O.Point, s: Session, encode: Q.Encoder) returns (m: nat, t: Session)
    requires s.pc.AtTop? && s.flat == p.s && Passes(p) && !s.hold && 0 <= s.counter < 255
    ensures forall k: nat | k <= m :: Alone(O.ImageAt(p), s, encode, k).flat == s.flat
    ensures m > 0 && t == Alone(O.ImageAt(p), s, encode, m) && t.counter == 0
    ensures forall e | e in t.events.queue && e.policy <= 2 :: e.removed || !e.triggered
    ensures Sends(s.events, encode, t.events.sent)
    ensures Alone(O.ImageAt(p), s, encode, m + 1) == Execute(O.ImageAt(p), t)
  {
    hide Q.Next, Execute, Polls, Passes, Collectable, Alone, Sends, O.ImageAt;
    var img := O.ImageAt(p);
    PassesPolls(p);
    m := PollLength(s);
    t := Alone(img, s, encode, m);
    PollEnds(img, s, encode);
    NoneLeft(t.events.queue);
    PollUntouched(img, s, encode);
    PollSends(img, s, encode);
    AloneSum(img, s, encode, m, 1);
    AloneOne(img, t, encode);
  }

  lemma NoneLeft(q: seq<Q.Entry>)
    requires !Collectable(q)
    ensures forall e | e in q && e.policy <= 2 :: e.removed || !e.triggered
  {
    forall e | e in q && e.policy <= 2
      ensures e.removed || !e.triggered
    {
      var n :| 0 <= n < |q| && q[n] == e;
      assert !(Q.Pending(q[n]) && q[n].policy <= 2);
    }
  }

  lemma PollUntouched(img: Image, s: Session, encode: Q.Encoder)
    requires s.pc.AtTop? && Polls(img, s.flat) && !s.hold && 0 <= s.counter < 255
    ensures forall k: nat | k <= PollLength(s) :: Alone(img, s, encode, k).flat == s.flat
  {
    hide Q.Next, Execute, Polls, Q.SomePending;
    forall k: nat | k <= PollLength(s)
      ensures Alone(img, s, encode, k).flat == s.flat
    {
      var a := MoveOnce(img, s, Vm(encode));
      if k > 0 {
        assert Alone(img, s, encode, k) == Alone(img, a, encode, k - 1);
        if a.pc.Suspending? && k > 1 {
          var b := MoveOnce(img, a, Vm(encode));
          assert Alone(img, a, encode, k - 1) == Alone(img, b, encode, k - 2);
          LoopUntouched(img, b, encode, k - 2);
        } else if a.pc.Testing? {
          LoopUntouched(img, a, encode, k - 1);
        }
      }
    }
  }

  lemma PollSends(img: Image, s: Session, encode: Q.Encoder)
    requires s.pc.AtTop? && Polls(img, s.flat) && !s.hold && 0 <= s.counter < 255
    ensures Sends(s.events, encode, Alone(img, s, encode, PollLength(s)).events.sent)
  {
    hide Q.Next, Execute, Polls, Alone;
    var a := MoveOnce(img, s, Vm(encode));
    AloneOne(img, s, encode);
    if Q.SomePending(s.events.queue) {
      var b := MoveOnce(img, a, Vm(encode));
      AloneOne(img, a, encode);
      AloneSum(img, s, encode, 1, 1);
      AloneSum(img, s, encode, 2, 4 * b.counter + 1);
      LoopSends(img, b, encode);
      DispatchSends(s.events, encode, Alone(img, s, encode, PollLength(s)).events.sent);
    } else {
      assert forall n | 0 <= n < |s.events.queue| :: !Q.Pending(s.events.queue[n]);
    }
  }

  /** An instruction that fails a test leaves the call without a poll, and natives act without one: queue and counter
      stay. */
  lemma NotPolled(p: O.Point, s: Session, encode: Q.Encoder)
    requires s.pc.AtTop? && s.flat == p.s && p.s.mode == Running(p.r) && 0 <= p.r.cp < |p.code|
    requires 3 <= p.r.sp < |p.s.mem|
    ensures var d, u := C.NullDepth(p.code[p.r.cp]), Alone(O.ImageAt(p), s, encode, 1);
            var null_ := d >= 0 && O.Top(p, d) == 0;
            null_ || p.r.sp >= p.y.stackMax ==>
              && u.events == s.events && u.counter == s.counter
              && match Leave(p.s.mem, p.s.vmsp, p.s.w, p.s.chain, if null_ then 100 else 101)
                 case Next(f) => u.pc.AtTop? && u.flat == f
                 case o => u.pc == Finished(o)
  {
    hide C.NullDepth, O.ImageAt, Step;
    var img := O.ImageAt(p);
    O.Loaded(p);
    C.NullDepthIs(p);
    C.Tests(p);
    C.DepthSmall(p.code[p.r.cp]);
    AloneOne(img, s, encode);
  }

  lemma NativesNotPolled(img: Image, s: Session, encode: Q.Encoder)
    requires s.pc.AtTop? && s.flat.mode.InNative?
    ensures var u := Alone(img, s, encode, 1);
            u == Execute(img, s) && u.events == s.events && u.counter == s.counter
  {
    hide Step;
    AloneOne(img, s, encode);
  }

  /** The queue's invariant survives every interleaving of the two threads. */
  lemma {:induction false} QueueKept(img: Image, s: Session, moves: seq<Move>)
    requires Q.Kept(s.events) && forall i | 0 <= i < |moves| :: FreshRequest(moves[i])
    ensures Q.Kept(Play(img, s, moves).events)
    decreases |moves|
  {
    hide Q.Kept, Q.Next, Polls;
    if moves != [] {
      MoveKeeps(img, s, moves[0]);
      assert forall i | 0 <= i < |moves| - 1 :: moves[1..][i] == moves[i + 1];
      QueueKept(img, MoveOnce(img, s, moves[0]), moves[1..]);
    }
  }

  /** Only requests that are not removed are added. */
  predicate FreshRequest(m: Move) { m.Debugger? && m.r.AddRequest? ==> !m.r.e.removed }

  lemma MoveKeeps(img: Image, s: Session, m: Move)
    requires Q.Kept(s.events)
    ensures Q.Kept(MoveOnce(img, s, m).events)
  {
    hide Q.Kept, Q.Next, Polls;
    match m {
      case Vm(encode) => Q.NextKeeps(s.events, Q.DispatchAll(encode));
      case Debugger(r) =>
        if r.AddRequest? {
          Q.NextKeeps(s.events, Q.Add(r.e.id, r.e.kind, r.e.policy, !r.e.triggered));
        }
    }
  }
}

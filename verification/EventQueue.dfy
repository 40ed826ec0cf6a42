/** The debugger's event queue as a state machine (jdwp/eventDispatcher.c): requests are added by the JDWP thread,
    the virtual machine collects and reports them, and what every interleaving of the two keeps. */
module EventQueue {
  import opened Bytes

  /** A queued request. A muted request is queued with `triggered` false. */
  datatype Entry = Entry(id: int, kind: Byte, policy: Byte, triggered: bool, removed: bool)

  const SP_NONE: Byte := 0
  const SP_EVENT_THREAD: Byte := 1
  const SP_ALL: Byte := 2

  predicate Ready(e: Entry, policy: Byte) { !e.removed && e.triggered && e.policy == policy }

  predicate Pending(e: Entry) { !e.removed && e.triggered }

  predicate Muted(e: Entry) { !e.removed && !e.triggered }

  function Spent(e: Entry): Entry { e.(triggered := false, removed := true) }

  /** What internalDispatch writes for a request; it reads the state of the virtual machine. */
  type Encoder = Entry -> seq<Byte>

  /** One event in a composite: the arrival number of its request and its bytes. */
  datatype Report = Report(arrival: nat, bytes: seq<Byte>)

  datatype Composite = Composite(policy: Byte, reports: seq<Report>)

  /** The queue in order of arrival; the arrival numbers dispatched so far; the composites sent so far. */
  datatype State = State(queue: seq<Entry>, consumed: seq<nat>, sent: seq<Composite>)

  datatype Action =
    | Add(id: int, kind: Byte, policy: Byte, muted: bool)
    | DispatchAll(encode: Encoder)

  // ----- get_by_suspendPolicy -----

  function Consume(q: seq<Entry>, policy: Byte): (r: seq<Entry>)
    ensures |r| == |q| && forall i | 0 <= i < |q| :: r[i] == if Ready(q[i], policy) then Spent(q[i]) else q[i]
  {
    seq(|q|, i requires 0 <= i < |q| => if Ready(q[i], policy) then Spent(q[i]) else q[i])
  }

  /** The arrival numbers from `from` on that are ready, oldest first. */
  function Taken(q: seq<Entry>, policy: Byte, from: nat): seq<nat>
    requires from <= |q|
    decreases |q| - from
  {
    if from == |q| then []
    else (if Ready(q[from], policy) then [from] else []) + Taken(q, policy, from + 1)
  }

  /** Their reports; a request whose encoding is empty gets none. */
  function Reports(q: seq<Entry>, policy: Byte, encode: Encoder, from: nat): seq<Report>
    requires from <= |q|
    decreases |q| - from
  {
    if from == |q| then []
    else
      (if Ready(q[from], policy) && encode(q[from]) != [] then [Report(from, encode(q[from]))] else [])
      + Reports(q, policy, encode, from + 1)
  }

  /** internalDispatchSet: nothing is sent for an empty list. */
  function Sent(policy: Byte, reports: seq<Report>): seq<Composite> {
    if reports == [] then [] else [Composite(policy, reports)]
  }

  function Collect(s: State, policy: Byte, encode: Encoder): State {
    State(Consume(s.queue, policy),
          s.consumed + Taken(s.queue, policy, 0),
          s.sent + Sent(policy, Reports(s.queue, policy, encode, 0)))
  }

  function Next(s: State, a: Action): State {
    match a
    case Add(id, kind, policy, muted) => s.(queue := s.queue + [Entry(id, kind, policy, !muted, false)])
    case DispatchAll(encode) =>
      Collect(Collect(Collect(s, SP_NONE, encode), SP_EVENT_THREAD, encode), SP_ALL, encode)
  }

  function Run(s: State, actions: seq<Action>): State
    decreases |actions|
  {
    if actions == [] then s else Run(Next(s, actions[0]), actions[1..])
  }

  const START := State([], [], [])

  // ----- what every step keeps -----

  predicate Distinct(ns: seq<nat>) { forall i, j | 0 <= i < j < |ns| :: ns[i] != ns[j] }

  predicate Ascending(rs: seq<Report>) { forall i, j | 0 <= i < j < |rs| :: rs[i].arrival < rs[j].arrival }

  /** The numbers dispatched are exactly those of the removed requests, each once. */
  ghost predicate Accounted(s: State) {
    && Distinct(s.consumed)
    && (forall n | n in s.consumed :: n < |s.queue| && s.queue[n].removed)
    && (forall n | 0 <= n < |s.queue| :: s.queue[n].removed ==> n in s.consumed && !s.queue[n].triggered)
  }

  /** A composite reports removed requests of its own policy, oldest first, with their non-empty encodings. */
  predicate Proper(q: seq<Entry>, c: Composite) {
    && c.policy <= 2 && c.reports != [] && Ascending(c.reports)
    && forall r | r in c.reports :: Reported(q, c.policy, r)
  }

  predicate Reported(q: seq<Entry>, policy: Byte, r: Report) {
    r.arrival < |q| && q[r.arrival].removed && q[r.arrival].policy == policy && r.bytes != []
  }

  predicate Mentions(c: Composite, n: nat) { exists r | r in c.reports :: r.arrival == n }

  /** No request is in two composites. */
  ghost predicate Apart(cs: seq<Composite>) {
    forall i, j, n: nat | 0 <= i < j < |cs| && Mentions(cs[i], n) :: !Mentions(cs[j], n)
  }

  ghost predicate Kept(s: State) {
    Accounted(s) && Apart(s.sent) && forall i | 0 <= i < |s.sent| :: Proper(s.queue, s.sent[i])
  }

  lemma {:induction false} TakenExactly(q: seq<Entry>, policy: Byte, from: nat)
    requires from <= |q|
    ensures forall n :: n in Taken(q, policy, from) <==> from <= n < |q| && Ready(q[n], policy)
    ensures Distinct(Taken(q, policy, from))
    decreases |q| - from
  {
    if from < |q| {
      TakenExactly(q, policy, from + 1);
    }
  }

  lemma {:induction false} ReportsExactly(q: seq<Entry>, policy: Byte, encode: Encoder, from: nat)
    requires from <= |q|
    ensures forall r | r in Reports(q, policy, encode, from) ::
              from <= r.arrival < |q| && Ready(q[r.arrival], policy) && r.bytes == encode(q[r.arrival]) != []
    ensures forall n | from <= n < |q| && Ready(q[n], policy) && encode(q[n]) != [] ::
              Report(n, encode(q[n])) in Reports(q, policy, encode, from)
    ensures Ascending(Reports(q, policy, encode, from))
    decreases |q| - from
  {
    if from < |q| {
      ReportsExactly(q, policy, encode, from + 1);
    }
  }

  lemma AddKeeps(s: State, e: Entry)
    requires Kept(s) && !e.removed
    ensures Kept(s.(queue := s.queue + [e]))
  {
  }

  lemma DistinctJoin(a: seq<nat>, b: seq<nat>)
    requires Distinct(a) && Distinct(b) && forall n | n in a :: n !in b
    ensures Distinct(a + b)
  {
    forall i, j | 0 <= i < j < |a + b|
      ensures (a + b)[i] != (a + b)[j]
    {
      if i < |a| <= j {
        assert a[i] in a && b[j - |a|] in b;
      }
    }
  }

  lemma CollectAccounted(s: State, policy: Byte, encode: Encoder)
    requires Accounted(s)
    ensures Accounted(Collect(s, policy, encode))
  {
    hide Taken, Reports;
    var q, r, more := s.queue, Consume(s.queue, policy), Taken(s.queue, policy, 0);
    TakenExactly(q, policy, 0);
    forall n | 0 <= n < |q| && r[n].removed
      ensures n in s.consumed + more && !r[n].triggered
    {
      assert Ready(q[n], policy) ==> n in more;
      assert q[n].removed ==> n in s.consumed;
    }
    DistinctJoin(s.consumed, more);
    forall n | n in s.consumed + more
      ensures n < |q| && r[n].removed
    {
      assert n in s.consumed || n in more;
    }
  }

  lemma CollectProper(s: State, policy: Byte, encode: Encoder)
    requires Kept(s) && policy <= 2
    ensures var t := Collect(s, policy, encode); forall i | 0 <= i < |t.sent| :: Proper(t.queue, t.sent[i])
  {
    hide Taken, Reports;
    ReportsExactly(s.queue, policy, encode, 0);
  }

  lemma CollectApart(s: State, policy: Byte, encode: Encoder)
    requires Kept(s)
    ensures Apart(Collect(s, policy, encode).sent)
  {
    hide Taken, Reports;
    ReportsExactly(s.queue, policy, encode, 0);
  }

  lemma CollectKeeps(s: State, policy: Byte, encode: Encoder)
    requires Kept(s) && policy <= 2
    ensures Kept(Collect(s, policy, encode))
  {
    hide Collect, Accounted, Proper, Apart;
    CollectAccounted(s, policy, encode);
    CollectProper(s, policy, encode);
    CollectApart(s, policy, encode);
  }

  lemma NextKeeps(s: State, a: Action)
    requires Kept(s)
    ensures Kept(Next(s, a))
  {
    hide Collect, Kept;
    match a {
      case Add(id, kind, policy, muted) => AddKeeps(s, Entry(id, kind, policy, !muted, false));
      case DispatchAll(encode) =>
        CollectKeeps(s, SP_NONE, encode);
        var t := Collect(s, SP_NONE, encode);
        CollectKeeps(t, SP_EVENT_THREAD, encode);
        CollectKeeps(Collect(t, SP_EVENT_THREAD, encode), SP_ALL, encode);
    }
  }

  lemma {:induction false} RunKeeps(s: State, actions: seq<Action>)
    requires Kept(s)
    ensures Kept(Run(s, actions))
    decreases |actions|
  {
    hide Kept, Next;
    if actions != [] {
      NextKeeps(s, actions[0]);
      RunKeeps(Next(s, actions[0]), actions[1..]);
    }
  }

  // ----- conservation -----

  /** Requests from number `from` on that satisfy p. */
  function Count(q: seq<Entry>, p: Entry -> bool, from: nat): nat
    requires from <= |q|
    decreases |q| - from
  {
    if from == |q| then 0 else (if p(q[from]) then 1 else 0) + Count(q, p, from + 1)
  }

  function Pendings(q: seq<Entry>): nat { Count(q, Pending, 0) }

  function Muteds(q: seq<Entry>): nat { Count(q, Muted, 0) }

  function Adds(actions: seq<Action>): nat
    decreases |actions|
  {
    if actions == [] then 0 else (if actions[0].Add? then 1 else 0) + Adds(actions[1..])
  }

  predicate Conserved(s: State) { Pendings(s.queue) + Muteds(s.queue) + |s.consumed| == |s.queue| }

  lemma {:induction false} CountAppend(q: seq<Entry>, p: Entry -> bool, e: Entry, from: nat)
    requires from <= |q|
    ensures Count(q + [e], p, from) == Count(q, p, from) + if p(e) then 1 else 0
    decreases |q| - from
  {
    if from < |q| {
      CountAppend(q, p, e, from + 1);
    } else {
      assert Count(q + [e], p, from + 1) == 0;
    }
  }

  lemma {:induction false} CountConsume(q: seq<Entry>, policy: Byte, from: nat)
    requires from <= |q|
    ensures Count(Consume(q, policy), Pending, from) + |Taken(q, policy, from)| == Count(q, Pending, from)
    ensures Count(Consume(q, policy), Muted, from) == Count(q, Muted, from)
    decreases |q| - from
  {
    if from < |q| {
      CountConsume(q, policy, from + 1);
    }
  }

  lemma NextConserves(s: State, a: Action)
    requires Conserved(s)
    ensures Conserved(Next(s, a)) && |Next(s, a).queue| == |s.queue| + if a.Add? then 1 else 0
  {
    hide Count, Taken, Consume, Reports;
    match a {
      case Add(id, kind, policy, muted) =>
        var e := Entry(id, kind, policy, !muted, false);
        CountAppend(s.queue, Pending, e, 0);
        CountAppend(s.queue, Muted, e, 0);
      case DispatchAll(encode) =>
        CountConsume(s.queue, SP_NONE, 0);
        var q := Consume(s.queue, SP_NONE);
        CountConsume(q, SP_EVENT_THREAD, 0);
        CountConsume(Consume(q, SP_EVENT_THREAD), SP_ALL, 0);
    }
  }

  lemma {:induction false} RunConserves(s: State, actions: seq<Action>)
    requires Conserved(s)
    ensures Conserved(Run(s, actions)) && |Run(s, actions).queue| == |s.queue| + Adds(actions)
    decreases |actions|
  {
    hide Conserved, Next;
    if actions != [] {
      NextConserves(s, actions[0]);
      RunConserves(Next(s, actions[0]), actions[1..]);
    }
  }

  /** Over every interleaving of adding and dispatching: no request is in two composites, a composite reports
      only requests of its own policy and oldest first, what was dispatched is exactly what was removed, once
      each, and added = pending + muted + dispatched. */
  lemma EveryRun(actions: seq<Action>)
    ensures var s := Run(START, actions);
            && (forall i, j, n: nat | 0 <= i < j < |s.sent| && Mentions(s.sent[i], n) :: !Mentions(s.sent[j], n))
            && (forall i | 0 <= i < |s.sent| :: Proper(s.queue, s.sent[i])) && Accounted(s)
            && Adds(actions) == |s.queue| == Pendings(s.queue) + Muteds(s.queue) + |s.consumed|
  {
    hide Run, Adds;
    RunKeeps(START, actions);
    RunConserves(START, actions);
  }

  // ----- what one dispatch does -----

  /** A dispatch under one policy leaves the ready requests of another as they are. */
  lemma {:induction false} PoliciesApart(q: seq<Entry>, policy: Byte, other: Byte, encode: Encoder, from: nat)
    requires policy != other && from <= |q|
    ensures Reports(Consume(q, policy), other, encode, from) == Reports(q, other, encode, from)
    decreases |q| - from
  {
    if from < |q| {
      PoliciesApart(q, policy, other, encode, from + 1);
      var e := Consume(q, policy)[from];
      assert Ready(e, other) <==> Ready(q[from], other);
      assert Ready(e, other) ==> e == q[from];
    }
  }

  /** dispatchAll sends, for policies 0, 1 and 2 in this order, one composite with the reports of the requests that
      were ready before it (none if there are no reports); afterwards no request with such a policy is pending,
      and every other request is as it was. */
  lemma DispatchAllReports(s: State, encode: Encoder)
    ensures var t := Next(s, DispatchAll(encode));
            && t.sent == s.sent + (Sent(0, Reports(s.queue, 0, encode, 0))
                                   + (Sent(1, Reports(s.queue, 1, encode, 0))
                                      + Sent(2, Reports(s.queue, 2, encode, 0))))
            && |t.queue| == |s.queue|
            && forall n | 0 <= n < |s.queue| ::
                 t.queue[n] == if Pending(s.queue[n]) && s.queue[n].policy <= 2 then Spent(s.queue[n]) else s.queue[n]
  {
    hide Reports, Taken;
    var q := s.queue;
    var r := Consume(q, SP_NONE);
    PoliciesApart(q, SP_NONE, SP_EVENT_THREAD, encode, 0);
    PoliciesApart(q, SP_NONE, SP_ALL, encode, 0);
    PoliciesApart(r, SP_EVENT_THREAD, SP_ALL, encode, 0);
  }

  /** A muted request, and a pending one whose policy is not 0, 1 or 2, stays in the queue through every run. */
  lemma {:induction false} StuckForever(s: State, actions: seq<Action>, n: nat)
    requires n < |s.queue| && !s.queue[n].removed && (Muted(s.queue[n]) || s.queue[n].policy > 2)
    ensures n < |Run(s, actions).queue| && Run(s, actions).queue[n] == s.queue[n]
    decreases |actions|
  {
    if actions != [] {
      StuckForever(Next(s, actions[0]), actions[1..], n);
    }
  }

  /** check_forEvents suspends the virtual machine if and only if some request is pending. */
  predicate SomePending(q: seq<Entry>) { exists n | 0 <= n < |q| :: Pending(q[n]) }

  /** After a dispatch a pending request has a policy the virtual machine never collects. */
  lemma PendingAfterDispatch(s: State, encode: Encoder)
    ensures SomePending(Next(s, DispatchAll(encode)).queue)
            <==> exists n | 0 <= n < |s.queue| :: Pending(s.queue[n]) && s.queue[n].policy > 2
  {
    hide Next;
    DispatchAllReports(s, encode);
  }
}

/** The event dispatcher (jdwp/eventDispatcher.c) in place: the linked request list, its flags and the composites
    it sends, against the state machine of EventQueue. */
module Events {
  import opened Bytes
  import opened Packets
  import opened EventQueue

  /** The event kind whose last request is remembered. */
  const THREAD_START: Byte := 6

  class Request {
    var id: int
    var kind: Byte
    var policy: Byte
    var triggered: bool
    var removed: bool

    function View(): Entry
      reads this
    {
      Entry(id, kind, policy, triggered, removed)
    }

    constructor (id: int, kind: Byte, policy: Byte, muted: bool)
      ensures View() == Entry(id, kind, policy, !muted, false)
    {
      this.id, this.kind, this.policy, triggered, removed := id, kind, policy, !muted, false;
    }
  }

  ghost function ViewsOf(rs: seq<Request>): (v: seq<Entry>)
    reads rs
    ensures |v| == |rs| && forall j | 0 <= j < |rs| :: v[j] == rs[j].View()
  {
    seq(|rs|, j requires 0 <= j < |rs| reads rs => rs[j].View())
  }

  function Parts(rs: seq<Report>): seq<seq<Byte>> {
    if rs == [] then [] else [rs[0].bytes] + Parts(rs[1..])
  }

  /** A composite on the wire: its length, its id, flag 0, command set 64, command 100, the suspend policy, the number
      of events and the events. */
  predicate IsComposite(s: seq<Byte>, id: int, c: Composite) {
    && 16 <= |s| && Value32(s[..4]) == |s| % TWO32 && Value32(s[4..8]) == id
    && s[8] == 0 && s[9] == 64 && s[10] == 100 && s[11] == c.policy
    && Value32(s[12..16]) == |c.reports| % TWO32 && s[16..] == Concat(Parts(c.reports))
  }

  /** The parts of a composite, put together. */
  lemma CompositeOf(s: seq<Byte>, length: int, id: int, c: Composite, content: seq<Byte>)
    requires 0 <= id < TWO32 && length == |s| && content == Concat(Parts(c.reports))
    requires s == Big32(length % TWO32)
                  + (Big32(id) + [0, 64, 100] + ([c.policy] + Big32(|c.reports| % TWO32) + content))
    ensures IsComposite(s, id, c)
  {
    hide Big32, Value32, Concat, Parts;
    Big32Value(length % TWO32);
    Big32Value(id);
    Big32Value(|c.reports| % TWO32);
    assert s[..4] == Big32(length % TWO32) && s[4..8] == Big32(id);
    assert s[12..16] == Big32(|c.reports| % TWO32) && s[16..] == content;
  }

  /** internalDispatch writes an event into a packet of its own. */
  method InternalDispatch(e: Request, encode: Encoder) returns (p: Packet)
    ensures fresh(p) && fresh(p.data) && p.Valid() && p.Written() == encode(e.View())
  {
    hide Packet.Written;
    var bytes := encode(e.View());
    p := new Packet(|bytes|);
    var k := 0;
    while k < |bytes|
      invariant 0 <= k <= |bytes| && fresh(p.data) && p.Valid() && p.Written() == bytes[..k]
    {
      p.WriteU1(bytes[k]);
      k := k + 1;
    }
    assert bytes[..k] == bytes;
  }

  lemma PartsLength(rs: seq<Report>)
    ensures |Parts(rs)| == |rs|
  {
  }

  // ----- the list is newest first, the state machine counts arrivals -----

  function Flip(v: seq<Entry>): (q: seq<Entry>)
    ensures |q| == |v|
  {
    seq(|v|, i requires 0 <= i < |v| => v[|v| - 1 - i])
  }

  function ConsumeOne(e: Entry, policy: Byte): Entry { if Ready(e, policy) then Spent(e) else e }

  lemma FlipAt(v: seq<Entry>, j: nat)
    requires j < |v|
    ensures Flip(v)[|v| - 1 - j] == v[j]
  {
  }

  lemma FlipAdd(e: Entry, v: seq<Entry>)
    ensures Flip([e] + v) == Flip(v) + [e]
  {
  }

  lemma FlipConsume(v: seq<Entry>, w: seq<Entry>, policy: Byte)
    requires |w| == |v| && forall k | 0 <= k < |v| :: w[k] == ConsumeOne(v[k], policy)
    ensures Flip(w) == Consume(Flip(v), policy)
  {
  }

  lemma FlipSome(v: seq<Entry>)
    ensures SomePending(Flip(v)) <==> exists j | 0 <= j < |v| :: Pending(v[j])
  {
    if j :| 0 <= j < |v| && Pending(v[j]) {
      FlipAt(v, j);
    }
  }

  /** One round of the walk: a ready request is encoded, flagged, and put in the list unless it encodes to nothing. */
  method DispatchOne(e: Request, policy: Byte, encode: Encoder, list: PacketList)
    requires list.Valid()
    modifies e`triggered, e`removed, list
    ensures list.Valid() && e.View() == ConsumeOne(old(e.View()), policy)
    ensures fresh(set p | p in list.packets && p !in old(list.packets))
    ensures forall p | p in list.packets :: p in old(list.packets) || fresh(p.data)
    ensures list.contents ==
            (if Ready(old(e.View()), policy) && encode(old(e.View())) != [] then [encode(old(e.View()))] else [])
            + old(list.contents)
  {
    hide Packet.Written, PacketList.Valid;
    if !e.removed && e.triggered && e.policy == policy {
      var p := InternalDispatch(e, encode);
      if p.offset > 0 {
        list.Add(p);
      }
      e.triggered, e.removed := false, true;
    }
  }

  class Dispatcher {
    /** The linked list, newest request first. */
    var requests: seq<Request>
    var size: nat
    var nextId: int
    var hold: bool
    var packetId: int
    /** The last request for the start of the thread, if there was one. */
    var threadStart: Request?
    /** What has gone out on the socket. */
    var wire: seq<seq<Byte>>
    ghost var consumed: seq<nat>
    ghost var sent: seq<Composite>

    ghost predicate Valid()
      reads `requests, `size, `nextId, `packetId, `wire, `sent
    {
      && size == |requests| && 0 <= nextId < TWO32 && packetId == (1 + |wire|) % TWO32
      && (forall i, j | 0 <= i < j < |requests| :: requests[i] != requests[j])
      && Wired()
    }

    /** What went out are the composites that the state machine sent, numbered from 1. */
    ghost predicate Wired()
      reads `wire, `sent
    {
      |wire| == |sent| && forall i | 0 <= i < |wire| :: IsComposite(wire[i], (1 + i) % TWO32, sent[i])
    }

    ghost function Views(): seq<Entry>
      reads `requests, requests
    {
      ViewsOf(requests)
    }

    ghost function Arrivals(): seq<Entry>
      reads `requests, requests
    {
      Flip(Views())
    }

    ghost function Abstract(): State
      reads this, requests
    {
      State(Arrivals(), consumed, sent)
    }

    /** init_eventDispatcher */
    constructor ()
      ensures Valid() && Abstract() == START && !hold && nextId == 1 && threadStart == null
    {
      requests, size, nextId, hold, packetId, wire := [], 0, 1, false, 1, [];
      consumed, sent, threadStart := [], [], null;
    }

    /** newEventRequest; the muted kinds are those a Sedona application never raises. */
    method NewEvent(kind: Byte, policy: Byte, muted: bool) returns (e: Request)
      requires Valid()
      modifies `nextId
      ensures Valid() && fresh(e) && e.View() == Entry(old(nextId), kind, policy, !muted, false)
      ensures nextId == (old(nextId) + 1) % TWO32
    {
      e := new Request(nextId, kind, policy, muted);
      nextId := (nextId + 1) % TWO32;
    }

    /** add_EventRequest */
    method AddEvent(e: Request)
      requires Valid() && e !in requests && !e.removed
      modifies `requests, `size, `threadStart
      ensures Valid() && requests == [e] + old(requests)
      ensures threadStart == if e.kind == 6 then e else old(threadStart)
      ensures Abstract() == Next(old(Abstract()), Add(e.id, e.kind, e.policy, !e.triggered))
    {
      hide Wired, Flip;
      ghost var before := Views();
      if e.kind == THREAD_START {
        threadStart := e;
      }
      requests, size := [e] + requests, size + 1;
      assert Views() == [e.View()] + before;
      FlipAdd(e.View(), before);
    }

    /** check_forEvents: whether the virtual machine is suspended. */
    method CheckForEvents() returns (suspend: bool)
      requires Valid()
      ensures suspend == SomePending(Arrivals())
    {
      hide Wired, Flip, SomePending;
      ghost var v := Views();
      FlipSome(v);
      var start := 0;
      while start < size
        invariant start <= size && forall j | 0 <= j < start :: !Pending(v[j])
      {
        if !requests[start].removed && requests[start].triggered {
          assert Pending(v[start]);
          return true;
        }
        start := start + 1;
      }
      suspend := false;
    }

    /** get_by_suspendPolicy: one walk from the newest request to the oldest; every packet is put at the head of the
        list, so the events come out oldest first. */
    method GetBySuspendPolicy(policy: Byte, encode: Encoder) returns (list: PacketList)
      requires Valid()
      modifies requests
      ensures Valid() && fresh(list) && list.Valid() && fresh(list.packets)
      ensures forall p | p in list.packets :: fresh(p.data)
      ensures list.contents == Parts(Reports(old(Arrivals()), policy, encode, 0))
      ensures Arrivals() == Consume(old(Arrivals()), policy)
    {
      hide Wired, PacketList.Valid, Flip, Reports, Parts, Consume, ConsumeOne;
      ghost var v, n := Views(), |requests|;
      ghost var q := Arrivals();
      list := new PacketList();
      var j := 0;
      NothingBehind(q, policy, encode);
      while j < size
        invariant j <= size && list.Valid() && fresh(list.packets)
        invariant forall p | p in list.packets :: fresh(p.data)
        invariant forall k | 0 <= k < j :: requests[k].View() == ConsumeOne(v[k], policy)
        invariant forall k | j <= k < n :: requests[k].View() == v[k]
        invariant list.contents == Parts(Reports(q, policy, encode, n - j))
      {
        FlipAt(v, j);
        OneMore(q, policy, encode, n - 1 - j);
        DispatchOne(requests[j], policy, encode, list);
        j := j + 1;
      }
      FlipConsume(v, Views(), policy);
    }

    /** The composite of a list of events, as a command packet. */
    method NewComposite(list: PacketList, policy: Byte) returns (cmd: Packet)
      requires 0 <= packetId < TWO32 && list.Valid()
      modifies `packetId
      ensures packetId == (old(packetId) + 1) % TWO32
      ensures fresh(cmd) && fresh(cmd.data) && cmd.Valid() && HEADER <= cmd.offset
      ensures cmd.Written()[4..]
              == Big32(old(packetId)) + [0, 64, 100] + ([policy] + Big32(list.size % TWO32) + Concat(list.contents))
    {
      hide Packet.Written, PacketList.Valid, Big32;
      var bytes := list.ByteSize();
      cmd := NewCommand(packetId, 5 + bytes, 100, 64);
      ghost var header := cmd.Written();
      packetId := (packetId + 1) % TWO32;
      cmd.WriteU1(policy);
      cmd.WriteU4(list.size % TWO32);
      cmd.WriteList(list);
      assert cmd.Written() == header + ([policy] + Big32(list.size % TWO32) + Concat(list.contents));
    }

    /** internalDispatchSet: one composite, unless the list is empty. */
    method InternalDispatchSet(list: PacketList, policy: Byte, ghost reports: seq<Report>)
      requires Valid() && list.Valid() && list.contents == Parts(reports)
      modifies `wire, `sent, `packetId
      ensures Valid() && sent == old(sent) + Sent(policy, reports)
    {
      hide Packet.Written, Parts, Big32, Concat, IsComposite;
      PartsLength(reports);
      if list.size == 0 {
        return;
      }
      ghost var id := packetId;
      var cmd := NewComposite(list, policy);
      var out := Send(cmd);
      CompositeOf(out, |out|, id, Composite(policy, reports), Concat(list.contents));
      wire, sent := wire + [out], sent + [Composite(policy, reports)];
    }

    /** dispatchAll */
    method DispatchAll(encode: Encoder)
      requires Valid()
      modifies this, requests
      ensures Valid() && requests == old(requests) && hold == old(hold)
      ensures |wire| == |sent| && forall i | 0 <= i < |wire| :: IsComposite(wire[i], (1 + i) % TWO32, sent[i])
      ensures Abstract() == Next(old(Abstract()), EventQueue.DispatchAll(encode))
    {
      hide Valid, IsComposite, PacketList.Valid, Arrivals, Taken, Reports, Consume;
      ghost var before, q := Abstract(), Arrivals();
      var none := GetBySuspendPolicy(SP_NONE, encode);
      ghost var r := Arrivals();
      var tid := GetBySuspendPolicy(SP_EVENT_THREAD, encode);
      ghost var t := Arrivals();
      var all := GetBySuspendPolicy(SP_ALL, encode);
      consumed := consumed + Taken(q, 0, 0) + Taken(r, 1, 0) + Taken(t, 2, 0);
      InternalDispatchSet(none, SP_NONE, Reports(q, 0, encode, 0));
      InternalDispatchSet(tid, SP_EVENT_THREAD, Reports(r, 1, encode, 0));
      InternalDispatchSet(all, SP_ALL, Reports(t, 2, encode, 0));
      Collected(before, encode);
      WiredHere();
    }

    lemma WiredHere()
      requires Valid()
      ensures Wired()
    {
    }
  }

  /** dispatchAll as the three walks leave it: the composites go out only after the last walk. */
  lemma Collected(s: State, encode: Encoder)
    ensures var q, r, t := s.queue, Consume(s.queue, 0), Consume(Consume(s.queue, 0), 1);
            Next(s, EventQueue.DispatchAll(encode))
            == State(Consume(t, 2), s.consumed + Taken(q, 0, 0) + Taken(r, 1, 0) + Taken(t, 2, 0),
                     s.sent + Sent(0, Reports(q, 0, encode, 0)) + Sent(1, Reports(r, 1, encode, 0))
                     + Sent(2, Reports(t, 2, encode, 0)))
  {
  }

  lemma NothingBehind(q: seq<Entry>, policy: Byte, encode: Encoder)
    ensures Reports(q, policy, encode, |q|) == [] && Parts([]) == []
  {
  }

  /** One step of the walk towards older requests. */
  lemma OneMore(q: seq<Entry>, policy: Byte, encode: Encoder, i: nat)
    requires i < |q|
    ensures var rest, bytes := Reports(q, policy, encode, i + 1), encode(q[i]);
            Parts(Reports(q, policy, encode, i))
            == (if Ready(q[i], policy) && bytes != [] then [bytes] else []) + Parts(rest)
  {
    var rest, bytes := Reports(q, policy, encode, i + 1), encode(q[i]);
    assert ([Report(i, bytes)] + rest)[1..] == rest;
    assert [] + rest == rest;
  }
}

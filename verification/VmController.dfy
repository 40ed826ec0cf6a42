/** The suspend counter and the poll in place. */
module VmController {
  import opened Handshake
  import opened Events
  import Q = EventQueue

  class Controller {
    var suspendCounter: int

    ghost predicate Valid()
      reads this
    {
      0 <= suspendCounter < 256
    }

    /** init__VM_DEBUG_MODE suspends the machine once. */
    constructor ()
      ensures Valid() && suspendCounter == 1
    {
      suspendCounter := 1;
    }

    method Suspend()
      requires Valid()
      modifies this
      ensures Valid() && suspendCounter == Up(old(suspendCounter))
    {
      suspendCounter := (suspendCounter + 1) % 256;
    }

    method Resume()
      requires Valid()
      modifies this
      ensures Valid() && suspendCounter == Down(old(suspendCounter))
    {
      suspendCounter := (suspendCounter - 1) % 256;
    }

    /** The poll of vmCallDebug with events not held and nobody else at the queue. */
    method Poll(d: Dispatcher, encode: Q.Encoder)
      requires Valid() && d.Valid() && !d.hold
      modifies this, d, d.requests
      ensures Valid() && d.Valid() && !d.hold && suspendCounter == 0
      ensures Collectable(d.Arrivals()) <==> old(suspendCounter) == 255 && old(Collectable(d.Arrivals()))
    {
      hide Collectable, Q.SomePending, Q.Next, Dispatcher.Valid, Dispatcher.Arrivals;
      CollectablePends(d.Arrivals());
      var pending := d.CheckForEvents();
      if pending {
        Suspend();
      }
      ghost var first, requests := d.Arrivals(), d.requests;
      ghost var count := suspendCounter;
      while suspendCounter != 0
        invariant Valid() && d.Valid() && !d.hold && d.requests == requests
        invariant suspendCounter <= count
        invariant if suspendCounter == count then d.Arrivals() == first else !Collectable(d.Arrivals())
        decreases suspendCounter
      {
        DispatchedOut(d.Abstract(), encode);
        d.DispatchAll(encode);
        Resume();
      }
    }
  }
}

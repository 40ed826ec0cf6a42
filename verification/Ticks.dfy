/** Sys.ticks on Windows (natives/sys_Sys_win32.c:36-76): a 32-bit millisecond counter that rolls over, extended
    to 64 bits by counting the roll-overs seen between calls. */
module Ticks {
  const ROLLOVER: int := 0x1_0000_0000
  const TWO63: int := 0x8000_0000_0000_0000

  /** The static variables, and one call that reads the counter as `ticks`. */
  datatype Counter = Counter(rollover: int, last: int) {
    function Read(ticks: int): Counter {
      Counter(if ticks < last then rollover + ROLLOVER else rollover, ticks)
    }

    function Total(): int { rollover + last }
  }

  function Wrap64(v: int): int { (v + TWO63) % (2 * TWO63) - TWO63 }

  lemma InSixtyFour(v: int)
    ensures -0x8000_0000_0000_0000 <= Wrap64(v) < 0x8000_0000_0000_0000
    ensures (Wrap64(v) - v) % 0x1_0000_0000_0000_0000 == 0
    ensures 0 <= v ==> (Wrap64(v) == v <==> v < 0x8000_0000_0000_0000)
  {
    var q := (v + TWO63) / (2 * TWO63);
    assert Wrap64(v) - v == -q * (2 * TWO63);
  }

  /** The totals of successive calls at these times in milliseconds. */
  function Totals(c: Counter, times: seq<nat>): (r: seq<int>)
    ensures |r| == |times|
    decreases |times|
  {
    if times == [] then []
    else
      var d := c.Read(times[0] % ROLLOVER);
      [d.Total()] + Totals(d, times[1..])
  }

  /** Time does not run backwards. */
  predicate Ordered(prev: nat, times: seq<nat>)
    decreases |times|
  {
    times == [] || (prev <= times[0] && Ordered(times[0], times[1..]))
  }

  /** Successive calls are less than one roll-over apart. */
  predicate Frequent(prev: nat, times: seq<nat>)
    decreases |times|
  {
    times == [] || (times[0] - prev < ROLLOVER && Frequent(times[0], times[1..]))
  }

  /** One call counts the roll-overs since the last one if and only if there was less than one full period. */
  lemma ReadExact(c: Counter, prev: nat, time: nat)
    requires c.last == prev % 0x1_0000_0000 && prev <= time
    ensures c.Read(time % 0x1_0000_0000).Total() - c.Total() == time - prev <==> time - prev < 0x1_0000_0000
  {
    var p, t := prev / ROLLOVER, time / ROLLOVER;
    assert prev == p * ROLLOVER + prev % ROLLOVER && time == t * ROLLOVER + time % ROLLOVER;
    assert p <= t;
  }

  /** Two calls a whole period apart: the second one sees the counter where the first one did. */
  lemma PeriodLost()
    ensures Totals(Counter(0, 0), [5, 0x1_0000_0005]) == [5, 5] && Ordered(5, [0x1_0000_0005])
  {
    var times: seq<nat> := [5, 5 + ROLLOVER];
    assert times[1..] == [5 + ROLLOVER] && times[1..][1..] == [];
    assert (5 + ROLLOVER) % ROLLOVER == 5;
  }

  predicate Shifted(r: seq<int>, times: seq<nat>, base: int)
    requires |r| == |times|
  {
    forall i | 0 <= i < |times| :: r[i] == times[i] - base
  }

  /** All totals are the true time minus one constant exactly if the calls are frequent enough. */
  lemma {:induction false} TotalsExact(c: Counter, prev: nat, times: seq<nat>, base: int)
    requires c.last == prev % ROLLOVER && c.Total() == prev - base && Ordered(prev, times)
    ensures Shifted(Totals(c, times), times, base) <==> Frequent(prev, times)
    decreases |times|
  {
    if times != [] {
      var d := c.Read(times[0] % ROLLOVER);
      var r, rest := Totals(c, times), Totals(d, times[1..]);
      ReadExact(c, prev, times[0]);
      if times[0] - prev < ROLLOVER {
        TotalsExact(d, times[0], times[1..], base);
        assert r[1..] == rest;
        assert Shifted(r, times, base) <==> Shifted(rest, times[1..], base) by {
          assert forall i | 0 <= i < |rest| :: rest[i] == r[i + 1] && times[1..][i] == times[i + 1];
        }
      } else {
        assert r[0] != times[0] - base;
      }
    }
  }

  /** From the first call on: the constant is the part of the first time that the counter had already rolled over. */
  lemma FromStart(first: nat, times: seq<nat>)
    requires Ordered(first, times)
    ensures var base := first - first % ROLLOVER;
            Shifted(Totals(Counter(0, 0), [first] + times), [first] + times, base) <==> Frequent(first, times)
  {
    var base: nat := first - first % ROLLOVER;
    assert base % ROLLOVER == 0 by {
      assert base == first / ROLLOVER * ROLLOVER;
    }
    assert ([first] + times)[1..] == times;
    TotalsExact(Counter(0, 0), base, [first] + times, base);
  }

  lemma {:induction false} OrderedMeans(prev: nat, times: seq<nat>)
    requires Ordered(prev, times)
    ensures forall i | 0 <= i < |times| :: prev <= times[i]
    ensures forall i, j | 0 <= i <= j < |times| :: times[i] <= times[j]
    decreases |times|
  {
    if times != [] {
      OrderedMeans(times[0], times[1..]);
      assert forall i | 1 <= i < |times| :: times[i] == times[1..][i - 1];
    }
  }

  /** Hence the totals never run backwards when the calls are frequent enough. */
  lemma Monotone(first: nat, times: seq<nat>)
    requires Ordered(first, times) && Frequent(first, times)
    ensures var r := Totals(Counter(0, 0), [first] + times); forall i, j | 0 <= i <= j < |r| :: r[i] <= r[j]
  {
    FromStart(first, times);
    assert ([first] + times)[1..] == times;
    OrderedMeans(first, [first] + times);
  }

  class TickSource {
    var rolloverTicks: int
    var lastTicks: int

    function State(): Counter
      reads this
    {
      Counter(rolloverTicks, lastTicks)
    }

    constructor ()
      ensures State() == Counter(0, 0)
    {
      rolloverTicks, lastTicks := 0, 0;
    }

    /** sys_Sys_ticks, in nanoseconds; `time` is the true time and GetTickCount its low 32 bits. */
    method ReadTicks(time: nat) returns (ns: int)
      modifies this
      ensures State() == old(State()).Read(time % 0x1_0000_0000)
      ensures lastTicks == time % 0x1_0000_0000
      ensures rolloverTicks == old(rolloverTicks) + if lastTicks < old(lastTicks) then 0x1_0000_0000 else 0
      ensures -0x8000_0000_0000_0000 <= ns < 0x8000_0000_0000_0000
      ensures (ns - (rolloverTicks + lastTicks) * 1000000) % 0x1_0000_0000_0000_0000 == 0
      ensures var t := rolloverTicks + lastTicks;
              0 <= t ==> (ns == t * 1000000 <==> t * 1000000 < 0x8000_0000_0000_0000)
    {
      hide Wrap64;
      var ticks := time % ROLLOVER;
      if ticks < lastTicks {
        rolloverTicks := rolloverTicks + ROLLOVER;
      }
      lastTicks := ticks;
      ns := Wrap64((rolloverTicks + ticks) * 1000000);
      InSixtyFour((rolloverTicks + ticks) * 1000000);
    }
  }
}

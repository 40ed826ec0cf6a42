/** The Dup opcodes as the cell moves they make in the array (svm/vm.c:1777-1782), against the shuffles that the
    machines use. */
module Shuffles {
  import opened Alu
  import opened Options
  import opened Scode

  /** The operands of the shuffle are replaced by its picks, the top moves accordingly, and no cell outside the old
      and new operands changes. */
  predicate Moved(before: seq<int>, after: seq<int>, sp: int, sp': int, d: Data) {
    && d.Shuffle? && |after| == |before| && -1 <= sp - d.pops && sp < |before|
    && sp' == sp - d.pops + |d.picks| && sp <= sp' < |before|
    && var from := sp - d.pops + 1;
    && after[..from] == before[..from] && after[sp' + 1..] == before[sp' + 1..]
    && forall k | 0 <= k < |d.picks| :: d.picks[k] < d.pops && after[from + k] == before[from + d.picks[k]]
  }

  /** That is the machines' shuffle of the operands. */
  lemma MovedIsShuffle(before: seq<int>, after: seq<int>, sp: int, sp': int, d: Data, w: World, blockAddr: int -> int)
    requires Moved(before, after, sp, sp', d)
    ensures EvalMemory(d, before[sp - d.pops + 1..sp + 1], w, blockAddr) == Some((after[sp - d.pops + 1..sp' + 1], w))
  {
    var a := before[sp - d.pops + 1..sp + 1];
    assert after[sp - d.pops + 1..sp' + 1] == Picks(a, d.picks);
  }

  method Dup(stack: array<int>, sp: nat) returns (sp': nat)
    requires sp + 1 < stack.Length
    modifies stack
    ensures Moved(old(stack[..]), stack[..], sp, sp', Arithmetic(136))
  {
    sp' := sp + 1;
    stack[sp'] := stack[sp' - 1];
  }

  method Dup2(stack: array<int>, sp: nat) returns (sp': nat)
    requires 1 <= sp && sp + 2 < stack.Length
    modifies stack
    ensures Moved(old(stack[..]), stack[..], sp, sp', Arithmetic(137))
  {
    sp' := sp + 2;
    stack[sp'] := stack[sp' - 2];
    stack[sp' - 1] := stack[sp' - 3];
  }

  method DupDown2(stack: array<int>, sp: nat) returns (sp': nat)
    requires 1 <= sp && sp + 1 < stack.Length
    modifies stack
    ensures Moved(old(stack[..]), stack[..], sp, sp', Arithmetic(138))
  {
    sp' := sp + 1;
    stack[sp'] := stack[sp' - 1];
    stack[sp' - 1] := stack[sp' - 2];
    stack[sp' - 2] := stack[sp'];
  }

  method DupDown3(stack: array<int>, sp: nat) returns (sp': nat)
    requires 2 <= sp && sp + 1 < stack.Length
    modifies stack
    ensures Moved(old(stack[..]), stack[..], sp, sp', Arithmetic(139))
  {
    sp' := sp + 1;
    stack[sp'] := stack[sp' - 1];
    stack[sp' - 1] := stack[sp' - 2];
    stack[sp' - 2] := stack[sp' - 3];
    stack[sp' - 3] := stack[sp'];
  }

  method Dup2Down2(stack: array<int>, sp: nat) returns (sp': nat)
    requires 2 <= sp && sp + 2 < stack.Length
    modifies stack
    ensures Moved(old(stack[..]), stack[..], sp, sp', Arithmetic(140))
  {
    sp' := sp + 2;
    stack[sp'] := stack[sp' - 2];
    stack[sp' - 1] := stack[sp' - 3];
    stack[sp' - 2] := stack[sp' - 4];
    stack[sp' - 3] := stack[sp'];
    stack[sp' - 4] := stack[sp' - 1];
  }

  method Dup2Down3(stack: array<int>, sp: nat) returns (sp': nat)
    requires 3 <= sp && sp + 2 < stack.Length
    modifies stack
    ensures Moved(old(stack[..]), stack[..], sp, sp', Arithmetic(141))
  {
    sp' := sp + 2;
    stack[sp'] := stack[sp' - 2];
    stack[sp' - 1] := stack[sp' - 3];
    stack[sp' - 2] := stack[sp' - 4];
    stack[sp' - 3] := stack[sp' - 5];
    stack[sp' - 4] := stack[sp'];
    stack[sp' - 5] := stack[sp' - 1];
  }
}

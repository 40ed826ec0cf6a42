/** The context over whole call sequences, and the one-shot native. */
module Sha1Protocol {
  import opened Bytes
  import opened Sha1Spec
  import opened Sha1Context

  datatype Op = DoReset | DoInput(chunk: seq<Byte>) | DoResult

  function Next(p: Phase, op: Op): Phase {
    match op
    case DoReset => Open([])
    case DoInput(chunk) => AfterInput(p, chunk)
    case DoResult => AfterResult(p)
  }

  function After(p: Phase, ops: seq<Op>): Phase
    decreases |ops|
  {
    if ops == [] then p else After(Next(p, ops[0]), ops[1..])
  }

  /** The bytes handed in by the Inputs of a sequence. */
  function Fed(ops: seq<Op>): seq<Byte> {
    if ops == [] then [] else (if ops[0].DoInput? then ops[0].chunk else []) + Fed(ops[1..])
  }

  predicate OnlyInputs(ops: seq<Op>) { forall op | op in ops :: op.DoInput? }

  /** However a message is cut into chunks, the context ends up with the same message, and it is poisoned by
      length exactly when the message reaches 2^64 bits. */
  lemma {:induction false} ChunkingDoesNotMatter(m: seq<Byte>, ops: seq<Op>)
    requires OnlyInputs(ops) && 8 * |m| < TWO64
    ensures After(Open(m), ops) == if 8 * |m + Fed(ops)| < TWO64 then Open(m + Fed(ops)) else Poisoned(1)
    decreases |ops|
  {
    if ops == [] {
      assert m + [] == m;
    } else {
      var chunk := ops[0].chunk;
      assert ops[0] in ops && OnlyInputs(ops[1..]);
      assert m + Fed(ops) == (m + chunk) + Fed(ops[1..]);
      assert Fed(ops) == chunk + Fed(ops[1..]);
      assert After(Open(m), ops) == After(AfterInput(Open(m), chunk), ops[1..]);
      if 8 * |m + chunk| < TWO64 {
        assert chunk == [] ==> m + chunk == m;
        ChunkingDoesNotMatter(m + chunk, ops[1..]);
      } else {
        PoisonStays(1, ops[1..]);
      }
    }
  }

  /** Once poisoned, always poisoned, with the same code, until a Reset. */
  lemma {:induction false} PoisonStays(code: int, ops: seq<Op>)
    requires DoReset !in ops
    ensures After(Poisoned(code), ops) == Poisoned(code)
    decreases |ops|
  {
    if ops != [] {
      assert ops[0] in ops && DoReset !in ops[1..];
      PoisonStays(code, ops[1..]);
    }
  }

  /** After a Result: further Results keep the digest's message, the first non-empty Input poisons for good. */
  lemma {:induction false} AfterDone(m: seq<Byte>, ops: seq<Op>)
    requires DoReset !in ops
    ensures After(Done(m), ops) == if Fed(ops) == [] then Done(m) else Poisoned(3)
    decreases |ops|
  {
    if ops != [] {
      assert ops[0] in ops && DoReset !in ops[1..];
      if ops[0].DoInput? && ops[0].chunk != [] {
        PoisonStays(3, ops[1..]);
      } else {
        AfterDone(m, ops[1..]);
      }
    }
  }

  function Joined(chunks: seq<seq<Byte>>): seq<Byte> {
    if chunks == [] then [] else Joined(chunks[..|chunks| - 1]) + chunks[|chunks| - 1]
  }

  /** Streaming is one-shot: for every message under 2^64 bits and every way to cut it, Reset, the Inputs and
      Result leave the digest of the whole message; for a longer one the digest is not written. */
  method HashChunks(cx: Context, chunks: seq<seq<Byte>>, out: array<Byte>) returns (code: int)
    requires cx.Valid() && out.Length == 20 && out != cx.block
    modifies cx, cx.hash, cx.block, out
    ensures 8 * |Joined(chunks)| < TWO64 ==> code == 0 && out[..] == Sha1(Joined(chunks))
    ensures 8 * |Joined(chunks)| >= TWO64 ==> code == 1 && out[..] == old(out[..])
  {
    hide Sha1, Absorb, Pad, Context.Holds;
    var _ := cx.Reset();
    var i := 0;
    while i < |chunks|
      invariant 0 <= i <= |chunks| && cx.Valid() && out[..] == old(out[..])
      invariant var m := Joined(chunks[..i]);
                cx.phase == if 8 * |m| < TWO64 then Open(m) else Poisoned(1)
    {
      assert chunks[..i + 1][..i] == chunks[..i];
      var _ := cx.Input(chunks[i]);
      i := i + 1;
    }
    assert chunks[..i] == chunks;
    code := cx.Result(out, 0);
    assert out[0..20] == out[..];
    assert old(out[0..20]) == old(out[..]);
  }

  /** Crypto.sha1(input, inputOff, len, output, outputOff): twenty bytes of output change, nothing else. */
  method CryptoSha1(input: array<Byte>, inOff: nat, len: nat, out: array<Byte>, outOff: nat)
    requires inOff + len <= input.Length && outOff + 20 <= out.Length && 8 * len < TWO64
    modifies out
    ensures out[outOff..outOff + 20] == Sha1(old(input[inOff..inOff + len]))
    ensures out[..outOff] == old(out[..outOff]) && out[outOff + 20..] == old(out[outOff + 20..])
  {
    hide Sha1, Absorb, Pad, Context.Holds;
    var cx := new Context();
    var _ := cx.Reset();
    var _ := cx.Input(input[inOff..inOff + len]);
    assert [] + input[inOff..inOff + len] == input[inOff..inOff + len];
    var _ := cx.Result(out, outOff);
  }
}

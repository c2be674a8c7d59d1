/** The one-slot ready/valid handshake every pipeline element adds around its transform
    (nmigen_sigma_delta/pipeline.py). The element holds at most one unconsumed output; it takes a
    new input when that slot is free or is being emptied on the same cycle. */
module Pipeline {
  import opened Bits
  import opened Hdl

  /** Combinational input ready: the output slot is empty, or it is full and being taken. */
  function InReady(r: Regs, outReady: bool): bool
  {
    !r.valid || (r.valid && outReady)
  }

  /** The element's output is transferred this cycle. */
  function OutAccepted(r: Regs, outReady: bool): bool
  {
    r.valid && outReady
  }

  /** The element's input is transferred this cycle. */
  function InAccepted(r: Regs, inValid: bool, outReady: bool): bool
  {
    inValid && InReady(r, outReady)
  }

  /** An input is taken only when the output slot is free or draining on the same cycle. */
  lemma InAcceptedMeansSlotFree(r: Regs, inValid: bool, outReady: bool)
    ensures InAccepted(r, inValid, outReady) ==> !r.valid || OutAccepted(r, outReady)
    ensures InAccepted(r, inValid, outReady) && !OutAccepted(r, outReady) ==> !r.valid
  {
  }

  /** The `last` value copied on an input transfer: only when both ports carry the field (the
      source skips the copy when either attribute lookup fails). */
  function LastCopy(r: Regs, inLast: Option<bool>): Option<bool>
  {
    if r.last.Some? && inLast.Some? then inLast else None
  }

  /** The clocked statements of `add_handshake`, in program order, given this cycle's transfer
      flags: clear `valid` on an output transfer, then latch the transform, set `valid` and copy
      `last` on an input transfer. */
  function HandshakeSync(outAcc: bool, inAcc: bool, value: int, last: Option<bool>): seq<Assign>
  {
    (if outAcc then [SetValid(false)] else [])
    + (if inAcc then [SetData(value), SetValid(true)] + (if last.Some? then [SetLast(last.value)] else []) else [])
  }

  lemma HandshakeSyncKeepsAux(outAcc: bool, inAcc: bool, value: int, last: Option<bool>)
    ensures Untouched(HandshakeSync(outAcc, inAcc, value, last), AuxField)
  {
  }

  /** What the clocked statements of `add_handshake` do to the registers. An input transfer wins
      over the output transfer's clearing of `valid`, because its assignment comes later. */
  lemma HandshakeSyncEffect(r: Regs, outAcc: bool, inAcc: bool, value: int, last: Option<bool>, w: Widths)
    ensures var r' := Commit(r, HandshakeSync(outAcc, inAcc, value, last), w);
      && r'.aux == r.aux
      && (inAcc ==> r'.data == Wrap(value, w.data) && r'.valid
                    && r'.last == (if last.Some? then last else r.last))
      && (!inAcc && outAcc ==> r' == r.(valid := false))
      && (!inAcc && !outAcc ==> r' == r)
  {
    var clear: seq<Assign> := if outAcc then [SetValid(false)] else [];
    var lastPart: seq<Assign> := if last.Some? then [SetLast(last.value)] else [];
    var take: seq<Assign> := if inAcc then [SetData(value), SetValid(true)] + lastPart else [];
    var body := HandshakeSync(outAcc, inAcc, value, last);
    assert body == clear + take;
    CommitAppend(r, clear, take, w);
    var mid := Commit(r, clear, w);
    if outAcc {
      assert clear[1..] == [];
      assert mid == r.(valid := false);
    } else {
      assert mid == r;
    }
    if inAcc {
      assert take == [SetData(value)] + [SetValid(true)] + lastPart;
      CommitAppend(mid, [SetData(value)] + [SetValid(true)], lastPart, w);
      CommitAppend(mid, [SetData(value)], [SetValid(true)], w);
      assert [SetData(value)][1..] == [];
      assert [SetValid(true)][1..] == [];
      var m2 := Commit(mid, [SetData(value)] + [SetValid(true)], w);
      assert m2 == mid.(data := Wrap(value, w.data), valid := true);
      if last.Some? {
        assert lastPart[1..] == [];
      }
    } else {
      assert take == [];
    }
  }

  /** One clock cycle of a pipeline element: its combinational input ready and its registers
      after the edge. */
  datatype Cycle = Cycle(inReady: bool, next: Regs)

  /** `add_handshake` as a step function of the current registers, the upstream `valid` and
      `last`, the downstream `ready` and the transform's value (computed from the current
      registers and input). */
  function Handshake(r: Regs, w: Widths, inValid: bool, inLast: Option<bool>, outReady: bool, value: int): (c: Cycle)
    ensures c.inReady <==> !(r.valid && !outReady)
    ensures inValid && c.inReady ==> c.next.data == Wrap(value, w.data) && c.next.valid
    ensures inValid && c.inReady && r.last.Some? && inLast.Some? ==> c.next.last == inLast
    ensures !(r.last.Some? && inLast.Some?) ==> c.next.last == r.last
    ensures !(inValid && c.inReady) && r.valid && outReady ==> c.next == r.(valid := false)
    ensures !(inValid && c.inReady) && !(r.valid && outReady) ==> c.next == r
    ensures r.valid && !outReady ==> c.next == r
    ensures c.next.aux == r.aux
  {
    var outAcc := OutAccepted(r, outReady);
    var inAcc := InAccepted(r, inValid, outReady);
    HandshakeSyncEffect(r, outAcc, inAcc, value, LastCopy(r, inLast), w);
    Cycle(InReady(r, outReady), Commit(r, HandshakeSync(outAcc, inAcc, value, LastCopy(r, inLast)), w))
  }
}

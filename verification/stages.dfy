/** The three stage kinds of the filter (nmigen_sigma_delta/cic.py): the integrator (running sum),
    the comb (first difference) and the down-sampler (keeps one accepted sample in `n`). Each is a
    step function from the registers and what the stage sees on one cycle to the registers after
    the clock edge. */
module Stages {
  import opened Bits
  import opened Hdl
  import Pipeline

  /** `n` is the decimation factor the down-sampler is built with (the source keeps `n - 1` and
      compares its counter against that); `counterWidth` is the declared width of the counter. */
  datatype Kind = Integrator | Comb | DownSampler(n: nat, counterWidth: nat)

  /** A stage: its kind, the width shared by its input and output ports, and its registers. */
  datatype Stage = Stage(kind: Kind, width: nat, regs: Regs)

  /** What a stage sees during one cycle: upstream `valid` and `data`, downstream `ready`. */
  datatype Tick = Tick(inValid: bool, inData: nat, outReady: bool)

  function InReady(s: Stage, outReady: bool): bool
  {
    Pipeline.InReady(s.regs, outReady)
  }

  function InAccepted(s: Stage, t: Tick): bool
  {
    Pipeline.InAccepted(s.regs, t.inValid, t.outReady)
  }

  function OutAccepted(s: Stage, t: Tick): bool
  {
    Pipeline.OutAccepted(s.regs, t.outReady)
  }

  /** Width of the auxiliary register: the comb's delayed sample is as wide as the stage, the
      down-sampler's counter has its own width, the integrator has none. */
  function AuxWidth(k: Kind, width: nat): nat
  {
    match k
    case Integrator => 0
    case Comb => width
    case DownSampler(_, cw) => cw
  }

  function RegWidths(s: Stage): Widths
  {
    Widths(s.width, AuxWidth(s.kind, s.width))
  }

  /** The clocked statements of the down-sampler, in program order: clear `valid` on an output
      transfer; on an input transfer count it, and when the old count has reached `n - 1` restart
      the count and latch the sample. */
  function DownSamplerSync(s: Stage, t: Tick, n: nat): seq<Assign>
  {
    (if OutAccepted(s, t) then [SetValid(false)] else [])
    + (if InAccepted(s, t) then CountAndMaybeLatch(s.regs.aux, n, t.inData) else [])
  }

  /** The clocked statements a stage issues on one cycle. The integrator and comb are pipeline
      elements: their transform is the handshake's latched value. Their ports carry no `last`. */
  function Body(s: Stage, t: Tick): seq<Assign>
  {
    var outAcc := OutAccepted(s, t);
    var inAcc := InAccepted(s, t);
    match s.kind
    case Integrator => Pipeline.HandshakeSync(outAcc, inAcc, t.inData + s.regs.data, None)
    case Comb =>
      (if inAcc then [SetAux(t.inData)] else [])
      + Pipeline.HandshakeSync(outAcc, inAcc, t.inData - s.regs.aux, None)
    case DownSampler(n, _) => DownSamplerSync(s, t, n)
  }

  /** The integrator: its output register is the accumulator. An input transfer adds the sample
      to it modulo 2^width; otherwise the sum is left alone. */
  function IntegratorNext(s: Stage, t: Tick): (s': Stage)
    requires s.kind.Integrator?
    ensures s'.kind == s.kind && s'.width == s.width
    ensures InAccepted(s, t) ==> s'.regs.data == Wrap(t.inData + s.regs.data, s.width) && s'.regs.valid
    ensures !InAccepted(s, t) ==> s'.regs.data == s.regs.data && s'.regs.valid == (s.regs.valid && !t.outReady)
    ensures s'.regs.aux == s.regs.aux && s'.regs.last == s.regs.last
  {
    var r := s.regs;
    Pipeline.HandshakeSyncEffect(r, OutAccepted(s, t), InAccepted(s, t), t.inData + r.data, None, RegWidths(s));
    s.(regs := Commit(r, Body(s, t), RegWidths(s)))
  }

  /** The comb: on an input transfer the output becomes the sample minus the previously accepted
      sample (held in `delayed`), modulo 2^width, and `delayed` takes the new sample. */
  function CombNext(s: Stage, t: Tick): (s': Stage)
    requires s.kind.Comb?
    ensures s'.kind == s.kind && s'.width == s.width
    ensures InAccepted(s, t) ==> && s'.regs.data == Wrap(t.inData - s.regs.aux, s.width)
                                 && s'.regs.aux == Wrap(t.inData, s.width)
                                 && s'.regs.valid
    ensures !InAccepted(s, t) ==> && s'.regs.data == s.regs.data && s'.regs.aux == s.regs.aux
                                  && s'.regs.valid == (s.regs.valid && !t.outReady)
    ensures s'.regs.last == s.regs.last
  {
    CombSyncEffect(s.regs, OutAccepted(s, t), InAccepted(s, t), t.inData, RegWidths(s));
    s.(regs := Commit(s.regs, Body(s, t), RegWidths(s)))
  }

  lemma CombSyncEffect(r: Regs, outAcc: bool, inAcc: bool, x: int, w: Widths)
    ensures var r' := Commit(r, (if inAcc then [SetAux(x)] else []) + Pipeline.HandshakeSync(outAcc, inAcc, x - r.aux, None), w);
      && (inAcc ==> r'.data == Wrap(x - r.aux, w.data) && r'.aux == Wrap(x, w.aux) && r'.valid)
      && (!inAcc && outAcc ==> r' == r.(valid := false))
      && (!inAcc && !outAcc ==> r' == r)
  {
    var first: seq<Assign> := if inAcc then [SetAux(x)] else [];
    var hs := Pipeline.HandshakeSync(outAcc, inAcc, x - r.aux, None);
    CommitAppend(r, first, hs, w);
    var mid := Commit(r, first, w);
    if inAcc {
      assert first[1..] == [];
      assert mid == r.(aux := Wrap(x, w.aux));
    }
    Pipeline.HandshakeSyncEffect(mid, outAcc, inAcc, x - r.aux, None, w);
  }

  /** The down-sampler: every input transfer advances the counter modulo 2^counterWidth; the one
      that finds the counter at `n - 1` or above restarts it at 0 and latches the sample as a valid
      output. Any other input transfer is consumed without output, and leaves the output slot
      empty. */
  function DownSamplerNext(s: Stage, t: Tick): (s': Stage)
    requires s.kind.DownSampler?
    ensures s'.kind == s.kind && s'.width == s.width
    ensures InAccepted(s, t) && s.regs.aux >= s.kind.n - 1 ==>
      && s'.regs.aux == 0 && s'.regs.data == Wrap(t.inData, s.width) && s'.regs.valid
    ensures InAccepted(s, t) && s.regs.aux < s.kind.n - 1 ==>
      && s'.regs.aux == Wrap(s.regs.aux + 1, s.kind.counterWidth) && s'.regs.data == s.regs.data
      && !s'.regs.valid
    ensures !InAccepted(s, t) ==> && s'.regs.data == s.regs.data && s'.regs.aux == s.regs.aux
                                  && s'.regs.valid == (s.regs.valid && !t.outReady)
    ensures s'.regs.last == s.regs.last
  {
    DownSamplerSyncEffect(s, t);
    s.(regs := Commit(s.regs, Body(s, t), RegWidths(s)))
  }

  lemma DownSamplerSyncEffect(s: Stage, t: Tick)
    requires s.kind.DownSampler?
    ensures var r' := Commit(s.regs, DownSamplerSync(s, t, s.kind.n), RegWidths(s));
      && (InAccepted(s, t) && s.regs.aux >= s.kind.n - 1 ==>
            r' == s.regs.(aux := 0, data := Wrap(t.inData, s.width), valid := true))
      && (InAccepted(s, t) && s.regs.aux < s.kind.n - 1 ==>
            r' == s.regs.(aux := Wrap(s.regs.aux + 1, s.kind.counterWidth), valid := false))
      && (!InAccepted(s, t) ==> r' == s.regs.(valid := s.regs.valid && !t.outReady))
  {
    var r := s.regs;
    var w := RegWidths(s);
    var n: int := s.kind.n;
    var outAcc := OutAccepted(s, t);
    var inAcc := InAccepted(s, t);
    var clear: seq<Assign> := if outAcc then [SetValid(false)] else [];
    var take: seq<Assign> := if inAcc then CountAndMaybeLatch(r.aux, n, t.inData) else [];
    assert DownSamplerSync(s, t, n) == clear + take;
    CommitAppend(r, clear, take, w);
    var mid := Commit(r, clear, w);
    if outAcc {
      CommitOne(r, SetValid(false), w);
    }
    assert mid == r.(valid := r.valid && !outAcc);
    if inAcc {
      CountAndMaybeLatchEffect(mid, r.aux, n, t.inData, w);
    }
  }

  /** The down-sampler's clocked statements for an input transfer, given the old count. */
  function CountAndMaybeLatch(cnt: nat, n: int, x: nat): seq<Assign>
  {
    [SetAux(cnt + 1)] + (if cnt >= n - 1 then [SetAux(0), SetData(x), SetValid(true)] else [])
  }

  lemma CountAndMaybeLatchEffect(r: Regs, cnt: nat, n: int, x: nat, w: Widths)
    ensures cnt >= n - 1 ==> Commit(r, CountAndMaybeLatch(cnt, n, x), w) == r.(aux := 0, data := Wrap(x, w.data), valid := true)
    ensures cnt < n - 1 ==> Commit(r, CountAndMaybeLatch(cnt, n, x), w) == r.(aux := Wrap(cnt + 1, w.aux))
  {
    var emit: seq<Assign> := if cnt >= n - 1 then [SetAux(0), SetData(x), SetValid(true)] else [];
    CommitAppend(r, [SetAux(cnt + 1)], emit, w);
    CommitOne(r, SetAux(cnt + 1), w);
    var m := r.(aux := Wrap(cnt + 1, w.aux));
    if cnt >= n - 1 {
      assert emit == [SetAux(0)] + [SetData(x)] + [SetValid(true)];
      CommitAppend(m, [SetAux(0)] + [SetData(x)], [SetValid(true)], w);
      CommitAppend(m, [SetAux(0)], [SetData(x)], w);
      CommitOne(m, SetAux(0), w);
      CommitOne(m.(aux := 0), SetData(x), w);
      CommitOne(m.(aux := 0, data := Wrap(x, w.data)), SetValid(true), w);
    } else {
      assert emit == [];
      assert [SetAux(cnt + 1)] + emit == [SetAux(cnt + 1)];
    }
  }

  /** One clock cycle of any stage. A stage holding an output that is not being taken keeps it:
      nothing overwrites an unconsumed output. */
  function Next(s: Stage, t: Tick): (s': Stage)
    ensures s'.kind == s.kind && s'.width == s.width
    ensures s.regs.valid && !t.outReady ==> s'.regs.valid && s'.regs.data == s.regs.data
    ensures s'.regs.last == s.regs.last
  {
    match s.kind
    case Integrator => IntegratorNext(s, t)
    case Comb => CombNext(s, t)
    case DownSampler(_, _) => DownSamplerNext(s, t)
  }

  /** The output item a stage holds and has not yet handed on. */
  function Pending(s: Stage): seq<nat>
  {
    if s.regs.valid then [s.regs.data] else []
  }

  /** The output item handed downstream on this cycle. */
  function Emitted(s: Stage, t: Tick): seq<nat>
  {
    if OutAccepted(s, t) then [s.regs.data] else []
  }

  /** The output item the stage's transform makes from this cycle's input transfer, if any. */
  function Produced(s: Stage, t: Tick): seq<nat>
  {
    match s.kind
    case Integrator => if InAccepted(s, t) then [Wrap(t.inData + s.regs.data, s.width)] else []
    case Comb => if InAccepted(s, t) then [Wrap(t.inData - s.regs.aux, s.width)] else []
    case DownSampler(n, _) =>
      if InAccepted(s, t) && s.regs.aux >= n - 1 then [Wrap(t.inData, s.width)] else []
  }

  /** The one-slot buffer neither loses nor duplicates: what leaves the slot on a cycle, followed by
      what it holds afterwards, is what it held before, followed by what the cycle produced. */
  lemma SlotConservation(s: Stage, t: Tick)
    ensures Emitted(s, t) + Pending(Next(s, t)) == Pending(s) + Produced(s, t)
  {
    Pipeline.InAcceptedMeansSlotFree(s.regs, t.inValid, t.outReady);
  }
}

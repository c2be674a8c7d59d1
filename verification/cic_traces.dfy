/** The whole filter over a finite run of cycles under any pattern of input `valid` and output
    `ready`. Each stage's view of the run is a stage run in its own right, neighbouring stages
    agree on every transfer, and so the samples the filter delivers are a prefix of the reference
    chain applied to the samples it accepted: the handshakes lose, duplicate and reorder nothing
    along the whole pipeline. Once every stage has drained, the two are equal. */
module CicTraces {
  import opened Bits
  import opened Hdl
  import opened Stages
  import opened StageTraces
  import opened Cic

  /** The pipeline after the cycles `ios`. */
  function Run(stages: seq<Stage>, ios: seq<Io>): (f: seq<Stage>)
    ensures |f| == |stages|
    ensures forall k :: 0 <= k < |f| ==> f[k].kind == stages[k].kind && f[k].width == stages[k].width
    decreases |ios|
  {
    if |ios| == 0 then stages else Step(Run(stages, ios[..|ios| - 1]), ios[|ios| - 1])
  }

  /** The cycles of the run as stage k saw them. */
  function StageTicks(stages: seq<Stage>, ios: seq<Io>, k: nat): (ts: seq<Tick>)
    requires k < |stages|
    ensures |ts| == |ios|
    decreases |ios|
  {
    if |ios| == 0 then []
    else
      var init := ios[..|ios| - 1];
      StageTicks(stages, init, k) + [Ticks(Run(stages, init), ios[|ios| - 1])[k]]
  }

  /** Unfolding a stage's view of the run by its last cycle. */
  lemma StageTicksSnoc(stages: seq<Stage>, ios: seq<Io>, k: nat)
    requires k < |stages| && |ios| > 0
    ensures var init := ios[..|ios| - 1];
      var ts := StageTicks(stages, ios, k);
      && ts[..|ts| - 1] == StageTicks(stages, init, k)
      && ts[|ts| - 1] == Ticks(Run(stages, init), ios[|ios| - 1])[k]
  {
  }

  /** Running stage k alone on what it saw ends where the pipeline leaves it. */
  lemma {:induction false} Projection(stages: seq<Stage>, ios: seq<Io>, k: nat)
    requires k < |stages|
    ensures Final(stages[k], StageTicks(stages, ios, k)) == Run(stages, ios)[k]
    decreases |ios|
  {
    if |ios| > 0 {
      var init := ios[..|ios| - 1];
      Projection(stages, init, k);
      StageTicksSnoc(stages, ios, k);
    }
  }

  /** The stage's own run, seen through the pipeline, unfolded by the last cycle. */
  lemma ViewSnoc(stages: seq<Stage>, ios: seq<Io>, k: nat)
    requires k < |stages| && |ios| > 0
    ensures var init := ios[..|ios| - 1];
      var io := ios[|ios| - 1];
      var p := Run(stages, init);
      var t := Ticks(p, io)[k];
      && Taken(stages[k], StageTicks(stages, ios, k))
         == Taken(stages[k], StageTicks(stages, init, k)) + (if InAccepted(p[k], t) then [t.inData] else [])
      && Given(stages[k], StageTicks(stages, ios, k))
         == Given(stages[k], StageTicks(stages, init, k)) + Emitted(p[k], t)
  {
    var init := ios[..|ios| - 1];
    StageTicksSnoc(stages, ios, k);
    Projection(stages, init, k);
    RunSnoc(stages[k], StageTicks(stages, ios, k));
  }

  /** The samples the filter accepted at its input, in order. */
  function Accepted(stages: seq<Stage>, ios: seq<Io>): seq<nat>
    decreases |ios|
  {
    if |ios| == 0 then []
    else
      var init := ios[..|ios| - 1];
      var io := ios[|ios| - 1];
      Accepted(stages, init) + if io.inValid && InputReady(Run(stages, init), io.outReady) then [io.inData] else []
  }

  /** The samples the filter delivered at its output, in order. */
  function Delivered(stages: seq<Stage>, ios: seq<Io>, ow: nat): seq<nat>
    decreases |ios|
  {
    if |ios| == 0 then []
    else
      var init := ios[..|ios| - 1];
      var io := ios[|ios| - 1];
      var p := Run(stages, init);
      Delivered(stages, init, ow) + if OutValid(p) && io.outReady then [OutData(p, ow)] else []
  }

  /** The top `w` of `width` bits of each sample. */
  function Tops(xs: seq<nat>, width: nat, w: nat): (ys: seq<nat>)
    ensures |ys| == |xs|
  {
    seq(|xs|, i requires 0 <= i < |xs| => Top(xs[i], width, w))
  }

  lemma TopsSnoc(xs: seq<nat>, ys: seq<nat>, width: nat, w: nat)
    ensures Tops(xs + ys, width, w) == Tops(xs, width, w) + Tops(ys, width, w)
  {
  }

  /** Stage 0 takes the accepted samples, zero-extended to its width. */
  lemma {:induction false} InputLink(stages: seq<Stage>, ios: seq<Io>)
    requires |stages| > 0
    ensures Taken(stages[0], StageTicks(stages, ios, 0)) == Wraps(Accepted(stages, ios), stages[0].width)
    decreases |ios|
  {
    if |ios| > 0 {
      InputLink(stages, ios[..|ios| - 1]);
      InputStep(stages, ios);
    }
  }

  lemma InputStep(stages: seq<Stage>, ios: seq<Io>)
    requires |stages| > 0 && |ios| > 0
    requires var init := ios[..|ios| - 1];
      Taken(stages[0], StageTicks(stages, init, 0)) == Wraps(Accepted(stages, init), stages[0].width)
    ensures Taken(stages[0], StageTicks(stages, ios, 0)) == Wraps(Accepted(stages, ios), stages[0].width)
  {
    var init := ios[..|ios| - 1];
    var io := ios[|ios| - 1];
    var p := Run(stages, init);
    var ts := Ticks(p, io);
    var y := if io.inValid && InputReady(p, io.outReady) then [io.inData] else [];
    ViewSnoc(stages, ios, 0);
    InputCycle(p, io);
    WrapsAppend2(Wraps(Accepted(stages, ios), stages[0].width), Accepted(stages, ios), Accepted(stages, init), y,
                 Taken(stages[0], StageTicks(stages, ios, 0)), Taken(stages[0], StageTicks(stages, init, 0)),
                 if InAccepted(p[0], ts[0]) then [ts[0].inData] else [], stages[0].width);
  }

  /** On one cycle stage 0 takes the filter's input, wrapped to its width, exactly when the filter
      accepts it. */
  lemma InputCycle(p: seq<Stage>, io: Io)
    requires |p| > 0
    ensures var ts := Ticks(p, io);
      (if InAccepted(p[0], ts[0]) then [ts[0].inData] else [])
        == Wraps(if io.inValid && InputReady(p, io.outReady) then [io.inData] else [], p[0].width)
  {
    PortAgreement(p, io);
  }

  /** Extending both sides of `t0 == Wraps(a0)` by matching pieces keeps them equal. */
  lemma WrapsAppend2(r: seq<nat>, a: seq<nat>, a0: seq<nat>, y: seq<nat>, t: seq<nat>, t0: seq<nat>, x: seq<nat>, w: nat)
    requires r == Wraps(a, w) && a == a0 + y && t == t0 + x && t0 == Wraps(a0, w) && x == Wraps(y, w)
    ensures t == r
  {
    WrapsAppend(a0, y, w);
  }

  lemma WrapsAppend(xs: seq<nat>, ys: seq<nat>, w: nat)
    ensures Wraps(xs + ys, w) == Wraps(xs, w) + Wraps(ys, w)
  {
  }

  /** Stage k+1 takes the top bits of what stage k hands on, sample for sample. */
  lemma {:induction false} Link(stages: seq<Stage>, ios: seq<Io>, k: nat)
    requires k + 1 < |stages|
    ensures Taken(stages[k + 1], StageTicks(stages, ios, k + 1))
         == Tops(Given(stages[k], StageTicks(stages, ios, k)), stages[k].width, stages[k + 1].width)
    decreases |ios|
  {
    if |ios| > 0 {
      Link(stages, ios[..|ios| - 1], k);
      LinkStep(stages, ios, k);
    }
  }

  lemma LinkStep(stages: seq<Stage>, ios: seq<Io>, k: nat)
    requires k + 1 < |stages| && |ios| > 0
    requires var init := ios[..|ios| - 1];
      Taken(stages[k + 1], StageTicks(stages, init, k + 1))
        == Tops(Given(stages[k], StageTicks(stages, init, k)), stages[k].width, stages[k + 1].width)
    ensures Taken(stages[k + 1], StageTicks(stages, ios, k + 1))
         == Tops(Given(stages[k], StageTicks(stages, ios, k)), stages[k].width, stages[k + 1].width)
  {
    var init := ios[..|ios| - 1];
    var io := ios[|ios| - 1];
    var p := Run(stages, init);
    var ts := Ticks(p, io);
    var x := if InAccepted(p[k + 1], ts[k + 1]) then [ts[k + 1].inData] else [];
    ViewSnoc(stages, ios, k);
    ViewSnoc(stages, ios, k + 1);
    LinkCycle(p, io, k);
    TopsAppend(Taken(stages[k + 1], StageTicks(stages, ios, k + 1)), Taken(stages[k + 1], StageTicks(stages, init, k + 1)), x,
               Given(stages[k], StageTicks(stages, ios, k)), Given(stages[k], StageTicks(stages, init, k)), Emitted(p[k], ts[k]),
               stages[k].width, stages[k + 1].width);
  }

  /** On one cycle stage k+1 takes the top bits of what stage k hands on. */
  lemma LinkCycle(p: seq<Stage>, io: Io, k: nat)
    requires k + 1 < |p|
    ensures var ts := Ticks(p, io);
      Tops(Emitted(p[k], ts[k]), p[k].width, p[k + 1].width)
        == if InAccepted(p[k + 1], ts[k + 1]) then [ts[k + 1].inData] else []
  {
    LinkAgreement(p, io, k);
  }

  /** The filter delivers the top `o_width` bits of what the last stage hands on. */
  lemma {:induction false} OutputLink(stages: seq<Stage>, ios: seq<Io>, ow: nat)
    requires |stages| > 0
    ensures var last := |stages| - 1;
      Delivered(stages, ios, ow) == Tops(Given(stages[last], StageTicks(stages, ios, last)), stages[last].width, ow)
    decreases |ios|
  {
    if |ios| > 0 {
      OutputLink(stages, ios[..|ios| - 1], ow);
      OutputStep(stages, ios, ow);
    }
  }

  lemma OutputStep(stages: seq<Stage>, ios: seq<Io>, ow: nat)
    requires |stages| > 0 && |ios| > 0
    requires var last := |stages| - 1;
      var init := ios[..|ios| - 1];
      Delivered(stages, init, ow) == Tops(Given(stages[last], StageTicks(stages, init, last)), stages[last].width, ow)
    ensures var last := |stages| - 1;
      Delivered(stages, ios, ow) == Tops(Given(stages[last], StageTicks(stages, ios, last)), stages[last].width, ow)
  {
    var last := |stages| - 1;
    var init := ios[..|ios| - 1];
    var io := ios[|ios| - 1];
    var p := Run(stages, init);
    var extra := if OutValid(p) && io.outReady then [OutData(p, ow)] else [];
    var e := Emitted(p[last], Ticks(p, io)[last]);
    ViewSnoc(stages, ios, last);
    OutputCycle(p, io, ow);
    TopsAppend(Delivered(stages, ios, ow), Delivered(stages, init, ow), extra,
               Given(stages[last], StageTicks(stages, ios, last)), Given(stages[last], StageTicks(stages, init, last)), e,
               stages[last].width, ow);
  }

  /** Extending both sides of `d0 == Tops(g0)` by matching pieces keeps them equal. */
  lemma TopsAppend(d: seq<nat>, d0: seq<nat>, x: seq<nat>, g: seq<nat>, g0: seq<nat>, e: seq<nat>, width: nat, w: nat)
    requires d == d0 + x && g == g0 + e && d0 == Tops(g0, width, w) && x == Tops(e, width, w)
    ensures d == Tops(g, width, w)
  {
    TopsSnoc(g0, e, width, w);
  }

  /** On one cycle the filter delivers the top bits of what its last stage hands on. */
  lemma OutputCycle(p: seq<Stage>, io: Io, ow: nat)
    requires |p| > 0
    ensures var last := |p| - 1;
      Tops(Emitted(p[last], Ticks(p, io)[last]), p[last].width, ow)
        == if OutValid(p) && io.outReady then [OutData(p, ow)] else []
  {
    PortAgreement(p, io);
  }

  // ---------------------------------------------------------------------------------------------
  // The reference chain

  /** Stage k's reference output for the samples `xs` taken by stage 0: each stage's reference
      transform applied to the top bits of its predecessor's reference output. */
  function Chain(stages: seq<Stage>, k: nat, xs: seq<nat>): seq<nat>
    requires k < |stages|
  {
    if k == 0 then Ref(stages[0].kind, stages[0].width, xs)
    else Ref(stages[k].kind, stages[k].width, Tops(Chain(stages, k - 1, xs), stages[k - 1].width, stages[k].width))
  }

  /** What the filter should deliver for the accepted samples `xs`. */
  function Reference(stages: seq<Stage>, xs: seq<nat>, ow: nat): seq<nat>
    requires |stages| > 0
  {
    var last := |stages| - 1;
    Tops(Chain(stages, last, Wraps(xs, stages[0].width)), stages[last].width, ow)
  }

  /** Every reference transform is causal: a prefix of the input gives a prefix of the output. */
  lemma RefMonotone(k: Kind, w: nat, xs: seq<nat>, ys: seq<nat>)
    requires xs <= ys
    ensures Ref(k, w, xs) <= Ref(k, w, ys)
  {
    match k
    case Integrator => IntegratorRefMonotone(xs, ys, w);
    case Comb => CombRefMonotone(xs, ys, w);
    case DownSampler(n, cw) =>
      if CounterHolds(n, cw) {
        WrapsMonotone(xs, ys, w);
        EveryNthMonotone(Wraps(xs, w), Wraps(ys, w), Period(n));
      }
  }

  lemma IntegratorRefMonotone(xs: seq<nat>, ys: seq<nat>, w: nat)
    requires xs <= ys
    ensures IntegratorRef(xs, w) <= IntegratorRef(ys, w)
  {
    forall i | 0 <= i < |xs| ensures IntegratorRef(xs, w)[i] == IntegratorRef(ys, w)[i] {
      assert xs[..i + 1] == ys[..i + 1];
    }
  }

  lemma CombRefMonotone(xs: seq<nat>, ys: seq<nat>, w: nat)
    requires xs <= ys
    ensures CombRef(xs, w) <= CombRef(ys, w)
  {
    forall i | 0 <= i < |xs| ensures CombRef(xs, w)[i] == CombRef(ys, w)[i] {
      assert xs[i] == ys[i];
    }
  }

  lemma WrapsMonotone(xs: seq<nat>, ys: seq<nat>, w: nat)
    requires xs <= ys
    ensures Wraps(xs, w) <= Wraps(ys, w)
  {
    forall i | 0 <= i < |xs| ensures Wraps(xs, w)[i] == Wraps(ys, w)[i] {
      assert xs[i] == ys[i];
    }
  }

  lemma {:induction false} EveryNthMonotone(xs: seq<nat>, ys: seq<nat>, p: nat)
    requires p >= 1 && xs <= ys
    ensures EveryNth(xs, p) <= EveryNth(ys, p)
    decreases |ys|
  {
    if |xs| < |ys| {
      var init := ys[..|ys| - 1];
      assert xs <= init;
      EveryNthMonotone(xs, init, p);
    } else {
      assert xs == ys;
    }
  }

  lemma TopsMonotone(xs: seq<nat>, ys: seq<nat>, width: nat, w: nat)
    requires xs <= ys
    ensures Tops(xs, width, w) <= Tops(ys, width, w)
  {
  }

  lemma PrefixTrans<T>(a: seq<T>, b: seq<T>, c: seq<T>)
    requires a <= b && b <= c
    ensures a <= c
  {
    assert a == c[..|a|];
  }

  /** Per-stage views of a run, over plain sequences: stage j hands on `gs[j]`, holds `ps[j]` and
      has taken `tk[j]`. Each stage conserves samples against its reference transform. */
  predicate Conserves(stages: seq<Stage>, gs: seq<seq<nat>>, ps: seq<seq<nat>>, tk: seq<seq<nat>>)
    requires |gs| == |ps| == |tk| == |stages|
  {
    forall j :: 0 <= j < |stages| ==> gs[j] + ps[j] == Ref(stages[j].kind, stages[j].width, tk[j])
  }

  /** Stage 0 takes `xs`; every later stage takes the top bits of what its predecessor hands on. */
  predicate Linked(stages: seq<Stage>, gs: seq<seq<nat>>, tk: seq<seq<nat>>, xs: seq<nat>)
    requires |gs| == |tk| == |stages| > 0
  {
    && tk[0] == xs
    && forall j :: 0 < j < |stages| ==> tk[j] == Tops(gs[j - 1], stages[j - 1].width, stages[j].width)
  }

  /** None of the stages 0..k holds a sample. */
  predicate NoneHeld(ps: seq<seq<nat>>, k: int)
  {
    forall j :: 0 <= j <= k && j < |ps| ==> ps[j] == []
  }

  /** Along linked, conserving stages, what stage k hands on is a prefix of its reference chain
      output, and all of it once no stage up to k holds a sample. */
  lemma {:induction false} ChainPrefix(stages: seq<Stage>, gs: seq<seq<nat>>, ps: seq<seq<nat>>,
                                       tk: seq<seq<nat>>, xs: seq<nat>, k: nat)
    requires |gs| == |ps| == |tk| == |stages| && k < |stages|
    requires Conserves(stages, gs, ps, tk) && Linked(stages, gs, tk, xs)
    ensures gs[k] <= Chain(stages, k, xs)
    ensures NoneHeld(ps, k) ==> gs[k] == Chain(stages, k, xs)
    decreases k
  {
    if k == 0 {
      assert gs[0] + ps[0] == Ref(stages[0].kind, stages[0].width, xs);
      assert gs[0] <= gs[0] + ps[0];
      if NoneHeld(ps, 0) {
        assert gs[0] + ps[0] == gs[0];
      }
    } else {
      ChainPrefix(stages, gs, ps, tk, xs, k - 1);
      ChainStep(stages[k].kind, stages[k].width, stages[k - 1].width, gs[k], ps[k], tk[k], gs[k - 1],
                Chain(stages, k - 1, xs));
    }
  }

  /** Stage k's own conservation theorem, read off the pipeline run. */
  lemma StageView(stages: seq<Stage>, ios: seq<Io>, k: nat)
    requires k < |stages| && Start(stages[k])
    ensures Given(stages[k], StageTicks(stages, ios, k)) + Pending(Run(stages, ios)[k])
         == Ref(stages[k].kind, stages[k].width, Taken(stages[k], StageTicks(stages, ios, k)))
  {
    StageConservation(stages[k], StageTicks(stages, ios, k));
    Projection(stages, ios, k);
  }

  /** One stage further down the chain, over plain sequences: the stage hands on `g` and holds
      `pending`, having taken the top bits of its predecessor's output `prev`, itself a prefix of
      the predecessor's reference output `c`. */
  lemma ChainStep(kind: Kind, w: nat, wPrev: nat, g: seq<nat>, pending: seq<nat>, taken: seq<nat>,
                  prev: seq<nat>, c: seq<nat>)
    requires g + pending == Ref(kind, w, taken)
    requires taken == Tops(prev, wPrev, w) && prev <= c
    ensures g <= Ref(kind, w, Tops(c, wPrev, w))
    ensures pending == [] && prev == c ==> g == Ref(kind, w, Tops(c, wPrev, w))
  {
    TopsMonotone(prev, c, wPrev, w);
    RefMonotone(kind, w, taken, Tops(c, wPrev, w));
    assert g <= g + pending;
    PrefixTrans(g, Ref(kind, w, taken), Ref(kind, w, Tops(c, wPrev, w)));
    if pending == [] {
      assert g + pending == g;
    }
  }

  /** What each stage handed on along the run. */
  function GivenAll(stages: seq<Stage>, ios: seq<Io>): (gs: seq<seq<nat>>)
    ensures |gs| == |stages|
  {
    seq(|stages|, j requires 0 <= j < |stages| => Given(stages[j], StageTicks(stages, ios, j)))
  }

  /** What each stage still holds at the end of the run. */
  function PendingAll(stages: seq<Stage>, ios: seq<Io>): (ps: seq<seq<nat>>)
    ensures |ps| == |stages|
  {
    var p := Run(stages, ios);
    seq(|stages|, j requires 0 <= j < |stages| => Pending(p[j]))
  }

  /** What each stage took along the run. */
  function TakenAll(stages: seq<Stage>, ios: seq<Io>): (tk: seq<seq<nat>>)
    ensures |tk| == |stages|
  {
    seq(|stages|, j requires 0 <= j < |stages| => Taken(stages[j], StageTicks(stages, ios, j)))
  }

  /** The pipeline's stages, each started from reset, conserve samples along any run. */
  lemma ViewsConserve(stages: seq<Stage>, ios: seq<Io>)
    requires forall j :: 0 <= j < |stages| ==> Start(stages[j])
    ensures Conserves(stages, GivenAll(stages, ios), PendingAll(stages, ios), TakenAll(stages, ios))
  {
    forall j | 0 <= j < |stages|
      ensures GivenAll(stages, ios)[j] + PendingAll(stages, ios)[j]
           == Ref(stages[j].kind, stages[j].width, TakenAll(stages, ios)[j])
    {
      StageView(stages, ios, j);
    }
  }

  /** The pipeline's stages are linked along any run, stage 0 taking the accepted samples. */
  lemma ViewsLinked(stages: seq<Stage>, ios: seq<Io>)
    requires |stages| > 0
    ensures Linked(stages, GivenAll(stages, ios), TakenAll(stages, ios), Wraps(Accepted(stages, ios), stages[0].width))
  {
    InputLink(stages, ios);
    forall j | 0 < j < |stages|
      ensures TakenAll(stages, ios)[j]
           == Tops(GivenAll(stages, ios)[j - 1], stages[j - 1].width, stages[j].width)
    {
      Link(stages, ios, j - 1);
    }
  }

  /** No stage holds a sample at the end of the run. */
  predicate Drained(stages: seq<Stage>, ios: seq<Io>)
  {
    NoneHeld(PendingAll(stages, ios), |stages| - 1)
  }

  /** The pipeline theorem: started from reset, under any stall pattern on either port, the filter
      delivers a prefix of the reference output for the samples it accepted; once every stage has
      drained, it has delivered all of it. */
  lemma FilterDeliversReference(stages: seq<Stage>, ios: seq<Io>, ow: nat)
    requires |stages| > 0 && forall j :: 0 <= j < |stages| ==> Start(stages[j])
    ensures Delivered(stages, ios, ow) <= Reference(stages, Accepted(stages, ios), ow)
    ensures Drained(stages, ios) ==> Delivered(stages, ios, ow) == Reference(stages, Accepted(stages, ios), ow)
  {
    DeliveredPrefix(stages, ios, ow);
    if Drained(stages, ios) {
      DeliveredAll(stages, ios, ow);
    }
  }

  /** The filter delivers the top output bits of a prefix of the last stage's reference chain. */
  lemma DeliveredPrefix(stages: seq<Stage>, ios: seq<Io>, ow: nat)
    requires |stages| > 0 && forall j :: 0 <= j < |stages| ==> Start(stages[j])
    ensures var last := |stages| - 1;
      Delivered(stages, ios, ow) <= Tops(Chain(stages, last, Wraps(Accepted(stages, ios), stages[0].width)), stages[last].width, ow)
  {
    var last := |stages| - 1;
    OutputLink(stages, ios, ow);
    LastStagePrefix(stages, ios);
    TopsMonotone(Given(stages[last], StageTicks(stages, ios, last)),
                 Chain(stages, last, Wraps(Accepted(stages, ios), stages[0].width)), stages[last].width, ow);
  }

  /** Once drained, it has delivered the top output bits of all of that chain. */
  lemma DeliveredAll(stages: seq<Stage>, ios: seq<Io>, ow: nat)
    requires |stages| > 0 && forall j :: 0 <= j < |stages| ==> Start(stages[j])
    requires Drained(stages, ios)
    ensures var last := |stages| - 1;
      Delivered(stages, ios, ow) == Tops(Chain(stages, last, Wraps(Accepted(stages, ios), stages[0].width)), stages[last].width, ow)
  {
    var last := |stages| - 1;
    LastStageComplete(stages, ios);
    OutputLink(stages, ios, ow);
  }

  /** The last stage hands on a prefix of the reference chain for the accepted samples. */
  lemma LastStagePrefix(stages: seq<Stage>, ios: seq<Io>)
    requires |stages| > 0 && forall j :: 0 <= j < |stages| ==> Start(stages[j])
    ensures var last := |stages| - 1;
      Given(stages[last], StageTicks(stages, ios, last)) <= Chain(stages, last, Wraps(Accepted(stages, ios), stages[0].width))
  {
    var last := |stages| - 1;
    ViewsChain(stages, ios);
    assert GivenAll(stages, ios)[last] == Given(stages[last], StageTicks(stages, ios, last));
  }

  /** And all of it once the pipeline has drained. */
  lemma LastStageComplete(stages: seq<Stage>, ios: seq<Io>)
    requires |stages| > 0 && forall j :: 0 <= j < |stages| ==> Start(stages[j])
    requires Drained(stages, ios)
    ensures var last := |stages| - 1;
      Given(stages[last], StageTicks(stages, ios, last)) == Chain(stages, last, Wraps(Accepted(stages, ios), stages[0].width))
  {
    var last := |stages| - 1;
    ViewsChain(stages, ios);
    assert GivenAll(stages, ios)[last] == Given(stages[last], StageTicks(stages, ios, last));
  }

  /** `ChainPrefix` for the last stage, over the per-stage views of the run. */
  lemma ViewsChain(stages: seq<Stage>, ios: seq<Io>)
    requires |stages| > 0 && forall j :: 0 <= j < |stages| ==> Start(stages[j])
    ensures var last := |stages| - 1;
      var g := GivenAll(stages, ios)[last];
      var c := Chain(stages, last, Wraps(Accepted(stages, ios), stages[0].width));
      && g <= c
      && (NoneHeld(PendingAll(stages, ios), last) ==> g == c)
  {
    ViewsConserve(stages, ios);
    ViewsLinked(stages, ios);
    ChainPrefix(stages, GivenAll(stages, ios), PendingAll(stages, ios), TakenAll(stages, ios),
                Wraps(Accepted(stages, ios), stages[0].width), |stages| - 1);
  }

  /** The same for the filter as `elaborate` builds it. */
  lemma BuiltFilterDeliversReference(c: Hogenauer.Config, ios: seq<Io>)
    requires Hogenauer.Valid(c)
    ensures Delivered(Build(c), ios, c.ow) <= Reference(Build(c), Accepted(Build(c), ios), c.ow)
    ensures Drained(Build(c), ios) ==> Delivered(Build(c), ios, c.ow) == Reference(Build(c), Accepted(Build(c), ios), c.ow)
  {
    FilterDeliversReference(Build(c), ios, c.ow);
  }

  /** And for the filter with the widened down-sampler counter. */
  lemma CorrectedFilterDeliversReference(c: Hogenauer.Config, ios: seq<Io>)
    requires Hogenauer.Valid(c)
    ensures Delivered(BuildCorrected(c), ios, c.ow) <= Reference(BuildCorrected(c), Accepted(BuildCorrected(c), ios), c.ow)
    ensures Drained(BuildCorrected(c), ios) ==>
      Delivered(BuildCorrected(c), ios, c.ow) == Reference(BuildCorrected(c), Accepted(BuildCorrected(c), ios), c.ow)
  {
    FilterDeliversReference(BuildCorrected(c), ios, c.ow);
  }

  /** A flushing cycle: the consumer takes and nothing is offered at the input. */
  predicate Flushing(io: Io)
  {
    io.outReady && !io.inValid
  }

  /** On a flushing cycle a stage is full after the edge only if its predecessor was full before
      it: every held sample moves on, and stage 0 receives nothing. */
  lemma FlushStep(stages: seq<Stage>, io: Io, k: nat)
    requires Flushing(io) && k < |stages| && Step(stages, io)[k].regs.valid
    ensures k > 0 && stages[k - 1].regs.valid
  {
    var t := Ticks(stages, io)[k];
    OutReadiesDrain(stages, io.outReady, k);
    StepConserves(stages, io, k);
    assert Emitted(stages[k], t) == Pending(stages[k]);
    assert Produced(stages[k], t) != [];
  }

  /** After m flushing cycles, the first m stages are empty. */
  lemma {:induction false} FlushEmpties(stages: seq<Stage>, ios: seq<Io>, m: nat)
    requires m <= |ios| && forall i :: |ios| - m <= i < |ios| ==> Flushing(ios[i])
    ensures forall k :: 0 <= k < m && k < |stages| ==> !Run(stages, ios)[k].regs.valid
    decreases m
  {
    if m > 0 {
      var init := ios[..|ios| - 1];
      assert forall i :: |init| - (m - 1) <= i < |init| ==> init[i] == ios[i];
      FlushEmpties(stages, init, m - 1);
      forall k | 0 <= k < m && k < |stages|
        ensures !Run(stages, ios)[k].regs.valid
      {
        if Run(stages, ios)[k].regs.valid {
          FlushStep(Run(stages, init), ios[|ios| - 1], k);
        }
      }
    }
  }

  /** Backpressure released: as many flushing cycles as there are stages drain the pipeline,
      whatever state the run had reached. */
  lemma FlushDrains(stages: seq<Stage>, ios: seq<Io>)
    requires |stages| <= |ios| && forall i :: |ios| - |stages| <= i < |ios| ==> Flushing(ios[i])
    ensures Drained(stages, ios)
  {
    FlushEmpties(stages, ios, |stages|);
    var ps := PendingAll(stages, ios);
    assert forall j :: 0 <= j < |ps| ==> ps[j] == Pending(Run(stages, ios)[j]);
  }

  /** Hence a run that ends by flushing delivers exactly the reference output of everything the
      filter accepted: the samples held up by a stalled consumer all come out once it resumes. */
  lemma FlushedFilterDeliversReference(stages: seq<Stage>, ios: seq<Io>, ow: nat)
    requires |stages| > 0 && forall j :: 0 <= j < |stages| ==> Start(stages[j])
    requires |stages| <= |ios| && forall i :: |ios| - |stages| <= i < |ios| ==> Flushing(ios[i])
    ensures Delivered(stages, ios, ow) == Reference(stages, Accepted(stages, ios), ow)
  {
    FlushDrains(stages, ios);
    FilterDeliversReference(stages, ios, ow);
  }

  /** For the assembled filter, as written and corrected: 2N + 1 flushing cycles at the end of any
      run bring out the whole reference output of the accepted samples. */
  lemma BuiltFiltersFlush(c: Hogenauer.Config, ios: seq<Io>)
    requires Hogenauer.Valid(c)
    requires 2 * c.order + 1 <= |ios| && forall i :: |ios| - (2 * c.order + 1) <= i < |ios| ==> Flushing(ios[i])
    ensures Delivered(Build(c), ios, c.ow) == Reference(Build(c), Accepted(Build(c), ios), c.ow)
    ensures Delivered(BuildCorrected(c), ios, c.ow) == Reference(BuildCorrected(c), Accepted(BuildCorrected(c), ios), c.ow)
  {
    var a := Build(c);
    assert forall j :: 0 <= j < |a| ==> Start(a[j]);
    FlushedFilterDeliversReference(a, ios, c.ow);
    var b := BuildCorrected(c);
    assert forall j :: 0 <= j < |b| ==> Start(b[j]);
    FlushedFilterDeliversReference(b, ios, c.ow);
  }

  // ---------------------------------------------------------------------------------------------
  // How many samples come out

  /** Integrators and combs emit one sample per sample taken; a down-sampler whose counter
      reaches n - 1 emits one per period, and one whose counter cannot emits none. */
  lemma RefLength(k: Kind, w: nat, xs: seq<nat>)
    ensures !k.DownSampler? ==> |Ref(k, w, xs)| == |xs|
    ensures k.DownSampler? && CounterHolds(k.n, k.counterWidth) ==> |Ref(k, w, xs)| == |xs| / Period(k.n)
    ensures k.DownSampler? && !CounterHolds(k.n, k.counterWidth) ==> Ref(k, w, xs) == []
  {
    if k.DownSampler? && CounterHolds(k.n, k.counterWidth) {
      EveryNthSelects(Wraps(xs, w), Period(k.n));
    }
  }

  /** In a pipeline with one working down-sampler at position d, the reference chain keeps the
      sample count up to d and divides it by the period from d on. */
  lemma {:induction false} ChainLength(stages: seq<Stage>, k: nat, xs: seq<nat>, d: nat)
    requires d < |stages| && k < |stages|
    requires forall i :: 0 <= i < |stages| && i != d ==> !stages[i].kind.DownSampler?
    requires stages[d].kind.DownSampler? && CounterHolds(stages[d].kind.n, stages[d].kind.counterWidth)
    ensures |Chain(stages, k, xs)| == if k < d then |xs| else |xs| / Period(stages[d].kind.n)
  {
    if k == 0 {
      RefLength(stages[0].kind, stages[0].width, xs);
    } else {
      ChainLength(stages, k - 1, xs, d);
      var ys := Tops(Chain(stages, k - 1, xs), stages[k - 1].width, stages[k].width);
      RefLength(stages[k].kind, stages[k].width, ys);
    }
  }

  /** The corrected build has its only down-sampler at position N, working, with period R. */
  lemma CorrectedShape(c: Hogenauer.Config)
    requires Hogenauer.Valid(c)
    ensures var s := BuildCorrected(c);
      && c.order < |s|
      && s[c.order].kind.DownSampler? && CounterHolds(s[c.order].kind.n, s[c.order].kind.counterWidth)
      && Period(s[c.order].kind.n) == c.decimation
      && forall i :: 0 <= i < |s| && i != c.order ==> !s[i].kind.DownSampler?
  {
    var s := BuildCorrected(c);
    forall i | 0 <= i < |s| && i != c.order
      ensures !s[i].kind.DownSampler?
    {
      assert s[i].kind.Integrator? || s[i].kind.Comb?;
    }
  }

  /** Such a pipeline's reference output has one sample per period of inputs, rounded down. */
  lemma ReferenceLength(stages: seq<Stage>, xs: seq<nat>, ow: nat, d: nat)
    requires d < |stages|
    requires forall i :: 0 <= i < |stages| && i != d ==> !stages[i].kind.DownSampler?
    requires stages[d].kind.DownSampler? && CounterHolds(stages[d].kind.n, stages[d].kind.counterWidth)
    ensures |Reference(stages, xs, ow)| == |xs| / Period(stages[d].kind.n)
  {
    ChainLength(stages, |stages| - 1, Wraps(xs, stages[0].width), d);
  }

  /** The corrected filter promises one output per R accepted samples, rounded down. */
  lemma CorrectedCount(c: Hogenauer.Config, xs: seq<nat>)
    requires Hogenauer.Valid(c)
    ensures |Reference(BuildCorrected(c), xs, c.ow)| == |xs| / c.decimation
  {
    CorrectedShape(c);
    ReferenceLength(BuildCorrected(c), xs, c.ow, c.order);
  }

  /** So does the filter as written, wherever its counter reaches R - 1. */
  lemma BuiltCount(c: Hogenauer.Config, xs: seq<nat>)
    requires Hogenauer.Valid(c)
    requires !(c.decimation >= 3 && IsPow2(c.decimation - 1))
    ensures |Reference(Build(c), xs, c.ow)| == |xs| / c.decimation
  {
    BuildsAgree(c, xs);
    CorrectedCount(c, xs);
  }

  /** After the flushing tail, the filter has delivered floor(accepted / R) samples: the corrected
      build always, the build as written wherever its counter reaches R - 1. */
  lemma FlushedCount(c: Hogenauer.Config, ios: seq<Io>)
    requires Hogenauer.Valid(c)
    requires 2 * c.order + 1 <= |ios| && forall i :: |ios| - (2 * c.order + 1) <= i < |ios| ==> Flushing(ios[i])
    ensures |Delivered(BuildCorrected(c), ios, c.ow)| == |Accepted(BuildCorrected(c), ios)| / c.decimation
    ensures !(c.decimation >= 3 && IsPow2(c.decimation - 1)) ==>
      |Delivered(Build(c), ios, c.ow)| == |Accepted(Build(c), ios)| / c.decimation
  {
    BuiltFiltersFlush(c, ios);
    CorrectedCount(c, Accepted(BuildCorrected(c), ios));
    if !(c.decimation >= 3 && IsPow2(c.decimation - 1)) {
      BuiltCount(c, Accepted(Build(c), ios));
    }
  }

  /** Where the written counter does hold R - 1, both builds promise the same output: stage by
      stage their reference chains coincide. */
  lemma BuildsAgree(c: Hogenauer.Config, xs: seq<nat>)
    requires Hogenauer.Valid(c)
    requires !(c.decimation >= 3 && IsPow2(c.decimation - 1))
    ensures Reference(Build(c), xs, c.ow) == Reference(BuildCorrected(c), xs, c.ow)
  {
    var a, b := Build(c), BuildCorrected(c);
    forall i | 0 <= i < |a|
      ensures a[i].width == b[i].width
    {
      BuildsDiffer(c, i);
    }
    forall i, ys | 0 <= i < |a|
      ensures Ref(a[i].kind, a[i].width, ys) == Ref(b[i].kind, b[i].width, ys)
    {
      StageRefsAgree(c, i, ys);
    }
    ReferencesAgree(a, b, xs, c.ow);
  }

  lemma ReferencesAgree(a: seq<Stage>, b: seq<Stage>, xs: seq<nat>, ow: nat)
    requires |a| == |b| && |a| > 0
    requires forall i :: 0 <= i < |a| ==> a[i].width == b[i].width
    requires forall i, ys :: 0 <= i < |a| ==> Ref(a[i].kind, a[i].width, ys) == Ref(b[i].kind, b[i].width, ys)
    ensures Reference(a, xs, ow) == Reference(b, xs, ow)
  {
    ChainsAgree(a, b, Wraps(xs, a[0].width), |a| - 1);
  }

  /** Two pipelines whose stages have the same widths and the same reference transforms have the
      same reference chain. */
  lemma {:induction false} ChainsAgree(a: seq<Stage>, b: seq<Stage>, xs: seq<nat>, k: nat)
    requires |a| == |b| && k < |a|
    requires forall i :: 0 <= i < |a| ==> a[i].width == b[i].width
    requires forall i, ys :: 0 <= i < |a| ==> Ref(a[i].kind, a[i].width, ys) == Ref(b[i].kind, b[i].width, ys)
    ensures Chain(a, k, xs) == Chain(b, k, xs)
  {
    if k > 0 {
      ChainsAgree(a, b, xs, k - 1);
    }
  }

  /** Stage k of either build makes the same of the same samples. */
  lemma StageRefsAgree(c: Hogenauer.Config, k: nat, ys: seq<nat>)
    requires Hogenauer.Valid(c) && k <= 2 * c.order
    requires !(c.decimation >= 3 && IsPow2(c.decimation - 1))
    ensures Ref(Build(c)[k].kind, Build(c)[k].width, ys) == Ref(BuildCorrected(c)[k].kind, BuildCorrected(c)[k].width, ys)
  {
    BuildsDiffer(c, k);
    if k == c.order {
      CorrectionAgrees(c.decimation, Build(c)[k].width, ys);
    }
  }

  /** Where it cannot (R = 3, 5, 9, 17, ...), the down-sampler of the filter as written never
      emits, so nothing reaches the output: the filter delivers nothing, whatever it is fed. */
  lemma {:induction false} BuiltFilterSilent(c: Hogenauer.Config, ios: seq<Io>)
    requires Hogenauer.Valid(c) && c.decimation >= 3 && IsPow2(c.decimation - 1)
    ensures Delivered(Build(c), ios, c.ow) == []
  {
    var stages := Build(c);
    var last := |stages| - 1;
    assert last == 2 * c.order;
    SilentChain(c, Wraps(Accepted(stages, ios), stages[0].width), last);
    assert forall j :: 0 <= j < |stages| ==> Start(stages[j]);
    SilentDelivered(stages, ios, c.ow);
  }

  /** A pipeline whose last stage emits nothing delivers nothing. */
  lemma SilentDelivered(stages: seq<Stage>, ios: seq<Io>, ow: nat)
    requires |stages| > 0 && forall j :: 0 <= j < |stages| ==> Start(stages[j])
    requires Chain(stages, |stages| - 1, Wraps(Accepted(stages, ios), stages[0].width)) == []
    ensures Delivered(stages, ios, ow) == []
  {
    DeliveredPrefix(stages, ios, ow);
  }

  lemma {:induction false} SilentChain(c: Hogenauer.Config, xs: seq<nat>, k: nat)
    requires Hogenauer.Valid(c) && c.decimation >= 3 && IsPow2(c.decimation - 1)
    requires c.order <= k <= 2 * c.order
    ensures Chain(Build(c), k, xs) == []
  {
    if k == c.order {
      CounterAsWrittenFails(c.decimation);
    } else {
      SilentChain(c, xs, k - 1);
    }
  }
}

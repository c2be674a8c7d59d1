/** The CIC decimator assembly (nmigen_sigma_delta/cic.py, class `CIC`): N integrators, one
    down-sampler and N combs chained into one pipeline. `valid` flows forward and `ready` flows
    backward combinationally; each link keeps the top bits of the producer's register that fit the
    consumer; the register widths come from the bit-discard allocator. */
module Cic {
  import opened Bits
  import opened Hdl
  import opened Stages
  import opened StageTraces
  import opened Hogenauer

  datatype Result<T> = Success(value: T) | Failure(error: string)

  /** `CIC.__init__`: the constructor evaluates log2(R), which raises for a decimation below 1; no
      other argument is checked there. */
  function Configure(order: nat, decimation: int, iw: nat, ow: nat): (r: Result<Config>)
    ensures r.Success? <==> decimation >= 1
    ensures r.Success? ==> Valid(r.value) && r.value.order == order && r.value.decimation == decimation
                           && r.value.iw == iw && r.value.ow == ow
  {
    if decimation < 1 then Failure("math domain error") else Success(Config(order, decimation, iw, ow))
  }

  // ---------------------------------------------------------------------------------------------
  // The width plan

  /** Entry i of `[b_max - d for d in [0] + discared]` after the empirical `+ 1`. */
  function BaseWidth(c: Config, i: nat): (w: nat)
    requires Valid(c) && i <= 2 * c.order
    ensures i == 0 ==> w == BMax(c) + 1
    ensures i > 0 ==> w == BMax(c) + 1 - DiscardOf(c, i)
  {
    if i == 0 then BMax(c) + 1
    else
      DiscardBelowBudget(c.order, Gain(c.order, c.decimation, i), Budget(c));
      BMax(c) + 1 - DiscardOf(c, i)
  }

  /** Since a positive discard stays below the budget b_max - o_width + 1, no base width exceeds
      b_max + 1, and a narrowed one still keeps more bits than the output takes. */
  lemma BaseWidthBounds(c: Config, i: nat)
    requires Valid(c) && i <= 2 * c.order
    ensures BaseWidth(c, i) <= BMax(c) + 1
    ensures BaseWidth(c, i) == BMax(c) + 1 || BaseWidth(c, i) > c.ow
  {
    if i > 0 {
      DiscardBelowBudget(c.order, Gain(c.order, c.decimation, i), Budget(c));
    }
  }

  /** The widths of `_signals`: the 2N+1 base widths with a copy of entry N-1 inserted at index N
      for the down-sampler. Python reads index N-1 = -1 as the last entry when N is 0. */
  function WidthPlan(c: Config): (ws: seq<nat>)
    requires Valid(c)
    ensures |ws| == 2 * c.order + 2
  {
    var n := c.order;
    var base := seq(2 * n + 1, i requires 0 <= i <= 2 * n => BaseWidth(c, i));
    var dup := if n >= 1 then base[n - 1] else base[2 * n];
    base[..n] + [dup] + base[n..]
  }

  /** Where each planned width comes from: integrators keep entries 0..N-1 of the base list, the
      down-sampler repeats the last integrator's width, the combs take entries N..2N shifted by
      one. */
  lemma WidthPlanLayout(c: Config)
    requires Valid(c)
    ensures var ws := WidthPlan(c);
      && (forall k :: 0 <= k < c.order ==> ws[k] == BaseWidth(c, k))
      && ws[c.order] == (if c.order >= 1 then BaseWidth(c, c.order - 1) else BaseWidth(c, 0))
      && (forall k :: c.order < k < |ws| ==> ws[k] == BaseWidth(c, k - 1))
  {
    var n := c.order;
    var base := seq(2 * n + 1, i requires 0 <= i <= 2 * n => BaseWidth(c, i));
    var dup := if n >= 1 then base[n - 1] else base[2 * n];
    assert WidthPlan(c) == base[..n] + [dup] + base[n..];
    InsertAt(base, n, dup);
  }

  /** Inserting one entry at index n keeps the entries before it and shifts the rest by one. */
  lemma InsertAt(base: seq<nat>, n: nat, x: nat)
    requires n <= |base|
    ensures var ws := base[..n] + [x] + base[n..];
      && |ws| == |base| + 1
      && (forall k :: 0 <= k < n ==> ws[k] == base[k])
      && ws[n] == x
      && (forall k :: n < k < |ws| ==> ws[k] == base[k - 1])
  {
  }

  /** Every planned width is the full b_max + 1 or keeps more than the output's bits, and none
      exceeds b_max + 1; the first stage is never narrower than the input. */
  lemma WidthPlanBounds(c: Config, k: nat)
    requires Valid(c) && k < 2 * c.order + 2
    ensures var w := WidthPlan(c)[k];
      && w <= BMax(c) + 1
      && (w == BMax(c) + 1 || w > c.ow)
    ensures WidthPlan(c)[0] == BMax(c) + 1 >= c.iw
  {
    WidthPlanLayout(c);
    var i := if k < c.order then k else if k == c.order then (if c.order >= 1 then c.order - 1 else 0) else k - 1;
    assert WidthPlan(c)[k] == BaseWidth(c, i);
    BaseWidthBounds(c, i);
  }

  // ---------------------------------------------------------------------------------------------
  // The stages

  /** The down-sampler's counter width as written: `Signal(range(n - 1))`. */
  function CounterWidthAsWritten(n: nat): nat
  {
    RangeWidth(n - 1)
  }

  /** The counter width the comparison `cnt >= n - 1` needs: `Signal(range(n))`. */
  function CounterWidth(n: nat): (w: nat)
    ensures CounterHolds(n, w)
  {
    RangeWidth(n)
  }

  /** The as-written counter cannot reach n - 1 exactly when n - 1 is a power of two of at least
      2: decimation factors 3, 5, 9, 17, ... */
  lemma CounterAsWrittenFails(n: nat)
    ensures !CounterHolds(n, CounterWidthAsWritten(n)) <==> n >= 3 && IsPow2(n - 1)
  {
    if n >= 3 && IsPow2(n - 1) {
      var k: nat :| Pow2(k) == n - 1;
      assert k >= 1;
      assert Pow2(k) == 2 * Pow2(k - 1);
      BitsForExact(n - 2, k);
    }
    if !CounterHolds(n, CounterWidthAsWritten(n)) {
      assert Pow2(BitsFor(n - 2)) == n - 1;
    }
  }

  /** The binary length of m is the r with 2^(r-1) <= m < 2^r. */
  lemma BitsForExact(m: nat, r: nat)
    requires r >= 1 && m < Pow2(r) && Pow2(r - 1) <= m
    ensures BitsFor(m) == r
  {
    var b := BitsFor(m);
    if b < r {
      Pow2Monotone(b, r - 1);
    } else if b > r {
      Pow2Monotone(r, b - 1);
    }
  }

  /** The smallest failing factor: a down-sampler built for n = 3 gets a one-bit counter, which
      never reaches 2, so from reset it hands on nothing and holds nothing, whatever it is fed. */
  lemma DecimateByThreeAsWritten(w: nat, ts: seq<Tick>)
    ensures CounterWidthAsWritten(3) == 1
    ensures var s := Stage(DownSampler(3, CounterWidthAsWritten(3)), w, Reset(false));
      Given(s, ts) == [] && !Final(s, ts).regs.valid
  {
    assert Pow2(1) == 2;
    DownSamplerSilent(Stage(DownSampler(3, CounterWidthAsWritten(3)), w, Reset(false)), ts);
  }

  /** With the corrected counter, a down-sampler from reset hands on exactly every n-th sample it
      takes, for every decimation factor. */
  lemma DecimateCorrected(n: nat, w: nat, ts: seq<Tick>)
    requires n >= 1
    ensures var s := Stage(DownSampler(n, CounterWidth(n)), w, Reset(false));
      Given(s, ts) + Pending(Final(s, ts)) == EveryNth(Wraps(Taken(s, ts), w), n)
  {
    StageConservation(Stage(DownSampler(n, CounterWidth(n)), w, Reset(false)), ts);
  }

  /** Where the written width does hold n - 1, the correction changes nothing observable: both
      down-samplers hand on the same samples. */
  lemma CorrectionAgrees(n: nat, w: nat, xs: seq<nat>)
    requires !(n >= 3 && IsPow2(n - 1))
    ensures Ref(DownSampler(n, CounterWidthAsWritten(n)), w, xs) == Ref(DownSampler(n, CounterWidth(n)), w, xs)
  {
    CounterAsWrittenFails(n);
  }

  /** The stages of `elaborate`, out of reset: `elements = integrators + [downsampler] + combs`,
      stage k with width `width[k]`, and the down-sampler's counter `Signal(range(R - 1))` as
      written. */
  function Build(c: Config): (stages: seq<Stage>)
    requires Valid(c)
    ensures |stages| == 2 * c.order + 1
    ensures forall k :: 0 <= k < |stages| ==> stages[k].width == WidthPlan(c)[k] && Start(stages[k])
    ensures forall k :: 0 <= k < |stages| ==> (stages[k].kind.Integrator? <==> k < c.order)
    ensures forall k :: 0 <= k < |stages| ==> (stages[k].kind.Comb? <==> k > c.order)
    ensures stages[c.order].kind == DownSampler(c.decimation, CounterWidthAsWritten(c.decimation))
  {
    Elaborate(c, CounterWidthAsWritten(c.decimation))
  }

  /** The same pipeline with the down-sampler's counter widened to `Signal(range(R))`, so that it
      reaches R - 1 for every decimation factor. */
  function BuildCorrected(c: Config): (stages: seq<Stage>)
    requires Valid(c)
    ensures |stages| == 2 * c.order + 1
    ensures forall k :: 0 <= k < |stages| ==> stages[k].width == WidthPlan(c)[k] && Start(stages[k])
    ensures forall k :: 0 <= k < |stages| ==> (stages[k].kind.Integrator? <==> k < c.order)
    ensures forall k :: 0 <= k < |stages| ==> (stages[k].kind.Comb? <==> k > c.order)
    ensures stages[c.order].kind == DownSampler(c.decimation, CounterWidth(c.decimation))
    ensures CounterHolds(c.decimation, stages[c.order].kind.counterWidth)
  {
    Elaborate(c, CounterWidth(c.decimation))
  }

  /** The pipeline with a down-sampler counter of `cw` bits. */
  function Elaborate(c: Config, cw: nat): (stages: seq<Stage>)
    requires Valid(c)
    ensures |stages| == 2 * c.order + 1
  {
    var ws := WidthPlan(c);
    seq(2 * c.order + 1, k requires 0 <= k <= 2 * c.order =>
      Stage(if k < c.order then Integrator
            else if k == c.order then DownSampler(c.decimation, cw)
            else Comb,
            ws[k], Reset(false)))
  }

  /** The two builds differ only in the down-sampler's counter width. */
  lemma BuildsDiffer(c: Config, k: nat)
    requires Valid(c) && k <= 2 * c.order
    ensures k != c.order ==> Build(c)[k] == BuildCorrected(c)[k]
    ensures Build(c)[k].width == BuildCorrected(c)[k].width
    ensures Build(c) == BuildCorrected(c) <==> CounterWidthAsWritten(c.decimation) == CounterWidth(c.decimation)
  {
    if Build(c) == BuildCorrected(c) {
      assert Build(c)[c.order] == BuildCorrected(c)[c.order];
    }
    if CounterWidthAsWritten(c.decimation) == CounterWidth(c.decimation) {
      assert Build(c) == BuildCorrected(c);
    }
  }

  // ---------------------------------------------------------------------------------------------
  // One clock cycle of the whole pipeline

  /** What the environment drives on the filter's ports during one cycle. */
  datatype Io = Io(inValid: bool, inData: nat, outReady: bool)

  /** The `ready` each stage sees from downstream, computed from the last stage backward: the last
      stage sees the filter's output ready, every other stage its successor's input ready. */
  function OutReadies(stages: seq<Stage>, outReady: bool): (rs: seq<bool>)
    ensures |rs| == |stages|
    decreases |stages|
  {
    if |stages| == 0 then []
    else
      var rest := OutReadies(stages[1..], outReady);
      [if |stages| == 1 then outReady else InReady(stages[1], rest[0])] + rest
  }

  /** A bubble anywhere downstream of stage k, or the consumer being ready. */
  predicate Drains(stages: seq<Stage>, outReady: bool, k: int)
  {
    outReady || exists j :: 0 <= j < |stages| && k < j && !stages[j].regs.valid
  }

  /** Stage k may hand on its output exactly when some later stage is empty or the consumer is
      ready: a full pipeline with a stalled consumer holds everything. */
  lemma {:induction false} OutReadiesDrain(stages: seq<Stage>, outReady: bool, k: nat)
    requires k < |stages|
    ensures OutReadies(stages, outReady)[k] <==> Drains(stages, outReady, k)
    decreases |stages|
  {
    var rs := OutReadies(stages, outReady);
    var rest := OutReadies(stages[1..], outReady);
    assert rs[1..] == rest;
    if k > 0 {
      OutReadiesDrain(stages[1..], outReady, k - 1);
      assert rs[k] == rest[k - 1];
      if Drains(stages[1..], outReady, k - 1) && !outReady {
        var j :| k - 1 < j < |stages[1..]| && !stages[1..][j].regs.valid;
        assert !stages[j + 1].regs.valid;
      }
      if Drains(stages, outReady, k) && !outReady {
        var j :| k < j < |stages| && !stages[j].regs.valid;
        assert !stages[1..][j - 1].regs.valid;
      }
    } else if |stages| > 1 {
      OutReadiesDrain(stages[1..], outReady, 0);
      if Drains(stages[1..], outReady, 0) && !outReady {
        var j :| 0 < j < |stages[1..]| && !stages[1..][j].regs.valid;
        assert !stages[j + 1].regs.valid;
      }
      if Drains(stages, outReady, 0) && !outReady {
        var j :| 0 < j < |stages| && !stages[j].regs.valid;
        if j > 1 {
          assert !stages[1..][j - 1].regs.valid;
        }
      }
    }
  }

  /** The filter's input ready (`self.input.ready`, driven from stage 0). */
  function InputReady(stages: seq<Stage>, outReady: bool): bool
  {
    if |stages| == 0 then outReady else InReady(stages[0], OutReadies(stages, outReady)[0])
  }

  /** The filter takes a sample exactly when some stage is empty or the consumer is ready. */
  lemma InputReadyDrain(stages: seq<Stage>, outReady: bool)
    requires |stages| > 0
    ensures InputReady(stages, outReady) <==> Drains(stages, outReady, -1)
  {
    OutReadiesDrain(stages, outReady, 0);
    if Drains(stages, outReady, -1) && !outReady && stages[0].regs.valid {
      var j :| -1 < j < |stages| && !stages[j].regs.valid;
      assert Drains(stages, outReady, 0);
    }
  }

  /** What stage k sees on one cycle. Stage 0 takes the filter's input zero-extended to its width
      (the later of the two assignments to its input wins); stage k > 0 takes the top bits of its
      predecessor's register and its predecessor's `valid`. */
  function Ticks(stages: seq<Stage>, io: Io): (ts: seq<Tick>)
    ensures |ts| == |stages|
    ensures forall k :: 0 <= k < |ts| ==> ts[k].outReady == OutReadies(stages, io.outReady)[k]
    ensures |ts| > 0 ==> ts[0].inValid == io.inValid && ts[0].inData == Wrap(io.inData, stages[0].width)
    ensures forall k :: 0 < k < |ts| ==> ts[k].inValid == stages[k - 1].regs.valid
    ensures forall k :: 0 < k < |ts| ==> ts[k].inData == Top(stages[k - 1].regs.data, stages[k - 1].width, stages[k].width)
  {
    var rs := OutReadies(stages, io.outReady);
    seq(|stages|, k requires 0 <= k < |stages| => TickAt(stages, io, rs, k))
  }

  /** Stage k's view, given the ready each stage sees. */
  function TickAt(stages: seq<Stage>, io: Io, rs: seq<bool>, k: nat): Tick
    requires k < |stages| && |rs| == |stages|
  {
    if k == 0 then Tick(io.inValid, Wrap(io.inData, stages[0].width), rs[0])
    else Tick(stages[k - 1].regs.valid, Top(stages[k - 1].regs.data, stages[k - 1].width, stages[k].width), rs[k])
  }

  /** The cycle as it reaches the filter: its input port is `Stream(input_width)`, so a value driven
      onto it keeps only its low `i_width` bits. */
  function PortIo(c: Config, io: Io): (p: Io)
    ensures p.inData < Pow2(c.iw) && p.inValid == io.inValid && p.outReady == io.outReady
    ensures io.inData < Pow2(c.iw) ==> p == io
  {
    io.(inData := Wrap(io.inData, c.iw))
  }

  /** Stage 0 of the assembled filter is at least as wide as the input port, so zero-extending the
      port's value to stage 0's width keeps it: stage 0 sees the driven value truncated to
      `i_width` bits, and a value that already fits the port unchanged. */
  lemma PortInput(c: Config, io: Io)
    requires Valid(c)
    ensures Ticks(Build(c), PortIo(c, io))[0].inData == Wrap(io.inData, c.iw)
    ensures io.inData < Pow2(c.iw) ==> Ticks(Build(c), io)[0].inData == io.inData
  {
    var w0 := Build(c)[0].width;
    WidthPlanBounds(c, 0);
    Pow2Monotone(c.iw, w0);
  }

  /** The whole pipeline across one clock edge: every stage steps on what it sees. */
  function Step(stages: seq<Stage>, io: Io): (next: seq<Stage>)
    ensures |next| == |stages|
    ensures forall k :: 0 <= k < |next| ==> next[k].kind == stages[k].kind && next[k].width == stages[k].width
    ensures forall k :: 0 <= k < |next| ==> next[k] == Next(stages[k], Ticks(stages, io)[k])
  {
    var ts := Ticks(stages, io);
    seq(|stages|, k requires 0 <= k < |stages| => Next(stages[k], ts[k]))
  }

  /** The filter's output port: the last stage's `valid`, and the top `o_width` bits of its
      register. */
  function OutValid(stages: seq<Stage>): bool
  {
    |stages| > 0 && stages[|stages| - 1].regs.valid
  }

  function OutData(stages: seq<Stage>, ow: nat): nat
  {
    if |stages| == 0 then 0 else Top(stages[|stages| - 1].regs.data, stages[|stages| - 1].width, ow)
  }

  /** A transfer on the link between stages k and k+1 is seen by both ends: stage k hands on its
      output on exactly the cycles stage k+1 takes an input, and what is taken is the top bits of
      what was handed on. */
  lemma LinkAgreement(stages: seq<Stage>, io: Io, k: nat)
    requires k + 1 < |stages|
    ensures var ts := Ticks(stages, io);
      && (OutAccepted(stages[k], ts[k]) <==> InAccepted(stages[k + 1], ts[k + 1]))
      && ts[k + 1].inData == Top(stages[k].regs.data, stages[k].width, stages[k + 1].width)
  {
    var rs := OutReadies(stages, io.outReady);
    var rest := OutReadies(stages[1..], io.outReady);
    OutReadiesSuccessor(stages, io.outReady, k);
  }

  /** Each stage's downstream ready is its successor's input ready. */
  lemma {:induction false} OutReadiesSuccessor(stages: seq<Stage>, outReady: bool, k: nat)
    requires k + 1 < |stages|
    ensures OutReadies(stages, outReady)[k] == InReady(stages[k + 1], OutReadies(stages, outReady)[k + 1])
    decreases |stages|
  {
    var rest := OutReadies(stages[1..], outReady);
    assert OutReadies(stages, outReady)[1..] == rest;
    if k > 0 {
      OutReadiesSuccessor(stages[1..], outReady, k - 1);
      assert stages[1..][k] == stages[k + 1];
    }
  }

  /** The wiring equations of the assembled filter, as each stage sees them on one cycle: the
      filter's input feeds stage 0, each stage feeds the next its `valid` and the top bits of its
      register, each stage but the last sees its successor's input ready, and the last sees the
      consumer's. The three input equations repeat what `Ticks` already ensures, so that the
      whole wiring reads in one place; the two ready equations are what this lemma adds. */
  lemma TicksWiring(stages: seq<Stage>, io: Io)
    ensures var ts := Ticks(stages, io);
      && (|ts| > 0 ==> ts[0].inValid == io.inValid && ts[0].inData == Wrap(io.inData, stages[0].width))
      && (forall k :: 0 < k < |ts| ==> ts[k].inValid == stages[k - 1].regs.valid)
      && (forall k :: 0 < k < |ts| ==> ts[k].inData == Top(stages[k - 1].regs.data, stages[k - 1].width, stages[k].width))
      && (forall k :: 0 < k < |ts| ==> ts[k - 1].outReady == InReady(stages[k], ts[k].outReady))
      && (|ts| > 0 ==> ts[|ts| - 1].outReady == io.outReady)
  {
    var ts := Ticks(stages, io);
    forall k | 0 < k < |ts|
      ensures ts[k - 1].outReady == InReady(stages[k], ts[k].outReady)
    {
      OutReadiesSuccessor(stages, io.outReady, k - 1);
    }
    if |ts| > 0 {
      LastReady(stages, io.outReady);
    }
  }

  /** On a clock edge every stage's one-slot buffer conserves samples: what stage k hands on, then
      what it holds after the edge, is what it held before, then what it produced from what it
      took. */
  lemma StepConserves(stages: seq<Stage>, io: Io, k: nat)
    requires k < |stages|
    ensures var t := Ticks(stages, io)[k];
      Emitted(stages[k], t) + Pending(Step(stages, io)[k]) == Pending(stages[k]) + Produced(stages[k], t)
  {
    SlotConservation(stages[k], Ticks(stages, io)[k]);
  }

  /** The filter's input is taken exactly when stage 0 takes one, and its output is handed on
      exactly when the last stage hands one on. */
  lemma PortAgreement(stages: seq<Stage>, io: Io)
    requires |stages| > 0
    ensures var ts := Ticks(stages, io);
      && (InAccepted(stages[0], ts[0]) <==> io.inValid && InputReady(stages, io.outReady))
      && (OutAccepted(stages[|stages| - 1], ts[|stages| - 1]) <==> OutValid(stages) && io.outReady)
  {
    var rs := OutReadies(stages, io.outReady);
    LastReady(stages, io.outReady);
  }

  lemma {:induction false} LastReady(stages: seq<Stage>, outReady: bool)
    requires |stages| > 0
    ensures OutReadies(stages, outReady)[|stages| - 1] == outReady
    decreases |stages|
  {
    if |stages| > 1 {
      LastReady(stages[1..], outReady);
      assert OutReadies(stages, outReady)[1..] == OutReadies(stages[1..], outReady);
    }
  }

  /** One-slot safety for the whole pipeline: a stage holding a sample that its successor (or the
      consumer) does not take keeps it, unchanged, across the edge. */
  lemma NoSampleOverwritten(stages: seq<Stage>, io: Io, k: nat)
    requires k < |stages|
    requires stages[k].regs.valid && !Drains(stages, io.outReady, k)
    ensures Step(stages, io)[k].regs.valid && Step(stages, io)[k].regs.data == stages[k].regs.data
  {
    OutReadiesDrain(stages, io.outReady, k);
  }
}

/** A stage run over a finite sequence of cycles under an arbitrary pattern of upstream `valid`
    and downstream `ready`. The samples it hands on, followed by the one it still holds, are
    exactly what its reference transform makes of the samples it took: the handshake loses,
    duplicates and reorders nothing. */
module StageTraces {
  import opened Bits
  import opened Hdl
  import opened Stages

  /** The stage after running the cycles `ts`. */
  function Final(s: Stage, ts: seq<Tick>): (f: Stage)
    ensures f.kind == s.kind && f.width == s.width
    decreases |ts|
  {
    if |ts| == 0 then s else Next(Final(s, ts[..|ts| - 1]), ts[|ts| - 1])
  }

  /** The samples the stage took on its input, in order. */
  function Taken(s: Stage, ts: seq<Tick>): seq<nat>
    decreases |ts|
  {
    if |ts| == 0 then []
    else
      var t := ts[|ts| - 1];
      Taken(s, ts[..|ts| - 1]) + if InAccepted(Final(s, ts[..|ts| - 1]), t) then [t.inData] else []
  }

  /** The samples the stage handed on at its output, in order. */
  function Given(s: Stage, ts: seq<Tick>): seq<nat>
    decreases |ts|
  {
    if |ts| == 0 then []
    else Given(s, ts[..|ts| - 1]) + Emitted(Final(s, ts[..|ts| - 1]), ts[|ts| - 1])
  }

  /** Everything the stage's transform produced along the run. */
  function ProducedAll(s: Stage, ts: seq<Tick>): seq<nat>
    decreases |ts|
  {
    if |ts| == 0 then []
    else ProducedAll(s, ts[..|ts| - 1]) + Produced(Final(s, ts[..|ts| - 1]), ts[|ts| - 1])
  }

  /** Unfolding the run by its last cycle. */
  lemma RunSnoc(s: Stage, ts: seq<Tick>)
    requires |ts| > 0
    ensures var init := ts[..|ts| - 1];
      var t := ts[|ts| - 1];
      var f := Final(s, init);
      && Final(s, ts) == Next(f, t)
      && Taken(s, ts) == Taken(s, init) + (if InAccepted(f, t) then [t.inData] else [])
      && Given(s, ts) == Given(s, init) + Emitted(f, t)
      && ProducedAll(s, ts) == ProducedAll(s, init) + Produced(f, t)
  {
  }

  /** The stage's registers are as they come out of reset. */
  predicate Start(s: Stage)
  {
    s.regs == Reset(false)
  }

  /** Over any run, the slot passes on what was in it plus what was produced, in order. */
  lemma {:induction false} RunConservation(s: Stage, ts: seq<Tick>)
    ensures Given(s, ts) + Pending(Final(s, ts)) == Pending(s) + ProducedAll(s, ts)
    decreases |ts|
  {
    if |ts| > 0 {
      var init := ts[..|ts| - 1];
      var t := ts[|ts| - 1];
      var f := Final(s, init);
      RunConservation(s, init);
      SlotConservation(f, t);
      RunSnoc(s, ts);
      Regroup(Given(s, init), Emitted(f, t), Pending(Next(f, t)), Pending(f), Produced(f, t),
              Pending(s), ProducedAll(s, init));
    }
  }

  /** The bookkeeping of one more cycle: sequences regrouped by associativity. */
  lemma Regroup<T>(given: seq<T>, out: seq<T>, after: seq<T>, before: seq<T>, made: seq<T>,
                   start: seq<T>, madeSoFar: seq<T>)
    requires out + after == before + made
    requires given + before == start + madeSoFar
    ensures (given + out) + after == start + (madeSoFar + made)
  {
    calc {
      (given + out) + after;
      given + (out + after);
      given + (before + made);
      (given + before) + made;
      (start + madeSoFar) + made;
    }
  }

  // ---------------------------------------------------------------------------------------------
  // Reference transforms, stated independently of the step functions.

  function Sum(xs: seq<int>): int
  {
    if |xs| == 0 then 0 else Sum(xs[..|xs| - 1]) + xs[|xs| - 1]
  }

  /** Each sample wrapped to `w` bits. */
  function Wraps(xs: seq<nat>, w: nat): (ys: seq<nat>)
    ensures |ys| == |xs|
  {
    seq(|xs|, i requires 0 <= i < |xs| => Wrap(xs[i], w))
  }

  /** Running sums modulo 2^w: the i-th output is the sum of the first i+1 inputs. */
  function IntegratorRef(xs: seq<nat>, w: nat): (ys: seq<nat>)
    ensures |ys| == |xs|
  {
    seq(|xs|, i requires 0 <= i < |xs| => Wrap(Sum(xs[..i + 1]), w))
  }

  /** First differences modulo 2^w, against an initial previous sample of 0. */
  function CombRef(xs: seq<nat>, w: nat): (ys: seq<nat>)
    ensures |ys| == |xs|
  {
    seq(|xs|, i requires 0 <= i < |xs| => Wrap(xs[i] as int - if i == 0 then 0 else xs[i - 1], w))
  }

  /** The p-th, 2p-th, ... elements of `xs`. */
  function EveryNth(xs: seq<nat>, p: nat): seq<nat>
    requires p >= 1
  {
    if |xs| == 0 then []
    else EveryNth(xs[..|xs| - 1], p) + if |xs| % p == 0 then [xs[|xs| - 1]] else []
  }

  /** The down-sampler's period: a decimation factor of 0 behaves like 1 (its `cnt >= n - 1` test
      always holds). */
  function Period(n: nat): (p: nat)
    ensures p >= 1
  {
    if n == 0 then 1 else n
  }

  /** The counter of the given width can count up to `n - 1`. */
  predicate CounterHolds(n: nat, counterWidth: nat)
  {
    n - 1 < Pow2(counterWidth)
  }

  /** What a stage of this kind makes of the samples it takes. A down-sampler whose counter cannot
      reach `n - 1` never emits. */
  function Ref(k: Kind, w: nat, xs: seq<nat>): seq<nat>
  {
    match k
    case Integrator => IntegratorRef(xs, w)
    case Comb => CombRef(xs, w)
    case DownSampler(n, cw) => if CounterHolds(n, cw) then EveryNth(Wraps(xs, w), Period(n)) else []
  }

  // ---------------------------------------------------------------------------------------------
  // Reference transforms extended by one sample.

  lemma WrapsSnoc(xs: seq<nat>, x: nat, w: nat)
    ensures Wraps(xs + [x], w) == Wraps(xs, w) + [Wrap(x, w)]
  {
  }

  lemma IntegratorRefSnoc(xs: seq<nat>, x: nat, w: nat)
    ensures IntegratorRef(xs + [x], w) == IntegratorRef(xs, w) + [Wrap(Sum(xs) + x, w)]
  {
    var ys := xs + [x];
    assert ys[..|ys| - 1] == xs;
    assert ys[..|xs| + 1] == ys;
    forall i | 0 <= i < |xs|
      ensures IntegratorRef(ys, w)[i] == IntegratorRef(xs, w)[i]
    {
      assert ys[..i + 1] == xs[..i + 1];
    }
  }

  lemma CombRefSnoc(xs: seq<nat>, x: nat, w: nat)
    ensures CombRef(xs + [x], w) == CombRef(xs, w) + [Wrap(x - if |xs| == 0 then 0 else xs[|xs| - 1], w)]
  {
  }

  lemma EveryNthSnoc(xs: seq<nat>, x: nat, p: nat)
    requires p >= 1
    ensures EveryNth(xs + [x], p) == EveryNth(xs, p) + if (|xs| + 1) % p == 0 then [x] else []
  {
    assert (xs + [x])[..|xs|] == xs;
  }

  /** Stepping a count kept modulo p. */
  lemma ModStep(a: nat, p: nat)
    requires p >= 1
    ensures a % p == p - 1 ==> (a + 1) % p == 0
    ensures a % p < p - 1 ==> (a + 1) % p == a % p + 1
  {
    var q := a / p;
    assert a == q * p + a % p;
    if a % p == p - 1 {
      assert a + 1 == (q + 1) * p + 0;
      DivModUnique(a + 1, p, q + 1, 0);
    } else {
      assert a + 1 == q * p + (a % p + 1);
      DivModUnique(a + 1, p, q, a % p + 1);
    }
  }

  // ---------------------------------------------------------------------------------------------
  // Per-kind state invariants.

  /** One cycle of an integrator whose accumulator holds the sum of the samples taken so far. */
  lemma IntegratorCycle(f: Stage, t: Tick, xs: seq<nat>)
    requires f.kind.Integrator? && f.regs.data == Wrap(Sum(xs), f.width)
    ensures var xs' := xs + if InAccepted(f, t) then [t.inData] else [];
      && Next(f, t).regs.data == Wrap(Sum(xs'), f.width)
      && IntegratorRef(xs', f.width) == IntegratorRef(xs, f.width) + Produced(f, t)
  {
    if InAccepted(f, t) {
      IntegratorRefSnoc(xs, t.inData, f.width);
      WrapAddWrap(t.inData, Sum(xs), f.width);
      assert (xs + [t.inData])[..|xs|] == xs;
      assert Sum(xs + [t.inData]) == Sum(xs) + t.inData;
      assert Next(f, t) == IntegratorNext(f, t);
    } else {
      assert xs + [] == xs;
      assert Next(f, t) == IntegratorNext(f, t);
    }
  }

  lemma {:induction false} IntegratorRun(s: Stage, ts: seq<Tick>)
    requires Start(s) && s.kind.Integrator?
    ensures Final(s, ts).regs.data == Wrap(Sum(Taken(s, ts)), s.width)
    ensures ProducedAll(s, ts) == IntegratorRef(Taken(s, ts), s.width)
    decreases |ts|
  {
    if |ts| > 0 {
      var init := ts[..|ts| - 1];
      IntegratorRun(s, init);
      RunSnoc(s, ts);
      IntegratorCycle(Final(s, init), ts[|ts| - 1], Taken(s, init));
    }
  }

  /** The comb's `delayed` register after taking `xs`: the last sample taken, or 0. */
  function Delayed(xs: seq<nat>, w: nat): nat
  {
    if |xs| == 0 then 0 else Wrap(xs[|xs| - 1], w)
  }

  /** One cycle of a comb whose `delayed` register holds the last sample taken so far. */
  lemma CombCycle(f: Stage, t: Tick, xs: seq<nat>)
    requires f.kind.Comb? && f.regs.aux == Delayed(xs, f.width)
    ensures var xs' := xs + if InAccepted(f, t) then [t.inData] else [];
      && Next(f, t).regs.aux == Delayed(xs', f.width)
      && CombRef(xs', f.width) == CombRef(xs, f.width) + Produced(f, t)
  {
    assert Next(f, t) == CombNext(f, t);
    if InAccepted(f, t) {
      CombRefSnoc(xs, t.inData, f.width);
      if |xs| > 0 {
        WrapSubWrap(t.inData, xs[|xs| - 1], f.width);
      }
    } else {
      assert xs + [] == xs;
    }
  }

  lemma {:induction false} CombRun(s: Stage, ts: seq<Tick>)
    requires Start(s) && s.kind.Comb?
    ensures Final(s, ts).regs.aux == Delayed(Taken(s, ts), s.width)
    ensures ProducedAll(s, ts) == CombRef(Taken(s, ts), s.width)
    decreases |ts|
  {
    if |ts| > 0 {
      var init := ts[..|ts| - 1];
      CombRun(s, init);
      RunSnoc(s, ts);
      CombCycle(Final(s, init), ts[|ts| - 1], Taken(s, init));
    }
  }

  /** One cycle of a down-sampler whose counter holds the number of samples taken so far modulo
      its period. */
  lemma DownSamplerCycle(f: Stage, t: Tick, xs: seq<nat>)
    requires f.kind.DownSampler? && CounterHolds(f.kind.n, f.kind.counterWidth)
    requires f.regs.aux == |xs| % Period(f.kind.n)
    ensures var xs' := xs + if InAccepted(f, t) then [t.inData] else [];
      && Next(f, t).regs.aux == |xs'| % Period(f.kind.n)
      && EveryNth(Wraps(xs', f.width), Period(f.kind.n))
         == EveryNth(Wraps(xs, f.width), Period(f.kind.n)) + Produced(f, t)
  {
    var p := Period(f.kind.n);
    assert Next(f, t) == DownSamplerNext(f, t);
    if InAccepted(f, t) {
      WrapsSnoc(xs, t.inData, f.width);
      EveryNthSnoc(Wraps(xs, f.width), Wrap(t.inData, f.width), p);
      ModStep(|xs|, p);
      if f.regs.aux < f.kind.n - 1 {
        assert Wrap(f.regs.aux + 1, f.kind.counterWidth) == f.regs.aux + 1;
      }
    } else {
      assert xs + [] == xs;
    }
  }

  lemma {:induction false} DownSamplerRun(s: Stage, ts: seq<Tick>)
    requires Start(s) && s.kind.DownSampler? && CounterHolds(s.kind.n, s.kind.counterWidth)
    ensures Final(s, ts).regs.aux == |Taken(s, ts)| % Period(s.kind.n)
    ensures ProducedAll(s, ts) == EveryNth(Wraps(Taken(s, ts), s.width), Period(s.kind.n))
    decreases |ts|
  {
    if |ts| > 0 {
      var init := ts[..|ts| - 1];
      DownSamplerRun(s, init);
      RunSnoc(s, ts);
      DownSamplerCycle(Final(s, init), ts[|ts| - 1], Taken(s, init));
    }
  }

  /** A down-sampler whose counter cannot reach `n - 1` never latches a sample: its output slot
      stays empty and it hands nothing on, however many samples it takes. */
  lemma {:induction false} DownSamplerSilent(s: Stage, ts: seq<Tick>)
    requires Start(s) && s.kind.DownSampler? && !CounterHolds(s.kind.n, s.kind.counterWidth)
    ensures !Final(s, ts).regs.valid
    ensures Final(s, ts).regs.aux < Pow2(s.kind.counterWidth)
    ensures Given(s, ts) == [] && ProducedAll(s, ts) == []
    decreases |ts|
  {
    if |ts| > 0 {
      var init := ts[..|ts| - 1];
      DownSamplerSilent(s, init);
      RunSnoc(s, ts);
      var f := Final(s, init);
      assert Next(f, ts[|ts| - 1]) == DownSamplerNext(f, ts[|ts| - 1]);
    }
  }

  /** The stage theorem: from reset, under any stall pattern, the samples a stage hands on followed
      by the one it still holds are its reference transform of the samples it took. */
  lemma StageConservation(s: Stage, ts: seq<Tick>)
    requires Start(s)
    ensures Given(s, ts) + Pending(Final(s, ts)) == Ref(s.kind, s.width, Taken(s, ts))
  {
    RunConservation(s, ts);
    match s.kind
    case Integrator => IntegratorRun(s, ts);
    case Comb => CombRun(s, ts);
    case DownSampler(n, cw) =>
      if CounterHolds(n, cw) {
        DownSamplerRun(s, ts);
      } else {
        DownSamplerSilent(s, ts);
      }
  }

  // ---------------------------------------------------------------------------------------------
  // What the reference transforms say about concrete inputs and about their shape.

  /** Unstalled inputs a, b, c give running sums a, a+b, a+b+c through an integrator. */
  lemma IntegratorExample(a: nat, b: nat, c: nat, w: nat)
    ensures IntegratorRef([a, b, c], w) == [Wrap(a, w), Wrap(a + b, w), Wrap(a + b + c, w)]
  {
    var xs := [a, b, c];
    assert xs[..1] == [a] && xs[..2] == [a, b] && xs[..3] == xs;
    assert [a, b][..1] == [a];
    assert [a][..0] == [];
    assert Sum([a]) == a;
    assert Sum([a, b]) == a + b;
    assert Sum(xs) == a + b + c;
  }

  /** Unstalled inputs a, b, c give a, b - a, c - b through a comb. */
  lemma CombExample(a: nat, b: nat, c: nat, w: nat)
    ensures CombRef([a, b, c], w) == [Wrap(a, w), Wrap(b - a, w), Wrap(c - b, w)]
  {
  }

  /** Output `m` of a selection by period `p` is input (m+1)p - 1. */
  predicate PickedAt(xs: seq<nat>, ys: seq<nat>, p: nat, m: nat)
    requires m < |ys| && p >= 1
  {
    MulAtLeast(m + 1, p);
    (m + 1) * p <= |xs| && ys[m] == xs[(m + 1) * p - 1]
  }

  /** Exactly the p-th, 2p-th, ... samples are forwarded: output number m (from 0) is input number
      (m+1)p - 1, and there are |xs| / p outputs. */
  lemma {:induction false} EveryNthSelects(xs: seq<nat>, p: nat)
    requires p >= 1
    ensures |EveryNth(xs, p)| == |xs| / p
    ensures forall m :: 0 <= m < |EveryNth(xs, p)| ==> PickedAt(xs, EveryNth(xs, p), p, m)
    decreases |xs|
  {
    if |xs| > 0 {
      EveryNthSelects(xs[..|xs| - 1], p);
      EveryNthSelectsStep(xs, p);
    } else {
      assert |xs| / p == 0;
    }
  }

  lemma EveryNthSelectsStep(xs: seq<nat>, p: nat)
    requires p >= 1 && |xs| > 0
    requires var init := xs[..|xs| - 1];
      && |EveryNth(init, p)| == |init| / p
      && forall m :: 0 <= m < |EveryNth(init, p)| ==> PickedAt(init, EveryNth(init, p), p, m)
    ensures |EveryNth(xs, p)| == |xs| / p
    ensures forall m :: 0 <= m < |EveryNth(xs, p)| ==> PickedAt(xs, EveryNth(xs, p), p, m)
  {
    var init := xs[..|xs| - 1];
    var k := |init|;
    DivStep(k, p);
    forall m | 0 <= m < |EveryNth(xs, p)|
      ensures PickedAt(xs, EveryNth(xs, p), p, m)
    {
      if m < k / p {
        assert PickedAt(init, EveryNth(init, p), p, m);
        BelowQuotient(m, k, p);
        assert EveryNth(xs, p)[m] == EveryNth(init, p)[m];
      } else {
        LastMultiple(k, p);
      }
    }
  }

  /** When k + 1 is a multiple of p, it is (k / p + 1) * p. */
  lemma LastMultiple(k: nat, p: nat)
    requires p >= 1 && (k + 1) % p == 0
    ensures (k / p + 1) * p == k + 1
  {
    DivStep(k, p);
    var q := (k + 1) / p;
    assert k + 1 == q * p + (k + 1) % p;
  }

  /** Counting one more sample raises the quotient by one exactly when the count reaches a
      multiple of p. */
  lemma DivStep(k: nat, p: nat)
    requires p >= 1
    ensures (k + 1) % p == 0 ==> (k + 1) / p == k / p + 1
    ensures (k + 1) % p != 0 ==> (k + 1) / p == k / p
  {
    var q := k / p;
    assert k == q * p + k % p;
    if k % p == p - 1 {
      DivModUnique(k + 1, p, q + 1, 0);
    } else {
      DivModUnique(k + 1, p, q, k % p + 1);
    }
  }
}

# A verified model of the nmigen-sigma-delta CIC decimator

This project models the core of `nmigen_sigma_delta` in Dafny. That core is a cascaded
integrator-comb (CIC) decimation filter described in nmigen. It has these parts:

- **The Stream port** (`interfaces.py`): a record of `data`, `valid`, `ready` and an optional
  `last`, with `accepted()` and `connect()`.
- **The one-slot handshake** (`pipeline.py`, `_PipeElement.add_handshake`). Every pipeline element
  has an output register and a `valid` flag. Input `ready` is `~valid | output.accepted()`. An
  input transfer loads the transformed sample and sets `valid`. An output transfer clears `valid`,
  and a simultaneous input transfer wins.
- **The three stage kinds** (`cic.py`):
  - the integrator, whose output register is a running sum;
  - the comb, which subtracts the previously accepted sample;
  - the down-sampler, which forwards every n-th accepted sample and counts with a
    `Signal(range(n - 1))` counter.
- **The bit-discard allocator** (`CIC.__init__`'s `b_max` and `get_discared_bits`). It follows
  Hogenauer's 1981 paper. It sizes the budget B = b_max - ow + 1, builds each stage's impulse
  response to the output, takes its energy (the error gain f_j), and returns
  floor(log4(4^B / (2 N f_j))), clamped at 0.
- **The assembly** (`CIC.elaborate`):
  - the width plan `[b_max - d for d in [0] + discared]`, with the empirical `+ 1` and the
    down-sampler's duplicated width;
  - `elements = integrators + [downsampler] + combs`;
  - the data links, which keep the top bits of each producer's register;
  - `valid` wired forward and `ready` wired backward;
  - the filter's own ports.

How the hardware semantics become Dafny:
- **Registers.** Each stage's registers are a datatype. One clock cycle is a pure function from
  the registers and what the stage sees on its ports (upstream `valid`/`data`, downstream
  `ready`) to the next registers.
- **Clocked assignments.** nmigen's `sync` statements are a list of assignments applied in
  program order, so the later one wins (`Hdl.Commit`). Every value is truncated to its signal's
  width (`Bits.Wrap`).
- **Combinational signals.** These are functions of the current registers. The backward `ready`
  chain is computed from the last stage towards the first (`Cic.OutReadies`).
- **Links.** The part-select `x[-w:]` is `Bits.Top`.
- **Stage 0's input.** The assignment at `cic.py:154` comes later in the list than the one at
  `cic.py:140`, so it wins: stage 0 takes the filter input, zero-extended to stage 0's width.
  The input port itself is `i_width` bits wide (`cic.py:73`), and stage 0 is at least that wide,
  so stage 0 sees the driven value truncated to `i_width` bits (`Cic.PortIo`, `Cic.PortInput`).
- **The allocator's floating-point formulas.** `ceil`, `log2` and `floor` are replaced by the
  exact integer quantities they approximate:
  - b_max = ceil(log2 R^N) + iw - 1 (`Hogenauer.CeilLog2`);
  - the discard of stage j is the largest k with 2 N f_j 4^k <= 4^B (`Hogenauer.StageDiscard`).
  - `math.comb` is Pascal's rule. It is shown equal to the factorial formula.

The main results:
- **Per stage** (`StageTraces.StageConservation`). From reset, under any pattern of stalls on
  either port, a stage hands on, followed by what it still holds, exactly its reference
  transform of the samples it took. The references are:
  - the integrator: running sums modulo 2^w;
  - the comb: first differences modulo 2^w;
  - the down-sampler: every n-th sample.
- **Whole filter** (`CicTraces.FilterDeliversReference`). From reset, under any stall pattern,
  the filter's output is always a prefix of the composed reference applied to its accepted
  input. When the pipeline is drained, the output is that reference exactly, and as many cycles
  with the consumer ready and no input offered as there are stages always drain it
  (`CicTraces.FlushDrains`): samples held up by a stalled consumer all come out once it resumes.
  After such a flush the filter has delivered floor(accepted / R) samples
  (`CicTraces.FlushedCount`), the count the source's simulations wait for.
  The composed
  reference is: each stage's transform, then the top bits that fit the next stage, and finally
  the top `o_width` bits.
- **The allocator** (Hogenauer). Each entry is the largest admissible discard and lies below the
  budget. Entries do not increase as a stage's error gain grows. On Hogenauer's worked example
  (N = 4, R = 25, 16-bit input and output), the budget is B = 19, the error gains are
  2927984825, 6520849, 41745, 497, 70, 20, 6 and 2, and the whole list is
  [1, 6, 9, 13, 14, 15, 16, 17], the reference vector in `tests/test_cic.py`.
- **The down-sampler's counter** (see Findings). As written, the counter is one value too narrow
  whenever n - 1 is a power of two of at least 2. `Cic.Build` elaborates the filter as written,
  and `Cic.BuildCorrected` elaborates it with the widened counter. The two promise the same output
  wherever the written counter suffices. Otherwise the filter as written delivers nothing at all.

Files:
- `bits.dfy`: fixed-width arithmetic.
- `hdl.dfy`: clocked assignment lists.
- `interfaces.dfy`: the Stream port.
- `pipeline.dfy`: the handshake.
- `stages.dfy`: one cycle of each stage.
- `stage_traces.dfy`: runs of one stage.
- `hogenauer.dfy`: the allocator.
- `cic.dfy`: the assembly and one cycle of the pipeline.
- `cic_traces.dfy`: runs of the pipeline.
- `paper_integrators.dfy`: the worked example's integrator gains.
- `paper_example.dfy`: the worked example.

## Model

| member | source | states |
|---|---|---|
| Bits.Wrap | nmigen_sigma_delta/pipeline.py:26 | an assigned value always fits the register's width, and a value that already fits is stored unchanged |
| Bits.WrapAddWrap | nmigen_sigma_delta/cic.py:22 | adding a register's wrapped contents is adding the unwrapped value modulo 2^w, so the accumulator tracks the true sum modulo 2^w |
| Bits.Top | nmigen_sigma_delta/cic.py:141 | the part-select `x[-w:]` is the quotient of x by 2^(width-w), so it lies in the interval the dropped low bits leave; a receiver at least as wide as the value gets it whole |
| Bits.TopFits | nmigen_sigma_delta/cic.py:141 | the top bits of a value that fits its width fit the receiving width |
| Bits.RangeWidth | nmigen_sigma_delta/cic.py:39 | `Signal(range(stop))` has no bits exactly for an empty range; otherwise its width is the least that holds stop - 1 |
| Hdl.Latch | nmigen_sigma_delta/pipeline.py:21-28 | one clocked assignment changes only the field it targets, and stores its value truncated to that field's width |
| Hdl.Commit | nmigen_sigma_delta/pipeline.py:21-32 | after a cycle's clocked statements, a field no statement targets keeps its value, and the data and counter registers either fit their widths or are unchanged |
| Hdl.CommitAppend | nmigen_sigma_delta/pipeline.py:21-32 | statement lists from separate `with m.If` blocks compose: running their concatenation is running one after the other |
| Hdl.LastWriteWins | nmigen_sigma_delta/pipeline.py:21-28 | when no later statement targets the same field, the field holds what the last assignment to it stored (the input transfer's `valid.eq(1)` beats the output transfer's `valid.eq(0)`) |
| Hdl.Reset | nmigen_sigma_delta/pipeline.py:9-10 | out of reset a stage holds nothing and its data and counter registers are zero; it has a `last` register exactly when the port was built with one |
| Interfaces.LayoutFields | nmigen_sigma_delta/interfaces.py:6-13 | the record has `data` of the declared width, one-bit `valid` and `ready`, and a one-bit `last` exactly when built with `last=True` |
| Interfaces.Connect | nmigen_sigma_delta/interfaces.py:28-36 | connect forwards `data` (truncated to the receiver) and `valid` downstream and `ready` upstream, so both ends see the same transfer; `last` is forwarded when the source has it, and connecting a source with `last` to a port without one fails |
| Interfaces.ConnectSameShape | nmigen_sigma_delta/interfaces.py:28-36 | connecting two ports of one shape loses nothing: the receiver sees exactly the sender's values and the sender sees the receiver's `ready` |
| Pipeline.InAcceptedMeansSlotFree | nmigen_sigma_delta/pipeline.py:18-19 | an input is taken only while the output slot is empty or is being emptied on the same cycle |
| Pipeline.HandshakeSyncKeepsAux | nmigen_sigma_delta/pipeline.py:21-32 | the handshake's clocked statements never touch a stage's own auxiliary register |
| Pipeline.HandshakeSyncEffect | nmigen_sigma_delta/pipeline.py:21-32 | the clocked statements of `add_handshake`: an input transfer loads the truncated value and sets `valid` even when the output is taken on the same cycle; an output transfer alone clears `valid`; otherwise nothing changes |
| Pipeline.Handshake | nmigen_sigma_delta/pipeline.py:13-32 | input ready holds exactly when the slot is not stalled full; a held sample that is not taken survives the cycle unchanged; `last` is copied only when both ports carry it |
| Stages.IntegratorNext | nmigen_sigma_delta/cic.py:20-23 | an input transfer stores input plus accumulator modulo 2^w and marks it valid; otherwise the accumulator is kept and `valid` drops only when the output is taken |
| Stages.CombNext | nmigen_sigma_delta/cic.py:7-17 | an input transfer outputs the sample minus the delayed sample modulo 2^w and makes the sample the new delayed one; otherwise data and the delayed sample are kept |
| Stages.CombSyncEffect | nmigen_sigma_delta/cic.py:13-16 | the comb's `delayed.eq` and the handshake's statements combine into: load the difference, remember the sample |
| Stages.DownSamplerNext | nmigen_sigma_delta/cic.py:34-55 | an input transfer that finds the counter at n - 1 or above restarts it at 0 and latches the sample valid; any other input transfer steps the counter modulo its width and leaves the slot empty; without an input transfer data and counter are kept and `valid` drops only when the output is taken |
| Stages.DownSamplerSyncEffect | nmigen_sigma_delta/cic.py:44-54 | the down-sampler's clocked statements in program order, with the later `cnt.eq(0)` overriding `cnt.eq(cnt + 1)` and `valid.eq(1)` overriding `valid.eq(0)` |
| Stages.CountAndMaybeLatchEffect | nmigen_sigma_delta/cic.py:47-54 | below n - 1 the counter just steps; at or above it the counter resets and the sample is latched valid |
| Stages.Next | nmigen_sigma_delta/pipeline.py:18-28 | every stage, whatever its kind, keeps a sample that is valid and not taken, and never changes its kind, width or `last` |
| Stages.SlotConservation | nmigen_sigma_delta/pipeline.py:18-28 | the one-slot buffer neither loses nor duplicates: what leaves on a cycle followed by what is held after equals what was held before followed by what the transform produced |
| StageTraces.RunConservation | nmigen_sigma_delta/pipeline.py:13-32 | over any run, the samples handed on followed by the one still held equal the one held at the start followed by everything produced |
| StageTraces.IntegratorRun | nmigen_sigma_delta/cic.py:20-23 | from reset, the accumulator holds the sum of the samples taken modulo 2^w, and the outputs produced are the running sums of those samples |
| StageTraces.CombRun | nmigen_sigma_delta/cic.py:7-17 | from reset, the delayed register holds the last sample taken (0 before any), and the outputs produced are first differences modulo 2^w |
| StageTraces.DownSamplerRun | nmigen_sigma_delta/cic.py:39-54 | with a counter wide enough for n - 1, the counter holds the number of samples taken modulo n, and the outputs produced are exactly every n-th sample |
| StageTraces.DownSamplerSilent | nmigen_sigma_delta/cic.py:39-54 | with a counter too narrow to reach n - 1, the down-sampler never latches: it hands on and holds nothing, whatever it is fed |
| StageTraces.StageConservation | nmigen_sigma_delta/cic.py:7-55 | per-stage theorem: from reset, under any stall pattern, samples handed on followed by the one still held are the stage's reference transform of the samples taken |
| StageTraces.IntegratorExample | nmigen_sigma_delta/cic.py:22 | three samples a, b, c through an integrator give a, a+b, a+b+c modulo 2^w |
| StageTraces.CombExample | nmigen_sigma_delta/cic.py:16 | three samples a, b, c through a comb give a, b-a, c-b modulo 2^w |
| StageTraces.EveryNthSelects | nmigen_sigma_delta/cic.py:47-54 | the down-sampler's reference keeps |xs| / p samples, and its m-th output is input number (m+1)p - 1 |
| Hogenauer.BinomialFactorial | nmigen_sigma_delta/cic.py:89-90 | Pascal's recursion for `comb` agrees with n! / (k! (n-k)!) |
| Hogenauer.ImpulseShape | nmigen_sigma_delta/cic.py:89-101 | h_j starts with a unit sample; over an integrator's first R samples only the l = 0 term of (9b) is present, so h_j[k] = C(N-j+k, k), the step response of the remaining integrators; a comb's response is zero past its 2N+1-j binomial coefficients |
| Hogenauer.ResponseStartsAtOne | nmigen_sigma_delta/cic.py:89-101 | every stage's impulse response starts with a unit sample |
| Hogenauer.CeilLog2Unique | nmigen_sigma_delta/cic.py:78 | ceil(log2 x) is the unique c with 2^(c-1) < x <= 2^c |
| Hogenauer.BMax | nmigen_sigma_delta/cic.py:78 | b_max - iw + 1 is the least c with R^N <= 2^c |
| Hogenauer.Log4Floor | nmigen_sigma_delta/cic.py:107-111 | the clamped floor(log4(num / den)): a positive result k satisfies den 4^k <= num, and num < den 4^(k+1) always |
| Hogenauer.StageDiscard | nmigen_sigma_delta/cic.py:85-111 | equation (21) clamped at 0: no discard when B <= 0; otherwise a positive d satisfies 2 N f 4^d <= 4^B, and 4^B < 2 N f 4^(d+1) |
| Hogenauer.DiscardIsLargest | nmigen_sigma_delta/cic.py:107-111 | any k with 2 N f 4^k <= 4^B is at most the discard, so the discard is the largest admissible one |
| Hogenauer.DiscardBelowBudget | nmigen_sigma_delta/cic.py:107-111 | a stage that discards anything discards fewer than the budget's B bits |
| Hogenauer.DiscardAntitone | nmigen_sigma_delta/cic.py:104-111 | a stage with more error gain discards no more bits |
| Hogenauer.DiscardedBits | nmigen_sigma_delta/cic.py:109-111 | the list has one entry per stage 1..2N |
| Hogenauer.DiscardedBitsSpec | nmigen_sigma_delta/cic.py:80-112 | each entry is 0 when B <= 0; otherwise it is the largest k with 2 N f_j 4^k <= 4^B, and a nonzero entry is below B |
| Hogenauer.DiscardedBitsFollowGain | nmigen_sigma_delta/cic.py:104-111 | entries do not increase as the error gain of their stage grows |
| Cic.Configure | nmigen_sigma_delta/cic.py:67-78 | construction fails exactly for a decimation below 1 (where `log2` raises); otherwise it keeps the four parameters |
| Cic.BaseWidthBounds | nmigen_sigma_delta/cic.py:119-123 | no base width exceeds b_max + 1, and a narrowed one still keeps more than `o_width` bits, because a positive discard stays below the budget b_max - o_width + 1 |
| Cic.WidthPlan | nmigen_sigma_delta/cic.py:126 | the plan has 2N + 2 widths, one more than the base list |
| Cic.WidthPlanLayout | nmigen_sigma_delta/cic.py:119-126 | integrators keep base entries 0..N-1, the down-sampler repeats entry N-1 (the last entry when N = 0, as Python's index -1), and the combs take entries N..2N |
| Cic.WidthPlanBounds | nmigen_sigma_delta/cic.py:119-126 | no width exceeds b_max + 1, every narrower width keeps more than o_width bits, and the first stage is at least as wide as the input |
| Cic.CounterWidth | nmigen_sigma_delta/cic.py:39 | the corrected counter, `Signal(range(n))`, can always count up to n - 1 |
| Cic.CounterAsWrittenFails | nmigen_sigma_delta/cic.py:39 | the counter as written cannot reach n - 1 exactly when n - 1 is a power of two of at least 2 |
| Cic.DecimateByThreeAsWritten | nmigen_sigma_delta/cic.py:39-54 | as written, a down-sampler for n = 3 gets a one-bit counter and never hands on a sample |
| Cic.DecimateCorrected | nmigen_sigma_delta/cic.py:39-54 | with the corrected counter, every decimation factor n >= 1 forwards exactly every n-th sample |
| Cic.CorrectionAgrees | nmigen_sigma_delta/cic.py:39 | wherever the counter as written is wide enough, the correction changes no output |
| Cic.Build | nmigen_sigma_delta/cic.py:128-134 | the 2N + 1 elements come out of reset as integrators, then one down-sampler with decimation R and the counter as written, then combs, and stage k has planned width k |
| Cic.BuildCorrected | nmigen_sigma_delta/cic.py:39 | the same elements with the down-sampler's counter widened to `Signal(range(R))`, which can always count up to R - 1 |
| Cic.BuildsDiffer | nmigen_sigma_delta/cic.py:39 | the two builds differ only in the down-sampler's counter width, and are equal exactly when the two widths are |
| Cic.OutReadiesDrain | nmigen_sigma_delta/cic.py:145-149 | stage k sees downstream `ready` exactly when some later stage is empty or the consumer is ready |
| Cic.InputReadyDrain | nmigen_sigma_delta/cic.py:152 | the filter takes a sample exactly when some stage is empty or the consumer is ready |
| Cic.TicksWiring | nmigen_sigma_delta/cic.py:135-158 | the wiring equations on one cycle: stage 0 takes the filter's `valid` and its data zero-extended to stage 0's width; stage k+1 takes stage k's `valid` and the top bits of its register; each stage's downstream `ready` is its successor's input ready, and the last stage's is the consumer's |
| Cic.PortIo | nmigen_sigma_delta/cic.py:73 | the value reaching the filter's `i_width`-bit input port fits the port, and a driven value that already fits passes unchanged |
| Cic.PortInput | nmigen_sigma_delta/cic.py:154 | stage 0 of the assembled filter sees the driven value truncated to `i_width` bits, and a value that fits the port unchanged, because stage 0 is at least as wide as the port |
| Cic.StepConserves | nmigen_sigma_delta/cic.py:135-149 | on each clock edge of the assembled pipeline every stage's one-sample slot conserves samples: what it hands on, then what it holds after the edge, is what it held before, then what it produced from what it took |
| Cic.LinkAgreement | nmigen_sigma_delta/cic.py:145-149 | a transfer on a link is seen by both ends: stage k hands on exactly when stage k+1 takes |
| Cic.OutReadiesSuccessor | nmigen_sigma_delta/cic.py:148 | each stage's downstream `ready` is its successor's input ready |
| Cic.PortAgreement | nmigen_sigma_delta/cic.py:151-158 | the filter takes an input exactly when stage 0 does, and delivers exactly when the last stage hands on |
| Cic.LastReady | nmigen_sigma_delta/cic.py:156 | the last stage sees the consumer's `ready` |
| Cic.NoSampleOverwritten | nmigen_sigma_delta/cic.py:145-149 | a stage holding a sample that nothing downstream can drain keeps it through the clock edge |
| CicTraces.Projection | nmigen_sigma_delta/cic.py:135-149 | running one stage alone on what it saw inside the pipeline ends where the pipeline leaves it |
| CicTraces.InputLink | nmigen_sigma_delta/cic.py:152-154 | stage 0 takes exactly the samples the filter accepted, truncated to its width |
| CicTraces.Link | nmigen_sigma_delta/cic.py:138-147 | stage k+1 takes exactly the top bits of what stage k hands on, sample for sample |
| CicTraces.OutputLink | nmigen_sigma_delta/cic.py:155-157 | the filter delivers the top `o_width` bits of exactly what the last stage hands on |
| CicTraces.RefMonotone | nmigen_sigma_delta/cic.py:7-55 | every stage's reference transform is causal: a prefix of its input gives a prefix of its output |
| CicTraces.ChainPrefix | nmigen_sigma_delta/cic.py:134-149 | along linked stages that conserve samples, what stage k hands on is a prefix of the composed reference, and all of it when stages 0..k hold nothing |
| CicTraces.FilterDeliversReference | nmigen_sigma_delta/cic.py:114-160 | pipeline theorem: from reset, under any stalls, the delivered samples are a prefix of the composed reference of the accepted ones, and all of it once drained |
| CicTraces.BuiltFilterDeliversReference | nmigen_sigma_delta/cic.py:114-160 | the pipeline theorem for the filter as `elaborate` builds it from a configuration: a prefix of the composed reference, and all of it once drained |
| CicTraces.CorrectedFilterDeliversReference | nmigen_sigma_delta/cic.py:114-160 | the same pipeline theorem for the build with the widened counter |
| CicTraces.FlushStep | nmigen_sigma_delta/pipeline.py:18-28 | on a cycle with the consumer ready and no input offered, a stage is full after the edge only if its predecessor was full before it |
| CicTraces.FlushDrains | nmigen_sigma_delta/cic.py:145-157 | whatever state a run has reached, as many further cycles with the consumer ready and no input offered as there are stages leave every stage empty |
| CicTraces.FlushedFilterDeliversReference | nmigen_sigma_delta/cic.py:114-160 | a run from reset that ends with that many flushing cycles delivers exactly the composed reference of every sample the filter accepted |
| CicTraces.BuiltFiltersFlush | nmigen_sigma_delta/cic.py:114-160 | for the filter as written and as corrected, 2N + 1 flushing cycles at the end of any run bring out the whole reference output of the accepted samples |
| CicTraces.ReferenceLength | nmigen_sigma_delta/cic.py:44-54 | in a pipeline whose only down-sampler can count to n - 1, the composed reference has one output per n inputs, rounded down; integrators and combs keep the count |
| CicTraces.CorrectedCount | nmigen_sigma_delta/cic.py:114-160 | the corrected filter's reference output for xs has exactly len(xs) // R samples |
| CicTraces.BuiltCount | nmigen_sigma_delta/cic.py:114-160 | the filter as written promises len(xs) // R samples too, wherever its counter reaches R - 1 (every R except 3, 5, 9, 17, ...) |
| CicTraces.FlushedCount | nmigen_sigma_delta/tests/test_cic.py:19 | after 2N + 1 flushing cycles the filter has delivered len(accepted) // R samples, the number the test's receiver waits for; as written this holds wherever the counter reaches R - 1, which includes R = 256 and R = 1024 |
| CicTraces.ChainsAgree | nmigen_sigma_delta/cic.py:134-149 | two pipelines whose stages have equal widths and equal reference transforms have the same composed reference at every stage |
| CicTraces.BuildsAgree | nmigen_sigma_delta/cic.py:39 | wherever the counter as written reaches R - 1, the filter as written and the corrected one promise the same output for the same input |
| CicTraces.BuiltFilterSilent | nmigen_sigma_delta/cic.py:39-54 | as written, a filter whose R - 1 is a power of two of at least 2 (R = 3, 5, 9, 17, ...) delivers nothing, whatever it is fed and however it is stalled |
| PaperResult.CombGain | nmigen_sigma_delta/cic.py:90-104 | a comb stage's error gain is the sum of the squared binomials C(2N+1-j, k), because its response is zero past index 2N+1-j |
| PaperResult.PaperBudget | nmigen_sigma_delta/cic.py:78-85 | for N = 4, R = 25, 16-bit input and output: b_max = 34 and B = 19 |
| PaperResult.PaperCombGainValue | nmigen_sigma_delta/cic.py:104 | in that example the comb stages 5..8 have error gains 70, 20, 6 and 2 |
| PaperResult.PaperCombDiscard | nmigen_sigma_delta/tests/test_cic.py:6-8 | in that example comb stage j discards j + 9 bits, which are entries 14, 15, 16 and 17 of the reference vector |
| PaperIntegrators.ScaledBinomial | nmigen_sigma_delta/cic.py:89 | for a <= 3, 6 C(a + m, m) is 6, 6(m+1), 3(m+1)(m+2) or (m+1)(m+2)(m+3) |
| PaperIntegrators.BlockResponseIsResponse | nmigen_sigma_delta/cic.py:89-95 | for N = 4 and R = 25, six times the response of integrator stage j at sample 25q + t is the alternating sum of shifted closed forms with weights 1, -4, 6, -4 |
| PaperIntegrators.IntegratorGainBlocks | nmigen_sigma_delta/cic.py:92-104 | 36 times an integrator stage's error gain is the energy of its scaled response over blocks of 25, 25, 25 and 22 samples |
| PaperIntegrators.IntegratorGains | nmigen_sigma_delta/cic.py:104 | in the example the integrator stages 1..4 have error gains 2927984825, 6520849, 41745 and 497 |
| PaperResult.PaperIntegratorDiscard | nmigen_sigma_delta/tests/test_cic.py:6-8 | in that example integrator stages 1..4 discard 1, 6, 9 and 13 bits |
| PaperResult.PaperDiscards | nmigen_sigma_delta/tests/test_cic.py:6-8 | `get_discared_bits` on CIC(4, 25, 16, 16) is exactly [1, 6, 9, 13, 14, 15, 16, 17], and stage j discards entry j |

## Left out

- The allocator's floating-point arithmetic (`log2`, `ceil`, `floor`, `/ 12`) is modelled by
  the exact values it approximates. Rounding could move a result where an exact power of 4 or 2
  lies on a boundary.
- Hogenauer.DiscardedBits: returns a list for every configuration, where the source raises on
  extreme budgets. `e_2n_1**2` is an exact integer, but the true division `/ 12` at `cic.py:87`
  raises `OverflowError` once B >= 514, because 2^(2B) / 12 exceeds the float range. At the other
  end, 2^B is a float when B < 0. For B <= -536 the quotient 2^(2B) / 12 underflows to 0.0, and
  for N >= 1 `log2(total_variance)` at `cic.py:107` raises `ValueError`; that is o_width >=
  b_max + 537. The model returns its exact result in both cases: all zeros for the second.
- `int(k / (R * M) + 1)` is modelled as exact integer division, without the float rounding that
  very large k would suffer.
- M, the differential delay, is fixed at 1, as in the source.
- The empirical `+ 1` on every width is modelled as written. Why it is needed is not modelled.
- The simulation drivers `send_driver`/`recv_driver`, the `_sent`/`_received` lists and
  `get_signals` are left out. They are test-bench code, not hardware.
- The tests `test_cic` and `test_one_bit_cic` are left out. They only run simulations and assert
  nothing.
- nmigen's elaboration machinery is not modelled: `Module`, submodule naming, `Elaboratable`, and
  the choice of clock domain. A run is a sequence of cycles of one clock.
- Orders and widths are natural numbers. Negative values, which nmigen or Python would reject or
  misuse, are excluded by their types.
- The CIC uses no `last` field. The model carries `last` through the handshake and `connect`
  only.
- The down-sampler's input ready is the handshake's expression (`cic.py:41-42`).
- Cic.Io: a cycle's `inData` stands for the value on the filter's `i_width`-bit input port. The
  run lemmas wrap it only to stage 0's width; a driven value wider than the port is first
  passed through `Cic.PortIo`, and `Cic.PortInput` shows that stage 0 then sees it truncated to
  `i_width` bits, as in the source.
- The assignments to `_signals[n]` and `_signals[n + 1]` are modelled as the links they produce.
  The assignment of `_signals[0]` to stage 0's input is overridden by the later assignment of the
  filter input (`cic.py:154`), as stated above.

## Findings

| source | as written | input that shows it | evidently intended | confidence | as-written member | corrected member |
|---|---|---|---|---|---|---|
| nmigen_sigma_delta/cic.py:39 | `cnt = Signal(range(self.n))` with `self.n = n - 1`, so the counter is bits_for(n - 2) bits wide; it holds n - 1 unless n - 1 is a power of two of at least 2, and then the test `cnt >= self.n` can never fire | decimation n = 3: a one-bit counter wraps 0, 1, 0, ... and never reaches 2, so the down-sampler never outputs (likewise n = 5, 9, 17, ...) | `Signal(range(n))`, a counter that holds 0..n-1 | not executed | Cic.DecimateByThreeAsWritten, CicTraces.BuiltFilterSilent | Cic.DecimateCorrected, CicTraces.BuildsAgree |

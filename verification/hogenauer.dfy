/** The bit-discard allocator of the CIC filter (nmigen_sigma_delta/cic.py, `CIC.__init__` and
    `get_discared_bits`), after Hogenauer, "An Economical Class of Digital Filters for Decimation
    and Interpolation", IEEE Transactions on Acoustics, Speech and Signal Processing, 1981,
    equations (9b), (12), (16a/b), (20) and (21). The differential delay M is fixed at 1, as in
    the source. The source evaluates three base-2 logarithms in floating point; here each is
    replaced by the exact integer property it approximates. */
module Hogenauer {
  import opened Bits

  /** b^e. */
  function Pow(b: nat, e: nat): (r: nat)
    ensures b >= 1 ==> r >= 1
  {
    if e == 0 then 1 else MulAtLeastOne(b, Pow(b, e - 1)); b * Pow(b, e - 1)
  }

  lemma MulAtLeastOne(a: nat, b: nat)
    ensures a >= 1 && b >= 1 ==> a * b >= 1
  {
  }

  lemma {:induction false} PowMonotone(b: nat, d: nat, e: nat)
    requires b >= 1 && d <= e
    ensures Pow(b, d) <= Pow(b, e)
    decreases e
  {
    if d < e {
      PowMonotone(b, d, e - 1);
      MulMonotone(1, b, Pow(b, e - 1));
    }
  }

  lemma {:induction false} PowAdd(b: nat, d: nat, e: nat)
    ensures Pow(b, d + e) == Pow(b, d) * Pow(b, e)
    decreases e
  {
    if e > 0 {
      PowAdd(b, d, e - 1);
      MulSwap(b, Pow(b, d), Pow(b, e - 1));
    }
  }

  lemma MulSwap(a: int, x: int, y: int)
    ensures a * (x * y) == x * (a * y)
  {
  }

  // ---------------------------------------------------------------------------------------------
  // Binomial coefficients

  /** `math.comb(n, k)` for the non-negative arguments the allocator passes, by Pascal's rule; it
      is zero when k > n. */
  function Binomial(n: nat, k: nat): (r: nat)
    ensures r == 0 <==> k > n
    ensures k == 0 || k == n ==> r == 1
  {
    if k == 0 then 1
    else if n == 0 then 0
    else Binomial(n - 1, k - 1) + Binomial(n - 1, k)
  }

  function Fact(n: nat): (r: nat)
    ensures r >= 1
  {
    if n == 0 then 1 else MulAtLeastOne(n, Fact(n - 1)); n * Fact(n - 1)
  }

  /** The recursion agrees with the textbook definition n! / (k! (n-k)!) of `math.comb`. */
  lemma {:induction false} BinomialFactorial(n: nat, k: nat)
    requires k <= n
    ensures Binomial(n, k) * Fact(k) * Fact(n - k) == Fact(n)
    decreases n
  {
    if k == 0 || k == n {
    } else {
      BinomialFactorial(n - 1, k - 1);
      BinomialFactorial(n - 1, k);
      assert n - 1 - (k - 1) == n - k;
      PascalFactorial(n, k, Binomial(n - 1, k - 1), Binomial(n - 1, k), Fact(k - 1), Fact(n - 1 - k), Fact(n - 1));
    }
  }

  /** The arithmetic of one Pascal step of BinomialFactorial, over plain numbers. */
  lemma PascalFactorial(n: int, k: int, a: int, b: int, fk1: int, fnk1: int, fn1: int)
    requires a * fk1 * ((n - k) * fnk1) == fn1
    requires b * (k * fk1) * fnk1 == fn1
    ensures (a + b) * (k * fk1) * ((n - k) * fnk1) == n * fn1
  {
    var kk := k * fk1;
    var ff := (n - k) * fnk1;
    assert (a + b) * kk * ff == a * kk * ff + b * kk * ff;
    assert a * kk * ff == k * (a * fk1 * ff);
    assert b * kk * ff == (n - k) * (b * kk * fnk1);
  }

  lemma CancelRight(a: int, b: int, c: int)
    requires c > 0 && a * c == b * c
    ensures a == b
  {
    if a < b {
      MulMonotone(a + 1, b, c);
    } else if b < a {
      MulMonotone(b + 1, a, c);
    }
  }

  // ---------------------------------------------------------------------------------------------
  // Impulse responses and error gains (equations (9b) and (16b))

  /** (-1)^e. */
  function Sign(e: nat): (s: int)
    ensures s == 1 || s == -1
    ensures s == 1 <==> e % 2 == 0
  {
    if e % 2 == 0 then 1 else -1
  }

  /** The filter parameters the allocator reads: order N, decimation R, input and output widths. */
  datatype Config = Config(order: nat, decimation: nat, iw: nat, ow: nat)

  predicate Valid(c: Config)
  {
    c.decimation >= 1
  }

  /** Term l of the sum (9b) for an integrator stage j <= N at sample k. */
  function IntegratorTerm(n: nat, r: nat, j: nat, k: nat, l: nat): int
    requires 1 <= j <= n && r * l <= k
  {
    Sign(l) * Binomial(n, l) * Binomial(n - j + (k - r * l), k - r * l)
  }

  /** The first `count` terms of the sum (9b). */
  function IntegratorTerms(n: nat, r: nat, j: nat, k: nat, count: nat): int
    requires 1 <= j <= n && r >= 1 && r * count <= k + r
  {
    if count == 0 then 0
    else
      assert r * (count - 1) == r * count - r;
      IntegratorTerms(n, r, j, k, count - 1) + IntegratorTerm(n, r, j, k, count - 1)
  }

  /** Sample k of the impulse response from stage j to the filter output: for an integrator
      (j <= N) the sum over l in 0..k/R of (-1)^l C(N, l) C(N-j+k-Rl, k-Rl); for a comb (j > N)
      the signed coefficient (-1)^k C(2N+1-j, k). */
  function Response(n: nat, r: nat, j: nat, k: nat): int
    requires 1 <= j <= 2 * n && r >= 1
  {
    if j <= n then
      DivBounds(k, r);
      IntegratorTerms(n, r, j, k, k / r + 1)
    else Sign(k) * Binomial(2 * n + 1 - j, k)
  }

  /** Number of samples the source keeps of each impulse response. */
  function ResponseLength(n: nat, r: nat): nat
    requires r >= 1
  {
    (r - 1) * n + 1
  }

  /** The impulse response h_j as the list the source builds. */
  function Impulse(n: nat, r: nat, j: nat): (h: seq<int>)
    requires 1 <= j <= 2 * n && r >= 1
    ensures |h| == ResponseLength(n, r)
    ensures forall k :: 0 <= k < |h| ==> h[k] == Response(n, r, j, k)
  {
    seq(ResponseLength(n, r), k requires 0 <= k => Response(n, r, j, k))
  }

  /** The shape of h_j: it starts with a unit sample; an integrator's response over its first R
      samples is the step response of the remaining N - j + 1 integrators, C(N-j+k, k), because
      only the l = 0 term of (9b) is present there; a comb's response is zero past its 2N+1-j
      binomial coefficients. */
  lemma ImpulseShape(n: nat, r: nat, j: nat)
    requires 1 <= j <= 2 * n && r >= 1
    ensures var h := Impulse(n, r, j);
      && h[0] == 1
      && (j <= n ==> forall k: nat :: k < r && k < |h| ==> h[k] == Binomial(n - j + k, k))
      && (j > n ==> forall k :: 2 * n + 1 - j < k < |h| ==> h[k] == 0)
  {
    var h := Impulse(n, r, j);
    ResponseStartsAtOne(n, r, j);
    if j <= n {
      forall k: nat | k < r && k < |h|
        ensures h[k] == Binomial(n - j + k, k)
      {
        DivBounds(k, r);
        assert k / r == 0;
        assert IntegratorTerms(n, r, j, k, 1) == IntegratorTerm(n, r, j, k, 0);
      }
    }
  }

  /** Every impulse response starts with a unit sample. */
  lemma ResponseStartsAtOne(n: nat, r: nat, j: nat)
    requires 1 <= j <= 2 * n && r >= 1
    ensures Response(n, r, j, 0) == 1
  {
    if j <= n {
      assert 0 / r == 0;
      assert IntegratorTerms(n, r, j, 0, 1) == IntegratorTerm(n, r, j, 0, 0);
    }
  }

  function SumSquares(s: seq<int>): (t: nat)
    ensures |s| > 0 ==> t >= s[0] * s[0]
  {
    if |s| == 0 then 0 else s[0] * s[0] + SumSquares(s[1..])
  }

  /** The variance error gain f_j of equation (16b): the energy of h_j, and 1 for the output
      stage 2N+1. It is at least 1, so the logarithm the source takes of it is defined. */
  function Gain(n: nat, r: nat, j: nat): (f: nat)
    requires 1 <= j <= 2 * n + 1 && r >= 1
    ensures f >= 1
  {
    if j == 2 * n + 1 then 1
    else
      var h := Impulse(n, r, j);
      ResponseStartsAtOne(n, r, j);
      SumSquares(h)
  }

  // ---------------------------------------------------------------------------------------------
  // b_max and the discard list (equations (12), (20), (21))

  /** ceil(log2 x) for x >= 1, as an integer: the least c with x <= 2^c. */
  function CeilLog2(x: nat): (c: nat)
    ensures x <= Pow2(c)
    ensures c > 0 ==> Pow2(c - 1) < x
  {
    if x <= 1 then 0
    else
      var c' := CeilLog2((x + 1) / 2);
      assert Pow2(c' + 1) == 2 * Pow2(c');
      c' + 1
  }

  /** The least c with x <= 2^c is unique. */
  lemma CeilLog2Unique(x: nat, c: nat)
    requires x <= Pow2(c) && (c > 0 ==> Pow2(c - 1) < x)
    ensures CeilLog2(x) == c
  {
    var d := CeilLog2(x);
    if d < c {
      Pow2Monotone(d, c - 1);
    } else if c < d {
      Pow2Monotone(c, d - 1);
    }
  }

  /** b_max = ceil(N log2 R + iw - 1): the most significant bit of a full-precision register,
      numbered from 0, so that b_max - iw + 1 is the least c with R^N <= 2^c. */
  function BMax(c: Config): (b: int)
    requires Valid(c)
    ensures b - c.iw + 1 >= 0
    ensures Pow(c.decimation, c.order) <= Pow2(b - c.iw + 1)
    ensures b - c.iw + 1 > 0 ==> Pow2(b - c.iw) < Pow(c.decimation, c.order)
  {
    CeilLog2(Pow(c.decimation, c.order)) + c.iw - 1
  }

  /** The total number of bits the filter may discard, b_max - ow + 1 (B_{2N+1} of (20)). */
  function Budget(c: Config): int
    requires Valid(c)
  {
    BMax(c) - c.ow + 1
  }

  /** floor(log4(num / den)) clamped below at 0: the largest k with den 4^k <= num, or 0 when
      num < den. */
  function Log4Floor(num: nat, den: nat): (k: nat)
    requires den >= 1
    ensures k > 0 ==> den * Pow(4, k) <= num
    ensures num < den * Pow(4, k + 1)
    decreases num
  {
    if den * 4 <= num then
      var k' := Log4Floor(num / 4, den);
      Log4FloorStep(num, den, k');
      k' + 1
    else 0
  }

  lemma Log4FloorStep(num: nat, den: nat, k': nat)
    requires den >= 1 && den * 4 <= num
    requires k' > 0 ==> den * Pow(4, k') <= num / 4
    requires num / 4 < den * Pow(4, k' + 1)
    ensures den * Pow(4, k' + 1) <= num
    ensures num < den * Pow(4, k' + 2)
  {
    DivBounds(num, 4);
    var q := num / 4;
    assert den * Pow(4, k' + 1) == 4 * (den * Pow(4, k'));
    assert den * Pow(4, k' + 2) == 4 * (den * Pow(4, k' + 1));
    if k' == 0 {
    } else {
      MulMonotone(den * Pow(4, k'), q, 4);
    }
    assert q + 1 <= den * Pow(4, k' + 1);
    MulMonotone(q + 1, den * Pow(4, k' + 1), 4);
  }

  /** The bits stage j may discard given its gain f and the budget B: B_j of equation (21) is
      floor(log2(4^B / 12 * 6 / N / f) / 2) = floor(log4(4^B / (2 N f))), and the source clamps
      negative values to 0. */
  function StageDiscard(n: nat, f: nat, budget: int): (d: nat)
    requires n >= 1 && f >= 1
    ensures budget <= 0 ==> d == 0
    ensures budget > 0 && d > 0 ==> 2 * n * f * Pow(4, d) <= Pow(4, budget)
    ensures budget > 0 ==> Pow(4, budget) < 2 * n * f * Pow(4, d + 1)
  {
    MulAtLeastOne(2 * n, f);
    if budget <= 0 then 0 else Log4Floor(Pow(4, budget), 2 * n * f)
  }

  /** The discard is the largest admissible one: any k whose 2 N f 4^k fits in 4^B is no more
      than it. */
  lemma DiscardIsLargest(n: nat, f: nat, budget: int, k: nat)
    requires n >= 1 && f >= 1 && budget > 0
    requires 2 * n * f * Pow(4, k) <= Pow(4, budget)
    ensures k <= StageDiscard(n, f, budget)
  {
    LargestPower(n, f, StageDiscard(n, f, budget), k, budget);
  }

  /** Below the first power of 4 that overshoots, every fitting power has a smaller exponent. */
  lemma LargestPower(n: nat, f: nat, d: nat, k: nat, budget: int)
    requires budget > 0
    requires 2 * n * f * Pow(4, k) <= Pow(4, budget)
    requires Pow(4, budget) < 2 * n * f * Pow(4, d + 1)
    ensures k <= d
  {
    if d < k {
      PowMonotone(4, d + 1, k);
      Overshoot(2 * n * f, Pow(4, d + 1), Pow(4, k), Pow(4, budget));
    }
  }

  /** If g q fits in b but g p does not, then q is below p. */
  lemma Overshoot(g: int, p: int, q: int, b: int)
    requires g >= 0 && g * q <= b && b < g * p
    ensures q < p
  {
    if p <= q {
      ScaleLe(g, p, q);
    }
  }

  lemma ScaleLe(g: int, a: int, b: int)
    requires g >= 0 && a <= b
    ensures g * a <= g * b
  {
    MulMonotone(a, b, g);
  }

  /** A stage never discards the whole budget: when it discards anything, fewer than B bits. */
  lemma DiscardBelowBudget(n: nat, f: nat, budget: int)
    requires n >= 1 && f >= 1
    ensures StageDiscard(n, f, budget) == 0 || StageDiscard(n, f, budget) < budget
  {
    var d := StageDiscard(n, f, budget);
    if d > 0 && d >= budget {
      PowMonotone(4, budget, d);
      MulAtLeastOne(2 * n, f);
      MulMonotone(2, 2 * n * f, Pow(4, d));
    }
  }

  /** A stage with more error gain discards no more bits. */
  lemma DiscardAntitone(n: nat, f1: nat, f2: nat, budget: int)
    requires n >= 1 && 1 <= f1 <= f2
    ensures StageDiscard(n, f2, budget) <= StageDiscard(n, f1, budget)
  {
    if budget > 0 {
      var d2 := StageDiscard(n, f2, budget);
      if d2 > 0 {
        GainScale(n, f1, f2, Pow(4, d2), Pow(4, budget));
        DiscardIsLargest(n, f1, budget, d2);
      }
    }
  }

  lemma GainScale(n: int, f1: int, f2: int, p: int, q: int)
    requires n >= 1 && 1 <= f1 <= f2 && p >= 0
    requires 2 * n * f2 * p <= q
    ensures 2 * n * f1 * p <= q
  {
    ScaleLe(2 * n, f1, f2);
    MulMonotone(2 * n * f1, 2 * n * f2, p);
  }

  /** The discard of stage j (1 <= j <= 2N) under the configuration's budget. */
  function DiscardOf(c: Config, j: nat): (d: nat)
    requires Valid(c) && 1 <= j <= 2 * c.order
  {
    StageDiscard(c.order, Gain(c.order, c.decimation, j), Budget(c))
  }

  /** `get_discared_bits`: the bits each of the 2N stages (integrators 1..N, then combs N+1..2N)
      may discard. */
  function DiscardedBits(c: Config): (rv: seq<nat>)
    requires Valid(c)
    ensures |rv| == 2 * c.order
  {
    seq(2 * c.order, i requires 0 <= i < 2 * c.order => DiscardOf(c, i + 1))
  }

  /** Each entry of the discard list is the largest k with 2 N f_j 4^k <= 4^B, or 0 when there is
      none or B <= 0; it is then below B. */
  lemma DiscardedBitsSpec(c: Config, i: nat)
    requires Valid(c) && i < 2 * c.order
    ensures var d := DiscardedBits(c)[i];
      var f := Gain(c.order, c.decimation, i + 1);
      var b := Budget(c);
      && (b <= 0 ==> d == 0)
      && (b > 0 && d > 0 ==> 2 * c.order * f * Pow(4, d) <= Pow(4, b))
      && (b > 0 ==> Pow(4, b) < 2 * c.order * f * Pow(4, d + 1))
      && (d == 0 || d < b)
  {
    DiscardBelowBudget(c.order, Gain(c.order, c.decimation, i + 1), Budget(c));
  }

  /** Entries are non-increasing in the error gain of their stage. */
  lemma DiscardedBitsFollowGain(c: Config, i: nat, j: nat)
    requires Valid(c) && i < 2 * c.order && j < 2 * c.order
    requires Gain(c.order, c.decimation, i + 1) <= Gain(c.order, c.decimation, j + 1)
    ensures DiscardedBits(c)[j] <= DiscardedBits(c)[i]
  {
    DiscardAntitone(c.order, Gain(c.order, c.decimation, i + 1), Gain(c.order, c.decimation, j + 1), Budget(c));
  }
}

/** The allocator on the configuration of Hogenauer's worked example, N = 4, R = 25, 16-bit input
    and output: the budget B and the whole reference vector [1, 6, 9, 13, 14, 15, 16, 17]. A
    comb stage's error gain is a sum of squared binomial coefficients, since its impulse response
    is zero past index 2N+1-j; the integrator gains come from the block evaluation in
    PaperIntegrators. */
module PaperResult {
  import opened Bits
  import opened Hogenauer
  import PaperIntegrators

  /** sum_{k < count} C(m, k)^2: the energy of the first `count` samples of the comb response
      (-1)^k C(m, k). */
  function CombEnergy(m: nat, count: nat): nat
  {
    if count == 0 then 0
    else
      var b := Binomial(m, count - 1);
      CombEnergy(m, count - 1) + b * b
  }

  lemma SignedSquare(e: nat, b: int)
    ensures (Sign(e) * b) * (Sign(e) * b) == b * b
  {
    if Sign(e) == -1 {
      assert Sign(e) * b == -b;
    }
  }

  /** Squares are summed front to back; zeros past index `m` add nothing. */
  lemma {:induction false} SumSquaresZeroTail(s: seq<int>, m: nat)
    requires m <= |s| && forall k :: m <= k < |s| ==> s[k] == 0
    ensures SumSquares(s) == SumSquares(s[..m])
    decreases |s|
  {
    if |s| > 0 {
      if m == 0 {
        SumSquaresZeroTail(s[1..], 0);
        assert s[1..][..0] == s[..0];
      } else {
        SumSquaresZeroTail(s[1..], m - 1);
        assert s[..m][1..] == s[1..][..m - 1];
      }
    }
  }

  /** Summing squares back to front gives the same energy. */
  lemma {:induction false} SumSquaresSnoc(s: seq<int>, x: int)
    ensures SumSquares(s + [x]) == SumSquares(s) + x * x
    decreases |s|
  {
    if |s| > 0 {
      SumSquaresSnoc(s[1..], x);
      assert (s + [x])[1..] == s[1..] + [x];
    }
  }

  /** The leading `count` samples of a comb impulse response carry exactly `CombEnergy`. */
  lemma {:induction false} CombPrefixEnergy(n: nat, r: nat, j: nat, count: nat)
    requires n < j <= 2 * n && r >= 1 && count <= ResponseLength(n, r)
    ensures SumSquares(Impulse(n, r, j)[..count]) == CombEnergy(2 * n + 1 - j, count)
    decreases count
  {
    if count > 0 {
      var h := Impulse(n, r, j);
      CombPrefixEnergy(n, r, j, count - 1);
      assert h[..count] == h[..count - 1] + [h[count - 1]];
      SumSquaresSnoc(h[..count - 1], h[count - 1]);
      SignedSquare(count - 1, Binomial(2 * n + 1 - j, count - 1));
    }
  }

  /** Comb stage j of an order-N filter has error gain sum_{k <= m} C(m, k)^2 with m = 2N+1-j,
      whenever the kept response is long enough to hold all m+1 nonzero samples. */
  lemma CombGain(n: nat, r: nat, j: nat)
    requires n < j <= 2 * n && r >= 1 && 2 * n + 2 - j <= ResponseLength(n, r)
    ensures Gain(n, r, j) == CombEnergy(2 * n + 1 - j, 2 * n + 2 - j)
  {
    var m := 2 * n + 1 - j;
    var h := Impulse(n, r, j);
    forall k | m + 1 <= k < |h| ensures h[k] == 0 {
      assert Binomial(m, k) == 0;
    }
    SumSquaresZeroTail(h, m + 1);
    CombPrefixEnergy(n, r, j, m + 1);
  }

  /** The worked example's configuration. */
  predicate IsPaper(c: Config)
  {
    c.order == 4 && c.decimation == 25 && c.iw == 16 && c.ow == 16
  }

  /** Its budget: b_max = ceil(4 log2 25) + 15 = 34, so B = 34 - 16 + 1 = 19. */
  lemma PaperBudget(c: Config)
    requires IsPaper(c)
    ensures Valid(c) && BMax(c) == 34 && Budget(c) == 19
  {
    var x := Pow(c.decimation, c.order);
    assert Pow(25, 2) == 625;
    assert x == 390625 by {
      PowAdd(25, 2, 2);
    }
    assert Pow2(9) == 512;
    Pow2Add(9, 9);
    Pow2Add(9, 10);
    CeilLog2Unique(x, 19);
  }

  /** The powers of 4 around 4^B. */
  lemma PowersOfFour()
    ensures Pow(4, 14) == 268435456 && Pow(4, 15) == 1073741824 && Pow(4, 16) == 4294967296
    ensures Pow(4, 17) == 17179869184 && Pow(4, 18) == 68719476736 && Pow(4, 19) == 274877906944
  {
    assert Pow(4, 7) == 16384;
    PowAdd(4, 7, 7);
    assert Pow(4, 15) == 4 * Pow(4, 14);
    assert Pow(4, 16) == 4 * Pow(4, 15);
    assert Pow(4, 17) == 4 * Pow(4, 16);
    assert Pow(4, 18) == 4 * Pow(4, 17);
    assert Pow(4, 19) == 4 * Pow(4, 18);
  }

  /** The discard is pinned down by the two powers of 4 around 4^B. */
  lemma DiscardUnique(n: nat, f: nat, budget: int, k: nat)
    requires n >= 1 && f >= 1 && budget > 0 && k > 0
    requires 2 * n * f * Pow(4, k) <= Pow(4, budget) < 2 * n * f * Pow(4, k + 1)
    ensures StageDiscard(n, f, budget) == k
  {
    DiscardIsLargest(n, f, budget, k);
    var d := StageDiscard(n, f, budget);
    if d > k {
      LargestPower(n, f, k, d, budget);
    }
  }

  /** sum_k C(m, k)^2 for m = 4, 3, 2: the central binomials 70, 20 and 6. */
  lemma CombEnergy4()
    ensures CombEnergy(4, 5) == 70
  {
    assert Binomial(4, 1) == 4 && Binomial(4, 2) == 6 && Binomial(4, 3) == 4;
  }

  lemma CombEnergy3()
    ensures CombEnergy(3, 4) == 20
  {
    assert Binomial(3, 1) == 3 && Binomial(3, 2) == 3;
  }

  lemma CombEnergy1()
    ensures CombEnergy(1, 2) == 2
  {
    assert Binomial(1, 1) == 1;
  }

  lemma CombEnergy2()
    ensures CombEnergy(2, 3) == 6
  {
    assert Binomial(2, 1) == 2;
  }

  /** Comb stage j of the example discards j + 9 bits: gains 70, 20, 6 and 2 against B = 19
      give 14, 15, 16 and 17. */
  lemma PaperCombDiscard(c: Config, j: nat)
    requires IsPaper(c) && 5 <= j <= 8
    ensures DiscardOf(c, j) == j + 9
  {
    PaperCombGainValue(c, j);
    var f := Gain(c.order, c.decimation, j);
    Brackets(f, j + 9);
    DiscardAt(c, j, f, j + 9);
  }

  /** The example's comb gains are the central binomials C(2m, m) = 70, 20, 6, 2. */
  lemma PaperCombGainValue(c: Config, j: nat)
    requires IsPaper(c) && 5 <= j <= 8
    ensures Gain(c.order, c.decimation, j) == [70, 20, 6, 2][j - 5]
  {
    var m := 2 * c.order + 1 - j;
    CombGainAt(c.order, c.decimation, j, m);
    CombEnergyValue(m, Gain(c.order, c.decimation, j));
  }

  /** Stage j of the example, of gain f, discards d bits when 2Nf 4^d <= 4^B < 2Nf 4^(d+1). */
  lemma DiscardAt(c: Config, j: nat, f: nat, d: nat)
    requires IsPaper(c) && 1 <= j <= 8 && d > 0
    requires Gain(c.order, c.decimation, j) == f
    requires FourPowerBracket(f, d)
    ensures DiscardOf(c, j) == d
  {
    PaperBudget(c);
    PowersOfFour();
    DiscardUnique(c.order, f, Budget(c), d);
  }

  /** 8f 4^d <= 4^19 < 8f 4^(d+1). */
  predicate FourPowerBracket(f: nat, d: nat)
  {
    8 * f * Pow(4, d) <= 274877906944 < 8 * f * Pow(4, d + 1)
  }

  /** The four comb gains: sum_k C(m, k)^2 is 2, 6, 20 and 70 for m = 1, 2, 3, 4. */
  lemma CombEnergyValue(m: nat, f: nat)
    requires 1 <= m <= 4 && f == CombEnergy(m, m + 1)
    ensures f == [2, 6, 20, 70][m - 1]
  {
    if m == 1 {
      Energy1(m, f);
    } else if m == 2 {
      Energy2(m, f);
    } else if m == 3 {
      Energy3(m, f);
    } else {
      Energy4(m, f);
    }
  }

  lemma Energy1(m: nat, f: nat)
    requires m == 1 && f == CombEnergy(m, m + 1)
    ensures f == 2
  {
    CombEnergy1();
  }

  lemma Energy2(m: nat, f: nat)
    requires m == 2 && f == CombEnergy(m, m + 1)
    ensures f == 6
  {
    CombEnergy2();
  }

  lemma Energy3(m: nat, f: nat)
    requires m == 3 && f == CombEnergy(m, m + 1)
    ensures f == 20
  {
    CombEnergy3();
  }

  lemma Energy4(m: nat, f: nat)
    requires m == 4 && f == CombEnergy(m, m + 1)
    ensures f == 70
  {
    CombEnergy4();
  }

  /** The powers of 4 below 4^14 that the integrator brackets need. */
  lemma LowPowersOfFour()
    ensures Pow(4, 1) == 4 && Pow(4, 2) == 16 && Pow(4, 6) == 4096 && Pow(4, 7) == 16384
    ensures Pow(4, 9) == 262144 && Pow(4, 10) == 1048576 && Pow(4, 13) == 67108864
    ensures Pow(4, 14) == 268435456
  {
    PowersOfFour();
    assert Pow(4, 9) == 4 * Pow(4, 8) && Pow(4, 8) == 4 * Pow(4, 7);
    assert Pow(4, 10) == 4 * Pow(4, 9);
    assert Pow(4, 14) == 4 * Pow(4, 13);
  }

  /** The brackets of the four integrator gains against 4^19. */
  lemma IntegratorBrackets(f: nat, d: nat)
    requires (f, d) in {(2927984825, 1), (6520849, 6), (41745, 9), (497, 13)}
    ensures FourPowerBracket(f, d)
  {
    LowPowersOfFour();
  }

  /** Integrator stage j of the example discards d = 1, 6, 9 and 13 bits for j = 1..4: its gains
      2927984825, 6520849, 41745 and 497 against B = 19. */
  lemma PaperIntegratorDiscard(c: Config, j: nat, d: nat)
    requires IsPaper(c)
    requires (j, d) in {(1, 1), (2, 6), (3, 9), (4, 13)}
    ensures Valid(c) && DiscardOf(c, j) == d
  {
    if j == 1 {
      IntegratorDiscardAt(c, j, 2927984825, d);
    } else if j == 2 {
      IntegratorDiscardAt(c, j, 6520849, d);
    } else if j == 3 {
      IntegratorDiscardAt(c, j, 41745, d);
    } else {
      IntegratorDiscardAt(c, j, 497, d);
    }
  }

  /** Integrator stage j, of gain f, discards d bits. */
  lemma IntegratorDiscardAt(c: Config, j: nat, f: nat, d: nat)
    requires IsPaper(c)
    requires (j, f, d) in {(1, 2927984825, 1), (2, 6520849, 6), (3, 41745, 9), (4, 497, 13)}
    ensures Gain(c.order, c.decimation, j) == f && DiscardOf(c, j) == d
  {
    PaperIntegrators.IntegratorGains(j);
    IntegratorBrackets(f, d);
    DiscardAt(c, j, f, d);
  }

  /** The discard vector the repository's test expects for the example. */
  function ReferenceDiscards(): seq<nat>
  {
    [1, 6, 9, 13, 14, 15, 16, 17]
  }

  /** The allocator reproduces the reference vector on the example: integrators 1, 6, 9, 13
      and combs 14, 15, 16, 17. */
  lemma PaperDiscards(c: Config)
    requires IsPaper(c)
    ensures Valid(c) && DiscardedBits(c) == ReferenceDiscards()
    ensures forall j :: 1 <= j <= 8 ==> DiscardOf(c, j) == ReferenceDiscards()[j - 1]
  {
    forall j | 1 <= j <= 8
      ensures DiscardOf(c, j) == ReferenceDiscards()[j - 1]
    {
      PaperStageDiscard(c, j);
    }
    DiscardsFromEntries(c);
  }

  /** A discard list whose entries are those of the reference vector is that vector. */
  lemma DiscardsFromEntries(c: Config)
    requires Valid(c) && c.order == 4
    requires forall j :: 1 <= j <= 8 ==> DiscardOf(c, j) == ReferenceDiscards()[j - 1]
    ensures DiscardedBits(c) == ReferenceDiscards()
  {
    var v := DiscardedBits(c);
    forall i | 0 <= i < |v|
      ensures v[i] == ReferenceDiscards()[i]
    {
      assert v[i] == DiscardOf(c, i + 1);
    }
  }

  /** Entry j of the reference vector, from the integrator or the comb side. */
  lemma PaperStageDiscard(c: Config, j: nat)
    requires IsPaper(c) && 1 <= j <= 8
    ensures Valid(c) && DiscardOf(c, j) == ReferenceDiscards()[j - 1]
  {
    var d := ReferenceDiscards()[j - 1];
    ReferenceEntry(j);
    if j <= 4 {
      PaperIntegratorDiscard(c, j, d);
    } else {
      PaperCombDiscard(c, j);
    }
  }

  /** The reference vector as (stage, bits) pairs. */
  lemma ReferenceEntry(j: nat)
    requires 1 <= j <= 8
    ensures (j, ReferenceDiscards()[j - 1]) in {(1, 1), (2, 6), (3, 9), (4, 13), (5, 14), (6, 15), (7, 16), (8, 17)}
  {
  }

  /** The brackets of the four comb gains against 4^19. */
  lemma Brackets(f: nat, d: nat)
    requires (f, d) in {(70, 14), (20, 15), (6, 16), (2, 17)}
    ensures FourPowerBracket(f, d)
  {
    PowersOfFour();
  }

  lemma CombGainAt(n: nat, r: nat, j: nat, m: nat)
    requires n < j <= 2 * n && r >= 1 && 2 * n + 2 - j <= ResponseLength(n, r) && m == 2 * n + 1 - j
    ensures Gain(n, r, j) == CombEnergy(m, m + 1)
  {
    CombGain(n, r, j);
  }
}

/** The integrator half of Hogenauer's worked example, N = 4 and R = 25: the error gains of the
    integrator stages j = 1..4. Write a = N - j and a sample index as k = 25q + t with t < 25. On
    block q the response of stage j is sum_{l <= q} (-1)^l C(4, l) C(a + 25(q-l) + t, a), a
    polynomial of degree a in t, because C(a + m, m) is a polynomial of degree a in m. Six times
    it is an integer polynomial, so the energy of a block is evaluated as 36 times a sum of
    squares of closed forms, over the blocks of 25, 25, 25 and 22 samples that make up the
    97-sample response. */
module PaperIntegrators {
  import opened Bits
  import opened Hogenauer

  /** 6 C(a + m, m) for a <= 3: 6, 6(m+1), 3(m+1)(m+2) and (m+1)(m+2)(m+3). */
  function Scaled(a: nat, m: int): int
  {
    if a == 0 then 6
    else if a == 1 then 6 * (m + 1)
    else if a == 2 then 3 * (m + 1) * (m + 2)
    else (m + 1) * (m + 2) * (m + 3)
  }

  /** The closed forms satisfy Pascal's rule in the form C(a+m, m) = C(a+m-1, m-1) + C(a-1+m, m). */
  lemma ScaledPascal(a: nat, m: int)
    requires 1 <= a <= 3
    ensures Scaled(a, m) == Scaled(a, m - 1) + Scaled(a - 1, m)
  {
    if a == 3 {
      var p := (m + 1) * (m + 2);
      assert (m + 1) * (m + 2) * (m + 3) == p * m + 3 * p;
      assert m * (m + 1) * (m + 2) == p * m;
    } else if a == 2 {
      assert 3 * (m + 1) * (m + 2) == 3 * m * (m + 1) + 6 * (m + 1);
    }
  }

  /** Six times a binomial coefficient C(a + m, m) with a <= 3 is its closed form. */
  lemma {:induction false} ScaledBinomial(a: nat, m: nat)
    requires a <= 3
    ensures 6 * Binomial(a + m, m) == Scaled(a, m)
    decreases a + m
  {
    if m > 0 && a > 0 {
      ScaledBinomial(a, m - 1);
      ScaledBinomial(a - 1, m);
      assert Binomial(a + m, m) == Binomial(a + m - 1, m - 1) + Binomial(a - 1 + m, m);
      ScaledPascal(a, m);
    }
  }

  /** Six times the response of integrator stage 4 - a at sample 25q + t: the alternating
      binomials 1, -4, 6, -4 of C(4, l) weight the shifted closed forms. */
  function BlockResponse(a: nat, q: nat, t: int): int
  {
    if q == 0 then Scaled(a, t)
    else if q == 1 then Scaled(a, 25 + t) - 4 * Scaled(a, t)
    else if q == 2 then Scaled(a, 50 + t) - 4 * Scaled(a, 25 + t) + 6 * Scaled(a, t)
    else Scaled(a, 75 + t) - 4 * Scaled(a, 50 + t) + 6 * Scaled(a, 25 + t) - 4 * Scaled(a, t)
  }

  /** Term l of the sum (9b), scaled by six, for the sample m samples into block l. */
  lemma TermScaled(j: nat, m: nat, l: nat)
    requires 1 <= j <= 4 && l <= 3
    ensures 6 * IntegratorTerm(4, 25, j, m + 25 * l, l) == Weight(l) * Scaled(4 - j, m)
  {
    ScaledBinomial(4 - j, m);
    assert Binomial(3, 1) == 3 && Binomial(3, 2) == 3;
  }

  /** (-1)^l C(4, l). */
  function Weight(l: nat): int
  {
    if l == 0 then 1 else if l == 1 then -4 else if l == 2 then 6 else if l == 3 then -4 else 1
  }

  /** The first c + 1 terms of the sum (9b) at sample m + 25c, scaled by six: sample m + 25c is
      sample (m + 25) + 25(c - 1), and term c adds the weighted closed form at m. */
  lemma {:induction false} PartialTerms(j: nat, m: nat, c: nat)
    requires 1 <= j <= 4 && c <= 3
    ensures 6 * IntegratorTerms(4, 25, j, m + 25 * c, c + 1) == BlockResponse(4 - j, c, m)
    decreases c
  {
    var k := m + 25 * c;
    TermScaled(j, m, c);
    assert IntegratorTerms(4, 25, j, k, c + 1) == IntegratorTerms(4, 25, j, k, c) + IntegratorTerm(4, 25, j, k, c);
    if c > 0 {
      assert k == (m + 25) + 25 * (c - 1);
      PartialTerms(j, m + 25, c - 1);
    }
  }

  /** On block q the response of integrator stage j is the block polynomial. */
  lemma BlockResponseIsResponse(j: nat, q: nat, t: nat)
    requires 1 <= j <= 4 && q <= 3 && t < 25
    ensures 6 * Response(4, 25, j, 25 * q + t) == BlockResponse(4 - j, q, t)
  {
    var k := 25 * q + t;
    DivModUnique(k, 25, q, t);
    assert Response(4, 25, j, k) == IntegratorTerms(4, 25, j, k, q + 1);
    PartialTerms(j, t, q);
    assert t + 25 * q == k;
  }

  /** The first `count` samples of block q of stage 4 - a, scaled by six. */
  function BlockValues(a: nat, q: nat, count: nat): (v: seq<int>)
    ensures |v| == count
  {
    seq(count, t requires 0 <= t < count => BlockResponse(a, q, t))
  }

  // ---------------------------------------------------------------------------------------------
  // Sums of squares

  lemma {:induction false} SumSquaresAppend(s: seq<int>, u: seq<int>)
    ensures SumSquares(s + u) == SumSquares(s) + SumSquares(u)
    decreases |s|
  {
    if |s| == 0 {
      assert s + u == u;
    } else {
      SumSquaresAppend(s[1..], u);
      assert (s + u)[0] == s[0];
      assert (s + u)[1..] == s[1..] + u;
    }
  }

  lemma SliceSplit(h: seq<int>, lo: nat, mid: nat, hi: nat)
    requires lo <= mid <= hi <= |h|
    ensures SumSquares(h[lo..hi]) == SumSquares(h[lo..mid]) + SumSquares(h[mid..hi])
  {
    assert h[lo..hi] == h[lo..mid] + h[mid..hi];
    SumSquaresAppend(h[lo..mid], h[mid..hi]);
  }

  /** Scaling every sample by six scales the energy by 36. */
  lemma {:induction false} ScaledEnergy(s: seq<int>, v: seq<int>)
    requires |s| == |v| && forall i :: 0 <= i < |s| ==> v[i] == 6 * s[i]
    ensures SumSquares(v) == 36 * SumSquares(s)
    decreases |s|
  {
    if |s| > 0 {
      ScaledEnergy(s[1..], v[1..]);
    }
  }

  // The energy of 1, 2, 4, 8, 22 and 25 consecutive samples written out, so that a block of
  // concrete samples evaluates without unfolding a recursion 25 deep.

  function SqPair(v: seq<int>, i: nat): int
    requires i + 2 <= |v|
  {
    v[i] * v[i] + v[i + 1] * v[i + 1]
  }

  function SqFour(v: seq<int>, i: nat): int
    requires i + 4 <= |v|
  {
    SqPair(v, i) + SqPair(v, i + 2)
  }

  function SqEight(v: seq<int>, i: nat): int
    requires i + 8 <= |v|
  {
    SqFour(v, i) + SqFour(v, i + 4)
  }

  lemma PairEnergy(v: seq<int>, i: nat)
    requires i + 2 <= |v|
    ensures SumSquares(v[i..i + 2]) == SqPair(v, i)
  {
    var w := v[i..i + 2];
    assert w[1..][1..] == [];
    assert SumSquares(w[1..]) == w[1] * w[1] + SumSquares(w[1..][1..]);
  }

  lemma FourEnergy(v: seq<int>, i: nat)
    requires i + 4 <= |v|
    ensures SumSquares(v[i..i + 4]) == SqFour(v, i)
  {
    SliceSplit(v, i, i + 2, i + 4);
    PairEnergy(v, i);
    PairEnergy(v, i + 2);
  }

  lemma EightEnergy(v: seq<int>, i: nat)
    requires i + 8 <= |v|
    ensures SumSquares(v[i..i + 8]) == SqEight(v, i)
  {
    SliceSplit(v, i, i + 4, i + 8);
    FourEnergy(v, i);
    FourEnergy(v, i + 4);
  }

  /** A full block of 25 samples. */
  function SqBlock(v: seq<int>): int
    requires |v| == 25
  {
    SqEight(v, 0) + SqEight(v, 8) + SqEight(v, 16) + v[24] * v[24]
  }

  /** The last block, samples 75..96 of the (R-1)N + 1 = 97 the source keeps. */
  function SqTail(v: seq<int>): int
    requires |v| == 22
  {
    SqEight(v, 0) + SqEight(v, 8) + SqFour(v, 16) + SqPair(v, 20)
  }

  lemma BlockEnergy(v: seq<int>)
    requires |v| == 25
    ensures SumSquares(v) == SqBlock(v)
  {
    assert v == v[0..25];
    SliceSplit(v, 0, 8, 25);
    SliceSplit(v, 8, 16, 25);
    SliceSplit(v, 16, 24, 25);
    EightEnergy(v, 0);
    EightEnergy(v, 8);
    EightEnergy(v, 16);
    assert v[24..25][1..] == [];
  }

  lemma TailEnergy(v: seq<int>)
    requires |v| == 22
    ensures SumSquares(v) == SqTail(v)
  {
    assert v == v[0..22];
    SliceSplit(v, 0, 8, 22);
    SliceSplit(v, 8, 16, 22);
    SliceSplit(v, 16, 20, 22);
    EightEnergy(v, 0);
    EightEnergy(v, 8);
    FourEnergy(v, 16);
    PairEnergy(v, 20);
  }

  /** 36 times the energy of one block of the response is the energy of the block polynomial. */
  lemma BlockGain(j: nat, q: nat, count: nat)
    requires 1 <= j <= 4 && q <= 3 && count <= 25 && 25 * q + count <= 97
    ensures 36 * SumSquares(Impulse(4, 25, j)[25 * q..25 * q + count]) == SumSquares(BlockValues(4 - j, q, count))
  {
    var s := Impulse(4, 25, j)[25 * q..25 * q + count];
    var v := BlockValues(4 - j, q, count);
    forall i | 0 <= i < count
      ensures v[i] == 6 * s[i]
    {
      BlockResponseIsResponse(j, q, i);
    }
    ScaledEnergy(s, v);
  }

  /** The energy of the scaled response of stage 4 - a, block by block. */
  function BlockSum(a: nat): int
  {
    SumSquares(BlockValues(a, 0, 25)) + SumSquares(BlockValues(a, 1, 25))
      + SumSquares(BlockValues(a, 2, 25)) + SumSquares(BlockValues(a, 3, 22))
  }

  /** The gain of integrator stage j of the example, block by block. */
  lemma IntegratorGainBlocks(j: nat)
    requires 1 <= j <= 4
    ensures 36 * Gain(4, 25, j) == BlockSum(4 - j)
  {
    var h := Impulse(4, 25, j);
    SliceSplit(h, 0, 25, 97);
    SliceSplit(h, 25, 50, 97);
    SliceSplit(h, 50, 75, 97);
    assert h[0..97] == h;
    BlockGain(j, 0, 25);
    BlockGain(j, 1, 25);
    BlockGain(j, 2, 25);
    BlockGain(j, 3, 22);
  }

  // ---------------------------------------------------------------------------------------------
  // The concrete blocks

  /** Number of samples in block q: three full blocks of 25 and a last one of 22. */
  function BlockLength(q: nat): nat
  {
    if q < 3 then 25 else 22
  }

  lemma Stage1Block0Value()
    ensures SqBlock(BlockValues(3, 0, 25)) == 1302582060
  {
  }

  lemma Stage1Block0(a: nat, q: nat)
    requires a == 3 && q == 0
    ensures SumSquares(BlockValues(a, q, BlockLength(q))) == 1302582060
  {
    Stage1Block0Value();
    BlockAt(a, q, 1302582060);
  }

  lemma Stage1Block1Value()
    ensures SqBlock(BlockValues(3, 1, 25)) == 57251156040
  {
  }

  lemma Stage1Block1(a: nat, q: nat)
    requires a == 3 && q == 1
    ensures SumSquares(BlockValues(a, q, BlockLength(q))) == 57251156040
  {
    Stage1Block1Value();
    BlockAt(a, q, 57251156040);
  }

  lemma Stage1Block2Value()
    ensures SqBlock(BlockValues(3, 2, 25)) == 46292936040
  {
  }

  lemma Stage1Block2(a: nat, q: nat)
    requires a == 3 && q == 2
    ensures SumSquares(BlockValues(a, q, BlockLength(q))) == 46292936040
  {
    Stage1Block2Value();
    BlockAt(a, q, 46292936040);
  }

  lemma Stage1Block3Value()
    ensures SqTail(BlockValues(3, 3, 22)) == 560779560
  {
  }

  lemma Stage1Block3(a: nat, q: nat)
    requires a == 3 && q == 3
    ensures SumSquares(BlockValues(a, q, BlockLength(q))) == 560779560
  {
    Stage1Block3Value();
    BlockAt(a, q, 560779560);
  }

  lemma Stage2Block0Value()
    ensures SqBlock(BlockValues(2, 0, 25)) == 21333780
  {
  }

  lemma Stage2Block0(a: nat, q: nat)
    requires a == 2 && q == 0
    ensures SumSquares(BlockValues(a, q, BlockLength(q))) == 21333780
  {
    Stage2Block0Value();
    BlockAt(a, q, 21333780);
  }

  lemma Stage2Block1Value()
    ensures SqBlock(BlockValues(2, 1, 25)) == 96064020
  {
  }

  lemma Stage2Block1(a: nat, q: nat)
    requires a == 2 && q == 1
    ensures SumSquares(BlockValues(a, q, BlockLength(q))) == 96064020
  {
    Stage2Block1Value();
    BlockAt(a, q, 96064020);
  }

  lemma Stage2Block2Value()
    ensures SqBlock(BlockValues(2, 2, 25)) == 103061520
  {
  }

  lemma Stage2Block2(a: nat, q: nat)
    requires a == 2 && q == 2
    ensures SumSquares(BlockValues(a, q, BlockLength(q))) == 103061520
  {
    Stage2Block2Value();
    BlockAt(a, q, 103061520);
  }

  lemma Stage2Block3Value()
    ensures SqTail(BlockValues(2, 3, 22)) == 14291244
  {
  }

  lemma Stage2Block3(a: nat, q: nat)
    requires a == 2 && q == 3
    ensures SumSquares(BlockValues(a, q, BlockLength(q))) == 14291244
  {
    Stage2Block3Value();
    BlockAt(a, q, 14291244);
  }

  lemma Stage3Block0Value()
    ensures SqBlock(BlockValues(1, 0, 25)) == 198900
  {
  }

  lemma Stage3Block0(a: nat, q: nat)
    requires a == 1 && q == 0
    ensures SumSquares(BlockValues(a, q, BlockLength(q))) == 198900
  {
    Stage3Block0Value();
    BlockAt(a, q, 198900);
  }

  lemma Stage3Block1Value()
    ensures SqBlock(BlockValues(1, 1, 25)) == 597600
  {
  }

  lemma Stage3Block1(a: nat, q: nat)
    requires a == 1 && q == 1
    ensures SumSquares(BlockValues(a, q, BlockLength(q))) == 597600
  {
    Stage3Block1Value();
    BlockAt(a, q, 597600);
  }

  lemma Stage3Block2Value()
    ensures SqBlock(BlockValues(1, 2, 25)) == 530100
  {
  }

  lemma Stage3Block2(a: nat, q: nat)
    requires a == 1 && q == 2
    ensures SumSquares(BlockValues(a, q, BlockLength(q))) == 530100
  {
    Stage3Block2Value();
    BlockAt(a, q, 530100);
  }

  lemma Stage3Block3Value()
    ensures SqTail(BlockValues(1, 3, 22)) == 176220
  {
  }

  lemma Stage3Block3(a: nat, q: nat)
    requires a == 1 && q == 3
    ensures SumSquares(BlockValues(a, q, BlockLength(q))) == 176220
  {
    Stage3Block3Value();
    BlockAt(a, q, 176220);
  }

  /** The energy of a block from its written-out form. */
  lemma BlockAt(a: nat, q: nat, e: int)
    requires q <= 3
    requires q < 3 ==> SqBlock(BlockValues(a, q, 25)) == e
    requires q == 3 ==> SqTail(BlockValues(a, q, 22)) == e
    ensures SumSquares(BlockValues(a, q, BlockLength(q))) == e
  {
    if q < 3 {
      BlockEnergy(BlockValues(a, q, 25));
    } else {
      TailEnergy(BlockValues(a, q, 22));
    }
  }

  /** Stage 4 (a = 0) is constant on each block: 6, -18, 18 and -6. */
  lemma {:induction false} ConstantBlock(v: seq<int>, c: int)
    requires |v| == 22 || |v| == 25
    requires forall i :: 0 <= i < |v| ==> v[i] == c
    ensures |v| == 25 ==> SqBlock(v) == 25 * (c * c)
    ensures |v| == 22 ==> SqTail(v) == 22 * (c * c)
  {
  }

  lemma Stage4Block(a: nat, q: nat)
    requires a == 0 && q <= 3
    ensures SumSquares(BlockValues(a, q, BlockLength(q))) == [900, 8100, 8100, 792][q]
  {
    var v := BlockValues(a, q, BlockLength(q));
    var c := [6, -18, 18, -6][q];
    ConstantBlock(v, c);
    if q < 3 {
      BlockEnergy(v);
    } else {
      TailEnergy(v);
    }
  }

  lemma Stage1Energy(j: nat)
    requires j == 1
    ensures Gain(4, 25, j) == 2927984825
  {
    IntegratorGainBlocks(j);
    Stage1Block0(4 - j, 0);
    Stage1Block1(4 - j, 1);
    Stage1Block2(4 - j, 2);
    Stage1Block3(4 - j, 3);
  }

  lemma Stage2Energy(j: nat)
    requires j == 2
    ensures Gain(4, 25, j) == 6520849
  {
    IntegratorGainBlocks(j);
    Stage2Block0(4 - j, 0);
    Stage2Block1(4 - j, 1);
    Stage2Block2(4 - j, 2);
    Stage2Block3(4 - j, 3);
  }

  lemma Stage3Energy(j: nat)
    requires j == 3
    ensures Gain(4, 25, j) == 41745
  {
    IntegratorGainBlocks(j);
    Stage3Block0(4 - j, 0);
    Stage3Block1(4 - j, 1);
    Stage3Block2(4 - j, 2);
    Stage3Block3(4 - j, 3);
  }

  lemma Stage4Energy(j: nat)
    requires j == 4
    ensures Gain(4, 25, j) == 497
  {
    IntegratorGainBlocks(j);
    Stage4Block(4 - j, 0);
    Stage4Block(4 - j, 1);
    Stage4Block(4 - j, 2);
    Stage4Block(4 - j, 3);
  }

  /** The error gains f_1..f_4 of the integrator stages of the example. */
  lemma IntegratorGains(j: nat)
    requires 1 <= j <= 4
    ensures j == 1 ==> Gain(4, 25, j) == 2927984825
    ensures j == 2 ==> Gain(4, 25, j) == 6520849
    ensures j == 3 ==> Gain(4, 25, j) == 41745
    ensures j == 4 ==> Gain(4, 25, j) == 497
  {
    if j == 1 {
      Stage1Energy(j);
    } else if j == 2 {
      Stage2Energy(j);
    } else if j == 3 {
      Stage3Energy(j);
    } else {
      Stage4Energy(j);
    }
  }
}

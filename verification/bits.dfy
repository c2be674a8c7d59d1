/** Fixed-width unsigned arithmetic as the hardware description performs it: every signal has a
    declared width, an assignment keeps its value modulo 2^width, and a part-select `x[-w:]` keeps
    the top `w` bits of a wider signal. */
module Bits {

  /** 2^n */
  function Pow2(n: nat): (r: nat)
    ensures r >= 1
  {
    if n == 0 then 1 else 2 * Pow2(n - 1)
  }

  lemma {:induction false} Pow2Add(a: nat, b: nat)
    ensures Pow2(a + b) == Pow2(a) * Pow2(b)
    decreases a
  {
    if a > 0 {
      Pow2Add(a - 1, b);
    }
  }

  lemma {:induction false} Pow2Monotone(a: nat, b: nat)
    requires a <= b
    ensures Pow2(a) <= Pow2(b)
    decreases b
  {
    if a < b {
      Pow2Monotone(a, b - 1);
    }
  }

  /** The value a `w`-bit unsigned signal holds after being assigned `x`. Dafny's `%` is
      Euclidean, so a negative difference wraps the way two's-complement hardware does. */
  function Wrap(x: int, w: nat): (r: nat)
    ensures r < Pow2(w)
    ensures 0 <= x < Pow2(w) ==> r == x
  {
    var m := Pow2(w);
    if 0 <= x < m then DivModUnique(x, m, 0, x); x % m else x % m
  }

  /** Two values that differ by a multiple of 2^w wrap to the same value. */
  lemma WrapCongruent(x: int, y: int, k: int, w: nat)
    requires x == y + k * Pow2(w)
    ensures Wrap(x, w) == Wrap(y, w)
  {
    var m := Pow2(w);
    var qy := y / m;
    assert y == qy * m + y % m;
    assert x == (qy + k) * m + y % m;
    DivModUnique(x, m, qy + k, y % m);
  }

  lemma DivModUnique(x: int, m: int, q: int, r: int)
    requires m > 0 && 0 <= r < m && x == q * m + r
    ensures x % m == r && x / m == q
  {
    var q' := x / m;
    var r' := x % m;
    assert x == q' * m + r';
    assert (q - q') * m == r' - r;
    if q > q' {
      MulAtLeast(q - q', m);
    } else if q < q' {
      MulAtLeast(q' - q, m);
    }
  }

  lemma MulAtLeast(a: int, m: int)
    requires a >= 1 && m > 0
    ensures a * m >= m
  {
  }

  /** A quotient of a value below `hi * lo` by `lo` is below `hi`. */
  lemma QuotientBound(x: int, r: int, lo: int, hi: int)
    requires lo > 0 && r * lo <= x && x < lo * hi
    ensures r < hi
  {
    if r >= hi {
      MulMonotone(hi, r, lo);
    }
  }

  lemma MulMonotone(a: int, b: int, c: int)
    requires a <= b && c >= 0
    ensures a * c <= b * c
  {
  }

  /** Adding a wrapped value is adding the value itself, modulo 2^w (the accumulator identity
      an integrator relies on). */
  lemma WrapAddWrap(a: int, b: int, w: nat)
    ensures Wrap(a + Wrap(b, w), w) == Wrap(a + b, w)
  {
    var m := Pow2(w);
    var q := b / m;
    assert b == q * m + b % m;
    WrapCongruent(a + b, a + Wrap(b, w), q, w);
  }

  /** Subtracting a wrapped value is subtracting the value itself, modulo 2^w. */
  lemma WrapSubWrap(a: int, b: int, w: nat)
    ensures Wrap(a - Wrap(b, w), w) == Wrap(a - b, w)
  {
    var m := Pow2(w);
    var q := b / m;
    assert b == q * m + b % m;
    WrapCongruent(a - Wrap(b, w), a - b, q, w);
  }

  /** The part-select `x[-w:]` of a `width`-bit signal: the top `w` bits, i.e. `x` shifted right
      by `width - w`. When `w` is at least the signal's width the slice is the whole signal. */
  function Top(x: nat, width: nat, w: nat): (r: nat)
    ensures w <= width ==> r * Pow2(width - w) <= x < (r + 1) * Pow2(width - w)
    ensures width <= w ==> r == x
  {
    if w <= width then
      var d := Pow2(width - w);
      DivBounds(x, d);
      x / d
    else x
  }

  /** The quotient brackets the dividend. */
  lemma DivBounds(x: int, d: int)
    requires d > 0
    ensures (x / d) * d <= x < (x / d + 1) * d
    ensures x >= 0 ==> x / d >= 0
  {
    assert x == (x / d) * d + x % d;
  }

  /** A multiple of `p` by a factor below `k / p` stays at most `k`. */
  lemma BelowQuotient(m: nat, k: nat, p: nat)
    requires p >= 1 && m < k / p
    ensures (m + 1) * p <= k
  {
    DivBounds(k, p);
    MulMonotone(m + 1, k / p, p);
  }

  /** A top-bits slice of a value that fits its width fits the receiving width. */
  lemma TopFits(x: nat, width: nat, w: nat)
    requires x < Pow2(width)
    ensures Top(x, width, w) < Pow2(w)
  {
    if w <= width {
      Pow2Add(width - w, w);
      QuotientBound(x, Top(x, width, w), Pow2(width - w), Pow2(w));
    } else {
      Pow2Monotone(width, w);
    }
  }

  /** The number of bits nmigen's `bits_for` gives a non-negative integer: its binary length,
      with one bit for zero. */
  function BitsFor(n: nat): (r: nat)
    ensures r >= 1
    ensures n < Pow2(r)
    ensures r > 1 ==> Pow2(r - 1) <= n
  {
    if n <= 1 then 1 else 1 + BitsFor(n / 2)
  }

  /** Width of `Signal(range(stop))`: no bits for an empty range, otherwise enough bits for the
      largest member `stop - 1`. */
  function RangeWidth(stop: int): (r: nat)
    ensures stop > 0 ==> stop - 1 < Pow2(r)
    ensures stop > 0 && r > 1 ==> Pow2(r - 1) <= stop - 1
    ensures stop <= 0 <==> r == 0
  {
    if stop <= 0 then 0 else BitsFor(stop - 1)
  }

  /** `x` is a power of two. */
  ghost predicate IsPow2(x: nat)
  {
    exists k: nat :: Pow2(k) == x
  }
}

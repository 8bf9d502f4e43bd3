/** Rounding to the nearest integer, as the platform's `round()` does it for
    the non-negative quantities this tool works with (ties go up).

    Two views are kept side by side: a reference one over reals, which is
    what the script asks the platform for (`x.divide(n).round()`), and an
    integer one, `RoundDiv`, which the cost model computes with. The lemmas
    below show that the two agree on every input. */
module Rounding {

  type NonNegReal = x: real | x >= 0.0

  /** `r` is the integer nearest to `x`, a tie resolved upwards. */
  ghost predicate NearestHalfUp(x: real, r: int) {
    r as real - 0.5 <= x < r as real + 0.5
  }

  /** Integer form of the same relation, for `x = a / n`: twice the distance
      from `a` to `n * r` is at most `n`, a tie resolved upwards. */
  ghost predicate NearestMultiple(a: int, n: int, r: int) {
    2 * n * r - n <= 2 * a < 2 * n * r + n
  }

  /** The platform's rounding of a non-negative real. */
  function RoundReal(x: NonNegReal): (r: nat)
    ensures NearestHalfUp(x, r)
  {
    (x + 0.5).Floor
  }

  /** `round(a / n)` computed without leaving the naturals. */
  function RoundDiv(a: nat, n: nat): (r: nat)
    requires n > 0
    ensures NearestMultiple(a, n, r)
  {
    var r := (a + n / 2) / n;
    DivBounds(a + n / 2, n);
    r
  }

  /** Euclidean division bounds, spelled out for a divisor that is a variable. */
  lemma DivBounds(m: nat, n: nat)
    requires n > 0
    ensures n * (m / n) <= m < n * (m / n) + n
  {
    assert m == n * (m / n) + m % n;
  }

  /** At most one integer is nearest to a real. */
  lemma NearestHalfUpUnique(x: real, r1: int, r2: int)
    requires NearestHalfUp(x, r1) && NearestHalfUp(x, r2)
    ensures r1 == r2
  {
  }

  /** Multiplying by a positive factor keeps a strict order at least one
      factor apart. */
  lemma MulStep(m: int, p: int, q: int)
    requires m > 0 && p < q
    ensures m * p + m <= m * q
  {
    var d := q - p - 1;
    assert m * d >= 0;
    assert m * q == m * p + m + m * d;
  }

  /** At most one multiple of `n` is nearest to `a`. */
  lemma NearestMultipleUnique(a: int, n: int, r1: int, r2: int)
    requires n > 0
    requires NearestMultiple(a, n, r1) && NearestMultiple(a, n, r2)
    ensures r1 == r2
  {
    if r1 < r2 {
      MulStep(2 * n, r1, r2);
    } else if r2 < r1 {
      MulStep(2 * n, r2, r1);
    }
  }

  /** `RoundDiv(a, n)` is exactly the integers nearest to `a / n`. */
  lemma RoundDivCharacterized(a: nat, n: nat, r: int)
    requires n > 0
    ensures NearestMultiple(a, n, r) <==> r == RoundDiv(a, n)
  {
    if NearestMultiple(a, n, r) {
      NearestMultipleUnique(a, n, r, RoundDiv(a, n));
    }
  }

  /** Casting to real commutes with multiplication. */
  lemma CastMul(p: int, q: int)
    ensures (p * q) as real == p as real * q as real
  {
  }

  /** Scaling both sides by a positive real preserves either order. */
  lemma Scale(u: real, v: real, k: real, uk: real, vk: real)
    requires k > 0.0 && uk == u * k && vk == v * k
    ensures u <= v <==> uk <= vk
    ensures u < v <==> uk < vk
  {
    assert vk - uk == (v - u) * k;
  }

  /** The integer relation and the real one say the same thing. */
  lemma NearestMultipleIsNearestHalfUp(a: nat, n: nat, r: int)
    requires n > 0
    ensures NearestMultiple(a, n, r) <==> NearestHalfUp(a as real / n as real, r)
  {
    var x, k := a as real / n as real, 2.0 * n as real;
    var lo, hi := r as real - 0.5, r as real + 0.5;
    assert x * k == (2 * a) as real;
    CastMul(2 * n, r);
    assert lo * k == (2 * n * r - n) as real;
    assert hi * k == (2 * n * r + n) as real;
    Scale(lo, x, k, (2 * n * r - n) as real, (2 * a) as real);
    Scale(x, hi, k, (2 * a) as real, (2 * n * r + n) as real);
  }

  /** The integer computation agrees with the platform's rounding of the
      real quotient. */
  lemma RoundDivMatchesRoundReal(a: nat, n: nat)
    requires n > 0
    ensures RoundDiv(a, n) == RoundReal(a as real / n as real)
  {
    var x: NonNegReal := a as real / n as real;
    NearestMultipleIsNearestHalfUp(a, n, RoundDiv(a, n));
    NearestHalfUpUnique(x, RoundDiv(a, n), RoundReal(x));
  }

  /** Rounding is monotone: a larger numerator never rounds lower. */
  lemma RoundDivMonotone(a: nat, b: nat, n: nat)
    requires n > 0
    requires a <= b
    ensures RoundDiv(a, n) <= RoundDiv(b, n)
  {
    var p, q := RoundDiv(a, n), RoundDiv(b, n);
    if q < p {
      MulStep(2 * n, q, p);
    }
  }
}

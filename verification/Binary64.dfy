/** The detour DIV and REM take through floating point: `int(dividend / divisor)`, where `/` is the
    host's correctly rounded binary64 division and `int` truncates towards zero. */
module Binary64 {
  import opened PyInt

  /** 2^53: a binary64 significand has 53 bits. */
  const TWO53: int := 0x20_0000_0000_0000

  /** The smallest subnormal number is `2^-1074`. */
  const FINEST: nat := 1074

  /** The number `m / 2^k`. */
  datatype Dyadic = Dyadic(m: nat, k: nat)

  /** The integer nearest to `n / d`, the even one of two equally near. */
  function Nearest(n: nat, d: nat): (m: nat)
    requires d > 0
  {
    var q, r := n / d, n % d;
    if 2 * r < d || (2 * r == d && q % 2 == 0) then q else q + 1
  }

  lemma NearestIsNear(n: nat, d: nat)
    requires d > 0
    ensures 2 * Abs(Nearest(n, d) * d - n) <= d
    ensures n % d == 0 ==> Nearest(n, d) == n / d
  {
    Near(n, d, n / d, n % d, Nearest(n, d));
  }

  lemma Near(n: nat, d: nat, q: nat, r: nat, m: nat)
    requires n == d * q + r && r < d
    requires (m == q && 2 * r <= d) || (m == q + 1 && 2 * r >= d)
    ensures 2 * Abs(m * d - n) <= d
  {
    assert (q + 1) * d == d * q + d;
  }

  /** Around `n / d` the binary64 numbers are `2^-r` apart: the finest spacing, but not below the
      limit `2^-k`, that leaves the quotient at most 53 significant bits. */
  function Spacing(n: nat, d: nat, k: nat): (r: nat)
    requires 0 < d && n < TWO53 * d
    ensures r <= k && n * Pow2(r) < TWO53 * d
    ensures r < k ==> 2 * (n * Pow2(r)) >= TWO53 * d
    decreases k
  {
    if k == 0 || n * Pow2(k) < TWO53 * d then k
    else
      Double(n, Pow2(k - 1));
      Spacing(n, d, k - 1)
  }

  /** Correctly rounded quotient of two naturals, where the result is below 2^53. */
  function Divide(n: nat, d: nat, finest: nat): Dyadic
    requires 0 < d && n < TWO53 * d
  {
    var k := Spacing(n, d, finest);
    Dyadic(Nearest(n * Pow2(k), d), k)
  }

  /** Both operands are signed 32-bit numbers. */
  predicate Operands(a: int, b: int) {
    -0x8000_0000 <= a <= 0x7FFF_FFFF && -0x8000_0000 <= b <= 0x7FFF_FFFF && b != 0
  }

  function Abs(x: int): nat { if x < 0 then -x else x }

  function WithSign(negative: bool, v: int): int { if negative then -v else v }

  /** `int(a / b)`: rounding and truncation are both symmetric in the sign. */
  function FloatQuotient(a: int, b: int): int
    requires Operands(a, b)
  {
    Below(Abs(a), Abs(b));
    var y := Divide(Abs(a), Abs(b), FINEST);
    WithSign((a < 0) != (b < 0), y.m / Pow2(y.k))
  }

  /** Integer division rounding towards zero. */
  function TruncatedQuotient(a: int, b: int): int
    requires b != 0
  {
    WithSign((a < 0) != (b < 0), Abs(a) / Abs(b))
  }

  // ----- Arithmetic -----

  lemma Double(n: int, p: int)
    ensures n * (2 * p) == 2 * (n * p)
  {
  }

  lemma MulMono(a: int, b: int, c: int)
    requires a <= b && c >= 0
    ensures a * c <= b * c && c * a <= c * b
  {
    assert (b - a) * c >= 0;
  }

  lemma Cancel(a: int, b: int, c: int)
    requires c > 0 && a * c < b * c
    ensures a < b
  {
    if a >= b { MulMono(b, a, c); }
  }

  lemma Below(n: nat, d: nat)
    requires n <= 0x8000_0000 && 0 < d
    ensures n < TWO53 * d
  {
    MulMono(1, d, TWO53);
  }

  lemma {:induction false} Pow2Grows(j: nat, k: nat)
    requires j <= k
    ensures Pow2(j) <= Pow2(k)
    decreases k
  {
    if j < k { Pow2Grows(j, k - 1); }
  }

  lemma TwiceTimes(a: int, b: int)
    ensures (2 * a) * b == 2 * (a * b)
  {
  }

  lemma {:induction false} Pow2Sum(j: nat, k: nat)
    ensures Pow2(j + k) == Pow2(j) * Pow2(k)
    decreases j
  {
    if j > 0 {
      Pow2Sum(j - 1, k);
      TwiceTimes(Pow2(j - 1), Pow2(k));
    }
  }

  // ----- The rounding error never reaches the next integer -----

  /** Any binary64 result `y` with relative error at most 2^-53, which is exact when the quotient is
      an integer, truncates to the true quotient. */
  lemma RoundedQuotient(n: nat, d: nat, y: Dyadic)
    requires n <= 0x8000_0000 && 0 < d
    requires Abs(y.m * d - n * Pow2(y.k)) * TWO53 <= n * Pow2(y.k)
    requires n % d == 0 ==> y.m == (n / d) * Pow2(y.k)
    ensures y.m / Pow2(y.k) == n / d
  {
    var q, r, m, P := n / d, n % d, y.m, Pow2(y.k);
    Squeeze(n, d, q, r, m, P);
    EuclidUnique(m, P, q, m - q * P);
  }

  lemma Squeeze(n: nat, d: nat, q: nat, r: nat, m: nat, P: int)
    requires n <= 0x8000_0000 && P > 0 && n == d * q + r && r < d
    requires Abs(m * d - n * P) * TWO53 <= n * P
    requires r == 0 ==> m == q * P
    ensures q * P <= m < q * P + P
  {
    if r > 0 {
      ErrorBelow(Abs(m * d - n * P), n, P);
      Neighbours(n, d, q, P, m);
    }
  }

  lemma ErrorBelow(e: nat, n: nat, P: int)
    requires P > 0 && n <= 0x8000_0000 && e * TWO53 <= n * P
    ensures e < P
  {
    MulMono(n, TWO53 - 1, P);
    Cancel(e, P, TWO53);
  }

  lemma Neighbours(n: nat, d: nat, q: nat, P: int, m: nat)
    requires d > 0 && P > 0 && q * d + 1 <= n <= q * d + d - 1
    requires n * P - P < m * d < n * P + P
    ensures q * P < m < q * P + P
  {
    MulMono(q * d, n - 1, P);
    MulMono(n + 1, q * d + d, P);
    assert (q * P) * d == (q * d) * P && (q * P + P) * d == (q * d + d) * P;
    Cancel(q * P, m, d);
    Cancel(m, q * P + P, d);
  }

  /** Correct rounding meets that error bound. */
  lemma DivideError(n: nat, d: nat, finest: nat)
    requires 0 < n <= 0x8000_0000 && 0 < d <= 0x8000_0000 && finest >= 84
    ensures n < TWO53 * d
    ensures var y := Divide(n, d, finest);
            && Abs(y.m * d - n * Pow2(y.k)) * TWO53 <= n * Pow2(y.k)
            && (n % d == 0 ==> y.m == (n / d) * Pow2(y.k))
  {
    Below(n, d);
    NotSubnormal(n, d, finest);
    var k := Spacing(n, d, finest);
    var N := n * Pow2(k);
    NearestIsNear(N, d);
    Relative(Abs(Nearest(N, d) * d - N), d, N);
    if n % d == 0 { WholeScaled(n, d, Pow2(k)); }
  }

  lemma Relative(e: nat, d: nat, N: nat)
    requires 2 * e <= d && 2 * N >= TWO53 * d
    ensures e * TWO53 <= N
  {
  }

  lemma WholeScaled(n: nat, d: nat, P: int)
    requires 0 < d && n % d == 0 && P > 0
    ensures n * P % d == 0 && n * P / d == (n / d) * P
  {
    var q := n / d;
    assert n * P == d * (q * P) + 0 by { assert n == d * q; }
    EuclidUnique(n * P, d, q * P, 0);
  }

  lemma Pow84()
    ensures Pow2(84) == TWO53 * 0x8000_0000
  {
    assert Pow2(14) == 16384;
    Pow2Sum(14, 14);
    Pow2Sum(28, 28);
    Pow2Sum(28, 56);
  }

  lemma NotSubnormal(n: nat, d: nat, finest: nat)
    requires 0 < n && 0 < d <= 0x8000_0000 && finest >= 84 && n < TWO53 * d
    ensures Spacing(n, d, finest) < finest
  {
    Pow2Grows(84, finest);
    Pow84();
    MulMono(d, 0x8000_0000, TWO53);
    MulMono(1, n, Pow2(finest));
  }

  /** Float division is exact: rounding the quotient and truncating gives the truncated quotient. */
  lemma FloatQuotientExact(a: int, b: int)
    requires Operands(a, b)
    ensures FloatQuotient(a, b) == TruncatedQuotient(a, b)
  {
    var n, d := Abs(a), Abs(b);
    Below(n, d);
    if n == 0 {
      ZeroQuotient(d, FINEST);
    } else {
      DivideError(n, d, FINEST);
      RoundedQuotient(n, d, Divide(n, d, FINEST));
    }
  }

  lemma ZeroQuotient(d: nat, finest: nat)
    requires 0 < d
    ensures 0 < TWO53 * d && Divide(0, d, finest).m == 0
  {
    Below(0, d);
  }

  /** The division law for the truncated quotient. */
  lemma DivisionLaw(a: int, b: int)
    requires b != 0
    ensures var r := a - TruncatedQuotient(a, b) * b;
            Abs(r) < Abs(b) && (r != 0 ==> (r < 0 <==> a < 0))
  {
    hide TruncatedQuotient;
    Euclid(Abs(a), Abs(b));
    Remultiplied(a, b);
  }

  lemma Remultiplied(a: int, b: int)
    requires b != 0
    ensures TruncatedQuotient(a, b) * b == WithSign(a < 0, (Abs(a) / Abs(b)) * Abs(b))
  {
    var q := Abs(a) / Abs(b);
    Signs(q, b);
  }

  lemma Euclid(n: nat, d: nat)
    requires d > 0
    ensures n == (n / d) * d + n % d && n % d < d
  {
  }

  lemma Signs(q: int, d: int)
    ensures (-q) * d == -(q * d) == q * (-d) && (-q) * (-d) == q * d
  {
  }
}

/**
 Checked 128-bit arithmetic: Euclid's algorithm, the gcd-reduced binomial and
 the factorial (src/entropy/rank.rs). A checked multiplication fails exactly
 when the true product leaves the 128-bit range.
 */
module Checked {
  import opened Binomial
  import opened Nonlinear

  const U128: nat := 0x1_0000_0000_0000_0000_0000_0000_0000_0000

  datatype Option<+T> = None | Some(value: T)

  /** `checked_mul` / `checked_add` on `u128`: the exact value or nothing. */
  function Fit(v: nat): Option<nat> {
    if v < U128 then Some(v) else None
  }

  // ----- greatest common divisor -----

  function Gcd(a: nat, b: nat): nat
    decreases b
  {
    if b == 0 then a else Gcd(b, a % b)
  }

  ghost predicate Divides(d: nat, x: nat) {
    exists q: nat :: d * q == x
  }

  lemma DividesAdd(d: nat, x: nat, y: nat)
    requires Divides(d, x) && Divides(d, y)
    ensures Divides(d, x + y)
  {
    var p: nat :| d * p == x;
    var q: nat :| d * q == y;
    assert d * (p + q) == x + y;
  }

  lemma DividesSub(d: nat, x: nat, y: nat)
    requires y <= x && Divides(d, x) && Divides(d, y)
    ensures Divides(d, x - y)
  {
    var p: nat :| d * p == x;
    var q: nat :| d * q == y;
    assert d * (p - q) == x - y;
    if p < q { assert d * p <= d * q; assert x - y == 0; assert d * 0 == x - y; }
  }

  lemma DividesMul(d: nat, x: nat, m: nat)
    requires Divides(d, x)
    ensures Divides(d, x * m)
  {
    var p: nat :| d * p == x;
    assert d * (p * m) == x * m;
  }

  /** `Gcd` is a common divisor. */
  lemma {:induction false} GcdDivides(a: nat, b: nat)
    ensures Divides(Gcd(a, b), a) && Divides(Gcd(a, b), b)
    decreases b
  {
    if b == 0 {
      assert a * 1 == a && a * 0 == 0;
    } else {
      var g := Gcd(a, b);
      GcdDivides(b, a % b);
      DivMod(a, b);
      DividesMul(g, b, a / b);
      DividesAdd(g, b * (a / b), a % b);
    }
  }

  /** Every common divisor divides `Gcd`. */
  lemma {:induction false} GcdGreatest(a: nat, b: nat, d: nat)
    requires Divides(d, a) && Divides(d, b)
    ensures Divides(d, Gcd(a, b))
    decreases b
  {
    if b > 0 {
      DivMod(a, b);
      DividesMul(d, b, a / b);
      DividesSub(d, a, b * (a / b));
      GcdGreatest(b, a % b, d);
    }
  }

  lemma ModScale(m: nat, a: nat, b: nat)
    requires m > 0 && b > 0
    ensures m * b > 0 && (m * a) % (m * b) == m * (a % b)
  {
    var q, r := a / b, a % b;
    DivMod(a, b);
    MulAdd(m, b * q, r);
    MulAssoc(m, b, q);
    MulLe(m, r + 1, b);
    MulAdd(m, r, 1);
    ModUnique(m * a, m * b, q, m * r);
  }

  lemma {:induction false} GcdScale(m: nat, a: nat, b: nat)
    requires m > 0
    ensures Gcd(m * a, m * b) == m * Gcd(a, b)
    decreases b
  {
    if b > 0 {
      ModScale(m, a, b);
      GcdScale(m, b, a % b);
    } else {
      assert m * b == 0;
    }
  }

  /** Dividing out the gcd leaves coprime quotients. */
  lemma GcdReduced(a: nat, b: nat)
    requires b > 0
    ensures var g := Gcd(a, b);
            g > 0 && a == g * (a / g) && b == g * (b / g) && b / g > 0
            && Gcd(a / g, b / g) == 1
  {
    var g := Gcd(a, b);
    GcdDivides(a, b);
    var p: nat :| g * p == a;
    var q: nat :| g * q == b;
    ModUnique(a, g, p, 0);
    ModUnique(b, g, q, 0);
    GcdScale(g, p, q);
    assert g * Gcd(p, q) == g * 1;
    MulCancel(g, Gcd(p, q), 1);
  }

  /** Euclid's lemma: a divisor of a product that is coprime to one factor divides the other. */
  lemma EuclidsLemma(d: nat, a: nat, b: nat)
    requires d > 0 && b > 0 && Gcd(a, d) == 1 && Divides(d, b * a)
    ensures Divides(d, b)
  {
    GcdScale(b, a, d);
    DividesSelf(d, b);
    GcdGreatest(b * a, b * d, d);
  }

  lemma DividesSelf(d: nat, b: nat)
    ensures Divides(d, b * d)
  {
    assert d * b == b * d;
  }

  lemma GcdOfDivisor(a: nat, d: nat)
    requires d > 0 && Divides(d, a)
    ensures Gcd(a, d) == d
  {
    var q: nat :| d * q == a;
    ModUnique(a, d, q, 0);
  }

  /** `gcd_u128` (src/entropy/rank.rs:174). */
  method GcdU128(a: nat, b: nat) returns (g: nat)
    ensures g == Gcd(a, b)
    ensures Divides(g, a) && Divides(g, b) && forall d: nat :: Divides(d, a) && Divides(d, b) ==> Divides(d, g)
  {
    hide Divides;
    var x, y := a, b;
    while y != 0
      invariant Gcd(x, y) == Gcd(a, b)
      decreases y
    {
      x, y := y, x % y;
    }
    g := x;
    GcdDivides(a, b);
    forall d: nat | Divides(d, a) && Divides(d, b) ensures Divides(d, g) { GcdGreatest(a, b, d); }
  }

  // ----- binomial -----

  /**
   One step of the reduced product: from `C(m-1, i-1)` the two gcd reductions
   of the loop clear the denominator and leave `C(m, i)`.
   */
  lemma CombStep(m: nat, i: nat, r: nat)
    requires 1 <= i <= m && r == Binom(m - 1, i - 1)
    ensures var g := Gcd(r, i);
            g > 0 && i / g > 0
            && var den := i / g; var g2 := Gcd(m, den);
            g2 > 0 && den / g2 == 1 && (r / g) * (m / g2) == Binom(m, i)
  {
    hide Gcd, Binom, Divides;
    var g := Gcd(r, i);
    GcdReduced(r, i);
    BinomAbsorb(m, i);
    ReducedProduct(g, r / g, i / g, m, Binom(m, i), r, i);
    EuclidsLemma(i / g, r / g, m);
    GcdOfDivisor(m, i / g);
    ClearedDenominator(r / g, i / g, m, Binom(m, i));
  }

  lemma ClearedDenominator(r: nat, den: nat, m: nat, c: nat)
    requires den > 0 && Divides(den, m) && r * m == den * c
    ensures den / den == 1 && r * (m / den) == c
  {
    var q: nat :| den * q == m;
    ModUnique(m, den, q, 0);
    ModUnique(den, den, 1, 0);
    MulSwap(r, den, q);
    MulCancel(den, r * q, c);
  }

  lemma ReducedProduct(g: nat, r': nat, den: nat, m: nat, c: nat, r: nat, i: nat)
    requires g > 0 && r == g * r' && i == g * den && i * c == m * r
    ensures r' * m == den * c && Divides(den, m * r')
  {
    MulAssoc(g, r', m);
    MulAssoc(g, den, c);
    assert m * r == r * m;
    MulCancel(g, r' * m, den * c);
    assert m * r' == r' * m;
  }

  /** One pass of the loop body: reduce, check the denominator, multiply. */
  method ReducedStep(r: nat, m: nat, i: nat) returns (c: Option<nat>)
    requires 1 <= i <= m && r == Binom(m - 1, i - 1)
    ensures c == Fit(Binom(m, i))
  {
    CombStep(m, i, r);
    var g := GcdU128(r, i);
    var den := i / g;
    var g2 := GcdU128(m, den);
    assert den / g2 == 1;
    c := Fit((r / g) * (m / g2));
  }

  /**
   `comb` (src/entropy/rank.rs:150): the exact binomial when it fits 128 bits
   and nothing otherwise, for every pair of 128-bit arguments.
   */
  method Comb(n: nat, k: nat) returns (c: Option<nat>)
    requires n < U128 && k < U128
    ensures c == Fit(Binom(n, k))
  {
    if k > n {
      BinomZero(n, k);
      return Some(0);
    }
    var kk := if k <= n - k then k else n - k;
    BinomSymmetric(n, k);
    var r: nat := 1;
    var i := 1;
    while i <= kk
      invariant 1 <= i <= kk + 1
      invariant r == Binom(n - kk + i - 1, i - 1) && r < U128
    {
      BinomDiagonalMonotone(n, kk, kk - i);
      var product := ReducedStep(r, n - kk + i, i);
      if product.None? {
        return None;
      }
      r := product.value;
      i := i + 1;
    }
    return Some(r);
  }

  // ----- factorial -----

  function Factorial(n: nat): nat
  {
    if n == 0 then 1 else n * Factorial(n - 1)
  }

  lemma {:induction false} FactorialPositive(n: nat)
    ensures Factorial(n) >= 1
  {
    if n > 0 { FactorialPositive(n - 1); }
  }

  lemma {:induction false} FactorialMonotone(m: nat, n: nat)
    requires m <= n
    ensures Factorial(m) <= Factorial(n)
    decreases n
  {
    if m < n {
      FactorialMonotone(m, n - 1);
      FactorialPositive(n - 1);
      assert 1 * Factorial(n - 1) <= n * Factorial(n - 1);
    }
  }

  /** `factorial` (src/entropy/rank.rs:184). */
  method FactorialChecked(n: nat) returns (f: Option<nat>)
    requires n < U128
    ensures f == Fit(Factorial(n))
  {
    var r: nat := 1;
    var i := 2;
    while i <= n
      invariant 2 <= i && (i <= n + 1 || (n < 2 && i == 2))
      invariant r == Factorial(i - 1) && r < U128
    {
      FactorialMonotone(i, n);
      if r * i >= U128 {
        return None;
      }
      r := r * i;
      i := i + 1;
    }
    return Some(r);
  }

  /** The 34-element cap is exact: `34!` fits 128 bits, `35!` does not. */
  lemma FactorialCap(n: nat)
    ensures Factorial(n) < U128 <==> n <= 34
  {
    assert Factorial(10) == 3628800;
    assert Factorial(20) == 2432902008176640000;
    assert Factorial(30) == 265252859812191058636308480000000;
    assert Factorial(34) == 295232799039604140847618609643520000000;
    assert Factorial(35) == 10333147966386144929666651337523200000000;
    if n <= 34 { FactorialMonotone(n, 34); } else { FactorialMonotone(35, n); }
  }
}

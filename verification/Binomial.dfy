/**
 Binomial coefficients as Pascal's triangle, with the identities the checked
 rank arithmetic rests on. Everything here is over unbounded naturals.
 */
module Binomial {
  import opened Nonlinear

  function Binom(n: nat, k: nat): nat {
    if k == 0 then 1
    else if n == 0 then 0
    else Binom(n - 1, k - 1) + Binom(n - 1, k)
  }

  lemma {:induction false} BinomZero(n: nat, k: nat)
    requires n < k
    ensures Binom(n, k) == 0
  {
    if n > 0 {
      BinomZero(n - 1, k - 1);
      BinomZero(n - 1, k);
    }
  }

  lemma {:induction false} BinomDiagonal(n: nat)
    ensures Binom(n, n) == 1
  {
    if n > 0 {
      BinomDiagonal(n - 1);
      BinomZero(n - 1, n);
    }
  }

  lemma {:induction false} BinomPositive(n: nat, k: nat)
    requires k <= n
    ensures Binom(n, k) >= 1
  {
    if k == n {
      BinomDiagonal(n);
    } else if k > 0 {
      BinomPositive(n - 1, k - 1);
    }
  }

  lemma BinomOne(n: nat)
    ensures Binom(n, 1) == n
  {
  }

  lemma {:induction false} BinomSymmetric(n: nat, k: nat)
    requires k <= n
    ensures Binom(n, k) == Binom(n, n - k)
  {
    if k == 0 || k == n {
      BinomDiagonal(n);
    } else {
      BinomSymmetric(n - 1, k - 1);
      BinomSymmetric(n - 1, k);
    }
  }

  /** Absorption: `k * C(n, k) == n * C(n-1, k-1)`. */
  lemma {:induction false} BinomAbsorb(n: nat, k: nat)
    requires 1 <= n && 1 <= k
    ensures k * Binom(n, k) == n * Binom(n - 1, k - 1)
  {
    if n == 1 {
      if k > 1 { BinomZero(n, k); BinomZero(n - 1, k - 1); }
    } else if k == 1 {
      BinomOne(n);
    } else {
      var a, b := Binom(n - 1, k - 1), Binom(n - 1, k);
      var x, y := Binom(n - 2, k - 2), Binom(n - 2, k - 1);
      BinomAbsorb(n - 1, k - 1);
      BinomAbsorb(n - 1, k);
      AbsorbStep(n, k, a, b, x, y);
    }
  }

  lemma AbsorbStep(n: int, k: int, a: int, b: int, x: int, y: int)
    requires (k - 1) * a == (n - 1) * x && k * b == (n - 1) * y && a == x + y
    ensures k * (a + b) == n * a
  {
    MulAdd(k, a, b);
    MulAdd(n - 1, x, y);
    MulAdd(a, k - 1, 1);
    MulAdd(a, n - 1, 1);
  }

  lemma {:induction false} BinomMonotone(m: nat, n: nat, k: nat)
    requires m <= n
    ensures Binom(m, k) <= Binom(n, k)
    decreases n
  {
    if m < n {
      BinomMonotone(m, n - 1, k);
    }
  }

  /** Moving down Pascal's diagonal never makes a binomial larger. */
  lemma {:induction false} BinomDiagonalMonotone(n: nat, k: nat, j: nat)
    requires j <= k && j <= n
    ensures Binom(n - j, k - j) <= Binom(n, k)
  {
    if j > 0 {
      BinomDiagonalMonotone(n - 1, k - 1, j - 1);
    }
  }
}

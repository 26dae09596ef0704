/** Small facts about products, quotients and remainders, one product at a time. */
module Nonlinear {

  lemma MulLe(m: nat, a: nat, b: nat)
    requires a <= b
    ensures m * a <= m * b
  {
  }

  lemma MulAssoc(a: int, b: int, c: int)
    ensures a * (b * c) == (a * b) * c
  {
  }

  lemma MulSwap(a: int, b: int, c: int)
    ensures a * (b * c) == b * (a * c)
  {
  }

  lemma MulAdd(a: int, b: int, c: int)
    ensures a * (b + c) == a * b + a * c
    ensures (b + c) * a == b * a + c * a
  {
  }

  lemma MulCancel(m: nat, a: nat, b: nat)
    requires 0 < m && m * a == m * b
    ensures a == b
  {
    if a < b { MulLe(m, a + 1, b); MulAdd(m, a, 1); }
    if b < a { MulLe(m, b + 1, a); MulAdd(m, b, 1); }
  }

  lemma DivMod(a: nat, b: nat)
    requires 0 < b
    ensures a == b * (a / b) + a % b
  {
  }

  /** Euclidean division is unique. */
  lemma ModUnique(x: nat, d: nat, q: nat, r: nat)
    requires 0 < d && x == d * q + r && r < d
    ensures x % d == r && x / d == q
  {
    var p := x / d;
    DivMod(x, d);
    if p < q { MulLe(d, p + 1, q); MulAdd(d, p, 1); }
    if q < p { MulLe(d, q + 1, p); MulAdd(d, q, 1); }
  }
}

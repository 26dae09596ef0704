/** Machine integers, bytes, little-endian words and byte exclusive-or. */
module Bytes {
  import opened Nonlinear

  type byte = x: int | 0 <= x < 256
  type bytes = seq<byte>
  type u8 = byte
  type u16 = x: int | 0 <= x < 0x1_0000
  type u32 = x: int | 0 <= x < 0x1_0000_0000
  type u64 = x: int | 0 <= x < 0x1_0000_0000_0000_0000
  type u128 = x: int | 0 <= x < 0x1_0000_0000_0000_0000_0000_0000_0000_0000

  /** One past the largest 32-bit value; a cast keeps the remainder. */
  const U32: nat := 0x1_0000_0000

  /** `n` copies of one byte. */
  function Fill(value: byte, n: nat): (s: bytes)
    ensures |s| == n
    ensures forall i :: 0 <= i < n ==> s[i] == value
  {
    seq(n, _ => value)
  }

  // ----- little-endian words -----

  function Pow256(n: nat): (p: nat)
    ensures p >= 1
  {
    if n == 0 then 1 else 256 * Pow256(n - 1)
  }

  function FromLe(s: bytes): (v: nat)
    ensures v < Pow256(|s|)
  {
    if s == [] then 0 else s[0] + 256 * FromLe(s[1..])
  }

  function ToLe(v: nat, n: nat): (s: bytes)
    ensures |s| == n
  {
    if n == 0 then [] else [v % 256] + ToLe(v / 256, n - 1)
  }

  /** Reading back a written word gives it modulo the width. */
  lemma {:induction false} FromToLe(v: nat, n: nat)
    ensures v < Pow256(n) ==> FromLe(ToLe(v, n)) == v
  {
    if n > 0 {
      FromToLe(v / 256, n - 1);
      assert ToLe(v, n)[1..] == ToLe(v / 256, n - 1);
    }
  }

  /** Writing back a read word gives the bytes it was read from. */
  lemma {:induction false} ToFromLe(s: bytes)
    ensures ToLe(FromLe(s), |s|) == s
  {
    if s != [] {
      ToFromLe(s[1..]);
      assert FromLe(s) % 256 == s[0] && FromLe(s) / 256 == FromLe(s[1..]);
    }
  }

  lemma Widths()
    ensures Pow256(2) == 0x1_0000 && Pow256(4) == 0x1_0000_0000
    ensures Pow256(8) == 0x1_0000_0000_0000_0000
    ensures Pow256(16) == 0x1_0000_0000_0000_0000_0000_0000_0000_0000
  {
    assert Pow256(4) == 0x1_0000_0000;
    assert Pow256(8) == 0x1_0000_0000_0000_0000;
  }

  // ----- exclusive-or -----

  function XorBits(a: nat, b: nat, width: nat): nat {
    if width == 0 then 0
    else (a + b) % 2 + 2 * XorBits(a / 2, b / 2, width - 1)
  }

  lemma {:induction false} XorBound(a: nat, b: nat, width: nat)
    ensures XorBits(a, b, width) < Pow2(width)
  {
    if width > 0 { XorBound(a / 2, b / 2, width - 1); }
  }

  function Pow2(n: nat): (p: nat)
    ensures p >= 1
  {
    if n == 0 then 1 else 2 * Pow2(n - 1)
  }

  function Xor(a: byte, b: byte): byte {
    XorBound(a, b, 8);
    assert Pow2(8) == 256;
    XorBits(a, b, 8)
  }

  lemma {:induction false} XorBitsCancel(a: nat, b: nat, width: nat)
    requires b < Pow2(width)
    ensures XorBits(a, XorBits(b, a, width), width) == b
  {
    if width > 0 {
      XorBitsCancel(a / 2, b / 2, width - 1);
      var c := XorBits(b / 2, a / 2, width - 1);
      BitCancel(a, b, c);
    }
  }

  lemma BitCancel(a: nat, b: nat, c: nat)
    ensures var x := (b + a) % 2 + 2 * c;
            x / 2 == c && (a + x) % 2 == b % 2
    ensures b == b % 2 + 2 * (b / 2)
  {
  }

  /** `a ^ (b ^ a) == b`: the difference of target and base turns base into target. */
  lemma XorCancel(a: byte, b: byte)
    ensures Xor(a, Xor(b, a)) == b
  {
    assert Pow2(8) == 256;
    XorBitsCancel(a, b, 8);
  }

  lemma {:induction false} Pow2Adds(a: nat, b: nat)
    ensures Pow2(a + b) == Pow2(a) * Pow2(b)
  {
    if a > 0 {
      Pow2Adds(a - 1, b);
      MulAssoc(2, Pow2(a - 1), Pow2(b));
    }
  }
}

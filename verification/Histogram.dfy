/** Byte histograms and the symbols of a chunk, as the encoders count them. */
module Histogram {
  import opened Bytes

  /** The byte values below `i` that occur in `s`, ascending. */
  function Symbols(s: bytes, i: nat): (r: bytes)
    requires i <= 256
    ensures |r| <= i
    ensures forall j :: 0 <= j < |r| ==> r[j] < i && r[j] in s
    ensures forall j, k :: 0 <= j < k < |r| ==> r[j] < r[k]
  {
    if i == 0 then []
    else if i - 1 in s then Symbols(s, i - 1) + [i - 1]
    else Symbols(s, i - 1)
  }

  lemma {:induction false} SymbolsComplete(s: bytes, i: nat, b: byte)
    requires b < i <= 256 && b in s
    ensures b in Symbols(s, i)
  {
    if b < i - 1 { SymbolsComplete(s, i - 1, b); }
  }

  // ----- 32-bit counters -----

  /** No counter overflows. */
  ghost predicate Countable(s: bytes) {
    forall b: byte :: multiset(s)[b] < U32
  }

  /** The byte values below `i` whose 32-bit counter ends up positive, ascending. */
  function Counted(s: bytes, i: nat): (r: bytes)
    requires i <= 256
    ensures |r| <= i
    ensures forall j :: 0 <= j < |r| ==> r[j] < i && r[j] in s
    ensures forall j, k :: 0 <= j < k < |r| ==> r[j] < r[k]
  {
    if i == 0 then []
    else if multiset(s)[i - 1] % U32 > 0 then Counted(s, i - 1) + [i - 1]
    else Counted(s, i - 1)
  }

  lemma {:induction false} CountedComplete(s: bytes, i: nat, b: byte)
    requires b < i <= 256 && multiset(s)[b] % U32 > 0
    ensures b in Counted(s, i)
  {
    if b < i - 1 { CountedComplete(s, i - 1, b); }
  }

  lemma {:induction false} CountedPositive(s: bytes, i: nat, b: byte)
    requires i <= 256 && b in Counted(s, i)
    ensures multiset(s)[b] % U32 > 0
  {
    if i > 0 && b in Counted(s, i - 1) { CountedPositive(s, i - 1, b); }
  }

  /** Without overflow these are the symbols that occur. */
  lemma {:induction false} CountedIsSymbols(s: bytes, i: nat)
    requires i <= 256 && Countable(s)
    ensures Counted(s, i) == Symbols(s, i)
  {
    if i > 0 {
      CountedIsSymbols(s, i - 1);
      var b: byte := i - 1;
      assert multiset(s)[b] < U32 && (b in s <==> multiset(s)[b] > 0);
    }
  }

  /** Short chunks cannot overflow a counter. */
  lemma ShortCountable(s: bytes)
    requires |s| < U32
    ensures Countable(s)
  {
    forall b: byte ensures multiset(s)[b] < U32 { CountAtMost(s, b); }
  }

  lemma {:induction false} CountAtMost(s: bytes, b: byte)
    ensures multiset(s)[b] <= |s|
  {
    if s != [] {
      CountAtMost(s[1..], b);
      assert s == [s[0]] + s[1..];
    }
  }

  /** The counting loop. */
  method CountBytes(s: bytes) returns (hist: array<nat>)
    ensures fresh(hist) && hist.Length == 256
    ensures forall b :: 0 <= b < 256 ==> hist[b] == multiset(s)[b] % U32
  {
    hist := new nat[256](_ => 0);
    assert s[..0] == [];
    for i := 0 to |s|
      invariant hist.Length == 256
      invariant forall b :: 0 <= b < 256 ==> hist[b] == multiset(s[..i])[b] % U32
    {
      assert s[..i + 1] == s[..i] + [s[i]];
      hist[s[i]] := (hist[s[i]] + 1) % U32;
    }
    assert s[..|s|] == s;
  }

  /** The values with a positive counter, ascending. */
  method PositiveSymbols(hist: array<nat>, ghost s: bytes) returns (r: bytes)
    requires hist.Length == 256 && forall b :: 0 <= b < 256 ==> hist[b] == multiset(s)[b] % U32
    ensures r == Counted(s, 256)
  {
    r := [];
    for i := 0 to 256
      invariant r == Counted(s, i)
    {
      if hist[i] > 0 {
        r := r + [i];
      }
    }
  }
}

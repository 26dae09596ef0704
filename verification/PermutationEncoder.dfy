/**
 PERMUTATION (src/entropy/permutation.rs): a short chunk of distinct bytes as its
 sorted alphabet and the factoradic rank of their order.
 */
module PermutationEncoder {
  import opened Collections
  import opened Bytes
  import opened Checked
  import opened Descriptor
  import opened Context
  import opened Materializer
  import opened Validation
  import opened Histogram
  import opened PaletteEncoder
  import PermutationRank

  // ----- distinct bytes -----

  predicate AllDistinct(input: bytes) {
    forall i, j :: 0 <= i < j < |input| ==> input[i] != input[j]
  }

  /** The `seen` table: refuses the first repeated byte. */
  method CheckDistinct(input: bytes) returns (ok: bool)
    ensures ok <==> AllDistinct(input)
  {
    var seen := new bool[256](_ => false);
    for i := 0 to |input|
      invariant forall b: byte :: seen[b] <==> b in input[..i]
      invariant AllDistinct(input[..i])
    {
      var b := input[i];
      if seen[b] {
        var j :| 0 <= j < i && input[..i][j] == b;
        assert input[j] == input[i];
        return false;
      }
      seen[b] := true;
      assert input[..i + 1] == input[..i] + [b];
    }
    assert input[..|input|] == input;
    return true;
  }

  lemma SameLength(a: seq<nat>, b: seq<nat>)
    requires PermutationRank.Distinct(a) && PermutationRank.Distinct(b)
    requires forall x :: x in a <==> x in b
    ensures |a| == |b|
  {
    var s := set x | x in a;
    assert s == set x | x in b;
    PermutationRank.SetSize(a, s);
    PermutationRank.SetSize(b, s);
  }

  /** Distinct bytes have as many symbols as positions. */
  lemma AlphabetSize(input: bytes)
    requires AllDistinct(input)
    ensures |Symbols(input, 256)| == |input|
  {
    hide Symbols;
    SymbolsCover(input);
    SameLength(input, Symbols(input, 256));
  }

  /** The order of distinct bytes is a permutation of their alphabet's indices. */
  lemma OrderPermutes(alphabet: bytes, input: bytes)
    requires AllDistinct(input) && Covers(alphabet, input) && |alphabet| == |input|
    ensures PermutationRank.PermutationOf(Indices(alphabet, input), |input|)
  {
    var q := Indices(alphabet, input);
    forall i, j | 0 <= i < j < |q| ensures q[i] != q[j] {
      assert alphabet[q[i]] == input[i] && alphabet[q[j]] == input[j];
    }
  }

  // ----- the encoder -----

  predicate Proposed(input: bytes, l: Limits) {
    && 0 < |input| <= 34
    && AllDistinct(input)
    && |input| <= l.maxChunkSize
    && 5 + 16 + |input| <= l.maxDescriptorBytes
  }

  lemma PermutationSound(input: bytes)
    requires 0 < |input| <= 34 && AllDistinct(input)
    ensures Covers(Symbols(input, 256), input) && |Symbols(input, 256)| == |input|
    ensures var q := Indices(Symbols(input, 256), input);
            var x := PermutationRank.RankPermutationOf(q);
            && x.Ok? && x.value < Factorial(|input|) < U128
            && TableBytes(Symbols(input, 256), PermutationRank.UnrankPermutationOf(x.value, |input|), |input|)
               == Good(input, 0)
  {
    hide Symbols, Factorial, PermutationRank.RankPermutationOf, PermutationRank.UnrankPermutationOf;
    var alphabet := Symbols(input, 256);
    SymbolsCover(input);
    AlphabetSize(input);
    OrderPermutes(alphabet, input);
    var q := Indices(alphabet, input);
    PermutationRank.PermutationRoundTrip(q, |input|);
    FactorialCap(|input|);
    assert Lookup(alphabet, q) == input;
  }

  /** The candidate for a chunk: its sorted bytes and the rank of their order. */
  ghost function PermutationOf(input: bytes, l: Limits): Option<Representation> {
    if !Proposed(input, l) then None
    else
      var alphabet := Symbols(input, 256);
      PermutationSound(input);
      Some(Permutation(PermutationRank.RankPermutationOf(Indices(alphabet, input)).value, alphabet, |input|))
  }

  lemma ValidatesIff(d: Representation, l: Limits)
    requires d.Permutation? && 0 < d.len <= 34 && |d.alphabet| == d.len && Climbing(d.alphabet)
    requires d.rank < Factorial(d.len) < U128
    ensures Validate(d, l).Valid? <==> d.len <= l.maxChunkSize && 5 + 16 + d.len <= l.maxDescriptorBytes
  {
    hide Factorial;
  }

  /** `PermutationEncoder::encode` (src/entropy/permutation.rs:24). */
  method EncodePermutation(input: bytes, l: Limits) returns (r: Option<Representation>)
    ensures r == PermutationOf(input, l)
    ensures r.Some? ==> Validate(r.value, l).Valid?
    ensures r.Some? ==>
      TableBytes(r.value.alphabet, PermutationRank.UnrankPermutationOf(r.value.rank, r.value.len), r.value.len)
      == Good(input, 0)
  {
    hide Symbols, Factorial, PermutationRank.RankPermutationOf, PermutationRank.UnrankPermutationOf, TableBytes, Validate;
    var n := |input|;
    if n == 0 || n > 34 {
      return None;
    }
    var distinct := CheckDistinct(input);
    if !distinct {
      return None;
    }
    var sorted := Symbols(input, 256);
    PermutationSound(input);
    var q := IndexSequence(sorted, input);
    var rank := PermutationRank.RankPermutation(q.value);
    if rank.Err? {
      return None;
    }
    var rep := Permutation(rank.value, sorted, n);
    ValidatesIff(rep, l);
    var v := CheckDescriptor(rep, l);
    if v.Invalid? {
      return None;
    }
    return Some(rep);
  }

  // ----- canonical form -----

  lemma IncreasingRises(a: bytes, i: nat, j: nat)
    requires StrictlyIncreasing(a) && i < j < |a|
    ensures a[i] < a[j]
    decreases j - i
  {
    if i + 1 < j { IncreasingRises(a, i, j - 1); }
  }

  lemma PermutedParts(alphabet: bytes, q: seq<nat>, input: bytes)
    requires Climbing(alphabet) && PermutationRank.PermutationOf(q, |alphabet|)
    requires AllBelow(q, |alphabet|) && input == Lookup(alphabet, q)
    ensures AllDistinct(input) && alphabet == Symbols(input, 256)
    ensures Covers(alphabet, input) && Indices(alphabet, input) == q
  {
    hide Symbols;
    IndexUnique(alphabet, q, input);
    PermutationRank.PigeonHole(q, |alphabet|);
    forall i, j | 0 <= i < j < |input| ensures input[i] != input[j] {
      assert q[i] != q[j];
    }
    forall s | 0 <= s < |alphabet| ensures alphabet[s] in input {
      assert s in q;
      var i :| 0 <= i < |q| && q[i] == s;
      assert input[i] == alphabet[s];
    }
    ListsSymbols(alphabet, input);
    SymbolsUnique(input, alphabet, 256);
  }

  /** Canonical form: re-encoding the bytes of any valid descriptor gives the descriptor back. */
  lemma PermutationCanonical(d: Representation, l: Limits, input: bytes)
    requires d.Permutation? && Validate(d, l).Valid?
    requires TableBytes(d.alphabet, PermutationRank.UnrankPermutationOf(d.rank, d.len), d.len) == Good(input, 0)
    ensures PermutationOf(input, l) == Some(d)
  {
    hide Symbols, Factorial, PermutationRank.RankPermutationOf, PermutationRank.UnrankPermutationOf;
    forall i, j | 0 <= i < j < |d.alphabet| ensures d.alphabet[i] < d.alphabet[j] {
      IncreasingRises(d.alphabet, i, j);
    }
    PermutationRank.LehmerRoundTrip(d.rank, d.len);
    var q := PermutationRank.UnrankPermutationOf(d.rank, d.len).value;
    PermutedParts(d.alphabet, q, input);
  }
}

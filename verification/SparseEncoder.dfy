/**
 SPARSE (src/entropy/sparse.rs): the nonzero bytes of a chunk as a ranked set of
 positions plus their values.
 */
module SparseEncoder {
  import opened Collections
  import opened Bytes
  import opened Binomial
  import opened Checked
  import opened Descriptor
  import opened Context
  import opened Materializer
  import opened Validation
  import SubsetRank

  // ----- marked positions -----

  /** Positions of the nonzero bytes among the first `i`, ascending. */
  function Marks(input: bytes, i: nat): (p: seq<nat>)
    requires i <= |input|
    ensures |p| <= i
    ensures forall j :: 0 <= j < |p| ==> p[j] < i && input[p[j]] != 0
    ensures Climbing(p)
  {
    if i == 0 then []
    else if input[i - 1] != 0 then Marks(input, i - 1) + [i - 1]
    else Marks(input, i - 1)
  }

  /** The bytes at given positions. */
  function At(input: bytes, p: seq<nat>): (r: bytes)
    requires forall j :: 0 <= j < |p| ==> p[j] < |input|
    ensures |r| == |p|
  {
    seq(|p|, j requires 0 <= j < |p| => input[p[j]])
  }

  lemma {:induction false} MarksComplete(input: bytes, i: nat, x: nat)
    requires x < i <= |input| && input[x] != 0
    ensures Hit(0, Marks(input, i), x)
  {
    var p := Marks(input, i);
    if x == i - 1 {
      assert 0 + p[|p| - 1] == x;
    } else {
      MarksComplete(input, i - 1, x);
      var j :| 0 <= j < |Marks(input, i - 1)| && 0 + Marks(input, i - 1)[j] == x;
      assert 0 + p[j] == x;
    }
  }

  lemma ScatterRebuildsAt(input: bytes, p: seq<nat>, r: bytes, x: nat)
    requires x < |input| && p == Marks(input, |input|) && Scattered(r, Fill(0, |input|), 0, p, At(input, p))
    ensures r[x] == input[x]
  {
    hide Marks;
    if input[x] != 0 {
      MarksComplete(input, |input|, x);
      var j :| 0 <= j < |p| && 0 + p[j] == x;
      assert r[0 + p[j]] == At(input, p)[j];
    }
  }

  lemma ScatterLength(r: bytes, out: bytes, p: seq<nat>, literals: bytes)
    requires |p| == |literals| && Scattered(r, out, 0, p, literals)
    ensures |r| == |out|
  {
  }

  /** Scattering the marked bytes over zeros rebuilds the chunk. */
  lemma ScatterRebuilds(input: bytes, p: seq<nat>, r: bytes)
    requires p == Marks(input, |input|) && Scattered(r, Fill(0, |input|), 0, p, At(input, p))
    ensures r == input
  {
    hide Marks, Scattered, Climbing;
    ScatterLength(r, Fill(0, |input|), p, At(input, p));
    forall x: nat | x < |input| ensures r[x] == input[x] {
      ScatterRebuildsAt(input, p, r, x);
    }
  }

  // ----- SPARSE -----

  /** The positions as the encoder stores them, in 32 bits. */
  function Narrowed(input: bytes): (p: seq<nat>)
    ensures |p| == |Marks(input, |input|)|
    ensures forall j :: 0 <= j < |p| ==> p[j] < U32
  {
    SubsetRank.Narrow(Marks(input, |input|))
  }

  /** No marked position needs more than 32 bits. */
  ghost predicate Addressable(input: bytes) {
    forall x :: U32 <= x < |input| ==> input[x] == 0
  }

  lemma NarrowedExactly(input: bytes)
    ensures Narrowed(input) == Marks(input, |input|) <==> Addressable(input)
  {
    hide Marks;
    var p := Marks(input, |input|);
    SubsetRank.NarrowIdentity(p);
    if Narrowed(input) == p {
      forall x: nat | U32 <= x < |input| ensures input[x] == 0 {
        if input[x] != 0 { MarksComplete(input, |input|, x); }
      }
    }
  }

  /** Exactly the chunks the encoder proposes a descriptor for. */
  ghost predicate Proposed(input: bytes, l: Limits) {
    var n, k := |input|, |Marks(input, |input|)|;
    && 0 < n <= l.maxChunkSize
    && 0 < k <= n / 4
    && k <= l.maxFanout
    && SubsetRank.Ascending(Narrowed(input), n)
    && Binom(n, k) < U128
    && 5 + 4 + 16 + k <= l.maxDescriptorBytes
  }

  /** Narrowed positions, where they are ascending, are ranked and recovered. */
  lemma SparseRank(input: bytes)
    requires |Marks(input, |input|)| < U32
    ensures var n, p := |input|, Narrowed(input);
            SubsetRank.Ascending(p, n) && Binom(n, |p|) < U128 ==>
              && SubsetRank.RankSubset(p, n) == SubsetRank.Ok(SubsetRank.RankOf(p))
              && |p| <= n && SubsetRank.RankOf(p) < Binom(n, |p|)
              && SubsetRank.UnrankSubset(SubsetRank.RankOf(p), n, |p|) == SubsetRank.Ok(p)
  {
    hide SubsetRank.RankOf, SubsetRank.RankSubset, SubsetRank.UnrankSubset, Binom, Marks;
    var n, p := |input|, Narrowed(input);
    if SubsetRank.Ascending(p, n) && Binom(n, |p|) < U128 { SubsetRank.SubsetRoundTrip(p, n); }
  }

  /** The candidate for a chunk: its stored positions ranked, and the bytes at the marked ones. */
  ghost function SparseOf(input: bytes, l: Limits): (c: Option<Representation>)
    ensures c.Some? ==> c.value.Sparse?
  {
    if !Proposed(input, l) then None
    else
      var p := Narrowed(input);
      SparseRank(input);
      Some(Sparse(|p|, SubsetRank.RankOf(p), At(input, Marks(input, |input|)), |input|))
  }

  /** Scattering over any other positions gives another chunk. */
  lemma ScatterExactly(input: bytes, p: seq<nat>, r: bytes)
    requires |p| == |Marks(input, |input|)| && Climbing(p)
    requires Scattered(r, Fill(0, |input|), 0, p, At(input, Marks(input, |input|)))
    ensures r == input <==> p == Marks(input, |input|)
  {
    hide Marks, Scattered, Climbing;
    var m := Marks(input, |input|);
    ScatterLength(r, Fill(0, |input|), p, At(input, m));
    if p == m { ScatterRebuilds(input, p, r); }
    if r == input {
      assert 0 !in At(input, m);
      ScatterMarks(input, p, At(input, m));
    }
  }

  /** The proposed descriptor decodes, and decodes to the chunk if and only if 32 bits address its nonzero bytes. */
  lemma SparseExact(input: bytes, l: Limits)
    requires Proposed(input, l)
    ensures var d := SparseOf(input, l).value;
            var a := SparseBytes(d.k, d.rank, d.literals, d.len);
            a.Good? && (a.data == input <==> Addressable(input))
  {
    hide SubsetRank.RankOf, SubsetRank.RankSubset, SubsetRank.UnrankSubset, Binom, Marks, Place, Scattered;
    var n, p, lits := |input|, Narrowed(input), At(input, Marks(input, |input|));
    SparseRank(input);
    assert Climbing(p);
    PlaceScatters(Fill(0, n), 0, p, lits);
    ScatterExactly(input, p, Place(Fill(0, n), 0, p, lits).value);
    NarrowedExactly(input);
  }

  lemma AtAppend(input: bytes, p: seq<nat>, i: nat)
    requires i < |input| && forall j :: 0 <= j < |p| ==> p[j] < |input|
    ensures At(input, p + [i]) == At(input, p) + [input[i]]
    ensures SubsetRank.Narrow(p + [i]) == SubsetRank.Narrow(p) + [i % U32]
  {
  }

  /** The scan that collects nonzero positions and bytes in order. */
  method Scan(input: bytes) returns (positions: seq<nat>, literals: bytes)
    ensures positions == Narrowed(input) && literals == At(input, Marks(input, |input|))
  {
    hide Marks, At, Climbing, SubsetRank.Narrow;
    positions, literals := [], [];
    NothingScanned(input);
    for i := 0 to |input|
      invariant positions == SubsetRank.Narrow(Marks(input, i)) && literals == At(input, Marks(input, i))
    {
      MarksStep(input, i);
      if input[i] != 0 {
        AtAppend(input, Marks(input, i), i);
        positions, literals := positions + [i % U32], literals + [input[i]];
      }
    }
  }

  lemma NothingScanned(input: bytes)
    ensures SubsetRank.Narrow(Marks(input, 0)) == [] && At(input, Marks(input, 0)) == []
  {
  }

  lemma MarksNone(input: bytes)
    ensures Marks(input, 0) == []
  {
  }

  /** `SparseEncoder::encode` (src/entropy/sparse.rs:104). */
  method EncodeSparse(input: bytes, l: Limits) returns (c: Option<Representation>)
    requires |input| <= U64_MAX
    ensures c == SparseOf(input, l)
    ensures c.Some? ==> Validate(c.value, l).Valid?
    ensures c.Some? ==> var a := SparseBytes(c.value.k, c.value.rank, c.value.literals, c.value.len);
                        a.Good? && (a.data == input <==> Addressable(input))
  {
    hide SubsetRank.RankSubset, SubsetRank.RankOf, Binom, Marks, SparseBytes, Validate, SubsetRank.Ascending, Addressable;
    var n := |input|;
    if n == 0 || n > l.maxChunkSize {
      return None;
    }
    var positions, literals := Scan(input);
    var k := |positions|;
    if k == 0 || k > n / 4 || k > l.maxFanout {
      return None;
    }
    SparseRank(input);
    SubsetRank.RankSubsetExact(positions, n);
    var rank := SubsetRank.RankCombSubset(positions, n);
    RankFits(positions, n);
    if rank.Err? {
      return None;
    }
    var rep := Sparse(k, rank.value, literals, n);
    ValidatesIff(rep, l);
    var v := CheckDescriptor(rep, l);
    if v.Invalid? {
      return None;
    }
    SparseExact(input, l);
    return Some(rep);
  }

  lemma ValidatesIff(d: Representation, l: Limits)
    requires d.Sparse? && |d.literals| == d.k <= d.len <= l.maxChunkSize
    ensures Validate(d, l).Valid? <==>
            Binom(d.len, d.k) < U128 && d.rank < Binom(d.len, d.k) && 5 + 4 + 16 + d.k <= l.maxDescriptorBytes
  {
    hide Binom;
  }

  lemma MarksStep(input: bytes, i: nat)
    requires i < |input|
    ensures Marks(input, 0) == []
    ensures Marks(input, i + 1) == if input[i] != 0 then Marks(input, i) + [i] else Marks(input, i)
  {
  }

  /** A computed rank fits the descriptor field. */
  lemma {:induction false} RankFits(p: seq<nat>, n: nat)
    ensures SubsetRank.RankSubset(p, n).Ok? ==> SubsetRank.RankSubset(p, n).value < U128
    decreases |p|
  {
    if p != [] { RankFits(p[..|p| - 1], n); }
  }

  // ----- canonical form -----

  /** All nonzero positions below `i` are listed. */
  ghost predicate Complete(p: seq<nat>, input: bytes, i: nat)
    requires i <= |input|
  {
    forall x: nat :: x < i && input[x] != 0 ==> x in p
  }

  /** `p` lists exactly the nonzero positions below `i`. */
  ghost predicate MarksOf(p: seq<nat>, input: bytes, i: nat)
    requires i <= |input|
  {
    && Climbing(p) && |p| <= i
    && (forall j :: 0 <= j < |p| ==> p[j] < i && input[p[j]] != 0)
    && Complete(p, input, i)
  }

  /** `k + 1` ascending numbers reach at least `k`. */
  lemma {:induction false} FullHouse(p: seq<nat>, k: nat)
    requires Climbing(p) && k < |p|
    ensures p[k] >= k
  {
    if k > 0 { FullHouse(p, k - 1); }
  }

  lemma PeelUnmarked(p: seq<nat>, input: bytes, i: nat)
    requires 0 < i <= |input| && MarksOf(p, input, i) && input[i - 1] == 0
    ensures MarksOf(p, input, i - 1)
  {
    hide Climbing;
    if |p| == i { FullHouse(p, i - 1); }
  }

  lemma PeelMarked(p: seq<nat>, input: bytes, i: nat)
    requires 0 < i <= |input| && MarksOf(p, input, i) && input[i - 1] != 0
    ensures p != [] && p == p[..|p| - 1] + [i - 1] && MarksOf(p[..|p| - 1], input, i - 1)
  {
    hide Climbing;
    var k: nat := i - 1;
    assert k in p;
    var j :| 0 <= j < |p| && p[j] == k;
    TopIsLast(p, j, k);
    hide Complete;
    CompleteInit(p, input, k);
  }

  lemma CompleteInit(p: seq<nat>, input: bytes, k: nat)
    requires k < |input| && p != [] && p[|p| - 1] == k && Complete(p, input, k + 1)
    ensures Complete(p[..|p| - 1], input, k)
  {
    assert p == p[..|p| - 1] + [k];
  }

  /** Only one ascending list marks exactly the nonzero bytes. */
  lemma {:induction false} MarksUnique(input: bytes, p: seq<nat>, i: nat)
    requires i <= |input| && MarksOf(p, input, i)
    ensures p == Marks(input, i)
    decreases i
  {
    hide Marks, Complete, Climbing;
    if i == 0 {
      MarksNone(input);
    } else {
      hide MarksOf;
      MarksStep(input, i - 1);
      if input[i - 1] == 0 {
        PeelUnmarked(p, input, i);
        MarksUnique(input, p, i - 1);
      } else {
        PeelMarked(p, input, i);
        MarksUnique(input, p[..|p| - 1], i - 1);
      }
    }
  }

  lemma ScatterComplete(input: bytes, p: seq<nat>, literals: bytes)
    requires |p| == |literals| && Scattered(input, Fill(0, |input|), 0, p, literals)
    ensures Complete(p, input, |input|)
  {
    forall x: nat | x < |input| && input[x] != 0 ensures x in p {
      assert Hit(0, p, x);
      var j :| 0 <= j < |p| && 0 + p[j] == x;
      assert p[j] in p;
    }
  }

  lemma ScatterMarks(input: bytes, p: seq<nat>, literals: bytes)
    requires |p| == |literals| <= |input| && Climbing(p) && 0 !in literals
    requires Scattered(input, Fill(0, |input|), 0, p, literals)
    ensures p == Marks(input, |input|) && literals == At(input, p)
  {
    hide Marks, Climbing, Complete, Hit;
    ScatterComplete(input, p, literals);
    forall j | 0 <= j < |p| ensures p[j] < |input| && input[p[j]] == literals[j] != 0 {
      assert input[0 + p[j]] == literals[j] && literals[j] in literals;
    }
    MarksUnique(input, p, |input|);
  }

  /**
   Canonical form: re-encoding the bytes of a valid descriptor whose literals are
   all nonzero gives the descriptor back, if it is sparse enough to be proposed.
   */
  lemma SparseCanonical(d: Representation, l: Limits, input: bytes)
    requires d.Sparse? && Validate(d, l).Valid? && d.len <= U32
    requires 0 !in d.literals && 0 < d.k <= d.len / 4 && d.k <= l.maxFanout
    requires SparseBytes(d.k, d.rank, d.literals, d.len) == Good(input, 0)
    ensures SparseOf(input, l) == Some(d)
  {
    hide SubsetRank.RankSubset, SubsetRank.RankOf, SubsetRank.Unrank, Binom, Marks, SparseBytes, Scattered;
    var p := SubsetRank.Unrank(d.rank, d.k, d.len);
    SparseScatters(d.k, d.rank, d.literals, d.len, p);
    SubsetRank.RankRoundTrip(d.rank, d.len, d.k);
    ScatterLength(input, Fill(0, d.len), p, d.literals);
    ScatterMarks(input, p, d.literals);
    SubsetRank.NarrowIdentity(p);
    SparseRank(input);
    SubsetRank.RankSubsetExact(p, d.len);
  }

  // ----- a chunk the encoder gets wrong -----

  /** One nonzero byte, at position `2^32`. */
  function Distant(width: nat): bytes {
    seq(width + 4, i => if i == width then 1 else 0)
  }

  lemma DistantMarks(width: nat)
    ensures Marks(Distant(width), width + 4) == [width]
  {
    hide Marks;
    var input, p: seq<nat> := Distant(width), [width];
    assert width in p;
    MarksUnique(input, p, width + 4);
  }

  /** Such a chunk is proposed, and its descriptor decodes to something else. */
  lemma SparseEncoderFails(width: nat, l: Limits)
    requires width == U32 && l.maxChunkSize >= width + 4 && l.maxFanout >= 1 && l.maxDescriptorBytes >= 26
    ensures var c := SparseOf(Distant(width), l);
            c.Some? && var a := SparseBytes(c.value.k, c.value.rank, c.value.literals, c.value.len);
            a.Good? && a.data != Distant(width)
  {
    hide SubsetRank.RankOf, Marks, SparseBytes, Binom;
    var input := Distant(width);
    DistantMarks(width);
    BinomOne(width + 4);
    assert Narrowed(input) == [0];
    SparseExact(input, l);
    assert !Addressable(input) by { assert input[width] != 0; }
  }
}

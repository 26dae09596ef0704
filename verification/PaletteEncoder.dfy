/**
 PALETTE (src/entropy/palette.rs): the ascending list of occurring symbols, their
 multiplicities and the rank of the index sequence among its rearrangements.
 */
module PaletteEncoder {
  import opened Collections
  import opened Bytes
  import opened Checked
  import opened Descriptor
  import opened Context
  import opened Materializer
  import opened Validation
  import opened Histogram
  import MultisetRank
  import SubsetRank

  // ----- index sequences -----

  /** Where `b` stands in a palette that contains it. */
  function IndexIn(palette: bytes, b: byte): (i: nat)
    requires b in palette
    ensures i < |palette| && palette[i] == b
  {
    if palette[0] == b then 0 else 1 + IndexIn(palette[1..], b)
  }

  predicate Covers(palette: bytes, input: bytes) {
    forall i :: 0 <= i < |input| ==> input[i] in palette
  }

  function Indices(palette: bytes, input: bytes): (q: seq<nat>)
    requires Covers(palette, input)
    ensures |q| == |input|
    ensures forall i :: 0 <= i < |input| ==> q[i] < |palette| && palette[q[i]] == input[i]
  {
    seq(|input|, i requires 0 <= i < |input| => IndexIn(palette, input[i]))
  }

  /** How often each index below `m` occurs. */
  function CountsOf(q: seq<nat>, m: nat): (c: seq<nat>)
    ensures |c| == m
    ensures forall s :: 0 <= s < m ==> c[s] == multiset(q)[s]
  {
    seq(m, s => multiset(q)[s])
  }

  lemma {:induction false} ZeroSum(c: seq<nat>)
    requires forall i :: 0 <= i < |c| ==> c[i] == 0
    ensures MultisetRank.Sum(c) == 0
  {
    if c != [] { ZeroSum(c[1..]); }
  }

  /** Every sequence is an arrangement of its own counts. */
  lemma {:induction false} ArrangesOwn(q: seq<nat>, m: nat)
    requires forall i :: 0 <= i < |q| ==> q[i] < m
    ensures MultisetRank.Arranges(q, CountsOf(q, m))
    decreases |q|
  {
    if q == [] {
      ZeroSum(CountsOf(q, m));
    } else {
      ArrangesOwn(q[1..], m);
      assert q == [q[0]] + q[1..];
      assert MultisetRank.Dec(CountsOf(q, m), q[0]) == CountsOf(q[1..], m);
    }
  }

  /** Index `s` occurs as often as the symbol it stands for. */
  lemma {:induction false} IndexCounts(palette: bytes, input: bytes, s: nat)
    requires Covers(palette, input) && Climbing(palette) && s < |palette|
    ensures multiset(Indices(palette, input))[s] == multiset(input)[palette[s]]
    decreases |input|
  {
    if input != [] {
      var k := |input| - 1;
      var rest := input[..k];
      assert input == rest + [input[k]];
      IndexCounts(palette, rest, s);
      assert Indices(palette, input) == Indices(palette, rest) + [IndexIn(palette, input[k])];
      assert IndexIn(palette, input[k]) == s <==> input[k] == palette[s];
    }
  }

  // ----- the encoder -----

  /** The multiplicities of the palette symbols. */
  function Multiplicities(palette: bytes, input: bytes): (c: seq<nat>)
    ensures |c| == |palette|
    ensures forall s :: 0 <= s < |palette| ==> c[s] == multiset(input)[palette[s]]
  {
    seq(|palette|, s requires 0 <= s < |palette| => multiset(input)[palette[s]])
  }

  /** The index sequence is an arrangement of the multiplicities. */
  lemma IndicesArrange(palette: bytes, input: bytes)
    requires Covers(palette, input) && Climbing(palette)
    ensures MultisetRank.Arranges(Indices(palette, input), Multiplicities(palette, input))
    ensures MultisetRank.Sum(Multiplicities(palette, input)) == |input|
  {
    hide MultisetRank.Arranges, MultisetRank.Sum;
    var q, c := Indices(palette, input), Multiplicities(palette, input);
    ArrangesOwn(q, |palette|);
    forall s: nat | s < |palette| ensures c[s] == CountsOf(q, |palette|)[s] {
      IndexCounts(palette, input, s);
    }
    assert c == CountsOf(q, |palette|);
    MultisetRank.ArrangesCounts(q, c);
  }

  lemma SymbolsCover(input: bytes)
    ensures Covers(Symbols(input, 256), input) && Climbing(Symbols(input, 256))
  {
    hide Symbols;
    forall i | 0 <= i < |input| ensures input[i] in Symbols(input, 256) {
      SymbolsComplete(input, 256, input[i]);
    }
  }

  /** Exactly the chunks the encoder proposes a descriptor for. */
  predicate Proposed(input: bytes, l: Limits) {
    var palette := Symbols(input, 256);
    var m := |palette|;
    && 0 < |input| <= l.maxChunkSize
    && 2 <= m <= l.maxPalette
    && MultisetRank.Multi(Multiplicities(palette, input)) < U128
    && 5 + 1 + m + 4 * m + 16 <= l.maxDescriptorBytes
  }

  /** The rank of the index sequence, and what the decoder makes of it. */
  lemma PaletteSound(palette: bytes, input: bytes)
    requires Covers(palette, input) && Climbing(palette) && |palette| <= 256 && |input| < SubsetRank.U64
    requires MultisetRank.Multi(Multiplicities(palette, input)) < U128
    ensures var q, c := Indices(palette, input), Multiplicities(palette, input);
            var x := MultisetRank.RankSequence(q, |input|, c);
            && x.Ok? && x.value < MultisetRank.Multi(c)
            && TableBytes(palette, MultisetRank.UnrankSequence(x.value, |input|, c), |input|) == Good(input, 0)
  {
    hide MultisetRank.Arranges, MultisetRank.Sum, MultisetRank.Multi, MultisetRank.Index,
         MultisetRank.RankSequence, MultisetRank.UnrankSequence;
    var q, c := Indices(palette, input), Multiplicities(palette, input);
    IndicesArrange(palette, input);
    MultisetRank.MultisetRoundTrip(q, |input|, c);
    assert Lookup(palette, q) == input;
  }

  /** A rank is only computed when it fits. */
  lemma RankFits(q: seq<nat>, n: nat, c: seq<nat>)
    requires n < SubsetRank.U64
    ensures MultisetRank.RankSequence(q, n, c).Ok? ==> MultisetRank.RankSequence(q, n, c).value < U128
  {
    hide MultisetRank.RankSequence, MultisetRank.Index, MultisetRank.Arranges, MultisetRank.Sum;
    MultisetRank.RankSequenceExact(q, n, c);
  }

  /** The index sequence; nothing when a byte is missing from the palette. */
  method IndexSequence(palette: bytes, input: bytes) returns (q: Option<seq<nat>>)
    ensures q.Some? <==> Covers(palette, input)
    ensures q.Some? ==> q.value == Indices(palette, input)
  {
    var out: seq<nat> := [];
    for i := 0 to |input|
      invariant Covers(palette, input[..i]) && out == Indices(palette, input[..i])
    {
      if input[i] !in palette {
        assert input[i] in input;
        return None;
      }
      assert input[..i + 1] == input[..i] + [input[i]];
      out := out + [IndexIn(palette, input[i])];
    }
    assert input[..|input|] == input;
    return Some(out);
  }

  /** The 32-bit counters of the palette symbols. */
  function Counters(palette: bytes, input: bytes): (c: seq<u32>)
    ensures |c| == |palette|
    ensures forall s :: 0 <= s < |palette| ==> c[s] == multiset(input)[palette[s]] % U32
  {
    seq(|palette|, s requires 0 <= s < |palette| => multiset(input)[palette[s]] % U32)
  }

  lemma CountersExact(palette: bytes, input: bytes)
    requires Countable(input)
    ensures Counters(palette, input) == Multiplicities(palette, input)
  {
    forall s: nat | s < |palette| ensures Counters(palette, input)[s] == Multiplicities(palette, input)[s] {
      assert multiset(input)[palette[s]] < U32;
    }
  }

  method GatherCounts(hist: array<nat>, palette: bytes, input: bytes) returns (counts: seq<u32>)
    requires hist.Length == 256
    requires forall b :: 0 <= b < 256 ==> hist[b] == multiset(input)[b] % U32
    ensures counts == Counters(palette, input)
  {
    counts := [];
    for s := 0 to |palette|
      invariant counts == Counters(palette, input)[..s]
    {
      counts := counts + [hist[palette[s]]];
    }
  }

  /** Wrapped counters are not the multiplicities of the indices, so ranking refuses them. */
  lemma WrappedRefused(palette: bytes, input: bytes)
    requires Covers(palette, input) && Climbing(palette) && |input| < SubsetRank.U64
    requires MultisetRank.RankSequence(Indices(palette, input), |input|, Counters(palette, input)).Ok?
    ensures Countable(input)
  {
    hide MultisetRank.Arranges, MultisetRank.Sum, MultisetRank.Index, MultisetRank.RankSequence;
    var q, c := Indices(palette, input), Counters(palette, input);
    MultisetRank.RankSequenceExact(q, |input|, c);
    MultisetRank.ArrangesCounts(q, c);
    forall b: byte ensures multiset(input)[b] < U32 {
      if b in input {
        var i :| 0 <= i < |input| && input[i] == b;
        var s := IndexIn(palette, b);
        IndexCounts(palette, input, s);
        assert c[s] == multiset(q)[s];
      }
    }
  }

  /** Validation depends on the rank only through its range. */
  lemma AnyRankValidates(palette: bytes, counts: seq<u32>, n: u64, l: Limits, given: u128, rank: u128)
    requires Validate(Palette(palette, counts, given, n), l).Valid?
    ensures MultisetRank.Multi(counts) < U128
    ensures rank < MultisetRank.Multi(counts) ==> Validate(Palette(palette, counts, rank, n), l).Valid?
  {
    hide MultisetRank.Sum, MultisetRank.Multi;
  }

  /** What a call of the encoder comes to; a byte missing from the palette panics. */
  datatype Encoding = Returned(candidate: Option<Representation>) | Panicked

  /** Without overflow, the ranked index sequence validates if any rank does, and decodes. */
  lemma RankedSound(palette: bytes, counts: seq<u32>, input: bytes, l: Limits, rank: u128)
    requires Covers(palette, input) && Climbing(palette) && counts == Multiplicities(palette, input)
    requires |input| <= U64_MAX && |palette| <= 256
    requires MultisetRank.RankSequence(Indices(palette, input), |input|, counts) == SubsetRank.Ok(rank)
    requires Validate(Palette(palette, counts, rank, |input|), l).Valid?
    ensures TableBytes(palette, MultisetRank.UnrankSequence(rank, |input|, counts), |input|) == Good(input, 0)
  {
    hide MultisetRank.Arranges, MultisetRank.Sum, MultisetRank.Multi, MultisetRank.Index,
         MultisetRank.RankSequence, MultisetRank.UnrankSequence, TableBytes, Validate;
    AnyRankValidates(palette, counts, |input|, l, rank, 0);
    PaletteSound(palette, input);
  }

  /** Without overflow, some rank validates exactly when the computed one does. */
  lemma RankedIff(palette: bytes, counts: seq<u32>, input: bytes, l: Limits)
    requires Covers(palette, input) && Climbing(palette) && counts == Multiplicities(palette, input)
    requires |input| <= U64_MAX && |palette| <= 256
    requires exists rank: u128 :: Validate(Palette(palette, counts, rank, |input|), l).Valid?
    ensures var x := MultisetRank.RankSequence(Indices(palette, input), |input|, counts);
            x.Ok? && x.value < U128 && Validate(Palette(palette, counts, x.value, |input|), l).Valid?
  {
    hide MultisetRank.Arranges, MultisetRank.Sum, MultisetRank.Multi, MultisetRank.Index,
         MultisetRank.RankSequence, MultisetRank.UnrankSequence, TableBytes, Validate;
    var given: u128 :| Validate(Palette(palette, counts, given, |input|), l).Valid?;
    AnyRankValidates(palette, counts, |input|, l, given, 0);
    PaletteSound(palette, input);
    RankFits(Indices(palette, input), |input|, counts);
    AnyRankValidates(palette, counts, |input|, l, given,
                     MultisetRank.RankSequence(Indices(palette, input), |input|, counts).value);
  }

  /** The last stages: rank the index sequence and validate the descriptor. */
  method ProposePalette(palette: bytes, q: seq<nat>, counts: seq<u32>, input: bytes, l: Limits)
    returns (r: Option<Representation>)
    requires Covers(palette, input) && q == Indices(palette, input) && |input| <= U64_MAX
    ensures var x := MultisetRank.RankSequence(q, |input|, counts);
            && (x.Ok? ==> x.value < U128)
            && r == if x.Ok? && Validate(Palette(palette, counts, x.value, |input|), l).Valid?
                    then Some(Palette(palette, counts, x.value, |input|)) else None
  {
    hide MultisetRank.RankSequence, Validate;
    var rank := MultisetRank.RankMultinomial(q, |input|, counts);
    RankFits(q, |input|, counts);
    if rank.Err? {
      return None;
    }
    var rep := Palette(palette, counts, rank.value, |input|);
    var v := CheckDescriptor(rep, l);
    if v.Invalid? {
      return None;
    }
    return Some(rep);
  }

  /** When some rank validates. */
  lemma ValidatesIff(palette: bytes, counts: seq<u32>, input: bytes, l: Limits)
    requires Covers(palette, input) && Climbing(palette) && counts == Multiplicities(palette, input)
    requires 0 < |palette| <= l.maxPalette && |input| <= U64_MAX
    requires forall i :: 0 <= i < |palette| ==> palette[i] in input
    ensures (exists rank: u128 :: Validate(Palette(palette, counts, rank, |input|), l).Valid?)
            <==> |input| <= l.maxChunkSize && MultisetRank.Multi(counts) < U128
                 && 5 + 1 + |palette| + 4 * |palette| + 16 <= l.maxDescriptorBytes
  {
    hide MultisetRank.Arranges, MultisetRank.Sum, MultisetRank.Multi;
    IndicesArrange(palette, input);
    MultisetRank.MultiPositive(counts);
    assert 0 !in counts;
    if |input| <= l.maxChunkSize && MultisetRank.Multi(counts) < U128
       && 5 + 1 + |palette| + 4 * |palette| + 16 <= l.maxDescriptorBytes {
      assert Validate(Palette(palette, counts, 0, |input|), l).Valid?;
    }
  }

  /** What a proposed chunk's pieces satisfy. */
  lemma PaletteReady(input: bytes, l: Limits)
    requires Countable(input) && Proposed(input, l)
    ensures Covers(Symbols(input, 256), input)
    ensures forall s :: 0 <= s < |Symbols(input, 256)| ==> Multiplicities(Symbols(input, 256), input)[s] < U32
    ensures var palette := Symbols(input, 256);
            var x := MultisetRank.RankSequence(Indices(palette, input), |input|, Multiplicities(palette, input));
            x.Ok? && x.value < U128
  {
    hide Symbols, MultisetRank.Multi, MultisetRank.RankSequence, TableBytes, MultisetRank.UnrankSequence;
    SymbolsCover(input);
    PaletteSound(Symbols(input, 256), input);
  }

  /** The candidate for a chunk: its symbols, their counts and the rank of its index sequence. */
  ghost function PaletteOf(input: bytes, l: Limits): (c: Option<Representation>)
    ensures c.Some? ==> c.value.Palette?
  {
    if !Countable(input) || !Proposed(input, l) then None
    else
      var palette := Symbols(input, 256);
      var counts := Multiplicities(palette, input);
      PaletteReady(input, l);
      Some(Palette(palette, counts, MultisetRank.RankSequence(Indices(palette, input), |input|, counts).value, |input|))
  }

  /** The encoder looks up a byte whose counter wrapped to zero. */
  ghost predicate LooksUpMissing(input: bytes, l: Limits) {
    && 0 < |input| <= l.maxChunkSize
    && 2 <= |Counted(input, 256)| <= l.maxPalette
    && exists b: byte :: b in input && multiset(input)[b] % U32 == 0
  }

  lemma CoversIff(input: bytes)
    ensures Covers(Counted(input, 256), input) <==> forall b: byte :: b in input ==> multiset(input)[b] % U32 > 0
  {
    hide Counted;
    var palette := Counted(input, 256);
    forall b: byte | multiset(input)[b] % U32 > 0 ensures b in palette {
      CountedComplete(input, 256, b);
    }
    forall b: byte | b in palette ensures multiset(input)[b] % U32 > 0 {
      CountedPositive(input, 256, b);
    }
    if Covers(palette, input) {
      forall b: byte | b in input ensures b in palette {
        var i :| 0 <= i < |input| && input[i] == b;
      }
    }
  }

  /** Past the gates the result is the candidate of the chunk, overflow or not. */
  lemma PaletteResult(input: bytes, l: Limits, r: Option<Representation>)
    requires 0 < |input| <= l.maxChunkSize && 2 <= |Counted(input, 256)| <= l.maxPalette
    requires Covers(Counted(input, 256), input)
    requires var palette, counts := Counted(input, 256), Counters(Counted(input, 256), input);
             var x := MultisetRank.RankSequence(Indices(palette, input), |input|, counts);
             && (x.Ok? ==> x.value < U128)
             && r == if x.Ok? && Validate(Palette(palette, counts, x.value, |input|), l).Valid?
                     then Some(Palette(palette, counts, x.value, |input|)) else None
    ensures r == PaletteOf(input, l)
    ensures r.Some? ==> Validate(r.value, l).Valid?
    ensures r.Some? ==> TableBytes(r.value.palette,
                                   MultisetRank.UnrankSequence(r.value.rank, r.value.len, r.value.counts), r.value.len)
                        == Good(input, 0)
  {
    hide Symbols, Counted, Climbing, MultisetRank.Multi, MultisetRank.UnrankSequence, MultisetRank.RankSequence, TableBytes,
         Validate, Countable;
    var palette := Counted(input, 256);
    var counts := Counters(palette, input);
    assert Climbing(palette) by { CountedClimbs(input); }
    if Countable(input) {
      CountedIsSymbols(input, 256);
      CountersExact(palette, input);
      ValidatesIff(palette, counts, input, l);
      if exists rank: u128 :: Validate(Palette(palette, counts, rank, |input|), l).Valid? {
        RankedIff(palette, counts, input, l);
      }
      if r.Some? { RankedSound(palette, counts, input, l, r.value.rank); }
    } else if r.Some? {
      WrappedRefused(palette, input);
    }
  }

  lemma CountedClimbs(input: bytes)
    ensures Climbing(Counted(input, 256))
  {
  }

  lemma GatesFail(input: bytes, l: Limits)
    requires !(0 < |input| <= l.maxChunkSize && 2 <= |Counted(input, 256)| <= l.maxPalette)
    ensures PaletteOf(input, l) == None
  {
    hide Symbols, Counted;
    if Countable(input) { CountedIsSymbols(input, 256); }
  }

  /**
   `PaletteEncoder::encode` (src/entropy/palette.rs:102), its counters wrapping at 32 bits.
   It panics exactly when a byte whose counter wrapped to zero is looked up.
   */
  method EncodePalette(input: bytes, l: Limits) returns (r: Encoding)
    requires |input| <= U64_MAX
    ensures r.Panicked? <==> LooksUpMissing(input, l)
    ensures r.Returned? ==> r.candidate == PaletteOf(input, l)
    ensures r.Returned? && r.candidate.Some? ==>
              var c := r.candidate.value;
              && Validate(c, l).Valid?
              && TableBytes(c.palette, MultisetRank.UnrankSequence(c.rank, c.len, c.counts), c.len) == Good(input, 0)
  {
    hide Symbols, Counted, Covers, MultisetRank.Multi, MultisetRank.UnrankSequence, MultisetRank.RankSequence, TableBytes,
         Validate, PaletteOf, Indices;
    var n := |input|;
    if n == 0 || n > l.maxChunkSize {
      GatesFail(input, l);
      return Returned(None);
    }
    var hist := CountBytes(input);
    var palette := PositiveSymbols(hist, input);
    var m := |palette|;
    if m < 2 || m > l.maxPalette {
      GatesFail(input, l);
      return Returned(None);
    }
    var counts := GatherCounts(hist, palette, input);
    CoversIff(input);
    var q := IndexSequence(palette, input);
    if q.None? {
      return Panicked;
    }
    var c := ProposePalette(palette, q.value, counts, input, l);
    PaletteResult(input, l, c);
    return Returned(c);
  }

  // ----- canonical form -----

  /** All values below `i` that occur in `s` are listed. */
  ghost predicate ListsAll(p: bytes, s: bytes, i: nat) {
    forall b: byte :: b < i && b in s ==> b in p
  }

  ghost predicate Lists(p: bytes, s: bytes, i: nat) {
    && Climbing(p) && |p| <= i
    && (forall j :: 0 <= j < |p| ==> p[j] < i && p[j] in s)
    && ListsAll(p, s, i)
  }

  lemma ListsInit(p: bytes, s: bytes, k: byte)
    requires p != [] && p[|p| - 1] == k && ListsAll(p, s, k + 1)
    ensures ListsAll(p[..|p| - 1], s, k)
  {
    assert p == p[..|p| - 1] + [k];
  }

  lemma {:induction false} ClimbingReaches(p: bytes, k: nat)
    requires Climbing(p) && k < |p|
    ensures p[k] >= k
  {
    if k > 0 { ClimbingReaches(p, k - 1); }
  }

  lemma PeelListed(p: bytes, s: bytes, i: nat)
    requires 0 < i <= 256 && Lists(p, s, i)
    ensures i - 1 !in s ==> Lists(p, s, i - 1)
    ensures i - 1 in s ==> p != [] && p == p[..|p| - 1] + [i - 1] && Lists(p[..|p| - 1], s, i - 1)
  {
    hide Climbing;
    var k: byte := i - 1;
    if k in s {
      assert k in p;
      var j :| 0 <= j < |p| && p[j] == k;
      TopIsLast(p, j, k);
      hide ListsAll;
      ListsInit(p, s, k);
    } else if |p| == i {
      ClimbingReaches(p, i - 1);
    }
  }

  lemma SymbolsStep(s: bytes, i: nat)
    requires 0 < i <= 256
    ensures Symbols(s, i) == if i - 1 in s then Symbols(s, i - 1) + [i - 1] else Symbols(s, i - 1)
    ensures Symbols(s, 0) == []
  {
  }

  /** Only one ascending list names exactly the occurring symbols. */
  lemma {:induction false} SymbolsUnique(s: bytes, p: bytes, i: nat)
    requires i <= 256 && Lists(p, s, i)
    ensures p == Symbols(s, i)
    decreases i
  {
    hide Symbols, ListsAll, Climbing;
    SymbolsStep(s, if i > 0 then i else 1);
    if i > 0 {
      hide Lists;
      PeelListed(p, s, i);
      SymbolsUnique(s, if i - 1 in s then p[..|p| - 1] else p, i - 1);
    }
  }

  lemma IndexUnique(palette: bytes, q: seq<nat>, input: bytes)
    requires Climbing(palette) && AllBelow(q, |palette|) && input == Lookup(palette, q)
    ensures Covers(palette, input) && Indices(palette, input) == q
  {
  }

  lemma ListsSymbols(palette: bytes, input: bytes)
    requires Climbing(palette) && Covers(palette, input)
    requires forall s :: 0 <= s < |palette| ==> palette[s] in input
    ensures Lists(palette, input, 256)
  {
    if |palette| > 256 { ClimbingReaches(palette, 256); }
  }

  /** The palette, its counts and the index sequence can be read off the bytes. */
  lemma CanonicalParts(palette: bytes, counts: seq<nat>, q: seq<nat>, input: bytes)
    requires Climbing(palette) && |counts| == |palette| && 0 !in counts
    requires AllBelow(q, |palette|) && input == Lookup(palette, q)
    requires forall s :: 0 <= s < |counts| ==> multiset(q)[s] == counts[s]
    ensures palette == Symbols(input, 256)
    ensures counts == Multiplicities(palette, input)
    ensures Covers(palette, input) && Indices(palette, input) == q
  {
    hide Symbols;
    IndexUnique(palette, q, input);
    forall s: nat | s < |palette| ensures counts[s] == Multiplicities(palette, input)[s] && palette[s] in input {
      IndexCounts(palette, input, s);
      assert counts[s] in counts;
    }
    ListsSymbols(palette, input);
    SymbolsUnique(input, palette, 256);
  }

  lemma CanonicalRank(d: Representation, l: Limits, input: bytes)
    requires d.Palette? && Validate(d, l).Valid? && Climbing(d.palette) && |d.palette| <= 256
    requires TableBytes(d.palette, MultisetRank.UnrankSequence(d.rank, d.len, d.counts), d.len) == Good(input, 0)
    ensures |input| == d.len && d.palette == Symbols(input, 256)
    ensures d.counts == Multiplicities(d.palette, input)
    ensures Covers(d.palette, input)
    ensures MultisetRank.RankSequence(Indices(d.palette, input), d.len, d.counts) == SubsetRank.Ok(d.rank)
  {
    hide MultisetRank.Arranges, MultisetRank.Sum, MultisetRank.Multi, MultisetRank.Index, MultisetRank.Greedy,
         MultisetRank.RankSequence, MultisetRank.UnrankSequence, Symbols, Climbing, Covers;
    MultisetRank.IndexRoundTrip(d.rank, d.len, d.counts);
    var q := MultisetRank.Greedy(d.rank, d.len, d.counts);
    MultisetRank.ArrangesCounts(q, d.counts);
    CanonicalParts(d.palette, d.counts, q, input);
  }

  /**
   Canonical form: re-encoding the bytes of a valid descriptor with an ascending
   palette of at least two symbols gives the descriptor back.
   */
  lemma PaletteCanonical(d: Representation, l: Limits, input: bytes)
    requires d.Palette? && Validate(d, l).Valid?
    requires Climbing(d.palette) && 2 <= |d.palette| <= 256
    requires TableBytes(d.palette, MultisetRank.UnrankSequence(d.rank, d.len, d.counts), d.len) == Good(input, 0)
    ensures PaletteOf(input, l) == Some(d)
  {
    hide MultisetRank.Multi, MultisetRank.RankSequence, MultisetRank.UnrankSequence, Symbols, Validate, TableBytes;
    CanonicalRank(d, l, input);
    assert forall i :: 0 <= i < |d.palette| ==> d.palette[i] in input;
    assert input != [] by { assert d.palette[0] in input; }
    SizesValid(d, l);
    forall b: byte ensures multiset(input)[b] < U32 {
      if b in input {
        var i :| 0 <= i < |d.palette| && d.palette[i] == b;
        assert d.counts[i] == multiset(input)[d.palette[i]];
      }
    }
    ValidatesIff(d.palette, d.counts, input, l);
  }

  lemma SizesValid(d: Representation, l: Limits)
    requires d.Palette? && Validate(d, l).Valid?
    ensures d.len <= l.maxChunkSize && |d.palette| <= l.maxPalette
    ensures d == Palette(d.palette, d.counts, d.rank, d.len)
  {
    hide MultisetRank.Sum, MultisetRank.Multi;
  }
}

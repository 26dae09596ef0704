/**
 SPARSE_BLOCK64 (src/entropy/sparse64.rs): each 8-byte window becomes a count of
 nonzero bytes, the rank of their positions among 64 and their values.
 */
module BlockEncoder {
  import opened Collections
  import opened Bytes
  import opened Binomial
  import opened Checked
  import opened Descriptor
  import opened Context
  import opened Materializer
  import opened Interpreter
  import opened Validation
  import opened SparseEncoder
  import opened Streams
  import opened StreamEncoder
  import SubsetRank

  // ----- one window -----

  function Edge(input: bytes, w: nat): (m: nat)
    ensures m <= |input|
  {
    if 8 * w <= |input| then 8 * w else |input|
  }

  /** The bytes of word `w`; the last window may be short. */
  function Window(input: bytes, w: nat): (b: bytes)
    ensures |b| <= 8
  {
    input[Edge(input, w)..Edge(input, w + 1)]
  }

  function WordMarks(input: bytes, w: nat): (p: seq<nat>)
    ensures |p| <= |Window(input, w)| && Climbing(p)
    ensures forall j :: 0 <= j < |p| ==> p[j] < |Window(input, w)|
  {
    Marks(Window(input, w), |Window(input, w)|)
  }

  function WordRank(input: bytes, w: nat): bytes {
    var p := WordMarks(input, w);
    if p == [] then [] else ToLe(SubsetRank.RankOf(p), 8)
  }

  function WordLiterals(input: bytes, w: nat): (b: bytes)
    ensures |b| == |WordMarks(input, w)|
  {
    At(Window(input, w), WordMarks(input, w))
  }

  lemma {:induction false} BinomBelowPow2(n: nat, k: nat)
    ensures Binom(n, k) <= Pow2(n)
    decreases n
  {
    if n > 0 && k > 0 {
      BinomBelowPow2(n - 1, k);
      BinomBelowPow2(n - 1, k - 1);
    }
  }

  /** Every count of subsets of 64 positions fits a 64-bit word. */
  lemma WordSpace(k: nat)
    ensures Binom(64, k) <= 0x1_0000_0000_0000_0000 == Pow256(8)
  {
    hide Binom;
    Widths();
    BinomBelowPow2(64, k);
    assert Pow2(8) == 256;
    Pow2Adds(8, 8);
    Pow2Adds(16, 16);
    Pow2Adds(32, 32);
  }

  /** The rank word of a window unranks to its marked positions. */
  lemma WordRankReads(p: seq<nat>)
    requires SubsetRank.Ascending(p, 8)
    ensures SubsetRank.RankOf(p) < 0x1_0000_0000_0000_0000
    ensures SubsetRank.RankSubset(p, 64) == SubsetRank.Ok(SubsetRank.RankOf(p))
    ensures SubsetRank.UnrankSubset(FromLe(ToLe(SubsetRank.RankOf(p), 8)), 64, |p|) == SubsetRank.Ok(p)
  {
    hide Binom, SubsetRank.RankOf, SubsetRank.RankSubset, SubsetRank.UnrankSubset, FromLe, ToLe;
    WordSpace(|p|);
    SubsetRank.AscendingFits(p, 8);
    SubsetRank.SubsetRoundTrip(p, 64);
    FromToLe(SubsetRank.RankOf(p), 8);
  }

  // ----- the chunk so far -----

  /** The first `w` windows of the chunk, zeros after. */
  function Partial(input: bytes, w: nat): (out: bytes)
    ensures |out| == |input|
  {
    input[..Edge(input, w)] + Fill(0, |input| - Edge(input, w))
  }

  lemma WindowMarked(input: bytes, w: nat, x: nat)
    requires Edge(input, w) <= x < Edge(input, w + 1) && input[x] != 0
    ensures Hit(8 * w, WordMarks(input, w), x)
  {
    var b := Window(input, w);
    MarksComplete(b, |b|, x - 8 * w);
    var j :| 0 <= j < |WordMarks(input, w)| && 0 + WordMarks(input, w)[j] == x - 8 * w;
    assert 8 * w + WordMarks(input, w)[j] == x;
  }

  lemma PartialAt(input: bytes, w: nat, x: nat)
    requires x < |input|
    ensures Partial(input, w)[x] == if x < Edge(input, w) then input[x] else 0
  {
  }

  lemma WordPlacedAt(input: bytes, w: nat, out: bytes, p: seq<nat>, r: bytes, x: nat)
    requires 8 * w <= |input| && x < |input| && p == WordMarks(input, w) && out == Partial(input, w)
    requires Scattered(r, out, 8 * w, p, WordLiterals(input, w))
    ensures r[x] == Partial(input, w + 1)[x]
  {
    hide Marks, Partial, WordMarks, Climbing;
    PartialAt(input, w, x);
    PartialAt(input, w + 1, x);
    if Hit(8 * w, p, x) {
      var j :| 0 <= j < |p| && 8 * w + p[j] == x;
      assert r[8 * w + p[j]] == WordLiterals(input, w)[j] == Window(input, w)[p[j]];
    } else {
      assert r[x] == out[x];
      if Edge(input, w) <= x < Edge(input, w + 1) && input[x] != 0 {
        WindowMarked(input, w, x);
      }
    }
  }

  /** Placing one word completes one more window. */
  lemma WordPlaced(input: bytes, w: nat)
    requires 8 * w <= |input|
    ensures Place(Partial(input, w), 8 * w, WordMarks(input, w), WordLiterals(input, w)) == Some(Partial(input, w + 1))
  {
    hide Place, Scattered, Marks, Partial, WordMarks;
    var p, lits := WordMarks(input, w), WordLiterals(input, w);
    PlaceScatters(Partial(input, w), 8 * w, p, lits);
    var r := Place(Partial(input, w), 8 * w, p, lits).value;
    forall x: nat | x < |input| ensures r[x] == Partial(input, w + 1)[x] {
      WordPlacedAt(input, w, Partial(input, w), p, r, x);
    }
    assert r == Partial(input, w + 1);
  }

  // ----- the three streams -----

  function Popcounts(input: bytes, w: nat): bytes
    decreases |input| - 8 * w
  {
    if 8 * w >= |input| then [] else [|WordMarks(input, w)|] + Popcounts(input, w + 1)
  }

  function Ranks(input: bytes, w: nat): bytes
    decreases |input| - 8 * w
  {
    if 8 * w >= |input| then [] else WordRank(input, w) + Ranks(input, w + 1)
  }

  function Literals(input: bytes, w: nat): bytes
    decreases |input| - 8 * w
  {
    if 8 * w >= |input| then [] else WordLiterals(input, w) + Literals(input, w + 1)
  }

  /** The word loop over the encoder's streams rebuilds the chunk, from any word on. */
  lemma {:induction false} BlocksRebuild(input: bytes, pc: bytes, ranks: bytes, lits: bytes, w: nat, lit: nat, rank: nat, cost: nat)
    requires w <= |pc| && lit <= |lits| && rank <= |ranks|
    requires pc[w..] == Popcounts(input, w) && ranks[rank..] == Ranks(input, w) && lits[lit..] == Literals(input, w)
    ensures Blocks(pc, ranks, lits, w, Partial(input, w), lit, rank, cost).Good?
    ensures Blocks(pc, ranks, lits, w, Partial(input, w), lit, rank, cost).data == input
    decreases |input| - 8 * w
  {
    hide Blocks, Place, SubsetRank.UnrankSubset, Partial, WordMarks, WordRank, WordLiterals, Popcounts, Ranks, Literals;
    var out := Partial(input, w);
    BlocksSkip(pc, ranks, lits, w, out, lit, rank, cost);
    if 8 * w >= |input| {
      StreamsEnd(input, w);
      PartialFull(input, w);
    } else {
      var p := WordMarks(input, w);
      StreamsHead(input, w);
      assert pc[w] == pc[w..][0] == |p|;
      assert pc[w + 1..] == pc[w..][1..] == Popcounts(input, w + 1);
      WordPlaced(input, w);
      if p == [] {
        assert WordRank(input, w) == [] && WordLiterals(input, w) == [];
        PlaceDone(out, 8 * w);
        BlocksRebuild(input, pc, ranks, lits, w + 1, lit, rank, cost);
      } else {
        BlocksStep(pc, ranks, lits, w, out, lit, rank, cost);
        SplitRanks(input, ranks, rank, w);
        SplitLiterals(input, lits, lit, w);
        WordRankReads(p);
        BlocksRebuild(input, pc, ranks, lits, w + 1, lit + |p|, rank + 8, cost + |p| + 1);
      }
    }
  }

  lemma PartialFull(input: bytes, w: nat)
    requires 8 * w >= |input|
    ensures Partial(input, w) == input
  {
  }

  lemma SplitRanks(input: bytes, ranks: bytes, rank: nat, w: nat)
    requires 8 * w < |input| && WordMarks(input, w) != []
    requires rank <= |ranks| && ranks[rank..] == Ranks(input, w)
    ensures rank + 8 <= |ranks|
    ensures ranks[rank..rank + 8] == ToLe(SubsetRank.RankOf(WordMarks(input, w)), 8)
    ensures ranks[rank + 8..] == Ranks(input, w + 1)
  {
    hide WordMarks, SubsetRank.RankOf;
    var word := WordRank(input, w);
    assert ranks[rank..rank + 8] == ranks[rank..][..8] == word;
    assert ranks[rank + 8..] == ranks[rank..][8..];
  }

  lemma SplitLiterals(input: bytes, lits: bytes, lit: nat, w: nat)
    requires 8 * w < |input| && lit <= |lits| && lits[lit..] == Literals(input, w)
    ensures lit + |WordMarks(input, w)| <= |lits|
    ensures lits[lit..lit + |WordMarks(input, w)|] == WordLiterals(input, w)
    ensures lits[lit + |WordMarks(input, w)|..] == Literals(input, w + 1)
  {
    hide WordMarks, WordLiterals;
    var k := |WordMarks(input, w)|;
    assert lits[lit..lit + k] == lits[lit..][..k] == WordLiterals(input, w);
    assert lits[lit + k..] == lits[lit..][k..];
  }

  // ----- stream lengths -----

  function Nonzero(pc: bytes): nat {
    if pc == [] then 0 else (if pc[0] > 0 then 1 else 0) + Nonzero(pc[1..])
  }

  /** The number of 8-byte windows. */
  function Words(n: nat): nat {
    (n + 7) / 8
  }

  lemma NonzeroCons(k: byte, pc: bytes)
    ensures Nonzero([k] + pc) == (if k > 0 then 1 else 0) + Nonzero(pc)
  {
    assert ([k] + pc)[1..] == pc;
  }

  lemma StreamsHead(input: bytes, w: nat)
    requires 8 * w < |input|
    ensures Popcounts(input, w) == [|WordMarks(input, w)|] + Popcounts(input, w + 1)
    ensures Ranks(input, w) == WordRank(input, w) + Ranks(input, w + 1)
    ensures Literals(input, w) == WordLiterals(input, w) + Literals(input, w + 1)
    ensures |WordRank(input, w)| == if |WordMarks(input, w)| > 0 then 8 else 0
  {
    hide WordMarks;
  }

  lemma StreamsEnd(input: bytes, w: nat)
    requires 8 * w >= |input|
    ensures Popcounts(input, w) == [] && Ranks(input, w) == [] && Literals(input, w) == []
  {
  }

  lemma {:induction false} StreamLengths(input: bytes, w: nat)
    requires w <= Words(|input|)
    ensures |Popcounts(input, w)| == Words(|input|) - w
    ensures |Ranks(input, w)| == Nonzero(Popcounts(input, w)) * 8
    ensures Nonzero(Popcounts(input, w)) <= |Popcounts(input, w)|
    decreases Words(|input|) - w
  {
    hide WordMarks, WordRank, Popcounts, Ranks, Literals, Nonzero;
    if w < Words(|input|) {
      StreamsHead(input, w);
      StreamLengths(input, w + 1);
      NonzeroCons(|WordMarks(input, w)|, Popcounts(input, w + 1));
    } else {
      StreamsEnd(input, w);
      assert Nonzero([]) == 0 by { NonzeroNone(); }
    }
  }

  lemma NonzeroNone()
    ensures Nonzero([]) == 0
  {
  }

  // ----- the encoder -----

  /** The streams of a chunk: counts, values, ranks. */
  function BlockStreams(input: bytes): seq<bytes> {
    [Popcounts(input, 0), Literals(input, 0), Ranks(input, 0)]
  }

  /** The descriptor written for stored streams `e`, its lengths cut to 32 bits. */
  ghost predicate Written(d: Representation, input: bytes, e: Encoded) {
    && d.SparseBlock64?
    && |e.lens| == 3
    && d.pcLen == e.lens[0] % U32 && d.litLen == e.lens[1] % U32 && d.rankLen == e.lens[2] % U32
    && d.words == Words(|input|) % U32 && d.nonzero == Nonzero(Popcounts(input, 0)) % U32
    && d.litOut == |Literals(input, 0)| % U32 && d.len == |input|
  }

  /** A descriptor that states the lengths of stored streams `e`. */
  ghost predicate Describes(d: Representation, input: bytes, e: Encoded) {
    && d.SparseBlock64?
    && |e.lens| == 3
    && d.pcLen == e.lens[0] && d.litLen == e.lens[1] && d.rankLen == e.lens[2]
    && d.words == Words(|input|) && d.nonzero == Nonzero(Popcounts(input, 0))
    && d.litOut == |Literals(input, 0)| && d.len == |input|
  }

  lemma StreamsStep(input: bytes, w: nat, pc: bytes, ranks: bytes, lits: bytes)
    requires 8 * w < |input|
    ensures pc + Popcounts(input, w) == (pc + [|WordMarks(input, w)|]) + Popcounts(input, w + 1)
    ensures ranks + Ranks(input, w) == (ranks + WordRank(input, w)) + Ranks(input, w + 1)
    ensures lits + Literals(input, w) == (lits + WordLiterals(input, w)) + Literals(input, w + 1)
  {
    hide WordMarks, WordRank, WordLiterals, Popcounts, Ranks, Literals;
    StreamsHead(input, w);
  }

  /** The rank word of a scanned window; empty windows write none. */
  method RankWord(input: bytes, w: nat, positions: seq<nat>) returns (word: bytes)
    requires positions == WordMarks(input, w)
    ensures word == WordRank(input, w)
  {
    hide WordMarks, SubsetRank.RankOf, SubsetRank.RankSubset;
    if positions == [] {
      return [];
    }
    WordRankReads(positions);
    var rank := SubsetRank.RankCombSubset(positions, 64);
    return ToLe(rank.value, 8);
  }

  /** The per-word scan of the encoder. */
  method ScanWords(input: bytes) returns (pc: bytes, ranks: bytes, lits: bytes)
    ensures pc == Popcounts(input, 0) && lits == Literals(input, 0) && ranks == Ranks(input, 0)
  {
    hide Marks, WordRank, Popcounts, Ranks, Literals, SubsetRank.Narrow;
    pc, ranks, lits := [], [], [];
    var n := |input|;
    for w := 0 to Words(n)
      invariant pc + Popcounts(input, w) == Popcounts(input, 0)
      invariant ranks + Ranks(input, w) == Ranks(input, 0)
      invariant lits + Literals(input, w) == Literals(input, 0)
    {
      StreamsStep(input, w, pc, ranks, lits);
      var positions, values := Scan(Window(input, w));
      SubsetRank.NarrowIdentity(WordMarks(input, w));
      var word := RankWord(input, w, positions);
      pc, ranks, lits := pc + [|positions|], ranks + word, lits + values;
    }
    StreamsEnd(input, Words(n));
  }

  /** Exactly when the encoder proposes a candidate. */
  ghost predicate BlockProposed(input: bytes, l: Limits, coder: Coder) {
    var n, k := |input|, |Marks(input, |input|)|;
    var e := EncodeN(BlockStreams(input), coder);
    && 0 < n <= l.maxChunkSize
    && 0 < k && k * 2 < n
    && !(k <= l.maxFanout && k <= 9)
    && e.Some?
    && BLOCK_DESCRIPTOR + |e.value.modelObj| + |e.value.encObj| < n
  }

  const BLOCK_DESCRIPTOR := 5 + IDS + 6 * 4

  method CountNonzero(input: bytes) returns (k: nat)
    ensures k == |Marks(input, |input|)|
  {
    hide Marks;
    k := 0;
    MarksNone(input);
    for i := 0 to |input|
      invariant k == |Marks(input, i)|
    {
      MarksStep(input, i);
      if input[i] != 0 {
        k := k + 1;
      }
    }
  }

  lemma BlockLens(input: bytes, coder: Coder)
    requires EncodeN(BlockStreams(input), coder).Some?
    ensures var e := EncodeN(BlockStreams(input), coder).value;
            && |e.lens| == 3
            && e.lens[0] <= |Popcounts(input, 0)| && e.lens[1] <= |Literals(input, 0)| && e.lens[2] <= |Ranks(input, 0)|
  {
    hide Popcounts, Literals, Ranks;
    var q := BlockStreams(input);
    assert q[0] == Popcounts(input, 0) && q[1] == Literals(input, 0) && q[2] == Ranks(input, 0);
  }

  lemma {:induction false} LiteralsShort(input: bytes, w: nat)
    ensures |Literals(input, w)| <= |input| - Edge(input, w)
    decreases Words(|input|) - w
  {
    hide WordMarks, WordRank, Popcounts, Ranks, Literals;
    if 8 * w < |input| {
      StreamsHead(input, w);
      LiteralsShort(input, w + 1);
    } else {
      StreamsEnd(input, w);
    }
  }

  /** `SparseBlock64Encoder::encode` (src/entropy/sparse64.rs:121). `id` names a stored object by its content. */
  method EncodeBlock64(input: bytes, l: Limits, coder: Coder, id: bytes -> ChunkId)
    returns (c: Option<(Representation, Encoded)>)
    requires |input| <= U64_MAX
    ensures c.Some? <==> BlockProposed(input, l, coder)
    ensures c.Some? ==> Some(c.value.1) == EncodeN(BlockStreams(input), coder)
    ensures c.Some? ==> Written(c.value.0, input, c.value.1)
    ensures c.Some? ==> c.value.0.refs == StreamRefs(id(c.value.1.modelObj), id(c.value.1.encObj), SCALE_BITS, Interleaved2)
  {
    hide Marks, Popcounts, Literals, Ranks, EncodeN, Nonzero;
    var n := |input|;
    if n == 0 || n > l.maxChunkSize {
      return None;
    }
    var k := CountNonzero(input);
    if k == 0 || k == n || k * 2 >= n {
      return None;
    }
    if k <= l.maxFanout && k <= 9 {
      return None;
    }
    var pc, ranks, lits := ScanWords(input);
    var nonzero := CountWords(pc);
    var enc := EncodeStreams([pc, lits, ranks], coder);
    if enc.None? {
      return None;
    }
    var e := enc.value;
    var refs := StreamRefs(id(e.modelObj), id(e.encObj), SCALE_BITS, Interleaved2);
    var d := SparseBlock64(refs, e.lens[0] % U32, e.lens[2] % U32, e.lens[1] % U32, Words(n) % U32, nonzero % U32,
                           |lits| % U32, n);
    if EncodedSize(d) + |e.modelObj| + |e.encObj| >= n {
      return None;
    }
    return Some((d, e));
  }

  method CountWords(pc: bytes) returns (k: nat)
    ensures k == Nonzero(pc)
  {
    k := 0;
    assert pc[0..] == pc;
    for i := 0 to |pc|
      invariant k + Nonzero(pc[i..]) == Nonzero(pc)
    {
      assert pc[i..][1..] == pc[i + 1..];
      if pc[i] > 0 {
        k := k + 1;
      }
    }
  }

  lemma BlockSizes(input: bytes)
    requires |input| < U32 - 8
    ensures Words(|input|) < U32 && Nonzero(Popcounts(input, 0)) < U32
    ensures |Popcounts(input, 0)| < U32 && |Literals(input, 0)| < U32 && |Ranks(input, 0)| < U32
  {
    hide Popcounts, Literals, Ranks, Nonzero;
    StreamLengths(input, 0);
    LiteralsShort(input, 0);
  }

  /** Below 2^32 - 8 bytes nothing is cut and every stream can be stored. */
  lemma NothingCut(input: bytes, d: Representation, e: Encoded, coder: Coder)
    requires |input| < U32 - 8 && EncodeN(BlockStreams(input), coder) == Some(e) && Written(d, input, e)
    ensures Describes(d, input, e) && Storable(Ranks(input, 0))
  {
    hide *;
    BlockSizes(input);
    BlockLens(input, coder);
    ShortStorable(Ranks(input, 0));
    UncutDescribes(input, d, e);
  }

  lemma UncutDescribes(input: bytes, d: Representation, e: Encoded)
    requires Written(d, input, e) && |e.lens| == 3 && e.lens[0] < U32 && e.lens[1] < U32 && e.lens[2] < U32
    requires Words(|input|) < U32 && Nonzero(Popcounts(input, 0)) < U32 && |Literals(input, 0)| < U32
    ensures Describes(d, input, e)
  {
    hide Popcounts, Literals, Nonzero, Words;
  }

  lemma FinishBlocks(d: Representation, env: Env, l: Limits, s: Decoded)
    requires d.SparseBlock64? && d.len <= l.maxAllocBytes && d.len <= d.words * 8
    requires DecodeThree(env, l, d.refs, d.pcLen, d.litLen, d.rankLen, d.words, d.litOut, Some(d.nonzero), 8) == Ok(s)
    ensures Refs(d) == []
    ensures Finish(d, [], env, l) == Blocks(s.commands, s.offsets, s.literals, 0, Fill(0, d.len), 0, 0, 0)
  {
    hide DecodeThree, Blocks;
  }

  /** The stored streams are read back, and are as many as the descriptor says. */
  lemma BlocksDecode(input: bytes, d: Representation, e: Encoded, coder: Coder, env: Env, l: Limits)
    requires 0 < |input| && |input| + 7 <= l.maxAllocBytes
    requires EncodeN(BlockStreams(input), coder) == Some(e) && Describes(d, input, e)
    requires Storable(Ranks(input, 0))
    requires Inverts(coder, env, d.refs) && Stored(e, env, d.refs, l)
    ensures d.len <= d.words * 8
    ensures DecodeThree(env, l, d.refs, d.pcLen, d.litLen, d.rankLen, d.words, d.litOut, Some(d.nonzero), 8)
         == Ok(Decoded(Popcounts(input, 0), Literals(input, 0), Ranks(input, 0), []))
  {
    hide Popcounts, Literals, Ranks, EncodeN, Nonzero, DecodeThree, Inverts, Stored, Storable;
    StreamLengths(input, 0);
    var s := Decoded(Popcounts(input, 0), Literals(input, 0), Ranks(input, 0), []);
    ShortStorable(s.commands);
    ShortStorable(s.literals);
    ThreeRead(s, coder, env, d.refs, l, Some(d.nonzero), 8);
  }

  /** Encoder soundness: with its objects stored, the candidate materializes to the chunk. */
  lemma Block64Sound(input: bytes, d: Representation, e: Encoded, coder: Coder, env: Env, l: Limits)
    requires 0 < |input| && |input| + 7 <= l.maxAllocBytes
    requires EncodeN(BlockStreams(input), coder) == Some(e) && Describes(d, input, e)
    requires Storable(Ranks(input, 0))
    requires Inverts(coder, env, d.refs) && Stored(e, env, d.refs, l)
    ensures FinishesAs(d, env, l, input)
  {
    hide Marks, Popcounts, Literals, Ranks, EncodeN, Nonzero, DecodeThree, Blocks, Inverts, Stored, Storable, Partial,
         Finish;
    var s := Decoded(Popcounts(input, 0), Literals(input, 0), Ranks(input, 0), []);
    BlocksDecode(input, d, e, coder, env, l);
    FinishBlocks(d, env, l, s);
    assert s.commands[0..] == s.commands && s.offsets[0..] == s.offsets && s.literals[0..] == s.literals;
    BlocksRebuild(input, s.commands, s.offsets, s.literals, 0, 0, 0, 0);
    assert Partial(input, 0) == Fill(0, |input|) by { PartialEmpty(input); }
  }

  lemma PartialEmpty(input: bytes)
    ensures Partial(input, 0) == Fill(0, |input|)
  {
  }
}

/**
 Encoder soundness, end to end: whatever a self-contained encoder proposes reads
 back as exactly the chunk it was given, at any limits with room to decode; and
 reading a canonical descriptor and encoding the bytes again gives it back.
 */
module Candidates {
  import opened Bytes
  import opened Binomial
  import opened Checked
  import opened Descriptor
  import opened Context
  import opened Materializer
  import opened WorkBound
  import opened Interpreter
  import opened Validation
  import BlockEncoder
  import DeepCandidate
  import DeepEncoder
  import LzEncoder
  import SequenceEncoder
  import SparseEncoder
  import StreamEncoder
  import PaletteEncoder
  import PermutationEncoder
  import PeriodicEncoder
  import Histogram
  import SubsetRank
  import MultisetRank
  import PermutationRank

  /** Validation bounds the length. */
  lemma ValidLength(d: Representation, l: Limits)
    requires Validate(d, l).Valid? && Roomy(l)
    ensures Len(d) <= l.maxChunkSize
  {
    hide Binom, Factorial, MultisetRank.Sum, MultisetRank.Multi, ValidateResidual, CheckRefs, CheckStreams, CheckCommands;
  }

  /** A validated descriptor without references reads as what its finishing step gives. */
  lemma ReadsAs(d: Representation, ctx: Context, l: Limits, data: bytes)
    requires Validate(d, l).Valid? && Roomy(l) && FinishesAs(d, ctx.env, l, data)
    ensures Read(d, ctx, l) == Ok(data)
  {
    hide Finish, ValidateFamily, Read;
    ValidLength(d, l);
    FinishCost(d, [], ctx.env, l);
    LeafReads(d, ctx, l, data);
  }

  /** A validated block-64 candidate whose objects are stored reads back as the chunk. */
  lemma Block64Reads(input: bytes, d: Representation, e: StreamEncoder.Encoded, coder: StreamEncoder.Coder, ctx: Context,
                     l: Limits)
    requires Roomy(l) && Validate(d, l).Valid? && 0 < |input| && |input| + 7 <= l.maxAllocBytes
    requires StreamEncoder.EncodeN(BlockEncoder.BlockStreams(input), coder) == Some(e) && BlockEncoder.Describes(d, input, e)
    requires StreamEncoder.Storable(BlockEncoder.Ranks(input, 0))
    requires StreamEncoder.Inverts(coder, ctx.env, d.refs) && StreamEncoder.Stored(e, ctx.env, d.refs, l)
    ensures Read(d, ctx, l) == Ok(input)
  {
    hide Validate, Read, FinishesAs, StreamEncoder.EncodeN, StreamEncoder.Inverts, StreamEncoder.Stored,
         StreamEncoder.Storable, BlockEncoder.BlockStreams;
    BlockEncoder.Block64Sound(input, d, e, coder, ctx.env, l);
    ReadsAs(d, ctx, l, input);
  }

  /** A validated sequence candidate whose objects are stored reads back as the chunk. */
  lemma SequenceReads(input: bytes, d: Representation, e: StreamEncoder.Encoded, coder: StreamEncoder.Coder, ctx: Context,
                      l: Limits)
    requires Roomy(l) && Validate(d, l).Valid? && 0 < |input| && 2 * |input| <= l.maxAllocBytes
    requires SequenceEncoder.Describes(d, input, LzEncoder.GreedyStreams(input), e)
    requires StreamEncoder.EncodeN(SequenceEncoder.StreamList(LzEncoder.GreedyStreams(input)), coder) == Some(e)
    requires StreamEncoder.Storable(LzEncoder.GreedyStreams(input).offsets)
    requires StreamEncoder.Inverts(coder, ctx.env, d.refs) && StreamEncoder.Stored(e, ctx.env, d.refs, l)
    ensures Read(d, ctx, l) == Ok(input)
  {
    hide Validate, Read, FinishesAs, StreamEncoder.EncodeN, StreamEncoder.Inverts, StreamEncoder.Stored,
         StreamEncoder.Storable, LzEncoder.GreedyStreams;
    SequenceEncoder.SequenceSound(input, d, e, coder, ctx.env, l);
    ReadsAs(d, ctx, l, input);
  }

  lemma BadLeaf(d: Representation, ctx: Context, l: Limits)
    requires Refs(d) == [] && Finish(d, [], ctx.env, l).Bad?
    ensures Read(d, ctx, l).Err?
  {
    hide Finish;
    assert EvalRefs(d, ctx, l, 0, 0) == Ready([], 0);
  }

  /**
   A validated deep candidate whose objects are stored reads back as the chunk if and
   only if no parsed copy is too long.
   */
  lemma DeepReads(input: bytes, d: Representation, e: StreamEncoder.Encoded, coder: StreamEncoder.Coder, ctx: Context,
                  l: Limits)
    requires Roomy(l) && Validate(d, l).Valid? && 0 < |input| && 2 * |input| <= l.maxAllocBytes
    requires DeepCandidate.Describes(d, input, DeepEncoder.DeepStreams(input), e)
    requires StreamEncoder.EncodeN(DeepCandidate.StreamList(DeepEncoder.DeepStreams(input)), coder) == Some(e)
    requires StreamEncoder.Storable(DeepEncoder.DeepStreams(input).offsets)
    requires StreamEncoder.Storable(DeepEncoder.DeepStreams(input).extra)
    requires StreamEncoder.Inverts(coder, ctx.env, d.refs) && StreamEncoder.Stored(e, ctx.env, d.refs, l)
    ensures Read(d, ctx, l) == Ok(input) <==> DeepEncoder.CopiesFit(input)
    ensures Read(d, ctx, l).Ok? ==> Read(d, ctx, l) == Ok(input)
  {
    hide Validate, Read, FinishesAs, Finish, StreamEncoder.EncodeN, StreamEncoder.Inverts, StreamEncoder.Stored,
         StreamEncoder.Storable, DeepEncoder.DeepStreams, DeepEncoder.CopiesFit;
    DeepCandidate.DeepSound(input, d, e, coder, ctx.env, l);
    if DeepEncoder.CopiesFit(input) {
      ReadsAs(d, ctx, l, input);
    } else {
      BadLeaf(d, ctx, l);
    }
  }

  lemma SparseReads(input: bytes, l: Limits, ctx: Context)
    requires Roomy(l) && SparseEncoder.SparseOf(input, l).Some?
    ensures Read(SparseEncoder.SparseOf(input, l).value, ctx, l).Ok?
    ensures Read(SparseEncoder.SparseOf(input, l).value, ctx, l) == Ok(input) <==> SparseEncoder.Addressable(input)
  {
    hide Binom, SubsetRank.RankOf, SparseBytes, Validate, Read, SparseEncoder.Marks, SubsetRank.RankSubset,
         SubsetRank.UnrankSubset, SparseEncoder.Addressable, SubsetRank.Ascending;
    var d := SparseEncoder.SparseOf(input, l).value;
    SparseEncoder.SparseRank(input);
    SparseEncoder.ValidatesIff(d, l);
    SparseEncoder.SparseExact(input, l);
    ReadsAs(d, ctx, l, SparseBytes(d.k, d.rank, d.literals, d.len).data);
  }

  lemma PaletteReads(input: bytes, l: Limits, ctx: Context)
    requires Roomy(l) && PaletteEncoder.PaletteOf(input, l).Some?
    ensures Read(PaletteEncoder.PaletteOf(input, l).value, ctx, l) == Ok(input)
  {
    hide MultisetRank.Multi, MultisetRank.RankSequence, MultisetRank.UnrankSequence, TableBytes, Validate, Read,
         Histogram.Symbols;
    var d := PaletteEncoder.PaletteOf(input, l).value;
    PaletteEncoder.SymbolsCover(input);
    PaletteEncoder.PaletteReady(input, l);
    PaletteEncoder.PaletteSound(d.palette, input);
    PaletteEncoder.ValidatesIff(d.palette, d.counts, input, l);
    var given: u128 :| Validate(Palette(d.palette, d.counts, given, |input|), l).Valid?;
    PaletteEncoder.AnyRankValidates(d.palette, d.counts, |input|, l, given, d.rank);
    ReadsAs(d, ctx, l, input);
  }

  lemma PermutationReads(input: bytes, l: Limits, ctx: Context)
    requires Roomy(l) && PermutationEncoder.PermutationOf(input, l).Some?
    ensures Read(PermutationEncoder.PermutationOf(input, l).value, ctx, l) == Ok(input)
  {
    hide PermutationRank.RankPermutationOf, PermutationRank.UnrankPermutationOf, TableBytes, Validate, Read,
         Histogram.Symbols, Factorial;
    var d := PermutationEncoder.PermutationOf(input, l).value;
    PermutationEncoder.PermutationSound(input);
    PaletteEncoder.SymbolsCover(input);
    PermutationEncoder.ValidatesIff(d, l);
    ReadsAs(d, ctx, l, input);
  }

  lemma PeriodicReads(input: bytes, l: Limits, ctx: Context)
    requires Roomy(l) && |input| <= U64_MAX && PeriodicEncoder.PeriodicOf(input, l).Some?
    ensures Read(PeriodicEncoder.PeriodicOf(input, l).value, ctx, l) == Ok(input)
  {
    hide Repeat, Read, PeriodicEncoder.FirstPeriod, PeriodicEncoder.Spent, PeriodicEncoder.IsPeriod;
    var d := PeriodicEncoder.PeriodicOf(input, l).value;
    PeriodicEncoder.PeriodicSound(input, d.period, l);
    ReadsAs(d, ctx, l, input);
  }

  /** Reading any valid permutation descriptor and encoding the bytes again gives the descriptor back. */
  lemma PermutationReencodes(d: Representation, l: Limits, ctx: Context)
    requires Roomy(l) && d.Permutation? && Validate(d, l).Valid?
    ensures Read(d, ctx, l).Ok?
    ensures PermutationEncoder.PermutationOf(Read(d, ctx, l).value, l) == Some(d)
  {
    hide PermutationRank.RankPermutationOf, PermutationRank.UnrankPermutationOf, TableBytes, Read, Factorial,
         PermutationEncoder.PermutationOf;
    PermutationDecodes(d.alphabet, d.rank, d.len);
    var data := TableBytes(d.alphabet, PermutationRank.UnrankPermutationOf(d.rank, d.len), d.len).data;
    ReadsAs(d, ctx, l, data);
    PermutationEncoder.PermutationCanonical(d, l, data);
  }
}

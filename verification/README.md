# EntropyFS in Dafny

EntropyFS stores a chunk as a descriptor and reads it back by materializing the
descriptor: a bounded, recursive interpreter over 17 families of descriptors,
whose references may form any graph. This project models that interpreter and
what surrounds it, and proves properties over all inputs and all runs.

- **Rank arithmetic** (`Nonlinear`, `Binomial`, `Checked`, `SubsetRank`,
  `MultisetRank`, `PermutationRank`): the checked 128-bit rank/unrank loops for
  subsets, multisets and permutations are proved to be exact bijections.
- **Descriptors and validation** (`Collections`, `Bytes`, `Histogram`, `Descriptor`,
  `Validation`).
- **The materializer** (`Context`, `Streams`, `CommandWalk`, `WalkLaws`,
  `Materializer`, `Interpreter`): `Materializer.Eval` is what a descriptor
  evaluates to at a reference depth and what that costs, with no budget.
  `Interpreter` is the source's in-place, budgeted recursion, proved equal to
  `Eval` charged against the budget.
- **Meaning** (`Unfolding`, `Migration`, `ChainWalk`, `WorkBound`): an unfolding
  tree is the depth-free meaning of a descriptor. Substitution, cycle rejection,
  the rewrite guards and the work bound are proved on it.
- **Encoders** (`SparseEncoder`, `BlockEncoder`, `PaletteEncoder`,
  `PermutationEncoder`, `PeriodicEncoder`, `ResidualEncoder`, `StreamEncoder`,
  `LzEncoder`, `SequenceEncoder`, `DeepEncoder`, `DeepCandidate`, `Candidates`): each is undone
  exactly by the interpreter, or the exact condition is given.
- **Stateful parts**: the engine's drain protocol (`Drain`, atomic steps of
  unboundedly many threads) and the LRU cache (`ChunkCache`).
- **Casefiles** (`Casefile`): parser and printer.

Object fetch, the chunk index, rANS coding, universe bytes and BLAKE3 are
parameters: arbitrary functions with arbitrary failures. Where the rANS coder
matters (`StreamEncoder.Inverts`) the only assumption is that what it codes
decodes back and that its models fit the 16-bit slot length.

Findings, where the code does less than its documentation says; each has an input
and the exact condition:

- `encode_sequence_deep` cuts the length of an extended copy to 16 bits. Its
  streams are exact if and only if the parse has no copy over 65603 bytes
  (`DeepEncoder.DeepRoundTrip`; 65605 equal bytes fail, `DeepEncoder.DeepEncoderFails`),
  and so are its stored candidates (`Candidates.DeepReads`).
- `parse_casefile` is documented never to panic. It panics if and only if magic
  and version match and the buffer has 5 to 8 bytes, or the first entry that is not
  whole declares data ending at 2^64 or beyond (`Casefile.PanicsExactly`;
  `Casefile.FiveBytesPanic`, `Casefile.LongestLengthPanics`).
- `unrank_comb_subset` casts k and the positions to 32 bits, so it inverts the
  rank if and only if k < 2^32 and the subset lies below 2^32
  (`SubsetRank.NarrowExact`; `SubsetRank.FullSubsetLost`, `SubsetRank.WidePositionLost`).
  The sparse encoder casts positions the same way and is exact if and only if no
  byte at 2^32 or beyond is nonzero (`SparseEncoder.SparseExact`,
  `SparseEncoder.SparseEncoderFails`). Derived residuals are exact under the same kind
  of condition (`ResidualEncoder.DerivedSound`, `ResidualEncoder.WideEditLost`).
- The rank functions are documented to reject an overflowing state space; they
  accept a sequence if and only if its own rank fits (`SubsetRank.RankSubsetExact`,
  `MultisetRank.RankSequenceExact`; `SubsetRank.OverflowingSpaceRanked`,
  `MultisetRank.OverflowingMultisetRanked`). Validation rejects the descriptor later.
- When `close` returns Ok the in-flight count can still be nonzero
  (`Drain.CountMayBeNonzero`). It is zero if and only if every acquire that registered
  after the count was read as zero has been refused (`Drain.LateArrivals`).
- `chain_contains` can miss a target within the depth cap (`ChainWalk.DiamondMissed`).
  It never reports one that is not there, misses nothing where no chain outruns the
  cap, and is exact on every base that can be decoded (`ChainWalk.ChainContains`,
  `ChainWalk.GuardExact`).

## Model

| member | source | states |
|---|---|---|
| Checked.GcdU128 | src/entropy/rank.rs:174-181 | the loop returns a common divisor of both arguments that every common divisor divides |
| Checked.ReducedStep | src/entropy/rank.rs:150-171 | after the two gcd reductions the denominator is 1, and the step yields the next binomial or reports that it does not fit |
| Checked.Comb | src/entropy/rank.rs:150-171 | returns the true binomial coefficient exactly when it is below 2^128, nothing otherwise |
| Checked.FactorialChecked | src/entropy/rank.rs:184-194 | returns the true factorial exactly when it is below 2^128 |
| Checked.FactorialCap | src/entropy/rank.rs:184-194 | n! fits 128 bits if and only if n <= 34 |
| SubsetRank.RankCombSubset | src/entropy/rank.rs:199-252 | the ranking loop with its order, range and overflow checks computes the recursive rank specification |
| SubsetRank.RankSubsetExact | src/entropy/rank.rs:199-252 | ranking succeeds if and only if the positions are ascending, below n, and the rank itself fits 128 bits; the value is then the combinatorial-number-system rank |
| SubsetRank.RankBelowCount | src/entropy/rank.rs:199-252 | the rank of an ascending k-subset of [0,n) is below C(n,k) |
| SubsetRank.RankInjective | src/entropy/rank.rs:199-252 | two ascending subsets of one size with the same rank are the same subset |
| SubsetRank.FindCoordinate | src/entropy/rank.rs:280-293 | the binary-search loop computes the specified search, overflow included |
| SubsetRank.FindExact | src/entropy/rank.rs:276-312 | inside a space that fits, the search meets no overflow, even for k > n/2, and finds the greatest coordinate whose binomial does not exceed the remainder |
| SubsetRank.DescendExact | src/entropy/rank.rs:268-312 | inside a space that fits, the checked greedy descent never fails and recovers the subset |
| SubsetRank.UnrankCombSubset | src/entropy/rank.rs:254-312 | the greedy loop, for every n, k and rank the source takes, computes the unranking specification with the 32-bit cast of k and of the positions, errors included |
| SubsetRank.SubsetRoundTrip | src/entropy/rank.rs:199-312 | for every subset of 32-bit positions whose space C(n,k) fits, ranking succeeds below C(n,k), and unranking returns the subset if and only if k < 2^32 |
| SubsetRank.RankRoundTrip | src/entropy/rank.rs:199-312 | every number below C(n,k), n <= 2^32, is the rank of an ascending k-subset of [0,n), which unranking returns if and only if k < 2^32 |
| SubsetRank.NarrowExact | src/entropy/rank.rs:254-312 | beyond n = 2^32 unranking returns the subset of the given rank if and only if k < 2^32 and the rank is below C(2^32,k) |
| SubsetRank.FullSubsetLost | src/entropy/rank.rs:267 | at n = k = 2^32 and rank 0 unranking succeeds with the empty list |
| SubsetRank.WidePositionLost | src/entropy/rank.rs:294 | the subset of rank 2^32 at n = 2^32 + 1, k = 1 is position 2^32; unranking returns position 0 |
| SubsetRank.OverflowingSpaceRanked | src/entropy/rank.rs:199-252 | the first 128 of 256 positions are ranked although C(256,128) overflows, and that rank is refused by unranking |
| MultisetRank.Multinomial | src/entropy/rank.rs:321-345 | returns n!/prod(c_i!) exactly when the counts sum to n and the value fits 128 bits |
| MultisetRank.BlocksTotal | src/entropy/rank.rs:321-455 | the blocks of all first symbols partition the space: their sizes sum to the multinomial |
| MultisetRank.ArrangesCounts | src/entropy/rank.rs:348-400 | a sequence is accepted as an arrangement if and only if every symbol occurs with exactly its multiplicity |
| MultisetRank.IndexBelowMulti | src/entropy/rank.rs:348-400 | the rank of an arrangement is below the multinomial |
| MultisetRank.IndexOrdered | src/entropy/rank.rs:348-400 | ranks follow the lexicographic order of arrangements |
| MultisetRank.AddBlocks | src/entropy/rank.rs:348-400 | the trial-decrement-and-restore loop adds exactly the sizes of the blocks before the symbol, or reports overflow |
| MultisetRank.RankMultinomial | src/entropy/rank.rs:348-400 | the ranking loop computes the rank specification, including which error wins |
| MultisetRank.RankSequenceExact | src/entropy/rank.rs:348-400 | ranking succeeds if and only if the sequence arranges the counts and its rank fits 128 bits; overflow is reported only for a rank that does not fit |
| MultisetRank.ChooseSymbol | src/entropy/rank.rs:403-455 | the greedy scan always finds a symbol, the one whose block contains the remainder |
| MultisetRank.UnrankMultinomial | src/entropy/rank.rs:403-455 | the unranking loop computes the unranking specification |
| MultisetRank.MultisetRoundTrip | src/entropy/rank.rs:348-455 | every arrangement in a space that fits is ranked within it, and unranking returns it if and only if no symbol above 255 occurs |
| MultisetRank.IndexRoundTrip | src/entropy/rank.rs:348-455 | every number below the multinomial is the rank of an arrangement, which unranking returns if and only if no symbol above 255 occurs |
| MultisetRank.OverflowingMultisetRanked | src/entropy/rank.rs:348-400 | the sorted arrangement of 128 and 128 symbols is ranked although its multinomial overflows, and that rank is refused by unranking |
| PermutationRank.CheckPermutation | src/entropy/rank.rs:457-497 | the used-table scan accepts exactly the permutations of 0..m |
| PermutationRank.RankPermutation | src/entropy/rank.rs:457-497 | the factoradic loop returns the Lehmer index of a permutation of at most 34 symbols and the right error otherwise |
| PermutationRank.LehmerOrdered | src/entropy/rank.rs:457-497 | the factoradic rank follows the lexicographic order |
| PermutationRank.LehmerBelowFactorial | src/entropy/rank.rs:457-497 | the factoradic rank is below m! |
| PermutationRank.UnrankPermutation | src/entropy/rank.rs:500-534 | the digit loop with its shrinking list of available symbols computes the unranking specification |
| PermutationRank.PermutationRoundTrip | src/entropy/rank.rs:457-534 | unranking the rank of a permutation returns it |
| PermutationRank.LehmerRoundTrip | src/entropy/rank.rs:457-534 | every number below m! unranks to a permutation with that rank |
| Validation.EditsExact | src/core/representation.rs:1183-1198 | the edit loop accepts exactly the strictly increasing, in-range edit lists |
| Validation.ChangesExact | src/core/representation.rs:1199-1224 | the range loop accepts exactly the nonempty, in-range, never-touching range lists with one literal per replaced byte |
| Validation.CheckResidual | src/core/representation.rs:1174-1280 | the residual validator with its loops computes the verdict, first failing rule first, in all four forms |
| Validation.CheckConfiguration | src/core/representation.rs:783-903 | the sparse, palette and permutation checks, run on checked 128-bit arithmetic, decide the same rules over true state-space sizes |
| Validation.CheckDescriptor | src/core/representation.rs:719-1136 | the validator, written family by family as the source runs it, accepts exactly the well-formed descriptors and otherwise reports the first failing rule |
| Validation.ValidExactly | src/core/representation.rs:719-1136 | acceptance means exactly: within the caps, nonzero ids, sorted edits or separated ranges, true state-space bounds on every rank, lengths that add up, at most one command per byte |
| Validation.PlaceScatters | src/core/materialize.rs:533-557 | in-range ascending positions are all written with their literals and no other byte changes |
| Validation.ValidatedDecodes | src/core/representation.rs:719-903 | every validated zero, fill, inline, sparse, palette, periodic or permutation descriptor materializes, with no check firing, at any limits whose caps are ordered and whose budget covers one node |
| Validation.DefaultsAreRoomy | src/core/limits.rs:87-110 | the default limits are such |
| CommandWalk.CopyBack | src/core/materialize.rs:769-814 | the byte-progressive overlapping copy lays down the periodic extension of the last dist bytes and keeps everything before it |
| CommandWalk.WalkInto | src/core/materialize.rs:769-814 | the in-place command loop of the plain, dictionary, shared-dictionary and base-delta families computes one append semantics, charged against the budget; the result does not depend on the buffer's prior contents |
| CommandWalk.WalkDeepInto | src/core/materialize.rs:1343-1450 | the deep command loop with its two repcode registers computes the append semantics of the stream with repcodes and extended lengths spelled out |
| WalkLaws.LocalDictIsRans | src/core/materialize.rs:1005-1082 | a dictionary walk with only LOCAL sources is the plain walk: same bytes, cost and failure |
| WalkLaws.UnsharedIsDict | src/core/materialize.rs:1189-1283 | a shared-dictionary walk without SHARED sources is the dictionary walk, also with an absent file dictionary |
| WalkLaws.UnsetRepcodeFails | src/core/materialize.rs:1374-1400 | a repcode whose register no earlier copy has set always fails the walk |
| WalkLaws.RepcodesEliminated | src/core/materialize.rs:1343-1450 | replacing every repcode by an explicit copy leaves the walk unchanged: same bytes, same cost, same failure |
| WalkLaws.DeepIsPlain | src/core/materialize.rs:1343-1450 | every deep stream has a plain copy/literal stream that succeeds exactly when it does, with the same bytes |
| WalkLaws.ExtensionSplits | src/core/materialize.rs:769-814 | one long overlapping copy equals two shorter ones at the same distance |
| Interpreter.ResidualInto | src/core/materialize.rs:1507-1717 | applying a residual in place computes its specification, charged against the budget |
| Interpreter.BlocksInto | src/core/materialize.rs:880-925 | the word loop of the block-64 family computes its specification, charged against the budget |
| Interpreter.FinishInto | src/core/materialize.rs:390-1453 | the dispatch over all 17 families, in place, computes what each family denotes |
| Interpreter.MaterializeInto | src/core/materialize.rs:339-1453 | the recursive in-place interpreter equals the budget-free evaluation charged against the budget, for every reference graph; on success the buffer holds exactly its bytes |
| Interpreter.MaterializeToVec | src/core/materialize.rs:1786-1802 | the whole-chunk reader returns the evaluation at depth 0 under the full budget, or the first error |
| Unfolding.EvalIffUnfolding | src/core/materialize.rs:339-526 | evaluation at depth d succeeds with given bytes and cost if and only if the descriptor has a finite reference unfolding with those bytes and cost of height at most max_reference_depth - d |
| Unfolding.UnfoldingUnique | src/core/materialize.rs:469-526 | a descriptor has at most one unfolding, so its depth-free meaning is a partial function |
| Unfolding.SuccessIsStable | src/core/materialize.rs:339-378 | success at some depth and budget is success with the same bytes and the same amount spent at every smaller depth and larger budget |
| Unfolding.TooDeepIsDepthExceeded | src/core/materialize.rs:371-376 | a meaningful descriptor read too deep fails with the depth error and no other |
| Migration.MigrationSameBytes | src/core/cost.rs:76-79 | replacing one chunk's descriptor by one that evaluates to the same bytes, checked in the store before or after the replacement, leaves the bytes of every descriptor that evaluates before and after unchanged, at any depths and over arbitrary, even cyclic, reference graphs |
| Migration.MigrationSameReads | src/core/cost.rs:76-79 | every whole-chunk read that succeeds before and after the replacement returns the same bytes |
| Migration.GraftUnfolds | src/core/cost.rs:76-79 | every meaning survives the replacement: the old unfolding with the new one grafted in is an unfolding in the new store |
| Migration.MigrationKeepsReads | src/core/cost.rs:76-79 | if the replacement is no higher and no costlier, every successful bounded read still succeeds with the same bytes under the same budget |
| Migration.CandidateSurvivesIff | src/optimizer/rebase.rs:335-388 | a candidate keeps its meaning once it is itself installed if and only if it does not already read the chunk it replaces |
| Migration.CommitKeepsMeaning | src/optimizer/rebase.rs:335-388 | installing such a candidate keeps the bytes of every descriptor and raises no chain by more than the candidate's own excess height |
| ChainWalk.LongestChain | src/optimizer/rebase.rs:144-208 | the worklist walk that revisits chunks reached deeper returns the length of the longest chain, cut at the cap, on any graph |
| ChainWalk.ChainDepth | src/optimizer/rebase.rs:144-232 | the reported depth is the deepest branch plus one, saturating at 255 |
| ChainWalk.DepthGateExact | src/optimizer/rebase.rs:115-232 | for a descriptor with a meaning, the reported depth is within the cap if and only if the descriptor can be read |
| ChainWalk.ChainContains | src/optimizer/rebase.rs:336-388 | the test is exactly the capped first-visit walk; what it reports is really reachable within the cap, and where no chain outruns the cap it misses nothing |
| ChainWalk.GuardExact | src/optimizer/rebase.rs:336-388 | for every decodable base, the test holds exactly when the base is the chunk or reads it |
| ChainWalk.BeyondCapUnseen | src/optimizer/rebase.rs:357-359 | for every cap a chain is exhibited whose last chunk, one hop past the cap, no walk of at most that many hops can find |
| ChainWalk.DiamondMissed | src/optimizer/rebase.rs:352-386 | for every cap of at least 3 a store is exhibited in which the target is within the cap and the walk still misses it, because a longer branch met first used the depth up |
| ChainWalk.CycleNeverMaterializes | src/core/materialize.rs:371-376 | a descriptor that reaches a reference cycle never materializes, at any depth |
| ChainWalk.PathsWithinDepth | src/core/materialize.rs:371-376 | success at depth d bounds every reference path from the descriptor by max_reference_depth - d |
| ChainWalk.TrapNeverMaterializes | src/core/materialize.rs:371-376 | a descriptor that leads into a set of chunks each of which is unknown or refers back into the set never materializes, at any depth |
| WorkBound.FinishCost | src/core/materialize.rs:384-1453 | a validated descriptor spends at most two operations per byte beyond its bulk charge, success or failure |
| WorkBound.EvalCost | src/core/materialize.rs:371-378 | over validated descriptors a run spends at most (2^(max_reference_depth+1) - 1) * (M/8 + 1 + 2M) operations |
| WorkBound.BudgetNeverExceeded | src/core/materialize.rs:1758-1764 | a budget of that bound changes no outcome, at any limits and depth |
| WorkBound.DefaultBudgetSuffices | src/core/limits.rs:87-98 | at the default limits that is 17,268,767, below the default budget of 2^26 |
| WorkBound.ReadsWithinBudget | src/core/materialize.rs:1786-1802 | reading any chunk of a validated store at the default limits, in any context, is reading it with no budget at all; an exhausted budget is reported only if the context itself reports one |
| SparseEncoder.EncodeSparse | src/entropy/sparse.rs:104-182 | for every chunk and limits, proposes exactly when the gates, the order of the 32-bit positions, the 128-bit state space and the descriptor size allow; the proposal validates |
| SparseEncoder.SparseExact | src/entropy/sparse.rs:104-182 | a proposal decodes, and decodes to the chunk if and only if no byte at position 2^32 or beyond is nonzero |
| SparseEncoder.SparseEncoderFails | src/entropy/sparse.rs:122 | a chunk of 2^32 + 4 bytes with one nonzero byte at 2^32 is proposed and decodes to something else |
| SparseEncoder.SparseCanonical | src/entropy/sparse.rs:104-182 | re-encoding the bytes of a valid sparse descriptor of at most 2^32 bytes, with nonzero literals and 0 < k <= len/4 within max_fanout, gives the descriptor back |
| PaletteEncoder.EncodePalette | src/entropy/palette.rs:102-179 | for every chunk: panics exactly when a byte whose 32-bit counter wrapped to zero is looked up; otherwise proposes exactly when no counter wrapped, 2 to max_palette symbols occur, the multinomial fits and the descriptor is small enough; the proposal validates and decodes to the chunk |
| PaletteEncoder.WrappedRefused | src/entropy/palette.rs:114-151 | wrapped counters are never the multiplicities of the index sequence, so ranking refuses them |
| Histogram.CountBytes | src/entropy/palette.rs:114-117 | the counting loop leaves every multiplicity modulo 2^32 |
| PaletteEncoder.IndicesArrange | src/entropy/palette.rs:124-140 | the index sequence is an arrangement of the palette multiplicities |
| PaletteEncoder.PaletteCanonical | src/entropy/palette.rs:102-179 | re-encoding the bytes of a valid descriptor with an ascending palette gives the descriptor back |
| PermutationEncoder.EncodePermutation | src/entropy/permutation.rs:24-77 | proposes exactly for 1 to 34 distinct bytes within the limits; the proposal validates and decodes to the chunk |
| PermutationEncoder.PermutationCanonical | src/entropy/permutation.rs:24-77 | re-encoding the bytes of any valid permutation descriptor gives the descriptor back |
| PeriodicEncoder.EncodePeriodic | src/entropy/periodic.rs:101-174 | proposes the least period in [2, min(max_period, n/2)] exactly when it is reached within the comparison cap and its descriptor validates; the proposal decodes to the chunk |
| PeriodicEncoder.FilterSafe | src/entropy/periodic.rs:121-129 | the one-byte filter never skips a true period |
| Candidates.SparseReads | src/entropy/sparse.rs:104-182 | every sparse candidate reads, and reads back as the chunk under the same condition, through the bounded interpreter |
| Candidates.PaletteReads | src/entropy/palette.rs:102-179 | every palette candidate reads back as the chunk |
| Candidates.PermutationReads | src/entropy/permutation.rs:24-77 | every permutation candidate reads back as the chunk |
| Candidates.PeriodicReads | src/entropy/periodic.rs:101-174 | every periodic candidate reads back as the chunk |
| Candidates.Block64Reads | src/entropy/sparse64.rs:121-243 | a validated block-64 candidate with its lengths uncut and its objects stored reads back as the chunk |
| Candidates.SequenceReads | src/rans/sequence.rs:2059-2126 | a validated sequence candidate with its lengths uncut and its objects stored reads back as the chunk |
| Candidates.DeepReads | src/rans/sequence.rs:2436-2520 | a validated deep candidate with its lengths uncut and its objects stored reads back as the chunk if and only if no parsed copy exceeds 65603 bytes, and never as anything else |
| Candidates.PermutationReencodes | src/entropy/permutation.rs:24-77 | reading any valid permutation descriptor and encoding the bytes again gives the same descriptor |
| BlockEncoder.EncodeBlock64 | src/entropy/sparse64.rs:121-243 | for every chunk, proposes exactly when the density gates, the stream coder and the size gate allow, with the counts, ranks and values of every 8-byte window and the lengths cut to 32 bits |
| BlockEncoder.NothingCut | src/entropy/sparse64.rs:201-213 | below 2^32 - 8 bytes the cut loses nothing |
| BlockEncoder.WordRankReads | src/entropy/sparse64.rs:168-197 | the rank of a window's positions fits 64 bits and unranks to them |
| BlockEncoder.BlocksRebuild | src/entropy/sparse64.rs:163-201 | the word loop over the encoder's streams rebuilds the chunk, from any word on |
| BlockEncoder.Block64Sound | src/entropy/sparse64.rs:121-243 | with its objects stored, its lengths uncut and the entropy coder inverted by the decoder, the candidate materializes to the chunk |
| ResidualEncoder.DeriveResiduals | src/entropy/residual.rs:105-166 | for every pair of chunks, returns exactly the forms within the fanout, positions cut to 32 bits, the cheaper first, XOR edits first on a tie |
| ResidualEncoder.DerivedSound | src/entropy/residual.rs:105-166 | every derived residual applies over the base to give exactly the target if and only if the chunks agree from position 2^32 (XOR) or 2^32 - 1 (ranges) on; it then validates; none is cheaper than the first |
| ResidualEncoder.XorExact | src/entropy/residual.rs:114-131 | the XOR form is exact if and only if the chunks agree from position 2^32 on |
| ResidualEncoder.RangeExact | src/entropy/residual.rs:133-160 | the range form is exact if and only if the chunks agree from position 2^32 - 1 on, where an end still fits 32 bits |
| ResidualEncoder.WideEditLost | src/entropy/residual.rs:119 | chunks that differ at position 2^32 alone give a valid residual that does not rebuild the target |
| ResidualEncoder.RunsApart | src/entropy/residual.rs:133-151 | where no end is cut, maximal runs never touch, and the literals are exactly the replaced bytes |
| ResidualEncoder.DiffSummary | src/entropy/residual.rs:171-190 | the two counts are the numbers of edits and of ranges of the derived forms |
| ResidualEncoder.EncodeBaseResidual | src/entropy/residual.rs:27-75 | proposes exactly the validated, non-empty derived residuals over the same-length bases below the depth cap, in the order of the bases and of the derivation |
| ResidualEncoder.CandidateEvaluates | src/core/materialize.rs:500-526 | wherever its base evaluates to the base bytes, such a candidate evaluates to the chunk if and only if its positions can name the bytes that differ |
| StreamEncoder.EncodeOneStream | src/rans/sequence.rs:1371-1412 | a stream is stored empty, verbatim, or coded exactly when coding pays for its model, as the 32-bit counters see it |
| StreamEncoder.OneReads | src/rans/sequence.rs:1371-1412 | a stored stream decodes to itself if and only if it is empty or some counter ends up positive, which holds below 2^32 bytes |
| StreamEncoder.EncodeStreams | src/rans/sequence.rs:1218-1263 | the slot and payload loop computes the object layout |
| StreamEncoder.SlotsRead | src/rans/sequence.rs:1417-1470 | the model object parses back to the slots it was written from |
| StreamEncoder.ThreeRead | src/rans/sequence.rs:1542-1790 | three stored streams are decoded back unchanged |
| StreamEncoder.FourRead | src/rans/sequence.rs:1799-1850 | four stored streams of the dictionary families are decoded back unchanged |
| StreamEncoder.DeepRead | src/rans/sequence.rs:1857-2048 | four stored streams of the deep family are decoded back unchanged |
| LzEncoder.FindMatchIn | src/rans/sequence.rs:1131-1162 | the capped hash-chain walk computes the specified search; what it returns is a true match of at least four bytes within the 16-bit distance |
| LzEncoder.EmitCopies | src/rans/sequence.rs:440-447 | the copy loop writes the specified commands, each of an encodable length |
| LzEncoder.CopiesRebuild | src/rans/sequence.rs:418-447 | after the tail clip the commands of a match rebuild the matched bytes |
| LzEncoder.EncodeSequence | src/rans/sequence.rs:384-484 | for every chunk the parse loop writes exactly the streams of the greedy parse, the tables holding 32-bit positions, and they are a recipe for the chunk |
| LzEncoder.StreamsRebuild | src/rans/sequence.rs:384-484 | the streams of the greedy parse of any chunk are a recipe for it |
| LzEncoder.RebuildsWalk | src/rans/sequence.rs:384-484 | the command walk over such streams gives the chunk, and their lengths are what the decoder expects |
| SequenceEncoder.EncodeCandidate | src/rans/sequence.rs:2059-2126 | for every chunk, proposes exactly when it has 128 bytes to max_chunk_size, the streams of its greedy parse can be stored and the descriptor with its objects is smaller; the lengths are cut to 32 bits |
| SequenceEncoder.NothingCut | src/rans/sequence.rs:2085-2096 | below 2^31 bytes the cut loses nothing |
| SequenceEncoder.SequenceSound | src/rans/sequence.rs:2059-2126 | with its objects stored and its lengths uncut, the candidate materializes to the chunk |
| DeepEncoder.FindDeepIn | src/rans/sequence.rs:941-1000 | the deep matcher tries the repeated distances first and lets only strictly longer chain matches replace them |
| DeepEncoder.PushCopy | src/rans/sequence.rs:899-930 | a copy is written as a repcode, short copy or extended copy with the registers kept in step, the extended length cut to 16 bits |
| DeepEncoder.EncodeDeep | src/rans/sequence.rs:792-890 | for every chunk the lazy parse loop writes exactly the streams of the specified parse, the tables holding 32-bit positions |
| DeepEncoder.DeepExact | src/rans/sequence.rs:792-930 | streams of a parse walk back if and only if no parsed copy exceeds 65603 bytes, and then give the chunk |
| DeepEncoder.DeepRoundTrip | src/rans/sequence.rs:792-890 | the encoder's streams walk back to the chunk if and only if its parse has no longer copy; chunks of at most 65604 bytes never have one |
| DeepEncoder.DeepEncoderFails | src/rans/sequence.rs:918-929 | 65605 equal bytes are encoded into streams that do not walk back |
| DeepCandidate.EncodeCandidate | src/rans/sequence.rs:2436-2520 | for every chunk, proposes exactly when it has 128 bytes to max_chunk_size, its deep streams can be stored and the descriptor with its objects is smaller; the lengths are cut to 32 bits |
| DeepCandidate.NothingCut | src/rans/sequence.rs:2461-2486 | below 2^31 bytes the cut loses nothing |
| DeepCandidate.DeepSound | src/rans/sequence.rs:2436-2520 | with its objects stored and its lengths uncut, the candidate materializes if and only if no parsed copy exceeds 65603 bytes, and then to the chunk |
| Drain.StepKeepsInv | src/engine/mod.rs:679-703 | every atomic step of every thread keeps the count exact, the lock exclusive, one winning close at most, and nobody using a released store |
| Drain.RunInv | src/engine/mod.rs:679-703 | so does every state of every run, over any number of threads |
| Drain.CountExact | src/engine/mod.rs:683-703 | the in-flight count is the number of threads between registration and finish, and no finish underflows it |
| Drain.CloneIsLive | src/engine/mod.rs:676-697 | while any thread is between its clone and its finish the slot is still full |
| Drain.DrainSafety | src/engine/mod.rs:1025-1040 | once a close has returned Ok the slot is empty, nobody is between clone and finish, no other close returns Ok, and every later acquire or close is refused |
| Drain.LateArrivals | src/engine/mod.rs:683-697 | after a successful close the count is exactly the acquires that registered after the close read zero and have not been refused yet, so it is zero if and only if there is none |
| Drain.FlyingIsLate | src/engine/mod.rs:683-703 | from the zero read on, in flight are exactly the threads with a later registration and no finish since |
| Drain.CountMayBeNonzero | src/engine/mod.rs:1030-1038 | the count itself need not be zero when a close returns Ok: a run is exhibited |
| ChunkCache.MaterializedCache.Get | src/cache/materialized.rs:38-43 | a hit returns the listed bytes and moves the chunk to the most recent end; a miss changes nothing |
| ChunkCache.MaterializedCache.Insert | src/cache/materialized.rs:48-73 | an oversized chunk only drops its stale copy; any other replaces it, becomes most recent, and the longest most-recent part within the budget survives |
| ChunkCache.MaterializedCache.Evict | src/cache/materialized.rs:62-72 | evicting least stamps until the bytes fit leaves exactly that part |
| ChunkCache.MaterializedCache.Clear | src/cache/materialized.rs:96-99 | empties the list and the byte count |
| ChunkCache.MaterializedCache.UsedBytes | src/cache/materialized.rs:91-93 | the byte count is the exact total of the entries and within the budget |
| ChunkCache.MaterializedCache.Contains | src/cache/materialized.rs:76-78 | tells whether the chunk is listed |
| ChunkCache.FittingLongest | src/cache/materialized.rs:62-72 | the survivors are a most-recent part within the budget and every longer one is over it |
| ChunkCache.InsertRetained | src/cache/materialized.rs:48-73 | an entry within the budget is never its own victim |
| ChunkCache.ApplySound | src/cache/materialized.rs:38-99 | every operation keeps ids unique and the total within the budget |
| ChunkCache.HitIsLastInserted | src/cache/materialized.rs:38-99 | over any run of operations a hit returns the bytes last inserted under that id |
| Casefile.PrintCasefile | src/evidence/casefile.rs:48-64 | the written bytes have the specified layout, and names over 65535 bytes are refused |
| Casefile.ParseCasefile | src/evidence/casefile.rs:102-149 | for every buffer the cursor loop, its end-of-data sum wrapping at 64 bits, computes the specified parse, which error or panic first included |
| Casefile.ParsePrint | src/evidence/casefile.rs:48-149 | parsing a printed list of faithful entries returns the list |
| Casefile.PrintParse | src/evidence/casefile.rs:102-149 | any accepted buffer is exactly the print of what was returned |
| Casefile.EncodingUnique | src/evidence/casefile.rs:102-149 | two accepted buffers with the same entries are the same buffer |
| Casefile.PanicsExactly | src/evidence/casefile.rs:102-149 | the parser panics on exactly two families of buffers with the right magic and version: those of 5 to 8 bytes, and those in which the first of the announced entries that is not whole has its length field inside the buffer and data that would end at 2^64 or beyond |
| Casefile.FiveBytesPanic | src/evidence/casefile.rs:102-109 | the five-byte header alone is such a buffer |
| Casefile.LongestLengthPanics | src/evidence/casefile.rs:125-131 | 51 bytes with one nameless entry whose length field is all ones are such a buffer |

## Left out

- Store, segment files, epoch log, GC, fsck, FUSE, ublk, io_uring and the rANS coder itself: not part of this model.
- Descriptor wire format (`src/format/descriptor.rs`): encoding and decoding of descriptors to bytes is not modelled; descriptors are values.
- The dictionary, shared-dictionary and base-delta encoders (`encode_sequence_dict`, `encode_sequence_shared`, `src/rans/delta.rs`): their decoders are modelled, their parses would repeat the plain one with more copy sources.
- Cost tables, candidate selection and byte-split accounting: true but easy.
- Error texts: error variants and their numeric payloads are modelled, message strings are not; the errors of the chunk index and object store are arbitrary.
- Integer widths: `depth + 1` is a `u8` in the source and would wrap at `max_reference_depth` = 255; the model's depth does not wrap. The interpreter's cursor sums add at most 32-bit values to positions inside a buffer and cannot overflow. Where arithmetic wraps, the model follows the release build.
- Casefile.ParseCasefile: the source reserves room for the announced number of entries before reading any, so a 9-byte buffer can ask for some 340 GB; running out of memory is not modelled.
- Casefile.PrintCasefile: gives the bytes of a successful write; `write_casefile` has already written the header and earlier entries when it refuses a name, only the atomic writer leaves nothing.
- SubsetRank.UnrankCombSubset: on n = 0 the source computes `n - 1`; the model follows the wrapping release build, where the result is the empty subset.
- Palette and permutation indices outside their table stop the source with a panic; the model returns a failure there, and validated descriptors never get there.
- The library sort and binary search of the permutation encoder are modelled by their results (the ascending list of occurring bytes and a byte's index in it).
- BlockEncoder.Block64Sound: stated for descriptors whose 32-bit lengths are uncut and streams the 32-bit counters see, which `BlockEncoder.NothingCut` gives below 2^32 - 8 bytes.
- SequenceEncoder.SequenceSound: stated under the same condition, which `SequenceEncoder.NothingCut` gives below 2^31 bytes.
- DeepCandidate.DeepSound: stated under the same condition, which `DeepCandidate.NothingCut` gives below 2^31 bytes.
- ChainWalk.ChainContains: where some chain outruns the cap, the result is stated only as that of the walk.
- ChunkCache.MaterializedCache.Insert: the cached and the new bytes lie in memory together, so their sum is taken to fit 64 bits, where the saturating addition does not saturate; the 64-bit clock does not wrap.
- Liveness of `close`: `finish_op` notifies without holding the mutex, so a missed wake-up is possible; only safety is stated. A store clone may outlive its guard by the drop order of the two.
- Drain.Takes: models the condition-variable wait as releasing the lock and taking it again at any later time, which includes spurious wake-ups.
- Concurrency elsewhere, DSFB observers, CLI, metrics, benchmarks, bindings: not part of this model.

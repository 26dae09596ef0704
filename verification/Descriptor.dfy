/**
 The descriptor language: what a persisted descriptor may say
 (src/core/representation.rs), and the resource limits it is checked against
 (src/core/limits.rs).
 */
module Descriptor {
  import opened Bytes
  import opened Binomial
  import opened Checked
  import MultisetRank

  // ----- limits -----

  datatype Limits = Limits(
    maxChunkSize: u64,
    chunkClass: u64,
    maxDescriptorBytes: u64,
    maxReferenceDepth: u8,
    maxDecodeWork: u64,
    maxAllocBytes: u64,
    maxFanout: u32,
    maxModelBytes: u64,
    maxInlineBytes: u64,
    maxPeriod: u32,
    maxPalette: nat)

  const DefaultLimits := Limits(
    maxChunkSize := 256 * 1024,
    chunkClass := 64 * 1024,
    maxDescriptorBytes := 8192,
    maxReferenceDepth := 4,
    maxDecodeWork := 0x400_0000,
    maxAllocBytes := 1024 * 1024,
    maxFanout := 4096,
    maxModelBytes := 2048,
    maxInlineBytes := 4096,
    maxPeriod := 1024,
    maxPalette := 16)

  // ----- identifiers -----

  type ChunkId = s: bytes | |s| == 32 witness Fill(0, 32)
  type Seed = s: bytes | |s| == 16 witness Fill(0, 16)

  const ZeroId: ChunkId := Fill(0, 32)

  datatype RansCodec = Single | Interleaved2
  datatype UniverseId = UniformXofV1
  datatype TransformId = Identity

  /** The model and stream objects shared by every stream-coded family. */
  datatype StreamRefs = StreamRefs(model: ChunkId, encObj: ChunkId, scaleBits: u8, codec: RansCodec)

  // ----- residuals -----

  datatype Edit = Edit(pos: u32, val: u8)
  datatype RangeChange = RangeChange(start: u32, end: u32)

  datatype Residual =
    | XorSparse(len: u64, edits: seq<Edit>)
    | RangeReplace(len: u64, changes: seq<RangeChange>, literals: bytes)
    | RansCoded(len: u64, refs: StreamRefs, decodedLen: u64)
    | BaseSequence(len: u64, refs: StreamRefs, seqLen: u32, litLen: u32, offLen: u32, cmds: u32, litOut: u32)

  // ----- representations -----

  datatype Representation =
    | Zero(len: u64)
    | FillByte(value: u8, len: u64)
    | Inline(data: bytes)
    | Raw(obj: ChunkId, len: u64)
    | Rans(refs: StreamRefs, len: u64)
    | ExactRef(target: ChunkId, off: u64, len: u64)
    | BaseResidual(base: ChunkId, baseLen: u64, residual: Residual, len: u64)
    | Sparse(k: u32, rank: u128, literals: bytes, len: u64)
    | Palette(palette: bytes, counts: seq<u32>, rank: u128, len: u64)
    | Periodic(period: u32, pattern: bytes, count: u32, tail: bytes, len: u64)
    | EntropyRef(universe: UniverseId, seed: Seed, coordinate: u64, transform: TransformId,
                 residual: Residual, len: u64)
    | Permutation(rank: u128, alphabet: bytes, len: u64)
    | SequenceRans(refs: StreamRefs, seqLen: u32, litLen: u32, offLen: u32, cmds: u32, litOut: u32, len: u64)
    | SparseBlock64(refs: StreamRefs, pcLen: u32, rankLen: u32, litLen: u32, words: u32, nonzero: u32,
                    litOut: u32, len: u64)
    | SequenceDict(dictionary: ChunkId, dictionaryLen: u32, refs: StreamRefs, seqLen: u32, litLen: u32,
                   offLen: u32, srcLen: u32, cmds: u32, litOut: u32, len: u64)
    | SequenceSharedDict(dictionary: ChunkId, dictionaryLen: u32, shared: ChunkId, sharedLen: u32,
                         refs: StreamRefs, seqLen: u32, litLen: u32, offLen: u32, srcLen: u32,
                         cmds: u32, litOut: u32, len: u64)
    | SequenceDeep(refs: StreamRefs, seqLen: u32, litLen: u32, offLen: u32, lenLen: u32, cmds: u32,
                   litOut: u32, len: u64)

  /** The exact materialized length. */
  function Len(d: Representation): nat {
    if d.Inline? then |d.data| else d.len
  }

  // ----- sizes -----

  const IDS := 32 + 32 + 1 + 1

  function ResidualSize(r: Residual): nat {
    match r
    case XorSparse(_, edits) => 1 + 4 + 5 * |edits|
    case RangeReplace(_, changes, literals) => 1 + 4 + 8 * |changes| + |literals|
    case RansCoded(_, _, _) => 1 + IDS + 4
    case BaseSequence(_, _, _, _, _, _, _) => 1 + IDS + 5 * 4
  }

  function PayloadSize(d: Representation): nat {
    match d
    case Zero(_) => 0
    case FillByte(_, _) => 1
    case Inline(data) => |data|
    case Raw(_, _) => 32
    case Rans(_, _) => IDS
    case ExactRef(_, _, _) => 32 + 4
    case BaseResidual(_, _, residual, _) => 32 + 4 + ResidualSize(residual)
    case Sparse(_, _, literals, _) => 4 + 16 + |literals|
    case Palette(palette, counts, _, _) => 1 + |palette| + 4 * |counts| + 16
    case Periodic(period, _, _, tail, _) => 4 + period + 4 + 4 + |tail|
    case EntropyRef(_, _, _, _, residual, _) => 1 + 16 + 8 + 1 + ResidualSize(residual)
    case Permutation(_, alphabet, _) => 16 + |alphabet|
    case SequenceRans(_, _, _, _, _, _, _) => IDS + 5 * 4
    case SparseBlock64(_, _, _, _, _, _, _, _) => IDS + 6 * 4
    case SequenceDict(_, _, _, _, _, _, _, _, _, _) => 32 + 4 + IDS + 6 * 4
    case SequenceSharedDict(_, _, _, _, _, _, _, _, _, _, _, _) => 32 + 4 + 32 + 4 + IDS + 6 * 4
    case SequenceDeep(_, _, _, _, _, _, _, _) => IDS + 6 * 4
  }

  function EncodedSize(d: Representation): nat {
    5 + PayloadSize(d)
  }

  // ----- structural validation -----

  datatype ReprError =
    | ChunkTooLarge | ZeroObjectId | BadScaleBits | Overflow | BaseTooShort | ResidualLenMismatch
    | EditOutOfRange | EditsNotSorted | RangeOutOfRange | RangesOverlap | LiteralCountMismatch
    | FanoutTooLarge | SparseKTooLarge | SparseLiteralCount | SparseRankOutOfRange | CombOverflow
    | BadPalette | PaletteCountsMismatch | PaletteRankOutOfRange | BadPeriod | BadTail
    | PeriodicLenMismatch | InlineTooLarge | DescriptorTooLarge | PermutationSize
    | PermutationRankOutOfRange | BadPermutationAlphabet | SequenceStreamTooLarge
    | SequenceLitOutMismatch | SequenceNoCommands | SequenceCmdsMismatch | SparseBlockWords
    | SparseBlockLiteralCount | BadDictionary

  datatype Verdict = Valid | Invalid(error: ReprError) {
    /** The `?` of the source: the first failing check decides. */
    function Then(next: Verdict): Verdict {
      if Valid? then next else this
    }
  }

  function Check(ok: bool, error: ReprError): Verdict {
    if ok then Valid else Invalid(error)
  }

  const MAX_DICT: nat := 65536
  const U64_MAX: nat := 0xFFFF_FFFF_FFFF_FFFF

  function CheckLen(len: nat, l: Limits): Verdict {
    Check(len <= l.maxChunkSize, ChunkTooLarge)
  }

  function CheckRefs(refs: StreamRefs): Verdict {
    Check(refs.model != ZeroId && refs.encObj != ZeroId, ZeroObjectId)
    .Then(Check(1 <= refs.scaleBits <= 16, BadScaleBits))
  }

  function MaxStream(l: Limits): nat {
    if l.maxChunkSize + 64 > U64_MAX then U64_MAX else l.maxChunkSize + 64
  }

  function CheckStreams(lens: seq<u32>, l: Limits): Verdict {
    Check(forall i :: 0 <= i < |lens| ==> lens[i] <= MaxStream(l), SequenceStreamTooLarge)
  }

  function CheckCommands(cmds: nat, litOut: nat, len: nat): Verdict {
    Check(litOut <= len, SequenceLitOutMismatch)
    .Then(Check(cmds > 0 || len == 0, SequenceNoCommands))
    .Then(Check(cmds <= len, SequenceCmdsMismatch))
  }

  /** The edit loop: positions in range and strictly increasing. */
  function CheckEdits(edits: seq<Edit>, i: nat, len: nat): Verdict
    requires i <= |edits|
    decreases |edits| - i
  {
    if i == |edits| then Valid
    else if edits[i].pos >= len then Invalid(EditOutOfRange)
    else if i > 0 && edits[i].pos <= edits[i - 1].pos then Invalid(EditsNotSorted)
    else CheckEdits(edits, i + 1, len)
  }

  /** The range loop: nonempty, in range, separated; literals counted along the way. */
  function CheckChanges(changes: seq<RangeChange>, i: nat, len: nat, lits: nat, expected: nat): Verdict
    requires i <= |changes|
    decreases |changes| - i
  {
    if i == |changes| then Check(lits == expected, LiteralCountMismatch)
    else
      var c := changes[i];
      if c.start >= c.end || c.end > len then Invalid(RangeOutOfRange)
      else if i > 0 && c.start <= changes[i - 1].end then Invalid(RangesOverlap)
      else if expected + (c.end - c.start) > U64_MAX then Invalid(Overflow)
      else CheckChanges(changes, i + 1, len, lits, expected + (c.end - c.start))
  }

  function ValidateResidual(r: Residual, len: nat, l: Limits): Verdict {
    if r.len != len then Invalid(ResidualLenMismatch)
    else match r
      case XorSparse(_, edits) =>
        Check(|edits| <= l.maxFanout, FanoutTooLarge).Then(CheckEdits(edits, 0, len))
      case RangeReplace(_, changes, literals) =>
        Check(|changes| <= l.maxFanout, FanoutTooLarge)
        .Then(CheckChanges(changes, 0, len, |literals|, 0))
      case RansCoded(_, refs, decodedLen) =>
        CheckRefs(refs).Then(Check(decodedLen == len, ResidualLenMismatch))
      case BaseSequence(_, refs, seqLen, litLen, offLen, cmds, litOut) =>
        CheckRefs(refs).Then(CheckStreams([seqLen, litLen, offLen], l))
        .Then(CheckCommands(cmds, litOut, len))
  }

  /** Palette counts: summing to the length, none zero, and the rank within their multinomial. */
  function CheckCounts(counts: seq<u32>, rank: nat, len: nat): Verdict {
    Check(MultisetRank.Sum(counts) <= U64_MAX, Overflow)
    .Then(Check(MultisetRank.Sum(counts) == len, PaletteCountsMismatch))
    .Then(Check(0 !in counts, BadPalette))
    .Then(Check(MultisetRank.Multi(counts) < U128, CombOverflow))
    .Then(Check(rank < MultisetRank.Multi(counts), PaletteRankOutOfRange))
  }

  function CheckDictionary(len: nat, l: Limits): bool {
    0 < len <= MAX_DICT && len <= l.maxChunkSize
  }

  predicate StrictlyIncreasing(a: bytes) {
    forall i :: 0 <= i < |a| - 1 ==> a[i] < a[i + 1]
  }

  function ValidateFamily(d: Representation, l: Limits): Verdict {
    match d
    case Zero(len) => CheckLen(len, l)
    case FillByte(_, len) => CheckLen(len, l)
    case Inline(data) => Check(|data| <= l.maxInlineBytes, InlineTooLarge)
    case Raw(obj, len) => CheckLen(len, l).Then(Check(obj != ZeroId, ZeroObjectId))
    case Rans(refs, len) => CheckLen(len, l).Then(CheckRefs(refs))
    case ExactRef(target, off, len) =>
      CheckLen(len, l).Then(Check(target != ZeroId, ZeroObjectId))
      .Then(Check(off + len <= U64_MAX, Overflow))
    case BaseResidual(base, baseLen, residual, len) =>
      CheckLen(len, l).Then(Check(base != ZeroId, ZeroObjectId))
      .Then(Check(residual.BaseSequence? || baseLen >= len, BaseTooShort))
      .Then(ValidateResidual(residual, len, l))
    case Sparse(k, rank, literals, len) =>
      CheckLen(len, l).Then(Check(k <= len, SparseKTooLarge))
      .Then(Check(|literals| == k, SparseLiteralCount))
      .Then(Check(Binom(len, k) < U128, CombOverflow))
      .Then(Check(rank < Binom(len, k), SparseRankOutOfRange))
    case Palette(palette, counts, rank, len) =>
      CheckLen(len, l).Then(Check(0 < |palette| <= l.maxPalette && |counts| == |palette|, BadPalette))
      .Then(CheckCounts(counts, rank, len))
    case Periodic(period, pattern, count, tail, len) =>
      CheckLen(len, l).Then(Check(0 < period <= l.maxPeriod && |pattern| == period, BadPeriod))
      .Then(Check(|tail| < period, BadTail))
      .Then(Check(period * count + |tail| <= U64_MAX, Overflow))
      .Then(Check(period * count + |tail| == len, PeriodicLenMismatch))
    case EntropyRef(_, _, _, _, residual, len) =>
      CheckLen(len, l).Then(ValidateResidual(residual, len, l))
    case Permutation(rank, alphabet, len) =>
      CheckLen(len, l).Then(Check(0 < len <= 34, PermutationSize))
      .Then(Check(|alphabet| == len && StrictlyIncreasing(alphabet), BadPermutationAlphabet))
      .Then(Check(Factorial(len) < U128, CombOverflow))
      .Then(Check(rank < Factorial(len), PermutationRankOutOfRange))
    case SequenceRans(refs, seqLen, litLen, offLen, cmds, litOut, len) =>
      CheckLen(len, l).Then(CheckRefs(refs)).Then(CheckStreams([seqLen, litLen, offLen], l))
      .Then(CheckCommands(cmds, litOut, len))
    case SparseBlock64(refs, pcLen, rankLen, litLen, words, nonzero, litOut, len) =>
      CheckLen(len, l).Then(CheckRefs(refs)).Then(CheckStreams([pcLen, rankLen, litLen], l))
      .Then(Check(words * 8 >= len && nonzero <= words, SparseBlockWords))
      .Then(Check(litOut <= len, SequenceLitOutMismatch))
      .Then(Check(nonzero <= litOut, SparseBlockLiteralCount))
    case SequenceDict(dictionary, dictionaryLen, refs, seqLen, litLen, offLen, srcLen, cmds, litOut, len) =>
      CheckLen(len, l).Then(Check(dictionary != ZeroId, ZeroObjectId)).Then(CheckRefs(refs))
      .Then(Check(CheckDictionary(dictionaryLen, l), BadDictionary))
      .Then(CheckStreams([seqLen, litLen, offLen, srcLen], l))
      .Then(CheckCommands(cmds, litOut, len))
    case SequenceSharedDict(dictionary, dictionaryLen, shared, sharedLen, refs, seqLen, litLen, offLen,
                            srcLen, cmds, litOut, len) =>
      CheckLen(len, l).Then(Check(shared != ZeroId, ZeroObjectId)).Then(CheckRefs(refs))
      .Then(Check(CheckDictionary(sharedLen, l), BadDictionary))
      .Then(Check(if dictionary == ZeroId then dictionaryLen == 0 else CheckDictionary(dictionaryLen, l),
                  BadDictionary))
      .Then(CheckStreams([seqLen, litLen, offLen, srcLen], l))
      .Then(CheckCommands(cmds, litOut, len))
    case SequenceDeep(refs, seqLen, litLen, offLen, lenLen, cmds, litOut, len) =>
      CheckLen(len, l).Then(CheckRefs(refs)).Then(CheckStreams([seqLen, litLen, offLen, lenLen], l))
      .Then(CheckCommands(cmds, litOut, len))
  }

  /** `Representation::validate` (src/core/representation.rs:719). */
  function Validate(d: Representation, l: Limits): Verdict {
    Check(EncodedSize(d) <= l.maxDescriptorBytes, DescriptorTooLarge).Then(ValidateFamily(d, l))
  }
}

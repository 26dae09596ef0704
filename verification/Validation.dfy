/**
 What structural validation guarantees (src/core/representation.rs:719-1280):
 the loops of the validator accept exactly the well-formed edit and range
 lists, and a validated descriptor of a self-contained family always
 materializes.
 */
module Validation {
  import opened Nonlinear
  import opened Collections
  import opened Bytes
  import opened Binomial
  import opened Checked
  import opened Descriptor
  import opened Context
  import opened Materializer
  import opened WorkBound
  import opened Interpreter
  import SubsetRank
  import MultisetRank
  import PermutationRank

  // ----- the residual loops, declaratively -----

  predicate SortedEdits(edits: seq<Edit>, len: nat) {
    && (forall i :: 0 <= i < |edits| ==> edits[i].pos < len)
    && (forall i, j :: 0 <= i < j < |edits| ==> edits[i].pos < edits[j].pos)
  }

  /** In range, nonempty and never touching. */
  predicate SeparateChanges(changes: seq<RangeChange>, len: nat) {
    && (forall i :: 0 <= i < |changes| ==> changes[i].start < changes[i].end <= len)
    && (forall i, j :: 0 <= i < j < |changes| ==> changes[i].end < changes[j].start)
  }

  function Replaced(changes: seq<RangeChange>): int {
    if changes == [] then 0
    else changes[0].end - changes[0].start + Replaced(changes[1..])
  }

  lemma {:induction false} EditsFrom(edits: seq<Edit>, i: nat, len: nat)
    requires i <= |edits|
    ensures CheckEdits(edits, i, len).Valid? <==>
            (forall k :: i <= k < |edits| ==> edits[k].pos < len)
            && (forall k :: i <= k < |edits| && k > 0 ==> edits[k - 1].pos < edits[k].pos)
    decreases |edits| - i
  {
    if i < |edits| { EditsFrom(edits, i + 1, len); }
  }

  lemma {:induction false} Climbs(edits: seq<Edit>, i: nat, j: nat)
    requires i < j < |edits|
    requires forall k :: 0 < k < |edits| ==> edits[k - 1].pos < edits[k].pos
    ensures edits[i].pos < edits[j].pos
    decreases j - i
  {
    if i + 1 < j { Climbs(edits, i, j - 1); }
  }

  /** The edit loop accepts exactly the sorted, in-range edit lists. */
  lemma EditsExact(edits: seq<Edit>, len: nat)
    ensures CheckEdits(edits, 0, len).Valid? <==> SortedEdits(edits, len)
  {
    EditsFrom(edits, 0, len);
    if forall k :: 0 < k < |edits| ==> edits[k - 1].pos < edits[k].pos {
      forall i, j | 0 <= i < j < |edits| ensures edits[i].pos < edits[j].pos {
        Climbs(edits, i, j);
      }
    }
  }

  lemma {:induction false} ChangesFrom(changes: seq<RangeChange>, i: nat, len: nat, lits: nat, expected: nat)
    requires i <= |changes| && len <= U64_MAX
    requires if i == 0 then expected == 0 else expected <= changes[i - 1].end <= len
    ensures CheckChanges(changes, i, len, lits, expected).Valid? <==>
            (forall k :: i <= k < |changes| ==> changes[k].start < changes[k].end <= len)
            && (forall k :: i <= k < |changes| && k > 0 ==> changes[k - 1].end < changes[k].start)
            && lits == expected + Replaced(changes[i..])
    decreases |changes| - i
  {
    if i < |changes| {
      var c := changes[i];
      assert changes[i..][1..] == changes[i + 1..];
      if c.start < c.end <= len && (i > 0 ==> changes[i - 1].end < c.start) {
        ChangesFrom(changes, i + 1, len, lits, expected + (c.end - c.start));
      }
    }
  }

  lemma {:induction false} RangesClimb(changes: seq<RangeChange>, i: nat, j: nat)
    requires i < j < |changes|
    requires forall k :: 0 <= k < |changes| ==> changes[k].start < changes[k].end
    requires forall k :: 0 < k < |changes| ==> changes[k - 1].end < changes[k].start
    ensures changes[i].end < changes[j].start
    decreases j - i
  {
    if i + 1 < j { RangesClimb(changes, i, j - 1); }
  }

  /** The range loop accepts exactly the separated, in-range lists with one literal per replaced byte. */
  lemma ChangesExact(changes: seq<RangeChange>, len: nat, lits: nat)
    requires len <= U64_MAX
    ensures CheckChanges(changes, 0, len, lits, 0).Valid? <==>
            SeparateChanges(changes, len) && lits == Replaced(changes)
  {
    ChangesFrom(changes, 0, len, lits, 0);
    assert changes[0..] == changes;
    if (forall k :: 0 <= k < |changes| ==> changes[k].start < changes[k].end)
       && (forall k :: 0 < k < |changes| ==> changes[k - 1].end < changes[k].start) {
      forall i, j | 0 <= i < j < |changes| ensures changes[i].end < changes[j].start {
        RangesClimb(changes, i, j);
      }
    }
  }

  // ----- the validator as the source runs it -----

  method CheckEditList(edits: seq<Edit>, len: nat) returns (v: Verdict)
    ensures v == CheckEdits(edits, 0, len)
  {
    var prev: int := -1;
    for i := 0 to |edits|
      invariant prev == if i == 0 then -1 else edits[i - 1].pos
      invariant CheckEdits(edits, 0, len) == CheckEdits(edits, i, len)
    {
      if edits[i].pos >= len {
        return Invalid(EditOutOfRange);
      }
      if edits[i].pos <= prev {
        return Invalid(EditsNotSorted);
      }
      prev := edits[i].pos;
    }
    return Valid;
  }

  method CheckChangeList(changes: seq<RangeChange>, len: nat, lits: nat) returns (v: Verdict)
    ensures v == CheckChanges(changes, 0, len, lits, 0)
  {
    var expected: nat := 0;
    for i := 0 to |changes|
      invariant CheckChanges(changes, 0, len, lits, 0) == CheckChanges(changes, i, len, lits, expected)
    {
      var c := changes[i];
      if c.start >= c.end || c.end > len {
        return Invalid(RangeOutOfRange);
      }
      if i > 0 && c.start <= changes[i - 1].end {
        return Invalid(RangesOverlap);
      }
      if expected + (c.end - c.start) > U64_MAX {
        return Invalid(Overflow);
      }
      expected := expected + (c.end - c.start);
    }
    return if lits != expected then Invalid(LiteralCountMismatch) else Valid;
  }

  method CheckStreamRefs(refs: StreamRefs) returns (v: Verdict)
    ensures v == CheckRefs(refs)
  {
    if refs.model == ZeroId || refs.encObj == ZeroId {
      return Invalid(ZeroObjectId);
    }
    return if 1 <= refs.scaleBits <= 16 then Valid else Invalid(BadScaleBits);
  }

  method CheckStreamLens(lens: seq<u32>, l: Limits) returns (v: Verdict)
    ensures v == CheckStreams(lens, l)
  {
    var most := MaxStream(l);
    for i := 0 to |lens|
      invariant forall k :: 0 <= k < i ==> lens[k] <= most
    {
      if lens[i] > most {
        return Invalid(SequenceStreamTooLarge);
      }
    }
    return Valid;
  }

  method CheckCommandCounts(cmds: nat, litOut: nat, len: nat) returns (v: Verdict)
    ensures v == CheckCommands(cmds, litOut, len)
  {
    if litOut > len {
      return Invalid(SequenceLitOutMismatch);
    }
    if cmds == 0 && len > 0 {
      return Invalid(SequenceNoCommands);
    }
    return if cmds > len then Invalid(SequenceCmdsMismatch) else Valid;
  }

  /** The checks shared by every family behind command streams. */
  method CheckSequence(refs: StreamRefs, lens: seq<u32>, cmds: nat, litOut: nat, len: nat, l: Limits)
    returns (v: Verdict)
    ensures v == CheckRefs(refs).Then(CheckStreams(lens, l)).Then(CheckCommands(cmds, litOut, len))
  {
    hide CheckRefs, CheckStreams, CheckCommands;
    v := CheckStreamRefs(refs);
    if v.Invalid? {
      return;
    }
    v := CheckStreamLens(lens, l);
    if v.Invalid? {
      return;
    }
    v := CheckCommandCounts(cmds, litOut, len);
  }

  /** `Residual::validate` (src/core/representation.rs:1174). */
  method CheckResidual(r: Residual, len: nat, l: Limits) returns (v: Verdict)
    ensures v == ValidateResidual(r, len, l)
  {
    hide CheckEdits, CheckChanges, CheckRefs, CheckStreams, CheckCommands;
    if r.len != len {
      return Invalid(ResidualLenMismatch);
    }
    match r
    case XorSparse(_, edits) =>
      if |edits| > l.maxFanout {
        return Invalid(FanoutTooLarge);
      }
      v := CheckEditList(edits, len);
    case RangeReplace(_, changes, literals) =>
      if |changes| > l.maxFanout {
        return Invalid(FanoutTooLarge);
      }
      v := CheckChangeList(changes, len, |literals|);
    case RansCoded(_, refs, decodedLen) =>
      v := CheckStreamRefs(refs);
      if v.Valid? && decodedLen != len {
        return Invalid(ResidualLenMismatch);
      }
    case BaseSequence(_, refs, seqLen, litLen, offLen, cmds, litOut) =>
      v := CheckSequence(refs, [seqLen, litLen, offLen], cmds, litOut, len, l);
  }

  /** Adjacent pairs, as the source compares them. */
  method CheckIncreasing(a: bytes) returns (ok: bool)
    ensures ok <==> StrictlyIncreasing(a)
  {
    for i := 0 to |a|
      invariant forall k :: 0 <= k < i - 1 ==> a[k] < a[k + 1]
    {
      if i > 0 && a[i - 1] >= a[i] {
        return false;
      }
    }
    return true;
  }

  method CheckPaletteCounts(counts: seq<u32>, rank: u128, len: nat) returns (v: Verdict)
    requires len <= U64_MAX
    ensures v == CheckCounts(counts, rank, len)
  {
    hide MultisetRank.Sum, MultisetRank.Multi;
    var total := MultisetRank.CheckedSum(counts);
    if total.None? {
      return Invalid(Overflow);
    }
    if total.value != len {
      return Invalid(PaletteCountsMismatch);
    }
    if 0 in counts {
      return Invalid(BadPalette);
    }
    var states := MultisetRank.Multinomial(len, counts);
    if states.None? {
      return Invalid(CombOverflow);
    }
    return if rank < states.value then Valid else Invalid(PaletteRankOutOfRange);
  }

  /** The families whose check computes a state-space size, with the checked arithmetic of the source. */
  method CheckConfiguration(d: Representation, l: Limits) returns (v: Verdict)
    requires d.Sparse? || d.Palette? || d.Permutation?
    ensures v == ValidateFamily(d, l)
  {
    hide MultisetRank.Sum, MultisetRank.Multi, Binom, Factorial;
    if d.len > l.maxChunkSize {
      return Invalid(ChunkTooLarge);
    }
    match d
    case Sparse(k, rank, literals, len) =>
      if k > len {
        return Invalid(SparseKTooLarge);
      }
      if |literals| != k {
        return Invalid(SparseLiteralCount);
      }
      var total := Comb(len, k);
      if total.None? {
        return Invalid(CombOverflow);
      }
      return if rank < total.value then Valid else Invalid(SparseRankOutOfRange);
    case Palette(palette, counts, rank, len) =>
      if palette == [] || |palette| > l.maxPalette || |counts| != |palette| {
        return Invalid(BadPalette);
      }
      v := CheckPaletteCounts(counts, rank, len);
    case Permutation(rank, alphabet, len) =>
      if len == 0 || len > 34 {
        return Invalid(PermutationSize);
      }
      if |alphabet| != len {
        return Invalid(BadPermutationAlphabet);
      }
      var rising := CheckIncreasing(alphabet);
      if !rising {
        return Invalid(BadPermutationAlphabet);
      }
      var total := FactorialChecked(len);
      if total.None? {
        return Invalid(CombOverflow);
      }
      return if rank < total.value then Valid else Invalid(PermutationRankOutOfRange);
  }

  /** The families that name a stored chunk or object, or carry their bytes. */
  method CheckReference(d: Representation, l: Limits) returns (v: Verdict)
    requires d.Zero? || d.FillByte? || d.Inline? || d.Raw? || d.Rans? || d.ExactRef? || d.BaseResidual? || d.EntropyRef?
    ensures v == ValidateFamily(d, l)
  {
    hide ValidateResidual, CheckRefs;
    if d.Inline? {
      return if |d.data| > l.maxInlineBytes then Invalid(InlineTooLarge) else Valid;
    }
    if d.len > l.maxChunkSize {
      return Invalid(ChunkTooLarge);
    }
    v := Valid;
    match d
    case Zero(_) =>
    case FillByte(_, _) =>
    case Raw(obj, _) =>
      if obj == ZeroId {
        return Invalid(ZeroObjectId);
      }
    case Rans(refs, _) =>
      v := CheckStreamRefs(refs);
    case ExactRef(target, off, len) =>
      if target == ZeroId {
        return Invalid(ZeroObjectId);
      }
      if off + len > U64_MAX {
        return Invalid(Overflow);
      }
    case BaseResidual(base, baseLen, residual, len) =>
      if base == ZeroId {
        return Invalid(ZeroObjectId);
      }
      if !residual.BaseSequence? && baseLen < len {
        return Invalid(BaseTooShort);
      }
      v := CheckResidual(residual, len, l);
    case EntropyRef(_, _, _, _, residual, len) =>
      v := CheckResidual(residual, len, l);
  }

  method CheckPeriodic(d: Representation, l: Limits) returns (v: Verdict)
    requires d.Periodic?
    ensures v == ValidateFamily(d, l)
  {
    if d.len > l.maxChunkSize {
      return Invalid(ChunkTooLarge);
    }
    if d.period == 0 || d.period > l.maxPeriod || |d.pattern| != d.period {
      return Invalid(BadPeriod);
    }
    if |d.tail| >= d.period {
      return Invalid(BadTail);
    }
    var expected := d.period * d.count + |d.tail|;
    if expected > U64_MAX {
      return Invalid(Overflow);
    }
    return if expected != d.len then Invalid(PeriodicLenMismatch) else Valid;
  }

  /** The families behind streams. */
  method CheckStreamFamily(d: Representation, l: Limits) returns (v: Verdict)
    requires OverStreams(d)
    ensures v == ValidateFamily(d, l)
  {
    hide CheckRefs, CheckStreams, CheckCommands;
    if d.len > l.maxChunkSize {
      return Invalid(ChunkTooLarge);
    }
    match d
    case SequenceRans(refs, seqLen, litLen, offLen, cmds, litOut, len) =>
      v := CheckSequence(refs, [seqLen, litLen, offLen], cmds, litOut, len, l);
    case SequenceDeep(refs, seqLen, litLen, offLen, lenLen, cmds, litOut, len) =>
      v := CheckSequence(refs, [seqLen, litLen, offLen, lenLen], cmds, litOut, len, l);
    case SparseBlock64(refs, pcLen, rankLen, litLen, words, nonzero, litOut, len) =>
      v := CheckStreamRefs(refs);
      if v.Valid? {
        v := CheckStreamLens([pcLen, rankLen, litLen], l);
      }
      if v.Invalid? {
        return;
      }
      if words * 8 < len || nonzero > words {
        return Invalid(SparseBlockWords);
      }
      if litOut > len {
        return Invalid(SequenceLitOutMismatch);
      }
      return if nonzero > litOut then Invalid(SparseBlockLiteralCount) else Valid;
    case _ =>
      v := CheckDictionaries(d, l);
  }

  method CheckDictionaries(d: Representation, l: Limits) returns (v: Verdict)
    requires d.SequenceDict? || d.SequenceSharedDict?
    requires d.len <= l.maxChunkSize
    ensures v == ValidateFamily(d, l)
  {
    hide CheckRefs, CheckStreams, CheckCommands;
    if (if d.SequenceDict? then d.dictionary else d.shared) == ZeroId {
      return Invalid(ZeroObjectId);
    }
    v := CheckStreamRefs(d.refs);
    if v.Invalid? {
      return;
    }
    if d.SequenceDict? {
      if d.dictionaryLen == 0 || d.dictionaryLen > MAX_DICT || d.dictionaryLen > l.maxChunkSize {
        return Invalid(BadDictionary);
      }
    } else {
      if d.sharedLen == 0 || d.sharedLen > MAX_DICT || d.sharedLen > l.maxChunkSize {
        return Invalid(BadDictionary);
      }
      var absent := d.dictionary == ZeroId && d.dictionaryLen == 0;
      var present := d.dictionary != ZeroId && d.dictionaryLen > 0 && d.dictionaryLen <= MAX_DICT
                     && d.dictionaryLen <= l.maxChunkSize;
      if !absent && !present {
        return Invalid(BadDictionary);
      }
    }
    v := CheckStreamLens([d.seqLen, d.litLen, d.offLen, d.srcLen], l);
    if v.Invalid? {
      return;
    }
    v := CheckCommandCounts(d.cmds, d.litOut, d.len);
  }

  /** `Representation::validate` (src/core/representation.rs:719). */
  method CheckDescriptor(d: Representation, l: Limits) returns (v: Verdict)
    ensures v == Validate(d, l)
    ensures v.Valid? <==> WellFormed(d, l)
  {
    hide ValidateFamily, WellFormed;
    ValidExactly(d, l);
    if EncodedSize(d) > l.maxDescriptorBytes {
      return Invalid(DescriptorTooLarge);
    }
    if d.Sparse? || d.Palette? || d.Permutation? {
      v := CheckConfiguration(d, l);
    } else if d.Periodic? {
      v := CheckPeriodic(d, l);
    } else if OverStreams(d) {
      v := CheckStreamFamily(d, l);
    } else {
      v := CheckReference(d, l);
    }
  }

  // ----- what acceptance means -----

  predicate StreamRefsOk(refs: StreamRefs) {
    refs.model != ZeroId && refs.encObj != ZeroId && 1 <= refs.scaleBits <= 16
  }

  /** Streams no longer than a chunk and a margin; at least one command, at most one per byte. */
  predicate SequenceOk(refs: StreamRefs, lens: seq<u32>, cmds: nat, litOut: nat, len: nat, l: Limits) {
    && StreamRefsOk(refs)
    && (forall i :: 0 <= i < |lens| ==> lens[i] <= MaxStream(l))
    && litOut <= len && cmds <= len && (cmds == 0 ==> len == 0)
  }

  predicate ResidualOk(r: Residual, len: nat, l: Limits) {
    && r.len == len
    && match r
       case XorSparse(_, edits) => |edits| <= l.maxFanout && SortedEdits(edits, len)
       case RangeReplace(_, changes, literals) =>
         |changes| <= l.maxFanout && SeparateChanges(changes, len) && |literals| == Replaced(changes)
       case RansCoded(_, refs, decodedLen) => StreamRefsOk(refs) && decodedLen == len
       case BaseSequence(_, refs, seqLen, litLen, offLen, cmds, litOut) =>
         SequenceOk(refs, [seqLen, litLen, offLen], cmds, litOut, len, l)
  }

  predicate DictionaryOk(id: ChunkId, len: nat, l: Limits) {
    id != ZeroId && 0 < len <= MAX_DICT && len <= l.maxChunkSize
  }

  /** A descriptor that fits its cap and whose fields are consistent. */
  predicate WellFormed(d: Representation, l: Limits) {
    && EncodedSize(d) <= l.maxDescriptorBytes
    && (!d.Inline? ==> Len(d) <= l.maxChunkSize)
    && match d
       case Zero(_) => true
       case FillByte(_, _) => true
       case Inline(data) => |data| <= l.maxInlineBytes
       case Raw(obj, _) => obj != ZeroId
       case Rans(refs, _) => StreamRefsOk(refs)
       case ExactRef(target, off, len) => target != ZeroId && off + len <= U64_MAX
       case BaseResidual(base, baseLen, residual, len) =>
         base != ZeroId && (residual.BaseSequence? || len <= baseLen) && ResidualOk(residual, len, l)
       case Sparse(k, rank, literals, len) => |literals| == k <= len && rank < Binom(len, k) < U128
       case Palette(palette, counts, rank, len) =>
         && 0 < |palette| == |counts| <= l.maxPalette && 0 !in counts
         && MultisetRank.Sum(counts) == len && rank < MultisetRank.Multi(counts) < U128
       case Periodic(period, pattern, count, tail, len) =>
         |tail| < period == |pattern| <= l.maxPeriod && period * count + |tail| == len
       case EntropyRef(_, _, _, _, residual, len) => ResidualOk(residual, len, l)
       case Permutation(rank, alphabet, len) =>
         0 < len == |alphabet| <= 34 && StrictlyIncreasing(alphabet) && rank < Factorial(len)
       case SequenceRans(refs, seqLen, litLen, offLen, cmds, litOut, len) =>
         SequenceOk(refs, [seqLen, litLen, offLen], cmds, litOut, len, l)
       case SparseBlock64(refs, pcLen, rankLen, litLen, words, nonzero, litOut, len) =>
         && StreamRefsOk(refs) && pcLen <= MaxStream(l) && rankLen <= MaxStream(l) && litLen <= MaxStream(l)
         && len <= words * 8 && nonzero <= words && nonzero <= litOut <= len
       case SequenceDict(dictionary, dictionaryLen, refs, seqLen, litLen, offLen, srcLen, cmds, litOut, len) =>
         && DictionaryOk(dictionary, dictionaryLen, l)
         && SequenceOk(refs, [seqLen, litLen, offLen, srcLen], cmds, litOut, len, l)
       case SequenceSharedDict(dictionary, dictionaryLen, shared, sharedLen, refs, seqLen, litLen, offLen,
                               srcLen, cmds, litOut, len) =>
         && DictionaryOk(shared, sharedLen, l)
         && (DictionaryOk(dictionary, dictionaryLen, l) || (dictionary == ZeroId && dictionaryLen == 0))
         && SequenceOk(refs, [seqLen, litLen, offLen, srcLen], cmds, litOut, len, l)
       case SequenceDeep(refs, seqLen, litLen, offLen, lenLen, cmds, litOut, len) =>
         SequenceOk(refs, [seqLen, litLen, offLen, lenLen], cmds, litOut, len, l)
  }

  lemma ResidualExactly(r: Residual, len: nat, l: Limits)
    ensures ValidateResidual(r, len, l).Valid? <==> ResidualOk(r, len, l)
  {
    hide CheckEdits, CheckChanges, SortedEdits, SeparateChanges;
    match r
    case XorSparse(_, edits) => EditsExact(edits, len);
    case RangeReplace(_, changes, literals) =>
      if r.len == len { ChangesExact(changes, len, |literals|); }
    case _ =>
  }

  lemma RefsExactly(refs: StreamRefs)
    ensures CheckRefs(refs).Valid? <==> StreamRefsOk(refs)
  {
  }

  lemma SequenceExactly(refs: StreamRefs, lens: seq<u32>, cmds: nat, litOut: nat, len: nat, l: Limits)
    ensures CheckRefs(refs).Valid? && CheckStreams(lens, l).Valid? && CheckCommands(cmds, litOut, len).Valid?
            <==> SequenceOk(refs, lens, cmds, litOut, len, l)
  {
  }

  lemma ThreeStreams(a: u32, b: u32, c: u32, l: Limits)
    ensures CheckStreams([a, b, c], l).Valid? <==> a <= MaxStream(l) && b <= MaxStream(l) && c <= MaxStream(l)
  {
    var q := [a, b, c];
    assert q[0] == a && q[1] == b && q[2] == c;
  }

  predicate OverStreams(d: Representation) {
    d.SequenceRans? || d.SparseBlock64? || d.SequenceDict? || d.SequenceSharedDict? || d.SequenceDeep?
  }

  lemma StreamFamiliesExactly(d: Representation, l: Limits)
    requires OverStreams(d)
    ensures Validate(d, l).Valid? <==> WellFormed(d, l)
  {
    hide EncodedSize, CheckRefs, StreamRefsOk, CheckStreams, CheckCommands, SequenceOk;
    match d
    case SequenceRans(refs, a, b, c, cmds, litOut, len) => SequenceExactly(refs, [a, b, c], cmds, litOut, len, l);
    case SequenceDeep(refs, a, b, c, e, cmds, litOut, len) => SequenceExactly(refs, [a, b, c, e], cmds, litOut, len, l);
    case SequenceDict(_, _, refs, a, b, c, e, cmds, litOut, len) =>
      SequenceExactly(refs, [a, b, c, e], cmds, litOut, len, l);
    case SequenceSharedDict(_, _, _, _, refs, a, b, c, e, cmds, litOut, len) =>
      SequenceExactly(refs, [a, b, c, e], cmds, litOut, len, l);
    case SparseBlock64(refs, a, b, c, _, _, _, _) =>
      RefsExactly(refs);
      ThreeStreams(a, b, c, l);
  }

  lemma OtherFamiliesExactly(d: Representation, l: Limits)
    requires !OverStreams(d)
    ensures Validate(d, l).Valid? <==> WellFormed(d, l)
  {
    hide ValidateResidual, ResidualOk, EncodedSize, Binom, Factorial, MultisetRank.Sum, MultisetRank.Multi,
         CheckRefs, StreamRefsOk, StrictlyIncreasing;
    if d.Rans? { RefsExactly(d.refs); }
    if d.BaseResidual? || d.EntropyRef? { ResidualExactly(d.residual, d.len, l); }
    if d.Permutation? { FactorialCap(d.len); }
  }

  /** Validation accepts exactly the well-formed descriptors. */
  lemma ValidExactly(d: Representation, l: Limits)
    ensures Validate(d, l).Valid? <==> WellFormed(d, l)
  {
    hide Validate, WellFormed;
    if OverStreams(d) { StreamFamiliesExactly(d, l); } else { OtherFamiliesExactly(d, l); }
  }

  // ----- validation suffices -----

  /** `out` after scattering `literals` over the ascending positions `base + p`. */
  ghost predicate Scattered(r: bytes, out: bytes, base: nat, p: seq<nat>, literals: bytes)
    requires |p| == |literals|
  {
    && |r| == |out|
    && (forall i :: 0 <= i < |p| ==> base + p[i] < |out| && r[base + p[i]] == literals[i])
    && (forall x :: 0 <= x < |out| && !Hit(base, p, x) ==> r[x] == out[x])
  }

  ghost predicate Hit(base: nat, p: seq<nat>, x: int) {
    exists i :: 0 <= i < |p| && base + p[i] == x
  }

  lemma HitStep(base: nat, p: seq<nat>, x: int)
    requires p != [] && Climbing(p)
    ensures Hit(base, p, x) <==> base + p[0] == x || Hit(base, p[1..], x)
    ensures !Hit(base, p[1..], base + p[0])
  {
    if i :| 0 <= i < |p| && base + p[i] == x { assert i > 0 ==> base + p[1..][i - 1] == x; }
    if i :| 0 <= i < |p[1..]| && base + p[1..][i] == x { assert base + p[i + 1] == x; }
  }

  lemma ScatterStep(r: bytes, out: bytes, base: nat, p: seq<nat>, literals: bytes)
    requires |p| == |literals| && p != [] && Climbing(p) && base + p[0] < |out|
    requires Scattered(r, out[base + p[0] := literals[0]], base, p[1..], literals[1..])
    ensures Scattered(r, out, base, p, literals)
  {
    hide Hit;
    HitStep(base, p, base + p[0]);
    forall i | 0 <= i < |p| ensures base + p[i] < |out| && r[base + p[i]] == literals[i] {
      if i > 0 { assert r[base + p[1..][i - 1]] == literals[1..][i - 1]; }
    }
    forall x | 0 <= x < |out| && !Hit(base, p, x) ensures r[x] == out[x] {
      HitStep(base, p, x);
    }
  }

  /** In-range ascending positions are all placed, and nothing else is touched. */
  lemma {:induction false} PlaceScatters(out: bytes, base: nat, p: seq<nat>, literals: bytes)
    requires |p| == |literals| && Climbing(p)
    requires forall i :: 0 <= i < |p| ==> base + p[i] < |out|
    ensures Place(out, base, p, literals).Some?
    ensures Scattered(Place(out, base, p, literals).value, out, base, p, literals)
    decreases |p|
  {
    hide Hit;
    if p != [] {
      var mid := out[base + p[0] := literals[0]];
      assert Climbing(p[1..]);
      PlaceScatters(mid, base, p[1..], literals[1..]);
      ScatterStep(Place(mid, base, p[1..], literals[1..]).value, out, base, p, literals);
    }
  }

  /** In-range positions are always placed. */
  lemma {:induction false} PlaceFits(out: bytes, base: nat, p: seq<nat>, literals: bytes)
    requires |p| == |literals| && forall i :: 0 <= i < |p| ==> base + p[i] < |out|
    ensures Place(out, base, p, literals).Some?
    decreases |p|
  {
    if p != [] { PlaceFits(out[base + p[0] := literals[0]], base, p[1..], literals[1..]); }
  }

  /** Also past `2^32` bytes, where positions lose their high bits (src/entropy/rank.rs:294). */
  lemma SparseDecodes(k: u32, rank: u128, literals: bytes, len: nat)
    requires k <= len && |literals| == k && rank < Binom(len, k) < U128
    ensures SparseBytes(k, rank, literals, len).Good?
  {
    hide Binom, SubsetRank.Unrank, SubsetRank.UnrankSubset, Place;
    SubsetRank.UnrankCast(rank, len, k);
    SubsetRank.RankOfUnrank(rank, k, len);
    PlaceFits(Fill(0, len), 0, SubsetRank.Narrow(SubsetRank.Unrank(rank, k, len)), literals);
  }

  lemma SparseScatters(k: u32, rank: u128, literals: bytes, len: nat, p: seq<nat>)
    requires k <= len <= U32 && |literals| == k && rank < Binom(len, k) < U128
    requires p == SubsetRank.Unrank(rank, k, len)
    ensures |p| == k && Climbing(p) && SparseBytes(k, rank, literals, len).Good?
    ensures Scattered(SparseBytes(k, rank, literals, len).data, Fill(0, len), 0, p, literals)
  {
    hide Binom, SubsetRank.Unrank, SubsetRank.UnrankSubset, Place, Scattered;
    SubsetRank.RankRoundTrip(rank, len, k);
    PlaceScatters(Fill(0, len), 0, p, literals);
  }

  lemma PaletteDecodes(palette: bytes, counts: seq<u32>, rank: u128, len: nat)
    requires |counts| == |palette| && MultisetRank.Sum(counts) == len <= U64_MAX
    requires rank < MultisetRank.Multi(counts) < U128
    ensures TableBytes(palette, MultisetRank.UnrankSequence(rank, len, counts), len).Good?
  {
    hide MultisetRank.Sum, MultisetRank.Multi, MultisetRank.Arranges, MultisetRank.Greedy;
    MultisetRank.IndexRoundTrip(rank, len, counts);
    MultisetRank.ArrangesCounts(MultisetRank.Greedy(rank, len, counts), counts);
  }

  lemma PermutationDecodes(alphabet: bytes, rank: u128, len: nat)
    requires |alphabet| == len <= 34 && rank < Factorial(len)
    ensures TableBytes(alphabet, PermutationRank.UnrankPermutationOf(rank, len), len).Good?
  {
    hide Factorial;
    PermutationRank.LehmerRoundTrip(rank, len);
  }

  /** `count` copies of the pattern. */
  function Copied(pattern: bytes, count: nat): (r: bytes)
    ensures |r| == |pattern| * count
  {
    if count == 0 then []
    else
      MulAdd(|pattern|, count - 1, 1);
      pattern + Copied(pattern, count - 1)
  }

  lemma {:induction false} RepeatDecodes(pattern: bytes, count: nat, tail: bytes, n: nat, out: bytes, cost: nat)
    requires |out| + |pattern| * count + |tail| == n
    ensures Repeat(pattern, count, tail, n, out, cost).Good?
    ensures Repeat(pattern, count, tail, n, out, cost).data == out + Copied(pattern, count) + tail
    decreases count
  {
    if count > 0 {
      MulAdd(|pattern|, count - 1, 1);
      RepeatDecodes(pattern, count - 1, tail, n, out + pattern, cost + |pattern| / 8 + 1);
      assert (out + pattern) + Copied(pattern, count - 1) == out + Copied(pattern, count);
    } else {
      assert out + Copied(pattern, count) == out;
    }
  }

  /** The families whose bytes are determined by the descriptor alone. */
  predicate SelfContained(d: Representation) {
    d.Zero? || d.FillByte? || d.Inline? || d.Sparse? || d.Palette? || d.Periodic? || d.Permutation?
  }

  /** Limits under which validation leaves the decoder enough room; the default limits are such. */
  predicate Roomy(l: Limits) {
    && l.maxInlineBytes <= l.maxChunkSize <= l.maxAllocBytes
    && NodeBound(l) <= l.maxDecodeWork
  }

  lemma FamilyDecodes(d: Representation, env: Env, l: Limits)
    requires SelfContained(d) && ValidateFamily(d, l).Valid?
    ensures Finish(d, [], env, l).Good?
  {
    hide SparseBytes, TableBytes, Repeat, Binom, Factorial, MultisetRank.Sum, MultisetRank.Multi,
         MultisetRank.UnrankSequence, PermutationRank.UnrankPermutationOf;
    match d
    case Sparse(k, rank, literals, len) => SparseDecodes(k, rank, literals, len);
    case Palette(palette, counts, rank, len) => PaletteDecodes(palette, counts, rank, len);
    case Periodic(_, pattern, count, tail, len) => RepeatDecodes(pattern, count, tail, len, [], 0);
    case Permutation(rank, alphabet, len) => PermutationDecodes(alphabet, rank, len);
    case _ =>
  }

  /** A descriptor without references reads as its own finishing step. */
  lemma LeafReads(d: Representation, ctx: Context, l: Limits, data: bytes)
    requires Refs(d) == [] && Len(d) <= l.maxChunkSize <= l.maxAllocBytes && NodeBound(l) <= l.maxDecodeWork
    requires Finish(d, [], ctx.env, l).Good? && Finish(d, [], ctx.env, l).data == data
    requires Finish(d, [], ctx.env, l).cost <= 2 * Len(d)
    ensures Read(d, ctx, l) == Ok(data)
  {
    hide Finish;
    assert EvalRefs(d, ctx, l, 0, 0) == Ready([], 0);
    assert Eval(d, ctx, l, 0) == Finish(d, [], ctx.env, l).After(Bulk(Len(d)));
  }

  /**
   Every validated self-contained descriptor materializes, with no check firing.
   For an empty SPARSE chunk this holds of the release build, where the `n - 1` of
   the unranking wraps (src/entropy/rank.rs:276).
   */
  lemma ValidatedDecodes(d: Representation, ctx: Context, l: Limits)
    requires SelfContained(d) && Validate(d, l).Valid? && Roomy(l)
    ensures Read(d, ctx, l).Ok?
  {
    hide Finish, ValidateFamily, Eval, Read;
    LeafShape(d, l);
    FamilyDecodes(d, ctx.env, l);
    FinishCost(d, [], ctx.env, l);
    LeafReads(d, ctx, l, Finish(d, [], ctx.env, l).data);
  }

  lemma LeafShape(d: Representation, l: Limits)
    requires SelfContained(d) && ValidateFamily(d, l).Valid? && Roomy(l)
    ensures Len(d) <= l.maxChunkSize && Refs(d) == []
  {
    hide Binom, Factorial, MultisetRank.Sum, MultisetRank.Multi;
  }

  lemma DefaultsAreRoomy()
    ensures Roomy(DefaultLimits)
  {
  }
}

/**
 The bounded materializer (src/core/materialize.rs) as a function: what a
 descriptor evaluates to at a given reference depth and what that costs, with
 no budget. The in-place, budgeted interpreter is proved against it.
 */
module Materializer {
  import opened Nonlinear
  import opened Bytes
  import opened Descriptor
  import opened Context
  import opened Streams
  import opened CommandWalk
  import SubsetRank
  import MultisetRank
  import PermutationRank

  // ----- references -----

  /** The chunks a descriptor reads, in the order they are resolved. */
  function Refs(d: Representation): seq<ChunkId> {
    match d
    case ExactRef(target, _, _) => [target]
    case BaseResidual(base, _, _, _) => [base]
    case SequenceDict(dictionary, _, _, _, _, _, _, _, _, _) => [dictionary]
    case SequenceSharedDict(dictionary, _, shared, _, _, _, _, _, _, _, _, _) =>
      if dictionary == ZeroId then [shared] else [shared, dictionary]
    case _ => []
  }

  /** A length checked against the allocation cap before the buffer it sizes. */
  function Alloc(n: nat, l: Limits): Step {
    Need(n <= l.maxAllocBytes, AllocTooLarge(n, l.maxAllocBytes))
  }

  function And(a: Step, b: Step): Step {
    if a.Pass? then b else a
  }

  /** The checks made before reference `i` is looked up. */
  function Gate(d: Representation, i: nat, l: Limits): Step {
    match d
    case BaseResidual(_, baseLen, _, _) => Alloc(baseLen, l)
    case SequenceDict(_, dictionaryLen, _, _, _, _, _, cmds, _, len) =>
      And(And(Alloc(len, l), Need(cmds <= len, InvalidDescriptor)), Alloc(dictionaryLen, l))
    case SequenceSharedDict(_, dictionaryLen, _, sharedLen, _, _, _, _, _, cmds, _, len) =>
      if i == 0 then And(And(Alloc(len, l), Need(cmds <= len, InvalidDescriptor)), Alloc(sharedLen, l))
      else Alloc(dictionaryLen, l)
    case _ => Pass
  }

  /** The checks made on the descriptor found for reference `i`. */
  function Accept(d: Representation, i: nat, t: Representation, l: Limits): Step {
    match d
    case ExactRef(_, off, len) => And(Need(off + len <= Len(t), RangeOutOfBounds), Alloc(Len(t), l))
    case BaseResidual(_, baseLen, _, _) => Need(Len(t) == baseLen, InvalidDescriptor)
    case SequenceDict(_, dictionaryLen, _, _, _, _, _, _, _, _) =>
      Need(Len(t) == dictionaryLen, InvalidDescriptor)
    case SequenceSharedDict(_, dictionaryLen, _, sharedLen, _, _, _, _, _, _, _, _) =>
      Need(Len(t) == (if i == 0 then sharedLen else dictionaryLen), InvalidDescriptor)
    case _ => Pass
  }

  // ----- residuals -----

  /** XOR edits in order; each costs `unit`. */
  function ApplyEdits(out: bytes, edits: seq<Edit>, unit: nat, cost: nat): (a: Attempt)
    ensures cost <= a.cost <= cost + unit * |edits|
    ensures a.Good? ==> |a.data| == |out| && a.cost == cost + unit * |edits|
    ensures a.Bad? ==> a.error == BadResidual
    decreases |edits|
  {
    if edits == [] then Good(out, cost)
    else
      var e := edits[0];
      if e.pos >= |out| then (MulLe(unit, 0, |edits|); Bad(BadResidual, cost))
      else
        MulAdd(unit, |edits| - 1, 1);
        ApplyEdits(out[e.pos := Xor(out[e.pos], e.val)], edits[1..], unit, cost + unit)
  }

  /** Replacement ranges in order; each replaced byte costs one. */
  function ApplyChanges(out: bytes, changes: seq<RangeChange>, literals: bytes, lit: nat): (a: Attempt)
    ensures lit <= a.cost && (lit <= |literals| ==> a.cost <= |literals|)
    ensures a.Good? ==> |a.data| == |out|
    ensures a.Bad? ==> a.error == BadResidual
    decreases |changes|
  {
    if changes == [] then Good(out, lit)
    else
      var c := changes[0];
      if c.end > |out| || c.start >= c.end then Bad(BadResidual, lit)
      else if lit + (c.end - c.start) > |literals| then Bad(BadResidual, lit)
      else
        var take := c.end - c.start;
        ApplyChanges(out[..c.start] + literals[lit..lit + take] + out[c.end..], changes[1..], literals, lit + take)
  }

  function XorAll(a: bytes, b: bytes): (r: bytes)
    requires |b| <= |a|
    ensures |r| == |b|
  {
    seq(|b|, i requires 0 <= i < |b| => Xor(a[i], b[i]))
  }

  /** A fetched model within its cap, the fetched stream, decoded to `n` bytes. */
  function DecodeObject(env: Env, l: Limits, refs: StreamRefs, n: nat, mismatch: MatError): (r: Result<bytes>)
    ensures r.Ok? ==> |r.value| == n
  {
    var room := Alloc(n, l);
    :- room;
    var model :- env.fetchObject(refs.model);
    :- Need(|model| <= l.maxModelBytes, InvalidDescriptor);
    var encoded :- env.fetchObject(refs.encObj);
    var decoded :- env.decodeRans(model, encoded, refs.scaleBits, refs.codec, n);
    :- Need(|decoded| == n, mismatch);
    Ok(decoded)
  }

  function Lift(r: Result<bytes>): Attempt {
    match r
    case Ok(b) => Good(b, 0)
    case Err(e) => Bad(e, 0)
  }

  /** `apply_residual` (src/core/materialize.rs:1507) over `base` into `n` bytes. */
  function ApplyResidual(r: Residual, base: bytes, n: nat, env: Env, l: Limits): (a: Attempt)
    ensures a.Good? ==> |a.data| == n
  {
    if n != r.len then Bad(BadResidual, 0)
    else if !r.BaseSequence? && |base| < n then Bad(BadResidual, 0)
    else match r
      case XorSparse(_, edits) => ApplyEdits(base[..n], edits, 1, 0)
      case RangeReplace(_, changes, literals) => ApplyChanges(base[..n], changes, literals, 0)
      case RansCoded(_, refs, decodedLen) =>
        if decodedLen != n then Bad(BadResidual, 0)
        else (match DecodeObject(env, l, refs, n, BadResidual)
              case Err(e) => Bad(e, 0)
              case Ok(diff) => Good(XorAll(base, diff), 0))
      case BaseSequence(_, refs, seqLen, litLen, offLen, cmds, litOut) =>
        if cmds > n then Bad(BadResidual, 0)
        else match DecodeThree(env, l, refs, seqLen, litLen, offLen, cmds, litOut, Checked.None, 4)
          case Err(_) => Bad(BadResidual, 0)
          case Ok(d) => Walk(FromBase(base), d, n)
  }

  // ----- configurational families -----

  /** Literals placed one by one at `base + p`; nothing when a position is out of range. */
  function Place(out: bytes, base: nat, positions: seq<nat>, literals: bytes): (r: Checked.Option<bytes>)
    requires |positions| == |literals|
    ensures r.Some? ==> |r.value| == |out|
    decreases |positions|
  {
    if positions == [] then Checked.Some(out)
    else
      var p := base + positions[0];
      if p >= |out| then Checked.None
      else Place(out[p := literals[0]], base, positions[1..], literals[1..])
  }

  function SparseBytes(k: nat, rank: nat, literals: bytes, n: nat): (a: Attempt)
    ensures a.cost == 0
    ensures a.Good? ==> |a.data| == n
    ensures a.Bad? ==> a.error == InvalidDescriptor
  {
    if k > n then Bad(InvalidDescriptor, 0)
    else match SubsetRank.UnrankSubset(rank, n, k)
      case Err(_) => Bad(InvalidDescriptor, 0)
      case Ok(positions) =>
        if |positions| != k || |literals| != k then Bad(InvalidDescriptor, 0)
        else match Place(Fill(0, n), 0, positions, literals)
          case None => Bad(InvalidDescriptor, 0)
          case Some(out) => Good(out, 0)
  }

  predicate AllBelow(q: seq<nat>, m: nat) {
    forall i :: 0 <= i < |q| ==> q[i] < m
  }

  function Lookup(table: bytes, q: seq<nat>): (r: bytes)
    requires AllBelow(q, |table|)
    ensures |r| == |q|
    ensures forall i :: 0 <= i < |q| ==> r[i] == table[q[i]]
  {
    seq(|q|, i requires 0 <= i < |q| => table[q[i]])
  }

  /** Indices outside the table stop the source with a panic; here they are a failure. */
  function TableBytes(table: bytes, q: SubsetRank.Ranked<seq<nat>>, n: nat): (a: Attempt)
    ensures a.cost == 0
    ensures a.Good? ==> |a.data| == n
    ensures a.Bad? ==> a.error == InvalidDescriptor
  {
    if q.Ok? && |q.value| == n && AllBelow(q.value, |table|) then Good(Lookup(table, q.value), 0)
    else Bad(InvalidDescriptor, 0)
  }

  /** The periodic loop after `written` bytes. */
  function Repeat(pattern: bytes, count: nat, tail: bytes, n: nat, out: bytes, cost: nat): (a: Attempt)
    requires |out| <= n
    ensures cost <= a.cost && (|pattern| > 0 && cost <= 2 * |out| ==> a.cost <= 2 * n)
    ensures a.Good? ==> |a.data| == n
    ensures a.Bad? ==> a.error == InvalidDescriptor
    decreases count
  {
    if count == 0 then
      if |out| + |tail| != n then Bad(InvalidDescriptor, cost) else Good(out + tail, cost)
    else if |out| + |pattern| > n then Bad(InvalidDescriptor, cost)
    else Repeat(pattern, count - 1, tail, n, out + pattern, cost + |pattern| / 8 + 1)
  }

  /** The word loop of SPARSE_BLOCK64 from word `w` on. */
  function Blocks(popcounts: bytes, ranks: bytes, literals: bytes, w: nat, out: bytes, lit: nat, rank: nat, cost: nat)
    : (a: Attempt)
    requires w <= |popcounts|
    ensures cost <= a.cost && (cost <= 2 * lit && lit <= |literals| ==> a.cost <= 2 * |literals|)
    ensures a.Good? ==> |a.data| == |out|
    ensures a.Bad? ==> a.error == InvalidDescriptor
    decreases |popcounts| - w
  {
    if w == |popcounts| then
      if lit != |literals| then Bad(InvalidDescriptor, cost) else Good(out, cost)
    else
      var k := popcounts[w];
      if k == 0 then Blocks(popcounts, ranks, literals, w + 1, out, lit, rank, cost)
      else if k > 64 || rank + 8 > |ranks| || lit + k > |literals| then Bad(InvalidDescriptor, cost)
      else match SubsetRank.UnrankSubset(FromLe(ranks[rank..rank + 8]), 64, k)
        case Err(_) => Bad(InvalidDescriptor, cost)
        case Ok(positions) =>
          if |positions| != k then Bad(InvalidDescriptor, cost)
          else match Place(out, w * 8, positions, literals[lit..lit + k])
            case None => Bad(InvalidDescriptor, cost)
            case Some(out') => Blocks(popcounts, ranks, literals, w + 1, out', lit + k, rank + 8, cost + k + 1)
  }

  // ----- one descriptor, its references given -----

  function WalkStreams(r: Result<Decoded>, m: Mode, n: nat): (a: Attempt)
    ensures a.Good? ==> |a.data| == n
  {
    match r
    case Err(e) => Bad(e, 0)
    case Ok(d) => Walk(m, d, n)
  }

  function Universe0(env: Env, d: Representation, l: Limits): (a: Attempt)
    requires d.EntropyRef?
    ensures a.Good? ==> |a.data| == d.len
  {
    match env.universeBytes(d.universe, d.seed, d.coordinate, d.len)
    case Err(e) => Bad(e, 0)
    case Ok(generated) =>
      if |generated| != d.len then Bad(Universe, 0)
      else match d.residual
        case XorSparse(rlen, edits) =>
          if rlen != d.len then Bad(BadResidual, 0) else ApplyEdits(generated, edits, 0, 0)
        case RansCoded(_, _, _) => ApplyResidual(d.residual, generated, d.len, env, l)
        case _ => Bad(BadResidual, 0)
  }

  /** What remains of `materialize` once the referenced chunks are in hand. */
  function Finish(d: Representation, inputs: seq<bytes>, env: Env, l: Limits): (a: Attempt)
    requires |inputs| == |Refs(d)|
    ensures a.Good? ==> |a.data| == Len(d)
  {
    match d
    case Zero(len) => Good(Fill(0, len), 0)
    case FillByte(value, len) => Good(Fill(value, len), 0)
    case Inline(data) => Good(data, 0)
    case Raw(obj, len) =>
      (match env.fetchObject(obj)
       case Err(e) => Bad(e, 0)
       case Ok(b) => if |b| != len then Bad(InvalidDescriptor, 0) else Good(b, 0))
    case Rans(refs, len) => Lift(DecodeObject(env, l, refs, len, InvalidDescriptor))
    case ExactRef(_, off, len) =>
      if off + len > |inputs[0]| then Bad(RangeOutOfBounds, 0) else Good(inputs[0][off..off + len], 0)
    case BaseResidual(_, _, residual, len) => ApplyResidual(residual, inputs[0], len, env, l)
    case Sparse(k, rank, literals, len) => SparseBytes(k, rank, literals, len)
    case Palette(palette, counts, rank, len) =>
      TableBytes(palette, MultisetRank.UnrankSequence(rank, len, counts), len)
    case Periodic(period, pattern, count, tail, len) =>
      if period == 0 || |pattern| != period then Bad(InvalidDescriptor, 0)
      else Repeat(pattern, count, tail, len, [], 0)
    case EntropyRef(_, _, _, _, _, _) => Universe0(env, d, l)
    case Permutation(rank, alphabet, len) =>
      if len == 0 || len > 34 || |alphabet| != len then Bad(InvalidDescriptor, 0)
      else TableBytes(alphabet, PermutationRank.UnrankPermutationOf(rank, len), len)
    case SequenceRans(refs, seqLen, litLen, offLen, cmds, litOut, len) =>
      if Alloc(len, l).Reject? then Bad(Alloc(len, l).error, 0)
      else if cmds > len then Bad(InvalidDescriptor, 0)
      else WalkStreams(DecodeThree(env, l, refs, seqLen, litLen, offLen, cmds, litOut, Checked.None, 2), Local, len)
    case SparseBlock64(refs, pcLen, rankLen, litLen, words, nonzero, litOut, len) =>
      if Alloc(len, l).Reject? then Bad(Alloc(len, l).error, 0)
      else if words * 8 < len then Bad(InvalidDescriptor, 0)
      else (match DecodeThree(env, l, refs, pcLen, litLen, rankLen, words, litOut, Checked.Some(nonzero), 8)
            case Err(_) => Bad(Sequence, 0)
            case Ok(s) => Blocks(s.commands, s.offsets, s.literals, 0, Fill(0, len), 0, 0, 0))
    case SequenceDict(_, _, refs, seqLen, litLen, offLen, srcLen, cmds, litOut, len) =>
      WalkStreams(DecodeFour(env, l, refs, seqLen, litLen, offLen, srcLen, cmds, litOut), WithDict(inputs[0]), len)
    case SequenceSharedDict(_, _, _, _, refs, seqLen, litLen, offLen, srcLen, cmds, litOut, len) =>
      WalkStreams(DecodeFour(env, l, refs, seqLen, litLen, offLen, srcLen, cmds, litOut),
                  WithShared(if |inputs| > 1 then inputs[1] else [], inputs[0]), len)
    case SequenceDeep(refs, seqLen, litLen, offLen, lenLen, cmds, litOut, len) =>
      if Alloc(len, l).Reject? then Bad(Alloc(len, l).error, 0)
      else if cmds > len then Bad(InvalidDescriptor, 0)
      else (match DecodeDeep(env, l, refs, seqLen, litLen, offLen, lenLen, cmds, litOut)
            case Err(e) => Bad(e, 0)
            case Ok(s) => WalkDeep(s, len))
  }

  /** A descriptor without references whose finishing step gives `data`. */
  ghost predicate FinishesAs(d: Representation, env: Env, l: Limits, data: bytes) {
    Refs(d) == [] && var a := Finish(d, [], env, l); a.Good? && a.data == data
  }

  // ----- evaluation at a depth -----

  /** The operations charged before a descriptor of `n` bytes is dispatched. */
  function Bulk(n: nat): nat {
    n / 8 + 1
  }

  datatype Inputs = Ready(inputs: seq<bytes>, cost: nat) | Stuck(error: MatError, cost: nat)

  /** `materialize` without a budget: bytes or error, and the operations spent. */
  function Eval(d: Representation, ctx: Context, l: Limits, depth: nat): (a: Attempt)
    ensures a.Good? ==> |a.data| == Len(d)
    decreases Room(l, depth), |Refs(d)| + 1
  {
    if Len(d) > l.maxChunkSize then Bad(OutputTooLarge(Len(d), l.maxChunkSize), 0)
    else if depth > l.maxReferenceDepth then Bad(DepthExceeded(depth, l.maxReferenceDepth), 0)
    else match EvalRefs(d, ctx, l, depth, 0)
      case Stuck(error, cost) => Bad(error, Bulk(Len(d)) + cost)
      case Ready(inputs, cost) => Finish(d, inputs, ctx.env, l).After(Bulk(Len(d)) + cost)
  }

  /** The references of `d` from number `i` on, one hop deeper. */
  function EvalRefs(d: Representation, ctx: Context, l: Limits, depth: nat, i: nat): (r: Inputs)
    requires i <= |Refs(d)| && depth <= l.maxReferenceDepth
    ensures r.Ready? ==> |r.inputs| == |Refs(d)| - i
    decreases Room(l, depth), |Refs(d)| - i
  {
    if i == |Refs(d)| then Ready([], 0)
    else
      match Target(d, i, ctx, l)
      case Err(e) => Stuck(e, 0)
      case Ok(t) =>
        match Eval(t, ctx, l, depth + 1)
        case Bad(e, cost) => Stuck(e, cost)
        case Good(b, cost) =>
          match EvalRefs(d, ctx, l, depth, i + 1)
          case Stuck(e, more) => Stuck(e, cost + more)
          case Ready(rest, more) => Ready([b] + rest, cost + more)
  }

  /** Reference `i`, looked up between its two rounds of checks. */
  function Target(d: Representation, i: nat, ctx: Context, l: Limits): (r: Result<Representation>)
    requires i < |Refs(d)|
  {
    var gate := Gate(d, i, l);
    :- gate;
    var t :- ctx.fetchDescriptor(Refs(d)[i]);
    :- Accept(d, i, t, l);
    Ok(t)
  }

  function Room(l: Limits, depth: nat): nat {
    if depth > l.maxReferenceDepth then 0 else l.maxReferenceDepth + 1 - depth
  }
}

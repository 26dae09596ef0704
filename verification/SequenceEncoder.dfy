/**
 SEQUENCE_RANS candidates (src/rans/sequence.rs:2059-2126): parse, store the
 streams, and describe them. With the objects stored, the descriptor
 materializes to the chunk.
 */
module SequenceEncoder {
  import opened Bytes
  import opened Checked
  import opened Descriptor
  import opened Context
  import opened Streams
  import opened CommandWalk
  import opened Materializer
  import opened StreamEncoder
  import opened LzEncoder

  /** The descriptor written for streams `s` stored as `e`, its lengths cut to 32 bits. */
  ghost predicate Written(d: Representation, input: bytes, s: Decoded, e: Encoded) {
    && d.SequenceRans? && |e.lens| == 3
    && d.seqLen == e.lens[0] % U32 && d.litLen == e.lens[1] % U32 && d.offLen == e.lens[2] % U32
    && d.cmds == |s.commands| % U32 && d.litOut == |s.literals| % U32 && d.len == |input|
  }

  /** A descriptor that states the lengths of streams `s` stored as `e`. */
  ghost predicate Describes(d: Representation, input: bytes, s: Decoded, e: Encoded) {
    && d.SequenceRans? && |e.lens| == 3
    && d.seqLen == e.lens[0] && d.litLen == e.lens[1] && d.offLen == e.lens[2]
    && d.cmds == |s.commands| && d.litOut == |s.literals| && d.len == |input|
  }

  const SEQUENCE_DESCRIPTOR := 5 + IDS + 5 * 4

  function StreamList(s: Decoded): seq<bytes> {
    [s.commands, s.literals, s.offsets]
  }

  /** Exactly when the encoder proposes a candidate. */
  ghost predicate SequenceProposed(input: bytes, l: Limits, coder: Coder) {
    var n, e := |input|, EncodeN(StreamList(GreedyStreams(input)), coder);
    && 128 <= n <= l.maxChunkSize
    && e.Some?
    && SEQUENCE_DESCRIPTOR + |e.value.modelObj| + |e.value.encObj| < n
  }

  /** `SequenceEncoder::encode` (src/rans/sequence.rs:2059). `id` names a stored object by its content. */
  method EncodeCandidate(input: bytes, l: Limits, coder: Coder, id: bytes -> ChunkId)
    returns (c: Option<(Representation, Encoded)>)
    requires |input| <= U64_MAX
    ensures c.Some? <==> SequenceProposed(input, l, coder)
    ensures c.Some? ==> Some(c.value.1) == EncodeN(StreamList(GreedyStreams(input)), coder)
    ensures c.Some? ==> Written(c.value.0, input, GreedyStreams(input), c.value.1)
    ensures c.Some? ==> c.value.0.refs == StreamRefs(id(c.value.1.modelObj), id(c.value.1.encObj), SCALE_BITS, Interleaved2)
  {
    hide Rebuilds, EncodeN, Copies, GreedyStreams;
    var n := |input|;
    if n == 0 || n > l.maxChunkSize {
      return None;
    }
    if n < 128 {
      return None;
    }
    var streams := EncodeSequence(input);
    var enc := EncodeStreams([streams.commands, streams.literals, streams.offsets], coder);
    if enc.None? {
      return None;
    }
    var e := enc.value;
    var refs := StreamRefs(id(e.modelObj), id(e.encObj), SCALE_BITS, Interleaved2);
    var d := SequenceRans(refs, e.lens[0] % U32, e.lens[1] % U32, e.lens[2] % U32,
                          |streams.commands| % U32, |streams.literals| % U32, n);
    if EncodedSize(d) + |e.modelObj| + |e.encObj| >= n {
      return None;
    }
    return Some((d, e));
  }

  lemma LensFit(s: Decoded, coder: Coder)
    requires EncodeN(StreamList(s), coder).Some?
    ensures var e := EncodeN(StreamList(s), coder).value;
            |e.lens| == 3 && e.lens[0] <= |s.commands| && e.lens[1] <= |s.literals| && e.lens[2] <= |s.offsets|
    ensures |s.offsets| == Copies(s.commands) * 2 ==> |s.offsets| <= 2 * |s.commands|
  {
    CopiesBound(s.commands);
    var q := [s.commands, s.literals, s.offsets];
    assert q[0] == s.commands && q[1] == s.literals && q[2] == s.offsets;
  }

  lemma {:induction false} CopiesBound(commands: bytes)
    ensures Copies(commands) <= |commands|
  {
    if commands != [] { CopiesBound(commands[1..]); }
  }

  /** Below 2^31 bytes nothing is cut and every stream can be stored. */
  lemma NothingCut(input: bytes, d: Representation, e: Encoded, coder: Coder)
    requires |input| < U32 / 2 && EncodeN(StreamList(GreedyStreams(input)), coder) == Some(e)
    requires Written(d, input, GreedyStreams(input), e)
    ensures Describes(d, input, GreedyStreams(input), e)
    ensures Storable(GreedyStreams(input).offsets)
  {
    hide Rebuilds, EncodeN, Copies, GreedyStreams, Storable;
    var s := GreedyStreams(input);
    StreamsRebuild(input);
    RebuildsWalk(s, input);
    LensFit(s, coder);
    ShortStorable(s.offsets);
  }

  /** Encoder soundness: with its objects stored, the candidate materializes to the chunk. */
  lemma SequenceSound(input: bytes, d: Representation, e: Encoded, coder: Coder, env: Env, l: Limits)
    requires 0 < |input| && 2 * |input| <= l.maxAllocBytes
    requires EncodeN(StreamList(GreedyStreams(input)), coder) == Some(e) && Describes(d, input, GreedyStreams(input), e)
    requires Storable(GreedyStreams(input).offsets)
    requires Inverts(coder, env, d.refs) && Stored(e, env, d.refs, l)
    ensures FinishesAs(d, env, l, input)
  {
    hide Rebuilds, EncodeN, Copies, DecodeThree, Inverts, Stored, Storable, Walk, GreedyStreams;
    var s := GreedyStreams(input);
    StreamsRebuild(input);
    RebuildsWalk(s, input);
    RebuildsPlain(s, input);
    LensFit(s, coder);
    assert s.commands != [] by { NoCommandsNoBytes(s, input); }
    ShortStorable(s.commands);
    ShortStorable(s.literals);
    ThreeRead(s, coder, env, d.refs, l, None, 2);
  }

  lemma NoCommandsNoBytes(s: Decoded, input: bytes)
    requires Rebuilds(s, input) && input != []
    ensures s.commands != []
  {
    hide Yields;
    var tokens :| Spells(tokens, s, input);
    if tokens == [] { YieldsNothing(s.literals, input); }
  }

  lemma YieldsNothing(literals: bytes, out: bytes)
    requires Yields([], literals, out)
    ensures out == []
  {
  }
}

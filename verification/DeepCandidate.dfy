/**
 SEQUENCE_DEEP candidates (src/rans/sequence.rs:2436-2520): the deep streams of a
 chunk stored and described. With the objects stored, the descriptor materializes
 to the chunk exactly when the parse has no copy that is too long.
 */
module DeepCandidate {
  import opened Bytes
  import opened Checked
  import opened Descriptor
  import opened Context
  import opened Streams
  import opened CommandWalk
  import opened Materializer
  import opened StreamEncoder
  import DeepEncoder

  function StreamList(s: Decoded): seq<bytes> {
    [s.commands, s.literals, s.offsets, s.extra]
  }

  /** The descriptor written for streams `s` stored as `e`, its lengths cut to 32 bits. */
  ghost predicate Written(d: Representation, input: bytes, s: Decoded, e: Encoded) {
    && d.SequenceDeep? && |e.lens| == 4
    && d.seqLen == e.lens[0] % U32 && d.litLen == e.lens[1] % U32
    && d.offLen == e.lens[2] % U32 && d.lenLen == e.lens[3] % U32
    && d.cmds == |s.commands| % U32 && d.litOut == |s.literals| % U32 && d.len == |input|
  }

  /** A descriptor that states the lengths of streams `s` stored as `e`. */
  ghost predicate Describes(d: Representation, input: bytes, s: Decoded, e: Encoded) {
    && d.SequenceDeep? && |e.lens| == 4
    && d.seqLen == e.lens[0] && d.litLen == e.lens[1] && d.offLen == e.lens[2] && d.lenLen == e.lens[3]
    && d.cmds == |s.commands| && d.litOut == |s.literals| && d.len == |input|
  }

  const DEEP_DESCRIPTOR := 5 + IDS + 6 * 4

  /** Exactly when the encoder proposes a candidate. */
  ghost predicate DeepProposed(input: bytes, l: Limits, coder: Coder) {
    var n, e := |input|, EncodeN(StreamList(DeepEncoder.DeepStreams(input)), coder);
    && 128 <= n <= l.maxChunkSize
    && e.Some?
    && DEEP_DESCRIPTOR + |e.value.modelObj| + |e.value.encObj| < n
  }

  lemma LensFit(s: Decoded, coder: Coder)
    requires EncodeN(StreamList(s), coder).Some?
    ensures var e := EncodeN(StreamList(s), coder).value;
            && |e.lens| == 4
            && e.lens[0] <= |s.commands| && e.lens[1] <= |s.literals| && e.lens[2] <= |s.offsets| && e.lens[3] <= |s.extra|
  {
    hide EncodeN;
    var q := StreamList(s);
    assert q[0] == s.commands && q[1] == s.literals && q[2] == s.offsets && q[3] == s.extra;
  }

  /** `SequenceDeepEncoder::encode` (src/rans/sequence.rs:2436). `id` names a stored object by its content. */
  method EncodeCandidate(input: bytes, l: Limits, coder: Coder, id: bytes -> ChunkId)
    returns (c: Option<(Representation, Encoded)>)
    requires |input| <= U64_MAX
    ensures c.Some? <==> DeepProposed(input, l, coder)
    ensures c.Some? ==> Some(c.value.1) == EncodeN(StreamList(DeepEncoder.DeepStreams(input)), coder)
    ensures c.Some? ==> Written(c.value.0, input, DeepEncoder.DeepStreams(input), c.value.1)
    ensures c.Some? ==> c.value.0.refs == StreamRefs(id(c.value.1.modelObj), id(c.value.1.encObj), SCALE_BITS, Interleaved2)
  {
    hide EncodeN, DeepEncoder.DeepStreams, DeepShape;
    var n := |input|;
    if n == 0 || n > l.maxChunkSize {
      return None;
    }
    if n < 128 {
      return None;
    }
    var deep := DeepEncoder.EncodeDeep(input);
    if deep.None? {
      return None;
    }
    var s := deep.value;
    var enc := EncodeStreams([s.commands, s.literals, s.offsets, s.extra], coder);
    if enc.None? {
      return None;
    }
    var e := enc.value;
    var refs := StreamRefs(id(e.modelObj), id(e.encObj), SCALE_BITS, Interleaved2);
    var d := SequenceDeep(refs, e.lens[0] % U32, e.lens[1] % U32, e.lens[2] % U32, e.lens[3] % U32,
                          |s.commands| % U32, |s.literals| % U32, n);
    if EncodedSize(d) + |e.modelObj| + |e.encObj| >= n {
      return None;
    }
    return Some((d, e));
  }

  /** Below 2^31 bytes nothing is cut and every stream can be stored. */
  lemma NothingCut(input: bytes, d: Representation, e: Encoded, coder: Coder)
    requires |input| < U32 / 2 && EncodeN(StreamList(DeepEncoder.DeepStreams(input)), coder) == Some(e)
    requires Written(d, input, DeepEncoder.DeepStreams(input), e)
    ensures Describes(d, input, DeepEncoder.DeepStreams(input), e)
    ensures Storable(DeepEncoder.DeepStreams(input).offsets) && Storable(DeepEncoder.DeepStreams(input).extra)
  {
    hide EncodeN, DeepEncoder.DeepStreams, Storable, DeepShape;
    var s := DeepEncoder.DeepStreams(input);
    DeepEncoder.DeepSize(input);
    LensFit(s, coder);
    ShortStorable(s.offsets);
    ShortStorable(s.extra);
  }

  lemma FinishDeep(d: Representation, env: Env, l: Limits, s: Decoded)
    requires d.SequenceDeep? && d.len <= l.maxAllocBytes && d.cmds <= d.len
    requires DecodeDeep(env, l, d.refs, d.seqLen, d.litLen, d.offLen, d.lenLen, d.cmds, d.litOut) == Ok(s)
    ensures Refs(d) == [] && Finish(d, [], env, l) == WalkDeep(s, d.len)
  {
    hide DecodeDeep, WalkDeep;
  }

  /**
   With its objects stored, the candidate materializes if and only if no parsed copy
   exceeds 65603 bytes, and then to the chunk.
   */
  lemma DeepSound(input: bytes, d: Representation, e: Encoded, coder: Coder, env: Env, l: Limits)
    requires 0 < |input| && 2 * |input| <= l.maxAllocBytes
    requires EncodeN(StreamList(DeepEncoder.DeepStreams(input)), coder) == Some(e)
    requires Describes(d, input, DeepEncoder.DeepStreams(input), e)
    requires Storable(DeepEncoder.DeepStreams(input).offsets) && Storable(DeepEncoder.DeepStreams(input).extra)
    requires Inverts(coder, env, d.refs) && Stored(e, env, d.refs, l)
    ensures Refs(d) == []
    ensures Finish(d, [], env, l).Good? <==> DeepEncoder.CopiesFit(input)
    ensures DeepEncoder.CopiesFit(input) ==> FinishesAs(d, env, l, input)
  {
    hide EncodeN, Finish, DecodeDeep, Inverts, Stored, Storable, WalkDeep, DeepShape, DeepEncoder.DeepStreams,
         DeepEncoder.CopiesFit;
    var s := DeepEncoder.DeepStreams(input);
    DeepEncoder.DeepSize(input);
    ShortStorable(s.commands);
    ShortStorable(s.literals);
    DeepRead(s, coder, env, d.refs, l);
    FinishDeep(d, env, l, s);
    DeepEncoder.DeepRoundTrip(input);
  }
}

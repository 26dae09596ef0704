/**
 Storing raw streams as a model object and a payload object
 (src/rans/sequence.rs:1188-1430), the inverse of `Streams`. The entropy coder
 is a parameter: it may refuse a stream, and what it codes must decode back.
 */
module StreamEncoder {
  import opened Collections
  import opened Bytes
  import opened Checked
  import opened Descriptor
  import opened Context
  import opened Streams
  import opened Histogram

  /** What training and encoding a stream gives. */
  datatype Trained = Untrainable | Unencodable | Coded(model: bytes, enc: bytes)

  type Coder = bytes -> Trained

  /** The scale every encoder of the sequence families uses. */
  const SCALE_BITS: u8 := 14

  /** Coded streams decode back, and their models fit the slot's 16-bit length. */
  ghost predicate Inverts(coder: Coder, env: Env, refs: StreamRefs) {
    forall s: bytes :: coder(s).Coded? ==>
      |coder(s).model| < 0x1_0000
      && env.decodeRans(coder(s).model, coder(s).enc, refs.scaleBits, refs.codec, |s|) == Ok(s)
  }

  // ----- one stream -----

  /** The 32-bit counters see a nonempty stream; they always do below 2^32 bytes. */
  predicate Storable(s: bytes) {
    s == [] || Counted(s, 256) != []
  }

  lemma ShortStorable(s: bytes)
    requires |s| < U32
    ensures Storable(s)
  {
    hide Counted;
    ShortCountable(s);
    if s != [] {
      assert 0 < multiset(s)[s[0]] < U32;
      CountedComplete(s, 256, s[0]);
    }
  }

  /** How a stream is stored: empty, verbatim, or coded when that pays for its model. */
  function EncodeOne(s: bytes, coder: Coder): (r: Option<(Slot, bytes)>)
    ensures r.Some? ==> |r.value.1| <= |s|
    ensures r.Some? && s != [] && Storable(s) ==> !r.value.0.EmptySlot?
  {
    var distinct := |Counted(s, 256)|;
    if distinct == 0 then Some((EmptySlot, []))
    else if distinct == 1 then Some((RawSlot, s))
    else match coder(s)
      case Untrainable => None
      case Unencodable => Some((RawSlot, s))
      case Coded(model, enc) =>
        if |enc| + |model| < |s| then Some((RansSlot(model), enc)) else Some((RawSlot, s))
  }

  method EncodeOneStream(s: bytes, coder: Coder) returns (r: Option<(Slot, bytes)>)
    ensures r == EncodeOne(s, coder)
  {
    hide Counted;
    var hist := CountBytes(s);
    var symbols := PositiveSymbols(hist, s);
    match |symbols|
    case 0 => return Some((EmptySlot, []));
    case 1 => return Some((RawSlot, s));
    case _ =>
      var t := coder(s);
      if t.Untrainable? {
        return None;
      }
      if t.Unencodable? || |t.enc| + |t.model| >= |s| {
        return Some((RawSlot, s));
      }
      return Some((RansSlot(t.model), t.enc));
  }

  /** A stored stream decodes to itself if and only if its counters saw it. */
  lemma OneReads(s: bytes, coder: Coder, env: Env, refs: StreamRefs, strict: bool)
    requires Inverts(coder, env, refs) && EncodeOne(s, coder).Some?
    ensures var (slot, payload) := EncodeOne(s, coder).value;
            DecodeOne(env, refs, slot, payload, |s|, strict) == Ok(s) <==> Storable(s)
  {
    hide Counted;
  }

  // ----- N streams -----

  datatype Encoded = Encoded(modelObj: bytes, encObj: bytes, lens: seq<nat>)

  function SlotKind(slot: Slot): byte {
    match slot case RansSlot(_) => SLOT_RANS case RawSlot => SLOT_RAW case EmptySlot => SLOT_EMPTY
  }

  function SlotModel(slot: Slot): bytes {
    if slot.RansSlot? then slot.model else []
  }

  /** A slot of the model object: kind, 16-bit length, model. */
  function SlotBytes(slot: Slot): bytes {
    [SlotKind(slot)] + (ToLe(|SlotModel(slot)|, 2) + SlotModel(slot))
  }

  function EncodeN(streams: seq<bytes>, coder: Coder): (r: Option<Encoded>)
    ensures r.Some? ==> |r.value.lens| == |streams| && |r.value.encObj| == Total(r.value.lens)
    ensures r.Some? ==> forall i :: 0 <= i < |streams| ==> r.value.lens[i] <= |streams[i]|
  {
    if streams == [] then Some(Encoded([], [], []))
    else match EncodeOne(streams[0], coder)
      case None => None
      case Some((slot, payload)) =>
        match EncodeN(streams[1..], coder)
        case None => None
        case Some(rest) =>
          Some(Encoded(SlotBytes(slot) + rest.modelObj, payload + rest.encObj, [|payload|] + rest.lens))
  }

  lemma EncodeNStep(streams: seq<bytes>, i: nat, coder: Coder)
    requires i < |streams|
    ensures EncodeN(streams[i..], coder)
         == (match EncodeOne(streams[i], coder)
             case None => None
             case Some((slot, payload)) =>
               match EncodeN(streams[i + 1..], coder)
               case None => None
               case Some(rest) =>
                 Some(Encoded(SlotBytes(slot) + rest.modelObj, payload + rest.encObj, [|payload|] + rest.lens)))
  {
    assert streams[i..][1..] == streams[i + 1..];
  }

  /** What has been written so far, with what is still to come. */
  function Joined(sofar: Encoded, rest: Option<Encoded>): Option<Encoded> {
    match rest
    case None => None
    case Some(r) => Some(Encoded(sofar.modelObj + r.modelObj, sofar.encObj + r.encObj, sofar.lens + r.lens))
  }

  lemma JoinStep(sofar: Encoded, slot: bytes, payload: bytes, rest: Encoded)
    ensures Joined(sofar, Some(Encoded(slot + rest.modelObj, payload + rest.encObj, [|payload|] + rest.lens)))
         == Joined(Encoded(sofar.modelObj + slot, sofar.encObj + payload, sofar.lens + [|payload|]), Some(rest))
  {
    var next := Encoded(sofar.modelObj + slot, sofar.encObj + payload, sofar.lens + [|payload|]);
    assert sofar.modelObj + (slot + rest.modelObj) == next.modelObj + rest.modelObj;
    assert sofar.encObj + (payload + rest.encObj) == next.encObj + rest.encObj;
    assert sofar.lens + ([|payload|] + rest.lens) == next.lens + rest.lens;
  }

  /** `encode_streams_n` (src/rans/sequence.rs:1218). */
  method EncodeStreams(streams: seq<bytes>, coder: Coder) returns (r: Option<Encoded>)
    ensures r == if streams == [] then None else EncodeN(streams, coder)
  {
    hide EncodeN, EncodeOne;
    if streams == [] {
      return None;
    }
    var e := Encoded([], [], []);
    assert streams[0..] == streams;
    JoinUnit(EncodeN(streams, coder));
    for i := 0 to |streams|
      invariant EncodeN(streams, coder) == Joined(e, EncodeN(streams[i..], coder))
    {
      EncodeNStep(streams, i, coder);
      var one := EncodeOneStream(streams[i], coder);
      if one.None? {
        return None;
      }
      var (slot, payload) := one.value;
      if EncodeN(streams[i + 1..], coder).Some? {
        JoinStep(e, SlotBytes(slot), payload, EncodeN(streams[i + 1..], coder).value);
      }
      e := Encoded(e.modelObj + SlotBytes(slot), e.encObj + payload, e.lens + [|payload|]);
    }
    JoinEnd(streams, e, coder);
    return Some(e);
  }

  lemma JoinUnit(r: Option<Encoded>)
    ensures Joined(Encoded([], [], []), r) == r
  {
    if r.Some? {
      assert [] + r.value.modelObj == r.value.modelObj && [] + r.value.encObj == r.value.encObj;
      assert [] + r.value.lens == r.value.lens;
    }
  }

  lemma JoinEnd(streams: seq<bytes>, e: Encoded, coder: Coder)
    ensures Joined(e, EncodeN(streams[|streams|..], coder)) == Some(e)
  {
    assert streams[|streams|..] == [];
    assert e.modelObj + [] == e.modelObj && e.encObj + [] == e.encObj && e.lens + [] == e.lens;
  }

  // ----- reading back -----

  function SlotsOf(streams: seq<bytes>, coder: Coder): (r: seq<Slot>)
    requires EncodeN(streams, coder).Some?
    ensures |r| == |streams|
  {
    if streams == [] then [] else [EncodeOne(streams[0], coder).value.0] + SlotsOf(streams[1..], coder)
  }

  ghost predicate ModelsFit(coder: Coder) {
    forall s: bytes :: coder(s).Coded? ==> |coder(s).model| < 0x1_0000
  }

  lemma SlotLength(slot: Slot, b: bytes, pos: nat, rest: bytes)
    requires pos <= |b| && b[pos..] == SlotBytes(slot) + rest && |SlotModel(slot)| < 0x1_0000
    ensures pos + 3 <= |b| && b[pos] == SlotKind(slot)
    ensures FromLe(b[pos + 1..pos + 3]) == |SlotModel(slot)| && |SlotBytes(slot)| == 3 + |SlotModel(slot)|
    ensures pos + |SlotBytes(slot)| <= |b| && b[pos + 3..pos + |SlotBytes(slot)|] == SlotModel(slot)
    ensures b[pos + |SlotBytes(slot)|..] == rest
  {
    hide FromLe, ToLe, SlotModel, SlotKind;
    var m := SlotModel(slot);
    FromToLe(|m|, 2);
    assert |m| < Pow256(2) by { Widths(); }
    var r2 := m + rest;
    var r1 := ToLe(|m|, 2) + r2;
    Regroup([SlotKind(slot)], ToLe(|m|, 2), m, rest);
    SliceAt(b, pos, [SlotKind(slot)], r1);
    SliceAt(b, pos + 1, ToLe(|m|, 2), r2);
    SliceAt(b, pos + 3, m, rest);
    assert b[pos] == b[pos..pos + 1][0];
  }

  lemma Regroup(a: bytes, b: bytes, c: bytes, d: bytes)
    ensures a + (b + c) + d == a + (b + (c + d))
  {
  }

  lemma ParseStep(slot: Slot, b: bytes, pos: nat, rest: bytes, n: nat)
    requires pos <= |b| && b[pos..] == SlotBytes(slot) + rest && n > 0
    requires slot.RansSlot? ==> |slot.model| < 0x1_0000
    ensures ParseSlots(b, pos, n) == (match ParseSlots(b, pos + |SlotBytes(slot)|, n - 1)
                                      case None => None
                                      case Some(more) => Some([slot] + more))
  {
    hide FromLe, SlotBytes;
    SlotLength(slot, b, pos, rest);
  }

  lemma OneFits(s: bytes, coder: Coder)
    requires EncodeOne(s, coder).Some? && ModelsFit(coder)
    ensures var slot := EncodeOne(s, coder).value.0;
            slot.RansSlot? ==> |slot.model| < 0x1_0000
  {
    hide Counted;
  }

  lemma EncodedHead(streams: seq<bytes>, coder: Coder)
    requires EncodeN(streams, coder).Some? && ModelsFit(coder) && streams != []
    ensures EncodeOne(streams[0], coder).Some? && EncodeN(streams[1..], coder).Some?
    ensures var slot := EncodeOne(streams[0], coder).value.0;
            && EncodeN(streams, coder).value.modelObj == SlotBytes(slot) + EncodeN(streams[1..], coder).value.modelObj
            && (slot.RansSlot? ==> |slot.model| < 0x1_0000)
            && SlotsOf(streams, coder) == [slot] + SlotsOf(streams[1..], coder)
  {
    hide EncodeOne, SlotBytes, ModelsFit;
    OneFits(streams[0], coder);
  }

  /** The model object parses back to the slots it was written from. */
  lemma {:induction false} SlotsRead(b: bytes, pos: nat, streams: seq<bytes>, coder: Coder)
    requires EncodeN(streams, coder).Some? && ModelsFit(coder)
    requires pos <= |b| && b[pos..] == EncodeN(streams, coder).value.modelObj
    ensures ParseSlots(b, pos, |streams|) == Some(SlotsOf(streams, coder))
    decreases |streams|
  {
    hide SlotBytes, EncodeOne, ModelsFit, EncodeN, ParseSlots, SlotsOf;
    if streams == [] {
      UnpackNone(coder);
      ParseNone(b);
      assert pos == |b|;
    } else {
      EncodedHead(streams, coder);
      var slot := EncodeOne(streams[0], coder).value.0;
      var rest := EncodeN(streams[1..], coder).value.modelObj;
      ParseStep(slot, b, pos, rest, |streams|);
      SliceAt(b, pos, SlotBytes(slot), rest);
      SlotsRead(b, pos + |SlotBytes(slot)|, streams[1..], coder);
    }
  }

  lemma ParseNone(b: bytes)
    ensures ParseSlots(b, |b|, 0) == Some([])
  {
  }

  /** The two objects a set of stored streams refers to. */
  ghost predicate Stored(e: Encoded, env: Env, refs: StreamRefs, l: Limits) {
    && env.fetchObject(refs.model) == Ok(e.modelObj)
    && env.fetchObject(refs.encObj) == Ok(e.encObj)
    && |e.modelObj| <= MaxModelObject(l, |e.lens|)
    && |e.encObj| <= l.maxAllocBytes
  }

  lemma FetchReads(streams: seq<bytes>, coder: Coder, env: Env, refs: StreamRefs, l: Limits)
    requires EncodeN(streams, coder).Some? && Inverts(coder, env, refs)
    requires Stored(EncodeN(streams, coder).value, env, refs, l)
    ensures var e := EncodeN(streams, coder).value;
            FetchStreams(env, l, refs, e.lens) == Ok((SlotsOf(streams, coder), e.encObj))
  {
    hide EncodeN, ParseSlots, SlotsOf, MaxModelObject, Total;
    var e := EncodeN(streams, coder).value;
    assert e.modelObj[0..] == e.modelObj;
    SlotsRead(e.modelObj, 0, streams, coder);
  }

  function Payload(s: bytes, coder: Coder): bytes {
    var r := EncodeOne(s, coder);
    if r.Some? then r.value.1 else []
  }

  function SlotOf(s: bytes, coder: Coder): Slot {
    var r := EncodeOne(s, coder);
    if r.Some? then r.value.0 else RawSlot
  }

  lemma Unpack(streams: seq<bytes>, coder: Coder)
    requires EncodeN(streams, coder).Some? && streams != []
    ensures EncodeOne(streams[0], coder).Some? && EncodeN(streams[1..], coder).Some?
    ensures var e, rest := EncodeN(streams, coder).value, EncodeN(streams[1..], coder).value;
            && e.encObj == Payload(streams[0], coder) + rest.encObj
            && e.lens == [|Payload(streams[0], coder)|] + rest.lens
            && SlotsOf(streams, coder) == [SlotOf(streams[0], coder)] + SlotsOf(streams[1..], coder)
  {
    hide EncodeOne;
  }

  /** The slots and payload slices of three stored streams. */
  lemma UnpackThree(a: bytes, b: bytes, c: bytes, coder: Coder)
    requires EncodeN([a, b, c], coder).Some?
    ensures EncodeOne(a, coder).Some? && EncodeOne(b, coder).Some? && EncodeOne(c, coder).Some?
    ensures SlotsOf([a, b, c], coder) == [SlotOf(a, coder), SlotOf(b, coder), SlotOf(c, coder)]
    ensures var e := EncodeN([a, b, c], coder).value;
            && e.lens == [|Payload(a, coder)|, |Payload(b, coder)|, |Payload(c, coder)|]
            && e.encObj == Payload(a, coder) + Payload(b, coder) + Payload(c, coder)
  {
    hide EncodeOne, EncodeN, SlotsOf, Payload, SlotOf;
    Unpack([a, b, c], coder);
    assert [a, b, c][1..] == [b, c];
    Unpack([b, c], coder);
    assert [b, c][1..] == [c];
    Unpack([c], coder);
    assert [c][1..] == [];
    UnpackNone(coder);
  }

  lemma UnpackNone(coder: Coder)
    ensures EncodeN([], coder) == Some(Encoded([], [], [])) && SlotsOf([], coder) == []
  {
  }

  lemma UnpackFour(a: bytes, b: bytes, c: bytes, d: bytes, coder: Coder)
    requires EncodeN([a, b, c, d], coder).Some?
    ensures EncodeOne(a, coder).Some? && EncodeOne(b, coder).Some? && EncodeOne(c, coder).Some? && EncodeOne(d, coder).Some?
    ensures SlotsOf([a, b, c, d], coder) == [SlotOf(a, coder), SlotOf(b, coder), SlotOf(c, coder), SlotOf(d, coder)]
    ensures var e := EncodeN([a, b, c, d], coder).value;
            && e.lens == [|Payload(a, coder)|, |Payload(b, coder)|, |Payload(c, coder)|, |Payload(d, coder)|]
            && e.encObj == Payload(a, coder) + Payload(b, coder) + Payload(c, coder) + Payload(d, coder)
  {
    hide EncodeOne, EncodeN, SlotsOf, Payload, SlotOf;
    Unpack([a, b, c, d], coder);
    assert [a, b, c, d][1..] == [b, c, d];
    UnpackThree(b, c, d, coder);
  }

  lemma CommandsRead(s: bytes, coder: Coder, env: Env, refs: StreamRefs)
    requires Inverts(coder, env, refs) && EncodeOne(s, coder).Some? && s != [] && Storable(s)
    ensures DecodeCommands(env, refs, SlotOf(s, coder), Payload(s, coder), |s|) == Ok(s)
  {
    hide EncodeOne, DecodeOne, Inverts, Storable;
    OneReads(s, coder, env, refs, true);
  }

  lemma StreamReads(s: bytes, coder: Coder, env: Env, refs: StreamRefs, strict: bool)
    requires Inverts(coder, env, refs) && EncodeOne(s, coder).Some? && Storable(s)
    ensures DecodeOne(env, refs, SlotOf(s, coder), Payload(s, coder), |s|, strict) == Ok(s)
  {
    hide EncodeOne, DecodeOne, Inverts, Storable;
    OneReads(s, coder, env, refs, strict);
  }

  lemma ThreeFromPieces(env: Env, refs: StreamRefs, l: Limits, slots: seq<Slot>, x: bytes, y: bytes, z: bytes, d: Decoded,
                        units: Option<nat>, offPer: nat)
    requires |slots| == 3 && FetchStreams(env, l, refs, [|x|, |y|, |z|]) == Ok((slots, x + y + z))
    requires DecodeCommands(env, refs, slots[0], x, |d.commands|) == Ok(d.commands)
    requires DecodeOne(env, refs, slots[1], y, |d.literals|, true) == Ok(d.literals)
    requires DecodeOne(env, refs, slots[2], z, |d.offsets|, false) == Ok(d.offsets)
    requires |d.offsets| == (if units.Some? then units.value else Copies(d.commands)) * offPer <= l.maxAllocBytes
    requires d.extra == []
    ensures DecodeThree(env, l, refs, |x|, |y|, |z|, |d.commands|, |d.literals|, units, offPer) == Ok(d)
  {
    hide Copies, FetchStreams, DecodeOne, DecodeCommands;
    var enc := x + y + z;
    assert enc[..|x|] == x;
    assert enc[|x|..|x| + |y|] == y;
    assert enc[|x| + |y|..] == z;
  }

  /** Three stored streams are decoded back unchanged. */
  lemma ThreeRead(d: Decoded, coder: Coder, env: Env, refs: StreamRefs, l: Limits, units: Option<nat>, offPer: nat)
    requires d.commands != [] && d.extra == []
    requires Storable(d.commands) && Storable(d.literals) && Storable(d.offsets)
    requires EncodeN([d.commands, d.literals, d.offsets], coder).Some? && Inverts(coder, env, refs)
    requires Stored(EncodeN([d.commands, d.literals, d.offsets], coder).value, env, refs, l)
    requires |d.offsets| == (if units.Some? then units.value else Copies(d.commands)) * offPer <= l.maxAllocBytes
    ensures var e := EncodeN([d.commands, d.literals, d.offsets], coder).value;
            DecodeThree(env, l, refs, e.lens[0], e.lens[1], e.lens[2], |d.commands|, |d.literals|, units, offPer) == Ok(d)
  {
    hide EncodeOne, EncodeN, SlotsOf, Payload, SlotOf, Copies, FetchStreams, DecodeOne, DecodeCommands, DecodeThree,
         Inverts, Stored, Storable;
    FetchReads([d.commands, d.literals, d.offsets], coder, env, refs, l);
    UnpackThree(d.commands, d.literals, d.offsets, coder);
    CommandsRead(d.commands, coder, env, refs);
    StreamReads(d.literals, coder, env, refs, true);
    StreamReads(d.offsets, coder, env, refs, false);
    ThreeFromPieces(env, refs, l, SlotsOf([d.commands, d.literals, d.offsets], coder), Payload(d.commands, coder),
                    Payload(d.literals, coder), Payload(d.offsets, coder), d, units, offPer);
  }

  lemma FourFromPieces(env: Env, refs: StreamRefs, l: Limits, slots: seq<Slot>, x: bytes, y: bytes, z: bytes, w: bytes,
                       d: Decoded)
    requires |slots| == 4 && FetchStreams(env, l, refs, [|x|, |y|, |z|, |w|]) == Ok((slots, x + y + z + w))
    requires DecodeCommands(env, refs, slots[0], x, |d.commands|) == Ok(d.commands)
    requires DecodeOne(env, refs, slots[1], y, |d.literals|, true) == Ok(d.literals)
    requires DecodeOne(env, refs, slots[2], z, |d.offsets|, false) == Ok(d.offsets)
    requires DecodeOne(env, refs, slots[3], w, |d.extra|, false) == Ok(d.extra)
    requires |d.extra| == Copies(d.commands) && |d.offsets| == Copies(d.commands) * 2 <= l.maxAllocBytes
    ensures DecodeFour(env, l, refs, |x|, |y|, |z|, |w|, |d.commands|, |d.literals|) == Ok(d)
  {
    hide Copies, FetchStreams, DecodeOne, DecodeCommands;
    var enc := x + y + z + w;
    assert enc[..|x|] == x;
    assert enc[|x|..|x| + |y|] == y;
    assert enc[|x| + |y|..|x| + |y| + |z|] == z;
    assert enc[|x| + |y| + |z|..] == w;
  }

  /** Four stored streams of the dictionary families are decoded back unchanged. */
  lemma FourRead(d: Decoded, coder: Coder, env: Env, refs: StreamRefs, l: Limits)
    requires d.commands != [] && |d.extra| == Copies(d.commands)
    requires Storable(d.commands) && Storable(d.literals) && Storable(d.offsets) && Storable(d.extra)
    requires EncodeN([d.commands, d.literals, d.offsets, d.extra], coder).Some? && Inverts(coder, env, refs)
    requires Stored(EncodeN([d.commands, d.literals, d.offsets, d.extra], coder).value, env, refs, l)
    requires |d.offsets| == Copies(d.commands) * 2 <= l.maxAllocBytes
    ensures var e := EncodeN([d.commands, d.literals, d.offsets, d.extra], coder).value;
            DecodeFour(env, l, refs, e.lens[0], e.lens[1], e.lens[2], e.lens[3], |d.commands|, |d.literals|) == Ok(d)
  {
    hide EncodeOne, EncodeN, SlotsOf, Payload, SlotOf, Copies, FetchStreams, DecodeOne, DecodeCommands, DecodeFour,
         Inverts, Stored, Storable;
    FetchReads([d.commands, d.literals, d.offsets, d.extra], coder, env, refs, l);
    UnpackFour(d.commands, d.literals, d.offsets, d.extra, coder);
    CommandsRead(d.commands, coder, env, refs);
    StreamReads(d.literals, coder, env, refs, true);
    StreamReads(d.offsets, coder, env, refs, false);
    StreamReads(d.extra, coder, env, refs, false);
    FourFromPieces(env, refs, l, SlotsOf([d.commands, d.literals, d.offsets, d.extra], coder), Payload(d.commands, coder),
                   Payload(d.literals, coder), Payload(d.offsets, coder), Payload(d.extra, coder), d);
  }

  lemma DeepFromPieces(env: Env, refs: StreamRefs, l: Limits, slots: seq<Slot>, x: bytes, y: bytes, z: bytes, w: bytes,
                       d: Decoded)
    requires |slots| == 4 && FetchStreams(env, l, refs, [|x|, |y|, |z|, |w|]) == Ok((slots, x + y + z + w))
    requires DecodeCommands(env, refs, slots[0], x, |d.commands|) == Ok(d.commands)
    requires DecodeOne(env, refs, slots[1], y, |d.literals|, true) == Ok(d.literals)
    requires DecodeOne(env, refs, slots[2], z, |d.offsets|, true) == Ok(d.offsets)
    requires DecodeOne(env, refs, slots[3], w, |d.extra|, true) == Ok(d.extra)
    requires DeepShape(d) && |d.offsets| <= l.maxAllocBytes && |d.extra| <= l.maxAllocBytes
    ensures DecodeDeep(env, l, refs, |x|, |y|, |z|, |w|, |d.commands|, |d.literals|) == Ok(d)
  {
    hide NewDistances, ExtendedCount, FetchStreams, DecodeOne, DecodeCommands;
    var enc := x + y + z + w;
    assert enc[..|x|] == x;
    assert enc[|x|..|x| + |y|] == y;
    assert enc[|x| + |y|..|x| + |y| + |z|] == z;
    assert enc[|x| + |y| + |z|..] == w;
  }

  /** Four stored streams of the deep family are decoded back unchanged. */
  lemma DeepRead(d: Decoded, coder: Coder, env: Env, refs: StreamRefs, l: Limits)
    requires d.commands != [] && DeepShape(d)
    requires Storable(d.commands) && Storable(d.literals) && Storable(d.offsets) && Storable(d.extra)
    requires EncodeN([d.commands, d.literals, d.offsets, d.extra], coder).Some? && Inverts(coder, env, refs)
    requires Stored(EncodeN([d.commands, d.literals, d.offsets, d.extra], coder).value, env, refs, l)
    requires |d.offsets| <= l.maxAllocBytes && |d.extra| <= l.maxAllocBytes
    ensures var e := EncodeN([d.commands, d.literals, d.offsets, d.extra], coder).value;
            DecodeDeep(env, l, refs, e.lens[0], e.lens[1], e.lens[2], e.lens[3], |d.commands|, |d.literals|) == Ok(d)
  {
    hide EncodeOne, EncodeN, SlotsOf, Payload, SlotOf, DeepShape, FetchStreams, DecodeOne, DecodeCommands, DecodeDeep,
         Inverts, Stored, Storable;
    FetchReads([d.commands, d.literals, d.offsets, d.extra], coder, env, refs, l);
    UnpackFour(d.commands, d.literals, d.offsets, d.extra, coder);
    CommandsRead(d.commands, coder, env, refs);
    StreamReads(d.literals, coder, env, refs, true);
    StreamReads(d.offsets, coder, env, refs, true);
    StreamReads(d.extra, coder, env, refs, true);
    DeepFromPieces(env, refs, l, SlotsOf([d.commands, d.literals, d.offsets, d.extra], coder), Payload(d.commands, coder),
                   Payload(d.literals, coder), Payload(d.offsets, coder), Payload(d.extra, coder), d);
  }
}

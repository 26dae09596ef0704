/**
 The stream objects behind the sequence families (src/rans/sequence.rs): N raw
 streams are stored as one model object of N slots and one object of N
 concatenated payloads, and are decoded back with every length checked.
 */
module Streams {
  import opened Bytes
  import opened Checked
  import opened Descriptor
  import opened Context

  datatype Slot = RansSlot(model: bytes) | RawSlot | EmptySlot

  const SLOT_RANS: byte := 0
  const SLOT_RAW: byte := 1
  const SLOT_EMPTY: byte := 2

  // ----- model objects -----

  /** `parse_model_object_slots` from byte `pos` on; nothing stands for any `SequenceError`. */
  function ParseSlots(b: bytes, pos: nat, n: nat): Option<seq<Slot>>
    decreases n
  {
    if n == 0 then if pos == |b| then Some([]) else None
    else if pos + 3 > |b| then None
    else
      var kind, len := b[pos], FromLe(b[pos + 1..pos + 3]);
      var body := pos + 3;
      var slot :=
        if kind == SLOT_RANS then
          if body + len > |b| then None else Some(RansSlot(b[body..body + len]))
        else if kind == SLOT_RAW && len == 0 then Some(RawSlot)
        else if kind == SLOT_EMPTY && len == 0 then Some(EmptySlot)
        else None;
      match slot
      case None => None
      case Some(s) =>
        match ParseSlots(b, body + len, n - 1)
        case None => None
        case Some(rest) => Some([s] + rest)
  }

  lemma {:induction false} ParseSlotsCount(b: bytes, pos: nat, n: nat)
    ensures ParseSlots(b, pos, n).Some? ==> |ParseSlots(b, pos, n).value| == n
    decreases n
  {
    if n > 0 && pos + 3 <= |b| {
      ParseSlotsCount(b, pos + 3 + FromLe(b[pos + 1..pos + 3]), n - 1);
    }
  }

  function MaxModelObject(l: Limits, n: nat): nat {
    var m := if l.maxModelBytes * n > U64_MAX then U64_MAX else l.maxModelBytes * n;
    if m + 64 > U64_MAX then U64_MAX else m + 64
  }

  // ----- decoding -----

  /** One stream by its slot, to exactly `expected` bytes. */
  function DecodeOne(env: Env, refs: StreamRefs, slot: Slot, slice: bytes, expected: nat, strict: bool)
    : (r: Result<bytes>)
    ensures r.Ok? ==> |r.value| == expected
  {
    match slot
    case RansSlot(m) =>
      var out :- env.decodeRans(m, slice, refs.scaleBits, refs.codec, expected);
      :- Need(|out| == expected, InvalidDescriptor);
      Ok(out)
    case RawSlot =>
      :- Need(|slice| == expected, InvalidDescriptor);
      Ok(slice)
    case EmptySlot =>
      :- Need(expected == 0 && (strict ==> |slice| == 0), InvalidDescriptor);
      Ok([])
  }

  function Total(lens: seq<nat>): nat {
    if lens == [] then 0 else lens[0] + Total(lens[1..])
  }

  /** The model slots and the stored payload, once the lengths compose exactly. */
  function FetchStreams(env: Env, l: Limits, refs: StreamRefs, lens: seq<nat>)
    : (r: Result<(seq<Slot>, bytes)>)
    ensures r.Ok? ==> |r.value.0| == |lens| && |r.value.1| == Total(lens)
  {
    var total := Total(lens);
    :- Need(total <= l.maxAllocBytes, AllocTooLarge(total, l.maxAllocBytes));
    var model :- env.fetchObject(refs.model);
    :- Need(|model| <= MaxModelObject(l, |lens|), Sequence);
    var slots := ParseSlots(model, 0, |lens|);
    ParseSlotsCount(model, 0, |lens|);
    :- Need(slots.Some?, Sequence);
    var enc :- env.fetchObject(refs.encObj);
    :- Need(|enc| == total, InvalidDescriptor);
    Ok((slots.value, enc))
  }

  /** The command stream: never stored as an empty slot. */
  function DecodeCommands(env: Env, refs: StreamRefs, slot: Slot, slice: bytes, expected: nat)
    : (r: Result<bytes>)
    ensures r.Ok? ==> |r.value| == expected
  {
    var stored := !slot.EmptySlot?;
    :- Need(stored, InvalidDescriptor);
    DecodeOne(env, refs, slot, slice, expected, true)
  }

  function Copies(commands: bytes): nat {
    if commands == [] then 0
    else (if commands[0] >= 0x80 then 1 else 0) + Copies(commands[1..])
  }

  datatype Decoded = Decoded(commands: bytes, literals: bytes, offsets: bytes, extra: bytes)

  /** `decode_three_streams` (src/rans/sequence.rs:1748). */
  function DecodeThree(env: Env, l: Limits, refs: StreamRefs, seqLen: nat, litLen: nat, offLen: nat,
                       cmds: nat, litOut: nat, units: Option<nat>, offPer: nat)
    : (r: Result<Decoded>)
    ensures r.Ok? ==> |r.value.commands| == cmds && |r.value.literals| == litOut
    ensures r.Ok? && units.None? ==> |r.value.offsets| == Copies(r.value.commands) * offPer
    ensures r.Ok? && units.Some? ==> |r.value.offsets| == units.value * offPer
  {
    var lens := [seqLen, litLen, offLen];
    var fetched :- FetchStreams(env, l, refs, lens);
    var (slots, enc) := fetched;
    TotalOfThree(seqLen, litLen, offLen);
    var commands :- DecodeCommands(env, refs, slots[0], enc[..seqLen], cmds);
    var copies := if units.Some? then units.value else Copies(commands);
    :- Need(copies * offPer <= U64_MAX, InvalidDescriptor);
    :- Need(copies * offPer <= l.maxAllocBytes, AllocTooLarge(copies * offPer, l.maxAllocBytes));
    var literals :- DecodeOne(env, refs, slots[1], enc[seqLen..seqLen + litLen], litOut, true);
    var offsets :- DecodeOne(env, refs, slots[2], enc[seqLen + litLen..], copies * offPer, false);
    Ok(Decoded(commands, literals, offsets, []))
  }

  /** `decode_four_streams` (src/rans/sequence.rs:1799): one source byte and one `u16` per copy. */
  function DecodeFour(env: Env, l: Limits, refs: StreamRefs, seqLen: nat, litLen: nat, offLen: nat,
                      srcLen: nat, cmds: nat, litOut: nat)
    : (r: Result<Decoded>)
    ensures r.Ok? ==> |r.value.commands| == cmds && |r.value.literals| == litOut
    ensures r.Ok? ==> |r.value.offsets| == Copies(r.value.commands) * 2
    ensures r.Ok? ==> |r.value.extra| == Copies(r.value.commands)
  {
    var lens := [seqLen, litLen, offLen, srcLen];
    var fetched :- FetchStreams(env, l, refs, lens);
    var (slots, enc) := fetched;
    TotalOfFour(seqLen, litLen, offLen, srcLen);
    var a, b, c := seqLen, seqLen + litLen, seqLen + litLen + offLen;
    var commands :- DecodeCommands(env, refs, slots[0], enc[..a], cmds);
    var copies := Copies(commands);
    :- Need(copies * 2 <= U64_MAX, InvalidDescriptor);
    :- Need(copies * 2 <= l.maxAllocBytes, AllocTooLarge(copies * 2, l.maxAllocBytes));
    var literals :- DecodeOne(env, refs, slots[1], enc[a..b], litOut, true);
    var offsets :- DecodeOne(env, refs, slots[2], enc[b..c], copies * 2, false);
    var sources :- DecodeOne(env, refs, slots[3], enc[c..], copies, false);
    Ok(Decoded(commands, literals, offsets, sources))
  }

  // The deep command ranges (src/rans/sequence.rs:237-257).
  const DEEP_LIT_MAX := 0x7F
  const DEEP_COPY_MIN := 0x80
  const DEEP_COPY_MAX := 0xBF
  const DEEP_REP0_MIN := 0xC0
  const DEEP_REP0_MAX := 0xDF
  const DEEP_REP1_MIN := 0xE0
  const DEEP_REP1_MAX := 0xEF
  const DEEP_XCOPY := 0xF0
  const DEEP_XLIT := 0xF1

  predicate NewDistance(cmd: byte) {
    DEEP_COPY_MIN <= cmd <= DEEP_COPY_MAX || cmd == DEEP_XCOPY
  }

  predicate Extended(cmd: byte) {
    cmd == DEEP_XCOPY || cmd == DEEP_XLIT
  }

  function NewDistances(commands: bytes): nat {
    if commands == [] then 0
    else (if NewDistance(commands[0]) then 1 else 0) + NewDistances(commands[1..])
  }

  function ExtendedCount(commands: bytes): nat {
    if commands == [] then 0
    else (if Extended(commands[0]) then 1 else 0) + ExtendedCount(commands[1..])
  }

  /** Deep streams whose lengths agree with their commands. */
  ghost predicate DeepShape(d: Decoded) {
    && (forall i :: 0 <= i < |d.commands| ==> d.commands[i] <= DEEP_XLIT)
    && |d.offsets| == NewDistances(d.commands) * 2
    && |d.extra| == ExtendedCount(d.commands) * 2
  }

  /** `decode_deep_streams` (src/rans/sequence.rs:1857). */
  function DecodeDeep(env: Env, l: Limits, refs: StreamRefs, seqLen: nat, litLen: nat, offLen: nat,
                      lenLen: nat, cmds: nat, litOut: nat)
    : (r: Result<Decoded>)
    ensures r.Ok? ==> |r.value.commands| == cmds && |r.value.literals| == litOut
    ensures r.Ok? ==> forall i :: 0 <= i < cmds ==> r.value.commands[i] <= DEEP_XLIT
    ensures r.Ok? ==> |r.value.offsets| == NewDistances(r.value.commands) * 2
    ensures r.Ok? ==> |r.value.extra| == ExtendedCount(r.value.commands) * 2
  {
    var lens := [seqLen, litLen, offLen, lenLen];
    var fetched :- FetchStreams(env, l, refs, lens);
    var (slots, enc) := fetched;
    TotalOfFour(seqLen, litLen, offLen, lenLen);
    var a, b, c := seqLen, seqLen + litLen, seqLen + litLen + offLen;
    var commands :- DecodeCommands(env, refs, slots[0], enc[..a], cmds);
    :- Need(forall i :: 0 <= i < |commands| ==> commands[i] <= DEEP_XLIT, InvalidDescriptor);
    var offOut, lenOut := NewDistances(commands) * 2, ExtendedCount(commands) * 2;
    :- Need(offOut <= l.maxAllocBytes && lenOut <= l.maxAllocBytes,
            AllocTooLarge(if offOut >= lenOut then offOut else lenOut, l.maxAllocBytes));
    var literals :- DecodeOne(env, refs, slots[1], enc[a..b], litOut, true);
    var offsets :- DecodeOne(env, refs, slots[2], enc[b..c], offOut, true);
    var lengths :- DecodeOne(env, refs, slots[3], enc[c..], lenOut, true);
    Ok(Decoded(commands, literals, offsets, lengths))
  }

  lemma TotalOfThree(a: nat, b: nat, c: nat)
    ensures Total([a, b, c]) == a + b + c
  {
    assert Total([c]) == c;
    assert [b, c][1..] == [c];
    assert Total([b, c]) == b + c;
    assert [a, b, c][1..] == [b, c];
  }

  lemma TotalOfFour(a: nat, b: nat, c: nat, d: nat)
    ensures Total([a, b, c, d]) == a + b + c + d
  {
    assert [a, b, c, d][1..] == [b, c, d];
    TotalOfThree(b, c, d);
  }
}

/**
 The materializer as the source runs it (src/core/materialize.rs:339-1453): it
 fills `output` in place, pays from `budget` as it goes and recurses into the
 chunks a descriptor refers to. Every method here computes exactly the
 budget-free attempt of `Materializer`, charged against the budget, and what it
 leaves in `output` never depends on what was there before.
 */
module Interpreter {
  import opened Bytes
  import opened Descriptor
  import opened Context
  import opened Streams
  import opened CommandWalk
  import opened Materializer
  import SubsetRank
  import MultisetRank
  import PermutationRank

  // ----- filling -----

  method FillWith(output: array<byte>, value: byte)
    modifies output
    ensures output[..] == Fill(value, output.Length)
  {
    forall x | 0 <= x < output.Length {
      output[x] := value;
    }
  }

  method CopyAll(output: array<byte>, data: bytes)
    requires |data| == output.Length
    modifies output
    ensures output[..] == data
  {
    CopyIn(output, 0, data);
    assert output[..] == output[..0 + |data|];
  }

  // ----- residuals -----

  lemma EditStep(out: bytes, edits: seq<Edit>, i: nat, unit: nat, cost: nat)
    requires i < |edits|
    ensures ApplyEdits(out, edits[i..], unit, cost)
         == (var e := edits[i];
             if e.pos >= |out| then Bad(BadResidual, cost)
             else ApplyEdits(out[e.pos := Xor(out[e.pos], e.val)], edits[i + 1..], unit, cost + unit))
  {
    assert edits[i..][1..] == edits[i + 1..];
  }

  /** The XOR-edit loop; entropy references run it unpaid. */
  method EditsInto(output: array<byte>, edits: seq<Edit>, unit: nat, budget: nat) returns (r: Outcome)
    modifies output
    ensures var a := ApplyEdits(old(output[..]), edits, unit, 0);
            r == Charge(a, budget) && (r.Done? ==> output[..] == a.data)
  {
    hide ApplyEdits;
    ghost var a := ApplyEdits(output[..], edits, unit, 0);
    var left, cost: nat := budget, 0;
    assert edits[0..] == edits;
    for i := 0 to |edits|
      invariant cost + left == budget
      invariant a == ApplyEdits(output[..], edits[i..], unit, cost)
    {
      EditStep(output[..], edits, i, unit, cost);
      var e := edits[i];
      if e.pos >= output.Length {
        return Failed(BadResidual);
      }
      ghost var was := output[..];
      output[e.pos] := Xor(output[e.pos], e.val);
      assert output[..] == was[e.pos := Xor(was[e.pos], e.val)];
      var paid := Spend(unit, left);
      if paid.Failed? {
        return paid;
      }
      left, cost := paid.left, cost + unit;
    }
    EditsDone(output[..], unit, cost);
    return Done(left);
  }

  lemma EditsDone(out: bytes, unit: nat, cost: nat)
    ensures ApplyEdits(out, [], unit, cost) == Good(out, cost)
  {
  }

  lemma ChangeStep(out: bytes, changes: seq<RangeChange>, i: nat, literals: bytes, lit: nat)
    requires i < |changes|
    ensures ApplyChanges(out, changes[i..], literals, lit)
         == (var c := changes[i];
             if c.end > |out| || c.start >= c.end || lit + (c.end - c.start) > |literals| then Bad(BadResidual, lit)
             else ApplyChanges(out[..c.start] + literals[lit..lit + (c.end - c.start)] + out[c.end..],
                               changes[i + 1..], literals, lit + (c.end - c.start)))
  {
    assert changes[i..][1..] == changes[i + 1..];
  }

  lemma ChangesDone(out: bytes, literals: bytes, lit: nat)
    ensures ApplyChanges(out, [], literals, lit) == Good(out, lit)
  {
  }

  method ReplaceRange(output: array<byte>, start: nat, end: nat, data: bytes)
    requires start <= end <= output.Length && |data| == end - start
    modifies output
    ensures output[..] == old(output[..])[..start] + data + old(output[..])[end..]
  {
    CopyIn(output, start, data);
    assert output[..] == output[..start + |data|] + output[start + |data|..];
  }

  /** The range-replacement loop. */
  method ChangesInto(output: array<byte>, changes: seq<RangeChange>, literals: bytes, budget: nat)
    returns (r: Outcome)
    modifies output
    ensures var a := ApplyChanges(old(output[..]), changes, literals, 0);
            r == Charge(a, budget) && (r.Done? ==> output[..] == a.data)
  {
    hide ApplyChanges;
    ghost var a := ApplyChanges(output[..], changes, literals, 0);
    var left, lit: nat := budget, 0;
    assert changes[0..] == changes;
    for i := 0 to |changes|
      invariant lit + left == budget
      invariant a == ApplyChanges(output[..], changes[i..], literals, lit)
    {
      ChangeStep(output[..], changes, i, literals, lit);
      var c := changes[i];
      if c.end > output.Length || c.start >= c.end || lit + (c.end - c.start) > |literals| {
        return Failed(BadResidual);
      }
      var take := c.end - c.start;
      ReplaceRange(output, c.start, c.end, literals[lit..lit + take]);
      var paid := Spend(take, left);
      if paid.Failed? {
        return paid;
      }
      left, lit := paid.left, lit + take;
    }
    assert changes[|changes|..] == [];
    ChangesDone(output[..], literals, lit);
    return Done(left);
  }

  /** `apply_residual` (src/core/materialize.rs:1507). */
  method ResidualInto(res: Residual, base: bytes, output: array<byte>, env: Env, l: Limits, budget: nat)
    returns (r: Outcome)
    modifies output
    ensures var a := ApplyResidual(res, base, output.Length, env, l);
            r == Charge(a, budget) && (r.Done? ==> output[..] == a.data)
  {
    hide ApplyEdits, ApplyChanges, Walk, DecodeObject, DecodeThree;
    var n := output.Length;
    if n != res.len {
      return Failed(BadResidual);
    }
    if !res.BaseSequence? && |base| < n {
      return Failed(BadResidual);
    }
    match res
    case XorSparse(_, edits) =>
      CopyAll(output, base[..n]);
      r := EditsInto(output, edits, 1, budget);
    case RangeReplace(_, changes, literals) =>
      CopyAll(output, base[..n]);
      r := ChangesInto(output, changes, literals, budget);
    case RansCoded(_, refs, decodedLen) =>
      if decodedLen != n {
        return Failed(BadResidual);
      }
      var diff := DecodeObject(env, l, refs, n, BadResidual);
      if diff.Err? {
        return Failed(diff.error);
      }
      forall x | 0 <= x < n {
        output[x] := Xor(base[x], diff.value[x]);
      }
      assert output[..] == XorAll(base, diff.value);
      return Done(budget);
    case BaseSequence(_, refs, seqLen, litLen, offLen, cmds, litOut) =>
      if cmds > n {
        return Failed(BadResidual);
      }
      var d := DecodeThree(env, l, refs, seqLen, litLen, offLen, cmds, litOut, Checked.None, 4);
      if d.Err? {
        return Failed(BadResidual);
      }
      r := WalkInto(FromBase(base), d.value, output, budget);
  }

  // ----- configurational families -----

  lemma PlaceStep(out: bytes, base: nat, positions: seq<nat>, literals: bytes, i: nat)
    requires |positions| == |literals| && i < |positions|
    ensures Place(out, base, positions[i..], literals[i..])
         == (var p := base + positions[i];
             if p >= |out| then Checked.None
             else Place(out[p := literals[i]], base, positions[i + 1..], literals[i + 1..]))
  {
    assert positions[i..][1..] == positions[i + 1..] && literals[i..][1..] == literals[i + 1..];
  }

  /** Scatter literals over positions relative to `base`. */
  method PlaceInto(output: array<byte>, base: nat, positions: seq<nat>, literals: bytes) returns (ok: bool)
    requires |positions| == |literals|
    modifies output
    ensures var p := Place(old(output[..]), base, positions, literals);
            ok == p.Some? && (ok ==> output[..] == p.value)
  {
    hide Place;
    ghost var target := Place(output[..], base, positions, literals);
    assert positions[0..] == positions && literals[0..] == literals;
    for i := 0 to |positions|
      invariant target == Place(output[..], base, positions[i..], literals[i..])
    {
      PlaceStep(output[..], base, positions, literals, i);
      var p := base + positions[i];
      if p >= output.Length {
        return false;
      }
      ghost var was := output[..];
      output[p] := literals[i];
      assert output[..] == was[p := literals[i]];
    }
    PlaceDone(output[..], base);
    return true;
  }

  lemma PlaceDone(out: bytes, base: nat)
    ensures Place(out, base, [], []) == Checked.Some(out)
  {
  }

  method SparseInto(k: u32, rank: u128, literals: bytes, output: array<byte>) returns (r: Outcome)
    requires output.Length <= U64_MAX
    modifies output
    ensures var a := SparseBytes(k, rank, literals, output.Length);
            r == Charge(a, 0) && (r.Done? ==> output[..] == a.data)
  {
    hide Place, SubsetRank.UnrankSubset;
    FillWith(output, 0);
    if k > output.Length {
      return Failed(InvalidDescriptor);
    }
    var positions := SubsetRank.UnrankCombSubset(rank, output.Length, k);
    if positions.Err? || |positions.value| != k || |literals| != k {
      return Failed(InvalidDescriptor);
    }
    var ok := PlaceInto(output, 0, positions.value, literals);
    return if ok then Done(0) else Failed(InvalidDescriptor);
  }

  method TableInto(table: bytes, q: SubsetRank.Ranked<seq<nat>>, output: array<byte>) returns (r: Outcome)
    modifies output
    ensures var a := TableBytes(table, q, output.Length);
            r == Charge(a, 0) && (r.Done? ==> output[..] == a.data)
  {
    if q.Err? || |q.value| != output.Length {
      return Failed(InvalidDescriptor);
    }
    for i := 0 to output.Length
      invariant forall j :: 0 <= j < i ==> q.value[j] < |table| && output[j] == table[q.value[j]]
    {
      if q.value[i] >= |table| {
        return Failed(InvalidDescriptor);
      }
      output[i] := table[q.value[i]];
    }
    assert AllBelow(q.value, |table|);
    assert output[..] == Lookup(table, q.value);
    return Done(0);
  }

  lemma RepeatStep(pattern: bytes, count: nat, tail: bytes, n: nat, out: bytes, cost: nat)
    requires |out| <= n && count > 0
    ensures Repeat(pattern, count, tail, n, out, cost)
         == (if |out| + |pattern| > n then Bad(InvalidDescriptor, cost)
             else Repeat(pattern, count - 1, tail, n, out + pattern, cost + |pattern| / 8 + 1))
  {
  }

  lemma RepeatDone(pattern: bytes, tail: bytes, n: nat, out: bytes, cost: nat)
    requires |out| <= n
    ensures Repeat(pattern, 0, tail, n, out, cost)
         == if |out| + |tail| != n then Bad(InvalidDescriptor, cost) else Good(out + tail, cost)
  {
  }

  method RepeatInto(pattern: bytes, count: nat, tail: bytes, output: array<byte>, budget: nat) returns (r: Outcome)
    modifies output
    ensures var a := Repeat(pattern, count, tail, output.Length, [], 0);
            r == Charge(a, budget) && (r.Done? ==> output[..] == a.data)
  {
    hide Repeat;
    var n := output.Length;
    ghost var a := Repeat(pattern, count, tail, n, [], 0);
    var written: nat, left, cost: nat := 0, budget, 0;
    assert output[..0] == [];
    for i := 0 to count
      invariant written <= n && cost + left == budget
      invariant a == Repeat(pattern, count - i, tail, n, output[..written], cost)
    {
      RepeatStep(pattern, count - i, tail, n, output[..written], cost);
      if written + |pattern| > n {
        return Failed(InvalidDescriptor);
      }
      CopyIn(output, written, pattern);
      written := written + |pattern|;
      var paid := Spend(|pattern| / 8 + 1, left);
      if paid.Failed? {
        return paid;
      }
      left, cost := paid.left, cost + |pattern| / 8 + 1;
    }
    RepeatDone(pattern, tail, n, output[..written], cost);
    if written + |tail| != n {
      return Failed(InvalidDescriptor);
    }
    CopyIn(output, written, tail);
    assert output[..] == output[..written + |tail|];
    return Done(left);
  }

  lemma BlocksStep(popcounts: bytes, ranks: bytes, literals: bytes, w: nat, out: bytes, lit: nat, rank: nat, cost: nat)
    requires w < |popcounts| && popcounts[w] > 0
    ensures Blocks(popcounts, ranks, literals, w, out, lit, rank, cost)
         == (var k := popcounts[w];
             if k > 64 || rank + 8 > |ranks| || lit + k > |literals| then Bad(InvalidDescriptor, cost)
             else
               var q := SubsetRank.UnrankSubset(FromLe(ranks[rank..rank + 8]), 64, k);
               if q.Err? || |q.value| != k then Bad(InvalidDescriptor, cost)
               else
                 var p := Place(out, w * 8, q.value, literals[lit..lit + k]);
                 if p.None? then Bad(InvalidDescriptor, cost)
                 else Blocks(popcounts, ranks, literals, w + 1, p.value, lit + k, rank + 8, cost + k + 1))
  {
  }

  lemma BlocksSkip(popcounts: bytes, ranks: bytes, literals: bytes, w: nat, out: bytes, lit: nat, rank: nat, cost: nat)
    requires w <= |popcounts|
    ensures w == |popcounts| ==>
              Blocks(popcounts, ranks, literals, w, out, lit, rank, cost)
              == if lit != |literals| then Bad(InvalidDescriptor, cost) else Good(out, cost)
    ensures w < |popcounts| && popcounts[w] == 0 ==>
              Blocks(popcounts, ranks, literals, w, out, lit, rank, cost)
              == Blocks(popcounts, ranks, literals, w + 1, out, lit, rank, cost)
  {
  }

  /** One nonzero word: unrank its byte positions and scatter its literals. */
  method WordInto(k: byte, word: bytes, literals: bytes, w: nat, output: array<byte>) returns (ok: bool)
    requires |word| == 8 && |literals| == k <= 64
    modifies output
    ensures var q := SubsetRank.UnrankSubset(FromLe(word), 64, k);
            if q.Err? || |q.value| != k then !ok
            else
              var p := Place(old(output[..]), w * 8, q.value, literals);
              ok == p.Some? && (ok ==> output[..] == p.value)
  {
    hide Place, SubsetRank.UnrankSubset;
    Widths();
    var q := SubsetRank.UnrankCombSubset(FromLe(word), 64, k);
    if q.Err? || |q.value| != k {
      return false;
    }
    ok := PlaceInto(output, w * 8, q.value, literals);
  }

  method BlocksInto(popcounts: bytes, ranks: bytes, literals: bytes, output: array<byte>, budget: nat)
    returns (r: Outcome)
    modifies output
    ensures var a := Blocks(popcounts, ranks, literals, 0, Fill(0, output.Length), 0, 0, 0);
            r == Charge(a, budget) && (r.Done? ==> output[..] == a.data)
  {
    hide Blocks, Place, SubsetRank.UnrankSubset;
    FillWith(output, 0);
    ghost var a := Blocks(popcounts, ranks, literals, 0, output[..], 0, 0, 0);
    var lit: nat, rank: nat, left, cost: nat := 0, 0, budget, 0;
    for w := 0 to |popcounts|
      invariant cost + left == budget
      invariant a == Blocks(popcounts, ranks, literals, w, output[..], lit, rank, cost)
    {
      var k := popcounts[w];
      BlocksSkip(popcounts, ranks, literals, w, output[..], lit, rank, cost);
      if k > 0 {
        BlocksStep(popcounts, ranks, literals, w, output[..], lit, rank, cost);
        if k > 64 || rank + 8 > |ranks| || lit + k > |literals| {
          return Failed(InvalidDescriptor);
        }
        var ok := WordInto(k, ranks[rank..rank + 8], literals[lit..lit + k], w, output);
        if !ok {
          return Failed(InvalidDescriptor);
        }
        lit, rank := lit + k, rank + 8;
        var paid := Spend(k + 1, left);
        if paid.Failed? {
          return paid;
        }
        left, cost := paid.left, cost + k + 1;
      }
    }
    BlocksSkip(popcounts, ranks, literals, |popcounts|, output[..], lit, rank, cost);
    if lit != |literals| {
      return Failed(InvalidDescriptor);
    }
    return Done(left);
  }

  method UniverseInto(d: Representation, output: array<byte>, env: Env, l: Limits, budget: nat) returns (r: Outcome)
    requires d.EntropyRef? && output.Length == d.len
    modifies output
    ensures var a := Universe0(env, d, l);
            r == Charge(a, budget) && (r.Done? ==> output[..] == a.data)
  {
    hide ApplyEdits, ApplyResidual;
    var generated := env.universeBytes(d.universe, d.seed, d.coordinate, d.len);
    if generated.Err? {
      return Failed(generated.error);
    }
    if |generated.value| != d.len {
      return Failed(Universe);
    }
    match d.residual
    case XorSparse(rlen, edits) =>
      if rlen != d.len {
        return Failed(BadResidual);
      }
      CopyAll(output, generated.value);
      r := EditsInto(output, edits, 0, budget);
    case RansCoded(_, _, _) =>
      r := ResidualInto(d.residual, generated.value, output, env, l, budget);
    case _ =>
      return Failed(BadResidual);
  }

  // ----- one descriptor -----

  method WalkStreamsInto(s: Result<Decoded>, m: Mode, output: array<byte>, budget: nat) returns (r: Outcome)
    modifies output
    ensures var a := WalkStreams(s, m, output.Length);
            r == Charge(a, budget) && (r.Done? ==> output[..] == a.data)
  {
    hide Walk;
    if s.Err? {
      return Failed(s.error);
    }
    r := WalkInto(m, s.value, output, budget);
  }

  method DeepInto(s: Result<Decoded>, output: array<byte>, budget: nat) returns (r: Outcome)
    modifies output
    ensures var a := match s case Err(e) => Bad(e, 0) case Ok(d) => WalkDeep(d, output.Length);
            r == Charge(a, budget) && (r.Done? ==> output[..] == a.data)
  {
    hide WalkDeep;
    if s.Err? {
      return Failed(s.error);
    }
    r := WalkDeepInto(s.value, output, budget);
  }

  method BytesInto(b: Result<bytes>, output: array<byte>, budget: nat) returns (r: Outcome)
    modifies output
    ensures var a := match b
                     case Err(e) => Bad(e, 0)
                     case Ok(data) => if |data| != output.Length then Bad(InvalidDescriptor, 0) else Good(data, 0);
            r == Charge(a, budget) && (r.Done? ==> output[..] == a.data)
  {
    if b.Err? {
      return Failed(b.error);
    }
    if |b.value| != output.Length {
      return Failed(InvalidDescriptor);
    }
    CopyAll(output, b.value);
    return Done(budget);
  }

  function Refill(r: Outcome, budget: nat): Outcome {
    if r.Done? then Done(budget) else r
  }

  /** The families that need no stored object: bytes, ranks and repetition. */
  method ConfigurationInto(d: Representation, output: array<byte>, env: Env, l: Limits, budget: nat)
    returns (r: Outcome)
    requires d.Sparse? || d.Palette? || d.Permutation? || d.Periodic?
    requires output.Length == Len(d)
    modifies output
    ensures var a := Finish(d, [], env, l);
            r == Charge(a, budget) && (r.Done? ==> output[..] == a.data)
  {
    hide SparseBytes, TableBytes, Repeat, MultisetRank.UnrankSequence, PermutationRank.UnrankPermutationOf;
    match d
    case Sparse(k, rank, literals, _) =>
      var s := SparseInto(k, rank, literals, output);
      r := Refill(s, budget);
    case Palette(palette, counts, rank, len) =>
      var symbols := MultisetRank.UnrankMultinomial(rank, len, counts);
      var t := TableInto(palette, symbols, output);
      r := Refill(t, budget);
    case Permutation(rank, alphabet, len) =>
      if len == 0 || len > 34 || |alphabet| != len {
        return Failed(InvalidDescriptor);
      }
      var seating := PermutationRank.UnrankPermutation(rank, len);
      var t := TableInto(alphabet, seating, output);
      r := Refill(t, budget);
    case Periodic(period, pattern, count, tail, _) =>
      if period == 0 || |pattern| != period {
        return Failed(InvalidDescriptor);
      }
      r := RepeatInto(pattern, count, tail, output, budget);
  }

  /** The families behind command or word streams. */
  method StreamsInto(d: Representation, inputs: seq<bytes>, output: array<byte>, env: Env, l: Limits, budget: nat)
    returns (r: Outcome)
    requires |inputs| == |Refs(d)|
    requires d.SequenceRans? || d.SparseBlock64? || d.SequenceDict? || d.SequenceSharedDict? || d.SequenceDeep?
    requires output.Length == Len(d)
    modifies output
    ensures var a := Finish(d, inputs, env, l);
            r == Charge(a, budget) && (r.Done? ==> output[..] == a.data)
  {
    hide WalkStreams, WalkDeep, Blocks, DecodeThree, DecodeFour, DecodeDeep;
    match d
    case SequenceRans(refs, seqLen, litLen, offLen, cmds, litOut, len) =>
      if len > l.maxAllocBytes {
        return Failed(AllocTooLarge(len, l.maxAllocBytes));
      }
      if cmds > len {
        return Failed(InvalidDescriptor);
      }
      var s := DecodeThree(env, l, refs, seqLen, litLen, offLen, cmds, litOut, Checked.None, 2);
      r := WalkStreamsInto(s, Local, output, budget);
    case SparseBlock64(refs, pcLen, rankLen, litLen, words, nonzero, litOut, len) =>
      if len > l.maxAllocBytes {
        return Failed(AllocTooLarge(len, l.maxAllocBytes));
      }
      if words * 8 < len {
        return Failed(InvalidDescriptor);
      }
      var s := DecodeThree(env, l, refs, pcLen, litLen, rankLen, words, litOut, Checked.Some(nonzero), 8);
      if s.Err? {
        return Failed(Sequence);
      }
      r := BlocksInto(s.value.commands, s.value.offsets, s.value.literals, output, budget);
    case SequenceDict(_, _, refs, seqLen, litLen, offLen, srcLen, cmds, litOut, _) =>
      var s := DecodeFour(env, l, refs, seqLen, litLen, offLen, srcLen, cmds, litOut);
      r := WalkStreamsInto(s, WithDict(inputs[0]), output, budget);
    case SequenceSharedDict(_, _, _, _, refs, seqLen, litLen, offLen, srcLen, cmds, litOut, _) =>
      var s := DecodeFour(env, l, refs, seqLen, litLen, offLen, srcLen, cmds, litOut);
      r := WalkStreamsInto(s, WithShared(if |inputs| > 1 then inputs[1] else [], inputs[0]), output, budget);
    case SequenceDeep(refs, seqLen, litLen, offLen, lenLen, cmds, litOut, len) =>
      if len > l.maxAllocBytes {
        return Failed(AllocTooLarge(len, l.maxAllocBytes));
      }
      if cmds > len {
        return Failed(InvalidDescriptor);
      }
      var s := DecodeDeep(env, l, refs, seqLen, litLen, offLen, lenLen, cmds, litOut);
      r := DeepInto(s, output, budget);
  }

  /** The dispatch by family, once the referenced chunks are materialized. */
  method FinishInto(d: Representation, inputs: seq<bytes>, output: array<byte>, env: Env, l: Limits, budget: nat)
    returns (r: Outcome)
    requires |inputs| == |Refs(d)| && output.Length == Len(d)
    modifies output
    ensures var a := Finish(d, inputs, env, l);
            r == Charge(a, budget) && (r.Done? ==> output[..] == a.data)
  {
    hide SparseBytes, TableBytes, Repeat, WalkStreams, WalkDeep, Blocks, DecodeThree, DecodeFour, DecodeDeep,
         DecodeObject, ApplyResidual, Universe0, MultisetRank.UnrankSequence, PermutationRank.UnrankPermutationOf;
    if d.Sparse? || d.Palette? || d.Permutation? || d.Periodic? {
      r := ConfigurationInto(d, output, env, l, budget);
      return;
    }
    if d.SequenceRans? || d.SparseBlock64? || d.SequenceDict? || d.SequenceSharedDict? || d.SequenceDeep? {
      r := StreamsInto(d, inputs, output, env, l, budget);
      return;
    }
    match d
    case Zero(_) =>
      FillWith(output, 0);
      return Done(budget);
    case FillByte(value, _) =>
      FillWith(output, value);
      return Done(budget);
    case Inline(data) =>
      CopyAll(output, data);
      return Done(budget);
    case Raw(obj, _) =>
      r := BytesInto(env.fetchObject(obj), output, budget);
    case Rans(refs, len) =>
      r := BytesInto(DecodeObject(env, l, refs, len, InvalidDescriptor), output, budget);
    case ExactRef(_, off, len) =>
      if off + len > |inputs[0]| {
        return Failed(RangeOutOfBounds);
      }
      CopyAll(output, inputs[0][off..off + len]);
      return Done(budget);
    case BaseResidual(_, _, residual, _) =>
      r := ResidualInto(residual, inputs[0], output, env, l, budget);
    case EntropyRef(_, _, _, _, _, _) =>
      r := UniverseInto(d, output, env, l, budget);
  }

  // ----- the recursion -----

  lemma ChargeAfter(a: Attempt, extra: nat, budget: nat)
    ensures Charge(a.After(extra), budget)
         == if budget < extra then Failed(BudgetExceeded) else Charge(a, budget - extra)
  {
  }

  /** `materialize` (src/core/materialize.rs:339). */
  method MaterializeInto(d: Representation, ctx: Context, l: Limits, depth: nat, budget: nat, output: array<byte>)
    returns (r: Outcome)
    modifies output
    ensures r == if output.Length != Len(d) then Failed(InvalidDescriptor)
                 else Charge(Eval(d, ctx, l, depth), budget)
    ensures r.Done? ==> output[..] == Eval(d, ctx, l, depth).data
    decreases Room(l, depth), |Refs(d)| + 1
  {
    hide Finish, Refs, EvalRefs;
    if output.Length != Len(d) {
      return Failed(InvalidDescriptor);
    }
    if Len(d) > l.maxChunkSize {
      return Failed(OutputTooLarge(Len(d), l.maxChunkSize));
    }
    if depth > l.maxReferenceDepth {
      return Failed(DepthExceeded(depth, l.maxReferenceDepth));
    }
    r := Spend(Len(d) / 8 + 1, budget);
    if r.Failed? {
      return;
    }
    var inputs;
    ghost var refs := EvalRefs(d, ctx, l, depth, 0);
    var left := r.left;
    r, inputs := ReferencesInto(d, ctx, l, depth, 0, left);
    if r.Done? {
      ChargeAfter(Finish(d, inputs, ctx.env, l), Bulk(Len(d)) + refs.cost, budget);
      r := FinishInto(d, inputs, output, ctx.env, l, r.left);
    }
  }

  /** Materialize the chunks `d` refers to, from number `i` on, each into a buffer of its own. */
  method ReferencesInto(d: Representation, ctx: Context, l: Limits, depth: nat, i: nat, budget: nat)
    returns (r: Outcome, inputs: seq<bytes>)
    requires i <= |Refs(d)| && depth <= l.maxReferenceDepth
    ensures match EvalRefs(d, ctx, l, depth, i)
            case Stuck(e, cost) => r == Charge(Bad(e, cost), budget)
            case Ready(data, cost) => r == Charge(Good([], cost), budget) && (r.Done? ==> inputs == data)
    decreases Room(l, depth), |Refs(d)| - i
  {
    hide Eval, Refs, Target;
    inputs := [];
    if i == |Refs(d)| {
      return Done(budget), [];
    }
    var t := Target(d, i, ctx, l);
    if t.Err? {
      return Failed(t.error), [];
    }
    var buffer := new byte[Len(t.value)];
    r := MaterializeInto(t.value, ctx, l, depth + 1, budget, buffer);
    if r.Failed? {
      return;
    }
    var rest;
    var first := buffer[..];
    r, rest := ReferencesInto(d, ctx, l, depth, i + 1, r.left);
    inputs := [first] + rest;
  }

  /** `materialize_to_vec` (src/core/materialize.rs:1786). */
  method MaterializeToVec(d: Representation, ctx: Context, l: Limits) returns (r: Result<bytes>)
    ensures r == Read(d, ctx, l)
  {
    hide Eval;
    if Len(d) > l.maxAllocBytes {
      return Err(AllocTooLarge(Len(d), l.maxAllocBytes));
    }
    var output := new byte[Len(d)];
    var o := MaterializeInto(d, ctx, l, 0, l.maxDecodeWork, output);
    return if o.Done? then Ok(output[..]) else Err(o.error);
  }

  /** What a reader of the whole chunk gets. */
  function Read(d: Representation, ctx: Context, l: Limits): Result<bytes> {
    if Len(d) > l.maxAllocBytes then Err(AllocTooLarge(Len(d), l.maxAllocBytes))
    else
      var a := Eval(d, ctx, l, 0);
      match Charge(a, l.maxDecodeWork)
      case Done(_) => Ok(a.data)
      case Failed(e) => Err(e)
  }
}

/**
 How much work a materialization can do. On validated descriptors every node of
 the unfolding spends at most a fixed multiple of its length, so the whole run
 is bounded by the number of nodes the depth cap allows.
 */
module WorkBound {
  import opened Nonlinear
  import opened Bytes
  import opened Descriptor
  import opened Context
  import opened Streams
  import opened CommandWalk
  import opened Materializer
  import opened Interpreter

  // ----- one node -----

  /** Accepted edits are at strictly increasing positions, so there are at most `len` of them. */
  lemma {:induction false} EditsFit(edits: seq<Edit>, i: nat, len: nat)
    requires i < |edits| && CheckEdits(edits, i, len).Valid?
    ensures edits[i].pos + (|edits| - i) <= len
    decreases |edits| - i
  {
    if i + 1 < |edits| { EditsFit(edits, i + 1, len); }
  }

  /** Accepted ranges do not overlap, so they replace at most `len` bytes. */
  lemma {:induction false} ChangesFit(changes: seq<RangeChange>, i: nat, len: nat, lits: nat, expected: nat)
    requires i <= |changes| && CheckChanges(changes, i, len, lits, expected).Valid?
    requires if i == 0 then expected == 0 else expected <= changes[i - 1].end <= len
    ensures lits <= len
    decreases |changes| - i
  {
    if i < |changes| {
      ChangesFit(changes, i + 1, len, lits, expected + (changes[i].end - changes[i].start));
    }
  }

  lemma ResidualCost(r: Residual, base: bytes, n: nat, env: Env, l: Limits)
    requires ValidateResidual(r, n, l).Valid?
    ensures ApplyResidual(r, base, n, env, l).cost <= n
  {
    hide Run, Tokens, ApplyEdits, ApplyChanges, DecodeThree, DecodeObject, CheckEdits, CheckChanges;
    match r
    case XorSparse(_, edits) =>
      if edits != [] { EditsFit(edits, 0, n); }
    case RangeReplace(_, changes, literals) =>
      ChangesFit(changes, 0, n, |literals|, 0);
    case RansCoded(_, _, _) =>
    case BaseSequence(_, _, _, _, _, _, _) =>
  }

  lemma UniverseCost(env: Env, d: Representation, l: Limits)
    requires d.EntropyRef? && ValidateResidual(d.residual, d.len, l).Valid?
    ensures Universe0(env, d, l).cost <= d.len
  {
    hide ApplyEdits, ApplyResidual, ValidateResidual;
    match env.universeBytes(d.universe, d.seed, d.coordinate, d.len)
    case Err(_) =>
    case Ok(generated) =>
      ResidualCost(d.residual, generated, d.len, env, l);
  }

  /** A validated descriptor spends at most two operations per byte beyond the bulk charge. */
  lemma FinishCost(d: Representation, inputs: seq<bytes>, env: Env, l: Limits)
    requires |inputs| == |Refs(d)| && Validate(d, l).Valid?
    ensures Finish(d, inputs, env, l).cost <= 2 * Len(d)
  {
    hide Walk, WalkDeep, DecodeThree, DecodeFour, DecodeDeep, DecodeObject, ApplyResidual, Universe0,
         SparseBytes, TableBytes, Repeat, Blocks, ValidateResidual, PayloadSize;
    if d.BaseResidual? {
      ResidualCost(d.residual, inputs[0], d.len, env, l);
    } else if d.EntropyRef? {
      UniverseCost(env, d, l);
    }
  }

  // ----- the whole run -----

  /** Everything the chunk index returns has passed validation. */
  ghost predicate ValidatedIndex(ctx: Context, l: Limits) {
    forall id :: ctx.fetchDescriptor(id).Ok? ==> Validate(ctx.fetchDescriptor(id).value, l).Valid?
  }

  /** The most one descriptor can spend by itself. */
  function NodeBound(l: Limits): nat {
    l.maxChunkSize / 8 + 1 + 2 * l.maxChunkSize
  }

  function RunBound(l: Limits, depth: nat): nat {
    (Pow2(Room(l, depth)) - 1) * NodeBound(l)
  }

  lemma RefsAtMostTwo(d: Representation)
    ensures |Refs(d)| <= 2
  {
  }

  lemma TargetValidated(d: Representation, i: nat, ctx: Context, l: Limits)
    requires i < |Refs(d)| && ValidatedIndex(ctx, l) && Target(d, i, ctx, l).Ok?
    ensures Validate(Target(d, i, ctx, l).value, l).Valid?
  {
  }

  lemma DoubleBound(r: nat, k: nat)
    requires r >= 1
    ensures (Pow2(r) - 1) * k == k + 2 * ((Pow2(r - 1) - 1) * k)
  {
    var p := Pow2(r - 1) - 1;
    assert Pow2(r) - 1 == 2 * p + 1;
    MulAdd(k, 2 * p, 1);
    MulAssoc(2, p, k);
  }

  /** Success or failure, a run below depth `depth` spends at most its share of the node count. */
  lemma {:induction false} EvalCost(d: Representation, ctx: Context, l: Limits, depth: nat)
    requires Validate(d, l).Valid? && ValidatedIndex(ctx, l)
    ensures Eval(d, ctx, l, depth).cost <= RunBound(l, depth)
    decreases Room(l, depth), |Refs(d)| + 1
  {
    hide Finish, Validate, ValidatedIndex, NodeBound, EvalRefs, Refs, Pow2;
    if Len(d) <= l.maxChunkSize && depth <= l.maxReferenceDepth {
      RefsAtMostTwo(d);
      RefsCost(d, ctx, l, depth, 0);
      var r := EvalRefs(d, ctx, l, depth, 0);
      NodeShare(d, ctx, l, r);
      DoubleBound(Room(l, depth), NodeBound(l));
      MulLe(RunBound(l, depth + 1), |Refs(d)|, 2);
    } else {
      MulLe(NodeBound(l), 0, Pow2(Room(l, depth)) - 1);
    }
  }

  lemma NodeShare(d: Representation, ctx: Context, l: Limits, r: Inputs)
    requires Validate(d, l).Valid? && Len(d) <= l.maxChunkSize
    ensures Bulk(Len(d)) <= NodeBound(l)
    ensures r.Ready? && |r.inputs| == |Refs(d)| ==>
              Bulk(Len(d)) + Finish(d, r.inputs, ctx.env, l).cost <= NodeBound(l)
  {
    hide Finish, Validate, Refs;
    if r.Ready? && |r.inputs| == |Refs(d)| { FinishCost(d, r.inputs, ctx.env, l); }
  }

  lemma {:induction false} RefsCost(d: Representation, ctx: Context, l: Limits, depth: nat, i: nat)
    requires ValidatedIndex(ctx, l) && depth <= l.maxReferenceDepth && i <= |Refs(d)|
    ensures EvalRefs(d, ctx, l, depth, i).cost <= (|Refs(d)| - i) * RunBound(l, depth + 1)
    decreases Room(l, depth), |Refs(d)| - i
  {
    hide Validate, ValidatedIndex, RunBound, Refs, Target, Eval;
    if i < |Refs(d)| {
      var b := RunBound(l, depth + 1);
      MulAdd(b, |Refs(d)| - i - 1, 1);
      MulLe(b, 0, |Refs(d)| - i - 1);
      if Target(d, i, ctx, l).Ok? {
        TargetValidated(d, i, ctx, l);
        EvalCost(Target(d, i, ctx, l).value, ctx, l, depth + 1);
        RefsCost(d, ctx, l, depth, i + 1);
      }
    }
  }

  // ----- the budget is never the reason -----

  /** The surroundings do not themselves report an exhausted budget. */
  ghost predicate Honest(ctx: Context) {
    && (forall id :: ctx.env.fetchObject(id) != Err(BudgetExceeded))
    && (forall id :: ctx.fetchDescriptor(id) != Err(BudgetExceeded))
    && (forall m, e, s, c, n :: ctx.env.decodeRans(m, e, s, c, n) != Err(BudgetExceeded))
    && (forall u, s, c, n :: ctx.env.universeBytes(u, s, c, n) != Err(BudgetExceeded))
  }

  ghost predicate Other<T>(r: Result<T>) {
    r.Err? ==> r.error != BudgetExceeded
  }

  ghost predicate Unbudgeted(a: Attempt) {
    a.Bad? ==> a.error != BudgetExceeded
  }

  lemma FetchUnbudgeted(ctx: Context, l: Limits, refs: StreamRefs, lens: seq<nat>)
    requires Honest(ctx)
    ensures Other(FetchStreams(ctx.env, l, refs, lens))
  {
  }

  lemma ObjectUnbudgeted(ctx: Context, l: Limits, refs: StreamRefs, n: nat, mismatch: MatError)
    requires Honest(ctx) && mismatch != BudgetExceeded
    ensures Other(DecodeObject(ctx.env, l, refs, n, mismatch))
  {
  }

  lemma OneUnbudgeted(ctx: Context, refs: StreamRefs, slot: Slot, slice: bytes, expected: nat, strict: bool)
    requires Honest(ctx)
    ensures Other(DecodeOne(ctx.env, refs, slot, slice, expected, strict))
  {
  }

  lemma ThreeUnbudgeted(ctx: Context, l: Limits, refs: StreamRefs, a: nat, b: nat, c: nat, cmds: nat, litOut: nat,
                        units: Checked.Option<nat>, offPer: nat)
    requires Honest(ctx)
    ensures Other(DecodeThree(ctx.env, l, refs, a, b, c, cmds, litOut, units, offPer))
  {
    hide Copies, Honest, DecodeOne, FetchStreams;
    var f := FetchStreams(ctx.env, l, refs, [a, b, c]);
    FetchUnbudgeted(ctx, l, refs, [a, b, c]);
    if f.Ok? {
      TotalOfThree(a, b, c);
      var (slots, enc) := f.value;
      OneUnbudgeted(ctx, refs, slots[0], enc[..a], cmds, true);
      OneUnbudgeted(ctx, refs, slots[1], enc[a..a + b], litOut, true);
      var x := DecodeCommands(ctx.env, refs, slots[0], enc[..a], cmds);
      if x.Ok? {
        var copies := if units.Some? then units.value else Copies(x.value);
        OneUnbudgeted(ctx, refs, slots[2], enc[a + b..], copies * offPer, false);
      }
    }
  }

  lemma FourUnbudgeted(ctx: Context, l: Limits, refs: StreamRefs, a: nat, b: nat, c: nat, d: nat, cmds: nat, litOut: nat)
    requires Honest(ctx)
    ensures Other(DecodeFour(ctx.env, l, refs, a, b, c, d, cmds, litOut))
  {
    hide Copies, Honest, DecodeOne, FetchStreams;
    var f := FetchStreams(ctx.env, l, refs, [a, b, c, d]);
    FetchUnbudgeted(ctx, l, refs, [a, b, c, d]);
    if f.Ok? {
      TotalOfFour(a, b, c, d);
      var (slots, enc) := f.value;
      OneUnbudgeted(ctx, refs, slots[0], enc[..a], cmds, true);
      OneUnbudgeted(ctx, refs, slots[1], enc[a..a + b], litOut, true);
      var x := DecodeCommands(ctx.env, refs, slots[0], enc[..a], cmds);
      if x.Ok? {
        OneUnbudgeted(ctx, refs, slots[2], enc[a + b..a + b + c], Copies(x.value) * 2, false);
        OneUnbudgeted(ctx, refs, slots[3], enc[a + b + c..], Copies(x.value), false);
      }
    }
  }

  lemma DeepUnbudgeted(ctx: Context, l: Limits, refs: StreamRefs, a: nat, b: nat, c: nat, d: nat, cmds: nat, litOut: nat)
    requires Honest(ctx)
    ensures Other(DecodeDeep(ctx.env, l, refs, a, b, c, d, cmds, litOut))
  {
    hide NewDistances, ExtendedCount, Honest, DecodeOne, FetchStreams;
    var f := FetchStreams(ctx.env, l, refs, [a, b, c, d]);
    FetchUnbudgeted(ctx, l, refs, [a, b, c, d]);
    if f.Ok? {
      TotalOfFour(a, b, c, d);
      var (slots, enc) := f.value;
      OneUnbudgeted(ctx, refs, slots[0], enc[..a], cmds, true);
      OneUnbudgeted(ctx, refs, slots[1], enc[a..a + b], litOut, true);
      var x := DecodeCommands(ctx.env, refs, slots[0], enc[..a], cmds);
      if x.Ok? {
        OneUnbudgeted(ctx, refs, slots[2], enc[a + b..a + b + c], NewDistances(x.value) * 2, true);
        OneUnbudgeted(ctx, refs, slots[3], enc[a + b + c..], ExtendedCount(x.value) * 2, true);
      }
    }
  }

  lemma ResidualUnbudgeted(r: Residual, base: bytes, n: nat, ctx: Context, l: Limits)
    requires Honest(ctx)
    ensures Unbudgeted(ApplyResidual(r, base, n, ctx.env, l))
  {
    hide Honest, DecodeObject, DecodeThree, Walk, ApplyEdits, ApplyChanges;
    if r.RansCoded? { ObjectUnbudgeted(ctx, l, r.refs, n, BadResidual); }
  }

  lemma UniverseUnbudgeted(d: Representation, ctx: Context, l: Limits)
    requires Honest(ctx) && d.EntropyRef?
    ensures Unbudgeted(Universe0(ctx.env, d, l))
  {
    hide ApplyResidual, ApplyEdits;
    assert Other(ctx.env.universeBytes(d.universe, d.seed, d.coordinate, d.len));
    if ctx.env.universeBytes(d.universe, d.seed, d.coordinate, d.len).Ok? {
      ResidualUnbudgeted(d.residual, ctx.env.universeBytes(d.universe, d.seed, d.coordinate, d.len).value, d.len, ctx, l);
    }
  }

  lemma FinishUnbudgeted(d: Representation, inputs: seq<bytes>, ctx: Context, l: Limits)
    requires |inputs| == |Refs(d)| && Honest(ctx)
    ensures Unbudgeted(Finish(d, inputs, ctx.env, l))
  {
    hide Walk, WalkDeep, DecodeThree, DecodeFour, DecodeDeep, DecodeObject, ApplyResidual, Universe0,
         SparseBytes, TableBytes, Repeat, Blocks;
    match d
    case Raw(obj, _) => assert Other(ctx.env.fetchObject(obj));
    case Rans(refs, len) => ObjectUnbudgeted(ctx, l, refs, len, InvalidDescriptor);
    case BaseResidual(_, _, residual, len) => ResidualUnbudgeted(residual, inputs[0], len, ctx, l);
    case EntropyRef(_, _, _, _, _, _) => UniverseUnbudgeted(d, ctx, l);
    case SequenceRans(refs, a, b, c, cmds, litOut, _) =>
      ThreeUnbudgeted(ctx, l, refs, a, b, c, cmds, litOut, Checked.None, 2);
    case SequenceDict(_, _, refs, a, b, c, e, cmds, litOut, _) => FourUnbudgeted(ctx, l, refs, a, b, c, e, cmds, litOut);
    case SequenceSharedDict(_, _, _, _, refs, a, b, c, e, cmds, litOut, _) =>
      FourUnbudgeted(ctx, l, refs, a, b, c, e, cmds, litOut);
    case SequenceDeep(refs, a, b, c, e, cmds, litOut, _) => DeepUnbudgeted(ctx, l, refs, a, b, c, e, cmds, litOut);
    case _ =>
  }

  lemma TargetUnbudgeted(d: Representation, i: nat, ctx: Context, l: Limits)
    requires i < |Refs(d)| && Honest(ctx)
    ensures Other(Target(d, i, ctx, l))
  {
    assert Other(ctx.fetchDescriptor(Refs(d)[i]));
  }

  lemma {:induction false} EvalUnbudgeted(d: Representation, ctx: Context, l: Limits, depth: nat)
    requires Honest(ctx)
    ensures Unbudgeted(Eval(d, ctx, l, depth))
    decreases Room(l, depth), |Refs(d)| + 1
  {
    hide Finish, Honest, EvalRefs, Refs;
    if Len(d) <= l.maxChunkSize && depth <= l.maxReferenceDepth {
      RefsUnbudgeted(d, ctx, l, depth, 0);
      var r := EvalRefs(d, ctx, l, depth, 0);
      if r.Ready? { FinishUnbudgeted(d, r.inputs, ctx, l); }
    }
  }

  lemma {:induction false} RefsUnbudgeted(d: Representation, ctx: Context, l: Limits, depth: nat, i: nat)
    requires Honest(ctx) && depth <= l.maxReferenceDepth && i <= |Refs(d)|
    ensures EvalRefs(d, ctx, l, depth, i).Stuck? ==> EvalRefs(d, ctx, l, depth, i).error != BudgetExceeded
    decreases Room(l, depth), |Refs(d)| - i
  {
    hide Honest, Refs, Target, Eval;
    if i < |Refs(d)| {
      TargetUnbudgeted(d, i, ctx, l);
      if Target(d, i, ctx, l).Ok? {
        EvalUnbudgeted(Target(d, i, ctx, l).value, ctx, l, depth + 1);
        RefsUnbudgeted(d, ctx, l, depth, i + 1);
      }
    }
  }

  /** The outcome with no budget at all. */
  function Unlimited(a: Attempt): Result<bytes> {
    match a
    case Good(data, _) => Ok(data)
    case Bad(error, _) => Err(error)
  }

  /** A budget of the run bound decides nothing: it runs out in no context, and only the context can say it did. */
  lemma BudgetNeverExceeded(d: Representation, ctx: Context, l: Limits, depth: nat, budget: nat)
    requires Validate(d, l).Valid? && ValidatedIndex(ctx, l) && budget >= RunBound(l, depth)
    ensures var a := Eval(d, ctx, l, depth);
            a.cost <= budget && Charge(a, budget) == if a.Good? then Done(budget - a.cost) else Failed(a.error)
    ensures Honest(ctx) ==> Charge(Eval(d, ctx, l, depth), budget) != Failed(BudgetExceeded)
  {
    hide Eval, Validate, Honest, ValidatedIndex, RunBound;
    EvalCost(d, ctx, l, depth);
    if Honest(ctx) { EvalUnbudgeted(d, ctx, l, depth); }
  }

  /** At the default limits the bound is 17,268,767 operations, well under the default budget. */
  lemma DefaultBudgetSuffices(d: Representation, ctx: Context)
    requires Validate(d, DefaultLimits).Valid? && ValidatedIndex(ctx, DefaultLimits)
    ensures Eval(d, ctx, DefaultLimits, 0).cost <= 17_268_767 < DefaultLimits.maxDecodeWork
  {
    hide Eval, Validate, ValidatedIndex;
    assert Pow2(5) == 32;
    assert RunBound(DefaultLimits, 0) == 17_268_767;
    EvalCost(d, ctx, DefaultLimits, 0);
  }

  /**
   Reading a whole chunk of a validated store at the default limits is reading it
   with no budget; an exhausted budget is reported only if the context itself does.
   */
  lemma ReadsWithinBudget(d: Representation, ctx: Context)
    requires Validate(d, DefaultLimits).Valid? && ValidatedIndex(ctx, DefaultLimits)
    ensures Len(d) <= DefaultLimits.maxAllocBytes ==>
              Read(d, ctx, DefaultLimits) == Unlimited(Eval(d, ctx, DefaultLimits, 0))
    ensures Honest(ctx) ==> Other(Read(d, ctx, DefaultLimits))
  {
    hide Eval, Validate, Honest, ValidatedIndex;
    DefaultBudgetSuffices(d, ctx);
    if Honest(ctx) { EvalUnbudgeted(d, ctx, DefaultLimits, 0); }
  }
}

/**
 Exact residuals between equal-length chunks (src/entropy/residual.rs): the
 differing positions as XOR edits, or merged into maximal replacement ranges.
 Positions are cast to 32 bits, and the residuals are exact while that loses nothing.
 */
module ResidualEncoder {
  import opened Bytes
  import opened Descriptor
  import opened Context
  import opened Materializer
  import opened Validation
  import opened Interpreter

  // ----- differing positions -----

  /** The chunks agree from position `m` on. */
  predicate AgreeFrom(target: bytes, base: bytes, m: nat)
    requires |target| == |base|
  {
    forall k :: m <= k < |target| ==> target[k] == base[k]
  }

  /** The edits from position `i` on, their positions cast to 32 bits. */
  function Edits(target: bytes, base: bytes, i: nat): (e: seq<Edit>)
    requires |target| == |base| && i <= |target|
    ensures |e| <= |target| - i
    ensures AgreeFrom(target, base, U32) ==>
              (forall k :: 0 <= k < |e| ==> i <= e[k].pos < |target|) && SortedEdits(e, |target|)
    decreases |target| - i
  {
    if i == |target| then []
    else if target[i] != base[i] then [Edit(i % U32, Xor(target[i], base[i]))] + Edits(target, base, i + 1)
    else Edits(target, base, i + 1)
  }

  /** The target up to `i`, the base from there on. */
  function Mix(target: bytes, base: bytes, i: nat): (m: bytes)
    requires |target| == |base| && i <= |target|
    ensures |m| == |target|
  {
    target[..i] + base[i..]
  }

  lemma MixStep(target: bytes, base: bytes, i: nat)
    requires |target| == |base| && i < |target|
    ensures Mix(target, base, i)[i] == base[i]
    ensures Mix(target, base, i)[i := target[i]] == Mix(target, base, i + 1)
    ensures target[i] == base[i] ==> Mix(target, base, i) == Mix(target, base, i + 1)
  {
  }

  lemma MixEnds(target: bytes, base: bytes)
    requires |target| == |base|
    ensures Mix(target, base, 0) == base && Mix(target, base, |target|) == target
  {
  }

  lemma EditsStep(target: bytes, base: bytes, i: nat)
    requires |target| == |base| && i < |target|
    ensures Edits(target, base, i) == (if target[i] != base[i] then [Edit(i % U32, Xor(target[i], base[i]))] else [])
                                      + Edits(target, base, i + 1)
    ensures Edits(target, base, |target|) == []
  {
  }

  /** Applying the edits turns the base into the target. */
  lemma {:induction false} EditsRebuild(target: bytes, base: bytes, i: nat, cost: nat)
    requires |target| == |base| && i <= |target| && AgreeFrom(target, base, U32)
    ensures ApplyEdits(Mix(target, base, i), Edits(target, base, i), 1, cost)
         == Good(target, cost + |Edits(target, base, i)|)
    decreases |target| - i
  {
    hide ApplyEdits, Edits, Mix;
    if i == |target| {
      NoEdits(target, base);
      assert Mix(target, base, i) == target by { MixEnds(target, base); }
      EditsDone(target, 1, cost);
    } else {
      EditsStep(target, base, i);
      MixStep(target, base, i);
      EditsRebuild(target, base, i + 1, if target[i] != base[i] then cost + 1 else cost);
      if target[i] != base[i] {
        var e := Edits(target, base, i);
        assert i % U32 == i;
        assert e[0..] == e && e[1..] == Edits(target, base, i + 1);
        EditStep(Mix(target, base, i), e, 0, 1, cost);
        XorCancel(base[i], target[i]);
      } else {
        assert Edits(target, base, i) == Edits(target, base, i + 1);
      }
    }
  }

  lemma EditsDone(out: bytes, unit: nat, cost: nat)
    ensures ApplyEdits(out, [], unit, cost) == Good(out, cost)
  {
  }

  // ----- maximal runs -----

  /** The first position at or after `i` where the chunks agree. */
  function RunEnd(target: bytes, base: bytes, i: nat): (e: nat)
    requires |target| == |base| && i <= |target|
    ensures i <= e <= |target|
    ensures forall k :: i <= k < e ==> target[k] != base[k]
    ensures e < |target| ==> target[e] == base[e]
    decreases |target| - i
  {
    if i == |target| || target[i] == base[i] then i else RunEnd(target, base, i + 1)
  }

  /** The runs from position `i` on, their ends cast to 32 bits. */
  function Runs(target: bytes, base: bytes, i: nat): (c: seq<RangeChange>)
    requires |target| == |base| && i <= |target|
    ensures AgreeFrom(target, base, U32 - 1) ==>
              forall k :: 0 <= k < |c| ==> i <= c[k].start < c[k].end <= |target|
    decreases |target| - i
  {
    if i == |target| then []
    else if target[i] == base[i] then Runs(target, base, i + 1)
    else
      var end := RunEnd(target, base, i);
      RunEndsEarly(target, base, i);
      [RangeChange(i % U32, end % U32)] + Runs(target, base, end)
  }

  /** Where the chunks agree from the last 32-bit position on, a run ends at or before it. */
  lemma RunEndsEarly(target: bytes, base: bytes, i: nat)
    requires |target| == |base| && i < |target| && target[i] != base[i]
    ensures var end := RunEnd(target, base, i);
            i < end && (AgreeFrom(target, base, U32 - 1) ==> i % U32 == i && end % U32 == end)
  {
    var end := RunEnd(target, base, i);
    if AgreeFrom(target, base, U32 - 1) { assert target[end - 1] != base[end - 1]; }
  }

  /** The target bytes inside the runs. */
  function RunBytes(target: bytes, base: bytes, i: nat): bytes
    requires |target| == |base| && i <= |target|
    decreases |target| - i
  {
    if i == |target| then []
    else if target[i] == base[i] then RunBytes(target, base, i + 1)
    else
      var end := RunEnd(target, base, i);
      target[i..end] + RunBytes(target, base, end)
  }

  /** Maximal runs never touch: the next one starts after an agreeing position. */
  lemma {:induction false} RunsApart(target: bytes, base: bytes, i: nat)
    requires |target| == |base| && i <= |target| && AgreeFrom(target, base, U32 - 1)
    ensures SeparateChanges(Runs(target, base, i), |target|)
    ensures i < |target| && target[i] == base[i] ==>
              forall k :: 0 <= k < |Runs(target, base, i)| ==> i < Runs(target, base, i)[k].start
    ensures Replaced(Runs(target, base, i)) == |RunBytes(target, base, i)|
    decreases |target| - i
  {
    hide Runs, RunBytes, RunEnd, AgreeFrom;
    RunSkip(target, base, i);
    if i < |target| {
      if target[i] == base[i] {
        RunsApart(target, base, i + 1);
      } else {
        var end := RunEnd(target, base, i);
        RunStep(target, base, i);
        RunEndsEarly(target, base, i);
        RunsApart(target, base, end);
        assert Runs(target, base, i)[1..] == Runs(target, base, end);
      }
    }
  }

  lemma RunStep(target: bytes, base: bytes, i: nat)
    requires |target| == |base| && i < |target| && target[i] != base[i]
    ensures var end := RunEnd(target, base, i);
            && i < end
            && Runs(target, base, i) == [RangeChange(i % U32, end % U32)] + Runs(target, base, end)
            && RunBytes(target, base, i) == target[i..end] + RunBytes(target, base, end)
  {
  }

  lemma RunSkip(target: bytes, base: bytes, i: nat)
    requires |target| == |base| && i <= |target|
    ensures i == |target| ==> Runs(target, base, i) == [] && RunBytes(target, base, i) == []
    ensures i < |target| && target[i] == base[i] ==>
              Runs(target, base, i) == Runs(target, base, i + 1) && RunBytes(target, base, i) == RunBytes(target, base, i + 1)
  {
  }

  lemma MixRun(target: bytes, base: bytes, i: nat, end: nat)
    requires |target| == |base| && i <= end <= |target|
    ensures Mix(target, base, i)[..i] + target[i..end] + Mix(target, base, i)[end..] == Mix(target, base, end)
  {
  }

  /** Replacing the runs turns the base into the target. */
  lemma {:induction false} RunsRebuild(target: bytes, base: bytes, i: nat, literals: bytes, lit: nat)
    requires |target| == |base| && i <= |target| && AgreeFrom(target, base, U32 - 1)
    requires lit <= |literals| && literals[lit..] == RunBytes(target, base, i)
    ensures ApplyChanges(Mix(target, base, i), Runs(target, base, i), literals, lit) == Good(target, |literals|)
    decreases |target| - i
  {
    hide ApplyChanges, Runs, RunBytes, RunEnd, AgreeFrom;
    RunSkip(target, base, i);
    if i == |target| {
      assert Mix(target, base, i) == target;
      ChangesDone(target, literals, lit);
    } else if target[i] == base[i] {
      MixStep(target, base, i);
      RunsRebuild(target, base, i + 1, literals, lit);
    } else {
      var end := RunEnd(target, base, i);
      var c := Runs(target, base, i);
      RunStep(target, base, i);
      RunEndsEarly(target, base, i);
      assert c[0..] == c && c[1..] == Runs(target, base, end);
      ChangeStep(Mix(target, base, i), c, 0, literals, lit);
      var take := end - i;
      assert literals[lit..lit + take] == literals[lit..][..take] == target[i..end];
      assert literals[lit + take..] == literals[lit..][take..] == RunBytes(target, base, end);
      MixRun(target, base, i, end);
      RunsRebuild(target, base, end, literals, lit + take);
    }
  }

  /** One edit per literal byte. */
  lemma {:induction false} EditsAreRunBytes(target: bytes, base: bytes, i: nat, k: nat)
    requires |target| == |base| && i <= |target| && i <= k <= RunEnd(target, base, i)
    ensures |Edits(target, base, i)| == k - i + |Edits(target, base, k)|
    decreases k - i
  {
    if i < k { EditsAreRunBytes(target, base, i + 1, k); }
  }

  lemma {:induction false} SameCounts(target: bytes, base: bytes, i: nat)
    requires |target| == |base| && i <= |target|
    ensures |Edits(target, base, i)| == |RunBytes(target, base, i)|
    ensures |Runs(target, base, i)| <= |Edits(target, base, i)|
    ensures Runs(target, base, i) == [] <==> target[i..] == base[i..]
    decreases |target| - i
  {
    if i < |target| {
      if target[i] == base[i] {
        SameCounts(target, base, i + 1);
        assert target[i..] == [target[i]] + target[i + 1..] && base[i..] == [base[i]] + base[i + 1..];
      } else {
        var end := RunEnd(target, base, i);
        SameCounts(target, base, end);
        EditsAreRunBytes(target, base, i, end);
        assert target[i..][0] != base[i..][0];
      }
    }
  }

  // ----- the residuals -----

  function XorForm(target: bytes, base: bytes): Residual
    requires |target| == |base| <= U64_MAX
  {
    XorSparse(|target|, Edits(target, base, 0))
  }

  function RangeForm(target: bytes, base: bytes): Residual
    requires |target| == |base| <= U64_MAX
  {
    RangeReplace(|target|, Runs(target, base, 0), RunBytes(target, base, 0))
  }

  /** A 32-bit edit never reaches a position from 2^32 on. */
  lemma {:induction false} EditsKeep(out: bytes, edits: seq<Edit>, unit: nat, cost: nat, p: nat)
    requires U32 <= p < |out| && ApplyEdits(out, edits, unit, cost).Good?
    ensures ApplyEdits(out, edits, unit, cost).data[p] == out[p]
    decreases |edits|
  {
    if edits != [] {
      var e := edits[0];
      EditsKeep(out[e.pos := Xor(out[e.pos], e.val)], edits[1..], unit, cost + unit, p);
    }
  }

  /** A 32-bit range never reaches a position from 2^32 - 1 on. */
  lemma {:induction false} ChangesKeep(out: bytes, changes: seq<RangeChange>, literals: bytes, lit: nat, p: nat)
    requires U32 - 1 <= p < |out| && ApplyChanges(out, changes, literals, lit).Good?
    ensures ApplyChanges(out, changes, literals, lit).data[p] == out[p]
    decreases |changes|
  {
    if changes != [] {
      var c := changes[0];
      var take := c.end - c.start;
      var next := out[..c.start] + literals[lit..lit + take] + out[c.end..];
      assert next[p] == out[p];
      ChangesKeep(next, changes[1..], literals, lit + take, p);
    }
  }

  /** Every byte in which the chunks differ has a position the form can name. */
  predicate Named(r: Residual, target: bytes, base: bytes)
    requires |target| == |base|
  {
    if r.XorSparse? then AgreeFrom(target, base, U32) else AgreeFrom(target, base, U32 - 1)
  }

  ghost predicate Gives(a: Attempt, target: bytes) {
    a.Good? && a.data == target
  }

  /** The XOR form is exact if and only if the chunks agree from position 2^32 on, and is then valid. */
  lemma XorExact(target: bytes, base: bytes, env: Env, l: Limits)
    requires |target| == |base| <= U64_MAX
    ensures Named(XorForm(target, base), target, base) && |Edits(target, base, 0)| <= l.maxFanout ==>
              ValidateResidual(XorForm(target, base), |target|, l).Valid?
    ensures Gives(ApplyResidual(XorForm(target, base), base, |target|, env, l), target)
       <==> Named(XorForm(target, base), target, base)
  {
    hide Edits, CheckEdits, ApplyEdits, SortedEdits;
    var e := Edits(target, base, 0);
    assert base[..|target|] == base;
    if AgreeFrom(target, base, U32) {
      EditsExact(e, |target|);
      EditsRebuild(target, base, 0, 0);
      assert Mix(target, base, 0) == base;
    } else {
      var p :| U32 <= p < |target| && target[p] != base[p];
      if ApplyEdits(base, e, 1, 0).Good? { EditsKeep(base, e, 1, 0, p); }
    }
  }

  /** The range form is exact if and only if the chunks agree from position 2^32 - 1 on, and is then valid. */
  lemma RangeExact(target: bytes, base: bytes, env: Env, l: Limits)
    requires |target| == |base| <= U64_MAX
    ensures Named(RangeForm(target, base), target, base) && |Runs(target, base, 0)| <= l.maxFanout ==>
              ValidateResidual(RangeForm(target, base), |target|, l).Valid?
    ensures Gives(ApplyResidual(RangeForm(target, base), base, |target|, env, l), target)
       <==> Named(RangeForm(target, base), target, base)
  {
    hide Runs, RunBytes, CheckChanges, ApplyChanges, SeparateChanges;
    var c, literals := Runs(target, base, 0), RunBytes(target, base, 0);
    assert base[..|target|] == base && literals[0..] == literals;
    if AgreeFrom(target, base, U32 - 1) {
      RunsApart(target, base, 0);
      ChangesExact(c, |target|, |literals|);
      RunsRebuild(target, base, 0, literals, 0);
      assert Mix(target, base, 0) == base;
    } else {
      var p :| U32 - 1 <= p < |target| && target[p] != base[p];
      if ApplyChanges(base, c, literals, 0).Good? { ChangesKeep(base, c, literals, 0, p); }
    }
  }

  /** What `derive_residuals` returns: the forms within the fanout, cheapest first, XOR before ranges on a tie. */
  function Derived(target: bytes, base: bytes, fanout: nat): seq<Residual>
    requires |target| <= U64_MAX
  {
    if |target| != |base| || target == [] then []
    else
      var xor := if |Edits(target, base, 0)| <= fanout then [XorForm(target, base)] else [];
      var range := if 0 < |Runs(target, base, 0)| <= fanout then [RangeForm(target, base)] else [];
      if xor != [] && range != [] && ResidualSize(range[0]) < ResidualSize(xor[0]) then range + xor else xor + range
  }

  /**
   Every derived residual applies to the base to give the target if and only if its
   32-bit positions can name the bytes that differ; it is then valid, and it is no
   cheaper than the first.
   */
  lemma DerivedSound(target: bytes, base: bytes, l: Limits, env: Env, k: nat)
    requires |target| <= U64_MAX && k < |Derived(target, base, l.maxFanout)|
    ensures var q := Derived(target, base, l.maxFanout);
            && |target| == |base|
            && (Gives(ApplyResidual(q[k], base, |target|, env, l), target) <==> Named(q[k], target, base))
            && (Named(q[k], target, base) ==> ValidateResidual(q[k], |target|, l).Valid?)
            && ResidualSize(q[0]) <= ResidualSize(q[k])
  {
    hide Edits, Runs, RunBytes, ValidateResidual, ApplyResidual, Named;
    XorExact(target, base, env, l);
    RangeExact(target, base, env, l);
  }

  /** Below 2^32 bytes every derived residual is exact. */
  lemma ShortNamed(r: Residual, target: bytes, base: bytes)
    requires |target| == |base| < U32
    ensures Named(r, target, base)
  {
  }

  lemma {:induction false} EditsSkip(target: bytes, base: bytes, i: nat, m: nat)
    requires |target| == |base| && i <= m <= |target| && forall k :: i <= k < m ==> target[k] == base[k]
    ensures Edits(target, base, i) == Edits(target, base, m)
    decreases m - i
  {
    if i < m { EditsSkip(target, base, i + 1, m); }
  }

  /** A difference at position 2^32 alone gives a valid residual that edits position 0. */
  lemma WideEditLost(target: bytes, base: bytes, width: nat, l: Limits, env: Env)
    requires width == U32 && |target| == |base| == width + 1 && l.maxFanout >= 1
    requires target[width] != base[width] && forall k :: 0 <= k < width ==> target[k] == base[k]
    ensures XorForm(target, base) in Derived(target, base, l.maxFanout)
    ensures ValidateResidual(XorForm(target, base), |target|, l).Valid?
    ensures !Gives(ApplyResidual(XorForm(target, base), base, |target|, env, l), target)
  {
    hide ApplyResidual, Runs, RunBytes;
    EditsSkip(target, base, 0, width);
    var e := Edit(0, Xor(target[width], base[width]));
    assert Edits(target, base, width) == [e];
    EditsExact([e], width + 1);
    XorExact(target, base, env, l);
  }

  // ----- as the source runs it -----

  method CollectEdits(target: bytes, base: bytes) returns (edits: seq<Edit>)
    requires |target| == |base|
    ensures edits == Edits(target, base, 0)
  {
    hide Edits;
    edits := [];
    for i := 0 to |target|
      invariant edits + Edits(target, base, i) == Edits(target, base, 0)
    {
      EditsStep(target, base, i);
      if target[i] != base[i] {
        edits := edits + [Edit(i % U32, Xor(target[i], base[i]))];
      }
    }
    assert Edits(target, base, |target|) == [] by { NoEdits(target, base); }
  }

  lemma NoEdits(target: bytes, base: bytes)
    requires |target| == |base|
    ensures Edits(target, base, |target|) == []
  {
  }

  /** One maximal run from `i`, its bytes pushed one by one. */
  method CollectRun(target: bytes, base: bytes, i: nat, before: bytes) returns (end: nat, literals: bytes)
    requires |target| == |base| && i < |target| && target[i] != base[i]
    ensures end == RunEnd(target, base, i) && literals == before + target[i..end]
  {
    end, literals := i, before;
    while end < |target| && target[end] != base[end]
      invariant i <= end <= |target|
      invariant RunEnd(target, base, end) == RunEnd(target, base, i)
      invariant literals == before + target[i..end]
    {
      literals := literals + [target[end]];
      end := end + 1;
    }
  }

  method CollectRuns(target: bytes, base: bytes) returns (changes: seq<RangeChange>, literals: bytes)
    requires |target| == |base|
    ensures changes == Runs(target, base, 0) && literals == RunBytes(target, base, 0)
  {
    hide Runs, RunBytes, RunEnd;
    changes, literals := [], [];
    var i := 0;
    while i < |target|
      invariant 0 <= i <= |target|
      invariant changes + Runs(target, base, i) == Runs(target, base, 0)
      invariant literals + RunBytes(target, base, i) == RunBytes(target, base, 0)
    {
      RunSkip(target, base, i);
      if target[i] != base[i] {
        RunStep(target, base, i);
        var end;
        end, literals := CollectRun(target, base, i, literals);
        changes := changes + [RangeChange(i % U32, end % U32)];
        i := end;
      } else {
        i := i + 1;
      }
    }
    RunSkip(target, base, |target|);
  }

  /** `derive_residuals` (src/entropy/residual.rs:105). */
  method DeriveResiduals(target: bytes, base: bytes, fanout: nat) returns (out: seq<Residual>)
    requires |target| <= U64_MAX
    ensures out == Derived(target, base, fanout)
  {
    hide Edits, Runs, RunBytes;
    if |target| != |base| || target == [] {
      return [];
    }
    var edits := CollectEdits(target, base);
    out := [];
    if |edits| <= fanout {
      out := [XorSparse(|target|, edits)];
    }
    var changes, literals := CollectRuns(target, base);
    if |changes| <= fanout && changes != [] {
      out := out + [RangeReplace(|target|, changes, literals)];
    }
    if |out| == 2 && ResidualSize(out[1]) < ResidualSize(out[0]) {
      out := [out[1], out[0]];
    }
  }

  lemma RunCount(target: bytes, base: bytes, i: nat)
    requires |target| == |base| && i < |target| && target[i] != base[i]
    ensures |Runs(target, base, i)|
         == if i + 1 < |target| && target[i + 1] != base[i + 1] then |Runs(target, base, i + 1)|
            else 1 + |Runs(target, base, i + 1)|
  {
    hide Runs;
    RunStep(target, base, i);
    if i + 1 < |target| && target[i + 1] != base[i + 1] { RunStep(target, base, i + 1); }
  }

  /** `diff_summary` (src/entropy/residual.rs:169): its two counts are those of the derived forms. */
  method DiffSummary(target: bytes, base: bytes) returns (positions: nat, runs: nat)
    ensures |target| != |base| ==> positions == runs == U64_MAX
    ensures |target| == |base| ==> positions == |Edits(target, base, 0)| == |RunBytes(target, base, 0)|
    ensures |target| == |base| ==> runs == |Runs(target, base, 0)|
  {
    hide Edits, Runs, RunBytes;
    if |target| != |base| {
      return U64_MAX, U64_MAX;
    }
    positions, runs := 0, 0;
    var inRun := false;
    for i := 0 to |target|
      invariant positions + |Edits(target, base, i)| == |Edits(target, base, 0)|
      invariant runs + |Runs(target, base, i)|
             == |Runs(target, base, 0)| + if inRun && i < |target| && target[i] != base[i] then 1 else 0
    {
      EditsStep(target, base, i);
      RunSkip(target, base, i);
      if target[i] != base[i] {
        RunCount(target, base, i);
        positions := positions + 1;
        if !inRun {
          runs := runs + 1;
          inRun := true;
        }
      } else {
        inRun := false;
      }
    }
    NoEdits(target, base);
    RunSkip(target, base, |target|);
    SameCounts(target, base, 0);
  }

  // ----- base + residual candidates -----

  datatype Base = Base(id: ChunkId, data: bytes, depth: nat)

  function Candidate(input: bytes, b: Base, r: Residual): Representation
    requires |b.data| == |input| <= U64_MAX
  {
    BaseResidual(b.id, |b.data|, r, |input|)
  }

  /** Not the empty edit list, and valid. */
  predicate Kept(r: Residual, input: bytes, b: Base, l: Limits)
    requires |b.data| == |input| <= U64_MAX
  {
    !(r.XorSparse? && r.edits == []) && Validate(Candidate(input, b, r), l).Valid?
  }

  /** The candidates of residuals `q`, in order. */
  function KeptOf(q: seq<Residual>, input: bytes, b: Base, l: Limits): (c: seq<Representation>)
    requires |b.data| == |input| <= U64_MAX
    ensures forall x :: x in c <==> exists i :: 0 <= i < |q| && Kept(q[i], input, b, l) && x == Candidate(input, b, q[i])
  {
    if q == [] then []
    else
      var last := q[|q| - 1];
      var init := KeptOf(q[..|q| - 1], input, b, l);
      assert forall i :: 0 <= i < |q| - 1 ==> q[i] == q[..|q| - 1][i];
      if Kept(last, input, b, l) then init + [Candidate(input, b, last)] else init
  }

  /** The candidates over one base. */
  function Over(input: bytes, b: Base, l: Limits): seq<Representation>
    requires |input| <= U64_MAX
  {
    if b.depth >= l.maxReferenceDepth || |b.data| != |input| then []
    else KeptOf(Derived(input, b.data, l.maxFanout), input, b, l)
  }

  /** The candidates over all bases, in their order. */
  function OverAll(input: bytes, bases: seq<Base>, l: Limits): seq<Representation>
    requires |input| <= U64_MAX
  {
    if bases == [] then [] else OverAll(input, bases[..|bases| - 1], l) + Over(input, bases[|bases| - 1], l)
  }

  /** `BaseResidualEncoder::encode` (src/entropy/residual.rs:27). */
  method EncodeBaseResidual(input: bytes, bases: seq<Base>, l: Limits) returns (out: seq<Representation>)
    requires |input| <= U64_MAX
    ensures out == OverAll(input, bases, l)
  {
    hide Over;
    out := [];
    for i := 0 to |bases|
      invariant out == OverAll(input, bases[..i], l)
    {
      assert bases[..i + 1][..i] == bases[..i];
      var more := EncodeOver(input, bases[i], l);
      out := out + more;
    }
    assert bases[..|bases|] == bases;
  }

  method EncodeOver(input: bytes, b: Base, l: Limits) returns (out: seq<Representation>)
    requires |input| <= U64_MAX
    ensures out == Over(input, b, l)
  {
    hide Derived, Validate;
    out := [];
    if b.depth >= l.maxReferenceDepth || |b.data| != |input| {
      return;
    }
    var q := DeriveResiduals(input, b.data, l.maxFanout);
    for i := 0 to |q|
      invariant out == KeptOf(q[..i], input, b, l)
    {
      assert q[..i + 1][..i] == q[..i];
      if !(q[i].XorSparse? && q[i].edits == []) {
        var rep := BaseResidual(b.id, |b.data|, q[i], |input|);
        var v := CheckDescriptor(rep, l);
        if v.Valid? {
          out := out + [rep];
        }
      }
    }
    assert q[..|q|] == q;
  }

  /**
   A candidate evaluates to the chunk, wherever its base evaluates to the base bytes,
   if and only if its residual can name the bytes that differ.
   */
  lemma CandidateEvaluates(c: Representation, input: bytes, b: Base, l: Limits, ctx: Context, depth: nat)
    requires |input| <= U64_MAX && c in Over(input, b, l)
    requires depth <= l.maxReferenceDepth && |input| <= l.maxAllocBytes
    requires ctx.fetchDescriptor(b.id).Ok? && Len(ctx.fetchDescriptor(b.id).value) == |input|
    requires Gives(Eval(ctx.fetchDescriptor(b.id).value, ctx, l, depth + 1), b.data)
    ensures c.BaseResidual? && |b.data| == |input|
    ensures Gives(Eval(c, ctx, l, depth), input) <==> Named(c.residual, input, b.data)
  {
    hide Derived, ApplyResidual, ValidateResidual, Validate, Named;
    var q := Derived(input, b.data, l.maxFanout);
    var i :| 0 <= i < |q| && Kept(q[i], input, b, l) && c == Candidate(input, b, q[i]);
    DerivedSound(input, b.data, l, ctx.env, i);
    assert Target(c, 0, ctx, l) == Ok(ctx.fetchDescriptor(b.id).value);
    assert EvalRefs(c, ctx, l, depth, 1) == Ready([], 0);
    assert EvalRefs(c, ctx, l, depth, 0).inputs == [b.data];
  }
}

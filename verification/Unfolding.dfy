/**
 The meaning of a descriptor without depth and without budget: its reference
 unfolding. The bounded interpreter succeeds exactly on the descriptors whose
 unfolding fits its depth, and then with the bytes and the cost of that tree.
 */
module Unfolding {
  import opened Bytes
  import opened Descriptor
  import opened Context
  import opened Materializer

  /** One evaluated descriptor: its bytes, its own work, and the chunks it read. */
  datatype Tree = Node(desc: Representation, data: bytes, work: nat, kids: seq<Tree>)

  function Data(kids: seq<Tree>): (r: seq<bytes>)
    ensures |r| == |kids|
    ensures forall i :: 0 <= i < |kids| ==> r[i] == kids[i].data
  {
    seq(|kids|, i requires 0 <= i < |kids| => kids[i].data)
  }

  /** Every node is resolved through the index and finishes on what its children hold. */
  ghost predicate Unfolds(t: Tree, ctx: Context, l: Limits)
    decreases t
  {
    && Len(t.desc) <= l.maxChunkSize
    && |t.kids| == |Refs(t.desc)|
    && Finish(t.desc, Data(t.kids), ctx.env, l) == Good(t.data, t.work)
    && (forall i :: 0 <= i < |t.kids| ==> Target(t.desc, i, ctx, l) == Ok(t.kids[i].desc))
    && (forall i :: 0 <= i < |t.kids| ==> Unfolds(t.kids[i], ctx, l))
  }

  function Height(t: Tree): nat
    decreases t, 0, 0
  {
    HeightAll(t, |t.kids|)
  }

  function HeightAll(t: Tree, n: nat): (h: nat)
    requires n <= |t.kids|
    ensures forall i :: 0 <= i < n ==> Height(t.kids[i]) < h
    decreases t, -1, n
  {
    if n == 0 then 0
    else
      var h, k := HeightAll(t, n - 1), Height(t.kids[n - 1]) + 1;
      if h < k then k else h
  }

  function Cost(t: Tree): nat
    decreases t, 0, 0
  {
    Bulk(Len(t.desc)) + CostFrom(t, 0) + t.work
  }

  function CostFrom(t: Tree, i: nat): nat
    requires i <= |t.kids|
    decreases t, -1, |t.kids| - i
  {
    if i == |t.kids| then 0 else Cost(t.kids[i]) + CostFrom(t, i + 1)
  }

  // ----- evaluation and unfolding agree -----

  /** An unfolding that fits the remaining depth is what evaluation computes. */
  lemma {:induction false} UnfoldingEvaluates(t: Tree, ctx: Context, l: Limits, depth: nat)
    requires Unfolds(t, ctx, l) && Height(t) + depth <= l.maxReferenceDepth
    ensures Eval(t.desc, ctx, l, depth) == Good(t.data, Cost(t))
    decreases t, 0, 0
  {
    hide Finish, Refs, EvalRefs;
    KidsEvaluate(t, ctx, l, depth, 0);
    assert Data(t.kids)[0..] == Data(t.kids);
  }

  lemma {:induction false} KidsEvaluate(t: Tree, ctx: Context, l: Limits, depth: nat, i: nat)
    requires Unfolds(t, ctx, l) && Height(t) + depth <= l.maxReferenceDepth && i <= |t.kids|
    ensures EvalRefs(t.desc, ctx, l, depth, i) == Ready(Data(t.kids)[i..], CostFrom(t, i))
    decreases t, -1, |t.kids| - i
  {
    hide Finish, Refs, Target, Eval, Data;
    if i < |t.kids| {
      UnfoldingEvaluates(t.kids[i], ctx, l, depth + 1);
      KidsEvaluate(t, ctx, l, depth, i + 1);
      assert Data(t.kids)[i..] == [Data(t.kids)[i]] + Data(t.kids)[i + 1..];
    }
  }

  /** The unfolding behind a successful evaluation. */
  lemma {:induction false} EvaluationUnfolds(d: Representation, ctx: Context, l: Limits, depth: nat) returns (t: Tree)
    requires Eval(d, ctx, l, depth).Good?
    ensures Unfolds(t, ctx, l) && t.desc == d && Height(t) + depth <= l.maxReferenceDepth
    ensures Eval(d, ctx, l, depth) == Good(t.data, Cost(t))
    decreases Room(l, depth), |Refs(d)| + 1
  {
    hide Finish, Refs, EvalRefs, Target;
    var kids := RefsUnfold(d, ctx, l, depth, 0);
    match Finish(d, Data(kids), ctx.env, l)
    case Good(data, work) => t := Node(d, data, work, kids);
    HeightBelow(t, |kids|, l.maxReferenceDepth - depth);
    UnfoldingEvaluates(t, ctx, l, depth);
  }

  lemma {:induction false} RefsUnfold(d: Representation, ctx: Context, l: Limits, depth: nat, i: nat)
    returns (kids: seq<Tree>)
    requires depth <= l.maxReferenceDepth && i <= |Refs(d)| && EvalRefs(d, ctx, l, depth, i).Ready?
    ensures |kids| == |Refs(d)| - i && EvalRefs(d, ctx, l, depth, i).inputs == Data(kids)
    ensures forall j :: 0 <= j < |kids| ==>
              Target(d, i + j, ctx, l) == Ok(kids[j].desc) && Unfolds(kids[j], ctx, l)
              && Height(kids[j]) + depth + 1 <= l.maxReferenceDepth
    decreases Room(l, depth), |Refs(d)| - i
  {
    hide Finish, Refs, Target, Eval, Height, Cost;
    if i == |Refs(d)| {
      kids := [];
    } else {
      var t := EvaluationUnfolds(Target(d, i, ctx, l).value, ctx, l, depth + 1);
      var rest := RefsUnfold(d, ctx, l, depth, i + 1);
      kids := [t] + rest;
      assert Data(kids) == [t.data] + Data(rest);
    }
  }

  lemma {:induction false} HeightBelow(t: Tree, n: nat, h: nat)
    requires n <= |t.kids| && forall i :: 0 <= i < n ==> Height(t.kids[i]) + 1 <= h
    ensures HeightAll(t, n) <= h
  {
    if n > 0 { HeightBelow(t, n - 1, h); }
  }

  /** A descriptor has at most one unfolding. */
  lemma {:induction false} UnfoldingUnique(s: Tree, t: Tree, ctx: Context, l: Limits)
    requires Unfolds(s, ctx, l) && Unfolds(t, ctx, l) && s.desc == t.desc
    ensures s == t
    decreases s
  {
    hide Finish, Refs, Target;
    forall i | 0 <= i < |s.kids| ensures s.kids[i] == t.kids[i] {
      UnfoldingUnique(s.kids[i], t.kids[i], ctx, l);
    }
    assert s.kids == t.kids;
  }

  /** Two-way refinement: success at a depth is exactly an unfolding that fits it. */
  lemma EvalIffUnfolding(d: Representation, ctx: Context, l: Limits, depth: nat, data: bytes, cost: nat)
    ensures Eval(d, ctx, l, depth) == Good(data, cost) <==>
            exists t :: Unfolds(t, ctx, l) && t.desc == d && t.data == data && Cost(t) == cost
                        && Height(t) + depth <= l.maxReferenceDepth
  {
    hide Eval, Unfolds, Height, Cost;
    if Eval(d, ctx, l, depth) == Good(data, cost) {
      var t := EvaluationUnfolds(d, ctx, l, depth);
    }
    if t :| Unfolds(t, ctx, l) && t.desc == d && t.data == data && Cost(t) == cost
            && Height(t) + depth <= l.maxReferenceDepth
    {
      UnfoldingEvaluates(t, ctx, l, depth);
    }
  }

  /**
   Success is stable: nearer the top and with any budget that still pays, the
   bytes and the amount spent are the same.
   */
  lemma SuccessIsStable(d: Representation, ctx: Context, l: Limits, depth: nat, nearer: nat, budget: nat, more: nat)
    requires nearer <= depth && budget <= more
    requires Charge(Eval(d, ctx, l, depth), budget).Done?
    ensures Eval(d, ctx, l, nearer) == Eval(d, ctx, l, depth)
    ensures Charge(Eval(d, ctx, l, nearer), more).Done?
    ensures more - Charge(Eval(d, ctx, l, nearer), more).left
         == budget - Charge(Eval(d, ctx, l, depth), budget).left
  {
    var t := EvaluationUnfolds(d, ctx, l, depth);
    UnfoldingEvaluates(t, ctx, l, nearer);
  }

  // ----- the only obstacle is depth -----

  /** A meaningful descriptor fails, if it does, by hitting the depth cap and nothing else. */
  lemma {:induction false} TooDeepIsDepthExceeded(t: Tree, ctx: Context, l: Limits, depth: nat)
    requires Unfolds(t, ctx, l) && depth <= l.maxReferenceDepth < Height(t) + depth
    ensures Eval(t.desc, ctx, l, depth).Bad?
    ensures Eval(t.desc, ctx, l, depth).error == DepthExceeded(l.maxReferenceDepth + 1, l.maxReferenceDepth)
    decreases t, 0, 0
  {
    hide Finish, Refs, EvalRefs;
    if forall j :: 0 <= j < |t.kids| ==> Height(t.kids[j]) + 1 <= l.maxReferenceDepth - depth {
      HeightBelow(t, |t.kids|, l.maxReferenceDepth - depth);
    }
    KidsTooDeep(t, ctx, l, depth, 0);
  }

  lemma {:induction false} KidsTooDeep(t: Tree, ctx: Context, l: Limits, depth: nat, i: nat)
    requires Unfolds(t, ctx, l) && depth <= l.maxReferenceDepth && i <= |t.kids|
    requires i < |t.kids| && exists j :: i <= j < |t.kids| && Height(t.kids[j]) + depth + 1 > l.maxReferenceDepth
    ensures EvalRefs(t.desc, ctx, l, depth, i).Stuck?
    ensures EvalRefs(t.desc, ctx, l, depth, i).error
         == DepthExceeded(l.maxReferenceDepth + 1, l.maxReferenceDepth)
    decreases t, -1, |t.kids| - i
  {
    hide Finish, Refs, Target, Eval, Height;
    var kid := t.kids[i];
    if depth + 1 > l.maxReferenceDepth {
      PastTheCap(kid, ctx, l, depth + 1);
    } else if Height(kid) + depth + 1 <= l.maxReferenceDepth {
      UnfoldingEvaluates(kid, ctx, l, depth + 1);
      KidsTooDeep(t, ctx, l, depth, i + 1);
    } else {
      TooDeepIsDepthExceeded(kid, ctx, l, depth + 1);
    }
  }

  lemma PastTheCap(t: Tree, ctx: Context, l: Limits, depth: nat)
    requires Unfolds(t, ctx, l) && depth > l.maxReferenceDepth
    ensures Eval(t.desc, ctx, l, depth) == Bad(DepthExceeded(depth, l.maxReferenceDepth), 0)
  {
  }
}

/**
 Rewriting a chunk's descriptor. The background passes replace the descriptor of
 a chunk by another that materializes to the same bytes (src/core/cost.rs:77-79);
 other descriptors reach the chunk through the index, so they see the change.
 Reference graphs may have any shape, cycles included.
 */
module Migration {
  import opened Descriptor
  import opened Context
  import opened Materializer
  import opened Unfolding
  import opened Interpreter

  /** The store after chunk `c` has been given descriptor `d`. */
  function Replace(ctx: Context, c: ChunkId, d: Representation): Context {
    ctx.(fetchDescriptor := (id: ChunkId) => if id == c then Ok(d) else ctx.fetchDescriptor(id))
  }

  /** Some node of the unfolding reads chunk `c`. */
  ghost predicate Uses(t: Tree, c: ChunkId)
    decreases t
  {
    c in Refs(t.desc) || exists i :: 0 <= i < |t.kids| && Uses(t.kids[i], c)
  }

  /** The unfolding with every reading of `c` answered by `r` instead. */
  function Graft(t: Tree, c: ChunkId, r: Tree): (g: Tree)
    ensures g.desc == t.desc && g.data == t.data && g.work == t.work && |g.kids| == |t.kids|
    decreases t
  {
    Node(t.desc, t.data, t.work, seq(|t.kids|, i requires 0 <= i < |t.kids| => GraftKid(t, i, c, r)))
  }

  function GraftKid(t: Tree, i: nat, c: ChunkId, r: Tree): Tree
    requires i < |t.kids|
    decreases t, -1
  {
    if i < |Refs(t.desc)| && Refs(t.desc)[i] == c then r else Graft(t.kids[i], c, r)
  }

  /** The checks on a found descriptor look only at its length. */
  lemma AcceptByLength(d: Representation, i: nat, a: Representation, b: Representation, l: Limits)
    requires Len(a) == Len(b)
    ensures Accept(d, i, a, l) == Accept(d, i, b, l)
  {
  }

  lemma TargetReplaced(d: Representation, i: nat, ctx: Context, l: Limits, c: ChunkId, was: Representation,
                       now: Representation)
    requires i < |Refs(d)| && Refs(d)[i] == c && Len(was) == Len(now)
    requires ctx.fetchDescriptor(c) == Ok(was) && Target(d, i, ctx, l) == Ok(was)
    ensures Target(d, i, Replace(ctx, c, now), l) == Ok(now)
  {
    AcceptByLength(d, i, was, now, l);
  }

  lemma TargetKept(d: Representation, i: nat, ctx: Context, l: Limits, c: ChunkId, now: Representation)
    requires i < |Refs(d)| && Refs(d)[i] != c
    ensures Target(d, i, Replace(ctx, c, now), l) == Target(d, i, ctx, l)
  {
  }

  lemma GraftAt(t: Tree, i: nat, c: ChunkId, r: Tree)
    requires i < |t.kids|
    ensures Graft(t, c, r).kids[i] == GraftKid(t, i, c, r)
  {
  }

  /**
   Replacement preserves meaning: whatever unfolded before unfolds after, to the
   same bytes, with the replacement grafted in wherever the chunk was read.
   */
  lemma {:induction false} GraftUnfolds(t: Tree, ctx: Context, l: Limits, c: ChunkId, was: Tree, now: Tree)
    requires Unfolds(t, ctx, l)
    requires ctx.fetchDescriptor(c) == Ok(was.desc) && Unfolds(was, ctx, l)
    requires Unfolds(now, Replace(ctx, c, now.desc), l) && now.data == was.data
    ensures Unfolds(Graft(t, c, now), Replace(ctx, c, now.desc), l)
    decreases t
  {
    hide Finish, Refs, Target, Replace;
    var ctx' := Replace(ctx, c, now.desc);
    var g := Graft(t, c, now);
    assert ctx'.env == ctx.env by { SameEnv(ctx, c, now.desc); }
    forall i: nat | i < |t.kids|
      ensures Target(t.desc, i, ctx', l) == Ok(g.kids[i].desc) && Unfolds(g.kids[i], ctx', l)
              && g.kids[i].data == t.kids[i].data
    {
      GraftAt(t, i, c, now);
      KidGrafts(t, i, ctx, l, c, was, now);
      if Refs(t.desc)[i] != c { GraftUnfolds(t.kids[i], ctx, l, c, was, now); }
    }
    assert Data(g.kids) == Data(t.kids);
  }

  lemma SameEnv(ctx: Context, c: ChunkId, d: Representation)
    ensures Replace(ctx, c, d).env == ctx.env
  {
  }

  /** What a kid's reference finds after the replacement. */
  lemma KidGrafts(t: Tree, i: nat, ctx: Context, l: Limits, c: ChunkId, was: Tree, now: Tree)
    requires Unfolds(t, ctx, l) && i < |t.kids|
    requires ctx.fetchDescriptor(c) == Ok(was.desc) && Unfolds(was, ctx, l)
    requires Unfolds(now, Replace(ctx, c, now.desc), l) && now.data == was.data
    ensures i < |Refs(t.desc)| && Target(t.desc, i, Replace(ctx, c, now.desc), l) == Ok(GraftKid(t, i, c, now).desc)
    ensures Refs(t.desc)[i] == c ==> t.kids[i] == was
    ensures GraftKid(t, i, c, now).data == t.kids[i].data
  {
    hide Finish, Refs, Target, Graft;
    if Refs(t.desc)[i] == c {
      KidIsWas(t, i, ctx, l, c, was);
      assert Len(was.desc) == |was.data| == |now.data| == Len(now.desc);
      TargetReplaced(t.desc, i, ctx, l, c, was.desc, now.desc);
    } else {
      TargetKept(t.desc, i, ctx, l, c, now.desc);
    }
  }

  lemma TargetFetches(d: Representation, i: nat, ctx: Context, l: Limits)
    requires i < |Refs(d)| && Target(d, i, ctx, l).Ok?
    ensures ctx.fetchDescriptor(Refs(d)[i]) == Target(d, i, ctx, l)
  {
  }

  /** Each read kid of `t` is the chunk's own unfolding. */
  lemma KidIsWas(t: Tree, i: nat, ctx: Context, l: Limits, c: ChunkId, was: Tree)
    requires Unfolds(t, ctx, l) && Unfolds(was, ctx, l) && ctx.fetchDescriptor(c) == Ok(was.desc)
    requires i < |t.kids| && Refs(t.desc)[i] == c
    ensures t.kids[i] == was
  {
    TargetFetches(t.desc, i, ctx, l);
    UnfoldingUnique(t.kids[i], was, ctx, l);
  }

  /** A replacement no deeper than what it replaces makes nothing deeper; otherwise by no more than the excess. */
  lemma {:induction false} GraftHeight(t: Tree, ctx: Context, l: Limits, c: ChunkId, was: Tree, now: Tree, excess: nat)
    requires Unfolds(t, ctx, l) && Unfolds(was, ctx, l) && ctx.fetchDescriptor(c) == Ok(was.desc)
    requires Height(now) <= Height(was) + excess
    ensures Height(Graft(t, c, now)) <= Height(t) + excess
    decreases t
  {
    hide Finish, Refs, Target;
    var g := Graft(t, c, now);
    forall i | 0 <= i < |t.kids| ensures Height(g.kids[i]) <= Height(t.kids[i]) + excess {
      assert g.kids[i] == GraftKid(t, i, c, now);
      if Refs(t.desc)[i] == c {
        KidIsWas(t, i, ctx, l, c, was);
      } else {
        GraftHeight(t.kids[i], ctx, l, c, was, now, excess);
      }
    }
    if |t.kids| > 0 {
      HeightBelow(g, |g.kids|, Height(t) + excess);
    }
  }

  lemma {:induction false} GraftCost(t: Tree, ctx: Context, l: Limits, c: ChunkId, was: Tree, now: Tree)
    requires Unfolds(t, ctx, l) && Unfolds(was, ctx, l) && ctx.fetchDescriptor(c) == Ok(was.desc)
    requires Cost(now) <= Cost(was)
    ensures Cost(Graft(t, c, now)) <= Cost(t)
    decreases t, 0, 0
  {
    GraftCostFrom(t, ctx, l, c, was, now, 0);
  }

  lemma {:induction false} GraftCostFrom(t: Tree, ctx: Context, l: Limits, c: ChunkId, was: Tree, now: Tree, i: nat)
    requires Unfolds(t, ctx, l) && Unfolds(was, ctx, l) && ctx.fetchDescriptor(c) == Ok(was.desc)
    requires Cost(now) <= Cost(was) && i <= |t.kids|
    ensures CostFrom(Graft(t, c, now), i) <= CostFrom(t, i)
    decreases t, -1, |t.kids| - i
  {
    hide Finish, Refs, Target;
    if i < |t.kids| {
      GraftCostFrom(t, ctx, l, c, was, now, i + 1);
      if Refs(t.desc)[i] == c {
        KidIsWas(t, i, ctx, l, c, was);
      } else {
        GraftCost(t.kids[i], ctx, l, c, was, now);
      }
    }
  }

  /**
   What still unfolds after the replacement unfolds to its old bytes, if the new
   descriptor had the chunk's bytes in the old store. By induction on the new
   unfolding, since the old one of the replacement need not be part of it.
   */
  lemma {:induction false} OldMeaningKept(t: Tree, u: Tree, ctx: Context, l: Limits, c: ChunkId, was: Tree, cand: Tree)
    requires Unfolds(t, ctx, l) && Unfolds(was, ctx, l) && Unfolds(cand, ctx, l)
    requires ctx.fetchDescriptor(c) == Ok(was.desc) && cand.data == was.data
    requires Unfolds(u, Replace(ctx, c, cand.desc), l) && u.desc == t.desc
    ensures u.data == t.data
    decreases u
  {
    hide Finish, Refs, Target, Accept, Gate;
    var ctx' := Replace(ctx, c, cand.desc);
    forall i | 0 <= i < |t.kids| ensures u.kids[i].data == t.kids[i].data {
      if Refs(t.desc)[i] == c {
        KidIsWas(t, i, ctx, l, c, was);
        TargetFetches(u.desc, i, ctx', l);
        OldMeaningKept(cand, u.kids[i], ctx, l, c, was, cand);
      } else {
        TargetKept(t.desc, i, ctx, l, c, cand.desc);
        OldMeaningKept(t.kids[i], u.kids[i], ctx, l, c, was, cand);
      }
    }
    assert Data(u.kids) == Data(t.kids);
  }

  /** `d2` materializes to the chunk's bytes, in the store before or after it is installed, at some depth. */
  ghost predicate Equivalent(ctx: Context, l: Limits, c: ChunkId, d1: Representation, d2: Representation) {
    exists store, k1: nat, k2: nat ::
      (store == ctx || store == Replace(ctx, c, d2)) && SameBytes(d1, ctx, d2, store, l, k1, k2)
  }

  ghost predicate SameBytes(d1: Representation, a: Context, d2: Representation, b: Context, l: Limits, k1: nat, k2: nat) {
    Eval(d1, a, l, k1).Good? && Eval(d2, b, l, k2).Good? && Eval(d1, a, l, k1).data == Eval(d2, b, l, k2).data
  }

  /**
   Any two successful evaluations of one descriptor, before and after chunk `c`
   was given an equivalent descriptor, give the same bytes, whatever the depths.
   */
  lemma MigrationSameBytes(d: Representation, ctx: Context, l: Limits, c: ChunkId, d1: Representation,
                           d2: Representation, before: nat, after: nat)
    requires ctx.fetchDescriptor(c) == Ok(d1) && Equivalent(ctx, l, c, d1, d2)
    requires Eval(d, ctx, l, before).Good? && Eval(d, Replace(ctx, c, d2), l, after).Good?
    ensures Eval(d, ctx, l, before).data == Eval(d, Replace(ctx, c, d2), l, after).data
  {
    hide Eval, Unfolds;
    var ctx' := Replace(ctx, c, d2);
    var store, k1: nat, k2: nat :| (store == ctx || store == ctx') && SameBytes(d1, ctx, d2, store, l, k1, k2);
    var was := EvaluationUnfolds(d1, ctx, l, k1);
    var now := EvaluationUnfolds(d2, store, l, k2);
    var t := EvaluationUnfolds(d, ctx, l, before);
    var u := EvaluationUnfolds(d, ctx', l, after);
    if store == ctx {
      OldMeaningKept(t, u, ctx, l, c, was, now);
    } else {
      GraftUnfolds(t, ctx, l, c, was, now);
      UnfoldingUnique(u, Graft(t, c, now), ctx', l);
    }
  }

  /** The same for whole-chunk reads: a descriptor that reads before and after reads as the same bytes. */
  lemma MigrationSameReads(d: Representation, ctx: Context, l: Limits, c: ChunkId, d1: Representation, d2: Representation)
    requires ctx.fetchDescriptor(c) == Ok(d1) && Equivalent(ctx, l, c, d1, d2)
    requires Read(d, ctx, l).Ok? && Read(d, Replace(ctx, c, d2), l).Ok?
    ensures Read(d, ctx, l) == Read(d, Replace(ctx, c, d2), l)
  {
    hide Eval, Equivalent, Replace;
    MigrationSameBytes(d, ctx, l, c, d1, d2, 0, 0);
  }

  /**
   A replacement that is no deeper and no dearer keeps every read that worked:
   same bytes, at the same depth and budget.
   */
  lemma MigrationKeepsReads(d: Representation, ctx: Context, l: Limits, c: ChunkId, was: Tree, now: Tree,
                            depth: nat, budget: nat)
    requires ctx.fetchDescriptor(c) == Ok(was.desc) && Unfolds(was, ctx, l)
    requires Unfolds(now, Replace(ctx, c, now.desc), l) && now.data == was.data
    requires Height(now) <= Height(was) && Cost(now) <= Cost(was)
    requires Charge(Eval(d, ctx, l, depth), budget).Done?
    ensures Charge(Eval(d, Replace(ctx, c, now.desc), l, depth), budget).Done?
    ensures Eval(d, Replace(ctx, c, now.desc), l, depth).data == Eval(d, ctx, l, depth).data
  {
    hide Eval, Unfolds, Height, Cost;
    var t := EvaluationUnfolds(d, ctx, l, depth);
    GraftUnfolds(t, ctx, l, c, was, now);
    GraftHeight(t, ctx, l, c, was, now, 0);
    GraftCost(t, ctx, l, c, was, now);
    UnfoldingEvaluates(Graft(t, c, now), Replace(ctx, c, now.desc), l, depth);
  }

  // ----- which candidates may replace a chunk -----

  lemma {:induction false} UnusedKept(t: Tree, ctx: Context, l: Limits, c: ChunkId, d: Representation)
    requires Unfolds(t, ctx, l) && !Uses(t, c)
    ensures Unfolds(t, Replace(ctx, c, d), l)
    decreases t
  {
    hide Finish, Target;
    forall i | 0 <= i < |t.kids|
      ensures Target(t.desc, i, Replace(ctx, c, d), l) == Ok(t.kids[i].desc)
              && Unfolds(t.kids[i], Replace(ctx, c, d), l)
    {
      TargetKept(t.desc, i, ctx, l, c, d);
      UnusedKept(t.kids[i], ctx, l, c, d);
    }
  }

  /** Below a reader of `c`, the new store holds the whole of `now` again. */
  lemma {:induction false} ReaderIsTaller(s: Tree, u: Tree, now: Tree, ctx: Context, l: Limits, c: ChunkId)
    requires Unfolds(s, ctx, l) && Uses(s, c)
    requires Unfolds(now, Replace(ctx, c, now.desc), l)
    requires Unfolds(u, Replace(ctx, c, now.desc), l) && u.desc == s.desc
    ensures Height(u) > Height(now)
    decreases s
  {
    hide Finish, Target;
    var ctx' := Replace(ctx, c, now.desc);
    if c in Refs(s.desc) {
      var i :| 0 <= i < |Refs(s.desc)| && Refs(s.desc)[i] == c;
      TargetFetches(u.desc, i, ctx', l);
      UnfoldingUnique(u.kids[i], now, ctx', l);
      assert Height(u.kids[i]) < Height(u);
    } else {
      var i :| 0 <= i < |s.kids| && Uses(s.kids[i], c);
      TargetKept(s.desc, i, ctx, l, c, now.desc);
      ReaderIsTaller(s.kids[i], u.kids[i], now, ctx, l, c);
      assert Height(u.kids[i]) < Height(u);
    }
  }

  /**
   A candidate that materializes today still does once it is the chunk's own
   descriptor exactly when nothing it reads leads back to the chunk.
   */
  lemma CandidateSurvivesIff(cand: Tree, ctx: Context, l: Limits, c: ChunkId)
    requires Unfolds(cand, ctx, l)
    ensures !Uses(cand, c) <==> exists now :: Unfolds(now, Replace(ctx, c, cand.desc), l) && now.desc == cand.desc
  {
    if !Uses(cand, c) {
      UnusedKept(cand, ctx, l, c, cand.desc);
    } else if now :| Unfolds(now, Replace(ctx, c, cand.desc), l) && now.desc == cand.desc {
      ReaderIsTaller(cand, now, now, ctx, l, c);
      assert false;
    }
  }

  /**
   An equivalent candidate that does not read the chunk may be committed: every
   descriptor that had a meaning keeps it, and no new depth appears beyond the
   candidate's own excess.
   */
  lemma CommitKeepsMeaning(t: Tree, ctx: Context, l: Limits, c: ChunkId, was: Tree, cand: Tree, excess: nat)
    returns (after: Tree)
    requires Unfolds(t, ctx, l) && Unfolds(cand, ctx, l) && !Uses(cand, c)
    requires ctx.fetchDescriptor(c) == Ok(was.desc) && Unfolds(was, ctx, l) && cand.data == was.data
    requires Height(cand) <= Height(was) + excess
    ensures Unfolds(after, Replace(ctx, c, cand.desc), l)
    ensures after.desc == t.desc && after.data == t.data && Height(after) <= Height(t) + excess
  {
    UnusedKept(cand, ctx, l, c, cand.desc);
    GraftUnfolds(t, ctx, l, c, was, cand);
    GraftHeight(t, ctx, l, c, was, cand, excess);
    after := Graft(t, c, cand);
  }
}

/**
 Reference chains in the chunk index, and the two bounded walks over them that
 guard every rewrite (src/optimizer/rebase.rs): the longest-chain depth and the
 self-reference test. The walks are exact on what the materializer can decode.
 */
module ChainWalk {
  import opened Bytes
  import opened Descriptor
  import opened Context
  import opened Materializer
  import opened Unfolding
  import opened Migration

  type Index = ChunkId -> Result<Representation>

  /** The chunks a walk continues to; undecodable entries end it. */
  function Next(index: Index, id: ChunkId): seq<ChunkId> {
    match index(id)
    case Err(_) => []
    case Ok(d) => Hops(d)
  }

  /** The same chunks as `Refs`, in the order the walks push them. */
  function Hops(d: Representation): seq<ChunkId> {
    if d.SequenceSharedDict? && d.dictionary != ZeroId then [d.dictionary, d.shared] else Refs(d)
  }

  lemma HopsAreRefs(d: Representation, id: ChunkId)
    ensures id in Hops(d) <==> id in Refs(d)
    ensures |Hops(d)| <= 2
  {
  }

  /** Consecutive chunks, each read by the one before. */
  ghost predicate Chain(index: Index, p: seq<ChunkId>) {
    |p| > 0 && forall i :: 0 <= i < |p| - 1 ==> p[i + 1] in Next(index, p[i])
  }

  ghost predicate ChainTo(index: Index, p: seq<ChunkId>, from: ChunkId, to: ChunkId, hops: nat) {
    Chain(index, p) && p[0] == from && p[|p| - 1] == to && |p| == hops + 1
  }

  ghost predicate Reaches(index: Index, from: ChunkId, to: ChunkId, hops: nat) {
    exists p :: ChainTo(index, p, from, to, hops)
  }

  lemma ReachStep(index: Index, from: ChunkId, to: ChunkId, hops: nat, n: ChunkId)
    requires Reaches(index, from, to, hops) && n in Next(index, to)
    ensures Reaches(index, from, n, hops + 1)
  {
    var p :| ChainTo(index, p, from, to, hops);
    assert ChainTo(index, p + [n], from, n, hops + 1);
  }

  lemma ReachSelf(index: Index, id: ChunkId)
    ensures Reaches(index, id, id, 0)
  {
    assert ChainTo(index, [id], id, id, 0);
  }

  // ----- the worklist -----

  type Entry = (ChunkId, nat)

  function Pow3(n: nat): (p: nat)
    ensures p >= 1
  {
    if n == 0 then 1 else 3 * Pow3(n - 1)
  }

  /** Each entry weighs more than the two it can be replaced by. */
  function Weight(stack: seq<Entry>, cap: nat): nat {
    if stack == [] then 0
    else Weight(stack[..|stack| - 1], cap) + EntryWeight(stack[|stack| - 1], cap)
  }

  function EntryWeight(e: Entry, cap: nat): (w: nat)
    ensures w >= 1
  {
    if e.1 > cap then 1 else Pow3(cap + 1 - e.1)
  }

  function Push(stack: seq<Entry>, nexts: seq<ChunkId>, d: nat): (s: seq<Entry>)
    ensures |s| == |stack| + |nexts|
    ensures forall i :: 0 <= i < |stack| ==> s[i] == stack[i]
    ensures forall i :: 0 <= i < |nexts| ==> s[|stack| + i] == (nexts[i], d)
    decreases |nexts|
  {
    if nexts == [] then stack
    else Push(stack, nexts[..|nexts| - 1], d) + [(nexts[|nexts| - 1], d)]
  }

  lemma WeightAppend(stack: seq<Entry>, e: Entry, cap: nat)
    ensures Weight(stack + [e], cap) == Weight(stack, cap) + EntryWeight(e, cap)
  {
    assert (stack + [e])[..|stack|] == stack;
  }

  lemma WeightDrops(stack: seq<Entry>, id: ChunkId, d: nat, cap: nat, nexts: seq<ChunkId>)
    requires d < cap && |nexts| <= 2
    ensures Weight(Push(stack, nexts, d + 1), cap) < Weight(stack, cap) + EntryWeight((id, d), cap)
  {
    assert EntryWeight((id, d), cap) == 3 * Pow3(cap - d);
    if nexts != [] {
      var init := nexts[..|nexts| - 1];
      WeightAppend(Push(stack, init, d + 1), (nexts[|nexts| - 1], d + 1), cap);
      if init != [] {
        assert init[..|init| - 1] == [] && Push(stack, [], d + 1) == stack;
        assert Push(stack, init, d + 1) == stack + [(init[0], d + 1)];
        WeightAppend(stack, (init[0], d + 1), cap);
      }
    }
  }

  // ----- the longest chain -----

  ghost predicate Seen(visited: map<ChunkId, nat>, id: ChunkId, d: nat) {
    id in visited && visited[id] >= d
  }

  /** An explored chunk has its continuations counted and still to come, or already explored as deep. */
  ghost predicate Explored(index: Index, visited: map<ChunkId, nat>, stack: seq<Entry>, best: nat, cap: nat) {
    forall v, n {:trigger v in visited, n in Next(index, v)} ::
      v in visited && n in Next(index, v) ==>
        visited[v] + 1 <= best
        && ((n, visited[v] + 1) in stack || Seen(visited, n, visited[v] + 1) || visited[v] + 1 >= cap)
  }

  /**
   The depth walk of `chain_depth`: the longest chain from `id`, cut at `cap`.
   A chunk met first by a short path is explored again when a longer one reaches it.
   */
  method LongestChain(index: Index, cap: nat, id: ChunkId) returns (best: nat)
    ensures best <= cap && exists to :: Reaches(index, id, to, best)
    ensures forall to, hops: nat :: Reaches(index, id, to, hops) && hops <= cap ==> hops <= best
  {
    hide Explored, Reaches, Weight, EntryWeight, Push, Next;
    best := 0;
    var stack: seq<Entry> := [(id, 0)];
    var visited: map<ChunkId, nat> := map[];
    ReachSelf(index, id);
    NothingExplored(index, stack, cap);
    while stack != []
      invariant best <= cap && exists to :: Reaches(index, id, to, best)
      invariant forall e :: e in stack ==> e.1 <= cap && Reaches(index, id, e.0, e.1)
      invariant Explored(index, visited, stack, best, cap)
      invariant (id, 0) in stack || Seen(visited, id, 0) || cap == 0
      decreases Weight(stack, cap)
    {
      var (cur, d) := stack[|stack| - 1];
      var rest := stack[..|stack| - 1];
      assert stack == rest + [(cur, d)];
      WeightAppend(rest, (cur, d), cap);
      if d >= cap || (cur in visited && visited[cur] >= d) {
        ExploreSkip(index, visited, rest, cur, d, best, cap);
        stack := rest;
      } else {
        var nexts := Next(index, cur);
        NextSmall(index, cur);
        WeightDrops(rest, cur, d, cap, nexts);
        PushReached(index, id, rest, cur, d, cap);
        ExploreStep(index, visited, rest, cur, d, best, cap);
        PushMembers(rest, nexts, d + 1);
        visited := visited[cur := d];
        stack := Push(rest, nexts, d + 1);
        if nexts != [] && best < d + 1 {
          best := d + 1;
          ReachStep(index, id, cur, d, nexts[0]);
        }
      }
    }
    forall to, hops: nat | Reaches(index, id, to, hops) && hops <= cap ensures hops <= best {
      AllFound(index, visited, best, cap, id, to, hops);
    }
  }

  lemma NothingExplored(index: Index, stack: seq<Entry>, cap: nat)
    ensures Explored(index, map[], stack, 0, cap)
  {
  }

  lemma ExploreSkip(index: Index, visited: map<ChunkId, nat>, rest: seq<Entry>, cur: ChunkId, d: nat, best: nat, cap: nat)
    requires Explored(index, visited, rest + [(cur, d)], best, cap)
    requires d >= cap || Seen(visited, cur, d)
    ensures Explored(index, visited, rest, best, cap)
  {
  }

  lemma PushReached(index: Index, id: ChunkId, rest: seq<Entry>, cur: ChunkId, d: nat, cap: nat)
    requires d < cap && Reaches(index, id, cur, d)
    requires forall e :: e in rest ==> e.1 <= cap && Reaches(index, id, e.0, e.1)
    ensures forall e :: e in Push(rest, Next(index, cur), d + 1) ==> e.1 <= cap && Reaches(index, id, e.0, e.1)
  {
    hide Reaches, Push, Next;
    var nexts := Next(index, cur);
    PushMembers(rest, nexts, d + 1);
    forall e | e in Push(rest, nexts, d + 1) ensures e.1 <= cap && Reaches(index, id, e.0, e.1) {
      if e !in rest { ReachStep(index, id, cur, d, e.0); }
    }
  }

  lemma AllFound(index: Index, visited: map<ChunkId, nat>, best: nat, cap: nat, id: ChunkId, to: ChunkId, hops: nat)
    requires Explored(index, visited, [], best, cap) && (Seen(visited, id, 0) || cap == 0)
    requires Reaches(index, id, to, hops) && hops <= cap && best <= cap
    ensures hops <= best
  {
    var p :| ChainTo(index, p, id, to, hops);
    if hops > 0 { LongestIsFound(index, visited, best, cap, p, hops - 1); }
  }

  lemma NextSmall(index: Index, id: ChunkId)
    ensures |Next(index, id)| <= 2
  {
    if index(id).Ok? { HopsAreRefs(index(id).value, id); }
  }

  lemma PushMembers(stack: seq<Entry>, nexts: seq<ChunkId>, d: nat)
    ensures forall e :: e in Push(stack, nexts, d) <==> e in stack || (e.0 in nexts && e.1 == d)
  {
    var s := Push(stack, nexts, d);
    forall e | e in s ensures e in stack || (e.0 in nexts && e.1 == d) {
      var i :| 0 <= i < |s| && s[i] == e;
      if i >= |stack| { assert s[|stack| + (i - |stack|)] == (nexts[i - |stack|], d); }
    }
    forall e | e in stack || (e.0 in nexts && e.1 == d) ensures e in s {
      if e in stack {
        var i :| 0 <= i < |stack| && stack[i] == e;
        assert s[i] == e;
      } else {
        var i :| 0 <= i < |nexts| && nexts[i] == e.0;
        assert s[|stack| + i] == (nexts[i], d);
      }
    }
  }

  lemma ExploreStep(index: Index, visited: map<ChunkId, nat>, rest: seq<Entry>, cur: ChunkId, d: nat, best: nat, cap: nat)
    requires Explored(index, visited, rest + [(cur, d)], best, cap)
    requires d < cap && !(cur in visited && visited[cur] >= d)
    ensures var nexts := Next(index, cur);
            Explored(index, visited[cur := d], Push(rest, nexts, d + 1),
                     if nexts != [] && best < d + 1 then d + 1 else best, cap)
  {
    var nexts := Next(index, cur);
    PushMembers(rest, nexts, d + 1);
  }

  /** Along any chain the walk explored each chunk at least as deep as it stands, or had already hit the cap. */
  lemma {:induction false} LongestIsFound(index: Index, visited: map<ChunkId, nat>, best: nat, cap: nat, p: seq<ChunkId>, j: nat)
    requires Chain(index, p) && j + 1 < |p| && j + 1 <= cap && best <= cap
    requires Explored(index, visited, [], best, cap) && Seen(visited, p[0], 0)
    ensures best >= j + 1 && (best >= cap || Seen(visited, p[j], j))
  {
    if j > 0 {
      LongestIsFound(index, visited, best, cap, p, j - 1);
      assert p[j] in Next(index, p[j - 1]);
    }
    assert p[j + 1] in Next(index, p[j]);
  }

  // ----- the self-reference test -----

  ghost predicate Bounded(index: Index, from: ChunkId, cap: nat) {
    forall to, hops: nat :: Reaches(index, from, to, hops) ==> hops <= cap
  }

  /** A chunk the test is finished with: expanded, or a dead end that is not the target. */
  ghost predicate Cleared(index: Index, visited: set<ChunkId>, target: ChunkId, id: ChunkId) {
    id != target && (id in visited || Next(index, id) == [])
  }

  ghost predicate Swept(index: Index, visited: set<ChunkId>, stack: seq<Entry>, target: ChunkId) {
    forall v, n {:trigger v in visited, n in Next(index, v)} ::
      v in visited && n in Next(index, v) ==> OnStack(stack, n) || Cleared(index, visited, target, n)
  }

  ghost predicate OnStack(stack: seq<Entry>, id: ChunkId) {
    exists e :: e in stack && e.0 == id
  }

  /** The worklist run from `stack` on: every chunk is expanded at the first depth it is popped at below the cap. */
  function Sweeps(index: Index, cap: nat, stack: seq<Entry>, visited: set<ChunkId>, target: ChunkId): bool
    decreases Weight(stack, cap)
  {
    if stack == [] then false
    else
      var (cur, d) := stack[|stack| - 1];
      var rest := stack[..|stack| - 1];
      if cur == target then true
      else if d >= cap || cur in visited then Sweeps(index, cap, rest, visited, target)
      else
        NextSmall(index, cur);
        WeightDrops(rest, cur, d, cap, Next(index, cur));
        Sweeps(index, cap, Push(rest, Next(index, cur), d + 1), visited + {cur}, target)
  }

  lemma SweepsStep(index: Index, cap: nat, rest: seq<Entry>, cur: ChunkId, d: nat, visited: set<ChunkId>, target: ChunkId)
    ensures Sweeps(index, cap, [], visited, target) == false
    ensures Sweeps(index, cap, rest + [(cur, d)], visited, target)
         == if cur == target then true
            else if d >= cap || cur in visited then Sweeps(index, cap, rest, visited, target)
            else Sweeps(index, cap, Push(rest, Next(index, cur), d + 1), visited + {cur}, target)
  {
    hide Push, Next, Weight, EntryWeight;
    assert (rest + [(cur, d)])[..|rest|] == rest;
  }

  /**
   `chain_contains` (src/optimizer/rebase.rs:342). What it finds is really
   there; where no chain from `base` outruns the cap it also misses nothing.
   */
  method ChainContains(index: Index, cap: nat, base: ChunkId, target: ChunkId) returns (found: bool)
    ensures found == Sweeps(index, cap, [(base, 0)], {}, target)
    ensures found ==> exists hops :: 0 <= hops <= cap && Reaches(index, base, target, hops)
    ensures Bounded(index, base, cap) ==> (found <==> exists hops: nat :: Reaches(index, base, target, hops))
  {
    hide Reaches, Weight, EntryWeight, Push, Next, Bounded, Swept, OnStack, Sweeps;
    var stack: seq<Entry> := [(base, 0)];
    var visited: set<ChunkId> := {};
    ReachSelf(index, base);
    SweptStart(index, base, target);
    while stack != []
      invariant Sweeps(index, cap, stack, visited, target) == Sweeps(index, cap, [(base, 0)], {}, target)
      invariant forall e :: e in stack ==> e.1 <= cap && Reaches(index, base, e.0, e.1)
      invariant Bounded(index, base, cap) ==>
                  Swept(index, visited, stack, target)
                  && (OnStack(stack, base) || Cleared(index, visited, target, base))
                  && target !in visited
      decreases Weight(stack, cap)
    {
      var (cur, d) := stack[|stack| - 1];
      var rest := stack[..|stack| - 1];
      assert stack == rest + [(cur, d)];
      WeightAppend(rest, (cur, d), cap);
      SweepsStep(index, cap, rest, cur, d, visited, target);
      if cur == target {
        return true;
      }
      if d >= cap || cur in visited {
        if Bounded(index, base, cap) {
          if d >= cap { CapIsDeadEnd(index, base, cap, cur, d); }
          SweepSkip(index, visited, rest, cur, d, target, base);
        }
        stack := rest;
      } else {
        var nexts := Next(index, cur);
        NextSmall(index, cur);
        WeightDrops(rest, cur, d, cap, nexts);
        PushReached(index, base, rest, cur, d, cap);
        if Bounded(index, base, cap) { SweepStep(index, visited, rest, cur, d, target, base); }
        visited := visited + {cur};
        stack := Push(rest, nexts, d + 1);
      }
    }
    NothingOnStack(base);
    SweepsStep(index, cap, [], base, 0, visited, target);
    if Bounded(index, base, cap) {
      forall hops: nat ensures !Reaches(index, base, target, hops) {
        SweptAvoids(index, visited, target, base, hops);
      }
    }
    return false;
  }

  lemma SweptStart(index: Index, base: ChunkId, target: ChunkId)
    ensures Swept(index, {}, [(base, 0)], target) && OnStack([(base, 0)], base)
  {
    assert (base, 0) in [(base, 0)];
  }

  lemma NothingOnStack(id: ChunkId)
    ensures !OnStack([], id)
  {
  }

  lemma CapIsDeadEnd(index: Index, base: ChunkId, cap: nat, cur: ChunkId, d: nat)
    requires Bounded(index, base, cap) && d >= cap && Reaches(index, base, cur, d)
    ensures Next(index, cur) == []
  {
    if Next(index, cur) != [] { ReachStep(index, base, cur, d, Next(index, cur)[0]); }
  }

  lemma SweepSkip(index: Index, visited: set<ChunkId>, rest: seq<Entry>, cur: ChunkId, d: nat, target: ChunkId, base: ChunkId)
    requires Swept(index, visited, rest + [(cur, d)], target) && Cleared(index, visited, target, cur)
    requires OnStack(rest + [(cur, d)], base) || Cleared(index, visited, target, base)
    ensures Swept(index, visited, rest, target)
    ensures OnStack(rest, base) || Cleared(index, visited, target, base)
  {
    forall n | OnStack(rest + [(cur, d)], n) && n != cur ensures OnStack(rest, n) {
      var e :| e in rest + [(cur, d)] && e.0 == n;
      assert e in rest;
    }
  }

  lemma SweepStep(index: Index, visited: set<ChunkId>, rest: seq<Entry>, cur: ChunkId, d: nat, target: ChunkId, base: ChunkId)
    requires Swept(index, visited, rest + [(cur, d)], target) && cur != target && target !in visited
    requires OnStack(rest + [(cur, d)], base) || Cleared(index, visited, target, base)
    ensures Swept(index, visited + {cur}, Push(rest, Next(index, cur), d + 1), target)
    ensures OnStack(Push(rest, Next(index, cur), d + 1), base) || Cleared(index, visited + {cur}, target, base)
  {
    var nexts := Next(index, cur);
    var s := Push(rest, nexts, d + 1);
    PushMembers(rest, nexts, d + 1);
    forall n | OnStack(rest + [(cur, d)], n) && n != cur ensures OnStack(s, n) {
      var e :| e in rest + [(cur, d)] && e.0 == n;
      assert e in s;
    }
    forall n | n in nexts ensures OnStack(s, n) {
      assert (n, d + 1) in s;
    }
  }

  lemma SweptAvoids(index: Index, visited: set<ChunkId>, target: ChunkId, base: ChunkId, hops: nat)
    requires Swept(index, visited, [], target) && Cleared(index, visited, target, base)
    ensures !Reaches(index, base, target, hops)
  {
    forall p | ChainTo(index, p, base, target, hops) ensures false {
      ClearedAlong(index, visited, target, p, hops);
    }
  }

  lemma {:induction false} ClearedAlong(index: Index, visited: set<ChunkId>, target: ChunkId, p: seq<ChunkId>, j: nat)
    requires Swept(index, visited, [], target) && Chain(index, p) && j < |p| && Cleared(index, visited, target, p[0])
    ensures Cleared(index, visited, target, p[j])
  {
    if j > 0 {
      ClearedAlong(index, visited, target, p, j - 1);
      assert p[j] in Next(index, p[j - 1]);
    }
  }

  // ----- chains and unfoldings -----

  /** The unfolding found `k` hops along a chain that starts below `t`. */
  lemma {:induction false} TreeAlong(t: Tree, ctx: Context, l: Limits, p: seq<ChunkId>, k: nat) returns (u: Tree)
    requires Unfolds(t, ctx, l) && Chain(ctx.fetchDescriptor, p) && p[0] in Refs(t.desc) && k < |p|
    ensures Unfolds(u, ctx, l) && ctx.fetchDescriptor(p[k]) == Ok(u.desc)
    ensures Height(u) + k < Height(t)
    ensures p[k] in Refs(t.desc) || Uses(t, p[k])
    decreases k
  {
    hide Finish, Target;
    var i :| 0 <= i < |Refs(t.desc)| && Refs(t.desc)[i] == p[0];
    TargetFetches(t.desc, i, ctx, l);
    var kid := t.kids[i];
    if k == 0 {
      u := kid;
    } else {
      assert p[1] in Next(ctx.fetchDescriptor, p[0]);
      HopsAreRefs(kid.desc, p[1]);
      assert Chain(ctx.fetchDescriptor, p[1..]) by {
        forall j | 0 <= j < |p[1..]| - 1 ensures p[1..][j + 1] in Next(ctx.fetchDescriptor, p[1..][j]) {
          assert p[j + 1 + 1] in Next(ctx.fetchDescriptor, p[j + 1]);
        }
      }
      u := TreeAlong(kid, ctx, l, p[1..], k - 1);
      assert Uses(kid, p[k]);
    }
  }

  /** A chain that closes on itself below a descriptor rules out every successful read of it. */
  lemma CycleNeverMaterializes(d: Representation, ctx: Context, l: Limits, depth: nat, p: seq<ChunkId>, i: nat, j: nat)
    requires Chain(ctx.fetchDescriptor, p) && p[0] in Refs(d) && i < j < |p| && p[i] == p[j]
    ensures Eval(d, ctx, l, depth).Bad?
  {
    hide Eval, Unfolds, Height;
    if Eval(d, ctx, l, depth).Good? {
      var t := EvaluationUnfolds(d, ctx, l, depth);
      var u := TreeAlong(t, ctx, l, p, i);
      var q := p[i + 1..];
      ChainTail(ctx.fetchDescriptor, p, i, u.desc);
      var w := TreeAlong(u, ctx, l, q, j - i - 1);
      UnfoldingUnique(u, w, ctx, l);
      assert false;
    }
  }

  /** Success at a depth bounds every reference path: none is longer than the hops that remain. */
  lemma PathsWithinDepth(d: Representation, ctx: Context, l: Limits, depth: nat, p: seq<ChunkId>)
    requires Eval(d, ctx, l, depth).Good? && Chain(ctx.fetchDescriptor, p) && p[0] in Refs(d)
    ensures |p| + depth <= l.maxReferenceDepth
  {
    hide Eval, Unfolds, Height;
    var t := EvaluationUnfolds(d, ctx, l, depth);
    var u := TreeAlong(t, ctx, l, p, |p| - 1);
  }

  /** Every chunk of the set is unknown or refers to another chunk of the set. */
  ghost predicate Trap(s: set<ChunkId>, index: Index) {
    forall id :: id in s ==> index(id).Err? || exists r :: r in Refs(index(id).value) && r in s
  }

  lemma {:induction false} NoWayOut(t: Tree, ctx: Context, l: Limits, s: set<ChunkId>, id: ChunkId)
    requires Unfolds(t, ctx, l) && Trap(s, ctx.fetchDescriptor) && id in s && id in Refs(t.desc)
    ensures false
    decreases t
  {
    hide Finish, Target;
    var i :| 0 <= i < |Refs(t.desc)| && Refs(t.desc)[i] == id;
    TargetFetches(t.desc, i, ctx, l);
    var r :| r in Refs(t.kids[i].desc) && r in s;
    NoWayOut(t.kids[i], ctx, l, s, r);
  }

  /** A descriptor that leads into such a set, cyclic or dangling, never materializes, at any depth. */
  lemma TrapNeverMaterializes(d: Representation, ctx: Context, l: Limits, depth: nat, s: set<ChunkId>, id: ChunkId)
    requires Trap(s, ctx.fetchDescriptor) && id in s && id in Refs(d)
    ensures Eval(d, ctx, l, depth).Bad?
  {
    hide Eval, Unfolds, Trap;
    if Eval(d, ctx, l, depth).Good? {
      var t := EvaluationUnfolds(d, ctx, l, depth);
      NoWayOut(t, ctx, l, s, id);
    }
  }

  lemma ChainTail(index: Index, p: seq<ChunkId>, i: nat, d: Representation)
    requires Chain(index, p) && i + 1 < |p| && index(p[i]) == Ok(d)
    ensures Chain(index, p[i + 1..]) && p[i + 1..][0] in Refs(d)
  {
    var q := p[i + 1..];
    forall j | 0 <= j < |q| - 1 ensures q[j + 1] in Next(index, q[j]) {
      assert p[i + 1 + j + 1] in Next(index, p[i + 1 + j]);
    }
    assert p[i + 1] in Next(index, p[i]);
    HopsAreRefs(d, p[i + 1]);
  }

  /** Every chain below a tree is at most as long as the tree is high, and one is exactly that long. */
  lemma {:induction false} TallestChain(t: Tree, ctx: Context, l: Limits) returns (p: seq<ChunkId>)
    requires Unfolds(t, ctx, l) && Height(t) > 0
    ensures Chain(ctx.fetchDescriptor, p) && p[0] in Refs(t.desc) && |p| == Height(t)
    decreases t
  {
    hide Finish, Target;
    var i := TallestKid(t, |t.kids|);
    TargetFetches(t.desc, i, ctx, l);
    var id, kid := Refs(t.desc)[i], t.kids[i];
    if Height(kid) == 0 {
      p := [id];
    } else {
      var rest := TallestChain(kid, ctx, l);
      p := [id] + rest;
      HopsAreRefs(kid.desc, rest[0]);
      forall j | 0 <= j < |p| - 1 ensures p[j + 1] in Next(ctx.fetchDescriptor, p[j]) {
        if j > 0 { assert rest[j - 1 + 1] in Next(ctx.fetchDescriptor, rest[j - 1]); }
      }
    }
  }

  lemma {:induction false} TallestKid(t: Tree, n: nat) returns (i: nat)
    requires n <= |t.kids| && HeightAll(t, n) > 0
    ensures i < n && Height(t.kids[i]) + 1 == HeightAll(t, n)
  {
    if Height(t.kids[n - 1]) + 1 == HeightAll(t, n) {
      i := n - 1;
    } else {
      i := TallestKid(t, n - 1);
    }
  }

  function Min(a: nat, b: nat): nat { if a <= b then a else b }
  function Max(a: nat, b: nat): nat { if a >= b then a else b }

  ghost predicate Extends(index: Index, id: ChunkId, hops: nat) {
    exists to :: Reaches(index, id, to, hops)
  }

  /** The longest reference chain from `d`, as far as the capped walk and a `u8` can tell. */
  ghost predicate IsChainDepth(index: Index, cap: nat, d: Representation, depth: nat) {
    if Hops(d) == [] then depth == 0
    else
      && 1 <= depth <= Min(cap + 1, 255)
      && (forall id, hops: nat :: id in Hops(d) && hops <= cap && Extends(index, id, hops) ==>
            Min(hops + 1, 255) <= depth)
      && (cap < 255 ==> exists id :: id in Hops(d) && Extends(index, id, depth - 1))
  }

  /** `chain_depth` (src/optimizer/rebase.rs:144): the deeper branch plus one, saturating at 255. */
  method ChainDepth(index: Index, cap: nat, d: Representation) returns (depth: nat)
    ensures IsChainDepth(index, cap, d, depth)
  {
    hide Reaches;
    var refs := Hops(d);
    HopsAreRefs(d, ZeroId);
    if refs == [] {
      return 0;
    }
    var deepest := LongestChain(index, cap, refs[0]);
    ghost var branch := refs[0];
    if |refs| == 2 {
      var second := LongestChain(index, cap, refs[1]);
      if second > deepest { branch := refs[1]; }
      deepest := Max(deepest, second);
    }
    depth := Min(deepest + 1, 255);
    assert branch in Hops(d) && Extends(index, branch, deepest);
    forall id, hops: nat | id in refs && hops <= cap && Extends(index, id, hops) ensures hops <= deepest {
      var to :| Reaches(index, id, to, hops);
    }
  }

  /** Where a descriptor has a meaning, its chain depth is the height of its unfolding, up to one past the cap. */
  lemma ChainDepthIsHeight(t: Tree, ctx: Context, l: Limits, depth: nat)
    requires Unfolds(t, ctx, l) && l.maxReferenceDepth < 255
    requires IsChainDepth(ctx.fetchDescriptor, l.maxReferenceDepth, t.desc, depth)
    ensures depth == Min(Height(t), l.maxReferenceDepth + 1)
  {
    hide Unfolds, Reaches, Height;
    var index, cap := ctx.fetchDescriptor, l.maxReferenceDepth;
    RefsGiveHeight(t, ctx, l);
    if Hops(t.desc) != [] {
      var id :| id in Hops(t.desc) && Extends(index, id, depth - 1);
      HopsAreRefs(t.desc, id);
      ExtensionWithin(t, ctx, l, id, depth - 1);
      var p := TallestChain(t, ctx, l);
      var h := Min(Height(t) - 1, cap);
      PrefixExtends(index, p, h);
      HopsAreRefs(t.desc, p[0]);
    }
  }

  lemma RefsGiveHeight(t: Tree, ctx: Context, l: Limits)
    requires Unfolds(t, ctx, l)
    ensures Hops(t.desc) == [] <==> Height(t) == 0
  {
    hide Finish, Target;
    if t.kids != [] {
      assert Height(t.kids[0]) < Height(t);
    }
  }

  lemma ExtensionWithin(t: Tree, ctx: Context, l: Limits, id: ChunkId, hops: nat)
    requires Unfolds(t, ctx, l) && id in Refs(t.desc) && Extends(ctx.fetchDescriptor, id, hops)
    ensures hops < Height(t)
  {
    hide Unfolds, Height;
    var to :| Reaches(ctx.fetchDescriptor, id, to, hops);
    var p :| ChainTo(ctx.fetchDescriptor, p, id, to, hops);
    var u := TreeAlong(t, ctx, l, p, hops);
  }

  lemma PrefixExtends(index: Index, p: seq<ChunkId>, hops: nat)
    requires Chain(index, p) && hops < |p|
    ensures Extends(index, p[0], hops)
  {
    var q := p[..hops + 1];
    assert ChainTo(index, q, p[0], p[hops], hops);
    assert Reaches(index, p[0], p[hops], hops);
  }

  /** The depth gate is exact: a meaningful descriptor reads back at the top level if and only if the gate admits it. */
  lemma DepthGateExact(t: Tree, ctx: Context, l: Limits, depth: nat)
    requires Unfolds(t, ctx, l) && l.maxReferenceDepth < 255
    requires IsChainDepth(ctx.fetchDescriptor, l.maxReferenceDepth, t.desc, depth)
    ensures depth <= l.maxReferenceDepth <==> Eval(t.desc, ctx, l, 0).Good?
  {
    hide Unfolds, Height, Eval, IsChainDepth;
    ChainDepthIsHeight(t, ctx, l, depth);
    if Height(t) <= l.maxReferenceDepth {
      UnfoldingEvaluates(t, ctx, l, 0);
    } else {
      TooDeepIsDepthExceeded(t, ctx, l, 0);
    }
  }

  // ----- the rewrite guard -----

  lemma {:induction false} UsesIsReached(t: Tree, ctx: Context, l: Limits, c: ChunkId)
    requires Unfolds(t, ctx, l) && Uses(t, c)
    ensures exists id, hops :: id in Refs(t.desc) && 0 <= hops && Reaches(ctx.fetchDescriptor, id, c, hops)
    decreases t
  {
    hide Finish, Target;
    var index := ctx.fetchDescriptor;
    if c in Refs(t.desc) {
      ReachSelf(index, c);
    } else {
      var i :| 0 <= i < |t.kids| && Uses(t.kids[i], c);
      UsesIsReached(t.kids[i], ctx, l, c);
      var id, hops :| id in Refs(t.kids[i].desc) && 0 <= hops && Reaches(index, id, c, hops);
      TargetFetches(t.desc, i, ctx, l);
      HopsAreRefs(t.kids[i].desc, id);
      ReachCons(index, Refs(t.desc)[i], id, c, hops);
    }
  }

  lemma ReachCons(index: Index, a: ChunkId, b: ChunkId, to: ChunkId, hops: nat)
    requires b in Next(index, a) && Reaches(index, b, to, hops)
    ensures Reaches(index, a, to, hops + 1)
  {
    var p :| ChainTo(index, p, b, to, hops);
    var q := [a] + p;
    forall j | 0 <= j < |q| - 1 ensures q[j + 1] in Next(index, q[j]) {
      if j > 0 { assert p[j - 1 + 1] in Next(index, p[j - 1]); }
    }
    assert ChainTo(index, q, a, to, hops + 1);
  }

  /**
   The guard on a candidate base is exact for every base that can be decoded:
   `chain_contains(base, c)` holds precisely when a candidate reading `base`
   would read `c` again, so a candidate it passes survives its own commit.
   */
  lemma GuardExact(t: Tree, ctx: Context, l: Limits, base: ChunkId, c: ChunkId)
    requires ctx.fetchDescriptor(base) == Ok(t.desc) && Unfolds(t, ctx, l)
    requires Height(t) <= l.maxReferenceDepth
    ensures Bounded(ctx.fetchDescriptor, base, l.maxReferenceDepth)
    ensures (exists hops: nat :: Reaches(ctx.fetchDescriptor, base, c, hops)) <==> base == c || Uses(t, c)
  {
    hide Unfolds, Height, Uses;
    var index := ctx.fetchDescriptor;
    forall to, hops: nat | Reaches(index, base, to, hops)
      ensures hops <= l.maxReferenceDepth && (to == base || Uses(t, to))
    {
      BelowBase(t, ctx, l, base, to, hops);
    }
    if base == c { ReachSelf(index, c); }
    if Uses(t, c) {
      UsesIsReached(t, ctx, l, c);
      var id, hops :| id in Refs(t.desc) && 0 <= hops && Reaches(index, id, c, hops);
      HopsAreRefs(t.desc, id);
      ReachCons(index, base, id, c, hops);
    }
  }

  lemma BelowBase(t: Tree, ctx: Context, l: Limits, base: ChunkId, to: ChunkId, hops: nat)
    requires ctx.fetchDescriptor(base) == Ok(t.desc) && Unfolds(t, ctx, l)
    requires Reaches(ctx.fetchDescriptor, base, to, hops)
    ensures hops <= Height(t) && (hops == 0 ==> to == base) && (hops > 0 ==> Uses(t, to))
  {
    hide Unfolds, Height;
    var p :| ChainTo(ctx.fetchDescriptor, p, base, to, hops);
    if hops > 0 {
      ChainTail(ctx.fetchDescriptor, p, 0, t.desc);
      var u := TreeAlong(t, ctx, l, p[1..], hops - 1);
    }
  }

  // ----- past the cap -----

  function Link(i: byte): ChunkId {
    [i] + Fill(1, 31)
  }

  /** One chain: `Link(0)` refers to `Link(1)`, and so on up to `Link(last)`. */
  function Line(last: byte): Index {
    (id: ChunkId) => if id[0] < last then Ok(ExactRef(Link(id[0] + 1), 0, 0)) else Err(MissingChunk(id))
  }

  lemma {:induction false} AlongLine(last: byte, p: seq<ChunkId>, j: nat)
    requires Chain(Line(last), p) && p[0] == Link(0) && j < |p| && last < 255
    ensures j <= last && p[j] == Link(j)
  {
    if j > 0 {
      AlongLine(last, p, j - 1);
      assert p[j] in Next(Line(last), p[j - 1]);
    }
  }

  lemma {:induction false} ReachesLink(last: byte, i: byte)
    requires i <= last < 255
    ensures Reaches(Line(last), Link(0), Link(i), i)
  {
    if i == 0 {
      ReachSelf(Line(last), Link(0));
    } else {
      ReachesLink(last, i - 1);
      ReachStep(Line(last), Link(0), Link(i - 1), i - 1, Link(i));
    }
  }

  lemma LineReaches(last: byte, to: ChunkId, hops: nat)
    requires last < 255 && Reaches(Line(last), Link(0), to, hops)
    ensures hops <= last && to == Link(hops) && to[0] == hops
  {
    var p :| ChainTo(Line(last), p, Link(0), to, hops);
    AlongLine(last, p, hops);
  }

  /** A chunk one hop past the cap is read by the chain, and no walk of at most `cap` hops can find it. */
  lemma BeyondCapUnseen(cap: nat, index: Index, base: ChunkId, target: ChunkId)
    requires cap < 254 && index == Line(cap + 1) && base == Link(0) && target == Link(cap + 1)
    ensures Reaches(index, base, target, cap + 1)
    ensures forall hops: nat :: Reaches(index, base, target, hops) ==> hops > cap
  {
    hide Reaches;
    ReachesLink(cap + 1, cap + 1);
    forall hops: nat | Reaches(index, base, target, hops) ensures hops > cap {
      LineReaches(cap + 1, target, hops);
    }
  }

  // ----- within the cap and still missed -----

  /**
   A diamond: `Link(0)` refers to `Link(2)` and `Link(1)`, and every later chunk to
   the next, up to `Link(last)`. The second branch is one hop longer.
   */
  function Diamond(last: byte): Index {
    (id: ChunkId) =>
      if id[0] >= last then Err(MissingChunk(id))
      else if id[0] == 0 then Ok(SequenceSharedDict(Link(2), 1, Link(1), 1, StreamRefs(Link(3), Link(3), 14, Interleaved2),
                                                    0, 0, 0, 0, 0, 0, 0))
      else Ok(ExactRef(Link(id[0] + 1), 0, 0))
  }

  lemma DiamondNext(last: byte, i: byte)
    requires 2 <= last < 255
    ensures i == 0 ==> Next(Diamond(last), Link(i)) == [Link(2), Link(1)]
    ensures 0 < i < last ==> Next(Diamond(last), Link(i)) == [Link(i + 1)]
  {
    assert Link(i)[0] == i;
    assert Link(2)[0] != ZeroId[0];
  }

  lemma {:induction false} DiamondReaches(last: byte, i: byte)
    requires 2 <= i <= last < 255
    ensures Reaches(Diamond(last), Link(0), Link(i), i - 1)
  {
    hide Reaches;
    if i == 2 {
      ReachSelf(Diamond(last), Link(0));
      DiamondNext(last, 0);
      ReachStep(Diamond(last), Link(0), Link(0), 0, Link(2));
    } else {
      DiamondReaches(last, i - 1);
      DiamondNext(last, i - 1);
      ReachStep(Diamond(last), Link(0), Link(i - 1), i - 2, Link(i));
    }
  }

  lemma PushOne(stack: seq<Entry>, id: ChunkId, d: nat)
    ensures Push(stack, [id], d) == stack + [(id, d)]
  {
    assert [id][..0] == [] && Push(stack, [], d) == stack;
  }

  lemma PushTwo(stack: seq<Entry>, a: ChunkId, b: ChunkId, d: nat)
    ensures Push(stack, [a, b], d) == stack + [(a, d)] + [(b, d)]
  {
    assert [a, b][..1] == [a];
    PushOne(stack, a, d);
  }

  /** The longer branch is walked first, uses the depth up, and leaves the shorter one marked as visited. */
  lemma {:induction false} LongBranchFirst(cap: nat, i: byte, visited: set<ChunkId>)
    requires 3 <= cap < 254 && 2 <= i <= cap
    requires i > 2 ==> Link(2) in visited
    requires forall k: byte :: i <= k ==> Link(k) !in visited
    ensures !Sweeps(Diamond(cap + 1), cap, [(Link(2), 1)] + [(Link(i), i)], visited, Link(cap + 1))
    decreases cap - i
  {
    hide Sweeps, Push, Next, Diamond;
    var index, target, rest := Diamond(cap + 1), Link(cap + 1), [(Link(2), 1)];
    assert forall k: byte {:trigger Link(k)} :: Link(k)[0] == k;
    SweepsStep(index, cap, rest, Link(i), i, visited, target);
    if i < cap {
      DiamondNext(cap + 1, i);
      PushOne(rest, Link(i + 1), i + 1);
      LongBranchFirst(cap, i + 1, visited + {Link(i)});
    } else {
      assert rest == [] + [(Link(2), 1)];
      SweepsStep(index, cap, [], Link(2), 1, visited, target);
    }
  }

  /** A target within the cap is missed when another chain to it outruns the cap. */
  lemma DiamondMissed(cap: nat, index: Index, base: ChunkId, target: ChunkId)
    requires 3 <= cap < 254 && index == Diamond(cap + 1) && base == Link(0) && target == Link(cap + 1)
    ensures Reaches(index, base, target, cap)
    ensures !Sweeps(index, cap, [(base, 0)], {}, target)
  {
    hide Sweeps, Push, Next, Diamond, Reaches;
    assert forall k: byte {:trigger Link(k)} :: Link(k)[0] == k;
    DiamondReaches(cap + 1, cap + 1);
    DiamondNext(cap + 1, 0);
    DiamondNext(cap + 1, 1);
    assert [] + [(base, 0)] == [(base, 0)];
    SweepsStep(index, cap, [], base, 0, {}, target);
    PushTwo([], Link(2), Link(1), 1);
    var rest := [(Link(2), 1)];
    assert [] + [(Link(2), 1)] + [(Link(1), 1)] == rest + [(Link(1), 1)];
    SweepsStep(index, cap, rest, Link(1), 1, {} + {base}, target);
    PushOne(rest, Link(2), 2);
    LongBranchFirst(cap, 2, {} + {base} + {Link(1)});
  }
}

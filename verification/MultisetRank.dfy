/**
 The multinomial coordinate behind PALETTE descriptors (src/entropy/rank.rs):
 the lexicographic index of a symbol sequence among all sequences with the same
 multiplicities, and its greedy inverse.
 */
module MultisetRank {
  import opened Nonlinear
  import opened Bytes
  import opened Binomial
  import opened Checked
  import opened SubsetRank

  function Sum(c: seq<nat>): nat {
    if c == [] then 0 else c[0] + Sum(c[1..])
  }

  /** `n! / prod c_i!` as the product of successive binomials. */
  function Multi(c: seq<nat>): nat {
    if c == [] then 1 else Binom(Sum(c), c[0]) * Multi(c[1..])
  }

  function Dec(c: seq<nat>, s: nat): (d: seq<nat>)
    requires s < |c| && c[s] > 0
    ensures |d| == |c|
  {
    c[s := c[s] - 1]
  }

  /** The arrangements whose next symbol is below `s`. */
  function Blocks(c: seq<nat>, s: nat): nat
    requires s <= |c|
  {
    if s == 0 then 0
    else Blocks(c, s - 1) + (if c[s - 1] == 0 then 0 else Multi(Dec(c, s - 1)))
  }

  lemma {:induction false} SumDec(c: seq<nat>, s: nat)
    requires s < |c| && c[s] > 0
    ensures Sum(c) > 0 && Sum(Dec(c, s)) == Sum(c) - 1
  {
    if s > 0 {
      SumDec(c[1..], s - 1);
      assert Dec(c, s)[1..] == Dec(c[1..], s - 1);
    } else {
      assert Dec(c, 0)[1..] == c[1..];
    }
  }

  lemma {:induction false} SumAtLeast(c: seq<nat>, s: nat)
    requires s < |c|
    ensures c[s] <= Sum(c)
  {
    if s > 0 { SumAtLeast(c[1..], s - 1); }
  }

  lemma {:induction false} MultiPositive(c: seq<nat>)
    ensures Multi(c) >= 1
  {
    if c != [] {
      MultiPositive(c[1..]);
      BinomPositive(Sum(c), c[0]);
      MulLe(Binom(Sum(c), c[0]), 1, Multi(c[1..]));
    }
  }

  lemma {:induction false} MultiOfZeros(c: seq<nat>)
    requires Sum(c) == 0
    ensures Multi(c) == 1
  {
    if c != [] { MultiOfZeros(c[1..]); }
  }

  /** Blocks of a longer count vector factor through the first binomial. */
  lemma {:induction false} BlocksFactor(c: seq<nat>, s: nat)
    requires c != [] && Sum(c) > 0 && s <= |c| - 1
    ensures Blocks(c, s + 1)
         == (if c[0] == 0 then 0 else Multi(Dec(c, 0)))
            + Binom(Sum(c) - 1, c[0]) * Blocks(c[1..], s)
  {
    if s == 0 {
      assert Blocks(c, 1) == Blocks(c, 0) + (if c[0] == 0 then 0 else Multi(Dec(c, 0)));
    } else {
      BlocksFactor(c, s - 1);
      var b := Binom(Sum(c) - 1, c[0]);
      var rest := c[1..];
      if c[s] > 0 {
        SumDec(c, s);
        assert Dec(c, s)[1..] == Dec(rest, s - 1);
        MulAdd(b, Blocks(rest, s - 1), Multi(Dec(rest, s - 1)));
      }
    }
  }

  /** `sum over s of Multi(n-1, c - e_s) == Multi(n, c)`: the blocks fill the space. */
  lemma {:induction false} BlocksTotal(c: seq<nat>)
    requires Sum(c) > 0
    ensures Blocks(c, |c|) == Multi(c)
  {
    var n, c0, rest := Sum(c), c[0], c[1..];
    BlocksFactor(c, |rest|);
    if c0 > 0 {
      SumDec(c, 0);
      assert Dec(c, 0)[1..] == rest;
    }
    if Sum(rest) > 0 {
      BlocksTotal(rest);
      PascalProduct(n, c0, Multi(rest));
    } else {
      MultiOfZeros(rest);
      BlocksOfZeros(rest, |rest|);
      BinomDiagonal(n);
      BinomDiagonal(n - 1);
    }
  }

  lemma PascalProduct(n: nat, k: nat, m: nat)
    requires n > 0
    ensures Binom(n, k) * m == (if k == 0 then 0 else Binom(n - 1, k - 1) * m) + Binom(n - 1, k) * m
  {
    if k > 0 { MulAdd(m, Binom(n - 1, k - 1), Binom(n - 1, k)); }
  }

  lemma {:induction false} BlocksOfZeros(c: seq<nat>, s: nat)
    requires Sum(c) == 0 && s <= |c|
    ensures Blocks(c, s) == 0
  {
    if s > 0 {
      SumAtLeast(c, s - 1);
      BlocksOfZeros(c, s - 1);
    }
  }

  lemma {:induction false} BlocksMonotone(c: seq<nat>, s: nat, t: nat)
    requires s <= t <= |c|
    ensures Blocks(c, s) <= Blocks(c, t)
    decreases t
  {
    if s < t { BlocksMonotone(c, s, t - 1); }
  }

  // ----- arrangements and their lexicographic index -----

  /** `q` uses every symbol exactly as often as `c` says. */
  predicate Arranges(q: seq<nat>, c: seq<nat>) {
    if q == [] then Sum(c) == 0
    else q[0] < |c| && c[q[0]] > 0 && Arranges(q[1..], Dec(c, q[0]))
  }

  function Index(q: seq<nat>, c: seq<nat>): nat
    requires Arranges(q, c)
  {
    if q == [] then 0 else Blocks(c, q[0]) + Index(q[1..], Dec(c, q[0]))
  }

  ghost predicate LexLess(q: seq<nat>, r: seq<nat>) {
    exists k: nat :: k < |q| && k < |r| && q[..k] == r[..k] && q[k] < r[k]
  }

  /** The same relation by multiplicities rather than by descent. */
  lemma {:induction false} ArrangesCounts(q: seq<nat>, c: seq<nat>)
    ensures Arranges(q, c) <==>
            |q| == Sum(c) && (forall i :: 0 <= i < |q| ==> q[i] < |c|)
            && (forall s :: 0 <= s < |c| ==> multiset(q)[s] == c[s])
  {
    if q == [] {
      if Sum(c) == 0 {
        forall s | 0 <= s < |c| ensures multiset(q)[s] == c[s] { SumAtLeast(c, s); }
      }
    } else {
      var h := q[0];
      assert q == [h] + q[1..];
      if h < |c| && c[h] > 0 {
        SumDec(c, h);
        ArrangesCounts(q[1..], Dec(c, h));
        HeadCounts(q, c);
      } else if h < |c| {
        assert multiset(q)[h] > 0;
      }
    }
  }

  lemma HeadCounts(q: seq<nat>, c: seq<nat>)
    requires q != [] && q[0] < |c| && c[q[0]] > 0
    ensures (forall s :: 0 <= s < |c| ==> multiset(q)[s] == c[s])
       <==> (forall s :: 0 <= s < |c| ==> multiset(q[1..])[s] == Dec(c, q[0])[s])
    ensures (forall i :: 0 <= i < |q| ==> q[i] < |c|) <==> (forall i :: 0 <= i < |q[1..]| ==> q[1..][i] < |c|)
  {
    var h := q[0];
    assert q == [h] + q[1..];
    assert multiset(q) == multiset{h} + multiset(q[1..]);
    forall s | 0 <= s < |c| ensures multiset(q)[s] == c[s] <==> multiset(q[1..])[s] == Dec(c, h)[s] {
    }
    if forall i :: 0 <= i < |q[1..]| ==> q[1..][i] < |c| {
      forall i | 0 <= i < |q| ensures q[i] < |c| {
        if i > 0 { assert q[i] == q[1..][i - 1]; }
      }
    }
  }

  lemma {:induction false} IndexBelowMulti(q: seq<nat>, c: seq<nat>)
    requires Arranges(q, c)
    ensures Index(q, c) < Multi(c)
  {
    if q == [] {
      MultiOfZeros(c);
    } else {
      var s := q[0];
      IndexBelowMulti(q[1..], Dec(c, s));
      SumDec(c, s);
      BlocksMonotone(c, s + 1, |c|);
      BlocksTotal(c);
    }
  }

  /** A lexicographically smaller arrangement has a smaller index. */
  lemma {:induction false} IndexOrdered(q: seq<nat>, r: seq<nat>, c: seq<nat>)
    requires Arranges(q, c) && Arranges(r, c) && LexLess(q, r)
    ensures Index(q, c) < Index(r, c)
  {
    var k: nat :| k < |q| && k < |r| && q[..k] == r[..k] && q[k] < r[k];
    if k == 0 {
      IndexBelowMulti(q[1..], Dec(c, q[0]));
      BlocksMonotone(c, q[0] + 1, r[0]);
    } else {
      assert q[0] == q[..k][0] == r[..k][0] == r[0];
      assert q[1..][..k - 1] == q[..k][1..] && r[1..][..k - 1] == r[..k][1..];
      assert LexLess(q[1..], r[1..]);
      IndexOrdered(q[1..], r[1..], Dec(c, q[0]));
    }
  }

  // ----- greedy descent -----

  /** The first symbol at or above `s` whose block holds `x`. */
  function Pick(x: nat, c: seq<nat>, s: nat): nat
    requires s <= |c|
    decreases |c| - s
  {
    if s == |c| then s
    else if c[s] > 0 && x < Blocks(c, s + 1) then s
    else Pick(x, c, s + 1)
  }

  lemma {:induction false} PickHolds(x: nat, c: seq<nat>, s: nat)
    requires s <= |c| && Blocks(c, s) <= x < Blocks(c, |c|)
    ensures var p := Pick(x, c, s);
            s <= p < |c| && c[p] > 0 && Blocks(c, p) <= x < Blocks(c, p + 1)
    decreases |c| - s
  {
    if s < |c| && !(c[s] > 0 && x < Blocks(c, s + 1)) {
      PickHolds(x, c, s + 1);
    }
  }

  lemma PickUnique(x: nat, c: seq<nat>, p: nat)
    requires p < |c| && c[p] > 0 && Blocks(c, p) <= x < Blocks(c, p + 1)
    ensures Pick(x, c, 0) == p
  {
    BlocksMonotone(c, p + 1, |c|);
    PickHolds(x, c, 0);
    var r := Pick(x, c, 0);
    if r < p { BlocksMonotone(c, r + 1, p); }
    if p < r { BlocksMonotone(c, p + 1, r); }
  }

  /** Inside the space some symbol is always found, with room for the rest of `x` in its block. */
  lemma PickInside(x: nat, c: seq<nat>)
    requires Sum(c) > 0 && x < Multi(c)
    ensures var s := Pick(x, c, 0);
            s < |c| && c[s] > 0 && Blocks(c, s) <= x && x - Blocks(c, s) < Multi(Dec(c, s)) <= Multi(c)
  {
    BlocksTotal(c);
    PickHolds(x, c, 0);
    BlocksMonotone(c, Pick(x, c, 0) + 1, |c|);
  }

  /** The arrangement of `n` symbols that greedy block selection recovers from `x`. */
  function Greedy(x: nat, n: nat, c: seq<nat>): seq<nat>
    decreases n
  {
    if n == 0 then []
    else
      var s := Pick(x, c, 0);
      if s < |c| && c[s] > 0 && Blocks(c, s) <= x
      then [s] + Greedy(x - Blocks(c, s), n - 1, Dec(c, s))
      else []
  }

  lemma {:induction false} IndexOfGreedy(x: nat, n: nat, c: seq<nat>)
    requires n == Sum(c) && x < Multi(c)
    ensures Arranges(Greedy(x, n, c), c) && Index(Greedy(x, n, c), c) == x
    decreases n
  {
    hide Multi, Blocks, Pick;
    if n == 0 {
      MultiOfZeros(c);
    } else {
      PickInside(x, c);
      var s := Pick(x, c, 0);
      var d, y := Dec(c, s), x - Blocks(c, s);
      var rest := Greedy(y, n - 1, d);
      SumDec(c, s);
      IndexOfGreedy(y, n - 1, d);
      IndexCons(s, rest, c);
      assert Greedy(x, n, c) == [s] + rest;
    }
  }

  lemma IndexCons(s: nat, rest: seq<nat>, c: seq<nat>)
    requires s < |c| && c[s] > 0 && Arranges(rest, Dec(c, s))
    ensures Arranges([s] + rest, c)
    ensures Index([s] + rest, c) == Blocks(c, s) + Index(rest, Dec(c, s))
  {
    assert ([s] + rest)[1..] == rest;
  }

  lemma {:induction false} GreedyOfIndex(q: seq<nat>, c: seq<nat>)
    requires Arranges(q, c)
    ensures |q| == Sum(c) && Greedy(Index(q, c), |q|, c) == q
  {
    if q != [] {
      var s := q[0];
      IndexBelowMulti(q[1..], Dec(c, s));
      PickUnique(Index(q, c), c, s);
      SumDec(c, s);
      GreedyOfIndex(q[1..], Dec(c, s));
    }
  }

  // ----- the checked coefficient -----

  lemma {:induction false} SumTail(c: seq<nat>, i: nat)
    requires i < |c|
    ensures Sum(c[i..]) == c[i] + Sum(c[i + 1..])
    ensures Multi(c[i..]) == Binom(Sum(c[i..]), c[i]) * Multi(c[i + 1..])
  {
    assert c[i..][1..] == c[i + 1..];
  }

  /** `multinomial` (src/entropy/rank.rs:321): exact, or nothing when it does not fit. */
  method Multinomial(n: nat, counts: seq<nat>) returns (m: Option<nat>)
    requires n < U64 && forall i :: 0 <= i < |counts| ==> counts[i] < U32
    ensures m == if Sum(counts) == n then Fit(Multi(counts)) else None
  {
    var total := CheckedSum(counts);
    if total.None? || total.value != n {
      return None;
    }
    var r: nat := 1;
    var remaining := n;
    var i := 0;
    assert counts[0..] == counts;
    while i < |counts|
      invariant 0 <= i <= |counts|
      invariant remaining == Sum(counts[i..]) <= n
      invariant 1 <= r < U128 && r * Multi(counts[i..]) == Multi(counts)
    {
      SumTail(counts, i);
      BinomPositive(remaining, counts[i]);
      MultiPositive(counts[i + 1..]);
      var ck := Comb(remaining, counts[i]);
      ProductStep(r, Binom(remaining, counts[i]), Multi(counts[i + 1..]));
      if ck.None? || r * ck.value >= U128 {
        return None;
      }
      r := r * ck.value;
      remaining := remaining - counts[i];
      i := i + 1;
    }
    assert counts[i..] == [];
    return Some(r);
  }

  lemma ProductStep(r: nat, b: nat, m: nat)
    requires r >= 1 && b >= 1 && m >= 1
    ensures r * (b * m) == (r * b) * m && r * b >= b && (r * b) * m >= r * b && r * b >= 1
  {
    MulAssoc(r, b, m);
    MulLe(b, 1, r);
    MulLe(r * b, 1, m);
  }

  /** The `u64` count sum: fails exactly when the true sum leaves 64 bits. */
  method CheckedSum(counts: seq<nat>) returns (total: Option<nat>)
    ensures total == if Sum(counts) < U64 then Some(Sum(counts)) else None
  {
    var t: nat := 0;
    var i := 0;
    assert counts[0..] == counts;
    while i < |counts|
      invariant 0 <= i <= |counts|
      invariant t + Sum(counts[i..]) == Sum(counts) && t < U64
    {
      SumTail(counts, i);
      if t + counts[i] >= U64 {
        return None;
      }
      t := t + counts[i];
      i := i + 1;
    }
    return Some(t);
  }

  // ----- the checked rank -----

  /** What the position loop of `rank_multinomial` returns from accumulator `acc` on. */
  function RankFrom(q: seq<nat>, c: seq<nat>, acc: nat): Ranked<nat> {
    if q == [] then Ok(acc)
    else if q[0] >= |c| then Err(BadPositions)
    else if c[q[0]] == 0 then Err(CountMismatch)
    else if acc + Blocks(c, q[0]) >= U128 then Err(SpaceOverflow)
    else RankFrom(q[1..], Dec(c, q[0]), acc + Blocks(c, q[0]))
  }

  function RankSequence(q: seq<nat>, n: nat, c: seq<nat>): Ranked<nat> {
    if |q| != n then Err(CountMismatch)
    else if Sum(c) >= U64 then Err(Overflow)
    else if Sum(c) != n then Err(CountMismatch)
    else RankFrom(q, c, 0)
  }

  lemma {:induction false} RankFromExact(q: seq<nat>, c: seq<nat>, acc: nat)
    requires |q| == Sum(c)
    ensures Arranges(q, c) ==>
              RankFrom(q, c, acc) == (if acc + Index(q, c) < U128 || q == []
                                      then Ok(acc + Index(q, c)) else Err(SpaceOverflow))
    ensures !Arranges(q, c) ==> RankFrom(q, c, acc).Err?
  {
    if q != [] && q[0] < |c| && c[q[0]] > 0 {
      SumDec(c, q[0]);
      RankFromExact(q[1..], Dec(c, q[0]), acc + Blocks(c, q[0]));
    }
  }

  /**
   The rank is the exact lexicographic index of every arrangement whose index
   fits 128 bits; anything else is rejected. A space too large for 128 bits does
   not by itself reject a sequence.
   */
  lemma RankSequenceExact(q: seq<nat>, n: nat, c: seq<nat>)
    requires n < U64
    ensures RankSequence(q, n, c).Ok? <==> Sum(c) == n && Arranges(q, c) && Index(q, c) < U128
    ensures RankSequence(q, n, c).Ok? ==> RankSequence(q, n, c) == Ok(Index(q, c))
    ensures Sum(c) == n && Arranges(q, c) && Index(q, c) >= U128 ==>
              RankSequence(q, n, c) == Err(SpaceOverflow)
  {
    if Arranges(q, c) { GreedyOfIndex(q, c); }
    if |q| == n == Sum(c) { RankFromExact(q, c, 0); }
  }

  /** One position: the sizes of the blocks below `s`, each by trial decrement and restore. */
  method AddBlocks(c: seq<nat>, s: nat, acc: nat, n: nat) returns (r: Ranked<nat>)
    requires s < |c| && c[s] > 0 && Sum(c) == n < U64 && acc < U128
    requires forall i :: 0 <= i < |c| ==> c[i] < U32
    ensures r == if acc + Blocks(c, s) < U128 then Ok(acc + Blocks(c, s)) else Err(SpaceOverflow)
  {
    var rank := acc;
    var counts := c;
    var t := 0;
    while t < s
      invariant 0 <= t <= s && counts == c
      invariant rank == acc + Blocks(c, t) && rank < U128
    {
      BlocksMonotone(c, t + 1, s);
      if counts[t] != 0 {
        SumDec(c, t);
        counts := counts[t := counts[t] - 1];
        var block := Multinomial(n - 1, counts);
        if block.None? || rank + block.value >= U128 {
          return Err(SpaceOverflow);
        }
        rank := rank + block.value;
        counts := counts[t := counts[t] + 1];
      }
      t := t + 1;
    }
    return Ok(rank);
  }

  /** `rank_multinomial` (src/entropy/rank.rs:348). */
  method RankMultinomial(q: seq<nat>, n: nat, c: seq<nat>) returns (r: Ranked<nat>)
    requires n < U64 && forall i :: 0 <= i < |c| ==> c[i] < U32
    ensures r == RankSequence(q, n, c)
  {
    if |q| != n {
      return Err(CountMismatch);
    }
    var sum := CheckedSum(c);
    if sum.None? {
      return Err(Overflow);
    }
    if sum.value != n {
      return Err(CountMismatch);
    }
    var counts: seq<nat> := c;
    var rank: nat := 0;
    var pos := 0;
    assert q[0..] == q;
    while pos < |q|
      invariant 0 <= pos <= |q| && |counts| == |c| && rank < U128
      invariant Sum(counts) == n - pos
      invariant forall i :: 0 <= i < |counts| ==> counts[i] < U32
      invariant RankFrom(q, c, 0) == RankFrom(q[pos..], counts, rank)
    {
      assert q[pos..][1..] == q[pos + 1..];
      var s := q[pos];
      if s >= |c| {
        return Err(BadPositions);
      }
      if counts[s] == 0 {
        return Err(CountMismatch);
      }
      var added := AddBlocks(counts, s, rank, n - pos);
      if added.Err? {
        return Err(SpaceOverflow);
      }
      SumDec(counts, s);
      rank := added.value;
      counts := counts[s := counts[s] - 1];
      pos := pos + 1;
    }
    return Ok(rank);
  }

  // ----- the checked unrank -----

  /** Symbols are stored as `u8`. */
  function NarrowSymbols(q: seq<nat>): (r: seq<nat>)
    ensures |r| == |q|
    ensures forall i :: 0 <= i < |q| ==> r[i] == q[i] % 256
  {
    seq(|q|, i requires 0 <= i < |q| => q[i] % 256)
  }

  function UnrankSequence(rank: nat, n: nat, c: seq<nat>): Ranked<seq<nat>> {
    if Sum(c) != n || Multi(c) >= U128 then Err(SpaceOverflow)
    else if rank >= Multi(c) then Err(RankOutOfRange)
    else Ok(NarrowSymbols(Greedy(rank, n, c)))
  }

  /** One position: the symbol whose block holds `x`, and what is left of `x` inside it. */
  method ChooseSymbol(x: nat, c: seq<nat>, n: nat) returns (s: nat, rest: nat, ok: bool)
    requires 0 < n == Sum(c) && n < U64 && x < Multi(c) < U128
    requires forall i :: 0 <= i < |c| ==> c[i] < U32
    ensures ok && s == Pick(x, c, 0) && s < |c| && c[s] > 0
    ensures Blocks(c, s) <= x && rest == x - Blocks(c, s)
  {
    BlocksTotal(c);
    PickHolds(x, c, 0);
    ghost var p := Pick(x, c, 0);
    rest := x;
    s := 0;
    var counts := c;
    while s < |c|
      invariant 0 <= s <= p && counts == c
      invariant Blocks(c, s) <= x && rest == x - Blocks(c, s)
    {
      if counts[s] != 0 {
        SumDec(c, s);
        BlocksMonotone(c, s + 1, |c|);
        counts := counts[s := counts[s] - 1];
        var block := Multinomial(n - 1, counts);
        if block.None? {
          return s, rest, false;
        }
        if rest < block.value {
          PickUnique(x, c, s);
          return s, rest, true;
        }
        rest := rest - block.value;
        counts := counts[s := counts[s] + 1];
      }
      if s == p { assert false; }
      s := s + 1;
    }
    return s, rest, false;
  }

  /** `unrank_multinomial` (src/entropy/rank.rs:403). */
  method UnrankMultinomial(rank: nat, n: nat, c: seq<nat>) returns (r: Ranked<seq<nat>>)
    requires rank < U128 && n < U64 && forall i :: 0 <= i < |c| ==> c[i] < U32
    ensures r == UnrankSequence(rank, n, c)
  {
    hide Multi, Blocks, Pick, Sum, NarrowSymbols, Greedy;
    var total := Multinomial(n, c);
    if total.None? {
      return Err(SpaceOverflow);
    }
    if rank >= total.value {
      return Err(RankOutOfRange);
    }
    var counts: seq<nat>, rem: nat, out: seq<nat> := c, rank, [];
    ghost var wide: seq<nat> := [];
    var pos := 0;
    while pos < n
      invariant 0 <= pos <= n && |counts| == |c| && Sum(counts) == n - pos
      invariant forall i :: 0 <= i < |counts| ==> counts[i] < U32
      invariant rem < Multi(counts) < U128
      invariant Greedy(rank, n, c) == wide + Greedy(rem, n - pos, counts)
      invariant out == NarrowSymbols(wide)
    {
      var s, rest, ok := ChooseSymbol(rem, counts, n - pos);
      if !ok {
        return Err(RankOutOfRange);
      }
      SumDec(counts, s);
      PickInside(rem, counts);
      GreedyStep(rem, n - pos, counts, wide);
      rem := rest;
      counts := counts[s := counts[s] - 1];
      wide := wide + [s];
      out := out + [s % 256];
      pos := pos + 1;
    }
    MultiOfZeros(counts);
    GreedyEnd(rem, counts);
    assert wide + [] == wide;
    return Ok(out);
  }

  lemma GreedyEnd(x: nat, c: seq<nat>)
    ensures Greedy(x, 0, c) == []
  {
  }

  lemma GreedyStep(x: nat, n: nat, c: seq<nat>, prefix: seq<nat>)
    requires n > 0 && Pick(x, c, 0) < |c| && c[Pick(x, c, 0)] > 0 && Blocks(c, Pick(x, c, 0)) <= x
    ensures var s := Pick(x, c, 0);
            prefix + Greedy(x, n, c) == (prefix + [s]) + Greedy(x - Blocks(c, s), n - 1, Dec(c, s))
            && NarrowSymbols(prefix + [s]) == NarrowSymbols(prefix) + [s % 256]
  {
  }

  /** Only symbols that fit a byte occur. */
  predicate ByteSymbols(c: seq<nat>) {
    forall s :: 256 <= s < |c| ==> c[s] == 0
  }

  /** Every arrangement is ranked within its space, and recovered if and only if its symbols fit a byte. */
  lemma MultisetRoundTrip(q: seq<nat>, n: nat, c: seq<nat>)
    requires Arranges(q, c) && Sum(c) == n < U64 && Multi(c) < U128
    ensures RankSequence(q, n, c) == Ok(Index(q, c)) && Index(q, c) < Multi(c)
    ensures UnrankSequence(Index(q, c), n, c) == Ok(q) <==> ByteSymbols(c)
  {
    hide Multi, Sum, Index, Arranges, Greedy, RankSequence;
    IndexBelowMulti(q, c);
    RankSequenceExact(q, n, c);
    GreedyOfIndex(q, c);
    NarrowSymbolsIdentity(q, c);
  }

  /**
   Every number below the multinomial is the index of the sequence it stands
   for, which unranking returns if and only if its symbols fit a byte.
   */
  lemma IndexRoundTrip(x: nat, n: nat, c: seq<nat>)
    requires Sum(c) == n < U64 && x < Multi(c) < U128
    ensures UnrankSequence(x, n, c) == Ok(Greedy(x, n, c)) <==> ByteSymbols(c)
    ensures Arranges(Greedy(x, n, c), c) && RankSequence(Greedy(x, n, c), n, c) == Ok(x)
  {
    hide Multi, Sum, Index, Arranges, Greedy, RankSequence;
    IndexOfGreedy(x, n, c);
    RankSequenceExact(Greedy(x, n, c), n, c);
    NarrowSymbolsIdentity(Greedy(x, n, c), c);
  }

  lemma NarrowSymbolsIdentity(q: seq<nat>, c: seq<nat>)
    requires Arranges(q, c)
    ensures NarrowSymbols(q) == q <==> ByteSymbols(c)
  {
    hide Arranges;
    ArrangesCounts(q, c);
    if NarrowSymbols(q) == q {
      forall i | 0 <= i < |q| ensures q[i] < 256 { assert NarrowSymbols(q)[i] == q[i]; }
      forall s | 256 <= s < |c| ensures c[s] == 0 { assert s !in q; }
    } else if ByteSymbols(c) {
      forall i | 0 <= i < |q| ensures NarrowSymbols(q)[i] == q[i] {
        assert q[i] in multiset(q);
      }
    }
  }

  // ----- an overflowing space -----

  /** `a` zeros, then `b` ones. */
  function Steps(a: nat, b: nat): (q: seq<nat>)
    ensures |q| == a + b
  {
    seq(a + b, i => if i < a then 0 else 1)
  }

  lemma {:induction false} FirstArrangement(a: nat, b: nat)
    ensures Arranges(Steps(a, b), [a, b]) && Index(Steps(a, b), [a, b]) == 0
    decreases a + b
  {
    var q, c: seq<nat> := Steps(a, b), [a, b];
    if a > 0 {
      FirstArrangement(a - 1, b);
      assert q[1..] == Steps(a - 1, b) && Dec(c, 0) == [a - 1, b];
    } else if b > 0 {
      FirstArrangement(0, b - 1);
      assert q[1..] == Steps(0, b - 1) && Dec(c, 1) == [0, b - 1];
      assert Blocks(c, 1) == 0;
    } else {
      TwoCounts(a, b);
    }
  }

  lemma TwoCounts(a: nat, b: nat)
    ensures Sum([a, b]) == a + b && Multi([a, b]) == Binom(a + b, a)
  {
    hide Binom;
    assert [a, b][1..] == [b] && [b][1..] == [];
    assert Sum([b]) == b && Multi([b]) == Binom(b, b) * 1;
    BinomDiagonal(b);
  }

  /** 128 of each of two symbols: the space overflows 128 bits, and the first arrangement is ranked all the same. */
  lemma OverflowingMultisetRanked(m: nat)
    requires m == 128
    ensures Multi([m, m]) >= U128
    ensures RankSequence(Steps(m, m), 2 * m, [m, m]) == Ok(0)
    ensures UnrankSequence(0, 2 * m, [m, m]) == Err(SpaceOverflow)
  {
    hide Binom, Multi, Sum, Index, Arranges, RankSequence;
    TwoCounts(m, m);
    FirstArrangement(m, m);
    RankSequenceExact(Steps(m, m), 2 * m, [m, m]);
    CentralBinom(m);
    Pow2Of128(m);
  }
}

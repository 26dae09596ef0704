/**
 The combinatorial number system behind SPARSE descriptors
 (src/entropy/rank.rs): the rank of an ascending position subset and its
 greedy, binary-searched inverse.
 */
module SubsetRank {
  import opened Binomial
  import opened Checked
  import opened Bytes

  const U64: nat := 0x1_0000_0000_0000_0000

  /** `RankError`: every variant is a rejection. */
  datatype RankError =
    | KExceedsN
    | SpaceOverflow
    | RankOutOfRange
    | BadPositions
    | CountMismatch
    | SizeTooLarge
    | Overflow

  datatype Ranked<+T> = Ok(value: T) | Err(error: RankError)

  /** Strictly ascending positions below `n`. */
  ghost predicate Ascending(p: seq<nat>, n: nat) {
    && (forall i :: 0 <= i < |p| ==> p[i] < n)
    && (forall i, j :: 0 <= i < j < |p| ==> p[i] < p[j])
  }

  /** `sum C(p_i, i+1)`, in unbounded arithmetic. */
  function RankOf(p: seq<nat>): nat {
    if p == [] then 0
    else RankOf(p[..|p| - 1]) + Binom(p[|p| - 1], |p|)
  }

  /** The subset of size `k` below `top` that greedy descent recovers from `x`. */
  function Unrank(x: nat, k: nat, top: nat): seq<nat>
    decreases k
  {
    if k == 0 then []
    else
      var c := Coordinate(x, k, top);
      if Binom(c, k) > x then []
      else Unrank(x - Binom(c, k), k - 1, c) + [c]
  }

  /** The largest `c < top` with `C(c, k) <= x`. */
  function Coordinate(x: nat, k: nat, top: nat): nat
    requires k > 0
  {
    if top <= k then k - 1
    else if Binom(top - 1, k) <= x then top - 1
    else Coordinate(x, k, top - 1)
  }

  lemma {:induction false} CoordinateLargest(x: nat, k: nat, top: nat)
    requires k > 0 && k <= top && x < Binom(top, k)
    ensures var c := Coordinate(x, k, top);
            k - 1 <= c < top && Binom(c, k) <= x < Binom(c + 1, k)
  {
    if top == k {
      BinomZero(k - 1, k);
    } else if Binom(top - 1, k) > x {
      CoordinateLargest(x, k, top - 1);
    }
  }

  lemma CoordinateUnique(x: nat, k: nat, top: nat, c: nat)
    requires 0 < k <= top && k - 1 <= c < top && Binom(c, k) <= x < Binom(c + 1, k)
    ensures Coordinate(x, k, top) == c
  {
    BinomMonotone(c + 1, top, k);
    CoordinateLargest(x, k, top);
    var d := Coordinate(x, k, top);
    if d < c { BinomMonotone(d + 1, c, k); }
    if c < d { BinomMonotone(c + 1, d, k); }
  }

  /** Every ascending subset has its rank below the number of subsets. */
  lemma {:induction false} RankBelowCount(p: seq<nat>, n: nat)
    requires Ascending(p, n)
    ensures RankOf(p) < Binom(n, |p|)
    decreases |p|
  {
    if p != [] {
      var last := p[|p| - 1];
      RankBelowCount(p[..|p| - 1], last);
      BinomMonotone(last + 1, n, |p|);
    }
  }

  /** The largest position decides: ranks order subsets by their top element first. */
  lemma RankOrderedByLast(p: seq<nat>, q: seq<nat>, n: nat)
    requires Ascending(p, n) && Ascending(q, n) && |p| == |q| > 0
    requires p[|p| - 1] < q[|q| - 1]
    ensures RankOf(p) < RankOf(q)
  {
    var last := p[|p| - 1];
    RankBelowCount(p[..|p| - 1], last);
    BinomMonotone(last + 1, q[|q| - 1], |p|);
  }

  lemma AscendingInit(p: seq<nat>, n: nat)
    requires Ascending(p, n) && p != []
    ensures Ascending(p[..|p| - 1], n) && Ascending(p[..|p| - 1], p[|p| - 1]) && p[|p| - 1] < n
  {
  }

  lemma AscendingAppend(q: seq<nat>, c: nat, n: nat)
    requires Ascending(q, c) && c < n
    ensures Ascending(q + [c], n)
  {
  }

  lemma NoRank()
    ensures RankOf([]) == 0
  {
  }

  lemma RankOfAppend(q: seq<nat>, c: nat)
    ensures RankOf(q + [c]) == RankOf(q) + Binom(c, |q| + 1)
  {
    assert (q + [c])[..|q|] == q;
  }

  /** Distinct subsets of one size have distinct ranks. */
  lemma {:induction false} RankInjective(p: seq<nat>, q: seq<nat>, n: nat)
    requires Ascending(p, n) && Ascending(q, n) && |p| == |q| && RankOf(p) == RankOf(q)
    ensures p == q
    decreases |p|
  {
    hide Binom, Ascending, RankOf;
    if p != [] {
      var k := |p|;
      AscendingInit(p, n);
      AscendingInit(q, n);
      if p[k - 1] < q[k - 1] {
        RankOrderedByLast(p, q, n);
      } else if q[k - 1] < p[k - 1] {
        RankOrderedByLast(q, p, n);
      } else {
        assert p == p[..k - 1] + [p[k - 1]];
        assert q == q[..k - 1] + [q[k - 1]];
        RankOfAppend(p[..k - 1], p[k - 1]);
        RankOfAppend(q[..k - 1], q[k - 1]);
        RankInjective(p[..k - 1], q[..k - 1], n);
      }
    }
  }

  /** Greedy descent lands on an ascending subset of exactly that rank. */
  lemma {:induction false} RankOfUnrank(x: nat, k: nat, top: nat)
    requires k <= top && x < Binom(top, k)
    ensures |Unrank(x, k, top)| == k && Ascending(Unrank(x, k, top), top)
    ensures RankOf(Unrank(x, k, top)) == x
    decreases k
  {
    hide Binom, Coordinate, RankOf, Ascending, Unrank, Narrow;
    if k == 0 {
      BinomNone(top);
      NoSubset(x, top);
      AscendingNone(top);
      NoRank();
    } else {
      CoordinateLargest(x, k, top);
      var c := Coordinate(x, k, top);
      RestBelow(x, k, c);
      UnrankStep(x, k, top, c);
      RankOfUnrank(x - Binom(c, k), k - 1, c);
      var rest := Unrank(x - Binom(c, k), k - 1, c);
      AscendingAppend(rest, c, top);
      RankOfAppend(rest, c);
    }
  }

  lemma UnrankOfRank(p: seq<nat>, n: nat)
    requires Ascending(p, n) && |p| <= n
    ensures Unrank(RankOf(p), |p|, n) == p
  {
    RankBelowCount(p, n);
    RankOfUnrank(RankOf(p), |p|, n);
    RankInjective(p, Unrank(RankOf(p), |p|, n), n);
  }

  lemma {:induction false} AscendingFits(p: seq<nat>, n: nat)
    requires Ascending(p, n)
    ensures |p| <= n
    ensures p != [] ==> |p| - 1 <= p[|p| - 1]
    decreases |p|
  {
    if p != [] {
      AscendingFits(p[..|p| - 1], p[|p| - 1]);
    }
  }

  // ----- the checked rank -----

  /** What the scanning loop of `rank_comb_subset` returns after each position. */
  function RankSubset(p: seq<nat>, n: nat): Ranked<nat> {
    if p == [] then Ok(0)
    else
      var k := |p|;
      match RankSubset(p[..k - 1], n)
      case Err(e) => Err(e)
      case Ok(r) =>
        if p[k - 1] >= n || (k > 1 && p[k - 1] <= p[k - 2]) then Err(BadPositions)
        else if r + Binom(p[k - 1], k) >= U128 then Err(SpaceOverflow)
        else Ok(r + Binom(p[k - 1], k))
  }

  /**
   The rank is produced exactly for ascending subsets whose true rank fits 128
   bits, whatever the size of the whole subset space.
   */
  lemma {:induction false} RankSubsetExact(p: seq<nat>, n: nat)
    ensures RankSubset(p, n).Ok? <==> Ascending(p, n) && RankOf(p) < U128
    ensures RankSubset(p, n).Ok? ==> RankSubset(p, n) == Ok(RankOf(p))
    ensures Ascending(p, n) && RankOf(p) >= U128 ==> RankSubset(p, n) == Err(SpaceOverflow)
    decreases |p|
  {
    hide Binom, Ascending;
    if p == [] {
      AscendingNone(n);
    } else {
      RankSubsetExact(p[..|p| - 1], n);
      AscendingLast(p, n);
    }
  }

  lemma AscendingNone(n: nat)
    ensures Ascending([], n)
  {
  }

  /** Ascending is ascending so far, with the last position in range and past the one before. */
  lemma AscendingLast(p: seq<nat>, n: nat)
    requires p != []
    ensures var k := |p|;
            Ascending(p, n) <==>
            Ascending(p[..k - 1], n) && p[k - 1] < n && (k > 1 ==> p[k - 2] < p[k - 1])
  {
    var k := |p|;
    var q := p[..k - 1];
    if Ascending(q, n) && p[k - 1] < n && (k > 1 ==> p[k - 2] < p[k - 1]) {
      forall i, j | 0 <= i < j < k ensures p[i] < p[j] {
        if j == k - 1 && i < k - 2 { assert q[i] < q[k - 2]; } else if j < k - 1 { assert q[i] < q[j]; }
      }
      assert forall i :: 0 <= i < k - 1 ==> q[i] == p[i];
    }
  }

  /** `rank_comb_subset` (src/entropy/rank.rs:199). */
  method RankCombSubset(positions: seq<nat>, n: nat) returns (r: Ranked<nat>)
    requires forall i :: 0 <= i < |positions| ==> positions[i] < U32
    requires |positions| < U64 && n < U64
    ensures r == RankSubset(positions, n)
  {
    hide Binom;
    var rank: nat := 0;
    var i := 0;
    assert positions[..|positions|] == positions;
    while i < |positions|
      invariant 0 <= i <= |positions|
      invariant RankSubset(positions[..i], n) == Ok(rank) && rank < U128
      invariant RankSubset(positions, n).Err? || RankSubset(positions[..i], n).Ok?
    {
      var p := positions[i];
      assert positions[..i + 1][..i] == positions[..i];
      RankErrSticks(positions, n, i + 1);
      if p >= n {
        return Err(BadPositions);
      }
      if i > 0 && p <= positions[i - 1] {
        return Err(BadPositions);
      }
      var c := Comb(p, i + 1);
      if c.None? || rank + c.value >= U128 {
        return Err(SpaceOverflow);
      }
      rank := rank + c.value;
      i := i + 1;
    }
    return Ok(rank);
  }

  lemma {:induction false} RankErrSticks(p: seq<nat>, n: nat, i: nat)
    requires i <= |p|
    ensures RankSubset(p[..i], n).Err? ==> RankSubset(p, n) == RankSubset(p[..i], n)
    decreases |p|
  {
    if i < |p| {
      RankErrSticks(p[..|p| - 1], n, i);
      assert p[..|p| - 1][..i] == p[..i];
    } else {
      assert p[..i] == p;
    }
  }

  // ----- the checked unrank -----

  function Reverse<T>(s: seq<T>): seq<T> {
    if s == [] then [] else Reverse(s[1..]) + [s[0]]
  }

  lemma {:induction false} ReverseAppend<T>(s: seq<T>, x: T)
    ensures Reverse(s + [x]) == [x] + Reverse(s)
  {
    if s != [] {
      ReverseAppend(s[1..], x);
      assert (s + [x])[1..] == s[1..] + [x];
    } else {
      assert (s + [x])[1..] == [];
    }
  }

  /** Positions are stored as `u32`: wider ones lose their high bits. */
  function Narrow(p: seq<nat>): (q: seq<nat>)
    ensures |q| == |p|
    ensures forall i :: 0 <= i < |p| ==> q[i] == p[i] % U32
  {
    seq(|p|, i requires 0 <= i < |p| => p[i] % U32)
  }

  /** The binary search between `lo` and `hi`; nothing when a binomial it evaluates overflows. */
  function Find(x: nat, i: nat, lo: nat, hi: nat): (c: Option<nat>)
    requires lo <= hi
    ensures c.Some? ==> lo <= c.value <= hi
    decreases hi - lo
  {
    if lo == hi then Some(lo)
    else
      var mid := lo + (hi - lo + 2) / 2;
      if Binom(mid, i) >= U128 then None
      else if Binom(mid, i) <= x then Find(x, i, mid, hi)
      else Find(x, i, lo, mid - 1)
  }

  /** The greedy descent from coordinate `i` below `top`, with its checks, over any remainder. */
  function Descend(x: nat, i: nat, top: nat): (r: Ranked<seq<nat>>)
    requires i <= top
    ensures r.Ok? ==> |r.value| == i
    decreases i
  {
    if i == 0 then if x == 0 then Ok([]) else Err(RankOutOfRange)
    else match Find(x, i, i - 1, top - 1)
      case None => Err(SpaceOverflow)
      case Some(c) =>
        if Binom(c, i) >= U128 then Err(SpaceOverflow)
        else if x < Binom(c, i) then Err(Overflow)
        else Followed(Descend(x - Binom(c, i), i - 1, c), [c % U32])
  }

  function Followed(r: Ranked<seq<nat>>, tail: seq<nat>): Ranked<seq<nat>> {
    if r.Ok? then Ok(r.value + tail) else r
  }

  /** The size of the subset is checked in full and then cut to 32 bits. */
  function UnrankSubset(rank: nat, n: nat, k: nat): Ranked<seq<nat>> {
    if k > n then Err(KExceedsN)
    else if Binom(n, k) >= U128 then Err(SpaceOverflow)
    else if rank >= Binom(n, k) then Err(RankOutOfRange)
    else Descend(rank, k % U32, n)
  }

  /** A binomial met while unranking never exceeds the size of the whole space. */
  lemma SearchFits(n: nat, k: nat, i: nat, mid: nat)
    requires i <= k <= n && mid <= n - (k - i) && Binom(n, k) < U128
    ensures Binom(mid, i) < U128
  {
    BinomMonotone(mid, n - (k - i), i);
    BinomDiagonalMonotone(n, k, k - i);
  }

  /** Inside a space that fits, the search meets no overflow and finds the greatest coordinate not above `x`. */
  lemma {:induction false} FindExact(x: nat, i: nat, lo: nat, hi: nat, n: nat, k: nat)
    requires 1 <= i <= k <= n && i - 1 <= lo <= hi < n - (k - i)
    requires Binom(n, k) < U128 && Binom(lo, i) <= x < Binom(hi + 1, i)
    ensures Find(x, i, lo, hi) == Some(Coordinate(x, i, hi + 1))
    decreases hi - lo
  {
    hide Binom;
    if lo == hi {
      CoordinateUnique(x, i, hi + 1, lo);
    } else {
      var mid := lo + (hi - lo + 2) / 2;
      SearchFits(n, k, i, mid);
      if Binom(mid, i) <= x {
        FindExact(x, i, mid, hi, n, k);
      } else {
        FindExact(x, i, lo, mid - 1, n, k);
        CoordinateBelow(x, i, mid, hi + 1);
      }
    }
  }

  lemma CoordinateBelow(x: nat, i: nat, top: nat, higher: nat)
    requires 0 < i <= top <= higher && x < Binom(top, i)
    ensures Coordinate(x, i, higher) == Coordinate(x, i, top)
  {
    hide Binom;
    CoordinateLargest(x, i, top);
    BinomMonotone(top, higher, i);
    CoordinateUnique(x, i, higher, Coordinate(x, i, top));
  }

  lemma UnrankStep(x: nat, i: nat, top: nat, c: nat)
    requires 0 < i && c == Coordinate(x, i, top) && Binom(c, i) <= x
    ensures Unrank(x, i, top) == Unrank(x - Binom(c, i), i - 1, c) + [c]
    ensures Narrow(Unrank(x, i, top)) == Narrow(Unrank(x - Binom(c, i), i - 1, c)) + [c % U32]
  {
    hide Binom, Coordinate;
    var rest := Unrank(x - Binom(c, i), i - 1, c);
    assert Narrow(rest + [c]) == Narrow(rest) + [c % U32];
  }

  lemma UnrankNothing(top: nat)
    ensures Descend(0, 0, top) == Ok(Narrow(Unrank(0, 0, top)))
  {
    assert Narrow([]) == [];
  }

  /** Inside a space that fits, the checked descent is the plain one. */
  lemma {:induction false} DescendExact(x: nat, i: nat, top: nat, n: nat, k: nat)
    requires i <= k <= n && i <= top <= n - (k - i) && Binom(n, k) < U128 && x < Binom(top, i)
    ensures Descend(x, i, top) == Ok(Narrow(Unrank(x, i, top)))
    decreases i
  {
    hide Binom, Coordinate, Find, Descend, Unrank, Narrow;
    if i == 0 {
      BinomNone(top);
      UnrankNothing(top);
    } else {
      BinomZero(i - 1, i);
      FindExact(x, i, i - 1, top - 1, n, k);
      CoordinateLargest(x, i, top);
      var c := Coordinate(x, i, top);
      SearchFits(n, k, i, c);
      RestBelow(x, i, c);
      DescendExact(x - Binom(c, i), i - 1, c, n, k);
      DescendStep(x, i, top, []);
      FollowedNone(Descend(x, i, top));
      assert [c % U32] + [] == [c % U32];
      UnrankStep(x, i, top, c);
    }
  }

  lemma RestBelow(x: nat, i: nat, c: nat)
    requires i > 0 && Binom(c, i) <= x < Binom(c + 1, i)
    ensures x - Binom(c, i) < Binom(c, i - 1)
  {
  }

  /** The inner binary search. */
  method FindCoordinate(x: nat, i: nat, c: nat) returns (r: Option<nat>)
    requires 1 <= i <= c + 1 && c < U128
    ensures r == Find(x, i, i - 1, c)
  {
    hide Binom;
    var lo, hi := i - 1, c;
    while lo < hi
      invariant i - 1 <= lo <= hi <= c && Find(x, i, lo, hi) == Find(x, i, i - 1, c)
      decreases hi - lo
    {
      var mid := lo + (hi - lo + 2) / 2;
      var cm := Comb(mid, i);
      if cm.None? {
        return None;
      }
      if cm.value <= x {
        lo := mid;
      } else {
        hi := mid - 1;
      }
    }
    return Some(lo);
  }

  /**
   `unrank_comb_subset` (src/entropy/rank.rs:254). `n - 1` wraps when `n` is
   zero, in which case no coordinate is looked up.
   */
  method UnrankCombSubset(rank: nat, n: nat, k: nat) returns (r: Ranked<seq<nat>>)
    requires rank < U128 && n < U64
    ensures r == UnrankSubset(rank, n, k)
  {
    hide Binom, Find, Descend;
    if k > n {
      return Err(KExceedsN);
    }
    var total := Comb(n, k);
    if total.None? {
      return Err(SpaceOverflow);
    }
    if rank >= total.value {
      return Err(RankOutOfRange);
    }
    var size: nat := k % U32;
    var x: nat := rank;
    var c: nat := (n + U128 - 1) % U128;
    var desc: seq<nat> := [];
    ghost var top: nat := n;
    var i: nat := size;
    FollowedNone(Descend(rank, size, n));
    while i > 0
      invariant i <= size && i <= top <= n && (i > 0 ==> c == top - 1)
      invariant |desc| == size - i
      invariant Descend(rank, size, n) == Followed(Descend(x, i, top), Reverse(desc))
    {
      DescendStep(x, i, top, Reverse(desc));
      var found := FindCoordinate(x, i, c);
      if found.None? {
        return Err(SpaceOverflow);
      }
      var c_i := found.value;
      var cm := Comb(c_i, i);
      if cm.None? {
        return Err(SpaceOverflow);
      }
      if x < cm.value {
        return Err(Overflow);
      }
      ReverseAppend<nat>(desc, c_i % U32);
      x := x - cm.value;
      desc := desc + [c_i % U32];
      top := c_i;
      i := i - 1;
      if c_i > 0 {
        c := c_i - 1;
      } else {
        break;
      }
    }
    DescendEnd(x);
    if x != 0 || |desc| != size {
      return Err(RankOutOfRange);
    }
    assert [] + Reverse(desc) == Reverse(desc);
    return Ok(Reverse(desc));
  }

  lemma FollowedNone(r: Ranked<seq<nat>>)
    ensures Followed(r, []) == r
  {
    if r.Ok? { assert r.value + [] == r.value; }
  }

  lemma DescendEnd(x: nat)
    ensures forall top: nat :: Descend(x, 0, top) == if x == 0 then Ok([]) else Err(RankOutOfRange)
  {
  }

  lemma DescendStep(x: nat, i: nat, top: nat, tail: seq<nat>)
    requires 0 < i <= top
    ensures var c := Find(x, i, i - 1, top - 1);
            Followed(Descend(x, i, top), tail)
            == (if c.None? || Binom(c.value, i) >= U128 then Err(SpaceOverflow)
                else if x < Binom(c.value, i) then Err(Overflow)
                else Followed(Descend(x - Binom(c.value, i), i - 1, c.value), [c.value % U32] + tail))
  {
    hide Binom, Find;
    var c := Find(x, i, i - 1, top - 1);
    if c.Some? && Binom(c.value, i) <= x {
      var rest := Descend(x - Binom(c.value, i), i - 1, c.value);
      if rest.Ok? { assert rest.value + [c.value % U32] + tail == rest.value + ([c.value % U32] + tail); }
    }
  }

  // ----- the bijection -----

  lemma NarrowIdentity(p: seq<nat>)
    ensures Narrow(p) == p <==> forall i :: 0 <= i < |p| ==> p[i] < U32
  {
    if Narrow(p) == p {
      forall i | 0 <= i < |p| ensures p[i] < U32 { assert Narrow(p)[i] == p[i]; }
    } else if forall i :: 0 <= i < |p| ==> p[i] < U32 {
      assert forall i :: 0 <= i < |p| ==> Narrow(p)[i] == p[i];
      assert false;
    }
  }

  /**
   Every subset is ranked without overflow, for every space that fits 128 bits,
   and recovered if and only if its size survives the 32-bit cast.
   */
  lemma SubsetRoundTrip(p: seq<nat>, n: nat)
    requires Ascending(p, n) && Binom(n, |p|) < U128
    requires forall i :: 0 <= i < |p| ==> p[i] < U32
    ensures RankSubset(p, n) == Ok(RankOf(p)) && RankOf(p) < Binom(n, |p|)
    ensures UnrankSubset(RankOf(p), n, |p|) == Ok(p) <==> |p| < U32
  {
    hide Binom, RankOf, RankSubset, Unrank, Ascending;
    AscendingFits(p, n);
    RankBelowCount(p, n);
    RankSubsetExact(p, n);
    UnrankOfRank(p, n);
    NarrowIdentity(p);
    UnrankCast(RankOf(p), n, |p|);
  }

  /** Up to the 32-bit cast of the size, unranking is the plain descent with narrowed positions. */
  lemma UnrankCast(x: nat, n: nat, k: nat)
    requires k <= n && x < Binom(n, k) < U128
    ensures k < U32 ==> UnrankSubset(x, n, k) == Ok(Narrow(Unrank(x, k, n)))
    ensures k >= U32 && UnrankSubset(x, n, k).Ok? ==> |UnrankSubset(x, n, k).value| < U32
  {
    hide Binom, Descend, Unrank, Narrow;
    if k < U32 { DescendExact(x, k, n, n, k); }
  }

  /**
   Every number below the size of the space is the rank of the subset it stands
   for, which unranking returns if and only if the size survives the 32-bit cast.
   */
  lemma RankRoundTrip(x: nat, n: nat, k: nat)
    requires k <= n <= U32 && x < Binom(n, k) < U128
    ensures UnrankSubset(x, n, k) == Ok(Unrank(x, k, n)) <==> k < U32
    ensures |Unrank(x, k, n)| == k && Ascending(Unrank(x, k, n), n)
    ensures RankSubset(Unrank(x, k, n), n) == Ok(x)
  {
    hide Binom, RankOf, RankSubset, Unrank;
    RankOfUnrank(x, k, n);
    RankSubsetExact(Unrank(x, k, n), n);
    NarrowIdentity(Unrank(x, k, n));
    UnrankCast(x, n, k);
  }

  /**
   Past `2^32` positions the narrow storage matters too: a rank survives
   unranking exactly when its size is below `2^32` and its subset lies in the
   first `2^32` positions.
   */
  lemma NarrowExact(x: nat, n: nat, k: nat, width: nat)
    requires width == U32
    requires k <= n && width < n && x < Binom(n, k) < U128
    ensures UnrankSubset(x, n, k) == Ok(Unrank(x, k, n)) <==> k < width && x < Binom(width, k)
  {
    hide Binom, Coordinate, Narrow, UnrankSubset, Unrank;
    RankOfUnrank(x, k, n);
    UnrankCast(x, n, k);
    if k == 0 {
      NoSubset(x, n);
      NarrowIdentity([]);
      BinomNone(n);
      BinomNone(width);
    } else if k < width {
      NarrowIdentity(Unrank(x, k, n));
      TopWithin(x, n, k, width);
    }
  }

  lemma NoSubset(x: nat, n: nat)
    ensures Unrank(x, 0, n) == []
  {
  }

  lemma BinomNone(n: nat)
    ensures Binom(n, 0) == 1
  {
  }

  lemma TopWithin(x: nat, n: nat, k: nat, width: nat)
    requires 0 < k <= width < n && x < Binom(n, k)
    ensures (forall i :: 0 <= i < |Unrank(x, k, n)| ==> Unrank(x, k, n)[i] < width) <==> x < Binom(width, k)
  {
    hide Binom, Coordinate;
    var p := Unrank(x, k, n);
    RankOfUnrank(x, k, n);
    CoordinateLargest(x, k, n);
    var c := Coordinate(x, k, n);
    assert p[k - 1] == c;
    if c < width {
      BinomMonotone(c + 1, width, k);
    } else {
      BinomMonotone(width, c, k);
    }
  }

  // ----- inputs where the code and its description part -----

  /** The whole of `2^32` positions unranks to nothing at all: the size is cut to zero. */
  lemma FullSubsetLost(width: nat)
    requires width == U32
    ensures Binom(width, width) == 1 && UnrankSubset(0, width, width) == Ok([])
  {
    hide Binom;
    BinomDiagonal(width);
  }

  /** The subset of rank `2^32` is position `2^32` alone; unranking gives position 0. */
  lemma WidePositionLost(width: nat)
    requires width == U32
    ensures UnrankSubset(width, width + 1, 1) == Ok([0])
    ensures RankOf([width]) == width
  {
    hide Binom, Unrank;
    BinomOne(width);
    BinomOne(width + 1);
    UnrankCast(width, width + 1, 1);
    var p: seq<nat> := [width];
    SinglePosition(width, width + 1);
    UnrankOfRank(p, width + 1);
    assert Narrow(p) == [0];
  }

  lemma SinglePosition(x: nat, n: nat)
    requires x < n && x < U128
    ensures Ascending([x], n) && RankOf([x]) == x && RankSubset([x], n) == Ok(x)
  {
    hide Binom;
    BinomOne(x);
    assert [x][..0] == [];
    assert RankOf([x][..0]) == 0;
  }

  lemma {:induction false} FirstPositions(k: nat)
    ensures Ascending(seq(k, i => i), k) && RankOf(seq(k, i => i)) == 0
  {
    hide Binom;
    if k > 0 {
      FirstPositions(k - 1);
      var p := seq(k, i => i);
      assert p[..k - 1] == seq(k - 1, i => i);
      BinomZero(k - 1, k);
    }
  }

  lemma {:induction false} CentralBinom(m: nat)
    ensures Binom(2 * m, m) >= Pow2(m)
  {
    if m > 0 {
      CentralBinom(m - 1);
      BinomSymmetric(2 * m - 1, m);
      BinomMonotone(2 * m - 2, 2 * m - 1, m - 1);
    }
  }

  /** 128 of 256 positions: the space overflows 128 bits, and the first subset is ranked all the same. */
  lemma OverflowingSpaceRanked(n: nat, k: nat)
    requires n == 256 && k == 128
    ensures Binom(n, k) >= U128
    ensures RankSubset(seq(k, i => i), n) == Ok(0) && UnrankSubset(0, n, k) == Err(SpaceOverflow)
  {
    hide Binom, RankSubset, RankOf;
    CentralBinom(k);
    Pow2Of128(k);
    FirstPositions(k);
    RankSubsetExact(seq(k, i => i), n);
  }

  lemma Pow2Double(a: nat, v: nat)
    requires Pow2(a) == v
    ensures Pow2(2 * a) == v * v
  {
    Pow2Adds(a, a);
  }

  lemma Pow2Of128(n: nat)
    requires n == 128
    ensures Pow2(n) == U128
  {
    hide Pow2;
    var one: nat := 1;
    assert Pow2(one) == 2 by { Pow2One(one); }
    Pow2Double(one, 2);
    Pow2Double(2 * one, 4);
    Pow2Double(4 * one, 16);
    Pow2Double(8 * one, 0x100);
    Pow2Double(16 * one, 0x1_0000);
    Pow2Double(32 * one, 0x1_0000_0000);
    Pow2Double(64 * one, 0x1_0000_0000_0000_0000);
  }

  lemma Pow2One(one: nat)
    requires one == 1
    ensures Pow2(one) == 2
  {
  }
}

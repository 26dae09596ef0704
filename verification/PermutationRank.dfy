/**
 Factoradic ranks behind PERMUTATION descriptors (src/entropy/rank.rs): the
 Lehmer-code index of a permutation of at most 34 elements, and its inverse.
 */
module PermutationRank {
  import opened Collections
  import opened Nonlinear
  import opened Checked
  import opened SubsetRank

  ghost predicate Distinct(a: seq<nat>) {
    forall i, j :: 0 <= i < j < |a| ==> a[i] != a[j]
  }

  ghost predicate Sorted(a: seq<nat>) {
    forall i, j :: 0 <= i < j < |a| ==> a[i] < a[j]
  }

  function PosIn(a: seq<nat>, x: nat): (i: nat)
    requires x in a
    ensures i < |a| && a[i] == x
  {
    if a[0] == x then 0 else 1 + PosIn(a[1..], x)
  }

  function Without(a: seq<nat>, i: nat): (b: seq<nat>)
    requires i < |a|
    ensures |b| == |a| - 1
  {
    a[..i] + a[i + 1..]
  }

  /** `q` takes the elements of `a`, each exactly once. */
  predicate Permutes(q: seq<nat>, a: seq<nat>) {
    if q == [] then a == []
    else q[0] in a && Permutes(q[1..], Without(a, PosIn(a, q[0])))
  }

  /** The Lehmer code of `q` over the elements still available. */
  function Lehmer(q: seq<nat>, a: seq<nat>): nat
    requires Permutes(q, a)
  {
    if q == [] then 0
    else
      var i := PosIn(a, q[0]);
      i * Factorial(|a| - 1) + Lehmer(q[1..], Without(a, i))
  }

  function FromLehmer(x: nat, a: seq<nat>): seq<nat>
    decreases |a|
  {
    if a == [] then []
    else
      var f := Factorial(|a| - 1);
      FactorialPositive(|a| - 1);
      var i := x / f;
      if i >= |a| then [] else [a[i]] + FromLehmer(x % f, Without(a, i))
  }

  lemma WithoutKeeps(a: seq<nat>, i: nat)
    requires i < |a|
    ensures Distinct(a) ==> Distinct(Without(a, i))
    ensures Sorted(a) ==> Sorted(Without(a, i))
    ensures multiset(a) == multiset(Without(a, i)) + multiset{a[i]}
  {
    forall j | 0 <= j < |a| - 1 ensures Without(a, i)[j] == a[if j < i then j else j + 1] { }
    assert a == a[..i] + ([a[i]] + a[i + 1..]);
  }

  lemma PosInDistinct(a: seq<nat>, i: nat)
    requires Distinct(a) && i < |a|
    ensures PosIn(a, a[i]) == i
  {
  }

  /** Taking each element once is having the same elements. */
  lemma {:induction false} PermutesIffSameElements(q: seq<nat>, a: seq<nat>)
    ensures Permutes(q, a) <==> multiset(q) == multiset(a)
  {
    hide PosIn, Without;
    if q == [] {
      if a != [] { assert a[0] in multiset(a); }
    } else {
      assert q == [q[0]] + q[1..];
      assert q[0] in multiset(q);
      if q[0] in a {
        var i := PosIn(a, q[0]);
        WithoutKeeps(a, i);
        PermutesIffSameElements(q[1..], Without(a, i));
        if multiset(q) == multiset(a) {
          assert multiset(q[1..]) == multiset(q) - multiset{q[0]};
        }
      }
    }
  }

  lemma {:induction false} LehmerBelowFactorial(q: seq<nat>, a: seq<nat>)
    requires Permutes(q, a)
    ensures Lehmer(q, a) < Factorial(|a|)
  {
    if q != [] {
      var i, f := PosIn(a, q[0]), Factorial(|a| - 1);
      LehmerBelowFactorial(q[1..], Without(a, i));
      DigitDominates(i, |a|, f, Lehmer(q[1..], Without(a, i)), 0);
    }
  }

  lemma {:induction false} LehmerOrdered(q: seq<nat>, r: seq<nat>, a: seq<nat>, k: nat)
    requires Sorted(a) && Permutes(q, a) && Permutes(r, a)
    requires k < |q| && k < |r| && q[..k] == r[..k] && q[k] < r[k]
    ensures Lehmer(q, a) < Lehmer(r, a)
  {
    hide Factorial, PosIn, Without;
    if k == 0 {
      LehmerHeadOrdered(q, r, a);
    } else {
      var i := PosIn(a, q[0]);
      assert q[0] == q[..k][0] == r[..k][0] == r[0];
      WithoutKeeps(a, i);
      assert q[1..][..k - 1] == q[..k][1..] && r[1..][..k - 1] == r[..k][1..];
      LehmerOrdered(q[1..], r[1..], Without(a, i), k - 1);
    }
  }

  lemma LehmerHeadOrdered(q: seq<nat>, r: seq<nat>, a: seq<nat>)
    requires Sorted(a) && Permutes(q, a) && Permutes(r, a) && q != [] && r != [] && q[0] < r[0]
    ensures Lehmer(q, a) < Lehmer(r, a)
  {
    hide Factorial, PosIn, Without;
    var i, j, f := PosIn(a, q[0]), PosIn(a, r[0]), Factorial(|a| - 1);
    LehmerBelowFactorial(q[1..], Without(a, i));
    SortedPositions(a, i, j);
    DigitDominates(i, j, f, Lehmer(q[1..], Without(a, i)), Lehmer(r[1..], Without(a, j)));
  }

  lemma SortedPositions(a: seq<nat>, i: nat, j: nat)
    requires Sorted(a) && i < |a| && j < |a| && a[i] < a[j]
    ensures i < j
  {
  }

  lemma DigitDominates(i: nat, j: nat, f: nat, x: nat, y: nat)
    requires i < j && x < f
    ensures i * f + x < j * f + y
  {
    MulAdd(f, i, 1);
    MulLe(f, i + 1, j);
  }

  lemma {:induction false} LehmerOfFrom(x: nat, a: seq<nat>)
    requires Distinct(a) && x < Factorial(|a|)
    ensures Permutes(FromLehmer(x, a), a) && Lehmer(FromLehmer(x, a), a) == x
    decreases |a|
  {
    if a != [] {
      var f := Factorial(|a| - 1);
      FactorialPositive(|a| - 1);
      var i, y := x / f, x % f;
      DivMod(x, f);
      DigitBelow(x, f, |a|);
      WithoutKeeps(a, i);
      PosInDistinct(a, i);
      LehmerOfFrom(y, Without(a, i));
      var rest := FromLehmer(y, Without(a, i));
      assert ([a[i]] + rest)[1..] == rest;
    }
  }

  lemma DigitBelow(x: nat, f: nat, m: nat)
    requires f > 0 && x < m * f
    ensures x / f < m
  {
    DivMod(x, f);
    if m <= x / f { MulLe(f, m, x / f); }
  }

  lemma {:induction false} FromOfLehmer(q: seq<nat>, a: seq<nat>)
    requires Permutes(q, a)
    ensures |q| == |a| && FromLehmer(Lehmer(q, a), a) == q
  {
    hide Factorial, PosIn, Without;
    if q != [] {
      var i, f := PosIn(a, q[0]), Factorial(|a| - 1);
      FactorialPositive(|a| - 1);
      LehmerBelowFactorial(q[1..], Without(a, i));
      ModUnique(Lehmer(q, a), f, i, Lehmer(q[1..], Without(a, i)));
      FromOfLehmer(q[1..], Without(a, i));
    }
  }

  // ----- the identity alphabet and the bitmap of unused elements -----

  function Iota(m: nat): (a: seq<nat>)
    ensures |a| == m && Distinct(a) && Sorted(a)
  {
    seq(m, i => i)
  }

  /** The positions below `n` still marked, in ascending order. */
  function Marked(u: seq<bool>, n: nat): (a: seq<nat>)
    requires n <= |u|
    ensures forall x :: x in a <==> 0 <= x < n && u[x]
  {
    if n == 0 then [] else Marked(u, n - 1) + (if u[n - 1] then [n - 1] else [])
  }

  lemma MarkedPos(u: seq<bool>, n: nat, s: nat)
    requires s < n <= |u| && u[s]
    ensures s in Marked(u, n) && PosIn(Marked(u, n), s) == |Marked(u, s)|
    ensures Marked(u[s := false], n) == Without(Marked(u, n), |Marked(u, s)|)
  {
    MarkedIndex(u, n, s);
    MarkedRemove(u, n, s);
  }

  lemma {:induction false} MarkedIndex(u: seq<bool>, n: nat, s: nat)
    requires s < n <= |u| && u[s]
    ensures s in Marked(u, n) && PosIn(Marked(u, n), s) == |Marked(u, s)|
    decreases n
  {
    hide PosIn;
    var a := Marked(u, n - 1);
    if s == n - 1 {
      PosInAppend(a, [], s);
    } else {
      MarkedIndex(u, n - 1, s);
      PosInAppend(a, if u[n - 1] then [n - 1] else [], s);
    }
  }

  lemma MarkedStep(u: seq<bool>, n: nat)
    requires 0 < n <= |u|
    ensures Marked(u, n) == Marked(u, n - 1) + (if u[n - 1] then [n - 1] else [])
  {
  }

  lemma {:induction false} MarkedRemove(u: seq<bool>, n: nat, s: nat)
    requires s < n <= |u| && u[s]
    ensures |Marked(u, s)| < |Marked(u, n)|
    ensures Marked(u[s := false], n) == Without(Marked(u, n), |Marked(u, s)|)
    decreases n
  {
    hide Without, Marked;
    var a := Marked(u, n - 1);
    MarkedStep(u, n);
    MarkedStep(u[s := false], n);
    if s == n - 1 {
      MarkedFrame(u, s, n - 1);
      WithoutAppend(a, s, |a|);
    } else {
      MarkedRemove(u, n - 1, s);
      if u[n - 1] {
        WithoutAppend(a, n - 1, |Marked(u, s)|);
      } else {
        assert Marked(u, n) == a;
      }
    }
  }

  lemma WithoutAppend(a: seq<nat>, x: nat, i: nat)
    requires i <= |a|
    ensures Without(a + [x], i) == if i == |a| then a else Without(a, i) + [x]
  {
  }

  lemma {:induction false} MarkedFrame(u: seq<bool>, s: nat, n: nat)
    requires n <= s < |u|
    ensures Marked(u[s := false], n) == Marked(u, n)
  {
    if n > 0 { MarkedFrame(u, s, n - 1); }
  }

  lemma {:induction false} PosInAppend(a: seq<nat>, b: seq<nat>, x: nat)
    ensures x !in a ==> x in a + [x] && PosIn(a + [x], x) == |a|
    ensures x in a ==> x in a + b && PosIn(a + b, x) == PosIn(a, x)
    decreases |a|
  {
    if a != [] {
      PosInAppend(a[1..], b, x);
      assert (a + b)[1..] == a[1..] + b && (a + [x])[1..] == a[1..] + [x];
    }
  }

  lemma {:induction false} MarkedAll(u: seq<bool>, n: nat)
    requires n <= |u| && forall i :: 0 <= i < n ==> u[i]
    ensures Marked(u, n) == Iota(n)
  {
    if n > 0 {
      MarkedAll(u, n - 1);
      assert Iota(n) == Iota(n - 1) + [n - 1];
    }
  }

  // ----- the checked rank -----

  ghost predicate PermutationOf(q: seq<nat>, m: nat) {
    |q| == m && (forall i :: 0 <= i < m ==> q[i] < m) && Distinct(q)
  }

  /** Distinct entries below the length are a permutation of `0..m`. */
  lemma PermutationPermutes(q: seq<nat>, m: nat)
    ensures PermutationOf(q, m) <==> Permutes(q, Iota(m))
  {
    PermutesIffSameElements(q, Iota(m));
    if PermutationOf(q, m) {
      PigeonHole(q, m);
      forall x: nat ensures multiset(q)[x] == multiset(Iota(m))[x] {
        CountDistinct(q, x);
        CountDistinct(Iota(m), x);
        if x < m { assert Iota(m)[x] == x; }
      }
      assert multiset(q) == multiset(Iota(m));
    }
    if multiset(q) == multiset(Iota(m)) {
      assert |q| == |multiset(q)| == |multiset(Iota(m))| == m;
      forall i | 0 <= i < m ensures q[i] < m { assert q[i] in multiset(q); assert q[i] in Iota(m); }
      forall i, j | 0 <= i < j < m ensures q[i] != q[j] {
        if q[i] == q[j] {
          CountDistinct(Iota(m), q[i]);
          CountTwice(q, i, j);
        }
      }
    }
  }

  lemma {:induction false} CountDistinct(a: seq<nat>, x: nat)
    requires Distinct(a)
    ensures multiset(a)[x] == if x in a then 1 else 0
  {
    if a != [] {
      assert a == [a[0]] + a[1..];
      CountDistinct(a[1..], x);
    }
  }

  lemma CountTwice(q: seq<nat>, i: nat, j: nat)
    requires i < j < |q| && q[i] == q[j]
    ensures multiset(q)[q[i]] >= 2
  {
    assert q == q[..i] + ([q[i]] + (q[i + 1..j] + ([q[j]] + q[j + 1..])));
  }

  /** `m` distinct entries below `m` leave no value out. */
  lemma {:induction false} PigeonHole(q: seq<nat>, m: nat)
    requires PermutationOf(q, m)
    ensures forall x :: 0 <= x < m ==> x in q
  {
    var s := set x | x in q;
    var all := set x | x in Iota(m);
    SetSize(q, s);
    SetSize(Iota(m), all);
    forall x | x in s ensures x in all { assert Iota(m)[x] == x; }
    if x: nat :| x < m && x !in q {
      assert Iota(m)[x] == x;
      SubsetSize(s, all - {x});
    }
  }

  lemma {:induction false} SetSize(q: seq<nat>, s: set<nat>)
    requires Distinct(q) && s == set x | x in q
    ensures |s| == |q|
  {
    if q != [] {
      var tail := q[1..];
      var t := set x | x in tail;
      SetSize(tail, t);
      assert q[0] !in tail && q == [q[0]] + tail;
      assert s == t + {q[0]};
    }
  }

  ghost function RankPermutationOf(q: seq<nat>): Ranked<nat> {
    if |q| > 34 then Err(SizeTooLarge)
    else if !PermutationOf(q, |q|) then Err(BadPositions)
    else (PermutationPermutes(q, |q|); Ok(Lehmer(q, Iota(|q|))))
  }

  method CountMarked(u: seq<bool>, s: nat) returns (c: nat)
    requires s <= |u|
    ensures c == |Marked(u, s)|
  {
    c := 0;
    for i := 0 to s
      invariant c == |Marked(u, i)|
    {
      if u[i] { c := c + 1; }
    }
  }

  method CheckPermutation(q: seq<nat>) returns (ok: bool)
    ensures ok <==> PermutationOf(q, |q|)
  {
    var m := |q|;
    var used := seq(m, _ => false);
    for i := 0 to m
      invariant |used| == m
      invariant forall x :: 0 <= x < m ==> (used[x] <==> x in q[..i])
      invariant forall j :: 0 <= j < i ==> q[j] < m
      invariant Distinct(q[..i])
    {
      if q[i] >= m || used[q[i]] {
        if q[i] < m {
          var j :| 0 <= j < i && q[..i][j] == q[i];
          assert q[j] == q[i];
        }
        return false;
      }
      used := used[q[i] := true];
      assert q[..i + 1] == q[..i] + [q[i]];
    }
    assert q[..m] == q;
    return true;
  }

  /** `rank_permutation` (src/entropy/rank.rs:457): never overflows below the cap. */
  method RankPermutation(q: seq<nat>) returns (r: Ranked<nat>)
    ensures r == RankPermutationOf(q)
  {
    hide Factorial, Marked, PosIn, Without, Iota, Lehmer, Permutes;
    var m := |q|;
    if m > 34 {
      return Err(SizeTooLarge);
    }
    var valid := CheckPermutation(q);
    if !valid {
      return Err(BadPositions);
    }
    PermutationPermutes(q, m);
    var unused := seq(m, _ => true);
    MarkedAll(unused, m);
    var rank: nat := 0;
    ghost var total := Lehmer(q, Iota(m));
    LehmerBelowFactorial(q, Iota(m));
    FactorialCap(m);
    assert q[0..] == q;
    for i := 0 to m
      invariant |unused| == m && |Marked(unused, m)| == m - i
      invariant Permutes(q[i..], Marked(unused, m))
      invariant rank + Lehmer(q[i..], Marked(unused, m)) == total && rank <= total < U128
    {
      LehmerStep(q, i, unused, m);
      var smaller := CountMarked(unused, q[i]);
      FactorialCap(m - i - 1);
      var f := FactorialChecked(m - i - 1);
      if f.None? || smaller * f.value >= U128 || rank + smaller * f.value >= U128 {
        return Err(SpaceOverflow);
      }
      rank := rank + smaller * f.value;
      unused := unused[q[i] := false];
    }
    LehmerNone(q[m..], Marked(unused, m));
    return Ok(rank);
  }

  lemma LehmerNone(q: seq<nat>, a: seq<nat>)
    requires q == [] && a == []
    ensures Permutes(q, a) && Lehmer(q, a) == 0
  {
  }

  lemma LehmerStep(q: seq<nat>, i: nat, u: seq<bool>, m: nat)
    requires i < |q| && m == |u| && Permutes(q[i..], Marked(u, m))
    ensures var s := q[i];
            s < m && u[s] && var v := u[s := false];
            |Marked(v, m)| == |Marked(u, m)| - 1
            && Permutes(q[i + 1..], Marked(v, m))
            && Lehmer(q[i..], Marked(u, m))
               == |Marked(u, s)| * Factorial(|Marked(u, m)| - 1) + Lehmer(q[i + 1..], Marked(v, m))
  {
    hide Factorial, PosIn, Without, Marked;
    assert q[i..][1..] == q[i + 1..] && q[i..][0] == q[i];
    MarkedPos(u, m, q[i]);
  }

  function UnrankPermutationOf(rank: nat, m: nat): Ranked<seq<nat>> {
    if m > 34 then Err(SizeTooLarge)
    else if rank >= Factorial(m) then Err(RankOutOfRange)
    else Ok(FromLehmer(rank, Iota(m)))
  }

  /** One pass of the selection loop: the next element's index and the remainder. */
  method TakeDigit(rem: nat, available: seq<nat>, ghost prefix: seq<nat>) returns (r: Ranked<(nat, nat)>)
    requires 0 < |available| <= 34 && rem < Factorial(|available|)
    ensures r.Ok? && r.value.0 < |available| && r.value.1 < Factorial(|available| - 1)
    ensures prefix + FromLehmer(rem, available)
         == (prefix + [available[r.value.0]]) + FromLehmer(r.value.1, Without(available, r.value.0))
  {
    hide Factorial, Without, FromLehmer;
    FactorialCap(|available| - 1);
    FactorialPositive(|available| - 1);
    var f := FactorialChecked(|available| - 1);
    if f.None? {
      return Err(SpaceOverflow);
    }
    FromLehmerStep(rem, available, prefix);
    var idx := rem / f.value;
    if idx >= |available| {
      return Err(RankOutOfRange);
    }
    return Ok((idx, rem % f.value));
  }

  /** `unrank_permutation` (src/entropy/rank.rs:500). */
  method UnrankPermutation(rank: nat, m: nat) returns (r: Ranked<seq<nat>>)
    requires rank < U128
    ensures r == UnrankPermutationOf(rank, m)
  {
    hide Factorial, Without, Iota;
    if m > 34 {
      return Err(SizeTooLarge);
    }
    FactorialCap(m);
    var total := FactorialChecked(m);
    if total.None? {
      return Err(SpaceOverflow);
    }
    if rank >= total.value {
      return Err(RankOutOfRange);
    }
    var rem: nat, available: seq<nat>, out: seq<nat> := rank, Iota(m), [];
    assert [] + FromLehmer(rank, Iota(m)) == FromLehmer(rank, Iota(m));
    for i := 0 to m
      invariant |available| == m - i && rem < Factorial(m - i)
      invariant FromLehmer(rank, Iota(m)) == out + FromLehmer(rem, available)
    {
      var digit := TakeDigit(rem, available, out);
      if digit.Err? {
        return Err(RankOutOfRange);
      }
      var (idx, rest) := digit.value;
      rem := rest;
      out := out + [available[idx]];
      available := Without(available, idx);
    }
    assert Factorial(0) == 1 by { FactorialZero(); }
    if rem != 0 {
      return Err(RankOutOfRange);
    }
    assert FromLehmer(rank, Iota(m)) == out;
    return Ok(out);
  }

  lemma FactorialZero()
    ensures Factorial(0) == 1
  {
  }

  lemma FromLehmerStep(x: nat, a: seq<nat>, prefix: seq<nat>)
    requires a != [] && x < Factorial(|a|)
    ensures var f := Factorial(|a| - 1);
            f > 0 && x / f < |a| && x % f < f
            && prefix + FromLehmer(x, a) == (prefix + [a[x / f]]) + FromLehmer(x % f, Without(a, x / f))
  {
    hide Without;
    FactorialPositive(|a| - 1);
    DigitBelow(x, Factorial(|a| - 1), |a|);
  }

  /** Rank and unrank are mutually inverse, and order-preserving, for every size up to 34. */
  lemma PermutationRoundTrip(q: seq<nat>, m: nat)
    requires m <= 34 && PermutationOf(q, m)
    ensures RankPermutationOf(q).Ok? && RankPermutationOf(q).value < Factorial(m)
    ensures UnrankPermutationOf(RankPermutationOf(q).value, m) == Ok(q)
  {
    PermutationPermutes(q, m);
    LehmerBelowFactorial(q, Iota(m));
    FromOfLehmer(q, Iota(m));
  }

  lemma LehmerRoundTrip(x: nat, m: nat)
    requires m <= 34 && x < Factorial(m)
    ensures UnrankPermutationOf(x, m).Ok?
    ensures var q := UnrankPermutationOf(x, m).value;
            PermutationOf(q, m) && RankPermutationOf(q) == Ok(x)
  {
    LehmerOfFrom(x, Iota(m));
    PermutationPermutes(FromLehmer(x, Iota(m)), m);
  }
}

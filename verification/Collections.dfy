/** Facts about sequences and sets that several modules need. */
module Collections {

  /** Cutting a piece off the front of what is left. */
  lemma SliceAt<T>(s: seq<T>, pos: nat, x: seq<T>, rest: seq<T>)
    requires pos <= |s| && s[pos..] == x + rest
    ensures pos + |x| <= |s| && s[pos..pos + |x|] == x && s[pos + |x|..] == rest
  {
    assert s[pos..pos + |x|] == s[pos..][..|x|];
    assert s[pos + |x|..] == s[pos..][|x|..];
  }

  predicate Climbing(p: seq<int>) {
    forall i, j :: 0 <= i < j < |p| ==> p[i] < p[j]
  }

  /** A bound that is itself listed stands last. */
  lemma TopIsLast(p: seq<int>, j: nat, k: int)
    requires Climbing(p) && j < |p| && p[j] == k && p[|p| - 1] <= k
    ensures p == p[..|p| - 1] + [k] && Climbing(p[..|p| - 1])
    ensures forall i :: 0 <= i < |p| - 1 ==> p[i] < k
  {
    assert j == |p| - 1;
  }

  lemma {:induction false} SubsetSize<T>(s: set<T>, t: set<T>)
    requires s <= t
    ensures |s| <= |t|
  {
    if s != {} {
      var x :| x in s;
      SubsetSize(s - {x}, t - {x});
    }
  }
}

/**
 PERIODIC (src/entropy/periodic.rs): the search for the least period of a chunk,
 with a one-byte filter and a cap on the comparisons spent.
 */
module PeriodicEncoder {
  import opened Nonlinear
  import opened Bytes
  import opened Checked
  import opened Descriptor
  import opened Context
  import opened Materializer
  import opened Validation

  const WORK_CAP: nat := 8 * 1024 * 1024

  // ----- periods -----

  /** Every byte repeats the one `p` before it. */
  predicate IsPeriod(input: bytes, p: nat) {
    forall i :: p <= i < |input| ==> input[i] == input[i - p]
  }

  /** The least period from `p` up to `last`. */
  function FirstPeriod(input: bytes, p: nat, last: nat): (r: Option<nat>)
    ensures r.Some? ==> p <= r.value <= last && IsPeriod(input, r.value)
    ensures forall q :: p <= q <= last && IsPeriod(input, q) ==> r.Some? && r.value <= q
    decreases last + 1 - p
  {
    if p > last then None
    else if IsPeriod(input, p) then Some(p)
    else FirstPeriod(input, p + 1, last)
  }

  function LastPeriod(input: bytes, l: Limits): nat {
    if l.maxPeriod <= |input| / 2 then l.maxPeriod else |input| / 2
  }

  /** The comparisons charged for trying the periods from 2 up to `p`. */
  function Spent(input: bytes, p: nat): nat
    requires p < |input|
  {
    if p < 2 then 0
    else Spent(input, p - 1) + if input[p] != input[0] then 1 else |input| - p
  }

  lemma {:induction false} SpentGrows(input: bytes, p: nat, q: nat)
    requires p <= q < |input|
    ensures Spent(input, p) <= Spent(input, q)
    decreases q - p
  {
    if p < q { SpentGrows(input, p, q - 1); }
  }

  // ----- what a period describes -----

  function Describe(input: bytes, p: u32): Representation
    requires 0 < p <= |input| <= U64_MAX
  {
    var count := |input| / p;
    DivMod(|input|, p);
    Periodic(p, input[..p], count % U32, input[p * count..], |input|)
  }

  /** Repeating the first `p` bytes lays down the chunk. */
  lemma {:induction false} PatternRepeats(input: bytes, p: nat, count: nat)
    requires 0 < p && p * count <= |input| && IsPeriod(input, p) && p <= |input|
    ensures Copied(input[..p], count) == input[..p * count]
    decreases count
  {
    if count > 0 {
      MulAdd(p, count - 1, 1);
      PatternRepeats(input, p, count - 1);
      assert input[p..p * count] == input[..p * (count - 1)];
      assert input[..p * count] == input[..p] + input[p..p * count];
    } else {
      assert input[..p * count] == [];
    }
  }

  /** A validated description of a true period decodes to the chunk. */
  lemma PeriodicSound(input: bytes, p: u32, l: Limits)
    requires 0 < p <= |input| <= U64_MAX && IsPeriod(input, p) && Validate(Describe(input, p), l).Valid?
    ensures var d := Describe(input, p);
            var a := Repeat(d.pattern, d.count, d.tail, d.len, [], 0);
            a.Good? && a.data == input
  {
    var d, n := Describe(input, p), |input|;
    DivMod(n, p);
    assert d.count == n / p by {
      assert p * d.count + |d.tail| == n;
      MulCancel(p, d.count, n / p);
    }
    PatternRepeats(input, p, d.count);
    RepeatDecodes(d.pattern, d.count, d.tail, n, [], 0);
    assert [] + Copied(d.pattern, d.count) + d.tail == input;
  }

  // ----- the search -----

  /** The candidate: the least period, if it is reached before the cap and its description validates. */
  function PeriodicOf(input: bytes, l: Limits): Option<Representation>
    requires |input| <= U64_MAX
  {
    if |input| < 4 then None
    else match FirstPeriod(input, 2, LastPeriod(input, l))
      case None => None
      case Some(p) =>
        if Spent(input, p) <= WORK_CAP && Validate(Describe(input, p), l).Valid? then Some(Describe(input, p)) else None
  }

  lemma FirstPeriodStep(input: bytes, p: nat, last: nat)
    requires p <= last
    ensures FirstPeriod(input, p, last) == if IsPeriod(input, p) then Some(p) else FirstPeriod(input, p + 1, last)
  {
  }

  lemma SliceIsPeriod(input: bytes, p: nat)
    requires p <= |input|
    ensures input[p..] == input[..|input| - p] <==> IsPeriod(input, p)
  {
    if input[p..] == input[..|input| - p] {
      forall i | p <= i < |input| ensures input[i] == input[i - p] {
        assert input[p..][i - p] == input[..|input| - p][i - p];
      }
    }
  }

  /** `PeriodicEncoder::encode` (src/entropy/periodic.rs:101). */
  method EncodePeriodic(input: bytes, l: Limits) returns (r: Option<Representation>)
    requires |input| <= U64_MAX
    ensures r == PeriodicOf(input, l)
    ensures r.Some? ==> Validate(r.value, l).Valid?
    ensures r.Some? ==> var a := Repeat(r.value.pattern, r.value.count, r.value.tail, r.value.len, [], 0);
                        a.Good? && a.data == input
  {
    hide FirstPeriod, Spent, Repeat, Validate, Describe, IsPeriod;
    var n := |input|;
    if n < 4 {
      return None;
    }
    var last := LastPeriod(input, l);
    SpentNone(input);
    FirstPeriodNone(input, 2, last);
    if last < 2 {
      return None;
    }
    var work: nat := 0;
    for p := 2 to last + 1
      invariant work == Spent(input, p - 1) <= WORK_CAP
      invariant FirstPeriod(input, 2, last) == FirstPeriod(input, p, last)
    {
      FirstPeriodStep(input, p, last);
      SpentStep(input, p);
      if input[p] != input[0] {
        assert !IsPeriod(input, p) by { FilterSafe(input, p); }
        work := work + 1;
        CapReached(input, p, last, work);
        if work > WORK_CAP {
          return None;
        }
      } else {
        work := work + (n - p);
        CapReached(input, p, last, work);
        if work > WORK_CAP {
          return None;
        }
        SliceIsPeriod(input, p);
        if input[p..] == input[..n - p] {
          var rep := Describe(input, p);
          var v := CheckDescriptor(rep, l);
          if v.Invalid? {
            return None;
          }
          PeriodicSound(input, p, l);
          assert rep.Periodic? by { DescribeShape(input, p); }
          return Some(rep);
        }
      }
    }
    FirstPeriodNone(input, last + 1, last);
    return None;
  }

  lemma SpentNone(input: bytes)
    requires |input| > 1
    ensures Spent(input, 1) == 0
  {
  }

  lemma SpentStep(input: bytes, p: nat)
    requires 2 <= p < |input|
    ensures Spent(input, p) == Spent(input, p - 1) + if input[p] != input[0] then 1 else |input| - p
  {
  }

  lemma FirstPeriodNone(input: bytes, p: nat, last: nat)
    ensures p > last ==> FirstPeriod(input, p, last) == None
  {
  }

  /** The one-byte filter never skips a true period. */
  lemma FilterSafe(input: bytes, p: nat)
    requires 0 < p < |input| && input[p] != input[0]
    ensures !IsPeriod(input, p)
  {
    assert input[p] != input[p - p];
  }

  /** Once the cap is passed, no later period is within it. */
  lemma CapReached(input: bytes, p: nat, last: nat, work: nat)
    requires p < |input| && work == Spent(input, p) && last < |input|
    ensures work > WORK_CAP ==> forall q :: p <= q <= last ==> Spent(input, q) > WORK_CAP
  {
    hide Spent;
    forall q | p <= q <= last ensures Spent(input, p) <= Spent(input, q) {
      SpentGrows(input, p, q);
    }
  }

  lemma DescribeShape(input: bytes, p: u32)
    requires 0 < p <= |input| <= U64_MAX
    ensures Describe(input, p).Periodic?
  {
  }
}

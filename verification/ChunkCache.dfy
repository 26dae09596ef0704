/**
 The byte-budgeted LRU cache (src/cache/materialized.rs). Its meaning is a list
 of chunks from least to most recently used; the class keeps stamps in a map and
 refines that list.
 */
module ChunkCache {
  import opened Bytes
  import opened Checked
  import opened Descriptor

  // ----- the recency list -----

  datatype Entry = Entry(id: ChunkId, data: bytes)

  function Total(q: seq<Entry>): nat {
    if q == [] then 0 else |q[0].data| + Total(q[1..])
  }

  /** The list without `id`. */
  function Without(q: seq<Entry>, id: ChunkId): (r: seq<Entry>)
    ensures |r| <= |q| && forall e :: e in r <==> e in q && e.id != id
  {
    if q == [] then []
    else if q[0].id == id then Without(q[1..], id)
    else [q[0]] + Without(q[1..], id)
  }

  /** The longest most-recent part within the budget. */
  function Fitting(q: seq<Entry>, budget: nat): seq<Entry> {
    if Total(q) <= budget then q else Fitting(q[1..], budget)
  }

  predicate Unique(q: seq<Entry>) {
    forall i, j :: 0 <= i < j < |q| ==> q[i].id != q[j].id
  }

  function Find(q: seq<Entry>, id: ChunkId): (r: Option<bytes>)
    ensures r.Some? ==> Entry(id, r.value) in q
    ensures r.None? ==> forall e :: e in q ==> e.id != id
  {
    if q == [] then None
    else if q[0].id == id then Some(q[0].data)
    else Find(q[1..], id)
  }

  datatype Op = Get(id: ChunkId) | Insert(id: ChunkId, data: bytes) | Clear

  /** What one operation does to the list. */
  function Apply(q: seq<Entry>, op: Op, budget: nat): seq<Entry> {
    match op
    case Get(id) =>
      (match Find(q, id)
       case None => q
       case Some(data) => Without(q, id) + [Entry(id, data)])
    case Insert(id, data) =>
      if |data| > budget then Without(q, id) else Fitting(Without(q, id) + [Entry(id, data)], budget)
    case Clear => []
  }

  // ----- laws of the list -----

  lemma {:induction false} TotalAppend(a: seq<Entry>, b: seq<Entry>)
    ensures Total(a + b) == Total(a) + Total(b)
  {
    if a == [] {
      assert a + b == b;
    } else {
      TotalAppend(a[1..], b);
      assert (a + b)[1..] == a[1..] + b;
    }
  }

  lemma {:induction false} WithoutUnique(q: seq<Entry>, id: ChunkId)
    requires Unique(q)
    ensures Unique(Without(q, id))
    ensures Total(Without(q, id)) + (match Find(q, id) case None => 0 case Some(b) => |b|) == Total(q)
    ensures Find(q, id).None? ==> Without(q, id) == q
  {
    if q != [] {
      WithoutUnique(q[1..], id);
      if q[0].id == id {
        assert Find(q[1..], id).None?;
      } else {
        var rest := Without(q[1..], id);
        assert Without(q, id)[1..] == rest;
        forall i, j | 0 <= i < j < |rest| + 1 ensures ([q[0]] + rest)[i].id != ([q[0]] + rest)[j].id {
          if i == 0 { assert rest[j - 1] in q[1..]; }
        }
      }
    }
  }

  /**
   What survives an eviction: a most-recent part within the budget, and every
   longer most-recent part is over it.
   */
  lemma {:induction false} FittingLongest(q: seq<Entry>, budget: nat)
    ensures |Fitting(q, budget)| <= |q|
    ensures Fitting(q, budget) == q[|q| - |Fitting(q, budget)|..]
    ensures Total(Fitting(q, budget)) <= budget
    ensures forall k :: 0 <= k < |q| - |Fitting(q, budget)| ==> Total(q[k..]) > budget
  {
    if Total(q) > budget {
      FittingLongest(q[1..], budget);
      var n := |Fitting(q[1..], budget)|;
      assert q[1..][|q| - 1 - n..] == q[|q| - n..];
      forall k | 0 <= k < |q| - n ensures Total(q[k..]) > budget {
        if k == 0 { assert q[0..] == q; } else { assert q[k..] == q[1..][k - 1..]; }
      }
    }
  }

  /** An entry within the budget is never its own victim. */
  lemma InsertRetained(q: seq<Entry>, id: ChunkId, data: bytes, budget: nat)
    requires Unique(q) && |data| <= budget
    ensures var r := Apply(q, Insert(id, data), budget);
            r != [] && r[|r| - 1] == Entry(id, data) && Find(r, id) == Some(data)
  {
    var full := Without(q, id) + [Entry(id, data)];
    var r := Fitting(full, budget);
    FittingLongest(full, budget);
    var k := |full| - |r|;
    assert full[|full| - 1..] == [Entry(id, data)];
    assert Total([Entry(id, data)]) == |data| + Total([]);
    assert r != [];
    assert r[|r| - 1] == full[|full| - 1];
    assert forall i :: 0 <= i < |r| - 1 ==> r[i] == full[k + i] && r[i] in Without(q, id);
    FindLast(r, id);
  }

  lemma {:induction false} FindLast(r: seq<Entry>, id: ChunkId)
    requires r != [] && r[|r| - 1].id == id
    requires forall i :: 0 <= i < |r| - 1 ==> r[i].id != id
    ensures Find(r, id) == Some(r[|r| - 1].data)
  {
    if |r| > 1 { FindLast(r[1..], id); }
  }

  ghost predicate Sound(q: seq<Entry>, budget: nat) {
    Unique(q) && Total(q) <= budget
  }

  lemma {:induction false} TotalWithout(q: seq<Entry>, id: ChunkId)
    ensures Total(Without(q, id)) <= Total(q)
  {
    if q != [] {
      TotalWithout(q[1..], id);
      if q[0].id != id { assert Without(q, id)[1..] == Without(q[1..], id); }
    }
  }

  lemma AppendUnique(q: seq<Entry>, e: Entry)
    requires Unique(q) && forall x :: x in q ==> x.id != e.id
    ensures Unique(q + [e])
  {
    forall i, j | 0 <= i < j < |q| + 1 ensures (q + [e])[i].id != (q + [e])[j].id {
      if j == |q| { assert q[i] in q; }
    }
  }

  /** Every operation keeps ids unique and the total within the budget. */
  lemma ApplySound(q: seq<Entry>, op: Op, budget: nat)
    requires Sound(q, budget)
    ensures Sound(Apply(q, op, budget), budget)
  {
    if op.Clear? { return; }
    WithoutUnique(q, op.id);
    TotalWithout(q, op.id);
    match op
    case Get(id) =>
      if Find(q, id).Some? {
        var e := Entry(id, Find(q, id).value);
        AppendUnique(Without(q, id), e);
        TotalAppend(Without(q, id), [e]);
        assert Total([e]) == |e.data| + Total([]);
      }
    case Insert(id, data) =>
      if |data| <= budget {
        var full := Without(q, id) + [Entry(id, data)];
        AppendUnique(Without(q, id), Entry(id, data));
        FittingLongest(full, budget);
      }
  }

  // ----- whole runs -----

  /** The list after a run from an empty cache. */
  function After(ops: seq<Op>, budget: nat): seq<Entry> {
    if ops == [] then [] else Apply(After(ops[..|ops| - 1], budget), ops[|ops| - 1], budget)
  }

  /** The bytes most recently inserted for `id`. */
  function LastInserted(ops: seq<Op>, id: ChunkId): Option<bytes> {
    if ops == [] then None
    else
      var op := ops[|ops| - 1];
      if op.Insert? && op.id == id then Some(op.data) else LastInserted(ops[..|ops| - 1], id)
  }

  lemma {:induction false} RunSound(ops: seq<Op>, budget: nat)
    ensures Sound(After(ops, budget), budget)
  {
    if ops != [] {
      RunSound(ops[..|ops| - 1], budget);
      ApplySound(After(ops[..|ops| - 1], budget), ops[|ops| - 1], budget);
    }
  }

  /** Only an insertion brings new bytes into the list. */
  lemma NothingInvented(q: seq<Entry>, op: Op, budget: nat, e: Entry)
    requires Sound(q, budget) && e in Apply(q, op, budget)
    ensures (op.Insert? && op.id == e.id ==> op.data == e.data) && (e in q || (op.Insert? && op.id == e.id))
  {
    match op
    case Get(id) =>
    case Insert(id, data) =>
      if |data| <= budget {
        var full := Without(q, id) + [Entry(id, data)];
        FittingLongest(full, budget);
        assert e in full;
      }
    case Clear =>
  }

  /** A hit returns the bytes last inserted under that id, over any run. */
  lemma {:induction false} HitIsLastInserted(ops: seq<Op>, budget: nat, e: Entry)
    requires e in After(ops, budget)
    ensures LastInserted(ops, e.id) == Some(e.data)
  {
    if ops != [] {
      var before := ops[..|ops| - 1];
      RunSound(before, budget);
      NothingInvented(After(before, budget), ops[|ops| - 1], budget, e);
      if e in After(before, budget) { HitIsLastInserted(before, budget, e); }
    }
  }

  // ----- stamps -----

  type Stamps = map<ChunkId, (bytes, nat)>

  /** Stamps rise along the list. */
  ghost predicate Stamped(q: seq<Entry>, m: Stamps) {
    && (forall i :: 0 <= i < |q| ==> q[i].id in m && m[q[i].id].0 == q[i].data)
    && (forall i, j :: 0 <= i < j < |q| ==> m[q[i].id].1 < m[q[j].id].1)
  }

  /** The map holds exactly the listed chunks, stamped in list order up to the clock. */
  ghost predicate Matches(q: seq<Entry>, m: Stamps, clock: nat) {
    && Unique(q) && Stamped(q, m)
    && (forall id :: id in m ==> Find(q, id).Some? && m[id].1 <= clock)
  }

  /** Every entry of `q` is stamped after `e`. */
  ghost predicate Behind(e: Entry, q: seq<Entry>, m: Stamps) {
    e.id in m && m[e.id].0 == e.data && forall x :: x in q ==> x.id in m && m[e.id].1 < m[x.id].1
  }

  lemma StampedHead(q: seq<Entry>, m: Stamps)
    requires q != [] && Stamped(q, m)
    ensures Stamped(q[1..], m) && Behind(q[0], q[1..], m)
  {
    forall x | x in q[1..] ensures x.id in m && m[q[0].id].1 < m[x.id].1 {
      var i :| 0 <= i < |q[1..]| && q[1..][i] == x;
      assert q[i + 1] == x;
    }
  }

  lemma StampedCons(e: Entry, rest: seq<Entry>, m: Stamps)
    requires Stamped(rest, m) && Behind(e, rest, m)
    ensures Stamped([e] + rest, m)
  {
    var q := [e] + rest;
    forall i | 0 <= i < |q| ensures q[i].id in m && m[q[i].id].0 == q[i].data {
      if i > 0 { assert q[i] == rest[i - 1]; }
    }
    forall i, j | 0 <= i < j < |q| ensures m[q[i].id].1 < m[q[j].id].1 {
      assert q[j] == rest[j - 1] && rest[j - 1] in rest;
      if i > 0 { assert q[i] == rest[i - 1]; }
    }
  }

  lemma BehindFewer(e: Entry, q: seq<Entry>, r: seq<Entry>, m: Stamps)
    requires Behind(e, q, m) && forall x :: x in r ==> x in q
    ensures Behind(e, r, m)
  {
  }

  lemma {:induction false} StampedWithout(q: seq<Entry>, m: Stamps, id: ChunkId)
    requires Stamped(q, m)
    ensures Stamped(Without(q, id), m)
  {
    hide Stamped, Behind;
    if q != [] {
      StampedHead(q, m);
      StampedWithout(q[1..], m, id);
      if q[0].id != id {
        BehindFewer(q[0], q[1..], Without(q[1..], id), m);
        StampedCons(q[0], Without(q[1..], id), m);
      }
    }
  }

  lemma StampedElsewhere(q: seq<Entry>, m: Stamps, id: ChunkId)
    requires Stamped(q, m) && forall x :: x in q ==> x.id != id
    ensures Stamped(q, m - {id})
  {
    forall i | 0 <= i < |q| ensures q[i].id in m - {id} && (m - {id})[q[i].id] == m[q[i].id] {
      assert q[i] in q;
    }
  }

  lemma {:induction false} FindWithout(q: seq<Entry>, id: ChunkId, other: ChunkId)
    requires other != id
    ensures Find(Without(q, id), other) == Find(q, other)
  {
    if q != [] {
      FindWithout(q[1..], id, other);
      if q[0].id != id { assert Without(q, id)[1..] == Without(q[1..], id); }
    }
  }

  lemma {:induction false} FindAppend(q: seq<Entry>, e: Entry, id: ChunkId)
    ensures Find(q + [e], id) == if Find(q, id).Some? then Find(q, id) else if id == e.id then Some(e.data) else None
  {
    if q != [] {
      FindAppend(q[1..], e, id);
      assert (q + [e])[1..] == q[1..] + [e];
    } else {
      assert q + [e] == [e];
    }
  }

  /** Dropping an id from both sides. */
  lemma MatchesWithout(q: seq<Entry>, m: Stamps, clock: nat, id: ChunkId)
    requires Matches(q, m, clock)
    ensures Matches(Without(q, id), m - {id}, clock)
  {
    hide Stamped, Unique, Without;
    WithoutUnique(q, id);
    StampedWithout(q, m, id);
    StampedElsewhere(Without(q, id), m, id);
    forall k | k in m - {id} ensures Find(Without(q, id), k).Some? && (m - {id})[k].1 <= clock {
      FindWithout(q, id, k);
    }
  }

  lemma StampedAppend(q: seq<Entry>, m: Stamps, clock: nat, e: Entry)
    requires Stamped(q, m) && e.id !in m && forall id :: id in m ==> m[id].1 <= clock
    ensures Stamped(q + [e], m[e.id := (e.data, clock + 1)])
  {
    var r, k := q + [e], m[e.id := (e.data, clock + 1)];
    forall i | 0 <= i < |q| ensures r[i].id in m && k[r[i].id] == m[r[i].id] {
      assert r[i] == q[i] && q[i].id in m;
    }
  }

  /** Stamping an unlisted id with a fresh clock puts it last. */
  lemma MatchesAppend(q: seq<Entry>, m: Stamps, clock: nat, id: ChunkId, data: bytes)
    requires Matches(q, m, clock) && id !in m
    ensures Matches(q + [Entry(id, data)], m[id := (data, clock + 1)], clock + 1)
  {
    var e := Entry(id, data);
    forall x | x in q ensures x.id != id {
      var i :| 0 <= i < |q| && q[i] == x;
      assert q[i].id in m;
    }
    hide Stamped, Unique;
    AppendUnique(q, e);
    StampedAppend(q, m, clock, e);
    forall k | k in m[id := (data, clock + 1)] ensures Find(q + [e], k).Some? {
      FindAppend(q, e, k);
    }
  }

  /** The least stamp belongs to the head of the list. */
  lemma OldestIsFirst(q: seq<Entry>, m: Stamps, clock: nat, id: ChunkId)
    requires Matches(q, m, clock) && id in m && forall k :: k in m ==> m[id].1 <= m[k].1
    ensures q != [] && q[0].id == id
    ensures Matches(q[1..], m - {id}, clock)
  {
    var e := Entry(id, Find(q, id).value);
    var i :| 0 <= i < |q| && q[i] == e;
    assert m[id].1 <= m[q[0].id].1;
    assert i == 0;
    MatchesWithout(q, m, clock, id);
    HeadWithout(q);
  }

  lemma HeadWithout(q: seq<Entry>)
    requires Unique(q) && q != []
    ensures Without(q, q[0].id) == q[1..]
  {
    WithoutUnique(q[1..], q[0].id);
  }

  // ----- the cache -----

  function SaturatingSub(a: nat, b: nat): nat {
    if a >= b then a - b else 0
  }

  function SaturatingAdd(a: nat, b: nat): nat {
    if a + b <= U64_MAX then a + b else U64_MAX
  }

  /** A key with the least stamp. */
  method Oldest(m: Stamps) returns (id: ChunkId)
    requires m != map[]
    ensures id in m && forall k :: k in m ==> m[id].1 <= m[k].1
  {
    var rest := m.Keys;
    id :| id in rest;
    while rest != {}
      invariant id in m && rest <= m.Keys
      invariant forall k :: k in m.Keys - rest ==> m[id].1 <= m[k].1
      decreases rest
    {
      var k :| k in rest;
      if m[k].1 < m[id].1 {
        id := k;
      }
      rest := rest - {k};
    }
  }

  function SizeOf(m: Stamps, id: ChunkId): nat {
    if id in m then |m[id].0| else 0
  }

  lemma MatchesLookup(q: seq<Entry>, m: Stamps, clock: nat, id: ChunkId)
    requires Matches(q, m, clock)
    ensures id in m <==> Find(q, id).Some?
    ensures id in m ==> Find(q, id) == Some(m[id].0)
  {
    if Find(q, id).Some? {
      var i :| 0 <= i < |q| && q[i] == Entry(id, Find(q, id).value);
      assert q[i].id in m;
    }
  }

  lemma MatchesEmpty(q: seq<Entry>, m: Stamps, clock: nat)
    requires Matches(q, m, clock)
    ensures m == map[] <==> q == []
  {
    if q != [] { assert q[0].id in m; }
    if m != map[] {
      var id :| id in m;
      assert Find(q, id).Some?;
    }
  }

  /** Dropping an id releases exactly its bytes. */
  lemma DropStep(q: seq<Entry>, m: Stamps, clock: nat, id: ChunkId)
    requires Matches(q, m, clock)
    ensures Matches(Without(q, id), m - {id}, clock)
    ensures Total(Without(q, id)) + SizeOf(m, id) == Total(q)
  {
    hide Total, Without, Find, Stamped;
    MatchesLookup(q, m, clock, id);
    MatchesWithout(q, m, clock, id);
    WithoutUnique(q, id);
  }

  /** Restamping an id moves it to the end of the list. */
  lemma StampStep(q: seq<Entry>, m: Stamps, clock: nat, id: ChunkId, data: bytes)
    requires Matches(q, m, clock)
    ensures Matches(Without(q, id) + [Entry(id, data)], m[id := (data, clock + 1)], clock + 1)
    ensures Total(Without(q, id) + [Entry(id, data)]) + SizeOf(m, id) == Total(q) + |data|
  {
    hide Without, Find, Stamped, Matches;
    var e := Entry(id, data);
    DropStep(q, m, clock, id);
    MatchesAppend(Without(q, id), m - {id}, clock, id, data);
    TotalAppend(Without(q, id), [e]);
    assert Total([e]) == |data| + Total([]);
    assert (m - {id})[id := (data, clock + 1)] == m[id := (data, clock + 1)];
  }

  /** Evicting the oldest entry drops the head of the list. */
  lemma EvictStep(q: seq<Entry>, m: Stamps, clock: nat, victim: ChunkId, budget: nat)
    requires Matches(q, m, clock) && victim in m && forall k :: k in m ==> m[victim].1 <= m[k].1
    requires Total(q) > budget
    ensures q != [] && Matches(q[1..], m - {victim}, clock)
    ensures Total(q[1..]) + SizeOf(m, victim) == Total(q)
    ensures Fitting(q[1..], budget) == Fitting(q, budget)
  {
    hide Without, Find, Stamped, Matches, Total;
    OldestIsFirst(q, m, clock, victim);
    DropStep(q, m, clock, victim);
    assert Without(q, victim) == q[1..] by { MatchesUnique(q, m, clock); HeadWithout(q); }
  }

  lemma MatchesUnique(q: seq<Entry>, m: Stamps, clock: nat)
    requires Matches(q, m, clock)
    ensures Unique(q)
  {
  }

  class MaterializedCache {
    var entries: Stamps
    const budget: nat
    var used: nat
    var clock: nat
    ghost var list: seq<Entry>

    ghost predicate Valid()
      reads this
    {
      && budget <= U64_MAX
      && Matches(list, entries, clock)
      && used == Total(list) <= budget
    }

    constructor (budget: nat)
      requires budget <= U64_MAX
      ensures Valid() && this.budget == budget && list == After([], budget)
    {
      this.budget := budget;
      entries, used, clock, list := map[], 0, 0, [];
    }

    /** `get` (src/cache/materialized.rs:38). */
    method Get(id: ChunkId) returns (r: Option<bytes>)
      requires Valid()
      modifies this
      ensures Valid()
      ensures r == Find(old(list), id) && list == Apply(old(list), Op.Get(id), budget)
    {
      hide Matches, Total, Find, Without, Fitting;
      MatchesLookup(list, entries, clock, id);
      if id !in entries {
        return None;
      }
      var (data, _) := entries[id];
      StampStep(list, entries, clock, id, data);
      clock := clock + 1;
      entries := entries[id := (data, clock)];
      list := Without(list, id) + [Entry(id, data)];
      return Some(data);
    }

    /**
     `insert` (src/cache/materialized.rs:48). The cached bytes and the new ones are in
     memory together, so they add up within 64 bits.
     */
    method Insert(id: ChunkId, data: bytes)
      requires Valid() && Total(list) + |data| <= U64_MAX
      modifies this
      ensures Valid()
      ensures list == Apply(old(list), Op.Insert(id, data), budget)
    {
      hide Matches, Total, Find, Without, Fitting;
      DropStep(list, entries, clock, id);
      if |data| > budget {
        used := SaturatingSub(used, SizeOf(entries, id));
        entries := entries - {id};
        list := Without(list, id);
        return;
      }
      StampStep(list, entries, clock, id, data);
      clock := clock + 1;
      used := SaturatingAdd(SaturatingSub(used, SizeOf(entries, id)), |data|);
      entries := entries[id := (data, clock)];
      list := Without(list, id) + [Entry(id, data)];
      Evict();
    }

    /** The eviction loop: oldest entries go until the rest fits. */
    method Evict()
      requires budget <= U64_MAX && Matches(list, entries, clock) && used == Total(list)
      modifies this
      ensures Valid() && clock == old(clock)
      ensures list == Fitting(old(list), budget)
    {
      hide Matches, Total, Find, Without, Fitting;
      while used > budget && entries != map[]
        invariant Matches(list, entries, clock) && used == Total(list) && clock == old(clock)
        invariant Fitting(list, budget) == Fitting(old(list), budget)
        decreases |list|
      {
        var victim := Oldest(entries);
        EvictStep(list, entries, clock, victim, budget);
        used := SaturatingSub(used, SizeOf(entries, victim));
        entries := entries - {victim};
        list := list[1..];
      }
      MatchesEmpty(list, entries, clock);
      FittingSelf(list, budget);
    }

    /** `clear` (src/cache/materialized.rs:96). */
    method Clear()
      requires Valid()
      modifies this
      ensures Valid() && list == Apply(old(list), Op.Clear, budget)
    {
      entries, used, list := map[], 0, [];
    }

    /** `contains` (src/cache/materialized.rs:76). */
    method Contains(id: ChunkId) returns (b: bool)
      requires Valid()
      ensures b == Find(list, id).Some?
    {
      MatchesLookup(list, entries, clock, id);
      return id in entries;
    }

    /** `used_bytes` (src/cache/materialized.rs:91). */
    method UsedBytes() returns (n: nat)
      requires Valid()
      ensures n == Total(list) <= budget
    {
      return used;
    }
  }

  lemma FittingSelf(q: seq<Entry>, budget: nat)
    ensures Total(q) <= budget ==> Fitting(q, budget) == q
    ensures Total([]) == 0
  {
  }
}

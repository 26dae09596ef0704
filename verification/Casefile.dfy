/**
 Deterministic casefiles (src/evidence/casefile.rs): a versioned envelope around
 length-prefixed (name, digest, bytes) entries. The digest function is a parameter.
 */
module Casefile {
  import opened Collections
  import opened Bytes
  import opened Checked
  import opened Descriptor

  const MAGIC: bytes := [0x45, 0x46, 0x43, 0x53]
  const VERSION: byte := 1

  type Digest = bytes -> ChunkId

  datatype CaseEntry = CaseEntry(name: bytes, digest: ChunkId, data: bytes)

  datatype CaseError = Malformed | Truncated | HashMismatch(name: bytes)

  /** What a call of the parser comes to; a slice that is not inside the buffer panics. */
  datatype Outcome<T> = Parsed(value: T) | Failed(error: CaseError) | Panicked

  // ----- printing -----

  function PrintEntry(e: CaseEntry): bytes {
    ToLe(|e.name|, 2) + e.name + e.digest + ToLe(|e.data|, 8) + e.data
  }

  /** The entries one after the other; nothing when a name is too long. */
  function PrintEntries(es: seq<CaseEntry>): Option<bytes> {
    if es == [] then Some([])
    else if |es[0].name| >= 0x1_0000 then None
    else match PrintEntries(es[1..])
      case None => None
      case Some(rest) => Some(PrintEntry(es[0]) + rest)
  }

  function Header(count: nat): bytes {
    MAGIC + [VERSION] + ToLe(count, 4)
  }

  function Print(es: seq<CaseEntry>): Option<bytes> {
    match PrintEntries(es)
    case None => None
    case Some(body) => Some(Header(|es| % 0x1_0000_0000) + body)
  }

  // ----- parsing -----

  function NameLen(buf: bytes, pos: nat): nat
    requires pos + 2 <= |buf|
  {
    FromLe(buf[pos..pos + 2])
  }

  /** An entry at `pos` has its name, digest and length field inside the buffer. */
  predicate Framed(buf: bytes, pos: nat) {
    pos + 2 <= |buf| && pos + 2 + NameLen(buf, pos) + 32 + 8 <= |buf|
  }

  /** Where the data of the entry at `pos` begins. */
  function DataStart(buf: bytes, pos: nat): (c: nat)
    requires Framed(buf, pos)
    ensures pos < c <= |buf|
  {
    pos + 42 + NameLen(buf, pos)
  }

  function DataLen(buf: bytes, pos: nat): nat
    requires Framed(buf, pos)
  {
    FromLe(buf[DataStart(buf, pos) - 8..DataStart(buf, pos)])
  }

  function EntryAt(buf: bytes, pos: nat): CaseEntry
    requires Framed(buf, pos) && DataStart(buf, pos) + DataLen(buf, pos) <= |buf|
  {
    var c := DataStart(buf, pos);
    CaseEntry(buf[pos + 2..c - 40], buf[c - 40..c - 8], buf[c..c + DataLen(buf, pos)])
  }

  /**
   One entry at `pos`, and where the next begins. An end of data past 2^64 does not
   fit the cursor: checked arithmetic panics on the sum, and the wrapped sum passes
   the length test and panics in the slice.
   */
  function ParseEntry(buf: bytes, pos: nat, hash: Digest): (r: Outcome<(CaseEntry, nat)>)
    ensures r.Parsed? ==> pos < r.value.1 <= |buf|
  {
    if !Framed(buf, pos) then Failed(Truncated)
    else
      var end := DataStart(buf, pos) + DataLen(buf, pos);
      if end > |buf| then if end > U64_MAX then Panicked else Failed(Truncated)
      else
        var e := EntryAt(buf, pos);
        if hash(e.data) != e.digest then Failed(HashMismatch(e.name)) else Parsed((e, end))
  }

  /** `count` entries from `pos` to the end of the buffer. */
  function ParseEntries(buf: bytes, pos: nat, count: nat, hash: Digest): Outcome<seq<CaseEntry>>
    decreases count
  {
    if count == 0 then if pos != |buf| then Failed(Malformed) else Parsed([])
    else match ParseEntry(buf, pos, hash)
      case Failed(e) => Failed(e)
      case Panicked => Panicked
      case Parsed((e, next)) =>
        match ParseEntries(buf, next, count - 1, hash)
        case Parsed(rest) => Parsed([e] + rest)
        case Failed(error) => Failed(error)
        case Panicked => Panicked
  }

  function Parse(buf: bytes, hash: Digest): Outcome<seq<CaseEntry>> {
    if |buf| < 5 || buf[..4] != MAGIC || buf[4] != VERSION then Failed(Malformed)
    else if |buf| < 9 then Panicked
    else ParseEntries(buf, 9, FromLe(buf[5..9]), hash)
  }

  // ----- each undoes the other -----

  /** An entry that can be printed and reads back. */
  ghost predicate Faithful(e: CaseEntry, hash: Digest) {
    |e.name| < 0x1_0000 && |e.data| <= U64_MAX && hash(e.data) == e.digest
  }

  lemma EntryReads(e: CaseEntry, buf: bytes, pos: nat, rest: bytes, hash: Digest)
    requires Faithful(e, hash) && pos <= |buf| && buf[pos..] == PrintEntry(e) + rest
    ensures ParseEntry(buf, pos, hash) == Parsed((e, pos + |PrintEntry(e)|))
    ensures buf[pos + |PrintEntry(e)|..] == rest
  {
    hide FromLe, ToLe;
    Widths();
    var n, d := |e.name|, |e.data|;
    FromToLe(n, 2);
    FromToLe(d, 8);
    var r3 := e.data + rest;
    var r2 := ToLe(d, 8) + r3;
    var r1 := e.digest + r2;
    assert buf[pos..] == ToLe(n, 2) + (e.name + r1);
    SliceAt(buf, pos, ToLe(n, 2), e.name + r1);
    SliceAt(buf, pos + 2, e.name, r1);
    SliceAt(buf, pos + 2 + n, e.digest, r2);
    SliceAt(buf, pos + 34 + n, ToLe(d, 8), r3);
    SliceAt(buf, pos + 42 + n, e.data, rest);
  }

  /** What the parser accepted is the print of what it returned. */
  lemma EntryPrints(buf: bytes, pos: nat, hash: Digest)
    requires pos <= |buf| && ParseEntry(buf, pos, hash).Parsed?
    ensures var (e, next) := ParseEntry(buf, pos, hash).value;
            Faithful(e, hash) && PrintEntry(e) == buf[pos..next]
  {
    hide FromLe, ToLe;
    Widths();
    var (e, next) := ParseEntry(buf, pos, hash).value;
    ToFromLe(buf[pos..pos + 2]);
    var b := pos + 2 + |e.name|;
    ToFromLe(buf[b + 32..b + 40]);
    assert buf[pos..next] == buf[pos..pos + 2] + buf[pos + 2..b] + buf[b..b + 32] + buf[b + 32..b + 40] + buf[b + 40..next];
  }

  lemma {:induction false} EntriesRead(es: seq<CaseEntry>, buf: bytes, pos: nat, hash: Digest)
    requires forall i :: 0 <= i < |es| ==> Faithful(es[i], hash)
    requires pos <= |buf| && PrintEntries(es) == Some(buf[pos..])
    ensures ParseEntries(buf, pos, |es|, hash) == Parsed(es)
    decreases |es|
  {
    hide ParseEntry, PrintEntry, Faithful;
    if es == [] {
      assert buf[pos..] == [];
    } else {
      var rest := PrintEntries(es[1..]).value;
      EntryReads(es[0], buf, pos, rest, hash);
      EntriesRead(es[1..], buf, pos + |PrintEntry(es[0])|, hash);
      assert [es[0]] + es[1..] == es;
    }
  }

  lemma {:induction false} EntriesPrint(buf: bytes, pos: nat, count: nat, hash: Digest)
    requires pos <= |buf| && ParseEntries(buf, pos, count, hash).Parsed?
    ensures var es := ParseEntries(buf, pos, count, hash).value;
            && |es| == count
            && (forall i :: 0 <= i < |es| ==> Faithful(es[i], hash))
            && PrintEntries(es) == Some(buf[pos..])
    decreases count
  {
    hide ParseEntry, PrintEntry;
    if count == 0 {
      assert buf[pos..] == [];
    } else {
      var (e, next) := ParseEntry(buf, pos, hash).value;
      EntryPrints(buf, pos, hash);
      EntriesPrint(buf, next, count - 1, hash);
      var es := ParseEntries(buf, pos, count, hash).value;
      assert es[1..] == ParseEntries(buf, next, count - 1, hash).value;
      assert buf[pos..] == buf[pos..next] + buf[next..];
    }
  }

  /** Parsing a printed list returns the list. */
  lemma ParsePrint(es: seq<CaseEntry>, hash: Digest)
    requires |es| < 0x1_0000_0000 && forall i :: 0 <= i < |es| ==> Faithful(es[i], hash)
    ensures Print(es).Some? && Parse(Print(es).value, hash) == Parsed(es)
  {
    hide FromLe, ToLe, PrintEntries, ParseEntries, Faithful;
    assert PrintEntries(es).Some? by { FaithfulPrints(es, hash); }
    var buf := Print(es).value;
    Widths();
    FromToLe(|es|, 4);
    assert buf[5..9] == ToLe(|es|, 4);
    assert buf[9..] == PrintEntries(es).value;
    EntriesRead(es, buf, 9, hash);
  }

  lemma {:induction false} FaithfulPrints(es: seq<CaseEntry>, hash: Digest)
    requires forall i :: 0 <= i < |es| ==> Faithful(es[i], hash)
    ensures PrintEntries(es).Some?
  {
    if es != [] { FaithfulPrints(es[1..], hash); }
  }

  /** Any accepted buffer is the print of what was returned. */
  lemma PrintParse(buf: bytes, hash: Digest)
    requires Parse(buf, hash).Parsed?
    ensures Print(Parse(buf, hash).value) == Some(buf)
    ensures forall i :: 0 <= i < |Parse(buf, hash).value| ==> Faithful(Parse(buf, hash).value[i], hash)
  {
    hide FromLe, ToLe, PrintEntries, ParseEntries, Faithful;
    var count := FromLe(buf[5..9]);
    EntriesPrint(buf, 9, count, hash);
    Widths();
    ToFromLe(buf[5..9]);
    assert count < 0x1_0000_0000;
    assert Header(count) == buf[..4] + [buf[4]] + buf[5..9];
    assert buf == Header(count) + buf[9..];
  }

  /** Accepted encodings are unique. */
  lemma EncodingUnique(a: bytes, b: bytes, hash: Digest)
    requires Parse(a, hash).Parsed? && Parse(a, hash) == Parse(b, hash)
    ensures a == b
  {
    hide Parse, Print;
    PrintParse(a, hash);
    PrintParse(b, hash);
  }

  // ----- when it panics -----

  /** Where the k-th entry from `pos` begins, by the length fields alone. */
  function Start(buf: bytes, pos: nat, k: nat): nat
    decreases k
  {
    if k == 0 || !Framed(buf, pos) then pos
    else Start(buf, DataStart(buf, pos) + DataLen(buf, pos), k - 1)
  }

  /** The entry at `pos` lies inside the buffer and its digest is right. */
  predicate Whole(buf: bytes, pos: nat, hash: Digest) {
    && Framed(buf, pos)
    && DataStart(buf, pos) + DataLen(buf, pos) <= |buf|
    && hash(EntryAt(buf, pos).data) == EntryAt(buf, pos).digest
  }

  /** The entry at `pos` declares data that ends beyond the buffer and beyond 64 bits. */
  predicate Overlong(buf: bytes, pos: nat) {
    && Framed(buf, pos)
    && DataStart(buf, pos) + DataLen(buf, pos) > |buf|
    && DataStart(buf, pos) + DataLen(buf, pos) > U64_MAX
  }

  /** After some whole entries, fewer than `count`, comes one with an overlong length. */
  predicate HitsOverlong(buf: bytes, pos: nat, count: nat, hash: Digest) {
    exists k :: 0 <= k < count && OverlongAt(buf, pos, k, hash)
  }

  predicate OverlongAt(buf: bytes, pos: nat, k: nat, hash: Digest) {
    && Overlong(buf, Start(buf, pos, k))
    && forall j :: 0 <= j < k ==> Whole(buf, Start(buf, pos, j), hash)
  }

  /**
   The parser panics on exactly two families of buffers: those that stop inside the
   entry count, and those whose first entry that is not whole has an overlong length.
   */
  lemma PanicsExactly(buf: bytes, hash: Digest)
    ensures Parse(buf, hash).Panicked?
        <==> && 5 <= |buf| && buf[..4] == MAGIC && buf[4] == VERSION
             && (|buf| < 9 || HitsOverlong(buf, 9, FromLe(buf[5..9]), hash))
  {
    hide ParseEntry, HitsOverlong;
    if |buf| >= 9 { PanicsInside(buf, 9, FromLe(buf[5..9]), hash); }
  }

  lemma StartStep(buf: bytes, pos: nat, k: nat)
    requires Framed(buf, pos)
    ensures Start(buf, pos, k + 1) == Start(buf, DataStart(buf, pos) + DataLen(buf, pos), k)
    ensures Start(buf, pos, 0) == pos
  {
  }

  /** Behind a whole entry the condition is that of the entries after it. */
  lemma OverlongStep(buf: bytes, pos: nat, k: nat, hash: Digest)
    requires Whole(buf, pos, hash)
    ensures !OverlongAt(buf, pos, 0, hash)
    ensures OverlongAt(buf, pos, k + 1, hash) <==> OverlongAt(buf, DataStart(buf, pos) + DataLen(buf, pos), k, hash)
  {
    hide Start, NameLen, DataLen, DataStart;
    var next := DataStart(buf, pos) + DataLen(buf, pos);
    forall j | 0 <= j <= k
      ensures Start(buf, pos, j + 1) == Start(buf, next, j) && Start(buf, pos, 0) == pos
    {
      StartStep(buf, pos, j);
    }
    if OverlongAt(buf, pos, k + 1, hash) {
      forall j | 0 <= j < k ensures Whole(buf, Start(buf, next, j), hash) {
        assert Whole(buf, Start(buf, pos, j + 1), hash);
      }
    }
    if OverlongAt(buf, next, k, hash) {
      forall j | 0 <= j < k + 1 ensures Whole(buf, Start(buf, pos, j), hash) {
        if j > 0 { assert Whole(buf, Start(buf, next, j - 1), hash); }
      }
    }
  }

  lemma {:induction false} PanicsInside(buf: bytes, pos: nat, count: nat, hash: Digest)
    ensures ParseEntries(buf, pos, count, hash).Panicked? <==> HitsOverlong(buf, pos, count, hash)
    decreases count
  {
    hide ParseEntry, Start, NameLen, FromLe, EntryAt;
    if count > 0 {
      if Whole(buf, pos, hash) {
        var next := DataStart(buf, pos) + DataLen(buf, pos);
        PanicsInside(buf, next, count - 1, hash);
        HitsStep(buf, pos, count, hash);
        EntryWhole(buf, pos, hash);
      } else {
        EntryNotWhole(buf, pos, hash);
        HitsFirst(buf, pos, count, hash);
      }
    }
  }

  lemma EntryWhole(buf: bytes, pos: nat, hash: Digest)
    requires Whole(buf, pos, hash)
    ensures ParseEntry(buf, pos, hash) == Parsed((EntryAt(buf, pos), DataStart(buf, pos) + DataLen(buf, pos)))
  {
  }

  lemma EntryNotWhole(buf: bytes, pos: nat, hash: Digest)
    requires !Whole(buf, pos, hash)
    ensures !ParseEntry(buf, pos, hash).Parsed?
    ensures ParseEntry(buf, pos, hash).Panicked? <==> Overlong(buf, pos)
  {
  }

  lemma HitsStep(buf: bytes, pos: nat, count: nat, hash: Digest)
    requires count > 0 && Whole(buf, pos, hash)
    ensures HitsOverlong(buf, pos, count, hash)
       <==> HitsOverlong(buf, DataStart(buf, pos) + DataLen(buf, pos), count - 1, hash)
  {
    hide OverlongAt, Whole, DataStart, DataLen, Framed;
    assert Framed(buf, pos) by { WholeFramed(buf, pos, hash); }
    var next := DataStart(buf, pos) + DataLen(buf, pos);
    if HitsOverlong(buf, pos, count, hash) {
      var k :| 0 <= k < count && OverlongAt(buf, pos, k, hash);
      OverlongStep(buf, pos, if k == 0 then 0 else k - 1, hash);
      assert OverlongAt(buf, next, k - 1, hash);
    }
    if HitsOverlong(buf, next, count - 1, hash) {
      var k :| 0 <= k < count - 1 && OverlongAt(buf, next, k, hash);
      OverlongStep(buf, pos, k, hash);
    }
  }

  lemma WholeFramed(buf: bytes, pos: nat, hash: Digest)
    requires Whole(buf, pos, hash)
    ensures Framed(buf, pos)
  {
  }

  lemma HitsFirst(buf: bytes, pos: nat, count: nat, hash: Digest)
    requires count > 0 && !Whole(buf, pos, hash)
    ensures HitsOverlong(buf, pos, count, hash) <==> Overlong(buf, pos)
  {
    hide Whole, Overlong;
    assert Start(buf, pos, 0) == pos;
    if Overlong(buf, pos) { assert OverlongAt(buf, pos, 0, hash); }
    if HitsOverlong(buf, pos, count, hash) {
      var k :| 0 <= k < count && OverlongAt(buf, pos, k, hash);
    }
  }

  lemma FiveBytesPanic(hash: Digest)
    ensures Parse(MAGIC + [VERSION], hash).Panicked?
  {
    assert (MAGIC + [VERSION])[..4] == MAGIC;
  }

  /** One nameless entry whose length field is all ones. */
  function LongestLength(digest: ChunkId): bytes {
    Header(1) + [0, 0] + digest + [255, 255, 255, 255, 255, 255, 255, 255]
  }

  lemma {:induction false} AllOnes(b: bytes)
    requires forall i :: 0 <= i < |b| ==> b[i] == 255
    ensures FromLe(b) == Pow256(|b|) - 1
  {
    if b != [] { AllOnes(b[1..]); }
  }

  /** 51 bytes that panic behind the header. */
  lemma LongestLengthPanics(digest: ChunkId, hash: Digest)
    ensures |LongestLength(digest)| == 51
    ensures Parse(LongestLength(digest), hash).Panicked?
  {
    hide FromLe, ToLe;
    Widths();
    var buf := LongestLength(digest);
    FromToLe(1, 4);
    assert buf[5..9] == ToLe(1, 4);
    assert FromLe(buf[9..11]) == 0 by { NoName(buf[9..11]); }
    AllOnes(buf[43..51]);
    assert ParseEntry(buf, 9, hash).Panicked?;
    assert ParseEntries(buf, 9, 1, hash).Panicked?;
  }

  lemma NoName(b: bytes)
    requires b == [0, 0]
    ensures FromLe(b) == 0
  {
  }

  // ----- as the source runs it -----

  lemma PrintEntriesStep(es: seq<CaseEntry>, i: nat)
    requires i < |es|
    ensures PrintEntries(es[i..])
         == if |es[i].name| >= 0x1_0000 then None
            else match PrintEntries(es[i + 1..]) case None => None case Some(rest) => Some(PrintEntry(es[i]) + rest)
  {
    assert es[i..][1..] == es[i + 1..];
  }

  function Followed(out: bytes, rest: Option<bytes>): Option<bytes> {
    if rest.Some? then Some(out + rest.value) else None
  }

  /** The bytes of the writers (src/evidence/casefile.rs:48, 152); none when a name is too long. */
  method PrintCasefile(es: seq<CaseEntry>) returns (r: Option<bytes>)
    ensures r == Print(es)
  {
    hide PrintEntries, PrintEntry;
    var out := Header(|es| % 0x1_0000_0000);
    assert es[0..] == es;
    for i := 0 to |es|
      invariant Print(es) == Followed(out, PrintEntries(es[i..]))
    {
      PrintEntriesStep(es, i);
      var e := es[i];
      if |e.name| >= 0x1_0000 {
        return None;
      }
      if PrintEntries(es[i + 1..]).Some? {
        var rest := PrintEntries(es[i + 1..]).value;
        assert out + (PrintEntry(e) + rest) == (out + PrintEntry(e)) + rest;
      }
      out := out + PrintEntry(e);
    }
    PrintNone();
    assert es[|es|..] == [] && out + [] == out;
    return Some(out);
  }

  lemma PrintNone()
    ensures PrintEntries([]) == Some([])
  {
  }

  lemma Wraps(p: nat, len: nat)
    requires p <= U64_MAX && len <= U64_MAX
    ensures (p + len) % 0x1_0000_0000_0000_0000 == if p + len > U64_MAX then p + len - 0x1_0000_0000_0000_0000 else p + len
  {
  }

  /** One pass of the loop, the cursor wrapping at 64 bits. */
  method ReadEntry(buf: bytes, pos: nat, hash: Digest) returns (r: Outcome<(CaseEntry, nat)>)
    requires pos <= |buf| <= U64_MAX
    ensures r == ParseEntry(buf, pos, hash)
  {
    hide FromLe;
    Widths();
    if pos + 2 > |buf| {
      return Failed(Truncated);
    }
    var nameLen := FromLe(buf[pos..pos + 2]);
    var p := pos + 2;
    if p + nameLen + 32 + 8 > |buf| {
      return Failed(Truncated);
    }
    var name := buf[p..p + nameLen];
    p := p + nameLen;
    var digest := buf[p..p + 32];
    p := p + 32;
    var len := FromLe(buf[p..p + 8]);
    p := p + 8;
    Wraps(p, len);
    var end := (p + len) % 0x1_0000_0000_0000_0000;
    if end > |buf| {
      return Failed(Truncated);
    }
    if end < p {
      return Panicked;
    }
    var e := CaseEntry(name, digest, buf[p..end]);
    if hash(e.data) != e.digest {
      return Failed(HashMismatch(e.name));
    }
    return Parsed((e, end));
  }

  /** `parse_casefile` (src/evidence/casefile.rs:102). */
  method ParseCasefile(buf: bytes, hash: Digest) returns (r: Outcome<seq<CaseEntry>>)
    requires |buf| <= U64_MAX
    ensures r == Parse(buf, hash)
  {
    hide ParseEntry, ParseEntries;
    if |buf| < 5 || buf[..4] != MAGIC {
      return Failed(Malformed);
    }
    if buf[4] != VERSION {
      return Failed(Malformed);
    }
    if |buf| < 9 {
      return Panicked;
    }
    var count := FromLe(buf[5..9]);
    var pos: nat := 9;
    var out: seq<CaseEntry> := [];
    PrependNone(ParseEntries(buf, pos, count, hash));
    for k := 0 to count
      invariant pos <= |buf|
      invariant Parse(buf, hash) == Prepend(out, ParseEntries(buf, pos, count - k, hash))
    {
      ParseStep(buf, pos, count - k, hash, out);
      var one := ReadEntry(buf, pos, hash);
      if one.Failed? {
        return Failed(one.error);
      }
      if one.Panicked? {
        return Panicked;
      }
      out, pos := out + [one.value.0], one.value.1;
    }
    ParseEnd(buf, pos, hash);
    if pos != |buf| {
      return Failed(Malformed);
    }
    assert out + [] == out;
    return Parsed(out);
  }

  lemma PrependNone(r: Outcome<seq<CaseEntry>>)
    ensures Prepend([], r) == r
  {
    if r.Parsed? { assert [] + r.value == r.value; }
  }

  function Prepend(out: seq<CaseEntry>, r: Outcome<seq<CaseEntry>>): Outcome<seq<CaseEntry>> {
    if r.Parsed? then Parsed(out + r.value) else r
  }

  lemma ParseStep(buf: bytes, pos: nat, count: nat, hash: Digest, out: seq<CaseEntry>)
    requires count > 0 && pos <= |buf|
    ensures ParseEntry(buf, pos, hash).Failed? ==>
              ParseEntries(buf, pos, count, hash) == Failed(ParseEntry(buf, pos, hash).error)
    ensures ParseEntry(buf, pos, hash).Panicked? ==> ParseEntries(buf, pos, count, hash).Panicked?
    ensures ParseEntry(buf, pos, hash).Parsed? ==>
              var (e, next) := ParseEntry(buf, pos, hash).value;
              Prepend(out, ParseEntries(buf, pos, count, hash))
              == Prepend(out + [e], ParseEntries(buf, next, count - 1, hash))
  {
    hide ParseEntry;
    if ParseEntry(buf, pos, hash).Parsed? {
      var (e, next) := ParseEntry(buf, pos, hash).value;
      var rest := ParseEntries(buf, next, count - 1, hash);
      if rest.Parsed? { assert out + ([e] + rest.value) == (out + [e]) + rest.value; }
    }
  }

  lemma ParseEnd(buf: bytes, pos: nat, hash: Digest)
    ensures ParseEntries(buf, pos, 0, hash) == if pos != |buf| then Failed(Malformed) else Parsed([])
  {
  }
}

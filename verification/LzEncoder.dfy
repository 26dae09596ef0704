/**
 The greedy LZ encoder (src/rans/sequence.rs:384-484, 1131-1170): hash-chain
 match search, the copy/literal parse with its tail clip, and the proof that the
 command walk rebuilds the chunk from the streams it writes.
 */
module LzEncoder {
  import opened Nonlinear
  import opened Bytes
  import opened Checked
  import opened Context
  import opened Streams
  import opened CommandWalk
  import opened WalkLaws

  const MIN_MATCH: nat := 4
  const MAX_COPY: nat := 131
  const MAX_LIT_RUN: nat := 128
  const MAX_DIST: nat := 65535
  const CHAIN_DEPTH: nat := 16
  const HASH_SIZE: nat := 65536
  const NONE: nat := 0xFFFF_FFFF

  // ----- tokens that rebuild a prefix -----

  /** Running `tokens` over exactly `literals` from nothing gives `out`. */
  ghost predicate Yields(tokens: seq<Token>, literals: bytes, out: bytes)
    decreases |tokens|
  {
    if tokens == [] then literals == [] && out == []
    else
      var init, t := tokens[..|tokens| - 1], tokens[|tokens| - 1];
      match t
      case Lit(run) =>
        && run <= |literals| && run <= |out|
        && out[|out| - run..] == literals[|literals| - run..]
        && Yields(init, literals[..|literals| - run], out[..|out| - run])
      case Back(dist, clen) =>
        && clen <= |out| && 0 < dist <= |out| - clen
        && out[|out| - clen..] == Extension(out[..|out| - clen], dist, clen)
        && Yields(init, literals, out[..|out| - clen])
      case Ext(data) =>
        && |data| <= |out| && out[|out| - |data|..] == data
        && Yields(init, literals, out[..|out| - |data|])
  }

  lemma YieldsLit(tokens: seq<Token>, literals: bytes, out: bytes, run: bytes)
    requires Yields(tokens, literals, out)
    ensures Yields(tokens + [Lit(|run|)], literals + run, out + run)
  {
    var all := tokens + [Lit(|run|)];
    assert all[..|all| - 1] == tokens;
    assert (literals + run)[..|literals|] == literals && (out + run)[..|out|] == out;
    assert (literals + run)[|literals|..] == run == (out + run)[|out|..];
  }

  lemma YieldsBack(tokens: seq<Token>, literals: bytes, out: bytes, dist: nat, clen: nat)
    requires Yields(tokens, literals, out) && 0 < dist <= |out|
    ensures Yields(tokens + [Back(dist, clen)], literals, out + Extension(out, dist, clen))
  {
    var all, e := tokens + [Back(dist, clen)], Extension(out, dist, clen);
    assert all[..|all| - 1] == tokens;
    assert (out + e)[..|out|] == out && (out + e)[|out|..] == e;
  }

  lemma YieldsLast(tokens: seq<Token>, literals: bytes, out: bytes)
    requires Yields(tokens, literals, out) && tokens != []
    ensures var init, t := tokens[..|tokens| - 1], tokens[|tokens| - 1];
            var k := if t.Lit? then t.run else 0;
            && TokenLen(t) <= |out| && k <= |literals|
            && Yields(init, literals[..|literals| - k], out[..|out| - TokenLen(t)])
            && (t.Lit? ==> out[|out| - t.run..] == literals[|literals| - t.run..])
            && (t.Back? ==> 0 < t.dist <= |out| - t.clen
                            && out[|out| - t.clen..] == Extension(out[..|out| - t.clen], t.dist, t.clen))
            && (t.Ext? ==> out[|out| - |t.data|..] == t.data)
  {
    hide Extension;
    if !tokens[|tokens| - 1].Lit? { assert literals[..|literals|] == literals; }
  }

  lemma ApplyLast(t: Token, literals: bytes, more: bytes, out: bytes, n: nat)
    requires TokenLen(t) <= |out| <= n && (t.Lit? ==> t.run <= |literals|)
    requires t.Lit? ==> out[|out| - t.run..] == literals[|literals| - t.run..]
    requires t.Back? ==> 0 < t.dist <= |out| - t.clen
                         && out[|out| - t.clen..] == Extension(out[..|out| - t.clen], t.dist, t.clen)
    requires t.Ext? ==> out[|out| - |t.data|..] == t.data
    ensures var before, lit := out[..|out| - TokenLen(t)], |literals| - (if t.Lit? then t.run else 0);
            Applies(t, literals + more, lit, |before|, n) && Apply(t, literals + more, lit, before, n) == out
  {
    hide Extension;
    var k := |out| - TokenLen(t);
    assert out[..k] + out[k..] == out;
    if t.Lit? { assert (literals + more)[|literals| - t.run..|literals|] == literals[|literals| - t.run..]; }
  }

  /** The append semantics agrees: after `tokens` the run stands at `out`. */
  lemma {:induction false} YieldsRuns(tokens: seq<Token>, literals: bytes, out: bytes, more: bytes, rest: Script, g: Goal)
    requires Yields(tokens, literals, out) && |out| <= g.n
    ensures Run(Script(tokens + rest.tokens, rest.complete), literals + more, g, [], 0)
         == Run(rest, literals + more, g, out, |literals|)
    decreases |tokens|
  {
    if tokens == [] {
      hide Run;
      assert tokens + rest.tokens == rest.tokens;
    } else {
      hide Run, Yields, Extension, Applies, Apply;
      var init, t := tokens[..|tokens| - 1], tokens[|tokens| - 1];
      var next := Script([t] + rest.tokens, rest.complete);
      var k := |literals| - (if t.Lit? then t.run else 0);
      YieldsLast(tokens, literals, out);
      assert tokens + rest.tokens == init + next.tokens;
      assert literals[..k] + (literals[k..] + more) == literals + more;
      YieldsRuns(init, literals[..k], out[..|out| - TokenLen(t)], literals[k..] + more, next, g);
      RunStep(t, rest, literals + more, g, out[..|out| - TokenLen(t)], k);
      ApplyLast(t, literals, more, out, g.n);
    }
  }

  lemma YieldsGood(tokens: seq<Token>, literals: bytes, out: bytes, g: Goal)
    requires Yields(tokens, literals, out) && |out| == g.n
    ensures Run(Script(tokens, true), literals, g, [], 0) == Good(out, |out|)
  {
    hide Run;
    assert tokens + [] == tokens && literals + [] == literals;
    YieldsRuns(tokens, literals, out, [], Script([], true), g);
    RunEnd(literals, g, out, |literals|);
  }

  // ----- matches -----

  /** The `len` bytes at `pos` also stand `dist` earlier. */
  ghost predicate Matched(input: bytes, pos: nat, dist: nat, len: nat) {
    && 0 < dist <= pos && pos + len <= |input|
    && forall i :: pos <= i < pos + len ==> input[i] == input[i - dist]
  }

  lemma {:induction false} MatchAt(input: bytes, pos: nat, dist: nat, len: nat, j: nat)
    requires Matched(input, pos, dist, len) && j < len
    ensures input[pos + j] == ExtensionAt(input[..pos], dist, j)
  {
    if j < dist {
      ModUnique(j, dist, 0, j);
      assert input[pos + j] == input[(pos + j) - dist];
    } else {
      MatchAt(input, pos, dist, len, j - dist);
      ModShift(j, dist);
      assert input[pos + j] == input[(pos + j) - dist];
    }
  }

  /** A match is the periodic extension a copy command lays down. */
  lemma MatchIsExtension(input: bytes, pos: nat, dist: nat, len: nat)
    requires Matched(input, pos, dist, len)
    ensures input[..pos] + Extension(input[..pos], dist, len) == input[..pos + len]
  {
    var e := Extension(input[..pos], dist, len);
    forall j | 0 <= j < len ensures e[j] == input[pos + j] {
      MatchAt(input, pos, dist, len, j);
    }
    assert e == input[pos..pos + len];
    assert input[..pos] + input[pos..pos + len] == input[..pos + len];
  }

  // ----- the hash-chain search -----

  function HashAt(input: bytes, pos: nat): (h: nat)
    requires pos + MIN_MATCH <= |input|
    ensures h < HASH_SIZE
  {
    FromLe(input[pos..pos + 4]) * 0x9E37_79B1 % 0x1_0000_0000 / 0x1_0000
  }

  /** How far the bytes at `pos` agree with those `dist` earlier, `l` of them known. */
  function MatchLen(input: bytes, pos: nat, dist: nat, l: nat): (m: nat)
    requires Matched(input, pos, dist, l)
    ensures l <= m && Matched(input, pos, dist, m)
    ensures pos + m < |input| ==> input[pos + m] != input[pos + m - dist]
    decreases |input| - pos - l
  {
    if pos + l < |input| && input[pos + l - dist] == input[pos + l] then MatchLen(input, pos, dist, l + 1) else l
  }

  /** Links lead to strictly older positions. */
  predicate Links(chain: seq<nat>) {
    forall p :: 0 <= p < |chain| ==> chain[p] == NONE || chain[p] < p
  }

  /**
   The longest match found along at most `left` links from `c`, starting from
   the best so far; length 0 is none.
   */
  function Search(input: bytes, pos: nat, chain: seq<nat>, c: nat, left: nat, bestDist: nat, bestLen: nat)
    : (r: (nat, nat))
    requires pos <= |input| == |chain| && Links(chain) && (c == NONE || c < pos)
    requires bestLen > 0 ==> Matched(input, pos, bestDist, bestLen) && bestDist <= MAX_DIST
    ensures bestLen <= r.1 && (r.1 > 0 ==> Matched(input, pos, r.0, r.1) && r.0 <= MAX_DIST)
    decreases left
  {
    if c == NONE || left == 0 then (bestDist, bestLen)
    else
      var dist := pos - c;
      var l := MatchLen(input, pos, dist, 0);
      if dist <= MAX_DIST && l >= MIN_MATCH && l > bestLen then
        if l == |input| - pos then (dist, l)
        else Search(input, pos, chain, chain[c], left - 1, dist, l)
      else Search(input, pos, chain, chain[c], left - 1, bestDist, bestLen)
  }

  /** The tables hold only positions before `pos`. */
  predicate Older(head: seq<nat>, chain: seq<nat>, pos: nat) {
    && |head| == HASH_SIZE && Links(chain)
    && forall h :: 0 <= h < HASH_SIZE ==> head[h] == NONE || head[h] < pos
  }

  function FindMatch(input: bytes, pos: nat, head: seq<nat>, chain: seq<nat>): (r: Option<(nat, nat)>)
    requires pos + MIN_MATCH <= |input| == |chain| && Older(head, chain, pos)
    ensures r.Some? ==> Matched(input, pos, r.value.0, r.value.1) && r.value.0 <= MAX_DIST && r.value.1 >= MIN_MATCH
  {
    var (dist, len) := Search(input, pos, chain, head[HashAt(input, pos)], CHAIN_DEPTH, 0, 0);
    if len >= MIN_MATCH then Some((dist, len)) else None
  }

  /** Register `pos` in the tables, whose entries are 32 bits wide. */
  function Linked(input: bytes, pos: nat, head: seq<nat>, chain: seq<nat>): (r: (seq<nat>, seq<nat>))
    requires pos < |input| == |chain| && Older(head, chain, pos)
    ensures |r.1| == |chain| && Older(r.0, r.1, pos + 1)
  {
    if pos + MIN_MATCH <= |input| then
      var h := HashAt(input, pos);
      (head[h := pos % U32], chain[pos := head[h]])
    else (head, chain)
  }

  /** Positions `pos..end` registered in order. */
  function LinkedTo(input: bytes, pos: nat, end: nat, head: seq<nat>, chain: seq<nat>): (t: (seq<nat>, seq<nat>))
    requires pos <= end <= |input| == |chain| && Older(head, chain, pos)
    ensures |t.1| == |chain| && Older(t.0, t.1, end)
    decreases end - pos
  {
    if pos == end then (head, chain)
    else
      var l := Linked(input, pos, head, chain);
      LinkedTo(input, pos + 1, end, l.0, l.1)
  }

  // ----- as the source runs it -----

  method CommonLength(input: bytes, pos: nat, dist: nat) returns (l: nat)
    requires Matched(input, pos, dist, 0)
    ensures l == MatchLen(input, pos, dist, 0)
  {
    l := 0;
    while pos + l < |input| && input[pos + l - dist] == input[pos + l]
      invariant Matched(input, pos, dist, l) && MatchLen(input, pos, dist, l) == MatchLen(input, pos, dist, 0)
      decreases |input| - pos - l
    {
      l := l + 1;
    }
  }

  lemma SearchStep(input: bytes, pos: nat, chain: seq<nat>, c: nat, left: nat, bestDist: nat, bestLen: nat)
    requires pos <= |input| == |chain| && Links(chain) && c < pos && c != NONE && left > 0
    requires bestLen > 0 ==> Matched(input, pos, bestDist, bestLen) && bestDist <= MAX_DIST
    ensures Matched(input, pos, pos - c, 0) && (chain[c] == NONE || chain[c] < pos)
    ensures var l := MatchLen(input, pos, pos - c, 0);
            var take := pos - c <= MAX_DIST && l >= MIN_MATCH && l > bestLen;
            && (take ==> Matched(input, pos, pos - c, l))
            && Search(input, pos, chain, c, left, bestDist, bestLen)
               == (if take && l == |input| - pos then (pos - c, l)
                   else if take then Search(input, pos, chain, chain[c], left - 1, pos - c, l)
                   else Search(input, pos, chain, chain[c], left - 1, bestDist, bestLen))
  {
    hide MatchLen;
  }

  lemma SearchEnd(input: bytes, pos: nat, chain: seq<nat>, c: nat, left: nat, bestDist: nat, bestLen: nat)
    requires pos <= |input| == |chain| && Links(chain) && (c == NONE || c < pos)
    requires bestLen > 0 ==> Matched(input, pos, bestDist, bestLen) && bestDist <= MAX_DIST
    requires c == NONE || left == 0
    ensures Search(input, pos, chain, c, left, bestDist, bestLen) == (bestDist, bestLen)
  {
  }

  /** The chain walk shared by the matchers, at most `cap` links deep. */
  method SearchIn(input: bytes, pos: nat, chain: array<nat>, first: nat, cap: nat, dist0: nat, len0: nat)
    returns (bestDist: nat, bestLen: nat)
    requires pos <= |input| == chain.Length && Links(chain[..]) && (first == NONE || first < pos)
    requires len0 > 0 ==> Matched(input, pos, dist0, len0) && dist0 <= MAX_DIST
    ensures (bestDist, bestLen) == Search(input, pos, chain[..], first, cap, dist0, len0)
  {
    hide Matched, MatchLen, Links, Search;
    var c: nat, depth: nat := first, 0;
    bestDist, bestLen := dist0, len0;
    ghost var links := chain[..];
    ghost var goal := Search(input, pos, links, first, cap, dist0, len0);
    while c != NONE && depth < cap
      invariant depth <= cap && (c == NONE || c < pos)
      invariant bestLen > 0 ==> Matched(input, pos, bestDist, bestLen) && bestDist <= MAX_DIST
      invariant goal == Search(input, pos, links, c, cap - depth, bestDist, bestLen)
      decreases cap - depth
    {
      SearchStep(input, pos, links, c, cap - depth, bestDist, bestLen);
      var dist: nat := pos - c;
      if dist <= MAX_DIST {
        var l := CommonLength(input, pos, dist);
        if l >= MIN_MATCH && l > bestLen {
          bestLen, bestDist := l, dist;
          if l == |input| - pos {
            return;
          }
        }
      }
      c, depth := chain[c], depth + 1;
    }
    SearchEnd(input, pos, links, c, cap - depth, bestDist, bestLen);
  }

  /** `find_match` (src/rans/sequence.rs:1131). */
  method FindMatchIn(input: bytes, pos: nat, head: array<nat>, chain: array<nat>) returns (r: Option<(nat, nat)>)
    requires pos + MIN_MATCH <= |input| == chain.Length && Older(head[..], chain[..], pos)
    ensures r == FindMatch(input, pos, head[..], chain[..])
  {
    hide Matched, Links, Search;
    var h := HashAt(input, pos);
    assert head[h] == head[..][h];
    var dist, len := SearchIn(input, pos, chain, head[h], CHAIN_DEPTH, 0, 0);
    return if len >= MIN_MATCH then Some((dist, len)) else None;
  }

  method Register(input: bytes, pos: nat, head: array<nat>, chain: array<nat>)
    requires pos < |input| == chain.Length && head != chain && Older(head[..], chain[..], pos)
    modifies head, chain
    ensures Older(head[..], chain[..], pos + 1)
    ensures (head[..], chain[..]) == Linked(input, pos, old(head[..]), old(chain[..]))
  {
    if pos + MIN_MATCH <= |input| {
      var h := HashAt(input, pos);
      chain[pos] := head[h];
      head[h] := pos % U32;
    }
  }

  lemma LinkedToStep(input: bytes, pos: nat, p: nat, head: seq<nat>, chain: seq<nat>)
    requires pos <= p < |input| == |chain| && Older(head, chain, pos)
    ensures var l := LinkedTo(input, pos, p, head, chain);
            LinkedTo(input, pos, p + 1, head, chain) == Linked(input, p, l.0, l.1)
    decreases p - pos
  {
    hide Older, Linked;
    if pos < p {
      var l := Linked(input, pos, head, chain);
      LinkedToStep(input, pos + 1, p, l.0, l.1);
    } else {
      var l := Linked(input, p, head, chain);
      assert LinkedTo(input, p + 1, p + 1, l.0, l.1) == l;
    }
  }

  lemma LinkedToNone(input: bytes, pos: nat, head: seq<nat>, chain: seq<nat>)
    requires pos <= |input| == |chain| && Older(head, chain, pos)
    ensures LinkedTo(input, pos, pos, head, chain) == (head, chain)
  {
  }

  method RegisterTo(input: bytes, pos: nat, end: nat, head: array<nat>, chain: array<nat>)
    requires pos <= end <= |input| == chain.Length && head != chain
    requires Older(head[..], chain[..], pos)
    modifies head, chain
    ensures (head[..], chain[..]) == LinkedTo(input, pos, end, old(head[..]), old(chain[..]))
  {
    hide Older, LinkedTo, Linked;
    ghost var h, c := head[..], chain[..];
    LinkedToNone(input, pos, h, c);
    for p := pos to end
      invariant Older(head[..], chain[..], p) && (head[..], chain[..]) == LinkedTo(input, pos, p, h, c)
    {
      LinkedToStep(input, pos, p, h, c);
      Register(input, p, head, chain);
    }
  }

  // ----- streams that rebuild a prefix -----

  ghost predicate Spells(tokens: seq<Token>, d: Decoded, out: bytes) {
    && AllShort(tokens) && d.extra == []
    && d.commands == PlainCommands(tokens) && d.offsets == PlainOffsets(tokens)
    && Yields(tokens, d.literals, out)
  }

  /** The streams are a well-formed plain recipe for `out`. */
  ghost predicate Rebuilds(d: Decoded, out: bytes) {
    exists tokens :: Spells(tokens, d, out)
  }

  lemma RebuildsNothing()
    ensures Rebuilds(Decoded([], [], [], []), [])
  {
    assert Spells([], Decoded([], [], [], []), []);
  }

  lemma {:induction false} PlainAppend(tokens: seq<Token>, t: Token)
    requires AllShort(tokens) && Short(t)
    ensures AllShort(tokens + [t])
    ensures PlainCommands(tokens + [t]) == PlainCommands(tokens) + [PlainCommand(t)]
    ensures PlainOffsets(tokens + [t]) == PlainOffsets(tokens) + PlainOffset(t)
  {
    hide Short, PlainCommand, PlainOffset;
    var all := tokens + [t];
    assert forall i :: 0 <= i < |all| ==> all[i] in tokens || all[i] == t;
    if tokens == [] {
      assert all == [t] && all[1..] == [];
    } else {
      assert all[1..] == tokens[1..] + [t];
      PlainAppend(tokens[1..], t);
    }
  }

  /** One literal command more. */
  lemma RebuildsLit(d: Decoded, out: bytes, run: bytes)
    requires Rebuilds(d, out) && 1 <= |run| <= MAX_LIT_RUN
    ensures Rebuilds(Decoded(d.commands + [|run| - 1], d.literals + run, d.offsets, []), out + run)
  {
    hide Yields, PlainCommands, PlainOffsets, AllShort;
    var tokens :| Spells(tokens, d, out);
    PlainAppend(tokens, Lit(|run|));
    YieldsLit(tokens, d.literals, out, run);
    assert Spells(tokens + [Lit(|run|)], Decoded(d.commands + [|run| - 1], d.literals + run, d.offsets, []), out + run);
  }

  /** One copy command more. */
  lemma RebuildsBack(d: Decoded, out: bytes, dist: nat, clen: nat)
    requires Rebuilds(d, out) && 0 < dist <= |out| && dist <= MAX_DIST && MIN_MATCH <= clen <= MAX_COPY
    ensures Rebuilds(Decoded(d.commands + [0x80 + clen - 4], d.literals, d.offsets + ToLe(dist, 2), []),
                     out + Extension(out, dist, clen))
  {
    hide Yields, PlainCommands, PlainOffsets, AllShort, Extension, ToLe;
    var tokens :| Spells(tokens, d, out);
    var t := Back(dist, clen);
    PlainAppend(tokens, t);
    YieldsBack(tokens, d.literals, out, dist, clen);
    assert Spells(tokens + [t], Decoded(d.commands + [0x80 + clen - 4], d.literals, d.offsets + ToLe(dist, 2), []),
                  out + Extension(out, dist, clen));
  }

  lemma {:induction false} PlainLengths(tokens: seq<Token>)
    requires AllShort(tokens)
    ensures |PlainOffsets(tokens)| == Copies(PlainCommands(tokens)) * 2
  {
    if tokens != [] {
      PlainLengths(tokens[1..]);
      var c := PlainCommands(tokens);
      assert c[1..] == PlainCommands(tokens[1..]);
    }
  }

  lemma {:induction false} YieldsLength(tokens: seq<Token>, literals: bytes, out: bytes)
    requires Yields(tokens, literals, out) && AllShort(tokens)
    ensures |tokens| <= |out| && |literals| <= |out|
    decreases |tokens|
  {
    if tokens != [] {
      hide Yields, Extension;
      var init, t := tokens[..|tokens| - 1], tokens[|tokens| - 1];
      assert AllShort(init) && Short(t);
      YieldsLast(tokens, literals, out);
      YieldsLength(init, literals[..|literals| - (if t.Lit? then t.run else 0)], out[..|out| - TokenLen(t)]);
    }
  }

  /** The command walk over such streams gives `out`, and their lengths are what the decoder expects. */
  lemma RebuildsWalk(d: Decoded, out: bytes)
    requires Rebuilds(d, out)
    ensures Walk(Local, d, |out|) == Good(out, |out|)
    ensures |d.offsets| == Copies(d.commands) * 2
    ensures |d.commands| <= |out| && |d.literals| <= |out|
  {
    hide Run, Yields, PlainCommands, PlainOffsets, AllShort, Tokens, Copies;
    var tokens :| Spells(tokens, d, out);
    assert d.commands[0..] == PlainCommands(tokens) + [] && d.offsets[0..] == d.offsets;
    PlainTokensRead(d, 0, 0, tokens, []);
    YieldsGood(tokens, d.literals, out, GoalOf(Local, |out|));
    PlainLengths(tokens);
    YieldsLength(tokens, d.literals, out);
  }

  // ----- the parse -----

  /** A match cut so that its last copy command is long enough to encode. */
  function Clip(len: nat): (r: nat)
    requires len >= MIN_MATCH
    ensures MIN_MATCH <= r <= len
    ensures r % MAX_COPY == 0 || r % MAX_COPY >= MIN_MATCH
  {
    var rem := len % MAX_COPY;
    if 0 < rem < MIN_MATCH then len - rem else len
  }

  lemma MatchSuffix(input: bytes, pos: nat, dist: nat, len: nat, take: nat)
    requires Matched(input, pos, dist, len) && take <= len
    ensures Matched(input, pos, dist, take) && Matched(input, pos + take, dist, len - take)
  {
  }

  function CopyTake(len: nat): nat {
    if len <= MAX_COPY then len else MAX_COPY
  }

  /** The streams with the copy commands of one distance for `len` bytes added. */
  function WithCopies(d: Decoded, dist: nat, len: nat): Decoded
    requires len % MAX_COPY == 0 || len % MAX_COPY >= MIN_MATCH
    decreases len
  {
    if len == 0 then d
    else
      var take := CopyTake(len);
      var next := Decoded(d.commands + [0x80 + take - MIN_MATCH], d.literals, d.offsets + ToLe(dist, 2), []);
      WithCopies(next, dist, len - take)
  }

  /** The copy commands of a match rebuild the matched bytes. */
  lemma {:induction false} CopiesRebuild(input: bytes, pos: nat, dist: nat, len: nat, d: Decoded)
    requires Matched(input, pos, dist, len) && dist <= MAX_DIST
    requires len % MAX_COPY == 0 || len % MAX_COPY >= MIN_MATCH
    requires Rebuilds(d, input[..pos])
    ensures Rebuilds(WithCopies(d, dist, len), input[..pos + len])
    decreases len
  {
    hide Rebuilds, Matched, Extension, ToLe;
    if len > 0 {
      var take := CopyTake(len);
      MatchSuffix(input, pos, dist, len, take);
      MatchShape(input, pos, dist, take);
      RebuildsPlain(d, input[..pos]);
      RebuildsBack(d, input[..pos], dist, take);
      MatchIsExtension(input, pos, dist, take);
      CopiesRebuild(input, pos + take, dist, len - take,
                    Decoded(d.commands + [0x80 + take - MIN_MATCH], d.literals, d.offsets + ToLe(dist, 2), []));
    }
  }

  /** Copy commands of one distance for `len` bytes (src/rans/sequence.rs:440). */
  method EmitCopies(dist: nat, len: nat, d: Decoded) returns (r: Decoded)
    requires len % MAX_COPY == 0 || len % MAX_COPY >= MIN_MATCH
    ensures r == WithCopies(d, dist, len)
  {
    hide ToLe;
    r := d;
    var remaining: nat := len;
    while remaining > 0
      invariant remaining % MAX_COPY == 0 || remaining % MAX_COPY >= MIN_MATCH
      invariant WithCopies(r, dist, remaining) == WithCopies(d, dist, len)
    {
      var take := CopyTake(remaining);
      r := Decoded(r.commands + [0x80 + take - MIN_MATCH], r.literals, r.offsets + ToLe(dist, 2), []);
      remaining := remaining - take;
    }
  }

  lemma RebuildsPlain(d: Decoded, out: bytes)
    requires Rebuilds(d, out)
    ensures d.extra == []
  {
  }

  lemma MatchShape(input: bytes, pos: nat, dist: nat, len: nat)
    requires Matched(input, pos, dist, len)
    ensures 0 < dist <= pos && pos + len <= |input|
  {
  }

  datatype Tables = Tables(end: nat, head: seq<nat>, chain: seq<nat>)

  predicate HasMatch(input: bytes, pos: nat, head: seq<nat>, chain: seq<nat>)
    requires pos <= |input| == |chain| && Older(head, chain, pos)
  {
    pos + MIN_MATCH <= |input| && FindMatch(input, pos, head, chain).Some?
  }

  /** A literal run begun at `start`, now at `pos`: positions without a match, at most one command's worth. */
  function RunFrom(input: bytes, start: nat, pos: nat, head: seq<nat>, chain: seq<nat>): (u: Tables)
    requires start <= pos <= |input| == |chain| && pos - start <= MAX_LIT_RUN && Older(head, chain, pos)
    ensures pos <= u.end <= |input| && u.end - start <= MAX_LIT_RUN
    ensures |u.chain| == |chain| && Older(u.head, u.chain, u.end)
    ensures pos < |input| && pos - start < MAX_LIT_RUN && !HasMatch(input, pos, head, chain) ==> pos < u.end
    decreases |input| - pos
  {
    if pos < |input| && pos - start < MAX_LIT_RUN && !HasMatch(input, pos, head, chain) then
      var l := Linked(input, pos, head, chain);
      RunFrom(input, start, pos + 1, l.0, l.1)
    else Tables(pos, head, chain)
  }

  lemma RunFromStep(input: bytes, start: nat, pos: nat, head: seq<nat>, chain: seq<nat>)
    requires start <= pos <= |input| == |chain| && pos - start <= MAX_LIT_RUN && Older(head, chain, pos)
    ensures RunFrom(input, start, pos, head, chain)
         == if pos < |input| && pos - start < MAX_LIT_RUN && !HasMatch(input, pos, head, chain)
            then RunFrom(input, start, pos + 1, Linked(input, pos, head, chain).0, Linked(input, pos, head, chain).1)
            else Tables(pos, head, chain)
  {
    hide Older, HasMatch, Linked;
  }

  method LiteralRun(input: bytes, start: nat, head: array<nat>, chain: array<nat>) returns (pos: nat)
    requires start <= |input| == chain.Length && head != chain && Older(head[..], chain[..], start)
    modifies head, chain
    ensures Tables(pos, head[..], chain[..]) == RunFrom(input, start, start, old(head[..]), old(chain[..]))
  {
    hide Older, FindMatch, RunFrom, Linked;
    pos := start;
    ghost var goal := RunFrom(input, start, start, head[..], chain[..]);
    while pos < |input| && pos - start < MAX_LIT_RUN
      invariant start <= pos <= |input| && pos - start <= MAX_LIT_RUN && Older(head[..], chain[..], pos)
      invariant goal == RunFrom(input, start, pos, head[..], chain[..])
      decreases |input| - pos
    {
      RunFromStep(input, start, pos, head[..], chain[..]);
      if pos + MIN_MATCH <= |input| {
        var m := FindMatchIn(input, pos, head, chain);
        if m.Some? {
          return;
        }
      }
      Register(input, pos, head, chain);
      pos := pos + 1;
    }
    RunFromStep(input, start, pos, head[..], chain[..]);
  }

  /** The greedy parse from `pos` on: `d` extended by a clipped match where there is one, by a literal run elsewhere. */
  function Greedy(input: bytes, pos: nat, head: seq<nat>, chain: seq<nat>, d: Decoded): Decoded
    requires pos <= |input| == |chain| && Older(head, chain, pos)
    decreases |input| - pos
  {
    if pos == |input| then d
    else if HasMatch(input, pos, head, chain) then
      var (dist, found) := FindMatch(input, pos, head, chain).value;
      var len := Clip(found);
      var l := LinkedTo(input, pos, pos + len, head, chain);
      Greedy(input, pos + len, l.0, l.1, WithCopies(d, dist, len))
    else
      var u := RunFrom(input, pos, pos, head, chain);
      Greedy(input, u.end, u.head, u.chain, WithRun(d, input[pos..u.end]))
  }

  /** The streams with one literal command added. */
  function WithRun(d: Decoded, run: bytes): Decoded
    requires 1 <= |run| <= MAX_LIT_RUN
  {
    Decoded(d.commands + [|run| - 1], d.literals + run, d.offsets, [])
  }

  /** What `encode_sequence` returns. */
  function GreedyStreams(input: bytes): Decoded {
    Greedy(input, 0, seq(HASH_SIZE, _ => NONE), seq(|input|, _ => NONE), Decoded([], [], [], []))
  }

  lemma GreedyCopy(input: bytes, pos: nat, head: seq<nat>, chain: seq<nat>, d: Decoded)
    requires pos < |input| == |chain| && Older(head, chain, pos) && HasMatch(input, pos, head, chain)
    ensures var (dist, found) := FindMatch(input, pos, head, chain).value;
            var l := LinkedTo(input, pos, pos + Clip(found), head, chain);
            && pos + Clip(found) <= |input|
            && Greedy(input, pos, head, chain, d)
               == Greedy(input, pos + Clip(found), l.0, l.1, WithCopies(d, dist, Clip(found)))
  {
    hide Older, LinkedTo, WithCopies, FindMatch, Clip;
  }

  lemma GreedyRun(input: bytes, pos: nat, head: seq<nat>, chain: seq<nat>, d: Decoded)
    requires pos < |input| == |chain| && Older(head, chain, pos) && !HasMatch(input, pos, head, chain)
    ensures var u := RunFrom(input, pos, pos, head, chain);
            && pos < u.end
            && Greedy(input, pos, head, chain, d) == Greedy(input, u.end, u.head, u.chain, WithRun(d, input[pos..u.end]))
  {
    hide Older, RunFrom, HasMatch, WithRun;
  }

  /** The parse is a recipe for the chunk. */
  lemma {:induction false} GreedyRebuilds(input: bytes, pos: nat, head: seq<nat>, chain: seq<nat>, d: Decoded)
    requires pos <= |input| == |chain| && Older(head, chain, pos) && Rebuilds(d, input[..pos])
    ensures Rebuilds(Greedy(input, pos, head, chain, d), input)
    decreases |input| - pos
  {
    hide Rebuilds, Older, FindMatch, Matched, Clip, Greedy, LinkedTo, RunFrom, WithCopies;
    if pos == |input| {
      GreedyEnd(input, head, chain, d);
      assert input[..pos] == input;
    } else if HasMatch(input, pos, head, chain) {
      GreedyCopy(input, pos, head, chain, d);
      var (dist, found) := FindMatch(input, pos, head, chain).value;
      var len := Clip(found);
      var l := LinkedTo(input, pos, pos + len, head, chain);
      MatchSuffix(input, pos, dist, found, len);
      CopiesRebuild(input, pos, dist, len, d);
      GreedyRebuilds(input, pos + len, l.0, l.1, WithCopies(d, dist, len));
    } else {
      GreedyRun(input, pos, head, chain, d);
      var u := RunFrom(input, pos, pos, head, chain);
      RebuildsPlain(d, input[..pos]);
      RebuildsLit(d, input[..pos], input[pos..u.end]);
      assert input[..pos] + input[pos..u.end] == input[..u.end];
      GreedyRebuilds(input, u.end, u.head, u.chain, WithRun(d, input[pos..u.end]));
    }
  }

  /** Every chunk is rebuilt from the streams of its greedy parse. */
  lemma StreamsRebuild(input: bytes)
    ensures Rebuilds(GreedyStreams(input), input)
  {
    hide Rebuilds, Greedy, Older;
    var head, chain := seq(HASH_SIZE, _ => NONE), seq(|input|, _ => NONE);
    EmptyTables(head, chain);
    RebuildsNothing();
    assert input[..0] == [];
    GreedyRebuilds(input, 0, head, chain, Decoded([], [], [], []));
  }

  lemma GreedyEnd(input: bytes, head: seq<nat>, chain: seq<nat>, d: Decoded)
    requires |input| == |chain| && Older(head, chain, |input|)
    ensures Greedy(input, |input|, head, chain, d) == d
  {
  }

  /** `encode_sequence` (src/rans/sequence.rs:384): exactly the greedy parse, and a recipe for the chunk. */
  method EncodeSequence(input: bytes) returns (d: Decoded)
    ensures d == GreedyStreams(input) && Rebuilds(d, input)
  {
    hide Rebuilds, Older, FindMatch, Clip, Greedy, LinkedTo, RunFrom, WithCopies;
    var n := |input|;
    d := Decoded([], [], [], []);
    var head := new nat[HASH_SIZE](_ => NONE);
    var chain := new nat[n](_ => NONE);
    assert Older(head[..], chain[..], 0) by { EmptyTables(head[..], chain[..]); }
    assert head[..] == seq(HASH_SIZE, _ => NONE) && chain[..] == seq(n, _ => NONE);
    var pos: nat := 0;
    while pos < n
      invariant pos <= n && chain.Length == n
      invariant Older(head[..], chain[..], pos)
      invariant Greedy(input, pos, head[..], chain[..], d) == GreedyStreams(input)
    {
      var m: Option<(nat, nat)> := None;
      if pos + MIN_MATCH <= n {
        m := FindMatchIn(input, pos, head, chain);
      }
      if m.Some? {
        GreedyCopy(input, pos, head[..], chain[..], d);
        var (dist, found) := m.value;
        var len := Clip(found);
        d := EmitCopies(dist, len, d);
        RegisterTo(input, pos, pos + len, head, chain);
        pos := pos + len;
      } else {
        GreedyRun(input, pos, head[..], chain[..], d);
        var start := pos;
        pos := LiteralRun(input, start, head, chain);
        d := WithRun(d, input[start..pos]);
      }
    }
    GreedyEnd(input, head[..], chain[..], d);
    StreamsRebuild(input);
  }

  lemma EmptyTables(head: seq<nat>, chain: seq<nat>)
    requires |head| == HASH_SIZE && (forall h :: 0 <= h < |head| ==> head[h] == NONE)
    requires forall p :: 0 <= p < |chain| ==> chain[p] == NONE
    ensures Older(head, chain, 0)
  {
  }
}

/**
 The SEQUENCE_DEEP encoder (src/rans/sequence.rs:792-1010): repcodes, extended
 copies, lazy matching. Its extended copy stores the length in 16 bits, so a copy
 longer than 65603 bytes is written shorter than it was parsed; the streams walk
 back to the chunk exactly when no such copy occurs.
 */
module DeepEncoder {
  import opened Collections
  import opened Bytes
  import opened Checked
  import opened Context
  import opened Streams
  import opened CommandWalk
  import opened WalkLaws
  import opened LzEncoder

  const DEEP_CHAIN_DEPTH: nat := 256
  const MIN_LAZY_GAIN: nat := 8
  const MAX_XCOPY: nat := 68 + 0xFFFF

  // ----- emission -----

  /** What the parse produces: short literal runs and copies of at least four bytes. */
  predicate Parsed(t: Token) {
    match t
    case Lit(run) => 1 <= run <= MAX_LIT_RUN
    case Back(dist, clen) => 0 < dist <= MAX_DIST && clen >= MIN_MATCH
    case Ext(_) => false
  }

  predicate AllParsed(tokens: seq<Token>) {
    forall i :: 0 <= i < |tokens| ==> Parsed(tokens[i])
  }

  /** The two most recent explicit distances. */
  datatype Reps = Reps(r0: nat, r1: nat)

  datatype Form = Rep0 | Rep1 | Short | Long

  /** Which command a copy is written as. */
  function FormOf(dist: nat, len: nat, r: Reps): Form {
    if len <= 35 && r.r0 != 0 && dist == r.r0 then Rep0
    else if len <= 19 && r.r1 != 0 && dist == r.r1 then Rep1
    else if len <= 67 then Short
    else Long
  }

  function Command(t: Token, r: Reps): byte
    requires Parsed(t)
  {
    match t
    case Lit(run) => run - 1
    case Back(dist, len) =>
      match FormOf(dist, len, r)
      case Rep0 => DEEP_REP0_MIN + len - 4
      case Rep1 => DEEP_REP1_MIN + len - 4
      case Short => DEEP_COPY_MIN + len - 4
      case Long => DEEP_XCOPY
  }

  predicate Explicit(t: Token, r: Reps) {
    t.Back? && (FormOf(t.dist, t.clen, r).Short? || FormOf(t.dist, t.clen, r).Long?)
  }

  function Offset(t: Token, r: Reps): bytes
    requires Parsed(t)
  {
    if Explicit(t, r) then ToLe(t.dist, 2) else []
  }

  function Length(t: Token, r: Reps): bytes
    requires Parsed(t)
  {
    if t.Back? && FormOf(t.dist, t.clen, r).Long? then ToLe((t.clen - 68) % 0x1_0000, 2) else []
  }

  function Next(t: Token, r: Reps): Reps {
    if Explicit(t, r) then Reps(t.dist, r.r0) else r
  }

  /** The streams of a token list, written with registers `r`. */
  function Emit(tokens: seq<Token>, r: Reps): (d: (bytes, bytes, bytes))
    requires AllParsed(tokens)
  {
    if tokens == [] then ([], [], [])
    else
      var t := tokens[0];
      var rest := Emit(tokens[1..], Next(t, r));
      ([Command(t, r)] + rest.0, Offset(t, r) + rest.1, Length(t, r) + rest.2)
  }

  function RepsAfter(tokens: seq<Token>, r: Reps): Reps {
    if tokens == [] then r else RepsAfter(tokens[1..], Next(tokens[0], r))
  }

  lemma EmitOne(t: Token, r: Reps)
    requires Parsed(t)
    ensures Emit([], r) == ([], [], []) && AllParsed([t])
    ensures Emit([t], r) == ([] + [Command(t, r)], [] + Offset(t, r), [] + Length(t, r))
    ensures RepsAfter([t], r) == Next(t, r)
  {
    hide Command, Offset, Length, Next, Parsed;
    assert [t][1..] == [] && Emit([], Next(t, r)) == ([], [], []);
    assert [] + Offset(t, r) == Offset(t, r) + [] && [] + Length(t, r) == Length(t, r) + [];
    assert [] + [Command(t, r)] == [Command(t, r)] + [];
  }

  lemma {:induction false} EmitAppend(tokens: seq<Token>, t: Token, r: Reps)
    requires AllParsed(tokens) && Parsed(t)
    ensures AllParsed(tokens + [t])
    ensures RepsAfter(tokens + [t], r) == Next(t, RepsAfter(tokens, r))
    ensures var a, k := Emit(tokens, r), RepsAfter(tokens, r);
            Emit(tokens + [t], r) == (a.0 + [Command(t, k)], a.1 + Offset(t, k), a.2 + Length(t, k))
  {
    hide Command, Offset, Length, Next, Parsed;
    var all := tokens + [t];
    assert forall i :: 0 <= i < |all| ==> all[i] in tokens || all[i] == t;
    if tokens == [] {
      assert all == [t];
      EmitOne(t, r);
    } else {
      assert all[1..] == tokens[1..] + [t] && all[0] == tokens[0];
      EmitAppend(tokens[1..], t, Next(tokens[0], r));
      var h, rest, k := tokens[0], Emit(tokens[1..], Next(tokens[0], r)), RepsAfter(tokens, r);
      assert [Command(h, r)] + (rest.0 + [Command(t, k)]) == ([Command(h, r)] + rest.0) + [Command(t, k)];
      assert Offset(h, r) + (rest.1 + Offset(t, k)) == (Offset(h, r) + rest.1) + Offset(t, k);
      assert Length(h, r) + (rest.2 + Length(t, k)) == (Length(h, r) + rest.2) + Length(t, k);
    }
  }

  // ----- what the streams mean -----

  /** The copy a written command stands for: long lengths lose everything above 16 bits. */
  function Written(t: Token): Token {
    if t.Back? && t.clen > 67 then Back(t.dist, 68 + (t.clen - 68) % 0x1_0000) else t
  }

  function AllWritten(tokens: seq<Token>): (r: seq<Token>)
    ensures |r| == |tokens|
    ensures forall i :: 0 <= i < |r| ==> r[i] == Written(tokens[i])
  {
    seq(|tokens|, i requires 0 <= i < |tokens| => Written(tokens[i]))
  }

  ghost predicate Holds(history: seq<nat>, r: Reps) {
    Rep(history, 0) == r.r0 && Rep(history, 1) == r.r1
  }

  /** One written command is read back as the written token, and the registers stay in step. */
  lemma CommandReads(t: Token, r: Reps, s: Decoded, off: nat, lenp: nat, restOff: bytes, restLen: bytes, history: seq<nat>)
    requires Parsed(t) && Holds(history, r) && off <= |s.offsets| && lenp <= |s.extra|
    requires s.offsets[off..] == Offset(t, r) + restOff && s.extra[lenp..] == Length(t, r) + restLen
    ensures var head := DeepToken(s, Command(t, r), off, lenp, history);
            && head == Script([Written(t)], true)
            && Holds(NextHistory(Command(t, r), head, history), Next(t, r))
    ensures off + |Offset(t, r)| <= |s.offsets| && s.offsets[off + |Offset(t, r)|..] == restOff
    ensures lenp + |Length(t, r)| <= |s.extra| && s.extra[lenp + |Length(t, r)|..] == restLen
    ensures |Offset(t, r)| == (if NewDistance(Command(t, r)) then 2 else 0)
    ensures |Length(t, r)| == (if Extended(Command(t, r)) then 2 else 0)
  {
    hide FromLe, ToLe;
    SliceAt(s.offsets, off, Offset(t, r), restOff);
    SliceAt(s.extra, lenp, Length(t, r), restLen);
    Widths();
    if t.Back? {
      FromToLe(t.dist, 2);
      if t.clen > 67 { FromToLe((t.clen - 68) % 0x1_0000, 2); }
    }
  }

  lemma {:induction false} EmittedExpands(tokens: seq<Token>, r: Reps, s: Decoded, i: nat, off: nat, lenp: nat, history: seq<nat>)
    requires AllParsed(tokens) && Holds(history, r)
    requires i <= |s.commands| && off <= |s.offsets| && lenp <= |s.extra|
    requires s.commands[i..] == Emit(tokens, r).0
    requires s.offsets[off..] == Emit(tokens, r).1 && s.extra[lenp..] == Emit(tokens, r).2
    ensures Expand(s, i, off, lenp, history) == Script(AllWritten(tokens), true)
    decreases |tokens|
  {
    hide Command, Offset, Length, Next, Parsed, DeepToken, NextHistory, Holds;
    if tokens == [] {
      assert s.commands[i..] == [];
    } else {
      var t, rest := tokens[0], Emit(tokens[1..], Next(tokens[0], r));
      CommandReads(t, r, s, off, lenp, rest.1, rest.2, history);
      var cmd := Command(t, r);
      assert s.commands[i] == s.commands[i..][0] == cmd;
      assert s.commands[i + 1..] == s.commands[i..][1..] == rest.0;
      var head := DeepToken(s, cmd, off, lenp, history);
      EmittedExpands(tokens[1..], Next(t, r), s, i + 1, off + |Offset(t, r)|, lenp + |Length(t, r)|,
                     NextHistory(cmd, head, history));
      assert [Written(t)] + AllWritten(tokens[1..]) == AllWritten(tokens);
    }
  }

  // ----- lengths decide -----

  function ByteCount(tokens: seq<Token>): nat {
    if tokens == [] then 0 else TokenLen(tokens[0]) + ByteCount(tokens[1..])
  }

  /** A successful run produces exactly the token lengths. */
  lemma {:induction false} GoodLength(s: Script, literals: bytes, g: Goal, out: bytes, lit: nat)
    requires Run(s, literals, g, out, lit).Good?
    ensures |out| + ByteCount(s.tokens) == g.n
    decreases |s.tokens|
  {
    if s.tokens != [] {
      var t := s.tokens[0];
      GoodLength(s.(tokens := s.tokens[1..]), literals, g, Apply(t, literals, lit, out, g.n),
                 if t.Lit? then lit + t.run else lit);
    }
  }

  /** No copy is too long for its 16-bit length. */
  predicate NoneTooLong(tokens: seq<Token>) {
    forall i :: 0 <= i < |tokens| && tokens[i].Back? ==> tokens[i].clen <= MAX_XCOPY
  }

  lemma {:induction false} WrittenBytes(tokens: seq<Token>)
    ensures ByteCount(AllWritten(tokens)) <= ByteCount(tokens)
    ensures ByteCount(AllWritten(tokens)) == ByteCount(tokens) <==> NoneTooLong(tokens)
    ensures NoneTooLong(tokens) ==> AllWritten(tokens) == tokens
  {
    if tokens != [] {
      WrittenBytes(tokens[1..]);
      assert AllWritten(tokens)[1..] == AllWritten(tokens[1..]);
      assert NoneTooLong(tokens) <==> (tokens[0].Back? ==> tokens[0].clen <= MAX_XCOPY) && NoneTooLong(tokens[1..]);
    }
  }

  /** The streams the encoder writes for a parse of `input`. */
  function StreamsOf(tokens: seq<Token>, literals: bytes): Decoded
    requires AllParsed(tokens)
  {
    var e := Emit(tokens, Reps(0, 0));
    Decoded(e.0, literals, e.1, e.2)
  }

  /** Exactly when the deep streams walk back: no parsed copy exceeds 65603 bytes. */
  lemma DeepExact(tokens: seq<Token>, literals: bytes, input: bytes)
    requires AllParsed(tokens) && Yields(tokens, literals, input)
    ensures WalkDeep(StreamsOf(tokens, literals), |input|).Good? <==> NoneTooLong(tokens)
    ensures NoneTooLong(tokens) ==> WalkDeep(StreamsOf(tokens, literals), |input|) == Good(input, |input|)
  {
    hide Run, Yields, Emit, Expand, ByteCount, AllParsed, NoneTooLong;
    var s, g := StreamsOf(tokens, literals), Goal(|input|, true, InvalidDescriptor);
    assert s.commands[0..] == s.commands && s.offsets[0..] == s.offsets && s.extra[0..] == s.extra;
    EmittedExpands(tokens, Reps(0, 0), s, 0, 0, 0, []);
    YieldsGood(tokens, literals, input, g);
    WrittenBytes(tokens);
    GoodLength(Script(tokens, true), literals, g, [], 0);
    if Run(Script(AllWritten(tokens), true), literals, g, [], 0).Good? {
      GoodLength(Script(AllWritten(tokens), true), literals, g, [], 0);
    }
  }

  // ----- the parse -----

  predicate InReach(r: Reps) {
    r.r0 <= MAX_DIST && r.r1 <= MAX_DIST
  }

  /** A repeated distance that matches; length 0 is none. */
  function RepTry(input: bytes, pos: nat, rep: nat): (r: (nat, nat))
    requires pos <= |input| && rep <= MAX_DIST
    ensures r.1 > 0 ==> Matched(input, pos, r.0, r.1) && r.0 <= MAX_DIST && r.1 >= MIN_MATCH
  {
    if rep == 0 || rep > pos then (0, 0)
    else
      var l := MatchLen(input, pos, rep, 0);
      if l >= MIN_MATCH then (rep, l) else (0, 0)
  }

  /** The deep matcher: repeated distances first, then strictly longer chain matches. */
  function FindDeep(input: bytes, pos: nat, head: seq<nat>, chain: seq<nat>, r: Reps): (m: Option<(nat, nat)>)
    requires pos + MIN_MATCH <= |input| == |chain| && Older(head, chain, pos) && InReach(r)
    ensures m.Some? ==> Matched(input, pos, m.value.0, m.value.1) && m.value.0 <= MAX_DIST && m.value.1 >= MIN_MATCH
  {
    var first := RepTry(input, pos, r.r0);
    var rep := if first.1 > 0 then first else RepTry(input, pos, r.r1);
    var (dist, len) := Search(input, pos, chain, head[HashAt(input, pos)], DEEP_CHAIN_DEPTH, rep.0, rep.1);
    if len >= MIN_MATCH then Some((dist, len)) else None
  }

  lemma OlderLater(head: seq<nat>, chain: seq<nat>, pos: nat, later: nat)
    requires Older(head, chain, pos) && pos <= later
    ensures Older(head, chain, later)
  {
  }

  /** Whether waiting one position finds a match longer by at least the gain. */
  predicate Defers(input: bytes, pos: nat, len: nat, head: seq<nat>, chain: seq<nat>, r: Reps)
    requires pos <= |input| == |chain| && Older(head, chain, pos) && InReach(r)
  {
    && pos + 1 + MIN_MATCH <= |input|
    && (OlderLater(head, chain, pos, pos + 1);
        var m := FindDeep(input, pos + 1, head, chain, r);
        m.Some? && m.value.1 >= len + MIN_LAZY_GAIN)
  }

  predicate HasMatch(input: bytes, pos: nat, head: seq<nat>, chain: seq<nat>, r: Reps)
    requires pos <= |input| == |chain| && Older(head, chain, pos) && InReach(r)
  {
    pos + MIN_MATCH <= |input| && FindDeep(input, pos, head, chain, r).Some?
  }

  /** A literal run begun at `start`, now at `pos`. */
  function RunFrom(input: bytes, start: nat, pos: nat, head: seq<nat>, chain: seq<nat>, r: Reps): (u: Tables)
    requires start <= pos <= |input| == |chain| && pos - start <= MAX_LIT_RUN && Older(head, chain, pos) && InReach(r)
    ensures pos <= u.end <= |input| && u.end - start <= MAX_LIT_RUN
    ensures |u.chain| == |chain| && Older(u.head, u.chain, u.end)
    ensures pos < |input| && pos - start < MAX_LIT_RUN && !HasMatch(input, pos, head, chain, r) ==> pos < u.end
    decreases |input| - pos
  {
    if pos < |input| && pos - start < MAX_LIT_RUN && !HasMatch(input, pos, head, chain, r) then
      var l := Linked(input, pos, head, chain);
      RunFrom(input, start, pos + 1, l.0, l.1, r)
    else Tables(pos, head, chain)
  }

  /** Where the parse stands: position, match tables, registers. */
  datatype Stage = Stage(pos: nat, head: seq<nat>, chain: seq<nat>, reps: Reps)

  predicate Ready(input: bytes, st: Stage) {
    st.pos <= |input| == |st.chain| && Older(st.head, st.chain, st.pos) && InReach(st.reps)
  }

  /** The next token of the greedy parse with lazy deferral. */
  function Choose(input: bytes, st: Stage): (t: Token)
    requires Ready(input, st) && st.pos < |input|
    ensures Parsed(t) && st.pos + TokenLen(t) <= |input|
    ensures t.Back? ==> Matched(input, st.pos, t.dist, t.clen)
  {
    if HasMatch(input, st.pos, st.head, st.chain, st.reps) then
      var (dist, len) := FindDeep(input, st.pos, st.head, st.chain, st.reps).value;
      if Defers(input, st.pos, len, st.head, st.chain, st.reps) then Lit(1) else Back(dist, len)
    else Lit(RunFrom(input, st.pos, st.pos, st.head, st.chain, st.reps).end - st.pos)
  }

  /** The tables and registers after a token. */
  function Advance(input: bytes, st: Stage, t: Token): (r: Stage)
    requires Ready(input, st) && Parsed(t) && st.pos + TokenLen(t) <= |input|
    ensures Ready(input, r) && r.pos == st.pos + TokenLen(t)
  {
    var end := st.pos + TokenLen(t);
    var l := LinkedTo(input, st.pos, end, st.head, st.chain);
    Stage(end, l.0, l.1, Next(t, st.reps))
  }

  /** The whole parse from a stage on. */
  function Parse(input: bytes, st: Stage): (ts: seq<Token>)
    requires Ready(input, st)
    ensures AllParsed(ts)
    decreases |input| - st.pos
  {
    if st.pos == |input| then []
    else
      var t := Choose(input, st);
      [t] + Parse(input, Advance(input, st, t))
  }

  /** A literal run registers exactly the positions it consumes. */
  lemma {:induction false} RunLinks(input: bytes, start: nat, pos: nat, head: seq<nat>, chain: seq<nat>, r: Reps)
    requires start <= pos <= |input| == |chain| && pos - start <= MAX_LIT_RUN && Older(head, chain, pos) && InReach(r)
    ensures var u := RunFrom(input, start, pos, head, chain, r);
            (u.head, u.chain) == LinkedTo(input, pos, u.end, head, chain)
    decreases |input| - pos
  {
    hide Older, HasMatch, Linked;
    if pos < |input| && pos - start < MAX_LIT_RUN && !HasMatch(input, pos, head, chain, r) {
      var l := Linked(input, pos, head, chain);
      RunLinks(input, start, pos + 1, l.0, l.1, r);
    }
  }

  // ----- the streams of a chunk -----

  /** The chunk bytes the literal runs of a parse cover. */
  function LitBytes(tokens: seq<Token>, input: bytes, pos: nat): bytes {
    if tokens == [] then []
    else
      var end := pos + TokenLen(tokens[0]);
      (if tokens[0].Lit? && end <= |input| then input[pos..end] else []) + LitBytes(tokens[1..], input, end)
  }

  function Start(input: bytes): (st: Stage)
    ensures Ready(input, st)
  {
    Stage(0, seq(HASH_SIZE, _ => NONE), seq(|input|, _ => NONE), Reps(0, 0))
  }

  /** What `encode_sequence_deep` returns for a nonempty chunk. */
  function DeepStreams(input: bytes): Decoded {
    var ts := Parse(input, Start(input));
    StreamsOf(ts, LitBytes(ts, input, 0))
  }

  lemma ParseStep(input: bytes, st: Stage)
    requires Ready(input, st)
    ensures st.pos == |input| ==> Parse(input, st) == []
    ensures st.pos < |input| ==>
              Parse(input, st) == [Choose(input, st)] + Parse(input, Advance(input, st, Choose(input, st)))
  {
  }

  lemma LitBytesCons(t: Token, rest: seq<Token>, input: bytes, pos: nat)
    requires pos + TokenLen(t) <= |input|
    ensures LitBytes([t] + rest, input, pos)
         == (if t.Lit? then input[pos..pos + t.run] else []) + LitBytes(rest, input, pos + TokenLen(t))
  {
    assert ([t] + rest)[1..] == rest;
  }

  /** The parse is a recipe for the chunk. */
  lemma {:induction false} ParseYields(input: bytes, st: Stage, done: seq<Token>, lits: bytes)
    requires Ready(input, st) && Yields(done, lits, input[..st.pos])
    ensures Yields(done + Parse(input, st), lits + LitBytes(Parse(input, st), input, st.pos), input)
    decreases |input| - st.pos
  {
    hide Yields, Parse, Choose, Advance, LitBytes, Older, Extension, Matched;
    ParseStep(input, st);
    if st.pos == |input| {
      assert done + [] == done && input[..st.pos] == input;
      assert lits + LitBytes([], input, st.pos) == lits by { LitBytesNone(input, st.pos); }
    } else {
      var t := Choose(input, st);
      var next := Advance(input, st, t);
      var rest := Parse(input, next);
      var piece := if t.Lit? then input[st.pos..next.pos] else [];
      ChooseExtends(input, st, done, lits);
      ParseYields(input, next, done + [t], lits + piece);
      LitBytesCons(t, rest, input, st.pos);
      assert (done + [t]) + rest == done + ([t] + rest);
      assert (lits + piece) + LitBytes(rest, input, next.pos) == lits + (piece + LitBytes(rest, input, next.pos));
    }
  }

  lemma LitBytesNone(input: bytes, pos: nat)
    ensures LitBytes([], input, pos) == []
  {
  }

  lemma ChooseExtends(input: bytes, st: Stage, done: seq<Token>, lits: bytes)
    requires Ready(input, st) && st.pos < |input| && Yields(done, lits, input[..st.pos])
    ensures var t := Choose(input, st);
            var end := st.pos + TokenLen(t);
            Yields(done + [t], lits + (if t.Lit? then input[st.pos..end] else []), input[..end])
  {
    hide Yields, Choose, Extension, Matched;
    var t := Choose(input, st);
    var end := st.pos + TokenLen(t);
    if t.Lit? {
      YieldsLit(done, lits, input[..st.pos], input[st.pos..end]);
      assert input[..st.pos] + input[st.pos..end] == input[..end];
    } else {
      MatchShape(input, st.pos, t.dist, t.clen);
      YieldsBack(done, lits, input[..st.pos], t.dist, t.clen);
      MatchIsExtension(input, st.pos, t.dist, t.clen);
      assert lits + [] == lits;
    }
  }

  /** Copies are shorter than the chunk. */
  lemma {:induction false} ParseShort(input: bytes, st: Stage)
    requires Ready(input, st) && |input| <= MAX_XCOPY + 1
    ensures NoneTooLong(Parse(input, st))
    decreases |input| - st.pos
  {
    hide Choose, Advance;
    if st.pos < |input| {
      ParseShort(input, Advance(input, st, Choose(input, st)));
    }
  }

  /** No copy of the parse is too long for its 16-bit length. */
  predicate CopiesFit(input: bytes) {
    NoneTooLong(Parse(input, Start(input)))
  }

  /**
   The deep encoder is exact if and only if its parse has no copy longer than
   65603 bytes; chunks of at most 65604 bytes never have one.
   */
  lemma DeepRoundTrip(input: bytes)
    ensures WalkDeep(DeepStreams(input), |input|).Good? <==> CopiesFit(input)
    ensures CopiesFit(input) ==> WalkDeep(DeepStreams(input), |input|) == Good(input, |input|)
    ensures |input| <= 65604 ==> CopiesFit(input)
  {
    hide WalkDeep, Parse, Yields, NoneTooLong, LitBytes;
    var st := Start(input);
    assert Yields([], [], input[..0]) by { NothingYet(input); }
    ParseYields(input, st, [], []);
    var ts := Parse(input, st);
    assert [] + ts == ts && [] + LitBytes(ts, input, 0) == LitBytes(ts, input, 0);
    DeepExact(ts, LitBytes(ts, input, 0), input);
    if |input| <= 65604 { ParseShort(input, st); }
  }

  lemma NothingYet(input: bytes)
    ensures Yields([], [], input[..0])
  {
  }

  // ----- the shape of the streams -----

  lemma CommandShape(t: Token, r: Reps)
    requires Parsed(t)
    ensures Command(t, r) <= DEEP_XLIT
    ensures |Offset(t, r)| == (if NewDistance(Command(t, r)) then 2 else 0)
    ensures |Length(t, r)| == (if Extended(Command(t, r)) then 2 else 0)
  {
    hide ToLe;
  }

  lemma {:induction false} EmitShape(tokens: seq<Token>, r: Reps)
    requires AllParsed(tokens)
    ensures var e := Emit(tokens, r);
            && |e.0| == |tokens|
            && (forall i :: 0 <= i < |e.0| ==> e.0[i] <= DEEP_XLIT)
            && |e.1| == NewDistances(e.0) * 2 && |e.2| == ExtendedCount(e.0) * 2
  {
    hide Command, Offset, Length, Next, Parsed, NewDistance, Extended;
    if tokens != [] {
      var t := tokens[0];
      EmitShape(tokens[1..], Next(t, r));
      CommandShape(t, r);
      var e, rest := Emit(tokens, r), Emit(tokens[1..], Next(t, r));
      assert e.0[1..] == rest.0;
    }
  }

  lemma {:induction false} CountsBounded(commands: bytes)
    ensures NewDistances(commands) <= |commands| && ExtendedCount(commands) <= |commands|
  {
    if commands != [] { CountsBounded(commands[1..]); }
  }

  /** At most one command and one literal per byte. */
  lemma {:induction false} ParseSize(input: bytes, st: Stage)
    requires Ready(input, st)
    ensures |Parse(input, st)| <= |input| - st.pos
    ensures |LitBytes(Parse(input, st), input, st.pos)| <= |input| - st.pos
    ensures st.pos < |input| ==> Parse(input, st) != []
    decreases |input| - st.pos
  {
    hide Choose, Advance, Parse, LitBytes, Older;
    ParseStep(input, st);
    if st.pos == |input| {
      LitBytesNone(input, st.pos);
    } else {
      var t := Choose(input, st);
      var next := Advance(input, st, t);
      ParseSize(input, next);
      LitBytesCons(t, Parse(input, next), input, st.pos);
    }
  }

  lemma DeepSize(input: bytes)
    ensures var s := DeepStreams(input);
            && DeepShape(s)
            && |s.commands| <= |input| && |s.literals| <= |input|
            && |s.offsets| <= 2 * |input| && |s.extra| <= 2 * |input|
            && (input != [] ==> s.commands != [])
  {
    hide Parse, Emit, LitBytes, NewDistances, ExtendedCount;
    var ts := Parse(input, Start(input));
    EmitShape(ts, Reps(0, 0));
    ParseSize(input, Start(input));
    CountsBounded(DeepStreams(input).commands);
  }

  // ----- a chunk the encoder gets wrong -----

  lemma {:induction false} ConstantMatch(n: nat, b: byte, pos: nat, l: nat)
    requires 0 < pos && pos + l <= n && Matched(Fill(b, n), pos, 1, l)
    ensures MatchLen(Fill(b, n), pos, 1, l) == n - pos
    decreases n - pos - l
  {
    if pos + l < n { ConstantMatch(n, b, pos, l + 1); }
  }

  /** With nothing registered there is nothing to match. */
  lemma NoMatchAtStart(input: bytes)
    ensures !HasMatch(input, 0, Start(input).head, Start(input).chain, Reps(0, 0))
  {
  }

  /** The stage after the first byte of a constant chunk. */
  lemma ConstantSecond(n: nat, b: byte, r: Reps)
    requires n >= 6 && r == Reps(0, 0) && n < NONE
    ensures var input := Fill(b, n);
            var l := Linked(input, 0, Start(input).head, Start(input).chain);
            FindDeep(input, 1, l.0, l.1, r) == Some((1, n - 1))
  {
    hide FromLe;
    var input := Fill(b, n);
    var l := Linked(input, 0, Start(input).head, Start(input).chain);
    assert input[0..4] == input[1..5];
    ConstantMatch(n, b, 1, 0);
  }

  lemma ConstantRun(n: nat, b: byte)
    requires 6 <= n < NONE
    ensures var st := Start(Fill(b, n));
            RunFrom(Fill(b, n), 0, 0, st.head, st.chain, st.reps).end == 1
  {
    hide FindDeep, Linked, Older;
    var input := Fill(b, n);
    NoMatchAtStart(input);
    ConstantSecond(n, b, Reps(0, 0));
  }

  /** A constant chunk parses as one literal and one copy of everything else. */
  lemma ConstantParse(n: nat, b: byte)
    requires 6 <= n < NONE
    ensures Parse(Fill(b, n), Start(Fill(b, n))) == [Lit(1), Back(1, n - 1)]
  {
    hide Parse, FindDeep, RunFrom, Older, Linked;
    var input := Fill(b, n);
    var st := Start(input);
    NoMatchAtStart(input);
    ConstantRun(n, b);
    ParseStep(input, st);
    assert Choose(input, st) == Lit(1);
    var next := Advance(input, st, Lit(1));
    ConstantSecond(n, b, Reps(0, 0));
    var l := Linked(input, 0, st.head, st.chain);
    assert LinkedTo(input, 1, 1, l.0, l.1) == l;
    ParseStep(input, next);
    assert Choose(input, next) == Back(1, n - 1);
    ParseStep(input, Advance(input, next, Back(1, n - 1)));
    assert [Lit(1)] + ([Back(1, n - 1)] + []) == [Lit(1), Back(1, n - 1)];
  }

  /** 65605 equal bytes are encoded into streams that do not walk back. */
  lemma DeepEncoderFails()
    ensures WalkDeep(DeepStreams(Fill(7, 65605)), 65605).Bad?
  {
    hide WalkDeep, DeepStreams, Parse;
    ConstantParse(65605, 7);
    DeepRoundTrip(Fill(7, 65605));
    var ts := [Lit(1), Back(1, 65604)];
    assert ts[1].clen > MAX_XCOPY;
  }

  // ----- as the source runs it -----

  method TryRep(input: bytes, pos: nat, rep: nat) returns (dist: nat, len: nat)
    requires pos <= |input| && rep <= MAX_DIST
    ensures (dist, len) == RepTry(input, pos, rep)
  {
    if rep == 0 || rep > pos {
      return 0, 0;
    }
    var l := CommonLength(input, pos, rep);
    if l >= MIN_MATCH {
      return rep, l;
    }
    return 0, 0;
  }

  /** `find_match_deep` (src/rans/sequence.rs:941). */
  method FindDeepIn(input: bytes, pos: nat, head: array<nat>, chain: array<nat>, r: Reps) returns (m: Option<(nat, nat)>)
    requires pos + MIN_MATCH <= |input| == chain.Length && Older(head[..], chain[..], pos) && InReach(r)
    ensures m == FindDeep(input, pos, head[..], chain[..], r)
  {
    hide Matched, Links, Search, RepTry;
    var dist, len := TryRep(input, pos, r.r0);
    if len == 0 {
      dist, len := TryRep(input, pos, r.r1);
    }
    var h := HashAt(input, pos);
    assert head[h] == head[..][h];
    dist, len := SearchIn(input, pos, chain, head[h], DEEP_CHAIN_DEPTH, dist, len);
    return if len >= MIN_MATCH then Some((dist, len)) else None;
  }

  lemma RunStepAt(input: bytes, start: nat, pos: nat, head: seq<nat>, chain: seq<nat>, r: Reps)
    requires start <= pos <= |input| == |chain| && pos - start <= MAX_LIT_RUN && Older(head, chain, pos) && InReach(r)
    ensures RunFrom(input, start, pos, head, chain, r)
         == if pos < |input| && pos - start < MAX_LIT_RUN && !HasMatch(input, pos, head, chain, r)
            then RunFrom(input, start, pos + 1, Linked(input, pos, head, chain).0, Linked(input, pos, head, chain).1, r)
            else Tables(pos, head, chain)
  {
    hide Older, HasMatch, Linked;
  }

  method RunOut(input: bytes, start: nat, head: array<nat>, chain: array<nat>, r: Reps) returns (end: nat)
    requires start <= |input| == chain.Length && head != chain && Older(head[..], chain[..], start) && InReach(r)
    modifies head, chain
    ensures Tables(end, head[..], chain[..]) == RunFrom(input, start, start, old(head[..]), old(chain[..]), r)
  {
    hide Older, FindDeep, RunFrom, Linked;
    end := start;
    ghost var goal := RunFrom(input, start, start, head[..], chain[..], r);
    while end < |input| && end - start < MAX_LIT_RUN
      invariant start <= end <= |input| && end - start <= MAX_LIT_RUN && Older(head[..], chain[..], end)
      invariant goal == RunFrom(input, start, end, head[..], chain[..], r)
      decreases |input| - end
    {
      RunStepAt(input, start, end, head[..], chain[..], r);
      if end + MIN_MATCH <= |input| {
        var m := FindDeepIn(input, end, head, chain, r);
        if m.Some? {
          return;
        }
      }
      Register(input, end, head, chain);
      end := end + 1;
    }
    RunStepAt(input, start, end, head[..], chain[..], r);
  }

  /** `push_deep_copy` (src/rans/sequence.rs:899). */
  method PushCopy(d: Decoded, dist: nat, len: nat, r: Reps) returns (e: Decoded, k: Reps)
    requires Parsed(Back(dist, len))
    ensures var t := Back(dist, len);
            && e == Decoded(d.commands + [Command(t, r)], d.literals, d.offsets + Offset(t, r), d.extra + Length(t, r))
            && k == Next(t, r)
  {
    hide ToLe;
    if len <= 35 && r.r0 != 0 && dist == r.r0 {
      return Decoded(d.commands + [DEEP_REP0_MIN + (len - 4)], d.literals, d.offsets + [], d.extra + []), r;
    } else if len <= 19 && r.r1 != 0 && dist == r.r1 {
      return Decoded(d.commands + [DEEP_REP1_MIN + (len - 4)], d.literals, d.offsets + [], d.extra + []), r;
    } else if len <= 67 {
      return Decoded(d.commands + [DEEP_COPY_MIN + (len - 4)], d.literals, d.offsets + ToLe(dist, 2), d.extra + []),
             Reps(dist, r.r0);
    } else {
      var extra := (len - 68) % 0x1_0000;
      return Decoded(d.commands + [DEEP_XCOPY], d.literals, d.offsets + ToLe(dist, 2), d.extra + ToLe(extra, 2)),
             Reps(dist, r.r0);
    }
  }

  /** `Choose` with its search results: what the loop body decides on. */
  method Decide(input: bytes, pos: nat, head: array<nat>, chain: array<nat>, r: Reps) returns (m: Option<(nat, nat)>, lazy: bool)
    requires pos < |input| == chain.Length && Older(head[..], chain[..], pos) && InReach(r)
    ensures m.Some? <==> HasMatch(input, pos, head[..], chain[..], r)
    ensures m.Some? ==> m == FindDeep(input, pos, head[..], chain[..], r)
    ensures m.Some? ==> lazy == Defers(input, pos, m.value.1, head[..], chain[..], r)
  {
    hide Older, FindDeep;
    m, lazy := None, false;
    if pos + MIN_MATCH <= |input| {
      m := FindDeepIn(input, pos, head, chain, r);
    }
    if m.Some? && pos + 1 + MIN_MATCH <= |input| {
      OlderLater(head[..], chain[..], pos, pos + 1);
      var ahead := FindDeepIn(input, pos + 1, head, chain, r);
      lazy := ahead.Some? && ahead.value.1 >= m.value.1 + MIN_LAZY_GAIN;
    }
  }

  /** One round of the loop: the chosen token, and the tables registered past it. */
  method NextToken(input: bytes, pos: nat, head: array<nat>, chain: array<nat>, r: Reps) returns (t: Token)
    requires pos < |input| == chain.Length && head != chain && Older(head[..], chain[..], pos) && InReach(r)
    modifies head, chain
    ensures t == Choose(input, Stage(pos, old(head[..]), old(chain[..]), r))
    ensures Stage(pos + TokenLen(t), head[..], chain[..], Next(t, r))
         == Advance(input, Stage(pos, old(head[..]), old(chain[..]), r), t)
  {
    hide Older, FindDeep, LinkedTo, RunFrom, Matched;
    ghost var h, c := head[..], chain[..];
    ghost var st := Stage(pos, h, c, r);
    var m, lazy := Decide(input, pos, head, chain, r);
    if m.Some? {
      t := if lazy then Lit(1) else Back(m.value.0, m.value.1);
      assert t == Choose(input, st);
      RegisterTo(input, pos, pos + TokenLen(t), head, chain);
    } else {
      var end := RunOut(input, pos, head, chain, r);
      RunLinks(input, pos, pos, h, c, r);
      t := Lit(end - pos);
    }
  }

  lemma ByteCountCons(t: Token, rest: seq<Token>)
    ensures ByteCount([t] + rest) == TokenLen(t) + ByteCount(rest) && ByteCount([]) == 0
  {
    assert ([t] + rest)[1..] == rest;
  }

  lemma {:induction false} LitBytesAppend(tokens: seq<Token>, t: Token, input: bytes, pos: nat)
    requires pos + ByteCount(tokens) + TokenLen(t) <= |input|
    ensures LitBytes(tokens + [t], input, pos)
         == LitBytes(tokens, input, pos)
            + (var a := pos + ByteCount(tokens); if t.Lit? then input[a..a + t.run] else [])
    ensures ByteCount(tokens + [t]) == ByteCount(tokens) + TokenLen(t)
    decreases |tokens|
  {
    hide LitBytes, ByteCount;
    if tokens == [] {
      ByteCountCons(t, []);
      LitBytesCons(t, [], input, pos);
      LitBytesNone(input, pos);
      LitBytesNone(input, pos + TokenLen(t));
      assert [t] + [] == [t] && tokens + [t] == [t];
    } else {
      var h, rest := tokens[0], tokens[1..];
      assert [h] + rest == tokens && [h] + (rest + [t]) == tokens + [t];
      ByteCountCons(h, rest);
      ByteCountCons(h, rest + [t]);
      LitBytesCons(h, rest, input, pos);
      LitBytesCons(h, rest + [t], input, pos);
      LitBytesAppend(rest, t, input, pos + TokenLen(h));
    }
  }

  /** `encode_sequence_deep` (src/rans/sequence.rs:792). */
  method EncodeDeep(input: bytes) returns (r: Option<Decoded>)
    ensures r == if input == [] then None else Some(DeepStreams(input))
  {
    hide Older, Parse, Choose, Advance, Emit, LitBytes, ByteCount, RepsAfter, Command, Offset, Length, Next;
    if input == [] {
      return None;
    }
    var n := |input|;
    var head := new nat[HASH_SIZE](_ => NONE);
    var chain := new nat[n](_ => NONE);
    assert head[..] == Start(input).head && chain[..] == Start(input).chain;
    var d := Decoded([], [], [], []);
    var reps := Reps(0, 0);
    var pos: nat := 0;
    ghost var ts: seq<Token> := [];
    EmptyEmission(input);
    assert ts + Parse(input, Start(input)) == Parse(input, Start(input));
    while pos < n
      invariant pos <= n && pos == ByteCount(ts) && Ready(input, Stage(pos, head[..], chain[..], reps))
      invariant ts + Parse(input, Stage(pos, head[..], chain[..], reps)) == Parse(input, Start(input))
      invariant AllParsed(ts) && reps == RepsAfter(ts, Reps(0, 0))
      invariant d == StreamsOf(ts, LitBytes(ts, input, 0))
      decreases n - pos
    {
      ghost var st := Stage(pos, head[..], chain[..], reps);
      ParseStep(input, st);
      var t := NextToken(input, pos, head, chain, reps);
      EmitAppend(ts, t, Reps(0, 0));
      LitBytesAppend(ts, t, input, 0);
      ghost var rest := Parse(input, Advance(input, st, t));
      assert ts + ([t] + rest) == (ts + [t]) + rest;
      if t.Lit? {
        LiteralEmission(t, reps);
        d := Decoded(d.commands + [t.run - 1], d.literals + input[pos..pos + t.run], d.offsets + [], d.extra + []);
      } else {
        d, reps := PushCopy(d, t.dist, t.clen, reps);
        d := d.(literals := d.literals + []);
      }
      pos := pos + TokenLen(t);
      ts := ts + [t];
    }
    ParseStep(input, Stage(pos, head[..], chain[..], reps));
    assert ts + [] == ts;
    return Some(d);
  }

  lemma EmptyEmission(input: bytes)
    ensures Emit([], Reps(0, 0)) == ([], [], []) && RepsAfter([], Reps(0, 0)) == Reps(0, 0)
    ensures LitBytes([], input, 0) == [] && ByteCount([]) == 0
  {
  }

  lemma LiteralEmission(t: Token, r: Reps)
    requires t.Lit? && Parsed(t)
    ensures Command(t, r) == t.run - 1 && Offset(t, r) == [] && Length(t, r) == [] && Next(t, r) == r
  {
  }
}

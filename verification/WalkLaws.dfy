/**
 How the command families relate (src/core/materialize.rs): a dictionary walk
 that never names the dictionary is the plain walk, a shared-dictionary walk
 that never names the shared dictionary is the dictionary walk, and a deep
 stream means what it means with its repcodes spelled out.
 */
module WalkLaws {
  import Nonlinear
  import opened Bytes
  import opened Context
  import opened Streams
  import opened CommandWalk

  // ----- the copy-source families -----

  predicate OnlyLocal(sources: bytes) {
    forall i :: 0 <= i < |sources| ==> sources[i] == SRC_LOCAL
  }

  predicate NoShared(sources: bytes) {
    forall i :: 0 <= i < |sources| ==> sources[i] != SRC_SHARED
  }

  lemma CopiesStep(commands: bytes, i: nat)
    requires i < |commands|
    ensures Copies(commands[i..]) == (if commands[i] >= 0x80 then 1 else 0) + Copies(commands[i + 1..])
  {
    assert commands[i..][1..] == commands[i + 1..];
  }

  lemma {:induction false} LocalTokens(dict: bytes, d: Decoded, i: nat, off: nat, src: nat)
    requires i <= |d.commands| && OnlyLocal(d.extra) && src + Copies(d.commands[i..]) <= |d.extra|
    ensures Tokens(WithDict(dict), d, i, off, src) == Tokens(Local, d, i, off, 0)
    decreases |d.commands| - i
  {
    if i < |d.commands| {
      var cmd := d.commands[i];
      CopiesStep(d.commands, i);
      LocalTokens(dict, d, i + 1, NextOff(Local, cmd, off), NextSrc(WithDict(dict), cmd, src));
    }
  }

  /** SEQUENCE_DICT with only LOCAL sources is SEQUENCE_RANS: same bytes, same cost, same failure. */
  lemma LocalDictIsRans(dict: bytes, d: Decoded, n: nat)
    requires OnlyLocal(d.extra) && |d.extra| == Copies(d.commands)
    ensures Walk(WithDict(dict), d, n) == Walk(Local, d, n)
  {
    assert d.commands[0..] == d.commands;
    LocalTokens(dict, d, 0, 0, 0);
  }

  lemma {:induction false} UnsharedTokens(dict: bytes, shared: bytes, d: Decoded, i: nat, off: nat, src: nat)
    requires i <= |d.commands| && NoShared(d.extra)
    ensures Tokens(WithShared(dict, shared), d, i, off, src) == Tokens(WithDict(dict), d, i, off, src)
    decreases |d.commands| - i
  {
    if i < |d.commands| {
      var cmd, m := d.commands[i], WithDict(dict);
      UnsharedTokens(dict, shared, d, i + 1, NextOff(m, cmd, off), NextSrc(m, cmd, src));
    }
  }

  /** SEQUENCE_SHARED_DICT without SHARED sources is SEQUENCE_DICT, also when the file dictionary is absent. */
  lemma UnsharedIsDict(dict: bytes, shared: bytes, d: Decoded, n: nat)
    requires NoShared(d.extra)
    ensures Walk(WithShared(dict, shared), d, n) == Walk(WithDict(dict), d, n)
  {
    UnsharedTokens(dict, shared, d, 0, 0, 0);
  }

  // ----- repcodes -----

  predicate IsRep(cmd: byte) {
    DEEP_REP0_MIN <= cmd <= DEEP_REP1_MAX
  }

  /** The register a repcode reads: how many distances back. */
  function RepBack(cmd: byte): nat {
    if cmd <= DEEP_REP0_MAX then 0 else 1
  }

  function RepLen(cmd: byte): (n: nat)
    requires IsRep(cmd)
    ensures 4 <= n <= 35
  {
    if cmd <= DEEP_REP0_MAX then 4 + cmd - DEEP_REP0_MIN else 4 + cmd - DEEP_REP1_MIN
  }

  lemma RunZeroDistance(clen: nat, rest: Script, literals: bytes, g: Goal, out: bytes, lit: nat)
    ensures Run(Script([Back(0, clen)] + rest.tokens, rest.complete), literals, g, out, lit).Bad?
  {
    RunStep(Back(0, clen), rest, literals, g, out, lit);
  }

  /** If the tokens after the first cannot succeed, neither can the whole script. */
  lemma RunBadTail(head: Script, rest: Script, literals: bytes, g: Goal, out: bytes, lit: nat)
    requires |head.tokens| <= 1 && (!head.complete ==> head.tokens == [])
    requires forall out', lit' :: Run(rest, literals, g, out', lit').Bad?
    ensures Run(Prepend(head, rest), literals, g, out, lit).Bad?
  {
    if head.complete && |head.tokens| == 1 {
      assert head.tokens == [head.tokens[0]];
      RunStep(head.tokens[0], rest, literals, g, out, lit);
    } else if head.complete {
      assert head.tokens + rest.tokens == rest.tokens;
    }
  }

  lemma DistancesStep(commands: bytes, i: nat, k: nat)
    requires i < k <= |commands|
    ensures NewDistances(commands[i..k]) == (if NewDistance(commands[i]) then 1 else 0) + NewDistances(commands[i + 1..k])
  {
    assert commands[i..k][1..] == commands[i + 1..k];
  }

  lemma {:induction false} UnsetTail(d: Decoded, i: nat, off: nat, lenp: nat, history: seq<nat>, k: nat, g: Goal)
    requires i <= k < |d.commands| && IsRep(d.commands[k])
    requires |history| + NewDistances(d.commands[i..k]) <= RepBack(d.commands[k])
    ensures forall out, lit :: Run(Expand(d, i, off, lenp, history), d.literals, g, out, lit).Bad?
    decreases k - i
  {
    hide Run, NewDistances;
    var cmd := d.commands[i];
    var head := DeepToken(d, cmd, off, lenp, history);
    var off' := if NewDistance(cmd) then off + 2 else off;
    var lenp' := if Extended(cmd) then lenp + 2 else lenp;
    var rest := Expand(d, i + 1, off', lenp', NextHistory(cmd, head, history));
    DeepTokenShape(d, cmd, off, lenp, history);
    if i == k {
      forall out: bytes, lit: nat ensures Run(Expand(d, i, off, lenp, history), d.literals, g, out, lit).Bad? {
        RunZeroDistance(RepLen(cmd), rest, d.literals, g, out, lit);
      }
    } else {
      DistancesStep(d.commands, i, k);
      UnsetTail(d, i + 1, off', lenp', NextHistory(cmd, head, history), k, g);
      forall out: bytes, lit: nat ensures Run(Expand(d, i, off, lenp, history), d.literals, g, out, lit).Bad? {
        RunBadTail(head, rest, d.literals, g, out, lit);
      }
    }
  }

  /** A repcode whose register no earlier copy has set always fails the walk. */
  lemma UnsetRepcodeFails(d: Decoded, k: nat, n: nat)
    requires k < |d.commands| && IsRep(d.commands[k])
    requires NewDistances(d.commands[..k]) <= RepBack(d.commands[k])
    ensures WalkDeep(d, n) == Bad(InvalidDescriptor, WalkDeep(d, n).cost)
  {
    hide Run, Expand;
    UnsetTail(d, 0, 0, 0, [], k, Goal(n, true, InvalidDescriptor));
  }

  // ----- spelling repcodes out -----

  /** A repcode as the explicit copy of the same length. */
  function SpellCommand(cmd: byte): (c: byte)
    ensures !IsRep(c)
  {
    if IsRep(cmd) then DEEP_COPY_MIN + RepLen(cmd) - 4 else cmd
  }

  function SpellCommands(commands: bytes): (r: bytes)
    ensures |r| == |commands|
  {
    seq(|commands|, i requires 0 <= i < |commands| => SpellCommand(commands[i]))
  }

  /** The offset bytes a command consumes once it is spelled out. */
  function SpellOffset(d: Decoded, cmd: byte, off: nat, history: seq<nat>): bytes {
    if IsRep(cmd) then ToLe(Rep(history, RepBack(cmd)), 2)
    else if NewDistance(cmd) && off + 2 <= |d.offsets| then d.offsets[off..off + 2]
    else []
  }

  function SpellOffsets(d: Decoded, i: nat, off: nat, lenp: nat, history: seq<nat>): bytes
    requires i <= |d.commands|
    decreases |d.commands| - i
  {
    if i == |d.commands| then []
    else
      var cmd := d.commands[i];
      var head := DeepToken(d, cmd, off, lenp, history);
      if !head.complete then []
      else
        var rest := SpellOffsets(d, i + 1, if NewDistance(cmd) then off + 2 else off,
                                 if Extended(cmd) then lenp + 2 else lenp, NextHistory(cmd, head, history));
        SpellOffset(d, cmd, off, history) + rest
  }

  /** The stream with every repcode replaced by an explicit copy. */
  function Spell(d: Decoded): Decoded {
    Decoded(SpellCommands(d.commands), d.literals, SpellOffsets(d, 0, 0, 0, []), d.extra)
  }

  predicate Words(history: seq<nat>) {
    forall i :: 0 <= i < |history| ==> history[i] < 0x1_0000
  }

  lemma WordsKept(d: Decoded, cmd: byte, off: nat, lenp: nat, history: seq<nat>)
    requires Words(history)
    ensures Words(NextHistory(cmd, DeepToken(d, cmd, off, lenp, history), history))
  {
    Widths();
  }

  /** One command and its spelled-out form stand for the same token. */
  lemma SpellToken(d: Decoded, i: nat, off: nat, lenp: nat, history: seq<nat>, s: Decoded, at: nat, other: seq<nat>)
    requires i < |d.commands| && s.extra == d.extra && Words(history)
    requires at <= |s.offsets| && s.offsets[at..] == SpellOffsets(d, i, off, lenp, history)
    ensures var cmd := d.commands[i];
            var head := DeepToken(d, cmd, off, lenp, history);
            && DeepToken(s, SpellCommand(cmd), at, lenp, other) == head
            && (head.complete ==> at + |SpellOffset(d, cmd, off, history)| <= |s.offsets|
                                  && |SpellOffset(d, cmd, off, history)| == if NewDistance(SpellCommand(cmd)) then 2 else 0)
  {
    var cmd := d.commands[i];
    var piece := SpellOffset(d, cmd, off, history);
    if DeepToken(d, cmd, off, lenp, history).complete {
      assert s.offsets[at..][..|piece|] == piece;
      if NewDistance(SpellCommand(cmd)) {
        assert |piece| == 2 && s.offsets[at..at + 2] == piece;
        if IsRep(cmd) {
          Widths();
          FromToLe(Rep(history, RepBack(cmd)), 2);
        }
      }
    }
  }

  lemma {:induction false} SpellExpand(d: Decoded, i: nat, off: nat, lenp: nat, history: seq<nat>, s: Decoded, at: nat, other: seq<nat>)
    requires i <= |d.commands| && s.extra == d.extra && s.commands == SpellCommands(d.commands) && Words(history)
    requires at <= |s.offsets| && s.offsets[at..] == SpellOffsets(d, i, off, lenp, history)
    ensures Expand(s, i, at, lenp, other) == Expand(d, i, off, lenp, history)
    decreases |d.commands| - i
  {
    hide DeepToken, SpellOffset;
    if i < |d.commands| {
      var cmd := d.commands[i];
      var head := DeepToken(d, cmd, off, lenp, history);
      var piece := SpellOffset(d, cmd, off, history);
      SpellToken(d, i, off, lenp, history, s, at, other);
      WordsKept(d, cmd, off, lenp, history);
      if head.complete {
        assert s.offsets[at..][|piece|..] == s.offsets[at + |piece|..];
        SpellExpand(d, i + 1, if NewDistance(cmd) then off + 2 else off, if Extended(cmd) then lenp + 2 else lenp,
                    NextHistory(cmd, head, history), s, at + |piece|,
                    NextHistory(SpellCommand(cmd), head, other));
      }
    }
  }

  /** Repcode elimination: the spelled-out stream has no repcodes and walks exactly like the original. */
  lemma RepcodesEliminated(d: Decoded, n: nat)
    ensures forall i :: 0 <= i < |Spell(d).commands| ==> !IsRep(Spell(d).commands[i])
    ensures |Spell(d).commands| == |d.commands|
    ensures WalkDeep(Spell(d), n) == WalkDeep(d, n)
  {
    hide Expand, Run, SpellOffsets;
    assert Spell(d).offsets[0..] == Spell(d).offsets;
    SpellExpand(d, 0, 0, 0, [], Spell(d), 0, []);
  }

  // ----- a deep stream as a plain stream -----

  /** Same success and, on success, same bytes and cost. */
  predicate Agree(a: Attempt, b: Attempt) {
    a.Good? == b.Good? && (a.Good? ==> a == b)
  }

  /** Literal runs of at most 128 bytes. */
  function SplitRun(run: nat): seq<Token> {
    if run <= 128 then [Lit(run)] else [Lit(128)] + SplitRun(run - 128)
  }

  /** Copies of at most 131 bytes, none shorter than 4. */
  function SplitCopy(dist: nat, clen: nat): seq<Token> {
    if clen <= 131 then [Back(dist, clen)]
    else
      var first := if clen >= 135 then 131 else clen - 4;
      [Back(dist, first)] + SplitCopy(dist, clen - first)
  }

  function PlainToken(t: Token): seq<Token> {
    match t
    case Lit(run) => SplitRun(run)
    case Back(dist, clen) => SplitCopy(dist, clen)
    case Ext(_) => [t]
  }

  function PlainTokens(tokens: seq<Token>): seq<Token> {
    if tokens == [] then [] else PlainToken(tokens[0]) + PlainTokens(tokens[1..])
  }

  /** The periodic extension can be laid down in two pieces. */
  lemma ExtensionSplits(out: bytes, dist: nat, a: nat, b: nat)
    requires 0 < dist <= |out|
    ensures Extension(out, dist, a + b) == Extension(out, dist, a) + Extension(out + Extension(out, dist, a), dist, b)
  {
    var mid := out + Extension(out, dist, a);
    forall j: nat | j < b ensures ExtensionAt(mid, dist, j) == ExtensionAt(out, dist, a + j) {
      ExtensionContinues(out, dist, a, j);
    }
    assert Extension(out, dist, a + b)[..a] == Extension(out, dist, a);
    forall j: nat | j < b ensures Extension(out, dist, a + b)[a + j] == Extension(mid, dist, b)[j] {
    }
    assert Extension(out, dist, a + b)[a..] == Extension(mid, dist, b);
  }

  /** Position `|out| + x` of the extended output holds the byte `x` steps into the extension, for `x >= -dist`. */
  lemma ExtensionContinues(out: bytes, dist: nat, a: nat, j: nat)
    requires 0 < dist <= |out|
    ensures ExtensionAt(out + Extension(out, dist, a), dist, j) == ExtensionAt(out, dist, a + j)
  {
    var mid := out + Extension(out, dist, a);
    var m := j % dist;
    Nonlinear.DivMod(j, dist);
    Nonlinear.DivMod(a + m, dist);
    SameResidue(a + m, a + j, dist, j / dist);
    if a + m < dist {
      Nonlinear.ModUnique(a + m, dist, 0, a + m);
      assert mid[|mid| - dist + m] == out[|out| - dist + (a + m)];
    } else {
      assert mid[|mid| - dist + m] == Extension(out, dist, a)[a - dist + m];
      ModShift(a + m, dist);
    }
  }

  lemma SameResidue(x: nat, y: nat, dist: nat, q: nat)
    requires dist > 0 && y == x + dist * q
    ensures x % dist == y % dist
  {
    Nonlinear.DivMod(x, dist);
    Nonlinear.MulAdd(dist, x / dist, q);
    Nonlinear.ModUnique(y, dist, x / dist + q, x % dist);
  }

  lemma SplitStep(first: Token, second: Token, whole: Token, rest: Script, literals: bytes, g: Goal, out: bytes, lit: nat)
    requires (first.Lit? && second.Lit? && whole == Lit(first.run + second.run))
          || (first.Back? && second.Back? && second.dist == first.dist && whole == Back(first.dist, first.clen + second.clen))
    requires first.Back? ==> first.clen > 0
    ensures var two := Script([first] + ([second] + rest.tokens), rest.complete);
            var one := Script([whole] + rest.tokens, rest.complete);
            Agree(Run(two, literals, g, out, lit), Run(one, literals, g, out, lit))
  {
    hide Run;
    var tail := Script([second] + rest.tokens, rest.complete);
    RunStep(first, tail, literals, g, out, lit);
    RunStep(whole, rest, literals, g, out, lit);
    if Applies(first, literals, lit, |out|, g.n) {
      var mid := Apply(first, literals, lit, out, g.n);
      var lit' := if first.Lit? then lit + first.run else lit;
      RunStep(second, rest, literals, g, mid, lit');
      if Applies(whole, literals, lit, |out|, g.n) {
        if first.Back? {
          ExtensionSplits(out, first.dist, first.clen, second.clen);
          assert Apply(second, literals, lit', mid, g.n) == Apply(whole, literals, lit, out, g.n);
        } else {
          assert Apply(second, literals, lit', mid, g.n) == Apply(whole, literals, lit, out, g.n);
        }
      }
    }
  }

  lemma {:induction false} SplitRunAgrees(run: nat, rest: Script, literals: bytes, g: Goal, out: bytes, lit: nat)
    ensures Agree(Run(Script(SplitRun(run) + rest.tokens, rest.complete), literals, g, out, lit),
                  Run(Script([Lit(run)] + rest.tokens, rest.complete), literals, g, out, lit))
  {
    hide Run;
    if run > 128 {
      var tail := Script(SplitRun(run - 128) + rest.tokens, rest.complete);
      SplitStep(Lit(128), Lit(run - 128), Lit(run), rest, literals, g, out, lit);
      assert SplitRun(run) + rest.tokens == [Lit(128)] + tail.tokens;
      RunStep(Lit(128), tail, literals, g, out, lit);
      RunStep(Lit(128), Script([Lit(run - 128)] + rest.tokens, rest.complete), literals, g, out, lit);
      if Applies(Lit(128), literals, lit, |out|, g.n) {
        SplitRunAgrees(run - 128, rest, literals, g, Apply(Lit(128), literals, lit, out, g.n), lit + 128);
      }
    }
  }

  function FirstPart(clen: nat): (n: nat)
    requires clen > 131
    ensures 0 < n < clen
  {
    if clen >= 135 then 131 else clen - 4
  }

  lemma SplitCopyStep(dist: nat, clen: nat)
    requires clen > 131
    ensures SplitCopy(dist, clen) == [Back(dist, FirstPart(clen))] + SplitCopy(dist, clen - FirstPart(clen))
  {
  }

  lemma {:induction false} SplitCopyAgrees(dist: nat, clen: nat, rest: Script, literals: bytes, g: Goal, out: bytes, lit: nat)
    ensures Agree(Run(Script(SplitCopy(dist, clen) + rest.tokens, rest.complete), literals, g, out, lit),
                  Run(Script([Back(dist, clen)] + rest.tokens, rest.complete), literals, g, out, lit))
    decreases clen
  {
    hide Run;
    if clen > 131 {
      hide SplitCopy, FirstPart, Apply, Applies;
      var first := FirstPart(clen);
      var head, more := Back(dist, first), clen - first;
      var tail := Script(SplitCopy(dist, more) + rest.tokens, rest.complete);
      SplitCopyStep(dist, clen);
      SplitStep(head, Back(dist, more), Back(dist, clen), rest, literals, g, out, lit);
      assert SplitCopy(dist, clen) + rest.tokens == [head] + tail.tokens;
      RunStep(head, tail, literals, g, out, lit);
      RunStep(head, Script([Back(dist, more)] + rest.tokens, rest.complete), literals, g, out, lit);
      if Applies(head, literals, lit, |out|, g.n) {
        SplitCopyAgrees(dist, more, rest, literals, g, Apply(head, literals, lit, out, g.n), lit);
      }
    }
  }

  /** Splitting long runs and copies changes neither success nor bytes. */
  lemma {:induction false} PlainAgrees(s: Script, literals: bytes, g: Goal, out: bytes, lit: nat)
    ensures Agree(Run(Script(PlainTokens(s.tokens), s.complete), literals, g, out, lit), Run(s, literals, g, out, lit))
    decreases |s.tokens|
  {
    hide Run, SplitRun, SplitCopy;
    if s.tokens != [] {
      var t, rest := s.tokens[0], Script(s.tokens[1..], s.complete);
      var plain := Script(PlainTokens(rest.tokens), s.complete);
      match t {
        case Lit(run) => SplitRunAgrees(run, plain, literals, g, out, lit);
        case Back(dist, clen) => SplitCopyAgrees(dist, clen, plain, literals, g, out, lit);
        case Ext(_) =>
      }
      assert s == Script([t] + rest.tokens, rest.complete);
      RunStep(t, plain, literals, g, out, lit);
      RunStep(t, rest, literals, g, out, lit);
      if Applies(t, literals, lit, |out|, g.n) {
        PlainAgrees(rest, literals, g, Apply(t, literals, lit, out, g.n), if t.Lit? then lit + t.run else lit);
      }
    } else {
      assert s == Script([], s.complete);
    }
  }

  // ----- writing plain tokens as a command stream -----

  predicate Short(t: Token) {
    match t
    case Lit(run) => 1 <= run <= 128
    case Back(dist, clen) => dist < 0x1_0000 && 4 <= clen <= 131
    case Ext(_) => false
  }

  predicate AllShort(tokens: seq<Token>) {
    forall i :: 0 <= i < |tokens| ==> Short(tokens[i])
  }

  /** What a deep command can produce. */
  predicate Sane(t: Token) {
    match t
    case Lit(run) => 1 <= run
    case Back(dist, clen) => dist < 0x1_0000 && 4 <= clen
    case Ext(_) => false
  }

  predicate AllSane(tokens: seq<Token>) {
    forall i :: 0 <= i < |tokens| ==> Sane(tokens[i])
  }

  lemma {:induction false} SplitRunShort(run: nat)
    requires run >= 1
    ensures AllShort(SplitRun(run))
  {
    if run > 128 { SplitRunShort(run - 128); }
  }

  lemma {:induction false} SplitCopyShort(dist: nat, clen: nat)
    requires dist < 0x1_0000 && clen >= 4
    ensures AllShort(SplitCopy(dist, clen))
    decreases clen
  {
    if clen > 131 { SplitCopyShort(dist, clen - (if clen >= 135 then 131 else clen - 4)); }
  }

  lemma {:induction false} PlainShort(tokens: seq<Token>)
    requires AllSane(tokens)
    ensures AllShort(PlainTokens(tokens))
  {
    hide SplitRun, SplitCopy;
    if tokens != [] {
      PlainShort(tokens[1..]);
      match tokens[0]
      case Lit(run) => SplitRunShort(run);
      case Back(dist, clen) => SplitCopyShort(dist, clen);
    }
  }

  lemma {:induction false} ExpandSane(d: Decoded, i: nat, off: nat, lenp: nat, history: seq<nat>)
    requires i <= |d.commands| && Words(history)
    ensures AllSane(Expand(d, i, off, lenp, history).tokens)
    decreases |d.commands| - i
  {
    if i < |d.commands| {
      var cmd := d.commands[i];
      Widths();
      WordsKept(d, cmd, off, lenp, history);
      ExpandSane(d, i + 1, if NewDistance(cmd) then off + 2 else off, if Extended(cmd) then lenp + 2 else lenp,
                 NextHistory(cmd, DeepToken(d, cmd, off, lenp, history), history));
    }
  }

  function PlainCommand(t: Token): byte
    requires Short(t)
  {
    match t
    case Lit(run) => run - 1
    case Back(_, clen) => 0x80 + clen - 4
  }

  function PlainOffset(t: Token): bytes
    requires Short(t)
  {
    match t
    case Lit(_) => []
    case Back(dist, _) => ToLe(dist, 2)
  }

  function PlainCommands(tokens: seq<Token>): (r: bytes)
    requires AllShort(tokens)
    ensures |r| == |tokens|
  {
    if tokens == [] then [] else [PlainCommand(tokens[0])] + PlainCommands(tokens[1..])
  }

  function PlainOffsets(tokens: seq<Token>): bytes
    requires AllShort(tokens)
  {
    if tokens == [] then [] else PlainOffset(tokens[0]) + PlainOffsets(tokens[1..])
  }

  lemma PlainCommandRead(s: Decoded, off: nat, t: Token, rest: bytes)
    requires Short(t) && off <= |s.offsets| && s.offsets[off..] == PlainOffset(t) + rest
    ensures CommandToken(Local, s, PlainCommand(t), off, 0) == Script([t], true)
    ensures NextOff(Local, PlainCommand(t), off) == off + |PlainOffset(t)| <= |s.offsets|
    ensures s.offsets[off + |PlainOffset(t)|..] == rest
  {
    var piece := PlainOffset(t);
    assert s.offsets[off + |piece|..] == s.offsets[off..][|piece|..] == rest;
    if t.Back? {
      Widths();
      FromToLe(t.dist, 2);
      assert s.offsets[off..off + 2] == s.offsets[off..][..2] == piece;
    }
  }

  /** Reading the written commands back gives the tokens; a dangling copy marks an incomplete script. */
  lemma {:induction false} PlainTokensRead(s: Decoded, i: nat, off: nat, tokens: seq<Token>, tail: bytes)
    requires AllShort(tokens) && i <= |s.commands| && off <= |s.offsets| && tail in {[], [0x80]}
    requires s.commands[i..] == PlainCommands(tokens) + tail
    requires s.offsets[off..] == PlainOffsets(tokens)
    ensures Tokens(Local, s, i, off, 0) == Script(tokens, tail == [])
    decreases |tokens|
  {
    hide CommandToken, PlainCommand, PlainOffset, Short;
    if tokens == [] {
      if tail != [] {
        assert s.commands[i] == s.commands[i..][0] == 0x80;
        assert CommandToken(Local, s, 0x80, off, 0) == Script([], false) by { Dangling(s, off); }
      }
    } else {
      var t, rest := tokens[0], tokens[1..];
      assert s.commands[i] == s.commands[i..][0] == PlainCommand(t);
      assert s.commands[i + 1..] == s.commands[i..][1..] == PlainCommands(rest) + tail;
      PlainCommandRead(s, off, t, PlainOffsets(rest));
      PlainTokensRead(s, i + 1, off + |PlainOffset(t)|, rest, tail);
      assert [t] + rest == tokens;
    }
  }

  lemma Dangling(s: Decoded, off: nat)
    requires off == |s.offsets|
    ensures CommandToken(Local, s, 0x80, off, 0) == Script([], false)
  {
  }

  /** The SEQUENCE_RANS stream of a SEQUENCE_DEEP stream. */
  function Plain(d: Decoded): Decoded {
    var s := Expand(d, 0, 0, 0, []);
    ExpandSane(d, 0, 0, 0, []);
    PlainShort(s.tokens);
    var tokens := PlainTokens(s.tokens);
    Decoded(PlainCommands(tokens) + (if s.complete then [] else [0x80]), d.literals, PlainOffsets(tokens), [])
  }

  /** SEQUENCE_DEEP says nothing SEQUENCE_RANS cannot: its plain stream succeeds exactly when it does, with its bytes. */
  lemma DeepIsPlain(d: Decoded, n: nat)
    ensures Agree(Walk(Local, Plain(d), n), WalkDeep(d, n))
  {
    hide Run, Expand, PlainTokens, PlainCommands, PlainOffsets, Tokens;
    var s := Expand(d, 0, 0, 0, []);
    ExpandSane(d, 0, 0, 0, []);
    PlainShort(s.tokens);
    var p := Plain(d);
    assert p.commands[0..] == p.commands && p.offsets[0..] == p.offsets;
    PlainTokensRead(p, 0, 0, PlainTokens(s.tokens), if s.complete then [] else [0x80]);
    PlainAgrees(s, d.literals, GoalOf(Local, n), [], 0);
  }
}

/**
 The copy/literal command walkers (src/core/materialize.rs): SEQUENCE_RANS,
 SEQUENCE_DICT, SEQUENCE_SHARED_DICT, SEQUENCE_DEEP and the BASE_SEQUENCE
 residual. Each fills the output in place; all five compute one plain append
 semantics of literal runs and copies.
 */
module CommandWalk {
  import opened Nonlinear
  import opened Bytes
  import opened Context
  import opened Streams

  // ----- one append semantics -----

  /** A command with its operands: a literal run, a backward copy, or external bytes. */
  datatype Token = Lit(run: nat) | Back(dist: nat, clen: nat) | Ext(data: bytes)

  /** The last `dist` bytes of `out`, repeated to `clen` bytes. */
  function Extension(out: bytes, dist: nat, clen: nat): (e: bytes)
    requires 0 < dist <= |out|
    ensures |e| == clen
  {
    seq(clen, j requires 0 <= j < clen => ExtensionAt(out, dist, j))
  }

  function ExtensionAt(out: bytes, dist: nat, j: nat): byte
    requires 0 < dist <= |out|
  {
    out[|out| - dist + j % dist]
  }

  function TokenLen(t: Token): nat {
    match t
    case Lit(run) => run
    case Back(_, clen) => clen
    case Ext(data) => |data|
  }

  predicate Applies(t: Token, literals: bytes, lit: nat, pos: nat, n: nat) {
    && pos + TokenLen(t) <= n
    && (t.Lit? ==> lit + t.run <= |literals|)
    && (t.Back? ==> 0 < t.dist <= pos)
  }

  function Apply(t: Token, literals: bytes, lit: nat, out: bytes, n: nat): (r: bytes)
    requires Applies(t, literals, lit, |out|, n)
    ensures |r| == |out| + TokenLen(t)
  {
    match t
    case Lit(run) => out + literals[lit..lit + run]
    case Back(dist, clen) => out + Extension(out, dist, clen)
    case Ext(data) => out + data
  }

  /** A token list; `complete` tells whether every command could be resolved. */
  datatype Script = Script(tokens: seq<Token>, complete: bool)

  /** What a finished walk must have consumed. */
  datatype Goal = Goal(n: nat, allLiterals: bool, error: MatError)

  predicate Finished(g: Goal, literals: bytes, pos: nat, lit: nat) {
    pos == g.n && (g.allLiterals ==> lit == |literals|)
  }

  /** The append semantics. Every byte produced costs one operation. */
  function Run(s: Script, literals: bytes, g: Goal, out: bytes, lit: nat): (a: Attempt)
    ensures |out| <= a.cost && (|out| <= g.n ==> a.cost <= g.n)
    ensures a.Good? ==> |a.data| == a.cost == g.n
    ensures a.Bad? ==> a.error == g.error
    decreases |s.tokens|
  {
    if s.tokens == [] then
      if s.complete && Finished(g, literals, |out|, lit) then Good(out, |out|) else Bad(g.error, |out|)
    else
      var t := s.tokens[0];
      if !Applies(t, literals, lit, |out|, g.n) then Bad(g.error, |out|)
      else Run(s.(tokens := s.tokens[1..]), literals, g, Apply(t, literals, lit, out, g.n),
               if t.Lit? then lit + t.run else lit)
  }

  lemma RunStep(t: Token, rest: Script, literals: bytes, g: Goal, out: bytes, lit: nat)
    ensures Run(Script([t] + rest.tokens, rest.complete), literals, g, out, lit)
         == (if !Applies(t, literals, lit, |out|, g.n) then Bad(g.error, |out|)
             else Run(rest, literals, g, Apply(t, literals, lit, out, g.n), if t.Lit? then lit + t.run else lit))
  {
    assert ([t] + rest.tokens)[1..] == rest.tokens;
  }

  // ----- the three copy-source families and the base delta -----

  datatype Mode =
    | Local
    | WithDict(dict: bytes)
    | WithShared(dict: bytes, shared: bytes)
    | FromBase(base: bytes)

  const SRC_LOCAL: byte := 0
  const SRC_DICT: byte := 1
  const SRC_SHARED: byte := 2

  predicate HasSources(m: Mode) { m.WithDict? || m.WithShared? }

  function OffsetWidth(m: Mode): nat { if m.FromBase? then 4 else 2 }

  function GoalOf(m: Mode, n: nat): Goal {
    if m.FromBase? then Goal(n, false, BadResidual) else Goal(n, true, InvalidDescriptor)
  }

  function Slice(b: bytes, v: nat, clen: nat): Script {
    if v + clen <= |b| then Script([Ext(b[v..v + clen])], true) else Script([], false)
  }

  /** The token a copy command stands for, or nothing when its source cannot serve it. */
  function CopyToken(m: Mode, source: byte, v: nat, clen: nat): Script {
    match m
    case Local => Script([Back(v, clen)], true)
    case FromBase(base) => Slice(base, v, clen)
    case WithDict(dict) =>
      if source == SRC_LOCAL then Script([Back(v, clen)], true)
      else if source == SRC_DICT then Slice(dict, v, clen)
      else Script([], false)
    case WithShared(dict, shared) =>
      if source == SRC_LOCAL then Script([Back(v, clen)], true)
      else if source == SRC_DICT then if dict == [] then Script([], false) else Slice(dict, v, clen)
      else if source == SRC_SHARED then Slice(shared, v, clen)
      else Script([], false)
  }

  /** The token of one command, with its operands taken at the stream cursors. */
  function CommandToken(m: Mode, d: Decoded, cmd: byte, off: nat, src: nat): Script {
    var w := OffsetWidth(m);
    if cmd < 0x80 then Script([Lit(cmd + 1)], true)
    else if (HasSources(m) && src + 1 > |d.extra|) || off + w > |d.offsets| then Script([], false)
    else CopyToken(m, if HasSources(m) then d.extra[src] else SRC_LOCAL,
                   FromLe(d.offsets[off..off + w]), cmd - 0x80 + 4)
  }

  /** The tokens of a decoded stream from command `i` on. */
  function Tokens(m: Mode, d: Decoded, i: nat, off: nat, src: nat): Script
    requires i <= |d.commands|
    decreases |d.commands| - i
  {
    if i == |d.commands| then Script([], true)
    else
      var cmd := d.commands[i];
      Prepend(CommandToken(m, d, cmd, off, src),
              Tokens(m, d, i + 1, NextOff(m, cmd, off), NextSrc(m, cmd, src)))
  }

  function NextOff(m: Mode, cmd: byte, off: nat): nat {
    if cmd < 0x80 then off else off + OffsetWidth(m)
  }

  function NextSrc(m: Mode, cmd: byte, src: nat): nat {
    if cmd >= 0x80 && HasSources(m) then src + 1 else src
  }

  /** Nothing follows a command that could not be resolved. */
  function Prepend(head: Script, rest: Script): Script {
    if head.complete then Script(head.tokens + rest.tokens, rest.complete) else head
  }

  /** The walk of one decoded stream, as an attempt. */
  function Walk(m: Mode, d: Decoded, n: nat): (a: Attempt)
    ensures a.cost <= n && (a.Good? ==> |a.data| == a.cost == n)
    ensures a.Bad? ==> a.error == if m.FromBase? then BadResidual else InvalidDescriptor
  {
    Run(Tokens(m, d, 0, 0, 0), d.literals, GoalOf(m, n), [], 0)
  }

  // ----- the deep family -----

  /** Distances in the order they were first spelled out; the two latest are the repcodes. */
  function Rep(history: seq<nat>, back: nat): nat {
    if back < |history| then history[|history| - 1 - back] else 0
  }

  function DeepToken(d: Decoded, cmd: byte, off: nat, lenp: nat, history: seq<nat>): Script {
    if cmd <= DEEP_LIT_MAX then Script([Lit(cmd + 1)], true)
    else if cmd <= DEEP_COPY_MAX then
      if off + 2 > |d.offsets| then Script([], false)
      else Script([Back(FromLe(d.offsets[off..off + 2]), 4 + cmd - DEEP_COPY_MIN)], true)
    else if cmd <= DEEP_REP0_MAX then Script([Back(Rep(history, 0), 4 + cmd - DEEP_REP0_MIN)], true)
    else if cmd <= DEEP_REP1_MAX then Script([Back(Rep(history, 1), 4 + cmd - DEEP_REP1_MIN)], true)
    else if cmd == DEEP_XCOPY then
      if lenp + 2 > |d.extra| || off + 2 > |d.offsets| then Script([], false)
      else Script([Back(FromLe(d.offsets[off..off + 2]), 68 + FromLe(d.extra[lenp..lenp + 2]))], true)
    else if cmd == DEEP_XLIT then
      if lenp + 2 > |d.extra| then Script([], false)
      else Script([Lit(129 + FromLe(d.extra[lenp..lenp + 2]))], true)
    else Script([], false)
  }

  /** The deep stream with repcodes and extended lengths spelled out. */
  function Expand(d: Decoded, i: nat, off: nat, lenp: nat, history: seq<nat>): Script
    requires i <= |d.commands|
    decreases |d.commands| - i
  {
    if i == |d.commands| then Script([], true)
    else
      var cmd := d.commands[i];
      var head := DeepToken(d, cmd, off, lenp, history);
      Prepend(head, Expand(d, i + 1,
                           if NewDistance(cmd) then off + 2 else off,
                           if Extended(cmd) then lenp + 2 else lenp,
                           NextHistory(cmd, head, history)))
  }

  function NextHistory(cmd: byte, head: Script, history: seq<nat>): seq<nat> {
    if NewDistance(cmd) && |head.tokens| == 1 && head.tokens[0].Back? then history + [head.tokens[0].dist]
    else history
  }

  function WalkDeep(d: Decoded, n: nat): (a: Attempt)
    ensures a.cost <= n && (a.Good? ==> |a.data| == a.cost == n)
    ensures a.Bad? ==> a.error == InvalidDescriptor
  {
    Run(Expand(d, 0, 0, 0, []), d.literals, Goal(n, true, InvalidDescriptor), [], 0)
  }

  // ----- the in-place walkers -----

  lemma ModShift(j: nat, dist: nat)
    requires 0 < dist <= j
    ensures (j - dist) % dist == j % dist
  {
    DivMod(j, dist);
    var q := j / dist;
    if q == 0 { MulLe(dist, q, 0); }
    MulAdd(dist, q, -1);
    ModUnique(j - dist, dist, q - 1, j % dist);
  }

  /**
   The byte-progressive copy: reading bytes it has just written, it lays down
   the periodic extension of the last `dist` bytes.
   */
  method CopyBack(output: array<byte>, pos: nat, dist: nat, clen: nat)
    requires 0 < dist <= pos && pos + clen <= output.Length
    modifies output
    ensures output[..pos + clen] == old(output[..pos]) + Extension(old(output[..pos]), dist, clen)
  {
    ghost var out := output[..pos];
    for j := 0 to clen
      invariant output[..pos] == out
      invariant forall x :: 0 <= x < j ==> output[pos + x] == ExtensionAt(out, dist, x)
    {
      if j >= dist {
        ModShift(j, dist);
        assert output[pos + (j - dist)] == ExtensionAt(out, dist, j - dist);
      } else {
        ModUnique(j, dist, 0, j);
        assert output[..pos][pos + j - dist] == out[pos + j - dist];
      }
      output[pos + j] := output[pos + j - dist];
    }
  }

  /** `copy_from_slice` at the cursor. */
  method CopyIn(output: array<byte>, pos: nat, data: bytes)
    requires pos + |data| <= output.Length
    modifies output
    ensures output[..pos + |data|] == old(output[..pos]) + data
    ensures output[pos + |data|..] == old(output[pos + |data|..])
  {
    forall x | 0 <= x < |data| {
      output[pos + x] := data[x];
    }
  }

  /** Write one token at the cursor. */
  method Write(t: Token, literals: bytes, lit: nat, output: array<byte>, pos: nat)
    requires Applies(t, literals, lit, pos, output.Length)
    modifies output
    ensures output[..pos + TokenLen(t)] == Apply(t, literals, lit, old(output[..pos]), output.Length)
  {
    match t
    case Lit(run) => CopyIn(output, pos, literals[lit..lit + run]);
    case Back(dist, clen) => CopyBack(output, pos, dist, clen);
    case Ext(data) => CopyIn(output, pos, data);
  }

  /** One token under the budget: check it, write it, pay for it. */
  method Emit(t: Token, literals: bytes, lit: nat, output: array<byte>, pos: nat, left: nat,
              g: Goal, ghost rest: Script)
    returns (r: Outcome)
    requires pos <= output.Length == g.n
    modifies output
    ensures var a := Run(Script([t] + rest.tokens, rest.complete), literals, g, old(output[..pos]), lit);
            if r.Failed? then Charge(a, pos + left) == r
            else
              pos + TokenLen(t) <= output.Length && r.left + TokenLen(t) == left
              && a == Run(rest, literals, g, output[..pos + TokenLen(t)], if t.Lit? then lit + t.run else lit)
  {
    RunStep(t, rest, literals, g, output[..pos], lit);
    if !Applies(t, literals, lit, pos, output.Length) {
      return Failed(g.error);
    }
    Write(t, literals, lit, output, pos);
    r := Spend(TokenLen(t), left);
  }

  lemma CommandTokenShape(m: Mode, d: Decoded, cmd: byte, off: nat, src: nat)
    ensures var s := CommandToken(m, d, cmd, off, src);
            (s.complete && s.tokens == [s.tokens[0]]) || s == Script([], false)
  {
  }

  /** The command loop of every copy-source family, under a budget. */
  method WalkInto(m: Mode, d: Decoded, output: array<byte>, budget: nat) returns (r: Outcome)
    modifies output
    ensures r == Charge(Walk(m, d, output.Length), budget)
    ensures r.Done? ==> output[..] == Walk(m, d, output.Length).data
  {
    hide Run, CommandToken;
    var g := GoalOf(m, output.Length);
    var pos: nat, lit: nat, off: nat, src: nat, left: nat := 0, 0, 0, 0, budget;
    for i := 0 to |d.commands|
      invariant pos <= output.Length && pos + left == budget
      invariant Walk(m, d, output.Length) == Run(Tokens(m, d, i, off, src), d.literals, g, output[..pos], lit)
    {
      var cmd := d.commands[i];
      var head := CommandToken(m, d, cmd, off, src);
      CommandTokenShape(m, d, cmd, off, src);
      off, src := NextOff(m, cmd, off), NextSrc(m, cmd, src);
      if !head.complete {
        RunEnd(d.literals, g, output[..pos], lit);
        return Failed(g.error);
      }
      var t := head.tokens[0];
      var paid := Emit(t, d.literals, lit, output, pos, left, g, Tokens(m, d, i + 1, off, src));
      if paid.Failed? {
        return paid;
      }
      pos, left := pos + TokenLen(t), paid.left;
      lit := if t.Lit? then lit + t.run else lit;
    }
    RunEnd(d.literals, g, output[..pos], lit);
    if !Finished(g, d.literals, pos, lit) {
      return Failed(g.error);
    }
    assert output[..pos] == output[..];
    return Done(left);
  }

  lemma RunEnd(literals: bytes, g: Goal, out: bytes, lit: nat)
    ensures Run(Script([], false), literals, g, out, lit) == Bad(g.error, |out|)
    ensures Run(Script([], true), literals, g, out, lit)
         == if Finished(g, literals, |out|, lit) then Good(out, |out|) else Bad(g.error, |out|)
  {
  }

  // ----- the deep walker -----

  lemma DeepTokenShape(d: Decoded, cmd: byte, off: nat, lenp: nat, history: seq<nat>)
    ensures var s := DeepToken(d, cmd, off, lenp, history);
            (s.complete && s.tokens == [s.tokens[0]] && (NewDistance(cmd) ==> s.tokens[0].Back?))
            || s == Script([], false)
  {
  }

  /** Resolve one deep command against the two repcode registers. */
  method ResolveDeep(d: Decoded, cmd: byte, off: nat, lenp: nat, rep0: nat, rep1: nat, ghost history: seq<nat>)
    returns (s: Script)
    requires rep0 == Rep(history, 0) && rep1 == Rep(history, 1)
    ensures s == DeepToken(d, cmd, off, lenp, history)
  {
    if cmd <= DEEP_LIT_MAX {
      return Script([Lit(cmd + 1)], true);
    } else if cmd <= DEEP_COPY_MAX {
      if off + 2 > |d.offsets| {
        return Script([], false);
      }
      return Script([Back(FromLe(d.offsets[off..off + 2]), 4 + (cmd - DEEP_COPY_MIN))], true);
    } else if cmd <= DEEP_REP0_MAX {
      return Script([Back(rep0, 4 + (cmd - DEEP_REP0_MIN))], true);
    } else if cmd <= DEEP_REP1_MAX {
      return Script([Back(rep1, 4 + (cmd - DEEP_REP1_MIN))], true);
    } else if cmd == DEEP_XCOPY {
      if lenp + 2 > |d.extra| || off + 2 > |d.offsets| {
        return Script([], false);
      }
      return Script([Back(FromLe(d.offsets[off..off + 2]), 68 + FromLe(d.extra[lenp..lenp + 2]))], true);
    } else if cmd == DEEP_XLIT {
      if lenp + 2 > |d.extra| {
        return Script([], false);
      }
      return Script([Lit(129 + FromLe(d.extra[lenp..lenp + 2]))], true);
    }
    return Script([], false);
  }

  /** The SEQUENCE_DEEP command loop, under a budget. */
  method WalkDeepInto(d: Decoded, output: array<byte>, budget: nat) returns (r: Outcome)
    modifies output
    ensures r == Charge(WalkDeep(d, output.Length), budget)
    ensures r.Done? ==> output[..] == WalkDeep(d, output.Length).data
  {
    hide Run, DeepToken;
    var g := Goal(output.Length, true, InvalidDescriptor);
    var pos: nat, lit: nat, off: nat, lenp: nat, left: nat := 0, 0, 0, 0, budget;
    var rep0: nat, rep1: nat := 0, 0;
    ghost var history: seq<nat> := [];
    for i := 0 to |d.commands|
      invariant pos <= output.Length && pos + left == budget
      invariant rep0 == Rep(history, 0) && rep1 == Rep(history, 1)
      invariant WalkDeep(d, output.Length)
             == Run(Expand(d, i, off, lenp, history), d.literals, g, output[..pos], lit)
    {
      var cmd := d.commands[i];
      var head := ResolveDeep(d, cmd, off, lenp, rep0, rep1, history);
      DeepTokenShape(d, cmd, off, lenp, history);
      off := if NewDistance(cmd) then off + 2 else off;
      lenp := if Extended(cmd) then lenp + 2 else lenp;
      if !head.complete {
        RunEnd(d.literals, g, output[..pos], lit);
        return Failed(g.error);
      }
      var t := head.tokens[0];
      if NewDistance(cmd) {
        rep1, rep0 := rep0, t.dist;
        history := history + [t.dist];
      }
      var paid := Emit(t, d.literals, lit, output, pos, left, g, Expand(d, i + 1, off, lenp, history));
      if paid.Failed? {
        return paid;
      }
      pos, left := pos + TokenLen(t), paid.left;
      lit := if t.Lit? then lit + t.run else lit;
    }
    RunEnd(d.literals, g, output[..pos], lit);
    if !Finished(g, d.literals, pos, lit) {
      return Failed(g.error);
    }
    assert output[..pos] == output[..];
    return Done(left);
  }
}

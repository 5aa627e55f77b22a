/** The LZMA decoder as a machine over an unbounded output history: what one symbol does, and what
    the bytes presented so far decode to up to an output limit. */
module LzmaStream {
  import opened Basics
  import opened RangeCoder
  import opened DecisionTree
  import opened SymbolGrammar
  import opened GrammarFacts
  import opened History

  datatype Props = Props(lc: nat, lp: nat, pb: nat, dicSize: Word)

  predicate PropsOk(p: Props) {
    p.lc <= 8 && p.lp <= 4 && p.pb <= 4 && 4096 <= p.dicSize
  }

  /** LzmaProps_GetNumProbs. */
  function NumProbs(p: Props): nat {
    LITERAL + LIT_SIZE * Pow2(p.lc + p.lp)
  }

  datatype Coder = Coder(range: Word, code: Word, probs: seq<Prob>, state: nat,
                         rep0: nat, rep1: nat, rep2: nat, rep3: nat, hist: seq<Byte>)

  /** How far back a match may reach: the bytes produced, at most the dictionary size. */
  function Reach(p: Props, h: seq<Byte>): nat {
    if |h| < p.dicSize then |h| else p.dicSize
  }

  predicate RepOk(p: Props, h: seq<Byte>, rep: nat) {
    if h == [] then rep == 1 else 1 <= rep <= Reach(p, h)
  }

  ghost predicate CoderOk(p: Props, a: Coder) {
    && a.range >= TOP
    && |a.probs| == NumProbs(p)
    && a.state < NUM_STATES
    && (a.hist == [] ==> a.state < NUM_LIT_STATES)
    && RepOk(p, a.hist, a.rep0) && RepOk(p, a.hist, a.rep1) && RepOk(p, a.hist, a.rep2) && RepOk(p, a.hist, a.rep3)
  }

  function ShiftLeft(x: nat, n: nat): nat {
    MulMono(0, x, Pow2(n));
    x * Pow2(n)
  }

  function ShiftRight(x: nat, n: nat): nat {
    QuotientNotNegative(x, Pow2(n));
    x / Pow2(n)
  }

  lemma QuotientNotNegative(x: nat, m: nat)
    requires m > 0
    ensures x / m >= 0
  {
    if x / m < 0 { MulMono(x / m, -1, m); }
  }

  /** The literal sub-table, by position and previous byte; the very first literal uses the first. */
  function LitBase(p: Props, h: seq<Byte>): nat
    requires p.lc <= 8
  {
    if h == [] then LITERAL
    else LITERAL + LIT_SIZE * (ShiftLeft(|h| % Pow2(p.lp), p.lc) + ShiftRight(Back(h, 1), 8 - p.lc))
  }

  function CtxOf(p: Props, a: Coder): Ctx
    requires p.lc <= 8
  {
    Ctx(a.state, |a.hist| % Pow2(p.pb), LitBase(p, a.hist), Back(a.hist, a.rep0))
  }

  function One(p: Props, a: Coder, src: seq<Byte>): Out<Symbol>
    requires p.lc <= 8
  {
    Run(SymbolTree(CtxOf(p, a)), Rc(a.range, a.code, 0), a.probs, src)
  }

  /** The bytes the next symbol takes, its last normalization included. */
  function Used(p: Props, a: Coder, src: seq<Byte>): nat
    requires p.lc <= 8
  {
    Normalize(One(p, a, src).rc, src).buf
  }

  datatype Outcome = Next(a: Coder) | End(a: Coder) | Bad

  function LitState(s: nat): nat {
    if s < 4 then 0 else if s < 10 then s - 3 else s - 6
  }

  /** What a symbol does to the machine, given the range coder and the table after it. */
  function Apply(p: Props, a: Coder, rc: Rc, probs: seq<Prob>, sym: Symbol): (o: Outcome)
    ensures o.Next? ==> |o.a.hist| > |a.hist|
  {
    var b := a.(range := rc.range, code := rc.code, probs := probs);
    match sym
    case Lit(byte) => Next(b.(hist := a.hist + [byte], state := LitState(a.state)))
    case ShortRep =>
      if a.hist == [] then Bad
      else Next(b.(hist := Extend(a.hist, a.rep0, 1), state := if a.state < NUM_LIT_STATES then 9 else 11))
    case Rep(which, len) =>
      if a.hist == [] then Bad
      else
        var state := if a.state < NUM_LIT_STATES then 8 else 11;
        if which == 0 then
          Next(b.(hist := Extend(a.hist, a.rep0, len + 2), state := state))
        else if which == 1 then
          Next(b.(hist := Extend(a.hist, a.rep1, len + 2), state := state, rep0 := a.rep1, rep1 := a.rep0))
        else if which == 2 then
          Next(b.(hist := Extend(a.hist, a.rep2, len + 2), state := state,
                  rep0 := a.rep2, rep1 := a.rep0, rep2 := a.rep1))
        else
          Next(b.(hist := Extend(a.hist, a.rep3, len + 2), state := state,
                  rep0 := a.rep3, rep1 := a.rep0, rep2 := a.rep1, rep3 := a.rep2))
    case Match(len, distance) =>
      if distance >= Reach(p, a.hist) then Bad
      else
        Next(b.(hist := Extend(a.hist, distance + 1, len + 2), state := if a.state < NUM_LIT_STATES then 7 else 10,
                rep0 := distance + 1, rep1 := a.rep0, rep2 := a.rep1, rep3 := a.rep2))
    case EndMark(_) => End(b)
  }

  function Step1(p: Props, a: Coder, src: seq<Byte>): (o: Outcome)
    requires p.lc <= 8
    ensures o.Next? ==> |o.a.hist| > |a.hist|
  {
    var r := One(p, a, src);
    Apply(p, a, Normalize(r.rc, src), r.probs, r.val)
  }

  // ----- the table index of a literal

  lemma ModBelow(x: nat, m: nat)
    requires m > 0
    ensures x % m < m
  {
  }

  lemma {:induction false} Pow2Add(n: nat, m: nat)
    ensures Pow2(n + m) == Pow2(n) * Pow2(m)
  {
    if n > 0 { Pow2Add(n - 1, m); }
  }

  lemma LitIndex(x: nat, y: nat, lc: nat, lp: nat)
    requires x < Pow2(lp) && y < Pow2(lc)
    ensures ShiftLeft(x, lc) + y < Pow2(lc + lp)
  {
    hide Pow2;
    Pow2Add(lc, lp);
    MulMono(x + 1, Pow2(lp), Pow2(lc));
  }

  lemma ByteHigh(b: Byte, lc: nat)
    requires lc <= 8
    ensures ShiftRight(b, 8 - lc) < Pow2(lc)
  {
    SmallPowers();
    assert Pow2(0) == 1 && Pow2(6) == 64 && Pow2(7) == 128 && Pow2(8) == 256;
    hide Pow2;
  }

  /** Every literal sub-table, for every lc <= 8, lp <= 4 and history, lies inside the table. */
  lemma LitBaseInside(p: Props, h: seq<Byte>)
    requires PropsOk(p)
    ensures LITERAL <= LitBase(p, h) && LitBase(p, h) + LIT_SIZE <= NumProbs(p)
  {
    hide Pow2, ShiftLeft, ShiftRight;
    ModBelow(|h|, Pow2(p.lp));
    ByteHigh(Back(h, 1), p.lc);
    LitIndex(|h| % Pow2(p.lp), ShiftRight(Back(h, 1), 8 - p.lc), p.lc, p.lp);
  }

  /** What a literal's sub-table is chosen by: low bits of the position and high bits of the previous
      byte. */
  function LitContext(p: Props, h: seq<Byte>): (nat, nat)
    requires p.lc <= 8
  {
    if h == [] then (0, 0) else (|h| % Pow2(p.lp), ShiftRight(Back(h, 1), 8 - p.lc))
  }

  /** Two literals share a sub-table exactly when these bits agree; otherwise their sub-tables have no
      entry in common. */
  lemma LitBlocks(p: Props, h: seq<Byte>, g: seq<Byte>)
    requires PropsOk(p)
    ensures LitBase(p, h) == LitBase(p, g) <==> LitContext(p, h) == LitContext(p, g)
    ensures LitContext(p, h) == LitContext(p, g) || LitBase(p, h) + LIT_SIZE <= LitBase(p, g)
        || LitBase(p, g) + LIT_SIZE <= LitBase(p, h)
  {
    hide Pow2, ShiftRight;
    ByteHigh(Back(h, 1), p.lc);
    ByteHigh(Back(g, 1), p.lc);
    var c, d := LitContext(p, h), LitContext(p, g);
    LitBaseIs(p, h);
    LitBaseIs(p, g);
    if c.0 != d.0 || c.1 != d.1 {
      MixedApart(c.0, c.1, d.0, d.1, Pow2(p.lc));
    }
  }

  lemma LitBaseIs(p: Props, h: seq<Byte>)
    requires PropsOk(p)
    ensures LitContext(p, h).1 < Pow2(p.lc)
    ensures LitBase(p, h) == LITERAL + LIT_SIZE * (LitContext(p, h).0 * Pow2(p.lc) + LitContext(p, h).1)
  {
    hide Pow2, ShiftRight;
    ByteHigh(Back(h, 1), p.lc);
  }

  lemma MixedApart(x: nat, y: nat, x': nat, y': nat, m: nat)
    requires y < m && y' < m && (x != x' || y != y')
    ensures x * m + y != x' * m + y'
  {
    if x < x' {
      MulMono(x + 1, x', m);
    } else if x' < x {
      MulMono(x' + 1, x, m);
    }
  }

  lemma PosStateSmall(n: nat, pb: nat)
    requires pb <= 4
    ensures n % Pow2(pb) < 16
  {
    SmallPowers();
    assert Pow2(0) == 1;
    hide Pow2;
  }

  lemma CtxFits(p: Props, a: Coder)
    requires PropsOk(p) && CoderOk(p, a)
    ensures var c := CtxOf(p, a);
        LITERAL <= c.litBase && c.posState < 16 && c.state < NUM_STATES && c.litBase + LIT_SIZE <= |a.probs|
  {
    hide LitBase, Pow2;
    LitBaseInside(p, a.hist);
    PosStateSmall(|a.hist|, p.pb);
  }

  // ----- distance safety

  lemma RepGrows(p: Props, h: seq<Byte>, g: seq<Byte>, rep: nat)
    requires RepOk(p, h, rep) && |h| <= |g| && h != []
    ensures RepOk(p, g, rep)
  {
  }

  /** In every reachable state the four repeated distances reach only bytes that were produced and
      are still in the dictionary, and a symbol that would break this is an error. */
  lemma ApplyKeeps(p: Props, a: Coder, rc: Rc, probs: seq<Prob>, sym: Symbol)
    requires PropsOk(p) && CoderOk(p, a) && rc.range >= TOP && |probs| == |a.probs|
    ensures var o := Apply(p, a, rc, probs, sym);
            o.Next? ==> CoderOk(p, o.a) && o.a.hist != []
    ensures var o := Apply(p, a, rc, probs, sym); o.End? ==> CoderOk(p, o.a)
  {
    hide NumProbs, Extend, RepOk;
    var o := Apply(p, a, rc, probs, sym);
    if o.Next? {
      if a.hist == [] {
        RepStart(p, o.a.hist, a.rep0);
        RepStart(p, o.a.hist, a.rep1);
        RepStart(p, o.a.hist, a.rep2);
        RepStart(p, o.a.hist, a.rep3);
      } else {
        RepGrows(p, a.hist, o.a.hist, a.rep0);
        RepGrows(p, a.hist, o.a.hist, a.rep1);
        RepGrows(p, a.hist, o.a.hist, a.rep2);
        RepGrows(p, a.hist, o.a.hist, a.rep3);
        if sym.Match? {
          RepNew(p, a.hist, sym.distance);
          RepGrows(p, a.hist, o.a.hist, sym.distance + 1);
        }
      }
    }
  }

  lemma RepStart(p: Props, h: seq<Byte>, rep: nat)
    requires PropsOk(p) && RepOk(p, [], rep) && h != []
    ensures RepOk(p, h, rep)
  {
  }

  lemma RepNew(p: Props, h: seq<Byte>, distance: nat)
    requires distance < Reach(p, h)
    ensures RepOk(p, h, distance + 1) && h != []
  {
  }

  lemma OneKeeps(p: Props, a: Coder, src: seq<Byte>)
    requires PropsOk(p) && CoderOk(p, a)
    ensures var r := One(p, a, src);
            Normalize(r.rc, src).range >= TOP && |r.probs| == |a.probs| && RangeOk(r.rc.range)
  {
    hide SymbolTree, CtxOf, Run, NumProbs, RepOk, Normalize;
    RunForward(SymbolTree(CtxOf(p, a)), Rc(a.range, a.code, 0), a.probs, src);
    NormalizeOk(One(p, a, src).rc, src);
  }

  /** Every step keeps the invariant, whatever the input: the range is normalized, the table has
      its size, the state is one of the twelve and the distances are safe. */
  lemma StepKeeps(p: Props, a: Coder, src: seq<Byte>)
    requires PropsOk(p) && CoderOk(p, a)
    ensures Step1(p, a, src).Next? ==> CoderOk(p, Step1(p, a, src).a) && Step1(p, a, src).a.hist != []
    ensures Step1(p, a, src).End? ==> CoderOk(p, Step1(p, a, src).a)
  {
    hide Apply, One, CoderOk, Normalize;
    var r := One(p, a, src);
    OneKeeps(p, a, src);
    ApplyKeeps(p, a, Normalize(r.rc, src), r.probs, r.val);
  }

  lemma UsedSmall(p: Props, a: Coder, src: seq<Byte>)
    requires PropsOk(p) && CoderOk(p, a)
    ensures Used(p, a, src) <= REQUIRED_INPUT_MAX
  {
    hide SymbolTree, CtxOf, Run, NumProbs, RepOk, Normalize;
    TwentyBytes(CtxOf(p, a), Rc(a.range, a.code, 0), a.probs, src);
  }

  /** Bytes that follow do not change a step that had enough of them, and do not make a step that
      wanted more content with the ones it had. */
  lemma StepExtends(p: Props, a: Coder, src: seq<Byte>, more: seq<Byte>)
    requires p.lc <= 8
    ensures Used(p, a, src) <= |src| ==>
        Used(p, a, src + more) == Used(p, a, src) && Step1(p, a, src + more) == Step1(p, a, src)
    ensures Used(p, a, src) > |src| ==> Used(p, a, src + more) > |src|
  {
    hide SymbolTree, CtxOf, Run, Apply;
    var d, rc := SymbolTree(CtxOf(p, a)), Rc(a.range, a.code, 0);
    var r := One(p, a, src);
    RunExtended(d, rc, a.probs, src, more);
    SameNeed(r.rc, src, more);
    if Normalize(r.rc, src).buf <= |src| {
      NormalizeExtends(r.rc, src, more);
    }
  }

  lemma NormalizeExtends(rc: Rc, src: seq<Byte>, more: seq<Byte>)
    requires Normalize(rc, src).buf <= |src|
    ensures Normalize(rc, src + more) == Normalize(rc, src)
  {
  }

  // ----- many symbols

  datatype Phase = Start | Going(a: Coder) | Over(a: Coder) | Corrupt

  /** The table of LzmaDec_InitStateReal: every probability one half. */
  function InitProbs(p: Props): seq<Prob> {
    seq(NumProbs(p), _ => 1024)
  }

  function BigEndian(a: int, b: int, c: int, d: int): int {
    0x100_0000 * a + 0x1_0000 * b + 0x100 * c + d
  }

  /** LzmaDec_InitRc on the five start bytes. */
  function Begin(p: Props, src: seq<Byte>): Coder
    requires |src| >= 5
  {
    Coder(0xFFFF_FFFF, BigEndian(src[1], src[2], src[3], src[4]), InitProbs(p), 0, 1, 1, 1, 1, [])
  }

  /** A phase together with the number of input bytes it took to get there. */
  datatype Reached = Reached(phase: Phase, used: nat)

  function After(n: nat, r: Reached): Reached {
    if r.phase.Corrupt? then r else Reached(r.phase, n + r.used)
  }

  /** Decodes symbols until the history reaches `limit`, the end mark is seen, or the next symbol
      would need more than the rest of the input. */
  function Advance(p: Props, s: Phase, src: seq<Byte>, limit: nat): Reached
    requires p.lc <= 8
    decreases s.Start?, if s.Going? && |s.a.hist| < limit then limit - |s.a.hist| else 0
  {
    match s
    case Start =>
      if |src| < 5 then Reached(s, 0)
      else if src[0] != 0 then Reached(Corrupt, 0)
      else After(5, Advance(p, Going(Begin(p, src)), src[5..], limit))
    case Going(a) =>
      if |a.hist| >= limit || Used(p, a, src) > |src| then Reached(s, 0)
      else
        var o := Step1(p, a, src);
        var n := Used(p, a, src);
        if o.Next? then After(n, Advance(p, Going(o.a), src[n..], limit))
        else if o.End? then Reached(Over(o.a), n)
        else Reached(Corrupt, 0)
    case Over(_) => Reached(s, 0)
    case Corrupt => Reached(s, 0)
  }

  lemma {:induction false} AdvanceInside(p: Props, s: Phase, src: seq<Byte>, limit: nat)
    requires p.lc <= 8
    ensures Advance(p, s, src, limit).used <= |src|
    decreases s.Start?, if s.Going? && |s.a.hist| < limit then limit - |s.a.hist| else 0
  {
    hide Used, Step1, Begin;
    match s
    case Start =>
      if |src| >= 5 && src[0] == 0 { AdvanceInside(p, Going(Begin(p, src)), src[5..], limit); }
    case Going(a) =>
      if |a.hist| < limit && Used(p, a, src) <= |src| && Step1(p, a, src).Next? {
        AdvanceInside(p, Going(Step1(p, a, src).a), src[Used(p, a, src)..], limit);
      }
    case Over(_) =>
    case Corrupt =>
  }

  ghost predicate PhaseOk(p: Props, s: Phase) {
    match s
    case Going(a) => CoderOk(p, a)
    case Over(a) => CoderOk(p, a)
    case _ => true
  }

  /** Safety over whole runs: for every input and limit, whatever is reached from a state in order
      - from the start of any stream, in particular - is in order: range and table size right, state
      below 12, all four distances within what was produced and is still in the dictionary. */
  lemma {:induction false} AdvanceKeeps(p: Props, s: Phase, src: seq<Byte>, limit: nat)
    requires PropsOk(p) && PhaseOk(p, s)
    ensures PhaseOk(p, Advance(p, s, src, limit).phase)
    decreases s.Start?, if s.Going? && |s.a.hist| < limit then limit - |s.a.hist| else 0
  {
    hide Used, Step1, Begin, CoderOk;
    match s
    case Start =>
      if |src| >= 5 && src[0] == 0 {
        BeginOk(p, src);
        AdvanceKeeps(p, Going(Begin(p, src)), src[5..], limit);
      }
    case Going(a) =>
      StepKeeps(p, a, src);
      if |a.hist| < limit && Used(p, a, src) <= |src| && Step1(p, a, src).Next? {
        AdvanceKeeps(p, Going(Step1(p, a, src).a), src[Used(p, a, src)..], limit);
      }
    case Over(_) =>
    case Corrupt =>
  }

  lemma BeginOk(p: Props, src: seq<Byte>)
    requires |src| >= 5
    ensures CoderOk(p, Begin(p, src))
  {
    hide NumProbs;
  }

  /** The start bytes set a code below the range, except that four bytes 0xFF set one equal to it. */
  lemma StartCode(p: Props, src: seq<Byte>)
    requires |src| >= 5
    ensures var a := Begin(p, src);
            && a.code <= a.range
            && (a.code == a.range <==> src[1..5] == [0xFF, 0xFF, 0xFF, 0xFF])
  {
    hide NumProbs;
    assert src[1..5] == [src[1], src[2], src[3], src[4]];
  }

  lemma BeginExtends(p: Props, src: seq<Byte>, more: seq<Byte>)
    requires |src| >= 5
    ensures Begin(p, src + more) == Begin(p, src)
  {
  }

  /** Streaming: whatever a first call decoded from `src` up to a first limit, going on from there
      with the bytes it left over and any further ones, up to a later limit, gives the phase and
      the number of bytes that one call on all the bytes up to the later limit gives. */
  lemma {:induction false} AdvanceSplit(p: Props, s: Phase, src: seq<Byte>, more: seq<Byte>, limit: nat, later: nat)
    requires p.lc <= 8 && limit <= later
    requires Advance(p, s, src, limit).used <= |src|
    ensures var r := Advance(p, s, src, limit);
            Advance(p, s, src + more, later) == After(r.used, Advance(p, r.phase, src[r.used..] + more, later))
    decreases s.Start?, if s.Going? && |s.a.hist| < limit then limit - |s.a.hist| else 0
  {
    hide Used, Step1, Begin;
    match s
    case Start =>
      if |src| < 5 {
        assert src[0..] + more == src + more;
      } else if src[0] == 0 {
        BeginExtends(p, src, more);
        assert (src + more)[5..] == src[5..] + more;
        AdvanceInside(p, Going(Begin(p, src)), src[5..], limit);
        AdvanceSplit(p, Going(Begin(p, src)), src[5..], more, limit, later);
        AfterSplit(src, more, 5, Advance(p, Going(Begin(p, src)), src[5..], limit));
      }
    case Going(a) =>
      StepExtends(p, a, src, more);
      if |a.hist| < limit && Used(p, a, src) <= |src| {
        var o, n := Step1(p, a, src), Used(p, a, src);
        assert (src + more)[n..] == src[n..] + more;
        if o.Next? {
          AdvanceInside(p, Going(o.a), src[n..], limit);
          AdvanceSplit(p, Going(o.a), src[n..], more, limit, later);
          AfterSplit(src, more, n, Advance(p, Going(o.a), src[n..], limit));
        }
      } else {
        assert src[0..] + more == src + more;
      }
    case Over(_) =>
    case Corrupt =>
  }

  lemma AfterSplit(src: seq<Byte>, more: seq<Byte>, n: nat, r: Reached)
    requires n <= |src| && r.used <= |src| - n
    ensures src[n..][r.used..] + more == src[n + r.used..] + more
  {
    assert src[n..][r.used..] == src[n + r.used..];
  }

  /** The bytes decoded so far; nothing before the stream begins. */
  function Decoded(s: Phase): seq<Byte> {
    match s
    case Start => []
    case Going(a) => a.hist
    case Over(a) => a.hist
    case Corrupt => []
  }

  /** The least output limit under which a run gets as far as `s`; the end mark is read only while
      there is room for one more byte. */
  function Depth(s: Phase): nat {
    |Decoded(s)| + if s.Over? then 1 else 0
  }

  /** Under this limit, a run from `s` is what a run from `t` is, after `n` more bytes. */
  ghost predicate Joins(p: Props, s: Phase, src: seq<Byte>, limit: nat, t: Phase, n: nat)
    requires p.lc <= 8
  {
    n <= |src| && Advance(p, s, src, limit) == After(n, Advance(p, t, src[n..], limit))
  }

  /** From `s`, `n` bytes of the input lead to `t`: every run whose limit lies far enough off passes
      through `t`, and what remains to be done up to `limit` is the same. */
  ghost predicate Leads(p: Props, s: Phase, src: seq<Byte>, limit: nat, t: Phase, n: nat)
    requires p.lc <= 8
  {
    && Joins(p, s, src, limit, t, n)
    && Decoded(s) <= Decoded(t) && Depth(s) <= Depth(t)
    && forall k: nat :: Depth(t) <= k ==> Joins(p, s, src, k, t, n)
  }

  lemma JoinsNowhere(p: Props, s: Phase, src: seq<Byte>, limit: nat)
    requires p.lc <= 8
    ensures Joins(p, s, src, limit, s, 0)
  {
    assert src[0..] == src;
  }

  lemma LeadsNowhere(p: Props, s: Phase, src: seq<Byte>, limit: nat)
    requires p.lc <= 8
    ensures Leads(p, s, src, limit, s, 0)
  {
    hide Joins;
    forall k: nat ensures Joins(p, s, src, k, s, 0) { JoinsNowhere(p, s, src, k); }
  }

  lemma JoinsTwice(p: Props, s: Phase, src: seq<Byte>, limit: nat, t: Phase, n: nat, u: Phase, m: nat)
    requires p.lc <= 8 && Joins(p, s, src, limit, t, n) && Joins(p, t, src[n..], limit, u, m)
    ensures Joins(p, s, src, limit, u, n + m)
  {
    hide Advance;
    assert src[n..][m..] == src[n + m..];
  }

  lemma LeadsTwice(p: Props, s: Phase, src: seq<Byte>, limit: nat, t: Phase, n: nat, u: Phase, m: nat)
    requires p.lc <= 8 && n <= |src| && Leads(p, s, src, limit, t, n) && Leads(p, t, src[n..], limit, u, m)
    ensures Leads(p, s, src, limit, u, n + m) && n + m <= |src|
  {
    hide Joins;
    var sum := n + m;
    JoinsInside(p, t, src[n..], limit, u, m);
    JoinsTwice(p, s, src, limit, t, n, u, m);
    forall k: nat | Depth(u) <= k ensures Joins(p, s, src, k, u, sum) { JoinsTwice(p, s, src, k, t, n, u, m); }
  }

  lemma JoinsInside(p: Props, s: Phase, src: seq<Byte>, limit: nat, t: Phase, n: nat)
    requires p.lc <= 8 && Joins(p, s, src, limit, t, n)
    ensures n <= |src|
  {
  }

  lemma LeadsStep(p: Props, a: Coder, src: seq<Byte>, limit: nat)
    requires p.lc <= 8 && |a.hist| < limit && Used(p, a, src) <= |src|
    ensures var o := Step1(p, a, src);
            && (o.Next? ==> Leads(p, Going(a), src, limit, Going(o.a), Used(p, a, src)))
            && (o.End? ==> Advance(p, Going(a), src, limit) == Reached(Over(o.a), Used(p, a, src)))
            && (o.Bad? ==> Advance(p, Going(a), src, limit).phase.Corrupt?)
  {
    hide Used, Step1;
    var o := Step1(p, a, src);
    StepPrefix(p, a, src);
    if o.Next? {
      forall k: nat | |a.hist| < k ensures Joins(p, Going(a), src, k, Going(o.a), Used(p, a, src)) {
        JoinsStep(p, a, src, k);
      }
    }
  }

  lemma JoinsStep(p: Props, a: Coder, src: seq<Byte>, limit: nat)
    requires p.lc <= 8 && |a.hist| < limit && Used(p, a, src) <= |src| && Step1(p, a, src).Next?
    ensures Joins(p, Going(a), src, limit, Going(Step1(p, a, src).a), Used(p, a, src))
  {
    hide Used, Step1;
  }

  lemma LeadsEnd(p: Props, s: Phase, src: seq<Byte>, limit: nat, t: Phase, n: nat, r: Reached)
    requires p.lc <= 8 && Leads(p, s, src, limit, t, n) && Advance(p, t, src[n..], limit) == r
    ensures Advance(p, s, src, limit) == After(n, r)
  {
  }

  lemma {:induction false} AdvanceExtends(p: Props, s: Phase, src: seq<Byte>, more: seq<Byte>, limit: nat)
    requires p.lc <= 8
    ensures Advance(p, s, src, limit).phase.Corrupt? ==> Advance(p, s, src + more, limit).phase.Corrupt?
  {
    hide Advance;
    AdvanceInside(p, s, src, limit);
    AdvanceSplit(p, s, src, more, limit, limit);
    CorruptStays(p, src[Advance(p, s, src, limit).used..] + more, limit);
  }

  lemma CorruptStays(p: Props, src: seq<Byte>, limit: nat)
    requires p.lc <= 8
    ensures Advance(p, Corrupt, src, limit) == Reached(Corrupt, 0)
  {
  }

  /** A stretch of decoding found on the front of the input is one on the whole of it. */
  lemma LeadsExtends(p: Props, s: Phase, src: seq<Byte>, more: seq<Byte>, limit: nat, t: Phase, n: nat)
    requires p.lc <= 8 && Leads(p, s, src, limit, t, n)
    ensures Leads(p, s, src + more, limit, t, n)
  {
    hide Joins;
    JoinsExtends(p, s, src, more, limit, t, n);
    forall k: nat | Depth(t) <= k ensures Joins(p, s, src + more, k, t, n) { JoinsExtends(p, s, src, more, k, t, n); }
  }

  lemma JoinsExtends(p: Props, s: Phase, src: seq<Byte>, more: seq<Byte>, limit: nat, t: Phase, n: nat)
    requires p.lc <= 8 && Joins(p, s, src, limit, t, n)
    ensures Joins(p, s, src + more, limit, t, n)
  {
    hide Advance;
    assert (src + more)[n..] == src[n..] + more;
    AdvanceInside(p, s, src, limit);
    AdvanceInside(p, t, src[n..], limit);
    AdvanceSplit(p, s, src, more, limit, limit);
    AdvanceSplit(p, t, src[n..], more, limit, limit);
    var r, q := Advance(p, s, src, limit), Advance(p, t, src[n..], limit);
    if q.phase.Corrupt? {
      CorruptStays(p, src[r.used..] + more, limit);
      CorruptStays(p, src[n..][q.used..] + more, limit);
    } else {
      assert src[n..][q.used..] == src[r.used..];
    }
  }

  // ----- one call

  datatype FinishMode = FinishAny | FinishEnd
  datatype Status = NotSpecified | FinishedWithMark | NotFinished | NeedsMoreInput | MaybeFinishedWithoutMark

  /** What a call answers, the phase it leaves and the input bytes that phase has taken. */
  datatype Reply = Reply(ok: bool, status: Status, phase: Phase, used: nat)

  function MarkReply(a: Coder, used: nat): Reply {
    if a.code == 0 then Reply(true, FinishedWithMark, Over(a), used) else Reply(false, NotSpecified, Over(a), used)
  }

  /** LzmaDec_DecodeToDic as a function of the phase, of all bytes not yet decoded and of the
      output limit: decode up to the limit, and with FinishEnd demand the end mark there. */
  function Call(p: Props, s: Phase, src: seq<Byte>, limit: nat, mode: FinishMode): Reply
    requires p.lc <= 8
  {
    var r := Advance(p, s, src, limit);
    match r.phase
    case Corrupt => Reply(false, NotSpecified, Corrupt, 0)
    case Start => Reply(true, NeedsMoreInput, Start, r.used)
    case Over(a) => MarkReply(a, r.used)
    case Going(a) =>
      if |a.hist| < limit then Reply(true, NeedsMoreInput, r.phase, r.used)
      else if |a.hist| == limit && a.code == 0 then Reply(true, MaybeFinishedWithoutMark, r.phase, r.used)
      else if mode.FinishAny? then Reply(true, NotFinished, r.phase, r.used)
      else if |a.hist| > limit || r.used > |src| then Reply(false, NotFinished, r.phase, r.used)
      else
        var rest := src[r.used..];
        if Used(p, a, rest) > |rest| then Reply(true, NeedsMoreInput, r.phase, r.used)
        else if Step1(p, a, rest).End? then MarkReply(Step1(p, a, rest).a, r.used + Used(p, a, rest))
        else Reply(false, NotFinished, r.phase, r.used)
  }

  lemma LeadsBegin(p: Props, src: seq<Byte>, limit: nat)
    requires p.lc <= 8
    ensures |src| >= 5 && src[0] == 0 ==> Leads(p, Start, src, limit, Going(Begin(p, src)), 5)
    ensures |src| >= 5 && src[0] != 0 ==> Advance(p, Start, src, limit).phase.Corrupt?
  {
    if |src| >= 5 && src[0] == 0 {
      forall k: nat ensures Joins(p, Start, src, k, Going(Begin(p, src)), 5) { JoinsBegin(p, src, k); }
    }
  }

  lemma JoinsBegin(p: Props, src: seq<Byte>, limit: nat)
    requires p.lc <= 8 && |src| >= 5 && src[0] == 0
    ensures Joins(p, Start, src, limit, Going(Begin(p, src)), 5)
  {
    hide Begin;
  }

  /** Where decoding comes to rest, the call's answer is read off the phase. */
  lemma CallRests(p: Props, s: Phase, src: seq<Byte>, limit: nat, mode: FinishMode, t: Phase, n: nat)
    requires p.lc <= 8 && Leads(p, s, src, limit, t, n)
    requires !t.Corrupt? && Advance(p, t, src[n..], limit) == Reached(t, 0)
    ensures Advance(p, s, src, limit) == Reached(t, n)
  {
    hide Advance;
  }

  lemma CallCorrupt(p: Props, s: Phase, src: seq<Byte>, limit: nat, mode: FinishMode, t: Phase, n: nat)
    requires p.lc <= 8 && Leads(p, s, src, limit, t, n) && Advance(p, t, src[n..], limit).phase.Corrupt?
    ensures !Call(p, s, src, limit, mode).ok
  {
    hide Advance;
  }

  lemma RestsOver(p: Props, a: Coder, src: seq<Byte>, limit: nat)
    requires p.lc <= 8
    ensures Advance(p, Over(a), src, limit) == Reached(Over(a), 0)
  {
  }

  lemma RestsGoing(p: Props, a: Coder, src: seq<Byte>, limit: nat)
    requires p.lc <= 8 && (|a.hist| >= limit || Used(p, a, src) > |src|)
    ensures Advance(p, Going(a), src, limit) == Reached(Going(a), 0)
  {
    hide Used, Step1;
  }

  lemma RestsStart(p: Props, src: seq<Byte>, limit: nat)
    requires p.lc <= 8 && |src| < 5
    ensures Advance(p, Start, src, limit) == Reached(Start, 0)
  {
  }

  /** Asking for one byte more than the limit decodes exactly one symbol. */
  lemma OneMore(p: Props, a: Coder, src: seq<Byte>, t: Phase, n: nat)
    requires p.lc <= 8 && Used(p, a, src) <= |src|
    ensures Step1(p, a, src).End? ==>
        Advance(p, Going(a), src, |a.hist| + 1) == Reached(Over(Step1(p, a, src).a), Used(p, a, src))
    ensures Leads(p, Going(a), src, |a.hist| + 1, t, n) && t.Over? ==>
              Step1(p, a, src).End? && t == Over(Step1(p, a, src).a) && n == Used(p, a, src)
  {
    hide Used, Step1;
    if Step1(p, a, src).Next? {
      var b := Step1(p, a, src).a;
      RestsGoing(p, b, src[Used(p, a, src)..], |a.hist| + 1);
    }
  }

  lemma ReplyStart(p: Props, s: Phase, src: seq<Byte>, limit: nat, mode: FinishMode, n: nat)
    requires p.lc <= 8 && Advance(p, s, src, limit) == Reached(Start, n)
    ensures Call(p, s, src, limit, mode) == Reply(true, NeedsMoreInput, Start, n)
  {
    hide Advance;
  }

  lemma ReplyOver(p: Props, s: Phase, src: seq<Byte>, limit: nat, mode: FinishMode, a: Coder, n: nat)
    requires p.lc <= 8 && Advance(p, s, src, limit) == Reached(Over(a), n)
    ensures Call(p, s, src, limit, mode) == MarkReply(a, n)
  {
    hide Advance;
  }

  lemma ReplyGoing(p: Props, s: Phase, src: seq<Byte>, limit: nat, mode: FinishMode, a: Coder, n: nat)
    requires p.lc <= 8 && Advance(p, s, src, limit) == Reached(Going(a), n)
    ensures |a.hist| < limit ==> Call(p, s, src, limit, mode) == Reply(true, NeedsMoreInput, Going(a), n)
    ensures |a.hist| == limit && a.code == 0 ==>
        Call(p, s, src, limit, mode) == Reply(true, MaybeFinishedWithoutMark, Going(a), n)
    ensures |a.hist| >= limit && (|a.hist| > limit || a.code != 0) && mode.FinishAny? ==>
              Call(p, s, src, limit, mode) == Reply(true, NotFinished, Going(a), n)
    ensures |a.hist| > limit && mode.FinishEnd? ==> !Call(p, s, src, limit, mode).ok
  {
    hide Advance;
  }

  lemma ReplyAtEnd(p: Props, s: Phase, src: seq<Byte>, limit: nat, a: Coder, n: nat)
    requires p.lc <= 8 && Advance(p, s, src, limit) == Reached(Going(a), n) && |a.hist| == limit && a.code != 0
        && n <= |src|
    ensures var rest := src[n..];
            var reply := Call(p, s, src, limit, FinishEnd);
            && (Used(p, a, rest) > |rest| ==> reply == Reply(true, NeedsMoreInput, Going(a), n))
            && (Used(p, a, rest) <= |rest| && !Step1(p, a, rest).End? ==> !reply.ok)
            && (Used(p, a, rest) <= |rest| && Step1(p, a, rest).End? ==>
                reply == MarkReply(Step1(p, a, rest).a, n + Used(p, a, rest)))
  {
    hide Advance, Used, Step1;
  }

  /** On the way to the call's answer: either the same answer is still ahead, or the end mark has
      been seen and settles it. */
  ghost predicate OnCourse(p: Props, s: Phase, src: seq<Byte>, limit: nat, mode: FinishMode, t: Phase, n: nat)
    requires p.lc <= 8
  {
    n <= |src| && if t.Over? then Call(p, s, src, limit, mode) == MarkReply(t.a, n) else Leads(p, s, src, limit, t, n)
  }

  lemma LeadsOnCourse(p: Props, s: Phase, src: seq<Byte>, limit: nat, mode: FinishMode, t: Phase, n: nat)
    requires p.lc <= 8 && Leads(p, s, src, limit, t, n)
    ensures OnCourse(p, s, src, limit, mode, t, n)
  {
    hide Call, Advance;
    if t.Over? {
      RestsOver(p, t.a, src[n..], limit);
      CallRests(p, s, src, limit, mode, t, n);
      ReplyOver(p, s, src, limit, mode, t.a, n);
    }
  }

  /** What a demand for the end mark at the limit comes to. */
  lemma EndDemanded(p: Props, s: Phase, src: seq<Byte>, limit: nat, a: Coder, n: nat, t: Phase, k: nat)
    requires p.lc <= 8 && Leads(p, s, src, limit, Going(a), n) && |a.hist| == limit && a.code != 0
    ensures var rest := src[n..];
            && (Used(p, a, rest) > |rest| ==>
                Call(p, s, src, limit, FinishEnd) == Reply(true, NeedsMoreInput, Going(a), n))
            && (Used(p, a, rest) <= |rest|
                && (Advance(p, Going(a), rest, limit + 1).phase.Corrupt? || !Step1(p, a, rest).End?) ==>
                  !Call(p, s, src, limit, FinishEnd).ok)
            && (Used(p, a, rest) <= |rest| && Leads(p, Going(a), rest, limit + 1, t, k) && t.Over? ==>
                  OnCourse(p, s, src, limit, FinishEnd, t, n + k))
  {
    hide Advance, Used, Step1, Call;
    var rest := src[n..];
    RestsGoing(p, a, rest, limit);
    CallRests(p, s, src, limit, FinishEnd, Going(a), n);
    ReplyAtEnd(p, s, src, limit, a, n);
    if Used(p, a, rest) <= |rest| {
      OneMore(p, a, rest, t, k);
    }
  }

  // ----- histories only grow

  lemma StepPrefix(p: Props, a: Coder, src: seq<Byte>)
    requires p.lc <= 8
    ensures !Step1(p, a, src).Bad? ==> a.hist <= Step1(p, a, src).a.hist
  {
    hide One, Normalize, Extend;
    var sym := One(p, a, src).val;
    ExtendPrefix(a.hist, a.rep0, 1);
    if sym.Rep? {
      ExtendPrefix(a.hist, a.rep0, sym.len + 2);
      ExtendPrefix(a.hist, a.rep1, sym.len + 2);
      ExtendPrefix(a.hist, a.rep2, sym.len + 2);
      ExtendPrefix(a.hist, a.rep3, sym.len + 2);
    }
    if sym.Match? {
      ExtendPrefix(a.hist, sym.distance + 1, sym.len + 2);
    }
  }

  lemma {:induction false} AdvancePrefix(p: Props, s: Phase, src: seq<Byte>, limit: nat)
    requires p.lc <= 8
    ensures var t := Advance(p, s, src, limit).phase; !t.Corrupt? ==> Decoded(s) <= Decoded(t)
    decreases s.Start?, if s.Going? && |s.a.hist| < limit then limit - |s.a.hist| else 0
  {
    hide Used, Step1, Begin;
    match s
    case Start =>
      if |src| >= 5 && src[0] == 0 { AdvancePrefix(p, Going(Begin(p, src)), src[5..], limit); }
    case Going(a) =>
      if |a.hist| < limit && Used(p, a, src) <= |src| {
        StepPrefix(p, a, src);
        if Step1(p, a, src).Next? {
          AdvancePrefix(p, Going(Step1(p, a, src).a), src[Used(p, a, src)..], limit);
        }
      }
    case Over(_) =>
    case Corrupt =>
  }

  lemma CallPrefix(p: Props, s: Phase, src: seq<Byte>, limit: nat, mode: FinishMode)
    requires p.lc <= 8
    ensures Call(p, s, src, limit, mode).ok ==> Decoded(s) <= Decoded(Call(p, s, src, limit, mode).phase)
  {
    hide Advance, Used, Step1;
    AdvancePrefix(p, s, src, limit);
    var r := Advance(p, s, src, limit);
    if r.phase.Going? && r.used <= |src| { StepPrefix(p, r.phase.a, src[r.used..]); }
  }

  /** Where decoding stops is passed by every run whose limit lies far enough off, a lower one than
      the limit it stopped under included. */
  lemma {:induction false} AdvanceStops(p: Props, s: Phase, src: seq<Byte>, limit: nat, k: nat)
    requires p.lc <= 8
    requires var r := Advance(p, s, src, limit); !r.phase.Corrupt? && Depth(r.phase) <= k
    ensures Joins(p, s, src, k, Advance(p, s, src, limit).phase, Advance(p, s, src, limit).used)
    decreases s.Start?, if s.Going? && |s.a.hist| < limit then limit - |s.a.hist| else 0
  {
    hide Used, Step1, Begin, Joins;
    JoinsNowhere(p, s, src, k);
    match s
    case Start =>
      if |src| >= 5 && src[0] == 0 {
        AdvanceStops(p, Going(Begin(p, src)), src[5..], limit, k);
        var r := Advance(p, Going(Begin(p, src)), src[5..], limit);
        JoinsBegin(p, src, k);
        JoinsTwice(p, s, src, k, Going(Begin(p, src)), 5, r.phase, r.used);
      }
    case Going(a) =>
      if |a.hist| < limit && Used(p, a, src) <= |src| {
        StepPrefix(p, a, src);
        var o, n := Step1(p, a, src), Used(p, a, src);
        if o.Next? {
          var r := Advance(p, Going(o.a), src[n..], limit);
          AdvancePrefix(p, Going(o.a), src[n..], limit);
          AdvanceStops(p, Going(o.a), src[n..], limit, k);
          JoinsStep(p, a, src, k);
          JoinsTwice(p, s, src, k, Going(o.a), n, r.phase, r.used);
        } else if o.End? {
          JoinsEnd(p, a, src, k);
        }
      }
    case Over(_) =>
    case Corrupt =>
  }

  lemma JoinsEnd(p: Props, a: Coder, src: seq<Byte>, limit: nat)
    requires p.lc <= 8 && |a.hist| < limit && Used(p, a, src) <= |src| && Step1(p, a, src).End?
    ensures Joins(p, Going(a), src, limit, Over(Step1(p, a, src).a), Used(p, a, src))
  {
    hide Used, Step1;
  }

  lemma LeadsStop(p: Props, s: Phase, src: seq<Byte>, limit: nat, later: nat)
    requires p.lc <= 8 && limit <= later && !Advance(p, s, src, limit).phase.Corrupt?
    ensures var r := Advance(p, s, src, limit); Leads(p, s, src, later, r.phase, r.used)
  {
    hide Joins;
    var r := Advance(p, s, src, limit);
    JoinsLater(p, s, src, limit, later);
    AdvancePrefix(p, s, src, limit);
    if s.Over? {
      OverStays(p, s, src, limit);
    }
    forall k: nat | Depth(r.phase) <= k ensures Joins(p, s, src, k, r.phase, r.used) {
      AdvanceStops(p, s, src, limit, k);
    }
  }

  lemma OverStays(p: Props, s: Phase, src: seq<Byte>, limit: nat)
    requires p.lc <= 8 && s.Over?
    ensures Advance(p, s, src, limit).phase == s
  {
  }

  lemma JoinsLater(p: Props, s: Phase, src: seq<Byte>, limit: nat, later: nat)
    requires p.lc <= 8 && limit <= later
    ensures var r := Advance(p, s, src, limit); Joins(p, s, src, later, r.phase, r.used)
  {
    hide Advance;
    AdvanceInside(p, s, src, limit);
    AdvanceSplit(p, s, src, [], limit, later);
    var r := Advance(p, s, src, limit);
    assert src + [] == src && src[r.used..] + [] == src[r.used..];
  }

  // ----- what was really decoded

  /** The bytes `h` are the first ones that the input decodes to, whatever becomes of it later on. */
  ghost predicate Genuine(p: Props, s: Phase, src: seq<Byte>, h: seq<Byte>)
    requires p.lc <= 8
  {
    h <= Decoded(Advance(p, s, src, |h|).phase)
  }

  /** It is enough that a run under some higher limit decodes them. */
  lemma GenuineLow(p: Props, s: Phase, src: seq<Byte>, limit: nat, h: seq<Byte>)
    requires p.lc <= 8 && |h| <= limit && h <= Decoded(Advance(p, s, src, limit).phase)
    ensures Genuine(p, s, src, h)
  {
    hide Advance;
    var r := Advance(p, s, src, |h|);
    AdvanceRests(p, s, src, |h|);
    JoinsLater(p, s, src, |h|, limit);
    var rest := src[r.used..];
    match r.phase
    case Corrupt => CorruptStays(p, rest, limit);
    case Over(a) => RestsOver(p, a, rest, limit);
    case Start => RestsStartFull(p, rest, |h|, limit);
    case Going(a) =>
      AdvancePrefix(p, r.phase, rest, limit);
      if |a.hist| < |h| {
        HungryRests(p, a, rest, |h|);
        RestsGoing(p, a, rest, limit);
      }
  }

  lemma DepthRests(p: Props, t: Phase, src: seq<Byte>)
    requires p.lc <= 8
    ensures t.Start? || Advance(p, t, src, Depth(t)) == Reached(t, 0)
  {
  }

  /** Every phase on the way holds real output. */
  lemma GenuineThere(p: Props, s: Phase, src: seq<Byte>, limit: nat, t: Phase, n: nat, h: seq<Byte>)
    requires p.lc <= 8 && Leads(p, s, src, limit, t, n) && h <= Decoded(t)
    ensures Genuine(p, s, src, h)
  {
    hide Advance;
    assert Joins(p, s, src, Depth(t), t, n);
    DepthRests(p, t, src[n..]);
    if h != [] {
      GenuineLow(p, s, src, Depth(t), h);
    }
  }

  lemma GenuineNow(p: Props, s: Phase, src: seq<Byte>, h: seq<Byte>)
    requires p.lc <= 8 && h <= Decoded(s)
    ensures Genuine(p, s, src, h)
  {
    LeadsNowhere(p, s, src, 0);
    GenuineThere(p, s, src, 0, s, 0, h);
  }

  /** What is real output from a phase on the way is real output of the whole. */
  lemma GenuineLater(p: Props, s: Phase, src: seq<Byte>, limit: nat, t: Phase, n: nat, h: seq<Byte>)
    requires p.lc <= 8 && n <= |src| && Leads(p, s, src, limit, t, n) && Genuine(p, t, src[n..], h)
    ensures Genuine(p, s, src, h)
  {
    hide Advance;
    if h != [] {
      if |h| < Depth(t) {
        StillThere(p, t, src[n..], |h|);
        GenuineThere(p, s, src, limit, t, n, h);
      } else {
        assert Joins(p, s, src, |h|, t, n);
      }
    }
  }

  lemma StillThere(p: Props, t: Phase, src: seq<Byte>, limit: nat)
    requires p.lc <= 8 && limit < Depth(t)
    ensures Advance(p, t, src, limit) == Reached(t, 0)
  {
  }

  lemma GenuineExtends(p: Props, s: Phase, src: seq<Byte>, more: seq<Byte>, h: seq<Byte>)
    requires p.lc <= 8 && Genuine(p, s, src, h)
    ensures Genuine(p, s, src + more, h)
  {
    hide Advance;
    if h != [] {
      var r := Advance(p, s, src, |h|);
      AdvanceInside(p, s, src, |h|);
      AdvanceSplit(p, s, src, more, |h|, |h|);
      Full(p, r.phase, src[r.used..] + more, |h|);
    }
  }

  lemma Full(p: Props, t: Phase, src: seq<Byte>, limit: nat)
    requires p.lc <= 8 && !t.Start? && |Decoded(t)| >= limit
    ensures Advance(p, t, src, limit) == Reached(t, 0)
  {
  }

  // ----- many calls

  /** A client's calls: each presents what the one before handed back or carried over, followed by
      a new piece of input, and allows the output to grow to a new limit. */
  function Calls(p: Props, s: Phase, left: seq<Byte>, calls: seq<(seq<Byte>, nat)>): (Phase, seq<Byte>)
    requires p.lc <= 8
    decreases |calls|
  {
    if calls == [] then (s, left)
    else
      var src := left + calls[0].0;
      var r := Advance(p, s, src, calls[0].1);
      AdvanceInside(p, s, src, calls[0].1);
      Calls(p, r.phase, src[r.used..], calls[1..])
  }

  function Pieces(calls: seq<(seq<Byte>, nat)>): seq<Byte> {
    if calls == [] then [] else calls[0].0 + Pieces(calls[1..])
  }

  /** No call allows more output than the last one; in between, limits rise and fall as they like. */
  predicate Capped(calls: seq<(seq<Byte>, nat)>) {
    forall i :: 0 <= i < |calls| ==> calls[i].1 <= calls[|calls| - 1].1
  }

  /** Any split of the input into pieces, under any output limits up to the last one, ends in the same
      phase - decoded bytes, range, code, probabilities, distances and state - and with the same
      unused input as one call on all of the input under the last limit. */
  lemma {:induction false} AnySplit(p: Props, s: Phase, left: seq<Byte>, calls: seq<(seq<Byte>, nat)>)
    requires p.lc <= 8 && calls != [] && Capped(calls)
    ensures var all := left + Pieces(calls);
            var one := Advance(p, s, all, calls[|calls| - 1].1);
            && Calls(p, s, left, calls).0 == one.phase
            && one.used <= |all|
            && (!one.phase.Corrupt? ==> Calls(p, s, left, calls).1 == all[one.used..])
    decreases |calls|
  {
    hide Advance;
    var last := calls[|calls| - 1].1;
    var src, more := left + calls[0].0, Pieces(calls[1..]);
    var r := Advance(p, s, src, calls[0].1);
    assert left + Pieces(calls) == src + more;
    AdvanceInside(p, s, src, calls[0].1);
    AdvanceInside(p, s, src + more, last);
    if |calls| == 1 {
      assert more == [] && src + more == src;
      assert Calls(p, r.phase, src[r.used..], calls[1..]) == (r.phase, src[r.used..]);
    } else {
      AdvanceSplit(p, s, src, more, calls[0].1, last);
      AnySplit(p, r.phase, src[r.used..], calls[1..]);
      var q := Advance(p, r.phase, src[r.used..] + more, last);
      if !q.phase.Corrupt? {
        assert (src + more)[r.used + q.used..] == (src[r.used..] + more)[q.used..];
      }
    }
  }

  // ----- calls under lower limits

  lemma {:induction false} AdvanceRests(p: Props, s: Phase, src: seq<Byte>, limit: nat)
    requires p.lc <= 8
    ensures var r := Advance(p, s, src, limit);
            r.used <= |src| && (!r.phase.Corrupt? ==> Advance(p, r.phase, src[r.used..], limit) == Reached(r.phase, 0))
  {
    hide Advance;
    AdvanceInside(p, s, src, limit);
    AdvanceSplit(p, s, src, [], limit, limit);
    var r := Advance(p, s, src, limit);
    assert src + [] == src && src[r.used..] + [] == src[r.used..];
    if r.phase.Corrupt? { CorruptStays(p, src[r.used..], limit); }
  }

  lemma HungryRests(p: Props, a: Coder, src: seq<Byte>, limit: nat)
    requires p.lc <= 8 && |a.hist| < limit && Advance(p, Going(a), src, limit) == Reached(Going(a), 0)
    ensures Used(p, a, src) > |src|
  {
    hide Used, Step1;
    if Used(p, a, src) <= |src| && Step1(p, a, src).Next? {
      AdvancePrefix(p, Going(Step1(p, a, src).a), src[Used(p, a, src)..], limit);
    }
  }

  /** What a call under a lower limit says about the call under the full one. */
  lemma CallCut(p: Props, s: Phase, src: seq<Byte>, low: nat, full: nat, mode: FinishMode)
    requires p.lc <= 8 && low <= full
    ensures var c := Call(p, s, src, low, FinishAny);
            && (c.ok ==> Leads(p, s, src, full, c.phase, c.used))
            && (!c.ok ==> !Call(p, s, src, full, mode).ok)
            && (c.ok && (c.phase.Going? ==> |c.phase.a.hist| < low) ==> Call(p, s, src, full, mode) == c)
  {
    hide Advance, Used, Step1;
    var r := Advance(p, s, src, low);
    AdvanceRests(p, s, src, low);
    JoinsLater(p, s, src, low, full);
    if !r.phase.Corrupt? {
      LeadsStop(p, s, src, low, full);
    }
    hide Leads;
    var rest := src[r.used..];
    match r.phase
    case Corrupt => CorruptStays(p, rest, full);
    case Over(a) => RestsOver(p, a, rest, full);
    case Start => RestsStartFull(p, rest, low, full);
    case Going(a) =>
      if |a.hist| < low {
        HungryRests(p, a, rest, low);
        RestsGoing(p, a, rest, full);
      }
  }

  lemma RestsStartFull(p: Props, src: seq<Byte>, low: nat, full: nat)
    requires p.lc <= 8 && Advance(p, Start, src, low) == Reached(Start, 0)
    ensures Advance(p, Start, src, full) == Reached(Start, 0)
  {
    hide Begin;
    if |src| >= 5 && src[0] == 0 {
      AdvancePhase(p, Begin(p, src), src[5..], low);
    }
  }

  lemma {:induction false} AdvancePhase(p: Props, a: Coder, src: seq<Byte>, limit: nat)
    requires p.lc <= 8
    ensures !Advance(p, Going(a), src, limit).phase.Start?
    decreases if |a.hist| < limit then limit - |a.hist| else 0
  {
    hide Used, Step1;
    if |a.hist| < limit && Used(p, a, src) <= |src| && Step1(p, a, src).Next? {
      AdvancePhase(p, Step1(p, a, src).a, src[Used(p, a, src)..], limit);
    }
  }

  /** Short of the limit, the phase a call leaves is where plain decoding leads. */
  lemma CallShort(p: Props, s: Phase, src: seq<Byte>, limit: nat, mode: FinishMode)
    requires p.lc <= 8
    ensures var c := Call(p, s, src, limit, mode);
            c.ok && |Decoded(c.phase)| < limit ==> Leads(p, s, src, limit, c.phase, c.used)
  {
    hide Advance, Used, Step1;
    var r := Advance(p, s, src, limit);
    AdvanceRests(p, s, src, limit);
    if !r.phase.Corrupt? {
      LeadsStop(p, s, src, limit, limit);
    }
    hide Leads;
    if r.phase.Going? && |r.phase.a.hist| >= limit {
      StepPrefix(p, r.phase.a, src[r.used..]);
    }
  }

  /** What each status of a good call means: the end mark was read; the limit was reached with the code at
      0; the limit was reached otherwise and the mark not asked for; or the rest of the input is too
      short for what comes next. */
  lemma CallStatus(p: Props, s: Phase, src: seq<Byte>, limit: nat, mode: FinishMode)
    requires p.lc <= 8 && Call(p, s, src, limit, mode).ok
    ensures var c := Call(p, s, src, limit, mode);
            && c.used <= |src| && !c.status.NotSpecified?
            && (c.status.FinishedWithMark? <==> c.phase.Over?)
            && (c.status.MaybeFinishedWithoutMark? <==>
                  c.phase.Going? && |c.phase.a.hist| == limit && c.phase.a.code == 0)
            && (c.status.NotFinished? ==> mode.FinishAny? && c.phase.Going? && |c.phase.a.hist| >= limit)
            && (c.status.NeedsMoreInput? ==>
                  if c.phase.Start? then |src| - c.used < 5
                  else c.phase.Going? && Used(p, c.phase.a, src[c.used..]) > |src| - c.used)
            && (mode.FinishAny? && c.phase.Going? ==>
                  (c.status.NeedsMoreInput? <==> |c.phase.a.hist| < limit))
  {
    hide Advance, Used, Step1;
    var r := Advance(p, s, src, limit);
    AdvanceRests(p, s, src, limit);
    if r.phase.Going? && |r.phase.a.hist| < limit {
      HungryRests(p, r.phase.a, src[r.used..], limit);
    }
    if r.phase.Start? { StartRests(p, src[r.used..], limit); }
  }

  lemma StartRests(p: Props, src: seq<Byte>, limit: nat)
    requires p.lc <= 8 && Advance(p, Start, src, limit) == Reached(Start, 0)
    ensures |src| < 5
  {
    hide Begin;
    if |src| >= 5 && src[0] == 0 { AdvancePhase(p, Begin(p, src), src[5..], limit); }
  }

  /** When a call fails: the bytes are not a stream, or the end mark leaves the code other than 0; and
      with FinishEnd also when output goes past the limit, or what comes at the limit, with the code not
      at 0, is there and is not such an end mark. */
  lemma CallFails(p: Props, s: Phase, src: seq<Byte>, limit: nat, mode: FinishMode)
    requires p.lc <= 8
    ensures var r := Advance(p, s, src, limit);
            !Call(p, s, src, limit, mode).ok <==>
              || r.phase.Corrupt?
              || (r.phase.Over? && r.phase.a.code != 0)
              || (r.phase.Going? && mode.FinishEnd? && |r.phase.a.hist| > limit)
              || (r.phase.Going? && mode.FinishEnd? && |r.phase.a.hist| == limit && r.phase.a.code != 0
                  && r.used <= |src| && var o := Step1(p, r.phase.a, src[r.used..]);
                     Used(p, r.phase.a, src[r.used..]) <= |src| - r.used && !(o.End? && o.a.code == 0))
  {
    hide Advance, Used, Step1;
    AdvanceInside(p, s, src, limit);
  }

  function Shifted(n: nat, c: Reply): Reply {
    if c.ok then Reply(true, c.status, c.phase, n + c.used) else c
  }

  /** The answer of a call is the answer of a call from any point on its way. */
  lemma CallTail(p: Props, s: Phase, src: seq<Byte>, limit: nat, mode: FinishMode, t: Phase, n: nat)
    requires p.lc <= 8 && Leads(p, s, src, limit, t, n)
    ensures var c := Call(p, t, src[n..], limit, mode);
            var d := Call(p, s, src, limit, mode);
            d.ok == c.ok && (c.ok ==> d == Shifted(n, c))
  {
    hide Advance, Used, Step1;
    AdvanceInside(p, t, src[n..], limit);
    var r := Advance(p, t, src[n..], limit);
    if !r.phase.Corrupt? {
      assert src[n..][r.used..] == src[n + r.used..];
    }
  }
}

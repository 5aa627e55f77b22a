/** One symbol of LzmaDec_DecodeReal: decoding it and applying it to the dictionary and to the
    decoder's locals. */
module LzmaCore {
  import opened Basics
  import opened RangeCoder
  import opened DecisionTree
  import opened SymbolGrammar
  import opened GrammarFacts
  import opened SymbolDecoder
  import opened DryDecoder
  import opened History
  import opened LzmaStream

  const MATCH_MIN_LEN := 2
  /** kMatchSpecLenStart: one more than the longest match. */
  const SPEC_LEN := 274

  /** The locals of LzmaDec_DecodeReal other than the range coder. */
  datatype Regs = Regs(state: nat, rep0: nat, rep1: nat, rep2: nat, rep3: nat, dicPos: nat, processedPos: Word,
      len: nat)

  /** The dictionary, the position counter and the dictionary check agree with the history. */
  ghost predicate Linked(p: Props, l: Regs, check: Word, dic: seq<Byte>, h: seq<Byte>) {
    && Holds(dic, l.dicPos, h)
    && (|h| == l.dicPos || p.dicSize <= |dic|)
    && l.processedPos == |h| % WORD
    && (if check == 0 then |h| <= p.dicSize else check == p.dicSize <= |h|)
  }

  /** The machine state that the locals stand for when no match is pending. */
  ghost function Held(l: Regs, rc: Rc, probs: seq<Prob>, h: seq<Byte>): Coder {
    Coder(rc.range, rc.code, probs, l.state, l.rep0, l.rep1, l.rep2, l.rep3, h)
  }

  lemma ModUnique(n: nat, m: nat, q: int, r: nat)
    requires r < m && n == m * q + r
    ensures n % m == r
  {
    var d := q - n / m;
    assert m * q == m * (n / m) + m * d;
    if d >= 1 { MulMono(1, d, m); }
    if d <= -1 { MulMono(d, -1, m); }
  }

  /** The position masks see through the 32-bit wrap of the position counter. */
  lemma ModMask(n: nat, k: nat)
    requires k <= 4
    ensures (n % WORD) % Pow2(k) == n % Pow2(k)
  {
    hide Pow2;
    SmallPowers();
    Pow2Zero();
    var x, y, m := n % WORD, n / WORD, Pow2(k);
    var e := if k == 0 then WORD else if k == 1 then WORD / 2 else if k == 2 then WORD / 4
        else if k == 3 then WORD / 8 else WORD / 16;
    assert m * e == WORD;
    assert m * (e * y + x / m) + x % m == n by {
      assert m * (e * y) == (m * e) * y;
    }
    ModUnique(n, m, e * y + x / m, x % m);
  }

  lemma Pow2Zero()
    ensures Pow2(0) == 1
  {
  }

  /** The guard for an empty history. */
  lemma NoHistory(p: Props, l: Regs, check: Word, dic: seq<Byte>, h: seq<Byte>)
    requires PropsOk(p) && Linked(p, l, check, dic, h)
    ensures check == 0 && l.processedPos == 0 <==> h == []
  {
  }

  /** The distance test is the test against the bytes produced, at most the dictionary size. */
  lemma DistanceTest(p: Props, l: Regs, check: Word, dic: seq<Byte>, h: seq<Byte>)
    requires PropsOk(p) && Linked(p, l, check, dic, h)
    ensures Reach(p, h) == if check == 0 then l.processedPos else check
  {
  }

  /** Every byte within reach is in the dictionary. */
  lemma InDictionary(p: Props, l: Regs, check: Word, dic: seq<Byte>, h: seq<Byte>, k: nat)
    requires Linked(p, l, check, dic, h) && 1 <= k <= Reach(p, h)
    ensures k <= |dic| && k <= |h|
    ensures 0 <= Slot(l.dicPos, k, |dic|) < |dic| && dic[Slot(l.dicPos, k, |dic|)] == Back(h, k)
  {
    HoldsRead(dic, l.dicPos, h, k);
  }

  method LiteralBase(p: Props, dic: array<Byte>, l: Regs, check: Word, ghost h: seq<Byte>) returns (base: nat)
    requires PropsOk(p) && Linked(p, l, check, dic[..], h)
    ensures base == LitBase(p, h)
  {
    hide Pow2, Holds, ShiftLeft, ShiftRight;
    NoHistory(p, l, check, dic[..], h);
    base := LITERAL;
    if check != 0 || l.processedPos != 0 {
      InDictionary(p, l, check, dic[..], h, 1);
      ModMask(|h|, p.lp);
      var prev := dic[(if l.dicPos == 0 then dic.Length else l.dicPos) - 1];
      base := base + LIT_SIZE * (ShiftLeft(l.processedPos % Pow2(p.lp), p.lc) + ShiftRight(prev, 8 - p.lc));
    }
  }

  // ----- decoding a symbol

  method DecodeLiteral(p: Props, probs: array<Prob>, dic: array<Byte>, l: Regs, check: Word, rc: Rc, src: seq<Byte>,
      ghost a: Coder)
    returns (r: Rc, sym: Symbol)
    requires PropsOk(p) && CoderOk(p, a) && a.state == l.state && a.rep0 == l.rep0
        && Linked(p, l, check, dic[..], a.hist)
    requires probs.Length == NumProbs(p)
    requires Run(Literal(CtxOf(p, a)), rc, probs[..], src).rc.buf <= |src|
    modifies probs
    ensures Out(r, probs[..], sym) == Run(Literal(CtxOf(p, a)), rc, old(probs[..]), src) && sym.Lit?
  {
    hide Run, PlainLit, MatchedLit, Holds, LitBase, Pow2;
    CtxFits(p, a);
    var base := LiteralBase(p, dic, l, check, a.hist);
    var byte;
    if l.state < NUM_LIT_STATES {
      r, byte := DecodePlainLiteral(probs, base, rc, src);
    } else {
      InDictionary(p, l, check, dic[..], a.hist, l.rep0);
      var matchByte := dic[(l.dicPos - l.rep0) + (if l.dicPos < l.rep0 then dic.Length else 0)];
      r, byte := DecodeMatchedLiteral(probs, base, matchByte, rc, src);
    }
    sym := Lit(byte);
  }

  /** Every leaf of the program is a symbol of kind `k`. */
  ghost predicate Kinds(d: Dec<Symbol>, k: Dummy) {
    match d
    case Ret(sym) => Kind(sym) == k
    case Bit(_, zero, one) => Kinds(zero, k) && Kinds(one, k)
    case Direct(zero, one) => Kinds(zero, k) && Kinds(one, k)
  }

  lemma {:induction false} RunKind(d: Dec<Symbol>, k: Dummy, rc: Rc, probs: seq<Prob>, src: seq<Byte>)
    requires Kinds(d, k)
    ensures Kind(Run(d, rc, probs, src).val) == k
  {
    hide BitStep, DirectStep, Adapt, At, Put, Kind;
    match d
    case Ret(_) =>
    case Bit(p, zero, one) =>
      var s := BitStep(rc, At(probs, p), src);
      RunKind(if s.bit then one else zero, k, s.rc, Put(probs, p, Adapt(At(probs, p), s.bit)), src);
    case Direct(zero, one) =>
      var s := DirectStep(rc, src);
      RunKind(if s.bit then one else zero, k, s.rc, probs, src);
  }

  lemma {:induction false} KindsRepLen(d: Dec<nat>, which: nat)
    ensures Kinds(Bind(d, AfterRepLen(which)), DummyRep)
  {
    match d
    case Ret(_) =>
    case Bit(p, zero, one) => KindsRepLen(zero, which); KindsRepLen(one, which);
    case Direct(zero, one) => KindsRepLen(zero, which); KindsRepLen(one, which);
  }

  lemma OldMatchKind(c: Ctx, rc: Rc, probs: seq<Prob>, src: seq<Byte>)
    ensures Kind(Run(OldMatch(c), rc, probs, src).val) == DummyRep
  {
    hide LenTree, Bind;
    KindsRepLen(LenTree(REP_LEN_CODER, c.posState), 0);
    KindsRepLen(LenTree(REP_LEN_CODER, c.posState), 1);
    KindsRepLen(LenTree(REP_LEN_CODER, c.posState), 2);
    KindsRepLen(LenTree(REP_LEN_CODER, c.posState), 3);
    assert Kinds(OldMatch(c).one.one, DummyRep);
    assert Kinds(OldMatch(c).zero, DummyRep);
    RunKind(OldMatch(c), DummyRep, rc, probs, src);
  }

  /** The decoding of one symbol. A repeated match with nothing produced yet is given up on as soon
      as it is recognized. */
  method DecodeSymbol(p: Props, probs: array<Prob>, dic: array<Byte>, l: Regs, check: Word, rc: Rc, src: seq<Byte>,
      ghost a: Coder)
    returns (ok: bool, r: Rc, sym: Symbol)
    requires PropsOk(p) && CoderOk(p, a) && a.state == l.state && a.rep0 == l.rep0
        && Linked(p, l, check, dic[..], a.hist)
    requires probs.Length == NumProbs(p)
    requires Run(SymbolTree(CtxOf(p, a)), rc, probs[..], src).rc.buf <= |src|
    modifies probs
    ensures ok ==> Out(r, probs[..], sym) == Run(SymbolTree(CtxOf(p, a)), rc, old(probs[..]), src)
    ensures ok && (sym.Rep? || sym.ShortRep?) ==> a.hist != []
    ensures !ok ==> a.hist == [] && Kind(Run(SymbolTree(CtxOf(p, a)), rc, old(probs[..]), src).val) == DummyRep
  {
    hide BitStep, At, Put, Adapt, Normalize, Literal, NewMatch, OldMatch, Holds, LitBase, Pow2, Kind;
    ghost var c := CtxOf(p, a);
    CtxFits(p, a);
    ModMask(|a.hist|, p.pb);
    var posState := l.processedPos % Pow2(p.pb);
    RunForward(SymbolTree(c), rc, probs[..], src);
    var bit;
    r, bit := GetBit(probs, IS_MATCH + 16 * l.state + posState, rc, src);
    ok := true;
    if !bit {
      r, sym := DecodeLiteral(p, probs, dic, l, check, r, src, a);
    } else {
      RunForward(SymbolTree(c).one, r, probs[..], src);
      r, bit := GetBit(probs, IS_REP + l.state, r, src);
      if !bit {
        r, sym := DecodeNewMatch(probs, c, posState, r, src);
      } else {
        NoHistory(p, l, check, dic[..], a.hist);
        OldMatchKind(c, r, probs[..], src);
        if check == 0 && l.processedPos == 0 {
          return false, r, ShortRep;
        }
        r, sym := DecodeOldMatch(probs, c, l.state, posState, r, src);
      }
    }
  }

  // ----- applying a symbol

  datatype Flow = Continue | Break | DataError

  /** The locals and the history after `count` more bytes. */
  ghost predicate Grown(l: Regs, m: Regs, h: seq<Byte>, g: seq<Byte>, count: nat) {
    m.dicPos == l.dicPos + count && |g| == |h| + count && m.processedPos == (l.processedPos + count) % WORD
  }

  lemma LinkedGrown(p: Props, l: Regs, m: Regs, check: Word, dic: seq<Byte>, dic': seq<Byte>, h: seq<Byte>,
      g: seq<Byte>, count: nat)
    requires Linked(p, l, check, dic, h) && Grown(l, m, h, g, count) && |dic'| == |dic|
    requires Holds(dic', m.dicPos, g)
    requires check == 0 ==> |g| <= p.dicSize
    ensures Linked(p, m, check, dic', g)
  {
    hide Holds;
    assert (|h| % WORD + count) % WORD == (|h| + count) % WORD by {
      ModSum(|h|, count);
    }
  }

  lemma ModSum(x: nat, y: nat)
    ensures (x % WORD + y) % WORD == (x + y) % WORD
  {
  }

  /** What applying a symbol has to leave behind: the machine's next state, of which the last
      `m.len` bytes are still to be written because the output limit was reached. */
  ghost predicate Applied(p: Props, dic: seq<Byte>, l: Regs, check: Word, sym: Symbol, limit: nat, a: Coder, rc: Rc,
      probs: seq<Prob>,
                          flow: Flow, m: Regs, g: seq<Byte>) {
    match flow
    case Continue =>
      && Apply(p, a, rc, probs, sym) == Next(Held(m, rc, probs, Extend(g, m.rep0, m.len)))
      && Linked(p, m, check, dic, g)
      && l.dicPos < m.dicPos <= limit && |g| - |a.hist| == m.dicPos - l.dicPos
      && (m.len > 0 ==> m.dicPos == limit) && m.len < SPEC_LEN
      && g != [] && RepOk(p, g, m.rep0)
    case Break =>
      && sym.EndMark? && m == l.(len := sym.len + SPEC_LEN) && g == a.hist
      && Linked(p, m, check, dic, g)
    case DataError =>
      Apply(p, a, rc, probs, sym) == Bad || (l.dicPos == limit && !sym.EndMark?)
  }

  /** The match copy up to the output limit. */
  method CopyUpTo(p: Props, dic: array<Byte>, l: Regs, check: Word, len: nat, limit: nat, ghost h: seq<Byte>)
    returns (m: Regs, ghost g: seq<Byte>)
    requires PropsOk(p) && Linked(p, l, check, dic[..], h)
    requires h != [] && RepOk(p, h, l.rep0)
    requires l.dicPos < limit <= dic.Length && (check == 0 ==> |h| + limit - l.dicPos <= p.dicSize)
    modifies dic
    ensures m == l.(dicPos := m.dicPos, processedPos := m.processedPos, len := m.len)
    ensures m.dicPos + m.len == l.dicPos + len && m.dicPos <= limit && (m.len > 0 ==> m.dicPos == limit)
    ensures g == Extend(h, l.rep0, len - m.len) && Extend(g, m.rep0, m.len) == Extend(h, l.rep0, len)
    ensures Linked(p, m, check, dic[..], g) && OnlyWithin(old(dic[..]), dic[..], l.dicPos, m.dicPos)
        && l.dicPos <= m.dicPos && h <= g
  {
    hide Holds, Extend, OnlyWithin;
    var rem := limit - l.dicPos;
    var curLen := if rem < len then rem else len;
    ghost var was := dic[..];
    InDictionary(p, l, check, dic[..], h, l.rep0);
    assert Holds(was, l.dicPos, h) by { LinkedHolds(p, l, check, was, h); }
    var end := CopyMatch(dic, l.dicPos, l.rep0, curLen, h);
    m := l.(dicPos := end, processedPos := (l.processedPos + curLen) % WORD, len := len - curLen);
    g := Extend(h, l.rep0, curLen);
    LinkedGrown(p, l, m, check, was, dic[..], h, g, curLen);
    ExtendTwice(h, l.rep0, curLen, len - curLen);
    ExtendPrefix(h, l.rep0, curLen);
  }

  lemma LinkedHolds(p: Props, l: Regs, check: Word, dic: seq<Byte>, h: seq<Byte>)
    requires Linked(p, l, check, dic, h)
    ensures Holds(dic, l.dicPos, h) && l.dicPos <= |dic|
  {
  }

  method AppendByte(p: Props, dic: array<Byte>, l: Regs, check: Word, b: Byte, limit: nat, ghost h: seq<Byte>)
    returns (m: Regs)
    requires PropsOk(p) && Linked(p, l, check, dic[..], h)
    requires l.dicPos < limit <= dic.Length && (check == 0 ==> |h| + limit - l.dicPos <= p.dicSize)
    modifies dic
    ensures m == l.(dicPos := l.dicPos + 1, processedPos := (l.processedPos + 1) % WORD)
    ensures Linked(p, m, check, dic[..], h + [b]) && OnlyWithin(old(dic[..]), dic[..], l.dicPos, m.dicPos)
  {
    hide Holds, OnlyWithin;
    ghost var was := dic[..];
    LinkedHolds(p, l, check, was, h);
    Append(dic, l.dicPos, b, h);
    m := l.(dicPos := l.dicPos + 1, processedPos := (l.processedPos + 1) % WORD);
    LinkedGrown(p, l, m, check, was, dic[..], h, h + [b], 1);
  }

  /** The part of one round of DecodeReal's loop that writes to the dictionary and the locals. */
  method ApplySymbol(p: Props, dic: array<Byte>, l: Regs, check: Word, sym: Symbol, limit: nat, ghost a: Coder,
      ghost rc: Rc,
                     ghost probs: seq<Prob>)
    returns (flow: Flow, m: Regs, ghost g: seq<Byte>)
    requires PropsOk(p) && CoderOk(p, a) && Linked(p, l, check, dic[..], a.hist)
    requires a == Held(l, Rc(a.range, a.code, 0), a.probs, a.hist) && l.len == 0
    requires l.dicPos <= limit <= dic.Length && (check == 0 ==> |a.hist| + limit - l.dicPos <= p.dicSize)
    requires l.dicPos < limit || Kind(sym) == DummyMatch
    requires SymLen(sym) < 272 && (sym.Rep? || sym.ShortRep? ==> a.hist != [])
    modifies dic
    ensures Applied(p, dic[..], l, check, sym, limit, a, rc, probs, flow, m, g)
    ensures l.dicPos <= m.dicPos <= limit && OnlyWithin(old(dic[..]), dic[..], l.dicPos, m.dicPos) && a.hist <= g
  {
    hide Applied, CoderOk, Linked, OnlyWithin;
    if sym.Lit? || sym.ShortRep? {
      m, g := ApplyByte(p, dic, l, check, sym, limit, a, rc, probs);
      flow := Continue;
    } else if sym.Rep? {
      m, g := ApplyRep(p, dic, l, check, sym, limit, a, rc, probs);
      flow := Continue;
    } else {
      flow, m, g := ApplyMatch(p, dic, l, check, sym, limit, a, rc, probs);
    }
  }

  method ApplyByte(p: Props, dic: array<Byte>, l: Regs, check: Word, sym: Symbol, limit: nat, ghost a: Coder,
      ghost rc: Rc,
                   ghost probs: seq<Prob>)
    returns (m: Regs, ghost g: seq<Byte>)
    requires PropsOk(p) && CoderOk(p, a) && Linked(p, l, check, dic[..], a.hist)
    requires a == Held(l, Rc(a.range, a.code, 0), a.probs, a.hist) && l.len == 0
    requires l.dicPos < limit <= dic.Length && (check == 0 ==> |a.hist| + limit - l.dicPos <= p.dicSize)
    requires sym.Lit? || (sym.ShortRep? && a.hist != [])
    modifies dic
    ensures Applied(p, dic[..], l, check, sym, limit, a, rc, probs, Continue, m, g)
    ensures l.dicPos <= m.dicPos <= limit && OnlyWithin(old(dic[..]), dic[..], l.dicPos, m.dicPos) && a.hist <= g
  {
    hide Linked, Extend, NumProbs, RepOk, OnlyWithin;
    var byte;
    if sym.Lit? {
      byte := sym.byte;
    } else {
      RepReach(p, a.hist, l.rep0);
      InDictionary(p, l, check, dic[..], a.hist, l.rep0);
      byte := dic[(l.dicPos - l.rep0) + (if l.dicPos < l.rep0 then dic.Length else 0)];
      ExtendOne(a.hist, l.rep0);
    }
    g := a.hist + [byte];
    m := AppendByte(p, dic, l, check, byte, limit, a.hist);
    if sym.Lit? {
      m := m.(state := if l.state < NUM_LIT_STATES then l.state - (if l.state < 4 then l.state else 3)
                       else l.state - (if l.state < 10 then 3 else 6));
    } else {
      m := m.(state := if l.state < NUM_LIT_STATES then 9 else 11);
    }
    LinkedState(p, dic[..], check, g, m.(state := l.state), m);
    RepStill(p, a.hist, g, l.rep0);
    ExtendNone(g, m.rep0);
  }

  method ApplyRep(p: Props, dic: array<Byte>, l: Regs, check: Word, sym: Symbol, limit: nat, ghost a: Coder,
      ghost rc: Rc,
                  ghost probs: seq<Prob>)
    returns (m: Regs, ghost g: seq<Byte>)
    requires PropsOk(p) && CoderOk(p, a) && Linked(p, l, check, dic[..], a.hist)
    requires a == Held(l, Rc(a.range, a.code, 0), a.probs, a.hist) && l.len == 0
    requires l.dicPos < limit <= dic.Length && (check == 0 ==> |a.hist| + limit - l.dicPos <= p.dicSize)
    requires sym.Rep? && SymLen(sym) < 272 && a.hist != []
    modifies dic
    ensures Applied(p, dic[..], l, check, sym, limit, a, rc, probs, Continue, m, g)
    ensures l.dicPos <= m.dicPos <= limit && OnlyWithin(old(dic[..]), dic[..], l.dicPos, m.dicPos) && a.hist <= g
  {
    hide Linked, Extend, NumProbs, RepOk, OnlyWithin;
    m := l.(state := if l.state < NUM_LIT_STATES then 8 else 11);
    if sym.which != 0 {
      var distance;
      if sym.which == 1 {
        distance := l.rep1;
      } else {
        if sym.which == 2 {
          distance := l.rep2;
        } else {
          distance := l.rep3;
          m := m.(rep3 := l.rep2);
        }
        m := m.(rep2 := l.rep1);
      }
      m := m.(rep1 := l.rep0, rep0 := distance);
    }
    LinkedState(p, dic[..], check, a.hist, l, m);
    m, g := CopyUpTo(p, dic, m, check, sym.len + MATCH_MIN_LEN, limit, a.hist);
    RepStill(p, a.hist, g, m.rep0);
  }

  method ApplyMatch(p: Props, dic: array<Byte>, l: Regs, check: Word, sym: Symbol, limit: nat, ghost a: Coder,
      ghost rc: Rc,
                    ghost probs: seq<Prob>)
    returns (flow: Flow, m: Regs, ghost g: seq<Byte>)
    requires PropsOk(p) && CoderOk(p, a) && Linked(p, l, check, dic[..], a.hist)
    requires a == Held(l, Rc(a.range, a.code, 0), a.probs, a.hist) && l.len == 0
    requires l.dicPos <= limit <= dic.Length && (check == 0 ==> |a.hist| + limit - l.dicPos <= p.dicSize)
    requires (sym.Match? || sym.EndMark?) && SymLen(sym) < 272
    modifies dic
    ensures Applied(p, dic[..], l, check, sym, limit, a, rc, probs, flow, m, g)
    ensures l.dicPos <= m.dicPos <= limit && OnlyWithin(old(dic[..]), dic[..], l.dicPos, m.dicPos) && a.hist <= g
  {
    hide Linked, Extend, NumProbs, RepOk, OnlyWithin;
    WithinSelf(dic[..], l.dicPos, l.dicPos);
    g, m := a.hist, l;
    if sym.EndMark? {
      m := l.(len := sym.len + SPEC_LEN);
      LinkedState(p, dic[..], check, g, l, m);
      return Break, m, g;
    }
    DistanceTest(p, l, check, dic[..], a.hist);
    if check == 0 {
      if sym.distance >= l.processedPos {
        return DataError, m, g;
      }
    } else if sym.distance >= check {
      return DataError, m, g;
    }
    if limit == l.dicPos {
      return DataError, m, g;
    }
    m := l.(state := if l.state < NUM_LIT_STATES then NUM_LIT_STATES else NUM_LIT_STATES + 3,
            rep0 := sym.distance + 1, rep1 := l.rep0, rep2 := l.rep1, rep3 := l.rep2);
    LinkedState(p, dic[..], check, a.hist, l, m);
    RepNew(p, a.hist, sym.distance);
    m, g := CopyUpTo(p, dic, m, check, sym.len + MATCH_MIN_LEN, limit, a.hist);
    RepStill(p, a.hist, g, m.rep0);
    flow := Continue;
  }

  lemma LinkedState(p: Props, dic: seq<Byte>, check: Word, h: seq<Byte>, l: Regs, m: Regs)
    requires Linked(p, l, check, dic, h) && m.dicPos == l.dicPos && m.processedPos == l.processedPos
    ensures Linked(p, m, check, dic, h)
  {
  }

  lemma RepReach(p: Props, h: seq<Byte>, rep: nat)
    requires RepOk(p, h, rep) && h != []
    ensures 1 <= rep <= Reach(p, h)
  {
  }

  lemma RepStill(p: Props, h: seq<Byte>, g: seq<Byte>, rep: nat)
    requires PropsOk(p) && RepOk(p, h, rep) && |h| <= |g| && g != []
    ensures RepOk(p, g, rep)
  {
  }

  lemma ExtendNone(h: seq<Byte>, d: nat)
    ensures Extend(h, d, 0) == h
  {
  }

  lemma ExtendOne(h: seq<Byte>, d: nat)
    ensures Extend(h, d, 1) == h + [Back(h, d)]
  {
    assert Extend(h, d, 0) == h;
  }

  // ----- one round of the loop

  /** A symbol read from the middle of the buffer, with the last normalization still owed, is the
      machine's next symbol on what is left of the input. */
  lemma OneAt(p: Props, a: Coder, rc: Rc, src: seq<Byte>)
    requires PropsOk(p) && CoderOk(p, a) && RangeOk(rc.range)
    requires Normalize(rc, src) == Rc(a.range, a.code, Normalize(rc, src).buf) && Normalize(rc, src).buf <= |src|
    ensures var b := Normalize(rc, src).buf;
            var o := Run(SymbolTree(CtxOf(p, a)), rc, a.probs, src);
            var q := One(p, a, src[b..]);
            o == Out(Moved(q.rc, b), q.probs, q.val) &&
            Normalize(o.rc, src) == Moved(Normalize(q.rc, src[b..]), b) &&
            RangeOk(o.rc.range) && Normalize(o.rc, src).range >= TOP
  {
    hide Run, CtxOf, Literal, NewMatch, OldMatch, Normalize, RangeOk, NumProbs, RepOk;
    var d := SymbolTree(CtxOf(p, a));
    var b := Normalize(rc, src).buf;
    RunNormalized(d, rc, a.probs, src);
    RunMoved(d, Rc(a.range, a.code, 0), a.probs, src, b);
    OneKeeps(p, a, src[b..]);
    var q := One(p, a, src[b..]);
    StepMoved(q.rc, 1024, src, b);
  }

  /** Between two symbols: the locals stand for the machine state `a`, up to a pending
      normalization and the `l.len` bytes still to be written; `g` is what was written. */
  ghost predicate AtRest(p: Props, l: Regs, check: Word, rc: Rc, probs: seq<Prob>, dic: seq<Byte>, src: seq<Byte>,
      a: Coder, g: seq<Byte>) {
    && CoderOk(p, a) && RangeOk(rc.range) && Normalize(rc, src).buf <= |src|
    && a == Held(l, Normalize(rc, src), probs, Extend(g, l.rep0, l.len))
    && Linked(p, l, check, dic, g)
  }

  /** Decodes and applies one symbol. */
  method Round(p: Props, probs: array<Prob>, dic: array<Byte>, l: Regs, check: Word, rc: Rc, src: seq<Byte>,
      limit: nat, ghost a: Coder)
    returns (flow: Flow, m: Regs, r: Rc, ghost g: seq<Byte>)
    requires PropsOk(p) && probs.Length == NumProbs(p) && AtRest(p, l, check, rc, probs[..], dic[..], src, a, a.hist)
        && l.len == 0
    requires Used(p, a, src[Normalize(rc, src).buf..]) <= |src| - Normalize(rc, src).buf
    requires l.dicPos <= limit <= dic.Length && (check == 0 ==> |a.hist| + limit - l.dicPos <= p.dicSize)
    requires l.dicPos < limit || Kind(One(p, a, src[Normalize(rc, src).buf..]).val) == DummyMatch
    modifies probs, dic
    ensures var b := Normalize(rc, src).buf;
            var o := Step1(p, a, src[b..]);
            && (flow == DataError ==> o == Bad || (l.dicPos == limit && !o.End?))
            && (flow != DataError ==> RangeOk(r.range) && Normalize(r, src).buf == b + Used(p, a, src[b..]))
            && (flow == Continue ==> (
                  && o.Next? && AtRest(p, m, check, r, probs[..], dic[..], src, o.a, g)
                  && l.dicPos < m.dicPos <= limit && |g| - |a.hist| == m.dicPos - l.dicPos && g != []
                      && RepOk(p, g, m.rep0)
                  && (m.len > 0 ==> m.dicPos == limit) && m.len < SPEC_LEN))
            && (flow == Break ==> (
                  && o == End(Held(m, Normalize(r, src), probs[..], g)) && g == a.hist && m.dicPos == l.dicPos
                  && Linked(p, m, check, dic[..], g) && m.len >= SPEC_LEN))
    ensures l.dicPos <= m.dicPos <= limit && OnlyWithin(old(dic[..]), dic[..], l.dicPos, m.dicPos) && a.hist <= g
  {
    hide OnlyWithin, Run, SymbolTree, CtxOf, Normalize, NumProbs, RepOk, RangeOk, Kind, SymLen, CoderOk, Linked,
        Extend, Apply, Applied;
    ghost var b := Normalize(rc, src).buf;
    ghost var before := probs[..];
    ghost var q := One(p, a, src[b..]);
    OneAt(p, a, rc, src);
    ExtendNone(a.hist, l.rep0);
    ghost var o := Run(SymbolTree(CtxOf(p, a)), rc, before, src);
    NormalizeForward(o.rc, src);
    SymbolShort(CtxOf(p, a), rc, before, src);
    StepKeeps(p, a, src[b..]);
    var ok, sym;
    ok, r, sym := DecodeSymbol(p, probs, dic, l, check, rc, src, a);
    if !ok {
      BadRep(p, a, Normalize(q.rc, src[b..]), q.probs, q.val);
      WithinSelf(dic[..], l.dicPos, l.dicPos);
      return DataError, l, r, a.hist;
    }
    flow, m, g := ApplySymbol(p, dic, l, check, sym, limit, a, Normalize(q.rc, src[b..]), q.probs);
    RoundDone(p, dic[..], l, check, sym, limit, a, Normalize(q.rc, src[b..]), q.probs, flow, m, g, Normalize(r, src));
  }

  lemma NormalizeForward(rc: Rc, src: seq<Byte>)
    ensures rc.buf <= Normalize(rc, src).buf
  {
  }

  lemma BadRep(p: Props, a: Coder, rc: Rc, probs: seq<Prob>, sym: Symbol)
    requires a.hist == [] && Kind(sym) == DummyRep
    ensures Apply(p, a, rc, probs, sym) == Bad
  {
  }

  lemma ApplyEnd(p: Props, a: Coder, rc: Rc, probs: seq<Prob>, sym: Symbol)
    ensures Apply(p, a, rc, probs, sym).End? <==> sym.EndMark?
    ensures sym.EndMark? ==> Apply(p, a, rc, probs, sym) == End(a.(range := rc.range, code := rc.code, probs := probs))
  {
  }

  /** What Applied says, in the terms of the next loop round. */
  lemma RoundDone(p: Props, dic: seq<Byte>, l: Regs, check: Word, sym: Symbol, limit: nat, a: Coder, rc: Rc,
      probs: seq<Prob>,
                  flow: Flow, m: Regs, g: seq<Byte>, r: Rc)
    requires Applied(p, dic, l, check, sym, limit, a, rc, probs, flow, m, g)
    requires a == Held(l, Rc(a.range, a.code, 0), a.probs, a.hist) && r.range == rc.range && r.code == rc.code
    ensures flow == Continue ==>
              && Apply(p, a, rc, probs, sym) == Next(Held(m, r, probs, Extend(g, m.rep0, m.len)))
              && Linked(p, m, check, dic, g)
              && l.dicPos < m.dicPos <= limit && |g| - |a.hist| == m.dicPos - l.dicPos
              && g != [] && RepOk(p, g, m.rep0) && (m.len > 0 ==> m.dicPos == limit) && m.len < SPEC_LEN
    ensures flow == Break ==>
              && Apply(p, a, rc, probs, sym) == End(Held(m, r, probs, g)) && g == a.hist && m.dicPos == l.dicPos
              && Linked(p, m, check, dic, g) && m.len >= SPEC_LEN
    ensures flow == DataError ==>
              Apply(p, a, rc, probs, sym) == Bad || (l.dicPos == limit && !Apply(p, a, rc, probs, sym).End?)
  {
    hide Linked, Extend, RepOk, Apply;
    ApplyEnd(p, a, rc, probs, sym);
  }
}

/** LzmaDec_TryDummy over the decoder's table and dictionary. */
module LzmaDry {
  import opened Basics
  import opened RangeCoder
  import opened DecisionTree
  import opened SymbolGrammar
  import opened TableFacts
  import opened DryDecoder
  import opened History
  import opened LzmaStream
  import opened LzmaCore

  method LiteralCheck(p: Props, probs: array<Prob>, dic: array<Byte>, l: Regs, check: Word, rc: Rc, src: seq<Byte>,
      ghost a: Coder)
    returns (err: bool, r: Rc, ghost sym: Symbol)
    requires PropsOk(p) && CoderOk(p, a) && a.state == l.state && a.rep0 == l.rep0
        && Linked(p, l, check, dic[..], a.hist)
    requires probs.Length == NumProbs(p) && rc.buf <= |src|
    ensures Dried(Literal(CtxOf(p, a)), rc, probs[..], src, err, r, sym) && sym.Lit?
  {
    hide RunDry, PlainLit, MatchedLit, Holds, LitBase, Pow2, NumProbs, RepOk;
    CtxFits(p, a);
    var base := LiteralBase(p, dic, l, check, a.hist);
    if l.state < NUM_LIT_STATES {
      err, r, sym := PlainLiteralCheck(probs, base, rc, src);
    } else {
      RepReach(p, a.hist, l.rep0);
      InDictionary(p, l, check, dic[..], a.hist, l.rep0);
      var matchByte := dic[(l.dicPos - l.rep0) + (if l.dicPos < l.rep0 then dic.Length else 0)];
      err, r, sym := MatchedLiteralCheck(probs, base, matchByte, rc, src);
    }
  }

  /** All of one symbol but its last normalization. */
  method SymbolCheck(p: Props, probs: array<Prob>, dic: array<Byte>, l: Regs, check: Word, rc: Rc, src: seq<Byte>,
      ghost a: Coder)
    returns (err: bool, r: Rc, res: Dummy)
    requires PropsOk(p) && CoderOk(p, a) && a.state == l.state && a.rep0 == l.rep0
        && Linked(p, l, check, dic[..], a.hist)
    requires probs.Length == NumProbs(p) && rc.buf <= |src|
    ensures var o := RunDry(SymbolTree(CtxOf(p, a)), rc, probs[..], src);
            (err <==> o.rc.buf > |src|) && (!err ==> r == o.rc && res == Kind(o.val))
  {
    hide RunDry, BitStep, At, Normalize, Literal, NewMatch, OldMatch, Holds, LitBase, Pow2, NumProbs, RepOk;
    ghost var c := CtxOf(p, a);
    ghost var d := SymbolTree(c);
    CtxFits(p, a);
    ModMask(|a.hist|, p.pb);
    var posState := l.processedPos % Pow2(p.pb);
    RunDryForward(d, rc, probs[..], src);
    DryUnfold(d, rc, probs[..], src);
    res := DummyError;
    var bit;
    err, r, bit := GetBitCheck(probs, IS_MATCH + 16 * l.state + posState, rc, src);
    if err {
      return;
    }
    if !bit {
      ghost var sym;
      err, r, sym := LiteralCheck(p, probs, dic, l, check, r, src, a);
      res := DummyLit;
    } else {
      err, r, res := MatchCheck(probs, c, l.state, posState, r, src);
    }
  }

  /** The dry run answers "error" exactly when the decoder's next symbol, its last normalization
      included, would need more bytes than there are, and otherwise names the kind of symbol that
      the decoder will find. */
  method TryDummy(p: Props, probs: array<Prob>, dic: array<Byte>, l: Regs, check: Word, range: Word, code: Word,
      src: seq<Byte>,
                  ghost a: Coder)
    returns (res: Dummy)
    requires PropsOk(p) && CoderOk(p, a) && Linked(p, l, check, dic[..], a.hist) && probs.Length == NumProbs(p)
    requires a == Held(l, Rc(range, code, 0), probs[..], a.hist)
    ensures res == DummyError <==> Used(p, a, src) > |src|
    ensures res != DummyError ==> res == Kind(One(p, a, src).val)
  {
    hide Run, RunDry, SymbolTree, CtxOf, Normalize, NumProbs, RepOk, Linked;
    ghost var rc := Rc(range, code, 0);
    ghost var c := CtxOf(p, a);
    DryTwin(p, a, src);
    var err, r;
    err, r, res := SymbolCheck(p, probs, dic, l, check, Rc(range, code, 0), src, a);
    NormalizeForward(One(p, a, src).rc, src);
    if err {
      return DummyError;
    }
    err, r := NormalizeCheck(r, src);
    if err {
      return DummyError;
    }
  }

  lemma DryTwin(p: Props, a: Coder, src: seq<Byte>)
    requires PropsOk(p) && CoderOk(p, a)
    ensures var o := RunDry(SymbolTree(CtxOf(p, a)), Rc(a.range, a.code, 0), a.probs, src);
            o.rc == One(p, a, src).rc && o.val == One(p, a, src).val
  {
    hide Run, RunDry, SymbolTree, CoderOk;
    CtxFits(p, a);
    CtxState(p, a);
    DrySymbolIsSymbol(CtxOf(p, a), Rc(a.range, a.code, 0), a.probs, src);
  }

  lemma CtxState(p: Props, a: Coder)
    requires PropsOk(p) && CoderOk(p, a)
    ensures CtxOf(p, a).state == a.state < NUM_STATES
  {
  }
}

/** LzmaDec_TryDummy: decoding one symbol without touching the state, to learn whether the input
    at hand is enough for it and what kind of symbol it is. */
module DryDecoder {
  import opened Basics
  import opened RangeCoder
  import opened DecisionTree
  import opened SymbolGrammar
  import opened GrammarFacts

  datatype Dummy = DummyError | DummyLit | DummyMatch | DummyRep

  function Kind(sym: Symbol): (r: Dummy)
    ensures !r.DummyError? && (r.DummyLit? <==> sym.Lit?) && (r.DummyRep? <==> sym.ShortRep? || sym.Rep?)
  {
    match sym
    case Lit(_) => DummyLit
    case ShortRep => DummyRep
    case Rep(_, _) => DummyRep
    case Match(_, _) => DummyMatch
    case EndMark(_) => DummyMatch
  }

  /** NORMALIZE_CHECK. */
  method NormalizeCheck(rc: Rc, src: seq<Byte>) returns (err: bool, r: Rc)
    requires rc.buf <= |src|
    ensures err <==> Normalize(rc, src).buf > |src|
    ensures !err ==> r == Normalize(rc, src)
  {
    err, r := false, rc;
    if rc.range < TOP {
      if rc.buf >= |src| {
        return true, rc;
      }
      r := Rc((rc.range * 0x100) % WORD, (rc.code * 0x100) % WORD + src[rc.buf], rc.buf + 1);
    }
  }

  /** IF_BIT_0_CHECK with UPDATE_0_CHECK or UPDATE_1_CHECK. */
  method GetBitCheck(probs: array<Prob>, p: nat, rc: Rc, src: seq<Byte>) returns (err: bool, r: Rc, bit: bool)
    requires p < probs.Length && rc.buf <= |src|
    ensures err <==> Normalize(rc, src).buf > |src|
    ensures !err ==> Step(r, bit) == BitStep(rc, At(probs[..], p), src) && r.buf <= |src|
  {
    var ttt := probs[p];
    var n;
    err, n := NormalizeCheck(rc, src);
    if err {
      return true, rc, false;
    }
    var bound := (n.range / 2048 * ttt) % WORD;
    if n.code < bound {
      r, bit := Rc(bound, n.code, n.buf), false;
    } else {
      r, bit := Rc((n.range - bound) % WORD, n.code - bound, n.buf), true;
    }
  }

  /** Whether a dry run of `d` finds all its bytes, and if so where it ends. */
  ghost predicate Dried<R>(d: Dec<R>, rc: Rc, probs: seq<Prob>, src: seq<Byte>, err: bool, r: Rc, val: R) {
    if err then RunDry(d, rc, probs, src).rc.buf > |src|
    else RunDry(d, rc, probs, src) == Out(r, probs, val) && r.buf <= |src|
  }

  method TreeCheck(probs: array<Prob>, base: nat, limit: nat, offset: nat, rc: Rc, src: seq<Byte>)
    returns (err: bool, r: Rc, val: nat)
    requires limit >= 1 && base + limit <= probs.Length && rc.buf <= |src|
    ensures Dried(Tree(base, 1, limit, offset), rc, probs[..], src, err, r, val)
  {
    hide BitStep, At, Normalize;
    r := rc;
    var i := 1;
    while i < limit
      invariant i >= 1 && r.buf <= |src|
      invariant RunDry(Tree(base, i, limit, offset), r, probs[..], src) ==
          RunDry(Tree(base, 1, limit, offset), rc, probs[..], src)
    {
      RunDryForward(Tree(base, i, limit, offset), r, probs[..], src);
      var bit;
      err, r, bit := GetBitCheck(probs, base + i, r, src);
      if err {
        return true, rc, 0;
      }
      i := if bit then 2 * i + 1 else 2 * i;
    }
    err, val := false, i - limit + offset;
  }

  method PlainLiteralCheck(probs: array<Prob>, base: nat, rc: Rc, src: seq<Byte>)
      returns (err: bool, r: Rc, ghost sym: Symbol)
    requires base + LIT_SIZE <= probs.Length && rc.buf <= |src|
    ensures Dried(PlainLit(base, 1), rc, probs[..], src, err, r, sym) && sym.Lit?
  {
    hide BitStep, At, Normalize;
    r := rc;
    var symbol := 1;
    while symbol < 0x100
      invariant 1 <= symbol < 0x200 && r.buf <= |src|
      invariant RunDry(PlainLit(base, symbol), r, probs[..], src) == RunDry(PlainLit(base, 1), rc, probs[..], src)
    {
      RunDryForward(PlainLit(base, symbol), r, probs[..], src);
      var bit;
      err, r, bit := GetBitCheck(probs, base + symbol, r, src);
      if err {
        return true, rc, Lit(0);
      }
      symbol := if bit then 2 * symbol + 1 else 2 * symbol;
    }
    err, sym := false, Lit(symbol - 0x100);
  }

  method MatchedLiteralCheck(probs: array<Prob>, base: nat, match0: Byte, rc: Rc, src: seq<Byte>)
    returns (err: bool, r: Rc, ghost sym: Symbol)
    requires base + LIT_SIZE <= probs.Length && rc.buf <= |src|
    ensures Dried(MatchedLit(base, 0x100, match0, 1), rc, probs[..], src, err, r, sym) && sym.Lit?
  {
    hide BitStep, At, Normalize;
    r := rc;
    var symbol, offs := 1, 0x100;
    var matchByte: nat := match0;
    while symbol < 0x100
      invariant 1 <= symbol < 0x200 && (offs == 0 || offs == 0x100) && r.buf <= |src|
      invariant RunDry(MatchedLit(base, offs, matchByte, symbol), r, probs[..], src)
             == RunDry(MatchedLit(base, 0x100, match0, 1), rc, probs[..], src)
      decreases 0x200 - symbol
    {
      RunDryForward(MatchedLit(base, offs, matchByte, symbol), r, probs[..], src);
      matchByte := 2 * matchByte;
      var test := TestBit(matchByte, offs);
      var bit;
      err, r, bit := GetBitCheck(probs, base + offs + test + symbol, r, src);
      if err {
        return true, rc, Lit(0);
      }
      if bit {
        symbol := 2 * symbol + 1;
        offs := test;
      } else {
        symbol := 2 * symbol;
        offs := offs - test;
      }
    }
    err, sym := false, Lit(symbol - 0x100);
  }

  method LenCheck(probs: array<Prob>, base: nat, posState: nat, rc: Rc, src: seq<Byte>)
      returns (err: bool, r: Rc, len: nat)
    requires base + NUM_LEN_PROBS <= probs.Length && posState < 16 && rc.buf <= |src|
    ensures Dried(LenTree(base, posState), rc, probs[..], src, err, r, len)
  {
    hide BitStep, At, Normalize, Tree;
    ghost var d := LenTree(base, posState);
    RunDryForward(d, rc, probs[..], src);
    var bit;
    err, r, bit := GetBitCheck(probs, base, rc, src);
    if err {
      return true, rc, 0;
    }
    if !bit {
      err, r, len := TreeCheck(probs, base + LEN_LOW + 8 * posState, 8, 0, r, src);
    } else {
      RunDryForward(d.one, r, probs[..], src);
      err, r, bit := GetBitCheck(probs, base + 1, r, src);
      if err {
        return true, rc, 0;
      }
      if !bit {
        err, r, len := TreeCheck(probs, base + LEN_MID + 8 * posState, 8, 8, r, src);
      } else {
        err, r, len := TreeCheck(probs, base + LEN_HIGH, 256, 16, r, src);
      }
    }
  }

  /** The dry run's branch-free direct bits. */
  method DirectCheck(probs: array<Prob>, n: nat, ghost start: nat, rc: Rc, src: seq<Byte>)
    returns (err: bool, r: Rc, ghost distance: nat)
    requires rc.buf <= |src|
    ensures Dried(DirectBits(n, start), rc, probs[..], src, err, r, distance)
  {
    hide DirectStep, Normalize, RealDirect, DryDirect;
    r := rc;
    distance := start;
    var left := n;
    while left != 0
      invariant 0 <= left <= n && r.buf <= |src|
      invariant RunDry(DirectBits(left, distance), r, probs[..], src) ==
          RunDry(DirectBits(n, start), rc, probs[..], src)
    {
      RunDryForward(DirectBits(left, distance), r, probs[..], src);
      DirectStepIs(r, src);
      ghost var s := DirectStep(r, src);
      var m;
      err, m := NormalizeCheck(r, src);
      if err {
        return true, rc, 0;
      }
      r := Rc(m.range / 2, DryDirect(m.range / 2, m.code), m.buf);
      distance := if s.bit then 2 * distance + 1 else 2 * distance;
      left := left - 1;
    }
    err := false;
  }

  /** The tree walk shared by the SpecPos trees and the align tree; the bits themselves are dropped. */
  method ReverseCheck(probs: array<Prob>, base: nat, n: nat, ghost start: nat, ghost len: nat, rc: Rc, src: seq<Byte>)
    returns (err: bool, r: Rc, ghost sym: Symbol)
    requires base + Pow2(n) <= probs.Length && rc.buf <= |src|
    ensures Dried(Reverse(base, 1, n, start, 1, len), rc, probs[..], src, err, r, sym)
    ensures Kind(sym) == DummyMatch
  {
    hide BitStep, At, Normalize;
    r := rc;
    ghost var distance, mask := start, 1;
    var i, left := 1, n;
    while left != 0
      invariant 0 <= left <= n && i >= 1 && mask >= 1 && r.buf <= |src| && distance >= 0
      invariant (i + 1) * Pow2(left) <= 2 * Pow2(n)
      invariant RunDry(Reverse(base, i, left, distance, mask, len), r, probs[..], src)
             == RunDry(Reverse(base, 1, n, start, 1, len), rc, probs[..], src)
    {
      RunDryForward(Reverse(base, i, left, distance, mask, len), r, probs[..], src);
      NodeInside(i, left, n);
      var bit;
      err, r, bit := GetBitCheck(probs, base + i, r, src);
      if err {
        return true, rc, Match(0, 0);
      }
      if bit {
        i := 2 * i + 1;
        distance := distance + mask;
      } else {
        i := 2 * i;
      }
      mask := 2 * mask;
      left := left - 1;
    }
    err, sym := false, MatchSymbol(len, distance);
  }

  /** From the length of a new match to its end: slot, direct bits and reversed tree. */
  method DistanceCheck(probs: array<Prob>, len: nat, rc: Rc, src: seq<Byte>)
      returns (err: bool, r: Rc, ghost sym: Symbol)
    requires LITERAL <= probs.Length && rc.buf <= |src|
    ensures Dried(AfterLen()(len), rc, probs[..], src, err, r, sym)
    ensures Kind(sym) == DummyMatch
  {
    hide Tree, Bind, AfterSlot, RunDry;
    var base := POS_SLOT + 64 * LenState(len);
    ghost var before := probs[..];
    DryBind(Tree(base, 1, 64, 0), AfterSlot(len), rc, before, src);
    SlotBelow(base, rc, before, src);
    var slot;
    err, r, slot := TreeCheck(probs, base, 64, 0, rc, src);
    if err {
      return true, rc, Match(0, 0);
    }
    err, r, sym := SlotCheck(probs, len, slot, r, src);
  }

  lemma DryBind<A, B>(d: Dec<A>, k: A -> Dec<B>, rc: Rc, probs: seq<Prob>, src: seq<Byte>)
    ensures var o := RunDry(d, rc, probs, src);
            RunDry(Bind(d, k), rc, probs, src) == RunDry(k(o.val), o.rc, o.probs, src)
            && RunDry(Bind(d, k), rc, probs, src).rc.buf >= o.rc.buf
            && o.probs == probs
  {
    hide RunDry, Bind;
    RunDryBind(d, k, rc, probs, src);
    var o := RunDry(d, rc, probs, src);
    RunDryForward(k(o.val), o.rc, o.probs, src);
    DryKeepsProbs(d, rc, probs, src);
  }

  lemma {:induction false} DryKeepsProbs<R>(d: Dec<R>, rc: Rc, probs: seq<Prob>, src: seq<Byte>)
    ensures RunDry(d, rc, probs, src).probs == probs
  {
    hide BitStep, DirectStep, At;
    match d
    case Ret(_) =>
    case Bit(p, zero, one) =>
      var s := BitStep(rc, At(probs, p), src);
      DryKeepsProbs(if s.bit then one else zero, s.rc, probs, src);
    case Direct(zero, one) =>
      var s := DirectStep(rc, src);
      DryKeepsProbs(if s.bit then one else zero, s.rc, probs, src);
  }

  lemma {:induction false} DryBelow(d: Dec<nat>, hi: nat, rc: Rc, probs: seq<Prob>, src: seq<Byte>)
    requires Below(d, hi)
    ensures RunDry(d, rc, probs, src).val < hi
  {
    hide BitStep, DirectStep, At;
    match d
    case Ret(_) =>
    case Bit(p, zero, one) =>
      var s := BitStep(rc, At(probs, p), src);
      DryBelow(if s.bit then one else zero, hi, s.rc, probs, src);
    case Direct(zero, one) =>
      var s := DirectStep(rc, src);
      DryBelow(if s.bit then one else zero, hi, s.rc, probs, src);
  }

  lemma SlotBelow(base: nat, rc: Rc, probs: seq<Prob>, src: seq<Byte>)
    ensures RunDry(Tree(base, 1, 64, 0), rc, probs, src).val < 64
  {
    hide Tree, RunDry, Shallow, Below;
    assert Pow2(6) == 64;
    TreeShape(base, 1, 64, 0, 6);
    DryBelow(Tree(base, 1, 64, 0), 64, rc, probs, src);
  }

  method SlotCheck(probs: array<Prob>, len: nat, slot: nat, rc: Rc, src: seq<Byte>)
      returns (err: bool, r: Rc, ghost sym: Symbol)
    requires LITERAL <= probs.Length && rc.buf <= |src| && slot < 64
    ensures Dried(AfterSlot(len)(slot), rc, probs[..], src, err, r, sym)
    ensures Kind(sym) == DummyMatch
  {
    hide Reverse, Bind, DirectBits, Pow2, SpecBase, SlotDistance, RunDry;
    err, r, sym := false, rc, MatchSymbol(len, slot);
    DryRet(sym, rc, probs[..], src);
    if slot >= START_POS_MODEL {
      if slot < END_POS_MODEL {
        SpecInside(slot);
        err, r, sym := ReverseCheck(probs, SpecBase(slot), SlotBits(slot), SlotDistance(slot), len, rc, src);
      } else {
        ghost var n, start := SlotBits(slot) - 4, 2 + slot % 2;
        DryBind(DirectBits(n, start), AfterDirect(len), rc, probs[..], src);
        ghost var high;
        err, r, high := DirectCheck(probs, SlotBits(slot) - 4, start, rc, src);
        if err {
          return true, rc, Match(0, 0);
        }
        Sixteen();
        err, r, sym := ReverseCheck(probs, ALIGN, 4, 16 * high, len, r, src);
      }
    }
  }

  lemma Sixteen()
    ensures Pow2(4) == 16
  {
  }

  lemma DryRet<R>(v: R, rc: Rc, probs: seq<Prob>, src: seq<Byte>)
    ensures RunDry(Ret(v), rc, probs, src) == Out(rc, probs, v)
  {
  }

  /** The four ways to an old distance, up to the choice of which: the dry run forgets the choice. */
  method OldDistanceCheck(probs: array<Prob>, ghost c: Ctx, state: nat, posState: nat, rc: Rc, src: seq<Byte>)
    returns (err: bool, r: Rc, short: bool, ghost which: nat)
    requires LITERAL <= probs.Length && posState == c.posState < 16 && state == c.state < NUM_STATES && rc.buf <= |src|
    ensures err ==> RunDry(OldMatch(c), rc, probs[..], src).rc.buf > |src|
    ensures !err ==> r.buf <= |src|
    ensures !err && short ==> RunDry(OldMatch(c), rc, probs[..], src) == Out(r, probs[..], ShortRep)
    ensures !err && !short ==> RunDry(OldMatch(c), rc, probs[..], src) == RunDry(RepLen(c, which), r, probs[..], src)
  {
    hide BitStep, At, Normalize, RepLen;
    ghost var d := OldMatch(c);
    RunDryForward(d, rc, probs[..], src);
    var bit;
    short, which := false, 0;
    err, r, bit := GetBitCheck(probs, IS_REP_G0 + state, rc, src);
    if err {
      return;
    }
    if !bit {
      RunDryForward(d.zero, r, probs[..], src);
      err, r, bit := GetBitCheck(probs, IS_REP0_LONG + 16 * state + posState, r, src);
      if err {
        return;
      }
      short := !bit;
    } else {
      RunDryForward(d.one, r, probs[..], src);
      err, r, bit := GetBitCheck(probs, IS_REP_G1 + state, r, src);
      if err {
        return;
      }
      which := 1;
      if bit {
        RunDryForward(d.one.one, r, probs[..], src);
        err, r, bit := GetBitCheck(probs, IS_REP_G2 + state, r, src);
        which := if bit then 3 else 2;
      }
    }
  }

  /** The dry run of a symbol that is not a literal. The local `state` only tells a new match (0)
      from a repeated one (kNumStates) once the distance source is known. */
  method MatchCheck(probs: array<Prob>, ghost c: Ctx, state0: nat, posState: nat, rc: Rc, src: seq<Byte>)
    returns (err: bool, r: Rc, res: Dummy)
    requires LITERAL <= probs.Length && posState == c.posState < 16 && state0 == c.state < NUM_STATES && rc.buf <= |src|
    ensures var o := RunDry(SymbolTree(c).one, rc, probs[..], src);
            (err <==> o.rc.buf > |src|) && (!err ==> r == o.rc && res == Kind(o.val))
  {
    hide BitStep, At, Normalize, LenTree, Bind, OldMatch, RunDry;
    ghost var d := SymbolTree(c).one;
    RunDryForward(d, rc, probs[..], src);
    DryUnfold(d, rc, probs[..], src);
    ghost var sym := ShortRep;
    res := DummyError;
    var state, base, bit := state0, 0, false;
    ghost var k := AfterLen();
    err, r, bit := GetBitCheck(probs, IS_REP + state, rc, src);
    if err {
      return;
    }
    if !bit {
      state := 0;
      base := LEN_CODER;
      res := DummyMatch;
    } else {
      res := DummyRep;
      var short;
      ghost var which;
      err, r, short, which := OldDistanceCheck(probs, c, state, posState, r, src);
      if err || short {
        return;
      }
      k := AfterRepLen(which);
      state := NUM_STATES;
      base := REP_LEN_CODER;
    }
    DryBind(LenTree(base, posState), k, r, probs[..], src);
    var len;
    err, r, len := LenCheck(probs, base, posState, r, src);
    if err {
      return;
    }
    if state < 4 {
      err, r, sym := DistanceCheck(probs, len, r, src);
    } else {
      sym := k(len).val;
      DryRet(sym, r, probs[..], src);
    }
  }

  lemma DryUnfold<R>(d: Dec<R>, rc: Rc, probs: seq<Prob>, src: seq<Byte>)
    requires d.Bit?
    ensures var s := BitStep(rc, At(probs, d.p), src);
            RunDry(d, rc, probs, src) == RunDry(if s.bit then d.one else d.zero, s.rc, probs, src)
  {
  }
}

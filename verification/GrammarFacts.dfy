/** What every symbol's decision tree satisfies: it fits in twenty bytes, and the lengths it finds are
    short. */
module GrammarFacts {
  import opened Basics
  import opened RangeCoder
  import opened DecisionTree
  import opened SymbolGrammar

  // ----- shapes

  /** Adaptive bits only, at most `n` of them on any path. */
  ghost predicate Shallow<R>(d: Dec<R>, n: nat) {
    match d
    case Ret(_) => true
    case Bit(_, zero, one) => n > 0 && Shallow(zero, n - 1) && Shallow(one, n - 1)
    case Direct(_, _) => false
  }

  ghost predicate Below(d: Dec<nat>, hi: nat) {
    match d
    case Ret(v) => v < hi
    case Bit(_, zero, one) => Below(zero, hi) && Below(one, hi)
    case Direct(zero, one) => Below(zero, hi) && Below(one, hi)
  }

  lemma {:induction false} TreeShape(base: nat, i: nat, limit: nat, offset: nat, n: nat)
    requires 1 <= i < 2 * limit && limit <= i * Pow2(n)
    ensures Shallow(Tree(base, i, limit, offset), n) && Below(Tree(base, i, limit, offset), limit + offset)
    decreases limit - i
  {
    if i < limit {
      assert n > 0;
      assert i * Pow2(n) == (2 * i) * Pow2(n - 1);
      assert (2 * i + 1) * Pow2(n - 1) >= (2 * i) * Pow2(n - 1);
      TreeShape(base, 2 * i, limit, offset, n - 1);
      TreeShape(base, 2 * i + 1, limit, offset, n - 1);
    }
  }

  lemma {:induction false} ShallowMore<R>(d: Dec<R>, n: nat, m: nat)
    requires Shallow(d, n) && n <= m
    ensures Shallow(d, m)
  {
    match d
    case Ret(_) =>
    case Bit(_, zero, one) =>
      ShallowMore(zero, n - 1, m - 1);
      ShallowMore(one, n - 1, m - 1);
  }

  lemma {:induction false} BelowMore(d: Dec<nat>, hi: nat, hi': nat)
    requires Below(d, hi) && hi <= hi'
    ensures Below(d, hi')
  {
    match d
    case Ret(_) =>
    case Bit(_, zero, one) => BelowMore(zero, hi, hi'); BelowMore(one, hi, hi');
    case Direct(zero, one) => BelowMore(zero, hi, hi'); BelowMore(one, hi, hi');
  }

  lemma {:induction false} RunBelow(d: Dec<nat>, hi: nat, rc: Rc, probs: seq<Prob>, src: seq<Byte>)
    requires Below(d, hi)
    ensures Run(d, rc, probs, src).val < hi
  {
    hide BitStep, DirectStep, Adapt, At, Put;
    match d
    case Ret(_) =>
    case Bit(p, zero, one) =>
      var s := BitStep(rc, At(probs, p), src);
      RunBelow(if s.bit then one else zero, hi, s.rc, Put(probs, p, Adapt(At(probs, p), s.bit)), src);
    case Direct(zero, one) =>
      var s := DirectStep(rc, src);
      RunBelow(if s.bit then one else zero, hi, s.rc, probs, src);
  }

  lemma LenTreeJoin(base: nat, posState: nat)
    requires var low := Tree(base + LEN_LOW + 8 * posState, 1, 8, 0); Shallow(low, 9) && Below(low, 272)
    requires var mid := Tree(base + LEN_MID + 8 * posState, 1, 8, 8); Shallow(mid, 8) && Below(mid, 272)
    requires var high := Tree(base + LEN_HIGH, 1, 256, 16); Shallow(high, 8) && Below(high, 272)
    ensures Shallow(LenTree(base, posState), 10) && Below(LenTree(base, posState), 272)
  {
    hide Tree;
  }

  lemma LenTreeShape(base: nat, posState: nat)
    ensures Shallow(LenTree(base, posState), 10) && Below(LenTree(base, posState), 272)
  {
    hide Tree, Shallow, Below;
    assert Pow2(3) == 8 && Pow2(8) == 256;
    var low := base + LEN_LOW + 8 * posState;
    var mid := base + LEN_MID + 8 * posState;
    TreeShape(low, 1, 8, 0, 3);
    TreeShape(mid, 1, 8, 8, 3);
    TreeShape(base + LEN_HIGH, 1, 256, 16, 8);
    ShallowMore(Tree(low, 1, 8, 0), 3, 9);
    ShallowMore(Tree(mid, 1, 8, 8), 3, 8);
    BelowMore(Tree(low, 1, 8, 0), 8, 272);
    BelowMore(Tree(mid, 1, 8, 8), 16, 272);
    LenTreeJoin(base, posState);
  }

  lemma {:induction false} PlainLitShallow(base: nat, symbol: nat, n: nat)
    requires 1 <= symbol < 0x200 && 0x100 <= symbol * Pow2(n)
    ensures Shallow(PlainLit(base, symbol), n)
    decreases 0x200 - symbol
  {
    if symbol < 0x100 {
      assert n > 0;
      assert symbol * Pow2(n) == (2 * symbol) * Pow2(n - 1);
      assert (2 * symbol + 1) * Pow2(n - 1) >= (2 * symbol) * Pow2(n - 1);
      PlainLitShallow(base, 2 * symbol, n - 1);
      PlainLitShallow(base, 2 * symbol + 1, n - 1);
    }
  }

  lemma {:induction false} MatchedLitShallow(base: nat, offs: nat, matchByte: nat, symbol: nat, n: nat)
    requires 1 <= symbol < 0x200 && (offs == 0 || offs == 0x100) && 0x100 <= symbol * Pow2(n)
    ensures Shallow(MatchedLit(base, offs, matchByte, symbol), n)
    decreases 0x200 - symbol
  {
    if symbol < 0x100 {
      assert n > 0;
      assert symbol * Pow2(n) == (2 * symbol) * Pow2(n - 1);
      assert (2 * symbol + 1) * Pow2(n - 1) >= (2 * symbol) * Pow2(n - 1);
      var bit := TestBit(2 * matchByte, offs);
      MatchedLitShallow(base, offs - bit, 2 * matchByte, 2 * symbol, n - 1);
      MatchedLitShallow(base, bit, 2 * matchByte, 2 * symbol + 1, n - 1);
    }
  }

  lemma {:induction false} ReverseShallow(base: nat, i: nat, n: nat, distance: nat, mask: nat, len: nat)
    ensures Shallow(Reverse(base, i, n, distance, mask, len), n)
    decreases n
  {
    if n > 0 {
      ReverseShallow(base, 2 * i, n - 1, distance, 2 * mask, len);
      ReverseShallow(base, 2 * i + 1, n - 1, distance + mask, 2 * mask, len);
    }
  }

  // ----- the twenty-byte bound

  /** What must be there before `n` adaptive bits for `x` to be left after them. */
  ghost function BeforeBits(n: nat, x: real): real {
    if n == 0 then x else 67.0 * BeforeBits(n - 1, x)
  }

  ghost function BeforeDirect(n: nat, x: real): real {
    if n == 0 then x else 2.001 * BeforeDirect(n - 1, x)
  }

  lemma {:induction false} BeforeMono(n: nat, x: real)
    requires x >= 0.0
    ensures BeforeBits(n, x) >= x && BeforeDirect(n, x) >= x
  {
    if n > 0 { BeforeMono(n - 1, x); }
  }

  lemma {:induction false} FitsMore<R>(d: Dec<R>, v: real, v': real)
    requires Fits(d, v) && v <= v'
    ensures Fits(d, v')
  {
    match d
    case Ret(_) =>
    case Bit(_, zero, one) =>
      FitsMore(zero, v * BIT_SHARE, v' * BIT_SHARE);
      FitsMore(one, v * BIT_SHARE, v' * BIT_SHARE);
    case Direct(zero, one) =>
      FitsMore(zero, v * DIRECT_SHARE, v' * DIRECT_SHARE);
      FitsMore(one, v * DIRECT_SHARE, v' * DIRECT_SHARE);
  }

  lemma {:induction false} FitsShallow<R>(d: Dec<R>, n: nat, v: real)
    requires Shallow(d, n) && v >= BeforeBits(n, 16777216.0)
    ensures Fits(d, v)
  {
    BeforeMono(n, 16777216.0);
    match d
    case Ret(_) =>
    case Bit(_, zero, one) =>
      FitsShallow(zero, n - 1, v * BIT_SHARE);
      FitsShallow(one, n - 1, v * BIT_SHARE);
  }

  lemma {:induction false} FitsBind<R>(d: Dec<nat>, k: nat -> Dec<R>, n: nat, hi: nat, x: real, v: real)
    requires Shallow(d, n) && Below(d, hi) && x >= 16777216.0 && v >= BeforeBits(n, x)
    requires forall y: nat | y < hi :: Fits(k(y), x)
    ensures Fits(Bind(d, k), v)
  {
    BeforeMono(n, x);
    match d
    case Ret(y) =>
      FitsMore(k(y), x, v);
    case Bit(_, zero, one) =>
      FitsBind(zero, k, n - 1, hi, x, v * BIT_SHARE);
      FitsBind(one, k, n - 1, hi, x, v * BIT_SHARE);
  }

  lemma {:induction false} FitsDirect<R>(n: nat, distance: nat, k: nat -> Dec<R>, x: real, v: real)
    requires x >= 16777216.0 && v >= BeforeDirect(n, x)
    requires forall y: nat :: Fits(k(y), x)
    ensures Fits(Bind(DirectBits(n, distance), k), v)
    decreases n
  {
    BeforeMono(n, x);
    if n == 0 {
      FitsMore(k(distance), x, v);
    } else {
      FitsDirect(n - 1, 2 * distance, k, x, v * DIRECT_SHARE);
      FitsDirect(n - 1, 2 * distance + 1, k, x, v * DIRECT_SHARE);
    }
  }

  /** 2^24 * 67^4, before the four align bits. */
  const BEFORE_ALIGN: real := 16777216.0 * 20151121.0
  /** Before the longest run of direct bits. */
  const BEFORE_TAIL: real := BEFORE_ALIGN * 68000000.0
  /** 67^6 times that, before a slot. */
  const BEFORE_SLOT: real := BEFORE_TAIL * 90458382169.0

  lemma {:induction false} DirectLess(n: nat, m: nat, x: real)
    requires n <= m && x >= 0.0
    ensures BeforeDirect(n, x) <= BeforeDirect(m, x)
  {
    BeforeMono(m, x);
    if n > 0 { DirectLess(n - 1, m - 1, x); }
  }

  lemma DirectFive(x: real, n: nat)
    requires x >= 0.0
    ensures BeforeDirect(n + 5, x) <= 32.081 * BeforeDirect(n, x)
  {
    BeforeMono(n, x);
    var y := BeforeDirect(n, x);
    assert BeforeDirect(n + 1, x) == 2.001 * y;
    assert BeforeDirect(n + 2, x) == 2.001 * (2.001 * y);
    assert BeforeDirect(n + 3, x) == 2.001 * (2.001 * (2.001 * y));
    assert BeforeDirect(n + 4, x) == 2.001 * (2.001 * (2.001 * (2.001 * y)));
  }

  lemma BitsFive(x: real)
    ensures BeforeBits(5, x) == 1350125107.0 * x
  {
    assert BeforeBits(1, x) == 67.0 * x;
    assert BeforeBits(2, x) == 4489.0 * x;
    assert BeforeBits(3, x) == 300763.0 * x;
    assert BeforeBits(4, x) == 20151121.0 * x;
  }

  lemma TwentySixDirect()
    ensures BeforeDirect(26, BEFORE_ALIGN) <= BEFORE_TAIL
  {
    DirectFive(BEFORE_ALIGN, 0);
    DirectFive(BEFORE_ALIGN, 5);
    DirectFive(BEFORE_ALIGN, 10);
    DirectFive(BEFORE_ALIGN, 15);
    DirectFive(BEFORE_ALIGN, 20);
    assert BeforeDirect(25, BEFORE_ALIGN) <= 33982000.0 * BEFORE_ALIGN;
  }

  lemma FitsAfterSlot(len: nat, slot: nat)
    requires slot < 64
    ensures Fits(AfterSlot(len)(slot), BEFORE_TAIL)
  {
    if slot < START_POS_MODEL {
    } else if slot < END_POS_MODEL {
      SlotDistanceAbove(slot);
      var n := SlotBits(slot);
      ReverseShallow(SpecBase(slot), 1, n, SlotDistance(slot), 1, len);
      ShallowMore(AfterSlot(len)(slot), n, 5);
      BitsFive(16777216.0);
      FitsShallow(AfterSlot(len)(slot), 5, BEFORE_TAIL);
    } else {
      forall y: nat ensures Fits(AfterDirect(len)(y), BEFORE_ALIGN) {
        ReverseShallow(ALIGN, 1, 4, 16 * y, 1, len);
        assert BeforeBits(4, 16777216.0) <= BEFORE_ALIGN;
        FitsShallow(AfterDirect(len)(y), 4, BEFORE_ALIGN);
      }
      var n := SlotBits(slot) - 4;
      DirectLess(n, 26, BEFORE_ALIGN);
      TwentySixDirect();
      FitsDirect(n, 2 + slot % 2, AfterDirect(len), BEFORE_ALIGN, BEFORE_TAIL);
    }
  }

  lemma FitsAfterLen(len: nat)
    ensures Fits(AfterLen()(len), BEFORE_SLOT)
  {
    hide Tree, Fits, Shallow, Below, AfterSlot;
    var base := POS_SLOT + 64 * LenState(len);
    assert Pow2(6) == 64;
    TreeShape(base, 1, 64, 0, 6);
    forall y: nat | y < 64 ensures Fits(AfterSlot(len)(y), BEFORE_TAIL) {
      FitsAfterSlot(len, y);
    }
    BitsFive(BEFORE_TAIL);
    assert BeforeBits(6, BEFORE_TAIL) == BEFORE_SLOT;
    FitsBind(Tree(base, 1, 64, 0), AfterSlot(len), 6, 64, BEFORE_TAIL, BEFORE_SLOT);
  }

  /** 2^184: the least normalized range with twenty bytes to go. */
  const FULL: real := 16777216.0 * 1461501637330902918203684832716283019655932542976.0

  lemma BeforeLen()
    ensures BeforeBits(10, BEFORE_SLOT) <= FULL / 4489.0
  {
    BitsFive(BEFORE_SLOT);
    BeforeSplit(5, 5, BEFORE_SLOT);
    BitsFive(1350125107.0 * BEFORE_SLOT);
  }

  lemma FitsNewMatch(c: Ctx, v: real)
    requires v >= FULL / 4489.0
    ensures Fits(NewMatch(c), v)
  {
    hide LenTree, Bind, Shallow, Below, BeforeBits, Fits, AfterLen;
    LenTreeShape(LEN_CODER, c.posState);
    forall y: nat | y < 272 ensures Fits(AfterLen()(y), BEFORE_SLOT) {
      FitsAfterLen(y);
    }
    BeforeLen();
    FitsBind(LenTree(LEN_CODER, c.posState), AfterLen(), 10, 272, BEFORE_SLOT, v);
  }

  lemma {:induction false} BeforeSplit(n: nat, m: nat, x: real)
    ensures BeforeBits(n + m, x) == BeforeBits(n, BeforeBits(m, x))
  {
    if n > 0 { BeforeSplit(n - 1, m, x); }
  }

  lemma FitsRepLen(c: Ctx, which: nat, v: real)
    requires v >= BeforeBits(10, 16777216.0)
    ensures Fits(RepLen(c, which), v)
  {
    hide LenTree, Bind, Shallow, Below, BeforeBits;
    LenTreeShape(REP_LEN_CODER, c.posState);
    assert forall y: nat | y < 272 :: Fits(AfterRepLen(which)(y), 16777216.0);
    hide Fits, AfterRepLen;
    FitsBind(LenTree(REP_LEN_CODER, c.posState), AfterRepLen(which), 10, 272, 16777216.0, v);
  }

  lemma FitsOldMatch(c: Ctx, v: real)
    requires v >= BeforeBits(13, 16777216.0)
    ensures Fits(OldMatch(c), v)
  {
    hide RepLen;
    BeforeMono(10, 16777216.0);
    BeforeSplit(3, 10, 16777216.0);
    var x := BeforeBits(10, 16777216.0);
    assert BeforeBits(3, x) == 67.0 * BeforeBits(2, x) && BeforeBits(2, x) == 67.0 * (67.0 * x);
    var v1 := v * BIT_SHARE;
    var v2 := v1 * BIT_SHARE;
    FitsRepLen(c, 0, v2);
    FitsRepLen(c, 1, v2);
    FitsRepLen(c, 2, v2 * BIT_SHARE);
    FitsRepLen(c, 3, v2 * BIT_SHARE);
    assert Fits(OldMatch(c).zero, v1);
    assert Fits(OldMatch(c).one.one, v2);
    assert Fits(OldMatch(c).one, v1);
  }

  lemma FitsLiteral(c: Ctx, v: real)
    requires v >= BeforeBits(8, 16777216.0)
    ensures Fits(Literal(c), v)
  {
    hide PlainLit, MatchedLit, BeforeBits;
    assert Pow2(8) == 256;
    if c.state < NUM_LIT_STATES {
      PlainLitShallow(c.litBase, 1, 8);
    } else {
      MatchedLitShallow(c.litBase, 0x100, c.matchByte, 1, 8);
    }
    FitsShallow(Literal(c), 8, v);
  }

  /** No symbol lets the range shrink by more than twenty bytes' worth: at most 22 adaptive and
      26 direct bits, or 23 adaptive bits. */
  lemma SymbolFits(c: Ctx)
    ensures Fits(SymbolTree(c), FULL)
  {
    hide Literal, NewMatch, OldMatch;
    BitsFive(16777216.0);
    BitsFive(1350125107.0 * 16777216.0);
    BeforeSplit(5, 5, 16777216.0);
    BeforeSplit(3, 5, 16777216.0);
    BeforeSplit(3, 10, 16777216.0);
    FitsLiteral(c, FULL * BIT_SHARE);
    FitsNewMatch(c, FULL * BIT_SHARE * BIT_SHARE);
    FitsOldMatch(c, FULL * BIT_SHARE * BIT_SHARE);
  }

  lemma FullWeight()
    ensures Weight(0) == 1461501637330902918203684832716283019655932542976.0
  {
    assert Weight(16) == 4294967296.0;
    assert Weight(12) == 18446744073709551616.0;
    assert Weight(8) == 79228162514264337593543950336.0;
    assert Weight(4) == 340282366920938463463374607431768211456.0;
  }

  /** From any state with a normalized range, whatever the code and the probabilities, one symbol
      takes at most twenty bytes, its last normalization included. */
  lemma TwentyBytes(c: Ctx, rc: Rc, probs: seq<Prob>, src: seq<Byte>)
    requires rc.range >= TOP && rc.buf == 0
    ensures Normalize(Run(SymbolTree(c), rc, probs, src).rc, src).buf <= REQUIRED_INPUT_MAX
  {
    SymbolFits(c);
    FullWeight();
    hide SymbolTree, Weight, Normalize;
    ScaleMono(16777216.0, rc.range as real, Weight(0));
    FitsInTwenty(SymbolTree(c), rc, probs, src, FULL);
  }

  // ----- lengths

  function SymLen(sym: Symbol): nat {
    match sym
    case Lit(_) => 0
    case ShortRep => 0
    case Rep(_, len) => len
    case Match(len, _) => len
    case EndMark(len) => len
  }

  ghost predicate Short(d: Dec<Symbol>) {
    match d
    case Ret(sym) => SymLen(sym) < 272
    case Bit(_, zero, one) => Short(zero) && Short(one)
    case Direct(zero, one) => Short(zero) && Short(one)
  }

  lemma {:induction false} RunShort(d: Dec<Symbol>, rc: Rc, probs: seq<Prob>, src: seq<Byte>)
    requires Short(d)
    ensures SymLen(Run(d, rc, probs, src).val) < 272
  {
    hide BitStep, DirectStep, Adapt, At, Put, SymLen;
    match d
    case Ret(_) =>
    case Bit(p, zero, one) =>
      var s := BitStep(rc, At(probs, p), src);
      RunShort(if s.bit then one else zero, s.rc, Put(probs, p, Adapt(At(probs, p), s.bit)), src);
    case Direct(zero, one) =>
      var s := DirectStep(rc, src);
      RunShort(if s.bit then one else zero, s.rc, probs, src);
  }

  lemma {:induction false} ShortBind(d: Dec<nat>, k: nat -> Dec<Symbol>, hi: nat)
    requires Below(d, hi) && forall y: nat | y < hi :: Short(k(y))
    ensures Short(Bind(d, k))
  {
    match d
    case Ret(_) =>
    case Bit(p, zero, one) => ShortBind(zero, k, hi); ShortBind(one, k, hi);
    case Direct(zero, one) => ShortBind(zero, k, hi); ShortBind(one, k, hi);
  }

  lemma {:induction false} ShortReverse(base: nat, i: nat, n: nat, distance: nat, mask: nat, len: nat)
    requires len < 272
    ensures Short(Reverse(base, i, n, distance, mask, len))
    decreases n
  {
    if n > 0 {
      ShortReverse(base, 2 * i, n - 1, distance, 2 * mask, len);
      ShortReverse(base, 2 * i + 1, n - 1, distance + mask, 2 * mask, len);
    }
  }

  lemma {:induction false} ShortDirect(n: nat, distance: nat, len: nat)
    requires len < 272
    ensures Short(Bind(DirectBits(n, distance), AfterDirect(len)))
    decreases n
  {
    hide Reverse;
    if n == 0 {
      ShortReverse(ALIGN, 1, 4, 16 * distance, 1, len);
    } else {
      ShortDirect(n - 1, 2 * distance, len);
      ShortDirect(n - 1, 2 * distance + 1, len);
    }
  }

  lemma ShortAfterLen(len: nat)
    requires len < 272
    ensures Short(AfterLen()(len))
  {
    hide Tree, Reverse, Bind, DirectBits, Shallow, Below;
    var base := POS_SLOT + 64 * LenState(len);
    forall slot: nat | slot < 64 ensures Short(AfterSlot(len)(slot)) {
      if START_POS_MODEL <= slot < END_POS_MODEL {
        SlotDistanceAbove(slot);
        ShortReverse(SpecBase(slot), 1, SlotBits(slot), SlotDistance(slot), 1, len);
      } else if slot >= END_POS_MODEL {
        ShortDirect(SlotBits(slot) - 4, 2 + slot % 2, len);
      }
    }
    SixtyFour();
    TreeShape(base, 1, 64, 0, 6);
    ShortBind(Tree(base, 1, 64, 0), AfterSlot(len), 64);
  }

  lemma SixtyFour()
    ensures Pow2(6) == 64
  {
  }

  lemma {:induction false} ShortPlain(base: nat, symbol: nat)
    requires 1 <= symbol < 0x200
    ensures Short(PlainLit(base, symbol))
    decreases 0x200 - symbol
  {
    if symbol < 0x100 {
      ShortPlain(base, 2 * symbol);
      ShortPlain(base, 2 * symbol + 1);
    }
  }

  lemma {:induction false} ShortMatched(base: nat, offs: nat, matchByte: nat, symbol: nat)
    requires 1 <= symbol < 0x200 && (offs == 0 || offs == 0x100)
    ensures Short(MatchedLit(base, offs, matchByte, symbol))
    decreases 0x200 - symbol
  {
    if symbol < 0x100 {
      var bit := TestBit(2 * matchByte, offs);
      ShortMatched(base, offs - bit, 2 * matchByte, 2 * symbol);
      ShortMatched(base, bit, 2 * matchByte, 2 * symbol + 1);
    }
  }

  lemma ShortRepLen(c: Ctx, which: nat)
    ensures Short(RepLen(c, which))
  {
    hide LenTree, Bind, Shallow, Below;
    LenTreeShape(REP_LEN_CODER, c.posState);
    ShortBind(LenTree(REP_LEN_CODER, c.posState), AfterRepLen(which), 272);
  }

  lemma ShortOldMatch(c: Ctx)
    ensures Short(OldMatch(c))
  {
    hide RepLen;
    ShortRepLen(c, 0);
    ShortRepLen(c, 1);
    ShortRepLen(c, 2);
    ShortRepLen(c, 3);
    assert Short(OldMatch(c).zero);
    assert Short(OldMatch(c).one.one);
  }

  lemma ShortNewMatch(c: Ctx)
    ensures Short(NewMatch(c))
  {
    hide LenTree, Bind, Shallow, Below, AfterLen;
    LenTreeShape(LEN_CODER, c.posState);
    forall len: nat | len < 272 ensures Short(AfterLen()(len)) {
      ShortAfterLen(len);
    }
    ShortBind(LenTree(LEN_CODER, c.posState), AfterLen(), 272);
  }

  /** The coded length of a match is below 272, so no match is mistaken for the end mark. */
  lemma SymbolShort(c: Ctx, rc: Rc, probs: seq<Prob>, src: seq<Byte>)
    ensures SymLen(Run(SymbolTree(c), rc, probs, src).val) < 272
  {
    hide PlainLit, MatchedLit, NewMatch, OldMatch, Run, SymLen;
    ShortPlain(c.litBase, 1);
    ShortMatched(c.litBase, 0x100, c.matchByte, 1);
    ShortNewMatch(c);
    ShortOldMatch(c);
    RunShort(SymbolTree(c), rc, probs, src);
  }
}

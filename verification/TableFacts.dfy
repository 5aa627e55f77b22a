/** Where the decisions of one symbol lie in the packed probability table: no probability is read
    twice, and each decision has entries of its own. */
module TableFacts {
  import opened Basics
  import opened RangeCoder
  import opened DecisionTree
  import opened SymbolGrammar
  import opened GrammarFacts

  // ----- no probability is read twice within a symbol

  /** A rank that rises along every path of a symbol: the tables in the order in which a symbol
      visits them, and within the literal sub-table at `base` the tree node alone. */
  function Rank(base: nat, p: nat): nat {
    if p < POS_SLOT then p
    else if p < LEN_CODER then 5000 + p
    else if p < LITERAL then p
    else if p < base then 10000
    else if p < base + 256 then 10000 + (p - base)
    else if p < base + 512 then 10000 + (p - base - 256)
    else 10000 + (p - base - 512)
  }

  ghost predicate Ascending<R>(d: Dec<R>, base: nat, lo: nat, hi: nat) {
    match d
    case Ret(_) => true
    case Bit(p, zero, one) =>
      lo <= Rank(base, p) < hi && Ascending(zero, base, Rank(base, p) + 1, hi)
          && Ascending(one, base, Rank(base, p) + 1, hi)
    case Direct(zero, one) => Ascending(zero, base, lo, hi) && Ascending(one, base, lo, hi)
  }

  lemma {:induction false} AscendingUnread<R>(d: Dec<R>, base: nat, lo: nat, hi: nat, seen: set<nat>)
    requires Ascending(d, base, lo, hi) && forall s :: s in seen ==> Rank(base, s) < lo
    ensures Unread(d, seen)
  {
    hide Rank;
    match d
    case Ret(_) =>
    case Bit(p, zero, one) =>
      AscendingUnread(zero, base, Rank(base, p) + 1, hi, seen + {p});
      AscendingUnread(one, base, Rank(base, p) + 1, hi, seen + {p});
    case Direct(zero, one) =>
      AscendingUnread(zero, base, lo, hi, seen);
      AscendingUnread(one, base, lo, hi, seen);
  }

  lemma {:induction false} AscendingWiden<R>(d: Dec<R>, base: nat, lo: nat, hi: nat, lo': nat, hi': nat)
    requires Ascending(d, base, lo, hi) && lo' <= lo && hi <= hi'
    ensures Ascending(d, base, lo', hi')
  {
    hide Rank;
    match d
    case Ret(_) =>
    case Bit(p, zero, one) =>
      AscendingWiden(zero, base, Rank(base, p) + 1, hi, Rank(base, p) + 1, hi');
      AscendingWiden(one, base, Rank(base, p) + 1, hi, Rank(base, p) + 1, hi');
    case Direct(zero, one) =>
      AscendingWiden(zero, base, lo, hi, lo', hi');
      AscendingWiden(one, base, lo, hi, lo', hi');
  }

  lemma {:induction false} AscendingBind<R>(d: Dec<nat>, k: nat -> Dec<R>, bound: nat, base: nat, lo: nat, mid: nat,
      hi: nat)
    requires lo <= mid <= hi && Ascending(d, base, lo, mid) && Below(d, bound)
    requires forall y: nat | y < bound :: Ascending(k(y), base, mid, hi)
    ensures Ascending(Bind(d, k), base, lo, hi)
  {
    hide Rank;
    match d
    case Ret(y) =>
      AscendingWiden(k(y), base, mid, hi, lo, hi);
    case Bit(p, zero, one) =>
      AscendingBind(zero, k, bound, base, Rank(base, p) + 1, mid, hi);
      AscendingBind(one, k, bound, base, Rank(base, p) + 1, mid, hi);
    case Direct(zero, one) =>
      AscendingBind(zero, k, bound, base, lo, mid, hi);
      AscendingBind(one, k, bound, base, lo, mid, hi);
  }

  /** The entries from `b` up to `e` are ranked by their index plus `shift`. */
  predicate SameBand(b: nat, e: nat, shift: nat) {
    (e <= POS_SLOT && shift == 0) || (POS_SLOT <= b && e <= LEN_CODER && shift == 5000) ||
    (LEN_CODER <= b && e <= LITERAL && shift == 0)
  }

  lemma {:induction false} TreeAscending(base: nat, b: nat, i: nat, limit: nat, offset: nat, shift: nat, lo: nat)
    requires 1 <= i && lo <= b + i + shift
    requires SameBand(b, b + limit, shift)
    ensures Ascending(Tree(b, i, limit, offset), base, lo, b + limit + shift)
    decreases limit - i
  {
    if i < limit {
      assert Rank(base, b + i) == b + i + shift;
      TreeAscending(base, b, 2 * i, limit, offset, shift, b + i + shift + 1);
      TreeAscending(base, b, 2 * i + 1, limit, offset, shift, b + i + shift + 1);
    }
  }

  lemma {:induction false} ReverseAscending(base: nat, b: nat, i: nat, n: nat, distance: nat, mask: nat, len: nat,
      hi: nat)
    requires 1 <= i && POS_SLOT <= b && hi <= LEN_CODER
    requires n > 0 ==> b + (i + 1) * Pow2(n - 1) <= hi
    ensures Ascending(Reverse(b, i, n, distance, mask, len), base, 5000 + b + i, 5000 + hi)
    decreases n
  {
    hide Pow2;
    if n > 0 {
      HalvesFit(b, i, n, hi);
      assert Rank(base, b + i) == 5000 + b + i;
      var zero, one := Reverse(b, 2 * i, n - 1, distance, 2 * mask, len),
          Reverse(b, 2 * i + 1, n - 1, distance + mask, 2 * mask, len);
      ReverseAscending(base, b, 2 * i, n - 1, distance, 2 * mask, len, hi);
      ReverseAscending(base, b, 2 * i + 1, n - 1, distance + mask, 2 * mask, len, hi);
      AscendingWiden(zero, base, 5000 + b + 2 * i, 5000 + hi, 5000 + b + i + 1, 5000 + hi);
      AscendingWiden(one, base, 5000 + b + 2 * i + 1, 5000 + hi, 5000 + b + i + 1, 5000 + hi);
    }
  }

  lemma HalvesFit(b: nat, i: nat, n: nat, hi: nat)
    requires n > 0 && b + (i + 1) * Pow2(n - 1) <= hi
    ensures b + i < hi
    ensures n > 1 ==> b + (2 * i + 1) * Pow2(n - 2) <= hi && b + (2 * i + 2) * Pow2(n - 2) <= hi
  {
    if n > 1 {
      var m := Pow2(n - 2);
      assert (i + 1) * (2 * m) == (2 * i + 2) * m;
    }
  }

  lemma {:induction false} PlainLitAscending(base: nat, symbol: nat)
    requires LITERAL <= base && 1 <= symbol < 0x200
    ensures Ascending(PlainLit(base, symbol), base, 10000 + symbol, 10256)
    decreases 0x200 - symbol
  {
    if symbol < 0x100 {
      assert Rank(base, base + symbol) == 10000 + symbol;
      PlainLitAscending(base, 2 * symbol);
      PlainLitAscending(base, 2 * symbol + 1);
      AscendingWiden(PlainLit(base, 2 * symbol), base, 10000 + 2 * symbol, 10256, 10001 + symbol, 10256);
      AscendingWiden(PlainLit(base, 2 * symbol + 1), base, 10001 + 2 * symbol, 10256, 10001 + symbol, 10256);
    }
  }

  lemma {:induction false} MatchedLitAscending(base: nat, offs: nat, matchByte: nat, symbol: nat)
    requires LITERAL <= base && 1 <= symbol < 0x200 && (offs == 0 || offs == 0x100)
    ensures Ascending(MatchedLit(base, offs, matchByte, symbol), base, 10000 + symbol, 10256)
    decreases 0x200 - symbol
  {
    if symbol < 0x100 {
      var m := 2 * matchByte;
      var bit := TestBit(m, offs);
      assert Rank(base, base + offs + bit + symbol) == 10000 + symbol;
      MatchedLitAscending(base, offs - bit, m, 2 * symbol);
      MatchedLitAscending(base, bit, m, 2 * symbol + 1);
      AscendingWiden(MatchedLit(base, offs - bit, m, 2 * symbol), base, 10000 + 2 * symbol, 10256, 10001 + symbol,
          10256);
      AscendingWiden(MatchedLit(base, bit, m, 2 * symbol + 1), base, 10001 + 2 * symbol, 10256, 10001 + symbol, 10256);
    }
  }

  lemma LenTreeAscending(base: nat, b: nat, posState: nat)
    requires LITERAL <= base && posState < 16 && (b == LEN_CODER || b == REP_LEN_CODER)
    ensures Ascending(LenTree(b, posState), base, b, b + NUM_LEN_PROBS)
  {
    hide Tree, Ascending;
    var low := b + LEN_LOW + 8 * posState;
    var mid := b + LEN_MID + 8 * posState;
    var high := b + LEN_HIGH;
    TreeAscending(base, low, 1, 8, 0, 0, b + 1);
    TreeAscending(base, mid, 1, 8, 8, 0, b + 2);
    TreeAscending(base, high, 1, 256, 16, 0, b + 2);
    var hi := b + NUM_LEN_PROBS;
    AscendingWiden(Tree(low, 1, 8, 0), base, b + 1, low + 8, b + 1, hi);
    AscendingWiden(Tree(mid, 1, 8, 8), base, b + 2, mid + 8, b + 2, hi);
    AscendingWiden(Tree(high, 1, 256, 16), base, b + 2, high + 256, b + 2, hi);
    LenTreeAscendingJoin(base, b, posState);
  }

  lemma LenTreeAscendingJoin(base: nat, b: nat, posState: nat)
    requires LITERAL <= base && (b == LEN_CODER || b == REP_LEN_CODER)
    requires Ascending(Tree(b + LEN_LOW + 8 * posState, 1, 8, 0), base, b + 1, b + NUM_LEN_PROBS)
    requires Ascending(Tree(b + LEN_MID + 8 * posState, 1, 8, 8), base, b + 2, b + NUM_LEN_PROBS)
    requires Ascending(Tree(b + LEN_HIGH, 1, 256, 16), base, b + 2, b + NUM_LEN_PROBS)
    ensures Ascending(LenTree(b, posState), base, b, b + NUM_LEN_PROBS)
  {
    hide Tree;
    assert Rank(base, b) == b && Rank(base, b + 1) == b + 1;
  }

  /** The first SpecPos entry of a slot: the tree of a slot with n extra bits has 2^n - 1 entries. */
  function SpecFirst(slot: nat): nat
    requires START_POS_MODEL <= slot <= END_POS_MODEL
  {
    if slot == START_POS_MODEL then SPEC_POS else SpecFirst(slot - 1) + Pow2(SlotBits(slot - 1)) - 1
  }

  /** The reverse trees of slots 4 to 13 tile the 114 SpecPos entries: each starts where the one
      before ends, the first at SpecPos and the last ending at Align. */
  lemma SpecPosTiles(slot: nat)
    requires START_POS_MODEL <= slot < END_POS_MODEL
    ensures SpecFirst(START_POS_MODEL) == SPEC_POS && SpecFirst(END_POS_MODEL) == ALIGN
    ensures SpecBase(slot) + 1 == SpecFirst(slot)
    ensures SpecFirst(slot + 1) == SpecFirst(slot) + Pow2(SlotBits(slot)) - 1
    ensures SPEC_POS <= SpecFirst(slot) < SpecFirst(slot + 1) <= ALIGN
  {
    hide Pow2;
    SmallPowers();
    assert SpecFirst(5) == SPEC_POS + 1;
    assert SpecFirst(6) == SPEC_POS + 2;
    assert SpecFirst(7) == SPEC_POS + 5;
    assert SpecFirst(8) == SPEC_POS + 8;
    assert SpecFirst(9) == SPEC_POS + 15;
    assert SpecFirst(10) == SPEC_POS + 22;
    assert SpecFirst(11) == SPEC_POS + 37;
    assert SpecFirst(12) == SPEC_POS + 52;
    assert SpecFirst(13) == SPEC_POS + 83;
    assert SpecFirst(14) == SPEC_POS + 114;
  }

  lemma {:induction false} DirectBitsFree(n: nat, distance: nat, base: nat, lo: nat)
    ensures Ascending(DirectBits(n, distance), base, lo, lo)
    decreases n
  {
    if n > 0 {
      DirectBitsFree(n - 1, 2 * distance, base, lo);
      DirectBitsFree(n - 1, 2 * distance + 1, base, lo);
    }
  }

  lemma {:induction false} DirectBitsBelow(n: nat, distance: nat)
    ensures Below(DirectBits(n, distance), (distance + 1) * Pow2(n))
    decreases n
  {
    if n > 0 {
      assert (distance + 1) * Pow2(n) == (2 * distance + 2) * Pow2(n - 1);
      assert (2 * distance + 1) * Pow2(n - 1) <= (2 * distance + 2) * Pow2(n - 1);
      DirectBitsBelow(n - 1, 2 * distance);
      DirectBitsBelow(n - 1, 2 * distance + 1);
      BelowMore(DirectBits(n - 1, 2 * distance), (2 * distance + 1) * Pow2(n - 1), (distance + 1) * Pow2(n));
    }
  }

  lemma SpecAscending(base: nat, len: nat, slot: nat)
    requires START_POS_MODEL <= slot < END_POS_MODEL
    ensures SpecBase(slot) >= 0
    ensures Ascending(Reverse(SpecBase(slot), 1, SlotBits(slot), SlotDistance(slot), 1, len), base,
                      5000 + SpecFirst(slot), 5000 + SpecFirst(slot + 1))
  {
    hide Reverse, Ascending, SpecFirst, SlotDistance, SpecBase;
    SpecPosTiles(slot);
    var n := SlotBits(slot);
    assert Pow2(n) == 2 * Pow2(n - 1);
    ReverseAscending(base, SpecBase(slot), 1, n, SlotDistance(slot), 1, len, SpecFirst(slot + 1));
  }

  lemma AlignAscending(base: nat, len: nat, distance: nat)
    ensures Ascending(AfterDirect(len)(distance), base, 5000 + ALIGN, 5000 + LEN_CODER)
  {
    hide Reverse, Ascending;
    assert Pow2(3) == 8;
    ReverseAscending(base, ALIGN, 1, 4, 16 * distance, 1, len, LEN_CODER);
    AscendingWiden(AfterDirect(len)(distance), base, 5001 + ALIGN, 5000 + LEN_CODER, 5000 + ALIGN, 5000 + LEN_CODER);
  }

  lemma AfterSlotAscending(base: nat, len: nat, slot: nat)
    ensures Ascending(AfterSlot(len)(slot), base, 5000 + SPEC_POS, 5000 + LEN_CODER)
  {
    hide Reverse, SpecFirst, SlotDistance, SpecBase, Pow2, DirectBits, Bind, Below;
    if slot < START_POS_MODEL {
    } else if slot < END_POS_MODEL {
      SpecPosTiles(slot);
      SpecAscending(base, len, slot);
      AscendingWiden(AfterSlot(len)(slot), base, 5000 + SpecFirst(slot), 5000 + SpecFirst(slot + 1), 5000 + SPEC_POS,
          5000 + LEN_CODER);
    } else {
      var n := SlotBits(slot) - 4;
      var d := 2 + slot % 2;
      var bound := (d + 1) * Pow2(n);
      forall y: nat | y < bound ensures Ascending(AfterDirect(len)(y), base, 5000 + ALIGN, 5000 + LEN_CODER) {
        AlignAscending(base, len, y);
      }
      DirectBitsFree(n, d, base, 5000 + SPEC_POS);
      DirectBitsBelow(n, d);
      AscendingWiden(DirectBits(n, d), base, 5000 + SPEC_POS, 5000 + SPEC_POS, 5000 + SPEC_POS, 5000 + ALIGN);
      AscendingBind(DirectBits(n, d), AfterDirect(len), bound, base, 5000 + SPEC_POS, 5000 + ALIGN, 5000 + LEN_CODER);
    }
  }

  lemma NewMatchAscending(c: Ctx)
    requires LITERAL <= c.litBase && c.posState < 16
    ensures Ascending(NewMatch(c), c.litBase, LEN_CODER, 5000 + LEN_CODER)
  {
    hide LenTree, AfterSlot, Tree, Bind, Ascending, Shallow, Below;
    LenTreeShape(LEN_CODER, c.posState);
    LenTreeAscending(c.litBase, LEN_CODER, c.posState);
    forall len: nat | len < 272 ensures Ascending(AfterLen()(len), c.litBase, REP_LEN_CODER, 5000 + LEN_CODER) {
      var b := POS_SLOT + 64 * LenState(len);
      forall slot: nat | slot < 64 ensures Ascending(AfterSlot(len)(slot), c.litBase, 5000 + SPEC_POS,
          5000 + LEN_CODER) {
        AfterSlotAscending(c.litBase, len, slot);
      }
      assert Pow2(6) == 64;
      TreeShape(b, 1, 64, 0, 6);
      TreeAscending(c.litBase, b, 1, 64, 0, 5000, REP_LEN_CODER);
      AscendingWiden(Tree(b, 1, 64, 0), c.litBase, REP_LEN_CODER, b + 64 + 5000, REP_LEN_CODER, 5000 + SPEC_POS);
      AscendingBind(Tree(b, 1, 64, 0), AfterSlot(len), 64, c.litBase, REP_LEN_CODER, 5000 + SPEC_POS, 5000 + LEN_CODER);
    }
    AscendingBind(LenTree(LEN_CODER, c.posState), AfterLen(), 272, c.litBase, LEN_CODER, REP_LEN_CODER,
        5000 + LEN_CODER);
  }

  lemma RepLenAscending(c: Ctx, which: nat)
    requires LITERAL <= c.litBase && c.posState < 16
    ensures Ascending(RepLen(c, which), c.litBase, REP_LEN_CODER, LITERAL)
  {
    hide LenTree, Bind, Shallow, Below;
    LenTreeShape(REP_LEN_CODER, c.posState);
    LenTreeAscending(c.litBase, REP_LEN_CODER, c.posState);
    assert forall y: nat | y < 272 :: Ascending(AfterRepLen(which)(y), c.litBase, LITERAL, LITERAL);
    hide Ascending, AfterRepLen;
    AscendingBind(LenTree(REP_LEN_CODER, c.posState), AfterRepLen(which), 272, c.litBase, REP_LEN_CODER, LITERAL,
        LITERAL);
  }

  lemma OldMatchAscending(c: Ctx)
    requires LITERAL <= c.litBase && c.posState < 16 && c.state < NUM_STATES
    ensures Ascending(OldMatch(c), c.litBase, IS_REP_G0, LITERAL)
  {
    hide RepLen;
    var b := c.litBase;
    RepLenAscending(c, 0);
    RepLenAscending(c, 1);
    RepLenAscending(c, 2);
    RepLenAscending(c, 3);
    AscendingWiden(RepLen(c, 0), b, REP_LEN_CODER, LITERAL, IS_REP0_LONG + 16 * c.state + c.posState + 1, LITERAL);
    AscendingWiden(RepLen(c, 1), b, REP_LEN_CODER, LITERAL, IS_REP_G1 + c.state + 1, LITERAL);
    AscendingWiden(RepLen(c, 2), b, REP_LEN_CODER, LITERAL, IS_REP_G2 + c.state + 1, LITERAL);
    AscendingWiden(RepLen(c, 3), b, REP_LEN_CODER, LITERAL, IS_REP_G2 + c.state + 1, LITERAL);
    assert Ascending(OldMatch(c).zero, b, IS_REP_G0 + c.state + 1, LITERAL);
    assert Ascending(OldMatch(c).one.one, b, IS_REP_G1 + c.state + 1, LITERAL);
    assert Ascending(OldMatch(c).one, b, IS_REP_G0 + c.state + 1, LITERAL);
  }

  lemma LiteralAscending(c: Ctx)
    requires LITERAL <= c.litBase
    ensures Ascending(Literal(c), c.litBase, 10001, 10256)
  {
    hide PlainLit, MatchedLit;
    if c.state < NUM_LIT_STATES {
      PlainLitAscending(c.litBase, 1);
    } else {
      MatchedLitAscending(c.litBase, 0x100, c.matchByte, 1);
    }
  }

  lemma SymbolAscending(c: Ctx)
    requires LITERAL <= c.litBase && c.posState < 16 && c.state < NUM_STATES
    ensures Ascending(SymbolTree(c), c.litBase, 0, 10256)
  {
    hide Literal, NewMatch, OldMatch;
    LiteralAscending(c);
    NewMatchAscending(c);
    OldMatchAscending(c);
    AscendingWiden(Literal(c), c.litBase, 10001, 10256, 16 * c.state + c.posState + 1, 10256);
    AscendingWiden(NewMatch(c), c.litBase, LEN_CODER, 5000 + LEN_CODER, IS_REP + c.state + 1, 10256);
    AscendingWiden(OldMatch(c), c.litBase, IS_REP_G0, LITERAL, IS_REP + c.state + 1, 10256);
  }

  /** No symbol reads a probability that it has already updated. */
  lemma SymbolUnread(c: Ctx)
    requires LITERAL <= c.litBase && c.posState < 16 && c.state < NUM_STATES
    ensures Unread(SymbolTree(c), {})
  {
    hide SymbolTree, Ascending, Unread;
    SymbolAscending(c);
    AscendingUnread(SymbolTree(c), c.litBase, 0, 10256, {});
  }

  /** The dry run of a symbol takes the same bytes, leaves the same range and code and finds the
      same symbol as the decoder that updates the table as it goes. */
  lemma DrySymbolIsSymbol(c: Ctx, rc: Rc, probs: seq<Prob>, src: seq<Byte>)
    requires LITERAL <= c.litBase && c.posState < 16 && c.state < NUM_STATES
    ensures RunDry(SymbolTree(c), rc, probs, src).rc == Run(SymbolTree(c), rc, probs, src).rc
    ensures RunDry(SymbolTree(c), rc, probs, src).val == Run(SymbolTree(c), rc, probs, src).val
  {
    hide SymbolTree, Unread, Run, RunDry;
    SymbolUnread(c);
    DryRunIsRun(SymbolTree(c), rc, probs, probs, src, {});
  }

  // ----- every decision in its own part of the table

  ghost predicate Uses<R>(d: Dec<R>, lo: nat, hi: nat) {
    match d
    case Ret(_) => true
    case Bit(p, zero, one) => lo <= p < hi && Uses(zero, lo, hi) && Uses(one, lo, hi)
    case Direct(zero, one) => Uses(zero, lo, hi) && Uses(one, lo, hi)
  }

  lemma {:induction false} UsesWiden<R>(d: Dec<R>, lo: nat, hi: nat, lo': nat, hi': nat)
    requires Uses(d, lo, hi) && lo' <= lo && hi <= hi'
    ensures Uses(d, lo', hi')
  {
    match d
    case Ret(_) =>
    case Bit(p, zero, one) => UsesWiden(zero, lo, hi, lo', hi'); UsesWiden(one, lo, hi, lo', hi');
    case Direct(zero, one) => UsesWiden(zero, lo, hi, lo', hi'); UsesWiden(one, lo, hi, lo', hi');
  }

  lemma {:induction false} UsesBind<R>(d: Dec<nat>, k: nat -> Dec<R>, bound: nat, lo: nat, hi: nat)
    requires Uses(d, lo, hi) && Below(d, bound) && forall y: nat | y < bound :: Uses(k(y), lo, hi)
    ensures Uses(Bind(d, k), lo, hi)
  {
    match d
    case Ret(y) =>
    case Bit(p, zero, one) => UsesBind(zero, k, bound, lo, hi); UsesBind(one, k, bound, lo, hi);
    case Direct(zero, one) => UsesBind(zero, k, bound, lo, hi); UsesBind(one, k, bound, lo, hi);
  }

  lemma {:induction false} TreeUses(b: nat, i: nat, limit: nat, offset: nat)
    requires i >= 1
    ensures Uses(Tree(b, i, limit, offset), b + 1, b + limit)
    decreases limit - i
  {
    if i < limit {
      TreeUses(b, 2 * i, limit, offset);
      TreeUses(b, 2 * i + 1, limit, offset);
    }
  }

  lemma {:induction false} ReverseUses(b: nat, i: nat, n: nat, distance: nat, mask: nat, len: nat, hi: nat)
    requires i >= 1 && (n > 0 ==> b + (i + 1) * Pow2(n - 1) <= hi)
    ensures Uses(Reverse(b, i, n, distance, mask, len), b + 1, hi)
    decreases n
  {
    hide Pow2;
    if n > 0 {
      HalvesFit(b, i, n, hi);
      ReverseUses(b, 2 * i, n - 1, distance, 2 * mask, len, hi);
      ReverseUses(b, 2 * i + 1, n - 1, distance + mask, 2 * mask, len, hi);
    }
  }

  /** A slot's reversed tree stays between the slot's own first SpecPos entry and the next slot's. */
  lemma SpecUses(len: nat, slot: nat)
    requires START_POS_MODEL <= slot < END_POS_MODEL
    ensures SpecBase(slot) >= 0
    ensures Uses(Reverse(SpecBase(slot), 1, SlotBits(slot), SlotDistance(slot), 1, len), SpecFirst(slot),
        SpecFirst(slot + 1))
  {
    hide Reverse, Uses, SpecFirst, SlotDistance, SpecBase;
    SpecPosTiles(slot);
    var n := SlotBits(slot);
    assert Pow2(n) == 2 * Pow2(n - 1);
    ReverseUses(SpecBase(slot), 1, n, SlotDistance(slot), 1, len, SpecFirst(slot + 1));
  }

  /** A length coder stays inside its 514 entries. */
  lemma LenTreeUses(b: nat, posState: nat)
    requires posState < 16
    ensures Uses(LenTree(b, posState), b, b + NUM_LEN_PROBS)
  {
    hide Tree;
    var low, mid, high := b + LEN_LOW + 8 * posState, b + LEN_MID + 8 * posState, b + LEN_HIGH;
    TreeUses(low, 1, 8, 0);
    TreeUses(mid, 1, 8, 8);
    TreeUses(high, 1, 256, 16);
    UsesWiden(Tree(low, 1, 8, 0), low + 1, low + 8, b, b + NUM_LEN_PROBS);
    UsesWiden(Tree(mid, 1, 8, 8), mid + 1, mid + 8, b, b + NUM_LEN_PROBS);
    UsesWiden(Tree(high, 1, 256, 16), high + 1, high + 256, b, b + NUM_LEN_PROBS);
  }

  lemma {:induction false} PlainLitUses(base: nat, symbol: nat)
    requires 1 <= symbol < 0x200
    ensures Uses(PlainLit(base, symbol), base, base + LIT_SIZE)
    decreases 0x200 - symbol
  {
    if symbol < 0x100 {
      PlainLitUses(base, 2 * symbol);
      PlainLitUses(base, 2 * symbol + 1);
    }
  }

  lemma {:induction false} MatchedLitUses(base: nat, offs: nat, matchByte: nat, symbol: nat)
    requires 1 <= symbol < 0x200 && (offs == 0 || offs == 0x100)
    ensures Uses(MatchedLit(base, offs, matchByte, symbol), base, base + LIT_SIZE)
    decreases 0x200 - symbol
  {
    if symbol < 0x100 {
      var bit := TestBit(2 * matchByte, offs);
      MatchedLitUses(base, offs - bit, 2 * matchByte, 2 * symbol);
      MatchedLitUses(base, bit, 2 * matchByte, 2 * symbol + 1);
    }
  }

  /** A literal stays inside its own 768 entries. */
  lemma LiteralUses(c: Ctx)
    ensures Uses(Literal(c), c.litBase, c.litBase + LIT_SIZE)
  {
    hide PlainLit, MatchedLit;
    PlainLitUses(c.litBase, 1);
    MatchedLitUses(c.litBase, 0x100, c.matchByte, 1);
  }

  lemma {:induction false} DirectUses(n: nat, distance: nat, len: nat)
    ensures Uses(Bind(DirectBits(n, distance), AfterDirect(len)), ALIGN, LEN_CODER)
    decreases n
  {
    hide Reverse;
    if n == 0 {
      assert Pow2(3) == 8;
      ReverseUses(ALIGN, 1, 4, 16 * distance, 1, len, LEN_CODER);
      UsesWiden(AfterDirect(len)(distance), ALIGN + 1, LEN_CODER, ALIGN, LEN_CODER);
    } else {
      DirectUses(n - 1, 2 * distance, len);
      DirectUses(n - 1, 2 * distance + 1, len);
    }
  }

  // ----- which part that is

  /** A stretch of the table. */
  datatype Part = Part(first: nat, size: nat)

  const IS_MATCH_PART := Part(IS_MATCH, 192)
  const IS_REP_PART := Part(IS_REP, 12)
  const IS_REP_G0_PART := Part(IS_REP_G0, 12)
  const IS_REP_G1_PART := Part(IS_REP_G1, 12)
  const IS_REP_G2_PART := Part(IS_REP_G2, 12)
  const IS_REP0_LONG_PART := Part(IS_REP0_LONG, 192)
  const POS_SLOT_PART := Part(POS_SLOT, 256)
  const SPEC_POS_PART := Part(SPEC_POS, 114)
  const ALIGN_PART := Part(ALIGN, 16)
  const LEN_CODER_PART := Part(LEN_CODER, 514)
  const REP_LEN_CODER_PART := Part(REP_LEN_CODER, 514)

  function Parts(): seq<Part> {
    [IS_MATCH_PART, IS_REP_PART, IS_REP_G0_PART, IS_REP_G1_PART, IS_REP_G2_PART, IS_REP0_LONG_PART, POS_SLOT_PART,
     SPEC_POS_PART, ALIGN_PART, LEN_CODER_PART, REP_LEN_CODER_PART]
  }

  /** The parts follow each other without gap or overlap and fill the 1846 entries before the
      literals. */
  lemma PartsTile(i: nat, j: nat)
    requires i < j < |Parts()|
    ensures Parts()[i].first + Parts()[i].size <= Parts()[j].first
    ensures j == i + 1 ==> Parts()[i].first + Parts()[i].size == Parts()[j].first
    ensures Parts()[0].first == 0 && LITERAL == 1846 == Parts()[|Parts()| - 1].first + Parts()[|Parts()| - 1].size
  {
  }

  ghost predicate Keeps<R>(d: Dec<R>, part: Part) {
    Uses(d, part.first, part.first + part.size)
  }

  /** The one decision at the root of a program. */
  predicate Asks<R>(d: Dec<R>, part: Part) {
    d.Bit? && part.first <= d.p < part.first + part.size
  }

  /** The slot tree of each length state is a part of its own. */
  function SlotPart(len: nat): Part {
    Part(POS_SLOT + 64 * LenState(len), 64)
  }

  lemma SlotTreeUses(len: nat)
    ensures Keeps(Tree(POS_SLOT + 64 * LenState(len), 1, 64, 0), SlotPart(len))
    ensures POS_SLOT_PART.first <= SlotPart(len).first && SlotPart(len).first + 64 <= SPEC_POS
  {
    var b := POS_SLOT + 64 * LenState(len);
    TreeUses(b, 1, 64, 0);
    UsesWiden(Tree(b, 1, 64, 0), b + 1, b + 64, b, b + 64);
  }

  /** After the slot: nothing for slots below 4, the slot's own reverse tree up to 13, and from 14 on
      the align tree. */
  lemma AfterSlotUses(len: nat, slot: nat)
    ensures slot < START_POS_MODEL ==> AfterSlot(len)(slot).Ret?
    ensures START_POS_MODEL <= slot < END_POS_MODEL ==>
              Uses(AfterSlot(len)(slot), SpecFirst(slot), SpecFirst(slot + 1))
                  && Keeps(AfterSlot(len)(slot), SPEC_POS_PART)
    ensures slot >= END_POS_MODEL ==> Keeps(AfterSlot(len)(slot), ALIGN_PART)
  {
    hide Reverse, Bind, DirectBits, SpecFirst, SlotDistance, SpecBase;
    if START_POS_MODEL <= slot < END_POS_MODEL {
      SpecPosTiles(slot);
      SpecUses(len, slot);
      SpecInPart(slot);
      UsesWiden(AfterSlot(len)(slot), SpecFirst(slot), SpecFirst(slot + 1), SPEC_POS, ALIGN);
    } else if slot >= END_POS_MODEL {
      DirectUses(SlotBits(slot) - 4, 2 + slot % 2, len);
    }
  }

  /** Everything a match of a given length does after the length. */
  lemma DistanceUses(len: nat)
    ensures Keeps(Tree(POS_SLOT + 64 * LenState(len), 1, 64, 0), SlotPart(len))
    ensures AfterLen()(len) == Bind(Tree(POS_SLOT + 64 * LenState(len), 1, 64, 0), AfterSlot(len))
    ensures forall slot: nat :: START_POS_MODEL <= slot < END_POS_MODEL ==>
        Uses(AfterSlot(len)(slot), SpecFirst(slot), SpecFirst(slot + 1))
    ensures forall slot: nat :: slot >= END_POS_MODEL ==> Keeps(AfterSlot(len)(slot), ALIGN_PART)
  {
    hide Tree, AfterSlot, Bind, Uses, SpecFirst;
    SlotTreeUses(len);
    forall slot: nat
      ensures START_POS_MODEL <= slot < END_POS_MODEL ==>
          Uses(AfterSlot(len)(slot), SpecFirst(slot), SpecFirst(slot + 1))
      ensures slot >= END_POS_MODEL ==> Keeps(AfterSlot(len)(slot), ALIGN_PART)
    {
      AfterSlotUses(len, slot);
    }
  }

  /** Decision by decision, every probability a symbol asks for lies in the part of the table that is
      that decision's own: which kind of symbol, whether a repeated distance, which one, the one-byte
      match, the length coders, and - by DistanceUses - slot, SpecPos and Align; a literal stays in
      the 768 entries of its context, behind all of these. */
  lemma SymbolUses(c: Ctx)
    requires c.posState < 16 && c.state < NUM_STATES && LITERAL <= c.litBase
    ensures Asks(SymbolTree(c), IS_MATCH_PART) && Asks(SymbolTree(c).one, IS_REP_PART)
    ensures SymbolTree(c).zero == Literal(c) && Uses(Literal(c), c.litBase, c.litBase + LIT_SIZE)
    ensures var m := SymbolTree(c).one.zero;
            m == Bind(LenTree(LEN_CODER, c.posState), AfterLen())
                && Keeps(LenTree(LEN_CODER, c.posState), LEN_CODER_PART)
    ensures var o := SymbolTree(c).one.one;
            Asks(o, IS_REP_G0_PART) && Asks(o.zero, IS_REP0_LONG_PART) && o.zero.zero.Ret?
                && Keeps(o.zero.one, REP_LEN_CODER_PART) &&
            Asks(o.one, IS_REP_G1_PART) && Keeps(o.one.zero, REP_LEN_CODER_PART) &&
            Asks(o.one.one, IS_REP_G2_PART) && Keeps(o.one.one.zero, REP_LEN_CODER_PART)
                && Keeps(o.one.one.one, REP_LEN_CODER_PART)
  {
    hide Literal, LenTree, RepLen, Bind, Uses, AfterLen;
    LiteralUses(c);
    LenTreeUses(LEN_CODER, c.posState);
    RepLenUses(c, 0);
    RepLenUses(c, 1);
    RepLenUses(c, 2);
    RepLenUses(c, 3);
  }

  /** Within its part each decision has an entry of its own for every context it depends on. */
  lemma EntriesDistinct(c: Ctx, d: Ctx)
    requires c.posState < 16 && c.state < NUM_STATES && d.posState < 16 && d.state < NUM_STATES
    ensures SymbolTree(c).p == SymbolTree(d).p <==> c.state == d.state && c.posState == d.posState
    ensures SymbolTree(c).one.p == SymbolTree(d).one.p <==> c.state == d.state
    ensures var o, q := OldMatch(c), OldMatch(d);
            && (o.p == q.p <==> c.state == d.state)
            && (o.zero.p == q.zero.p <==> c.state == d.state && c.posState == d.posState)
            && (o.one.p == q.one.p <==> c.state == d.state)
            && (o.one.one.p == q.one.one.p <==> c.state == d.state)
    ensures forall len: nat, len': nat :: LenState(len) < LenState(len') ==>
        SlotPart(len).first + 64 <= SlotPart(len').first
  {
    hide Literal, LenTree, RepLen, Bind, NewMatch;
  }

  /** The eight entries a length coder at `b` has for the short and for the medium lengths of a
      position state. */
  function LowPart(b: nat, posState: nat): Part {
    Part(b + LEN_LOW + 8 * posState, 8)
  }

  function MidPart(b: nat, posState: nat): Part {
    Part(b + LEN_MID + 8 * posState, 8)
  }

  /** A length coder's two choices, the short and the medium lengths of each position state and the
      long lengths of all of them have entries of their own, in this order. */
  lemma LenEntries(b: nat, posState: nat, other: nat)
    requires posState < 16 && other < 16
    ensures Asks(LenTree(b, posState), Part(b, 1)) && Asks(LenTree(b, posState).one, Part(b + 1, 1))
    ensures Keeps(LenTree(b, posState).zero, LowPart(b, posState))
        && Keeps(LenTree(b, posState).one.zero, MidPart(b, posState))
        && Keeps(LenTree(b, posState).one.one, Part(b + LEN_HIGH, 256))
    ensures b + 2 <= LowPart(b, posState).first && LowPart(b, posState).first + 8 <= MidPart(b, other).first
        && MidPart(b, posState).first + 8 <= b + LEN_HIGH
    ensures posState < other ==>
        LowPart(b, posState).first + 8 <= LowPart(b, other).first
        && MidPart(b, posState).first + 8 <= MidPart(b, other).first
  {
    hide Tree, Uses;
    var low, mid, high := b + LEN_LOW + 8 * posState, b + LEN_MID + 8 * posState, b + LEN_HIGH;
    TreeUses(low, 1, 8, 0);
    TreeUses(mid, 1, 8, 8);
    TreeUses(high, 1, 256, 16);
    UsesWiden(Tree(low, 1, 8, 0), low + 1, low + 8, low, low + 8);
    UsesWiden(Tree(mid, 1, 8, 8), mid + 1, mid + 8, mid, mid + 8);
    UsesWiden(Tree(high, 1, 256, 16), high + 1, high + 256, high, high + 256);
  }

  lemma SpecInPart(slot: nat)
    requires START_POS_MODEL <= slot < END_POS_MODEL
    ensures SPEC_POS <= SpecFirst(slot) && SpecFirst(slot + 1) <= ALIGN
  {
    SpecPosTiles(slot);
  }

  lemma RepLenUses(c: Ctx, which: nat)
    requires c.posState < 16
    ensures Uses(RepLen(c, which), REP_LEN_CODER, LITERAL)
  {
    hide LenTree, Bind, Shallow, Below;
    LenTreeShape(REP_LEN_CODER, c.posState);
    LenTreeUses(REP_LEN_CODER, c.posState);
    UsesBind(LenTree(REP_LEN_CODER, c.posState), AfterRepLen(which), 272, REP_LEN_CODER, LITERAL);
  }
}

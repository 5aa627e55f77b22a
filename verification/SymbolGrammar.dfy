/** The grammar of one LZMA symbol over the packed probability table: which probability each
    decision uses and what the answers mean. */
module SymbolGrammar {
  import opened Basics
  import opened DecisionTree

  // ----- the packed table

  const LEN_LOW := 2
  const LEN_MID := LEN_LOW + 128
  const LEN_HIGH := LEN_MID + 128
  const NUM_LEN_PROBS := LEN_HIGH + 256

  const NUM_STATES := 12
  const NUM_LIT_STATES := 7

  const IS_MATCH := 0
  const IS_REP := IS_MATCH + 192
  const IS_REP_G0 := IS_REP + NUM_STATES
  const IS_REP_G1 := IS_REP_G0 + NUM_STATES
  const IS_REP_G2 := IS_REP_G1 + NUM_STATES
  const IS_REP0_LONG := IS_REP_G2 + NUM_STATES
  const POS_SLOT := IS_REP0_LONG + 192
  const SPEC_POS := POS_SLOT + 256
  const ALIGN := SPEC_POS + 114
  const LEN_CODER := ALIGN + 16
  const REP_LEN_CODER := LEN_CODER + NUM_LEN_PROBS
  const LITERAL := REP_LEN_CODER + NUM_LEN_PROBS
  const LIT_SIZE := 768

  const START_POS_MODEL := 4
  const END_POS_MODEL := 14

  // ----- symbols

  datatype Symbol =
    | Lit(byte: Byte)
    | ShortRep
    | Rep(which: nat, len: nat)
    | Match(len: nat, distance: nat)
    | EndMark(len: nat)

  /** What of the decoder's state the next symbol's decoding depends on, besides the range coder
      and the table: the coder state, the position state, the literal sub-table and the byte at
      distance rep0. */
  datatype Ctx = Ctx(state: nat, posState: nat, litBase: nat, matchByte: Byte)

  /** A bit tree over `base + 1 ..`: from node `i` down to the leaves at `limit`. */
  function Tree(base: nat, i: nat, limit: nat, offset: nat): Dec<nat>
    requires i >= 1
    decreases limit - i, base
  {
    if i >= limit then Ret(i - limit + offset)
    else Bit(base + i, Tree(base, 2 * i, limit, offset), Tree(base, 2 * i + 1, limit, offset))
  }

  function PlainLit(base: nat, symbol: nat): Dec<Symbol>
    requires 1 <= symbol < 0x200
    decreases 0x200 - symbol, base
  {
    if symbol >= 0x100 then Ret(Lit(symbol - 0x100))
    else Bit(base + symbol, PlainLit(base, 2 * symbol), PlainLit(base, 2 * symbol + 1))
  }

  /** The bit of `matchByte` under test, as an offset of 0 or 0x100; once a decoded bit has
      differed from the match byte, `offs` is 0 and stays 0. */
  function TestBit(matchByte: nat, offs: nat): nat {
    if offs != 0 && (matchByte / 0x100) % 2 == 1 then 0x100 else 0
  }

  function MatchedLit(base: nat, offs: nat, matchByte: nat, symbol: nat): Dec<Symbol>
    requires 1 <= symbol < 0x200 && (offs == 0 || offs == 0x100)
    decreases 0x200 - symbol, base
  {
    if symbol >= 0x100 then Ret(Lit(symbol - 0x100))
    else
      var m := 2 * matchByte;
      var bit := TestBit(m, offs);
      Bit(base + offs + bit + symbol,
          MatchedLit(base, offs - bit, m, 2 * symbol), MatchedLit(base, bit, m, 2 * symbol + 1))
  }

  function LenTree(base: nat, posState: nat): Dec<nat> {
    Bit(base,
        Tree(base + LEN_LOW + 8 * posState, 1, 8, 0),
        Bit(base + 1,
            Tree(base + LEN_MID + 8 * posState, 1, 8, 8),
            Tree(base + LEN_HIGH, 1, 256, 16)))
  }

  function MatchSymbol(len: nat, distance: nat): Symbol {
    if distance == 0xFFFF_FFFF then EndMark(len) else Match(len, distance)
  }

  /** A bit tree read from the least significant bit up. */
  function Reverse(base: nat, i: nat, n: nat, distance: nat, mask: nat, len: nat): Dec<Symbol>
    decreases n, base
  {
    if n == 0 then Ret(MatchSymbol(len, distance))
    else Bit(base + i, Reverse(base, 2 * i, n - 1, distance, 2 * mask, len),
             Reverse(base, 2 * i + 1, n - 1, distance + mask, 2 * mask, len))
  }

  function DirectBits(n: nat, distance: nat): Dec<nat> {
    if n == 0 then Ret(distance) else Direct(DirectBits(n - 1, 2 * distance), DirectBits(n - 1, 2 * distance + 1))
  }

  function SlotBits(slot: nat): nat
    requires slot >= START_POS_MODEL
  {
    slot / 2 - 1
  }

  /** The base of the SpecPos tree of a slot, and the distance of the slot's first value. */
  function SlotDistance(slot: nat): nat
    requires slot >= START_POS_MODEL
  {
    (2 + slot % 2) * Pow2(SlotBits(slot))
  }

  function SpecBase(slot: nat): int
    requires slot >= START_POS_MODEL
  {
    SPEC_POS + SlotDistance(slot) - slot - 1
  }

  function AfterDirect(len: nat): nat -> Dec<Symbol> {
    (distance: nat) => Reverse(ALIGN, 1, 4, 16 * distance, 1, len)
  }

  lemma SlotDistanceAbove(slot: nat)
    requires START_POS_MODEL <= slot < END_POS_MODEL
    ensures SlotDistance(slot) >= slot
  {
    SmallPowers();
  }

  function AfterSlot(len: nat): nat -> Dec<Symbol> {
    (slot: nat) =>
      if slot < START_POS_MODEL then Ret(MatchSymbol(len, slot))
      else if slot < END_POS_MODEL then
        SlotDistanceAbove(slot);
        Reverse(SpecBase(slot), 1, SlotBits(slot), SlotDistance(slot), 1, len)
      else Bind(DirectBits(SlotBits(slot) - 4, 2 + slot % 2), AfterDirect(len))
  }

  function LenState(len: nat): nat {
    if len < 4 then len else 3
  }

  function AfterLen(): nat -> Dec<Symbol> {
    (len: nat) => Bind(Tree(POS_SLOT + 64 * LenState(len), 1, 64, 0), AfterSlot(len))
  }

  function AfterRepLen(which: nat): nat -> Dec<Symbol> {
    (len: nat) => Ret(Rep(which, len))
  }

  function RepLen(c: Ctx, which: nat): Dec<Symbol> {
    Bind(LenTree(REP_LEN_CODER, c.posState), AfterRepLen(which))
  }

  function Literal(c: Ctx): Dec<Symbol> {
    if c.state < NUM_LIT_STATES then PlainLit(c.litBase, 1) else MatchedLit(c.litBase, 0x100, c.matchByte, 1)
  }

  function NewMatch(c: Ctx): Dec<Symbol> {
    Bind(LenTree(LEN_CODER, c.posState), AfterLen())
  }

  function OldMatch(c: Ctx): Dec<Symbol> {
    Bit(IS_REP_G0 + c.state,
        Bit(IS_REP0_LONG + 16 * c.state + c.posState, Ret(ShortRep), RepLen(c, 0)),
        Bit(IS_REP_G1 + c.state,
            RepLen(c, 1),
            Bit(IS_REP_G2 + c.state, RepLen(c, 2), RepLen(c, 3))))
  }

  /** One whole symbol. */
  function SymbolTree(c: Ctx): Dec<Symbol> {
    Bit(IS_MATCH + 16 * c.state + c.posState,
        Literal(c),
        Bit(IS_REP + c.state, NewMatch(c), OldMatch(c)))
  }

  lemma NodeInside(i: nat, left: nat, n: nat)
    requires left > 0 && i >= 1 && (i + 1) * Pow2(left) <= 2 * Pow2(n)
    ensures i < Pow2(n)
    ensures (2 * i + 2) * Pow2(left - 1) <= 2 * Pow2(n) && (2 * i + 1) * Pow2(left - 1) <= 2 * Pow2(n)
  {
    assert Pow2(left) == 2 * Pow2(left - 1);
    hide Pow2;
    NodeDoubles(i, Pow2(left - 1), Pow2(n));
  }

  lemma NodeDoubles(i: nat, m: nat, k: nat)
    requires m >= 1 && (i + 1) * (2 * m) <= 2 * k
    ensures i < k && (2 * i + 2) * m <= 2 * k && (2 * i + 1) * m <= 2 * k
  {
    assert (i + 1) * (2 * m) == (2 * i + 2) * m;
    MulMono(2 * i + 1, 2 * i + 2, m);
    MulMono(1, m, 2 * i + 2);
  }

  lemma SpecInside(slot: nat)
    requires START_POS_MODEL <= slot < END_POS_MODEL
    ensures 0 <= SpecBase(slot) && SpecBase(slot) + Pow2(SlotBits(slot)) <= ALIGN
  {
    hide Pow2;
    SmallPowers();
  }
}

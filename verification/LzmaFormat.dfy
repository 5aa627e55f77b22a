/** How the LZMA format writes one symbol: the bits of its literal, length and distance, in which order
    they come, and which entry of the table each is coded with. */
module LzmaFormat {
  import opened Basics
  import opened DecisionTree
  import opened SymbolGrammar

  /** One bit of a symbol: an adaptive one coded with an entry of the table, or a direct one. */
  datatype Answer = Asked(entry: int, bit: bool) | Plain(bit: bool)

  /** `x` without its `k` lowest bits. */
  function Shr(x: nat, k: nat): nat {
    if k == 0 then x else Shr(x, k - 1) / 2
  }

  /** Bit `k` of `x`, counted from the lowest. */
  predicate BitOf(x: nat, k: nat) {
    Shr(x, k) % 2 == 1
  }

  /** The `w` lowest bits of `x`, highest first; each is coded with the entry numbered by a 1 followed by
      the bits above it. */
  function TopDown(base: int, x: nat, w: nat): seq<Answer> {
    seq(w, j requires 0 <= j < w => Asked(base + Pow2(j) + Shr(x, w - j), BitOf(x, w - 1 - j)))
  }

  /** A 1 followed by the `k` lowest bits of `x`, lowest first. */
  function LowFirst(x: nat, k: nat): nat {
    if k == 0 then 1 else 2 * LowFirst(x, k - 1) + if BitOf(x, k - 1) then 1 else 0
  }

  /** The `w` lowest bits of `x`, lowest first, numbered alike. */
  function BottomUp(base: int, x: nat, w: nat): seq<Answer> {
    seq(w, j requires 0 <= j < w => Asked(base + LowFirst(x, j), BitOf(x, j)))
  }

  /** The bits of `x` from `from - 1` down to `to`. */
  function DirectDown(x: nat, from: nat, to: nat): seq<Answer>
    requires to <= from
  {
    seq(from - to, j requires 0 <= j < from - to => Plain(BitOf(x, from - 1 - j)))
  }

  /** A literal after a match: as long as its bits are those of the byte at the last distance, each is
      coded with an entry chosen by that byte's next bit as well. */
  function Matched(base: int, matchByte: Byte, x: Byte): seq<Answer> {
    seq(8, j requires 0 <= j < 8 =>
      Asked(base + MatchOffset(matchByte, x, j) + Pow2(j) + Shr(x, 8 - j), BitOf(x, 7 - j)))
  }

  function MatchOffset(matchByte: Byte, x: Byte, j: nat): nat
    requires j < 8
  {
    if Shr(x, 8 - j) != Shr(matchByte, 8 - j) then 0 else if BitOf(matchByte, 7 - j) then 0x200 else 0x100
  }

  /** 0 to 7 in three bits, 8 to 15 in three bits, 16 to 271 in eight bits. */
  function Length(base: nat, posState: nat, len: nat): seq<Answer> {
    if len < 8 then [Asked(base, false)] + TopDown(base + 2 + 8 * posState, len, 3)
    else if len < 16 then
      [Asked(base, true), Asked(base + 1, false)] + TopDown(base + 130 + 8 * posState, len - 8, 3)
    else [Asked(base, true), Asked(base + 1, true)] + TopDown(base + 258, len - 16, 8)
  }

  /** How many bits of a distance follow its slot: all but the two highest. */
  function LowBits(d: nat): nat {
    if d < 4 then 0 else 1 + LowBits(d / 2)
  }

  /** The slot: the number of bits that follow and the two highest bits. */
  function SlotOf(d: nat): nat {
    if d < 4 then d else 2 * LowBits(d) + Shr(d, LowBits(d))
  }

  function Min3(len: nat): nat {
    if len < 3 then len else 3
  }

  /** The bits that follow the slot: up to five, lowest first; of more, all but the last four directly and
      highest first, and the last four lowest first. */
  function Footer(d: nat): seq<Answer> {
    var n := LowBits(d);
    if n <= 5 then BottomUp(SPEC_POS + Shr(d, n) * Pow2(n) - SlotOf(d) - 1, d, n)
    else DirectDown(d, n, 4) + BottomUp(ALIGN, d, 4)
  }

  /** The bits of a distance: six for the slot, and those that follow. */
  function Distance(len: nat, d: nat): seq<Answer> {
    TopDown(POS_SLOT + 64 * Min3(len), SlotOf(d), 6) + Footer(d)
  }

  const END_DISTANCE := 0xFFFF_FFFF

  /** The symbols the format can write. */
  predicate Writable(sym: Symbol) {
    match sym
    case Lit(_) => true
    case ShortRep => true
    case Rep(which, len) => which < 4 && len < 272
    case Match(len, distance) => len < 272 && distance < END_DISTANCE
    case EndMark(len) => len < 272
  }

  /** All bits of a symbol. */
  function Answers(c: Ctx, sym: Symbol): seq<Answer> {
    var match0 := IS_MATCH + 16 * c.state + c.posState;
    var asNew := [Asked(match0, true), Asked(IS_REP + c.state, false)];
    var asOld := [Asked(match0, true), Asked(IS_REP + c.state, true)];
    match sym
    case Lit(byte) =>
      [Asked(match0, false)]
          + if c.state < 7 then TopDown(c.litBase, byte, 8) else Matched(c.litBase, c.matchByte, byte)
    case ShortRep =>
      asOld + [Asked(IS_REP_G0 + c.state, false), Asked(IS_REP0_LONG + 16 * c.state + c.posState, false)]
    case Rep(which, len) =>
      asOld +
      (if which == 0 then
         [Asked(IS_REP_G0 + c.state, false), Asked(IS_REP0_LONG + 16 * c.state + c.posState, true)]
       else if which == 1 then [Asked(IS_REP_G0 + c.state, true), Asked(IS_REP_G1 + c.state, false)]
       else [Asked(IS_REP_G0 + c.state, true), Asked(IS_REP_G1 + c.state, true),
             Asked(IS_REP_G2 + c.state, which != 2)])
          + Length(REP_LEN_CODER, c.posState, len)
    case Match(len, distance) => asNew + Length(LEN_CODER, c.posState, len) + Distance(len, distance)
    case EndMark(len) => asNew + Length(LEN_CODER, c.posState, len) + Distance(len, END_DISTANCE)
  }

  // ----- following answers through a program

  /** Where the answers lead, provided each is to the question that is asked. */
  function Follow<R>(d: Dec<R>, path: seq<Answer>): Option<R>
    decreases d
  {
    match d
    case Ret(v) => if path == [] then Some(v) else None
    case Bit(p, zero, one) =>
      if path == [] || !path[0].Asked? || path[0].entry != p then None
      else Follow(if path[0].bit then one else zero, path[1..])
    case Direct(zero, one) =>
      if path == [] || !path[0].Plain? then None else Follow(if path[0].bit then one else zero, path[1..])
  }

  lemma {:induction false} FollowBind<A, B>(d: Dec<A>, k: A -> Dec<B>, path: seq<Answer>, rest: seq<Answer>)
    requires Follow(d, path).Some?
    ensures Follow(Bind(d, k), path + rest) == Follow(k(Follow(d, path).value), rest)
  {
    match d
    case Ret(v) => assert path + rest == rest;
    case Bit(p, zero, one) =>
      assert (path + rest)[1..] == path[1..] + rest;
      FollowBind(if path[0].bit then one else zero, k, path[1..], rest);
    case Direct(zero, one) =>
      assert (path + rest)[1..] == path[1..] + rest;
      FollowBind(if path[0].bit then one else zero, k, path[1..], rest);
  }

  // ----- bits of numbers

  lemma {:induction false} ShrBound(x: nat, k: nat, j: nat)
    requires x < Pow2(k + j)
    ensures Shr(x, k) < Pow2(j)
  {
    if k > 0 {
      ShrBound(x, k - 1, j + 1);
      assert Pow2(j + 1) == 2 * Pow2(j);
    }
  }

  lemma {:induction false} ShrHalf(x: nat, k: nat)
    ensures Shr(x / 2, k) == Shr(x, k + 1)
  {
    if k > 0 { ShrHalf(x, k - 1); }
  }

  /** The value of the `k` lowest bits. */
  function Low(x: nat, k: nat): nat {
    if k == 0 then 0 else Low(x, k - 1) + if BitOf(x, k - 1) then Pow2(k - 1) else 0
  }

  lemma {:induction false} LowAndHigh(x: nat, k: nat)
    ensures x == Shr(x, k) * Pow2(k) + Low(x, k)
  {
    if k > 0 {
      LowAndHigh(x, k - 1);
      Halved(Shr(x, k - 1), Pow2(k - 1));
    }
  }

  lemma Halved(h: nat, m: nat)
    ensures h * m == (h / 2) * (2 * m) + (if h % 2 == 1 then m else 0)
  {
    var q, b := h / 2, h % 2;
    assert (2 * q + b) * m == q * (2 * m) + b * m;
  }

  lemma {:induction false} PowMono(j: nat, w: nat)
    requires j <= w
    ensures Pow2(j) <= Pow2(w)
  {
    if j < w { PowMono(j, w - 1); }
  }

  // ----- the programs of the grammar read these bits

  lemma FollowBit<R>(d: Dec<R>, path: seq<Answer>, j: nat)
    requires d.Bit? && j < |path| && path[j].Asked? && path[j].entry == d.p
    ensures Follow(d, path[j..]) == Follow(if path[j].bit then d.one else d.zero, path[j + 1..])
  {
    assert path[j..][1..] == path[j + 1..];
  }

  lemma TreeStep(base: nat, i: nat, limit: nat, offset: nat)
    requires i >= 1
    ensures Tree(base, i, limit, offset) == if i >= limit then Ret(i - limit + offset)
        else Bit(base + i, Tree(base, 2 * i, limit, offset), Tree(base, 2 * i + 1, limit, offset))
  {
  }

  lemma ShrStep(x: nat, k: nat)
    ensures Shr(x, k) == 2 * Shr(x, k + 1) + if BitOf(x, k) then 1 else 0
  {
  }

  lemma {:induction false} FollowTree(base: nat, x: nat, w: nat, offset: nat, j: nat)
    requires j <= w && x < Pow2(w)
    ensures Follow(Tree(base, Pow2(j) + Shr(x, w - j), Pow2(w), offset), TopDown(base, x, w)[j..]) == Some(x + offset)
    decreases w - j
  {
    hide Tree, Follow, BitOf, Shr;
    var i, path := Pow2(j) + Shr(x, w - j), TopDown(base, x, w);
    ShrBound(x, w - j, j);
    TreeStep(base, i, Pow2(w), offset);
    if j < w {
      PowMono(j + 1, w);
      ShrStep(x, w - j - 1);
      FollowBit(Tree(base, i, Pow2(w), offset), path, j);
      FollowTree(base, x, w, offset, j + 1);
    } else {
      assert path[j..] == [] && w - j == 0;
      ShrNone(x);
      FollowRet<nat>(x + offset);
    }
  }

  lemma ShrNone(x: nat)
    ensures Shr(x, 0) == x
  {
  }

  lemma FollowRet<R>(v: R)
    ensures Follow(Ret(v), []) == Some(v)
  {
  }

  lemma TreeWhole(base: nat, x: nat, w: nat, offset: nat)
    requires x < Pow2(w)
    ensures Follow(Tree(base, 1, Pow2(w), offset), TopDown(base, x, w)) == Some(x + offset)
  {
    hide Tree, Follow, TopDown, Shr;
    ShrBound(x, w, 0);
    assert Pow2(0) == 1 && TopDown(base, x, w)[0..] == TopDown(base, x, w);
    FollowTree(base, x, w, offset, 0);
  }

  lemma {:induction false} FollowPlainLit(base: nat, x: Byte, j: nat)
    requires j <= 8
    ensures 1 <= Pow2(j) + Shr(x, 8 - j) < 0x200
    ensures Follow(PlainLit(base, Pow2(j) + Shr(x, 8 - j)), TopDown(base, x, 8)[j..]) == Some(Lit(x))
    decreases 8 - j
  {
    hide PlainLit, Follow, BitOf, Shr;
    var path := TopDown(base, x, 8);
    EightBits(x, j);
    var i := Pow2(j) + Shr(x, 8 - j);
    PlainLitStep(base, i);
    if j < 8 {
      ShrStep(x, 7 - j);
      FollowPlainLit(base, x, j + 1);
      FollowBit(PlainLit(base, i), path, j);
    } else {
      assert path[j..] == [];
      ShrNone(x);
      FollowRet(Lit(x));
    }
  }

  lemma EightBits(x: Byte, j: nat)
    requires j <= 8
    ensures Shr(x, 8 - j) < Pow2(j) && Pow2(8) == 256 && (j < 8 ==> 2 * Pow2(j) <= 256)
  {
    assert Pow2(5) == 32 && Pow2(8) == 256;
    ShrBound(x, 8 - j, j);
    if j < 8 { PowMono(j + 1, 8); }
  }

  lemma PlainLitStep(base: nat, symbol: nat)
    requires 1 <= symbol < 0x200
    ensures PlainLit(base, symbol) == if symbol >= 0x100 then Ret(Lit(symbol - 0x100))
        else Bit(base + symbol, PlainLit(base, 2 * symbol), PlainLit(base, 2 * symbol + 1))
  {
  }

  lemma MatchedAt(base: int, m: Byte, x: Byte, j: nat)
    requires j < 8
    ensures |Matched(base, m, x)| == 8
    ensures var offs := if Shr(x, 8 - j) != Shr(m, 8 - j) then 0 else if BitOf(m, 7 - j) then 0x200 else 0x100;
            Matched(base, m, x)[j] == Asked(base + offs + Pow2(j) + Shr(x, 8 - j), BitOf(x, 7 - j))
  {
  }

  /** The loop's match byte has been shifted, and its offset is still in force while the bits agree. */
  lemma {:induction false} FollowMatchedLit(base: nat, m: Byte, x: Byte, j: nat, shifted: nat)
    requires j <= 8 && shifted == m * Pow2(j)
    ensures 1 <= Pow2(j) + Shr(x, 8 - j) < 0x200
    ensures Follow(MatchedLit(base, if Shr(x, 8 - j) == Shr(m, 8 - j) then 0x100 else 0, shifted,
        Pow2(j) + Shr(x, 8 - j)), Matched(base, m, x)[j..]) == Some(Lit(x))
    decreases 8 - j
  {
    hide MatchedLit, Follow, BitOf, Shr, TestBit, Matched, Pow2;
    var same := Shr(x, 8 - j) == Shr(m, 8 - j);
    EightBits(x, j);
    var i, offs := Pow2(j) + Shr(x, 8 - j), if same then 0x100 else 0;
    MatchedLitStep(base, offs, shifted, i);
    if j < 8 {
      MatchedAt(base, m, x, j);
      ShrStep(x, 7 - j);
      ShrStep(m, 7 - j);
      TestsBit(m, j, offs);
      DoubleShift(m, j);
      FollowMatchedLit(base, m, x, j + 1, 2 * shifted);
      FollowBit(MatchedLit(base, offs, shifted, i), Matched(base, m, x), j);
    } else {
      MatchedAt(base, m, x, 0);
      LastPower(j);
      assert Matched(base, m, x)[j..] == [] && 8 - j == 0;
      ShrNone(x);
      FollowRet(Lit(x));
    }
  }

  lemma DoubleShift(m: nat, j: nat)
    ensures m * Pow2(j + 1) == 2 * (m * Pow2(j)) && Pow2(j + 1) == 2 * Pow2(j)
  {
  }

  lemma LastPower(j: nat)
    ensures j == 8 ==> Pow2(j) == 256
  {
    assert Pow2(5) == 32 && Pow2(8) == 256;
  }

  lemma MatchedLitStep(base: nat, offs: nat, matchByte: nat, symbol: nat)
    requires 1 <= symbol < 0x200 && (offs == 0 || offs == 0x100)
    ensures MatchedLit(base, offs, matchByte, symbol) == if symbol >= 0x100 then Ret(Lit(symbol - 0x100))
        else
          var bit := TestBit(2 * matchByte, offs);
          Bit(base + offs + bit + symbol, MatchedLit(base, offs - bit, 2 * matchByte, 2 * symbol),
              MatchedLit(base, bit, 2 * matchByte, 2 * symbol + 1))
  {
  }

  lemma TestsBit(m: Byte, j: nat, offs: nat)
    requires j < 8 && (offs == 0 || offs == 0x100)
    ensures TestBit(2 * (m * Pow2(j)), offs) == if offs != 0 && BitOf(m, 7 - j) then 0x100 else 0
  {
    hide Shr;
    TopBits(m, j);
  }

  lemma {:induction false} TopBits(m: Byte, j: nat)
    requires j <= 7
    ensures 2 * (m * Pow2(j)) / 0x100 == Shr(m, 7 - j)
    decreases 7 - j
  {
    if j == 7 {
      assert Pow2(7) == 128 && 7 - j == 0;
    } else {
      TopBits(m, j + 1);
      DoubleShift(m, j);
      hide Pow2;
      HalfQuotient(2 * (m * Pow2(j)));
      assert Shr(m, 7 - j) == Shr(m, 7 - (j + 1)) / 2;
    }
  }

  lemma HalfQuotient(y: nat)
    ensures 2 * y / 0x100 / 2 == y / 0x100
  {
  }

  lemma FollowLiteral(c: Ctx, x: Byte)
    ensures Follow(Literal(c), if c.state < 7 then TopDown(c.litBase, x, 8) else Matched(c.litBase, c.matchByte, x)) ==
        Some(Lit(x))
  {
    hide Follow, PlainLit, MatchedLit, Shr, TopDown, Matched;
    EightBits(x, 0);
    EightBits(c.matchByte, 0);
    assert Pow2(0) == 1;
    assert TopDown(c.litBase, x, 8)[0..] == TopDown(c.litBase, x, 8);
    assert Matched(c.litBase, c.matchByte, x)[0..] == Matched(c.litBase, c.matchByte, x);
    FollowPlainLit(c.litBase, x, 0);
    FollowMatchedLit(c.litBase, c.matchByte, x, 0, c.matchByte);
  }

  lemma FollowOne<R>(d: Dec<R>, a: Answer, rest: seq<Answer>)
    requires d.Bit? && a == Asked(d.p, a.bit)
    ensures Follow(d, [a] + rest) == Follow(if a.bit then d.one else d.zero, rest)
  {
    assert ([a] + rest)[1..] == rest;
  }

  lemma FollowLength(base: nat, posState: nat, len: nat)
    requires len < 272
    ensures Follow(LenTree(base, posState), Length(base, posState, len)) == Some(len)
  {
    hide Follow, Tree, TopDown;
    assert Pow2(3) == 8 && Pow2(8) == 256;
    var d := LenTree(base, posState);
    if len < 8 {
      FollowOne(d, Asked(base, false), TopDown(base + 2 + 8 * posState, len, 3));
      TreeWhole(base + 2 + 8 * posState, len, 3, 0);
    } else if len < 16 {
      var path := TopDown(base + 130 + 8 * posState, len - 8, 3);
      assert Length(base, posState, len) == [Asked(base, true)] + ([Asked(base + 1, false)] + path);
      FollowOne(d, Asked(base, true), [Asked(base + 1, false)] + path);
      FollowOne(d.one, Asked(base + 1, false), path);
      TreeWhole(base + 130 + 8 * posState, len - 8, 3, 8);
    } else {
      var path := TopDown(base + 258, len - 16, 8);
      assert Length(base, posState, len) == [Asked(base, true)] + ([Asked(base + 1, true)] + path);
      FollowOne(d, Asked(base, true), [Asked(base + 1, true)] + path);
      FollowOne(d.one, Asked(base + 1, true), path);
      TreeWhole(base + 258, len - 16, 8, 16);
    }
  }

  // ----- distances

  lemma ReverseStep(base: nat, i: nat, n: nat, distance: nat, mask: nat, len: nat)
    ensures Reverse(base, i, n, distance, mask, len) == if n == 0 then Ret(MatchSymbol(len, distance))
        else Bit(base + i, Reverse(base, 2 * i, n - 1, distance, 2 * mask, len),
                 Reverse(base, 2 * i + 1, n - 1, distance + mask, 2 * mask, len))
  {
  }

  lemma BottomUpAt(base: int, x: nat, w: nat, j: nat)
    ensures |BottomUp(base, x, w)| == w
    ensures j < w ==> BottomUp(base, x, w)[j] == Asked(base + LowFirst(x, j), BitOf(x, j))
    ensures LowFirst(x, j + 1) == 2 * LowFirst(x, j) + if BitOf(x, j) then 1 else 0
    ensures Low(x, j + 1) == Low(x, j) + if BitOf(x, j) then Pow2(j) else 0
    ensures Pow2(j + 1) == 2 * Pow2(j)
  {
  }

  lemma {:induction false} FollowReverse(base: nat, x: nat, w: nat, high: nat, len: nat, j: nat)
    requires j <= w
    ensures Follow(Reverse(base, LowFirst(x, j), w - j, high + Low(x, j), Pow2(j), len), BottomUp(base, x, w)[j..]) ==
        Some(MatchSymbol(len, high + Low(x, w)))
    decreases w - j
  {
    hide Reverse, Follow, BitOf, LowFirst, Low, Pow2, BottomUp, MatchSymbol;
    ReverseStep(base, LowFirst(x, j), w - j, high + Low(x, j), Pow2(j), len);
    BottomUpAt(base, x, w, j);
    if j < w {
      FollowReverse(base, x, w, high, len, j + 1);
      FollowBit(Reverse(base, LowFirst(x, j), w - j, high + Low(x, j), Pow2(j), len), BottomUp(base, x, w), j);
    } else {
      assert BottomUp(base, x, w)[j..] == [];
      FollowRet(MatchSymbol(len, high + Low(x, w)));
    }
  }

  lemma ReverseWhole(base: nat, x: nat, w: nat, len: nat)
    ensures Follow(Reverse(base, 1, w, Shr(x, w) * Pow2(w), 1, len), BottomUp(base, x, w)) == Some(MatchSymbol(len, x))
  {
    hide Reverse, Follow, BitOf, BottomUp, MatchSymbol, Shr;
    assert LowFirst(x, 0) == 1 && Low(x, 0) == 0 && Pow2(0) == 1;
    assert BottomUp(base, x, w)[0..] == BottomUp(base, x, w);
    hide LowFirst, Low, Pow2;
    MulMono(0, Shr(x, w), Pow2(w));
    FollowReverse(base, x, w, Shr(x, w) * Pow2(w), len, 0);
    LowAndHigh(x, w);
  }

  lemma {:induction false} FollowDirect(x: nat, from: nat, to: nat, j: nat)
    requires to + j <= from
    ensures Follow(DirectBits(from - to - j, Shr(x, from - j)), DirectDown(x, from, to)[j..]) == Some(Shr(x, to))
    decreases from - to - j
  {
    hide Follow, BitOf, Shr;
    var path := DirectDown(x, from, to);
    if to + j < from {
      ShrStep(x, from - j - 1);
      FollowDirect(x, from, to, j + 1);
      FollowPlain(DirectBits(from - to - j, Shr(x, from - j)), path, j);
    } else {
      assert path[j..] == [] && from - j == to;
      FollowRet<nat>(Shr(x, to));
    }
  }

  lemma FollowPlain<R>(d: Dec<R>, path: seq<Answer>, j: nat)
    requires d.Direct? && j < |path| && path[j].Plain?
    ensures Follow(d, path[j..]) == Follow(if path[j].bit then d.one else d.zero, path[j + 1..])
  {
    assert path[j..][1..] == path[j + 1..];
  }

  /** All but the two highest bits follow the slot. */
  lemma {:induction false} TopTwo(d: nat)
    requires d >= 4
    ensures LowBits(d) >= 1 && 2 <= Shr(d, LowBits(d)) <= 3 && Pow2(LowBits(d) + 1) <= d
  {
    ShrHalf(d, LowBits(d / 2));
    if d / 2 >= 4 {
      TopTwo(d / 2);
    } else {
      assert LowBits(d / 2) == 0 && LowBits(d) == 1 && Shr(d / 2, 0) == d / 2 && Pow2(2) == 4;
    }
  }

  lemma WordPower()
    ensures Pow2(32) == WORD
  {
    assert Pow2(8) == 256 && Pow2(16) == 0x1_0000 && Pow2(24) == 0x100_0000;
  }

  /** The slot is what the decoder computes with. */
  lemma SlotIs(d: nat)
    requires d >= 4
    ensures var n := LowBits(d);
            && SlotOf(d) >= 4 && SlotBits(SlotOf(d)) == n && 2 + SlotOf(d) % 2 == Shr(d, n)
            && (n <= 5 <==> SlotOf(d) < 14)
            && (d < 0x1_0000_0000 ==> SlotOf(d) < 64)
  {
    TopTwo(d);
    var n := LowBits(d);
    WordPower();
    if n >= 31 { PowMono(32, n + 1); }
  }

  lemma FootNone(d: nat)
    requires d < 4
    ensures LowBits(d) == 0 && Footer(d) == []
  {
  }

  lemma FollowFooter(len: nat, d: nat)
    ensures Follow(AfterSlot(len)(SlotOf(d)), Footer(d)) == Some(MatchSymbol(len, d))
  {
    hide Follow, BottomUp, DirectDown, Reverse, DirectBits, Bind, MatchSymbol, Shr, LowBits, SlotBits;
    var n, slot := LowBits(d), SlotOf(d);
    if d < 4 {
      assert n == 0 && Footer(d) == [] by { FootNone(d); }
      FollowRet(MatchSymbol(len, d));
    } else {
      SlotIs(d);
      if n <= 5 {
        ReverseWhole(SpecBase(slot), d, n, len);
      } else {
        var direct, rest := DirectDown(d, n, 4), BottomUp(ALIGN, d, 4);
        FollowDirect(d, n, 4, 0);
        assert direct[0..] == direct;
        FollowBind(DirectBits(n - 4, Shr(d, n)), AfterDirect(len), direct, rest);
        ReverseWhole(ALIGN, d, 4, len);
        assert Pow2(4) == 16;
      }
    }
  }

  lemma FollowDistance(len: nat, d: nat)
    requires d < WORD
    ensures Follow(AfterLen()(len), Distance(len, d)) == Some(MatchSymbol(len, d))
  {
    hide Follow, TopDown, Tree, Bind, AfterSlot, MatchSymbol, Footer, SlotOf;
    var tree, slot := Tree(POS_SLOT + 64 * LenState(len), 1, 64, 0), TopDown(POS_SLOT + 64 * Min3(len), SlotOf(d), 6);
    assert Pow2(6) == 64;
    SlotBelow(d);
    TreeWhole(POS_SLOT + 64 * LenState(len), SlotOf(d), 6, 0);
    FollowBind(tree, AfterSlot(len), slot, Footer(d));
    FollowFooter(len, d);
  }

  lemma SlotBelow(d: nat)
    requires d < WORD
    ensures SlotOf(d) < 64
  {
    if d >= 4 { SlotIs(d); }
  }

  lemma FollowNewMatch(c: Ctx, len: nat, d: nat)
    requires len < 272 && d < WORD
    ensures Follow(NewMatch(c), Length(LEN_CODER, c.posState, len) + Distance(len, d)) == Some(MatchSymbol(len, d))
  {
    hide Follow, LenTree, Length, Distance, Bind, AfterLen, MatchSymbol;
    FollowLength(LEN_CODER, c.posState, len);
    FollowBind(LenTree(LEN_CODER, c.posState), AfterLen(), Length(LEN_CODER, c.posState, len), Distance(len, d));
    FollowDistance(len, d);
  }

  lemma FollowRepLen(c: Ctx, which: nat, len: nat)
    requires len < 272
    ensures Follow(RepLen(c, which), Length(REP_LEN_CODER, c.posState, len)) == Some(Rep(which, len))
  {
    hide Follow, LenTree, Length, Bind;
    var path := Length(REP_LEN_CODER, c.posState, len);
    FollowLength(REP_LEN_CODER, c.posState, len);
    FollowBind(LenTree(REP_LEN_CODER, c.posState), AfterRepLen(which), path, []);
    FollowRet(Rep(which, len));
    assert path + [] == path;
  }

  lemma FollowThree<R>(d: Dec<R>, a: Answer, b: Answer, e: Answer, rest: seq<Answer>)
    requires d.Bit? && a == Asked(d.p, a.bit)
    requires var d' := if a.bit then d.one else d.zero;
             d'.Bit? && b == Asked(d'.p, b.bit) && var d'' := (if b.bit then d'.one else d'.zero);
             d''.Bit? && e == Asked(d''.p, e.bit)
    ensures var d' := if a.bit then d.one else d.zero;
            var d'' := if b.bit then d'.one else d'.zero;
            Follow(d, [a, b, e] + rest) == Follow(if e.bit then d''.one else d''.zero, rest)
  {
    hide Follow;
    assert [a, b, e] + rest == [a] + ([b] + ([e] + rest));
    var d' := if a.bit then d.one else d.zero;
    var d'' := if b.bit then d'.one else d'.zero;
    FollowOne(d, a, [b] + ([e] + rest));
    FollowOne(d', b, [e] + rest);
    FollowOne(d'', e, rest);
  }

  lemma FollowRep(c: Ctx, which: nat, len: nat)
    requires which < 4 && len < 272
    ensures Follow(SymbolTree(c), Answers(c, Rep(which, len))) == Some(Rep(which, len))
  {
    hide Follow, RepLen, Length, NewMatch, Literal;
    var match0, rest := IS_MATCH + 16 * c.state + c.posState, Length(REP_LEN_CODER, c.posState, len);
    var a, b, o := Asked(match0, true), Asked(IS_REP + c.state, true), OldMatch(c);
    FollowRepLen(c, which, len);
    if which == 0 {
      var e, f := Asked(IS_REP_G0 + c.state, false), Asked(IS_REP0_LONG + 16 * c.state + c.posState, true);
      assert Answers(c, Rep(which, len)) == [a, b, e] + ([f] + rest);
      FollowThree(SymbolTree(c), a, b, e, [f] + rest);
      FollowOne(o.zero, f, rest);
    } else {
      var e, f := Asked(IS_REP_G0 + c.state, true), Asked(IS_REP_G1 + c.state, which != 1);
      if which == 1 {
        assert Answers(c, Rep(which, len)) == [a, b, e] + ([f] + rest);
        FollowThree(SymbolTree(c), a, b, e, [f] + rest);
        FollowOne(o.one, f, rest);
      } else {
        var g := Asked(IS_REP_G2 + c.state, which != 2);
        assert Answers(c, Rep(which, len)) == [a, b, e] + ([f] + ([g] + rest));
        FollowThree(SymbolTree(c), a, b, e, [f] + ([g] + rest));
        FollowOne(o.one, f, [g] + rest);
        FollowOne(o.one.one, g, rest);
      }
    }
  }

  /** Which symbol a decoding run finds: in every context, the bits the format writes for a symbol, each
      with the table entry the format codes it with, lead to that symbol and leave nothing over. */
  lemma AnswersLead(c: Ctx, sym: Symbol)
    requires Writable(sym)
    ensures Follow(SymbolTree(c), Answers(c, sym)) == Some(sym)
  {
    hide Follow, RepLen, Length, NewMatch, Literal, Distance, TopDown, Matched;
    var match0 := IS_MATCH + 16 * c.state + c.posState;
    match sym
    case Lit(byte) =>
      var bits := if c.state < 7 then TopDown(c.litBase, byte, 8) else Matched(c.litBase, c.matchByte, byte);
      FollowOne(SymbolTree(c), Asked(match0, false), bits);
      FollowLiteral(c, byte);
    case ShortRep =>
      var a, b, e := Asked(match0, true), Asked(IS_REP + c.state, true), Asked(IS_REP_G0 + c.state, false);
      var f := Asked(IS_REP0_LONG + 16 * c.state + c.posState, false);
      assert Answers(c, sym) == [a, b, e] + ([f] + []);
      FollowThree(SymbolTree(c), a, b, e, [f] + []);
      FollowOne(OldMatch(c).zero, f, []);
      FollowRet(ShortRep);
    case Rep(which, len) => FollowRep(c, which, len);
    case Match(len, distance) => FollowNew(c, len, distance);
    case EndMark(len) => FollowNew(c, len, END_DISTANCE);
  }

  lemma FollowNew(c: Ctx, len: nat, d: nat)
    requires len < 272 && d < WORD
    ensures Follow(SymbolTree(c), Answers(c, MatchSymbol(len, d))) == Some(MatchSymbol(len, d))
  {
    hide Follow, RepLen, Length, NewMatch, Literal, Distance, OldMatch;
    var match0 := IS_MATCH + 16 * c.state + c.posState;
    var a, b, rest := Asked(match0, true), Asked(IS_REP + c.state, false),
        Length(LEN_CODER, c.posState, len) + Distance(len, d);
    assert Answers(c, MatchSymbol(len, d)) == [a] + ([b] + rest);
    FollowOne(SymbolTree(c), a, [b] + rest);
    FollowOne(SymbolTree(c).one, b, rest);
    FollowNewMatch(c, len, d);
  }
}

/** The real decoder's bit-level code: every method runs the part of the symbol grammar that it
    is named after, updating the probability table in place. */
module SymbolDecoder {
  import opened Basics
  import opened RangeCoder
  import opened DecisionTree
  import opened SymbolGrammar
  import opened GrammarFacts

  /** NORMALIZE. */
  method NormalizeRange(rc: Rc, src: seq<Byte>) returns (r: Rc)
    requires Normalize(rc, src).buf <= |src|
    ensures r == Normalize(rc, src)
  {
    var range, code, buf := rc.range, rc.code, rc.buf;
    if range < TOP {
      range := (range * 0x100) % WORD;
      code := (code * 0x100) % WORD + src[buf];
      buf := buf + 1;
    }
    r := Rc(range, code, buf);
  }

  /** IF_BIT_0 with UPDATE_0 or UPDATE_1. */
  method GetBit(probs: array<Prob>, p: nat, rc: Rc, src: seq<Byte>) returns (r: Rc, bit: bool)
    requires p < probs.Length && Normalize(rc, src).buf <= |src|
    modifies probs
    ensures var s := BitStep(rc, At(old(probs[..]), p), src);
            r == s.rc && bit == s.bit && probs[..] == Put(old(probs[..]), p, Adapt(At(old(probs[..]), p), s.bit))
  {
    var ttt: int := probs[p];
    var n := NormalizeRange(rc, src);
    var bound := (n.range / 2048 * ttt) % WORD;
    if n.code < bound {
      r := Rc(bound, n.code, n.buf);
      bit := false;
      probs[p] := ttt + (2048 - ttt) / 32;
    } else {
      r := Rc((n.range - bound) % WORD, n.code - bound, n.buf);
      bit := true;
      probs[p] := ttt - ttt / 32;
    }
  }

  /** TREE_DECODE; TREE_6_DECODE is the same tree unrolled. */
  method DecodeTree(probs: array<Prob>, base: nat, limit: nat, offset: nat, rc: Rc, src: seq<Byte>)
      returns (r: Rc, val: nat)
    requires limit >= 1 && base + limit <= probs.Length
    requires Run(Tree(base, 1, limit, offset), rc, probs[..], src).rc.buf <= |src|
    modifies probs
    ensures Out(r, probs[..], val) == Run(Tree(base, 1, limit, offset), rc, old(probs[..]), src)
  {
    hide BitStep, Adapt, At, Put, Normalize;
    ghost var whole := Run(Tree(base, 1, limit, offset), rc, probs[..], src);
    r := rc;
    var i := 1;
    while i < limit
      invariant i >= 1
      invariant Run(Tree(base, i, limit, offset), r, probs[..], src) == whole
    {
      RunForward(Tree(base, i, limit, offset), r, probs[..], src);
      var bit;
      r, bit := GetBit(probs, base + i, r, src);
      i := if bit then 2 * i + 1 else 2 * i;
    }
    val := i - limit + offset;
  }

  method DecodePlainLiteral(probs: array<Prob>, base: nat, rc: Rc, src: seq<Byte>) returns (r: Rc, byte: Byte)
    requires base + LIT_SIZE <= probs.Length
    requires Run(PlainLit(base, 1), rc, probs[..], src).rc.buf <= |src|
    modifies probs
    ensures Out(r, probs[..], Lit(byte)) == Run(PlainLit(base, 1), rc, old(probs[..]), src)
  {
    hide BitStep, Adapt, At, Put, Normalize;
    ghost var whole := Run(PlainLit(base, 1), rc, probs[..], src);
    r := rc;
    var symbol := 1;
    while symbol < 0x100
      invariant 1 <= symbol < 0x200
      invariant Run(PlainLit(base, symbol), r, probs[..], src) == whole
    {
      RunForward(PlainLit(base, symbol), r, probs[..], src);
      var bit;
      r, bit := GetBit(probs, base + symbol, r, src);
      symbol := if bit then 2 * symbol + 1 else 2 * symbol;
    }
    byte := symbol - 0x100;
  }

  method DecodeMatchedLiteral(probs: array<Prob>, base: nat, match0: Byte, rc: Rc, src: seq<Byte>)
      returns (r: Rc, byte: Byte)
    requires base + LIT_SIZE <= probs.Length
    requires Run(MatchedLit(base, 0x100, match0, 1), rc, probs[..], src).rc.buf <= |src|
    modifies probs
    ensures Out(r, probs[..], Lit(byte)) == Run(MatchedLit(base, 0x100, match0, 1), rc, old(probs[..]), src)
  {
    hide BitStep, Adapt, At, Put, Normalize;
    ghost var whole := Run(MatchedLit(base, 0x100, match0, 1), rc, probs[..], src);
    r := rc;
    var symbol, offs := 1, 0x100;
    var matchByte: nat := match0;
    while symbol < 0x100
      invariant 1 <= symbol < 0x200 && (offs == 0 || offs == 0x100)
      invariant Run(MatchedLit(base, offs, matchByte, symbol), r, probs[..], src) == whole
      decreases 0x200 - symbol
    {
      RunForward(MatchedLit(base, offs, matchByte, symbol), r, probs[..], src);
      matchByte := 2 * matchByte;
      var test := TestBit(matchByte, offs);
      var bit;
      r, bit := GetBit(probs, base + offs + test + symbol, r, src);
      if bit {
        symbol := 2 * symbol + 1;
        offs := test;
      } else {
        symbol := 2 * symbol;
        offs := offs - test;
      }
    }
    byte := symbol - 0x100;
  }

  method DecodeLen(probs: array<Prob>, base: nat, posState: nat, rc: Rc, src: seq<Byte>) returns (r: Rc, len: nat)
    requires base + NUM_LEN_PROBS <= probs.Length && posState < 16
    requires Run(LenTree(base, posState), rc, probs[..], src).rc.buf <= |src|
    modifies probs
    ensures Out(r, probs[..], len) == Run(LenTree(base, posState), rc, old(probs[..]), src)
  {
    hide BitStep, Adapt, At, Put, Normalize, Tree;
    RunForward(LenTree(base, posState), rc, probs[..], src);
    var bit;
    r, bit := GetBit(probs, base, rc, src);
    if !bit {
      r, len := DecodeTree(probs, base + LEN_LOW + 8 * posState, 8, 0, r, src);
    } else {
      RunForward(LenTree(base, posState).one, r, probs[..], src);
      r, bit := GetBit(probs, base + 1, r, src);
      if !bit {
        r, len := DecodeTree(probs, base + LEN_MID + 8 * posState, 8, 8, r, src);
      } else {
        r, len := DecodeTree(probs, base + LEN_HIGH, 256, 16, r, src);
      }
    }
  }

  /** The reversed bit tree; a set bit is added to a distance in which it is still clear. */
  method DecodeReverse(probs: array<Prob>, base: nat, n: nat, start: nat, ghost len: nat, rc: Rc, src: seq<Byte>)
    returns (r: Rc, distance: nat)
    requires base + Pow2(n) <= probs.Length
    requires Run(Reverse(base, 1, n, start, 1, len), rc, probs[..], src).rc.buf <= |src|
    modifies probs
    ensures Out(r, probs[..], MatchSymbol(len, distance)) ==
        Run(Reverse(base, 1, n, start, 1, len), rc, old(probs[..]), src)
  {
    hide BitStep, Adapt, At, Put, Normalize, MatchSymbol;
    ghost var whole := Run(Reverse(base, 1, n, start, 1, len), rc, probs[..], src);
    r := rc;
    distance := start;
    var mask, i, left := 1, 1, n;
    while left != 0
      invariant 0 <= left <= n && i >= 1 && mask >= 1
      invariant (i + 1) * Pow2(left) <= 2 * Pow2(n)
      invariant Run(Reverse(base, i, left, distance, mask, len), r, probs[..], src) == whole
    {
      RunForward(Reverse(base, i, left, distance, mask, len), r, probs[..], src);
      NodeInside(i, left, n);
      var bit;
      r, bit := GetBit(probs, base + i, r, src);
      if bit {
        i := 2 * i + 1;
        distance := distance + mask;
      } else {
        i := 2 * i;
      }
      mask := 2 * mask;
      left := left - 1;
    }
  }

  /** After `left` more bits the distance still fits in 28 bits. */
  predicate Roomy(distance: nat, left: nat) {
    (distance + 1) * Pow2(left) <= 0x1000_0000
  }

  lemma RoomyNext(distance: nat, left: nat)
    requires Roomy(distance, left)
    ensures distance + 1 <= 0x1000_0000
    ensures left > 0 ==>
        Roomy(2 * distance, left - 1) && Roomy(2 * distance + 1, left - 1) && 2 * distance + 2 <= 0x1000_0000
  {
    MulMono(1, Pow2(left), distance + 1);
    if left > 0 {
      var m := Pow2(left - 1);
      assert (distance + 1) * (2 * m) == (2 * distance + 2) * m;
      assert (2 * distance + 1) * m <= (2 * distance + 2) * m;
      MulMono(1, m, 2 * distance + 2);
    }
  }

  method DecodeDirect(n: nat, start: nat, ghost probs: seq<Prob>, rc: Rc, src: seq<Byte>) returns (r: Rc, distance: nat)
    requires Roomy(start, n)
    requires Run(DirectBits(n, start), rc, probs, src).rc.buf <= |src|
    ensures Out(r, probs, distance) == Run(DirectBits(n, start), rc, probs, src)
    ensures distance + 1 <= 0x1000_0000
  {
    hide DirectStep, Normalize, RealDirect, Roomy, Run, DirectBits;
    r := rc;
    distance := start;
    var left := n;
    RoomyNext(distance, left);
    while left != 0
      invariant 0 <= left <= n && Roomy(distance, left) && distance + 1 <= 0x1000_0000
      invariant Run(DirectBits(left, distance), r, probs, src) == Run(DirectBits(n, start), rc, probs, src)
    {
      DirectRuns(left, distance, r, probs, src);
      DirectStepIs(r, src);
      RoomyNext(distance, left);
      var s := NormalizeRange(r, src);
      var range := s.range / 2;
      var (code, bit) := RealDirect(range, s.code);
      r := Rc(range, code, s.buf);
      distance := (2 * distance + bit) % WORD;
      left := left - 1;
    }
    RetRuns<nat>(distance, r, probs, src);
    NoDirectBits(distance);
  }

  lemma NoDirectBits(distance: nat)
    ensures DirectBits(0, distance) == Ret(distance)
  {
  }

  lemma DirectRuns(left: nat, distance: nat, rc: Rc, probs: seq<Prob>, src: seq<Byte>)
    requires left > 0
    ensures var s := DirectStep(rc, src);
            Run(DirectBits(left, distance), rc, probs, src) ==
                Run(DirectBits(left - 1, 2 * distance + if s.bit then 1 else 0), s.rc, probs, src)
    ensures Run(DirectBits(left, distance), rc, probs, src).rc.buf >= Normalize(rc, src).buf
  {
    hide DirectStep, Normalize;
    RunForward(DirectBits(left, distance), rc, probs, src);
  }

  method DecodeSlot(probs: array<Prob>, len: nat, slot: nat, rc: Rc, src: seq<Byte>) returns (r: Rc, sym: Symbol)
    requires LITERAL <= probs.Length && slot < 64
    requires Run(AfterSlot(len)(slot), rc, probs[..], src).rc.buf <= |src|
    modifies probs
    ensures Out(r, probs[..], sym) == Run(AfterSlot(len)(slot), rc, old(probs[..]), src)
    ensures sym.Match? || sym.EndMark?
  {
    hide Run, Reverse, Bind, DirectBits, Pow2, SpecBase, SlotDistance;
    if slot < START_POS_MODEL {
      r, sym := rc, MatchSymbol(len, slot);
      RetRuns(sym, rc, probs[..], src);
    } else if slot < END_POS_MODEL {
      var distance;
      SpecInside(slot);
      r, distance := DecodeReverse(probs, SpecBase(slot), SlotBits(slot), SlotDistance(slot), len, rc, src);
      sym := MatchSymbol(len, distance);
    } else {
      r, sym := DecodeFar(probs, len, slot, rc, src);
    }
  }

  lemma RetRuns<R>(v: R, rc: Rc, probs: seq<Prob>, src: seq<Byte>)
    ensures Run(Ret(v), rc, probs, src) == Out(rc, probs, v)
  {
  }

  method DecodeFar(probs: array<Prob>, len: nat, slot: nat, rc: Rc, src: seq<Byte>) returns (r: Rc, sym: Symbol)
    requires LITERAL <= probs.Length && END_POS_MODEL <= slot < 64
    requires Run(AfterSlot(len)(slot), rc, probs[..], src).rc.buf <= |src|
    modifies probs
    ensures Out(r, probs[..], sym) == Run(AfterSlot(len)(slot), rc, old(probs[..]), src)
    ensures sym.Match? || sym.EndMark?
  {
    hide Run, Reverse, Bind, DirectBits, Pow2;
    var n := SlotBits(slot) - 4;
    var start := 2 + slot % 2;
    ghost var before := probs[..];
    RunBind(DirectBits(n, start), AfterDirect(len), rc, before, src);
    ghost var o := Run(DirectBits(n, start), rc, before, src);
    RunForward(AfterDirect(len)(o.val), o.rc, o.probs, src);
    Far(n, start);
    var high;
    r, high := DecodeDirect(n, start, before, rc, src);
    var distance;
    r, distance := DecodeReverse(probs, ALIGN, 4, 16 * high, len, r, src);
    sym := MatchSymbol(len, distance);
  }

  lemma Powers()
    ensures Pow2(4) == 16 && Pow2(26) == 0x400_0000
  {
    assert Pow2(10) == 1024;
    assert Pow2(18) == 0x4_0000;
  }

  lemma Far(n: nat, start: nat)
    requires n <= 26 && start <= 3
    ensures Roomy(start, n) && Pow2(4) == 16
  {
    hide Pow2;
    Powers();
    Pow2Mono(n, 26);
    MulMono(start + 1, 4, Pow2(n));
  }

  lemma {:induction false} Pow2Mono(n: nat, m: nat)
    requires n <= m
    ensures Pow2(n) <= Pow2(m)
  {
    if n > 0 { Pow2Mono(n - 1, m - 1); }
  }

  /** The part of DecodeReal that finds a new match's distance. */
  method DecodeDistance(probs: array<Prob>, len: nat, rc: Rc, src: seq<Byte>) returns (r: Rc, sym: Symbol)
    requires LITERAL <= probs.Length
    requires Run(AfterLen()(len), rc, probs[..], src).rc.buf <= |src|
    modifies probs
    ensures Out(r, probs[..], sym) == Run(AfterLen()(len), rc, old(probs[..]), src)
    ensures sym.Match? || sym.EndMark?
  {
    hide Tree, Bind, AfterSlot, Run;
    var base := POS_SLOT + 64 * LenState(len);
    ghost var before := probs[..];
    RunBind(Tree(base, 1, 64, 0), AfterSlot(len), rc, before, src);
    SlotForward(len, rc, before, src);
    var slot;
    r, slot := DecodeTree(probs, base, 64, 0, rc, src);
    r, sym := DecodeSlot(probs, len, slot, r, src);
  }

  lemma SlotForward(len: nat, rc: Rc, probs: seq<Prob>, src: seq<Byte>)
    ensures var o := Run(Tree(POS_SLOT + 64 * LenState(len), 1, 64, 0), rc, probs, src);
            o.rc.buf <= Run(AfterSlot(len)(o.val), o.rc, o.probs, src).rc.buf && o.val < 64
  {
    hide Tree, AfterSlot, Run, Shallow, Below;
    var base := POS_SLOT + 64 * LenState(len);
    var o := Run(Tree(base, 1, 64, 0), rc, probs, src);
    RunForward(AfterSlot(len)(o.val), o.rc, o.probs, src);
    assert Pow2(6) == 64;
    TreeShape(base, 1, 64, 0, 6);
    RunBelow(Tree(base, 1, 64, 0), 64, rc, probs, src);
  }

  /** A match with a new distance. */
  method DecodeNewMatch(probs: array<Prob>, ghost c: Ctx, posState: nat, rc: Rc, src: seq<Byte>)
      returns (r: Rc, sym: Symbol)
    requires LITERAL <= probs.Length && posState == c.posState < 16
    requires Run(NewMatch(c), rc, probs[..], src).rc.buf <= |src|
    modifies probs
    ensures Out(r, probs[..], sym) == Run(NewMatch(c), rc, old(probs[..]), src)
    ensures sym.Match? || sym.EndMark?
  {
    hide LenTree, Bind, AfterLen, Run;
    ghost var before := probs[..];
    RunBind(LenTree(LEN_CODER, posState), AfterLen(), rc, before, src);
    ghost var o := Run(LenTree(LEN_CODER, posState), rc, before, src);
    RunForward(AfterLen()(o.val), o.rc, o.probs, src);
    var len;
    r, len := DecodeLen(probs, LEN_CODER, posState, rc, src);
    r, sym := DecodeDistance(probs, len, r, src);
  }

  method DecodeRepLen(probs: array<Prob>, ghost c: Ctx, which: nat, posState: nat, rc: Rc, src: seq<Byte>)
    returns (r: Rc, sym: Symbol)
    requires LITERAL <= probs.Length && posState == c.posState < 16
    requires Run(RepLen(c, which), rc, probs[..], src).rc.buf <= |src|
    modifies probs
    ensures Out(r, probs[..], sym) == Run(RepLen(c, which), rc, old(probs[..]), src)
  {
    hide LenTree, Bind, Run;
    ghost var before := probs[..];
    RunBind(LenTree(REP_LEN_CODER, posState), AfterRepLen(which), rc, before, src);
    ghost var o := Run(LenTree(REP_LEN_CODER, posState), rc, before, src);
    RunForward(AfterRepLen(which)(o.val), o.rc, o.probs, src);
    RetRuns(Rep(which, o.val), o.rc, o.probs, src);
    var len;
    r, len := DecodeLen(probs, REP_LEN_CODER, posState, rc, src);
    sym := Rep(which, len);
  }

  /** A match with one of the four last distances, or the one-byte match. */
  method DecodeOldMatch(probs: array<Prob>, ghost c: Ctx, state: nat, posState: nat, rc: Rc, src: seq<Byte>)
    returns (r: Rc, sym: Symbol)
    requires LITERAL <= probs.Length && posState == c.posState < 16 && state == c.state < NUM_STATES
    requires Run(OldMatch(c), rc, probs[..], src).rc.buf <= |src|
    modifies probs
    ensures Out(r, probs[..], sym) == Run(OldMatch(c), rc, old(probs[..]), src)
  {
    hide BitStep, Adapt, At, Put, Normalize, RepLen;
    RunForward(OldMatch(c), rc, probs[..], src);
    var bit;
    r, bit := GetBit(probs, IS_REP_G0 + state, rc, src);
    if !bit {
      RunForward(OldMatch(c).zero, r, probs[..], src);
      r, bit := GetBit(probs, IS_REP0_LONG + 16 * state + posState, r, src);
      if !bit {
        sym := ShortRep;
      } else {
        r, sym := DecodeRepLen(probs, c, 0, posState, r, src);
      }
    } else {
      RunForward(OldMatch(c).one, r, probs[..], src);
      r, bit := GetBit(probs, IS_REP_G1 + state, r, src);
      if !bit {
        r, sym := DecodeRepLen(probs, c, 1, posState, r, src);
      } else {
        RunForward(OldMatch(c).one.one, r, probs[..], src);
        r, bit := GetBit(probs, IS_REP_G2 + state, r, src);
        if !bit {
          r, sym := DecodeRepLen(probs, c, 2, posState, r, src);
        } else {
          r, sym := DecodeRepLen(probs, c, 3, posState, r, src);
        }
      }
    }
  }
}

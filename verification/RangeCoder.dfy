/** The adaptive binary range decoder of the LZMA decoder: the macros NORMALIZE, IF_BIT_0,
    UPDATE_0, UPDATE_1 and the two branch-free forms of a direct bit. */
module RangeCoder {
  import opened Basics

  /** An 11-bit probability; the adaptation rule never leaves this interval. */
  type Prob = x: int | 31 <= x <= 2017 witness 1024

  const TOP := 0x100_0000

  /** The locals `range`, `code` and `buf`; `buf` is an index into the input being decoded. */
  datatype Rc = Rc(range: Word, code: Word, buf: nat)

  /** The input byte at `i`. Past the end of the input a zero is supplied, so that decoding is
      a total function; whether the input sufficed is read off the final value of `buf`. */
  function ByteAt(src: seq<Byte>, i: nat): Byte {
    if i < |src| then src[i] else 0
  }

  function Normalize(rc: Rc, src: seq<Byte>): Rc {
    if rc.range < TOP then
      Rc(rc.range * 0x100, (rc.code * 0x100) % WORD + ByteAt(src, rc.buf), rc.buf + 1)
    else
      rc
  }

  /** What one operation of the coder leaves behind. */
  datatype Step = Step(rc: Rc, bit: bool)

  lemma BoundFits(range: Word, p: Prob)
    requires TOP <= range
    ensures 31 * (range / 2048) <= range / 2048 * p <= range - 31 * (range / 2048)
  {
    var q := range / 2048;
    assert q * 2048 <= range;
    assert 31 * q <= q * p <= 2017 * q by {
      MulMono(31, p, q);
      MulMono(p, 2017, q);
    }
  }

  /** `(range >> kNumBitModelTotalBits) * ttt` as a 32-bit product. */
  function Bound(range: Word, p: Prob): Word {
    (range / 2048 * p) % WORD
  }

  lemma BoundIs(range: Word, p: Prob)
    requires TOP <= range
    ensures Bound(range, p) == range / 2048 * p
    ensures 31 * (range / 2048) <= Bound(range, p) <= range - 31 * (range / 2048)
  {
    BoundFits(range, p);
  }

  lemma BoundApart(range: Word, p: Prob)
    requires TOP <= range
    ensures 0x3_E000 <= Bound(range, p) <= range - 0x3_E000
  {
    BoundIs(range, p);
  }

  function Adapt(p: Prob, bit: bool): Prob {
    if bit then p - p / 32 else p + (2048 - p) / 32
  }

  /** A 0 moves the probability up by the whole part of a 32nd of what is missing to 2048, a 1 down by
      the whole part of a 32nd of itself. */
  lemma AdaptIs(p: Prob)
    ensures var up := Adapt(p, false) - p; 32 * up <= 2048 - p < 32 * (up + 1)
    ensures var down := p - Adapt(p, true); 32 * down <= p < 32 * (down + 1)
  {
  }

  /** IF_BIT_0 followed by the range part of UPDATE_0 or UPDATE_1. */
  function BitStep(rc: Rc, p: Prob, src: seq<Byte>): Step {
    var n := Normalize(rc, src);
    var bound := Bound(n.range, p);
    if n.code < bound then Step(Rc(bound, n.code, n.buf), false)
    else Step(Rc((n.range - bound) % WORD, n.code - bound, n.buf), true)
  }

  /** One direct bit, by the sign of the 32-bit difference. */
  function DirectStep(rc: Rc, src: seq<Byte>): Step {
    var n := Normalize(rc, src);
    var half := n.range / 2;
    var diff := (n.code - half) % WORD;
    if diff >= 0x8000_0000 then Step(Rc(half, n.code, n.buf), false)
    else Step(Rc(half, diff, n.buf), true)
  }

  /** The range is never so small that one byte would not renormalize it. */
  predicate RangeOk(range: Word) {
    0x1_0000 <= range
  }

  lemma NormalizeOk(rc: Rc, src: seq<Byte>)
    requires RangeOk(rc.range)
    ensures Normalize(rc, src).range >= TOP
    ensures Normalize(Normalize(rc, src), src) == Normalize(rc, src)
    ensures rc.code < rc.range ==> Normalize(rc, src).code < Normalize(rc, src).range
    ensures rc.buf <= Normalize(rc, src).buf <= rc.buf + 1
  {
  }

  /** One adaptive bit keeps the range usable, products stay within 32 bits, and a code below the
      range stays below it. */
  lemma BitStepKeeps(rc: Rc, p: Prob, src: seq<Byte>)
    requires RangeOk(rc.range)
    ensures RangeOk(BitStep(rc, p, src).rc.range)
    ensures BitStep(rc, p, src).rc.range < Normalize(rc, src).range
    ensures rc.code < rc.range ==> BitStep(rc, p, src).rc.code < BitStep(rc, p, src).rc.range
  {
    hide Bound, Normalize, BitStep;
    NormalizeOk(rc, src);
    var n := Normalize(rc, src);
    BoundApart(n.range, p);
    BitStepCases(rc, p, src);
  }

  lemma BitStepCases(rc: Rc, p: Prob, src: seq<Byte>)
    ensures var n := Normalize(rc, src);
            var b := Bound(n.range, p);
            b <= n.range ==>
              BitStep(rc, p, src) == if n.code < b then Step(Rc(b, n.code, n.buf), false)
                                     else Step(Rc(n.range - b, n.code - b, n.buf), true)
  {
    hide Bound, Normalize;
  }

  lemma DirectStepKeeps(rc: Rc, src: seq<Byte>)
    requires RangeOk(rc.range)
    ensures RangeOk(DirectStep(rc, src).rc.range)
  {
    NormalizeOk(rc, src);
  }

  // ----- direct bits

  /** `x & mask` for the all-zeros and the all-ones mask. */
  function Masked(x: Word, mask: Word): Word
    requires mask == 0 || mask == 0xFFFF_FFFF
  {
    if mask == 0 then 0 else x
  }

  /** The real decoder's branch-free direct bit on a halved range: the new code and the bit. */
  function RealDirect(half: Word, code: Word): (Word, nat) {
    var diff := (code - half) % WORD;
    var t := (0 - diff / 0x8000_0000) % WORD;
    ((diff + Masked(half, t)) % WORD, (t + 1) % WORD)
  }

  /** The dry run's branch-free direct bit. */
  function DryDirect(half: Word, code: Word): Word {
    var mask := ((code - half) % WORD / 0x8000_0000 - 1) % WORD;
    (code - Masked(half, mask)) % WORD
  }

  /** The form in the source's comment: subtract if the code is not below the halved range. */
  function PlainDirect(half: Word, code: Word): (Word, nat) {
    if code >= half then (code - half, 1) else (code, 0)
  }

  /** The two branch-free forms leave the same code on all 32-bit values. */
  lemma DirectFormsAgree(half: Word, code: Word)
    ensures RealDirect(half, code).0 == DryDirect(half, code)
    ensures RealDirect(half, code) ==
            if (code - half) % WORD >= 0x8000_0000 then (code, 0) else ((code - half) % WORD, 1)
  {
  }

  lemma DirectStepIs(rc: Rc, src: seq<Byte>)
    ensures var n := Normalize(rc, src);
            var s := DirectStep(rc, src);
            RealDirect(n.range / 2, n.code) == (s.rc.code, if s.bit then 1 else 0) &&
            DryDirect(n.range / 2, n.code) == s.rc.code &&
            s.rc.range == n.range / 2 && s.rc.buf == n.buf
  {
    hide Normalize, RealDirect, DryDirect;
    DirectFormsAgree(Normalize(rc, src).range / 2, Normalize(rc, src).code);
  }

  /** The branch-free form is the commented conditional one exactly while the code exceeds the
      halved range by less than 2^31; a code not above the range always does. */
  lemma DirectIsConditional(half: Word, code: Word)
    requires half < 0x8000_0000
    ensures RealDirect(half, code) == PlainDirect(half, code) <==> code < half + 0x8000_0000
    ensures code <= 2 * half ==> code < half + 0x8000_0000
  {
  }

  /** A direct bit keeps the code below the range exactly when the range is even or the code is not
      its last value: from an odd range and that code it leaves the two equal. */
  lemma DirectKeepsBelow(rc: Rc, src: seq<Byte>)
    requires RangeOk(rc.range) && rc.code < rc.range
    ensures var n, s := Normalize(rc, src), DirectStep(rc, src).rc;
            s.code < s.range <==> n.range % 2 == 0 || n.code != n.range - 1
    ensures var s := DirectStep(rc, src).rc; s.code <= s.range
    ensures DirectStep(Rc(0x100_0001, 0x100_0000, 0), []).rc == Rc(0x80_0000, 0x80_0000, 0)
  {
    hide Normalize;
    NormalizeOk(rc, src);
    NormalizeOk(Rc(0x100_0001, 0x100_0000, 0), []);
    StaysNormal(Rc(0x100_0001, 0x100_0000, 0), []);
  }

  lemma StaysNormal(rc: Rc, src: seq<Byte>)
    requires rc.range >= TOP
    ensures Normalize(rc, src) == rc
  {
  }
}

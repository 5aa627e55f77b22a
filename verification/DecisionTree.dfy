/** Decoding programs as binary decision trees: what a piece of the decoder asks of the range
    coder next, for every sequence of answers so far. */
module DecisionTree {
  import opened Basics
  import opened RangeCoder

  datatype Dec<R> =
    | Ret(val: R)
    | Bit(p: nat, zero: Dec<R>, one: Dec<R>)
    | Direct(zero: Dec<R>, one: Dec<R>)

  datatype Out<R> = Out(rc: Rc, probs: seq<Prob>, val: R)

  function At(probs: seq<Prob>, p: nat): Prob {
    if p < |probs| then probs[p] else 1024
  }

  function Put(probs: seq<Prob>, p: nat, v: Prob): seq<Prob> {
    if p < |probs| then probs[p := v] else probs
  }

  /** Runs a program as the real decoder does: each adaptive bit moves its probability. */
  function Run<R>(d: Dec<R>, rc: Rc, probs: seq<Prob>, src: seq<Byte>): Out<R> {
    match d
    case Ret(v) => Out(rc, probs, v)
    case Bit(p, zero, one) =>
      var s := BitStep(rc, At(probs, p), src);
      Run(if s.bit then one else zero, s.rc, Put(probs, p, Adapt(At(probs, p), s.bit)), src)
    case Direct(zero, one) =>
      var s := DirectStep(rc, src);
      Run(if s.bit then one else zero, s.rc, probs, src)
  }

  /** Runs a program as the dry run does: the probabilities are only read. */
  function RunDry<R>(d: Dec<R>, rc: Rc, probs: seq<Prob>, src: seq<Byte>): Out<R> {
    match d
    case Ret(v) => Out(rc, probs, v)
    case Bit(p, zero, one) =>
      var s := BitStep(rc, At(probs, p), src);
      RunDry(if s.bit then one else zero, s.rc, probs, src)
    case Direct(zero, one) =>
      var s := DirectStep(rc, src);
      RunDry(if s.bit then one else zero, s.rc, probs, src)
  }

  /** First `d`, then the program that `k` chooses from its result. */
  function Bind<A, B>(d: Dec<A>, k: A -> Dec<B>): Dec<B> {
    match d
    case Ret(v) => k(v)
    case Bit(p, zero, one) => Bit(p, Bind(zero, k), Bind(one, k))
    case Direct(zero, one) => Direct(Bind(zero, k), Bind(one, k))
  }

  lemma {:induction false} RunBind<A, B>(d: Dec<A>, k: A -> Dec<B>, rc: Rc, probs: seq<Prob>, src: seq<Byte>)
    ensures var o := Run(d, rc, probs, src);
            Run(Bind(d, k), rc, probs, src) == Run(k(o.val), o.rc, o.probs, src)
  {
    hide BitStep, DirectStep, Adapt, Put, At;
    match d
    case Ret(v) =>
    case Bit(p, zero, one) =>
      var s := BitStep(rc, At(probs, p), src);
      RunBind(if s.bit then one else zero, k, s.rc, Put(probs, p, Adapt(At(probs, p), s.bit)), src);
    case Direct(zero, one) =>
      var s := DirectStep(rc, src);
      RunBind(if s.bit then one else zero, k, s.rc, probs, src);
  }

  lemma {:induction false} RunDryBind<A, B>(d: Dec<A>, k: A -> Dec<B>, rc: Rc, probs: seq<Prob>, src: seq<Byte>)
    ensures var o := RunDry(d, rc, probs, src);
            RunDry(Bind(d, k), rc, probs, src) == RunDry(k(o.val), o.rc, probs, src)
  {
    hide BitStep, DirectStep, At;
    match d
    case Ret(v) =>
    case Bit(p, zero, one) =>
      var s := BitStep(rc, At(probs, p), src);
      RunDryBind(if s.bit then one else zero, k, s.rc, probs, src);
    case Direct(zero, one) =>
      var s := DirectStep(rc, src);
      RunDryBind(if s.bit then one else zero, k, s.rc, probs, src);
  }

  lemma StepForward(rc: Rc, p: Prob, src: seq<Byte>)
    ensures BitStep(rc, p, src).rc.buf == Normalize(rc, src).buf >= rc.buf
    ensures DirectStep(rc, src).rc.buf == Normalize(rc, src).buf
  {
    hide Bound;
  }

  /** Reading never goes back, and the table keeps its size. */
  lemma {:induction false} RunForward<R>(d: Dec<R>, rc: Rc, probs: seq<Prob>, src: seq<Byte>)
    ensures Run(d, rc, probs, src).rc.buf >= rc.buf
    ensures !d.Ret? ==> Run(d, rc, probs, src).rc.buf >= Normalize(rc, src).buf
    ensures |Run(d, rc, probs, src).probs| == |probs|
    ensures RangeOk(rc.range) ==> RangeOk(Run(d, rc, probs, src).rc.range)
  {
    match d
    case Ret(v) =>
    case Bit(p, zero, one) =>
      var s := BitStep(rc, At(probs, p), src);
      StepForward(rc, At(probs, p), src);
      if RangeOk(rc.range) { BitStepKeeps(rc, At(probs, p), src); }
      hide BitStep, Adapt, Normalize, At, RangeOk;
      RunForward(if s.bit then one else zero, s.rc, Put(probs, p, Adapt(At(probs, p), s.bit)), src);
    case Direct(zero, one) =>
      var s := DirectStep(rc, src);
      StepForward(rc, 1024, src);
      if RangeOk(rc.range) { DirectStepKeeps(rc, src); }
      hide DirectStep, Normalize, RangeOk;
      RunForward(if s.bit then one else zero, s.rc, probs, src);
  }

  lemma {:induction false} RunDryForward<R>(d: Dec<R>, rc: Rc, probs: seq<Prob>, src: seq<Byte>)
    ensures RunDry(d, rc, probs, src).rc.buf >= rc.buf
    ensures !d.Ret? ==> RunDry(d, rc, probs, src).rc.buf >= Normalize(rc, src).buf
    ensures RangeOk(rc.range) ==> RangeOk(RunDry(d, rc, probs, src).rc.range)
  {
    match d
    case Ret(v) =>
    case Bit(p, zero, one) =>
      var s := BitStep(rc, At(probs, p), src);
      StepForward(rc, At(probs, p), src);
      if RangeOk(rc.range) { BitStepKeeps(rc, At(probs, p), src); }
      hide BitStep, Normalize, At, RangeOk;
      RunDryForward(if s.bit then one else zero, s.rc, probs, src);
    case Direct(zero, one) =>
      var s := DirectStep(rc, src);
      StepForward(rc, 1024, src);
      if RangeOk(rc.range) { DirectStepKeeps(rc, src); }
      hide DirectStep, Normalize, RangeOk;
      RunDryForward(if s.bit then one else zero, s.rc, probs, src);
  }

  // ----- what a run depends on

  /** Moves the read position by `off`. */
  function Moved(rc: Rc, off: nat): Rc {
    Rc(rc.range, rc.code, rc.buf + off)
  }

  lemma StepMoved(rc: Rc, p: Prob, src: seq<Byte>, off: nat)
    requires off <= |src|
    ensures BitStep(Moved(rc, off), p, src).bit == BitStep(rc, p, src[off..]).bit
    ensures BitStep(Moved(rc, off), p, src).rc == Moved(BitStep(rc, p, src[off..]).rc, off)
    ensures DirectStep(Moved(rc, off), src).bit == DirectStep(rc, src[off..]).bit
    ensures DirectStep(Moved(rc, off), src).rc == Moved(DirectStep(rc, src[off..]).rc, off)
    ensures Normalize(Moved(rc, off), src) == Moved(Normalize(rc, src[off..]), off)
  {
    assert ByteAt(src, rc.buf + off) == ByteAt(src[off..], rc.buf);
    assert Normalize(Moved(rc, off), src) == Moved(Normalize(rc, src[off..]), off);
    hide Bound, Normalize;
  }

  /** Decoding from the middle of a buffer is decoding from the start of what is left of it. */
  lemma {:induction false} RunMoved<R>(d: Dec<R>, rc: Rc, probs: seq<Prob>, src: seq<Byte>, off: nat)
    requires off <= |src|
    ensures var o := Run(d, rc, probs, src[off..]);
            Run(d, Moved(rc, off), probs, src) == Out(Moved(o.rc, off), o.probs, o.val)
  {
    match d
    case Ret(v) =>
    case Bit(p, zero, one) =>
      StepMoved(rc, At(probs, p), src, off);
      hide BitStep, Adapt, Put, At, Moved;
      var s := BitStep(rc, At(probs, p), src[off..]);
      RunMoved(if s.bit then one else zero, s.rc, Put(probs, p, Adapt(At(probs, p), s.bit)), src, off);
    case Direct(zero, one) =>
      StepMoved(rc, 1024, src, off);
      hide DirectStep, Moved;
      var s := DirectStep(rc, src[off..]);
      RunMoved(if s.bit then one else zero, s.rc, probs, src, off);
  }

  lemma StepExtended(rc: Rc, p: Prob, src: seq<Byte>, more: seq<Byte>)
    requires Normalize(rc, src).buf <= |src|
    ensures BitStep(rc, p, src + more) == BitStep(rc, p, src)
    ensures DirectStep(rc, src + more) == DirectStep(rc, src)
    ensures Normalize(rc, src + more) == Normalize(rc, src)
  {
    hide Bound;
    assert Normalize(rc, src + more) == Normalize(rc, src);
  }

  /** A run that found all the bytes it wanted is not changed by bytes that follow; one that did
      not find them wants at least as many however the input goes on. */
  lemma {:induction false} RunExtended<R>(d: Dec<R>, rc: Rc, probs: seq<Prob>, src: seq<Byte>, more: seq<Byte>)
    ensures Run(d, rc, probs, src).rc.buf <= |src| ==> Run(d, rc, probs, src + more) == Run(d, rc, probs, src)
    ensures Run(d, rc, probs, src).rc.buf > |src| ==> Run(d, rc, probs, src + more).rc.buf > |src|
  {
    match d
    case Ret(v) =>
    case Bit(p, zero, one) =>
      var s := BitStep(rc, At(probs, p), src);
      StepForward(rc, At(probs, p), src);
      StepForward(rc, At(probs, p), src + more);
      var next := if s.bit then one else zero;
      var probs' := Put(probs, p, Adapt(At(probs, p), s.bit));
      RunForward(next, s.rc, probs', src);
      RunForward(d, rc, probs, src + more);
      SameNeed(rc, src, more);
      if Normalize(rc, src).buf <= |src| {
        StepExtended(rc, At(probs, p), src, more);
        hide BitStep, Adapt, Put, At, Normalize;
        RunExtended(next, s.rc, probs', src, more);
      }
    case Direct(zero, one) =>
      var s := DirectStep(rc, src);
      StepForward(rc, 1024, src);
      StepForward(rc, 1024, src + more);
      var next := if s.bit then one else zero;
      RunForward(next, s.rc, probs, src);
      RunForward(d, rc, probs, src + more);
      SameNeed(rc, src, more);
      if Normalize(rc, src).buf <= |src| {
        StepExtended(rc, 1024, src, more);
        hide DirectStep, Normalize;
        RunExtended(next, s.rc, probs, src, more);
      }
  }

  lemma SameNeed(rc: Rc, src: seq<Byte>, more: seq<Byte>)
    ensures Normalize(rc, src + more).buf == Normalize(rc, src).buf
  {
  }

  /** An adaptive or direct bit normalizes first, so a delayed normalization is never noticed. */
  lemma RunNormalized<R>(d: Dec<R>, rc: Rc, probs: seq<Prob>, src: seq<Byte>)
    requires RangeOk(rc.range) && !d.Ret?
    ensures Run(d, Normalize(rc, src), probs, src) == Run(d, rc, probs, src)
  {
    NormalizeOk(rc, src);
    hide Normalize, Bound;
  }

  // ----- the dry run

  /** On no path does the program ask for a probability that is in `seen`, or for one twice. */
  ghost predicate Unread<R>(d: Dec<R>, seen: set<nat>) {
    match d
    case Ret(_) => true
    case Bit(p, zero, one) => p !in seen && Unread(zero, seen + {p}) && Unread(one, seen + {p})
    case Direct(zero, one) => Unread(zero, seen) && Unread(one, seen)
  }

  ghost predicate AgreeOff(probs: seq<Prob>, probs': seq<Prob>, seen: set<nat>) {
    forall p: nat :: p !in seen ==> At(probs, p) == At(probs', p)
  }

  lemma AgreeOffPut(probs: seq<Prob>, probs': seq<Prob>, seen: set<nat>, p: nat, v: Prob)
    requires AgreeOff(probs, probs', seen)
    ensures AgreeOff(Put(probs, p, v), probs', seen + {p})
  {
  }

  /** A program that never re-reads a probability runs the same whether or not it updates the
      table as it goes: same bytes, same range and code, same result. */
  lemma {:induction false} DryRunIsRun<R>(d: Dec<R>, rc: Rc, probs: seq<Prob>, probs': seq<Prob>, src: seq<Byte>,
                                           seen: set<nat>)
    requires Unread(d, seen) && AgreeOff(probs, probs', seen)
    ensures RunDry(d, rc, probs', src).rc == Run(d, rc, probs, src).rc
    ensures RunDry(d, rc, probs', src).val == Run(d, rc, probs, src).val
  {
    match d
    case Ret(v) =>
    case Bit(p, zero, one) =>
      assert At(probs, p) == At(probs', p);
      var s := BitStep(rc, At(probs, p), src);
      AgreeOffPut(probs, probs', seen, p, Adapt(At(probs, p), s.bit));
      hide BitStep, Adapt, Put, At, AgreeOff;
      DryRunIsRun(if s.bit then one else zero, s.rc, Put(probs, p, Adapt(At(probs, p), s.bit)), probs', src,
          seen + {p});
    case Direct(zero, one) =>
      var s := DirectStep(rc, src);
      hide DirectStep, AgreeOff;
      DryRunIsRun(if s.bit then one else zero, s.rc, probs, probs', src, seen);
  }

  // ----- the twenty-byte bound

  /** The most input bytes one symbol may need, its last normalization included. */
  const REQUIRED_INPUT_MAX := 20

  /** 256 to the power of the bytes still allowed. */
  ghost function Weight(buf: nat): real
    requires buf <= REQUIRED_INPUT_MAX
    decreases REQUIRED_INPUT_MAX - buf
  {
    if buf == REQUIRED_INPUT_MAX then 1.0 else 256.0 * Weight(buf + 1)
  }

  lemma {:induction false} WeightPositive(buf: nat)
    requires buf <= REQUIRED_INPUT_MAX
    ensures Weight(buf) >= 1.0
    decreases REQUIRED_INPUT_MAX - buf
  {
    if buf < REQUIRED_INPUT_MAX { WeightPositive(buf + 1); }
  }

  /** The range, measured on a scale on which normalization leaves it alone, is at least `v`. */
  ghost predicate AtLeast(rc: Rc, v: real) {
    rc.buf <= REQUIRED_INPUT_MAX && (rc.range as real) * Weight(rc.buf) >= v
  }

  /** What one adaptive bit leaves of the range at worst: 31/2048, less the truncation of the product. */
  const BIT_SHARE: real := 1.0 / 67.0
  /** What one direct bit leaves of the range at worst: 1/2, less the truncation of the shift. */
  const DIRECT_SHARE: real := 1000.0 / 2001.0

  /** From a range of at least `v`, no path of the program lets the range sink below 2^24 on that scale. */
  ghost predicate Fits<R>(d: Dec<R>, v: real) {
    && v >= 16777216.0
    && match d
       case Ret(_) => true
       case Bit(_, zero, one) => Fits(zero, v * BIT_SHARE) && Fits(one, v * BIT_SHARE)
       case Direct(zero, one) => Fits(zero, v * DIRECT_SHARE) && Fits(one, v * DIRECT_SHARE)
  }

  lemma ScaleMono(x: real, y: real, w: real)
    requires x <= y && w >= 0.0
    ensures x * w <= y * w
  {
    assert (y - x) * w >= 0.0;
  }

  lemma NormalizeAtLeast(rc: Rc, src: seq<Byte>, v: real)
    requires AtLeast(rc, v) && v >= 16777216.0
    ensures AtLeast(Normalize(rc, src), v)
  {
    if rc.range < TOP {
      if rc.buf == REQUIRED_INPUT_MAX {
        assert false;
      } else {
        var x, w := rc.range as real, Weight(rc.buf + 1);
        assert (256.0 * x) * w == x * (256.0 * w);
      }
    }
  }

  lemma BitShare(rc: Rc, p: Prob, src: seq<Byte>)
    requires RangeOk(rc.range)
    ensures BitStep(rc, p, src).rc.range as real >= Normalize(rc, src).range as real * BIT_SHARE
  {
    var r: int := Normalize(rc, src).range;
    NormalizeOk(rc, src);
    BoundIs(r, p);
    var least: int := 31 * (r / 2048);
    hide Bound, Normalize;
    assert 67 * least >= r;
    assert BitStep(rc, p, src).rc.range >= least;
  }

  lemma DirectShare(rc: Rc, src: seq<Byte>)
    requires RangeOk(rc.range)
    ensures DirectStep(rc, src).rc.range as real >= Normalize(rc, src).range as real * DIRECT_SHARE
  {
    NormalizeOk(rc, src);
    var r: int := Normalize(rc, src).range;
    hide Normalize;
    assert 2001 * (r / 2) >= 1000 * r;
  }

  lemma ShareAtLeast(rc: Rc, rc': Rc, v: real, share: real)
    requires AtLeast(rc, v) && rc'.buf == rc.buf
    requires 0.0 <= share && rc'.range as real >= rc.range as real * share
    ensures AtLeast(rc', v * share)
  {
    var w := Weight(rc.buf);
    WeightPositive(rc.buf);
    ScaleMono(rc.range as real * share, rc'.range as real, w);
    assert (rc.range as real * share) * w == (rc.range as real * w) * share;
    ScaleMono(v, rc.range as real * w, share);
  }

  lemma BitAtLeast(rc: Rc, p: Prob, src: seq<Byte>, v: real)
    requires RangeOk(rc.range) && AtLeast(rc, v) && v >= 16777216.0
    ensures AtLeast(BitStep(rc, p, src).rc, v * BIT_SHARE) && RangeOk(BitStep(rc, p, src).rc.range)
  {
    hide BitStep, Normalize, RangeOk, AtLeast;
    NormalizeAtLeast(rc, src, v);
    BitShare(rc, p, src);
    BitStepKeeps(rc, p, src);
    StepForward(rc, p, src);
    ShareAtLeast(Normalize(rc, src), BitStep(rc, p, src).rc, v, BIT_SHARE);
  }

  lemma DirectAtLeast(rc: Rc, src: seq<Byte>, v: real)
    requires RangeOk(rc.range) && AtLeast(rc, v) && v >= 16777216.0
    ensures AtLeast(DirectStep(rc, src).rc, v * DIRECT_SHARE) && RangeOk(DirectStep(rc, src).rc.range)
  {
    hide DirectStep, Normalize, RangeOk, AtLeast;
    NormalizeAtLeast(rc, src, v);
    DirectShare(rc, src);
    DirectStepKeeps(rc, src);
    StepForward(rc, 1024, src);
    ShareAtLeast(Normalize(rc, src), DirectStep(rc, src).rc, v, DIRECT_SHARE);
  }

  /** A program that fits never reads more than twenty bytes, the final normalization included,
      whatever the probabilities, the code and the input. */
  lemma {:induction false} FitsInTwenty<R>(d: Dec<R>, rc: Rc, probs: seq<Prob>, src: seq<Byte>, v: real)
    requires RangeOk(rc.range) && AtLeast(rc, v) && Fits(d, v)
    ensures Normalize(Run(d, rc, probs, src).rc, src).buf <= REQUIRED_INPUT_MAX
  {
    match d
    case Ret(_) =>
      NormalizeAtLeast(rc, src, v);
    case Bit(p, zero, one) =>
      hide BitStep, Adapt, Put, At, Normalize, RangeOk, AtLeast;
      var s := BitStep(rc, At(probs, p), src);
      BitAtLeast(rc, At(probs, p), src, v);
      FitsInTwenty(if s.bit then one else zero, s.rc, Put(probs, p, Adapt(At(probs, p), s.bit)), src, v * BIT_SHARE);
    case Direct(zero, one) =>
      hide DirectStep, Normalize, RangeOk, AtLeast;
      var s := DirectStep(rc, src);
      DirectAtLeast(rc, src, v);
      FitsInTwenty(if s.bit then one else zero, s.rc, probs, src, v * DIRECT_SHARE);
  }
}

/** A writer of LZMA streams, as the inverse of the decoder: symbols are written as the format writes
    them, and the bits are coded by narrowing an interval of numbers. */
module LzmaEncoding {
  import opened Basics
  import opened RangeCoder
  import opened DecisionTree
  import opened SymbolGrammar
  import opened LzmaFormat
  import opened History
  import opened LzmaStream
  import opened LzmaInterface

  // ----- coding bits

  /** The numbers still possible are those from `low` to below `low + range`, as the first `count` bytes
      of the stream. */
  datatype Coding = Coding(low: nat, range: nat, count: nat, probs: seq<Prob>)

  predicate Wide(e: Coding) {
    0x1_0000 <= e.range < WORD
  }

  /** One more byte of the stream. */
  function Shift(e: Coding): Coding {
    if e.range < 0x100_0000 then e.(low := 0x100 * e.low, range := 0x100 * e.range, count := e.count + 1) else e
  }

  function Entry(probs: seq<Prob>, i: int): Prob {
    if 0 <= i < |probs| then probs[i] else 1024
  }

  /** The interval is divided in the proportion of the entry's probability, or in halves; a 0 takes the
      lower part and a 1 the upper. */
  function Narrow(e: Coding, a: Answer): Coding
    requires Wide(e)
  {
    var n := Shift(e);
    match a
    case Plain(bit) =>
      if bit then n.(low := n.low + n.range / 2, range := n.range / 2) else n.(range := n.range / 2)
    case Asked(entry, bit) =>
      var p := Entry(n.probs, entry);
      var part := n.range / 2048 * p;
      PartInside(n.range, p);
      var probs := if 0 <= entry < |n.probs| then n.probs[entry := Adapt(p, bit)] else n.probs;
      if bit then Coding(n.low + part, n.range - part, n.count, probs) else Coding(n.low, part, n.count, probs)
  }

  lemma PartInside(range: nat, p: Prob)
    requires range >= TOP
    ensures 0x1_0000 <= range / 2048 * p && range / 2048 * p + 0x1_0000 <= range
  {
    var q := range / 2048;
    MulMono(31, p, q);
    MulMono(p, 2017, q);
  }

  lemma NarrowKeeps(e: Coding, a: Answer)
    requires Wide(e)
    ensures Wide(Narrow(e, a))
  {
    var n := Shift(e);
    if a.Asked? { PartInside(n.range, Entry(n.probs, a.entry)); }
  }

  function NarrowAll(e: Coding, path: seq<Answer>): Coding
    requires Wide(e)
    ensures Wide(NarrowAll(e, path))
    decreases |path|
  {
    if path == [] then e
    else
      NarrowKeeps(e, path[0]);
      NarrowAll(Narrow(e, path[0]), path[1..])
  }

  /** The first `k` bytes as a number, the first one the most significant. */
  function Number(src: seq<Byte>, k: nat): nat {
    if k == 0 then 0 else 0x100 * Number(src, k - 1) + ByteAt(src, k - 1)
  }

  /** The stream begins with a number of the interval. */
  predicate Begins(src: seq<Byte>, e: Coding) {
    e.low <= Number(src, e.count) < e.low + e.range && Wide(e)
  }

  /** The decoder that has read these bytes and knows the interval. */
  function Reading(src: seq<Byte>, e: Coding): Rc
    requires Begins(src, e)
  {
    Rc(e.range, Number(src, e.count) - e.low, e.count)
  }

  /** A stream that goes on in the interval after a shift was in the one before. */
  lemma ShiftBack(src: seq<Byte>, e: Coding)
    requires Wide(e) && Begins(src, Shift(e))
    ensures Begins(src, e) && Normalize(Reading(src, e), src) == Reading(src, Shift(e))
  {
    assert Number(src, e.count + 1) == 0x100 * Number(src, e.count) + ByteAt(src, e.count);
  }

  lemma ShiftFacts(e: Coding)
    requires Wide(e)
    ensures TOP <= Shift(e).range < WORD && Shift(e).probs == e.probs
  {
  }

  lemma AskedBack(src: seq<Byte>, e: Coding, a: Answer)
    requires Wide(e) && a.Asked? && Begins(src, Narrow(e, a))
    ensures Begins(src, e) && BitStep(Reading(src, e), Entry(e.probs, a.entry), src) ==
        Step(Reading(src, Narrow(e, a)), a.bit)
  {
    hide Number, Normalize, Bound, BitStep, Shift, Entry;
    var n, p := Shift(e), Entry(e.probs, a.entry);
    ShiftFacts(e);
    PartInside(n.range, p);
    BoundIs(n.range, p);
    assert Begins(src, n);
    ShiftBack(src, e);
    BitStepCases(Reading(src, e), p, src);
  }

  lemma PlainBack(src: seq<Byte>, e: Coding, a: Answer)
    requires Wide(e) && a.Plain? && Begins(src, Narrow(e, a))
    ensures Begins(src, e) && DirectStep(Reading(src, e), src) == Step(Reading(src, Narrow(e, a)), a.bit)
  {
    hide Number, Normalize, Shift;
    ShiftFacts(e);
    assert Begins(src, Shift(e));
    ShiftBack(src, e);
  }

  /** A stream in the interval that the answers narrow down to makes the decoder find these answers. */
  lemma {:induction false} RunReads<R>(d: Dec<R>, path: seq<Answer>, e: Coding, src: seq<Byte>)
    requires Wide(e) && Follow(d, path).Some? && Begins(src, NarrowAll(e, path))
    ensures Begins(src, e)
    ensures var e' := NarrowAll(e, path);
            Run(d, Reading(src, e), e.probs, src) == Out(Reading(src, e'), e'.probs, Follow(d, path).value)
  {
    hide Begins, Narrow, BitStep, DirectStep, Adapt;
    match d
    case Ret(_) =>
    case Bit(p, zero, one) =>
      NarrowKeeps(e, path[0]);
      RunReads(if path[0].bit then one else zero, path[1..], Narrow(e, path[0]), src);
      AskedBack(src, e, path[0]);
      NarrowProbs(e, path[0]);
    case Direct(zero, one) =>
      NarrowKeeps(e, path[0]);
      RunReads(if path[0].bit then one else zero, path[1..], Narrow(e, path[0]), src);
      PlainBack(src, e, path[0]);
      NarrowProbs(e, path[0]);
  }

  lemma NarrowProbs(e: Coding, a: Answer)
    requires Wide(e)
    ensures a.Plain? ==> Narrow(e, a).probs == e.probs
    ensures a.Asked? && a.entry >= 0 ==> Entry(e.probs, a.entry) == At(e.probs, a.entry)
    ensures a.Asked? && a.entry >= 0 ==>
        Narrow(e, a).probs == Put(e.probs, a.entry, Adapt(At(e.probs, a.entry), a.bit))
  {
  }

  // ----- what symbols mean

  datatype Sort = Literals | Matches | Repeats | Shorts

  function SortOf(sym: Symbol): Sort {
    match sym
    case Lit(_) => Literals
    case ShortRep => Shorts
    case Rep(_, _) => Repeats
    case Match(_, _) => Matches
    case EndMark(_) => Matches
  }

  /** The sort of the symbol `k` back, the last one being 1 back; before the first one all are literals. */
  function LastSort(sorts: seq<Sort>, k: nat): Sort
    requires k >= 1
  {
    if k <= |sorts| then sorts[|sorts| - k] else Literals
  }

  /** What the state remembers of a symbol that copies, and of the one before it, once literals have
      followed. */
  function Remembered(sort: Sort, before: Sort): nat {
    match sort
    case Literals => 0
    case Matches => 1
    case Repeats => 2
    case Shorts => if before.Literals? then 3 else 2
  }

  /** The state, by the sorts of the last four symbols: 0 after three literals; 1 to 3 after two and 4 to
      6 after one, by what came before; 7 to 9 for a match, a repeat and a short repeat after a literal;
      10 and 11 for a match and a repeat of any kind after something that copies too. */
  function StateAfter(sorts: seq<Sort>): nat {
    var one, two, three, four :=
      LastSort(sorts, 1), LastSort(sorts, 2), LastSort(sorts, 3), LastSort(sorts, 4);
    if !one.Literals? then
      if two.Literals? then (if one.Matches? then 7 else if one.Repeats? then 8 else 9)
      else if one.Matches? then 10 else 11
    else if !two.Literals? then 3 + Remembered(two, three)
    else Remembered(three, four)
  }

  /** The four distances last used, most recent first. A new match puts its own in front; a repeat moves
      the one it takes to the front and keeps the others in order. */
  function Recent(r: seq<nat>, sym: Symbol): seq<nat>
    requires |r| == 4
  {
    match sym
    case Match(_, distance) => [distance + 1] + r[..3]
    case Rep(which, _) => if which < 4 then [r[which]] + r[..which] + r[which + 1..] else r
    case _ => r
  }

  /** The text with what the symbol adds: a byte, or a copy of the text at a distance. */
  function Spelled(h: seq<Byte>, r: seq<nat>, sym: Symbol): seq<Byte>
    requires |r| == 4
  {
    match sym
    case Lit(byte) => h + [byte]
    case ShortRep => Extend(h, r[0], 1)
    case Rep(which, len) => if which < 4 then Extend(h, r[which], len + 2) else h
    case Match(len, distance) => Extend(h, distance + 1, len + 2)
    case EndMark(_) => h
  }

  /** A symbol copies only what there is. */
  predicate Allowed(p: Props, h: seq<Byte>, sym: Symbol) {
    Writable(sym) && !sym.EndMark? && (sym.ShortRep? || sym.Rep? ==> h != [])
        && (sym.Match? ==> sym.distance < Reach(p, h))
  }

  function Distances(a: Coder): seq<nat> {
    [a.rep0, a.rep1, a.rep2, a.rep3]
  }

  /** The machine's four distances are the ones last used, most recent first, and its history is the
      text, whatever symbol it applies. */
  lemma AppliesRecent(p: Props, a: Coder, rc: Rc, probs: seq<Prob>, sym: Symbol)
    requires Allowed(p, a.hist, sym)
    ensures var o := Apply(p, a, rc, probs, sym);
            && o.Next?
            && Distances(o.a) == Recent(Distances(a), sym)
            && o.a.hist == Spelled(a.hist, Distances(a), sym)
            && o.a.range == rc.range && o.a.code == rc.code && o.a.probs == probs
  {
    hide Extend;
    if sym.Rep? {
      var r := Distances(a);
      assert r[..0] == [] && r[..1] == [a.rep0] && r[..2] == [a.rep0, a.rep1] && r[..3] == [a.rep0, a.rep1, a.rep2];
      assert r[1..] == [a.rep1, a.rep2, a.rep3] && r[2..] == [a.rep2, a.rep3] && r[3..] == [a.rep3] && r[4..] == [];
    }
  }

  lemma LastSortMore(sorts: seq<Sort>, s: Sort)
    ensures LastSort(sorts + [s], 1) == s && LastSort(sorts + [s], 2) == LastSort(sorts, 1)
    ensures LastSort(sorts + [s], 3) == LastSort(sorts, 2) && LastSort(sorts + [s], 4) == LastSort(sorts, 3)
  {
  }

  /** The machine's state is the one the sorts of the last symbols say. */
  lemma AppliesState(p: Props, a: Coder, rc: Rc, probs: seq<Prob>, sym: Symbol, sorts: seq<Sort>)
    requires Allowed(p, a.hist, sym) && a.state == StateAfter(sorts)
    ensures Apply(p, a, rc, probs, sym).a.state == StateAfter(sorts + [SortOf(sym)])
  {
    hide Extend, LastSort;
    LastSortMore(sorts, SortOf(sym));
  }

  /** The converse for symbols of the right form: the machine takes no symbol that copies what is not
      there. */
  lemma AppliesOnly(p: Props, a: Coder, rc: Rc, probs: seq<Prob>, sym: Symbol)
    requires Writable(sym)
    ensures Apply(p, a, rc, probs, sym).Next? <==> Allowed(p, a.hist, sym)
    ensures Apply(p, a, rc, probs, sym).End? <==> sym.EndMark?
  {
    hide Extend;
  }

  // ----- writing symbols

  /** Where the writer is: the interval, the text so far, the distances and the sorts of the symbols. */
  datatype Writer = Writer(coding: Coding, text: seq<Byte>, recent: seq<nat>, sorts: seq<Sort>)

  predicate WriterOk(p: Props, w: Writer) {
    PropsOk(p) && |w.recent| == 4 && Wide(w.coding)
  }

  /** What a symbol's coding depends on: the state, the low bits of the position, the byte at the last
      distance, and the literal table for those low bits and the high bits of the last byte. */
  function ContextOf(p: Props, w: Writer): Ctx
    requires WriterOk(p, w)
  {
    var high := Shr(Back(w.text, 1), 8 - p.lc);
    var number := |w.text| % Pow2(p.lp) * Pow2(p.lc) + high;
    MulMono(0, |w.text| % Pow2(p.lp), Pow2(p.lc));
    Ctx(StateAfter(w.sorts), |w.text| % Pow2(p.pb), LITERAL + 768 * number, Back(w.text, w.recent[0]))
  }

  function PutSymbol(p: Props, w: Writer, sym: Symbol): (w': Writer)
    requires WriterOk(p, w)
    ensures WriterOk(p, w')
  {
    Writer(Shift(NarrowAll(w.coding, Answers(ContextOf(p, w), sym))), Spelled(w.text, w.recent, sym),
        Recent(w.recent, sym), w.sorts + [SortOf(sym)])
  }

  /** The machine that has read these bytes. */
  function Reader(p: Props, w: Writer, src: seq<Byte>): Coder
    requires WriterOk(p, w) && Begins(src, w.coding)
  {
    var rc := Reading(src, w.coding);
    Coder(rc.range, rc.code, w.coding.probs, StateAfter(w.sorts), w.recent[0], w.recent[1], w.recent[2], w.recent[3],
        w.text)
  }

  lemma {:induction false} ShrQuotient(x: nat, k: nat)
    ensures Shr(x, k) == ShiftRight(x, k)
  {
    LowAndHigh(x, k);
    LowBelow(x, k);
    QuotientIs(x, Pow2(k), Shr(x, k), Low(x, k));
  }

  lemma {:induction false} LowBelow(x: nat, k: nat)
    ensures Low(x, k) < Pow2(k)
  {
    if k > 0 { LowBelow(x, k - 1); }
  }

  lemma QuotientIs(x: nat, m: nat, q: nat, r: nat)
    requires x == q * m + r && r < m
    ensures x / m == q
  {
    var d := x / m - q;
    assert x == m * (x / m) + x % m;
    assert m * (x / m) == m * q + m * d;
    if d >= 1 { MulMono(1, d, m); }
    if d <= -1 { MulMono(d, -1, m); }
  }

  lemma ContextIs(p: Props, w: Writer, src: seq<Byte>)
    requires WriterOk(p, w) && Begins(src, w.coding)
    ensures CtxOf(p, Reader(p, w, src)) == ContextOf(p, w)
  {
    hide Shr, ShiftRight, Pow2;
    ShrQuotient(Back(w.text, 1), 8 - p.lc);
    if w.text == [] {
      ShrZero(8 - p.lc);
      assert 0 % Pow2(p.lp) == 0;
    }
  }

  lemma {:induction false} ShrZero(k: nat)
    ensures Shr(0, k) == 0
  {
    if k > 0 { ShrZero(k - 1); }
  }

  /** One symbol: a stream in the interval after it makes the machine take exactly this step. */
  lemma StepReads(p: Props, w: Writer, sym: Symbol, src: seq<Byte>)
    requires WriterOk(p, w) && Writable(sym) && w.coding.count <= |src|
    requires Begins(src, PutSymbol(p, w, sym).coding)
    ensures Begins(src, w.coding)
    ensures var a, w' := Reader(p, w, src), PutSymbol(p, w, sym);
            && w.coding.count <= w'.coding.count
            && Used(p, a, src[w.coding.count..]) == w'.coding.count - w.coding.count
            && Step1(p, a, src[w.coding.count..]) ==
                 Apply(p, a, Rc(w'.coding.range, Number(src, w'.coding.count) - w'.coding.low,
                     w'.coding.count - w.coding.count), w'.coding.probs, sym)
  {
    hide Apply, SymbolTree, Answers, Run, Number, Normalize, Begins, NarrowAll, CtxOf, ContextOf;
    var c, e, n := ContextOf(p, w), w.coding, w.coding.count;
    var e1 := NarrowAll(e, Answers(c, sym));
    ShiftBack(src, e1);
    AnswersLead(c, sym);
    RunReads(SymbolTree(c), Answers(c, sym), e, src);
    ContextIs(p, w, src);
    var r := Reading(src, e);
    RunMoved(SymbolTree(c), Rc(r.range, r.code, 0), e.probs, src, n);
    var q := One(p, Reader(p, w, src), src[n..]);
    StepMoved(q.rc, 1024, src, n);
  }

  /** A symbol that the machine takes leads from the reader of one writer state to that of the next. */
  lemma StepLeads(p: Props, w: Writer, sym: Symbol, src: seq<Byte>, limit: nat)
    requires WriterOk(p, w) && Allowed(p, w.text, sym) && PutSymbol(p, w, sym).coding.count <= |src|
    requires w.coding.count <= |src| && Begins(src, PutSymbol(p, w, sym).coding) && |w.text| < limit
    ensures Begins(src, w.coding) && w.coding.count <= PutSymbol(p, w, sym).coding.count
    ensures var w' := PutSymbol(p, w, sym);
            && |w.text| < |w'.text|
            && Joins(p, Going(Reader(p, w, src)), src[w.coding.count..], limit, Going(Reader(p, w', src)),
                   w'.coding.count - w.coding.count)
  {
    hide Apply, Number, Begins, NarrowAll, ContextOf, Used, Step1, Joins, Shift, Spelled, Recent, StateAfter;
    StepReads(p, w, sym, src);
    var a, w', n := Reader(p, w, src), PutSymbol(p, w, sym), w.coding.count;
    BeginsIs(src, w'.coding);
    var rc := Rc(w'.coding.range, Number(src, w'.coding.count) - w'.coding.low, w'.coding.count - n);
    AppliesRecent(p, a, rc, w'.coding.probs, sym);
    AppliesState(p, a, rc, w'.coding.probs, sym, w.sorts);
    ListOf(w.recent);
    ListOf(w'.recent);
    JoinsStep(p, a, src[n..], limit);
  }

  lemma BeginsIs(src: seq<Byte>, e: Coding)
    requires Begins(src, e)
    ensures e.low <= Number(src, e.count) < e.low + e.range < e.low + WORD
  {
  }

  lemma ListOf(r: seq<nat>)
    requires |r| == 4
    ensures r == [r[0], r[1], r[2], r[3]]
  {
  }

  // ----- writing a text

  /** Every symbol copies only what the ones before it have spelled. */
  predicate AllAllowed(p: Props, h: seq<Byte>, r: seq<nat>, syms: seq<Symbol>)
    requires |r| == 4
    decreases |syms|
  {
    syms == [] || (Allowed(p, h, syms[0]) && AllAllowed(p, Spelled(h, r, syms[0]), Recent(r, syms[0]), syms[1..]))
  }

  /** What symbols spell after a text. */
  function TextOf(h: seq<Byte>, r: seq<nat>, syms: seq<Symbol>): seq<Byte>
    requires |r| == 4
    decreases |syms|
  {
    if syms == [] then h else TextOf(Spelled(h, r, syms[0]), Recent(r, syms[0]), syms[1..])
  }

  function PutAll(p: Props, w: Writer, syms: seq<Symbol>): (w': Writer)
    requires WriterOk(p, w)
    ensures WriterOk(p, w')
    decreases |syms|
  {
    if syms == [] then w else PutAll(p, PutSymbol(p, w, syms[0]), syms[1..])
  }

  lemma {:induction false} PutText(p: Props, w: Writer, syms: seq<Symbol>)
    requires WriterOk(p, w)
    ensures PutAll(p, w, syms).text == TextOf(w.text, w.recent, syms)
    decreases |syms|
  {
    if syms != [] { PutText(p, PutSymbol(p, w, syms[0]), syms[1..]); }
  }

  /** Symbols a stream spells are decoded one by one, up to any limit they do not exceed. */
  lemma {:induction false} AllLead(p: Props, w: Writer, syms: seq<Symbol>, src: seq<Byte>, limit: nat)
    requires WriterOk(p, w) && AllAllowed(p, w.text, w.recent, syms) && w.coding.count <= |src|
    requires var w' := PutAll(p, w, syms); Begins(src, w'.coding) && w'.coding.count <= |src| && |w'.text| <= limit
    ensures Begins(src, w.coding) && w.coding.count <= PutAll(p, w, syms).coding.count
    ensures var w' := PutAll(p, w, syms);
            && |w.text| <= |w'.text|
            && Joins(p, Going(Reader(p, w, src)), src[w.coding.count..], limit, Going(Reader(p, w', src)),
                   w'.coding.count - w.coding.count)
    decreases |syms|
  {
    hide Begins, PutSymbol, Joins, Reader, Spelled, Allowed, Recent;
    if syms == [] {
      JoinsNowhere(p, Going(Reader(p, w, src)), src[w.coding.count..], limit);
    } else {
      var w1, w', n := PutSymbol(p, w, syms[0]), PutAll(p, w, syms), w.coding.count;
      PutIs(p, w, syms[0]);
      AllForward(p, w1, syms[1..]);
      AllLead(p, w1, syms[1..], src, limit);
      SpelledMore(p, w, syms[0]);
      StepLeads(p, w, syms[0], src, limit);
      assert src[n..][w1.coding.count - n..] == src[w1.coding.count..];
      JoinsTwice(p, Going(Reader(p, w, src)), src[n..], limit, Going(Reader(p, w1, src)), w1.coding.count - n,
          Going(Reader(p, w', src)), w'.coding.count - w1.coding.count);
    }
  }

  lemma PutIs(p: Props, w: Writer, sym: Symbol)
    requires WriterOk(p, w)
    ensures PutSymbol(p, w, sym).text == Spelled(w.text, w.recent, sym)
    ensures PutSymbol(p, w, sym).recent == Recent(w.recent, sym)
  {
  }

  lemma SpelledMore(p: Props, w: Writer, sym: Symbol)
    requires WriterOk(p, w) && Allowed(p, w.text, sym)
    ensures |w.text| < |Spelled(w.text, w.recent, sym)|
  {
    hide Extend;
  }

  lemma {:induction false} NarrowForward(e: Coding, path: seq<Answer>)
    requires Wide(e)
    ensures e.count <= NarrowAll(e, path).count
    decreases |path|
  {
    if path != [] {
      NarrowKeeps(e, path[0]);
      NarrowForward(Narrow(e, path[0]), path[1..]);
    }
  }

  lemma {:induction false} AllForward(p: Props, w: Writer, syms: seq<Symbol>)
    requires WriterOk(p, w)
    ensures w.coding.count <= PutAll(p, w, syms).coding.count
    decreases |syms|
  {
    hide ContextOf, Answers, NarrowAll;
    if syms != [] {
      NarrowForward(w.coding, Answers(ContextOf(p, w), syms[0]));
      AllForward(p, PutSymbol(p, w, syms[0]), syms[1..]);
    }
  }

  /** A new stream: one byte 0 and any four bytes, every probability one half, no distance used. */
  function NewWriter(p: Props): (w: Writer)
    requires PropsOk(p)
    ensures WriterOk(p, w)
  {
    Writer(Coding(0, 0xFFFF_FFFF, 5, seq(LITERAL + 768 * Pow2(p.lc + p.lp), _ => 1024)), [], [1, 1, 1, 1], [])
  }

  lemma StartLeads(p: Props, src: seq<Byte>, limit: nat)
    requires PropsOk(p) && |src| >= 5 && Begins(src, NewWriter(p).coding)
    ensures Joins(p, Start, src, limit, Going(Reader(p, NewWriter(p), src)), 5)
  {
    hide Number;
    FiveBytes(src);
    assert src[0] == 0;
    var r := Reader(p, NewWriter(p), src);
    assert r.probs == InitProbs(p) && r.state == 0;
    assert Begin(p, src) == r;
    JoinsBegin(p, src, limit);
  }

  lemma FiveBytes(src: seq<Byte>)
    requires |src| >= 5
    ensures Number(src, 5) == 0x1_0000_0000 * src[0] + BigEndian(src[1], src[2], src[3], src[4])
  {
    assert Number(src, 0) == 0;
    assert Number(src, 1) == src[0];
    assert Number(src, 2) == 0x100 * Number(src, 1) + src[1];
    assert Number(src, 3) == 0x100 * Number(src, 2) + src[2];
    assert Number(src, 4) == 0x100 * Number(src, 3) + src[3];
  }

  // ----- choosing the stream

  /** A number as `n` bytes, the most significant first. */
  function BytesOf(x: nat, n: nat): (s: seq<Byte>)
    ensures |s| == n
  {
    if n == 0 then [] else BytesOf(x / 0x100, n - 1) + [x % 0x100]
  }

  function Bytes256(n: nat): nat {
    if n == 0 then 1 else 0x100 * Bytes256(n - 1)
  }

  lemma {:induction false} NumberOfBytes(x: nat, n: nat)
    requires x < Bytes256(n)
    ensures Number(BytesOf(x, n), n) == x
  {
    if n > 0 {
      NumberOfBytes(x / 0x100, n - 1);
      NumberLocal(BytesOf(x / 0x100, n - 1), BytesOf(x, n), n - 1);
    }
  }

  lemma {:induction false} NumberLocal(s: seq<Byte>, t: seq<Byte>, k: nat)
    requires k <= |s| && s <= t
    ensures Number(s, k) == Number(t, k)
  {
    if k > 0 { NumberLocal(s, t, k - 1); }
  }

  /** The interval ends below the numbers of one byte more. */
  predicate Fits(e: Coding) {
    e.low + e.range <= Bytes256(e.count)
  }

  lemma {:induction false} NarrowFits(e: Coding, path: seq<Answer>)
    requires Wide(e) && Fits(e)
    ensures Fits(NarrowAll(e, path)) && Fits(Shift(NarrowAll(e, path)))
    decreases |path|
  {
    if path != [] {
      NarrowKeeps(e, path[0]);
      NarrowOneFits(e, path[0]);
      NarrowFits(Narrow(e, path[0]), path[1..]);
    }
  }

  lemma NarrowOneFits(e: Coding, a: Answer)
    requires Wide(e) && Fits(e)
    ensures Fits(Narrow(e, a))
  {
    assert Fits(Shift(e));
    if a.Asked? { PartInside(Shift(e).range, Entry(Shift(e).probs, a.entry)); }
  }

  lemma {:induction false} AllFits(p: Props, w: Writer, syms: seq<Symbol>)
    requires WriterOk(p, w) && Fits(w.coding)
    ensures Fits(PutAll(p, w, syms).coding)
    decreases |syms|
  {
    hide ContextOf, Answers, NarrowAll, Fits;
    if syms != [] {
      NarrowFits(w.coding, Answers(ContextOf(p, w), syms[0]));
      AllFits(p, PutSymbol(p, w, syms[0]), syms[1..]);
    }
  }

  /** The stream that spells the symbols: the least number of the interval. */
  function Written(p: Props, syms: seq<Symbol>): seq<Byte>
    requires PropsOk(p)
  {
    var e := PutAll(p, NewWriter(p), syms).coding;
    BytesOf(e.low, e.count)
  }

  const NO_DISTANCES: seq<nat> := [1, 1, 1, 1]

  lemma WrittenBegins(p: Props, syms: seq<Symbol>)
    requires PropsOk(p)
    ensures var w, src := PutAll(p, NewWriter(p), syms), Written(p, syms);
            Begins(src, w.coding) && |src| == w.coding.count >= 5 && Number(src, |src|) == w.coding.low
  {
    hide PutAll, BytesOf, Number;
    var w := NewWriter(p);
    StartFits(p);
    AllFits(p, w, syms);
    AllForward(p, w, syms);
    var e := PutAll(p, w, syms).coding;
    NumberOfBytes(e.low, e.count);
  }

  lemma StartFits(p: Props)
    requires PropsOk(p)
    ensures Fits(NewWriter(p).coding)
  {
    assert Bytes256(4) == WORD;
  }

  /** Decoding is the inverse of writing: for every admissible setting and every sequence of symbols
      that copy only what is there, one call on the stream written for them, allowed as many bytes as
      they spell, uses all of the stream and gives exactly the text they spell. */
  lemma DecodesWritten(p: Props, syms: seq<Symbol>, mode: FinishMode)
    requires PropsOk(p) && AllAllowed(p, [], NO_DISTANCES, syms)
    ensures var src, text := Written(p, syms), TextOf([], NO_DISTANCES, syms);
            var reply := Call(p, Start, src, |text|, mode);
            reply.ok && reply.status == MaybeFinishedWithoutMark && reply.used == |src| && Decoded(reply.phase) == text
  {
    hide PutAll, Written, AllAllowed, TextOf, Begins, Joins, Advance, Number;
    var w, src, text := NewWriter(p), Written(p, syms), TextOf([], NO_DISTANCES, syms);
    var w' := PutAll(p, w, syms);
    PutText(p, w, syms);
    WrittenBegins(p, syms);
    AllLead(p, w, syms, src, |text|);
    StartLeads(p, src, |text|);
    JoinsTwice(p, Start, src, |text|, Going(Reader(p, w, src)), 5, Going(Reader(p, w', src)), |src| - 5);
    RestsGoing(p, Reader(p, w', src), src[|src|..], |text|);
    JoinsRests(p, Start, src, |text|, Reader(p, w', src), |src|);
    ReplyGoing(p, Start, src, |text|, mode, Reader(p, w', src), |src|);
  }

  lemma JoinsRests(p: Props, s: Phase, src: seq<Byte>, limit: nat, a: Coder, n: nat)
    requires p.lc <= 8 && Joins(p, s, src, limit, Going(a), n) && n <= |src|
    requires Advance(p, Going(a), src[n..], limit) == Reached(Going(a), 0)
    ensures Advance(p, s, src, limit) == Reached(Going(a), n)
  {
    hide Advance;
  }

  lemma {:induction false} PutLast(p: Props, w: Writer, syms: seq<Symbol>, sym: Symbol)
    requires WriterOk(p, w)
    ensures PutAll(p, w, syms + [sym]) == PutSymbol(p, PutAll(p, w, syms), sym)
    decreases |syms|
  {
    hide PutSymbol;
    if syms == [] {
      assert syms + [sym] == [sym] && [sym][1..] == [];
    } else {
      assert (syms + [sym])[1..] == syms[1..] + [sym];
      PutLast(p, PutSymbol(p, w, syms[0]), syms[1..], sym);
    }
  }

  /** The same with an end mark behind the symbols: under any limit that leaves room for more, the call
      reports the mark, and the text is complete. */
  lemma DecodesMarked(p: Props, syms: seq<Symbol>, len: nat, limit: nat, mode: FinishMode)
    requires PropsOk(p) && AllAllowed(p, [], NO_DISTANCES, syms) && len < 272
    requires |TextOf([], NO_DISTANCES, syms)| < limit
    ensures var src, text := Written(p, syms + [EndMark(len)]), TextOf([], NO_DISTANCES, syms);
            var reply := Call(p, Start, src, limit, mode);
            reply.ok && reply.status == FinishedWithMark && reply.used == |src| && Decoded(reply.phase) == text
  {
    hide PutAll, PutSymbol, Written, AllAllowed, TextOf, Begins, Joins, Advance, Number, Step1, Used;
    var w, src, text := NewWriter(p), Written(p, syms + [EndMark(len)]), TextOf([], NO_DISTANCES, syms);
    var w' := PutAll(p, w, syms);
    PutText(p, w, syms);
    PutLast(p, w, syms, EndMark(len));
    WrittenBegins(p, syms + [EndMark(len)]);
    AllForward(p, w', [EndMark(len)]);
    PutOnly(p, w', EndMark(len));
    StepReads(p, w', EndMark(len), src);
    AllLead(p, w, syms, src, limit);
    StartLeads(p, src, limit);
    var a, n := Reader(p, w', src), w'.coding.count;
    JoinsTwice(p, Start, src, limit, Going(Reader(p, w, src)), 5, Going(a), n - 5);
    LeadsStep(p, a, src[n..], limit);
    JoinsOver(p, src, limit, a, n, Step1(p, a, src[n..]).a);
    ReplyOver(p, Start, src, limit, mode, Step1(p, a, src[n..]).a, |src|);
  }

  lemma PutOnly(p: Props, w: Writer, sym: Symbol)
    requires WriterOk(p, w)
    ensures PutAll(p, w, [sym]) == PutSymbol(p, w, sym)
  {
  }

  lemma JoinsOver(p: Props, src: seq<Byte>, limit: nat, a: Coder, n: nat, b: Coder)
    requires p.lc <= 8 && n <= |src| && Joins(p, Start, src, limit, Going(a), n)
    requires Advance(p, Going(a), src[n..], limit) == Reached(Over(b), |src| - n)
    ensures Advance(p, Start, src, limit) == Reached(Over(b), |src|)
  {
    hide Advance;
  }

  // ----- every text has a stream

  function AsLiterals(text: seq<Byte>): seq<Symbol> {
    seq(|text|, i requires 0 <= i < |text| => Lit(text[i]))
  }

  /** No text is out of reach: written as literals, if not better, it is spelled. */
  lemma {:induction false} EveryText(p: Props, h: seq<Byte>, text: seq<Byte>)
    ensures AllAllowed(p, h, NO_DISTANCES, AsLiterals(text)) && TextOf(h, NO_DISTANCES, AsLiterals(text)) == h + text
    decreases |text|
  {
    var syms := AsLiterals(text);
    if text != [] {
      assert syms[1..] == AsLiterals(text[1..]);
      EveryText(p, h + [text[0]], text[1..]);
      assert h + [text[0]] + text[1..] == h + text;
    } else {
      assert syms == [] && h + text == h;
    }
  }

  /** The real decoder on a written stream. */
  method Unpack(p: Props, ghost syms: seq<Symbol>, src: seq<Byte>, dest: array<Byte>, mode: FinishMode)
      returns (res: SRes, used: nat)
    requires PropsOk(p) && AllAllowed(p, [], NO_DISTANCES, syms) && src == Written(p, syms)
    requires dest.Length == |TextOf([], NO_DISTANCES, syms)|
    modifies dest
    ensures res == SzOk && dest[..] == TextOf([], NO_DISTANCES, syms)
  {
    hide AllAllowed, TextOf, Written, Call, PropsDecode, PropsEncode, Genuine, Decoded;
    DecodesWritten(p, syms, mode);
    PropsRoundTrip(p);
    WrittenBegins(p, syms);
    var n, status;
    res, n, used, status := LzmaDecode(dest, src, PropsEncode(p), mode);
    assert dest[..dest.Length] == dest[..];
  }
}

/** The symbol loop of LzmaDec_DecodeReal. */
module LzmaReal {
  import opened Basics
  import opened RangeCoder
  import opened DecisionTree
  import opened DryDecoder
  import opened History
  import opened LzmaStream
  import opened LzmaCore

  lemma EnoughInput(p: Props, a: Coder, rc: Rc, src: seq<Byte>, bufLimit: int)
    requires PropsOk(p) && CoderOk(p, a) && rc.buf < bufLimit && bufLimit + REQUIRED_INPUT_MAX <= |src|
    ensures Normalize(rc, src).buf <= |src|
    ensures Used(p, a, src[Normalize(rc, src).buf..]) <= |src| - Normalize(rc, src).buf
  {
    hide Used, CoderOk;
    UsedSmall(p, a, src[Normalize(rc, src).buf..]);
  }

  /** Where the loop leaves off. */
  ghost predicate Left(p: Props, l: Regs, check: Word, rc: Rc, probs: seq<Prob>, dic: seq<Byte>, src: seq<Byte>,
      limit: nat,
                       start: nat, a0: Coder, lim: nat, l0: Regs, flow: Flow, a: Coder, g: seq<Byte>)
    requires p.lc <= 8 && start <= |src|
  {
    match flow
    case Continue =>
      && AtRest(p, l, check, rc, probs, dic, src, a, g) && start + Used(p, a0, src[start..]) <= Normalize(rc, src).buf
      && Leads(p, Going(a0), src[start..], lim, Going(a), Normalize(rc, src).buf - start)
      && l0.dicPos < l.dicPos <= limit && |g| - |a0.hist| == l.dicPos - l0.dicPos && g != [] && RepOk(p, g, l.rep0)
      && (l.len > 0 ==> l.dicPos == limit) && l.len < SPEC_LEN
    case Break =>
      && RangeOk(rc.range) && start + Used(p, a0, src[start..]) <= Normalize(rc, src).buf <= |src|
      && a == Held(l, Normalize(rc, src), probs, g) && CoderOk(p, a)
      && Advance(p, Going(a0), src[start..], lim) == Reached(Over(a), Normalize(rc, src).buf - start)
      && Linked(p, l, check, dic, g) && l0.dicPos <= l.dicPos <= limit && |g| - |a0.hist| == l.dicPos - l0.dicPos
      && l.len >= SPEC_LEN
    case DataError =>
      || Advance(p, Going(a0), src[start..], lim).phase.Corrupt?
      || (l0.dicPos == limit && !Step1(p, a0, src[start..]).End?)
  }

  method Rounds(p: Props, probs: array<Prob>, dic: array<Byte>, l0: Regs, check: Word, rc0: Rc, src: seq<Byte>,
      limit: nat,
                bufLimit: int, ghost a0: Coder, ghost lim: nat)
    returns (flow: Flow, l: Regs, rc: Rc, ghost a: Coder, ghost g: seq<Byte>)
    requires PropsOk(p) && probs.Length == NumProbs(p)
        && AtRest(p, l0, check, rc0, probs[..], dic[..], src, a0, a0.hist) && l0.len == 0
    requires rc0.buf <= |src| && rc0.range >= TOP
    requires Used(p, a0, src[rc0.buf..]) <= |src| - rc0.buf
    requires l0.dicPos <= limit <= dic.Length && (check == 0 ==> |a0.hist| + limit - l0.dicPos <= p.dicSize)
    requires l0.dicPos < limit || Kind(One(p, a0, src[rc0.buf..]).val) == DummyMatch
    requires bufLimit + REQUIRED_INPUT_MAX <= |src| || bufLimit <= 0
    requires if l0.dicPos < limit then |a0.hist| + limit - l0.dicPos <= lim else lim == |a0.hist| + 1
    modifies probs, dic
    ensures Left(p, l, check, rc, probs[..], dic[..], src, limit, rc0.buf, a0, lim, l0, flow, a, g)
    ensures l0.dicPos <= l.dicPos <= limit && OnlyWithin(old(dic[..]), dic[..], l0.dicPos, l.dicPos) && a0.hist <= g
  {
    hide OnlyWithin, One, Step1, Used, Advance, Leads, AtRest, NumProbs, RepOk, RangeOk, Kind, CoderOk, Linked,
        Normalize;
    l, rc, a, g := l0, rc0, a0, a0.hist;
    ghost var start := rc0.buf;
    NormalizeNot(rc0, src);
    LeadsNowhere(p, Going(a0), src[start..], lim);
    WithinSelf(dic[..], l0.dicPos, l0.dicPos);
    while true
      invariant AtRest(p, l, check, rc, probs[..], dic[..], src, a, a.hist) && l.len == 0
      invariant start <= Normalize(rc, src).buf <= |src|
      invariant (a == a0 && Normalize(rc, src).buf == start)
          || start + Used(p, a0, src[start..]) <= Normalize(rc, src).buf
      invariant Leads(p, Going(a0), src[start..], lim, Going(a), Normalize(rc, src).buf - start)
      invariant Used(p, a, src[Normalize(rc, src).buf..]) <= |src| - Normalize(rc, src).buf
      invariant OnlyWithin(old(dic[..]), dic[..], l0.dicPos, l.dicPos) && a0.hist <= a.hist
      invariant l0.dicPos <= l.dicPos <= limit && |a.hist| - |a0.hist| == l.dicPos - l0.dicPos
      invariant l.dicPos < limit || (l.dicPos == l0.dicPos && a == a0 && Normalize(rc, src).buf == start
                                     && Kind(One(p, a0, src[start..]).val) == DummyMatch)
      decreases limit - l.dicPos
    {
      ghost var b := Normalize(rc, src).buf;
      assert src[start..][b - start..] == src[b..];
      LeadsStep(p, a, src[b..], lim);
      RestOk(p, l, check, rc, probs[..], dic[..], src, a);
      StepKeeps(p, a, src[b..]);
      ghost var o := Step1(p, a, src[b..]);
      ghost var pos, was := l.dicPos, dic[..];
      flow, l, rc, g := Round(p, probs, dic, l, check, rc, src, limit, a);
      WithinTwice(old(dic[..]), was, dic[..], l0.dicPos, pos, l.dicPos);
      if flow != Continue {
        LeadsEnd(p, Going(a0), src[start..], lim, Going(a), b - start, Advance(p, Going(a), src[b..], lim));
        if flow == Break {
          a := o.a;
        }
        return;
      }
      LeadsTwice(p, Going(a0), src[start..], lim, Going(a), b - start, Going(o.a), Normalize(rc, src).buf - b);
      a := o.a;
      if !(l.dicPos < limit && rc.buf < bufLimit) {
        return;
      }
      RestWhole(p, l, check, rc, probs[..], dic[..], src, a, g);
      EnoughInput(p, a, rc, src, bufLimit);
    }
  }

  lemma NormalizeNot(rc: Rc, src: seq<Byte>)
    requires rc.range >= TOP
    ensures Normalize(rc, src) == rc
  {
  }

  lemma RestWhole(p: Props, l: Regs, check: Word, rc: Rc, probs: seq<Prob>, dic: seq<Byte>, src: seq<Byte>, a: Coder,
      g: seq<Byte>)
    requires AtRest(p, l, check, rc, probs, dic, src, a, g) && l.len == 0
    ensures a.hist == g && CoderOk(p, a)
  {
  }

  lemma RestOk(p: Props, l: Regs, check: Word, rc: Rc, probs: seq<Prob>, dic: seq<Byte>, src: seq<Byte>, a: Coder)
    requires AtRest(p, l, check, rc, probs, dic, src, a, a.hist)
    ensures CoderOk(p, a)
  {
  }
}

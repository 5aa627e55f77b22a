/** The decoder object: LzmaDec_WriteRem, LzmaDec_DecodeReal, LzmaDec_DecodeReal2 and
    LzmaDec_DecodeToDic. */
module LzmaDecoder {
  import opened Basics
  import opened RangeCoder
  import opened DecisionTree
  import opened SymbolDecoder
  import opened DryDecoder
  import opened History
  import opened LzmaStream
  import opened LzmaCore
  import opened LzmaReal
  import opened LzmaDry

  const RC_INIT_SIZE := 5

  /** The decoder's fields, without the table, the dictionary and the carried-over input. */
  datatype Fields = Fields(l: Regs, check: Word, range: Word, code: Word, needFlush: bool, needInit: bool)

  /** The machine state of a decoder that is past the start bytes: the table, state and distances
      count only once they have been initialized, and a cut-off match counts as written in full. */
  ghost function CoderOf(p: Props, f: Fields, probs: seq<Prob>, h: seq<Byte>): Coder {
    if f.needInit then Coder(f.range, f.code, InitProbs(p), 0, 1, 1, 1, 1, [])
    else Held(f.l, Rc(f.range, f.code, 0), probs, if f.l.len < SPEC_LEN then Extend(h, f.l.rep0, f.l.len) else h)
  }

  ghost function PhaseOf(p: Props, f: Fields, probs: seq<Prob>, h: seq<Byte>): Phase {
    if f.needFlush then Start
    else if f.l.len >= SPEC_LEN then Over(CoderOf(p, f, probs, h))
    else Going(CoderOf(p, f, probs, h))
  }

  /** What every call finds and leaves, the carried-over input aside. */
  ghost predicate Steady(p: Props, f: Fields, probs: seq<Prob>, dic: seq<Byte>, h: seq<Byte>) {
    && PropsOk(p) && |probs| == NumProbs(p)
    && Linked(p, f.l, f.check, dic, h) && (f.check == 0 ==> |h| < p.dicSize)
    && (f.needFlush ==> f.needInit)
    && (f.needInit ==> h == [] && f.l.len == 0)
    && (!f.needFlush ==> f.range >= TOP)
    && (!f.needInit ==> CoderOk(p, CoderOf(p, f, probs, h)))
    && (0 < f.l.len < SPEC_LEN ==> h != [] && RepOk(p, h, f.l.rep0))
  }

  /** Carried-over input is either part of the start bytes or too little for the next symbol. */
  ghost predicate Carried(p: Props, f: Fields, probs: seq<Prob>, h: seq<Byte>, pend: seq<Byte>)
    requires p.lc <= 8
  {
    && |pend| < REQUIRED_INPUT_MAX
    && (f.needFlush ==> |pend| < RC_INIT_SIZE)
    && (!f.needFlush && pend != [] ==> (
          !f.needInit && f.l.len == 0 && Used(p, CoderOf(p, f, probs, h), pend) > |pend|))
  }

  class LzmaDec {
    const prop: Props
    const probs: array<Prob>
    const dic: array<Byte>
    const tempBuf: array<Byte>
    /** range, code and buf. */
    var rc: Rc
    /** state, reps, dicPos, processedPos and remainLen. */
    var regs: Regs
    var checkDicSize: Word
    var needFlush: bool
    var needInitState: bool
    var tempBufSize: nat
    /** All bytes produced since LzmaDec_Init. */
    ghost var hist: seq<Byte>

    /** The arrays are where and as large as they should be. */
    ghost predicate Shape() {
      PropsOk(prop) && tempBuf.Length == REQUIRED_INPUT_MAX && dic != tempBuf && probs.Length == NumProbs(prop)
    }

    ghost function Now(): Fields
      reads this
    {
      Fields(regs, checkDicSize, rc.range, rc.code, needFlush, needInitState)
    }

    ghost predicate Ready()
      reads this, probs, dic
    {
      Shape() && Steady(prop, Now(), probs[..], dic[..], hist)
    }

    ghost function Phase(): Phase
      reads this, probs
    {
      PhaseOf(prop, Now(), probs[..], hist)
    }

    ghost function Pending(): seq<Byte>
      reads this, tempBuf
      requires tempBufSize <= tempBuf.Length
    {
      tempBuf[..tempBufSize]
    }

    ghost predicate Valid()
      reads this, probs, dic, tempBuf
    {
      Ready() && regs.len <= SPEC_LEN && tempBufSize <= tempBuf.Length
          && Carried(prop, Now(), probs[..], hist, Pending())
    }

    /** Storage of the right size, then LzmaDec_Init. */
    constructor (prop: Props, probs: array<Prob>, dic: array<Byte>, tempBuf: array<Byte>)
      requires PropsOk(prop) && probs.Length == NumProbs(prop) && tempBuf.Length == REQUIRED_INPUT_MAX && dic != tempBuf
      ensures Valid() && Phase() == Start && Pending() == [] && hist == [] && regs.dicPos == 0
      ensures this.prop == prop && this.probs == probs && this.dic == dic && this.tempBuf == tempBuf
    {
      this.prop, this.probs, this.dic, this.tempBuf := prop, probs, dic, tempBuf;
      rc := Rc(0, 0, 0);
      regs := Regs(0, 1, 1, 1, 1, 0, 0, 0);
      needFlush, tempBufSize, checkDicSize, needInitState := true, 0, 0, true;
      hist := [];
    }

    /** LzmaDec_WriteRem: finishes a cut-off match as far as the limit allows. */
    method WriteRem(limit: nat)
      requires Ready() && regs.dicPos <= limit <= dic.Length
      modifies this`regs, this`checkDicSize, this`hist, dic
      ensures Ready() && Phase() == old(Phase()) && old(regs.dicPos) <= regs.dicPos <= limit
      ensures |hist| - |old(hist)| == regs.dicPos - old(regs.dicPos)
      ensures regs.len <= old(regs.len) && (regs.len == 0 || regs.len >= SPEC_LEN || regs.dicPos == limit)
      ensures regs == old(regs).(dicPos := regs.dicPos, processedPos := regs.processedPos, len := regs.len)
      ensures old(regs.len) == 0 || old(regs.len) >= SPEC_LEN ==> Now() == old(Now()) && hist == old(hist)
      ensures Wrote(old(dic[..]), dic[..], old(regs.dicPos), regs.dicPos, old(hist), hist, regs.dicPos)
    {
      hide Steady, PhaseOf, OnlyWithin, Wrote;
      WithinSelf(dic[..], regs.dicPos, regs.dicPos);
      WroteNothing(dic[..], dic[..], regs.dicPos, hist, regs.dicPos);
      if regs.len != 0 && regs.len < SPEC_LEN {
        ghost var g;
        regs, checkDicSize, g := FlushRest(prop, dic, regs, checkDicSize, limit, Now(), probs[..], hist);
        hist := g;
      }
    }

    /** LzmaDec_DecodeReal: the locals are written back only when no error was found. */
    method DecodeReal(limit: nat, src: seq<Byte>, bufLimit: int, ghost a0: Coder, ghost lim: nat)
        returns (ok: bool, ghost a: Coder)
      requires Ready() && !needFlush && !needInitState && regs.len == 0 && Phase() == Going(a0)
      requires rc.buf <= |src| && Used(prop, a0, src[rc.buf..]) <= |src| - rc.buf
      requires regs.dicPos <= limit <= dic.Length
          && (checkDicSize == 0 ==> |hist| + limit - regs.dicPos <= prop.dicSize)
      requires regs.dicPos < limit || Kind(One(prop, a0, src[rc.buf..]).val) == DummyMatch
      requires bufLimit + REQUIRED_INPUT_MAX <= |src| || bufLimit <= 0
      requires if regs.dicPos < limit then |hist| + limit - regs.dicPos <= lim else lim == |hist| + 1
      modifies this`rc, this`regs, this`hist, probs, dic
      ensures !ok ==> Failed(prop, a0, src[old(rc.buf)..], lim, old(regs.dicPos) == limit)
      ensures !ok ==> rc == old(rc) && regs == old(regs) && hist == old(hist)
      ensures ok ==> Left(prop, regs, checkDicSize, rc, probs[..], dic[..], src, limit, old(rc.buf), a0, lim,
                          old(regs), FlowOf(regs.len), a, hist) && rc.range >= TOP
      ensures Wrote(old(dic[..]), dic[..], old(regs.dicPos), regs.dicPos, old(hist), hist,
          if ok then regs.dicPos else limit)
    {
      hide OnlyWithin, Wrote, Steady, Left, Used, One, Failed, PhaseOf, Advance, Step1;
      var l, r;
      ghost var g;
      ok, l, r, a, g := RealLoop(prop, probs, dic, regs, checkDicSize, rc, src, limit, bufLimit, Now(), hist, a0, lim);
      if ok {
        rc, regs, hist := r, l, g;
      } else {
        WroteNothing(old(dic[..]), dic[..], regs.dicPos, hist, limit);
      }
    }

    /** The body of DecodeReal2's loop up to LzmaDec_WriteRem. */
    method DecodeStretch(limit: nat, src: seq<Byte>, bufLimit: int, ghost a: Coder, ghost lim: nat) returns (ok: bool)
      requires Ready() && !needFlush && !needInitState && regs.len == 0 && Phase() == Going(a)
      requires rc.buf <= |src| && Used(prop, a, src[rc.buf..]) <= |src| - rc.buf && regs.dicPos <= limit <= dic.Length
      requires regs.dicPos < limit || Kind(One(prop, a, src[rc.buf..]).val) == DummyMatch
      requires bufLimit + REQUIRED_INPUT_MAX <= |src| || bufLimit <= 0
      requires lim == |hist| + if regs.dicPos < limit then limit - regs.dicPos else 1
      modifies this`rc, this`regs, this`hist, this`checkDicSize, probs, dic
      ensures !ok ==> Failed(prop, a, src[old(rc.buf)..], lim, old(regs.dicPos) == limit)
      ensures !ok ==> rc == old(rc) && regs == old(regs) && hist == old(hist) && checkDicSize == old(checkDicSize)
      ensures ok ==> old(rc.buf) + Used(prop, a, src[old(rc.buf)..]) <= rc.buf <= |src| && rc.range >= TOP
      ensures ok ==> Ready() && Leads(prop, Going(a), src[old(rc.buf)..], lim, Phase(), rc.buf - old(rc.buf))
      ensures ok ==>
          old(regs.dicPos) <= regs.dicPos <= limit && (regs.len < SPEC_LEN ==> old(regs.dicPos) < regs.dicPos)
      ensures ok ==> |hist| - |old(hist)| == regs.dicPos - old(regs.dicPos)
      ensures Wrote(old(dic[..]), dic[..], old(regs.dicPos), regs.dicPos, old(hist), hist,
          if ok then regs.dicPos else limit)
    {
      hide OnlyWithin, Wrote, Steady, Left, Used, One, Failed, PhaseOf, Advance, Step1, Leads, Kind, CoderOk, NumProbs,
          Genuine;
      var limit2 := limit;
      Room(prop, Now(), probs[..], dic[..], hist);
      GoingOk(prop, Now(), probs[..], dic[..], hist, a);
      if checkDicSize == 0 {
        var rem := prop.dicSize - regs.processedPos;
        if limit - regs.dicPos > rem {
          limit2 := regs.dicPos + rem;
        }
      }
      ghost var start, l0, b := rc.buf, regs, a;
      ok, b := DecodeReal(limit2, src, bufLimit, a, lim);
      if !ok {
        WroteMore(old(dic[..]), dic[..], old(regs.dicPos), regs.dicPos, old(hist), hist, limit2, limit);
        return;
      }
      ghost var check := checkDicSize;
      if regs.processedPos >= prop.dicSize {
        checkDicSize := prop.dicSize;
      }
      LeftSteady(prop, regs, check, rc, probs[..], dic[..], src, limit2, start, a, lim, l0, b, hist, checkDicSize);
    }

    /** LzmaDec_DecodeReal2: rounds of DecodeReal that stop where the dictionary first gets full. */
    method DecodeReal2(limit: nat, src: seq<Byte>, bufLimit: int, ghost a0: Coder, ghost lim: nat) returns (ok: bool)
      requires Ready() && !needFlush && !needInitState && regs.len == 0 && Phase() == Going(a0) && rc.buf == 0
      requires Used(prop, a0, src) <= |src| && regs.dicPos <= limit <= dic.Length
      requires regs.dicPos < limit || Kind(One(prop, a0, src).val) == DummyMatch
      requires bufLimit + REQUIRED_INPUT_MAX <= |src| || bufLimit <= 0
      requires lim == |hist| + if regs.dicPos < limit then limit - regs.dicPos else 1
      modifies this`rc, this`regs, this`hist, this`checkDicSize, probs, dic
      ensures !ok ==> Failed(prop, a0, src, lim, old(regs.dicPos) == limit)
      ensures ok ==> Ready() && Leads(prop, Going(a0), src, lim, Phase(), rc.buf)
      ensures ok ==> Used(prop, a0, src) <= rc.buf <= |src| && regs.dicPos <= limit && regs.len <= SPEC_LEN
      ensures ok ==> regs.len == SPEC_LEN || (old(regs.dicPos) < regs.dicPos && (regs.len == 0 || regs.dicPos == limit))
      ensures ok ==> |hist| - |old(hist)| == regs.dicPos - old(regs.dicPos) >= 0
      ensures Genuine(prop, Going(a0), src, hist)
      ensures Wrote(old(dic[..]), dic[..], old(regs.dicPos), regs.dicPos, old(hist), hist,
          if ok then regs.dicPos else limit)
    {
      hide OnlyWithin, Wrote, Steady, Left, Used, One, Failed, PhaseOf, Advance, Step1, Leads, Kind, CoderOk, NumProbs,
          Genuine;
      ghost var a, first := a0, true;
      assert src[0..] == src;
      LeadsNowhere(prop, Going(a0), src, lim);
      WithinSelf(dic[..], regs.dicPos, regs.dicPos);
      WroteNothing(dic[..], dic[..], regs.dicPos, hist, regs.dicPos);
      Room(prop, Now(), probs[..], dic[..], hist);
      IsHeld(prop, Now(), probs[..], dic[..], hist, a0);
      while true
        invariant Ready() && regs.len == 0 && Phase() == Going(a) && hist == a.hist
        invariant rc.buf <= |src| && Used(prop, a, src[rc.buf..]) <= |src| - rc.buf
        invariant Leads(prop, Going(a0), src, lim, Going(a), rc.buf)
        invariant if first then a == a0 && rc.buf == 0 && regs.dicPos == old(regs.dicPos)
                  else old(regs.dicPos) < regs.dicPos < limit && Used(prop, a0, src) <= rc.buf
        invariant old(regs.dicPos) <= regs.dicPos <= limit && |hist| - |old(hist)| == regs.dicPos - old(regs.dicPos)
        invariant Wrote(old(dic[..]), dic[..], old(regs.dicPos), regs.dicPos, old(hist), hist, regs.dicPos)
        decreases limit - regs.dicPos
      {
        ghost var start, l0, d0, h0 := rc.buf, regs, dic[..], hist;
        ok := DecodeStretch(limit, src, bufLimit, a, lim);
        WroteTwice(old(dic[..]), d0, dic[..], old(regs.dicPos), l0.dicPos, regs.dicPos, old(hist), h0, hist,
            if ok then regs.dicPos else limit);
        if !ok {
          FailedLater(prop, a0, src, lim, a, start, l0.dicPos == limit);
          GenuineThere(prop, Going(a0), src, lim, Going(a), start, hist);
          return;
        }
        LeadsTwice(prop, Going(a0), src, lim, Going(a), start, Phase(), rc.buf - start);
        ghost var d1, p1, h1 := dic[..], regs.dicPos, hist;
        WriteRem(limit);
        WroteTwice(old(dic[..]), d1, dic[..], old(regs.dicPos), p1, regs.dicPos, old(hist), h1, hist, regs.dicPos);
        if !(regs.dicPos < limit && rc.buf < bufLimit && regs.len < SPEC_LEN) {
          break;
        }
        StillGoing(prop, Now(), probs[..], dic[..], hist);
        a := Phase().a;
        IsHeld(prop, Now(), probs[..], dic[..], hist, a);
        NormalizeNot(rc, src);
        EnoughInput(prop, a, rc, src, bufLimit);
        first := false;
      }
      Produced(prop, Now(), probs[..], dic[..], hist);
      GenuineThere(prop, Going(a0), src, lim, Phase(), rc.buf, hist);
      if regs.len > SPEC_LEN {
        Clamped(prop, Now(), probs[..], dic[..], hist);
        regs := regs.(len := SPEC_LEN);
      }
    }

    /** LzmaDec_InitStateReal. */
    method InitStateReal()
      requires Ready() && !needFlush && needInitState
      modifies this`regs, this`needInitState, probs
      ensures Ready() && !needInitState && Phase() == old(Phase())
      ensures regs == old(regs).(state := 0, rep0 := 1, rep1 := 1, rep2 := 1, rep3 := 1)
    {
      hide Steady, PhaseOf;
      ghost var f := Now();
      Room(prop, f, probs[..], dic[..], hist);
      ghost var before := probs[..];
      for i := 0 to probs.Length
        modifies probs
        invariant forall k :: 0 <= k < i ==> probs[k] == 1024
      {
        probs[i] := 1024;
      }
      assert probs[..] == InitProbs(prop);
      regs := regs.(rep0 := 1, rep1 := 1, rep2 := 1, rep3 := 1, state := 0);
      needInitState := false;
      Initialized(prop, f, before, dic[..], hist);
    }

    /** Decoding straight from the caller's buffer, after a dry run when little input is left. */
    method FromSource(dicLimit: nat, src: seq<Byte>, checkEndMarkNow: bool, ghost a: Coder, ghost lim: nat)
      returns (done: bool, ok: bool, processed: nat)
      requires Valid() && !needFlush && !needInitState && regs.len == 0 && Phase() == Going(a) && tempBufSize == 0
      requires regs.dicPos <= dicLimit <= dic.Length && (checkEndMarkNow <==> regs.dicPos == dicLimit)
      requires lim == |hist| + if regs.dicPos < dicLimit then dicLimit - regs.dicPos else 1
      modifies this, probs, dic, tempBuf
      ensures done && ok ==> Valid() && Now() == old(Now()) && Phase() == old(Phase()) && hist == old(hist)
      ensures done && ok ==> Used(prop, a, src) > |src| && Pending() == src && processed == |src|
      ensures done && !ok ==> Used(prop, a, src) <= |src| && Failed(prop, a, src, lim, checkEndMarkNow)
      ensures !done ==> Used(prop, a, src) <= |src|
      ensures !done ==>
          Valid() && Leads(prop, Going(a), src, lim, Phase(), processed) && processed <= |src| && Pending() == []
      ensures !done ==>
          !needFlush && !needInitState && regs.dicPos <= dicLimit
          && |hist| - |old(hist)| == regs.dicPos - old(regs.dicPos) >= 0
      ensures !done ==>
          regs.len == SPEC_LEN || (old(regs.dicPos) < regs.dicPos && (regs.len == 0 || regs.dicPos == dicLimit))
      ensures !done ==> ok
      ensures Genuine(prop, Going(a), src, hist)
      ensures Wrote(old(dic[..]), dic[..], old(regs.dicPos), regs.dicPos, old(hist), hist,
          if ok then regs.dicPos else dicLimit)
    {
      hide OnlyWithin, Wrote, Steady, Carried, Used, One, Failed, PhaseOf, Advance, Step1, Leads, Kind, CoderOk,
          NumProbs, Genuine;
      WithinSelf(dic[..], regs.dicPos, regs.dicPos);
      WroteNothing(dic[..], dic[..], regs.dicPos, hist, regs.dicPos);
      WithinSelf(dic[..], regs.dicPos, dicLimit);
      WroteNothing(dic[..], dic[..], regs.dicPos, hist, dicLimit);
      GoingOk(prop, Now(), probs[..], dic[..], hist, a);
      IsHeld(prop, Now(), probs[..], dic[..], hist, a);
      GenuineNow(prop, Going(a), src, hist);
      UsedSmall(prop, a, src);
      var bufLimit := |src| - REQUIRED_INPUT_MAX;
      if |src| < REQUIRED_INPUT_MAX || checkEndMarkNow {
        var dummyRes := TryDummy(prop, probs, dic, regs, checkDicSize, rc.range, rc.code, src, a);
        if dummyRes == DummyError {
          CopyBytes(tempBuf, 0, src);
          tempBufSize := |src|;
          CarriedNow(prop, Now(), probs[..], hist, Pending(), a);
          return true, true, |src|;
        }
        if checkEndMarkNow && dummyRes != DummyMatch {
          NoEndMark(prop, a, src, lim);
          return true, false, 0;
        }
        bufLimit := 0;
      }
      rc := rc.(buf := 0);
      var fine := DecodeReal2(dicLimit, src, bufLimit, a, lim);
      if !fine {
        return true, false, 0;
      }
      CarriedNone(prop, Now(), probs[..], hist, Pending());
      return false, true, rc.buf;
    }

    /** Tops the carried-over input up from the caller's buffer. */
    method TopUp(src: seq<Byte>) returns (rem: nat, lookAhead: nat)
      requires Shape() && tempBufSize <= REQUIRED_INPUT_MAX
      modifies tempBuf, this`tempBufSize
      ensures lookAhead <= |src| && rem == tempBufSize == old(tempBufSize) + lookAhead <= REQUIRED_INPUT_MAX
      ensures Pending() == old(Pending()) + src[..lookAhead]
      ensures rem == REQUIRED_INPUT_MAX || lookAhead == |src|
    {
      rem, lookAhead := tempBufSize, 0;
      while rem < REQUIRED_INPUT_MAX && lookAhead < |src|
        invariant lookAhead <= |src| && rem == old(tempBufSize) + lookAhead <= REQUIRED_INPUT_MAX
        invariant tempBuf[..rem] == old(Pending()) + src[..lookAhead]
      {
        ghost var before := tempBuf[..rem];
        tempBuf[rem] := src[lookAhead];
        rem, lookAhead := rem + 1, lookAhead + 1;
        assert tempBuf[..rem] == before + [src[lookAhead - 1]];
        assert src[..lookAhead] == src[..lookAhead - 1] + [src[lookAhead - 1]];
      }
      tempBufSize := rem;
    }

    /** Decoding one symbol from the carried-over input, topped up from the caller's buffer. */
    method FromTemp(dicLimit: nat, src: seq<Byte>, checkEndMarkNow: bool, ghost a: Coder, ghost lim: nat)
      returns (done: bool, ok: bool, processed: nat)
      requires Valid() && !needFlush && !needInitState && regs.len == 0 && Phase() == Going(a) && tempBufSize != 0
      requires regs.dicPos <= dicLimit <= dic.Length && (checkEndMarkNow <==> regs.dicPos == dicLimit)
      requires lim == |hist| + if regs.dicPos < dicLimit then dicLimit - regs.dicPos else 1
      modifies this, probs, dic, tempBuf
      ensures done && ok ==> Valid() && Now() == old(Now()) && Phase() == old(Phase()) && hist == old(hist)
      ensures var all := old(Pending()) + src;
              && (done && ok ==> Used(prop, a, all) > |all| && Pending() == all && processed == |src|)
              && (!ok || !done ==> Used(prop, a, all) <= |all|)
              && (done && !ok ==> Failed(prop, a, all, lim, checkEndMarkNow))
              && (!done ==>
                  Valid() && Leads(prop, Going(a), all, lim, Phase(), old(tempBufSize) + processed)
                  && processed <= |src| && Pending() == [])
      ensures !done ==>
          !needFlush && !needInitState && regs.dicPos <= dicLimit
          && |hist| - |old(hist)| == regs.dicPos - old(regs.dicPos) >= 0
      ensures !done ==>
          regs.len == SPEC_LEN || (old(regs.dicPos) < regs.dicPos && (regs.len == 0 || regs.dicPos == dicLimit))
      ensures !done ==> ok
      ensures Genuine(prop, Going(a), old(Pending()) + src, hist)
      ensures Wrote(old(dic[..]), dic[..], old(regs.dicPos), regs.dicPos, old(hist), hist,
          if ok then regs.dicPos else dicLimit)
    {
      hide OnlyWithin, Wrote, Steady, Carried, Used, One, Failed, PhaseOf, Advance, Step1, Leads, Kind, CoderOk,
          NumProbs, Genuine;
      WithinSelf(dic[..], regs.dicPos, regs.dicPos);
      WroteNothing(dic[..], dic[..], regs.dicPos, hist, regs.dicPos);
      WithinSelf(dic[..], regs.dicPos, dicLimit);
      WroteNothing(dic[..], dic[..], regs.dicPos, hist, dicLimit);
      GoingOk(prop, Now(), probs[..], dic[..], hist, a);
      IsHeld(prop, Now(), probs[..], dic[..], hist, a);
      GenuineNow(prop, Going(a), Pending() + src, hist);
      ghost var pend := Pending();
      TooLittle(prop, Now(), probs[..], hist, pend, a);
      var rem, lookAhead := TopUp(src);
      ghost var front, more := Pending(), src[lookAhead..];
      assert front + more == pend + src;
      UsedSmall(prop, a, front);
      StepExtends(prop, a, pend, src[..lookAhead]);
      StepExtends(prop, a, front, more);
      if rem < REQUIRED_INPUT_MAX || checkEndMarkNow {
        var dummyRes := TryDummy(prop, probs, dic, regs, checkDicSize, rc.range, rc.code, tempBuf[..rem], a);
        if dummyRes == DummyError {
          assert front == pend + src;
          CarriedNow(prop, Now(), probs[..], hist, Pending(), a);
          return true, true, lookAhead;
        }
        if checkEndMarkNow && dummyRes != DummyMatch {
          NoEndMark(prop, a, front, lim);
          FailedExtends(prop, a, front, more, lim, true);
          return true, false, 0;
        }
      }
      rc := rc.(buf := 0);
      var fine := DecodeReal2(dicLimit, tempBuf[..rem], 0, a, lim);
      GenuineExtends(prop, Going(a), front, more, hist);
      if !fine {
        FailedExtends(prop, a, front, more, lim, checkEndMarkNow);
        return true, false, 0;
      }
      LeadsExtends(prop, Going(a), front, more, lim, Phase(), rc.buf);
      tempBufSize := 0;
      CarriedNone(prop, Now(), probs[..], hist, Pending());
      return false, true, lookAhead - (rem - rc.buf);
    }

    /** Collects the start bytes. */
    method TakeStart(src: seq<Byte>) returns (taken: nat)
      requires Shape() && tempBufSize < RC_INIT_SIZE
      modifies tempBuf, this`tempBufSize
      ensures taken <= |src| && tempBufSize == old(tempBufSize) + taken <= RC_INIT_SIZE
      ensures Pending() == old(Pending()) + src[..taken]
      ensures tempBufSize == RC_INIT_SIZE || taken == |src|
    {
      taken := 0;
      while taken < |src| && tempBufSize < RC_INIT_SIZE
        invariant taken <= |src| && tempBufSize == old(tempBufSize) + taken <= RC_INIT_SIZE
        invariant Pending() == old(Pending()) + src[..taken]
      {
        ghost var before := Pending();
        tempBuf[tempBufSize] := src[taken];
        tempBufSize, taken := tempBufSize + 1, taken + 1;
        assert Pending() == before + [src[taken - 1]];
        assert src[..taken] == src[..taken - 1] + [src[taken - 1]];
      }
    }

    /** LzmaDec_InitRc, once the five start bytes are there. */
    method InitRc()
      requires Ready() && needFlush && tempBufSize == RC_INIT_SIZE && regs.len == 0 && tempBuf[0] == 0
      modifies this`rc, this`needFlush, this`tempBufSize
      ensures Valid() && !needFlush && tempBufSize == 0 && Phase() == Going(Begin(prop, old(Pending())))
    {
      hide Steady, PhaseOf, Carried;
      ghost var f := Now();
      rc := Rc(0xFFFF_FFFF, BigEndian(tempBuf[1], tempBuf[2], tempBuf[3], tempBuf[4]), rc.buf);
      needFlush := false;
      Begun(prop, f, probs[..], dic[..], hist, Pending());
      tempBufSize := 0;
      CarriedNone(prop, Now(), probs[..], hist, Pending());
    }

    /** The start of a stream, as far as the input goes. */
    method StartUp(src: seq<Byte>) returns (ok: bool, more: bool, taken: nat)
      requires Valid() && needFlush
      modifies this`rc, this`needFlush, this`tempBufSize, tempBuf
      ensures var all := old(Pending()) + src;
              && (ok && more ==> Valid() && |all| < 5 && Pending() == all && taken == |src| && needFlush)
              && (!ok ==> |all| >= 5 && all[0] != 0)
              && (ok && !more ==> Valid() && !needFlush && Pending() == [] && |all| >= 5 && all[0] == 0)
              && (ok && !more ==> taken <= |src| && src[taken..] == all[5..] && Phase() == Going(Begin(prop, all)))
    {
      hide Steady, PhaseOf, Carried;
      StartFacts(prop, Now(), probs[..], dic[..], hist, Pending());
      ghost var all := Pending() + src;
      taken := TakeStart(src);
      ghost var pend := Pending();
      assert all == pend + src[taken..];
      if tempBufSize < RC_INIT_SIZE {
        CarriedStart(prop, Now(), probs[..], hist, Pending());
        return true, true, taken;
      }
      if tempBuf[0] != 0 {
        return false, false, taken;
      }
      InitRc();
      BeginExtends(prop, pend, src[taken..]);
      ok, more := true, false;
    }

    /** What has been produced or is pending, and what is left to the limit. */
    ghost predicate Within(dicLimit: nat, lim: nat)
      reads this
    {
      regs.dicPos <= dicLimit && |hist| + dicLimit - regs.dicPos == lim
          && (regs.len == 0 || regs.len == SPEC_LEN || regs.dicPos == dicLimit)
    }

    /** The start-byte part of DecodeToDic's loop. */
    method BeginStream(dicLimit: nat, src: seq<Byte>, srcLen: nat, finishMode: FinishMode,
                       ghost s0: Phase, ghost all: seq<Byte>, ghost lim: nat, ghost n: nat)
      returns (done: bool, ok: bool, srcLen': nat, status: Status, ghost n': nat)
      requires Valid() && srcLen <= |src| && n <= |all| && needFlush
      requires OnCourse(prop, s0, all, lim, finishMode, Phase(), n) && Pending() + src[srcLen..] == all[n..]
      modifies this`rc, this`needFlush, this`tempBufSize, tempBuf
      ensures var reply := Call(prop, s0, all, lim, finishMode);
              && (done ==> ok == reply.ok)
              && (done && ok ==> status == reply.status && Valid() && Phase() == reply.phase)
              && (done && ok ==>
                  srcLen' <= |src| && reply.used <= |all| && Pending() + src[srcLen'..] == all[reply.used..])
      ensures done && ok && status == NeedsMoreInput ==> srcLen' == |src|
      ensures !done ==> ok && Valid() && !needFlush && srcLen' <= |src| && n' <= |all| && status == NotSpecified
      ensures !done ==> OnCourse(prop, s0, all, lim, finishMode, Phase(), n') && Pending() + src[srcLen'..] == all[n'..]
    {
      hide Steady, Carried, PhaseOf, Advance, Leads, Used, Call, Begin;
      LeadsBegin(prop, all[n..], lim);
      StartPhase(prop, Now(), probs[..], hist);
      var more, taken;
      n', status := n, NotSpecified;
      ok, more, taken := StartUp(src[srcLen..]);
      done, srcLen' := false, srcLen;
      if !ok {
        CallCorrupt(prop, s0, all, lim, finishMode, Start, n);
        done := true;
      } else {
        srcLen' := srcLen + taken;
        if more {
          StartPhase(prop, Now(), probs[..], hist);
          RestsStart(prop, all[n..], lim);
          CallRests(prop, s0, all, lim, finishMode, Start, n);
          ReplyStart(prop, s0, all, lim, finishMode, n);
          done, status := true, NeedsMoreInput;
        } else {
          LeadsTwice(prop, s0, all, lim, Start, n, Phase(), 5);
          n' := n + 5;
          assert all[n'..] == all[n..][5..];
          LeadsOnCourse(prop, s0, all, lim, finishMode, Phase(), n');
        }
      }
    }

    /** One round of DecodeToDic's loop. */
    method Turn(dicLimit: nat, src: seq<Byte>, srcLen: nat, finishMode: FinishMode,
                ghost s0: Phase, ghost all: seq<Byte>, ghost lim: nat, ghost n: nat)
      returns (done: bool, ok: bool, srcLen': nat, status: Status, ghost n': nat)
      requires Valid() && Within(dicLimit, lim) && dicLimit <= dic.Length && srcLen <= |src| && n <= |all|
          && regs.len != SPEC_LEN && Genuine(prop, s0, all, hist)
      requires OnCourse(prop, s0, all, lim, finishMode, Phase(), n) && Pending() + src[srcLen..] == all[n..]
      modifies this, probs, dic, tempBuf
      ensures var reply := Call(prop, s0, all, lim, finishMode);
              && (done ==> ok == reply.ok)
              && (done && ok ==> status == reply.status && Valid() && Phase() == reply.phase && Within(dicLimit, lim))
              && (done && ok ==>
                  srcLen' <= |src| && reply.used <= |all| && Pending() + src[srcLen'..] == all[reply.used..])
      ensures done && ok && status == NeedsMoreInput ==> srcLen' == |src|
      ensures !done ==> ok && Valid() && Within(dicLimit, lim) && srcLen' <= |src| && n' <= |all|
      ensures !done ==> status == NotSpecified && (regs.len == SPEC_LEN || old(regs.dicPos) < regs.dicPos)
      ensures !done ==> OnCourse(prop, s0, all, lim, finishMode, Phase(), n') && Pending() + src[srcLen'..] == all[n'..]
      ensures ok ==> old(regs.dicPos) <= regs.dicPos
      ensures Genuine(prop, s0, all, hist)
      ensures Wrote(old(dic[..]), dic[..], old(regs.dicPos), regs.dicPos, old(hist), hist,
          if ok then regs.dicPos else dicLimit)
    {
      hide OnlyWithin, Wrote, Steady, Carried, PhaseOf, Advance, Leads, Failed, Used, Step1, Call, Begin, CoderOf,
          OnCourse, Genuine;
      srcLen', n' := srcLen, n;
      WithinSelf(dic[..], regs.dicPos, regs.dicPos);
      WroteNothing(dic[..], dic[..], regs.dicPos, hist, regs.dicPos);
      if needFlush {
        done, ok, srcLen', status, n' := BeginStream(dicLimit, src, srcLen, finishMode, s0, all, lim, n);
        if done {
          WroteMore(old(dic[..]), dic[..], old(regs.dicPos), regs.dicPos, old(hist), hist, regs.dicPos, dicLimit);
          return;
        }
      }
      done, ok, srcLen', status, n' := Continue(dicLimit, src, srcLen', finishMode, s0, all, lim, n');
    }

    /** LzmaDec_DecodeToDic: from everything presented so far and not yet decoded, decodes what can
        be decoded up to the limit, and carries over or hands back the rest. */
    method DecodeToDic(dicLimit: nat, src: seq<Byte>, finishMode: FinishMode)
        returns (ok: bool, srcLen: nat, status: Status)
      requires Valid() && regs.dicPos <= dicLimit <= dic.Length
      modifies this, probs, dic, tempBuf
      ensures var all := old(Pending()) + src;
              var lim := |old(hist)| + dicLimit - old(regs.dicPos);
              var reply := Call(prop, old(Phase()), all, lim, finishMode);
              && ok == reply.ok
              && (ok ==>
                  status == reply.status && Valid() && Phase() == reply.phase && Within(dicLimit, lim)
                  && old(regs.dicPos) <= regs.dicPos)
              && (ok ==> srcLen <= |src| && reply.used <= |all| && Pending() + src[srcLen..] == all[reply.used..])
      ensures ok && status == NeedsMoreInput ==> srcLen == |src|
      ensures Genuine(prop, old(Phase()), old(Pending()) + src, hist)
      ensures Wrote(old(dic[..]), dic[..], old(regs.dicPos), regs.dicPos, old(hist), hist,
          if ok then regs.dicPos else dicLimit)
    {
      hide OnlyWithin, Wrote, Steady, Carried, PhaseOf, Advance, Leads, Failed, Used, Step1, Call, Begin, CoderOf,
          OnCourse, Genuine;
      ghost var s0, all := Phase(), Pending() + src;
      ghost var n: nat := 0;
      ghost var lim := |hist| + dicLimit - regs.dicPos;
      srcLen, status, ok := 0, NotSpecified, true;
      LeadsNowhere(prop, s0, all, lim);
      LeadsOnCourse(prop, s0, all, lim, finishMode, s0, 0);
      assert all[0..] == all && src[0..] == src;
      CarriedKept(prop, Now(), probs[..], dic[..], hist, Pending());
      WriteRem(dicLimit);
      Produced(prop, Now(), probs[..], dic[..], hist);
      GenuineNow(prop, s0, all, hist);
      if Pending() == [] {
        CarriedNone(prop, Now(), probs[..], hist, Pending());
      }
      while regs.len != SPEC_LEN
        invariant Valid() && Within(dicLimit, lim) && srcLen <= |src| && n <= |all| && old(regs.dicPos) <= regs.dicPos
        invariant OnCourse(prop, s0, all, lim, finishMode, Phase(), n) && Pending() + src[srcLen..] == all[n..]
        invariant Genuine(prop, s0, all, hist)
        invariant Wrote(old(dic[..]), dic[..], old(regs.dicPos), regs.dicPos, old(hist), hist, regs.dicPos)
        decreases regs.len != SPEC_LEN, dicLimit - regs.dicPos
      {
        ghost var d1, p1, h1 := dic[..], regs.dicPos, hist;
        var done;
        done, ok, srcLen, status, n := Turn(dicLimit, src, srcLen, finishMode, s0, all, lim, n);
        WroteTwice(old(dic[..]), d1, dic[..], old(regs.dicPos), p1, regs.dicPos, old(hist), h1, hist,
            if ok then regs.dicPos else dicLimit);
        if done {
          return;
        }
      }
      OverNow(prop, Now(), probs[..], dic[..], hist);
      OverReply(prop, s0, all, lim, finishMode, Phase(), n);
      WroteMore(old(dic[..]), dic[..], old(regs.dicPos), regs.dicPos, old(hist), hist, regs.dicPos, dicLimit);
      if rc.code == 0 {
        status := FinishedWithMark;
      }
      ok := rc.code == 0;
    }

    /** The decoding step of DecodeToDic's loop, from the carried-over or from the caller's input. */
    method DecodeSome(dicLimit: nat, src: seq<Byte>, checkEndMarkNow: bool, ghost a: Coder, ghost lim: nat)
      returns (done: bool, ok: bool, processed: nat, ghost k: nat)
      requires Valid() && !needFlush && regs.len == 0 && Phase() == Going(a)
      requires regs.dicPos <= dicLimit <= dic.Length && (checkEndMarkNow <==> regs.dicPos == dicLimit)
      requires lim == |hist| + if regs.dicPos < dicLimit then dicLimit - regs.dicPos else 1
      modifies this, probs, dic, tempBuf
      ensures var rest := old(Pending()) + src;
              && (done && ok ==> Valid() && Used(prop, a, rest) > |rest| && Pending() == rest && processed == |src|)
              && (done && ok ==>
                  Phase() == old(Phase()) && regs.len == 0 && regs.dicPos == old(regs.dicPos) && hist == old(hist))
              && (done && !ok ==> Used(prop, a, rest) <= |rest| && Failed(prop, a, rest, lim, checkEndMarkNow))
              && (!done ==>
                  Valid() && Leads(prop, Going(a), rest, lim, Phase(), k) && processed <= |src| && Pending() == [])
              && (!done ==> Used(prop, a, rest) <= |rest| && k <= |rest| && src[processed..] == rest[k..])
      ensures !done ==>
          !needFlush && regs.dicPos <= dicLimit && |hist| - |old(hist)| == regs.dicPos - old(regs.dicPos) >= 0
      ensures !done ==>
          regs.len == SPEC_LEN || (old(regs.dicPos) < regs.dicPos && (regs.len == 0 || regs.dicPos == dicLimit))
      ensures !done ==> ok
      ensures Genuine(prop, Going(a), old(Pending()) + src, hist)
      ensures Wrote(old(dic[..]), dic[..], old(regs.dicPos), regs.dicPos, old(hist), hist,
          if ok then regs.dicPos else dicLimit)
    {
      hide OnlyWithin, Wrote, Steady, Carried, Used, Failed, PhaseOf, Advance, Step1, Leads, CoderOk, NumProbs,
          Genuine;
      WithinSelf(dic[..], regs.dicPos, regs.dicPos);
      WroteNothing(dic[..], dic[..], regs.dicPos, hist, regs.dicPos);
      WithinSelf(dic[..], regs.dicPos, dicLimit);
      WroteNothing(dic[..], dic[..], regs.dicPos, hist, dicLimit);
      ghost var pend := Pending();
      NotYet(prop, Now(), probs[..], dic[..], hist, pend);
      if needInitState {
        InitStateReal();
        CarriedNone(prop, Now(), probs[..], hist, pend);
      }
      k := 0;
      if tempBufSize == 0 {
        assert pend + src == src;
        done, ok, processed := FromSource(dicLimit, src, checkEndMarkNow, a, lim);
        k := processed;
      } else {
        done, ok, processed := FromTemp(dicLimit, src, checkEndMarkNow, a, lim);
        k := |pend| + processed;
      }
      if !done {
        assert (pend + src)[k..] == src[processed..];
      }
    }

    /** One round of DecodeToDic's loop, past the start bytes. */
    method Continue(dicLimit: nat, src: seq<Byte>, srcLen: nat, finishMode: FinishMode,
                    ghost s0: Phase, ghost all: seq<Byte>, ghost lim: nat, ghost n: nat)
      returns (done: bool, ok: bool, srcLen': nat, status: Status, ghost n': nat)
      requires Valid() && Within(dicLimit, lim) && dicLimit <= dic.Length && srcLen <= |src| && n <= |all|
          && !needFlush && regs.len != SPEC_LEN
      requires OnCourse(prop, s0, all, lim, finishMode, Phase(), n) && Pending() + src[srcLen..] == all[n..]
      modifies this, probs, dic, tempBuf
      ensures var reply := Call(prop, s0, all, lim, finishMode);
              && (done ==> ok == reply.ok)
              && (done && ok ==> status == reply.status && Valid() && Phase() == reply.phase && Within(dicLimit, lim))
              && (done && ok ==> regs.dicPos == old(regs.dicPos))
              && (done && ok ==>
                  srcLen' <= |src| && reply.used <= |all| && Pending() + src[srcLen'..] == all[reply.used..])
      ensures done && ok && status == NeedsMoreInput ==> srcLen' == |src|
      ensures !done ==> Valid() && Within(dicLimit, lim) && srcLen' <= |src| && n' <= |all| && status == NotSpecified
      ensures !done ==> OnCourse(prop, s0, all, lim, finishMode, Phase(), n') && Pending() + src[srcLen'..] == all[n'..]
      ensures !done ==>
          !needFlush && old(regs.dicPos) <= regs.dicPos && (regs.len == SPEC_LEN || old(regs.dicPos) < regs.dicPos)
      ensures !done ==> ok
      ensures Genuine(prop, s0, all, hist)
      ensures Wrote(old(dic[..]), dic[..], old(regs.dicPos), regs.dicPos, old(hist), hist,
          if ok then regs.dicPos else dicLimit)
    {
      hide OnlyWithin, Wrote, Steady, Carried, PhaseOf, Advance, Leads, Used, Step1, Call, CoderOf, Genuine;
      Produced(prop, Now(), probs[..], dic[..], hist);
      WithinSelf(dic[..], regs.dicPos, regs.dicPos);
      WroteNothing(dic[..], dic[..], regs.dicPos, hist, regs.dicPos);
      WithinSelf(dic[..], regs.dicPos, dicLimit);
      WroteNothing(dic[..], dic[..], regs.dicPos, hist, dicLimit);
      srcLen', n', status, ok := srcLen, n, NotSpecified, true;
      GoingFacts(prop, Now(), probs[..], dic[..], hist);
      ghost var a, rest := Phase().a, all[n..];
      GenuineThere(prop, s0, all, lim, Going(a), n, hist);
      var checkEndMarkNow := false;
      if regs.dicPos >= dicLimit {
        RestsGoing(prop, a, rest, lim);
        CallRests(prop, s0, all, lim, finishMode, Going(a), n);
        ReplyGoing(prop, s0, all, lim, finishMode, a, n);
        if regs.len == 0 && rc.code == 0 {
          return true, true, srcLen, MaybeFinishedWithoutMark, n;
        }
        if finishMode == FinishAny {
          return true, true, srcLen, NotFinished, n;
        }
        if regs.len != 0 {
          return true, false, srcLen, NotFinished, n;
        }
        checkEndMarkNow := true;
      }
      ghost var lim' := if checkEndMarkNow then lim + 1 else lim;
      var processed;
      ghost var k;
      done, ok, processed, k := DecodeSome(dicLimit, src[srcLen..], checkEndMarkNow, a, lim');
      srcLen' := srcLen + processed;
      GenuineLater(prop, s0, all, lim, Going(a), n, hist);
      if checkEndMarkNow {
        if !done {
          OverNow(prop, Now(), probs[..], dic[..], hist);
        }
        EndDemanded(prop, s0, all, lim, a, n, Phase(), k);
      } else {
        Ordinary(prop, s0, all, lim, finishMode, a, n, Phase(), k);
      }
      if done && ok {
        status := NeedsMoreInput;
      }
      if !done {
        n' := n + k;
        assert all[n'..] == rest[k..];
      }
    }
  }

  /** What has been written is part of what the phase has decoded. */
  lemma Produced(p: Props, f: Fields, probs: seq<Prob>, dic: seq<Byte>, h: seq<Byte>)
    requires Steady(p, f, probs, dic, h)
    ensures h <= Decoded(PhaseOf(p, f, probs, h))
  {
    hide Linked, CoderOk, Extend;
    ExtendNone(h, f.l.rep0);
    if !f.needFlush && !f.needInit && f.l.len < SPEC_LEN {
      ExtendPrefix(h, f.l.rep0, f.l.len);
    }
  }

  lemma NotYet(p: Props, f: Fields, probs: seq<Prob>, dic: seq<Byte>, h: seq<Byte>, pend: seq<Byte>)
    requires Steady(p, f, probs, dic, h) && Carried(p, f, probs, h, pend) && !f.needFlush
    ensures f.needInit ==> pend == []
  {
    hide Used, Linked;
  }

  lemma GoingFacts(p: Props, f: Fields, probs: seq<Prob>, dic: seq<Byte>, h: seq<Byte>)
    requires Steady(p, f, probs, dic, h) && !f.needFlush && f.l.len < SPEC_LEN
    ensures PhaseOf(p, f, probs, h).Going?
    ensures |PhaseOf(p, f, probs, h).a.hist| == |h| + f.l.len && PhaseOf(p, f, probs, h).a.code == f.code
  {
    hide Linked;
  }

  /** What a step below the limit comes to. */
  lemma Ordinary(p: Props, s0: Phase, all: seq<Byte>, lim: nat, mode: FinishMode, a: Coder, n: nat, t: Phase, k: nat)
    requires p.lc <= 8 && n <= |all| && Leads(p, s0, all, lim, Going(a), n) && |a.hist| < lim
    ensures var rest := all[n..];
            && (Used(p, a, rest) > |rest| ==> Call(p, s0, all, lim, mode) == Reply(true, NeedsMoreInput, Going(a), n))
            && (Advance(p, Going(a), rest, lim).phase.Corrupt? ==> !Call(p, s0, all, lim, mode).ok)
            && (Leads(p, Going(a), rest, lim, t, k) ==> OnCourse(p, s0, all, lim, mode, t, n + k))
  {
    hide Advance, Used, Call, Leads;
    var rest := all[n..];
    if Used(p, a, rest) > |rest| {
      RestsGoing(p, a, rest, lim);
      CallRests(p, s0, all, lim, mode, Going(a), n);
      ReplyGoing(p, s0, all, lim, mode, a, n);
    }
    if Advance(p, Going(a), rest, lim).phase.Corrupt? {
      CallCorrupt(p, s0, all, lim, mode, Going(a), n);
    }
    if Leads(p, Going(a), rest, lim, t, k) {
      LeadsTwice(p, s0, all, lim, Going(a), n, t, k);
      LeadsOnCourse(p, s0, all, lim, mode, t, n + k);
    }
  }

  lemma StartFacts(p: Props, f: Fields, probs: seq<Prob>, dic: seq<Byte>, h: seq<Byte>, pend: seq<Byte>)
    requires Steady(p, f, probs, dic, h) && f.needFlush && Carried(p, f, probs, h, pend)
    ensures |pend| < 5 && f.l.len == 0
  {
    hide Used, Linked;
  }

  lemma StartPhase(p: Props, f: Fields, probs: seq<Prob>, h: seq<Byte>)
    requires f.needFlush
    ensures PhaseOf(p, f, probs, h) == Start
  {
  }

  lemma CarriedStart(p: Props, f: Fields, probs: seq<Prob>, h: seq<Byte>, pend: seq<Byte>)
    requires p.lc <= 8 && f.needFlush && |pend| < 5
    ensures Carried(p, f, probs, h, pend)
  {
    hide Used;
  }

  /** WriteRem has nothing to do while input is carried over. */
  lemma CarriedKept(p: Props, f: Fields, probs: seq<Prob>, dic: seq<Byte>, h: seq<Byte>, pend: seq<Byte>)
    requires Steady(p, f, probs, dic, h) && Carried(p, f, probs, h, pend)
    ensures pend != [] ==> f.l.len == 0
    ensures f.needFlush ==> f.l.len == 0
  {
    hide Used, Linked;
  }

  lemma OverNow(p: Props, f: Fields, probs: seq<Prob>, dic: seq<Byte>, h: seq<Byte>)
    requires f.l.len == SPEC_LEN && Steady(p, f, probs, dic, h)
    ensures PhaseOf(p, f, probs, h) == Over(CoderOf(p, f, probs, h)) && CoderOf(p, f, probs, h).code == f.code
  {
  }

  lemma OverReply(p: Props, s: Phase, src: seq<Byte>, limit: nat, mode: FinishMode, t: Phase, n: nat)
    requires p.lc <= 8 && OnCourse(p, s, src, limit, mode, t, n) && t.Over?
    ensures n <= |src|
    ensures if t.a.code == 0 then Call(p, s, src, limit, mode) == Reply(true, FinishedWithMark, t, n)
        else !Call(p, s, src, limit, mode).ok
  {
    hide Call, Leads;
  }

  lemma TooLittle(p: Props, f: Fields, probs: seq<Prob>, h: seq<Byte>, pend: seq<Byte>, a: Coder)
    requires p.lc <= 8 && Carried(p, f, probs, h, pend) && !f.needFlush && pend != []
        && PhaseOf(p, f, probs, h) == Going(a)
    ensures Used(p, a, pend) > |pend| && |pend| < REQUIRED_INPUT_MAX
  {
    hide Used;
  }

  lemma FailedExtends(p: Props, a: Coder, src: seq<Byte>, more: seq<Byte>, lim: nat, atLimit: bool)
    requires p.lc <= 8 && Used(p, a, src) <= |src| && Failed(p, a, src, lim, atLimit)
    ensures Failed(p, a, src + more, lim, atLimit)
  {
    hide Used, Step1, Advance;
    StepExtends(p, a, src, more);
    AdvanceExtends(p, Going(a), src, more, lim);
  }

  lemma Begun(p: Props, f: Fields, probs: seq<Prob>, dic: seq<Byte>, h: seq<Byte>, pend: seq<Byte>)
    requires Steady(p, f, probs, dic, h) && f.needFlush && f.l.len == 0 && |pend| == 5
    ensures var f' := f.(range := 0xFFFF_FFFF, code := BigEndian(pend[1], pend[2], pend[3], pend[4]),
        needFlush := false);
            Steady(p, f', probs, dic, h) && PhaseOf(p, f', probs, h) == Going(Begin(p, pend))
  {
    hide Linked, NumProbs;
  }

  method CopyBytes(dst: array<Byte>, at: nat, src: seq<Byte>)
    requires at + |src| <= dst.Length
    modifies dst
    ensures dst[at..at + |src|] == src && dst[..at] == old(dst[..at])
  {
    for i := 0 to |src|
      invariant forall k :: 0 <= k < i ==> dst[at + k] == src[k]
      invariant dst[..at] == old(dst[..at])
    {
      dst[at + i] := src[i];
    }
  }

  lemma Initialized(p: Props, f: Fields, probs: seq<Prob>, dic: seq<Byte>, h: seq<Byte>)
    requires Steady(p, f, probs, dic, h) && !f.needFlush && f.needInit
    ensures var f' := f.(l := f.l.(rep0 := 1, rep1 := 1, rep2 := 1, rep3 := 1, state := 0), needInit := false);
            Steady(p, f', InitProbs(p), dic, h) && PhaseOf(p, f', InitProbs(p), h) == PhaseOf(p, f, probs, h)
  {
    hide Holds, NumProbs;
    LinkedState(p, dic, f.check, h, f.l, f.l.(rep0 := 1, rep1 := 1, rep2 := 1, rep3 := 1, state := 0));
    ExtendNone(h, 1);
  }

  lemma IsHeld(p: Props, f: Fields, probs: seq<Prob>, dic: seq<Byte>, h: seq<Byte>, a: Coder)
    requires Steady(p, f, probs, dic, h) && !f.needFlush && !f.needInit && f.l.len == 0
        && PhaseOf(p, f, probs, h) == Going(a)
    ensures a == Held(f.l, Rc(f.range, f.code, 0), probs, a.hist) && a.hist == h && Linked(p, f.l, f.check, dic, a.hist)
  {
    hide CoderOk, Linked;
    ExtendNone(h, f.l.rep0);
  }

  lemma CarriedNow(p: Props, f: Fields, probs: seq<Prob>, h: seq<Byte>, pend: seq<Byte>, a: Coder)
    requires PropsOk(p) && CoderOk(p, a) && !f.needFlush && !f.needInit && f.l.len == 0
        && PhaseOf(p, f, probs, h) == Going(a)
    requires Used(p, a, pend) > |pend|
    ensures Carried(p, f, probs, h, pend)
  {
    hide CoderOk, Used;
    UsedSmall(p, a, pend);
  }

  lemma CarriedNone(p: Props, f: Fields, probs: seq<Prob>, h: seq<Byte>, pend: seq<Byte>)
    requires p.lc <= 8 && pend == []
    ensures Carried(p, f, probs, h, pend)
  {
    hide Used;
  }

  /** A symbol that is not of the match kind is not the end mark. */
  lemma NoEndMark(p: Props, a: Coder, src: seq<Byte>, lim: nat)
    requires p.lc <= 8 && Kind(One(p, a, src).val) != DummyMatch
    ensures Failed(p, a, src, lim, true)
  {
    hide One, Advance, Apply;
    var r := One(p, a, src);
    ApplyEnd(p, a, Normalize(r.rc, src), r.probs, r.val);
  }

  /** While the dictionary is not full there is room in it. */
  lemma Room(p: Props, f: Fields, probs: seq<Prob>, dic: seq<Byte>, h: seq<Byte>)
    requires Steady(p, f, probs, dic, h)
    ensures f.check == 0 ==> f.l.processedPos == |h| < p.dicSize
    ensures PropsOk(p)
  {
  }

  lemma FailedLater(p: Props, a0: Coder, src: seq<Byte>, lim: nat, a: Coder, n: nat, atLimit: bool)
    requires p.lc <= 8 && Leads(p, Going(a0), src, lim, Going(a), n) && Failed(p, a, src[n..], lim, atLimit)
    requires atLimit ==> a == a0 && n == 0
    ensures Failed(p, a0, src, lim, atLimit)
  {
    hide Advance, Step1;
    assert src[0..] == src;
  }

  lemma GoingOk(p: Props, f: Fields, probs: seq<Prob>, dic: seq<Byte>, h: seq<Byte>, a: Coder)
    requires Steady(p, f, probs, dic, h) && !f.needFlush && !f.needInit && f.l.len < SPEC_LEN
    requires PhaseOf(p, f, probs, h).Over? || PhaseOf(p, f, probs, h) == Going(a)
    ensures CoderOk(p, a) && f.range >= TOP && PhaseOf(p, f, probs, h) == Going(a)
    ensures f.l.len == 0 ==> a.hist == h
  {
    hide CoderOk, Linked;
  }

  lemma StillGoing(p: Props, f: Fields, probs: seq<Prob>, dic: seq<Byte>, h: seq<Byte>)
    requires Steady(p, f, probs, dic, h) && !f.needFlush && !f.needInit && f.l.len < SPEC_LEN
    ensures PhaseOf(p, f, probs, h).Going? && CoderOk(p, PhaseOf(p, f, probs, h).a)
  {
    hide CoderOk, Linked;
  }

  lemma Clamped(p: Props, f: Fields, probs: seq<Prob>, dic: seq<Byte>, h: seq<Byte>)
    requires Steady(p, f, probs, dic, h) && f.l.len > SPEC_LEN
    ensures var f' := f.(l := f.l.(len := SPEC_LEN));
        Steady(p, f', probs, dic, h) && PhaseOf(p, f', probs, h) == PhaseOf(p, f, probs, h)
  {
    hide CoderOk, Holds;
    LinkedState(p, dic, f.check, h, f.l, f.l.(len := SPEC_LEN));
  }

  /** After DecodeReal, with the dictionary check brought up to date, everything is in order again. */
  lemma LeftSteady(p: Props, l: Regs, check: Word, rc: Rc, probs: seq<Prob>, dic: seq<Byte>, src: seq<Byte>, limit: nat,
                   start: nat, a0: Coder, lim: nat, l0: Regs, a: Coder, g: seq<Byte>, check': Word)
    requires PropsOk(p) && |probs| == NumProbs(p) && start <= |src| && rc.range >= TOP
    requires Left(p, l, check, rc, probs, dic, src, limit, start, a0, lim, l0, FlowOf(l.len), a, g)
    requires check' == if l.processedPos >= p.dicSize then p.dicSize else check
    ensures var f := Fields(l, check', rc.range, rc.code, false, false);
            && Steady(p, f, probs, dic, g)
            && PhaseOf(p, f, probs, g) == (if l.len >= SPEC_LEN then Over(a) else Going(a))
            && Leads(p, Going(a0), src[start..], lim, PhaseOf(p, f, probs, g), rc.buf - start)
    ensures start + Used(p, a0, src[start..]) <= rc.buf <= |src| && l0.dicPos <= l.dicPos <= limit
    ensures |g| - |a0.hist| == l.dicPos - l0.dicPos && (l.len < SPEC_LEN ==> l0.dicPos < l.dicPos)
  {
    hide CoderOk, Linked, NumProbs, Used, Leads, Extend, RepOk, Steady, PhaseOf, Advance;
    NormalizeNot(rc, src);
    NewCheck(p, l, check, dic, g, check');
    if l.len >= SPEC_LEN {
      OverLeads(p, Going(a0), src[start..], lim, a, rc.buf - start);
      SteadyEnd(p, l, check', rc, probs, dic, a, g);
    } else {
      SteadyGoing(p, l, check', rc, probs, dic, src, limit, a, g);
    }
  }

  lemma NewCheck(p: Props, l: Regs, check: Word, dic: seq<Byte>, g: seq<Byte>, check': Word)
    requires PropsOk(p) && Linked(p, l, check, dic, g)
    requires check' == if l.processedPos >= p.dicSize then p.dicSize else check
    ensures Linked(p, l, check', dic, g) && (check' == 0 ==> |g| < p.dicSize)
  {
    hide Holds;
  }

  lemma SteadyEnd(p: Props, l: Regs, check: Word, rc: Rc, probs: seq<Prob>, dic: seq<Byte>, a: Coder, g: seq<Byte>)
    requires PropsOk(p) && |probs| == NumProbs(p) && rc.range >= TOP && l.len >= SPEC_LEN
    requires a == Held(l, rc, probs, g) && CoderOk(p, a) && Linked(p, l, check, dic, g)
        && (check == 0 ==> |g| < p.dicSize)
    ensures var f := Fields(l, check, rc.range, rc.code, false, false);
        Steady(p, f, probs, dic, g) && PhaseOf(p, f, probs, g) == Over(a)
  {
    hide CoderOk, Linked, NumProbs;
  }

  lemma SteadyGoing(p: Props, l: Regs, check: Word, rc: Rc, probs: seq<Prob>, dic: seq<Byte>, src: seq<Byte>,
      limit: nat, a: Coder, g: seq<Byte>)
    requires PropsOk(p) && |probs| == NumProbs(p) && rc.range >= TOP && l.len < SPEC_LEN && g != []
        && RepOk(p, g, l.rep0)
    requires a == Held(l, rc, probs, Extend(g, l.rep0, l.len)) && CoderOk(p, a)
    requires Linked(p, l, check, dic, g) && (check == 0 ==> |g| < p.dicSize)
    ensures var f := Fields(l, check, rc.range, rc.code, false, false);
        Steady(p, f, probs, dic, g) && PhaseOf(p, f, probs, g) == Going(a)
  {
    hide CoderOk, Linked, NumProbs, Extend, RepOk;
  }

  lemma OverLeads(p: Props, s: Phase, src: seq<Byte>, lim: nat, a: Coder, n: nat)
    requires p.lc <= 8 && n <= |src| && Advance(p, s, src, lim) == Reached(Over(a), n)
    ensures Leads(p, s, src, lim, Over(a), n)
  {
    LeadsStop(p, s, src, lim, lim);
  }

  /** The body of LzmaDec_DecodeReal on its locals. */
  method RealLoop(p: Props, probs: array<Prob>, dic: array<Byte>, l0: Regs, check: Word, rc0: Rc, src: seq<Byte>,
      limit: nat, bufLimit: int,
                  ghost f: Fields, ghost h: seq<Byte>, ghost a0: Coder, ghost lim: nat)
    returns (ok: bool, l: Regs, rc: Rc, ghost a: Coder, ghost g: seq<Byte>)
    requires Steady(p, f, probs[..], dic[..], h) && !f.needFlush && !f.needInit && f.l.len == 0
        && PhaseOf(p, f, probs[..], h) == Going(a0)
    requires f == Fields(l0, check, rc0.range, rc0.code, false, false) && p.lc <= 8 && p.dicSize >= 4096 && PropsOk(p)
    requires rc0.buf <= |src| && Used(p, a0, src[rc0.buf..]) <= |src| - rc0.buf
    requires l0.dicPos <= limit <= dic.Length && (check == 0 ==> |h| + limit - l0.dicPos <= p.dicSize)
    requires l0.dicPos < limit || Kind(One(p, a0, src[rc0.buf..]).val) == DummyMatch
    requires bufLimit + REQUIRED_INPUT_MAX <= |src| || bufLimit <= 0
    requires if l0.dicPos < limit then |h| + limit - l0.dicPos <= lim else lim == |h| + 1
    modifies probs, dic
    ensures !ok ==> Failed(p, a0, src[rc0.buf..], lim, l0.dicPos == limit)
    ensures ok ==>
        Left(p, l, check, rc, probs[..], dic[..], src, limit, rc0.buf, a0, lim, l0, FlowOf(l.len), a, g)
        && rc.range >= TOP
    ensures if ok then Wrote(old(dic[..]), dic[..], l0.dicPos, l.dicPos, h, g, l.dicPos)
        else OnlyWithin(old(dic[..]), dic[..], l0.dicPos, limit)
  {
    hide OnlyWithin, Wrote, Steady, Left, Used, One, AtRest, Failed, PhaseOf, Normalize, Kind;
    AtStart(p, f, rc0.buf, probs[..], dic[..], src, h, a0);
    var flow, r;
    flow, l, r, a, g := Rounds(p, probs, dic, l0, check, rc0, src, limit, bufLimit, a0, lim);
    if flow == DataError {
      WithinMore(old(dic[..]), dic[..], l0.dicPos, l.dicPos, limit);
      WasFailed(p, l, check, r, probs[..], dic[..], src, limit, rc0.buf, a0, lim, l0, a, g);
      return false, l0, rc0, a, g;
    }
    LeftInside(p, l, check, r, probs[..], dic[..], src, limit, rc0.buf, a0, lim, l0, flow, a, g);
    rc := NormalizeRange(r, src);
    LeftWrote(p, l, check, r, probs[..], old(dic[..]), dic[..], src, limit, rc0.buf, a0, lim, l0, flow, a, g);
    ok := true;
  }

  lemma LeftWrote(p: Props, l: Regs, check: Word, rc: Rc, probs: seq<Prob>, was: seq<Byte>, dic: seq<Byte>,
      src: seq<Byte>, limit: nat,
                  start: nat, a0: Coder, lim: nat, l0: Regs, flow: Flow, a: Coder, g: seq<Byte>)
    requires p.lc <= 8 && start <= |src| && flow != DataError
    requires Left(p, l, check, rc, probs, dic, src, limit, start, a0, lim, l0, flow, a, g)
    requires OnlyWithin(was, dic, l0.dicPos, l.dicPos) && a0.hist <= g && l0.dicPos <= l.dicPos
    ensures Wrote(was, dic, l0.dicPos, l.dicPos, a0.hist, g, l.dicPos)
  {
    hide Advance, Used, Leads, Linked, CoderOk, Extend, RepOk, Normalize, Step1, OnlyWithin, Wrote, Holds;
    LinkedHolds(p, l, check, dic, g);
    WroteTail(was, dic, l0.dicPos, l.dicPos, a0.hist, g);
  }

  function FlowOf(remainLen: nat): Flow {
    if remainLen >= SPEC_LEN then Break else Continue
  }

  /** Why a stretch of decoding may end in a data error: the stream is bad, or the end mark was
      demanded and is not there. */
  ghost predicate Failed(p: Props, a0: Coder, src: seq<Byte>, lim: nat, atLimit: bool)
    requires p.lc <= 8
  {
    Advance(p, Going(a0), src, lim).phase.Corrupt? || (atLimit && !Step1(p, a0, src).End?)
  }

  lemma WasFailed(p: Props, l: Regs, check: Word, rc: Rc, probs: seq<Prob>, dic: seq<Byte>, src: seq<Byte>, limit: nat,
                  start: nat, a0: Coder, lim: nat, l0: Regs, a: Coder, g: seq<Byte>)
    requires p.lc <= 8 && start <= |src|
    requires Left(p, l, check, rc, probs, dic, src, limit, start, a0, lim, l0, DataError, a, g)
    ensures Failed(p, a0, src[start..], lim, l0.dicPos == limit)
  {
    hide Advance, Step1;
  }

  lemma LeftInside(p: Props, l: Regs, check: Word, rc: Rc, probs: seq<Prob>, dic: seq<Byte>, src: seq<Byte>, limit: nat,
                   start: nat, a0: Coder, lim: nat, l0: Regs, flow: Flow, a: Coder, g: seq<Byte>)
    requires p.lc <= 8 && start <= |src| && flow != DataError
    requires Left(p, l, check, rc, probs, dic, src, limit, start, a0, lim, l0, flow, a, g)
    ensures Normalize(rc, src).buf <= |src| && Normalize(rc, src).range >= TOP
    ensures Left(p, l, check, Normalize(rc, src), probs, dic, src, limit, start, a0, lim, l0, flow, a, g)
    ensures flow == FlowOf(l.len)
  {
    hide Advance, Used, Leads, Linked, CoderOk, Extend, RepOk, Normalize;
    NormalizeOk(rc, src);
  }

  lemma AtStart(p: Props, f: Fields, buf: nat, probs: seq<Prob>, dic: seq<Byte>, src: seq<Byte>, h: seq<Byte>,
      a0: Coder)
    requires Steady(p, f, probs, dic, h) && !f.needFlush && !f.needInit && f.l.len == 0
        && PhaseOf(p, f, probs, h) == Going(a0)
    requires buf <= |src|
    ensures AtRest(p, f.l, f.check, Rc(f.range, f.code, buf), probs, dic, src, a0, a0.hist) && a0.hist == h
    ensures f.range >= TOP && |probs| == NumProbs(p)
  {
    hide Linked, CoderOk, NumProbs;
    NormalizeNot(Rc(f.range, f.code, buf), src);
  }

  /** The body of LzmaDec_WriteRem on its locals. */
  method FlushRest(p: Props, dic: array<Byte>, l: Regs, checkDicSize: Word, limit: nat,
                   ghost f: Fields, ghost probs: seq<Prob>, ghost h: seq<Byte>)
    returns (m: Regs, check: Word, ghost g: seq<Byte>)
    requires Steady(p, f, probs, dic[..], h) && 0 < l.len < SPEC_LEN && l.dicPos <= limit <= dic.Length
    requires f.l == l && f.check == checkDicSize
    modifies dic
    ensures var f' := f.(l := m, check := check);
            Steady(p, f', probs, dic[..], g) && PhaseOf(p, f', probs, g) == PhaseOf(p, f, probs, h)
    ensures m == l.(dicPos := m.dicPos, processedPos := m.processedPos, len := m.len)
    ensures l.dicPos <= m.dicPos <= limit && |g| - |h| == m.dicPos - l.dicPos && m.len <= l.len
        && (m.len == 0 || m.dicPos == limit)
    ensures Wrote(old(dic[..]), dic[..], l.dicPos, m.dicPos, h, g, m.dicPos)
  {
    hide Steady, PhaseOf, Holds, OnlyWithin, Wrote;
    var len := l.len;
    if limit - l.dicPos < len {
      len := limit - l.dicPos;
    }
    ghost var was := dic[..];
    RestSteady(p, f, probs, was, h, len);
    check := checkDicSize;
    if checkDicSize == 0 && p.dicSize - l.processedPos <= len {
      check := p.dicSize;
    }
    var pos := CopyRest(dic, l.dicPos, l.rep0, len, h);
    m := l.(dicPos := pos, processedPos := (l.processedPos + len) % WORD, len := l.len - len);
    g := Extend(h, l.rep0, len);
    ExtendPrefix(h, l.rep0, len);
    WroteTail(was, dic[..], l.dicPos, pos, h, g);
    RestWritten(p, f, f.(l := m, check := check), probs, was, dic[..], h, len);
  }

  lemma RestSteady(p: Props, f: Fields, probs: seq<Prob>, dic: seq<Byte>, h: seq<Byte>, len: nat)
    requires Steady(p, f, probs, dic, h) && 0 < f.l.len < SPEC_LEN
    ensures Holds(dic, f.l.dicPos, h) && 1 <= f.l.rep0 <= |h| && f.l.rep0 <= |dic|
    ensures f.check == 0 ==> f.l.processedPos < p.dicSize
    ensures p.dicSize >= 4096
  {
    RepReach(p, h, f.l.rep0);
    InDictionary(p, f.l, f.check, dic, h, f.l.rep0);
  }

  lemma RestWritten(p: Props, f: Fields, f': Fields, probs: seq<Prob>, dic: seq<Byte>, dic': seq<Byte>, h: seq<Byte>,
      len: nat)
    requires Steady(p, f, probs, dic, h) && 0 < f.l.len < SPEC_LEN && len <= f.l.len && |dic'| == |dic|
    requires f' ==
        f.(l := f.l.(dicPos := f.l.dicPos + len, processedPos := (f.l.processedPos + len) % WORD, len := f.l.len - len),
                      check := if f.check == 0 && p.dicSize - f.l.processedPos <= len then p.dicSize else f.check)
    requires Holds(dic', f'.l.dicPos, Extend(h, f.l.rep0, len))
    ensures Steady(p, f', probs, dic', Extend(h, f.l.rep0, len))
    ensures PhaseOf(p, f', probs, Extend(h, f.l.rep0, len)) == PhaseOf(p, f, probs, h)
  {
    hide Holds, Extend, CoderOk, RepOk, NumProbs;
    ExtendTwice(h, f.l.rep0, len, f.l.len - len);
    RepStill(p, h, Extend(h, f.l.rep0, len), f.l.rep0);
    ModSum(|h|, len);
  }
}

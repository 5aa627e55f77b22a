/** The decoder's other entry points: LzmaDec_DecodeToBuf, LzmaProps_Decode and LzmaDecode. */
module LzmaInterface {
  import opened Basics
  import opened RangeCoder
  import opened DecisionTree
  import opened History
  import opened LzmaStream
  import opened LzmaCore
  import opened LzmaDecoder

  // ----- properties

  datatype Result<T> = Ok(value: T) | Unsupported

  /** LzmaProps_Decode. */
  function PropsDecode(data: seq<Byte>): (r: Result<Props>)
    ensures r.Ok? ==> PropsOk(r.value)
  {
    if |data| < 5 then Unsupported
    else
      var dicSize := BigEndian(data[4], data[3], data[2], data[1]);
      var d := data[0];
      if d >= 9 * 5 * 5 then Unsupported
      else Ok(Props(d % 9, d / 9 % 5, d / 9 / 5, if dicSize < 4096 then 4096 else dicSize))
  }

  /** The first byte is lc + 9 * lp + 45 * pb, and the other four are the dictionary size, lowest byte
      first, of which the least is 4096; nothing else is accepted, and nothing else is meant. */
  lemma PropsMean(data: seq<Byte>, lc: nat, lp: nat, pb: nat)
    requires |data| >= 5 && lc <= 8 && lp <= 4
    ensures PropsDecode(data).Ok? <==> data[0] < 225
    ensures data[0] == lc + 9 * lp + 45 * pb && pb <= 4 ==>
              var size: int := (data[1] as int) + 0x100 * (data[2] as int) + 0x1_0000 * (data[3] as int)
                  + 0x100_0000 * (data[4] as int);
              PropsDecode(data) == Ok(Props(lc, lp, pb, if size < 4096 then 4096 else size))
  {
    if data[0] == lc + 9 * lp + 45 * pb {
      var d: int := data[0];
      DivSmall(d, 9, lp + 5 * pb, lc);
      DivSmall(d / 9, 5, pb, lp);
    }
  }

  /** The five bytes that stand for the given properties. */
  function PropsEncode(p: Props): seq<Byte>
    requires PropsOk(p)
  {
    [(p.pb * 5 + p.lp) * 9 + p.lc, p.dicSize % 0x100, p.dicSize / 0x100 % 0x100, p.dicSize / 0x1_0000 % 0x100,
        p.dicSize / 0x100_0000]
  }

  /** Every admissible combination of lc, lp, pb and dictionary size is what some five bytes mean. */
  lemma PropsRoundTrip(p: Props)
    requires PropsOk(p)
    ensures PropsDecode(PropsEncode(p)) == Ok(p)
  {
    hide BigEndian;
    var data := PropsEncode(p);
    var d: int := data[0];
    DivSmall(d, 9, p.pb * 5 + p.lp, p.lc);
    DivSmall(d / 9, 5, p.pb, p.lp);
    LittleEndian(p.dicSize);
  }

  lemma DivSmall(n: nat, m: nat, q: nat, r: nat)
    requires m == 5 || m == 9
    requires n == q * m + r && r < m
    ensures n / m == q && n % m == r
  {
    if m == 5 {
      assert (q * 5 + r) / 5 == q;
    } else {
      assert (q * 9 + r) / 9 == q;
    }
  }

  lemma LittleEndian(n: Word)
    ensures BigEndian(n / 0x100_0000, n / 0x1_0000 % 0x100, n / 0x100 % 0x100, n % 0x100) == n
  {
    Thrice(n);
    Thrice(n / 0x100);
    assert n / 0x1_0000 == n / 0x100 / 0x100 && n / 0x100_0000 == n / 0x1_0000 / 0x100;
  }

  lemma Thrice(n: nat)
    ensures n == 0x100 * (n / 0x100) + n % 0x100
  {
  }

  // ----- the buffer interface

  lemma HistInside(p: Props, f: Fields, probs: seq<Prob>, dic: seq<Byte>, h: seq<Byte>)
    requires Steady(p, f, probs, dic, h)
    ensures h <= Decoded(PhaseOf(p, f, probs, h))
    ensures Holds(dic, f.l.dicPos, h) && f.l.dicPos <= |dic| && (|h| == f.l.dicPos || p.dicSize <= |dic|)
  {
    hide Holds, CoderOk, Extend;
    LinkedHolds(p, f.l, f.check, dic, h);
    Produced(p, f, probs, dic, h);
  }

  lemma PrefixOf(h: seq<Byte>, g: seq<Byte>, a: seq<Byte>, b: seq<Byte>)
    requires h <= a <= b && g <= b && |h| <= |g|
    ensures h <= g
  {
  }

  /** A full dictionary is continued at its start. */
  lemma Wrapped(p: Props, f: Fields, probs: seq<Prob>, dic: seq<Byte>, h: seq<Byte>)
    requires Steady(p, f, probs, dic, h) && f.l.dicPos == |dic| && p.dicSize <= |dic|
    ensures var f' := f.(l := f.l.(dicPos := 0));
        Steady(p, f', probs, dic, h) && PhaseOf(p, f', probs, h) == PhaseOf(p, f, probs, h)
    ensures forall pend: seq<Byte> :: Carried(p, f, probs, h, pend) ==>
        Carried(p, f.(l := f.l.(dicPos := 0)), probs, h, pend)
  {
    hide Holds, CoderOk, Used;
    HoldsWrap(dic, h);
  }

  method CopyOut(dest: array<Byte>, at: nat, dic: array<Byte>, from: nat, count: nat)
    requires at + count <= dest.Length && from + count <= dic.Length && dest != dic
    modifies dest
    ensures dest[..at + count] == old(dest[..at]) + dic[from..from + count]
    ensures dest[at + count..] == old(dest[at + count..])
  {
    for i := 0 to count
      invariant dest[at + i..] == old(dest[at + i..])
      invariant dest[..at + i] == old(dest[..at]) + dic[from..from + i]
    {
      ghost var before := dest[..at + i];
      dest[at + i] := dic[from + i];
      assert dest[..at + i + 1] == before + [dic[from + i]];
      assert dic[from..from + i + 1] == dic[from..from + i] + [dic[from + i]];
    }
  }

  /** The destination has gained, from `at` on, exactly what the history has gained, and is unchanged
      before and behind that. */
  ghost predicate Delivered(d: seq<Byte>, d': seq<Byte>, at: nat, end: nat, h: seq<Byte>, h': seq<Byte>) {
    && at <= end <= |d'| == |d| && h <= h' && |h'| - |h| == end - at
    && d'[..at] == d[..at] && d'[at..end] == h'[|h|..] && d'[end..] == d[end..]
  }

  lemma DeliveredNothing(d: seq<Byte>, h: seq<Byte>)
    ensures Delivered(d, d, 0, 0, h, h)
  {
  }

  lemma DeliveredTwice(d: seq<Byte>, d': seq<Byte>, d'': seq<Byte>, mid: nat, end: nat, h: seq<Byte>, h': seq<Byte>,
      h'': seq<Byte>)
    requires Delivered(d, d', 0, mid, h, h') && Delivered(d', d'', mid, end, h', h'')
    ensures Delivered(d, d'', 0, end, h, h'')
  {
    assert d''[0..end] == d''[..mid] + d''[mid..end];
    assert h''[|h|..] == h''[|h|..|h'|] + h''[|h'|..];
    assert h''[|h|..|h'|] == h''[..|h'|][|h|..];
    assert d'[..mid] == d'[0..mid];
    assert d''[end..] == d'[end..] == d'[mid..][end - mid..] == d[mid..][end - mid..];
  }

  /** LzmaDec_DecodeToBuf: decodes through the circular dictionary into the caller's buffer, with
      the same answer, phase and use of input as one call into a dictionary without end. */
  method DecodeToBuf(p: LzmaDec, dest: array<Byte>, outLen: nat, src: seq<Byte>, finishMode: FinishMode)
    returns (ok: bool, destLen: nat, srcLen: nat, status: Status)
    requires p.Valid() && p.prop.dicSize <= p.dic.Length && outLen <= dest.Length && dest != p.dic && dest != p.tempBuf
    modifies p, p.probs, p.dic, p.tempBuf, dest
    ensures var all := old(p.Pending()) + src;
            var reply := Call(p.prop, old(p.Phase()), all, |old(p.hist)| + outLen, finishMode);
            && ok == reply.ok
            && (ok ==> status == reply.status && p.Valid() && p.Phase() == reply.phase)
            && (ok ==> srcLen <= |src| && reply.used <= |all| && p.Pending() + src[srcLen..] == all[reply.used..])
    ensures destLen <= outLen && Delivered(old(dest[..]), dest[..], 0, destLen, old(p.hist), p.hist)
    ensures ok && destLen < outLen ==> p.hist == Decoded(p.Phase())
    ensures Genuine(p.prop, old(p.Phase()), old(p.Pending()) + src, p.hist)
  {
    hide Steady, Carried, PhaseOf, Call, Leads, Holds, Wrote, Delivered, Decoded, Genuine;
    DeliveredNothing(dest[..], p.hist);
    ghost var s0, all := p.Phase(), p.Pending() + src;
    ghost var h0, full := p.hist, |p.hist| + outLen;
    ghost var n: nat := 0;
    var outSize := outLen;
    destLen, srcLen := 0, 0;
    assert all[0..] == all && src[0..] == src;
    LeadsNowhere(p.prop, s0, all, full);
    while true
      invariant p.Valid() && srcLen <= |src| && n <= |all| && outSize >= 0 && destLen + outSize == outLen
      invariant Leads(p.prop, s0, all, full, p.Phase(), n) && p.Pending() + src[srcLen..] == all[n..]
      invariant |p.hist| == |h0| + destLen && Delivered(old(dest[..]), dest[..], 0, destLen, h0, p.hist)
      decreases outSize
    {
      ghost var t, rest := p.Phase(), all[n..];
      CallTail(p.prop, s0, all, full, finishMode, t, n);
      var part;
      ghost var used;
      ghost var d1, h1 := dest[..], p.hist;
      ok, part, srcLen, status, used := DecodePart(p, dest, destLen, outSize, src, srcLen, finishMode, rest, full);
      DeliveredTwice(old(dest[..]), d1, dest[..], destLen, destLen + part, h0, h1, p.hist);
      GenuineLater(p.prop, s0, all, full, t, n, p.hist);
      destLen, outSize := destLen + part, outSize - part;
      if !ok {
        return;
      }
      if part == 0 || outSize == 0 {
        return;
      }
      LeadsTwice(p.prop, s0, all, full, t, n, p.Phase(), used);
      n := n + used;
      assert all[n..] == rest[used..];
    }
  }

  /** One round of DecodeToBuf's loop. */
  method DecodePart(p: LzmaDec, dest: array<Byte>, destLen: nat, outSize: nat, src: seq<Byte>, srcLen: nat,
      finishMode: FinishMode,
                    ghost rest: seq<Byte>, ghost full: nat)
    returns (ok: bool, part: nat, srcLen': nat, status: Status, ghost used: nat)
    requires p.Valid() && p.prop.dicSize <= p.dic.Length && dest != p.dic && dest != p.tempBuf
    requires destLen + outSize <= dest.Length && srcLen <= |src|
    requires full == |p.hist| + outSize && rest == p.Pending() + src[srcLen..]
    modifies p, p.probs, p.dic, p.tempBuf, dest
    ensures var reply := Call(p.prop, old(p.Phase()), rest, full, finishMode);
            && (!ok ==> !reply.ok)
            && (ok ==> used <= |rest| && srcLen' <= |src| && p.Valid() && p.Pending() + src[srcLen'..] == rest[used..])
            && (ok && (part == 0 || part == outSize) ==> reply == Reply(true, status, p.Phase(), used))
            && (ok && 0 < part < outSize ==> Leads(p.prop, old(p.Phase()), rest, full, p.Phase(), used))
    ensures part <= outSize && |p.hist| == |old(p.hist)| + part
    ensures Delivered(old(dest[..]), dest[..], destLen, destLen + part, old(p.hist), p.hist)
    ensures ok && part == 0 && outSize > 0 ==> p.hist == Decoded(p.Phase())
    ensures Genuine(p.prop, old(p.Phase()), rest, p.hist)
  {
    hide Steady, Carried, PhaseOf, Call, Leads, Holds, Shifted, Decoded, Wrote, OnlyWithin, Genuine;
    ghost var t, h, before := p.Phase(), p.hist, dest[..destLen];
    Rewind(p);
    var dicPos := p.regs.dicPos;
    var limit, mode := dicPos + outSize, finishMode;
    if outSize > p.dic.Length - dicPos {
      limit, mode := p.dic.Length, FinishAny;
    }
    ghost var low := |h| + limit - dicPos;
    CallCut(p.prop, t, rest, low, full, finishMode);
    ghost var reply := Call(p.prop, t, rest, low, mode);
    var processed;
    ghost var was := p.dic[..];
    ok, processed, status := p.DecodeToDic(limit, src[srcLen..], mode);
    srcLen', used := srcLen + processed, reply.used;
    WroteOut(was, p.dic[..], dicPos, p.regs.dicPos, h, p.hist, if ok then p.regs.dicPos else limit);
    part := p.regs.dicPos - dicPos;
    CopyOut(dest, destLen, p.dic, dicPos, part);
    CopiedOut(old(dest[..]), dest[..], destLen, part, p.dic[..][dicPos..dicPos + part], h, p.hist);
    if !ok {
      return;
    }
    PartDone(p.prop, p.Now(), p.probs[..], p.dic[..], p.hist, h, t, rest, low, full, mode, finishMode, limit, dicPos,
        outSize);
    AllWritten(p.prop, p.Now(), p.probs[..], p.dic[..], p.hist, limit);
  }

  lemma CopiedOut(d: seq<Byte>, d': seq<Byte>, at: nat, count: nat, s: seq<Byte>, h: seq<Byte>, h': seq<Byte>)
    requires at + count <= |d| == |d'| && d'[..at + count] == d[..at] + s && d'[at + count..] == d[at + count..]
    requires h <= h' && |h'| - |h| == count && s == h'[|h|..]
    ensures Delivered(d, d', at, at + count, h, h')
  {
    assert d'[..at] == d'[..at + count][..at];
    assert d'[at..at + count] == d'[..at + count][at..];
  }

  lemma WroteOut(s: seq<Byte>, s': seq<Byte>, pos: nat, pos': nat, h: seq<Byte>, h': seq<Byte>, reach: nat)
    requires Wrote(s, s', pos, pos', h, h', reach)
    ensures pos <= pos' <= reach && pos' <= |s'| && h <= h' && |h'| - |h| == pos' - pos && s'[pos..pos'] == h'[|h|..]
  {
  }

  method Rewind(p: LzmaDec)
    requires p.Valid() && p.prop.dicSize <= p.dic.Length
    modifies p`regs
    ensures p.Valid() && p.Phase() == old(p.Phase()) && p.regs.dicPos < p.dic.Length
    ensures p.hist <= Decoded(p.Phase())
  {
    hide Steady, Carried, PhaseOf;
    HistInside(p.prop, p.Now(), p.probs[..], p.dic[..], p.hist);
    if p.regs.dicPos == p.dic.Length {
      Wrapped(p.prop, p.Now(), p.probs[..], p.dic[..], p.hist);
      p.regs := p.regs.(dicPos := 0);
    }
    HistInside(p.prop, p.Now(), p.probs[..], p.dic[..], p.hist);
  }

  /** What one round of DecodeToBuf comes to for the whole. */
  lemma PartDone(p: Props, f: Fields, probs: seq<Prob>, dic: seq<Byte>, h: seq<Byte>, h0: seq<Byte>, t: Phase,
      rest: seq<Byte>, low: nat, full: nat,
                 mode: FinishMode, finishMode: FinishMode, limit: nat, start: nat, outSize: nat)
    requires Steady(p, f, probs, dic, h)
    requires var reply := Call(p, t, rest, low, mode); reply.ok && reply.phase == PhaseOf(p, f, probs, h)
    requires h0 <= Decoded(t) && low == |h0| + limit - start
    requires start <= f.l.dicPos <= limit && |h| + limit - f.l.dicPos == low
    requires f.l.len == 0 || f.l.len == SPEC_LEN || f.l.dicPos == limit
    requires if low == full then mode == finishMode && limit == start + outSize
             else mode == FinishAny && start < limit < start + outSize && low < full
    ensures var reply := Call(p, t, rest, low, mode);
            var part := f.l.dicPos - start;
            && (part == 0 || part == outSize ==> Call(p, t, rest, full, finishMode) == reply)
            && (0 < part < outSize ==> Leads(p, t, rest, full, reply.phase, reply.used))
            && h0 <= h && |h| == |h0| + part && f.l.dicPos <= |dic| && dic[start..f.l.dicPos] == h[|h0|..]
  {
    hide Call, Leads, Linked, CoderOk, Extend, Holds;
    HistInside(p, f, probs, dic, h);
    CallPrefix(p, t, rest, low, mode);
    PrefixOf(h0, h, Decoded(t), Decoded(PhaseOf(p, f, probs, h)));
    HoldsTail(dic, f.l.dicPos, h, f.l.dicPos - start);
    ExtendNone(h, f.l.rep0);
    CallCut(p, t, rest, low, full, finishMode);
    CallShort(p, t, rest, low, mode);
  }

  // ----- the one-call interface

  datatype SRes = SzOk | SzErrorData | SzErrorUnsupported | SzErrorInputEof

  /** LzmaDecode: decodes a whole stream into the caller's buffer, which serves as the dictionary. */
  method LzmaDecode(dest: array<Byte>, src: seq<Byte>, propData: seq<Byte>, finishMode: FinishMode)
    returns (res: SRes, destLen: nat, srcLen: nat, status: Status)
    modifies dest
    ensures |src| < RC_INIT_SIZE ==> res == SzErrorInputEof && destLen == 0 && srcLen == 0
    ensures |src| >= RC_INIT_SIZE && PropsDecode(propData).Unsupported? ==>
        res == SzErrorUnsupported && destLen == 0 && srcLen == 0
    ensures |src| >= RC_INIT_SIZE && PropsDecode(propData).Ok? ==>
              var reply := Call(PropsDecode(propData).value, Start, src, dest.Length, finishMode);
              && (res == SzErrorData <==> !reply.ok)
              && (reply.ok ==> status == reply.status)
              && (reply.ok ==> res == if reply.status == NeedsMoreInput then SzErrorInputEof else SzOk)
              && (reply.ok ==> reply.used <= srcLen <= |src| && srcLen < reply.used + REQUIRED_INPUT_MAX)
              && (res == SzErrorInputEof ==> srcLen == |src|)
              && destLen <= dest.Length
              && Genuine(PropsDecode(propData).value, Start, src, dest[..destLen])
              && (res == SzOk || res == SzErrorInputEof ==>
                    && dest[..destLen] <= Decoded(reply.phase)
                    && (destLen == dest.Length || destLen == |Decoded(reply.phase)|))
  {
    hide Call, Steady, PhaseOf, Carried, PropsDecode, NumProbs, Decoded, Wrote, Genuine;
    destLen, srcLen, status := 0, 0, NotSpecified;
    if |src| < RC_INIT_SIZE {
      return SzErrorInputEof, 0, 0, status;
    }
    match PropsDecode(propData)
    case Unsupported =>
      return SzErrorUnsupported, 0, 0, status;
    case Ok(prop) =>
      var probs := new Prob[NumProbs(prop)];
      var tempBuf := new Byte[REQUIRED_INPUT_MAX];
      var p := new LzmaDec(prop, probs, dest, tempBuf);
      assert p.Pending() + src == src;
      ghost var was := dest[..];
      var ok;
      ok, srcLen, status := p.DecodeToDic(dest.Length, src, finishMode);
      destLen := p.regs.dicPos;
      WroteOut(was, dest[..], 0, destLen, [], p.hist, if ok then destLen else dest.Length);
      assert dest[..destLen] == dest[..][0..destLen] == p.hist;
      if !ok {
        return SzErrorData, destLen, srcLen, status;
      }
      PendingSmall(prop, p.Now(), probs[..], p.hist, p.Pending());
      assert |p.Pending() + src[srcLen..]| == |src[Call(prop, Start, src, dest.Length, finishMode).used..]|;
      WholeStream(prop, p.Now(), probs[..], dest[..], p.hist, dest.Length);
      res := if status == NeedsMoreInput then SzErrorInputEof else SzOk;
  }

  /** Below the limit nothing is pending: all that was decoded has been written. */
  lemma AllWritten(p: Props, f: Fields, probs: seq<Prob>, dic: seq<Byte>, h: seq<Byte>, limit: nat)
    requires Steady(p, f, probs, dic, h) && (f.l.len == 0 || f.l.len == SPEC_LEN || f.l.dicPos == limit)
    ensures f.l.dicPos < limit ==> h == Decoded(PhaseOf(p, f, probs, h))
  {
    hide Steady, PhaseOf, Decoded, Holds;
    HistInside(p, f, probs, dic, h);
    AllDecoded(p, f, probs, dic, h, limit);
  }

  /** With a fresh decoder the buffer holds all that was produced. */
  lemma WholeStream(p: Props, f: Fields, probs: seq<Prob>, dic: seq<Byte>, h: seq<Byte>, limit: nat)
    requires Steady(p, f, probs, dic, h) && |h| == f.l.dicPos <= limit
    requires f.l.len == 0 || f.l.len == SPEC_LEN || f.l.dicPos == limit
    ensures f.l.dicPos <= |dic| && dic[..f.l.dicPos] <= Decoded(PhaseOf(p, f, probs, h))
    ensures f.l.dicPos == limit || f.l.dicPos == |Decoded(PhaseOf(p, f, probs, h))|
  {
    hide Steady, PhaseOf, Decoded, Holds;
    HistInside(p, f, probs, dic, h);
    HoldsTail(dic, f.l.dicPos, h, f.l.dicPos);
    assert h[|h| - f.l.dicPos..] == h && dic[f.l.dicPos - f.l.dicPos..f.l.dicPos] == dic[..f.l.dicPos];
    AllDecoded(p, f, probs, dic, h, limit);
  }

  lemma PendingSmall(p: Props, f: Fields, probs: seq<Prob>, h: seq<Byte>, pend: seq<Byte>)
    requires p.lc <= 8 && Carried(p, f, probs, h, pend)
    ensures |pend| < REQUIRED_INPUT_MAX
  {
  }

  lemma AllDecoded(p: Props, f: Fields, probs: seq<Prob>, dic: seq<Byte>, h: seq<Byte>, limit: nat)
    requires Steady(p, f, probs, dic, h) && (f.l.len == 0 || f.l.len == SPEC_LEN || f.l.dicPos == limit)
    ensures f.l.dicPos < limit ==> |Decoded(PhaseOf(p, f, probs, h))| == |h|
  {
    hide Linked, CoderOk;
  }
}

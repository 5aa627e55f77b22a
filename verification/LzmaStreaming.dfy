/** A client that feeds the decoder piece by piece. */
module LzmaStreaming {
  import opened Basics
  import opened LzmaStream
  import opened LzmaDecoder

  /** With FINISH_ANY, a call that reports no data error has gone exactly as far as the bytes and
      the limit allow. */
  lemma CallIsAdvance(p: Props, s: Phase, src: seq<Byte>, limit: nat)
    requires p.lc <= 8 && Call(p, s, src, limit, FinishAny).ok
    ensures var c, r := Call(p, s, src, limit, FinishAny), Advance(p, s, src, limit);
            c.phase == r.phase && c.used == r.used && !r.phase.Corrupt? && r.used <= |src|
  {
    hide Advance, Used;
    AdvanceInside(p, s, src, limit);
  }

  /** A call on the front of the input, under a limit no higher than the last one, is a stretch of the
      way to the single call's answer, or has failed where the single call fails. */
  lemma OneCall(p: Props, s: Phase, src: seq<Byte>, more: seq<Byte>, limit: nat, last: nat, mode: FinishMode)
    requires p.lc <= 8 && limit <= last
    ensures var c := Call(p, s, src, limit, FinishAny);
            && (c.ok ==> c.used <= |src| && Leads(p, s, src + more, last, c.phase, c.used))
            && (!c.ok ==> !Call(p, s, src + more, last, mode).ok)
  {
    hide Advance, Leads;
    var r := Advance(p, s, src, limit);
    AdvanceInside(p, s, src, limit);
    if r.phase.Corrupt? {
      AdvanceExtends(p, s, src, more, limit);
      JoinsLater(p, s, src + more, limit, last);
      CorruptStays(p, (src + more)[Advance(p, s, src + more, limit).used..], last);
    } else {
      LeadsStop(p, s, src, limit, last);
      LeadsExtends(p, s, src, more, last, r.phase, r.used);
      if r.phase.Over? {
        RestsOver(p, r.phase.a, (src + more)[r.used..], last);
        CallRests(p, s, src + more, last, mode, r.phase, r.used);
      }
    }
  }

  /** A point on the client's way: `used` bytes of all the input have led to `s`, and the rest of them
      is still to be presented. */
  ghost predicate Underway(p: Props, s0: Phase, all: seq<Byte>, last: nat, s: Phase, used: nat, rest: seq<Byte>)
    requires p.lc <= 8
  {
    used <= |all| && all[used..] == rest && Leads(p, s0, all, last, s, used)
  }

  lemma NextCall(p: Props, s0: Phase, all: seq<Byte>, last: nat, s: Phase, used: nat, src: seq<Byte>, more: seq<Byte>,
      limit: nat, mode: FinishMode)
    requires p.lc <= 8 && limit <= last && Underway(p, s0, all, last, s, used, src + more)
    ensures var c := Call(p, s, src, limit, FinishAny);
            && (c.ok ==> c.used <= |src| && Underway(p, s0, all, last, c.phase, used + c.used, src[c.used..] + more))
            && (!c.ok ==> !Call(p, s0, all, last, mode).ok)
  {
    hide Call, Leads;
    var c := Call(p, s, src, limit, FinishAny);
    OneCall(p, s, src, more, limit, last, mode);
    CallTail(p, s0, all, last, mode, s, used);
    if c.ok {
      LeadsTwice(p, s0, all, last, s, used, c.phase, c.used);
      assert all[used + c.used..] == all[used..][c.used..] == (src + more)[c.used..] == src[c.used..] + more;
    }
  }

  lemma LastCall(p: Props, s0: Phase, all: seq<Byte>, last: nat, s: Phase, used: nat, src: seq<Byte>,
      mode: FinishMode)
    requires p.lc <= 8 && Underway(p, s0, all, last, s, used, src)
    ensures var c, d := Call(p, s, src, last, mode), Call(p, s0, all, last, mode);
            && d.ok == c.ok
            && (c.ok ==> d == Shifted(used, c))
            && (c.ok && c.used <= |src| ==> d.used <= |all| && all[d.used..] == src[c.used..])
  {
    hide Call, Leads;
    CallTail(p, s0, all, last, mode, s, used);
  }

  lemma Setout(p: Props, s0: Phase, all: seq<Byte>, last: nat)
    requires p.lc <= 8
    ensures Underway(p, s0, all, last, s0, 0, all)
  {
    hide Leads;
    LeadsNowhere(p, s0, all, last);
  }

  /** Calls LzmaDec_DecodeToDic once for every piece, each time with the bytes handed back by the
      call before in front. A limit the decoder has already passed allows it nothing more; the last
      call, under the highest limit, may demand the end mark. However the input was cut up and
      however the limits rose and fell on the way, the answer is the one that a single call on all of
      the input under the last limit gives: it fails exactly when that call fails, and otherwise has
      the same status, output, range, code, table, state and distances and the same bytes unused, in
      the decoder's own buffer or handed back. */
  method Stream(d: LzmaDec, calls: seq<(seq<Byte>, nat)>, finishMode: FinishMode)
    returns (ok: bool, left: seq<Byte>, status: Status)
    requires d.Valid() && calls != [] && Capped(calls)
    requires d.regs.dicPos <= calls[|calls| - 1].1 <= d.dic.Length
    modifies d, d.probs, d.dic, d.tempBuf
    ensures var all := old(d.Pending()) + Pieces(calls);
            var last := |old(d.hist)| + calls[|calls| - 1].1 - old(d.regs.dicPos);
            var one := Call(d.prop, old(d.Phase()), all, last, finishMode);
            && ok == one.ok
            && (ok ==> d.Valid() && d.Phase() == one.phase && status == one.status)
            && (ok ==> one.used <= |all| && d.Pending() + left == all[one.used..])
  {
    hide Call, Carried, Steady, PhaseOf, Pieces, Underway;
    ghost var s0, all, k := d.Phase(), d.Pending() + Pieces(calls), |d.hist| - d.regs.dicPos;
    ghost var last, used: nat := k + calls[|calls| - 1].1, 0;
    left, ok, status := [], true, NotSpecified;
    Setout(d.prop, s0, all, last);
    assert calls[0..] == calls && all == d.Pending() + left + Pieces(calls);
    for i := 0 to |calls| - 1
      invariant d.Valid() && |d.hist| - d.regs.dicPos == k && d.regs.dicPos <= calls[|calls| - 1].1
      invariant Underway(d.prop, s0, all, last, d.Phase(), used, d.Pending() + left + Pieces(calls[i..]))
    {
      ghost var s, src, more := d.Phase(), d.Pending() + left + calls[i].0, Pieces(calls[i + 1..]);
      PiecesNext(calls, i);
      assert d.Pending() + left + Pieces(calls[i..]) == src + more;
      var limit := if calls[i].1 < d.regs.dicPos then d.regs.dicPos else calls[i].1;
      NextCall(d.prop, s0, all, last, s, used, src, more, k + limit, finishMode);
      ok, left, status := Feed(d, limit, left + calls[i].0, FinishAny, src);
      if !ok {
        return;
      }
      used := used + Call(d.prop, s, src, k + limit, FinishAny).used;
      assert d.Pending() + left == src[Call(d.prop, s, src, k + limit, FinishAny).used..];
    }
    PiecesNext(calls, |calls| - 1);
    ghost var src := d.Pending() + left + calls[|calls| - 1].0;
    NoPieces();
    assert calls[|calls|..] == [] && d.Pending() + left + Pieces(calls[|calls| - 1..]) == src;
    LastCall(d.prop, s0, all, last, d.Phase(), used, src, finishMode);
    ok, left, status := Feed(d, calls[|calls| - 1].1, left + calls[|calls| - 1].0, finishMode, src);
  }

  /** One call, in the terms of the bytes not yet decoded. */
  method Feed(d: LzmaDec, limit: nat, src: seq<Byte>, mode: FinishMode, ghost all: seq<Byte>)
    returns (ok: bool, left: seq<Byte>, status: Status)
    requires d.Valid() && d.regs.dicPos <= limit <= d.dic.Length && all == d.Pending() + src
    modifies d, d.probs, d.dic, d.tempBuf
    ensures var c := Call(d.prop, old(d.Phase()), all, |old(d.hist)| + limit - old(d.regs.dicPos), mode);
            && ok == c.ok
            && (ok ==> d.Valid() && d.Phase() == c.phase && status == c.status && d.regs.dicPos <= limit)
            && (ok ==> |d.hist| - d.regs.dicPos == |old(d.hist)| - old(d.regs.dicPos))
            && (ok ==> c.used <= |all| && d.Pending() + left == all[c.used..])
  {
    hide Call, Carried, Steady, PhaseOf, Genuine;
    var n;
    ok, n, status := d.DecodeToDic(limit, src, mode);
    left := if ok then src[n..] else [];
  }

  lemma NoPieces()
    ensures Pieces([]) == []
  {
  }

  lemma PiecesNext(calls: seq<(seq<Byte>, nat)>, i: nat)
    requires i < |calls|
    ensures Pieces(calls[i..]) == calls[i].0 + Pieces(calls[i + 1..])
  {
    assert calls[i..][1..] == calls[i + 1..];
  }
}

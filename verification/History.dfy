/** The output history and the circular dictionary that remembers its end. */
module History {
  import opened Basics

  /** The byte `k` back from the end of the history. */
  function Back(h: seq<Byte>, k: nat): Byte {
    if 1 <= k <= |h| then h[|h| - k] else 0
  }

  /** Appends `n` bytes, each the byte `d` back from the end it is appended to. */
  function Extend(h: seq<Byte>, d: nat, n: nat): (r: seq<Byte>)
    ensures |r| == |h| + n
  {
    if n == 0 then h else var e := Extend(h, d, n - 1); e + [Back(e, d)]
  }

  lemma {:induction false} ExtendTwice(h: seq<Byte>, d: nat, i: nat, j: nat)
    ensures Extend(Extend(h, d, i), d, j) == Extend(h, d, i + j)
  {
    if j > 0 { ExtendTwice(h, d, i, j - 1); }
  }

  /** What was there stays in front. */
  lemma {:induction false} ExtendPrefix(h: seq<Byte>, d: nat, n: nat)
    ensures h <= Extend(h, d, n)
  {
    if n > 0 { ExtendPrefix(h, d, n - 1); }
  }

  /** The overlapping copy in closed form: from distance `d` on, the result is periodic. */
  lemma {:induction false} ExtendPeriodic(h: seq<Byte>, d: nat, n: nat, i: nat)
    requires 1 <= d <= |h| && |h| <= i < |h| + n
    ensures Extend(h, d, n)[i] == Extend(h, d, n)[i - d]
  {
    if i < |h| + n - 1 { ExtendPeriodic(h, d, n - 1, i); }
  }

  /** Where the byte `k` back from position `pos` lies in a circular buffer of `size` bytes. */
  function Slot(pos: nat, k: nat, size: nat): int {
    pos - k + (if pos < k then size else 0)
  }

  /** The buffer holds the end of the history, as much of it as it has room for. */
  ghost predicate Holds(dic: seq<Byte>, pos: nat, h: seq<Byte>) {
    && pos <= |dic|
    && forall k: nat {:trigger Back(h, k)} :: 1 <= k <= |h| && k <= |dic| ==> dic[Slot(pos, k, |dic|)] == Back(h, k)
  }

  lemma HoldsAppend(dic: seq<Byte>, pos: nat, h: seq<Byte>, b: Byte)
    requires Holds(dic, pos, h) && pos < |dic|
    ensures Holds(dic[pos := b], pos + 1, h + [b])
  {
    forall k: nat | 1 <= k <= |h| + 1 && k <= |dic|
      ensures dic[pos := b][Slot(pos + 1, k, |dic|)] == Back(h + [b], k)
    {
      if k > 1 {
        assert Back(h + [b], k) == Back(h, k - 1);
        assert Slot(pos + 1, k, |dic|) == Slot(pos, k - 1, |dic|);
      }
    }
  }

  /** A full buffer may be continued at its start. */
  lemma HoldsWrap(dic: seq<Byte>, h: seq<Byte>)
    requires Holds(dic, |dic|, h)
    ensures Holds(dic, 0, h)
  {
    forall k: nat | 1 <= k <= |h| && k <= |dic| ensures dic[Slot(0, k, |dic|)] == Back(h, k) {
      assert Slot(0, k, |dic|) == Slot(|dic|, k, |dic|);
    }
  }

  /** The bytes in front of the position are the last ones of the history, in order. */
  lemma HoldsTail(dic: seq<Byte>, pos: nat, h: seq<Byte>, n: nat)
    requires Holds(dic, pos, h) && n <= pos && n <= |h|
    ensures dic[pos - n..pos] == h[|h| - n..]
  {
    var s, t := dic[pos - n..pos], h[|h| - n..];
    forall i | 0 <= i < n ensures s[i] == t[i] {
      assert dic[Slot(pos, n - i, |dic|)] == Back(h, n - i);
    }
  }

  /** Nothing outside the given stretch has changed. */
  ghost predicate OnlyWithin(s: seq<Byte>, s': seq<Byte>, from: nat, to: nat) {
    |s'| == |s| && forall i :: 0 <= i < |s| && !(from <= i < to) ==> s'[i] == s[i]
  }

  lemma WithinSelf(s: seq<Byte>, from: nat, to: nat)
    ensures OnlyWithin(s, s, from, to)
  {
  }

  lemma WithinMore(s: seq<Byte>, s': seq<Byte>, from: nat, to: nat, to': nat)
    requires OnlyWithin(s, s', from, to) && to <= to'
    ensures OnlyWithin(s, s', from, to')
  {
  }

  lemma WithinTwice(s: seq<Byte>, s': seq<Byte>, s'': seq<Byte>, from: nat, mid: nat, to: nat)
    requires OnlyWithin(s, s', from, mid) && OnlyWithin(s', s'', mid, to) && from <= mid <= to
    ensures OnlyWithin(s, s'', from, to)
  {
  }

  /** The buffer between two positions holds exactly what the history gained, and nothing outside the
      stretch from the first position to `reach` has changed. */
  ghost predicate Wrote(s: seq<Byte>, s': seq<Byte>, pos: nat, pos': nat, h: seq<Byte>, h': seq<Byte>, reach: nat) {
    && pos <= pos' <= reach && pos' <= |s'| && OnlyWithin(s, s', pos, reach)
    && h <= h' && |h'| - |h| == pos' - pos && s'[pos..pos'] == h'[|h|..]
  }

  lemma WroteNothing(s: seq<Byte>, s': seq<Byte>, pos: nat, h: seq<Byte>, reach: nat)
    requires OnlyWithin(s, s', pos, reach) && pos <= reach && pos <= |s|
    ensures Wrote(s, s', pos, pos, h, h, reach)
  {
  }

  lemma WroteTwice(s: seq<Byte>, s': seq<Byte>, s'': seq<Byte>, p0: nat, p1: nat, p2: nat, h0: seq<Byte>, h1: seq<Byte>,
                   h2: seq<Byte>, reach: nat)
    requires Wrote(s, s', p0, p1, h0, h1, p1) && Wrote(s', s'', p1, p2, h1, h2, reach)
    ensures Wrote(s, s'', p0, p2, h0, h2, reach)
  {
    WithinTwice(s, s', s'', p0, p1, reach);
    assert s''[p0..p1] == s'[p0..p1];
    assert s''[p0..p2] == s''[p0..p1] + s''[p1..p2];
    assert h2[|h0|..] == h2[|h0|..|h1|] + h2[|h1|..];
    assert h2[|h0|..|h1|] == h2[..|h1|][|h0|..];
  }

  lemma WroteTail(s: seq<Byte>, s': seq<Byte>, pos: nat, pos': nat, h: seq<Byte>, h': seq<Byte>)
    requires OnlyWithin(s, s', pos, pos') && Holds(s', pos', h') && pos <= pos' <= |s'|
    requires h <= h' && |h'| - |h| == pos' - pos
    ensures Wrote(s, s', pos, pos', h, h', pos')
  {
    hide Holds, OnlyWithin;
    HoldsTail(s', pos', h', pos' - pos);
  }

  lemma WroteMore(s: seq<Byte>, s': seq<Byte>, pos: nat, pos': nat, h: seq<Byte>, h': seq<Byte>, reach: nat,
      reach': nat)
    requires Wrote(s, s', pos, pos', h, h', reach) && reach <= reach'
    ensures Wrote(s, s', pos, pos', h, h', reach')
  {
    WithinMore(s, s', pos, reach, reach');
  }

  method Append(dic: array<Byte>, pos: nat, b: Byte, ghost h: seq<Byte>)
    requires Holds(dic[..], pos, h) && pos < dic.Length
    modifies dic
    ensures Holds(dic[..], pos + 1, h + [b])
    ensures OnlyWithin(old(dic[..]), dic[..], pos, pos + 1)
  {
    ghost var was := dic[..];
    dic[pos] := b;
    assert dic[..] == was[pos := b];
    HoldsAppend(was, pos, h, b);
  }

  lemma HoldsRead(dic: seq<Byte>, pos: nat, h: seq<Byte>, k: nat)
    requires Holds(dic, pos, h) && 1 <= k <= |h| && k <= |dic|
    ensures 0 <= Slot(pos, k, |dic|) < |dic|
    ensures dic[Slot(pos, k, |dic|)] == Back(h, k)
  {
    assert dic[Slot(pos, k, |dic|)] == Back(h, k);
  }

  method CopyStraight(dic: array<Byte>, dicPos: nat, pos: nat, rep0: nat, count: nat, ghost h: seq<Byte>)
      returns (end: nat)
    requires Holds(dic[..], dicPos, h) && dicPos + count <= dic.Length
    requires 1 <= rep0 <= |h| && rep0 <= dic.Length && pos == Slot(dicPos, rep0, dic.Length)
        && pos + count <= dic.Length
    modifies dic
    ensures end == dicPos + count
    ensures Holds(dic[..], end, Extend(h, rep0, count))
    ensures OnlyWithin(old(dic[..]), dic[..], dicPos, end)
  {
    hide Holds, OnlyWithin;
    end := dicPos;
    WithinSelf(dic[..], dicPos, dicPos);
    var src := pos - dicPos;
    var lim := dicPos + count;
    ghost var g := h;
    while end != lim
      invariant dicPos <= end <= lim && g == Extend(h, rep0, end - dicPos)
      invariant Holds(dic[..], end, g) && OnlyWithin(old(dic[..]), dic[..], dicPos, end)
      decreases lim - end
    {
      HoldsRead(dic[..], end, g, rep0);
      ghost var was := dic[..];
      Append(dic, end, dic[end + src], g);
      WithinTwice(old(dic[..]), was, dic[..], dicPos, end, end + 1);
      end := end + 1;
      g := g + [Back(g, rep0)];
    }
  }

  method CopyWrapping(dic: array<Byte>, dicPos: nat, start: nat, rep0: nat, count: nat, ghost h: seq<Byte>)
      returns (end: nat)
    requires Holds(dic[..], dicPos, h) && dicPos + count <= dic.Length
    requires 1 <= rep0 <= |h| && rep0 <= dic.Length && start == Slot(dicPos, rep0, dic.Length)
    modifies dic
    ensures end == dicPos + count
    ensures Holds(dic[..], end, Extend(h, rep0, count))
    ensures OnlyWithin(old(dic[..]), dic[..], dicPos, end)
  {
    hide Holds, OnlyWithin;
    end := dicPos;
    WithinSelf(dic[..], dicPos, dicPos);
    var pos, curLen := start, count;
    ghost var g := h;
    while curLen != 0
      invariant 0 <= curLen <= count && end == dicPos + count - curLen && g == Extend(h, rep0, count - curLen)
      invariant pos == Slot(end, rep0, dic.Length)
      invariant Holds(dic[..], end, g) && OnlyWithin(old(dic[..]), dic[..], dicPos, end)
    {
      HoldsRead(dic[..], end, g, rep0);
      ghost var was := dic[..];
      Append(dic, end, dic[pos], g);
      WithinTwice(old(dic[..]), was, dic[..], dicPos, end, end + 1);
      end := end + 1;
      pos := pos + 1;
      if pos == dic.Length {
        pos := 0;
      }
      curLen := curLen - 1;
      g := g + [Back(g, rep0)];
    }
  }

  /** The match copy: a straight copy when the source does not run over the end of the buffer,
      otherwise byte by byte with the source position wrapping. */
  method CopyMatch(dic: array<Byte>, dicPos: nat, rep0: nat, count: nat, ghost h: seq<Byte>) returns (end: nat)
    requires Holds(dic[..], dicPos, h) && dicPos + count <= dic.Length
    requires 1 <= rep0 <= |h| && rep0 <= dic.Length
    modifies dic
    ensures end == dicPos + count
    ensures Holds(dic[..], end, Extend(h, rep0, count))
    ensures OnlyWithin(old(dic[..]), dic[..], dicPos, end)
  {
    var pos := (dicPos - rep0) + (if dicPos < rep0 then dic.Length else 0);
    if pos + count <= dic.Length {
      end := CopyStraight(dic, dicPos, pos, rep0, count, h);
    } else {
      end := CopyWrapping(dic, dicPos, pos, rep0, count, h);
    }
  }

  /** The byte copy that finishes a match cut off by an earlier output limit. */
  method CopyRest(dic: array<Byte>, dicPos: nat, rep0: nat, count: nat, ghost h: seq<Byte>) returns (end: nat)
    requires Holds(dic[..], dicPos, h) && dicPos + count <= dic.Length
    requires 1 <= rep0 <= |h| && rep0 <= dic.Length
    modifies dic
    ensures end == dicPos + count
    ensures Holds(dic[..], end, Extend(h, rep0, count))
    ensures OnlyWithin(old(dic[..]), dic[..], dicPos, end)
  {
    hide Holds, OnlyWithin;
    end := dicPos;
    WithinSelf(dic[..], dicPos, dicPos);
    var len := count;
    ghost var g := h;
    while len != 0
      invariant 0 <= len <= count && end == dicPos + count - len && g == Extend(h, rep0, count - len)
      invariant Holds(dic[..], end, g) && OnlyWithin(old(dic[..]), dic[..], dicPos, end)
    {
      HoldsRead(dic[..], end, g, rep0);
      ghost var was := dic[..];
      Append(dic, end, dic[(end - rep0) + (if end < rep0 then dic.Length else 0)], g);
      WithinTwice(old(dic[..]), was, dic[..], dicPos, end, end + 1);
      end := end + 1;
      len := len - 1;
      g := g + [Back(g, rep0)];
    }
  }
}
